/** What the upstream client promises over whole runs of calls. */
module UpstreamLaws {
  import opened Model
  import opened Options
  import opened Sorting
  import opened Upstream
  import opened UpdatesLaws
  import opened Version

  // ---------------------------------------------------------------- filtered releases

  /** Every filtered list is sorted, and its first version parses: what the upgrade lists rely on. */
  lemma FilteredReleases(all: seq<UpstreamRelease>, up: UpstreamSource)
    ensures
      var out := Sorted(KeptOf(all, up), Upstream.BY_VERSION);
      && UpstreamNewestFirst(out)
      && forall r | r in out :: Parses(r.version)
  {
    hide Kept, CompareStrings, Sorted, KeptOf;
    FilterResult(all, up);
    var out := Sorted(KeptOf(all, up), Upstream.BY_VERSION);
    forall r | r in out ensures Parses(r.version) {
      var raw := KeptFrom(all, up, r);
      KeptVersionParses(raw, up, r);
    }
  }

  // ---------------------------------------------------------------- runs

  datatype Config = Config(ttl: int, hasDisk: bool)

  /** A client is asked for a slug, or a new client takes its place: its memory and its rate limit start empty,
      the cache directory stays. */
  datatype Event = Ask(call: Call) | Replace

  const EMPTY := State(map[], 0, map[])

  function StateAfter(cfg: Config, events: seq<Event>): State {
    if events == [] then EMPTY
    else
      var before := StateAfter(cfg, events[..|events| - 1]);
      match events[|events| - 1]
      case Ask(call) => Step(cfg.ttl, cfg.hasDisk, before, call).state
      case Replace => State(map[], 0, before.disk)
  }

  predicate IsCall(events: seq<Event>, i: int) {
    0 <= i < |events| && events[i].Ask?
  }

  function OutcomeAt(cfg: Config, events: seq<Event>, i: nat): Outcome
    requires IsCall(events, i)
  {
    Step(cfg.ttl, cfg.hasDisk, StateAfter(cfg, events[..i]), events[i].call)
  }

  /** One call ends before the next begins, and no call's clock runs backwards. */
  ghost predicate InOrder(events: seq<Event>) {
    && (forall i | IsCall(events, i) :: Plausible(events[i].call))
    && forall i, j | IsCall(events, i) && IsCall(events, j) && i < j :: events[i].call.doneAt <= events[j].call.memAt
  }

  ghost predicate DoneBy(events: seq<Event>, t: nat) {
    forall i | IsCall(events, i) :: events[i].call.doneAt <= t
  }

  lemma EarlierEvents(events: seq<Event>, k: nat)
    requires k <= |events| && InOrder(events)
    ensures InOrder(events[..k])
    ensures IsCall(events, k) ==> DoneBy(events[..k], events[k].call.memAt)
  {
    forall i | IsCall(events[..k], i) ensures IsCall(events, i) && events[..k][i] == events[i] {
    }
  }

  /** A successful network fetch of the slug. */
  predicate Fetches(cfg: Config, events: seq<Event>, i: int, slug: string) {
    IsCall(events, i) && events[i].call.slug == slug && OutcomeAt(cfg, events, i).origin == FromNetwork
  }

  /** The last successful network fetch of a slug, by whichever client. */
  function LastFetch(cfg: Config, events: seq<Event>, slug: string): Option<Entry> {
    if events == [] then None
    else if Fetches(cfg, events, |events| - 1, slug) then OutcomeAt(cfg, events, |events| - 1).served
    else LastFetch(cfg, events[..|events| - 1], slug)
  }

  /** The last one that reached the disk. */
  function LastWritten(cfg: Config, events: seq<Event>, slug: string): Option<Entry> {
    if events == [] then None
    else if Fetches(cfg, events, |events| - 1, slug) && cfg.hasDisk && events[|events| - 1].call.diskWorks then
      OutcomeAt(cfg, events, |events| - 1).served
    else LastWritten(cfg, events[..|events| - 1], slug)
  }

  /** Whether the client that made the last fetch of the slug has been replaced. */
  predicate ReplacedSince(cfg: Config, events: seq<Event>, slug: string) {
    events != [] && !Fetches(cfg, events, |events| - 1, slug)
    && ((events[|events| - 1].Replace? && LastFetch(cfg, events[..|events| - 1], slug).Some?)
        || ReplacedSince(cfg, events[..|events| - 1], slug))
  }

  /** No other slug asked for shares the cache file of this one. */
  ghost predicate Separate(events: seq<Event>, slug: string) {
    forall i | IsCall(events, i) && CacheFile(events[i].call.slug) == CacheFile(slug) :: events[i].call.slug == slug
  }

  lemma EarlierSeparate(events: seq<Event>, k: nat, slug: string)
    requires k <= |events| && Separate(events, slug)
    ensures Separate(events[..k], slug)
  {
    hide CacheFile;
    forall i | IsCall(events[..k], i) ensures IsCall(events, i) && events[..k][i] == events[i] {
    }
  }

  function FetchedAt(e: Option<Entry>): int {
    if e.Some? then e.value.fetchedAt else -1
  }

  /** What a client's state is, told by the last fetch and the last written one. */
  ghost predicate Remembers(s: State, slug: string, last: Option<Entry>, written: Option<Entry>, replaced: bool) {
    && (CacheFile(slug) in s.disk <==> written.Some?)
    && (written.Some? ==> s.disk[CacheFile(slug)] == written.value)
    && (!replaced ==> (slug in s.mem <==> last.Some?) && (slug in s.mem ==> last == Some(s.mem[slug])))
    && (replaced && slug in s.mem ==> written == Some(s.mem[slug]))
    && FetchedAt(written) <= FetchedAt(last)
  }

  /** One call for the slug. */
  lemma AskRemembers(
      cfg: Config, s: State, c: Call, last: Option<Entry>, written: Option<Entry>, replaced: bool)
    requires Plausible(c) && Remembers(s, c.slug, last, written, replaced) && FetchedAt(last) <= c.memAt
    requires !cfg.hasDisk ==> written == None
    ensures
      var o := Step(cfg.ttl, cfg.hasDisk, s, c);
      if o.origin == FromNetwork
      then
        && o.served == Some(Entry(c.doneAt, o.served.value.releases))
        && Remembers(o.state, c.slug, o.served, if cfg.hasDisk && c.diskWorks then o.served else written, false)
      else Remembers(o.state, c.slug, last, written, replaced)
  {
    hide FetchWith, CacheFile;
  }

  /** A call for another slug, with another cache file. */
  lemma OtherRemembers(
      cfg: Config, s: State, c: Call, slug: string, last: Option<Entry>, written: Option<Entry>, replaced: bool)
    requires Remembers(s, slug, last, written, replaced) && CacheFile(c.slug) != CacheFile(slug)
    ensures Remembers(Step(cfg.ttl, cfg.hasDisk, s, c).state, slug, last, written, replaced)
  {
    hide FetchWith, CacheFile;
    assert c.slug != slug;
  }

  ghost predicate KnownState(cfg: Config, events: seq<Event>, slug: string) {
    Remembers(StateAfter(cfg, events), slug, LastFetch(cfg, events, slug), LastWritten(cfg, events, slug),
              ReplacedSince(cfg, events, slug))
  }

  /** Whatever was written and whenever clients were replaced: the disk holds the last fetch that was written,
      and memory the last fetch of all or, on a client that replaced the one that made it, at most what is on disk. */
  lemma {:induction false} DiskHoldsLastWritten(cfg: Config, events: seq<Event>, slug: string)
    requires InOrder(events) && Separate(events, slug)
    ensures KnownState(cfg, events, slug)
    ensures !cfg.hasDisk ==> LastWritten(cfg, events, slug) == None
  {
    if events != [] {
      var k := |events| - 1;
      EarlierEvents(events, k);
      EarlierSeparate(events, k, slug);
      DiskHoldsLastWritten(cfg, events[..k], slug);
      LastEventRemembers(cfg, events, slug);
    }
  }

  lemma {:induction false} LastFetchByThen(cfg: Config, events: seq<Event>, slug: string, t: nat)
    requires InOrder(events) && DoneBy(events, t)
    ensures FetchedAt(LastFetch(cfg, events, slug)) <= t
  {
    if events != [] {
      var k := |events| - 1;
      EarlierEvents(events, k);
      hide CacheFile, FetchWith, StateAfter;
      assert IsCall(events, k) ==> events[k].call.doneAt <= t;
      forall i | IsCall(events[..k], i) ensures IsCall(events, i) && events[..k][i] == events[i] {
      }
      LastFetchByThen(cfg, events[..k], slug, t);
    }
  }

  lemma LastEventRemembers(cfg: Config, events: seq<Event>, slug: string)
    requires InOrder(events) && Separate(events, slug) && events != []
    requires KnownState(cfg, events[..|events| - 1], slug)
    requires !cfg.hasDisk ==> LastWritten(cfg, events[..|events| - 1], slug) == None
    ensures KnownState(cfg, events, slug)
    ensures !cfg.hasDisk ==> LastWritten(cfg, events, slug) == None
  {
    hide CacheFile, Step;
    var k := |events| - 1;
    var before := StateAfter(cfg, events[..k]);
    var last, written := LastFetch(cfg, events[..k], slug), LastWritten(cfg, events[..k], slug);
    var replaced := ReplacedSince(cfg, events[..k], slug);
    if events[k].Ask? {
      var c := events[k].call;
      assert IsCall(events, k);
      EarlierEvents(events, k);
      LastFetchByThen(cfg, events[..k], slug, c.memAt);
      if c.slug == slug {
        AskRemembers(cfg, before, c, last, written, replaced);
      } else {
        OtherRemembers(cfg, before, c, slug, last, written, replaced);
      }
    }
  }

  // ---------------------------------------------------------------- what is served

  /** Neither memory nor disk has a fresh entry. */
  predicate NeedsNetwork(cfg: Config, s: State, c: Call) {
    && !(c.slug in s.mem && c.memAt - s.mem[c.slug].fetchedAt < cfg.ttl)
    && !(cfg.hasDisk && CacheFile(c.slug) in s.disk && c.diskAt - s.disk[CacheFile(c.slug)].fetchedAt < cfg.ttl)
  }

  /** The call brings something new. */
  predicate FetchesAnew(cfg: Config, s: State, c: Call) {
    NeedsNetwork(cfg, s, c) && FetchWith(s.limitedUntil, c).releases.Some?
  }

  /** The last fetch of the slug is out of reach: it was not written, the client that has it in memory was replaced
      or holds it for too long, and the call brings nothing new. */
  predicate LastFetchLost(cfg: Config, events: seq<Event>, i: nat)
    requires IsCall(events, i)
  {
    var c, past := events[i].call, events[..i];
    var last := LastFetch(cfg, past, c.slug);
    && last.Some? && LastWritten(cfg, past, c.slug) != last
    && (ReplacedSince(cfg, past, c.slug) || c.memAt - last.value.fetchedAt >= cfg.ttl)
    && !FetchesAnew(cfg, StateAfter(cfg, past), c)
  }

  lemma StepServes(
      cfg: Config, s: State, c: Call, last: Option<Entry>, written: Option<Entry>, replaced: bool)
    requires Plausible(c) && Remembers(s, c.slug, last, written, replaced) && FetchedAt(last) <= c.memAt
    requires !cfg.hasDisk ==> written == None
    requires replaced ==> last.Some?
    ensures
      var o := Step(cfg.ttl, cfg.hasDisk, s, c);
      var lost := && last.Some? && written != last && (replaced || c.memAt - last.value.fetchedAt >= cfg.ttl)
                  && !FetchesAnew(cfg, s, c);
      && (o.origin == FromNetwork <==> FetchesAnew(cfg, s, c))
      && (o.origin != FromNetwork ==> o.served == if lost then written else last)
  {
    hide FetchWith, CacheFile;
  }

  lemma {:induction false} ReplacedWasFetched(cfg: Config, events: seq<Event>, slug: string)
    ensures ReplacedSince(cfg, events, slug) ==> LastFetch(cfg, events, slug).Some?
  {
    hide Step;
    if events != [] {
      ReplacedWasFetched(cfg, events[..|events| - 1], slug);
    }
  }

  lemma FetchesInPrefix(cfg: Config, events: seq<Event>, i: nat, k: nat, slug: string)
    requires i < k <= |events|
    ensures Fetches(cfg, events[..k], i, slug) <==> Fetches(cfg, events, i, slug)
    ensures IsCall(events[..k], i) <==> IsCall(events, i)
    ensures IsCall(events, i) ==> OutcomeAt(cfg, events[..k], i) == OutcomeAt(cfg, events, i)
  {
    assert events[..k][..i] == events[..i];
    hide Step;
  }

  /** What a call serves, in every run: the last fetch of that very slug, its own included, or, exactly when that
      one is lost, the last fetch that was written, if any. */
  lemma ServesLastFetchExactly(cfg: Config, events: seq<Event>, i: nat)
    requires InOrder(events) && IsCall(events, i) && Separate(events, events[i].call.slug)
    ensures
      var slug, served := events[i].call.slug, OutcomeAt(cfg, events, i).served;
      && (served != LastFetch(cfg, events[..i + 1], slug) <==> LastFetchLost(cfg, events, i))
      && (LastFetchLost(cfg, events, i) ==> served == LastWritten(cfg, events[..i], slug))
  {
    var c, past := events[i].call, events[..i];
    EarlierEvents(events, i);
    EarlierSeparate(events, i, c.slug);
    DiskHoldsLastWritten(cfg, past, c.slug);
    LastFetchByThen(cfg, past, c.slug, c.memAt);
    ReplacedWasFetched(cfg, past, c.slug);
    hide CacheFile, FetchesAnew, Step, StateAfter, Remembers;
    StepServes(cfg, StateAfter(cfg, past), c, LastFetch(cfg, past, c.slug), LastWritten(cfg, past, c.slug),
               ReplacedSince(cfg, past, c.slug));
    var upTo := events[..i + 1];
    assert upTo[..i] == past && upTo[i] == events[i] && |upTo| - 1 == i;
    FetchesInPrefix(cfg, events, i, i + 1, c.slug);
  }

  // ---------------------------------------------------------------- later results

  /** As runs go on, the last fetch and the last written one only get newer. */
  lemma {:induction false} FetchesAdvance(cfg: Config, events: seq<Event>, slug: string, k: nat)
    requires InOrder(events) && Separate(events, slug) && k <= |events|
    ensures FetchedAt(LastFetch(cfg, events[..k], slug)) <= FetchedAt(LastFetch(cfg, events, slug))
    ensures FetchedAt(LastWritten(cfg, events[..k], slug)) <= FetchedAt(LastWritten(cfg, events, slug))
  {
    var n := |events| - 1;
    if k == |events| {
      assert events[..k] == events;
    } else {
      hide OutcomeAt, LastFetch, LastWritten;
      assert events[..n][..k] == events[..k];
      EarlierEvents(events, n);
      EarlierSeparate(events, n, slug);
      FetchesAdvance(cfg, events[..n], slug, k);
      LastEventAdvances(cfg, events, slug);
    }
  }

  lemma LastEventAdvances(cfg: Config, events: seq<Event>, slug: string)
    requires InOrder(events) && Separate(events, slug) && events != []
    ensures
      var rest := events[..|events| - 1];
      && FetchedAt(LastFetch(cfg, rest, slug)) <= FetchedAt(LastFetch(cfg, events, slug))
      && FetchedAt(LastWritten(cfg, rest, slug)) <= FetchedAt(LastWritten(cfg, events, slug))
  {
    var n := |events| - 1;
    EarlierEvents(events, n);
    EarlierSeparate(events, n, slug);
    DiskHoldsLastWritten(cfg, events[..n], slug);
    hide CacheFile, FetchWith, StateAfter;
    if Fetches(cfg, events, n, slug) {
      LastFetchByThen(cfg, events[..n], slug, events[n].call.memAt);
    }
  }

  /** A later result for a slug is older than an earlier one, or missing, exactly when the last fetch is lost
      to the later call and nothing as new as the earlier result was written. */
  lemma ResultsGoBackExactly(cfg: Config, events: seq<Event>, i: nat, j: nat)
    requires InOrder(events) && i < j && IsCall(events, i) && IsCall(events, j)
    requires events[j].call.slug == events[i].call.slug && Separate(events, events[i].call.slug)
    ensures
      var earlier, later := OutcomeAt(cfg, events, i).served, OutcomeAt(cfg, events, j).served;
      FetchedAt(later) < FetchedAt(earlier) <==>
      && LastFetchLost(cfg, events, j)
      && FetchedAt(LastWritten(cfg, events[..j], events[j].call.slug)) < FetchedAt(earlier)
  {
    hide OutcomeAt, LastFetch, LastWritten, LastFetchLost, Separate, InOrder;
    var slug := events[i].call.slug;
    ServesLastFetchExactly(cfg, events, j);
    ServedNoNewer(cfg, events, i);
    LastFetchAdvances(cfg, events, i + 1, j + 1, slug);
  }

  lemma LastFetchAdvances(cfg: Config, events: seq<Event>, i: nat, j: nat, slug: string)
    requires InOrder(events) && Separate(events, slug) && i <= j <= |events|
    ensures FetchedAt(LastFetch(cfg, events[..i], slug)) <= FetchedAt(LastFetch(cfg, events[..j], slug))
  {
    hide OutcomeAt, LastFetch, LastWritten;
    EarlierEvents(events, j);
    EarlierSeparate(events, j, slug);
    FetchesAdvance(cfg, events[..j], slug, i);
    assert events[..j][..i] == events[..i];
  }

  /** A call serves nothing newer than the last fetch, its own included. */
  lemma ServedNoNewer(cfg: Config, events: seq<Event>, i: nat)
    requires InOrder(events) && IsCall(events, i) && Separate(events, events[i].call.slug)
    ensures FetchedAt(OutcomeAt(cfg, events, i).served) <= FetchedAt(LastFetch(cfg, events[..i + 1], events[i].call.slug))
  {
    var slug := events[i].call.slug;
    ServesLastFetchExactly(cfg, events, i);
    LastFetchAdvances(cfg, events, i, i + 1, slug);
    EarlierEvents(events, i);
    EarlierSeparate(events, i, slug);
    DiskHoldsLastWritten(cfg, events[..i], slug);
    hide OutcomeAt, LastFetch, LastWritten, LastFetchLost, CacheFile, StateAfter, ReplacedSince, Separate, InOrder;
  }

  /** Every fetch of the slug reaches the disk. */
  ghost predicate AllWritten(cfg: Config, events: seq<Event>, slug: string) {
    forall i | Fetches(cfg, events, i, slug) :: cfg.hasDisk && events[i].call.diskWorks
  }

  lemma {:induction false} WrittenIsLast(cfg: Config, events: seq<Event>, slug: string)
    requires AllWritten(cfg, events, slug)
    ensures LastWritten(cfg, events, slug) == LastFetch(cfg, events, slug)
  {
    if events != [] {
      var k := |events| - 1;
      forall i | Fetches(cfg, events[..k], i, slug) ensures Fetches(cfg, events, i, slug) && events[..k][i] == events[i] {
        FetchesInPrefix(cfg, events, i, k, slug);
      }
      hide Fetches, OutcomeAt;
      WrittenIsLast(cfg, events[..k], slug);
    }
  }

  /** When every fetch of the slug is written, results never get older, whoever serves them, and once there was one
      there always is: a failed fetch falls back. */
  lemma NeverOlderNeverLost(cfg: Config, events: seq<Event>, i: nat, j: nat)
    requires InOrder(events) && i < j && IsCall(events, i) && IsCall(events, j)
    requires events[j].call.slug == events[i].call.slug && Separate(events, events[i].call.slug)
    requires AllWritten(cfg, events, events[i].call.slug) && OutcomeAt(cfg, events, i).served.Some?
    ensures
      var earlier, later := OutcomeAt(cfg, events, i).served, OutcomeAt(cfg, events, j).served;
      later.Some? && earlier.value.fetchedAt <= later.value.fetchedAt
  {
    var slug := events[i].call.slug;
    forall k | Fetches(cfg, events[..j], k, slug) ensures Fetches(cfg, events, k, slug) && events[..j][k] == events[k] {
      FetchesInPrefix(cfg, events, k, j, slug);
    }
    WrittenIsLast(cfg, events[..j], slug);
    ResultsGoBackExactly(cfg, events, i, j);
    hide OutcomeAt, LastFetch, LastWritten, StateAfter, ReplacedSince;
  }

  /** It does happen: a fetch that is not written, and a client that expires or is replaced. */
  lemma FailedWriteServesOlder(old_: seq<UpstreamRelease>, new_: seq<UpstreamRelease>, replace: bool)
    returns (events: seq<Event>)
    ensures InOrder(events) && |events| == 4 && IsCall(events, 1) && IsCall(events, 3)
    ensures forall i | IsCall(events, i) :: events[i].call.slug == "a/b"
    ensures
      var cfg := Config(10, true);
      var earlier, later := OutcomeAt(cfg, events, 1).served, OutcomeAt(cfg, events, 3).served;
      earlier == Some(Entry(20, new_)) && later == Some(Entry(0, old_))
  {
    hide CacheFile;
    var down: seq<Page> := [Limited(Some(0)), Limited(Some(0))];
    var first := Ask(Call("a/b", 0, 0, 0, 0, 0, down, Some(old_), true));
    var second := Ask(Call("a/b", 20, 20, 20, 20, 20, down, Some(new_), false));
    var third := Ask(Call("a/b", 40, 40, 40, 40, 40, down, None, true));
    events := [first, second, if replace then Replace else third, third];
    var cfg := Config(10, true);
    assert events[..0] == [] && events[..1] == [first] && events[..2] == [first, second];
    assert events[..3] == [first, second, events[2]];
    assert [first][..0] == [] && [first, second][..1] == [first] && events[..3][..2] == [first, second];
    var s1 := State(map["a/b" := Entry(0, old_)], 0, map[CacheFile("a/b") := Entry(0, old_)]);
    assert StateAfter(cfg, [first]) == s1;
    assert StateAfter(cfg, [first, second]) == s1.(mem := map["a/b" := Entry(20, new_)]);
    assert StateAfter(cfg, events[..3]).disk == s1.disk;
  }

  // ---------------------------------------------------------------- requests

  /** While the last fetch of a slug is fresh, the network is needed only if the client that made it was replaced and
      nothing fresh was written; and it is needed then, but for time passing between the two checks. */
  lemma NoRefetchWithinTTL(cfg: Config, events: seq<Event>, i: nat)
    requires InOrder(events) && IsCall(events, i) && Separate(events, events[i].call.slug)
    requires
      var last := LastFetch(cfg, events[..i], events[i].call.slug);
      last.Some? && events[i].call.diskAt - last.value.fetchedAt < cfg.ttl
    ensures
      var c, past := events[i].call, events[..i];
      var needs, written := NeedsNetwork(cfg, StateAfter(cfg, past), c), LastWritten(cfg, past, c.slug);
      var replaced := ReplacedSince(cfg, past, c.slug);
      && (!needs ==> !OutcomeAt(cfg, events, i).askedApi && OutcomeAt(cfg, events, i).origin in {FromMemory, FromDisk})
      && (needs ==> replaced && (written.None? || c.diskAt - written.value.fetchedAt >= cfg.ttl))
      && (replaced && (written.None? || c.memAt - written.value.fetchedAt >= cfg.ttl) ==> needs)
      && (!replaced ==> OutcomeAt(cfg, events, i).origin == FromMemory)
  {
    var c, past := events[i].call, events[..i];
    EarlierEvents(events, i);
    EarlierSeparate(events, i, c.slug);
    DiskHoldsLastWritten(cfg, past, c.slug);
    LastFetchByThen(cfg, past, c.slug, c.memAt);
    hide CacheFile, FetchWith, StateAfter, LastFetch, LastWritten, ReplacedSince;
  }

  /** The reset announced by the last rate-limited response. */
  function LastReset(cfg: Config, events: seq<Event>): nat {
    if events == [] then 0
    else
      var k := |events| - 1;
      if IsCall(events, k) && OutcomeAt(cfg, events, k).announced.Some? then OutcomeAt(cfg, events, k).announced.value
      else LastReset(cfg, events[..k])
  }

  /** Whether the client that heard it has been replaced. */
  predicate ResetForgotten(cfg: Config, events: seq<Event>) {
    events != []
    && var k := |events| - 1;
       && !(IsCall(events, k) && OutcomeAt(cfg, events, k).announced.Some?)
       && (events[k].Replace? || ResetForgotten(cfg, events[..k]))
  }

  lemma {:induction false} LimitIsLastReset(cfg: Config, events: seq<Event>)
    ensures StateAfter(cfg, events).limitedUntil == if ResetForgotten(cfg, events) then 0 else LastReset(cfg, events)
  {
    if events != [] {
      var k := |events| - 1;
      LimitIsLastReset(cfg, events[..k]);
      if events[k].Ask? {
        StepLimit(cfg, StateAfter(cfg, events[..k]), events[k].call);
        hide Step;
      }
    }
  }

  lemma StepLimit(cfg: Config, s: State, c: Call)
    ensures
      var o := Step(cfg.ttl, cfg.hasDisk, s, c);
      o.state.limitedUntil == if o.announced.Some? then o.announced.value else s.limitedUntil
  {
    hide CacheFile, ReadPages;
  }

  /** The API is asked exactly when a call needs the network and the last announced reset has passed, or the client
      that heard of it has been replaced; otherwise the feed stands in. */
  lemma RespectsRateLimit(cfg: Config, events: seq<Event>, i: nat)
    requires IsCall(events, i)
    ensures
      var o, c, past := OutcomeAt(cfg, events, i), events[i].call, events[..i];
      var needs := NeedsNetwork(cfg, StateAfter(cfg, past), c);
      && (o.askedApi <==> needs && (c.limitAt >= LastReset(cfg, past) || ResetForgotten(cfg, past)))
      && (needs && !o.askedApi ==>
            if c.feed.Some? then o.origin == FromNetwork && o.served == Some(Entry(c.doneAt, c.feed.value))
            else o.origin in {FromStaleDisk, NoResult})
  {
    LimitIsLastReset(cfg, events[..i]);
    hide CacheFile, ReadPages, StateAfter, LastReset, ResetForgotten;
  }

  // ---------------------------------------------------------------- shared cache files

  lemma {:induction false} ReplaceSlashOfText(s: string, t: string)
    requires '/' !in s
    ensures ReplaceSlash(s + t) == s + ReplaceSlash(t)
  {
    if s == "" {
      assert s + t == t;
    } else {
      assert (s + t)[1..] == s[1..] + t;
      ReplaceSlashOfText(s[1..], t);
      assert [s[0]] + (s[1..] + ReplaceSlash(t)) == s + ReplaceSlash(t);
    }
  }

  /** The cache file of owner/repo. */
  lemma CacheFileOf(owner: string, repo: string)
    requires '/' !in owner && '/' !in repo
    ensures CacheFile(owner + "/" + repo) == owner + "__" + repo + ".json"
  {
    ReplaceSlashOfText(owner, "/" + repo);
    assert owner + "/" + repo == owner + ("/" + repo);
    ReplaceSlashOfText(repo, "");
    assert repo + "" == repo;
    assert ("/" + repo)[1..] == repo;
    assert owner + ("__" + repo) == owner + "__" + repo;
  }

  /** The second owner goes on past the first one's end, through the separator that stands for the slash. */
  ghost predicate Shifted(o1: string, r1: string, o2: string, r2: string) {
    || (o2 == o1 + "_" && r1 == "_" + r2)
    || (exists x: string :: o2 == o1 + "__" + x && r1 == x + "__" + r2)
  }

  /** Two slugs share a cache file exactly when they are equal or one owner is the other shifted. */
  lemma CollisionExactly(o1: string, r1: string, o2: string, r2: string)
    requires '/' !in o1 && '/' !in r1 && '/' !in o2 && '/' !in r2
    ensures CacheFile(o1 + "/" + r1) == CacheFile(o2 + "/" + r2) <==>
            (o1 == o2 && r1 == r2) || Shifted(o1, r1, o2, r2) || Shifted(o2, r2, o1, r1)
  {
    CacheFileOf(o1, r1);
    CacheFileOf(o2, r2);
    SameText(o1 + "__" + r1, o2 + "__" + r2);
    if |o1| < |o2| {
      ShiftedExactly(o1, r1, o2, r2);
    } else if |o2| < |o1| {
      ShiftedExactly(o2, r2, o1, r1);
    } else {
      EqualLengthExactly(o1, r1, o2, r2);
    }
  }

  lemma SameText(a: string, b: string)
    ensures a + ".json" == b + ".json" <==> a == b
  {
    if a + ".json" == b + ".json" {
      assert |a| == |b|;
      assert a == (a + ".json")[..|a|] && b == (b + ".json")[..|b|];
    }
  }

  lemma EqualLengthExactly(o1: string, r1: string, o2: string, r2: string)
    requires |o1| == |o2|
    ensures o1 + "__" + r1 == o2 + "__" + r2 <==> o1 == o2 && r1 == r2
    ensures !Shifted(o1, r1, o2, r2) && !Shifted(o2, r2, o1, r1)
  {
    var a, b := o1 + "__" + r1, o2 + "__" + r2;
    if a == b {
      assert o1 == a[..|o1|] && o2 == b[..|o1|];
      assert r1 == a[|o1| + 2..] && r2 == b[|o1| + 2..];
    }
  }

  lemma ShiftedExactly(o1: string, r1: string, o2: string, r2: string)
    requires |o1| < |o2|
    ensures o1 + "__" + r1 == o2 + "__" + r2 <==> Shifted(o1, r1, o2, r2)
    ensures !Shifted(o2, r2, o1, r1) && o1 != o2
  {
    var n := |o1|;
    var a, b := o1 + "__" + r1, o2 + "__" + r2;
    if a == b {
      assert a[n] == '_' && a[n + 1] == '_';
      assert o1 == a[..n] && o2 == b[..|o2|];
      assert r1 == a[n + 2..];
      if |o2| == n + 1 {
        assert o2 == o1 + "_";
        assert r1[0] == b[n + 2] == '_' && r2 == b[n + 3..] == r1[1..];
      } else {
        var x := o2[n + 2..];
        assert o2 == o1 + "__" + x;
        assert b == o1 + "__" + (x + "__" + r2);
        assert r1 == x + "__" + r2;
      }
    }
    if x :| o2 == o1 + "__" + x && r1 == x + "__" + r2 {
      assert a == o1 + "__" + x + "__" + r2;
    }
    if o2 == o1 + "_" && r1 == "_" + r2 {
      assert a == o1 + "___" + r2 == b;
    }
  }

  /** Owners without a double underscore and without one at the end, such as all GitHub owners. */
  ghost predicate SafeOwner(owner: string) {
    && (owner != "" ==> owner[|owner| - 1] != '_')
    && forall i | 0 <= i < |owner| - 1 :: !(owner[i] == '_' && owner[i + 1] == '_')
  }

  /** Between such owners cache files never collide. */
  lemma SafeOwnersNeverCollide(o1: string, r1: string, o2: string, r2: string)
    requires '/' !in o1 && '/' !in r1 && '/' !in o2 && '/' !in r2
    requires SafeOwner(o1) && SafeOwner(o2)
    ensures CacheFile(o1 + "/" + r1) == CacheFile(o2 + "/" + r2) ==> o1 == o2 && r1 == r2
  {
    CollisionExactly(o1, r1, o2, r2);
    NotShifted(o1, r1, o2, r2);
    NotShifted(o2, r2, o1, r1);
  }

  lemma NotShifted(o1: string, r1: string, o2: string, r2: string)
    requires SafeOwner(o2)
    ensures !Shifted(o1, r1, o2, r2)
  {
    assert (o1 + "_")[|o1|] == '_';
    if x :| o2 == o1 + "__" + x && r1 == x + "__" + r2 {
      DoubleUnderscore(o1, x);
    }
  }

  lemma DoubleUnderscore(before: string, after: string)
    ensures !SafeOwner(before + "__" + after)
  {
    var owner := before + "__" + after;
    assert owner[|before|] == '_' && owner[|before| + 1] == '_';
  }

  /** A run in which only two slugs are asked for, and the first gets a result without ever having been fetched. */
  ghost predicate ServesForeign(cfg: Config, slug: string, other: string, events: seq<Event>, i: nat) {
    && InOrder(events) && IsCall(events, i) && events[i].call.slug == slug
    && (forall k | IsCall(events, k) :: events[k].call.slug == slug || events[k].call.slug == other)
    && LastFetch(cfg, events[..i + 1], slug) == None && OutcomeAt(cfg, events, i).served.Some?
  }

  ghost predicate CanServeForeign(cfg: Config, slug: string, other: string) {
    exists events, i :: ServesForeign(cfg, slug, other, events, i)
  }

  lemma SeparateNeverForeign(cfg: Config, slug: string, other: string, events: seq<Event>, i: nat)
    requires CacheFile(slug) != CacheFile(other)
    ensures !ServesForeign(cfg, slug, other, events, i)
  {
    hide CacheFile;
    if ServesForeign(cfg, slug, other, events, i) {
      assert Separate(events, slug);
      ServesLastFetchExactly(cfg, events, i);
      NothingFetched(cfg, events, i, slug);
      hide OutcomeAt, LastFetch, StateAfter, InOrder;
    }
  }

  lemma NothingFetched(cfg: Config, events: seq<Event>, i: nat, slug: string)
    requires i < |events| && LastFetch(cfg, events[..i + 1], slug) == None
    ensures LastFetch(cfg, events[..i], slug) == None
  {
    var upTo := events[..i + 1];
    assert upTo[..i] == events[..i];
    if Fetches(cfg, upTo, i, slug) {
      FetchedIsServed(cfg, upTo, i, slug);
    }
    hide OutcomeAt, Fetches;
  }

  lemma FetchedIsServed(cfg: Config, events: seq<Event>, i: nat, slug: string)
    requires Fetches(cfg, events, i, slug)
    ensures OutcomeAt(cfg, events, i).served.Some?
  {
    hide FetchWith, CacheFile, StateAfter;
  }

  /** Ask for one slug while the network answers, then for the other while it does not. */
  lemma SharedServesForeign(cfg: Config, slug: string, other: string, releases: seq<UpstreamRelease>)
    requires cfg.hasDisk && slug != other && CacheFile(slug) == CacheFile(other)
    ensures CanServeForeign(cfg, slug, other)
  {
    hide CacheFile;
    var down: seq<Page> := [Limited(Some(0)), Limited(Some(0))];
    var first := Ask(Call(other, 0, 0, 0, 0, 0, down, Some(releases), true));
    var second := Ask(Call(slug, 20, 20, 20, 20, 20, down, None, true));
    var events := [first, second];
    assert events[..1] == [first] && [first][..0] == [] && events[..2] == events;
    var s1 := State(map[other := Entry(0, releases)], 0, map[CacheFile(other) := Entry(0, releases)]);
    assert StateAfter(cfg, [first]) == s1;
    assert LastFetch(cfg, [first], slug) == None;
    assert OutcomeAt(cfg, events, 1).served == Some(Entry(0, releases));
    assert ServesForeign(cfg, slug, other, events, 1);
  }

  /** Of two different slugs, one can be served the other's releases, without a fetch of its own, exactly when
      there is a cache directory and one owner is the other shifted. */
  lemma CollisionServesAnotherExactly(cfg: Config, o1: string, r1: string, o2: string, r2: string)
    requires '/' !in o1 && '/' !in r1 && '/' !in o2 && '/' !in r2
    requires o1 + "/" + r1 != o2 + "/" + r2
    ensures CanServeForeign(cfg, o1 + "/" + r1, o2 + "/" + r2) <==>
            cfg.hasDisk && (Shifted(o1, r1, o2, r2) || Shifted(o2, r2, o1, r1))
  {
    hide CacheFile, Shifted;
    var slug, other := o1 + "/" + r1, o2 + "/" + r2;
    CollisionExactly(o1, r1, o2, r2);
    assert !(o1 == o2 && r1 == r2);
    if cfg.hasDisk && CacheFile(slug) == CacheFile(other) {
      SharedServesForeign(cfg, slug, other, []);
    }
    if CanServeForeign(cfg, slug, other) {
      var events, i :| ServesForeign(cfg, slug, other, events, i);
      if cfg.hasDisk {
        if CacheFile(slug) != CacheFile(other) {
          SeparateNeverForeign(cfg, slug, other, events, i);
        }
      } else {
        WithoutDisk(cfg, slug, other, events, i);
      }
    }
  }

  lemma WithoutDisk(cfg: Config, slug: string, other: string, events: seq<Event>, i: nat)
    requires !cfg.hasDisk
    ensures !ServesForeign(cfg, slug, other, events, i)
  {
    if ServesForeign(cfg, slug, other, events, i) {
      NothingFetched(cfg, events, i, slug);
      MemoryWasFetched(cfg, events[..i], slug);
      hide CacheFile, FetchWith, StateAfter, InOrder;
      FetchesInPrefix(cfg, events, i, i + 1, slug);
    }
  }

  lemma {:induction false} MemoryWasFetched(cfg: Config, events: seq<Event>, slug: string)
    requires !cfg.hasDisk && LastFetch(cfg, events, slug) == None
    ensures slug !in StateAfter(cfg, events).mem
  {
    hide CacheFile, FetchWith;
    if events != [] {
      MemoryWasFetched(cfg, events[..|events| - 1], slug);
    }
  }
}
