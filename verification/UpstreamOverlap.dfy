/** The upstream client with calls for different slugs under way at once, as in an upstream round (internal/upstream).
    A call checks memory and disk, then the rate limit, takes in the answer of the API, and finishes; between these
    points calls for other slugs go on. Calls for one slug follow one another. */
module UpstreamOverlap {
  import opened Options
  import opened Upstream
  import L = UpstreamLaws

  /** A call on its way to the network: what it read from disk, the limit it has seen and when in the history it did,
      and whether it has its answer. */
  datatype Flight = Flight(call: Call, disk: Option<Entry>, seen: Option<nat>, checkedAt: nat, answered: bool)

  /** What has happened: calls that ended, rate limits that were announced, clients that were replaced. */
  datatype Past =
    | Ended(call: Call, needed: bool, checkedAt: nat, asked: bool, fetched: bool, served: Option<Entry>)
    | Announced(until: nat)
    | Replaced

  datatype World = World(client: State, flights: map<string, Flight>, history: seq<Past>)

  datatype Event = Enter(call: Call) | Check(slug: string) | Answer(slug: string) | Finish(slug: string) | Replace

  const START := World(L.EMPTY, map[], [])

  // ---------------------------------------------------------------- what the history tells

  predicate Fetched(p: Past, slug: string) {
    p.Ended? && p.call.slug == slug && p.fetched
  }

  function LastFetch(history: seq<Past>, slug: string): Option<Entry> {
    if history == [] then None
    else if Fetched(history[|history| - 1], slug) then history[|history| - 1].served
    else LastFetch(history[..|history| - 1], slug)
  }

  function LastWritten(cfg: L.Config, history: seq<Past>, slug: string): Option<Entry> {
    if history == [] then None
    else
      var last := history[|history| - 1];
      if Fetched(last, slug) && cfg.hasDisk && last.call.diskWorks then last.served
      else LastWritten(cfg, history[..|history| - 1], slug)
  }

  predicate ReplacedSince(history: seq<Past>, slug: string) {
    && history != [] && !Fetched(history[|history| - 1], slug)
    && ((history[|history| - 1].Replaced? && LastFetch(history[..|history| - 1], slug).Some?)
        || ReplacedSince(history[..|history| - 1], slug))
  }

  /** The reset that the present client last heard of. */
  function LimitKnown(history: seq<Past>): nat {
    if history == [] then 0
    else
      match history[|history| - 1]
      case Announced(until) => until
      case Replaced => 0
      case Ended(_, _, _, _, _, _) => LimitKnown(history[..|history| - 1])
  }

  // ---------------------------------------------------------------- events

  function OnDisk(cfg: L.Config, s: State, slug: string): Option<Entry> {
    if cfg.hasDisk && CacheFile(slug) in s.disk then Some(s.disk[CacheFile(slug)]) else None
  }

  predicate Enabled(cfg: L.Config, w: World, e: Event) {
    match e
    case Enter(c) =>
      Plausible(c) && c.slug !in w.flights && L.FetchedAt(LastFetch(w.history, c.slug)) <= c.memAt
    case Check(slug) => slug in w.flights && w.flights[slug].seen.None?
    case Answer(slug) => slug in w.flights && w.flights[slug].seen.Some? && !w.flights[slug].answered
    case Finish(slug) => slug in w.flights && w.flights[slug].seen.Some? && w.flights[slug].answered
    case Replace => w.flights == map[]
  }

  function Entered(cfg: L.Config, w: World, c: Call): World {
    if L.NeedsNetwork(cfg, w.client, c) then
      w.(flights := w.flights[c.slug := Flight(c, OnDisk(cfg, w.client, c.slug), None, 0, false)])
    else
      var o := Step(cfg.ttl, cfg.hasDisk, w.client, c);
      w.(client := o.state, history := w.history + [Ended(c, false, 0, false, false, o.served)])
  }

  function Answered(w: World, slug: string): World
    requires slug in w.flights && w.flights[slug].seen.Some?
  {
    var f := w.flights[slug];
    var heard := FetchWith(f.seen.value, f.call).announced;
    var flights := w.flights[slug := f.(answered := true)];
    if heard.Some? then
      World(w.client.(limitedUntil := heard.value), flights, w.history + [Announced(heard.value)])
    else w.(flights := flights)
  }

  function Finished(cfg: L.Config, w: World, slug: string): World
    requires slug in w.flights && w.flights[slug].seen.Some?
  {
    var f := w.flights[slug];
    var got := FetchWith(f.seen.value, f.call);
    match got.releases
    case Some(releases) =>
      var e := Entry(f.call.doneAt, releases);
      World(
        w.client.(mem := w.client.mem[slug := e],
                  disk := if cfg.hasDisk && f.call.diskWorks then w.client.disk[CacheFile(slug) := e] else w.client.disk),
        w.flights - {slug}, w.history + [Ended(f.call, true, f.checkedAt, got.askedApi, true, Some(e))])
    case None =>
      w.(flights := w.flights - {slug},
         history := w.history + [Ended(f.call, true, f.checkedAt, got.askedApi, false, f.disk)])
  }

  function After(cfg: L.Config, w: World, e: Event): World
    requires Enabled(cfg, w, e)
  {
    match e
    case Enter(c) => Entered(cfg, w, c)
    case Check(slug) =>
      var f := w.flights[slug].(seen := Some(w.client.limitedUntil), checkedAt := |w.history|);
      w.(flights := w.flights[slug := f])
    case Answer(slug) => Answered(w, slug)
    case Finish(slug) => Finished(cfg, w, slug)
    case Replace => World(State(map[], 0, w.client.disk), map[], w.history + [Replaced])
  }

  predicate Possible(cfg: L.Config, events: seq<Event>)
    decreases |events|, 0
  {
    events == [] ||
    (Possible(cfg, events[..|events| - 1]) && Enabled(cfg, Run(cfg, events[..|events| - 1]), events[|events| - 1]))
  }

  function Run(cfg: L.Config, events: seq<Event>): World
    requires Possible(cfg, events)
    decreases |events|, 1
  {
    if events == [] then START else After(cfg, Run(cfg, events[..|events| - 1]), events[|events| - 1])
  }

  /** No other slug asked for shares the cache file of this one. */
  ghost predicate Separate(events: seq<Event>, slug: string) {
    forall e | e in events && e.Enter? && CacheFile(e.call.slug) == CacheFile(slug) :: e.call.slug == slug
  }

  // ---------------------------------------------------------------- the rate limit

  /** The limit a call has seen is the one its client had heard of when it checked. */
  ghost predicate LimitOk(w: World) {
    && w.client.limitedUntil == LimitKnown(w.history)
    && (forall slug | slug in w.flights && w.flights[slug].seen.Some? ::
          && w.flights[slug].checkedAt <= |w.history|
          && w.flights[slug].seen.value == LimitKnown(w.history[..w.flights[slug].checkedAt]))
    && forall h | 0 <= h < |w.history| && w.history[h].Ended? :: AskedRight(w.history, h)
  }

  /** The API was asked if the network was needed and no reset that was known at the check was pending; and the call
      brought something new as that makes it. */
  ghost predicate AskedRight(history: seq<Past>, h: nat)
    requires h < |history| && history[h].Ended?
  {
    var p := history[h];
    && p.checkedAt <= h
    && (p.asked <==> p.needed && p.call.limitAt >= LimitKnown(history[..p.checkedAt]))
    && (p.fetched <==> p.needed && FetchWith(LimitKnown(history[..p.checkedAt]), p.call).releases.Some?)
  }

  lemma AskedStays(history: seq<Past>, p: Past, h: nat)
    requires h < |history| && history[h].Ended? && AskedRight(history, h)
    ensures AskedRight(history + [p], h)
  {
    hide FetchWith, LimitKnown;
    var q := history[h];
    assert (history + [p])[..q.checkedAt] == history[..q.checkedAt];
  }

  lemma GrowsBy(w: World, w': World, p: Past)
    requires LimitOk(w) && w'.history == w.history + [p]
    requires w'.client.limitedUntil == LimitKnown(w'.history)
    requires forall slug | slug in w'.flights && w'.flights[slug].seen.Some? ::
               slug in w.flights && w.flights[slug].seen == w'.flights[slug].seen
               && w.flights[slug].checkedAt == w'.flights[slug].checkedAt
    requires p.Ended? ==> AskedRight(w'.history, |w.history|)
    ensures LimitOk(w')
  {
    hide AskedRight, LimitKnown;
    forall slug | slug in w'.flights && w'.flights[slug].seen.Some?
      ensures w'.flights[slug].checkedAt <= |w'.history|
              && w'.flights[slug].seen.value == LimitKnown(w'.history[..w'.flights[slug].checkedAt])
    {
      assert w'.history[..w'.flights[slug].checkedAt] == w.history[..w'.flights[slug].checkedAt];
    }
    forall h | 0 <= h < |w'.history| && w'.history[h].Ended? ensures AskedRight(w'.history, h) {
      if h < |w.history| {
        AskedStays(w.history, p, h);
      }
    }
  }

  lemma LimitKnownNext(history: seq<Past>, p: Past)
    ensures LimitKnown(history + [p]) == match p case Announced(until) => until case Replaced => 0 case _ => LimitKnown(history)
  {
    assert (history + [p])[..|history|] == history;
  }

  lemma AskedExactly(seen: nat, c: Call)
    ensures FetchWith(seen, c).askedApi <==> c.limitAt >= seen
  {
    hide ReadPages;
  }

  lemma EndedRight(history: seq<Past>, p: Past)
    requires p.Ended? && p.checkedAt <= |history|
    requires p.asked <==> p.needed && p.call.limitAt >= LimitKnown(history[..p.checkedAt])
    requires p.fetched <==> p.needed && FetchWith(LimitKnown(history[..p.checkedAt]), p.call).releases.Some?
    ensures AskedRight(history + [p], |history|)
  {
    hide FetchWith, LimitKnown;
    assert (history + [p])[..p.checkedAt] == history[..p.checkedAt];
  }

  lemma EnterKeepsLimit(cfg: L.Config, w: World, c: Call)
    requires LimitOk(w) && Enabled(cfg, w, Enter(c))
    ensures LimitOk(After(cfg, w, Enter(c)))
  {
    hide FetchWith, CacheFile, L.NeedsNetwork, AskedRight, Step, LimitKnown, LastFetch;
    var w' := After(cfg, w, Enter(c));
    if !L.NeedsNetwork(cfg, w.client, c) {
      FreshKeepsLimit(cfg, w.client, c);
      LimitKnownNext(w.history, w'.history[|w.history|]);
      EndedRight(w.history, w'.history[|w.history|]);
      GrowsBy(w, w', w'.history[|w.history|]);
    }
  }

  lemma EventKeepsLimit(cfg: L.Config, w: World, e: Event)
    requires LimitOk(w) && Enabled(cfg, w, e)
    ensures LimitOk(After(cfg, w, e))
  {
    hide FetchWith, CacheFile, L.NeedsNetwork, AskedRight;
    var w' := After(cfg, w, e);
    if |w'.history| == |w.history| + 1 {
      LimitKnownNext(w.history, w'.history[|w.history|]);
    }
    match e
    case Enter(c) => EnterKeepsLimit(cfg, w, c);
    case Check(slug) =>
      assert w.history[..|w.history|] == w.history;
      hide LimitKnown;
    case Answer(slug) =>
      hide LimitKnown;
      if w'.history != w.history {
        GrowsBy(w, w', w'.history[|w.history|]);
      }
    case Finish(slug) =>
      hide LimitKnown;
      var f := w.flights[slug];
      AskedExactly(f.seen.value, f.call);
      EndedRight(w.history, w'.history[|w.history|]);
      GrowsBy(w, w', w'.history[|w.history|]);
    case Replace =>
      hide LimitKnown;
      GrowsBy(w, w', Replaced);
  }

  lemma FreshKeepsLimit(cfg: L.Config, s: State, c: Call)
    requires !L.NeedsNetwork(cfg, s, c)
    ensures Step(cfg.ttl, cfg.hasDisk, s, c).state.limitedUntil == s.limitedUntil
  {
    hide CacheFile, FetchWith;
  }

  lemma {:induction false} LimitsInEveryRun(cfg: L.Config, events: seq<Event>)
    requires Possible(cfg, events)
    ensures LimitOk(Run(cfg, events))
  {
    if events != [] {
      hide Enabled, After, LimitOk;
      LimitsInEveryRun(cfg, events[..|events| - 1]);
      EventKeepsLimit(cfg, Run(cfg, events[..|events| - 1]), events[|events| - 1]);
    }
  }

  /** With calls of other slugs under way: a call asks the API exactly when it needs the network and the reset last
      announced to its client, before the call checked, has passed. A reset announced after that holds it back no more. */
  lemma RespectsRateLimit(cfg: L.Config, events: seq<Event>, h: nat)
    requires Possible(cfg, events) && h < |Run(cfg, events).history| && Run(cfg, events).history[h].Ended?
    ensures
      var history := Run(cfg, events).history;
      && history[h].checkedAt <= h
      && (history[h].asked <==> history[h].needed && history[h].call.limitAt >= LimitKnown(history[..history[h].checkedAt]))
  {
    LimitsInEveryRun(cfg, events);
    hide Run, Possible, LimitKnown, FetchWith;
    assert AskedRight(Run(cfg, events).history, h);
  }

  lemma Extends(cfg: L.Config, events: seq<Event>, e: Event)
    requires Possible(cfg, events) && Enabled(cfg, Run(cfg, events), e)
    ensures Possible(cfg, events + [e]) && Run(cfg, events + [e]) == After(cfg, Run(cfg, events), e)
  {
    hide Enabled, After;
    assert (events + [e])[..|events|] == events;
  }

  /** It does happen: a call asks the API although a reset that is still to come was announced before its request,
      because it had checked before that. */
  lemma AnnouncedTooLate(cfg: L.Config) returns (events: seq<Event>)
    ensures Possible(cfg, events)
    ensures
      var history := Run(cfg, events).history;
      && |history| == 2 && history[0] == Announced(100)
      && history[1].Ended? && history[1].call.slug == "c/d" && history[1].asked && history[1].call.limitAt < 100
  {
    hide CacheFile;
    var limited: seq<Page> := [Limited(Some(100)), Limited(Some(100))];
    var empty: seq<Page> := [Batch([]), Batch([])];
    var first := Call("a/b", 1, 1, 1, 1, 1, limited, None, false);
    var second := Call("c/d", 1, 1, 1, 1, 1, empty, None, false);
    var entered := [] + [Enter(first)] + [Enter(second)];
    Extends(cfg, [], Enter(first));
    Extends(cfg, [] + [Enter(first)], Enter(second));
    var checked := entered + [Check("a/b")] + [Check("c/d")];
    Extends(cfg, entered, Check("a/b"));
    Extends(cfg, entered + [Check("a/b")], Check("c/d"));
    hide Possible, Run, ReadPages, L.NeedsNetwork;
    assert ReadPages(limited) == ApiLimited(Some(100)) by { FirstPage(limited); }
    assert ReadPages(empty).ApiOk? by { FirstPage(empty); }
    var heard := checked + [Answer("a/b")] + [Answer("c/d")];
    Extends(cfg, checked, Answer("a/b"));
    Extends(cfg, checked + [Answer("a/b")], Answer("c/d"));
    events := heard + [Finish("c/d")];
    Extends(cfg, heard, Finish("c/d"));
  }

  lemma FirstPage(pages: seq<Page>)
    requires pages != []
    ensures pages[0].Limited? ==> ReadPages(pages) == ApiLimited(pages[0].reset)
    ensures pages[0].Batch? && |pages[0].batch| < PAGE_SIZE ==> ReadPages(pages).ApiOk?
  {
  }

  // ---------------------------------------------------------------- what is served

  /** Memory and disk are as the ended calls of the slug say, and a call under way has seen just that. */
  ghost predicate SlugOk(cfg: L.Config, w: World, slug: string) {
    var last, written := LastFetch(w.history, slug), LastWritten(cfg, w.history, slug);
    && L.Remembers(w.client, slug, last, written, ReplacedSince(w.history, slug))
    && (!cfg.hasDisk ==> written == None)
    && (slug in w.flights ==>
          var f := w.flights[slug];
          && f.call.slug == slug && Plausible(f.call) && f.disk == OnDisk(cfg, w.client, slug)
          && L.NeedsNetwork(cfg, w.client, f.call) && L.FetchedAt(last) <= f.call.memAt)
    && forall h | 0 <= h < |w.history| && w.history[h].Ended? && w.history[h].call.slug == slug :: ServedRight(cfg, w.history, h)
  }

  /** The last fetch is out of reach of the call that ended at place h. */
  predicate Lost(cfg: L.Config, history: seq<Past>, h: nat)
    requires h < |history| && history[h].Ended?
  {
    var c, past := history[h].call, history[..h];
    var last := LastFetch(past, c.slug);
    && last.Some? && LastWritten(cfg, past, c.slug) != last
    && (ReplacedSince(past, c.slug) || c.memAt - last.value.fetchedAt >= cfg.ttl)
    && !history[h].fetched
  }

  ghost predicate ServedRight(cfg: L.Config, history: seq<Past>, h: nat)
    requires h < |history| && history[h].Ended?
  {
    var c, past := history[h].call, history[..h];
    if history[h].fetched then history[h].served.Some? && history[h].served.value.fetchedAt == c.doneAt
    else history[h].served == if Lost(cfg, history, h) then LastWritten(cfg, past, c.slug) else LastFetch(past, c.slug)
  }

  lemma ServedStays(cfg: L.Config, history: seq<Past>, p: Past, h: nat)
    requires h < |history| && history[h].Ended? && ServedRight(cfg, history, h)
    ensures ServedRight(cfg, history + [p], h)
  {
    hide LastFetch, LastWritten, ReplacedSince;
    assert (history + [p])[..h] == history[..h];
  }

  lemma HistoryNext(cfg: L.Config, history: seq<Past>, p: Past, slug: string)
    ensures LastFetch(history + [p], slug) == if Fetched(p, slug) then p.served else LastFetch(history, slug)
    ensures LastWritten(cfg, history + [p], slug) ==
            if Fetched(p, slug) && cfg.hasDisk && p.call.diskWorks then p.served else LastWritten(cfg, history, slug)
    ensures ReplacedSince(history + [p], slug) <==>
            !Fetched(p, slug) && ((p.Replaced? && LastFetch(history, slug).Some?) || ReplacedSince(history, slug))
  {
    assert (history + [p])[..|history|] == history;
  }

  lemma {:induction false} ReplacedWasFetched(history: seq<Past>, slug: string)
    ensures ReplacedSince(history, slug) ==> LastFetch(history, slug).Some?
  {
    if history != [] {
      ReplacedWasFetched(history[..|history| - 1], slug);
    }
  }

  /** A step of the client for the slug, as one call that meets the limit it has seen. */
  lemma OwnStep(cfg: L.Config, w: World, w': World, s: State, c: Call, p: Past)
    requires SlugOk(cfg, w, c.slug) && Plausible(c) && L.FetchedAt(LastFetch(w.history, c.slug)) <= c.memAt
    requires s == w.client.(limitedUntil := s.limitedUntil)
    requires p.Ended? && p.call == c && w'.history == w.history + [p] && c.slug !in w'.flights
    requires
      var o := Step(cfg.ttl, cfg.hasDisk, s, c);
      && (p.fetched <==> o.origin == FromNetwork) && p.served == o.served
      && w'.client == o.state.(limitedUntil := w'.client.limitedUntil)
    ensures SlugOk(cfg, w', c.slug)
  {
    var slug := c.slug;
    var last, written, replaced := LastFetch(w.history, slug), LastWritten(cfg, w.history, slug), ReplacedSince(w.history, slug);
    HistoryNext(cfg, w.history, p, slug);
    ReplacedWasFetched(w.history, slug);
    hide Step, LastFetch, LastWritten, ReplacedSince, L.FetchesAnew, L.NeedsNetwork, CacheFile;
    L.AskRemembers(cfg, s, c, last, written, replaced);
    L.StepServes(cfg, s, c, last, written, replaced);
    ServedAtEnd(cfg, w.history, p, Step(cfg.ttl, cfg.hasDisk, s, c), s);
    forall h | 0 <= h < |w'.history| && w'.history[h].Ended? && w'.history[h].call.slug == slug
      ensures ServedRight(cfg, w'.history, h)
    {
      if h < |w.history| {
        ServedStays(cfg, w.history, p, h);
      }
    }
  }

  lemma ServedAtEnd(cfg: L.Config, history: seq<Past>, p: Past, o: Outcome, s: State)
    requires p.Ended? && p.served == o.served && (p.fetched <==> o.origin == FromNetwork)
    requires o.origin == FromNetwork ==> o.served.Some? && o.served.value.fetchedAt == p.call.doneAt
    requires
      var last, written := LastFetch(history, p.call.slug), LastWritten(cfg, history, p.call.slug);
      var lost := && last.Some? && written != last
                  && (ReplacedSince(history, p.call.slug) || p.call.memAt - last.value.fetchedAt >= cfg.ttl)
                  && !L.FetchesAnew(cfg, s, p.call);
      && (o.origin == FromNetwork <==> L.FetchesAnew(cfg, s, p.call))
      && (o.origin != FromNetwork ==> o.served == if lost then written else last)
    ensures ServedRight(cfg, history + [p], |history|)
  {
    hide LastFetch, LastWritten, ReplacedSince, L.FetchesAnew;
    assert (history + [p])[..|history|] == history;
  }

  /** An event of another slug. */
  lemma OtherStep(cfg: L.Config, w: World, w': World, slug: string)
    requires SlugOk(cfg, w, slug)
    requires w'.history == w.history
             || exists p :: w'.history == w.history + [p] && !p.Replaced? && !(p.Ended? && p.call.slug == slug)
    requires (slug in w'.flights <==> slug in w.flights) && (slug in w.flights ==> SameFlight(w.flights[slug], w'.flights[slug]))
    requires slug in w'.client.mem <==> slug in w.client.mem
    requires slug in w.client.mem ==> w'.client.mem[slug] == w.client.mem[slug]
    requires CacheFile(slug) in w'.client.disk <==> CacheFile(slug) in w.client.disk
    requires CacheFile(slug) in w.client.disk ==> w'.client.disk[CacheFile(slug)] == w.client.disk[CacheFile(slug)]
    ensures SlugOk(cfg, w', slug)
  {
    hide LastFetch, LastWritten, ReplacedSince, CacheFile, ServedRight;
    if w'.history != w.history {
      var p :| w'.history == w.history + [p] && !p.Replaced? && !(p.Ended? && p.call.slug == slug);
      HistoryNext(cfg, w.history, p, slug);
      forall h | 0 <= h < |w'.history| && w'.history[h].Ended? && w'.history[h].call.slug == slug
        ensures ServedRight(cfg, w'.history, h)
      {
        ServedStays(cfg, w.history, p, h);
      }
    }
  }

  /** The same call with the same entry read from disk. */
  predicate SameFlight(f: Flight, g: Flight) {
    f.call == g.call && f.disk == g.disk
  }

  lemma ReplaceKeepsSlug(cfg: L.Config, w: World, slug: string)
    requires SlugOk(cfg, w, slug) && Enabled(cfg, w, Replace)
    ensures SlugOk(cfg, After(cfg, w, Replace), slug)
  {
    hide LastFetch, LastWritten, ReplacedSince, CacheFile, ServedRight;
    HistoryNext(cfg, w.history, Replaced, slug);
    var w' := After(cfg, w, Replace);
    forall h | 0 <= h < |w'.history| && w'.history[h].Ended? && w'.history[h].call.slug == slug
      ensures ServedRight(cfg, w'.history, h)
    {
      ServedStays(cfg, w.history, Replaced, h);
    }
  }

  /** Finishing is one call made at that moment, meeting the limit that was seen. */
  lemma FinishIsStep(cfg: L.Config, w: World, slug: string)
    requires SlugOk(cfg, w, slug) && Enabled(cfg, w, Finish(slug))
    ensures
      var f, w' := w.flights[slug], After(cfg, w, Finish(slug));
      var o := Step(cfg.ttl, cfg.hasDisk, w.client.(limitedUntil := f.seen.value), f.call);
      var p := w'.history[|w.history|];
      && w'.history == w.history + [p] && p.Ended? && p.call == f.call && slug !in w'.flights
      && (p.fetched <==> o.origin == FromNetwork) && p.served == o.served
      && w'.client == o.state.(limitedUntil := w'.client.limitedUntil)
  {
    hide FetchWith, CacheFile, LastFetch, LastWritten, ReplacedSince, ServedRight, L.Remembers;
  }

  lemma FreshIsStep(cfg: L.Config, w: World, c: Call)
    requires Enabled(cfg, w, Enter(c)) && !L.NeedsNetwork(cfg, w.client, c)
    ensures Step(cfg.ttl, cfg.hasDisk, w.client, c).origin in {FromMemory, FromDisk}
  {
    hide FetchWith, CacheFile, LastFetch;
  }

  lemma EventKeepsSlug(cfg: L.Config, w: World, e: Event, slug: string)
    requires SlugOk(cfg, w, slug) && Enabled(cfg, w, e)
    requires e.Enter? && CacheFile(e.call.slug) == CacheFile(slug) ==> e.call.slug == slug
    requires forall x | x in w.flights && CacheFile(w.flights[x].call.slug) == CacheFile(slug) :: x == slug
    requires forall x | x in w.flights :: w.flights[x].call.slug == x
    ensures SlugOk(cfg, After(cfg, w, e), slug)
  {
    var w' := After(cfg, w, e);
    hide FetchWith, SlugOk, CacheFile, LastFetch, LastWritten, ReplacedSince;
    match e
    case Enter(c) =>
      if c.slug == slug {
        OwnEnter(cfg, w, c);
      } else {
        OtherEnter(cfg, w, c, slug);
      }
    case Check(x) => OtherStep(cfg, w, w', slug);
    case Answer(x) => OtherStep(cfg, w, w', slug);
    case Finish(x) =>
      if x == slug {
        FinishIsStep(cfg, w, slug);
        FlightTimes(cfg, w, slug);
        OwnStep(cfg, w, w', w.client.(limitedUntil := w.flights[slug].seen.value), w.flights[slug].call, w'.history[|w.history|]);
      } else {
        OtherStep(cfg, w, w', slug);
      }
    case Replace => ReplaceKeepsSlug(cfg, w, slug);
  }

  lemma FlightTimes(cfg: L.Config, w: World, slug: string)
    requires SlugOk(cfg, w, slug) && slug in w.flights
    ensures
      var c := w.flights[slug].call;
      c.slug == slug && Plausible(c) && L.FetchedAt(LastFetch(w.history, slug)) <= c.memAt
  {
    hide LastFetch, LastWritten, ReplacedSince, CacheFile, ServedRight;
  }

  lemma OwnEnter(cfg: L.Config, w: World, c: Call)
    requires SlugOk(cfg, w, c.slug) && Enabled(cfg, w, Enter(c))
    ensures SlugOk(cfg, After(cfg, w, Enter(c)), c.slug)
  {
    var w' := After(cfg, w, Enter(c));
    if L.NeedsNetwork(cfg, w.client, c) {
      hide LastFetch, LastWritten, ReplacedSince, CacheFile, ServedRight, L.Remembers;
    } else {
      FreshIsStep(cfg, w, c);
      hide SlugOk, Step, LastFetch, L.NeedsNetwork;
      OwnStep(cfg, w, w', w.client, c, w'.history[|w.history|]);
    }
  }

  lemma OtherEnter(cfg: L.Config, w: World, c: Call, slug: string)
    requires SlugOk(cfg, w, slug) && Enabled(cfg, w, Enter(c)) && c.slug != slug && CacheFile(c.slug) != CacheFile(slug)
    ensures SlugOk(cfg, After(cfg, w, Enter(c)), slug)
  {
    hide FetchWith, SlugOk, CacheFile, LastFetch;
    OtherStep(cfg, w, After(cfg, w, Enter(c)), slug);
  }

  /** Calls under way are those that entered. */
  ghost predicate FlightsOk(w: World, events: seq<Event>) {
    forall x | x in w.flights :: w.flights[x].call.slug == x && Enter(w.flights[x].call) in events
  }

  lemma {:induction false} ServedInEveryRun(cfg: L.Config, events: seq<Event>, slug: string)
    requires Possible(cfg, events) && Separate(events, slug)
    ensures SlugOk(cfg, Run(cfg, events), slug) && FlightsOk(Run(cfg, events), events)
  {
    if events != [] {
      var rest, e := events[..|events| - 1], events[|events| - 1];
      assert events == rest + [e];
      hide SlugOk, CacheFile;
      ServedInEveryRun(cfg, rest, slug);
      var w := Run(cfg, rest);
      forall x | x in w.flights && CacheFile(w.flights[x].call.slug) == CacheFile(slug) ensures x == slug {
        assert Enter(w.flights[x].call) in events;
      }
      FlightsStay(cfg, w, e, rest);
      hide After, Enabled, FlightsOk;
      EventKeepsSlug(cfg, w, e, slug);
    } else {
      hide After, Enabled;
    }
  }

  lemma FlightsStay(cfg: L.Config, w: World, e: Event, rest: seq<Event>)
    requires FlightsOk(w, rest) && Enabled(cfg, w, e)
    ensures FlightsOk(After(cfg, w, e), rest + [e])
    ensures forall x | x in w.flights :: w.flights[x].call.slug == x
  {
    hide CacheFile, FetchWith, Step, L.NeedsNetwork, LastFetch;
  }

  /** However calls of other slugs overlap with it, a call serves the last fetch of its slug, its own included, or,
      exactly when that one is lost, the last fetch that was written, if any. */
  lemma ServesLastFetchExactly(cfg: L.Config, events: seq<Event>, h: nat)
    requires Possible(cfg, events) && h < |Run(cfg, events).history| && Run(cfg, events).history[h].Ended?
    requires Separate(events, Run(cfg, events).history[h].call.slug)
    ensures
      var history := Run(cfg, events).history;
      var slug, served := history[h].call.slug, history[h].served;
      && (served != LastFetch(history[..h + 1], slug) <==> Lost(cfg, history, h))
      && (Lost(cfg, history, h) ==> served == LastWritten(cfg, history[..h], slug))
  {
    var history := Run(cfg, events).history;
    ServedInEveryRun(cfg, events, history[h].call.slug);
    hide Run, Possible, L.Remembers, L.NeedsNetwork, CacheFile;
    assert ServedRight(cfg, history, h);
    assert history[..h + 1] == history[..h] + [history[h]];
    HistoryNext(cfg, history[..h], history[h], history[h].call.slug);
    hide LastFetch, LastWritten, ReplacedSince;
  }

  /** A call that nothing overlaps does what the client does, to its state and for its caller. */
  lemma UndisturbedIsStep(cfg: L.Config, w: World, c: Call)
    requires w.flights == map[] && Enabled(cfg, w, Enter(c))
    ensures
      var o := Step(cfg.ttl, cfg.hasDisk, w.client, c);
      var entered := After(cfg, w, Enter(c));
      if c.slug !in entered.flights then
        entered.client == o.state && Told(entered.history, c, o) && entered.flights == map[] && !o.askedApi
      else
        && Enabled(cfg, entered, Check(c.slug))
        && var checked := After(cfg, entered, Check(c.slug));
        && Enabled(cfg, checked, Answer(c.slug))
        && var answered := After(cfg, checked, Answer(c.slug));
        && Enabled(cfg, answered, Finish(c.slug))
        && var finished := After(cfg, answered, Finish(c.slug));
        && finished.client == o.state && Told(finished.history, c, o) && finished.flights == map[]
        && finished.history[|finished.history| - 1].asked == o.askedApi
  {
    hide FetchWith, CacheFile, LastFetch;
    LimitAfterFetch(w.client.limitedUntil, c);
    if L.NeedsNetwork(cfg, w.client, c) {
      NetworkStep(cfg, w.client, c);
      hide Step, L.NeedsNetwork;
    }
  }

  lemma NetworkStep(cfg: L.Config, s: State, c: Call)
    requires L.NeedsNetwork(cfg, s, c)
    ensures
      var f, o := FetchWith(s.limitedUntil, c), Step(cfg.ttl, cfg.hasDisk, s, c);
      && o.askedApi == f.askedApi && o.state.limitedUntil == f.limitedUntil
      && match f.releases
         case Some(releases) =>
           var e := Entry(c.doneAt, releases);
           && o.origin == FromNetwork && o.served == Some(e) && o.state.mem == s.mem[c.slug := e]
           && o.state.disk == if cfg.hasDisk && c.diskWorks then s.disk[CacheFile(c.slug) := e] else s.disk
         case None =>
           o.origin != FromNetwork && o.served == OnDisk(cfg, s, c.slug) && o.state.mem == s.mem && o.state.disk == s.disk
  {
    hide FetchWith, CacheFile;
  }

  lemma LimitAfterFetch(limitedUntil: nat, c: Call)
    ensures
      var f := FetchWith(limitedUntil, c);
      f.limitedUntil == if f.announced.Some? then f.announced.value else limitedUntil
  {
    hide ReadPages;
  }

  /** The history ends with this call and what it got. */
  predicate Told(history: seq<Past>, c: Call, o: Outcome) {
    && history != [] && history[|history| - 1].Ended? && history[|history| - 1].call == c
    && history[|history| - 1].served == o.served
    && (history[|history| - 1].fetched <==> o.origin == FromNetwork)
  }
}
