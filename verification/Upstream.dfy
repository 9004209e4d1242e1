/** Fetching, caching and filtering upstream releases (internal/upstream). */
module Upstream {
  import opened Model
  import opened Options
  import opened Sorting
  import opened Text
  import opened Version

  // ---------------------------------------------------------------- filtering

  /** What a fetched release becomes: nothing when its tag has another prefix, no version with at least
      two parts, or an unwanted prerelease. */
  function Kept(r: UpstreamRelease, up: UpstreamSource): Option<UpstreamRelease> {
    if up.tagPrefix != "" && !HasPrefix(r.tag, up.tagPrefix) then None
    else
      match Parse(r.tag[|up.tagPrefix|..])
      case None => None
      case Some(v) =>
        if v.parts < 2 then None
        else if (r.prerelease || Prerelease(v)) && !up.includePrereleases then None
        else Some(r.(version := CoreText(v)))
  }

  function KeptOf(all: seq<UpstreamRelease>, up: UpstreamSource): seq<UpstreamRelease> {
    if all == [] then []
    else
      KeptOf(all[..|all| - 1], up)
      + match Kept(all[|all| - 1], up) { case None => [] case Some(r) => [r] }
  }

  const BY_VERSION := (a: UpstreamRelease, b: UpstreamRelease) => CompareStrings(a.version, b.version)

  method Filter(all: seq<UpstreamRelease>, up: UpstreamSource) returns (out: seq<UpstreamRelease>)
    ensures out == Sorted(KeptOf(all, up), BY_VERSION)
  {
    hide Sorted, Parse, Prerelease;
    var kept: seq<UpstreamRelease> := [];
    for i := 0 to |all|
      invariant kept == KeptOf(all[..i], up)
    {
      assert all[..i + 1][..i] == all[..i];
      var r := all[i];
      var tag := r.tag;
      if up.tagPrefix != "" {
        if !HasPrefix(tag, up.tagPrefix) {
          continue;
        }
        tag := tag[|up.tagPrefix|..];
      }
      assert tag == r.tag[|up.tagPrefix|..];
      var v := Parse(tag);
      if v.None? || v.value.parts < 2 {
        continue;
      }
      if (r.prerelease || Prerelease(v.value)) && !up.includePrereleases {
        continue;
      }
      kept := kept + [r.(version := CoreText(v.value))];
    }
    assert all[..|all|] == all;
    var a := new UpstreamRelease[|kept|](i requires 0 <= i < |kept| => kept[i]);
    assert a[..] == kept;
    SortInPlace(a, BY_VERSION);
    out := a[..];
  }

  lemma ByVersionIsPreorder()
    ensures TotalPreorder(BY_VERSION)
  {
    hide CompareStrings;
    forall a: UpstreamRelease, b: UpstreamRelease ensures BY_VERSION(a, b) >= 0 <==> BY_VERSION(b, a) <= 0 {
      CompareStringsAntisymmetric(a.version, b.version);
    }
    forall a: UpstreamRelease, b: UpstreamRelease, c: UpstreamRelease | BY_VERSION(a, b) >= 0 && BY_VERSION(b, c) >= 0
      ensures BY_VERSION(a, c) >= 0
    {
      CompareStringsAntisymmetric(a.version, b.version);
      CompareStringsAntisymmetric(b.version, c.version);
      CompareStringsAntisymmetric(a.version, c.version);
      CompareStringsTransitive(c.version, b.version, a.version);
    }
  }

  lemma {:induction false} KeptMembers(all: seq<UpstreamRelease>, up: UpstreamSource, r: UpstreamRelease)
    ensures r in KeptOf(all, up) <==> exists raw | raw in all :: Kept(raw, up) == Some(r)
  {
    hide Kept;
    if all != [] {
      KeptMembers(all[..|all| - 1], up, r);
      assert all == all[..|all| - 1] + [all[|all| - 1]];
    }
  }

  /** What filtering promises: exactly the kept releases, newest first. */
  lemma FilterResult(all: seq<UpstreamRelease>, up: UpstreamSource)
    ensures
      var out := Sorted(KeptOf(all, up), BY_VERSION);
      && (forall r :: r in out <==> exists raw | raw in all :: Kept(raw, up) == Some(r))
      && forall i, j | 0 <= i < j < |out| :: CompareStrings(out[i].version, out[j].version) >= 0
  {
    hide Kept, CompareStrings;
    ByVersionIsPreorder();
    var kept := KeptOf(all, up);
    SortedIsStableSort(kept, BY_VERSION);
    var out := Sorted(kept, BY_VERSION);
    forall r ensures r in out <==> exists raw | raw in all :: Kept(raw, up) == Some(r) {
      assert r in multiset(out) <==> r in multiset(kept);
      KeptMembers(all, up, r);
    }
    forall i, j | 0 <= i < j < |out| ensures CompareStrings(out[i].version, out[j].version) >= 0 {
      assert BY_VERSION(out[i], out[j]) >= 0;
    }
  }

  lemma KeptFrom(all: seq<UpstreamRelease>, up: UpstreamSource, r: UpstreamRelease) returns (raw: UpstreamRelease)
    requires r in Sorted(KeptOf(all, up), BY_VERSION)
    ensures raw in all && Kept(raw, up) == Some(r)
  {
    hide Kept, CompareStrings, KeptOf, Sorted;
    ByVersionIsPreorder();
    SortedIsStableSort(KeptOf(all, up), BY_VERSION);
    assert r in multiset(Sorted(KeptOf(all, up), BY_VERSION));
    KeptMembers(all, up, r);
    raw :| raw in all && Kept(raw, up) == Some(r);
  }

  /** A kept release's version reads back as a release with at least two parts: the tag's numbers. */
  lemma KeptVersionParses(raw: UpstreamRelease, up: UpstreamSource, r: UpstreamRelease)
    requires Kept(raw, up) == Some(r)
    ensures Parses(r.version) && Parse(r.version).value.parts >= 2 && !Prerelease(Parse(r.version).value)
    ensures Parses(raw.tag[|up.tagPrefix|..])
    ensures CoreText(Parse(r.version).value) == CoreText(Parse(raw.tag[|up.tagPrefix|..]).value)
    ensures !up.includePrereleases ==> !r.prerelease && CompareStrings(r.version, raw.tag[|up.tagPrefix|..]) == 0
  {
    hide Parse, Prerelease, CoreText, CompareStrings;
    var tag := raw.tag[|up.tagPrefix|..];
    KeptHasTwoParts(raw, up, r);
    hide Kept;
    var v := Parse(tag).value;
    ParsedIsFromText(tag);
    ParseReads(v, "");
    NoSuffixNoPrerelease(v.(suffix := ""));
    SameCore(v);
    assert CoreText(v) + "" == CoreText(v) == r.version;
    CompareStringsTies(r.version, tag);
  }

  lemma KeptHasTwoParts(raw: UpstreamRelease, up: UpstreamSource, r: UpstreamRelease)
    requires Kept(raw, up) == Some(r)
    ensures
      var v := Parse(raw.tag[|up.tagPrefix|..]);
      && v.Some? && v.value.parts >= 2 && r == raw.(version := CoreText(v.value))
      && (raw.prerelease || Prerelease(v.value) ==> up.includePrereleases)
  {
    hide Parse, Prerelease, CoreText;
  }

  lemma SameCore(v: V)
    ensures CoreText(v.(suffix := "")) == CoreText(v)
  {
  }

  lemma NoSuffixNoPrerelease(v: V)
    requires v.suffix == ""
    ensures !Prerelease(v)
  {
  }

  // ---------------------------------------------------------------- one client, call by call

  /** When releases were fetched, and the releases. */
  datatype Entry = Entry(fetchedAt: nat, releases: seq<UpstreamRelease>)

  datatype GitHubRelease = GitHubRelease(draft: bool, release: UpstreamRelease)

  /** One response of the releases API; a rate limit may announce when it resets. */
  datatype Page = Limited(reset: Option<nat>) | Broken | Batch(batch: seq<GitHubRelease>)

  const PAGES_TO_FETCH := 2
  const PAGE_SIZE := 100
  const HOUR := 3600

  /** A call of the client: what it asks for, and what the clock, the network and the disk would answer. */
  datatype Call = Call(
    slug: string, memAt: nat, diskAt: nat, limitAt: nat, resetAt: nat, doneAt: nat,
    pages: seq<Page>, feed: Option<seq<UpstreamRelease>>, diskWorks: bool)

  /** A clock does not run backwards, and a network answers every page. */
  predicate Plausible(c: Call) {
    c.memAt <= c.diskAt <= c.limitAt <= c.resetAt <= c.doneAt && |c.pages| == PAGES_TO_FETCH
  }

  datatype ApiResult = ApiOk(releases: seq<UpstreamRelease>) | ApiLimited(reset: Option<nat>) | ApiFailed

  function Published(batch: seq<GitHubRelease>): seq<UpstreamRelease> {
    if batch == [] then []
    else
      var last := batch[|batch| - 1];
      Published(batch[..|batch| - 1]) + if last.draft then [] else [last.release]
  }

  /** What the pages add up to: a short page ends the list, and a bad page loses the pages before it. */
  function ReadPages(pages: seq<Page>): ApiResult {
    if pages == [] then ApiOk([])
    else
      match pages[0]
      case Limited(reset) => ApiLimited(reset)
      case Broken => ApiFailed
      case Batch(batch) =>
        if |batch| < PAGE_SIZE then ApiOk(Published(batch))
        else Prepend(Published(batch), ReadPages(pages[1..]))
  }

  function Prepend(releases: seq<UpstreamRelease>, r: ApiResult): ApiResult {
    match r
    case ApiOk(rest) => ApiOk(releases + rest)
    case bad => bad
  }

  lemma PrependTwice(a: seq<UpstreamRelease>, b: seq<UpstreamRelease>, r: ApiResult)
    ensures Prepend(a, Prepend(b, r)) == Prepend(a + b, r)
  {
    if r.ApiOk? {
      assert a + (b + r.releases) == a + b + r.releases;
    }
  }

  datatype State = State(mem: map<string, Entry>, limitedUntil: nat, disk: map<string, Entry>)

  /** Where a result came from. */
  datatype Origin = FromMemory | FromDisk | FromNetwork | FromStaleDisk | NoResult

  /** The outcome of a call: the new state, the entry served, whether the API was asked and the limit it announced. */
  datatype Outcome = Outcome(
    state: State, served: Option<Entry>, origin: Origin, askedApi: bool, announced: Option<nat>)

  function ReplaceSlash(s: string): string {
    if s == "" then "" else (if s[0] == '/' then "__" else [s[0]]) + ReplaceSlash(s[1..])
  }

  function CacheFile(slug: string): string {
    ReplaceSlash(slug) + ".json"
  }

  datatype Fetched = Fetched(
    limitedUntil: nat, releases: Option<seq<UpstreamRelease>>, askedApi: bool, announced: Option<nat>)

  /** The API unless it is limited, and the feed when it is or turns out to be. */
  function FetchWith(limitedUntil: nat, c: Call): Fetched {
    if c.limitAt < limitedUntil then Fetched(limitedUntil, c.feed, false, None)
    else
      match ReadPages(c.pages)
      case ApiOk(releases) => Fetched(limitedUntil, Some(releases), true, None)
      case ApiFailed => Fetched(limitedUntil, None, true, None)
      case ApiLimited(reset) =>
        var until := if reset.Some? then reset.value else c.resetAt + HOUR;
        Fetched(until, c.feed, true, Some(until))
  }

  /** What one call does to the client's state. */
  function Step(ttl: int, hasDisk: bool, s: State, c: Call): Outcome {
    var file := CacheFile(c.slug);
    if c.slug in s.mem && c.memAt - s.mem[c.slug].fetchedAt < ttl then
      Outcome(s, Some(s.mem[c.slug]), FromMemory, false, None)
    else if hasDisk && file in s.disk && c.diskAt - s.disk[file].fetchedAt < ttl then
      Outcome(s.(mem := s.mem[c.slug := s.disk[file]]), Some(s.disk[file]), FromDisk, false, None)
    else
      var f := FetchWith(s.limitedUntil, c);
      var limited := s.(limitedUntil := f.limitedUntil);
      match f.releases
      case Some(releases) =>
        var e := Entry(c.doneAt, releases);
        Outcome(
          limited.(mem := s.mem[c.slug := e], disk := if hasDisk && c.diskWorks then s.disk[file := e] else s.disk),
          Some(e), FromNetwork, f.askedApi, f.announced)
      case None =>
        if hasDisk && file in s.disk then Outcome(limited, Some(s.disk[file]), FromStaleDisk, f.askedApi, f.announced)
        else Outcome(limited, None, NoResult, f.askedApi, f.announced)
  }

  /** The client, with the cache directory it writes. */
  class Client {
    const ttl: int
    const hasDisk: bool
    var mem: map<string, Entry>
    var limitedUntil: nat
    var disk: map<string, Entry>

    constructor (ttl: int, hasDisk: bool, disk: map<string, Entry>)
      ensures this.ttl == ttl && this.hasDisk == hasDisk && View() == State(map[], 0, disk)
    {
      this.ttl, this.hasDisk, this.mem, this.limitedUntil, this.disk := ttl, hasDisk, map[], 0, disk;
    }

    function View(): State
      reads this
    {
      State(mem, limitedUntil, disk)
    }

    method ReadDisk(slug: string) returns (e: Option<Entry>)
      ensures e == if hasDisk && CacheFile(slug) in disk then Some(disk[CacheFile(slug)]) else None
    {
      if !hasDisk || CacheFile(slug) !in disk {
        return None;
      }
      return Some(disk[CacheFile(slug)]);
    }

    method Store(slug: string, e: Entry, persist: bool, diskWorks: bool)
      modifies this
      ensures mem == old(mem)[slug := e] && limitedUntil == old(limitedUntil)
      ensures disk == if persist && hasDisk && diskWorks then old(disk)[CacheFile(slug) := e] else old(disk)
    {
      mem := mem[slug := e];
      if !persist || !hasDisk || !diskWorks {
        return;
      }
      disk := disk[CacheFile(slug) := e];
    }

    /** Reads up to two pages of the API. */
    method FetchAPI(pages: seq<Page>, resetAt: nat) returns (r: ApiResult, announced: Option<nat>)
      requires |pages| == PAGES_TO_FETCH
      modifies this`limitedUntil
      ensures r == ReadPages(pages)
      ensures announced == (if r.ApiLimited? then Some(if r.reset.Some? then r.reset.value else resetAt + HOUR) else None)
      ensures limitedUntil == if announced.Some? then announced.value else old(limitedUntil)
    {
      hide Published;
      var out: seq<UpstreamRelease> := [];
      announced := None;
      assert pages[0..] == pages;
      for page := 0 to PAGES_TO_FETCH
        invariant limitedUntil == old(limitedUntil) && announced == None
        invariant ReadPages(pages) == Prepend(out, ReadPages(pages[page..]))
      {
        assert pages[page..][1..] == pages[page + 1..];
        match pages[page] {
          case Limited(reset) =>
            limitedUntil := if reset.Some? then reset.value else resetAt + HOUR;
            return ApiLimited(reset), Some(limitedUntil);
          case Broken =>
            return ApiFailed, None;
          case Batch(batch) =>
            var published := PublishedOf(batch);
            if |batch| < PAGE_SIZE {
              return ApiOk(out + published), None;
            }
            PrependTwice(out, published, ReadPages(pages[page + 1..]));
            out := out + published;
        }
      }
      r := ApiOk(out);
    }

    method PublishedOf(batch: seq<GitHubRelease>) returns (out: seq<UpstreamRelease>)
      ensures out == Published(batch)
    {
      out := [];
      for i := 0 to |batch|
        invariant out == Published(batch[..i])
      {
        assert batch[..i + 1][..i] == batch[..i];
        if batch[i].draft {
          continue;
        }
        out := out + [batch[i].release];
      }
      assert batch[..|batch|] == batch;
    }

    method Fetch(c: Call) returns (f: Fetched)
      requires Plausible(c)
      modifies this`limitedUntil
      ensures f == FetchWith(old(limitedUntil), c) && limitedUntil == f.limitedUntil
    {
      var limited := c.limitAt < limitedUntil;
      var announced := None;
      if !limited {
        var r;
        r, announced := FetchAPI(c.pages, c.resetAt);
        match r {
          case ApiOk(releases) =>
            return Fetched(limitedUntil, Some(releases), true, None);
          case ApiLimited(_) =>
          case ApiFailed =>
            return Fetched(limitedUntil, None, true, None);
        }
      }
      f := Fetched(limitedUntil, c.feed, !limited, announced);
    }

    /** Fresh memory, then fresh disk, then the network, then whatever the disk has. */
    method Cached(c: Call) returns (o: Outcome)
      requires Plausible(c)
      modifies this
      ensures o == Step(ttl, hasDisk, old(View()), c) && View() == o.state
    {
      hide FetchWith, CacheFile;
      if c.slug in mem && c.memAt - mem[c.slug].fetchedAt < ttl {
        return Outcome(View(), Some(mem[c.slug]), FromMemory, false, None);
      }
      var onDisk := ReadDisk(c.slug);
      if onDisk.Some? && c.diskAt - onDisk.value.fetchedAt < ttl {
        Store(c.slug, onDisk.value, false, c.diskWorks);
        return Outcome(View(), onDisk, FromDisk, false, None);
      }
      var f := Fetch(c);
      if f.releases.None? {
        if onDisk.Some? {
          return Outcome(View(), onDisk, FromStaleDisk, f.askedApi, f.announced);
        }
        return Outcome(View(), None, NoResult, f.askedApi, f.announced);
      }
      var e := Entry(c.doneAt, f.releases.value);
      Store(c.slug, e, true, c.diskWorks);
      return Outcome(View(), Some(e), FromNetwork, f.askedApi, f.announced);
    }

    /** The filtered releases of an upstream, or nothing for a missing or malformed one. */
    method Releases(up: Option<UpstreamSource>, c: Call) returns (r: Option<seq<UpstreamRelease>>)
      requires Plausible(c)
      requires up.Some? ==> c.slug == up.value.github
      modifies this
      ensures up.None? || !ValidSlug(up.value.github) ==> r == None && View() == old(View())
      ensures up.Some? && ValidSlug(up.value.github) ==>
                var o := Step(ttl, hasDisk, old(View()), c);
                && View() == o.state
                && (r.Some? <==> o.served.Some?)
                && (r.Some? ==> r.value == Sorted(KeptOf(o.served.value.releases, up.value), BY_VERSION))
    {
      hide Step, Sorted, KeptOf;
      if up.None? || up.value.github == "" || !ValidSlug(up.value.github) {
        return None;
      }
      var o := Cached(c);
      if o.served.None? {
        return None;
      }
      var out := Filter(o.served.value.releases, up.value);
      return Some(out);
    }
  }

  // ---------------------------------------------------------------- slugs and cache files

  predicate SlugChar(c: char) {
    'a' <= c <= 'z' || 'A' <= c <= 'Z' || '0' <= c <= '9' || c in {'_', '.', '-'}
  }

  predicate SlugPart(s: string) {
    s != "" && forall i | 0 <= i < |s| :: SlugChar(s[i])
  }

  /** owner/repo */
  predicate ValidSlug(s: string) {
    exists k | 0 <= k < |s| :: s[k] == '/' && SlugPart(s[..k]) && SlugPart(s[k + 1..])
  }

  // ---------------------------------------------------------------- in terms of tags, responses and characters

  /** A release is kept exactly when its tag is the wanted prefix and a version of two or three numbers, and neither
      its flag nor its tag marks an unwanted prerelease; its version is then the tag's, normalized. */
  lemma KeptExactly(r: UpstreamRelease, up: UpstreamSource, k: UpstreamRelease)
    ensures Kept(r, up) == Some(k) <==> exists tag :: KeptAs(r, up, tag, k)
  {
    hide Parse, CoreText, PrereleaseSuffix;
    if Kept(r, up) == Some(k) {
      var tag := r.tag[|up.tagPrefix|..];
      assert r.tag == up.tagPrefix + tag;
      assert KeptAs(r, up, tag, k);
    }
    if tag :| KeptAs(r, up, tag, k) {
      assert HasPrefix(r.tag, up.tagPrefix) && r.tag[|up.tagPrefix|..] == tag;
    }
  }

  predicate KeptAs(r: UpstreamRelease, up: UpstreamSource, tag: string, k: UpstreamRelease) {
    && r.tag == up.tagPrefix + tag && Parses(tag) && Parse(tag).value.parts > 1
    && (up.includePrereleases || !(r.prerelease || Prerelease(Parse(tag).value)))
    && k == r.(version := Normalize(tag))
  }

  /** Only published releases are listed, in order. */
  lemma {:induction false} PublishedInOrder(batch: seq<GitHubRelease>, more: seq<GitHubRelease>)
    ensures Published(batch + more) == Published(batch) + Published(more)
    ensures |more| == 1 ==> Published(more) == if more[0].draft then [] else [more[0].release]
  {
    if more == [] {
      assert batch + more == batch;
    } else {
      var rest, last := more[..|more| - 1], more[|more| - 1];
      assert (batch + more)[..|batch + more| - 1] == batch + rest && (batch + more)[|batch + more| - 1] == last;
      PublishedInOrder(batch, rest);
      var own := if last.draft then [] else [last.release];
      assert Published(batch + more) == Published(batch + rest) + own;
      assert Published(more) == Published(rest) + own;
    }
  }

  predicate Full(p: Page) {
    p.Batch? && |p.batch| >= 100
  }

  /** The first page answers for both if it is bad or not full; otherwise the second one decides, and adds to it. */
  lemma PagesExactly(first: Page, second: Page)
    ensures first.Broken? ==> ReadPages([first, second]) == ApiFailed
    ensures first.Limited? ==> ReadPages([first, second]) == ApiLimited(first.reset)
    ensures first.Batch? && !Full(first) ==> ReadPages([first, second]) == ApiOk(Published(first.batch))
    ensures Full(first) && second.Broken? ==> ReadPages([first, second]) == ApiFailed
    ensures Full(first) && second.Limited? ==> ReadPages([first, second]) == ApiLimited(second.reset)
    ensures Full(first) && second.Batch? ==>
              ReadPages([first, second]) == ApiOk(Published(first.batch) + Published(second.batch))
  {
    hide Published;
    var pages := [first, second];
    assert pages[1..] == [second] && [second][1..] == [];
    if Full(first) && second.Batch? {
      assert Published(second.batch) + [] == Published(second.batch);
      assert ReadPages([second]) == ApiOk(Published(second.batch));
    }
  }

  /** A call that goes to the network: the feed stands in exactly while the API is limited, known before or answered;
      the reset is the one announced, or an hour from the answer. */
  lemma FetchExactly(limitedUntil: nat, c: Call)
    requires Plausible(c)
    ensures
      var f := FetchWith(limitedUntil, c);
      var answer := ReadPages([c.pages[0], c.pages[1]]);
      && |c.pages| == 2
      && (f.askedApi <==> c.limitAt >= limitedUntil)
      && (f.announced.Some? <==> f.askedApi && answer.ApiLimited?)
      && (f.announced.Some? ==>
            f.announced.value == match answer.reset { case Some(reset) => reset case None => c.resetAt + 3600 })
      && f.limitedUntil == (if f.announced.Some? then f.announced.value else limitedUntil)
      && f.releases == (if !f.askedApi || answer.ApiLimited? then c.feed
                        else if answer.ApiOk? then Some(answer.releases) else None)
  {
    hide ReadPages;
    assert c.pages == [c.pages[0], c.pages[1]];
  }

  predicate SlugText(s: string) {
    s != "" && forall i | 0 <= i < |s| ::
      || 'A' <= s[i] <= 'Z' || 'a' <= s[i] <= 'z' || '0' <= s[i] <= '9' || s[i] == '_' || s[i] == '.' || s[i] == '-'
  }

  /** A slug is an owner, one slash and a repository, of letters, digits, underscores, dots and dashes. */
  lemma SlugExactly(s: string)
    ensures ValidSlug(s) <==> exists owner, repo | SlugText(owner) && SlugText(repo) :: s == owner + "/" + repo
  {
    if k :| 0 <= k < |s| && s[k] == '/' && SlugPart(s[..k]) && SlugPart(s[k + 1..]) {
      var owner, repo := s[..k], s[k + 1..];
      assert SlugText(owner) && SlugText(repo) && s == owner + "/" + repo;
    }
    if owner, repo :| SlugText(owner) && SlugText(repo) && s == owner + "/" + repo {
      assert s[|owner|] == '/' && s[..|owner|] == owner && s[|owner| + 1..] == repo;
      assert SlugPart(s[..|owner|]) && SlugPart(s[|owner| + 1..]);
    }
  }
}
