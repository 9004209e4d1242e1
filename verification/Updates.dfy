/** Upgrade recommendations (internal/analysis/updates.go). */
module Updates {
  import opened Iteration
  import opened Matrix
  import opened Model
  import opened Options
  import opened Sorting
  import opened Text
  import opened Version

  const MAX_NEWER := 15

  datatype Update = Update(
    component: string, displayName: string, versions: map<string, string>, current: string,
    currentRelease: Option<UpstreamRelease>, latest: Option<UpstreamRelease>,
    freshness: Freshness, minorsBehind: int, newer: seq<UpstreamRelease>, error: string)

  // ---------------------------------------------------------------- the versions in use

  function AddVersion(versions: map<string, map<string, string>>, env: string, c: DiscoveredComponent)
    : map<string, map<string, string>>
  {
    var perEnv := if c.name in versions then versions[c.name] else map[];
    versions[c.name := if c.version != "" then perEnv[env := c.version] else perEnv]
  }

  function AddVersions(versions: map<string, map<string, string>>, env: string, components: seq<DiscoveredComponent>)
    : map<string, map<string, string>>
  {
    if components == [] then versions
    else AddVersion(AddVersions(versions, env, components[..|components| - 1]), env, components[|components| - 1])
  }

  /** For each discovered component, the version in each environment that reports one. */
  function VersionsIn(data: Input, envs: seq<Environment>): map<string, map<string, string>> {
    if envs == [] then map[]
    else
      var env := envs[|envs| - 1];
      AddVersions(VersionsIn(data, envs[..|envs| - 1]), env.name, ComponentsIn(data, env.name))
  }

  function AllVersions(data: Input): map<string, map<string, string>> {
    VersionsIn(data, data.platform.environments)
  }

  method CollectVersions(data: Input) returns (versions: map<string, map<string, string>>)
    ensures versions == AllVersions(data)
  {
    hide AddVersions;
    versions := map[];
    var envs := data.platform.environments;
    for e := 0 to |envs|
      invariant versions == VersionsIn(data, envs[..e])
    {
      assert envs[..e + 1][..e] == envs[..e];
      versions := CollectFrom(versions, envs[e].name, ComponentsIn(data, envs[e].name));
    }
    assert envs[..|envs|] == envs;
  }

  method CollectFrom(was: map<string, map<string, string>>, env: string, components: seq<DiscoveredComponent>)
    returns (versions: map<string, map<string, string>>)
    ensures versions == AddVersions(was, env, components)
  {
    versions := was;
    for i := 0 to |components|
      invariant versions == AddVersions(was, env, components[..i])
    {
      assert components[..i + 1][..i] == components[..i];
      var c := components[i];
      if c.name !in versions {
        versions := versions[c.name := map[]];
      }
      if c.version != "" {
        versions := versions[c.name := versions[c.name][env := c.version]];
      }
    }
    assert components[..|components|] == components;
  }

  predicate NoneEmpty(perEnv: map<string, string>) {
    forall e | e in perEnv :: perEnv[e] != ""
  }

  predicate AllNoneEmpty(versions: map<string, map<string, string>>) {
    forall n | n in versions :: NoneEmpty(versions[n])
  }

  lemma {:induction false} VersionsNonEmpty(data: Input, envs: seq<Environment>)
    ensures AllNoneEmpty(VersionsIn(data, envs))
  {
    if envs != [] {
      VersionsNonEmpty(data, envs[..|envs| - 1]);
      var env := envs[|envs| - 1].name;
      AddedNonEmpty(VersionsIn(data, envs[..|envs| - 1]), env, ComponentsIn(data, env));
    }
  }

  lemma {:induction false} AddedNonEmpty(
      versions: map<string, map<string, string>>, env: string, components: seq<DiscoveredComponent>)
    requires AllNoneEmpty(versions)
    ensures AllNoneEmpty(AddVersions(versions, env, components))
  {
    if components != [] {
      var rest, c := components[..|components| - 1], components[|components| - 1];
      AddedNonEmpty(versions, env, rest);
      var before := AddVersions(versions, env, rest);
      assert NoneEmpty(AddVersion(before, env, c)[c.name]);
    }
  }

  // ---------------------------------------------------------------- choosing among versions and releases

  /** Whether s is a least version; empty when there is none. */
  ghost predicate IsOldest(perEnv: map<string, string>, s: string) {
    if perEnv == map[] then s == ""
    else s in perEnv.Values && forall v | v in perEnv.Values :: CompareStrings(s, v) <= 0
  }

  method Oldest(perEnv: map<string, string>) returns (min: string)
    requires NoneEmpty(perEnv)
    ensures IsOldest(perEnv, min)
  {
    hide CompareStrings;
    min := "";
    var order := AnyOrder(perEnv.Keys);
    for i := 0 to |order|
      invariant i == 0 ==> min == ""
      invariant i > 0 ==> min in perEnv.Values && forall j | 0 <= j < i :: CompareStrings(min, perEnv[order[j]]) <= 0
    {
      var v := perEnv[order[i]];
      ghost var before := min;
      CompareStringsAntisymmetric(v, min);
      CompareStringsAntisymmetric(v, v);
      if min == "" || CompareStrings(v, min) < 0 {
        min := v;
        forall j | 0 <= j < i ensures CompareStrings(v, perEnv[order[j]]) <= 0 {
          CompareStringsTransitive(v, before, perEnv[order[j]]);
        }
      }
    }
    forall v | v in perEnv.Values ensures |order| > 0 && CompareStrings(min, v) <= 0 {
      var k :| k in perEnv && perEnv[k] == v;
      assert k in order;
      var j :| 0 <= j < |order| && order[j] == k;
      assert CompareStrings(min, perEnv[order[j]]) <= 0;
    }
    if |order| > 0 {
      assert order[0] in perEnv;
    }
  }

  /** Whether r is the first element of s with a property, if any. */
  ghost predicate IsFirst<T(!new)>(s: seq<T>, p: T -> bool, r: Option<T>) {
    match r
    case None => forall i | 0 <= i < |s| :: !p(s[i])
    case Some(x) => exists i | 0 <= i < |s| :: s[i] == x && p(x) && forall j | 0 <= j < i :: !p(s[j])
  }

  function TiesWith(v: string): UpstreamRelease -> bool {
    (r: UpstreamRelease) => CompareStrings(r.version, v) == 0
  }

  method FindVersion(releases: seq<UpstreamRelease>, v: string) returns (r: Option<UpstreamRelease>)
    ensures IsFirst(releases, TiesWith(v), r)
  {
    hide CompareStrings;
    for i := 0 to |releases|
      invariant forall j | 0 <= j < i :: !TiesWith(v)(releases[j])
    {
      if CompareStrings(releases[i].version, v) == 0 {
        return Some(releases[i]);
      }
    }
    return None;
  }

  function NewerRun(releases: seq<UpstreamRelease>, current: string, most: nat): seq<UpstreamRelease> {
    if releases == [] || most == 0 || CompareStrings(releases[0].version, current) <= 0 then []
    else [releases[0]] + NewerRun(releases[1..], current, most - 1)
  }

  /** The releases up to the first one that is not newer, at most fifteen. */
  method NewerThan(releases: seq<UpstreamRelease>, current: string) returns (out: seq<UpstreamRelease>)
    ensures out == if Parses(current) then NewerRun(releases, current, MAX_NEWER) else []
  {
    hide CompareStrings, Parse;
    out := [];
    if !Parses(current) {
      return;
    }
    for i := 0 to |releases|
      invariant |out| <= MAX_NEWER
      invariant NewerRun(releases, current, MAX_NEWER) == out + NewerRun(releases[i..], current, MAX_NEWER - |out|)
    {
      assert releases[i..][1..] == releases[i + 1..];
      if CompareStrings(releases[i].version, current) <= 0 || |out| == MAX_NEWER {
        return;
      }
      out := out + [releases[i]];
    }
  }

  function NewerPatch(current: V): UpstreamRelease -> bool {
    (r: UpstreamRelease) =>
      var v := Parse(r.version);
      v.Some? && v.value.major == current.major && v.value.minor == current.minor && Compare(v.value, current) > 0
  }

  method LatestPatch(releases: seq<UpstreamRelease>, current: string) returns (r: Option<UpstreamRelease>)
    ensures Parse(current).None? ==> r == None
    ensures Parse(current).Some? ==> IsFirst(releases, NewerPatch(Parse(current).value), r)
  {
    hide Parse, Compare;
    if Parse(current).None? {
      return None;
    }
    var cur := Parse(current).value;
    for i := 0 to |releases|
      invariant forall j | 0 <= j < i :: !NewerPatch(cur)(releases[j])
    {
      var v := Parse(releases[i].version);
      if v.Some? && v.value.major == cur.major && v.value.minor == cur.minor && Compare(v.value, cur) > 0 {
        assert NewerPatch(cur)(releases[i]);
        return Some(releases[i]);
      }
    }
    return None;
  }

  // ---------------------------------------------------------------- the recommendations

  /** Whether u is a recommendation for its component; only ties for the oldest version are left open. */
  ghost predicate IsUpdate(data: Input, versions: map<string, map<string, string>>, u: Update) {
    var releases := UpstreamOf(data, u.component);
    && u.component in versions && u.versions == versions[u.component]
    && u.displayName == DisplayName(data, u.component)
    && IsOldest(u.versions, u.current)
    && u.latest == (if releases == [] then None else Some(releases[0]))
    && (u.freshness, u.minorsBehind) == Assess(u.current, releases, SupportedMinors(data.catalog, u.component))
    && IsFirst(releases, TiesWith(u.current), u.currentRelease)
    && u.newer == (if Parses(u.current) then NewerRun(releases, u.current, MAX_NEWER) else [])
    && u.error == if u.component in data.upstreamErrors then data.upstreamErrors[u.component] else ""
  }

  function DisplayName(data: Input, name: string): string {
    if data.catalog(name).Some? then data.catalog(name).value.displayName else name
  }

  function Components(updates: seq<Update>): (r: seq<string>)
    ensures |r| == |updates| && forall i | 0 <= i < |r| :: r[i] == updates[i].component
  {
    seq(|updates|, i requires 0 <= i < |updates| => updates[i].component)
  }

  /** Worst freshness first, then most minors behind, then by name. */
  const URGENCY := (a: Update, b: Update) =>
    if Rank(a.freshness) != Rank(b.freshness) then Rank(a.freshness) - Rank(b.freshness)
    else if a.minorsBehind != b.minorsBehind then a.minorsBehind - b.minorsBehind
    else CompareText(b.displayName, a.displayName)

  lemma UrgencyIsPreorder()
    ensures TotalPreorder(URGENCY)
  {
    forall a: Update, b: Update ensures URGENCY(a, b) >= 0 <==> URGENCY(b, a) <= 0 {
      CompareTextAntisymmetric(a.displayName, b.displayName);
    }
    forall a: Update, b: Update, c: Update | URGENCY(a, b) >= 0 && URGENCY(b, c) >= 0 ensures URGENCY(a, c) >= 0 {
      CompareTextAntisymmetric(b.displayName, a.displayName);
      CompareTextAntisymmetric(c.displayName, b.displayName);
      CompareTextAntisymmetric(c.displayName, a.displayName);
      if CompareText(b.displayName, a.displayName) >= 0 && CompareText(c.displayName, b.displayName) >= 0 {
        CompareTextTransitive(a.displayName, b.displayName, c.displayName);
      }
    }
  }

  /** Whether out has exactly one recommendation for each component in use, sorted by urgency. */
  ghost predicate AreUpdates(data: Input, out: seq<Update>) {
    && Lists(Components(out), AllVersions(data).Keys)
    && (forall u | u in out :: IsUpdate(data, AllVersions(data), u))
    && GreatestFirst(out, URGENCY)
  }

  method Recommend(data: Input, versions: map<string, map<string, string>>, name: string) returns (u: Update)
    requires name in versions && NoneEmpty(versions[name])
    ensures IsUpdate(data, versions, u) && u.component == name
  {
    hide CompareStrings, Parse, IsFirst, IsOldest;
    var releases := UpstreamOf(data, name);
    var current := Oldest(versions[name]);
    var (freshness, behind) := Assess(current, releases, SupportedMinors(data.catalog, name));
    var currentRelease := FindVersion(releases, current);
    var newer := NewerThan(releases, current);
    u := Update(
      name, DisplayName(data, name), versions[name], current, currentRelease,
      if releases == [] then None else Some(releases[0]), freshness, behind, newer,
      if name in data.upstreamErrors then data.upstreamErrors[name] else "");
  }

  /** One recommendation after the other, in whatever order the map gives, and a sort at the end. */
  method BuildUpdates(data: Input) returns (out: seq<Update>)
    ensures AreUpdates(data, out)
  {
    hide IsUpdate, VersionsIn;
    var versions := CollectVersions(data);
    VersionsNonEmpty(data, data.platform.environments);
    var order := AnyOrder(versions.Keys);
    var found: seq<Update> := [];
    for i := 0 to |order|
      invariant Components(found) == order[..i]
      invariant forall j | 0 <= j < |found| :: IsUpdate(data, versions, found[j])
    {
      assert order[i] in order;
      var u := Recommend(data, versions, order[i]);
      found := found + [u];
    }
    assert order[..|order|] == order;
    var a := new Update[|found|](i requires 0 <= i < |found| => found[i]);
    assert a[..] == found;
    SortInPlace(a, URGENCY);
    out := a[..];
    UrgencyIsPreorder();
    SortedIsStableSort(found, URGENCY);
    ReorderedListing(found, out, versions.Keys);
    forall u | u in out ensures IsUpdate(data, versions, u) {
      assert u in multiset(out);
      assert u in found;
    }
  }

  /** Reordering updates keeps each component listed once. */
  lemma ReorderedListing(a: seq<Update>, b: seq<Update>, items: set<string>)
    requires multiset(a) == multiset(b) && Lists(Components(a), items)
    ensures Lists(Components(b), items)
  {
    assert |multiset(a)| == |a| && |multiset(b)| == |b|;
    ListsAll(Components(a), items);
    forall n ensures n in Components(b) <==> n in items {
      if n in items {
        var i :| 0 <= i < |a| && Components(a)[i] == n;
        assert a[i] in multiset(b);
        var j :| 0 <= j < |b| && b[j] == a[i];
        assert Components(b)[j] == n;
      }
      if n in Components(b) {
        var j :| 0 <= j < |b| && Components(b)[j] == n;
        assert b[j] in multiset(a);
        var i :| 0 <= i < |a| && a[i] == b[j];
        assert Components(a)[i] == n;
      }
    }
    ListsBySize(Components(b), items);
  }
}
