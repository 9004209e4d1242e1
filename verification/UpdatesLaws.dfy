/** What the recommendations promise, and when they agree with the matrix. */
module UpdatesLaws {
  import opened Iteration
  import opened Matrix
  import opened MatrixLaws
  import opened MatrixMeaning
  import opened Model
  import opened Options
  import opened Updates
  import opened Version
  import opened VersionLaws

  ghost predicate UpstreamNewestFirst(releases: seq<UpstreamRelease>) {
    forall i, j | 0 <= i < j < |releases| :: CompareStrings(releases[i].version, releases[j].version) >= 0
  }

  /** All releases that are strictly newer, in order. */
  function StrictlyNewer(releases: seq<UpstreamRelease>, current: string): seq<UpstreamRelease> {
    if releases == [] then []
    else
      (if CompareStrings(releases[0].version, current) > 0 then [releases[0]] else [])
      + StrictlyNewer(releases[1..], current)
  }

  lemma OlderAfterOlder(a: string, b: string, current: string)
    requires CompareStrings(a, b) >= 0 && CompareStrings(a, current) <= 0
    ensures CompareStrings(b, current) <= 0
  {
    hide CompareStrings;
    CompareStringsAntisymmetric(a, b);
    CompareStringsTransitive(b, a, current);
  }

  lemma {:induction false} NothingNewer(releases: seq<UpstreamRelease>, current: string)
    requires UpstreamNewestFirst(releases)
    requires releases != [] ==> CompareStrings(releases[0].version, current) <= 0
    ensures StrictlyNewer(releases, current) == []
  {
    hide CompareStrings;
    if |releases| > 1 {
      OlderAfterOlder(releases[0].version, releases[1].version, current);
    }
    if releases != [] {
      NothingNewer(releases[1..], current);
    }
  }

  /** On releases sorted newest first, stopping at the first older one loses nothing:
      the result is the first of all strictly newer releases, up to the limit. */
  lemma {:induction false} NewerRunIsExact(releases: seq<UpstreamRelease>, current: string, most: nat)
    requires UpstreamNewestFirst(releases)
    ensures
      var all := StrictlyNewer(releases, current);
      NewerRun(releases, current, most) == all[..if |all| < most then |all| else most]
  {
    hide CompareStrings;
    if releases != [] {
      if CompareStrings(releases[0].version, current) <= 0 {
        NothingNewer(releases, current);
      } else if most > 0 {
        NewerRunIsExact(releases[1..], current, most - 1);
      }
    }
  }

  /** Nothing is listed as newer exactly when the component is assessed as latest. */
  lemma NothingNewerExactlyWhenLatest(releases: seq<UpstreamRelease>, current: string, supportedMinors: int)
    requires Parses(current) && releases != [] && Parses(releases[0].version)
    ensures NewerRun(releases, current, MAX_NEWER) == [] <==> Assess(current, releases, supportedMinors).0 == FreshLatest
  {
    hide Parse;
    CompareStringsAntisymmetric(current, releases[0].version);
  }

  /** The suggested patch is a greatest newer release of the same minor line. */
  lemma LatestPatchIsGreatest(releases: seq<UpstreamRelease>, current: V, r: UpstreamRelease)
    requires UpstreamNewestFirst(releases)
    requires IsFirst(releases, NewerPatch(current), Some(r))
    ensures NewerPatch(current)(r)
    ensures forall p | p in releases && NewerPatch(current)(p) :: CompareStrings(r.version, p.version) >= 0
  {
    hide CompareStrings, NewerPatch;
    var i :| 0 <= i < |releases| && releases[i] == r && forall j | 0 <= j < i :: !NewerPatch(current)(releases[j]);
    forall p | p in releases && NewerPatch(current)(p) ensures CompareStrings(r.version, p.version) >= 0 {
      var j :| 0 <= j < |releases| && releases[j] == p;
      CompareStringsAntisymmetric(p.version, p.version);
    }
  }

  // ---------------------------------------------------------------- the versions in use, independently

  /** What one environment's inventory contributes to one component. */
  function Contribution(components: seq<DiscoveredComponent>, env: string, name: string): map<string, string> {
    var actual := VersionsOf(components);
    if name in actual && actual[name] != "" then map[env := actual[name]] else map[]
  }

  function At(versions: map<string, map<string, string>>, name: string): map<string, string> {
    if name in versions then versions[name] else map[]
  }

  lemma AddVersionAt(versions: map<string, map<string, string>>, env: string, c: DiscoveredComponent, name: string)
    ensures
      var r := AddVersion(versions, env, c);
      && (name in r <==> name in versions || name == c.name)
      && At(r, name) == if name == c.name && c.version != "" then At(versions, name)[env := c.version] else At(versions, name)
  {
  }

  lemma NotYetListed(components: seq<DiscoveredComponent>, name: string)
    requires forall i | 0 <= i < |components| :: components[i].name != name
    ensures name !in VersionsOf(components)
  {
    VersionsOfNames(components);
  }

  lemma {:induction false} AddVersionsAt(
      versions: map<string, map<string, string>>, env: string, components: seq<DiscoveredComponent>, name: string)
    requires UniqueComponents(components)
    ensures
      var r := AddVersions(versions, env, components);
      && (name in r <==> name in versions || name in VersionsOf(components))
      && At(r, name) == At(versions, name) + Contribution(components, env, name)
  {
    if components != [] {
      var rest, last := components[..|components| - 1], components[|components| - 1];
      AddVersionsAt(versions, env, rest, name);
      var before := AddVersions(versions, env, rest);
      AddVersionAt(before, env, last, name);
      if last.name == name {
        NotYetListed(rest, name);
      }
      hide AddVersion, UniqueComponents;
    } else {
      assert At(versions, name) + map[] == At(versions, name);
    }
  }

  /** The non-empty observed versions of a component, by environment. */
  function Observed(data: Input, envs: seq<Environment>, name: string): map<string, string> {
    if envs == [] then map[]
    else
      var last := envs[|envs| - 1].name;
      Observed(data, envs[..|envs| - 1], name) + Contribution(ComponentsIn(data, last), last, name)
  }

  /** With unique component names, the nested loops collect exactly the observed versions. */
  lemma {:induction false} VersionsInMeans(data: Input, envs: seq<Environment>, name: string)
    requires forall e | e in envs :: UniqueComponents(ComponentsIn(data, e.name))
    ensures name in VersionsIn(data, envs) <==> exists e | e in envs :: name in Actual(data, e.name)
    ensures At(VersionsIn(data, envs), name) == Observed(data, envs, name)
  {
    hide VersionsOf, UniqueComponents, AddVersions, Contribution;
    if envs != [] {
      var rest, last := envs[..|envs| - 1], envs[|envs| - 1];
      assert envs == rest + [last];
      VersionsInMeans(data, rest, name);
      AddVersionsAt(VersionsIn(data, rest), last.name, ComponentsIn(data, last.name), name);
      assert name in Actual(data, last.name) ==> exists e | e in envs :: name in Actual(data, e.name);
    }
  }

  predicate Reports(data: Input, env: Environment, name: string) {
    name in Actual(data, env.name) && Actual(data, env.name)[name] != ""
  }

  /** An observed version is reported by some environment. */
  lemma {:induction false} ObservedIsReported(data: Input, envs: seq<Environment>, name: string, k: string)
    returns (e: Environment)
    requires k in Observed(data, envs, name)
    ensures e in envs && e.name == k && Reports(data, e, name)
    ensures Observed(data, envs, name)[k] == Actual(data, k)[name]
  {
    hide VersionsOf;
    var rest, last := envs[..|envs| - 1], envs[|envs| - 1];
    if k == last.name && Reports(data, last, name) {
      e := last;
    } else {
      e := ObservedIsReported(data, rest, name, k);
    }
  }

  /** A reported version is observed. */
  lemma {:induction false} ReportedIsObserved(data: Input, envs: seq<Environment>, name: string, e: Environment)
    requires UniqueEnvironments(envs) && e in envs && Reports(data, e, name)
    ensures e.name in Observed(data, envs, name) && Observed(data, envs, name)[e.name] == Actual(data, e.name)[name]
  {
    hide VersionsOf;
    if e != envs[|envs| - 1] {
      ReportedIsObserved(data, envs[..|envs| - 1], name, e);
    }
  }

  // ---------------------------------------------------------------- agreement

  /** When the oldest running version tells as much as all running versions: upstream is unknown,
      or no version parses, or all parse and no version left the support window beside an older major. */
  ghost predicate Comparable(running: set<string>, releases: seq<UpstreamRelease>, supportedMinors: int) {
    || releases == [] || !Parses(releases[0].version)
    || (forall v | v in running :: !Parses(v))
    || (&& (forall v | v in running :: Parses(v))
        && forall a, b | a in running && b in running ::
             !(&& Parse(a).value.major < Parse(releases[0].version).value.major
               && OutOfWindow(Parse(b).value, Parse(releases[0].version).value, supportedMinors)))
  }

  /** Whether f is the worst assessment of the running versions. */
  ghost predicate IsWorst(running: set<string>, releases: seq<UpstreamRelease>, supportedMinors: int, f: Freshness) {
    && (forall v | v in running :: Rank(Assess(v, releases, supportedMinors).0) <= Rank(f))
    && (f == FreshUnknown || exists v | v in running :: Assess(v, releases, supportedMinors).0 == f)
  }

  lemma OldestIsWorstExactly(
      perEnv: map<string, string>, oldest: string, releases: seq<UpstreamRelease>, supportedMinors: int, worst: Freshness)
    requires IsOldest(perEnv, oldest) && IsWorst(perEnv.Values, releases, supportedMinors, worst)
    ensures worst == Assess(oldest, releases, supportedMinors).0 <==> Comparable(perEnv.Values, releases, supportedMinors)
  {
    hide Parse, Compare, AssessParsed;
    var running := perEnv.Values;
    EmptyDoesNotParse();
    if releases == [] || !Parses(releases[0].version) || (forall v | v in running :: !Parses(v)) {
    } else if v :| v in running && !Parses(v) {
      var p :| p in running && Parses(p);
      assert CompareStrings(oldest, v) <= 0;
      AssessedIsKnown(Parse(p).value, Parse(releases[0].version).value, supportedMinors);
    } else {
      AllParsedOldestIsWorst(perEnv, oldest, releases, supportedMinors, worst);
    }
  }

  lemma AssessedIsKnown(v: V, latest: V, supportedMinors: int)
    ensures AssessParsed(v, latest, supportedMinors).0 != FreshUnknown
  {
  }

  lemma AllParsedOldestIsWorst(
      perEnv: map<string, string>, oldest: string, releases: seq<UpstreamRelease>, supportedMinors: int, worst: Freshness)
    requires IsOldest(perEnv, oldest) && IsWorst(perEnv.Values, releases, supportedMinors, worst)
    requires releases != [] && Parses(releases[0].version)
    requires perEnv != map[] && forall v | v in perEnv.Values :: Parses(v)
    ensures worst == Assess(oldest, releases, supportedMinors).0 <==> Comparable(perEnv.Values, releases, supportedMinors)
  {
    hide Parse, Compare, AssessParsed;
    var running := perEnv.Values;
    var latest := Parse(releases[0].version).value;
    var oldestV := Parse(oldest).value;
    if a, b :| a in running && b in running && Parse(a).value.major < latest.major
               && OutOfWindow(Parse(b).value, latest, supportedMinors) {
      assert CompareStrings(oldest, a) <= 0;
      MajorOrder(oldestV, Parse(a).value);
      WindowOrder(Parse(b).value, latest, supportedMinors);
      MajorBehind(oldestV, latest, supportedMinors);
      assert Rank(Assess(b, releases, supportedMinors).0) <= Rank(worst);
    } else {
      forall v | v in running
        ensures Rank(Assess(v, releases, supportedMinors).0) <= Rank(Assess(oldest, releases, supportedMinors).0)
      {
        assert CompareStrings(oldest, v) <= 0;
        AssessMonotoneExactly(oldestV, Parse(v).value, latest, supportedMinors);
      }
      AssessedIsKnown(oldestV, latest, supportedMinors);
      SameRank(Assess(oldest, releases, supportedMinors).0, worst);
    }
  }

  lemma SameRank(a: Freshness, b: Freshness)
    ensures Rank(a) == Rank(b) ==> a == b
  {
  }

  lemma EmptyDoesNotParse()
    ensures Parse("").None?
  {
  }

  lemma MajorOrder(a: V, b: V)
    requires Compare(a, b) <= 0
    ensures a.major <= b.major
  {
  }

  lemma WindowOrder(v: V, latest: V, supportedMinors: int)
    requires OutOfWindow(v, latest, supportedMinors)
    ensures AssessParsed(v, latest, supportedMinors).0 == FreshUnsupported
  {
  }

  lemma MajorBehind(v: V, latest: V, supportedMinors: int)
    requires v.major < latest.major
    ensures AssessParsed(v, latest, supportedMinors).0 == FreshMajor
  {
  }

  /** The matrix row of a component carries the worst assessment of its running versions. */
  lemma RowIsWorstRunning(data: Input, name: string)
    requires UniqueEnvironments(data.platform.environments)
    requires forall e | e in data.platform.environments :: UniqueComponents(ComponentsIn(data, e.name))
    ensures IsWorst(At(AllVersions(data), name).Values, UpstreamOf(data, name), SupportedMinors(data.catalog, name),
                    RowOf(data, name).freshness)
  {
    hide Parse, Compare, VersionsIn, VersionsOf, UniqueComponents, UniqueEnvironments, RowAfter, AssessParsed;
    var envs := data.platform.environments;
    var releases, supported := UpstreamOf(data, name), SupportedMinors(data.catalog, name);
    VersionsInMeans(data, envs, name);
    RowFreshnessIsWorst(data, envs, name);
    EmptyDoesNotParse();
    var perEnv := At(AllVersions(data), name);
    var f := RowOf(data, name).freshness;
    forall v | v in perEnv.Values ensures Rank(Assess(v, releases, supported).0) <= Rank(f) {
      var k :| k in perEnv && perEnv[k] == v;
      var e := ObservedIsReported(data, envs, name, k);
      assert Rank(FreshnessIn(data, e, name)) <= Rank(f);
    }
    if f != FreshUnknown {
      var e :| e in envs && FreshnessIn(data, e, name) == f;
      ReportedIsObserved(data, envs, name, e);
      assert perEnv[e.name] in perEnv.Values;
    }
  }

  /** The recommendation and the matrix row agree on a component exactly when its versions are comparable. */
  lemma MatrixAndUpdatesAgreeExactly(data: Input, m: Matrix, row: Row, out: seq<Update>, u: Update)
    requires UniqueEnvironments(data.platform.environments)
    requires forall e | e in data.platform.environments :: UniqueComponents(ComponentsIn(data, e.name))
    requires IsMatrix(data, m) && row in m.rows
    requires AreUpdates(data, out) && u in out && u.component == row.component
    ensures row.freshness == u.freshness <==>
            Comparable(u.versions.Values, UpstreamOf(data, u.component), SupportedMinors(data.catalog, u.component))
  {
    hide CompareStrings, Parse, VersionsIn, UniqueComponents, UniqueEnvironments, RowAfter, IsWorst, IsOldest;
    hide Comparable, IsFirst, SummaryOf, Statuses;
    var name := u.component;
    var order :| Lists(order, AllRows(data)) && m.rows == RowsNamed(data, order);
    RowComponent(data, data.platform.environments, row.component);
    var i :| 0 <= i < |m.rows| && m.rows[i] == row;
    RowComponent(data, data.platform.environments, order[i]);
    assert row == RowOf(data, name);
    RowIsWorstRunning(data, name);
    OldestIsWorstExactly(u.versions, u.current, UpstreamOf(data, name), SupportedMinors(data.catalog, name), row.freshness);
  }

  /** Every recommendation has its row in the matrix. */
  lemma UpdatesHaveRows(data: Input, name: string)
    requires UniqueEnvironments(data.platform.environments)
    requires forall e | e in data.platform.environments :: UniqueComponents(ComponentsIn(data, e.name))
    requires name in AllVersions(data)
    ensures name in AllRows(data)
  {
    hide RowNames, VersionsOf, UniqueComponents, UniqueEnvironments, VersionsIn;
    VersionsInMeans(data, data.platform.environments, name);
    var e :| e in data.platform.environments && name in Actual(data, e.name);
    VersionsOfNames(ComponentsIn(data, e.name));
    EnvironmentNamesAreRows(data, data.platform.environments, e);
  }

  // ---------------------------------------------------------------- what is recommended

  /** From most to least urgent: unsupported, behind a major, behind a minor, behind a patch, latest, unknown. */
  predicate AtLeastAsUrgent(a: Freshness, b: Freshness) {
    match a
    case FreshUnsupported => true
    case FreshMajor => b != FreshUnsupported
    case FreshMinor => b != FreshUnsupported && b != FreshMajor
    case FreshPatch => b == FreshPatch || b == FreshLatest || b == FreshUnknown
    case FreshLatest => b == FreshLatest || b == FreshUnknown
    case FreshUnknown => b == FreshUnknown
  }

  /** Of two recommendations the first is at least as urgent; on a tie it is behind by at least as many minor
      versions; and on a tie there its name does not come later in the dictionary. */
  lemma MostUrgentFirst(data: Input, out: seq<Update>, i: nat, j: nat)
    requires AreUpdates(data, out) && i < j < |out|
    ensures AtLeastAsUrgent(out[i].freshness, out[j].freshness)
    ensures out[i].freshness == out[j].freshness ==> out[i].minorsBehind >= out[j].minorsBehind
    ensures out[i].freshness == out[j].freshness && out[i].minorsBehind == out[j].minorsBehind ==>
              !Precedes(out[j].displayName, out[i].displayName)
  {
    hide IsUpdate;
    assert URGENCY(out[i], out[j]) >= 0;
    CompareTextExactly(out[j].displayName, out[i].displayName);
  }

  /** The first release that ties with the current version, if any does. */
  ghost predicate IsCurrentRelease(releases: seq<UpstreamRelease>, current: string, r: Option<UpstreamRelease>) {
    match r
    case None => forall i | 0 <= i < |releases| :: CompareStrings(releases[i].version, current) != 0
    case Some(first) =>
      exists i | 0 <= i < |releases| ::
        && releases[i] == first && CompareStrings(first.version, current) == 0
        && forall j | 0 <= j < i :: CompareStrings(releases[j].version, current) != 0
  }

  /** What a recommendation says of its component. */
  ghost predicate IsAdvice(data: Input, u: Update) {
    var releases := Newest(data, u.component);
    && u.displayName ==
       (if data.catalog(u.component).Some? then data.catalog(u.component).value.displayName else u.component)
    && u.latest == (if releases == [] then None else Some(releases[0]))
    && Graded(u.current, releases, Window(data, u.component), u.freshness, u.minorsBehind)
    && u.error == (if u.component in data.upstreamErrors then data.upstreamErrors[u.component] else "")
    && (Parses(u.current) && UpstreamNewestFirst(releases) ==> IsFirstFew(u.newer, StrictlyNewer(releases, u.current), 15))
    && (!Parses(u.current) ==> u.newer == [])
    && IsCurrentRelease(releases, u.current, u.currentRelease)
  }

  predicate IsFirstFew(few: seq<UpstreamRelease>, all: seq<UpstreamRelease>, most: nat) {
    few <= all && |few| == if |all| < most then |all| else most
  }

  lemma AdviceExactly(data: Input, out: seq<Update>, u: Update)
    requires AreUpdates(data, out) && u in out
    ensures IsAdvice(data, u)
  {
    hide Parse, CompareStrings, NewerRun, StrictlyNewer, IsOldest, VersionsIn, Assess, Graded;
    var releases := Newest(data, u.component);
    AssessExactly(u.current, releases, Window(data, u.component), u.freshness, u.minorsBehind);
    if UpstreamNewestFirst(releases) {
      NewerRunIsExact(releases, u.current, 15);
    }
  }

  /** The strictly newer releases are those of the list that are newer. */
  lemma {:induction false} StrictlyNewerMembers(releases: seq<UpstreamRelease>, current: string, r: UpstreamRelease)
    ensures r in StrictlyNewer(releases, current) <==> r in releases && CompareStrings(r.version, current) > 0
  {
    hide CompareStrings;
    if releases != [] {
      StrictlyNewerMembers(releases[1..], current, r);
      assert releases == [releases[0]] + releases[1..];
    }
  }

  /** They stay in order. */
  lemma {:induction false} StrictlyNewerInOrder(releases: seq<UpstreamRelease>, more: seq<UpstreamRelease>, current: string)
    ensures StrictlyNewer(releases + more, current) == StrictlyNewer(releases, current) + StrictlyNewer(more, current)
  {
    hide CompareStrings;
    if releases == [] {
      assert releases + more == more;
    } else {
      assert (releases + more)[1..] == releases[1..] + more;
      StrictlyNewerInOrder(releases[1..], more, current);
    }
  }

  /** There is one recommendation for each component that some environment lists, with the versions that the
      environments run, and the least of them as the current one. */
  lemma AdviceForWhatRuns(data: Input, out: seq<Update>, name: string)
    requires UniqueEnvironments(data.platform.environments)
    requires forall e | e in data.platform.environments :: UniqueComponents(ComponentsIn(data, e.name))
    requires AreUpdates(data, out)
    ensures (exists u | u in out :: u.component == name) <==>
            exists e | e in data.platform.environments :: name in Listed(data, e)
    ensures forall u | u in out && u.component == name ::
              && (forall e, v | e in data.platform.environments ::
                    Holds(u.versions, e.name, v) <==> Runs(data, e, name, v) && v != "")
              && (forall k | k in u.versions :: exists e | e in data.platform.environments :: e.name == k)
              && (u.versions == map[] ==> u.current == "")
              && (u.versions != map[] ==>
                    u.current in u.versions.Values && forall v | v in u.versions.Values :: CompareStrings(u.current, v) <= 0)
    ensures forall i, j | 0 <= i < j < |out| :: out[i].component != out[j].component
  {
    hide Parse, CompareStrings, IsFirst, VersionsIn, Assess, Runs, Actual, Listed, Observed;
    hide UniqueEnvironments, UniqueComponents;
    var envs := data.platform.environments;
    VersionsInMeans(data, envs, name);
    forall e ensures name in Listed(data, e) <==> name in Actual(data, e.name) {
      RunsExactly(data, e, name);
    }
    ComponentsListed(out, name);
    forall u | u in out && u.component == name
      ensures forall k | k in u.versions :: exists e | e in envs :: e.name == k
      ensures forall e, v | e in envs :: Holds(u.versions, e.name, v) <==> Runs(data, e, name, v) && v != ""
    {
      assert u.versions == Observed(data, envs, name);
      forall k | k in u.versions ensures exists e | e in envs :: e.name == k {
        var e := ObservedIsReported(data, envs, name, k);
      }
      forall e, v | e in envs ensures Holds(u.versions, e.name, v) <==> Runs(data, e, name, v) && v != "" {
        ObservedExactly(data, envs, name, e, v);
      }
    }
    forall i, j | 0 <= i < j < |out| ensures out[i].component != out[j].component {
      assert Components(out)[i] != Components(out)[j];
    }
  }

  predicate Holds(versions: map<string, string>, k: string, v: string) {
    k in versions && versions[k] == v
  }

  lemma ComponentsListed(out: seq<Update>, name: string)
    ensures name in Components(out) <==> exists u | u in out :: u.component == name
  {
    if name in Components(out) {
      var i :| 0 <= i < |out| && Components(out)[i] == name;
      assert out[i] in out;
    }
    if u :| u in out && u.component == name {
      var i :| 0 <= i < |out| && out[i] == u;
      assert Components(out)[i] == name;
    }
  }

  lemma ObservedExactly(data: Input, envs: seq<Environment>, name: string, e: Environment, v: string)
    requires UniqueEnvironments(envs) && e in envs
    ensures Holds(Observed(data, envs, name), e.name, v) <==> Runs(data, e, name, v) && v != ""
  {
    hide Runs, Actual, Observed;
    RunsExactly(data, e, name);
    if e.name in Observed(data, envs, name) {
      var f := ObservedIsReported(data, envs, name, e.name);
    }
    if Reports(data, e, name) {
      ReportedIsObserved(data, envs, name, e);
    }
  }
}
