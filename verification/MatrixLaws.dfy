/** What the matrix promises: conservation, compliance, the matched release and the summary. */
module MatrixLaws {
  import opened Iteration
  import opened Matrix
  import opened Model
  import opened Options
  import opened Releases
  import opened Version

  // ---------------------------------------------------------------- counters of one environment

  lemma {:induction false} EnvironmentNamesAreRows(data: Input, envs: seq<Environment>, env: Environment)
    requires env in envs
    ensures NamesFrom(data, env) <= RowNames(data, envs)
  {
    if env != envs[|envs| - 1] {
      EnvironmentNamesAreRows(data, envs[..|envs| - 1], env);
    }
  }

  lemma {:induction false} VersionsOfNames(components: seq<DiscoveredComponent>)
    ensures VersionsOf(components).Keys == NamesOf(components)
  {
    if components != [] {
      VersionsOfNames(components[..|components| - 1]);
      NamesOfOneMore(components, |components| - 1);
      assert components[..|components|] == components;
    }
  }

  /** Counting over the rows is counting over the target and what runs, whatever other rows there are. */
  lemma CountersAreLocal(release: PlatformRelease, actual: map<string, string>, rows: set<string>)
    requires release.components.Keys <= rows && actual.Keys <= rows
    ensures
      var target := release.components;
      && CountStatus(Some(release), actual, rows, Missing) == |set n | n in target && n !in actual|
      && CountStatus(Some(release), actual, rows, Aligned) == |set n | n in target && SatisfiedAt(target, actual, n)|
      && CountStatus(Some(release), actual, rows, Drift)
         == |set n | n in target && n in actual && !SatisfiedAt(target, actual, n)|
      && CountStatus(Some(release), actual, rows, Untracked) == |set n | n in actual && n !in target && actual[n] != ""|
  {
    hide Matches;
    var target := release.components;
    assert (set n | n in rows && StatusIn(Some(release), actual, n) == Missing) == set n | n in target && n !in actual;
    assert (set n | n in rows && StatusIn(Some(release), actual, n) == Aligned)
        == set n | n in target && SatisfiedAt(target, actual, n);
    assert (set n | n in rows && StatusIn(Some(release), actual, n) == Drift)
        == set n | n in target && n in actual && !SatisfiedAt(target, actual, n);
    assert (set n | n in rows && StatusIn(Some(release), actual, n) == Untracked)
        == set n | n in actual && n !in target && actual[n] != "";
  }

  /** What each counter of an environment with a resolved target means. */
  lemma CountersMean(data: Input, env: Environment)
    requires env in data.platform.environments && Target(data, env).Some?
    ensures
      var es, target, actual := EnvStatusOf(data, env), Expected(data, env), Actual(data, env.name);
      && es.missing == |set n | n in target && n !in actual|
      && es.aligned == |set n | n in target && SatisfiedAt(target, actual, n)|
      && es.drift == |set n | n in target && n in actual && !SatisfiedAt(target, actual, n)|
      && es.untracked == |set n | n in actual && n !in target && actual[n] != ""|
  {
    hide CountStatus, SatisfiedAt;
    EnvironmentNamesAreRows(data, data.platform.environments, env);
    VersionsOfNames(ComponentsIn(data, env.name));
    CountersAreLocal(Target(data, env).value, Actual(data, env.name), AllRows(data));
  }

  /** Every component of the target is counted exactly once: aligned, drifted or missing. */
  lemma Conservation(data: Input, env: Environment)
    requires env in data.platform.environments && Target(data, env).Some?
    ensures var es := EnvStatusOf(data, env); es.aligned + es.drift + es.missing == |Expected(data, env)|
  {
    hide SatisfiedAt, Actual, EnvStatusOf, Expected;
    CountersMean(data, env);
    var target, actual := Expected(data, env), Actual(data, env.name);
    var aligned := set n | n in target && SatisfiedAt(target, actual, n);
    var drift := set n | n in target && n in actual && !SatisfiedAt(target, actual, n);
    var missing := set n | n in target && n !in actual;
    SatisfiedIsPresent(target, actual);
    assert aligned + drift + missing == target.Keys;
    assert |aligned + drift| == |aligned| + |drift|;
    assert |target.Keys| == |target|;
  }

  lemma SatisfiedIsPresent(target: map<string, string>, actual: map<string, string>)
    ensures forall n | n in target && SatisfiedAt(target, actual, n) :: n in actual
  {
  }

  /** Without a resolved target nothing is counted. */
  lemma NothingCountedWithoutTarget(data: Input, env: Environment)
    requires Target(data, env).None?
    ensures var es := EnvStatusOf(data, env); es.aligned == 0 && es.drift == 0 && es.missing == 0 && es.untracked == 0
  {
    forall s: Status | s in {Aligned, Drift, Missing, Untracked}
      ensures CountStatus(Target(data, env), Actual(data, env.name), AllRows(data), s) == 0
    {
      assert (set n | n in AllRows(data) && StatusIn(Target(data, env), Actual(data, env.name), n) == s) == {};
    }
  }

  /** Compliance is exactly satisfaction of a resolved target. */
  lemma CompliantExactlyWhenSatisfied(data: Input, env: Environment)
    requires env in data.platform.environments
    ensures EnvStatusOf(data, env).compliant <==>
            Target(data, env).Some? && Satisfies(Target(data, env).value, Actual(data, env.name))
  {
    if Target(data, env).Some? {
      hide SatisfiedAt, Actual;
      CountersMean(data, env);
      var target, actual := Expected(data, env), Actual(data, env.name);
      var drift := set n | n in target && n in actual && !SatisfiedAt(target, actual, n);
      var missing := set n | n in target && n !in actual;
      SatisfiedIsPresent(target, actual);
      if Satisfies(Target(data, env).value, actual) {
        assert drift == {} && missing == {};
      } else {
        var n :| n in target && !SatisfiedAt(target, actual, n);
        assert n in drift || n in missing;
      }
    }
  }

  // ---------------------------------------------------------------- the matched release

  /** Whether the release at index i is the first one, in order, that is satisfied. */
  ghost predicate FirstSatisfiedAt(releases: seq<PlatformRelease>, actual: map<string, string>, i: nat) {
    && i < |releases| && Satisfies(releases[i], actual)
    && forall j | 0 <= j < i :: !Satisfies(releases[j], actual)
  }

  lemma {:induction false} FirstSatisfiedFound(releases: seq<PlatformRelease>, actual: map<string, string>) returns (i: nat)
    ensures i <= |releases|
    ensures i < |releases| ==> FirstSatisfiedAt(releases, actual, i) && FirstSatisfied(releases, actual) == releases[i].name
    ensures i == |releases| ==>
              FirstSatisfied(releases, actual) == "" && forall j | 0 <= j < i :: !Satisfies(releases[j], actual)
  {
    hide Satisfies;
    if releases == [] || Satisfies(releases[0], actual) {
      i := 0;
    } else {
      var k := FirstSatisfiedFound(releases[1..], actual);
      i := k + 1;
      assert forall j | 0 < j <= k && j < |releases| :: releases[j] == releases[1..][j - 1];
    }
  }

  lemma {:induction false} FoundReleaseIsListed(releases: seq<PlatformRelease>, name: string)
    requires FindRelease(releases, name).Some?
    ensures FindRelease(releases, name).value in releases && FindRelease(releases, name).value.name == name
  {
    if releases[0].name != name {
      FoundReleaseIsListed(releases[1..], name);
    }
  }

  /** A compliant environment that was discovered runs the newest release it satisfies,
      which is at least as new as its target. */
  lemma MatchedReleaseIsNewest(data: Input, env: Environment) returns (i: nat)
    requires env in data.platform.environments && env.name in data.inventories
    requires NewestFirst(data.releases)
    requires EnvStatusOf(data, env).compliant
    ensures
      var actual := Actual(data, env.name);
      && FirstSatisfiedAt(data.releases, actual, i)
      && EnvStatusOf(data, env).matchedRelease == data.releases[i].name
      && (forall r | r in data.releases && Satisfies(r, actual) ::
            CompareStrings(data.releases[i].version, r.version) >= 0)
      && Target(data, env).Some? && CompareStrings(data.releases[i].version, Target(data, env).value.version) >= 0
  {
    hide Satisfies, CompareStrings, CountStatus;
    CompliantExactlyWhenSatisfied(data, env);
    FoundReleaseIsListed(data.releases, env.targetRelease);
    var actual := Actual(data, env.name);
    i := FirstSatisfiedFound(data.releases, actual);
    var t :| 0 <= t < |data.releases| && data.releases[t] == Target(data, env).value;
    assert i < |data.releases|;
    forall r | r in data.releases && Satisfies(r, actual)
      ensures CompareStrings(data.releases[i].version, r.version) >= 0
    {
      var j :| 0 <= j < |data.releases| && data.releases[j] == r;
      CompareStringsAntisymmetric(r.version, r.version);
    }
  }

  lemma StatusInMatrix(data: Input, m: Matrix, env: Environment)
    requires IsMatrix(data, m) && env in data.platform.environments
    ensures EnvStatusOf(data, env) in m.environments
    ensures EnvStatusOf(data, env).name == env.name && EnvStatusOf(data, env).targetRelease == env.targetRelease
  {
    var i :| 0 <= i < |data.platform.environments| && data.platform.environments[i] == env;
    assert m.environments[i] == EnvStatusOf(data, env);
  }

  // ---------------------------------------------------------------- freshness

  /** A row's freshness is the worst of its cells. */
  lemma {:induction false} RowFreshnessIsWorst(data: Input, envs: seq<Environment>, name: string)
    ensures
      var f := RowAfter(data, envs, name).freshness;
      && (forall e | e in envs :: Rank(FreshnessIn(data, e, name)) <= Rank(f))
      && (f == FreshUnknown || exists e | e in envs :: FreshnessIn(data, e, name) == f)
  {
    hide FreshnessIn;
    if envs != [] {
      var rest, last := envs[..|envs| - 1], envs[|envs| - 1];
      RowFreshnessIsWorst(data, rest, name);
      assert envs == rest + [last];
    }
  }

  /** With unique environment names, each row holds the cell of each environment. */
  lemma {:induction false} CellInRow(data: Input, envs: seq<Environment>, env: Environment, name: string)
    requires UniqueEnvironments(envs) && env in envs
    ensures
      var cells := RowAfter(data, envs, name).cells;
      env.name in cells && cells[env.name] == CellOf(data, env, name)
  {
    hide CellOf, FreshnessIn;
    if env != envs[|envs| - 1] {
      CellInRow(data, envs[..|envs| - 1], env, name);
    }
  }

  lemma {:induction false} RowComponent(data: Input, envs: seq<Environment>, name: string)
    ensures RowAfter(data, envs, name).component == name
  {
    hide CellOf, FreshnessIn;
    if envs != [] {
      RowComponent(data, envs[..|envs| - 1], name);
    }
  }

  predicate OutOfWindow(v: V, latest: V, supportedMinors: int) {
    supportedMinors > 0 && v.major == latest.major && latest.minor - v.minor >= supportedMinors
  }

  /** An older version never looks fresher than a newer one, with one exception:
      an older major beside a version of the newest major that left the support window. */
  lemma AssessMonotoneExactly(older: V, newer: V, latest: V, supportedMinors: int)
    requires Version.Compare(older, newer) <= 0
    ensures
      Rank(AssessParsed(newer, latest, supportedMinors).0) <= Rank(AssessParsed(older, latest, supportedMinors).0)
      <==> !(older.major < latest.major && OutOfWindow(newer, latest, supportedMinors))
  {
    hide PrereleaseSuffix;
  }

  /** Versions that tie are assessed alike. */
  lemma AssessRespectsTies(a: string, b: string, releases: seq<UpstreamRelease>, supportedMinors: int)
    requires CompareStrings(a, b) == 0
    ensures Assess(a, releases, supportedMinors) == Assess(b, releases, supportedMinors)
  {
    hide CompareStrings, Parse, PrereleaseSuffix;
    CompareStringsTies(a, b);
  }

  // ---------------------------------------------------------------- the summary

  function TargetSizes(data: Input, envs: seq<Environment>): nat {
    if envs == [] then 0
    else TargetSizes(data, envs[..|envs| - 1]) + |Expected(data, envs[|envs| - 1])|
  }

  lemma {:induction false} TotalsConserve(data: Input, envs: seq<Environment>)
    requires forall e | e in envs :: e in data.platform.environments
    ensures
      var statuses := Statuses(data, envs);
      Total(statuses, ALIGNED) + Total(statuses, DRIFT) + Total(statuses, MISSING) == TargetSizes(data, envs)
  {
    hide EnvStatusOf, Expected;
    if envs != [] {
      var last := envs[|envs| - 1];
      TotalsConserve(data, envs[..|envs| - 1]);
      assert Statuses(data, envs)[..|envs| - 1] == Statuses(data, envs[..|envs| - 1]);
      OneEnvironmentConserves(data, last);
    }
  }

  lemma OneEnvironmentConserves(data: Input, env: Environment)
    requires env in data.platform.environments
    ensures var es := EnvStatusOf(data, env); es.aligned + es.drift + es.missing == |Expected(data, env)|
  {
    if Target(data, env).Some? {
      Conservation(data, env);
    } else {
      NothingCountedWithoutTarget(data, env);
    }
  }

  lemma {:induction false} FreshCountsAddUp(rows: seq<Row>)
    ensures CountFresh(rows, IS_LATEST) + CountFresh(rows, IS_BEHIND) == CountFresh(rows, IS_KNOWN) <= |rows|
    ensures CountFresh(rows, IS_UNSUPPORTED) <= CountFresh(rows, IS_BEHIND)
  {
    if rows != [] {
      FreshCountsAddUp(rows[..|rows| - 1]);
    }
  }

  /** A whole percentage in 0..100, at most half a point away from 100 n / total, and above it when just half a point away. */
  predicate IsNearest(p: int, n: nat, total: nat) {
    0 <= p <= 100 && 200 * n - total < 2 * p * total <= 200 * n + total
  }

  /** A percentage is -1 for nothing, otherwise within half a point of the exact ratio and in 0..100. */
  lemma PercentIsNearest(n: nat, total: nat)
    requires n <= total
    ensures Percent(n, total) == -1 <==> total == 0
    ensures total > 0 ==> IsNearest(Percent(n, total), n, total)
  {
    if total > 0 {
      hide Percent;
      Quotient(200 * n + total, 2 * total);
      PercentIsQuotient(n, total);
      Between(Percent(n, total), n, total);
    }
  }

  lemma Quotient(x: nat, y: nat)
    requires y > 0
    ensures 0 <= x / y && x / y * y <= x < x / y * y + y
  {
  }

  lemma PercentIsQuotient(n: nat, total: nat)
    requires total > 0
    ensures Percent(n, total) == (200 * n + total) / (2 * total)
  {
  }

  lemma TimesMonotone(p: int, y: nat)
    ensures p >= 101 ==> p * y >= 101 * y
  {
  }

  lemma Between(p: int, n: nat, total: nat)
    requires 0 < total && n <= total && 0 <= p
    requires p * (2 * total) <= 200 * n + total < p * (2 * total) + 2 * total
    ensures p <= 100 && 200 * n - total < 2 * p * total <= 200 * n + total
  {
    assert p * (2 * total) == 2 * p * total;
    TimesMonotone(p, 2 * total);
  }

  /** The headline numbers: nothing of a target is lost, and every known row is up to date or behind. */
  lemma SummaryAddsUp(data: Input, m: Matrix)
    requires IsMatrix(data, m)
    ensures
      var s := m.summary;
      && s.aligned + s.drift + s.missing == TargetSizes(data, data.platform.environments)
      && s.upToDate + s.behind == CountFresh(m.rows, IS_KNOWN)
      && s.unsupported <= s.behind
      && s.components == |AllRows(data)|
      && (s.alignment == -1 <==> TargetSizes(data, data.platform.environments) == 0)
      && (s.currency == -1 <==> CountFresh(m.rows, IS_KNOWN) == 0)
      && (s.alignment != -1 ==> IsNearest(s.alignment, s.aligned, TargetSizes(data, data.platform.environments)))
      && (s.currency != -1 ==> IsNearest(s.currency, s.upToDate, CountFresh(m.rows, IS_KNOWN)))
  {
    hide Percent, AllRows, EnvStatusOf, RowOf, IsNearest;
    TotalsConserve(data, data.platform.environments);
    FreshCountsAddUp(m.rows);
    var order :| Lists(order, AllRows(data)) && m.rows == RowsNamed(data, order);
    ListsAll(order, AllRows(data));
    PercentIsNearest(m.summary.aligned, m.summary.aligned + m.summary.drift + m.summary.missing);
    PercentIsNearest(m.summary.upToDate, CountFresh(m.rows, IS_KNOWN));
  }
}
