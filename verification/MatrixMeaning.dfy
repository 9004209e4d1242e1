/** The matrix in terms of the input alone: listed releases, listed components and their versions. */
module MatrixMeaning {
  import opened Iteration
  import opened Matrix
  import opened MatrixLaws
  import opened Model
  import opened Options
  import opened Version

  // ---------------------------------------------------------------- what an environment aims at and what it runs

  /** The release that env aims at: the first listed one of the name it gives. */
  ghost predicate Targets(data: Input, env: Environment, r: PlatformRelease) {
    exists i | 0 <= i < |data.releases| :: data.releases[i] == r && FirstOfName(data.releases, env.targetRelease, i)
  }

  predicate FirstOfName(releases: seq<PlatformRelease>, name: string, i: nat) {
    i < |releases| && releases[i].name == name && forall j | 0 <= j < i :: releases[j].name != name
  }

  ghost predicate NoTarget(data: Input, env: Environment) {
    forall r | r in data.releases :: r.name != env.targetRelease
  }

  /** The names that env's inventory lists. */
  function Listed(data: Input, env: Environment): set<string> {
    if env.name in data.inventories then set c | c in data.inventories[env.name].components :: c.name else {}
  }

  /** The inventory of env lists a component, and the last time at this version. */
  ghost predicate Runs(data: Input, env: Environment, name: string, version: string) {
    env.name in data.inventories && ListsLast(data.inventories[env.name].components, name, version)
  }

  ghost predicate ListsLast(components: seq<DiscoveredComponent>, name: string, version: string) {
    exists i: nat :: LastListed(components, name, version, i)
  }

  predicate LastListed(components: seq<DiscoveredComponent>, name: string, version: string, i: nat) {
    && i < |components| && components[i].name == name && components[i].version == version
    && forall j | i < j < |components| :: components[j].name != name
  }

  /** env runs an accepted version of a component that r pins. */
  ghost predicate Meets(data: Input, env: Environment, r: PlatformRelease, name: string) {
    name in r.components && exists v :: Runs(data, env, name, v) && Matches(r.components[name], v)
  }

  ghost predicate MeetsAll(data: Input, env: Environment, r: PlatformRelease) {
    forall n | n in r.components :: Meets(data, env, r, n)
  }

  /** The target resolves exactly when some release has its name, and then to the first one listed. */
  lemma TargetExactly(data: Input, env: Environment)
    ensures forall r :: Target(data, env) == Some(r) <==> Targets(data, env, r)
    ensures Target(data, env).None? <==> NoTarget(data, env)
  {
    FindReleaseExactly(data.releases, env.targetRelease);
    forall r ensures Target(data, env) == Some(r) <==> Targets(data, env, r) {
      if i :| 0 <= i < |data.releases| && data.releases[i] == r && FirstOfName(data.releases, env.targetRelease, i) {
        assert data.releases[i] in data.releases;
      }
    }
  }

  lemma {:induction false} FindReleaseExactly(releases: seq<PlatformRelease>, name: string)
    ensures FindRelease(releases, name).None? <==> forall r | r in releases :: r.name != name
    ensures forall i: nat | FirstOfName(releases, name, i) :: FindRelease(releases, name) == Some(releases[i])
    ensures FindRelease(releases, name).Some? ==> exists i: nat :: FirstOfName(releases, name, i)
  {
    if releases != [] {
      var rest := releases[1..];
      FindReleaseExactly(rest, name);
      assert releases == [releases[0]] + rest;
      if releases[0].name == name {
        assert FirstOfName(releases, name, 0);
      } else {
        forall i: nat | FirstOfName(releases, name, i) ensures FindRelease(releases, name) == Some(releases[i]) {
          assert forall j | 0 <= j < |rest| :: rest[j] == releases[j + 1];
          assert i > 0 && FirstOfName(rest, name, i - 1);
        }
        if FindRelease(releases, name).Some? {
          var i: nat :| FirstOfName(rest, name, i);
          assert FirstOfName(releases, name, i + 1);
        }
      }
    }
  }

  /** What is observed is what the inventory lists last. */
  lemma RunsExactly(data: Input, env: Environment, name: string)
    ensures name in Listed(data, env) <==> name in Actual(data, env.name)
    ensures forall v :: Runs(data, env, name, v) <==> name in Actual(data, env.name) && Actual(data, env.name)[name] == v
  {
    LastListedExactly(ComponentsIn(data, env.name), name);
  }

  lemma {:induction false} LastListedExactly(components: seq<DiscoveredComponent>, name: string)
    ensures name in VersionsOf(components) <==> exists c | c in components :: c.name == name
    ensures forall v :: ListsLast(components, name, v) <==>
                        name in VersionsOf(components) && VersionsOf(components)[name] == v
  {
    if components != [] {
      var rest, last := components[..|components| - 1], components[|components| - 1];
      LastListedExactly(rest, name);
      assert components == rest + [last];
      forall v
        ensures ListsLast(components, name, v) <==>
                name in VersionsOf(components) && VersionsOf(components)[name] == v
      {
        LastListedMore(rest, last, name, v);
      }
    }
  }

  lemma LastListedMore(rest: seq<DiscoveredComponent>, last: DiscoveredComponent, name: string, v: string)
    ensures
      ListsLast(rest + [last], name, v) <==> if last.name == name then last.version == v else ListsLast(rest, name, v)
  {
    var all := rest + [last];
    if last.name == name {
      if i: nat :| LastListed(all, name, v, i) {
        assert all[|rest|] == last;
      }
      assert last.version == v ==> LastListed(all, name, v, |rest|);
    } else {
      if i: nat :| LastListed(all, name, v, i) {
        assert forall j | i < j < |rest| :: rest[j] == all[j];
        assert LastListed(rest, name, v, i);
      }
      if i: nat :| LastListed(rest, name, v, i) {
        assert LastListed(all, name, v, i);
      }
    }
  }

  lemma MeetsExactly(data: Input, env: Environment, r: PlatformRelease, name: string)
    ensures Meets(data, env, r, name) <==>
            name in r.components && SatisfiedAt(r.components, Actual(data, env.name), name)
  {
    hide Matches, Runs;
    RunsExactly(data, env, name);
  }

  lemma MeetsAllExactly(data: Input, env: Environment, r: PlatformRelease)
    ensures MeetsAll(data, env, r) <==> Satisfies(r, Actual(data, env.name))
  {
    forall n ensures Meets(data, env, r, n) <==> n in r.components && SatisfiedAt(r.components, Actual(data, env.name), n) {
      MeetsExactly(data, env, r, n);
    }
  }

  // ---------------------------------------------------------------- environments

  /** Compliance: some listed release has the target's name, and everything that the first of that name pins runs at
      an accepted version. */
  lemma ComplianceExactly(data: Input, m: Matrix, i: nat)
    requires IsMatrix(data, m) && i < |data.platform.environments|
    ensures
      var env := data.platform.environments[i];
      && |m.environments| == |data.platform.environments|
      && m.environments[i].name == env.name && m.environments[i].targetRelease == env.targetRelease
      && (m.environments[i].compliant <==> exists r :: Targets(data, env, r) && MeetsAll(data, env, r))
  {
    hide Satisfies, AllRows, CountStatus, SummaryOf;
    var env := data.platform.environments[i];
    CompliantExactlyWhenSatisfied(data, env);
    TargetExactly(data, env);
    if Target(data, env).Some? {
      MeetsAllExactly(data, env, Target(data, env).value);
    }
  }

  /** What the counters count, and that they add up to what the target pins; all zero without a target. */
  lemma CountersExactly(data: Input, m: Matrix, i: nat)
    requires IsMatrix(data, m) && i < |data.platform.environments|
    ensures
      var env, es := data.platform.environments[i], m.environments[i];
      && (forall r | Targets(data, env, r) ::
            && es.aligned == |set n | n in r.components && Meets(data, env, r, n)|
            && es.missing == |set n | n in r.components && n !in Listed(data, env)|
            && es.drift == |set n | n in r.components && n in Listed(data, env) && !Meets(data, env, r, n)|
            && es.untracked == |set n | n in Listed(data, env) && n !in r.components && !Runs(data, env, n, "")|
            && es.aligned + es.drift + es.missing == |r.components|)
      && (NoTarget(data, env) ==> es.aligned == 0 && es.drift == 0 && es.missing == 0 && es.untracked == 0)
  {
    hide SatisfiedAt, AllRows, CountStatus, SummaryOf, Meets, Actual, Listed, Runs, Targets;
    var env := data.platform.environments[i];
    TargetExactly(data, env);
    if Target(data, env).Some? {
      var r, actual := Target(data, env).value, Actual(data, env.name);
      CountersMean(data, env);
      Conservation(data, env);
      forall n
        ensures Meets(data, env, r, n) <==> n in r.components && SatisfiedAt(r.components, actual, n)
        ensures n in Listed(data, env) <==> n in actual
        ensures Runs(data, env, n, "") <==> n in actual && actual[n] == ""
      {
        MeetsExactly(data, env, r, n);
        RunsExactly(data, env, n);
      }
      SameSets(data, env, r);
    } else {
      NothingCountedWithoutTarget(data, env);
    }
  }

  lemma SameSets(data: Input, env: Environment, r: PlatformRelease)
    requires
      var actual := Actual(data, env.name);
      forall n ::
        && (Meets(data, env, r, n) <==> n in r.components && SatisfiedAt(r.components, actual, n))
        && (n in Listed(data, env) <==> n in actual)
        && (Runs(data, env, n, "") <==> n in actual && actual[n] == "")
    ensures
      var target, actual := r.components, Actual(data, env.name);
      && (set n | n in target && Meets(data, env, r, n)) == (set n | n in target && SatisfiedAt(target, actual, n))
      && (set n | n in target && n !in Listed(data, env)) == (set n | n in target && n !in actual)
      && (set n | n in target && n in Listed(data, env) && !Meets(data, env, r, n))
         == (set n | n in target && n in actual && !SatisfiedAt(target, actual, n))
      && (set n | n in Listed(data, env) && n !in target && !Runs(data, env, n, ""))
         == (set n | n in actual && n !in target && actual[n] != "")
  {
    hide SatisfiedAt, Meets, Listed, Actual, Runs;
  }

  /** The matched release of a discovered environment is the first listed one that is met in full. */
  lemma MatchedExactly(data: Input, m: Matrix, i: nat, k: nat)
    requires IsMatrix(data, m) && i < |data.platform.environments|
    ensures
      var env, es := data.platform.environments[i], m.environments[i];
      && (k < |data.releases| && env.name in data.inventories && MeetsAll(data, env, data.releases[k])
          && (forall j | 0 <= j < k :: !MeetsAll(data, env, data.releases[j])) ==>
            es.matchedRelease == data.releases[k].name)
      && (env.name !in data.inventories || (forall r | r in data.releases :: !MeetsAll(data, env, r)) ==>
            es.matchedRelease == "")
  {
    hide Satisfies, AllRows, CountStatus, SummaryOf, MeetsAll, FirstSatisfied;
    var env := data.platform.environments[i];
    forall r ensures MeetsAll(data, env, r) <==> Satisfies(r, Actual(data, env.name)) {
      MeetsAllExactly(data, env, r);
    }
    var first := FirstSatisfiedFound(data.releases, Actual(data, env.name));
    assert first < |data.releases| ==> data.releases[first] in data.releases;
  }

  // ---------------------------------------------------------------- rows

  /** A name has a row exactly when the newest release pins it, or an environment lists it or has a target that pins
      it; and it has one row. */
  lemma RowsExactly(data: Input, m: Matrix, name: string)
    requires IsMatrix(data, m)
    ensures (exists row | row in m.rows :: row.component == name) <==>
            || (data.releases != [] && name in data.releases[0].components)
            || (exists e | e in data.platform.environments :: Named(data, e, name))
    ensures forall i, j | 0 <= i < j < |m.rows| :: m.rows[i].component != m.rows[j].component
  {
    hide RowAfter, SummaryOf, RowNames, Named;
    var order :| Lists(order, AllRows(data)) && m.rows == RowsNamed(data, order);
    forall i | 0 <= i < |order| ensures m.rows[i].component == order[i] {
      RowComponent(data, data.platform.environments, order[i]);
    }
    RowNamesExactly(data, data.platform.environments, name);
    if row :| row in m.rows && row.component == name {
      var i :| 0 <= i < |m.rows| && m.rows[i] == row;
      assert order[i] in order;
    }
    if name in AllRows(data) {
      var i :| 0 <= i < |order| && order[i] == name;
      assert m.rows[i] in m.rows;
    }
  }

  ghost predicate Named(data: Input, env: Environment, name: string) {
    name in Listed(data, env) || exists r :: Targets(data, env, r) && name in r.components
  }

  lemma NamedExactly(data: Input, env: Environment, name: string)
    ensures Named(data, env, name) <==> name in NamesFrom(data, env)
  {
    hide Targets;
    TargetExactly(data, env);
    RunsExactly(data, env, name);
    VersionsOfNames(ComponentsIn(data, env.name));
  }

  lemma {:induction false} RowNamesExactly(data: Input, envs: seq<Environment>, name: string)
    ensures name in RowNames(data, envs) <==>
            || (data.releases != [] && name in data.releases[0].components)
            || (exists e | e in envs :: Named(data, e, name))
  {
    if envs != [] {
      var rest, last := envs[..|envs| - 1], envs[|envs| - 1];
      RowNamesExactly(data, rest, name);
      NamedExactly(data, last, name);
      assert envs == rest + [last];
      hide Named, NamesFrom;
    }
  }

  // ---------------------------------------------------------------- freshness

  /** The grade of a version beside the newest upstream release, and how many minor versions it is behind. */
  predicate Graded(current: string, releases: seq<UpstreamRelease>, window: int, f: Freshness, behind: int) {
    if !Parses(current) || releases == [] || !Parses(releases[0].version) then f == FreshUnknown && behind == 0
    else
      var order := CompareStrings(current, releases[0].version);
      var c, l := Parse(current).value, Parse(releases[0].version).value;
      var gap := l.minor - c.minor;
      match f
      case FreshUnknown => false
      case FreshLatest => order >= 0 && behind == 0
      case FreshPatch => order < 0 && c.major == l.major && gap == 0 && behind == 0
      case FreshMinor => c.major == l.major && gap > 0 && (window <= 0 || gap < window) && behind == gap
      case FreshMajor => c.major < l.major && behind == 0
      case FreshUnsupported => c.major == l.major && 0 < window <= gap && behind == gap
  }

  /** Assessment gives this grade and no other. */
  lemma AssessExactly(current: string, releases: seq<UpstreamRelease>, window: int, f: Freshness, behind: int)
    ensures Assess(current, releases, window) == (f, behind) <==> Graded(current, releases, window, f, behind)
  {
    hide Parse, PrereleaseSuffix;
  }

  function Window(data: Input, name: string): int {
    if data.catalog(name).Some? && data.catalog(name).value.upstream.Some? then
      data.catalog(name).value.upstream.value.supportedMinors
    else 0
  }

  function Newest(data: Input, name: string): seq<UpstreamRelease> {
    if name in data.upstream then data.upstream[name] else []
  }

  /** The cell of a component in an environment, field by field. */
  ghost predicate IsCell(data: Input, env: Environment, name: string, cell: Cell) {
    && (forall v | Runs(data, env, name, v) ::
          cell.version == v && exists b :: Graded(v, Newest(data, name), Window(data, name), cell.freshness, b))
    && (name !in Listed(data, env) ==> cell.version == "" && cell.freshness == FreshUnknown)
    && (forall r | Targets(data, env, r) ::
          && cell.expected == (if name in r.components then r.components[name] else "")
          && cell.status ==
             if name in r.components then
               if Meets(data, env, r, name) then Aligned else if name in Listed(data, env) then Drift else Missing
             else if name in Listed(data, env) then
               if Runs(data, env, name, "") then Present else Untracked
             else Absent)
    && (NoTarget(data, env) ==>
          cell.expected == "" && cell.status == if name in Listed(data, env) then Present else Absent)
  }

  /** Every row has each environment's cell, and nothing else. */
  lemma CellExactly(data: Input, m: Matrix, row: Row, env: Environment)
    requires UniqueEnvironments(data.platform.environments)
    requires IsMatrix(data, m) && row in m.rows && env in data.platform.environments
    ensures env.name in row.cells && IsCell(data, env, row.component, row.cells[env.name])
  {
    hide RowAfter, SummaryOf, RowNames, UniqueEnvironments, CellOf, IsCell;
    var name := RowOfMatrix(data, m, row);
    CellInRow(data, data.platform.environments, env, name);
    CellOfExactly(data, env, name);
  }

  lemma RowOfMatrix(data: Input, m: Matrix, row: Row) returns (name: string)
    requires IsMatrix(data, m) && row in m.rows
    ensures name == row.component && name in AllRows(data) && row == RowOf(data, name)
  {
    hide RowAfter, SummaryOf, RowNames;
    var order :| Lists(order, AllRows(data)) && m.rows == RowsNamed(data, order);
    var i :| 0 <= i < |m.rows| && m.rows[i] == row;
    name := order[i];
    RowComponent(data, data.platform.environments, name);
    assert order[i] in order;
  }

  lemma CellOfExactly(data: Input, env: Environment, name: string)
    ensures IsCell(data, env, name, CellOf(data, env, name))
  {
    hide Targets, NoTarget, Runs, Listed, Actual, Matches, Meets, Graded, Assess;
    TargetExactly(data, env);
    RunsExactly(data, env, name);
    if Target(data, env).Some? {
      MeetsExactly(data, env, Target(data, env).value, name);
    }
    if name in Actual(data, env.name) {
      var v := Actual(data, env.name)[name];
      var (f, b) := Assess(v, UpstreamOf(data, name), SupportedMinors(data.catalog, name));
      AssessExactly(v, Newest(data, name), Window(data, name), f, b);
    }
  }

  /** Some environment's cell has this grade. */
  predicate HasGrade(row: Row, f: Freshness) {
    exists e | e in row.cells :: row.cells[e].freshness == f
  }

  /** What a row says beside its cells: the pin of the newest release, the newest upstream version, and the worst
      grade among the cells. */
  lemma RowExactly(data: Input, m: Matrix, row: Row)
    requires UniqueEnvironments(data.platform.environments)
    requires IsMatrix(data, m) && row in m.rows
    ensures row.declared ==
            if data.releases != [] && row.component in data.releases[0].components
            then data.releases[0].components[row.component] else ""
    ensures row.latest == if Newest(data, row.component) != [] then Newest(data, row.component)[0].version else ""
    ensures forall e :: e in row.cells <==> exists env | env in data.platform.environments :: env.name == e
    ensures row.freshness ==
            if HasGrade(row, FreshUnsupported) then FreshUnsupported
            else if HasGrade(row, FreshMajor) then FreshMajor
            else if HasGrade(row, FreshMinor) then FreshMinor
            else if HasGrade(row, FreshPatch) then FreshPatch
            else if HasGrade(row, FreshLatest) then FreshLatest
            else FreshUnknown
  {
    hide RowAfter, SummaryOf, RowNames, UniqueEnvironments, HasGrade, Newest, CellOf, AllRows;
    var name := RowOfMatrix(data, m, row);
    var envs := data.platform.environments;
    RowFields(data, envs, name);
    RowCells(data, envs, name);
    RowFreshnessIsWorst(data, envs, name);
    forall f: Freshness
      ensures HasGrade(row, f) ==> Rank(f) <= Rank(row.freshness)
      ensures row.freshness == f != FreshUnknown ==> HasGrade(row, f)
    {
      GradesOf(data, row, f);
    }
    OneOfSix(row.freshness);
  }

  lemma OneOfSix(f: Freshness)
    ensures f in {FreshUnknown, FreshLatest, FreshPatch, FreshMinor, FreshMajor, FreshUnsupported}
  {
  }

  lemma GradesOf(data: Input, row: Row, f: Freshness)
    requires UniqueEnvironments(data.platform.environments)
    requires row == RowOf(data, row.component)
    requires forall e :: e in row.cells <==> exists env | env in data.platform.environments :: env.name == e
    requires forall e | e in data.platform.environments ::
               Rank(FreshnessIn(data, e, row.component)) <= Rank(row.freshness)
    requires row.freshness == FreshUnknown
             || exists e | e in data.platform.environments :: FreshnessIn(data, e, row.component) == row.freshness
    ensures HasGrade(row, f) ==> Rank(f) <= Rank(row.freshness)
    ensures row.freshness == f != FreshUnknown ==> HasGrade(row, f)
  {
    hide RowAfter, UniqueEnvironments, FreshnessIn, Rank;
    if e :| e in row.cells && row.cells[e].freshness == f {
      var env :| env in data.platform.environments && env.name == e;
      CellInRow(data, data.platform.environments, env, row.component);
    }
    if row.freshness == f != FreshUnknown {
      var env :| env in data.platform.environments && FreshnessIn(data, env, row.component) == f;
      CellInRow(data, data.platform.environments, env, row.component);
      assert row.cells[env.name].freshness == f;
    }
  }

  lemma {:induction false} RowFields(data: Input, envs: seq<Environment>, name: string)
    ensures
      var row := RowAfter(data, envs, name);
      && row.declared ==
         (if data.releases != [] && name in data.releases[0].components then data.releases[0].components[name] else "")
      && row.latest == if Newest(data, name) != [] then Newest(data, name)[0].version else ""
  {
    hide CellOf, FreshnessIn;
    if envs != [] {
      RowFields(data, envs[..|envs| - 1], name);
    }
  }

  lemma {:induction false} RowCells(data: Input, envs: seq<Environment>, name: string)
    ensures forall e :: e in RowAfter(data, envs, name).cells <==> exists env | env in envs :: env.name == e
  {
    hide CellOf, FreshnessIn;
    if envs != [] {
      var rest, last := envs[..|envs| - 1], envs[|envs| - 1];
      RowCells(data, rest, name);
      assert envs == rest + [last];
    }
  }

  // ---------------------------------------------------------------- the summary

  predicate IsBehind(f: Freshness) {
    f in {FreshPatch, FreshMinor, FreshMajor, FreshUnsupported}
  }

  /** The headline counts are of the rows, environments, offerings and releases there are, and of rows by grade. */
  lemma SummaryExactly(data: Input, m: Matrix)
    requires IsMatrix(data, m)
    ensures m.currentRelease == if data.releases == [] then "" else data.releases[0].name
    ensures
      var s := m.summary;
      && s.components == |m.rows| && s.environments == |data.platform.environments|
      && s.offerings == |data.platform.offerings| && s.releases == |data.releases|
      && s.upToDate == |set i | 0 <= i < |m.rows| && m.rows[i].freshness == FreshLatest|
      && s.behind == |set i | 0 <= i < |m.rows| && IsBehind(m.rows[i].freshness)|
      && s.unsupported == |set i | 0 <= i < |m.rows| && m.rows[i].freshness == FreshUnsupported|
  {
    hide RowOf, RowNames, EnvStatusOf, Percent, Total, CountFresh;
    GradeCounts(m.rows);
  }

  lemma GradeCounts(rows: seq<Row>)
    ensures CountFresh(rows, IS_LATEST) == |set i | 0 <= i < |rows| && rows[i].freshness == FreshLatest|
    ensures CountFresh(rows, IS_BEHIND) == |set i | 0 <= i < |rows| && IsBehind(rows[i].freshness)|
    ensures CountFresh(rows, IS_UNSUPPORTED) == |set i | 0 <= i < |rows| && rows[i].freshness == FreshUnsupported|
  {
    hide CountFresh;
    FreshCounts(rows, IS_LATEST);
    FreshCounts(rows, IS_BEHIND);
    FreshCounts(rows, IS_UNSUPPORTED);
    assert (set i | 0 <= i < |rows| && Picked(rows, IS_LATEST, i))
        == set i | 0 <= i < |rows| && rows[i].freshness == FreshLatest;
    assert (set i | 0 <= i < |rows| && Picked(rows, IS_BEHIND, i))
        == set i | 0 <= i < |rows| && IsBehind(rows[i].freshness);
    assert (set i | 0 <= i < |rows| && Picked(rows, IS_UNSUPPORTED, i))
        == set i | 0 <= i < |rows| && rows[i].freshness == FreshUnsupported;
  }

  predicate Picked(rows: seq<Row>, pick: Freshness -> bool, i: nat) {
    i < |rows| && pick(rows[i].freshness)
  }

  lemma {:induction false} FreshCounts(rows: seq<Row>, pick: Freshness -> bool)
    ensures CountFresh(rows, pick) == |set i | 0 <= i < |rows| && Picked(rows, pick, i)|
  {
    hide Picked;
    if rows != [] {
      FreshCounts(rows[..|rows| - 1], pick);
      OneMorePick(rows, pick);
    }
  }

  lemma OneMorePick(rows: seq<Row>, pick: Freshness -> bool)
    requires rows != []
    ensures
      var rest, last := rows[..|rows| - 1], |rows| - 1;
      |set i | 0 <= i < |rows| && Picked(rows, pick, i)| ==
      |set i | 0 <= i < |rest| && Picked(rest, pick, i)| + if pick(rows[last].freshness) then 1 else 0
  {
    var rest, last := rows[..|rows| - 1], |rows| - 1;
    var before := set i | 0 <= i < |rest| && Picked(rest, pick, i);
    assert forall i | 0 <= i < |rest| :: Picked(rest, pick, i) <==> Picked(rows, pick, i);
    assert Picked(rows, pick, last) <==> pick(rows[last].freshness);
    hide Picked;
    assert (set i | 0 <= i < |rows| && Picked(rows, pick, i)) == if Picked(rows, pick, last) then before + {last} else before;
  }
}
