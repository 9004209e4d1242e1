/** The environment matrix: components against environments, drift and freshness (internal/analysis/matrix.go). */
module Matrix {
  import opened Iteration
  import opened Model
  import opened Options
  import opened Version

  /** From best to worst, but for unknown, which ranks below all. */
  datatype Freshness = FreshUnknown | FreshLatest | FreshPatch | FreshMinor | FreshMajor | FreshUnsupported

  datatype Status = Aligned | Drift | Missing | Untracked | Present | Absent

  datatype Input = Input(
    platform: Platform, catalog: Catalog, releases: seq<PlatformRelease>, inventories: map<string, Inventory>,
    upstream: map<string, seq<UpstreamRelease>>, upstreamErrors: map<string, string>)

  datatype Cell = Cell(version: string, expected: string, status: Status, freshness: Freshness)

  datatype Row = Row(component: string, declared: string, latest: string, freshness: Freshness, cells: map<string, Cell>)

  datatype EnvStatus = EnvStatus(
    name: string, targetRelease: string, matchedRelease: string, compliant: bool,
    aligned: nat, drift: nat, missing: nat, untracked: nat)

  datatype Summary = Summary(
    components: nat, environments: nat, offerings: nat, releases: nat,
    aligned: nat, drift: nat, missing: nat, untracked: nat,
    upToDate: nat, behind: nat, unsupported: nat, alignment: int, currency: int)

  datatype Matrix = Matrix(currentRelease: string, environments: seq<EnvStatus>, rows: seq<Row>, summary: Summary)

  function Rank(f: Freshness): nat {
    match f
    case FreshUnknown => 0
    case FreshLatest => 1
    case FreshPatch => 2
    case FreshMinor => 3
    case FreshMajor => 4
    case FreshUnsupported => 5
  }

  function Worse(a: Freshness, b: Freshness): Freshness {
    if Rank(b) > Rank(a) then b else a
  }

  /** How far a parsed version is behind the newest upstream one. */
  function AssessParsed(current: V, latest: V, supportedMinors: int): (Freshness, int) {
    if Compare(current, latest) >= 0 then (FreshLatest, 0)
    else if current.major < latest.major then (FreshMajor, 0)
    else
      var behind := latest.minor - current.minor;
      if supportedMinors > 0 && behind >= supportedMinors then (FreshUnsupported, behind)
      else if behind > 0 then (FreshMinor, behind)
      else (FreshPatch, 0)
  }

  function Assess(current: string, releases: seq<UpstreamRelease>, supportedMinors: int): (Freshness, int) {
    if Parse(current).None? || releases == [] || Parse(releases[0].version).None? then (FreshUnknown, 0)
    else AssessParsed(Parse(current).value, Parse(releases[0].version).value, supportedMinors)
  }

  function FindRelease(releases: seq<PlatformRelease>, name: string): Option<PlatformRelease> {
    if releases == [] then None
    else if releases[0].name == name then Some(releases[0])
    else FindRelease(releases[1..], name)
  }

  method LookUpRelease(releases: seq<PlatformRelease>, name: string) returns (r: Option<PlatformRelease>)
    ensures r == FindRelease(releases, name)
  {
    for i := 0 to |releases|
      invariant FindRelease(releases, name) == FindRelease(releases[i..], name)
    {
      assert releases[i..][1..] == releases[i + 1..];
      if releases[i].name == name {
        return Some(releases[i]);
      }
    }
    return None;
  }

  /** The observed version of each component; the last of repeated names counts. */
  function VersionsOf(components: seq<DiscoveredComponent>): map<string, string> {
    if components == [] then map[]
    else
      var last := components[|components| - 1];
      VersionsOf(components[..|components| - 1])[last.name := last.version]
  }

  function ComponentsIn(data: Input, env: string): seq<DiscoveredComponent> {
    if env in data.inventories then data.inventories[env].components else []
  }

  function Actual(data: Input, env: string): map<string, string> {
    VersionsOf(ComponentsIn(data, env))
  }

  method VersionsOfInventory(data: Input, env: string) returns (versions: map<string, string>)
    ensures versions == Actual(data, env)
  {
    versions := map[];
    var components := ComponentsIn(data, env);
    for i := 0 to |components|
      invariant versions == VersionsOf(components[..i])
    {
      assert components[..i + 1][..i] == components[..i];
      versions := versions[components[i].name := components[i].version];
    }
    assert components[..|components|] == components;
  }

  predicate SatisfiedAt(components: map<string, string>, actual: map<string, string>, name: string)
    requires name in components
  {
    name in actual && Matches(components[name], actual[name])
  }

  /** No component that the release pins is absent, or runs a version its pin does not accept. */
  predicate Satisfies(release: PlatformRelease, actual: map<string, string>) {
    forall name | name in release.components :: SatisfiedAt(release.components, actual, name)
  }

  function SupportedMinors(catalog: Catalog, name: string): int {
    match catalog(name)
    case Some(c) => if c.upstream.Some? then c.upstream.value.supportedMinors else 0
    case None => 0
  }

  /** 100 n / total, rounded half up; -1 when there is nothing to divide by. */
  function Percent(n: nat, total: nat): int {
    if total == 0 then -1 else (200 * n + total) / (2 * total)
  }

  // ---------------------------------------------------------------- what a matrix contains

  function UpstreamOf(data: Input, name: string): seq<UpstreamRelease> {
    if name in data.upstream then data.upstream[name] else []
  }

  function Target(data: Input, env: Environment): Option<PlatformRelease> {
    FindRelease(data.releases, env.targetRelease)
  }

  function Expected(data: Input, env: Environment): map<string, string> {
    match Target(data, env)
    case Some(release) => release.components
    case None => map[]
  }

  function NamesOf(components: seq<DiscoveredComponent>): set<string> {
    set i | 0 <= i < |components| :: components[i].name
  }

  /** The names that an environment adds to the rows. */
  function NamesFrom(data: Input, env: Environment): set<string> {
    NamesOf(ComponentsIn(data, env.name)) + Expected(data, env).Keys
  }

  function DeclaredNow(data: Input): map<string, string> {
    if data.releases == [] then map[] else data.releases[0].components
  }

  /** The rows: what the current release, any inventory or any target names. */
  function RowNames(data: Input, envs: seq<Environment>): set<string> {
    if envs == [] then DeclaredNow(data).Keys
    else RowNames(data, envs[..|envs| - 1]) + NamesFrom(data, envs[|envs| - 1])
  }

  function AllRows(data: Input): set<string> {
    RowNames(data, data.platform.environments)
  }

  function StatusIn(target: Option<PlatformRelease>, actual: map<string, string>, name: string): Status {
    match target
    case None => if name in actual then Present else Absent
    case Some(release) =>
      if name in release.components then
        if name !in actual then Missing
        else if Matches(release.components[name], actual[name]) then Aligned
        else Drift
      else if name !in actual then Absent
      else if actual[name] == "" then Present
      else Untracked
  }

  function FreshnessIn(data: Input, env: Environment, name: string): Freshness {
    var actual := Actual(data, env.name);
    if name in actual then Assess(actual[name], UpstreamOf(data, name), SupportedMinors(data.catalog, name)).0
    else FreshUnknown
  }

  function CellOf(data: Input, env: Environment, name: string): Cell {
    var actual, expected := Actual(data, env.name), Expected(data, env);
    Cell(if name in actual then actual[name] else "", if name in expected then expected[name] else "",
         StatusIn(Target(data, env), actual, name), FreshnessIn(data, env, name))
  }

  /** A row after the given environments have been visited. */
  function RowAfter(data: Input, envs: seq<Environment>, name: string): Row {
    if envs == [] then
      var declared, upstream := DeclaredNow(data), UpstreamOf(data, name);
      Row(name, if name in declared then declared[name] else "", if upstream == [] then "" else upstream[0].version,
          FreshUnknown, map[])
    else
      var env := envs[|envs| - 1];
      var row := RowAfter(data, envs[..|envs| - 1], name);
      row.(freshness := Worse(row.freshness, FreshnessIn(data, env, name)),
           cells := row.cells[env.name := CellOf(data, env, name)])
  }

  function RowOf(data: Input, name: string): Row {
    RowAfter(data, data.platform.environments, name)
  }

  /** The first release, in order, that the observed versions satisfy. */
  function FirstSatisfied(releases: seq<PlatformRelease>, actual: map<string, string>): string {
    if releases == [] then ""
    else if Satisfies(releases[0], actual) then releases[0].name
    else FirstSatisfied(releases[1..], actual)
  }

  /** How many of the names have a status. */
  function CountStatus(target: Option<PlatformRelease>, actual: map<string, string>, names: set<string>, s: Status): nat {
    |set n | n in names && StatusIn(target, actual, n) == s|
  }

  function EnvStatusAfter(data: Input, env: Environment, names: set<string>): EnvStatus {
    var target, actual := Target(data, env), Actual(data, env.name);
    var count := (s: Status) => CountStatus(target, actual, names, s);
    EnvStatus(
      env.name, env.targetRelease, if env.name in data.inventories then FirstSatisfied(data.releases, actual) else "",
      target.Some? && count(Drift) == 0 && count(Missing) == 0,
      count(Aligned), count(Drift), count(Missing), count(Untracked))
  }

  function EnvStatusOf(data: Input, env: Environment): EnvStatus {
    EnvStatusAfter(data, env, AllRows(data))
  }

  function Total(statuses: seq<EnvStatus>, count: EnvStatus -> nat): nat {
    if statuses == [] then 0 else Total(statuses[..|statuses| - 1], count) + count(statuses[|statuses| - 1])
  }

  const ALIGNED := (es: EnvStatus) => es.aligned
  const DRIFT := (es: EnvStatus) => es.drift
  const MISSING := (es: EnvStatus) => es.missing
  const UNTRACKED := (es: EnvStatus) => es.untracked

  function CountFresh(rows: seq<Row>, pick: Freshness -> bool): nat {
    if rows == [] then 0
    else CountFresh(rows[..|rows| - 1], pick) + if pick(rows[|rows| - 1].freshness) then 1 else 0
  }

  const IS_LATEST := (f: Freshness) => f == FreshLatest
  const IS_BEHIND := (f: Freshness) => f != FreshUnknown && f != FreshLatest
  const IS_UNSUPPORTED := (f: Freshness) => f == FreshUnsupported
  const IS_KNOWN := (f: Freshness) => f != FreshUnknown

  function SummaryOf(data: Input, statuses: seq<EnvStatus>, rows: seq<Row>): Summary {
    var aligned, drift, missing := Total(statuses, ALIGNED), Total(statuses, DRIFT), Total(statuses, MISSING);
    Summary(
      |rows|, |statuses|, |data.platform.offerings|, |data.releases|,
      aligned, drift, missing, Total(statuses, UNTRACKED),
      CountFresh(rows, IS_LATEST), CountFresh(rows, IS_BEHIND), CountFresh(rows, IS_UNSUPPORTED),
      Percent(aligned, aligned + drift + missing),
      Percent(CountFresh(rows, IS_LATEST), CountFresh(rows, IS_KNOWN)))
  }

  function RowsNamed(data: Input, order: seq<string>): (r: seq<Row>)
    ensures |r| == |order| && forall i | 0 <= i < |r| :: r[i] == RowOf(data, order[i])
  {
    seq(|order|, i requires 0 <= i < |order| => RowOf(data, order[i]))
  }

  function Statuses(data: Input, envs: seq<Environment>): (r: seq<EnvStatus>)
    ensures |r| == |envs| && forall i | 0 <= i < |r| :: r[i] == EnvStatusOf(data, envs[i])
  {
    seq(|envs|, i requires 0 <= i < |envs| => EnvStatusOf(data, envs[i]))
  }

  /** Whether m is the matrix of an input; only the order of the rows is left open. */
  ghost predicate IsMatrix(data: Input, m: Matrix) {
    && m.currentRelease == (if data.releases == [] then "" else data.releases[0].name)
    && m.environments == Statuses(data, data.platform.environments)
    && (exists order :: Lists(order, AllRows(data)) && m.rows == RowsNamed(data, order))
    && m.summary == SummaryOf(data, m.environments, m.rows)
  }

  // ---------------------------------------------------------------- building it

  function NewRow(data: Input, name: string): Row {
    var upstream := UpstreamOf(data, name);
    Row(name, "", if upstream == [] then "" else upstream[0].version, FreshUnknown, map[])
  }

  /** The row closure: an existing row, or a new one. */
  function WithRow(data: Input, rows: map<string, Row>, name: string): map<string, Row> {
    if name in rows then rows else rows[name := NewRow(data, name)]
  }

  ghost predicate RowsAre(data: Input, rows: map<string, Row>, names: set<string>, envs: seq<Environment>) {
    rows.Keys == names && forall n | n in names :: rows[n] == RowAfter(data, envs, n)
  }

  lemma {:induction false} DeclaredAreRows(data: Input, envs: seq<Environment>)
    ensures DeclaredNow(data).Keys <= RowNames(data, envs)
  {
    if envs != [] {
      DeclaredAreRows(data, envs[..|envs| - 1]);
    }
  }

  /** The rows of the current release. */
  method DeclaredRows(data: Input) returns (rows: map<string, Row>)
    ensures RowsAre(data, rows, DeclaredNow(data).Keys, [])
  {
    var declared := DeclaredNow(data);
    rows := map[];
    var order := AnyOrder(declared.Keys);
    for i := 0 to |order|
      invariant RowsAre(data, rows, set j | 0 <= j < i :: order[j], [])
    {
      rows := WithRow(data, rows, order[i]);
      rows := rows[order[i] := rows[order[i]].(declared := declared[order[i]])];
    }
    assert (set j | 0 <= j < |order| :: order[j]) == declared.Keys;
  }

  /** Creates the rows, before any environment is assessed. */
  method InitialRows(data: Input) returns (rows: map<string, Row>)
    ensures RowsAre(data, rows, AllRows(data), [])
  {
    hide RowsAre, NamesOf, Expected;
    rows := DeclaredRows(data);
    var envs := data.platform.environments;
    for e := 0 to |envs|
      invariant RowsAre(data, rows, RowNames(data, envs[..e]), [])
    {
      ghost var names := RowNames(data, envs[..e]);
      DeclaredAreRows(data, envs[..e]);
      rows := AddInventoryRows(data, rows, names, envs[e]);
      rows := AddTargetRows(data, rows, names + NamesOf(ComponentsIn(data, envs[e].name)), envs[e]);
      assert envs[..e + 1][..e] == envs[..e];
      assert RowNames(data, envs[..e + 1]) ==
             names + NamesOf(ComponentsIn(data, envs[e].name)) + Expected(data, envs[e]).Keys;
    }
    assert envs[..|envs|] == envs;
  }

  lemma WithRowAdds(data: Input, rows: map<string, Row>, names: set<string>, name: string)
    requires DeclaredNow(data).Keys <= names && RowsAre(data, rows, names, [])
    ensures RowsAre(data, WithRow(data, rows, name), names + {name}, [])
  {
  }

  method AddInventoryRows(data: Input, was: map<string, Row>, ghost names: set<string>, env: Environment)
    returns (rows: map<string, Row>)
    requires DeclaredNow(data).Keys <= names && RowsAre(data, was, names, [])
    ensures RowsAre(data, rows, names + NamesOf(ComponentsIn(data, env.name)), [])
  {
    hide RowsAre, WithRow;
    rows := was;
    var components := ComponentsIn(data, env.name);
    assert names + NamesOf(components[..0]) == names;
    for i := 0 to |components|
      invariant RowsAre(data, rows, names + NamesOf(components[..i]), [])
    {
      WithRowAdds(data, rows, names + NamesOf(components[..i]), components[i].name);
      rows := WithRow(data, rows, components[i].name);
      NamesOfOneMore(components, i);
      assert names + NamesOf(components[..i]) + {components[i].name} == names + NamesOf(components[..i + 1]);
    }
    assert components[..|components|] == components;
  }

  lemma NamesOfOneMore(components: seq<DiscoveredComponent>, i: nat)
    requires i < |components|
    ensures NamesOf(components[..i + 1]) == NamesOf(components[..i]) + {components[i].name}
  {
    var before, after := components[..i], components[..i + 1];
    forall n ensures n in NamesOf(after) <==> n in NamesOf(before) + {components[i].name} {
      if n in NamesOf(before) {
        var j :| 0 <= j < i && before[j].name == n;
        assert after[j].name == n;
      }
      assert after[i].name == components[i].name;
    }
  }

  method AddTargetRows(data: Input, was: map<string, Row>, ghost names: set<string>, env: Environment)
    returns (rows: map<string, Row>)
    requires DeclaredNow(data).Keys <= names && RowsAre(data, was, names, [])
    ensures RowsAre(data, rows, names + Expected(data, env).Keys, [])
  {
    hide RowsAre, WithRow;
    rows := was;
    var order := AnyOrder(Expected(data, env).Keys);
    ghost var done: set<string> := {};
    assert names + done == names;
    for i := 0 to |order|
      invariant done == set j | 0 <= j < i :: order[j]
      invariant RowsAre(data, rows, names + done, [])
    {
      WithRowAdds(data, rows, names + done, order[i]);
      rows := WithRow(data, rows, order[i]);
      assert names + done + {order[i]} == names + (done + {order[i]});
      done := done + {order[i]};
    }
    assert done == Expected(data, env).Keys;
  }

  method MatchedRelease(data: Input, env: Environment, actual: map<string, string>) returns (name: string)
    ensures name == if env.name in data.inventories then FirstSatisfied(data.releases, actual) else ""
  {
    for i := 0 to |data.releases|
      invariant env.name in data.inventories ==>
                  FirstSatisfied(data.releases, actual) == FirstSatisfied(data.releases[i..], actual)
    {
      if env.name in data.inventories && Satisfies(data.releases[i], actual) {
        return data.releases[i].name;
      }
      assert data.releases[i..][1..] == data.releases[i + 1..];
    }
    return "";
  }

  lemma CountOneMore(target: Option<PlatformRelease>, actual: map<string, string>, names: set<string>, n: string)
    requires n !in names
    ensures forall s: Status ::
              CountStatus(target, actual, names + {n}, s) ==
              CountStatus(target, actual, names, s) + if StatusIn(target, actual, n) == s then 1 else 0
  {
    hide StatusIn;
    forall s: Status
      ensures CountStatus(target, actual, names + {n}, s) ==
              CountStatus(target, actual, names, s) + if StatusIn(target, actual, n) == s then 1 else 0
    {
      var before := set m | m in names && StatusIn(target, actual, m) == s;
      var after := set m | m in names + {n} && StatusIn(target, actual, m) == s;
      assert after == if StatusIn(target, actual, n) == s then before + {n} else before;
    }
  }

  ghost predicate Counted(es: EnvStatus, target: Option<PlatformRelease>, actual: map<string, string>, done: set<string>) {
    && es.aligned == CountStatus(target, actual, done, Aligned)
    && es.drift == CountStatus(target, actual, done, Drift)
    && es.missing == CountStatus(target, actual, done, Missing)
    && es.untracked == CountStatus(target, actual, done, Untracked)
  }

  /** The status of one component in one environment, and its counter. */
  method Classify(was: EnvStatus, target: Option<PlatformRelease>, actual: map<string, string>, name: string,
                  ghost done: set<string>)
    returns (es: EnvStatus, status: Status)
    requires Counted(was, target, actual, done) && name !in done
    ensures status == StatusIn(target, actual, name)
    ensures Counted(es, target, actual, done + {name})
    ensures es == was.(aligned := es.aligned, drift := es.drift, missing := es.missing, untracked := es.untracked)
  {
    hide CountStatus, Matches;
    CountOneMore(target, actual, done, name);
    es := was;
    var expected := if target.Some? then target.value.components else map[];
    var found, declared := name in actual, name in expected;
    var got := if found then actual[name] else "";
    var want := if declared then expected[name] else "";
    if target.None? && found {
      status := Present;
    } else if target.None? {
      status := Absent;
    } else if declared && !found {
      status := Missing;
      es := es.(missing := es.missing + 1);
    } else if declared && Matches(want, got) {
      status := Aligned;
      es := es.(aligned := es.aligned + 1);
    } else if declared {
      status := Drift;
      es := es.(drift := es.drift + 1);
    } else if found && got == "" {
      status := Present;
    } else if found {
      status := Untracked;
      es := es.(untracked := es.untracked + 1);
    } else {
      status := Absent;
    }
  }

  /** Rows of which some have a cell for env already. */
  ghost predicate RowsPartly(
    data: Input, rows: map<string, Row>, before: seq<Environment>, env: Environment, done: set<string>)
  {
    && rows.Keys == AllRows(data)
    && forall n | n in rows.Keys :: rows[n] == RowAfter(data, if n in done then before + [env] else before, n)
  }

  /** Assesses one environment: its counters, and a cell in every row. */
  method AssessEnvironment(data: Input, was: map<string, Row>, ghost before: seq<Environment>, env: Environment)
    returns (rows: map<string, Row>, es: EnvStatus)
    requires RowsAre(data, was, AllRows(data), before)
    ensures RowsAre(data, rows, AllRows(data), before + [env])
    ensures es == EnvStatusOf(data, env)
  {
    hide CountStatus, RowAfter, Assess, Matches, FirstSatisfied, StatusIn, AllRows;
    rows := was;
    var actual := VersionsOfInventory(data, env.name);
    var target := LookUpRelease(data.releases, env.targetRelease);
    var matched := MatchedRelease(data, env, actual);
    es := EnvStatus(env.name, env.targetRelease, matched, false, 0, 0, 0, 0);
    var order := AnyOrder(rows.Keys);
    ghost var done: set<string> := {};
    NothingCounted(target, actual);
    for i := 0 to |order|
      invariant done == set j | 0 <= j < i :: order[j]
      invariant RowsPartly(data, rows, before, env, done)
      invariant Counted(es, target, actual, done)
      invariant es == EnvStatus(env.name, env.targetRelease, matched, false, es.aligned, es.drift, es.missing, es.untracked)
    {
      var name := order[i];
      var status;
      es, status := Classify(es, target, actual, name, done);
      rows := SetCell(data, rows, before, env, target, actual, name, status, done);
      done := done + {name};
    }
    assert done == AllRows(data);
    es := es.(compliant := target.Some? && es.drift == 0 && es.missing == 0);
  }

  /** Writes one cell into its row, and lets its freshness worsen the row's. */
  method SetCell(
      data: Input, was: map<string, Row>, ghost before: seq<Environment>, env: Environment,
      target: Option<PlatformRelease>, actual: map<string, string>, name: string, status: Status, ghost done: set<string>)
    returns (rows: map<string, Row>)
    requires RowsPartly(data, was, before, env, done)
    requires name in was.Keys && name !in done
    requires target == Target(data, env) && actual == Actual(data, env.name) && status == StatusIn(target, actual, name)
    ensures RowsPartly(data, rows, before, env, done + {name})
  {
    hide RowAfter, Assess, StatusIn, AllRows, VersionsOf;
    var expected := if target.Some? then target.value.components else map[];
    var r := was[name];
    var got := if name in actual then actual[name] else "";
    var cell := Cell(got, if name in expected then expected[name] else "", status, FreshUnknown);
    if name in actual {
      cell := cell.(freshness := Assess(got, UpstreamOf(data, name), SupportedMinors(data.catalog, name)).0);
      r := r.(freshness := Worse(r.freshness, cell.freshness));
    }
    assert cell == CellOf(data, env, name);
    RowStep(data, before, env, name);
    rows := was[name := r.(cells := r.cells[env.name := cell])];
  }

  lemma NothingCounted(target: Option<PlatformRelease>, actual: map<string, string>)
    ensures forall s: Status :: CountStatus(target, actual, {}, s) == 0
  {
    forall s: Status ensures CountStatus(target, actual, {}, s) == 0 {
      assert (set n | n in {} && StatusIn(target, actual, n) == s) == {};
    }
  }

  lemma RowStep(data: Input, before: seq<Environment>, env: Environment, name: string)
    ensures
      var row := RowAfter(data, before, name);
      var cell := CellOf(data, env, name);
      RowAfter(data, before + [env], name) ==
      row.(freshness := Worse(row.freshness, cell.freshness), cells := row.cells[env.name := cell])
  {
    assert (before + [env])[..|before|] == before;
  }

  /** Rows first, then one environment after the other, then the headline numbers. */
  method BuildMatrix(data: Input) returns (m: Matrix)
    ensures IsMatrix(data, m)
  {
    hide RowAfter, EnvStatusAfter, RowNames, SummaryOf;
    var rows := InitialRows(data);
    var envs := data.platform.environments;
    var statuses: seq<EnvStatus> := [];
    for e := 0 to |envs|
      invariant RowsAre(data, rows, AllRows(data), envs[..e])
      invariant |statuses| == e && forall i | 0 <= i < e :: statuses[i] == EnvStatusOf(data, envs[i])
    {
      var es;
      rows, es := AssessEnvironment(data, rows, envs[..e], envs[e]);
      assert envs[..e] + [envs[e]] == envs[..e + 1];
      statuses := statuses + [es];
    }
    assert envs[..|envs|] == envs;
    var order := AnyOrder(rows.Keys);
    var listed: seq<Row> := [];
    for i := 0 to |order|
      invariant |listed| == i && forall j | 0 <= j < i :: listed[j] == RowOf(data, order[j])
    {
      listed := listed + [rows[order[i]]];
    }
    assert listed == RowsNamed(data, order);
    assert statuses == Statuses(data, envs);
    var summary := Summarise(data, statuses, listed);
    m := Matrix(if data.releases == [] then "" else data.releases[0].name, statuses, listed, summary);
  }

  method Summarise(data: Input, statuses: seq<EnvStatus>, rows: seq<Row>) returns (s: Summary)
    ensures s == SummaryOf(data, statuses, rows)
  {
    var aligned, drift, missing, untracked := 0, 0, 0, 0;
    for i := 0 to |statuses|
      invariant aligned == Total(statuses[..i], ALIGNED) && drift == Total(statuses[..i], DRIFT)
      invariant missing == Total(statuses[..i], MISSING) && untracked == Total(statuses[..i], UNTRACKED)
    {
      assert statuses[..i + 1][..i] == statuses[..i];
      aligned := aligned + statuses[i].aligned;
      drift := drift + statuses[i].drift;
      missing := missing + statuses[i].missing;
      untracked := untracked + statuses[i].untracked;
    }
    assert statuses[..|statuses|] == statuses;
    var upToDate, behind, unsupported, assessed := 0, 0, 0, 0;
    for i := 0 to |rows|
      invariant upToDate == CountFresh(rows[..i], IS_LATEST) && behind == CountFresh(rows[..i], IS_BEHIND)
      invariant unsupported == CountFresh(rows[..i], IS_UNSUPPORTED) && assessed == CountFresh(rows[..i], IS_KNOWN)
    {
      assert rows[..i + 1][..i] == rows[..i];
      match rows[i].freshness {
        case FreshUnknown =>
          continue;
        case FreshLatest =>
          upToDate := upToDate + 1;
        case FreshUnsupported =>
          unsupported := unsupported + 1;
          behind := behind + 1;
        case _ =>
          behind := behind + 1;
      }
      assessed := assessed + 1;
    }
    assert rows[..|rows|] == rows;
    s := Summary(
      |rows|, |statuses|, |data.platform.offerings|, |data.releases|, aligned, drift, missing, untracked,
      upToDate, behind, unsupported, Percent(aligned, aligned + drift + missing), Percent(upToDate, assessed));
  }
}
