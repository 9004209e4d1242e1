/** The drift command: what it lists and how it exits (internal/cli/matrix.go). */
module DriftCommand {
  import opened Iteration
  import opened Matrix
  import opened MatrixLaws
  import opened MatrixMeaning
  import opened Model

  datatype Line = Line(environment: string, target: string, component: string, cell: Cell)

  predicate Differs(row: Row, env: string) {
    env in row.cells && (row.cells[env].status == Drift || row.cells[env].status == Missing)
  }

  function LinesFor(rows: seq<Row>, env: EnvStatus): seq<Line> {
    if rows == [] then []
    else
      var r := rows[|rows| - 1];
      LinesFor(rows[..|rows| - 1], env)
      + if Differs(r, env.name) then [Line(env.name, env.targetRelease, r.component, r.cells[env.name])] else []
  }

  function Lines(rows: seq<Row>, envs: seq<EnvStatus>): seq<Line> {
    if envs == [] then [] else Lines(rows, envs[..|envs| - 1]) + LinesFor(rows, envs[|envs| - 1])
  }

  /** Lists the differing cells; with exitCode set, exits with 2 when there are any. */
  method Run(m: Matrix, exitCode: bool) returns (lines: seq<Line>, exit: int)
    ensures lines == Lines(m.rows, m.environments)
    ensures exit == if exitCode && lines != [] then 2 else 0
  {
    lines := [];
    var found := 0;
    for e := 0 to |m.environments|
      invariant lines == Lines(m.rows, m.environments[..e]) && found == |lines|
    {
      var env := m.environments[e];
      ghost var before := lines;
      for i := 0 to |m.rows|
        invariant lines == before + LinesFor(m.rows[..i], env) && found == |lines|
      {
        assert m.rows[..i + 1][..i] == m.rows[..i];
        var r := m.rows[i];
        if env.name in r.cells && (r.cells[env.name].status == Drift || r.cells[env.name].status == Missing) {
          found := found + 1;
          lines := lines + [Line(env.name, env.targetRelease, r.component, r.cells[env.name])];
        }
      }
      assert m.rows[..|m.rows|] == m.rows;
      assert m.environments[..e + 1][..e] == m.environments[..e];
    }
    assert m.environments[..|m.environments|] == m.environments;
    if found == 0 {
      exit := 0;
    } else if exitCode {
      exit := 2;
    } else {
      exit := 0;
    }
  }

  /** Over the listed rows, an environment has one line for each drifted or missing component. */
  lemma {:induction false} LinesCountStatuses(data: Input, env: Environment, order: seq<string>, names: set<string>)
    requires UniqueEnvironments(data.platform.environments) && env in data.platform.environments
    requires Lists(order, names)
    ensures
      var target, actual := Target(data, env), Actual(data, env.name);
      |LinesFor(RowsNamed(data, order), EnvStatusOf(data, env))|
      == CountStatus(target, actual, names, Drift) + CountStatus(target, actual, names, Missing)
  {
    hide EnvStatusAfter, RowAfter, CellOf, CountStatus, FindRelease, VersionsOf, UniqueEnvironments;
    var target, actual := Target(data, env), Actual(data, env.name);
    assert EnvStatusOf(data, env).name == env.name by { EnvStatusNames(data, env); }
    if order == [] {
      assert names == {};
      NothingCounted(target, actual);
    } else {
      var rest, n := order[..|order| - 1], order[|order| - 1];
      assert order == rest + [n];
      LinesCountStatuses(data, env, rest, names - {n});
      CountOneMore(target, actual, names - {n}, n);
      assert names - {n} + {n} == names;
      assert RowsNamed(data, order)[..|order| - 1] == RowsNamed(data, rest);
      CellInRow(data, data.platform.environments, env, n);
      CellStatus(data, env, n);
    }
  }

  lemma EnvStatusNames(data: Input, env: Environment)
    ensures EnvStatusOf(data, env).name == env.name
  {
  }

  lemma CellStatus(data: Input, env: Environment, n: string)
    ensures CellOf(data, env, n).status == StatusIn(Target(data, env), Actual(data, env.name), n)
  {
  }

  lemma {:induction false} LinesTotal(data: Input, envs: seq<Environment>, order: seq<string>)
    requires UniqueEnvironments(data.platform.environments)
    requires forall e | e in envs :: e in data.platform.environments
    requires Lists(order, AllRows(data))
    ensures
      var statuses := Statuses(data, envs);
      |Lines(RowsNamed(data, order), statuses)| == Total(statuses, DRIFT) + Total(statuses, MISSING)
  {
    hide CountStatus, RowNames, FindRelease, VersionsOf, RowAfter, UniqueEnvironments;
    if envs != [] {
      var rest, last := envs[..|envs| - 1], envs[|envs| - 1];
      LinesTotal(data, rest, order);
      assert Statuses(data, envs)[..|envs| - 1] == Statuses(data, rest);
      LinesCountStatuses(data, last, order, AllRows(data));
    }
  }

  /** The command and the summary agree on how much differs. */
  lemma LinesAgreeWithSummary(data: Input, m: Matrix)
    requires IsMatrix(data, m) && UniqueEnvironments(data.platform.environments)
    ensures |Lines(m.rows, m.environments)| == m.summary.drift + m.summary.missing
  {
    var order :| Lists(order, AllRows(data)) && m.rows == RowsNamed(data, order);
    LinesTotal(data, data.platform.environments, order);
  }

  /** It finds nothing exactly when every environment whose target resolves is compliant. */
  lemma NoDriftExactlyWhenCompliant(data: Input, m: Matrix)
    requires IsMatrix(data, m) && UniqueEnvironments(data.platform.environments)
    ensures Lines(m.rows, m.environments) == [] <==>
            forall e | e in data.platform.environments && Target(data, e).Some? :: EnvStatusOf(data, e).compliant
  {
    hide CountStatus, RowNames, FindRelease, VersionsOf, RowAfter, UniqueEnvironments, EnvStatusAfter;
    LinesAgreeWithSummary(data, m);
    NoneInTotal(data, data.platform.environments);
  }

  lemma {:induction false} NoneInTotal(data: Input, envs: seq<Environment>)
    ensures
      var statuses := Statuses(data, envs);
      Total(statuses, DRIFT) + Total(statuses, MISSING) == 0 <==>
      forall e | e in envs && Target(data, e).Some? :: EnvStatusOf(data, e).compliant
  {
    hide CountStatus, RowNames, FindRelease, VersionsOf;
    if envs != [] {
      var rest, last := envs[..|envs| - 1], envs[|envs| - 1];
      NoneInTotal(data, rest);
      assert Statuses(data, envs)[..|envs| - 1] == Statuses(data, rest);
      assert envs == rest + [last];
      if Target(data, last).None? {
        NothingCountedWithoutTarget(data, last);
      }
    }
  }

  // ---------------------------------------------------------------- which lines

  predicate LineFrom(l: Line, row: Row, env: EnvStatus) {
    && Differs(row, env.name)
    && l == Line(env.name, env.targetRelease, row.component, row.cells[env.name])
  }

  lemma {:induction false} LinesForMembers(rows: seq<Row>, env: EnvStatus, l: Line)
    ensures l in LinesFor(rows, env) <==> exists row | row in rows :: LineFrom(l, row, env)
  {
    hide Differs;
    if rows != [] {
      var rest, last := rows[..|rows| - 1], rows[|rows| - 1];
      LinesForMembers(rest, env, l);
      assert rows == rest + [last];
      assert l in LinesFor(rows, env) <==> l in LinesFor(rest, env) || LineFrom(l, last, env);
    }
  }

  lemma {:induction false} LinesMembers(rows: seq<Row>, envs: seq<EnvStatus>, l: Line)
    ensures l in Lines(rows, envs) <==> exists env, row | env in envs && row in rows :: LineFrom(l, row, env)
  {
    if envs != [] {
      var rest, last := envs[..|envs| - 1], envs[|envs| - 1];
      LinesMembers(rows, rest, l);
      LinesForMembers(rows, last, l);
      assert envs == rest + [last];
      hide LineFrom, LinesFor;
    }
  }

  ghost predicate HasLine(lines: seq<Line>, env: string, component: string) {
    exists l | l in lines :: l.environment == env && l.component == component
  }

  /** The command lists a component for an environment exactly when the environment's target pins it and the
      environment does not run an accepted version of it; the line names the target and what it pins. */
  lemma LinesExactly(data: Input, m: Matrix, env: Environment, name: string)
    requires IsMatrix(data, m) && UniqueEnvironments(data.platform.environments) && env in data.platform.environments
    ensures HasLine(Lines(m.rows, m.environments), env.name, name) <==>
            exists r :: Targets(data, env, r) && name in r.components && !Meets(data, env, r, name)
    ensures forall l, r | l in Lines(m.rows, m.environments) && l.environment == env.name && Targets(data, env, r) ::
              && l.target == env.targetRelease && l.component in r.components
              && l.cell.expected == r.components[l.component]
  {
    hide RowNames, RowAfter, SummaryOf, Differs, IsCell, Targets, Meets, Lines, EnvStatusAfter, UniqueEnvironments;
    var lines := Lines(m.rows, m.environments);
    TargetExactly(data, env);
    forall l | l in lines && l.environment == env.name
      ensures Target(data, env).Some? && Misses(data, env, Target(data, env).value, l.component)
      ensures l.target == env.targetRelease
      ensures l.component in Target(data, env).value.components
      ensures l.cell.expected == Target(data, env).value.components[l.component]
    {
      LinesMembers(m.rows, m.environments, l);
      var es, row :| es in m.environments && row in m.rows && LineFrom(l, row, es);
      LineMeans(data, m, env, es, row, l);
    }
    if Target(data, env).Some? && Misses(data, env, Target(data, env).value, name) {
      var l := MissedIsListed(data, m, env, name);
      assert l in lines;
    }
  }

  ghost predicate Misses(data: Input, env: Environment, r: PlatformRelease, name: string) {
    name in r.components && !Meets(data, env, r, name)
  }

  lemma LineMeans(data: Input, m: Matrix, env: Environment, es: EnvStatus, row: Row, l: Line)
    requires IsMatrix(data, m) && UniqueEnvironments(data.platform.environments) && env in data.platform.environments
    requires es in m.environments && row in m.rows && LineFrom(l, row, es) && l.environment == env.name
    ensures Target(data, env).Some? && Misses(data, env, Target(data, env).value, l.component)
    ensures l.target == env.targetRelease
    ensures l.cell.expected == Target(data, env).value.components[l.component]
  {
    hide RowNames, RowAfter, SummaryOf, Targets, NoTarget, Meets, EnvStatusOf, Graded, Runs, Target, Listed;
    hide UniqueEnvironments, Statuses;
    CellExactly(data, m, row, env);
    TargetExactly(data, env);
    StatusByName(data, m, env, es);
  }

  lemma StatusByName(data: Input, m: Matrix, env: Environment, es: EnvStatus)
    requires IsMatrix(data, m) && UniqueEnvironments(data.platform.environments) && env in data.platform.environments
    requires es in m.environments && es.name == env.name
    ensures es.targetRelease == env.targetRelease
  {
    hide RowNames, RowAfter, SummaryOf, CountStatus, FirstSatisfied;
    var i :| 0 <= i < |m.environments| && m.environments[i] == es;
    var j :| 0 <= j < |data.platform.environments| && data.platform.environments[j] == env;
    assert data.platform.environments[i].name == data.platform.environments[j].name;
  }

  lemma MissedIsListed(data: Input, m: Matrix, env: Environment, name: string) returns (l: Line)
    requires IsMatrix(data, m) && UniqueEnvironments(data.platform.environments) && env in data.platform.environments
    requires Target(data, env).Some? && Misses(data, env, Target(data, env).value, name)
    ensures l in Lines(m.rows, m.environments) && l.environment == env.name && l.component == name
  {
    hide RowNames, RowAfter, SummaryOf, Targets, NoTarget, Meets, CountStatus, FirstSatisfied, UniqueEnvironments, Lines;
    TargetExactly(data, env);
    assert Named(data, env, name);
    RowsExactly(data, m, name);
    var row :| row in m.rows && row.component == name;
    CellExactly(data, m, row, env);
    StatusInMatrix(data, m, env);
    var es := EnvStatusOf(data, env);
    l := Line(es.name, es.targetRelease, name, row.cells[env.name]);
    LinesMembers(m.rows, m.environments, l);
    assert LineFrom(l, row, es);
  }
}
