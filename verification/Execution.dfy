// Plans of statements, and the executors that pull a plan's tuples one at a time.
module Execution {
  import opened Evaluator

  datatype Option<+T> = None | Some(value: T)

  datatype Assignment = Assignment(column: string, value: Expr)

  // A clause that is absent is NoExpr or an empty list.
  datatype Select = Select(columns: seq<Expr>, table: string, where: Expr, orderBy: seq<Expr>, groupBy: seq<Expr>)

  datatype Statement =
    | SelectStatement(select: Select)
    | InsertStatement(table: string, columns: seq<string>, values: seq<Expr>)
    | UpdateStatement(table: string, assignments: seq<Assignment>, where: Expr)
    | DeleteStatement(table: string, where: Expr)
    | CreateStatement
    | OtherStatement

  datatype Plan =
    | NoPlan
    | SeqScanPlan(table: string)
    | IndexScanPlan(table: string, index: string)
    | FilterPlan(test: Expr, source: Plan)
    | ProjectPlan(projections: seq<Expr>, source: Plan)
    | SortPlan(orderBy: seq<Expr>, source: Plan)
    | InsertPlan(table: string, columns: seq<string>, source: Plan)
    | UpdatePlan(table: string, assignments: seq<Assignment>, source: Plan)
    | DeletePlan(table: string, source: Plan)
    | CollectPlan(source: Plan)
    | ValuesPlan(values: seq<Expr>)

  type Tables = map<string, seq<Tuple>>
  type Columns = map<string, seq<string>>

  // The planner

  function NeedsCollection(p: Plan): bool {
    match p
    case SeqScanPlan(_) => true
    case IndexScanPlan(_, _) => true
    case FilterPlan(_, source) => NeedsCollection(source)
    case ProjectPlan(_, source) => NeedsCollection(source)
    case _ => false
  }

  function Filtered(where: Expr, p: Plan): Plan {
    if where.NoExpr? then p else FilterPlan(where, p)
  }

  function Collected(p: Plan): Plan {
    if NeedsCollection(p) then CollectPlan(p) else p
  }

  method BuildSelectPlan(s: Select) returns (plan: Plan)
    ensures plan == SelectPlan(s)
  {
    plan := SeqScanPlan(s.table);
    if !s.where.NoExpr? {
      plan := FilterPlan(s.where, plan);
    }
    if s.orderBy != [] {
      plan := CollectPlan(plan);
      plan := SortPlan(s.orderBy, plan);
    }
    if s.columns != [] {
      plan := ProjectPlan(s.columns, plan);
    }
  }

  function SelectPlan(s: Select): Plan {
    var scan := Filtered(s.where, SeqScanPlan(s.table));
    var sorted := if s.orderBy == [] then scan else SortPlan(s.orderBy, CollectPlan(scan));
    if s.columns == [] then sorted else ProjectPlan(s.columns, sorted)
  }

  function BuildPlan(s: Statement): Outcome<Plan> {
    match s
    case SelectStatement(select) => Ok(SelectPlan(select))
    case InsertStatement(table, columns, values) => Ok(InsertPlan(table, columns, ValuesPlan(values)))
    case UpdateStatement(table, assignments, where) =>
      Ok(UpdatePlan(table, assignments, Collected(Filtered(where, SeqScanPlan(table)))))
    case DeleteStatement(table, where) => Ok(DeletePlan(table, Collected(Filtered(where, SeqScanPlan(table)))))
    case _ => Fail(UnsupportedStatement)
  }

  function Sources(p: Plan): seq<Plan> {
    if p.FilterPlan? || p.ProjectPlan? || p.SortPlan? || p.InsertPlan? || p.UpdatePlan? || p.DeletePlan?
      || p.CollectPlan?
    then [p.source] else []
  }

  // A scan is still open while the plan delivers: nothing on the way up collects.
  ghost predicate OpenScan(p: Plan) {
    || p.SeqScanPlan? || p.IndexScanPlan?
    || (!p.CollectPlan? && exists q :: q in Sources(p) && OpenScan(q))
  }

  // No change to a table is fed by an open scan.
  ghost predicate CursorSafe(p: Plan) {
    && (p.InsertPlan? || p.UpdatePlan? || p.DeletePlan? ==> !OpenScan(p.source))
    && forall q :: q in Sources(p) ==> CursorSafe(q)
  }

  // Made of scans, filters, projections and what is not read from tables.
  ghost predicate Streams(p: Plan) {
    !p.SortPlan? && !p.InsertPlan? && !p.UpdatePlan? && !p.DeletePlan? && forall q :: q in Sources(p) ==> Streams(q)
  }

  lemma {:induction false} CollectsWhenOpen(p: Plan)
    requires Streams(p)
    ensures NeedsCollection(p) <==> OpenScan(p)
    ensures !OpenScan(Collected(p))
  {
    if p.FilterPlan? || p.ProjectPlan? {
      assert p.source in Sources(p);
      CollectsWhenOpen(p.source);
    }
  }

  lemma {:induction false} PlansAreCursorSafe(s: Statement)
    ensures BuildPlan(s).Ok? ==> CursorSafe(BuildPlan(s).value)
  {
    if s.UpdateStatement? || s.DeleteStatement? {
      var scan := SeqScanPlan(s.table);
      assert Streams(scan) && Streams(Filtered(s.where, scan));
      CollectsWhenOpen(Filtered(s.where, scan));
      assert CursorSafe(scan) && CursorSafe(Filtered(s.where, scan)) && CursorSafe(Collected(Filtered(s.where, scan)));
    } else if s.SelectStatement? {
      var scan := SeqScanPlan(s.select.table);
      var filtered := Filtered(s.select.where, scan);
      assert CursorSafe(scan) && CursorSafe(filtered) && CursorSafe(CollectPlan(filtered));
      assert CursorSafe(SortPlan(s.select.orderBy, CollectPlan(filtered)));
    }
  }

  // The meaning of a plan

  // What pulling gives: these tuples, and then the end or an exception.
  datatype Run = Run(tuples: seq<Tuple>, end: Option<Error>)

  function Before(t: Tuple, run: Run): Run {
    Run([t] + run.tuples, run.end)
  }

  function After(run: Run): Run
    requires run.tuples != []
  {
    Run(run.tuples[1..], run.end)
  }

  lemma AfterBefore(t: Tuple, run: Run)
    ensures After(Before(t, run)) == run
  {
    assert ([t] + run.tuples)[1..] == run.tuples;
  }

  function FilterRun(run: Run, test: Expr, columns: seq<string>): Run
    decreases |run.tuples|
  {
    if run.tuples == [] then run
    else
      var kept := EvaluatePredicate(test, run.tuples[0], columns);
      if kept.Fail? then Run([], Some(kept.error))
      else
        var rest := FilterRun(After(run), test, columns);
        if kept.value then Before(run.tuples[0], rest) else rest
  }

  function Project(projections: seq<Expr>, t: Tuple, columns: seq<string>): Outcome<Tuple> {
    if projections == [] then Ok([])
    else
      var v := Evaluate(projections[0], t, columns);
      if v.Fail? then Fail(v.error)
      else
        var rest := Project(projections[1..], t, columns);
        if rest.Fail? then rest else Ok([v.value] + rest.value)
  }

  function ProjectRun(run: Run, projections: seq<Expr>, columns: seq<string>): Run
    decreases |run.tuples|
  {
    if run.tuples == [] then run
    else
      var out := Project(projections, run.tuples[0], columns);
      if out.Fail? then Run([], Some(out.error)) else Before(out.value, ProjectRun(After(run), projections, columns))
  }

  // The plans that have executors.
  predicate Executable(p: Plan) {
    p.SeqScanPlan? || ((p.FilterPlan? || p.ProjectPlan?) && Executable(p.source))
  }

  function BuildError(p: Plan): Error
    requires !Executable(p)
  {
    if p.NoPlan? then NullPlan
    else if p.FilterPlan? || p.ProjectPlan? then BuildError(p.source)
    else UnsupportedPlan
  }

  function BaseTable(p: Plan): string
    requires Executable(p)
  {
    if p.SeqScanPlan? then p.table else BaseTable(p.source)
  }

  function Rows(tables: Tables, table: string): seq<Tuple> {
    if table in tables then tables[table] else []
  }

  function Names(schema: Columns, table: string): seq<string> {
    if table in schema then schema[table] else []
  }

  function RunOf(p: Plan, tables: Tables, schema: Columns): Run
    requires Executable(p)
  {
    match p
    case SeqScanPlan(table) => Run(Rows(tables, table), None)
    case FilterPlan(test, source) =>
      FilterRun(RunOf(source, tables, schema), test, Names(schema, BaseTable(source)))
    case ProjectPlan(projections, source) =>
      ProjectRun(RunOf(source, tables, schema), projections, Names(schema, BaseTable(source)))
  }

  // A table is created when it is first scanned.
  function Opened(tables: Tables, table: string): Tables {
    if table in tables then tables else tables[table := []]
  }

  // Executors

  class Storage {
    var tables: Tables

    constructor ()
      ensures tables == map[]
    {
      tables := map[];
    }

    method GetTable(table: string) returns (rows: seq<Tuple>)
      modifies this
      ensures tables == Opened(old(tables), table)
      ensures rows == Rows(old(tables), table)
    {
      if table !in tables {
        tables := tables[table := []];
      }
      rows := tables[table];
    }
  }

  class SeqScanExecutor {
    const storage: Storage
    const table: string
    var cursor: nat

    ghost predicate Valid()
      reads this, storage
    {
      table in storage.tables && cursor <= |storage.tables[table]|
    }

    ghost function Rest(): Run
      requires Valid()
      reads this, storage
    {
      Run(storage.tables[table][cursor..], None)
    }

    constructor (storage: Storage, table: string)
      modifies storage
      ensures this.storage == storage && this.table == table
      ensures storage.tables == Opened(old(storage.tables), table)
      ensures Valid() && Rest() == Run(Rows(old(storage.tables), table), None)
    {
      this.storage := storage;
      this.table := table;
      cursor := 0;
      new;
      var rows := storage.GetTable(table);
    }

    method Next() returns (t: Option<Tuple>)
      requires Valid()
      modifies this
      ensures Valid() && Pulled(old(Rest()), Ok(t), Rest())
    {
      if cursor >= |storage.tables[table]| {
        return None;
      }
      t := Some(storage.tables[table][cursor]);
      cursor := cursor + 1;
    }
  }

  // One pull takes the first tuple, or finds the end or the exception.
  ghost predicate Pulled(before: Run, t: Outcome<Option<Tuple>>, after: Run) {
    if before.tuples != [] then t == Ok(Some(before.tuples[0])) && after == After(before)
    else match before.end
      case None => t == Ok(None) && after == before
      case Some(e) => t == Fail(e)
  }

  // The filter and the projection keep no state of their own.
  datatype Executor =
    | SeqScan(scan: SeqScanExecutor)
    | Filter(child: Executor, test: Expr, columns: seq<string>)
    | Projection(child: Executor, projections: seq<Expr>, columns: seq<string>)

  function Scan(x: Executor): SeqScanExecutor {
    match x
    case SeqScan(scan) => scan
    case Filter(child, _, _) => Scan(child)
    case Projection(child, _, _) => Scan(child)
  }

  ghost function Rest(x: Executor): Run
    requires Scan(x).Valid()
    reads Scan(x), Scan(x).storage
  {
    match x
    case SeqScan(scan) => scan.Rest()
    case Filter(child, test, columns) => FilterRun(Rest(child), test, columns)
    case Projection(child, projections, columns) => ProjectRun(Rest(child), projections, columns)
  }

  // An executor delivers what the plan means, one tuple a pull.
  method Next(x: Executor) returns (t: Outcome<Option<Tuple>>)
    requires Scan(x).Valid()
    modifies Scan(x)
    ensures Scan(x).Valid() && Pulled(old(Rest(x)), t, Rest(x))
    decreases x, 0
  {
    if x.SeqScan? {
      var tuple := x.scan.Next();
      t := Ok(tuple);
    } else if x.Filter? {
      t := NextKept(x.child, x.test, x.columns);
    } else {
      t := NextProjected(x.child, x.projections, x.columns);
    }
  }

  // FilterExecutor::next: pulls until a tuple passes.
  method NextKept(child: Executor, test: Expr, columns: seq<string>) returns (t: Outcome<Option<Tuple>>)
    requires Scan(child).Valid()
    modifies Scan(child)
    ensures Scan(child).Valid()
    ensures Pulled(old(FilterRun(Rest(child), test, columns)), t, FilterRun(Rest(child), test, columns))
    decreases child, 1
  {
    ghost var before := FilterRun(Rest(child), test, columns);
    while true
      invariant Scan(child).Valid() && FilterRun(Rest(child), test, columns) == before
      decreases |Rest(child).tuples|
    {
      t := Next(child);
      if t.Fail? || t.value.None? {
        return;
      }
      var kept := EvaluatePredicate(test, t.value.value, columns);
      if kept.Fail? {
        t := Fail(kept.error);
        return;
      }
      if kept.value {
        AfterBefore(t.value.value, FilterRun(Rest(child), test, columns));
        return;
      }
    }
  }

  // ProjectExecutor::next.
  method NextProjected(child: Executor, projections: seq<Expr>, columns: seq<string>)
    returns (t: Outcome<Option<Tuple>>)
    requires Scan(child).Valid()
    modifies Scan(child)
    ensures Scan(child).Valid()
    ensures Pulled(old(ProjectRun(Rest(child), projections, columns)), t, ProjectRun(Rest(child), projections, columns))
    decreases child, 1
  {
    ghost var scan := Scan(child);
    t := Next(child);
    if t.Ok? && t.value.Some? {
      assert scan.Valid();
      var out := ProjectTuple(projections, t.value.value, columns);
      t := if out.Fail? then Fail(out.error) else Ok(Some(out.value));
      if out.Ok? {
        AfterBefore(out.value, ProjectRun(Rest(child), projections, columns));
      }
    }
  }

  ghost predicate Extends(output: Tuple, rest: Outcome<Tuple>, all: Outcome<Tuple>) {
    if rest.Fail? then all == rest else all.Ok? && all.value == output + rest.value
  }

  method ProjectTuple(projections: seq<Expr>, t: Tuple, columns: seq<string>) returns (out: Outcome<Tuple>)
    ensures out == Project(projections, t, columns)
  {
    var output: Tuple := [];
    var i := 0;
    assert projections[0..] == projections;
    while i < |projections|
      invariant 0 <= i <= |projections|
      invariant Extends(output, Project(projections[i..], t, columns), Project(projections, t, columns))
    {
      assert projections[i..][1..] == projections[i + 1..];
      var v := Evaluate(projections[i], t, columns);
      if v.Fail? {
        return Fail(v.error);
      }
      output := output + [v.value];
      i := i + 1;
    }
    assert output + [] == output;
    return Ok(output);
  }

  // The walk down to the scanned table, for its column names.
  method BaseColumns(plan: Plan, schema: Columns) returns (columns: seq<string>)
    requires Executable(plan)
    ensures columns == Names(schema, BaseTable(plan))
  {
    var p := plan;
    while !p.SeqScanPlan?
      invariant Executable(p) && BaseTable(p) == BaseTable(plan)
      decreases p
    {
      p := p.source;
    }
    columns := if p.table in schema then schema[p.table] else [];
  }

  method BuildExecutor(plan: Plan, storage: Storage, schema: Columns) returns (x: Outcome<Executor>)
    modifies storage
    ensures x.Ok? <==> Executable(plan)
    ensures x.Fail? ==> x.error == BuildError(plan) && storage.tables == old(storage.tables)
    ensures x.Ok? ==> fresh(Scan(x.value)) && Scan(x.value).storage == storage && Scan(x.value).Valid()
    ensures x.Ok? ==> storage.tables == Opened(old(storage.tables), BaseTable(plan))
    ensures x.Ok? ==> Rest(x.value) == RunOf(plan, old(storage.tables), schema)
    decreases plan
  {
    match plan
    case NoPlan =>
      x := Fail(NullPlan);
    case SeqScanPlan(table) =>
      var scan := new SeqScanExecutor(storage, table);
      x := Ok(SeqScan(scan));
    case FilterPlan(test, source) =>
      x := BuildExecutor(source, storage, schema);
      if x.Ok? {
        var columns := BaseColumns(source, schema);
        var child := x.value;
        x := Ok(Filter(child, test, columns));
        assert Scan(x.value) == Scan(child) && Rest(x.value) == FilterRun(Rest(child), test, columns);
      }
    case ProjectPlan(projections, source) =>
      x := BuildExecutor(source, storage, schema);
      if x.Ok? {
        var columns := BaseColumns(source, schema);
        var child := x.value;
        x := Ok(Projection(child, projections, columns));
        assert Scan(x.value) == Scan(child) && Rest(x.value) == ProjectRun(Rest(child), projections, columns);
      }
    case _ =>
      x := Fail(UnsupportedPlan);
  }

  function Gathered(run: Run): Outcome<seq<Tuple>> {
    if run.end.Some? then Fail(run.end.value) else Ok(run.tuples)
  }

  // What executing a plan gives: all tuples of its run, or the exception.
  function ResultOf(p: Plan, tables: Tables, schema: Columns): Outcome<seq<Tuple>> {
    if !Executable(p) then Fail(BuildError(p)) else Gathered(RunOf(p, tables, schema))
  }

  method ExecutePlan(plan: Plan, storage: Storage, schema: Columns) returns (results: Outcome<seq<Tuple>>)
    modifies storage
    ensures results == ResultOf(plan, old(storage.tables), schema)
    ensures storage.tables == if Executable(plan)
      then Opened(old(storage.tables), BaseTable(plan)) else old(storage.tables)
  {
    var root := BuildExecutor(plan, storage, schema);
    if root.Fail? {
      return Fail(root.error);
    }
    results := PullAll(root.value);
  }

  method PullAll(root: Executor) returns (results: Outcome<seq<Tuple>>)
    requires Scan(root).Valid()
    modifies Scan(root)
    ensures results == old(Gathered(Rest(root)))
  {
    ghost var run := Rest(root);
    var tuples: seq<Tuple> := [];
    while true
      invariant Scan(root).Valid() && Split(run, tuples, Rest(root))
      decreases |Rest(root).tuples|
    {
      ghost var before := Rest(root);
      var t := Next(root);
      TakeOne(run, tuples, before, t, Rest(root));
      if t.Fail? {
        return Fail(t.error);
      }
      if t.value.None? {
        return Ok(tuples);
      }
      tuples := tuples + [t.value.value];
    }
  }

  ghost predicate Split(run: Run, tuples: seq<Tuple>, rest: Run) {
    run.tuples == tuples + rest.tuples && run.end == rest.end
  }

  lemma {:induction false} TakeOne(run: Run, tuples: seq<Tuple>, rest: Run, t: Outcome<Option<Tuple>>, after: Run)
    requires Split(run, tuples, rest) && Pulled(rest, t, after)
    ensures match t
      case Fail(e) => Gathered(run) == Fail(e)
      case Ok(None) => Gathered(run) == Ok(tuples)
      case Ok(Some(tuple)) => Split(run, tuples + [tuple], after) && |after.tuples| < |rest.tuples|
  {
    if t.Ok? && t.value.None? {
      assert tuples + [] == tuples;
    }
  }

  // SELECT

  // What a row of the table comes to: a tuple of the result, nothing, or an exception.
  function Verdict(s: Select, row: Tuple, columns: seq<string>): Outcome<Option<Tuple>> {
    var kept := if s.where.NoExpr? then Ok(true) else EvaluatePredicate(s.where, row, columns);
    if kept.Fail? then Fail(kept.error)
    else if !kept.value then Ok(None)
    else if s.columns == [] then Ok(Some(row))
    else
      var out := Project(s.columns, row, columns);
      if out.Fail? then Fail(out.error) else Ok(Some(out.value))
  }

  // A projection evaluates every column, or throws what the first bad one throws.
  lemma {:induction false} ProjectsEach(projections: seq<Expr>, t: Tuple, columns: seq<string>)
    ensures var out := Project(projections, t, columns);
      if out.Ok? then
        |out.value| == |projections|
        && forall j :: 0 <= j < |projections| ==> Evaluate(projections[j], t, columns) == Ok(out.value[j])
      else
        exists j :: 0 <= j < |projections| && Evaluate(projections[j], t, columns) == Fail(out.error)
          && forall i :: 0 <= i < j ==> Evaluate(projections[i], t, columns).Ok?
  {
    if projections != [] && Evaluate(projections[0], t, columns).Ok? {
      ProjectsEach(projections[1..], t, columns);
      var rest := Project(projections[1..], t, columns);
      if rest.Fail? {
        var j :| 0 <= j < |projections| - 1 && Evaluate(projections[1..][j], t, columns) == Fail(rest.error)
          && forall i :: 0 <= i < j ==> Evaluate(projections[1..][i], t, columns).Ok?;
        forall i | 0 <= i < j + 1 ensures Evaluate(projections[i], t, columns).Ok? {
          if i > 0 { assert projections[i] == projections[1..][i - 1]; }
        }
        assert Evaluate(projections[j + 1], t, columns) == Fail(rest.error);
      }
    }
  }

  // The results come from rows in the order of the table: result k from row picks[k].
  ghost predicate Picked(s: Select, rows: seq<Tuple>, columns: seq<string>, results: seq<Tuple>, picks: seq<nat>) {
    && |picks| == |results|
    && (forall j, k :: 0 <= j < k < |picks| ==> picks[j] < picks[k])
    && (forall k :: 0 <= k < |picks| ==>
      picks[k] < |rows| && Verdict(s, rows[picks[k]], columns) == Ok(Some(results[k])))
  }

  // Every other row is read without an exception and passed over.
  ghost predicate OthersPassOver(s: Select, rows: seq<Tuple>, columns: seq<string>, picks: seq<nat>) {
    forall i :: 0 <= i < |rows| && i !in picks ==> Verdict(s, rows[i], columns) == Ok(None)
  }

  ghost predicate Answers(s: Select, rows: seq<Tuple>, columns: seq<string>, results: seq<Tuple>, picks: seq<nat>) {
    Picked(s, rows, columns, results, picks) && OthersPassOver(s, rows, columns, picks)
  }

  function Shifted(picks: seq<nat>): (r: seq<nat>)
    ensures |r| == |picks| && forall k :: 0 <= k < |r| ==> r[k] == picks[k] + 1
  {
    seq(|picks|, k requires 0 <= k < |picks| => picks[k] + 1)
  }

  lemma {:induction false} ShiftedHas(picks: seq<nat>, i: nat)
    requires i > 0
    ensures i - 1 in picks ==> i in Shifted(picks)
  {
    if i - 1 in picks {
      var k :| 0 <= k < |picks| && picks[k] == i - 1;
      assert Shifted(picks)[k] == i;
    }
  }

  // The rows one by one.
  function VerdictRun(s: Select, rows: seq<Tuple>, columns: seq<string>): Run {
    if rows == [] then Run([], None)
    else
      var v := Verdict(s, rows[0], columns);
      if v.Fail? then Run([], Some(v.error))
      else
        var rest := VerdictRun(s, rows[1..], columns);
        if v.value.Some? then Before(v.value.value, rest) else rest
  }

  function Pipeline(s: Select, run: Run, columns: seq<string>): Run {
    var kept := if s.where.NoExpr? then run else FilterRun(run, s.where, columns);
    if s.columns == [] then kept else ProjectRun(kept, s.columns, columns)
  }

  lemma {:induction false} PipelineIsRowwise(s: Select, rows: seq<Tuple>, columns: seq<string>)
    ensures Pipeline(s, Run(rows, None), columns) == VerdictRun(s, rows, columns)
  {
    if rows != [] {
      PipelineIsRowwise(s, rows[1..], columns);
      var kept := if s.where.NoExpr? then Run(rows, None) else FilterRun(Run(rows, None), s.where, columns);
      var rest := if s.where.NoExpr? then Run(rows[1..], None) else FilterRun(Run(rows[1..], None), s.where, columns);
      if Verdict(s, rows[0], columns) != Ok(None) && kept.tuples != [] {
        assert kept == Before(rows[0], rest);
        assert After(kept) == rest;
      }
    }
  }

  // The run over the rows is the answer on the rows before the first that throws.
  lemma {:induction false} VerdictRunAnswers(s: Select, rows: seq<Tuple>, columns: seq<string>)
    returns (n: nat, picks: seq<nat>)
    ensures var run := VerdictRun(s, rows, columns);
      && n <= |rows| && Answers(s, rows[..n], columns, run.tuples, picks)
      && match run.end
         case None => n == |rows|
         case Some(e) => n < |rows| && Verdict(s, rows[n], columns) == Fail(e)
  {
    n, picks := 0, [];
    if rows != [] && Verdict(s, rows[0], columns).Ok? {
      var m, later := VerdictRunAnswers(s, rows[1..], columns);
      n := m + 1;
      var first := Verdict(s, rows[0], columns).value;
      picks := (if first.Some? then [0] else []) + Shifted(later);
      assert rows[..n][1..] == rows[1..][..m];
      OneMore(s, rows[..n], columns, VerdictRun(s, rows[1..], columns).tuples, later);
    }
  }

  lemma {:induction false} ShiftedPicked(s: Select, rows: seq<Tuple>, columns: seq<string>, results: seq<Tuple>,
                                         later: seq<nat>)
    requires rows != [] && Picked(s, rows[1..], columns, results, later)
    ensures Picked(s, rows, columns, results, Shifted(later))
  {
    var shifted := Shifted(later);
    forall k | 0 <= k < |shifted|
      ensures shifted[k] < |rows| && Verdict(s, rows[shifted[k]], columns) == Ok(Some(results[k]))
    {
      assert rows[shifted[k]] == rows[1..][later[k]];
    }
  }

  lemma {:induction false} RestNone(s: Select, rows: seq<Tuple>, columns: seq<string>, results: seq<Tuple>,
                                    later: seq<nat>)
    requires rows != [] && Answers(s, rows[1..], columns, results, later)
    ensures forall i :: 1 <= i < |rows| && i !in Shifted(later) ==> Verdict(s, rows[i], columns) == Ok(None)
  {
    forall i | 1 <= i < |rows| && i !in Shifted(later) ensures Verdict(s, rows[i], columns) == Ok(None) {
      assert rows[i] == rows[1..][i - 1];
      ShiftedHas(later, i);
    }
  }

  lemma {:induction false} OneMore(s: Select, rows: seq<Tuple>, columns: seq<string>, results: seq<Tuple>,
                                   later: seq<nat>)
    requires rows != [] && Verdict(s, rows[0], columns).Ok? && Answers(s, rows[1..], columns, results, later)
    ensures var first := Verdict(s, rows[0], columns).value;
      Answers(s, rows, columns, if first.Some? then [first.value] + results else results,
        (if first.Some? then [0] else []) + Shifted(later))
  {
    var shifted := Shifted(later);
    ShiftedPicked(s, rows, columns, results, later);
    RestNone(s, rows, columns, results, later);
    match Verdict(s, rows[0], columns).value
    case None =>
      assert [] + shifted == shifted;
    case Some(t) =>
      FirstPicked(s, rows, columns, t, results, shifted);
  }

  lemma {:induction false} FirstPicked(s: Select, rows: seq<Tuple>, columns: seq<string>, t: Tuple, results: seq<Tuple>,
                                       shifted: seq<nat>)
    requires rows != [] && Verdict(s, rows[0], columns) == Ok(Some(t))
    requires Picked(s, rows, columns, results, shifted) && forall k :: 0 <= k < |shifted| ==> shifted[k] > 0
    requires forall i :: 1 <= i < |rows| && i !in shifted ==> Verdict(s, rows[i], columns) == Ok(None)
    ensures Answers(s, rows, columns, [t] + results, [0] + shifted)
  {
    var picks := [0] + shifted;
    assert picks[0] == 0;
    forall i | 0 <= i < |rows| && i !in picks ensures Verdict(s, rows[i], columns) == Ok(None) {
      assert i != 0 && i !in shifted;
    }
  }

  ghost predicate FirstThrows(s: Select, rows: seq<Tuple>, columns: seq<string>, n: nat, e: Error) {
    && n < |rows| && Verdict(s, rows[n], columns) == Fail(e)
    && forall i :: 0 <= i < n ==> Verdict(s, rows[i], columns).Ok?
  }

  // A query without ORDER BY gives the answer over the whole table exactly when no row throws;
  // it fails exactly when some row throws, and then as the first such row does.
  lemma {:induction false} SelectMeaning(s: Select, tables: Tables, schema: Columns)
    requires s.orderBy == []
    ensures var rows, columns := Rows(tables, s.table), Names(schema, s.table);
      match ResultOf(SelectPlan(s), tables, schema)
      case Ok(results) => exists picks :: Answers(s, rows, columns, results, picks)
      case Fail(e) => exists n :: FirstThrows(s, rows, columns, n, e)
  {
    var rows, columns := Rows(tables, s.table), Names(schema, s.table);
    PipelineIsRowwise(s, rows, columns);
    var n, picks := VerdictRunAnswers(s, rows, columns);
    var scan := SeqScanPlan(s.table);
    assert RunOf(scan, tables, schema) == Run(rows, None);
    assert BaseTable(scan) == s.table && BaseTable(Filtered(s.where, scan)) == s.table;
    assert Executable(SelectPlan(s));
    assert RunOf(SelectPlan(s), tables, schema) == Pipeline(s, Run(rows, None), columns);
    assert rows[..|rows|] == rows;
    forall i | 0 <= i < n ensures Verdict(s, rows[i], columns).Ok? {
      assert rows[i] == rows[..n][i];
    }
    match VerdictRun(s, rows, columns).end
    case None =>
      assert Answers(s, rows, columns, VerdictRun(s, rows, columns).tuples, picks);
    case Some(e) =>
      assert FirstThrows(s, rows, columns, n, e);
  }

  // An answer is the only one.
  lemma {:induction false} OneAnswer(s: Select, rows: seq<Tuple>, columns: seq<string>, a: seq<Tuple>, p: seq<nat>,
                                     b: seq<Tuple>, q: seq<nat>)
    requires Answers(s, rows, columns, a, p) && Answers(s, rows, columns, b, q)
    ensures a == b
  {
    SameEnumeration(p, q);
  }

  lemma {:induction false} SameEnumeration(p: seq<nat>, q: seq<nat>)
    requires forall j, k :: 0 <= j < k < |p| ==> p[j] < p[k]
    requires forall j, k :: 0 <= j < k < |q| ==> q[j] < q[k]
    requires forall x :: x in p <==> x in q
    ensures p == q
  {
    assert p != [] ==> p[0] in q;
    assert q != [] ==> q[0] in p;
    if p != [] {
      assert q != [];
      forall x ensures x in p[1..] <==> x in q[1..] {
        assert x in p <==> x == p[0] || x in p[1..];
        assert x in q <==> x == q[0] || x in q[1..];
      }
      SameEnumeration(p[1..], q[1..]);
    }
  }

  // Of all statements only a SELECT without ORDER BY can be executed; the others leave the tables alone.
  lemma {:induction false} OnlySelectsExecute(s: Statement)
    requires BuildPlan(s).Ok?
    ensures Executable(BuildPlan(s).value) <==> s.SelectStatement? && s.select.orderBy == []
    ensures !Executable(BuildPlan(s).value) ==> BuildError(BuildPlan(s).value) == UnsupportedPlan
  {
    if s.SelectStatement? {
      var scan := Filtered(s.select.where, SeqScanPlan(s.select.table));
      assert Executable(scan);
    }
  }
}
