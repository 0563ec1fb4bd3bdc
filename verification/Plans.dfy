// What the plans of statements change and deliver.
module Plans {
  import opened Evaluator
  import opened Execution

  // Whether a row meets a WHERE clause; without one every row does.
  function Meets(where: Expr, row: Tuple, columns: seq<string>): Outcome<bool> {
    if where.NoExpr? then Ok(true)
    else match Evaluate(where, row, columns)
      case Fail(e) => Fail(e)
      case Ok(v) => Ok(v != IntValue(0))
  }

  // Exactly the rows that meet the clause, in their order: tuple k is row picks[k].
  ghost predicate Meeting(where: Expr, rows: seq<Tuple>, columns: seq<string>, out: seq<Tuple>, picks: seq<nat>) {
    && |picks| == |out|
    && (forall j, k :: 0 <= j < k < |picks| ==> picks[j] < picks[k])
    && (forall k :: 0 <= k < |picks| ==> picks[k] < |rows| && out[k] == rows[picks[k]])
    && (forall i :: 0 <= i < |rows| ==> Meets(where, rows[i], columns) == Ok(i in picks))
  }

  // The rows of a table that meet the clause, up to the first that throws, and then its exception.
  ghost predicate Delivers(run: Run, where: Expr, rows: seq<Tuple>, columns: seq<string>) {
    exists n: nat, picks ::
      && n <= |rows| && Meeting(where, rows[..n], columns, run.tuples, picks)
      && match run.end
         case None => n == |rows|
         case Some(e) => n < |rows| && Meets(where, rows[n], columns) == Fail(e)
  }

  lemma {:induction false} FilterDelivers(where: Expr, rows: seq<Tuple>, columns: seq<string>)
    requires !where.NoExpr?
    ensures Delivers(FilterRun(Run(rows, None), where, columns), where, rows, columns)
  {
    var s := Select([], "", where, [], []);
    PipelineIsRowwise(s, rows, columns);
    var n, picks := VerdictRunAnswers(s, rows, columns);
    var run := VerdictRun(s, rows, columns);
    MeetingIs(s, rows[..n], columns, run.tuples, picks);
    if run.end.Some? {
      VerdictIs(s, rows[n], columns);
    }
  }

  lemma {:induction false} VerdictIs(s: Select, row: Tuple, columns: seq<string>)
    requires s.columns == []
    ensures Verdict(s, row, columns) ==
      match Meets(s.where, row, columns)
      case Fail(e) => Fail(e)
      case Ok(b) => Ok(if b then Execution.Some(row) else Execution.None)
  {
  }

  lemma {:induction false} MeetingIs(s: Select, rows: seq<Tuple>, columns: seq<string>, out: seq<Tuple>,
                                     picks: seq<nat>)
    requires s.columns == [] && Answers(s, rows, columns, out, picks)
    ensures Meeting(s.where, rows, columns, out, picks)
  {
    forall i | 0 <= i < |rows| ensures Meets(s.where, rows[i], columns) == Ok(i in picks) {
      VerdictIs(s, rows[i], columns);
      if i in picks {
        var k :| 0 <= k < |picks| && picks[k] == i;
        assert Verdict(s, rows[picks[k]], columns) == Ok(Execution.Some(out[k]));
      }
    }
    forall k | 0 <= k < |picks| ensures picks[k] < |rows| && out[k] == rows[picks[k]] {
      VerdictIs(s, rows[picks[k]], columns);
    }
  }

  lemma {:induction false} AllDelivered(rows: seq<Tuple>, columns: seq<string>)
    ensures Delivers(Run(rows, None), NoExpr, rows, columns)
  {
    var picks := seq(|rows|, i => i);
    assert rows[..|rows|] == rows;
    forall i | 0 <= i < |rows| ensures i in picks {
      assert picks[i] == i;
    }
    assert Meeting(NoExpr, rows[..|rows|], columns, rows, picks);
  }

  // The source of a change or a sort: a barrier over what delivers those rows.
  ghost predicate ReadsWhole(p: Plan, table: string, where: Expr) {
    && p.CollectPlan? && Executable(p.source)
    && forall tables: Tables, schema: Columns ::
         Delivers(RunOf(p.source, tables, schema), where, Rows(tables, table), Names(schema, table))
  }

  lemma {:induction false} FilteredReads(table: string, where: Expr, tables: Tables, schema: Columns)
    ensures Executable(Filtered(where, SeqScanPlan(table)))
    ensures Delivers(RunOf(Filtered(where, SeqScanPlan(table)), tables, schema), where, Rows(tables, table),
              Names(schema, table))
  {
    var scan := SeqScanPlan(table);
    assert RunOf(scan, tables, schema) == Run(Rows(tables, table), Execution.None);
    if where.NoExpr? {
      AllDelivered(Rows(tables, table), Names(schema, table));
    } else {
      assert BaseTable(scan) == table;
      FilterDelivers(where, Rows(tables, table), Names(schema, table));
    }
  }

  lemma {:induction false} CollectedReads(table: string, where: Expr)
    ensures ReadsWhole(CollectPlan(Filtered(where, SeqScanPlan(table))), table, where)
    ensures Collected(Filtered(where, SeqScanPlan(table))) == CollectPlan(Filtered(where, SeqScanPlan(table)))
  {
    var inner := Filtered(where, SeqScanPlan(table));
    assert Executable(inner) by { FilteredReads(table, where, map[], map[]); }
    forall tables: Tables, schema: Columns
      ensures Delivers(RunOf(inner, tables, schema), where, Rows(tables, table), Names(schema, table))
    {
      FilteredReads(table, where, tables, schema);
    }
    assert NeedsCollection(SeqScanPlan(table));
  }

  // An UPDATE changes the rows of its table that meet its clause, as it says.
  lemma {:induction false} UpdateChanges(table: string, assignments: seq<Assignment>, where: Expr)
    ensures var p := BuildPlan(UpdateStatement(table, assignments, where));
      && p.Ok? && p.value.UpdatePlan? && p.value.table == table && p.value.assignments == assignments
      && ReadsWhole(p.value.source, table, where)
  {
    CollectedReads(table, where);
  }

  lemma {:induction false} DeleteChanges(table: string, where: Expr)
    ensures var p := BuildPlan(DeleteStatement(table, where));
      p.Ok? && p.value.DeletePlan? && p.value.table == table && ReadsWhole(p.value.source, table, where)
  {
    CollectedReads(table, where);
  }

  // An INSERT puts its one list of values into its table.
  lemma {:induction false} InsertChanges(table: string, columns: seq<string>, values: seq<Expr>)
    ensures var p := BuildPlan(InsertStatement(table, columns, values));
      && p.Ok? && p.value.InsertPlan? && p.value.table == table && p.value.columns == columns
      && p.value.source.ValuesPlan? && p.value.source.values == values
  {
  }

  // A SELECT projects where it names columns; with ORDER BY it sorts, by that list, the rows that meet its clause.
  lemma {:induction false} SelectSorts(s: Select)
    requires s.orderBy != []
    ensures var p := BuildPlan(SelectStatement(s));
      && p.Ok? && (s.columns != [] ==> p.value.ProjectPlan? && p.value.projections == s.columns)
      && var sort := if s.columns == [] then p.value else p.value.source;
        sort.SortPlan? && sort.orderBy == s.orderBy && ReadsWhole(sort.source, s.table, s.where)
  {
    CollectedReads(s.table, s.where);
  }

  lemma {:induction false} OthersUnplanned(s: Statement)
    ensures BuildPlan(s).Fail? <==> s.CreateStatement? || s.OtherStatement?
    ensures BuildPlan(s).Fail? ==> BuildPlan(s).error == UnsupportedStatement
  {
  }

  // What is below the filters and projections of a plan.
  function Bottom(p: Plan): Plan {
    if p.FilterPlan? || p.ProjectPlan? then Bottom(p.source) else p
  }

  // A plan is executed exactly if that is a scan of a table; otherwise it is refused.
  lemma {:induction false} ExecutesScans(p: Plan)
    ensures Executable(p) <==> Bottom(p).SeqScanPlan?
    ensures Executable(p) ==> BaseTable(p) == Bottom(p).table
    ensures !Executable(p) ==> BuildError(p) == if Bottom(p).NoPlan? then NullPlan else UnsupportedPlan
  {
    if p.FilterPlan? || p.ProjectPlan? {
      ExecutesScans(p.source);
    }
  }
}
