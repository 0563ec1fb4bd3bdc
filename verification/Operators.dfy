// How tightly the operators of expressions bind, told from the table of their kinds alone.
module Operators {
  import opened Lexing
  import opened Parsing

  // From the loosest to the tightest.
  const GROUPS: seq<set<Kind>> := [{Or}, {And}, {Eq, Lt, Gt, LtEq, GtEq}, {Plus, Minus}, {Star, Slash}]

  predicate Operator(k: Kind) {
    exists i :: 0 <= i < |GROUPS| && k in GROUPS[i]
  }

  // The second stands in a later group.
  predicate Tighter(k: Kind, k': Kind) {
    exists i, j :: 0 <= i < j < |GROUPS| && k in GROUPS[i] && k' in GROUPS[j]
  }

  const LEVELS: seq<nat> := [5, 10, 20, 30, 40]

  lemma {:induction false} GroupOf(t: Token) returns (i: nat)
    ensures i < |GROUPS| ==> t.kind in GROUPS[i] && Precedence(t) == LEVELS[i]
    ensures forall j :: 0 <= j < |GROUPS| && t.kind in GROUPS[j] ==> j == i
    ensures i >= |GROUPS| ==> Precedence(t) == 0
  {
    i := if t.kind in GROUPS[0] then 0 else if t.kind in GROUPS[1] then 1 else if t.kind in GROUPS[2] then 2
         else if t.kind in GROUPS[3] then 3 else if t.kind in GROUPS[4] then 4 else 5;
  }

  lemma {:induction false} OperatorsBind(t: Token)
    ensures Operator(t.kind) <==> Precedence(t) > 0
  {
    var i := GroupOf(t);
    assert i < |GROUPS| ==> LEVELS[i] > 0;
  }

  lemma {:induction false} TighterBinds(t: Token, t': Token)
    requires Operator(t.kind) && Operator(t'.kind)
    ensures Tighter(t.kind, t'.kind) <==> Precedence(t) < Precedence(t')
  {
    var i := GroupOf(t);
    var j := GroupOf(t');
    assert i < j < |GROUPS| ==> LEVELS[i] < LEVELS[j];
    assert j <= i < |GROUPS| ==> LEVELS[j] <= LEVELS[i];
  }

  // Of two operators the second takes the operand between them exactly if it stands in a later group.
  lemma {:induction false} SecondTakes(x: seq<Token>, a: Expr, op: Token, y: seq<Token>, b: Expr, op': Token,
                                       z: seq<Token>, c: Expr)
    requires IsPrimary(x, a) && IsPrimary(y, b) && IsPrimary(z, c) && Operator(op.kind) && Operator(op'.kind)
    ensures ParseExpr(x + [op] + (y + [op'] + z), 0) ==
      Parsed(if Tighter(op.kind, op'.kind) then BinaryExpr(op, a, BinaryExpr(op', b, c))
             else BinaryExpr(op', BinaryExpr(op, a, b), c), [])
  {
    OperatorsBind(op);
    OperatorsBind(op');
    TighterBinds(op, op');
    var ts := x + [op] + (y + [op'] + z);
    if Tighter(op.kind, op'.kind) {
      Joins(y, op', z, b, c, Precedence(op));
      Joins(x, op, y + [op'] + z, a, BinaryExpr(op', b, c), 0);
      ParsesGrammar(ts, 0, BinaryExpr(op, a, BinaryExpr(op', b, c)));
    } else {
      Joins(x, op, y, a, b, Precedence(op') - 1);
      Joins(x + [op] + y, op', z, BinaryExpr(op, a, b), c, 0);
      assert (x + [op] + y) + [op'] + z == ts;
      ParsesGrammar(ts, 0, BinaryExpr(op', BinaryExpr(op, a, b), c));
    }
  }

  lemma {:induction false} OneTakes(x: seq<Token>, a: Expr, op: Token, y: seq<Token>, b: Expr)
    requires IsPrimary(x, a) && IsPrimary(y, b) && Operator(op.kind)
    ensures ParseExpr(x + [op] + y, 0) == Parsed(BinaryExpr(op, a, b), [])
  {
    OperatorsBind(op);
    Joins(x, op, y, a, b, 0);
    ParsesGrammar(x + [op] + y, 0, BinaryExpr(op, a, b));
  }

  // A token of any other kind ends the expression.
  lemma {:induction false} OthersEnd(x: seq<Token>, a: Expr, t: Token, rest: seq<Token>)
    requires IsPrimary(x, a) && !Operator(t.kind) && t.kind != Bad
    ensures ParseExpr(x + ([t] + rest), 0) == Parsed(a, [t] + rest)
  {
    OperatorsBind(t);
    ExprComplete(x, a, 0, [t] + rest);
  }
}
