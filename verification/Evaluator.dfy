// Expressions over one tuple: values are integers of 32 bits or strings of bytes, and any step may throw.
module Evaluator {
  import opened Keys

  const INT_MIN := -0x8000_0000
  const INT_MAX := 0x7FFF_FFFF

  datatype Error =
    | NullExpression | UnsupportedExpression | UnknownOperator
    | ColumnNotFound | ColumnOutOfBounds
    | ExpectedInteger | DivisionByZero
    | Overflow // undefined in C++
    | NullPlan | UnsupportedPlan | UnsupportedStatement

  datatype Outcome<+T> = Ok(value: T) | Fail(error: Error)

  type Int = x: int | INT_MIN <= x <= INT_MAX
  datatype Value = IntValue(n: Int) | StringValue(text: Bytes)
  type Tuple = seq<Value>

  // The null pointer is an expression too.
  datatype Expr =
    | NoExpr
    | Identifier(name: string)
    | Number(value: Int)
    | Text(text: Bytes)
    | Unary
    | Binary(op: string, left: Expr, right: Expr)

  // The first column of the name, or the number of columns.
  function FindColumn(name: string, columns: seq<string>): (i: nat)
    ensures i <= |columns|
    ensures name !in columns[..i]
    ensures i < |columns| ==> columns[i] == name
  {
    if columns == [] then 0
    else if columns[0] == name then 0
    else
      var i := FindColumn(name, columns[1..]);
      assert columns[..i + 1] == [columns[0]] + columns[1..][..i];
      1 + i
  }

  function Digits(n: nat): (r: Bytes)
    ensures r != [] && forall i :: 0 <= i < |r| ==> 48 <= r[i] <= 57
  {
    (if n < 10 then [] else Digits(n / 10)) + [48 + n % 10]
  }

  function ReadDigits(s: Bytes): int {
    if s == [] then 0 else 10 * ReadDigits(s[..|s| - 1]) + (s[|s| - 1] as int - 48)
  }

  const MINUS: Byte := 45

  // to_string.
  function ToString(n: int): Bytes {
    if n < 0 then [MINUS] + Digits(-n) else Digits(n)
  }

  lemma {:induction false} DigitsRead(n: nat)
    ensures ReadDigits(Digits(n)) == n
  {
    if n >= 10 { DigitsRead(n / 10); }
    var r := Digits(n);
    assert r[..|r| - 1] == if n < 10 then [] else Digits(n / 10);
  }

  // The text of an integer tells which it is.
  lemma {:induction false} ToStringInjective(m: int, n: int)
    ensures ToString(m) == ToString(n) ==> m == n
  {
    if ToString(m) == ToString(n) {
      var a := if m < 0 then -m else m;
      var b := if n < 0 then -n else n;
      DigitsRead(a);
      DigitsRead(b);
      assert (m < 0) == (ToString(m)[0] == MINUS) && (n < 0) == (ToString(n)[0] == MINUS);
      if m < 0 {
        assert Digits(a) == ToString(m)[1..] && Digits(b) == ToString(n)[1..];
      }
    }
  }

  function TextOf(v: Value): Bytes {
    match v
    case StringValue(s) => s
    case IntValue(n) => ToString(n)
  }

  function IntOf(v: Value): Outcome<Int> {
    if v.IntValue? then Ok(v.n) else Fail(ExpectedInteger)
  }

  function Checked(n: int): Outcome<Value> {
    if INT_MIN <= n <= INT_MAX then Ok(IntValue(n)) else Fail(Overflow)
  }

  function Flag(b: bool): Outcome<Value> {
    Ok(IntValue(if b then 1 else 0))
  }

  // Division as C++ has it.
  function Divide(a: int, b: int): (q: int)
    requires b != 0
  {
    if a >= 0 then a / b else -((-a) / b)
  }

  function Abs(n: int): int {
    if n < 0 then -n else n
  }

  // It rounds toward zero: the remainder is smaller than the divisor and is zero or has the sign of the dividend.
  lemma {:induction false} DivideTruncates(a: int, b: int, q: int)
    requires b != 0
    ensures q == Divide(a, b) <==> (if a >= 0 then 0 <= a - b * q < Abs(b) else -Abs(b) < a - b * q <= 0)
  {
    var k := if (a >= 0) == (b > 0) then q else -q;
    Signs(b, q);
    QuotientIs(Abs(a), Abs(b), k);
    QuotientSign(Abs(a), b);
  }

  lemma {:induction false} Signs(b: int, q: int)
    ensures b * q == if b >= 0 then Abs(b) * q else Abs(b) * -q
    ensures Abs(b) * -q == -(Abs(b) * q)
  {
  }

  lemma {:induction false} QuotientSign(m: nat, b: int)
    requires b != 0
    ensures m / b == if b > 0 then m / Abs(b) else -(m / Abs(b))
  {
    if b < 0 {
      var q, r := m / b, m % b;
      assert m == b * q + r && 0 <= r < -b;
      Signs(b, q);
      QuotientIs(m, -b, -q);
    }
  }

  lemma {:induction false} QuotientIs(m: nat, d: int, k: int)
    requires d > 0
    ensures k == m / d <==> 0 <= m - d * k < d
  {
    var e := k - m / d;
    assert d * k == d * (m / d) + d * e;
    if e >= 1 { assert d * e >= d; }
    if e <= -1 { assert d * e <= 0 - d; }
  }

  function Quotient(l: Value, r: Value): Outcome<Value> {
    if IntOf(r).Fail? then Fail(ExpectedInteger)
    else if r.n == 0 then Fail(DivisionByZero)
    else if IntOf(l).Fail? then Fail(ExpectedInteger)
    else Checked(Divide(l.n, r.n))
  }

  // A comparison of two integers or of two strings; of anything else it is false.
  function Compare(op: string, l: Value, r: Value): bool
    requires op in COMPARISONS
  {
    match (l, r)
    case (IntValue(a), IntValue(b)) =>
      (match op
       case "<" => a < b
       case ">" => a > b
       case "<=" => a <= b
       case ">=" => a >= b
       case _ => a == b)
    case (StringValue(a), StringValue(b)) =>
      (match op
       case "<" => Lt(a, b)
       case ">" => Lt(b, a)
       case "<=" => !Lt(b, a)
       case ">=" => !Lt(a, b)
       case _ => a == b)
    case _ => false
  }

  const COMPARISONS := ["=", "==", "<", ">", "<=", ">="]
  const INTEGER_OPERATORS := ["-", "*", "AND", "&&", "OR", "||"]

  function Integers(op: string, a: Int, b: Int): Outcome<Value>
    requires op in INTEGER_OPERATORS
  {
    match op
    case "-" => Checked(a - b)
    case "*" => Checked(a * b)
    case "AND" | "&&" => Flag(a != 0 && b != 0)
    case _ => Flag(a != 0 || b != 0)
  }

  function Sum(l: Value, r: Value): Outcome<Value> {
    if l.IntValue? && r.IntValue? then Checked(l.n + r.n) else Ok(StringValue(TextOf(l) + TextOf(r)))
  }

  function Apply(op: string, l: Value, r: Value): Outcome<Value> {
    if op == "+" then Sum(l, r)
    else if op == "/" then Quotient(l, r)
    else if op in INTEGER_OPERATORS then
      if l.IntValue? && r.IntValue? then Integers(op, l.n, r.n) else Fail(ExpectedInteger)
    else if op in COMPARISONS then Flag(Compare(op, l, r))
    else Fail(UnknownOperator)
  }

  // evaluate_expr: both operands are evaluated, whatever the operator.
  function Evaluate(e: Expr, t: Tuple, columns: seq<string>): Outcome<Value> {
    match e
    case NoExpr => Fail(NullExpression)
    case Identifier(name) =>
      var i := FindColumn(name, columns);
      if i == |columns| then Fail(ColumnNotFound) else if i >= |t| then Fail(ColumnOutOfBounds) else Ok(t[i])
    case Number(value) => Ok(IntValue(value))
    case Text(text) => Ok(StringValue(text))
    case Unary => Fail(UnsupportedExpression)
    case Binary(op, left, right) =>
      var l := Evaluate(left, t, columns);
      if l.Fail? then l
      else
        var r := Evaluate(right, t, columns);
        if r.Fail? then r else Apply(op, l.value, r.value)
  }

  // A string is true.
  function EvaluatePredicate(e: Expr, t: Tuple, columns: seq<string>): Outcome<bool> {
    var v := Evaluate(e, t, columns);
    if v.Fail? then Fail(v.error) else Ok(v.value.StringValue? || v.value.n != 0)
  }

  predicate SameKind(l: Value, r: Value) {
    l.IntValue? <==> r.IntValue?
  }

  // The comparisons are those of one order on the integers and one on the strings, and never throw.
  lemma {:induction false} ComparesInOrder(l: Value, r: Value)
    ensures forall op :: op in COMPARISONS ==> Apply(op, l, r) == Flag(Compare(op, l, r))
    ensures Compare("=", l, r) <==> l == r
    ensures Compare("==", l, r) <==> l == r
    ensures Compare(">", l, r) <==> Compare("<", r, l)
    ensures Compare("<=", l, r) <==> Compare("<", l, r) || l == r
    ensures Compare(">=", l, r) <==> Compare("<=", r, l)
    ensures Compare("<", l, r) ==> l != r && !Compare("<", r, l)
    ensures SameKind(l, r) <==> Compare("<", l, r) || l == r || Compare("<", r, l)
  {
    if l.StringValue? && r.StringValue? {
      Trichotomy(l.text, r.text);
    }
  }

  lemma {:induction false} ComparesTransitively(l: Value, m: Value, r: Value)
    requires Compare("<", l, m) && Compare("<", m, r)
    ensures Compare("<", l, r)
  {
    if l.StringValue? {
      Transitive(l.text, m.text, r.text);
    }
  }

  predicate Mentions(e: Expr, name: string) {
    match e
    case Identifier(n) => n == name
    case Binary(_, l, r) => Mentions(l, name) || Mentions(r, name)
    case _ => false
  }

  // The tuples have the same value, or neither has one, in every column the expression names.
  predicate AgreeOn(e: Expr, t: Tuple, u: Tuple, columns: seq<string>) {
    forall i :: 0 <= i < |columns| && Mentions(e, columns[i]) ==> (i < |t| <==> i < |u|) && (i < |t| ==> t[i] == u[i])
  }

  lemma {:induction false} ReadsOnlyNamed(e: Expr, t: Tuple, u: Tuple, columns: seq<string>)
    requires AgreeOn(e, t, u, columns)
    ensures Evaluate(e, t, columns) == Evaluate(e, u, columns)
  {
    if e.Binary? {
      ReadsOnlyNamed(e.left, t, u, columns);
      ReadsOnlyNamed(e.right, t, u, columns);
    }
  }
}
