// What the operators of expressions compute, as laws of evaluation.
module Arithmetic {
  import opened Keys
  import opened Evaluator

  function Literal(v: Value): Expr {
    match v
    case IntValue(n) => Number(n)
    case StringValue(text) => Text(text)
  }

  // An operator between two values.
  function Of(op: string, l: Value, r: Value): Outcome<Value> {
    Evaluate(Binary(op, Literal(l), Literal(r)), [], [])
  }

  predicate InRange(n: int) {
    -2147483648 <= n <= 2147483647
  }

  lemma {:induction false} OfApplies(op: string, l: Value, r: Value)
    ensures Of(op, l, r) == Apply(op, l, r)
  {
    assert Evaluate(Literal(l), [], []) == Ok(l) && Evaluate(Literal(r), [], []) == Ok(r);
  }

  // The left operand is evaluated first, then the right one, whatever the operator; then their values alone count.
  lemma {:induction false} OperandsFirst(op: string, left: Expr, right: Expr, t: Tuple, columns: seq<string>)
    ensures var l, r := Evaluate(left, t, columns), Evaluate(right, t, columns);
      Evaluate(Binary(op, left, right), t, columns) ==
        if l.Fail? then l else if r.Fail? then r else Of(op, l.value, r.value)
  {
    var l, r := Evaluate(left, t, columns), Evaluate(right, t, columns);
    if l.Ok? && r.Ok? {
      OfApplies(op, l.value, r.value);
    }
  }

  // A name stands for the first column of that name; a literal for itself.
  lemma {:induction false} ColumnValue(name: string, i: nat, t: Tuple, columns: seq<string>)
    ensures name !in columns ==> Evaluate(Identifier(name), t, columns) == Fail(ColumnNotFound)
    ensures i < |columns| && columns[i] == name && name !in columns[..i] ==>
      Evaluate(Identifier(name), t, columns) == if i < |t| then Ok(t[i]) else Fail(ColumnOutOfBounds)
  {
    var j := FindColumn(name, columns);
    if i < |columns| && columns[i] == name && name !in columns[..i] {
      assert forall k :: 0 <= k < i ==> columns[..i][k] == columns[k];
      assert forall k :: 0 <= k < j ==> columns[..j][k] == columns[k];
    }
  }

  lemma {:induction false} LiteralValue(v: Value, t: Tuple, columns: seq<string>)
    ensures Evaluate(Literal(v), t, columns) == Ok(v)
    ensures Evaluate(NoExpr, t, columns) == Fail(NullExpression)
    ensures Evaluate(Unary, t, columns) == Fail(UnsupportedExpression)
  {
  }

  // Addition: commutative, with unit 0, up by one with its operand, and an exception exactly outside 32 bits.
  lemma {:induction false} AddLaws(x: Int, y: Int)
    ensures Of("+", IntValue(x), IntValue(y)) == Of("+", IntValue(y), IntValue(x))
    ensures Of("+", IntValue(x), IntValue(0)) == Ok(IntValue(x))
    ensures Of("+", IntValue(x), IntValue(y)).Ok? ==> Of("+", IntValue(x), IntValue(y)).value.IntValue?
    ensures y < 2147483647 && Of("+", IntValue(x), IntValue(y + 1)).Ok? ==>
      Of("+", IntValue(x), IntValue(y + 1)).value.IntValue?
    ensures y < 2147483647 ==>
      (Of("+", IntValue(x), IntValue(y + 1)).Ok? && Of("+", IntValue(x), IntValue(y)).Ok? ==>
        Of("+", IntValue(x), IntValue(y + 1)).value.n == Of("+", IntValue(x), IntValue(y)).value.n + 1)
    ensures Of("+", IntValue(x), IntValue(y)) == Fail(Overflow) <==> !InRange(x + y)
    ensures Of("+", IntValue(x), IntValue(y)).Fail? <==> !InRange(x + y)
  {
    OfApplies("+", IntValue(x), IntValue(y));
    OfApplies("+", IntValue(y), IntValue(x));
    OfApplies("+", IntValue(x), IntValue(0));
    if y < 2147483647 {
      OfApplies("+", IntValue(x), IntValue(y + 1));
    }
  }

  // Subtraction undoes addition.
  lemma {:induction false} SubtractLaws(x: Int, y: Int, n: Int)
    ensures Of("-", IntValue(n), IntValue(y)) == Ok(IntValue(x)) <==>
      Of("+", IntValue(x), IntValue(y)) == Ok(IntValue(n))
    ensures Of("-", IntValue(n), IntValue(y)) == Fail(Overflow) <==> !InRange(n - y)
    ensures Of("-", IntValue(n), IntValue(y)).Fail? <==> !InRange(n - y)
  {
    OfApplies("-", IntValue(n), IntValue(y));
    OfApplies("+", IntValue(x), IntValue(y));
  }

  // Multiplication is repeated addition.
  lemma {:induction false} MultiplyLaws(x: Int, y: Int)
    ensures Of("*", IntValue(x), IntValue(y)) == Of("*", IntValue(y), IntValue(x))
    ensures Of("*", IntValue(x), IntValue(0)) == Ok(IntValue(0))
    ensures Of("*", IntValue(x), IntValue(1)) == Ok(IntValue(x))
    ensures y < 2147483647 && Of("*", IntValue(x), IntValue(y)).Ok? ==>
      Of("*", IntValue(x), IntValue(y + 1)) == Of("+", Of("*", IntValue(x), IntValue(y)).value, IntValue(x))
    ensures Of("*", IntValue(x), IntValue(y)) == Fail(Overflow) <==> !InRange(x * y)
    ensures Of("*", IntValue(x), IntValue(y)).Fail? <==> !InRange(x * y)
  {
    OfApplies("*", IntValue(x), IntValue(y));
    OfApplies("*", IntValue(y), IntValue(x));
    OfApplies("*", IntValue(x), IntValue(0));
    OfApplies("*", IntValue(x), IntValue(1));
    if y < 2147483647 && InRange(x * y) {
      OfApplies("*", IntValue(x), IntValue(y + 1));
      OfApplies("+", IntValue(x * y), IntValue(x));
    }
    assert x * (y + 1) == x * y + x;
  }

  // Division: the right operand is looked at first; what is left over is smaller than the divisor and has the sign
  // of the dividend.
  lemma {:induction false} DivideLaws(l: Value, r: Value, q: Int)
    ensures r.StringValue? ==> Of("/", l, r) == Fail(ExpectedInteger)
    ensures r == IntValue(0) ==> Of("/", l, r) == Fail(DivisionByZero)
    ensures r.IntValue? && r.n != 0 && l.StringValue? ==> Of("/", l, r) == Fail(ExpectedInteger)
    ensures r.IntValue? && r.n != 0 && l.IntValue? ==>
      (Of("/", l, r) == Ok(IntValue(q)) <==>
        if l.n >= 0 then 0 <= l.n - r.n * q < Abs(r.n) else -Abs(r.n) < l.n - r.n * q <= 0)
    ensures r.IntValue? && r.n != 0 && l.IntValue? ==>
      (Of("/", l, r) == Fail(Overflow) <==> l.n == -2147483648 && r.n == -1)
      && (Of("/", l, r).Fail? ==> Of("/", l, r) == Fail(Overflow))
  {
    OfApplies("/", l, r);
    if r.IntValue? && r.n != 0 && l.IntValue? {
      DivideTruncates(l.n, r.n, q);
      DivideTruncates(l.n, r.n, Divide(l.n, r.n));
      DivideInRange(l.n, r.n);
    }
  }

  lemma {:induction false} DivideInRange(a: Int, b: Int)
    requires b != 0
    ensures InRange(Divide(a, b)) <==> !(a == -2147483648 && b == -1)
  {
    var m: int, d: int := a, b;
    if d == -1 {
      DivideTruncates(m, d, -m);
    } else if d == 1 {
      DivideTruncates(m, d, m);
    } else {
      DivideTruncates(m, d, Divide(m, d));
      SmallQuotient(m, d, Divide(m, d));
    }
  }

  lemma {:induction false} QuotientBound(m: nat, d: int, k: int)
    requires d >= 2 && 0 <= m - d * k < d
    ensures 0 <= 2 * k <= m
  {
    QuotientIs(m, d, k);
    AtLeastTwice(d, k);
  }

  lemma {:induction false} SmallQuotient(a: Int, b: int, q: int)
    requires Abs(b) >= 2 && if a >= 0 then 0 <= a - b * q < Abs(b) else -Abs(b) < a - b * q <= 0
    ensures InRange(q)
  {
    Signs(b, q);
    if (a >= 0) == (b > 0) {
      QuotientBound(Abs(a), Abs(b), q);
    } else {
      QuotientBound(Abs(a), Abs(b), -q);
    }
  }

  lemma {:induction false} AtLeastTwice(k: int, n: int)
    requires k >= 2 && n >= 0
    ensures k * n >= 2 * n
  {
    assert k * n == 2 * n + (k - 2) * n;
  }

  // An integer is needed on both sides.
  lemma {:induction false} IntegersNeeded(op: string, l: Value, r: Value)
    requires op in ["-", "*", "AND", "&&", "OR", "||"] && (l.StringValue? || r.StringValue?)
    ensures Of(op, l, r) == Fail(ExpectedInteger)
  {
    OfApplies(op, l, r);
  }

  // A conjunction holds exactly if both sides do, a disjunction if one does.
  lemma {:induction false} LogicLaws(op: string, left: Expr, right: Expr, t: Tuple, columns: seq<string>)
    requires Evaluate(left, t, columns).Ok? && Evaluate(left, t, columns).value.IntValue?
    requires Evaluate(right, t, columns).Ok? && Evaluate(right, t, columns).value.IntValue?
    ensures var a, b := EvaluatePredicate(left, t, columns), EvaluatePredicate(right, t, columns);
      && a.Ok? && b.Ok?
      && (op in ["AND", "&&"] ==> EvaluatePredicate(Binary(op, left, right), t, columns) == Ok(a.value && b.value))
      && (op in ["OR", "||"] ==> EvaluatePredicate(Binary(op, left, right), t, columns) == Ok(a.value || b.value))
    ensures op in ["AND", "&&", "OR", "||"] ==>
      Evaluate(Binary(op, left, right), t, columns) in [Ok(IntValue(0)), Ok(IntValue(1))]
  {
  }

  // A row is kept for any integer but 0 and for any string.
  lemma {:induction false} PredicateOf(e: Expr, t: Tuple, columns: seq<string>)
    ensures var v := Evaluate(e, t, columns);
      && (v.Fail? ==> EvaluatePredicate(e, t, columns) == Fail(v.error))
      && (v.Ok? ==> EvaluatePredicate(e, t, columns) == Ok(v.value != IntValue(0)))
  {
  }

  // Comparisons of two integers are those of the numbers, of two strings those of the byte strings; of an integer
  // and a string none holds.
  lemma {:induction false} CompareLaws(l: Value, r: Value)
    ensures Of("=", l, r) == Ok(IntValue(if l == r then 1 else 0)) && Of("==", l, r) == Of("=", l, r)
    ensures Of("<", l, r) == Ok(IntValue(if Below(l, r) then 1 else 0))
    ensures Of(">", l, r) == Ok(IntValue(if Below(r, l) then 1 else 0))
    ensures Of("<=", l, r) == Ok(IntValue(if Below(l, r) || l == r then 1 else 0))
    ensures Of(">=", l, r) == Ok(IntValue(if Below(r, l) || l == r then 1 else 0))
  {
    OfApplies("=", l, r);
    OfApplies("==", l, r);
    OfApplies("<", l, r);
    OfApplies(">", l, r);
    OfApplies("<=", l, r);
    OfApplies(">=", l, r);
    if l.StringValue? && r.StringValue? {
      Trichotomy(l.text, r.text);
    }
  }

  predicate Below(l: Value, r: Value) {
    || (l.IntValue? && r.IntValue? && l.n < r.n)
    || (l.StringValue? && r.StringValue? && Lt(l.text, r.text))
  }

  lemma {:induction false} OthersUnknown(op: string, l: Value, r: Value)
    requires op !in ["+", "-", "*", "/", "=", "==", "<", ">", "<=", ">=", "AND", "&&", "OR", "||"]
    ensures Of(op, l, r) == Fail(UnknownOperator)
  {
    OfApplies(op, l, r);
  }

  // Decimal numerals: no leading zeros, a minus sign below zero.
  function PlaceValue(digits: Bytes): int {
    if digits == [] then 0 else 10 * PlaceValue(digits[..|digits| - 1]) + (digits[|digits| - 1] - '0' as int)
  }

  predicate Numeral(digits: Bytes, n: nat) {
    && digits != [] && (forall i :: 0 <= i < |digits| ==> '0' as int <= digits[i] <= '9' as int)
    && (|digits| > 1 ==> digits[0] != '0' as int) && PlaceValue(digits) == n
  }

  predicate Decimal(text: Bytes, n: int) {
    if n >= 0 then Numeral(text, n) else text != [] && text[0] == '-' as int && Numeral(text[1..], -n)
  }

  lemma {:induction false} DigitsAre(n: nat)
    ensures Numeral(Digits(n), n) && (n > 0 ==> Digits(n)[0] != '0' as int)
  {
    var d := Digits(n);
    if n < 10 {
      assert d == [48 + n];
      assert PlaceValue(d[..0]) == 0;
    } else {
      DigitsAre(n / 10);
      assert d[..|d| - 1] == Digits(n / 10);
    }
  }

  // Where an operand is a string, + puts the texts one after the other; an integer's text is its decimal numeral.
  lemma {:induction false} ConcatenateLaws(l: Value, r: Value)
    requires l.StringValue? || r.StringValue?
    ensures Of("+", l, r).Ok? && Of("+", l, r).value.StringValue?
    ensures l.StringValue? && r.StringValue? ==> Of("+", l, r).value.text == l.text + r.text
    ensures l.StringValue? && r.IntValue? ==>
      exists d :: Decimal(d, r.n) && Of("+", l, r).value.text == l.text + d
    ensures l.IntValue? && r.StringValue? ==>
      exists d :: Decimal(d, l.n) && Of("+", l, r).value.text == d + r.text
  {
    OfApplies("+", l, r);
    if l.IntValue? {
      ToStringIsDecimal(l.n);
    }
    if r.IntValue? {
      ToStringIsDecimal(r.n);
    }
  }

  lemma {:induction false} ToStringIsDecimal(n: int)
    ensures Decimal(ToString(n), n)
  {
    DigitsAre(Abs(n));
    if n < 0 {
      assert ToString(n)[1..] == Digits(-n);
    }
  }

  // A number has one numeral.
  lemma {:induction false} OneDecimal(a: Bytes, b: Bytes, n: int)
    requires Decimal(a, n) && Decimal(b, n)
    ensures a == b
  {
    if n >= 0 {
      OneNumeral(a, b, n);
    } else {
      OneNumeral(a[1..], b[1..], -n);
    }
  }

  lemma {:induction false} OneNumeral(a: Bytes, b: Bytes, n: nat)
    requires Numeral(a, n) && Numeral(b, n)
    ensures a == b
  {
    NumeralIs(a, n);
    NumeralIs(b, n);
  }

  lemma {:induction false} LastDigit(a: Bytes, front: Bytes, last: int, n: nat)
    requires a == front + [last + 48] && 0 <= last < 10 && PlaceValue(front) >= 0 && n == 10 * PlaceValue(front) + last
    requires if front == [] then n < 10 else n >= 10 && front == Digits(PlaceValue(front))
    ensures a == Digits(n)
  {
    assert n / 10 == PlaceValue(front) && n % 10 == last;
  }

  lemma {:induction false} NumeralIs(a: Bytes, n: nat)
    requires Numeral(a, n)
    ensures a == Digits(n)
    decreases |a|
  {
    var front, last := a[..|a| - 1], a[|a| - 1] - '0' as int;
    assert 0 <= last < 10 && n == 10 * PlaceValue(front) + last;
    if |a| == 1 {
      assert PlaceValue([]) == 0;
    } else {
      PlacePositive(front);
      NumeralIs(front, PlaceValue(front));
    }
    LastDigit(a, front, last, n);
  }

  lemma {:induction false} PlacePositive(a: Bytes)
    requires a != [] && a[0] != '0' as int && forall i :: 0 <= i < |a| ==> '0' as int <= a[i] <= '9' as int
    ensures PlaceValue(a) > 0
  {
    if |a| > 1 {
      PlacePositive(a[..|a| - 1]);
    } else {
      assert a[..0] == [];
    }
  }
}
