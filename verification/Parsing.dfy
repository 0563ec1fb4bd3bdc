// The expression parser, the grammar it is for, and how expressions are written.
module Parsing {
  import opened Lexing

  datatype Option<+T> = None | Some(value: T)

  datatype Expr =
    | IdentifierExpr(name: string)
    | NumberExpr(value: nat)
    | StringExpr(text: string)
    | BinaryExpr(op: Token, left: Expr, right: Expr)

  const INT_MAX := 0x7FFF_FFFF

  function Precedence(t: Token): nat {
    match t.kind
    case Or => 5
    case And => 10
    case Eq | Lt | Gt | LtEq | GtEq => 20
    case Plus | Minus => 30
    case Star | Slash => 40
    case _ => 0
  }

  function NumeralValue(s: string): nat
    requires forall i :: 0 <= i < |s| ==> IsDigit(s[i])
  {
    if s == "" then 0 else
      assert IsDigit(s[|s| - 1]);
      10 * NumeralValue(s[..|s| - 1]) + (s[|s| - 1] as nat - '0' as nat)
  }

  lemma {:induction false} DigitsAre(s: string)
    ensures forall i :: 0 <= i < Digits(s) ==> IsDigit(s[i])
  {
    if s != "" && IsDigit(s[0]) {
      DigitsAre(s[1..]);
      forall i | 0 <= i < Digits(s) ensures IsDigit(s[i]) {
        if i > 0 { assert s[i] == s[1..][i - 1]; }
      }
    }
  }

  // stoi: the digits at the start, if there are any and their value is an int.
  function StoI(s: string): Option<nat> {
    var n := Digits(s);
    DigitsAre(s);
    if n == 0 || NumeralValue(s[..n]) > INT_MAX then None else Some(NumeralValue(s[..n]))
  }

  // The grammar.  Operators bind in five levels and group to the left: at minimal precedence m, an expression is
  // a primary, or an operator above m between an operand of its own level and one of a higher level.
  ghost predicate Derives(ts: seq<Token>, e: Expr, m: nat)
    decreases |ts|, 1
  {
    || IsPrimary(ts, e)
    || (e.BinaryExpr? && Precedence(e.op) > m
        && exists i :: 0 <= i < |ts| && Divides(ts, e, i))
  }

  // The operator stands at position i, between its operands.
  ghost predicate Divides(ts: seq<Token>, e: Expr, i: nat)
    requires e.BinaryExpr? && i < |ts| && Precedence(e.op) > 0
    decreases |ts|, 0
  {
    ts[i] == e.op && Derives(ts[..i], e.left, Precedence(e.op) - 1) && Derives(ts[i + 1..], e.right, Precedence(e.op))
  }

  ghost predicate IsPrimary(ts: seq<Token>, e: Expr)
    decreases |ts|, 0
  {
    || (e.IdentifierExpr? && ts == [Token(Identifier, e.name)])
    || (e.NumberExpr? && |ts| == 1 && ts[0].kind == Number && StoI(ts[0].text) == Some(e.value))
    || (e.StringExpr? && ts == [Token(Text, e.text)])
    || (|ts| >= 2 && ts[0].kind == LParen && ts[|ts| - 1].kind == RParen && Derives(ts[1..|ts| - 1], e, 0))
  }

  // What is left after a token; nothing if the token after it cannot be read.
  function Eat(ts: seq<Token>): (r: Option<seq<Token>>)
    requires ts != []
    ensures r.Some? ==> r.value == ts[1..]
  {
    if |ts| > 1 && ts[1].kind == Bad then None else Some(ts[1..])
  }

  function Head(ts: seq<Token>): Token {
    if ts == [] then END else ts[0]
  }

  lemma {:induction false} HeadBinds(ts: seq<Token>)
    requires Precedence(Head(ts)) > 0
    ensures ts != [] && Head(ts) == ts[0]
  {
  }

  datatype Result = Parsed(e: Expr, rest: seq<Token>) | Error

  function After(e: Expr, rest: Option<seq<Token>>): Result {
    if rest.None? then Error else Parsed(e, rest.value)
  }

  // parse_primary.
  function ParsePrimary(ts: seq<Token>): (r: Result)
    ensures r.Parsed? ==> |r.rest| < |ts|
    decreases |ts|, 0
  {
    if ts == [] then Error
    else match ts[0].kind
      case Identifier => After(IdentifierExpr(ts[0].text), Eat(ts))
      case Number => if StoI(ts[0].text).None? then Error else After(NumberExpr(StoI(ts[0].text).value), Eat(ts))
      case Text => After(StringExpr(ts[0].text), Eat(ts))
      case LParen =>
        if Eat(ts).None? then Error
        else
          var inner := ParseExpr(ts[1..], 0);
          if inner.Error? || Head(inner.rest).kind != RParen then Error else After(inner.e, Eat(inner.rest))
      case _ => Error
  }

  lemma {:induction false} GroupParsed(ts: seq<Token>)
    requires ts != [] && ts[0].kind == LParen
    ensures ParsePrimary(ts) ==
      if Eat(ts).None? then Error
      else
        var inner := ParseExpr(ts[1..], 0);
        if inner.Error? || Head(inner.rest).kind != RParen then Error else After(inner.e, Eat(inner.rest))
  {
  }

  // parse_expr.
  function ParseExpr(ts: seq<Token>, m: nat): (r: Result)
    ensures r.Parsed? ==> |r.rest| < |ts|
    decreases |ts|, 1
  {
    var left := ParsePrimary(ts);
    if left.Error? then Error else ParseMore(left.e, left.rest, m)
  }

  // Its loop.
  function ParseMore(left: Expr, ts: seq<Token>, m: nat): (r: Result)
    ensures r.Parsed? ==> |r.rest| <= |ts|
    decreases |ts|, 2
  {
    if Precedence(Head(ts)) <= m then Parsed(left, ts)
    else if Eat(ts).None? then Error
    else
      var right := ParseExpr(ts[1..], Precedence(ts[0]));
      if right.Error? then Error else ParseMore(BinaryExpr(ts[0], left, right.e), right.rest, m)
  }

  lemma {:induction false} Weaker(ts: seq<Token>, e: Expr, m: nat, m': nat)
    requires Derives(ts, e, m) && m' <= m
    ensures Derives(ts, e, m')
  {
    if !IsPrimary(ts, e) {
      var i :| 0 <= i < |ts| && Divides(ts, e, i);
    }
  }

  lemma {:induction false} Joins(a: seq<Token>, op: Token, b: seq<Token>, left: Expr, right: Expr, m: nat)
    requires Precedence(op) > m && Derives(a, left, Precedence(op) - 1) && Derives(b, right, Precedence(op))
    ensures Derives(a + [op] + b, BinaryExpr(op, left, right), m)
  {
    var ts := a + [op] + b;
    assert ts[..|a|] == a && ts[|a| + 1..] == b;
    assert Divides(ts, BinaryExpr(op, left, right), |a|);
  }

  lemma {:induction false} MoreStops(left: Expr, ts: seq<Token>, m: nat)
    requires Precedence(Head(ts)) <= m
    ensures ParseMore(left, ts, m) == Parsed(left, ts)
  {
  }

  lemma {:induction false} MoreParsed(left: Expr, ts: seq<Token>, m: nat)
    requires ts != [] && Precedence(ts[0]) > m
    ensures ParseMore(left, ts, m) ==
      if Eat(ts).None? then Error
      else
        var right := ParseExpr(ts[1..], Precedence(ts[0]));
        if right.Error? then Error else ParseMore(BinaryExpr(ts[0], left, right.e), right.rest, m)
  {
  }

  lemma {:induction false} GroupSound(ts: seq<Token>, within: seq<Token>, e: Expr, rest: seq<Token>)
    returns (used: seq<Token>)
    requires ts != [] && ts[0].kind == LParen && ts[1..] == within + rest && Derives(within, e, 0)
    requires rest != [] && rest[0].kind == RParen
    ensures ts == used + rest[1..] && IsPrimary(used, e)
  {
    used := [ts[0]] + within + [rest[0]];
    assert used[1..|used| - 1] == within;
    assert ts == [ts[0]] + ts[1..];
  }

  // Soundness: what is parsed is what the grammar derives from the tokens used, and no operator above m follows.
  lemma {:induction false} PrimarySound(ts: seq<Token>) returns (used: seq<Token>)
    requires ParsePrimary(ts).Parsed?
    ensures ts == used + ParsePrimary(ts).rest && IsPrimary(used, ParsePrimary(ts).e)
    decreases |ts|, 0
  {
    if ts[0].kind == LParen {
      GroupParsed(ts);
      var inner := ParseExpr(ts[1..], 0);
      var within := ExprSound(ts[1..], 0);
      used := GroupSound(ts, within, inner.e, inner.rest);
    } else {
      used := [ts[0]];
    }
  }

  lemma {:induction false} ExprSound(ts: seq<Token>, m: nat) returns (used: seq<Token>)
    requires ParseExpr(ts, m).Parsed?
    ensures ts == used + ParseExpr(ts, m).rest && Derives(used, ParseExpr(ts, m).e, m)
    ensures Precedence(Head(ParseExpr(ts, m).rest)) <= m
    decreases |ts|, 1
  {
    var left := ParsePrimary(ts);
    assert left.Parsed? && ParseExpr(ts, m) == ParseMore(left.e, left.rest, m);
    assert Precedence(Head(left.rest)) <= m + 50;
    var first := PrimarySound(ts);
    var more := MoreSound(first, left.e, left.rest, m, m + 50);
    used := first + more;
    Regroup(first, more, ParseExpr(ts, m).rest);
  }

  // The loop keeps this: the tokens used so far derive `left`, whose outermost operator, unless it is in parentheses,
  // is at `bound` or above, and the next one is not above that.
  lemma {:induction false} MoreSound(used: seq<Token>, left: Expr, ts: seq<Token>, m: nat, bound: nat)
    returns (more: seq<Token>)
    requires bound > m && ParseMore(left, ts, m).Parsed?
    requires Derives(used, left, bound - 1) && Precedence(Head(ts)) <= bound
    ensures ts == more + ParseMore(left, ts, m).rest && Derives(used + more, ParseMore(left, ts, m).e, m)
    ensures Precedence(Head(ParseMore(left, ts, m).rest)) <= m
    decreases |ts|, 2
  {
    if Precedence(Head(ts)) <= m {
      more := [];
      assert ParseMore(left, ts, m) == Parsed(left, ts);
      Weaker(used, left, bound - 1, m);
      assert used + more == used && ts == more + ts;
    } else {
      HeadBinds(ts);
      more := OperandSound(used, left, ts, m, bound);
    }
  }

  lemma {:induction false} Chain(used: seq<Token>, op: seq<Token>, operand: seq<Token>, after: seq<Token>,
                                 rest: seq<Token>)
    ensures op + (operand + (after + rest)) == (op + operand + after) + rest
    ensures used + op + operand + after == used + (op + operand + after)
  {
  }

  lemma {:induction false} OperandJoins(used: seq<Token>, op: Token, operand: seq<Token>, left: Expr, right: Expr,
                                        bound: nat)
    requires 0 < Precedence(op) <= bound && Derives(used, left, bound - 1) && Derives(operand, right, Precedence(op))
    ensures Derives(used + [op] + operand, BinaryExpr(op, left, right), Precedence(op) - 1)
  {
    Weaker(used, left, bound - 1, Precedence(op) - 1);
    Joins(used, op, operand, left, right, Precedence(op) - 1);
  }

  lemma {:induction false} OperandParsed(left: Expr, ts: seq<Token>, m: nat)
    requires ts != [] && m < Precedence(ts[0]) && ParseMore(left, ts, m).Parsed?
    ensures ParseExpr(ts[1..], Precedence(ts[0])).Parsed?
    ensures var right := ParseExpr(ts[1..], Precedence(ts[0]));
      |right.rest| < |ts| - 1 && ParseMore(left, ts, m) == ParseMore(BinaryExpr(ts[0], left, right.e), right.rest, m)
  {
    MoreParsed(left, ts, m);
  }

  lemma {:induction false} OperandSound(used: seq<Token>, left: Expr, ts: seq<Token>, m: nat, bound: nat)
    returns (more: seq<Token>)
    requires ts != [] && m < Precedence(ts[0]) <= bound && ParseMore(left, ts, m).Parsed?
      && Derives(used, left, bound - 1)
    ensures ts == more + ParseMore(left, ts, m).rest && Derives(used + more, ParseMore(left, ts, m).e, m)
    ensures Precedence(Head(ParseMore(left, ts, m).rest)) <= m
    decreases |ts|, 1
  {
    var op, p := ts[0], Precedence(ts[0]);
    var right := ParseExpr(ts[1..], p);
    OperandParsed(left, ts, m);
    var operand := ExprSound(ts[1..], p);
    var used' := used + [op] + operand;
    OperandJoins(used, op, operand, left, right.e, bound);
    var after := MoreSound(used', BinaryExpr(op, left, right.e), right.rest, m, p);
    more := [op] + operand + after;
    Chain(used, [op], operand, after, ParseMore(left, ts, m).rest);
  }

  lemma {:induction false} Regroup(a: seq<Token>, b: seq<Token>, c: seq<Token>)
    ensures (a + b) + c == a + (b + c)
  {
  }

  // Completeness: derived tokens, up to one that does not bind above m, are parsed as derived.
  lemma {:induction false} ExprComplete(ts: seq<Token>, e: Expr, m: nat, rest: seq<Token>)
    requires Derives(ts, e, m) && Precedence(Head(rest)) <= m && Head(rest).kind != Bad
    ensures ParseExpr(ts + rest, m) == Parsed(e, rest)
    decreases |ts|, 2
  {
    LoopComplete(ts, e, m, rest);
  }

  // Whatever follows, the parser comes to have e as its left operand, unless an operator that follows takes part of it.
  lemma {:induction false} LoopComplete(ts: seq<Token>, e: Expr, m: nat, rest: seq<Token>)
    requires Derives(ts, e, m) && Head(rest).kind != Bad
    requires IsPrimary(ts, e) || (e.BinaryExpr? && Precedence(Head(rest)) <= Precedence(e.op))
    ensures ParseExpr(ts + rest, m) == ParseMore(e, rest, m)
    decreases |ts|, 1
  {
    if IsPrimary(ts, e) {
      PrimaryComplete(ts, e, rest);
    } else {
      var i :| 0 <= i < |ts| && Divides(ts, e, i);
      DividedComplete(ts, e, m, rest, i);
    }
  }

  lemma {:induction false} DividedComplete(ts: seq<Token>, e: Expr, m: nat, rest: seq<Token>, i: nat)
    requires e.BinaryExpr? && i < |ts| && Precedence(e.op) > m && Divides(ts, e, i)
    requires Head(rest).kind != Bad && Precedence(Head(rest)) <= Precedence(e.op)
    ensures ParseExpr(ts + rest, m) == ParseMore(e, rest, m)
    decreases |ts|, 0
  {
    var p := Precedence(e.op);
    var L, R := ts[..i], ts[i + 1..];
    var tail := [e.op] + (R + rest);
    assert ts + rest == L + tail;
    Weaker(L, e.left, p - 1, m);
    LoopComplete(L, e.left, m, tail);
    NonEmpty(R, e.right, p);
    assert tail[1..] == R + rest;
    ExprComplete(R, e.right, p, rest);
  }

  lemma {:induction false} PrimaryComplete(ts: seq<Token>, e: Expr, rest: seq<Token>)
    requires IsPrimary(ts, e) && Head(rest).kind != Bad
    ensures ParsePrimary(ts + rest) == Parsed(e, rest) && ts != []
    decreases |ts|, 0
  {
    if |ts| == 1 {
      assert (ts + rest)[1..] == rest;
    } else {
      GroupComplete(ts, e, rest);
    }
  }

  lemma {:induction false} GroupAround(ts: seq<Token>, e: Expr, tail: seq<Token>)
    requires |ts| > 1 && ts[0].kind == LParen && ts[1].kind != Bad && ParseExpr(ts[1..], 0) == Parsed(e, tail)
    requires tail != [] && tail[0].kind == RParen && Head(tail[1..]).kind != Bad
    ensures ParsePrimary(ts) == Parsed(e, tail[1..])
  {
  }

  lemma {:induction false} GroupComplete(ts: seq<Token>, e: Expr, rest: seq<Token>)
    requires |ts| >= 2 && ts[0].kind == LParen && ts[|ts| - 1].kind == RParen && Derives(ts[1..|ts| - 1], e, 0)
      && Head(rest).kind != Bad
    ensures ParsePrimary(ts + rest) == Parsed(e, rest)
    decreases |ts| - 1, 3
  {
    var all, inner := ts + rest, ts[1..|ts| - 1];
    var tail := [ts[|ts| - 1]] + rest;
    assert all[1..] == inner + tail && tail[1..] == rest;
    ExprComplete(inner, e, 0, tail);
    NonEmpty(inner, e, 0);
    GroupAround(all, e, tail);
  }

  lemma {:induction false} NonEmpty(ts: seq<Token>, e: Expr, m: nat)
    requires Derives(ts, e, m)
    ensures ts != [] && ts[0].kind != Bad
  {
    if !IsPrimary(ts, e) {
      var i :| 0 <= i < |ts| && Divides(ts, e, i);
      NonEmpty(ts[..i], e.left, Precedence(e.op) - 1);
    }
  }

  // The parser accepts exactly what the grammar derives.
  lemma {:induction false} ParsesGrammar(ts: seq<Token>, m: nat, e: Expr)
    ensures ParseExpr(ts, m) == Parsed(e, []) <==> Derives(ts, e, m)
  {
    if ParseExpr(ts, m) == Parsed(e, []) {
      var used := ExprSound(ts, m);
      assert used + [] == used;
    }
    if Derives(ts, e, m) {
      ExprComplete(ts, e, m, []);
      assert ts + [] == ts;
    }
  }

  // No tokens stand for two expressions.
  lemma {:induction false} Unambiguous(ts: seq<Token>, m: nat, e: Expr, e': Expr)
    requires Derives(ts, e, m) && Derives(ts, e', m)
    ensures e == e'
  {
    ParsesGrammar(ts, m, e);
    ParsesGrammar(ts, m, e');
  }

  // Decimal numerals.
  function Decimal(v: nat): (s: string)
    ensures |s| > 0 && forall i :: 0 <= i < |s| ==> IsDigit(s[i])
  {
    var d := [('0' as nat + v % 10) as char];
    if v < 10 then d else Decimal(v / 10) + d
  }

  lemma {:induction false} DecimalValue(v: nat)
    ensures NumeralValue(Decimal(v)) == v
  {
    var s := Decimal(v);
    if v < 10 {
      assert s[..0] == "" && NumeralValue(s[..0]) == 0;
    } else {
      DecimalValue(v / 10);
      assert s[..|s| - 1] == Decimal(v / 10);
    }
  }

  lemma {:induction false} AllDigits(s: string, more: string)
    requires (forall i :: 0 <= i < |s| ==> IsDigit(s[i])) && (more == "" || !IsDigit(more[0]))
    ensures Digits(s + more) == |s|
  {
    if s == "" {
      assert s + more == more;
    } else {
      assert (s + more)[1..] == s[1..] + more;
      AllDigits(s[1..], more);
    }
  }

  // An expression as the program can build it.
  predicate Buildable(e: Expr) {
    match e
    case IdentifierExpr(_) => true
    case NumberExpr(v) => v <= INT_MAX
    case StringExpr(_) => true
    case BinaryExpr(op, l, r) => Precedence(op) > 0 && Buildable(l) && Buildable(r)
  }

  // An expression written with parentheses only where they are needed.
  function Written(e: Expr, m: nat): seq<Token>
    requires Buildable(e)
  {
    match e
    case IdentifierExpr(name) => [Token(Identifier, name)]
    case NumberExpr(v) => [Token(Number, Decimal(v))]
    case StringExpr(text) => [Token(Text, text)]
    case BinaryExpr(op, l, r) =>
      var body := Written(l, Precedence(op) - 1) + [op] + Written(r, Precedence(op));
      if Precedence(op) > m then body else [Token(LParen, "(")] + body + [Token(RParen, ")")]
  }

  lemma {:induction false} WrittenDerives(e: Expr, m: nat)
    requires Buildable(e)
    ensures Derives(Written(e, m), e, m)
    decreases e
  {
    match e
    case IdentifierExpr(_) =>
    case StringExpr(_) =>
    case NumberExpr(v) =>
      AllDigits(Decimal(v), "");
      assert Decimal(v) + "" == Decimal(v) && Decimal(v)[..|Decimal(v)|] == Decimal(v);
      DecimalValue(v);
    case BinaryExpr(op, l, r) =>
      var p := Precedence(op);
      WrittenDerives(l, p - 1);
      WrittenDerives(r, p);
      var body := Written(l, p - 1) + [op] + Written(r, p);
      Joins(Written(l, p - 1), op, Written(r, p), l, r, if p > m then m else 0);
      if p <= m {
        var ts := [Token(LParen, "(")] + body + [Token(RParen, ")")];
        assert ts[1..|ts| - 1] == body;
      }
  }

  // No way of writing an expression is shorter.
  lemma {:induction false} WrittenShortest(ts: seq<Token>, e: Expr, m: nat)
    requires Buildable(e) && Derives(ts, e, m)
    ensures |Written(e, m)| <= |ts|
    decreases |ts|
  {
    if IsPrimary(ts, e) {
      if |ts| >= 2 && e.BinaryExpr? {
        WrittenShortest(ts[1..|ts| - 1], e, 0);
      }
    } else {
      var i :| 0 <= i < |ts| && Divides(ts, e, i);
      WrittenShortest(ts[..i], e.left, Precedence(e.op) - 1);
      WrittenShortest(ts[i + 1..], e.right, Precedence(e.op));
    }
  }

  // Writing and parsing gives the expression back, and what follows it.
  lemma {:induction false} WriteParse(e: Expr, rest: seq<Token>)
    requires Buildable(e) && Precedence(Head(rest)) == 0 && Head(rest).kind != Bad
    ensures ParseExpr(Written(e, 0) + rest, 0) == Parsed(e, rest)
  {
    WrittenDerives(e, 0);
    ExprComplete(Written(e, 0), e, 0, rest);
  }

  // A token of an expression as it can stand in a text.
  predicate Spellable(t: Token) {
    match t.kind
    case Identifier => t.text != "" && IsWordStart(t.text[0]) && AllWord(t.text) && Upper(t.text) != "AUTO_INCREMENT"
                       && Keyword(Upper(t.text)) == Identifier
    case And | Or => t.text != "" && IsWordStart(t.text[0]) && AllWord(t.text) && Keyword(Upper(t.text)) == t.kind
    case Number => t.text != "" && forall i :: 0 <= i < |t.text| ==> IsDigit(t.text[i])
    case Text => Quotable(t.text)
    case Plus => t.text == "+"
    case Minus => t.text == "-"
    case Star => t.text == "*"
    case Slash => t.text == "/"
    case Eq => t.text == "="
    case Lt => t.text == "<"
    case Gt => t.text == ">"
    case LtEq => t.text == "<="
    case GtEq => t.text == ">="
    case LParen => t.text == "("
    case RParen => t.text == ")"
    case _ => false
  }

  predicate AllWord(s: string) {
    forall i :: 0 <= i < |s| ==> IsWord(s[i])
  }

  // No quote but after a backslash, and no backslash at the end.
  predicate Quotable(s: string) {
    s == "" || (s[0] != '\'' && (if s[0] == '\\' then |s| > 1 && Quotable(s[2..]) else Quotable(s[1..])))
  }

  function Spelling(t: Token): string {
    if t.kind == Text then "'" + t.text + "'" else t.text
  }

  // Tokens with a space after each.
  function Spelled(ts: seq<Token>): string {
    if ts == [] then "" else Spelling(ts[0]) + " " + Spelled(ts[1..])
  }

  lemma {:induction false} WordLengthAt(s: string, more: string)
    requires AllWord(s) && (more == "" || !IsWord(more[0]))
    ensures WordLength(s + more) == |s|
  {
    if s == "" {
      assert s + more == more;
    } else {
      assert (s + more)[1..] == s[1..] + more;
      WordLengthAt(s[1..], more);
    }
  }

  lemma {:induction false} QuotedAt(s: string, more: string)
    requires Quotable(s) && more != "" && more[0] == '\''
    ensures Quoted(s + more) == |s|
    decreases |s|
  {
    if s == "" {
      assert s + more == more;
    } else if s[0] == '\\' {
      assert (s + more)[2..] == s[2..] + more;
      QuotedAt(s[2..], more);
    } else {
      assert (s + more)[1..] == s[1..] + more;
      QuotedAt(s[1..], more);
    }
  }

  lemma {:induction false} LexAtOnce(s: string)
    requires s != "" && !IsSpace(s[0])
    ensures Lex(s) == Start(s)
  {
    assert s[0..] == s;
  }

  lemma {:induction false} TextRead(text: string, rest: string)
    requires Quotable(text)
    ensures Start("'" + text + "'" + rest) == Lexeme(Token(Text, text), |text| + 2)
  {
    var s := "'" + text + "'" + rest;
    assert s[1..] == text + ("'" + rest);
    QuotedAt(text, "'" + rest);
    assert s[1..|text| + 1] == text;
  }

  lemma {:induction false} NumberRead(text: string, rest: string)
    requires text != "" && (forall i :: 0 <= i < |text| ==> IsDigit(text[i])) && rest != "" && rest[0] == ' '
    ensures Start(text + rest) == Lexeme(Token(Number, text), |text|)
  {
    var s := text + rest;
    AllDigits(text, rest);
    assert s[0] == text[0] && s[|text|] == ' ' && s[..|text|] == text;
  }

  lemma {:induction false} WordRead(t: Token, rest: string)
    requires Spellable(t) && (t.kind == Identifier || t.kind == And || t.kind == Or) && rest != "" && rest[0] == ' '
    ensures Start(t.text + rest) == Lexeme(t, |t.text|)
  {
    var s := t.text + rest;
    WordLengthAt(t.text, rest);
    assert s[0] == t.text[0] && s[..|t.text|] == t.text;
  }

  lemma {:induction false} SymbolRead(t: Token, rest: string)
    requires Spellable(t) && t.kind != Identifier && t.kind != And && t.kind != Or && t.kind != Number && t.kind != Text
    requires rest != "" && rest[0] == ' '
    ensures Start(t.text + rest) == Lexeme(t, |t.text|)
  {
    var s := t.text + rest;
    assert s[0] == t.text[0] && s[|t.text|] == ' ' && s[..|t.text|] == t.text;
    if |t.text| > 1 { assert s[1] == t.text[1]; }
  }

  lemma {:induction false} TokenRead(t: Token, rest: string)
    requires Spellable(t) && rest != "" && rest[0] == ' '
    ensures Lex(Spelling(t) + rest) == Lexeme(t, |Spelling(t)|)
  {
    match t.kind {
      case Text =>
        TextRead(t.text, rest);
      case Number =>
        NumberRead(t.text, rest);
      case Identifier | And | Or =>
        WordRead(t, rest);
      case _ =>
        SymbolRead(t, rest);
    }
    assert (Spelling(t) + rest)[0] == Spelling(t)[0];
    LexAtOnce(Spelling(t) + rest);
  }

  lemma {:induction false} SpaceSkipped(s: string)
    ensures Lex(" " + s) == Lexeme(Lex(s).token, Lex(s).length + 1)
  {
    var t := " " + s;
    assert t[1..] == s;
    var n := Spaces(s);
    assert Spaces(t) == n + 1;
    assert t[n + 1..] == s[n..];
  }

  lemma {:induction false} TokensStep(s: string, l: Lexeme)
    requires Lex(s) == l && l.token.kind != End && l.token.kind != Bad
    ensures l.length <= |s| && Tokens(s) == [l.token] + Tokens(s[l.length..])
  {
    LexAdvances(s);
  }

  lemma {:induction false} SpelledNone()
    ensures Tokens(Spelled([])) == []
  {
    assert Lex("") == Lexeme(END, 0);
  }

  lemma {:induction false} SpelledFirst(ts: seq<Token>)
    requires ts != [] && Spellable(ts[0]) && Tokens(" " + Spelled(ts[1..])) == ts[1..]
    ensures Tokens(Spelled(ts)) == ts
  {
    FirstTokenRead(ts[0], Spelled(ts[1..]));
    assert ts == [ts[0]] + ts[1..];
  }

  // What is spelled is read back, token by token.
  lemma {:induction false} SpelledRead(ts: seq<Token>)
    requires forall i :: 0 <= i < |ts| ==> Spellable(ts[i])
    ensures Tokens(Spelled(ts)) == ts && Tokens(" " + Spelled(ts)) == ts
    decreases |ts|
  {
    if ts == [] {
      SpelledNone();
    } else {
      SpelledRead(ts[1..]);
      SpelledFirst(ts);
    }
    SpaceTokens(Spelled(ts));
  }

  lemma {:induction false} TokensBehind(w: string, t: Token, rest: string)
    requires Lex(w + rest) == Lexeme(t, |w|) && t.kind != End && t.kind != Bad
    ensures Tokens(w + rest) == [t] + Tokens(rest)
  {
    assert (w + rest)[|w|..] == rest;
    TokensStep(w + rest, Lexeme(t, |w|));
  }

  lemma {:induction false} FirstTokenRead(t: Token, more: string)
    requires Spellable(t)
    ensures Tokens(Spelling(t) + " " + more) == [t] + Tokens(" " + more)
  {
    var w, rest := Spelling(t), " " + more;
    assert w + " " + more == w + rest;
    TokenRead(t, rest);
    SpellableKind(t);
    TokensBehind(w, t, rest);
  }

  lemma {:induction false} SpaceTokens(s: string)
    ensures Tokens(" " + s) == Tokens(s)
  {
    SpaceSkipped(s);
    LexAdvances(s);
    assert (" " + s)[Lex(s).length + 1..] == s[Lex(s).length..];
  }

  lemma {:induction false} SpellableKind(t: Token)
    requires Spellable(t)
    ensures t.kind != End && t.kind != Bad
  {
  }

  // An expression whose names, strings and operators can be spelled.
  predicate Writable(e: Expr) {
    match e
    case IdentifierExpr(name) => Spellable(Token(Identifier, name))
    case NumberExpr(v) => v <= INT_MAX
    case StringExpr(text) => Quotable(text)
    case BinaryExpr(op, l, r) => Precedence(op) > 0 && Spellable(op) && Writable(l) && Writable(r)
  }

  lemma {:induction false} AllSpellable(l: seq<Token>, op: Token, r: seq<Token>)
    requires (forall i :: 0 <= i < |l| ==> Spellable(l[i])) && Spellable(op) && forall i :: 0 <= i < |r| ==>
      Spellable(r[i])
    ensures var body := l + [op] + r;
      (forall i :: 0 <= i < |body| ==> Spellable(body[i]))
      && forall i :: 0 <= i < |body| + 2 ==> Spellable(([Token(LParen, "(")] + body + [Token(RParen, ")")])[i])
  {
    assert Spellable(Token(LParen, "(")) && Spellable(Token(RParen, ")"));
  }

  lemma {:induction false} WrittenSpellable(e: Expr, m: nat)
    requires Writable(e)
    ensures Buildable(e) && forall i :: 0 <= i < |Written(e, m)| ==> Spellable(Written(e, m)[i])
    decreases e
  {
    if e.BinaryExpr? {
      WrittenSpellable(e.left, Precedence(e.op) - 1);
      WrittenSpellable(e.right, Precedence(e.op));
      var l, r := Written(e.left, Precedence(e.op) - 1), Written(e.right, Precedence(e.op));
      AllSpellable(l, e.op, r);
    }
  }

  // An expression spelled out as text is read and parsed back.
  lemma {:induction false} TextRoundTrip(e: Expr)
    requires Writable(e)
    ensures Buildable(e) && ParseExpr(Tokens(Spelled(Written(e, 0))), 0) == Parsed(e, [])
  {
    WrittenSpellable(e, 0);
    var ts := Written(e, 0);
    assert ts + [] == ts;
    assert Tokens(Spelled(ts)) == ts by {
      SpelledRead(ts);
    }
    WriteParse(e, []);
  }
}
