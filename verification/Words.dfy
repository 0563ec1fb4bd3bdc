// Which characters make which token, told from a table.
module Words {
  import opened Lexing
  import opened Parsing

  const WORDS: seq<(string, Kind)> := [
    ("SELECT", Select), ("FROM", From), ("WHERE", Where), ("AND", And), ("OR", Or), ("ORDER", OrderBy),
    ("GROUP", GroupBy), ("BY", By), ("CREATE", Create), ("DATABASE", Database), ("TABLE", Table), ("IN", In),
    ("PRIMARY", Primary), ("KEY", Key), ("UNIQUE", Unique), ("NOT", Not), ("NULL", Null), ("AUTO", Auto),
    ("INCREMENT", Increment), ("INSERT", Insert), ("INTO", Into), ("VALUES", Values), ("UPDATE", Update), ("SET", Set),
    ("DELETE", Delete), ("USE", Use), ("EXIT", Exit), ("QUIT", Exit)]

  // Longer symbols first.
  const SYMBOLS: seq<(string, Kind)> := [
    ("<=", LtEq), (">=", GtEq), ("<", Lt), (">", Gt), ("=", Eq), ("+", Plus), ("-", Minus), ("*", Star), ("/", Slash),
    (",", Comma), (";", Semicolon), ("(", LParen), (")", RParen)]

  predicate Letter(c: char) {
    65 <= c as int <= 90 || 97 <= c as int <= 122 || c as int == 95
  }

  predicate Digit(c: char) {
    48 <= c as int <= 57
  }

  predicate Space(c: char) {
    c as int in {32, 9, 10, 11, 12, 13}
  }

  // The same letters, capital or small.
  predicate Spells(w: string, capitals: string) {
    |w| == |capitals|
    && forall i :: 0 <= i < |w| ==>
         w[i] == capitals[i] || (65 <= capitals[i] as int <= 90 && w[i] as int == capitals[i] as int + 32)
  }

  predicate AllDigit(s: string) {
    forall i :: 0 <= i < |s| ==> Digit(s[i])
  }

  // A word, up to where no letter, digit or underscore follows.
  predicate WordIn(w: string, rest: string) {
    && w != "" && Letter(w[0]) && (forall i :: 0 <= i < |w| ==> Letter(w[i]) || Digit(w[i]))
    && (rest == "" || !(Letter(rest[0]) || Digit(rest[0])))
  }

  predicate Capitals(s: string) {
    forall i :: 0 <= i < |s| ==> !('a' <= s[i] <= 'z')
  }

  lemma {:induction false} UpperIs(w: string, capitals: string)
    requires Capitals(capitals)
    ensures Spells(w, capitals) <==> Upper(w) == capitals
  {
    if Upper(w) == capitals {
      forall i | 0 <= i < |w|
        ensures w[i] == capitals[i] || (65 <= capitals[i] as int <= 90 && w[i] as int == capitals[i] as int + 32)
      {
        assert Upper(w)[i] == capitals[i];
      }
    }
    if Spells(w, capitals) {
      forall i | 0 <= i < |w| ensures Upper(w)[i] == capitals[i] {
      }
    }
  }

  lemma {:induction false} WordsAreCapitals(i: nat)
    requires i < |WORDS|
    ensures Capitals(WORDS[i].0)
  {
  }

  lemma {:induction false} Keywords1(i: nat)
    requires 0 <= i < 7
    ensures Keyword(WORDS[i].0) == WORDS[i].1
  {
    assert Keyword("SELECT") == Select;
    assert Keyword("FROM") == From;
    assert Keyword("WHERE") == Where;
    assert Keyword("AND") == And;
    assert Keyword("OR") == Or;
    assert Keyword("ORDER") == OrderBy;
    assert Keyword("GROUP") == GroupBy;
  }

  lemma {:induction false} Keywords2(i: nat)
    requires 7 <= i < 14
    ensures Keyword(WORDS[i].0) == WORDS[i].1
  {
    assert Keyword("BY") == By;
    assert Keyword("CREATE") == Create;
    assert Keyword("DATABASE") == Database;
    assert Keyword("TABLE") == Table;
    assert Keyword("IN") == In;
    assert Keyword("PRIMARY") == Primary;
    assert Keyword("KEY") == Key;
  }

  lemma {:induction false} Keywords3(i: nat)
    requires 14 <= i < 21
    ensures Keyword(WORDS[i].0) == WORDS[i].1
  {
    assert Keyword("UNIQUE") == Unique;
    assert Keyword("NOT") == Not;
    assert Keyword("NULL") == Null;
    assert Keyword("AUTO") == Auto;
    assert Keyword("INCREMENT") == Increment;
    assert Keyword("INSERT") == Insert;
    assert Keyword("INTO") == Into;
  }

  lemma {:induction false} Keywords4(i: nat)
    requires 21 <= i < 28
    ensures Keyword(WORDS[i].0) == WORDS[i].1
  {
    assert Keyword("VALUES") == Values;
    assert Keyword("UPDATE") == Update;
    assert Keyword("SET") == Set;
    assert Keyword("DELETE") == Delete;
    assert Keyword("USE") == Use;
    assert Keyword("EXIT") == Exit;
    assert Keyword("QUIT") == Exit;
  }

  lemma {:induction false} WordsAreKeywords(i: nat)
    requires i < |WORDS|
    ensures Keyword(WORDS[i].0) == WORDS[i].1
  {
    if i < 7 {
      Keywords1(i);
    } else if i < 14 {
      Keywords2(i);
    } else if i < 21 {
      Keywords3(i);
    } else {
      Keywords4(i);
    }
  }

  lemma {:induction false} OthersIdentify(s: string)
    requires forall i :: 0 <= i < |WORDS| ==> s != WORDS[i].0
    ensures Keyword(s) == Identifier
  {
    assert s != WORDS[0].0 && s != WORDS[1].0 && s != WORDS[2].0 && s != WORDS[3].0 && s != WORDS[4].0
      && s != WORDS[5].0;
    assert s != WORDS[6].0 && s != WORDS[7].0 && s != WORDS[8].0 && s != WORDS[9].0 && s != WORDS[10].0
      && s != WORDS[11].0;
    assert s != WORDS[12].0 && s != WORDS[13].0 && s != WORDS[14].0 && s != WORDS[15].0 && s != WORDS[16].0
      && s != WORDS[17].0;
    assert s != WORDS[18].0 && s != WORDS[19].0 && s != WORDS[20].0 && s != WORDS[21].0 && s != WORDS[22].0
      && s != WORDS[23].0;
    assert s != WORDS[24].0 && s != WORDS[25].0 && s != WORDS[26].0 && s != WORDS[27].0;
  }

  // A word is the token of the table that spells it, and otherwise an identifier; AUTO_INCREMENT is cut in two.
  lemma {:induction false} WordToken(w: string, rest: string)
    requires WordIn(w, rest)
    ensures Spells(w, "AUTO_INCREMENT") ==> Lex(w + rest) == Lexeme(Token(Auto, "AUTO"), 5)
    ensures !Spells(w, "AUTO_INCREMENT") ==> Lex(w + rest).length == |w| && Lex(w + rest).token.text == w
    ensures !Spells(w, "AUTO_INCREMENT") ==>
      forall i :: 0 <= i < |WORDS| && Spells(w, WORDS[i].0) ==> Lex(w + rest).token.kind == WORDS[i].1
    ensures !Spells(w, "AUTO_INCREMENT") && (forall i :: 0 <= i < |WORDS| ==> !Spells(w, WORDS[i].0)) ==>
      Lex(w + rest).token.kind == Identifier
  {
    var s := w + rest;
    WordLengthAt(w, rest);
    assert s[0] == w[0] && s[..|w|] == w;
    LexAtOnce(s);
    UpperIs(w, "AUTO_INCREMENT");
    forall i | 0 <= i < |WORDS| ensures Spells(w, WORDS[i].0) <==> Upper(w) == WORDS[i].0 {
      WordsAreCapitals(i);
      UpperIs(w, WORDS[i].0);
    }
    forall i | 0 <= i < |WORDS| && Spells(w, WORDS[i].0) ensures Keyword(Upper(w)) == WORDS[i].1 {
      WordsAreKeywords(i);
    }
    if forall i :: 0 <= i < |WORDS| ==> !Spells(w, WORDS[i].0) {
      OthersIdentify(Upper(w));
    }
  }

  // A symbol is one of two characters where it can be.
  predicate SymbolIn(w: string, rest: string) {
    |w| == 1 && (w == "<" || w == ">") ==> rest == "" || rest[0] != '='
  }

  lemma {:induction false} SymbolToken(i: nat, rest: string)
    requires i < |SYMBOLS| && SymbolIn(SYMBOLS[i].0, rest)
    ensures var (w, kind) := SYMBOLS[i];
      Lex(w + rest) == Lexeme(Token(kind, w), |w|)
  {
    var w := SYMBOLS[i].0;
    var s := w + rest;
    assert s[0] == w[0] && (|w| == 2 ==> s[1] == w[1]) && (|w| == 1 && rest != "" ==> s[1] == rest[0]);
    LexAtOnce(s);
  }

  // Digits, with a fraction if a point follows.
  lemma {:induction false} WholeToken(whole: string, rest: string)
    requires whole != "" && AllDigit(whole) && (rest == "" || (!Digit(rest[0]) && rest[0] != '.'))
    ensures Lex(whole + rest) == Lexeme(Token(Number, whole), |whole|)
  {
    DigitsEnd(whole, rest);
    assert (whole + rest)[0] == whole[0] && (whole + rest)[..|whole|] == whole;
    LexAtOnce(whole + rest);
  }

  lemma {:induction false} FractionToken(whole: string, fraction: string, rest: string)
    requires whole != "" && AllDigit(whole) && AllDigit(fraction) && (rest == "" || !Digit(rest[0]))
    ensures Lex(whole + ("." + fraction + rest)) ==
      Lexeme(Token(Number, whole + "." + fraction), |whole| + 1 + |fraction|)
  {
    var tail := "." + fraction + rest;
    var s := whole + tail;
    DigitsEnd(whole, tail);
    DigitsEnd(fraction, rest);
    assert tail[1..] == fraction + rest;
    assert s[|whole|] == '.' && s[|whole| + 1..] == tail[1..] && s[0] == whole[0];
    assert s[..|whole| + 1 + |fraction|] == whole + "." + fraction;
    LexAtOnce(s);
  }

  lemma {:induction false} DigitsEnd(s: string, rest: string)
    requires AllDigit(s) && (rest == "" || !Digit(rest[0]))
    ensures Digits(s + rest) == |s|
  {
    if s == "" {
      assert s + rest == rest;
    } else {
      assert (s + rest)[1..] == s[1..] + rest;
      DigitsEnd(s[1..], rest);
    }
  }

  // A quoted text has no quote but behind a backslash, and no backslash with nothing behind it.
  predicate Quoting(text: string) {
    text == ""
    || (text[0] as int == 92 && |text| > 1 && Quoting(text[2..]))
    || (text[0] as int != 92 && text[0] as int != 39 && Quoting(text[1..]))
  }

  lemma {:induction false} TextToken(text: string, rest: string)
    requires Quoting(text)
    ensures Lex("'" + text + "'" + rest) == Lexeme(Token(Text, text), |text| + 2)
  {
    QuotingIs(text);
    TextRead(text, rest);
    LexAtOnce("'" + text + "'" + rest);
  }

  lemma {:induction false} QuotingIs(text: string)
    ensures Quoting(text) ==> Quotable(text)
    decreases |text|
  {
    if text != "" {
      QuotingIs(text[1..]);
      if |text| > 1 {
        QuotingIs(text[2..]);
      }
    }
  }

  // One that does not end cannot be read.
  lemma {:induction false} OpenText(text: string)
    requires Quoting(text)
    ensures Lex("'" + text).token == BAD
  {
    QuotingOpen(text);
    var s := "'" + text;
    assert s[1..] == text;
    LexAtOnce(s);
  }

  lemma {:induction false} QuotingOpen(text: string)
    requires Quoting(text)
    ensures Quoted(text) == |text|
    decreases |text|
  {
    if text != "" {
      if text[0] as int == 92 {
        QuotingOpen(text[2..]);
      } else {
        QuotingOpen(text[1..]);
      }
    }
  }

  predicate BeginsSymbol(c: char) {
    exists i :: 0 <= i < |SYMBOLS| && SYMBOLS[i].0[0] == c
  }

  // Spaces are passed over; any other character cannot be read, and there may be nothing left.
  lemma {:induction false} OtherToken(c: char, rest: string)
    ensures Space(c) ==> Lex([c] + rest) == Lexeme(Lex(rest).token, Lex(rest).length + 1)
    ensures !Space(c) && !Letter(c) && !Digit(c) && c as int != 39 && !BeginsSymbol(c) ==> Lex([c] + rest).token == BAD
    ensures Lex("") == Lexeme(END, 0)
  {
    var s := [c] + rest;
    assert s[1..] == rest;
    if Space(c) {
      var n := Spaces(rest);
      assert s[n + 1..] == rest[n..];
    } else {
      LexAtOnce(s);
      assert SYMBOLS[0].0[0] == '<' && SYMBOLS[1].0[0] == '>' && SYMBOLS[4].0[0] == '=' && SYMBOLS[5].0[0] == '+';
      assert SYMBOLS[6].0[0] == '-' && SYMBOLS[7].0[0] == '*' && SYMBOLS[8].0[0] == '/' && SYMBOLS[9].0[0] == ',';
      assert SYMBOLS[10].0[0] == ';' && SYMBOLS[11].0[0] == '(' && SYMBOLS[12].0[0] == ')';
    }
  }

  function DecimalValue(s: string): nat
    requires AllDigit(s)
  {
    if s == "" then 0 else
      assert Digit(s[|s| - 1]);
      10 * DecimalValue(s[..|s| - 1]) + (s[|s| - 1] as nat - 48)
  }

  lemma {:induction false} ValueSame(s: string)
    requires AllDigit(s)
    ensures (forall i :: 0 <= i < |s| ==> IsDigit(s[i])) && NumeralValue(s) == DecimalValue(s)
  {
    forall i | 0 <= i < |s| ensures IsDigit(s[i]) {
      assert Digit(s[i]);
    }
    if s != "" {
      ValueSame(s[..|s| - 1]);
    }
  }

  lemma {:induction false} DigitsThen(whole: string, rest: string)
    requires whole != "" && AllDigit(whole) && (rest == "" || rest[0] == '.')
    ensures StoI(whole + rest) == if DecimalValue(whole) <= 2147483647 then Some(DecimalValue(whole)) else None
  {
    DigitsEnd(whole, rest);
    ValueSame(whole);
    assert (whole + rest)[..|whole|] == whole;
  }

  lemma {:induction false} OneNumber(t: Token)
    requires t.kind == Number
    ensures ParseExpr([t], 0) ==
      if StoI(t.text).None? then Error else Parsed(NumberExpr(StoI(t.text).value), [])
  {
    assert [t][1..] == [];
    if StoI(t.text).Some? {
      MoreStops(NumberExpr(StoI(t.text).value), [], 0);
    }
  }

  // A number is read up to its point, and is refused beyond 32 bits.
  lemma {:induction false} NumberValue(whole: string, rest: string)
    requires whole != "" && AllDigit(whole) && (rest == "" || rest[0] == '.')
    ensures ParseExpr([Token(Number, whole + rest)], 0) ==
      if DecimalValue(whole) <= 2147483647 then Parsed(NumberExpr(DecimalValue(whole)), []) else Error
  {
    DigitsThen(whole, rest);
    OneNumber(Token(Number, whole + rest));
  }
}
