// The parser over a text: one token is looked at, the lexer has the rest.
module ParserClass {
  import opened Lexing
  import opened Parsing
  import P = Parsing

  // Whether the first token of a text can be read, and what follows it.
  lemma {:induction false} TokensOf(s: string)
    ensures Lex(s).length <= |s|
    ensures Head(Tokens(s)).kind == Lex(s).token.kind
    ensures Lex(s).token.kind != Bad ==>
      Tokens(s) == if Lex(s).token.kind == End then [] else [Lex(s).token] + Tokens(s[Lex(s).length..])
  {
    LexAdvances(s);
  }

  class Parser {
    const lexer: Lexer
    var current: Token

    ghost predicate Valid()
      reads this, lexer
    {
      lexer.Valid() && current.kind != Bad
    }

    // The tokens from the current one on.
    ghost function Stream(): seq<Token>
      reads this, lexer
      requires lexer.Valid()
    {
      if current.kind == End then [] else [current] + Tokens(lexer.input[lexer.pos..])
    }

    // The program throws if the first token cannot be read.
    constructor (s: string)
      ensures fresh(lexer) && lexer.Valid() && Head(Tokens(s)).kind == current.kind
      ensures current.kind != Bad ==> Valid() && Stream() == Tokens(s)
    {
      lexer := new Lexer(s);
      current := END;
      new;
      assert s[0..] == s;
      TokensOf(s);
      current := lexer.Next();
      assert current.kind != Bad ==> lexer.input[lexer.pos..] == s[Lex(s).length..];
    }

    // False where the program throws: another token is expected, or the next cannot be read.
    method Eat(kind: Kind) returns (ok: bool)
      requires Valid() && kind != End
      modifies this, lexer
      ensures lexer.Valid()
      ensures ok <==> old(current).kind == kind && P.Eat(old(Stream())).Some?
      ensures ok ==> Valid() && Stream() == old(Stream())[1..]
    {
      if current.kind != kind {
        return false;
      }
      ok := Advance();
    }

    method Advance() returns (ok: bool)
      requires Valid() && current.kind != End
      modifies this, lexer
      ensures lexer.Valid() && ok == P.Eat(old(Stream())).Some?
      ensures ok ==> Valid() && Stream() == old(Stream())[1..]
    {
      ghost var text := lexer.input[lexer.pos..];
      TokensOf(text);
      assert Stream()[1..] == Tokens(text);
      current := lexer.Next();
      ok := current.kind != Bad;
      assert ok ==> lexer.input[lexer.pos..] == text[Lex(text).length..];
    }

    // None where the program throws.
    method ParseExpr(minPrec: nat) returns (e: Option<Expr>)
      requires Valid()
      modifies this, lexer
      ensures lexer.Valid()
      ensures P.ParseExpr(old(Stream()), minPrec).Error? ==> e == None
      ensures P.ParseExpr(old(Stream()), minPrec).Parsed? ==>
        e == Some(P.ParseExpr(old(Stream()), minPrec).e) && Valid()
          && Stream() == P.ParseExpr(old(Stream()), minPrec).rest
      decreases |Stream()|, 2
    {
      ghost var result := P.ParseExpr(Stream(), minPrec);
      e := ParsePrimary();
      while e.Some? && Precedence(current) > minPrec
        invariant lexer.Valid() && (e.Some? ==> Valid() && |Stream()| < |old(Stream())|)
        invariant if e.Some? then result == ParseMore(e.value, Stream(), minPrec) else result == Error
        decreases e.Some?, if e.Some? then |Stream()| else 0
      {
        e := ParseOperation(e.value, minPrec);
      }
      if e.Some? {
        assert Head(Stream()).kind == current.kind;
        MoreStops(e.value, Stream(), minPrec);
      }
    }

    // An operator and its right operand.
    method ParseOperation(left: Expr, ghost minPrec: nat) returns (e: Option<Expr>)
      requires Valid() && Precedence(current) > minPrec
      modifies this, lexer
      ensures lexer.Valid()
      ensures e.Some? ==> Valid() && |Stream()| < |old(Stream())|
      ensures ParseMore(left, old(Stream()), minPrec) == if e.Some?
        then ParseMore(e.value, Stream(), minPrec) else Error
      decreases |Stream()|, 0
    {
      var op := current;
      MoreParsed(left, Stream(), minPrec);
      var ok := Eat(op.kind);
      if !ok {
        return None;
      }
      var right := ParseExpr(Precedence(op));
      e := if right.None? then None else Some(BinaryExpr(op, left, right.value));
    }

    method ParsePrimary() returns (e: Option<Expr>)
      requires Valid()
      modifies this, lexer
      ensures lexer.Valid()
      ensures P.ParsePrimary(old(Stream())).Error? ==> e == None
      ensures P.ParsePrimary(old(Stream())).Parsed? ==>
        e == Some(P.ParsePrimary(old(Stream())).e) && Valid() && Stream() == P.ParsePrimary(old(Stream())).rest
      decreases |Stream()|, 1
    {
      var t := current;
      match t.kind
      case Identifier =>
        var ok := Eat(Identifier);
        return if ok then Some(IdentifierExpr(t.text)) else None;
      case Number =>
        var value := StoI(t.text);
        if value.None? {
          return None;
        }
        var ok := Eat(Number);
        return if ok then Some(NumberExpr(value.value)) else None;
      case Text =>
        var ok := Eat(Text);
        return if ok then Some(StringExpr(t.text)) else None;
      case LParen =>
        e := ParseGroup();
      case _ =>
        return None;
    }

    method ParseGroup() returns (e: Option<Expr>)
      requires Valid() && current.kind == LParen
      modifies this, lexer
      ensures lexer.Valid()
      ensures P.ParsePrimary(old(Stream())).Error? ==> e == None
      ensures P.ParsePrimary(old(Stream())).Parsed? ==>
        e == Some(P.ParsePrimary(old(Stream())).e) && Valid() && Stream() == P.ParsePrimary(old(Stream())).rest
      decreases |Stream()|, 0
    {
      GroupParsed(Stream());
      var ok := Eat(LParen);
      if !ok {
        return None;
      }
      e := ParseExpr(0);
      if e.None? {
        return None;
      }
      ok := Eat(RParen);
      return if ok then e else None;
    }
  }
}
