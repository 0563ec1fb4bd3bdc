// SQL text cut into tokens.
module Lexing {

  datatype Kind =
    | Identifier | Number | Text
    | Select | From | Where | And | Or | OrderBy | GroupBy | By | Create | Database | Table | In
    | Primary | Key | Unique | Not | Null | Auto | Increment
    | Insert | Into | Values | Update | Set | Delete | Use | Exit
    | Plus | Minus | Star | Slash | Eq | Lt | Gt | LtEq | GtEq | Comma | Semicolon | LParen | RParen
    | End
    | Bad  // what cannot be read: the lexer throws

  datatype Token = Token(kind: Kind, text: string)

  const END := Token(End, "")
  const BAD := Token(Bad, "")

  predicate IsSpace(c: char) {
    c == ' ' || '\t' <= c <= '\r'
  }

  predicate IsDigit(c: char) {
    '0' <= c <= '9'
  }

  predicate IsWordStart(c: char) {
    'a' <= c <= 'z' || 'A' <= c <= 'Z' || c == '_'
  }

  predicate IsWord(c: char) {
    IsWordStart(c) || IsDigit(c)
  }

  function Upper(s: string): (r: string)
    ensures |r| == |s|
  {
    seq(|s|, i requires 0 <= i < |s| => if 'a' <= s[i] <= 'z' then s[i] - 'a' + 'A' else s[i])
  }

  // How many characters at the start are spaces, digits, parts of a word.
  function Spaces(s: string): (n: nat)
    ensures n <= |s|
  {
    if s != "" && IsSpace(s[0]) then 1 + Spaces(s[1..]) else 0
  }

  function Digits(s: string): (n: nat)
    ensures n <= |s|
  {
    if s != "" && IsDigit(s[0]) then 1 + Digits(s[1..]) else 0
  }

  function WordLength(s: string): (n: nat)
    ensures n <= |s|
  {
    if s != "" && IsWord(s[0]) then 1 + WordLength(s[1..]) else 0
  }

  // Up to the closing quote; a backslash takes the next character with it.
  function Quoted(s: string): (n: nat)
    ensures n <= |s| && (n < |s| ==> s[n] == '\'')
  {
    if s == "" || s[0] == '\'' then 0
    else if s[0] == '\\' && |s| > 1 then 2 + Quoted(s[2..])
    else 1 + Quoted(s[1..])
  }

  function Keyword(upper: string): Kind {
    match upper
    case "SELECT" => Select
    case "FROM" => From
    case "WHERE" => Where
    case "AND" => And
    case "OR" => Or
    case "ORDER" => OrderBy
    case "GROUP" => GroupBy
    case "BY" => By
    case "CREATE" => Create
    case "DATABASE" => Database
    case "TABLE" => Table
    case "IN" => In
    case "PRIMARY" => Primary
    case "KEY" => Key
    case "UNIQUE" => Unique
    case "NOT" => Not
    case "NULL" => Null
    case "AUTO" => Auto
    case "INCREMENT" => Increment
    case "INSERT" => Insert
    case "INTO" => Into
    case "VALUES" => Values
    case "UPDATE" => Update
    case "SET" => Set
    case "DELETE" => Delete
    case "USE" => Use
    case "EXIT" => Exit
    case "QUIT" => Exit
    case _ => Identifier
  }

  // A token and how many characters it took, with the spaces before it.
  datatype Lexeme = Lexeme(token: Token, length: nat)

  // A word: AUTO_INCREMENT counts as two, cut after the underscore.
  function Word(s: string): Lexeme {
    var n := WordLength(s);
    if Upper(s[..n]) == "AUTO_INCREMENT" then Lexeme(Token(Auto, "AUTO"), 5)
    else Lexeme(Token(Keyword(Upper(s[..n])), s[..n]), n)
  }

  function NumberLength(s: string): (n: nat)
    ensures n <= |s|
  {
    var n := Digits(s);
    if n < |s| && s[n] == '.' then n + 1 + Digits(s[n + 1..]) else n
  }

  function Symbol(s: string): Lexeme
    requires s != ""
  {
    match s[0]
    case '+' => Lexeme(Token(Plus, "+"), 1)
    case '-' => Lexeme(Token(Minus, "-"), 1)
    case '*' => Lexeme(Token(Star, "*"), 1)
    case '/' => Lexeme(Token(Slash, "/"), 1)
    case '=' => Lexeme(Token(Eq, "="), 1)
    case '<' => if |s| > 1 && s[1] == '=' then Lexeme(Token(LtEq, "<="), 2) else Lexeme(Token(Lt, "<"), 1)
    case '>' => if |s| > 1 && s[1] == '=' then Lexeme(Token(GtEq, ">="), 2) else Lexeme(Token(Gt, ">"), 1)
    case ',' => Lexeme(Token(Comma, ","), 1)
    case ';' => Lexeme(Token(Semicolon, ";"), 1)
    case '(' => Lexeme(Token(LParen, "("), 1)
    case ')' => Lexeme(Token(RParen, ")"), 1)
    case _ => Lexeme(BAD, 1)
  }

  // The token that text not starting with a space begins with.
  function Start(s: string): Lexeme {
    if s == "" then Lexeme(END, 0)
    else if IsWordStart(s[0]) then Word(s)
    else if s[0] == '\'' then
      var n := Quoted(s[1..]);
      if n == |s| - 1 then Lexeme(BAD, 1) else Lexeme(Token(Text, s[1..n + 1]), n + 2)
    else if IsDigit(s[0]) then Lexeme(Token(Number, s[..NumberLength(s)]), NumberLength(s))
    else Symbol(s)
  }

  // Lexer::next on the text that is left.
  function Lex(s: string): Lexeme {
    var n := Spaces(s);
    var l := Start(s[n..]);
    Lexeme(l.token, n + l.length)
  }

  lemma {:induction false} AutoIncrementLength(w: string)
    requires Upper(w) == "AUTO_INCREMENT"
    ensures |w| == 14
  {
  }

  // It advances, or is at the end; and it stays within the text.
  lemma {:induction false} LexAdvances(s: string)
    ensures Lex(s).length <= |s|
    ensures Lex(s).token.kind != End ==> Lex(s).length > 0
  {
    var t := s[Spaces(s)..];
    if t != "" && IsWordStart(t[0]) {
      assert WordLength(t) > 0;
      if Upper(t[..WordLength(t)]) == "AUTO_INCREMENT" { AutoIncrementLength(t[..WordLength(t)]); }
    }
  }

  // The tokens of a text, up to its end or the first thing that cannot be read.
  function Tokens(s: string): seq<Token>
    decreases |s|
  {
    LexAdvances(s);
    var l := Lex(s);
    if l.token.kind == End then [] else if l.token.kind == Bad then [BAD] else [l.token] + Tokens(s[l.length..])
  }

  class Lexer {
    const input: string
    var pos: nat

    ghost predicate Valid()
      reads this
    {
      pos <= |input|
    }

    constructor (s: string)
      ensures Valid() && input == s && pos == 0
    {
      input, pos := s, 0;
    }

    // The next token; Bad where the program throws.
    method Next() returns (t: Token)
      requires Valid()
      modifies this
      ensures Valid() && t == Lex(old(input[pos..])).token
      ensures t.kind != Bad ==> pos == old(pos) + Lex(old(input[pos..])).length
    {
      LexAdvances(input[pos..]);
      SkipSpaces();
      if pos >= |input| {
        return END;
      }
      var c := input[pos];
      if IsWordStart(c) {
        t := NextWord();
      } else if c == '\'' {
        t := NextText();
      } else if IsDigit(c) {
        t := NextNumber();
      } else {
        t := NextSymbol();
      }
    }

    method NextWord() returns (t: Token)
      requires Valid() && pos < |input| && IsWordStart(input[pos])
      modifies this
      ensures Valid() && t == Word(old(input[pos..])).token && pos == old(pos) + Word(old(input[pos..])).length
    {
      ghost var s := input[pos..];
      var start := pos;
      var end := WordEnd(pos);
      var word := input[start..end];
      assert word == s[..WordLength(s)];
      if Upper(word) == "AUTO_INCREMENT" {
        AutoIncrementLength(word);
        pos := start + 5;
        return Token(Auto, "AUTO");
      }
      pos := end;
      return Token(Keyword(Upper(word)), word);
    }

    method NextText() returns (t: Token)
      requires Valid() && pos < |input| && input[pos] == '\''
      modifies this
      ensures Valid() && t == Start(old(input[pos..])).token
      ensures t.kind != Bad ==> pos == old(pos) + Start(old(input[pos..])).length
    {
      ghost var s := input[pos..];
      var start := pos + 1;
      assert input[start..] == s[1..];
      var end := QuoteEnd(start);
      if end >= |input| {
        return BAD;
      }
      assert input[start..end] == s[1..end - start + 1];
      pos := end + 1;
      return Token(Text, input[start..end]);
    }

    method NextNumber() returns (t: Token)
      requires Valid() && pos < |input|
      modifies this
      ensures Valid() && t == Token(Number, old(input[pos..])[..NumberLength(old(input[pos..]))])
        && pos == old(pos) + NumberLength(old(input[pos..]))
    {
      ghost var s := input[pos..];
      var start := pos;
      var end := DigitsEnd(pos);
      if end < |input| && input[end] == '.' {
        assert input[end + 1..] == s[Digits(s) + 1..];
        end := DigitsEnd(end + 1);
      }
      assert input[start..end] == s[..end - start];
      pos := end;
      return Token(Number, input[start..end]);
    }

    method NextSymbol() returns (t: Token)
      requires Valid() && pos < |input|
      modifies this
      ensures Valid() && t == Symbol(old(input[pos..])).token && pos == old(pos) + Symbol(old(input[pos..])).length
    {
      ghost var s := input[pos..];
      var c := input[pos];
      pos := pos + 1;
      assert pos < |input| ==> input[pos] == s[1];
      match c {
        case '+' => return Token(Plus, "+");
        case '-' => return Token(Minus, "-");
        case '*' => return Token(Star, "*");
        case '/' => return Token(Slash, "/");
        case '=' => return Token(Eq, "=");
        case '<' =>
          if pos < |input| && input[pos] == '=' {
            pos := pos + 1;
            return Token(LtEq, "<=");
          }
          return Token(Lt, "<");
        case '>' =>
          if pos < |input| && input[pos] == '=' {
            pos := pos + 1;
            return Token(GtEq, ">=");
          }
          return Token(Gt, ">");
        case ',' => return Token(Comma, ",");
        case ';' => return Token(Semicolon, ";");
        case '(' => return Token(LParen, "(");
        case ')' => return Token(RParen, ")");
        case _ => return BAD;
      }
    }

    method SkipSpaces()
      requires Valid()
      modifies this
      ensures Valid() && pos == old(pos) + Spaces(old(input[pos..]))
        && input[pos..] == old(input[pos..])[Spaces(old(input[pos..]))..]
    {
      while pos < |input| && IsSpace(input[pos])
        invariant old(pos) <= pos <= |input|
        invariant pos - old(pos) + Spaces(input[pos..]) == Spaces(old(input[pos..]))
      {
        assert input[pos..][1..] == input[pos + 1..];
        pos := pos + 1;
      }
    }

    method WordEnd(from: nat) returns (end: nat)
      requires from <= |input|
      ensures end == from + WordLength(input[from..]) && end <= |input|
    {
      end := from;
      while end < |input| && IsWord(input[end])
        invariant from <= end <= |input| && end - from + WordLength(input[end..]) == WordLength(input[from..])
      {
        assert input[end..][1..] == input[end + 1..];
        end := end + 1;
      }
    }

    method DigitsEnd(from: nat) returns (end: nat)
      requires from <= |input|
      ensures end == from + Digits(input[from..]) && end <= |input|
    {
      end := from;
      while end < |input| && IsDigit(input[end])
        invariant from <= end <= |input| && end - from + Digits(input[end..]) == Digits(input[from..])
      {
        assert input[end..][1..] == input[end + 1..];
        end := end + 1;
      }
    }

    method QuoteEnd(from: nat) returns (end: nat)
      requires from <= |input|
      ensures end == from + Quoted(input[from..]) && end <= |input|
    {
      end := from;
      while end < |input| && input[end] != '\''
        invariant from <= end <= |input| && end - from + Quoted(input[end..]) == Quoted(input[from..])
      {
        assert input[end..][1..] == input[end + 1..];
        if input[end] == '\\' && end + 1 < |input| {
          assert input[end..][2..] == input[end + 2..];
          end := end + 2;
        } else {
          end := end + 1;
        }
      }
    }
  }
}
