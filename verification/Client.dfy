// The client: how it finds the end of a response among the bytes it receives, and what it makes of one.
module Client {
  import opened Lines
  import opened Server

  const TERMINATOR := "END\n"

  // The first n characters end with the delimiter.
  predicate EndsAt(stream: string, delimiter: string, n: nat) {
    |delimiter| <= n <= |stream| && stream[n - |delimiter|..n] == delimiter
  }

  ghost predicate FirstEnd(stream: string, delimiter: string, n: nat) {
    EndsAt(stream, delimiter, n) && forall k: nat :: k < n ==> !EndsAt(stream, delimiter, k)
  }

  // The last characters read, as many as the delimiter has.
  function Window(stream: string, delimiter: string, n: nat): string
    requires n <= |stream|
  {
    if n <= |delimiter| then stream[..n] else stream[n - |delimiter|..n]
  }

  lemma {:induction false} WindowNext(stream: string, delimiter: string, n: nat)
    requires n < |stream|
    ensures var longer := Window(stream, delimiter, n) + [stream[n]];
      Window(stream, delimiter, n + 1) == if |longer| > |delimiter| then longer[1..] else longer
    ensures EndsAt(stream, delimiter, n + 1) <==> Window(stream, delimiter, n + 1) == delimiter
    ensures stream[..n + 1] == stream[..n] + [stream[n]]
  {
    var d := |delimiter|;
    if n >= d {
      assert stream[n - d..n] + [stream[n]] == stream[n - d..n + 1];
    } else {
      assert stream[..n] + [stream[n]] == stream[..n + 1];
    }
  }

  // read_until: character by character, up to where the last ones are the delimiter; it is not handed on.
  method ReadUntil(stream: string, delimiter: string) returns (text: string, used: nat, ok: bool)
    requires delimiter != ""
    ensures ok ==> FirstEnd(stream, delimiter, used) && text == stream[..used - |delimiter|]
    ensures !ok ==> forall k: nat :: !EndsAt(stream, delimiter, k)
  {
    var window := "";
    text, used := "", 0;
    while used < |stream|
      invariant used <= |stream| && text == stream[..used] && window == Window(stream, delimiter, used)
      invariant forall k: nat :: k <= used ==> !EndsAt(stream, delimiter, k)
    {
      WindowNext(stream, delimiter, used);
      window := window + [stream[used]];
      if |window| > |delimiter| {
        window := window[1..];
      }
      text := text + [stream[used]];
      used := used + 1;
      if window == delimiter {
        return text[..|text| - |delimiter|], used, true;
      }
    }
    ok := false;
  }

  predicate IsBlank(c: char) {
    c == ' ' || c == '\t' || c == '\n' || c == '\r'
  }

  // Up to the last character that is not blank; all of it if there is none.
  function Trimmed(s: string): string {
    var n := LastInk(s);
    if n == 0 then s else s[..n]
  }

  function LastInk(s: string): (n: nat)
    ensures n <= |s| && (n > 0 ==> !IsBlank(s[n - 1])) && forall k :: n <= k < |s| ==> IsBlank(s[k])
  {
    if s == "" || !IsBlank(s[|s| - 1]) then |s| else LastInk(s[..|s| - 1])
  }

  const PREFIX := "CURRENT_DB: "

  // What the client shows of a response.
  datatype Shown = Shown(ok: bool, db: string, body: string)

  // parse_response.
  function Parse(raw: string): Option<Shown> {
    var n := Newline(raw);
    if n == |raw| then None
    else
      var status, rest := raw[..n], raw[n + 1..];
      var m := Newline(rest);
      if m == |rest| then None
      else
        var line, body := rest[..m], rest[m + 1..];
        if status != "OK" && status != "ERR" then None
        else Some(Shown(status == "OK", if PREFIX <= line then line[|PREFIX|..] else "none", Trimmed(body)))
  }

  // A text one of whose lines ends with the three letters.
  ghost predicate EndsLine(s: string) {
    exists k: nat :: EndsAt(s + "\n", TERMINATOR, k)
  }

  // The response as it is sent.
  function Sent(ok: bool, db: string, body: string): string {
    Reply(if ok then "OK" else "ERR", db, body)
  }

  lemma {:induction false} EndsInside(a: string, b: string, k: nat)
    requires a != "" && a[|a| - 1] != 'N' && a[|a| - 1] != 'D' && a[|a| - 1] != 'E'
    requires EndsAt(a + b, TERMINATOR, k) && k > |a|
    ensures EndsAt(b, TERMINATOR, k - |a|)
  {
    var s := a + b;
    var t := s[k - 4..k];
    assert s[k - 4] == t[0] == 'E' && s[k - 3] == t[1] == 'N' && s[k - 2] == t[2] == 'D';
    assert s[|a| - 1] == a[|a| - 1];
    assert k >= |a| + 4;
    assert t == b[k - |a| - 4..k - |a|];
  }

  lemma {:induction false} EndsBehind(a: string, b: string, k: nat)
    requires EndsAt(b, TERMINATOR, k)
    ensures EndsAt(a + b, TERMINATOR, |a| + k)
  {
    assert (a + b)[|a| + k - 4..|a| + k] == b[k - 4..k];
  }

  lemma {:induction false} EndsBefore(a: string, b: string, k: nat)
    requires k <= |a|
    ensures EndsAt(a + b, TERMINATOR, k) <==> EndsAt(a, TERMINATOR, k)
  {
    if k >= 4 {
      assert (a + b)[k - 4..k] == a[k - 4..k];
    }
  }

  // What stands before the database's name.
  function Head(ok: bool): string {
    (if ok then "OK" else "ERR") + "\n" + PREFIX
  }

  lemma {:induction false} HeadQuiet(ok: bool, k: nat)
    requires k <= |Head(ok)|
    ensures !EndsAt(Head(ok), TERMINATOR, k)
  {
    var h := Head(ok);
    if 4 <= k {
      if ok {
        assert h == "OK\nCURRENT_DB: ";
        assert k > 4 ==> h[k - 1] != '\n';
        assert h[0] == 'O';
      } else {
        assert h == "ERR\nCURRENT_DB: ";
        assert k > 4 ==> h[k - 1] != '\n';
        assert h[1] == 'R';
      }
      assert h[k - 4..k][3] == h[k - 1] && h[k - 4..k][0] == h[k - 4] && h[k - 4..k][1] == h[k - 3];
    }
  }

  lemma {:induction false} SentParts(ok: bool, db: string, body: string)
    ensures Sent(ok, db, body) == Head(ok) + ((db + "\n") + ((body + "\n") + TERMINATOR))
  {
    var status := if ok then "OK" else "ERR";
    assert status + "\nCURRENT_DB: " == Head(ok);
  }

  // Ends inside a response are those of its lines and the last.
  lemma {:induction false} EndsOfSent(ok: bool, db: string, body: string, k: nat)
    requires k < |Sent(ok, db, body)|
    ensures EndsAt(Sent(ok, db, body), TERMINATOR, k) ==> EndsLine(db) || EndsLine(body)
  {
    SentParts(ok, db, body);
    var h, d, b := Head(ok), db + "\n", body + "\n";
    var x := d + (b + TERMINATOR);
    if EndsAt(h + x, TERMINATOR, k) {
      if k <= |h| {
        EndsBefore(h, x, k);
        HeadQuiet(ok, k);
      } else {
        EndsInside(h, x, k);
        EndsOfLines(db, body, k - |h|);
      }
    }
  }

  lemma {:induction false} EndsOfLines(db: string, body: string, k: nat)
    requires k < |db| + |body| + 6 && EndsAt((db + "\n") + ((body + "\n") + TERMINATOR), TERMINATOR, k)
    ensures EndsLine(db) || EndsLine(body)
  {
    var d, b := db + "\n", body + "\n";
    var y := b + TERMINATOR;
    if k <= |d| {
      EndsBefore(d, y, k);
    } else {
      EndsInside(d, y, k);
      if k - |d| <= |b| {
        EndsBefore(b, TERMINATOR, k - |d|);
      } else {
        EndsInside(b, TERMINATOR, k - |d|);
      }
    }
  }

  lemma {:induction false} EndsWithin(a: string, b: string, c: string, j: nat) returns (k: nat)
    requires EndsAt(b, TERMINATOR, j)
    ensures k == |a| + j && EndsAt(a + (b + c), TERMINATOR, k)
  {
    k := |a| + j;
    EndsBefore(b, c, j);
    EndsBehind(a, b + c, j);
  }

  lemma {:induction false} LinesEndSent(ok: bool, db: string, body: string) returns (k: nat)
    requires EndsLine(db) || EndsLine(body)
    ensures k < |Sent(ok, db, body)| && EndsAt(Sent(ok, db, body), TERMINATOR, k)
  {
    SentParts(ok, db, body);
    var h, d, b := Head(ok), db + "\n", body + "\n";
    if EndsLine(db) {
      var j: nat :| EndsAt(d, TERMINATOR, j);
      k := EndsWithin(h, d, b + TERMINATOR, j);
    } else {
      var j: nat :| EndsAt(b, TERMINATOR, j);
      k := EndsWithin(h + d, b, TERMINATOR, j);
      assert (h + d) + (b + TERMINATOR) == h + (d + (b + TERMINATOR));
    }
  }

  // Whatever follows, the client takes the response as sent, and nothing more, exactly if neither the database's name
  // nor a line of the body ends with END.
  lemma {:induction false} TakenWhole(ok: bool, db: string, body: string, more: string)
    ensures FirstEnd(Sent(ok, db, body) + more, TERMINATOR, |Sent(ok, db, body)|) <==> !EndsLine(db) && !EndsLine(body)
  {
    var r := Sent(ok, db, body);
    SentParts(ok, db, body);
    assert r[|r| - 4..] == TERMINATOR;
    EndsBefore(r, more, |r|);
    assert EndsAt(r + more, TERMINATOR, |r|);
    if EndsLine(db) || EndsLine(body) {
      var k := LinesEndSent(ok, db, body);
      EndsBefore(r, more, k);
    } else {
      forall k: nat | k < |r| ensures !EndsAt(r + more, TERMINATOR, k) {
        EndsBefore(r, more, k);
        EndsOfSent(ok, db, body, k);
      }
    }
  }

  lemma {:induction false} StatusQuiet(ok: bool)
    ensures NoNewline(if ok then "OK" else "ERR") && NoNewline(PREFIX)
  {
  }

  lemma {:induction false} CutAt(line: string, rest: string)
    requires NoNewline(line)
    ensures var s := line + "\n" + rest;
      Newline(s) == |line| < |s| && s[..|line|] == line && s[|line| + 1..] == rest
  {
    NewlineAt(line + "\n" + rest, |line|);
  }

  lemma {:induction false} ParsesParts(status: string, db: string, rest: string)
    requires NoNewline(status) && NoNewline(PREFIX) && NoNewline(db) && (status == "OK" || status == "ERR")
    ensures Parse(status + "\n" + (PREFIX + db + "\n" + rest)) == Some(Shown(status == "OK", db, Trimmed(rest)))
  {
    var line := PREFIX + db;
    CutAt(status, line + "\n" + rest);
    CutAt(line, rest);
    assert line[|PREFIX|..] == db && PREFIX <= line;
  }

  // Then it shows what the server said: the status, the database and the body, without blanks at its end.
  lemma {:induction false} Understood(ok: bool, db: string, body: string)
    requires NoNewline(db)
    ensures var r := Sent(ok, db, body);
      |r| >= 4 && Parse(r[..|r| - 4]) == Some(Shown(ok, db, Trimmed(body + "\n")))
  {
    SentParts(ok, db, body);
    var r := Sent(ok, db, body);
    var status := if ok then "OK" else "ERR";
    var rest := body + "\n";
    assert r[..|r| - 4] == Head(ok) + ((db + "\n") + rest) by {
      assert r == Head(ok) + ((db + "\n") + rest) + TERMINATOR;
    }
    assert Head(ok) + ((db + "\n") + rest) == status + "\n" + (PREFIX + db + "\n" + rest);
    ParsesParts(status, db, rest);
    StatusQuiet(ok);
  }

  // Trimming takes blanks off the end, and nothing else.
  lemma {:induction false} TrimmedIs(s: string)
    ensures Trimmed(s) <= s && forall k :: |Trimmed(s)| <= k < |s| ==> IsBlank(s[k])
    ensures Trimmed(s) == "" || !IsBlank(Trimmed(s)[|Trimmed(s)| - 1]) || Trimmed(s) == s
  {
  }

  // What the server sends for a query: the database selected afterwards and the output; or the error, and the
  // database that was stored.
  lemma {:induction false} QuerySent(sql: string, engineDb: string, currentDb: string, outcome: Outcome)
    ensures var e := Executed(sql, engineDb, currentDb, outcome);
      match outcome
      case Ran(db, output) =>
        e.response == Sent(true, if db == "" then "none" else db, output)
        && e.stored == (if db == "" then "none" else db) && e.left == db
      case Threw(db, message) =>
        e.response == Sent(false, if currentDb == "" then "none" else currentDb, message)
        && e.stored == currentDb && e.left == db
    ensures var e := Refused(sql, currentDb);
      e.response == Sent(false, "none", "Database does not exist: " + currentDb) && e.stored == currentDb
  {
  }

  // A database whose name ends with these letters, and the refusal of a query for it: the client takes the response to
  // end inside the name, and the rest of it for the answer to its next query.
  lemma {:induction false} NameCutsResponse(sql: string, more: string)
    ensures var r := Refused(sql, "WEEKEND").response;
      && !FirstEnd(r + more, TERMINATOR, |r|)
      && r == Sent(false, "none", "Database does not exist: WEEKEND")
  {
    var body := "Database does not exist: WEEKEND";
    assert "Database does not exist: " + "WEEKEND" == body;
    assert EndsAt(body + "\n", TERMINATOR, |body| + 1) by {
      assert (body + "\n")[|body| - 3..|body| + 1] == TERMINATOR;
    }
    assert EndsLine(body);
    TakenWhole(false, "none", body, more);
  }

  ghost predicate QuietOne(response: string) {
    exists ok, db, body :: response == Sent(ok, db, body) && !EndsLine(db) && !EndsLine(body)
  }

  ghost predicate Quiet(execs: seq<Exec>) {
    forall i :: 0 <= i < |execs| ==> QuietOne(execs[i].response)
  }

  lemma {:induction false} ResponsesFirst(execs: seq<Exec>)
    requires execs != []
    ensures Responses(execs) == execs[0].response + Responses(execs[1..])
  {
    var front, last := execs[..|execs| - 1], execs[|execs| - 1].response;
    if |execs| == 1 {
      assert Responses(front) == "" && Responses(execs[1..]) == "";
    } else {
      ResponsesFirst(front);
      assert execs[1..][..|execs| - 2] == front[1..] && execs[1..][|execs| - 2] == execs[|execs| - 1];
      var middle := Responses(front[1..]);
      assert Responses(execs[1..]) == middle + last && Responses(front) == execs[0].response + middle;
      assert (execs[0].response + middle) + last == execs[0].response + (middle + last);
    }
  }

  // There the stream goes on with this response, which the client takes to be one.
  ghost predicate FoundAt(stream: string, n: nat, response: string) {
    n <= |stream| && FirstEnd(stream[n..], TERMINATOR, |response|) && stream[n..][..|response|] == response
  }

  lemma {:induction false} QuietRest(execs: seq<Exec>)
    requires Quiet(execs) && execs != []
    ensures Quiet(execs[1..])
  {
    forall j | 0 <= j < |execs| - 1 ensures QuietOne(execs[1..][j].response) {
      assert execs[1..][j] == execs[j + 1];
    }
  }

  lemma {:induction false} FirstRead(r: string, rest: string)
    requires QuietOne(r)
    ensures FoundAt(r + rest, 0, r)
  {
    assert QuietOne(r);
    var ok, db, body :| r == Sent(ok, db, body) && !EndsLine(db) && !EndsLine(body);
    TakenWhole(ok, db, body, rest);
    assert (r + rest)[0..] == r + rest && (r + rest)[..|r|] == r;
  }

  lemma {:induction false} FoundLater(a: string, b: string, n: nat, response: string)
    requires FoundAt(b, n, response)
    ensures FoundAt(a + b, |a| + n, response)
  {
    assert (a + b)[|a| + n..] == b[n..];
  }

  lemma {:induction false} PrefixFirst(execs: seq<Exec>, i: nat)
    requires 0 < i <= |execs|
    ensures |Responses(execs[..i])| == |execs[0].response| + |Responses(execs[1..][..i - 1])|
  {
    ResponsesFirst(execs[..i]);
    assert execs[..i][1..] == execs[1..][..i - 1];
  }

  lemma {:induction false} LaterRead(execs: seq<Exec>, later: seq<Exec>, i: nat, n: nat)
    requires 0 < i < |execs| && later == execs[1..] && n == |Responses(later[..i - 1])|
    requires FoundAt(Responses(later), n, later[i - 1].response)
    ensures FoundAt(Responses(execs), |Responses(execs[..i])|, execs[i].response)
  {
    assert later[i - 1] == execs[i];
    FoundLater(execs[0].response, Responses(later), n, execs[i].response);
    ResponsesFirst(execs);
    PrefixFirst(execs, i);
  }

  // As long as all responses are quiet, the client finds each of them in the stream, in order.
  lemma {:induction false} ConversationRead(execs: seq<Exec>, i: nat)
    requires Quiet(execs) && i < |execs|
    ensures FoundAt(Responses(execs), |Responses(execs[..i])|, execs[i].response)
    decreases |execs|
  {
    if i == 0 {
      assert execs[..0] == [];
      ResponsesFirst(execs);
      FirstRead(execs[0].response, Responses(execs[1..]));
    } else {
      QuietRest(execs);
      ConversationRead(execs[1..], i - 1);
      LaterRead(execs, execs[1..], i, |Responses(execs[1..][..i - 1])|);
    }
  }
}
