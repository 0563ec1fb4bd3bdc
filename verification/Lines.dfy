// Text cut into lines, and the queries among them.
module Lines {

  predicate NoNewline(text: string) {
    forall k :: 0 <= k < |text| ==> text[k] != '\n'
  }

  // Where the first newline is, or the length of the text if there is none.
  function Newline(text: string): (n: nat)
    ensures n <= |text| && (forall k :: 0 <= k < n ==> text[k] != '\n') && (n < |text| ==> text[n] == '\n')
  {
    if text == "" || text[0] == '\n' then 0 else 1 + Newline(text[1..])
  }

  lemma {:induction false} NewlineAt(text: string, n: nat)
    requires n < |text| && text[n] == '\n' && forall k :: 0 <= k < n ==> text[k] != '\n'
    ensures Newline(text) == n
  {
  }

  // The non-empty complete lines.
  function Tasks(text: string): seq<string>
    decreases |text|
  {
    var n := Newline(text);
    if n == |text| then []
    else if n == 0 then Tasks(text[1..])
    else [text[..n]] + Tasks(text[n + 1..])
  }

  // Nothing after the last newline.
  predicate Complete(text: string) {
    text == "" || text[|text| - 1] == '\n'
  }

  lemma {:induction false} TasksConcat(a: string, b: string)
    requires Complete(a)
    ensures Tasks(a + b) == Tasks(a) + Tasks(b)
    decreases |a|
  {
    if a == "" {
      assert a + b == b;
    } else {
      var n := Newline(a);
      NewlineAt(a + b, n);
      assert (a + b)[..n] == a[..n];
      assert (a + b)[n + 1..] == a[n + 1..] + b;
      TasksConcat(a[n + 1..], b);
    }
  }

  lemma {:induction false} OneLine(line: string)
    requires NoNewline(line)
    ensures Complete(line + "\n") && Tasks(line + "\n") == if line == "" then [] else [line]
  {
    var text := line + "\n";
    assert text[|line|] == '\n' && text[..|line|] == line && text[|line| + 1..] == "";
    NewlineAt(text, |line|);
    assert Tasks("") == [];
  }

  // A line taken off what is left to read.
  lemma {:induction false} TakeLine(read: string, line: string)
    requires Complete(read) && NoNewline(line)
    ensures Complete(read + line + "\n")
    ensures Tasks(read + line + "\n") == Tasks(read) + if line == "" then [] else [line]
  {
    assert read + line + "\n" == read + (line + "\n");
    OneLine(line);
    TasksConcat(read, line + "\n");
  }
}
