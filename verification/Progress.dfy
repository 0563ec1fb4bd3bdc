// No request that was received is forgotten: which lines become tasks, when one has to wait for more input, and
// that the server can always go on until everything is answered.
module Progress {
  import opened Lines
  import opened Server

  // The text begins with this line.
  predicate Begins(text: string, line: string, rest: string) {
    NoNewline(line) && text == line + "\n" + rest
  }

  lemma {:induction false} BeginsAt(text: string, line: string, rest: string)
    requires Begins(text, line, rest)
    ensures Newline(text) == |line| < |text| && text[..|line|] == line && text[|line| + 1..] == rest
  {
    NewlineAt(text, |line|);
  }

  lemma {:induction false} NoneBegins(text: string)
    requires NoNewline(text)
    ensures Newline(text) == |text|
  {
  }

  // The same letters, capital or small.
  predicate SameLetters(a: string, b: string) {
    |a| == |b| && forall i :: 0 <= i < |a| ==> a[i] == b[i] || ('a' <= b[i] <= 'z' && a[i] as int + 32 == b[i] as int)
  }

  predicate Leaves(line: string) {
    SameLetters(line, "exit;") || SameLetters(line, "quit;")
  }

  lemma {:induction false} LowerIs(a: string, b: string)
    requires forall i :: 0 <= i < |b| ==> !('A' <= b[i] <= 'Z')
    ensures ToLower(a) == b <==> SameLetters(a, b)
  {
    if SameLetters(a, b) {
      forall i | 0 <= i < |a| ensures ToLower(a)[i] == b[i] {
      }
    }
    if ToLower(a) == b {
      forall i | 0 <= i < |a|
        ensures a[i] == b[i] || ('a' <= b[i] <= 'z' && a[i] as int + 32 == b[i] as int)
      {
        assert ToLower(a)[i] == b[i];
      }
    }
  }

  lemma {:induction false} ExitWords(line: string)
    ensures IsExit(line) <==> Leaves(line)
  {
    LowerIs(line, "exit;");
    LowerIs(line, "quit;");
  }

  // What a line does: it closes the connection, becomes the task, or is nothing.
  ghost predicate LineHandled(c: Connection, line: string, rest: string, v: Visit) {
    && v.c == c.(recvBuffer := rest,
                 state := if Leaves(line) then CLOSED else if line == "" then IDLE else PENDING_RESULT)
    && v.task == if Leaves(line) || line == "" then None else Some(line)
  }

  lemma {:induction false} FirstLineTold(c: Connection, h: History, line: string, rest: string)
    ensures Begins(c.recvBuffer, line, rest) ==> LineHandled(c, line, rest, FirstLine(c, h))
    ensures NoNewline(c.recvBuffer) ==> FirstLine(c, h) == Visit(c, h, None)
  {
    ExitWords(line);
    if Begins(c.recvBuffer, line, rest) {
      BeginsAt(c.recvBuffer, line, rest);
    }
    if NoNewline(c.recvBuffer) {
      NoneBegins(c.recvBuffer);
    }
  }

  // A read visit uses up one line, if there is one.
  lemma {:induction false} ReadTold(c: Connection, h: History, text: string, line: string, rest: string)
    ensures var v := ReadVisit(c, h, Data(text));
      && (NoNewline(c.recvBuffer + text) ==>
        v.c == c.(state := READING, recvBuffer := c.recvBuffer + text) && v.task == None)
      && (Begins(c.recvBuffer + text, line, rest) ==> LineHandled(c, line, rest, v))
  {
    FirstLineTold(c.(state := READING, recvBuffer := c.recvBuffer + text), h.(received := h.received + text), line,
      rest);
  }

  predicate Blank(text: string) {
    forall k :: 0 <= k < |text| ==> text[k] == '\n'
  }

  // Looking for the next request passes over empty lines and stops at the first other, or where no line is complete.
  lemma {:induction false} NextTold(c: Connection, h: History, blanks: string, left: string, line: string, rest: string)
    requires c.state == IDLE && Blank(blanks) && c.recvBuffer == blanks + left
    ensures NoNewline(left) ==> NextRequest(c, h).c == c.(recvBuffer := left) && NextRequest(c, h).task == None
    ensures line != "" && Begins(left, line, rest) ==> LineHandled(c, line, rest, NextRequest(c, h))
    decreases |blanks|
  {
    if blanks == "" {
      assert c.recvBuffer == left;
      FirstLineTold(c, h, line, rest);
    } else {
      assert c.recvBuffer == "" + "\n" + (blanks[1..] + left);
      assert Begins(c.recvBuffer, "", blanks[1..] + left);
      FirstLineTold(c, h, "", blanks[1..] + left);
      assert !Leaves("");
      var v := FirstLine(c, h);
      NextTold(v.c, v.h, blanks[1..], left, line, rest);
    }
  }

  // Every text is empty lines and then a line that is not empty, or a piece of one.
  lemma {:induction false} Shapes(text: string) returns (blanks: string, left: string, line: string, rest: string)
    ensures Blank(blanks) && text == blanks + left
    ensures NoNewline(left) || (line != "" && Begins(left, line, rest))
    decreases |text|
  {
    blanks, left, line, rest := "", text, "", "";
    var n := Newline(text);
    if n == 0 && text != "" {
      blanks, left, line, rest := Shapes(text[1..]);
      blanks := "\n" + blanks;
    } else if n < |text| {
      line, rest := text[..n], text[n + 1..];
      assert text == line + "\n" + rest;
    }
  }

  // A visit that sends the last byte of the response looks for the next request; any other leaves the lines alone.
  lemma {:induction false} WriteTold(c: Connection, h: History, sent: int, blanks: string, left: string, line: string,
                                     rest: string)
    requires c.state == WRITING && sent <= |c.response| - c.sendOffset
    requires Blank(blanks) && c.recvBuffer == blanks + left
    requires NoNewline(left) || (line != "" && Begins(left, line, rest))
    ensures var v := WriteVisit(c, h, sent);
      if sent < 0 then v.c == c.(state := CLOSED) && v.task == None
      else if sent == 0 || c.sendOffset + sent < |c.response|
      then v.c == c.(sendOffset := c.sendOffset + sent) && v.task == None
      else if NoNewline(left)
      then v.c == c.(state := IDLE, response := "", sendOffset := 0, recvBuffer := left) && v.task == None
      else LineHandled(c.(response := "", sendOffset := 0), line, rest, v)
  {
    if sent > 0 && c.sendOffset + sent == |c.response| {
      NextTold(c.(state := IDLE, response := "", sendOffset := 0), SentDone(c, h, sent), blanks, left, line, rest);
    }
  }

  // A visit's task is the next of the requests received.
  lemma {:induction false} TaskIsNext(h: History, v: Visit)
    requires VisitOk(v) && v.task.Some? && |v.h.tasks| == |h.tasks| + 1
    ensures |h.tasks| < |Tasks(v.h.received)| && Tasks(v.h.received)[|h.tasks|] == v.task.value
  {
    var rest := v.h.received[|v.h.consumed|..];
    assert v.h.received == v.h.consumed + rest;
    TasksConcat(v.h.consumed, rest);
  }

  lemma {:induction false} FirstLineAdds(c: Connection, h: History)
    ensures FirstLine(c, h).h.tasks == h.tasks + match FirstLine(c, h).task case None => [] case Some(sql) => [sql]
    ensures FirstLine(c, h).h.received == h.received
  {
  }

  lemma {:induction false} NextAdds(c: Connection, h: History)
    ensures NextRequest(c, h).h.tasks == h.tasks + match NextRequest(c, h).task case None => [] case Some(sql) => [sql]
    ensures NextRequest(c, h).h.received == h.received
    decreases |c.recvBuffer|
  {
    var v := FirstLine(c, h);
    FirstLineAdds(c, h);
    if !(v.c.state != IDLE || |v.c.recvBuffer| >= |c.recvBuffer|) {
      NextAdds(v.c, v.h);
    }
  }

  lemma {:induction false} ReadTaskIsNext(c: Connection, h: History, text: string)
    requires ConnOk(c, h) && HistoryOk(h) && (c.state == IDLE || c.state == READING)
    ensures var v := ReadVisit(c, h, Data(text));
      && v.h.received == h.received + text
      && (v.task.Some? ==>
        |h.tasks| < |Tasks(v.h.received)| && Tasks(v.h.received)[|h.tasks|] == v.task.value)
  {
    ReadVisitOk(c, h, Data(text));
    FirstLineAdds(c.(state := READING, recvBuffer := c.recvBuffer + text), h.(received := h.received + text));
    var v := ReadVisit(c, h, Data(text));
    if v.task.Some? {
      TaskIsNext(h, v);
    }
  }

  lemma {:induction false} WriteTaskIsNext(c: Connection, h: History, sent: int)
    requires ConnOk(c, h) && HistoryOk(h) && c.state == WRITING && sent <= |c.response| - c.sendOffset
    ensures var v := WriteVisit(c, h, sent);
      && v.h.received == h.received
      && (v.task.Some? ==> |h.tasks| < |Tasks(h.received)| && Tasks(h.received)[|h.tasks|] == v.task.value)
  {
    WriteVisitOk(c, h, sent);
    if sent > 0 && c.sendOffset + sent == |c.response| {
      NextAdds(c.(state := IDLE, response := "", sendOffset := 0), SentDone(c, h, sent));
    }
    var v := WriteVisit(c, h, sent);
    if v.task.Some? {
      TaskIsNext(h, v);
    }
  }

  // A connection that is read from although its buffer holds a complete line: the line waits for more input.
  ghost predicate Stalled(s: State, id: nat) {
    id in s.conns && (s.conns[id].state == IDLE || s.conns[id].state == READING) && !NoNewline(s.conns[id].recvBuffer)
  }

  // That is so exactly after a read whose first line was empty and which had another line behind it, until the next.
  ghost predicate StallsAfter(s: State, e: Event, id: nat) {
    if e.ReceiveEvent? && e.id == id && id in s.conns then
      match e.input
      case Data(text) =>
        var buffer := s.conns[id].recvBuffer + text;
        buffer != "" && buffer[0] == '\n' && !NoNewline(buffer[1..])
      case WouldBlock => Stalled(s, id)
      case Gone => false
    else Stalled(s, id)
  }

  lemma {:induction false} VisitStalls(s: State, e: Event, id: nat)
    requires Enabled(s, e) && Safe(s, e) && (e.ReceiveEvent? || e.SendEvent?)
    ensures Stalled(Step(s, e), id) <==> StallsAfter(s, e, id)
  {
    if e.id == id {
      match e
      case ReceiveEvent(_, input) =>
        if input.Data? {
          ReadStalls(s.conns[id], s.hist[id], input.text);
        }
      case SendEvent(_, sent) =>
        WriteStalls(s.conns[id], s.hist[id], sent);
    }
  }

  lemma {:induction false} StallsExactly(s: State, e: Event, id: nat)
    requires ServerOk(s) && Enabled(s, e) && Safe(s, e)
    ensures Stalled(Step(s, e), id) <==> StallsAfter(s, e, id)
  {
    assert LiveOk(s, id);
    if e.AcceptEvent? {
      assert LiveOk(s, s.nextId);
    } else if e.ReceiveEvent? || e.SendEvent? {
      VisitStalls(s, e, id);
    } else if !s.hand.Empty? {
      HandConnection(s);
    }
  }

  lemma {:induction false} ReadStalls(c: Connection, h: History, text: string)
    requires c.state == IDLE || c.state == READING
    ensures var v, buffer := ReadVisit(c, h, Data(text)), c.recvBuffer + text;
      (v.c.state == IDLE || v.c.state == READING) && !NoNewline(v.c.recvBuffer) <==>
        buffer != "" && buffer[0] == '\n' && !NoNewline(buffer[1..])
  {
    var buffer := c.recvBuffer + text;
    var n := Newline(buffer);
    if n == |buffer| {
      ReadTold(c, h, text, "", "");
    } else {
      var line, rest := buffer[..n], buffer[n + 1..];
      assert buffer == line + "\n" + rest;
      ReadTold(c, h, text, line, rest);
    }
  }

  lemma {:induction false} WriteStalls(c: Connection, h: History, sent: int)
    requires c.state == WRITING && sent <= |c.response| - c.sendOffset
    ensures var v := WriteVisit(c, h, sent);
      (v.c.state == IDLE || v.c.state == READING) ==> NoNewline(v.c.recvBuffer)
  {
    var blanks, left, line, rest := Shapes(c.recvBuffer);
    WriteTold(c, h, sent, blanks, left, line, rest);
  }

  // Which requests received on a connection have become tasks, and which are answered.
  ghost predicate Accounted(c: Connection, h: History) {
    && Tasks(h.received) == h.tasks + Tasks(c.recvBuffer)
    && (c.state == IDLE || c.state == READING ==>
      Sqls(h.execs) == h.tasks && h.written == Responses(h.execs))
    && ((c.state == IDLE || c.state == READING) && NoNewline(c.recvBuffer) ==> h.tasks == Tasks(h.received))
  }

  lemma {:induction false} ConnAccounted(c: Connection, h: History)
    requires ConnOk(c, h) && HistoryOk(h)
    ensures Accounted(c, h)
  {
    TasksConcat(h.consumed, c.recvBuffer);
    if c.state == IDLE || c.state == READING {
      assert Sqls(h.execs) == h.tasks;
    }
    if NoNewline(c.recvBuffer) {
      NoneBegins(c.recvBuffer);
    }
  }

  // After any schedule: every request received on a live connection is a task or still in the buffer, in order; one
  // that is read from has all its tasks executed and answered, and has no request left unless it is stalled.
  lemma {:induction false} EveryRequest(events: seq<Event>, id: nat)
    ensures ServerOk(INITIAL)
    ensures var s := Run(INITIAL, events);
      id in s.conns && s.conns[id].state != CLOSED ==> id in s.hist && Accounted(s.conns[id], s.hist[id])
  {
    InitialOk();
    var s := Run(INITIAL, events);
    assert LiveOk(s, id);
    if id in s.conns && s.conns[id].state != CLOSED {
      ConnAccounted(s.conns[id], s.hist[id]);
    }
  }

  lemma {:induction false} StalledAfter(events: seq<Event>, e: Event, id: nat)
    ensures ServerOk(INITIAL)
    ensures Enabled(Run(INITIAL, events), e) ==>
      (Stalled(Run(INITIAL, events + [e]), id) <==> StallsAfter(Run(INITIAL, events), e, id))
  {
    InitialOk();
    var s := Run(INITIAL, events);
    RunConcat(INITIAL, events, [e]);
    if Enabled(s, e) {
      RunOne(s, e, []);
      assert [e] + [] == [e];
      StallsExactly(s, e, id);
    }
  }

  // There is something to send where something is being sent.
  ghost predicate Sendable(s: State) {
    && (forall id :: id in s.conns && s.conns[id].state == WRITING ==> s.conns[id].sendOffset < |s.conns[id].response|)
    && (s.hand.Answer? ==> s.hand.response != "")
  }

  lemma {:induction false} VisitSendable(c: Connection, h: History, sent: int)
    requires c.state == WRITING && c.sendOffset < |c.response| && sent <= |c.response| - c.sendOffset
    ensures var c' := WriteVisit(c, h, sent).c;
      c'.state == WRITING ==> c'.sendOffset < |c'.response|
  {
    var blanks, left, line, rest := Shapes(c.recvBuffer);
    WriteTold(c, h, sent, blanks, left, line, rest);
  }

  lemma {:induction false} ReadSendable(c: Connection, h: History, input: Input)
    requires c.state == IDLE || c.state == READING
    ensures ReadVisit(c, h, input).c.state != WRITING
  {
  }

  lemma {:induction false} StepSendable(s: State, e: Event)
    requires ServerOk(s) && Sendable(s) && Enabled(s, e) && Safe(s, e)
    ensures Sendable(Step(s, e))
  {
    match e
    case ReceiveEvent(id, input) => ReadSendable(s.conns[id], s.hist[id], input);
    case SendEvent(id, sent) => VisitSendable(s.conns[id], s.hist[id], sent);
    case _ =>
  }

  lemma {:induction false} RunSendable(s: State, events: seq<Event>)
    requires ServerOk(s) && Sendable(s)
    ensures Sendable(Run(s, events))
    decreases |events|
  {
    if events != [] {
      if Enabled(s, events[0]) {
        StepSafe(s, events[0]);
        StepOk(s, events[0]);
        StepSendable(s, events[0]);
        RunSendable(Step(s, events[0]), events[1..]);
      } else {
        RunSendable(s, events[1..]);
      }
    }
  }

  // The worker's next step.
  function Working(s: State): Event {
    match s.hand
    case Empty => TakeEvent
    case Popped(_, _) => FindEvent
    case Holding(_, _) => SelectEvent(true)
    case Selected(_, _) => RunEvent(Ran("", ""))
    case Answer(_, _) => PublishEvent
  }

  function WorkLeft(s: State): nat {
    5 * |s.queue| + match s.hand
                    case Empty => 0
                    case Popped(_, _) => 4
                    case Holding(_, _) => 3
                    case Selected(_, _) => 2
                    case Answer(_, _) => 1
  }

  // What the worker leaves alone: what was received of a connection, and what the connection has not read of it.
  ghost predicate SameInput(s: State, s': State, id: nat) {
    && (id in s.conns <==> id in s'.conns) && (id in s.hist <==> id in s'.hist)
    && (id in s.conns ==> s'.conns[id].recvBuffer == s.conns[id].recvBuffer)
    && (id in s.conns && s.conns[id].state != PENDING_RESULT ==> s'.conns[id] == s.conns[id])
    && (Pending(s, id) ==> s'.conns[id].state in {PENDING_RESULT, WRITING})
    && (id in s.hist ==> s'.hist[id].received == s.hist[id].received)
  }

  lemma {:induction false} WorkStep(s: State, id: nat)
    requires ServerOk(s) && !s.locked && !(s.hand.Empty? && s.queue == [])
    ensures Enabled(s, Working(s)) && Safe(s, Working(s))
    ensures var s' := Step(s, Working(s));
      ServerOk(s') && !s'.locked && WorkLeft(s') < WorkLeft(s) && SameInput(s, s', id)
  {
    StepSafe(s, Working(s));
    StepOk(s, Working(s));
    if !s.hand.Empty? {
      HandConnection(s);
    }
  }

  // The worker comes to have nothing to do, and then no connection waits for it.
  lemma {:induction false} WorkEnds(s: State, id: nat) returns (events: seq<Event>)
    requires ServerOk(s) && !s.locked && Sendable(s)
    ensures forall e :: e in events ==> !e.ReceiveEvent? && !e.AcceptEvent?
    ensures var s' := Run(s, events);
      !s'.locked && Sendable(s') && !Pending(s', id) && SameInput(s, s', id)
    decreases WorkLeft(s)
  {
    if s.hand.Empty? && s.queue == [] {
      events := [];
      assert LiveOk(s, id) && ServedOk(s, id);
    } else {
      var e := Working(s);
      WorkStep(s, id);
      StepSendable(s, e);
      var later := WorkEnds(Step(s, e), id);
      events := [e] + later;
      RunOne(s, e, later);
    }
  }

  // Its socket takes the rest of a response.
  function SendAll(s: State, id: nat): seq<Event>
    requires id in s.conns
  {
    [LockEvent, SendEvent(id, |s.conns[id].response| - s.conns[id].sendOffset), UnlockEvent]
  }

  lemma {:induction false} SendEnds(s: State, id: nat)
    requires ServerOk(s) && !s.locked && Sendable(s) && id in s.conns && s.conns[id].state == WRITING
    ensures var s' := Run(s, SendAll(s, id));
      && !s'.locked && Sendable(s')
      && (id in s'.conns ==>
        && id in s'.hist && id in s.hist && s'.hist[id].received == s.hist[id].received
        && ((s'.conns[id].state == IDLE && NoNewline(s'.conns[id].recvBuffer))
            || (s'.conns[id].state == PENDING_RESULT && |s'.conns[id].recvBuffer| < |s.conns[id].recvBuffer|)))
  {
    var n := |s.conns[id].response| - s.conns[id].sendOffset;
    RunSendable(s, SendAll(s, id));
    RunOne(s, LockEvent, [SendEvent(id, n), UnlockEvent]);
    var s1 := Step(s, LockEvent);
    RunOne(s1, SendEvent(id, n), [UnlockEvent]);
    var s2 := Step(s1, SendEvent(id, n));
    RunOne(s2, UnlockEvent, []);
    var blanks, left, line, rest := Shapes(s.conns[id].recvBuffer);
    WriteTold(s.conns[id], s.hist[id], n, blanks, left, line, rest);
    assert LiveOk(s1, id) && LiveOk(s2, id);
    WriteAdds(s1.conns[id], s1.hist[id], n);
  }

  lemma {:induction false} WriteAdds(c: Connection, h: History, sent: int)
    requires sent <= |c.response| - c.sendOffset
    ensures WriteVisit(c, h, sent).h.received == h.received
  {
    if sent > 0 && c.sendOffset + sent == |c.response| {
      NextAdds(c.(state := IDLE, response := "", sendOffset := 0), SentDone(c, h, sent));
    }
  }

  // Everything received on a connection that is not stalled is executed and answered, up to a line that closes it.
  ghost predicate AllAnswered(s: State, id: nat, received: string) {
    id in s.conns ==>
      && id in s.hist && s.hist[id].received == received && s.conns[id].state in {IDLE, READING}
      && (!Stalled(s, id) ==>
        Sqls(s.hist[id].execs) == Tasks(received) && s.hist[id].written == Responses(s.hist[id].execs))
  }

  lemma {:induction false} RestAnswered(s: State, id: nat)
    requires ServerOk(s) && id in s.conns && s.conns[id].state in {IDLE, READING}
    ensures id in s.hist && AllAnswered(s, id, s.hist[id].received)
  {
    assert LiveOk(s, id);
    ConnAccounted(s.conns[id], s.hist[id]);
  }

  // Without another byte from any client the server can go on until that is so; a stalled connection was so before.
  lemma {:induction false} CanAnswer(s: State, id: nat) returns (events: seq<Event>)
    requires ServerOk(s) && !s.locked && Sendable(s) && id in s.conns && id in s.hist
    ensures forall e :: e in events ==> !e.ReceiveEvent? && !e.AcceptEvent?
    ensures AllAnswered(Run(s, events), id, s.hist[id].received)
    ensures Stalled(Run(s, events), id) ==> Stalled(s, id)
    decreases |s.conns[id].recvBuffer|
  {
    events := WorkEnds(s, id);
    var s1 := Run(s, events);
    assert LiveOk(s1, id);
    if s1.conns[id].state == WRITING {
      SendEnds(s1, id);
      var sending := SendAll(s1, id);
      var s2 := Run(s1, sending);
      RunConcat(s, events, sending);
      events := events + sending;
      assert LiveOk(s2, id);
      if id in s2.conns {
        if s2.conns[id].state == PENDING_RESULT {
          var later := CanAnswer(s2, id);
          RunConcat(s, events, later);
          events := events + later;
        } else {
          RestAnswered(s2, id);
        }
      }
    } else {
      RestAnswered(s1, id);
    }
  }

  // After any schedule there is one more that answers everything received on the connection.
  lemma {:induction false} EveryRequestAnswered(events: seq<Event>, id: nat) returns (later: seq<Event>)
    ensures ServerOk(INITIAL)
    ensures forall e :: e in later ==> !e.ReceiveEvent? && !e.AcceptEvent?
    ensures id in Run(INITIAL, events).conns ==>
      && id in Run(INITIAL, events).hist
      && AllAnswered(Run(INITIAL, events + later), id, Run(INITIAL, events).hist[id].received)
      && (Stalled(Run(INITIAL, events + later), id) ==> Stalled(Run(INITIAL, events), id))
  {
    InitialOk();
    var s := Run(INITIAL, events);
    RunSendable(INITIAL, events);
    later := [];
    if id in s.conns {
      assert LiveOk(s, id);
      var unlock := if s.locked then [UnlockEvent] else [];
      var s1 := Run(s, unlock);
      if s.locked {
        RunOne(s, UnlockEvent, []);
        StallsExactly(s, UnlockEvent, id);
      }
      RunSendable(s, unlock);
      later := unlock;
      assert LiveOk(s1, id);
      if id in s1.conns {
        var more := CanAnswer(s1, id);
        later := unlock + more;
        RunConcat(s, unlock, more);
      }
      RunConcat(INITIAL, events, later);
    }
  }

  // Inside its section the event loop neglects nobody: a live connection waits for its one task, or may be read from,
  // or may be written to, as much as is left.
  lemma {:induction false} NoneNeglected(s: State, id: nat, input: Input, sent: int)
    requires ServerOk(s) && s.locked && id in s.conns && s.conns[id].state != CLOSED
    requires sent <= |s.conns[id].response| - s.conns[id].sendOffset
    ensures Pending(s, id) <==> TasksOf(s, id) == 1
    ensures Enabled(s, ReceiveEvent(id, input)) <==> s.conns[id].state in {IDLE, READING}
    ensures Enabled(s, SendEvent(id, sent)) <==> !Pending(s, id) && !Enabled(s, ReceiveEvent(id, input))
  {
    OneTask(s, id);
  }

  // Before a query the engine's database is the one stored on its connection, or none; a query for a database that is
  // not there is answered at once, and not run.
  lemma {:induction false} SelectTold(s: State, found: bool)
    requires s.hand.Holding? && s.hand.id in s.conns && s.hand.id in s.hist
    ensures var id, sql, db, s' := s.hand.id, s.hand.sql, s.conns[s.hand.id].currentDb, DbSelected(s, found);
      && (db == "" || db == "none" ==> s' == s.(hand := Selected(id, sql), engineDb := ""))
      && (db != "" && db != "none" && found ==> s' == s.(hand := Selected(id, sql), engineDb := db))
      && (db != "" && db != "none" && !found ==>
        && s'.hand == Answer(id, Refused(sql, db).response)
        && s'.engineDb == s.engineDb && s'.conns == s.conns
          && s'.hist[id].execs == s.hist[id].execs + [Refused(sql, db)])
  {

  }
}
