// The SQL server: an event loop that reads requests and writes responses, and one worker that runs the queries.
// Each method is one step of either that no step of the other can interrupt; every schedule of
// the two is a sequence of calls.
module Server {
  import opened Lines

  datatype ConnState = IDLE | READING | PENDING_RESULT | WRITING | CLOSED

  datatype Connection = Connection(state: ConnState, recvBuffer: string, currentDb: string, response: string,
    sendOffset: nat)

  // What the worker has in hand: a task taken off the queue, one whose connection it points at,
  // one whose database is selected, or a response to be published.
  datatype Hand =
    | Empty
    | Popped(id: nat, sql: string)
    | Holding(id: nat, sql: string)
    | Selected(id: nat, sql: string)
    | Answer(id: nat, response: string)

  type Task = (nat, string)

  datatype Option<+T> = None | Some(value: T)

  // A query is refused if its database is gone.
  datatype Fate = WasRefused | HasRun | HasThrown

  // A query and what became of it: the database it was for, the one selected when it ended, and what the
  // connection kept of that.
  datatype Exec = Exec(sql: string, fate: Fate, db: string, left: string, stored: string, response: string)

  // What happened on a connection so far: bytes received, those of them cut into lines, the queries among
  // these, those executed, their responses, and the bytes sent.  The ticket is the number of its last task among all
  // tasks.
  datatype History = History(received: string, consumed: string, tasks: seq<string>, execs: seq<Exec>,
    answered: string, written: string, ticket: nat)

  const NO_HISTORY := History("", "", [], [], "", "", 0)
  const NEW_CONNECTION := Connection(IDLE, "", "none", "", 0)

  // How a query ended: the database selected afterwards and the output, or an error.
  datatype Outcome = Ran(db: string, output: string) | Threw(db: string, message: string)

  // What a socket gave.
  datatype Input = Data(text: string) | WouldBlock | Gone

  function Sqls(execs: seq<Exec>): (r: seq<string>)
    ensures |r| == |execs| && forall i :: 0 <= i < |execs| ==> r[i] == execs[i].sql
  {
    seq(|execs|, i requires 0 <= i < |execs| => execs[i].sql)
  }

  function Responses(execs: seq<Exec>): string {
    if execs == [] then "" else Responses(execs[..|execs| - 1]) + execs[|execs| - 1].response
  }

  // The program writes "none" for no database.
  function EngineDb(db: string): string {
    if db == "none" then "" else db
  }

  function ShownDb(db: string): string {
    if db == "" then "none" else db
  }

  // What the connection has stored before query i.
  function StoredDb(execs: seq<Exec>, i: nat): string
    requires i <= |execs|
  {
    if i == 0 then "none" else execs[i - 1].stored
  }

  // What the program makes of it: the query is for the stored name, and a query that ran stores the name shown.
  ghost predicate AsStored(execs: seq<Exec>, i: nat) {
    i < |execs| ==>
      && execs[i].db == EngineDb(StoredDb(execs, i))
      && execs[i].stored == if execs[i].fate.HasRun? then ShownDb(execs[i].left) else StoredDb(execs, i)
  }

  ghost predicate AllAsStored(execs: seq<Exec>) {
    forall i: nat :: AsStored(execs, i)
  }

  // The database that the connection's queries before query i really left selected; the empty name is none.
  function SelectedBefore(execs: seq<Exec>, i: nat): string
    requires i <= |execs|
  {
    if i == 0 then "" else if execs[i - 1].fate.WasRefused? then SelectedBefore(execs, i - 1) else execs[i - 1].left
  }

  ghost predicate UnderOwnDb(execs: seq<Exec>, i: nat) {
    i < |execs| ==> execs[i].db == SelectedBefore(execs, i)
  }

  // The last query before query i that was not refused left no database of the name "none", and, if it threw,
  // the one it began with.  Only the interface of the callback lets a query throw: run_query catches what it throws.
  predicate LastIsKept(execs: seq<Exec>, i: nat)
    requires i <= |execs|
  {
    i == 0 || match execs[i - 1].fate
      case WasRefused => LastIsKept(execs, i - 1)
      case HasRun => execs[i - 1].left != "none"
      case HasThrown => execs[i - 1].left == execs[i - 1].db
  }

  // A query is for the database that its own connection last selected, exactly then.
  lemma {:induction false} OwnDbExactly(execs: seq<Exec>, i: nat)
    requires AllAsStored(execs) && i <= |execs|
    ensures EngineDb(StoredDb(execs, i)) == SelectedBefore(execs, i) <==> LastIsKept(execs, i)
    ensures i < |execs| ==> (UnderOwnDb(execs, i) <==> LastIsKept(execs, i))
  {
    assert AsStored(execs, i);
    if i > 0 {
      assert AsStored(execs, i - 1);
      if execs[i - 1].fate.WasRefused? {
        OwnDbExactly(execs, i - 1);
      }
    }
  }

  // Every query is for its own connection's database, except just after that was lost.
  ghost predicate Threaded(execs: seq<Exec>) {
    forall i: nat :: i < |execs| ==> (UnderOwnDb(execs, i) <==> LastIsKept(execs, i))
  }

  function Reply(status: string, db: string, body: string): string {
    status + "\nCURRENT_DB: " + db + "\n" + body + "\nEND\n"
  }

  function ToLower(s: string): string {
    seq(|s|, i requires 0 <= i < |s| => if 'A' <= s[i] <= 'Z' then s[i] - 'A' + 'a' else s[i])
  }

  predicate IsExit(line: string) {
    ToLower(line) == "exit;" || ToLower(line) == "quit;"
  }

  ghost predicate Recorded(h: History) {
    Complete(h.consumed) && h.tasks == Tasks(h.consumed) && h.answered == Responses(h.execs) && AllAsStored(h.execs)
  }

  // What holds of a connection's history, and goes on holding when the connection is gone.
  ghost predicate HistoryOk(h: History) {
    && Recorded(h) && h.consumed <= h.received && h.written <= h.answered
    && |h.execs| <= |h.tasks| && forall i :: 0 <= i < |h.execs| ==> h.execs[i].sql == h.tasks[i]
  }

  // Queries are executed in the order their lines arrived, each under its own connection's database as long as
  // that is kept, and what was sent is the beginning of their responses in that order.
  lemma {:induction false} HistoryTold(h: History)
    requires HistoryOk(h)
    ensures Sqls(h.execs) <= Tasks(h.received) && Threaded(h.execs) && h.written <= Responses(h.execs)
  {
    var rest := h.received[|h.consumed|..];
    assert h.received == h.consumed + rest;
    TasksConcat(h.consumed, rest);
    forall i: nat | i < |h.execs| ensures UnderOwnDb(h.execs, i) <==> LastIsKept(h.execs, i) {
      OwnDbExactly(h.execs, i);
    }
  }

  // A live connection and its history.
  ghost predicate ConnOk(c: Connection, h: History) {
    && h.received == h.consumed + c.recvBuffer
    && c.currentDb == StoredDb(h.execs, |h.execs|)
    && c.sendOffset <= |c.response|
    && (c.state != PENDING_RESULT ==>
      |h.tasks| == |h.execs|
        && h.written + (if c.state == WRITING then c.response[c.sendOffset..] else "") == h.answered)
  }

  ghost predicate Waits(h: History, sql: string) {
    |h.tasks| == |h.execs| + 1 && h.tasks[|h.execs|] == sql && h.written == h.answered
  }

  ghost predicate Answered(h: History, response: string) {
    |h.tasks| == |h.execs| && h.written + response == h.answered
  }

  // Nothing happened yet.
  lemma {:induction false} FreshOk()
    ensures HistoryOk(NO_HISTORY) && ConnOk(NEW_CONNECTION, NO_HISTORY)
  {
    assert Tasks("") == [];
  }

  // The record of a query that was not run, and of one that was.
  function Refused(sql: string, db: string): Exec {
    Exec(sql, WasRefused, db, db, db, Reply("ERR", "none", "Database does not exist: " + db))
  }

  function Executed(sql: string, engineDb: string, currentDb: string, outcome: Outcome): Exec {
    match outcome
    case Ran(db, output) => Exec(sql, HasRun, engineDb, db, ShownDb(db), Reply("OK", ShownDb(db), output))
    case Threw(db, message) => Exec(sql, HasThrown, engineDb, db, currentDb, Reply("ERR", ShownDb(currentDb), message))
  }

  // A query executed and its response kept for sending.
  function ExecDone(h: History, e: Exec): History {
    h.(execs := h.execs + [e], answered := h.answered + e.response)
  }

  lemma {:induction false} ExecAdded(c: Connection, h: History, e: Exec)
    requires ConnOk(c, h) && HistoryOk(h) && c.state == PENDING_RESULT && Waits(h, e.sql)
      && e.db == EngineDb(c.currentDb)
    requires e.stored == if e.fate.HasRun? then ShownDb(e.left) else c.currentDb
    ensures ConnOk(c.(currentDb := e.stored), ExecDone(h, e)) && HistoryOk(ExecDone(h, e))
      && Answered(ExecDone(h, e), e.response)
  {
    var execs := h.execs + [e];
    assert execs[..|execs| - 1] == h.execs;
    forall i: nat ensures AsStored(execs, i) {
      assert AsStored(h.execs, i);
    }
  }

  // More bytes arrive.
  lemma {:induction false} BytesAdded(c: Connection, h: History, text: string)
    requires ConnOk(c, h) && HistoryOk(h) && (c.state == IDLE || c.state == READING)
    ensures ConnOk(c.(state := READING, recvBuffer := c.recvBuffer + text), h.(received := h.received + text))
    ensures HistoryOk(h.(received := h.received + text))
  {
    assert h.received + text == h.consumed + (c.recvBuffer + text);
  }

  // A line is cut off the received bytes.
  function LineDone(h: History, line: string): History {
    h.(consumed := h.consumed + line + "\n", tasks := if line == "" then h.tasks else h.tasks + [line])
  }

  lemma {:induction false} LineCut(c: Connection, h: History, line: string, rest: string)
    requires ConnOk(c, h) && HistoryOk(h) && (c.state == IDLE || c.state == READING)
    requires c.recvBuffer == line + "\n" + rest && NoNewline(line)
    ensures HistoryOk(LineDone(h, line))
    ensures line == "" ==> ConnOk(c.(state := IDLE, recvBuffer := rest), LineDone(h, line))
    ensures line != "" ==> ConnOk(c.(state := PENDING_RESULT, recvBuffer := rest), LineDone(h, line))
                           && Waits(LineDone(h, line), line)
  {
    TakeLine(h.consumed, line);
    assert h.consumed + c.recvBuffer == h.consumed + line + "\n" + rest;
  }

  // Part of the response is sent.
  function SentDone(c: Connection, h: History, n: nat): History
    requires c.sendOffset + n <= |c.response|
  {
    h.(written := h.written + c.response[c.sendOffset..c.sendOffset + n])
  }

  lemma {:induction false} SentPart(response: string, offset: nat, n: nat)
    requires offset + n <= |response|
    ensures response[offset..] == response[offset..offset + n] + response[offset + n..]
  {
  }

  lemma {:induction false} BytesSent(c: Connection, h: History, n: nat)
    requires ConnOk(c, h) && HistoryOk(h) && c.state == WRITING && c.sendOffset + n <= |c.response|
    ensures HistoryOk(SentDone(c, h, n)) && ConnOk(c.(sendOffset := c.sendOffset + n), SentDone(c, h, n))
    ensures c.sendOffset + n == |c.response| ==>
      ConnOk(c.(state := IDLE, response := "", sendOffset := 0), SentDone(c, h, n))
  {
    SentPart(c.response, c.sendOffset, n);
    var part, rest := c.response[c.sendOffset..c.sendOffset + n], c.response[c.sendOffset + n..];
    assert (h.written + part) + rest == h.written + (part + rest) == h.answered;
    assert h.written + part <= h.answered;
  }

  // A connection as the event loop leaves it after a visit, with the query it hands to the worker, if any.
  datatype Visit = Visit(c: Connection, h: History, task: Option<string>)

  // A complete line: leave, a query for the worker, or nothing.
  function Submitted(c: Connection, h: History, line: string, rest: string): Visit {
    if IsExit(line) then Visit(c.(recvBuffer := rest, state := CLOSED), h, None)
    else if line == "" then Visit(c.(recvBuffer := rest, state := IDLE), LineDone(h, line), None)
    else Visit(c.(recvBuffer := rest, state := PENDING_RESULT), LineDone(h, line), Some(line))
  }

  // The first line of the buffer, if there is one.
  function FirstLine(c: Connection, h: History): Visit {
    var n := Newline(c.recvBuffer);
    if n == |c.recvBuffer| then Visit(c, h, None) else Submitted(c, h, c.recvBuffer[..n], c.recvBuffer[n + 1..])
  }

  // Lines until one is more than nothing.
  function NextRequest(c: Connection, h: History): Visit
    decreases |c.recvBuffer|
  {
    var v := FirstLine(c, h);
    if v.c.state != IDLE || |v.c.recvBuffer| >= |c.recvBuffer| then v else NextRequest(v.c, v.h)
  }

  // A connection whose socket was read.
  function ReadVisit(c: Connection, h: History, input: Input): Visit {
    match input
    case Gone => Visit(c.(state := CLOSED), h, None)
    case WouldBlock => Visit(c.(state := READING), h, None)
    case Data(text) => FirstLine(c.(state := READING, recvBuffer := c.recvBuffer + text),
                       h.(received := h.received + text))
  }

  // A connection whose socket took `sent` bytes or failed; when the response is out, the next request is looked for.
  function WriteVisit(c: Connection, h: History, sent: int): Visit
    requires sent <= |c.response| - c.sendOffset
  {
    if sent < 0 then Visit(c.(state := CLOSED), h, None)
    else if sent == 0 then Visit(c, h, None)
    else if c.sendOffset + sent < |c.response|
         then Visit(c.(sendOffset := c.sendOffset + sent), SentDone(c, h, sent), None)
    else NextRequest(c.(state := IDLE, response := "", sendOffset := 0), SentDone(c, h, sent))
  }

  ghost predicate VisitOk(v: Visit) {
    && HistoryOk(v.h)
    && (v.task.Some? ==> v.c.state == PENDING_RESULT && ConnOk(v.c, v.h) && Waits(v.h, v.task.value))
    && (v.task.None? ==> v.c.state != PENDING_RESULT && (v.c.state != CLOSED ==> ConnOk(v.c, v.h)))
  }

  lemma {:induction false} FirstLineOk(c: Connection, h: History)
    requires ConnOk(c, h) && HistoryOk(h) && (c.state == IDLE || c.state == READING)
    ensures VisitOk(FirstLine(c, h))
  {
    var n := Newline(c.recvBuffer);
    if n < |c.recvBuffer| {
      assert c.recvBuffer == c.recvBuffer[..n] + "\n" + c.recvBuffer[n + 1..];
      LineCut(c, h, c.recvBuffer[..n], c.recvBuffer[n + 1..]);
    }
  }

  lemma {:induction false} NextRequestOk(c: Connection, h: History)
    requires ConnOk(c, h) && HistoryOk(h) && c.state == IDLE
    ensures VisitOk(NextRequest(c, h))
    decreases |c.recvBuffer|
  {
    var v := FirstLine(c, h);
    FirstLineOk(c, h);
    if !(v.c.state != IDLE || |v.c.recvBuffer| >= |c.recvBuffer|) {
      NextRequestOk(v.c, v.h);
    }
  }

  lemma {:induction false} ReadVisitOk(c: Connection, h: History, input: Input)
    requires ConnOk(c, h) && HistoryOk(h) && (c.state == IDLE || c.state == READING)
    ensures VisitOk(ReadVisit(c, h, input))
  {
    if input.Data? {
      BytesAdded(c, h, input.text);
      FirstLineOk(c.(state := READING, recvBuffer := c.recvBuffer + input.text),
        h.(received := h.received + input.text));
    }
  }

  lemma {:induction false} WriteVisitOk(c: Connection, h: History, sent: int)
    requires ConnOk(c, h) && HistoryOk(h) && c.state == WRITING && sent <= |c.response| - c.sendOffset
    ensures VisitOk(WriteVisit(c, h, sent))
  {
    if sent > 0 {
      BytesSent(c, h, sent);
      if c.sendOffset + sent == |c.response| {
        NextRequestOk(c.(state := IDLE, response := "", sendOffset := 0), SentDone(c, h, sent));
      }
    }
  }

  // Everything the event loop and the worker share, what the worker has in hand, and the record kept of it.
  // Tasks are numbered from 1; `taken` of them have left the queue.
  datatype State = State(
    conns: map<nat, Connection>, nextId: nat, queue: seq<Task>, taken: nat, hand: Hand, engineDb: string,
    locked: bool, toRemove: seq<nat>, hist: map<nat, History>)

  const INITIAL := State(map[], 1, [], 0, Empty, "", false, [], map[])

  // A connection that waits for a result.
  ghost predicate Pending(s: State, id: nat) {
    id in s.conns && s.conns[id].state == PENDING_RESULT
  }

  // Connections agree with their histories; the event loop closes them only inside its locked section, and keeps
  // account of them.
  ghost predicate LiveOk(s: State, id: nat) {
    && (id in s.conns ==> id in s.hist && (s.conns[id].state == CLOSED || ConnOk(s.conns[id], s.hist[id])))
    && (id in s.conns ==> (s.conns[id].state == CLOSED <==> id in s.toRemove))
    && (id in s.hist ==> id < s.nextId && HistoryOk(s.hist[id]))
  }

  // Every queued task is the last one of a connection that waits for its result.
  ghost predicate QueuedOk(s: State, i: nat) {
    i < |s.queue| ==>
      && Pending(s, s.queue[i].0) && s.queue[i].0 in s.hist
      && s.hist[s.queue[i].0].ticket == s.taken + 1 + i && Waits(s.hist[s.queue[i].0], s.queue[i].1)
  }

  // So is the one in the worker's hand.
  ghost predicate HandOk(s: State) {
    !s.hand.Empty? ==>
      && Pending(s, s.hand.id) && s.hand.id in s.hist && s.hist[s.hand.id].ticket == s.taken
      && (if s.hand.Answer? then Answered(s.hist[s.hand.id], s.hand.response) else Waits(s.hist[s.hand.id], s.hand.sql))
      && (s.hand.Selected? ==> s.engineDb == EngineDb(s.conns[s.hand.id].currentDb))
  }

  // A connection waits only if its last task is in the queue or in the worker's hand.
  ghost predicate ServedOk(s: State, id: nat) {
    Pending(s, id) && id in s.hist ==>
      var t := s.hist[id].ticket;
      if t <= s.taken then !s.hand.Empty? && s.hand.id == id
      else t - s.taken <= |s.queue| && s.queue[t - s.taken - 1].0 == id
  }

  ghost predicate ServerOk(s: State) {
    && (forall id: nat :: LiveOk(s, id)) && (!s.locked ==> s.toRemove == [])
    && (forall i: nat :: QueuedOk(s, i)) && HandOk(s) && (forall id: nat :: ServedOk(s, id))
  }

  // How many tasks of a connection there are, in the queue and in the worker's hand.
  ghost function TasksOf(s: State, id: nat): nat {
    multiset(Ids(s.queue))[id] + if !s.hand.Empty? && s.hand.id == id then 1 else 0
  }

  function Ids(queue: seq<Task>): (r: seq<nat>)
    ensures |r| == |queue| && forall i :: 0 <= i < |r| ==> r[i] == queue[i].0
  {
    seq(|queue|, i requires 0 <= i < |queue| => queue[i].0)
  }

  // A connection is waiting for a result exactly when there is one task of its own; otherwise there is none.
  lemma {:induction false} OneTask(s: State, id: nat)
    requires ServerOk(s)
    ensures TasksOf(s, id) == if Pending(s, id) then 1 else 0
  {
    var ids := Ids(s.queue);
    forall i: nat | i < |ids| && ids[i] == id
      ensures Pending(s, id) && id in s.hist && s.hist[id].ticket == s.taken + 1 + i {
      assert QueuedOk(s, i);
    }
    assert LiveOk(s, id) && ServedOk(s, id);
    if Pending(s, id) && s.hist[id].ticket > s.taken {
      var i := s.hist[id].ticket - s.taken - 1;
      assert ids == ids[..i] + [id] + ids[i + 1..];
      assert id !in ids[..i] && id !in ids[i + 1..];
    } else {
      assert id !in ids;
    }
  }

  function IdSet(ids: seq<nat>): set<nat> {
    set id | id in ids
  }

  // The steps: the event loop's, then the worker's.
  function Joined(s: State): State {
    s.(conns := s.conns[s.nextId := NEW_CONNECTION], hist := s.hist[s.nextId := NO_HISTORY], nextId := s.nextId + 1)
  }

  function Visited(s: State, id: nat, v: Visit): State {
    s.(conns := s.conns[id := v.c],
       hist := s.hist[id := if v.task.Some? then v.h.(ticket := s.taken + |s.queue| + 1) else v.h],
       queue := if v.task.Some? then s.queue + [(id, v.task.value)] else s.queue,
       toRemove := if v.c.state == CLOSED then s.toRemove + [id] else s.toRemove)
  }

  function Swept(s: State): State {
    s.(conns := s.conns - IdSet(s.toRemove), locked := false, toRemove := [])
  }

  function Taken(s: State): State {
    if s.queue == [] then s
    else s.(queue := s.queue[1..], taken := s.taken + 1, hand := Popped(s.queue[0].0, s.queue[0].1))
  }

  function Found(s: State): State
    requires s.hand.Popped?
  {
    s.(hand := if s.hand.id in s.conns then Holding(s.hand.id, s.hand.sql) else Empty)
  }

  function DbSelected(s: State, found: bool): State
    requires s.hand.Holding? && s.hand.id in s.conns && s.hand.id in s.hist
  {
    var id, sql, db := s.hand.id, s.hand.sql, s.conns[s.hand.id].currentDb;
    if found || EngineDb(db) == "" then s.(hand := Selected(id, sql), engineDb := EngineDb(db))
    else s.(hist := s.hist[id := ExecDone(s.hist[id], Refused(sql, db))], hand := Answer(id, Refused(sql, db).response))
  }

  function QueryRun(s: State, outcome: Outcome): State
    requires s.hand.Selected? && s.hand.id in s.conns && s.hand.id in s.hist
  {
    var id, c := s.hand.id, s.conns[s.hand.id];
    var e := Executed(s.hand.sql, s.engineDb, c.currentDb, outcome);
    s.(conns := s.conns[id := c.(currentDb := e.stored)], hist := s.hist[id := ExecDone(s.hist[id], e)],
       hand := Answer(id, e.response), engineDb := outcome.db)
  }

  function Published(s: State): State
    requires s.hand.Answer?
  {
    var id := s.hand.id;
    s.(conns :=
      if id in s.conns then s.conns[id := s.conns[id].(state := WRITING, response := s.hand.response, sendOffset := 0)]
                            else s.conns,
       hand := Empty)
  }

  datatype Event =
    | AcceptEvent
    | LockEvent
    | ReceiveEvent(id: nat, input: Input)
    | SendEvent(id: nat, sent: int)
    | UnlockEvent
    | TakeEvent
    | FindEvent
    | SelectEvent(found: bool)
    | RunEvent(outcome: Outcome)
    | PublishEvent

  // Which steps can be next: the locks, where the worker is in its loop, and what its socket allows a connection.
  predicate Enabled(s: State, e: Event) {
    match e
    case AcceptEvent => !s.locked
    case LockEvent => !s.locked
    case ReceiveEvent(id, _) => s.locked && id in s.conns && (s.conns[id].state == IDLE || s.conns[id].state == READING)
    case SendEvent(id, sent) => s.locked && id in s.conns && s.conns[id].state == WRITING
                                && sent <= |s.conns[id].response| - s.conns[id].sendOffset
    case UnlockEvent => s.locked
    case TakeEvent => s.hand.Empty?
    case FindEvent => s.hand.Popped? && !s.locked
    case SelectEvent(_) => s.hand.Holding?
    case RunEvent(_) => s.hand.Selected?
    case PublishEvent => s.hand.Answer? && !s.locked
  }

  // The connection that a step uses exists.  The worker uses its pointer without the lock.
  predicate Safe(s: State, e: Event) {
    match e
    case ReceiveEvent(id, _) => id in s.hist
    case SendEvent(id, _) => id in s.hist
    case SelectEvent(_) => s.hand.Holding? && s.hand.id in s.conns && s.hand.id in s.hist
    case RunEvent(_) => s.hand.Selected? && s.hand.id in s.conns && s.hand.id in s.hist
    case _ => true
  }

  function Step(s: State, e: Event): State
    requires Enabled(s, e) && Safe(s, e)
  {
    match e
    case AcceptEvent => Joined(s)
    case LockEvent => s.(locked := true, toRemove := [])
    case ReceiveEvent(id, input) => Visited(s, id, ReadVisit(s.conns[id], s.hist[id], input))
    case SendEvent(id, sent) => Visited(s, id, WriteVisit(s.conns[id], s.hist[id], sent))
    case UnlockEvent => Swept(s)
    case TakeEvent => Taken(s)
    case FindEvent => Found(s)
    case SelectEvent(found) => DbSelected(s, found)
    case RunEvent(outcome) => QueryRun(s, outcome)
    case PublishEvent => Published(s)
  }

  // Steps that leave waiting connections, their histories and the queue as they are.
  lemma {:induction false} TasksFrame(s: State, s': State)
    requires ServerOk(s) && s'.queue == s.queue && s'.taken == s.taken && s'.hand == s.hand && s'.engineDb == s.engineDb
    requires forall id :: Pending(s, id) ==>
      id in s'.conns && s'.conns[id] == s.conns[id] && id in s.hist && id in s'.hist && s'.hist[id] == s.hist[id]
    requires forall id :: Pending(s', id) ==> Pending(s, id)
    requires forall id: nat :: LiveOk(s', id)
    requires !s'.locked ==> s'.toRemove == []
    ensures ServerOk(s')
  {
    forall i: nat ensures QueuedOk(s', i) {
      assert QueuedOk(s, i);
    }
    forall id: nat ensures ServedOk(s', id) {
      assert ServedOk(s, id);
    }
    assert !s.hand.Empty? ==> Pending(s, s.hand.id);
  }

  lemma {:induction false} JoinedOk(s: State)
    requires ServerOk(s) && !s.locked
    ensures ServerOk(Joined(s)) && s.nextId !in s.hist && s.nextId !in s.conns
  {
    var s' := Joined(s);
    FreshOk();
    assert LiveOk(s, s.nextId);
    forall id: nat ensures LiveOk(s', id) && (Pending(s, id) ==> id in s.hist) {
      assert LiveOk(s, id);
    }
    TasksFrame(s, s');
  }

  lemma {:induction false} LockedOk(s: State)
    requires ServerOk(s) && !s.locked
    ensures ServerOk(s.(locked := true, toRemove := []))
  {
    var s' := s.(locked := true, toRemove := []);
    forall id: nat ensures LiveOk(s', id) && (Pending(s, id) ==> id in s.hist) {
      assert LiveOk(s, id);
    }
    TasksFrame(s, s');
  }

  // Only closed connections are erased, and none of them has a task.
  lemma {:induction false} SweptOk(s: State)
    requires ServerOk(s) && s.locked
    ensures ServerOk(Swept(s)) && forall id :: Pending(s, id) ==> id in Swept(s).conns
  {
    var s' := Swept(s);
    forall id: nat ensures LiveOk(s', id) && (Pending(s, id) ==> id in s.hist && id in s'.conns) {
      assert LiveOk(s, id);
    }
    TasksFrame(s, s');
  }

  lemma {:induction false} VisitedOk(s: State, id: nat, v: Visit)
    requires ServerOk(s) && s.locked && id in s.conns && s.conns[id].state != PENDING_RESULT
      && s.conns[id].state != CLOSED && VisitOk(v)
    ensures ServerOk(Visited(s, id, v))
  {
    var s' := Visited(s, id, v);
    forall x: nat ensures LiveOk(s', x) && (Pending(s, x) ==> x in s.hist) {
      assert LiveOk(s, x);
    }
    if v.task.None? {
      TasksFrame(s, s');
    } else {
      TaskQueued(s, id, v);
    }
  }

  lemma {:induction false} TaskQueued(s: State, id: nat, v: Visit)
    requires ServerOk(s) && id in s.conns && !Pending(s, id) && v.task.Some? && VisitOk(v)
    requires forall x: nat :: LiveOk(Visited(s, id, v), x)
    requires s.locked
    ensures ServerOk(Visited(s, id, v))
  {
    var s' := Visited(s, id, v);
    forall i: nat ensures QueuedOk(s', i) {
      assert QueuedOk(s, i);
    }
    forall x: nat ensures ServedOk(s', x) {
      assert ServedOk(s, x);
    }
  }

  lemma {:induction false} TakenOk(s: State)
    requires ServerOk(s) && s.hand.Empty? && s.queue != []
    ensures ServerOk(Taken(s))
  {
    var s' := Taken(s);
    assert QueuedOk(s, 0);
    forall i: nat ensures QueuedOk(s', i) {
      assert QueuedOk(s, i + 1);
    }
    forall id: nat ensures LiveOk(s', id) && ServedOk(s', id) {
      assert LiveOk(s, id) && ServedOk(s, id);
    }
  }

  // The connection whose task is in hand.
  lemma {:induction false} HandConnection(s: State)
    requires ServerOk(s) && !s.hand.Empty?
    ensures s.hand.id in s.conns && s.conns[s.hand.id].state == PENDING_RESULT && s.hand.id in s.hist
    ensures ConnOk(s.conns[s.hand.id], s.hist[s.hand.id]) && HistoryOk(s.hist[s.hand.id])
      && s.hist[s.hand.id].ticket == s.taken
    ensures if s.hand.Answer? then Answered(s.hist[s.hand.id], s.hand.response)
                                   else Waits(s.hist[s.hand.id], s.hand.sql)
    ensures s.hand.Selected? ==> s.engineDb == EngineDb(s.conns[s.hand.id].currentDb)
  {
    assert LiveOk(s, s.hand.id);
  }

  // What the worker does to the connection whose task it has in hand.
  lemma {:induction false} WorkerOk(s: State, s': State, c: Connection, h: History)
    requires ServerOk(s) && !s.hand.Empty? && c.state != CLOSED && ConnOk(c, h) && HistoryOk(h) && h.ticket == s.taken
    requires s' ==
      s.(conns := s.conns[s.hand.id := c], hist := s.hist[s.hand.id := h], hand := s'.hand, engineDb := s'.engineDb)
    requires s'.hand.Empty? ==> c.state != PENDING_RESULT
    requires !s'.hand.Empty? ==> s'.hand.id == s.hand.id && c.state == PENDING_RESULT
    requires !s'.hand.Empty? ==> if s'.hand.Answer? then Answered(h, s'.hand.response) else Waits(h, s'.hand.sql)
    requires s'.hand.Selected? ==> s'.engineDb == EngineDb(c.currentDb)
    ensures ServerOk(s')
  {
    assert LiveOk(s, s.hand.id);
    forall x: nat ensures LiveOk(s', x) && ServedOk(s', x) {
      assert LiveOk(s, x) && ServedOk(s, x);
    }
    forall i: nat ensures QueuedOk(s', i) {
      assert QueuedOk(s, i);
    }
  }

  // Every step that can be next is safe, and keeps all of this.
  lemma {:induction false} StepSafe(s: State, e: Event)
    requires ServerOk(s) && Enabled(s, e)
    ensures Safe(s, e)
  {
    if !s.hand.Empty? {
      HandConnection(s);
    }
    if e.ReceiveEvent? || e.SendEvent? {
      assert LiveOk(s, e.id);
    }
  }

  lemma {:induction false} StepOk(s: State, e: Event)
    requires ServerOk(s) && Enabled(s, e) && Safe(s, e)
    ensures ServerOk(Step(s, e))
  {
    match e
    case AcceptEvent => JoinedOk(s);
    case LockEvent => LockedOk(s);
    case ReceiveEvent(id, input) => ReceiveOk(s, id, input);
    case SendEvent(id, sent) => SendOk(s, id, sent);
    case UnlockEvent => SweptOk(s);
    case TakeEvent => if s.queue != [] { TakenOk(s); }
    case FindEvent => FoundOk(s);
    case SelectEvent(found) => DbSelectedOk(s, found);
    case RunEvent(outcome) => QueryRunOk(s, outcome);
    case PublishEvent => PublishedOk(s);
  }

  lemma {:induction false} ReceiveOk(s: State, id: nat, input: Input)
    requires ServerOk(s) && Enabled(s, ReceiveEvent(id, input)) && id in s.hist
    ensures ServerOk(Visited(s, id, ReadVisit(s.conns[id], s.hist[id], input)))
  {
    assert LiveOk(s, id);
    ReadVisitOk(s.conns[id], s.hist[id], input);
    VisitedOk(s, id, ReadVisit(s.conns[id], s.hist[id], input));
  }

  lemma {:induction false} SendOk(s: State, id: nat, sent: int)
    requires ServerOk(s) && Enabled(s, SendEvent(id, sent)) && id in s.hist
    ensures ServerOk(Visited(s, id, WriteVisit(s.conns[id], s.hist[id], sent)))
  {
    assert LiveOk(s, id);
    WriteVisitOk(s.conns[id], s.hist[id], sent);
    VisitedOk(s, id, WriteVisit(s.conns[id], s.hist[id], sent));
  }

  // No task is dropped: its connection is always found.
  lemma {:induction false} FoundOk(s: State)
    requires ServerOk(s) && s.hand.Popped?
    ensures Found(s).hand == Holding(s.hand.id, s.hand.sql) && ServerOk(Found(s))
  {
    HandConnection(s);
    assert s.conns[s.hand.id := s.conns[s.hand.id]] == s.conns && s.hist[s.hand.id := s.hist[s.hand.id]] == s.hist;
    WorkerOk(s, Found(s), s.conns[s.hand.id], s.hist[s.hand.id]);
  }

  lemma {:induction false} DbSelectedOk(s: State, found: bool)
    requires ServerOk(s) && s.hand.Holding? && s.hand.id in s.conns && s.hand.id in s.hist
    ensures ServerOk(DbSelected(s, found))
  {
    HandConnection(s);
    var c, h := s.conns[s.hand.id], s.hist[s.hand.id];
    assert s.conns[s.hand.id := c] == s.conns && s.hist[s.hand.id := h] == s.hist;
    if found || EngineDb(c.currentDb) == "" {
      WorkerOk(s, DbSelected(s, found), c, h);
    } else {
      ExecAdded(c, h, Refused(s.hand.sql, c.currentDb));
      WorkerOk(s, DbSelected(s, found), c, ExecDone(h, Refused(s.hand.sql, c.currentDb)));
    }
  }

  lemma {:induction false} QueryRunOk(s: State, outcome: Outcome)
    requires ServerOk(s) && s.hand.Selected? && s.hand.id in s.conns && s.hand.id in s.hist
    ensures s.engineDb == EngineDb(s.conns[s.hand.id].currentDb) && ServerOk(QueryRun(s, outcome))
  {
    HandConnection(s);
    var c, h := s.conns[s.hand.id], s.hist[s.hand.id];
    var e := Executed(s.hand.sql, s.engineDb, c.currentDb, outcome);
    ExecAdded(c, h, e);
    WorkerOk(s, QueryRun(s, outcome), c.(currentDb := e.stored), ExecDone(h, e));
  }

  lemma {:induction false} PublishedOk(s: State)
    requires ServerOk(s) && s.hand.Answer?
    ensures s.hand.id in s.conns && ServerOk(Published(s))
  {
    HandConnection(s);
    var c, h := s.conns[s.hand.id], s.hist[s.hand.id];
    assert s.hist[s.hand.id := h] == s.hist;
    WorkerOk(s, Published(s), c.(state := WRITING, response := s.hand.response, sendOffset := 0), h);
  }

  // The state after a schedule; events that cannot be next are passed over.
  ghost function Run(s: State, events: seq<Event>): (r: State)
    requires ServerOk(s)
    ensures ServerOk(r)
    decreases |events|
  {
    if events == [] then s
    else if !Enabled(s, events[0]) then Run(s, events[1..])
    else
      StepSafe(s, events[0]);
      StepOk(s, events[0]);
      Run(Step(s, events[0]), events[1..])
  }

  lemma {:induction false} InitialOk()
    ensures ServerOk(INITIAL)
  {
  }

  // Whatever the interleaving: one task for each waiting connection and none for another, the worker's connection
  // is there, queries are executed in the order their lines arrived, each under the database its own connection
  // last selected exactly when that is kept, and what was sent is the beginning of their responses in that order.
  lemma {:induction false} EveryInterleaving(events: seq<Event>, id: nat)
    ensures ServerOk(INITIAL)
    ensures TasksOf(Run(INITIAL, events), id) == if Pending(Run(INITIAL, events), id) then 1 else 0
    ensures !Run(INITIAL, events).hand.Empty? ==> Run(INITIAL, events).hand.id in Run(INITIAL, events).conns
    ensures id in Run(INITIAL, events).hist ==>
      var h := Run(INITIAL, events).hist[id];
      Sqls(h.execs) <= Tasks(h.received) && Threaded(h.execs) && h.written <= Responses(h.execs)
  {
    InitialOk();
    var s := Run(INITIAL, events);
    OneTask(s, id);
    assert LiveOk(s, id);
    if id in s.hist {
      HistoryTold(s.hist[id]);
    }
    if !s.hand.Empty? {
      HandConnection(s);
    }
  }

  lemma {:induction false} RunOne(s: State, e: Event, events: seq<Event>)
    requires ServerOk(s) && Enabled(s, e)
    ensures Safe(s, e) && ServerOk(Step(s, e)) && Run(s, [e] + events) == Run(Step(s, e), events)
  {
    StepSafe(s, e);
    StepOk(s, e);
    assert ([e] + events)[1..] == events;
  }

  lemma {:induction false} RunConcat(s: State, a: seq<Event>, b: seq<Event>)
    requires ServerOk(s)
    ensures Run(s, a + b) == Run(Run(s, a), b)
    decreases |a|
  {
    if a == [] {
      assert a + b == b;
    } else {
      assert (a + b)[0] == a[0] && (a + b)[1..] == a[1..] + b;
      if Enabled(s, a[0]) {
        StepSafe(s, a[0]);
        StepOk(s, a[0]);
        RunConcat(Step(s, a[0]), a[1..], b);
      } else {
        RunConcat(s, a[1..], b);
      }
    }
  }

  // Connection 1 between two requests, with a request queued, and with a response to send.
  ghost predicate Resting(s: State, db: string, execs: seq<Exec>) {
    && ServerOk(s) && !s.locked && s.hand.Empty? && s.queue == [] && 1 in s.conns && 1 in s.hist
    && s.conns[1] == Connection(IDLE, "", db, "", 0) && s.hist[1].execs == execs
  }

  ghost predicate Asking(s: State, db: string, execs: seq<Exec>, sql: string) {
    && ServerOk(s) && !s.locked && s.hand.Empty? && s.queue == [(1, sql)] && 1 in s.conns && 1 in s.hist
    && s.conns[1] == Connection(PENDING_RESULT, "", db, "", 0) && s.hist[1].execs == execs
  }

  ghost predicate Answering(s: State, db: string, execs: seq<Exec>, response: string) {
    && ServerOk(s) && !s.locked && s.hand.Empty? && s.queue == [] && 1 in s.conns && 1 in s.hist
    && s.conns[1] == Connection(WRITING, "", db, response, 0) && s.hist[1].execs == execs
  }

  // One line arrives, the worker runs it, the response goes out.
  function Ask(sql: string): seq<Event> {
    [LockEvent, ReceiveEvent(1, Data(sql + "\n")), UnlockEvent]
  }

  function Work(outcome: Outcome): seq<Event> {
    [TakeEvent, FindEvent, SelectEvent(true), RunEvent(outcome), PublishEvent]
  }

  function Deliver(n: nat): seq<Event> {
    [LockEvent, SendEvent(1, n), UnlockEvent]
  }

  lemma {:induction false} LineArrives(c: Connection, h: History, sql: string)
    requires c.recvBuffer == "" && NoNewline(sql) && |sql| > 5
    ensures var v := ReadVisit(c, h, Data(sql + "\n"));
      v.c == c.(state := PENDING_RESULT) && v.task == Some(sql) && v.h.execs == h.execs
  {
    var text := sql + "\n";
    assert "" + text == text;
    NewlineAt(text, |sql|);
    assert text[..|sql|] == sql && text[|sql| + 1..] == "";
  }

  lemma {:induction false} Asked(s: State, db: string, execs: seq<Exec>, sql: string)
    requires Resting(s, db, execs) && NoNewline(sql) && |sql| > 5
    ensures Asking(Run(s, Ask(sql)), db, execs, sql)
  {
    RunOne(s, LockEvent, [ReceiveEvent(1, Data(sql + "\n")), UnlockEvent]);
    var s1 := Step(s, LockEvent);
    LineArrives(s1.conns[1], s1.hist[1], sql);
    RunOne(s1, ReceiveEvent(1, Data(sql + "\n")), [UnlockEvent]);
    var s2 := Step(s1, ReceiveEvent(1, Data(sql + "\n")));
    RunOne(s2, UnlockEvent, []);
  }

  lemma {:induction false} Worked(s: State, db: string, execs: seq<Exec>, sql: string, outcome: Outcome)
    requires Asking(s, db, execs, sql)
    ensures var e := Executed(sql, EngineDb(db), db, outcome);
      Answering(Run(s, Work(outcome)), e.stored, execs + [e], e.response)
  {
    RunOne(s, TakeEvent, [FindEvent, SelectEvent(true), RunEvent(outcome), PublishEvent]);
    var s1 := Step(s, TakeEvent);
    RunOne(s1, FindEvent, [SelectEvent(true), RunEvent(outcome), PublishEvent]);
    var s2 := Step(s1, FindEvent);
    RunOne(s2, SelectEvent(true), [RunEvent(outcome), PublishEvent]);
    var s3 := Step(s2, SelectEvent(true));
    RunOne(s3, RunEvent(outcome), [PublishEvent]);
    var s4 := Step(s3, RunEvent(outcome));
    RunOne(s4, PublishEvent, []);
  }

  lemma {:induction false} Replied(s: State, db: string, execs: seq<Exec>, response: string)
    requires Answering(s, db, execs, response) && response != ""
    ensures Resting(Run(s, Deliver(|response|)), db, execs)
  {
    RunOne(s, LockEvent, [SendEvent(1, |response|), UnlockEvent]);
    var s1 := Step(s, LockEvent);
    RunOne(s1, SendEvent(1, |response|), [UnlockEvent]);
    var s2 := Step(s1, SendEvent(1, |response|));
    RunOne(s2, UnlockEvent, []);
  }

  lemma {:induction false} Round(s: State, db: string, execs: seq<Exec>, sql: string, outcome: Outcome)
    requires Resting(s, db, execs) && NoNewline(sql) && |sql| > 5
    ensures var e := Executed(sql, EngineDb(db), db, outcome);
      Answering(Run(s, Ask(sql) + Work(outcome)), e.stored, execs + [e], e.response)
  {
    Asked(s, db, execs, sql);
    Worked(Run(s, Ask(sql)), db, execs, sql, outcome);
    RunConcat(s, Ask(sql), Work(outcome));
  }

  lemma {:induction false} TwoRounds(s: State, use: string, outcome: Outcome, query: string, outcome': Outcome)
    requires Resting(s, "none", []) && NoNewline(use) && |use| > 5 && NoNewline(query) && |query| > 5
    ensures var e := Executed(use, "", "none", outcome);
      var e' := Executed(query, EngineDb(e.stored), e.stored, outcome');
      Answering(Run(s, (Ask(use) + Work(outcome)) + (Deliver(|e.response|) + (Ask(query) + Work(outcome')))),
        e'.stored, [e, e'], e'.response)
  {
    var e := Executed(use, "", "none", outcome);
    var first, second := Ask(use) + Work(outcome), Ask(query) + Work(outcome');
    Round(s, "none", [], use, outcome);
    assert [] + [e] == [e];
    var s1 := Run(s, first);
    Replied(s1, e.stored, [e], e.response);
    Round(Run(s1, Deliver(|e.response|)), e.stored, [e], query, outcome');
    RunConcat(s, first, Deliver(|e.response|) + second);
    RunConcat(s1, Deliver(|e.response|), second);
  }

  // The client selects a database named "none", and its next query runs with no database selected.
  lemma {:induction false} NoneForgotten() returns (events: seq<Event>)
    ensures 1 in Run(INITIAL, events).hist
    ensures var execs := Run(INITIAL, events).hist[1].execs;
      |execs| == 2 && SelectedBefore(execs, 1) == "none" && execs[1].db == "" && !UnderOwnDb(execs, 1)
  {
    InitialOk();
    RunOne(INITIAL, AcceptEvent, []);
    var s := Run(INITIAL, [AcceptEvent]);
    var use, query := "USE none;", "CREATE TABLE t (id INT);";
    TwoRounds(s, use, Ran("none", ""), query, Ran("", ""));
    var e := Executed(use, "", "none", Ran("none", ""));
    var later := (Ask(use) + Work(Ran("none", ""))) + (Deliver(|e.response|) + (Ask(query) + Work(Ran("", ""))));
    events := [AcceptEvent] + later;
    RunConcat(INITIAL, [AcceptEvent], later);
  }

  // A complete line, as the event loop handles it in two places.
  method HandleLine(c: Connection, ghost h: History, line: string, rest: string)
    returns (c': Connection, ghost h': History, task: Option<string>)
    ensures c' == Submitted(c, h, line, rest).c && task == Submitted(c, h, line, rest).task
    ensures h' == Submitted(c, h, line, rest).h
  {
    c', h', task := c.(recvBuffer := rest), h, None;
    if IsExit(line) {
      c' := c'.(state := CLOSED);
    } else {
      h' := LineDone(h, line);
      if line != "" {
        c', task := c'.(state := PENDING_RESULT), Some(line);
      } else {
        c' := c'.(state := IDLE);
      }
    }
  }

  method ReadFrom(c: Connection, ghost h: History, input: Input)
    returns (c': Connection, ghost h': History, task: Option<string>)
    ensures c' == ReadVisit(c, h, input).c && task == ReadVisit(c, h, input).task
    ensures h' == ReadVisit(c, h, input).h
  {
    c', h', task := c.(state := READING), h, None;
    match input
    case Gone =>
      c' := c'.(state := CLOSED);
    case WouldBlock =>
    case Data(text) =>
      c' := c'.(recvBuffer := c.recvBuffer + text);
      h' := h.(received := h.received + text);
      var buffer := c'.recvBuffer;
      var nl := Newline(buffer);
      if nl < |buffer| {
        c', h', task := HandleLine(c', h', buffer[..nl], buffer[nl + 1..]);
      }
  }

  method WriteTo(c: Connection, ghost h: History, sent: int)
    returns (c': Connection, ghost h': History, task: Option<string>)
    requires sent <= |c.response| - c.sendOffset
    ensures c' == WriteVisit(c, h, sent).c && task == WriteVisit(c, h, sent).task
    ensures h' == WriteVisit(c, h, sent).h
  {
    c', h', task := c, h, None;
    if sent < 0 {
      c' := c.(state := CLOSED);
      return;
    }
    if sent > 0 {
      c', h' := c.(sendOffset := c.sendOffset + sent), SentDone(c, h, sent);
      if c'.sendOffset >= |c.response| {
        c' := c.(state := IDLE, response := "", sendOffset := 0);
        c', h', task := TakeNext(c', h');
      }
    }
  }

  method TakeNext(c: Connection, ghost h: History) returns (c': Connection, ghost h': History, task: Option<string>)
    requires c.state == IDLE
    ensures c' == NextRequest(c, h).c && task == NextRequest(c, h).task
    ensures h' == NextRequest(c, h).h
  {
    c', h', task := c, h, None;
    while true
      invariant task == None && c'.state == IDLE && NextRequest(c', h') == NextRequest(c, h)
      decreases |c'.recvBuffer|
    {
      var buffer := c'.recvBuffer;
      var nl := Newline(buffer);
      if nl == |buffer| {
        break;
      }
      c', h', task := HandleLine(c', h', buffer[..nl], buffer[nl + 1..]);
      if c'.state != IDLE {
        break;
      }
    }
  }

  // The server itself.  Each method takes one step; the event loop and the worker call them in any order the locks
  // allow.
  class ServerContext {
    var connections: map<nat, Connection>
    var nextConnectionId: nat
    var taskQueue: seq<Task>
    // What the worker has in hand, and the database selected in the engine.
    var hand: Hand
    var engineDb: string
    // Whether the event loop is inside its locked section, and which connections it has closed there.
    var locked: bool
    var toRemove: seq<nat>
    ghost var hist: map<nat, History>
    ghost var taken: nat

    ghost function Now(): State
      reads this
    {
      State(connections, nextConnectionId, taskQueue, taken, hand, engineDb, locked, toRemove, hist)
    }

    constructor ()
      ensures Now() == INITIAL
    {
      connections, nextConnectionId, taskQueue, hand, engineDb := map[], 1, [], Empty, "";
      locked, toRemove, hist, taken := false, [], map[], 0;
    }

    method Accept()
      requires Enabled(Now(), AcceptEvent)
      modifies `connections, `nextConnectionId, `hist
      ensures Now() == Step(old(Now()), AcceptEvent)
    {
      var id := nextConnectionId;
      nextConnectionId := id + 1;
      connections := connections[id := Connection(IDLE, "", "none", "", 0)];
      hist := hist[id := NO_HISTORY];
    }

    method Lock()
      requires Enabled(Now(), LockEvent)
      modifies `locked, `toRemove
      ensures Now() == Step(old(Now()), LockEvent)
    {
      locked, toRemove := true, [];
    }

    method Receive(id: nat, input: Input)
      requires Enabled(Now(), ReceiveEvent(id, input)) && Safe(Now(), ReceiveEvent(id, input))
      modifies `connections, `toRemove, `taskQueue, `hist
      ensures Now() == Step(old(Now()), ReceiveEvent(id, input))
    {
      ghost var h';
      var c', task;
      c', h', task := ReadFrom(connections[id], hist[id], input);
      Leave(id, c', h', task);
    }

    method Send(id: nat, sent: int)
      requires Enabled(Now(), SendEvent(id, sent)) && Safe(Now(), SendEvent(id, sent))
      modifies `connections, `toRemove, `taskQueue, `hist
      ensures Now() == Step(old(Now()), SendEvent(id, sent))
    {
      ghost var h';
      var c', task;
      c', h', task := WriteTo(connections[id], hist[id], sent);
      Leave(id, c', h', task);
    }

    method Leave(id: nat, c: Connection, ghost h: History, task: Option<string>)
      modifies `connections, `toRemove, `taskQueue, `hist
      ensures Now() == Visited(old(Now()), id, Visit(c, h, task))
    {
      connections := connections[id := c];
      hist := hist[id := h];
      if c.state == CLOSED {
        toRemove := toRemove + [id];
      }
      if task.Some? {
        taskQueue := taskQueue + [(id, task.value)];
        hist := hist[id := h.(ticket := taken + |taskQueue|)];
      }
    }

    method Unlock()
      requires Enabled(Now(), UnlockEvent)
      modifies `locked, `toRemove, `connections
      ensures Now() == Step(old(Now()), UnlockEvent)
    {
      var i := 0;
      while i < |toRemove|
        invariant i <= |toRemove| && toRemove == old(toRemove)
        invariant connections == old(connections) - IdSet(toRemove[..i])
      {
        connections := connections - {toRemove[i]};
        assert toRemove[..i + 1] == toRemove[..i] + [toRemove[i]];
        i := i + 1;
      }
      assert toRemove[..i] == toRemove;
      locked, toRemove := false, [];
    }

    // The worker takes the oldest task, whatever the event loop is doing.
    method TakeTask()
      requires Enabled(Now(), TakeEvent)
      modifies `taskQueue, `hand, `taken
      ensures Now() == Step(old(Now()), TakeEvent)
    {
      if taskQueue == [] {
        return;
      }
      hand := Popped(taskQueue[0].0, taskQueue[0].1);
      taskQueue := taskQueue[1..];
      taken := taken + 1;
    }

    method FindConnection()
      requires Enabled(Now(), FindEvent)
      modifies `hand
      ensures Now() == Step(old(Now()), FindEvent)
    {
      if hand.id !in connections {
        hand := Empty;
      } else {
        hand := Holding(hand.id, hand.sql);
      }
    }

    // Through its pointer, without the lock, the worker reads the connection's database and selects it, if it can be
    // found.
    method SelectDb(found: bool)
      requires Enabled(Now(), SelectEvent(found)) && Safe(Now(), SelectEvent(found))
      modifies `hand, `engineDb, `hist
      ensures Now() == Step(old(Now()), SelectEvent(found))
    {
      var id, sql, db := hand.id, hand.sql, connections[hand.id].currentDb;
      if db == "" || db == "none" {
        engineDb := "";
        hand := Selected(id, sql);
      } else if found {
        engineDb := db;
        hand := Selected(id, sql);
      } else {
        hist := hist[id := ExecDone(hist[id], Refused(sql, db))];
        hand := Answer(id, Reply("ERR", "none", "Database does not exist: " + db));
      }
    }

    // The connection remembers the database selected after the query.
    method RunQuery(outcome: Outcome)
      requires Enabled(Now(), RunEvent(outcome)) && Safe(Now(), RunEvent(outcome))
      modifies `hand, `engineDb, `connections, `hist
      ensures Now() == Step(old(Now()), RunEvent(outcome))
    {
      var id, sql, c := hand.id, hand.sql, connections[hand.id];
      hist := hist[id := ExecDone(hist[id], Executed(sql, engineDb, c.currentDb, outcome))];
      engineDb := outcome.db;
      match outcome {
        case Ran(db, output) =>
          connections := connections[id := c.(currentDb := ShownDb(db))];
          hand := Answer(id, Reply("OK", ShownDb(db), output));
        case Threw(_, message) =>
          connections := connections[id := c];
          hand := Answer(id, Reply("ERR", ShownDb(c.currentDb), message));
      }
    }

    method Publish()
      requires Enabled(Now(), PublishEvent)
      modifies `hand, `connections
      ensures Now() == Step(old(Now()), PublishEvent)
    {
      if hand.id in connections {
        connections :=
          connections[hand.id := connections[hand.id].(response := hand.response, sendOffset := 0, state := WRITING)];
      }
      hand := Empty;
    }
  }
}
