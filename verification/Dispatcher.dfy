/** The statement dispatcher of the epoll server: one I/O thread, a worker pool, and for every
    connection its buffers. The connection mutex is held from a worker's answer to its next
    dispatch, but not by the I/O thread when it dispatches: worker steps and the steps of the read
    handler interleave freely. A search for a semicolon, the cut, the busy flag and the
    submission that follow it are one step. */
module Dispatcher {

  type Fd = nat
  type Worker = nat

  const MAX_CONN: nat := 128

  datatype Connection = Connection(readBuf: string, writeBuf: string, writeOff: nat, busy: bool)

  datatype SqlTask = SqlTask(fd: Fd, sql: string)

  /** What has happened on a connection so far. */
  datatype Log = Log(received: string, dispatched: seq<string>, responses: seq<string>, sent: string)

  /** A worker that has buffered its answer looks for the connection's next statement; then it
      has to commit before it takes another task. */
  datatype WorkerPc = Waiting | Running(task: SqlTask) | Answering | Finishing

  /** In the read handler: whether something was read, or whether the connection was found idle. */
  datatype IoPc = Free | Reading(fd: Fd, dispatch: bool) | Committed(fd: Fd)

  /** The connection mutex, and for whose connection a worker holds it. */
  datatype Mutex = Unlocked | Locked(w: Worker, fd: Fd)

  datatype State = State(conns: map<Fd, Connection>, logs: map<Fd, Log>, queue: seq<SqlTask>,
                         workers: map<Worker, WorkerPc>, io: IoPc, mutex: Mutex)

  // ---- statements in a byte string ----------------------------------------------

  /** The place of the first semicolon, or the length. */
  function Semi(s: string): (n: nat)
    ensures n <= |s| && (n < |s| <==> ';' in s) && (n < |s| ==> s[n] == ';') && ';' !in s[..n]
  {
    if s == "" || s[0] == ';' then 0 else 1 + Semi(s[1..])
  }

  predicate HasStatement(s: string) {
    ';' in s
  }

  /** Exactly one semicolon, at the end. */
  predicate IsStatement(s: string) {
    s != "" && s[|s| - 1] == ';' && ';' !in s[..|s| - 1]
  }

  function Concat(parts: seq<string>): string {
    if parts == [] then "" else Concat(parts[..|parts| - 1]) + parts[|parts| - 1]
  }

  /** The complete statements of a byte string, and what is left. */
  function Statements(s: string): seq<string>
    decreases |s|
  {
    if HasStatement(s) then [s[..Semi(s) + 1]] + Statements(s[Semi(s) + 1..]) else []
  }

  function Rest(s: string): string
    decreases |s|
  {
    if HasStatement(s) then Rest(s[Semi(s) + 1..]) else s
  }

  // ---- what the handlers do to the state ---------------------------------------------

  function Put(st: State, fd: Fd, c: Connection, l: Log): State {
    st.(conns := st.conns[fd := c], logs := st.logs[fd := l])
  }

  predicate Known(st: State, fd: Fd) {
    fd in st.conns && fd in st.logs
  }

  /** The first complete statement in the read buffer, and the connection without it. */
  function FirstStatement(c: Connection): string
    requires HasStatement(c.readBuf)
  {
    c.readBuf[..Semi(c.readBuf) + 1]
  }

  function Cut(c: Connection): Connection
    requires HasStatement(c.readBuf)
  {
    c.(readBuf := c.readBuf[Semi(c.readBuf) + 1..], busy := true)
  }

  /** Cuts the first complete statement off the read buffer, if there is one, and queues it. */
  function TakeStatement(st: State, fd: Fd): State
    requires Known(st, fd)
  {
    var c, l := st.conns[fd], st.logs[fd];
    if !HasStatement(c.readBuf) then st
    else
      Put(st, fd, Cut(c), l.(dispatched := l.dispatched + [FirstStatement(c)])).(queue := st.queue + [SqlTask(fd, FirstStatement(c))])
  }

  function Append(st: State, fd: Fd, data: string): State
    requires Known(st, fd)
  {
    var c, l := st.conns[fd], st.logs[fd];
    Put(st, fd, c.(readBuf := c.readBuf + data), l.(received := l.received + data))
  }

  /** A worker's answer is buffered, and the connection is idle. */
  function Buffer(st: State, fd: Fd, data: string): State
    requires Known(st, fd)
  {
    var c, l := st.conns[fd], st.logs[fd];
    Put(st, fd, c.(writeBuf := c.writeBuf + data, busy := false), l.(responses := l.responses + [data]))
  }

  /** The socket takes `n` bytes; a buffer fully written is cleared. */
  function Written(c: Connection, n: nat): Connection
    requires c.writeOff + n <= |c.writeBuf|
  {
    if c.writeOff + n == |c.writeBuf| then c.(writeBuf := "", writeOff := 0) else c.(writeOff := c.writeOff + n)
  }

  function SentLog(c: Connection, l: Log, n: nat): Log
    requires c.writeOff + n <= |c.writeBuf|
  {
    l.(sent := l.sent + c.writeBuf[c.writeOff..c.writeOff + n])
  }

  function Flush(st: State, fd: Fd, n: nat): State
    requires Known(st, fd) && st.conns[fd].writeOff + n <= |st.conns[fd].writeBuf|
  {
    var c, l := st.conns[fd], st.logs[fd];
    Put(st, fd, Written(c, n), SentLog(c, l, n))
  }

  // ---- steps ----------------------------------------------------------------------

  datatype Action =
    | Accept(fd: Fd) | BeginRead(fd: Fd) | Receive(data: string) | EndRead | Dispatch | HandleWrite(fd: Fd, n: nat)
    | Take(w: Worker) | Answer(w: Worker, data: string) | Redispatch | Finish(w: Worker)

  predicate Enabled(st: State, a: Action) {
    match a
    case Accept(fd) => st.io.Free? && st.mutex.Unlocked? && fd !in st.conns && |st.conns| < MAX_CONN
    case BeginRead(fd) => st.io.Free? && st.mutex.Unlocked? && Known(st, fd)
    case Receive(data) => st.io.Reading? && Known(st, st.io.fd) && data != ""
    case EndRead => st.io.Reading? && Known(st, st.io.fd)
    case Dispatch => st.io.Committed? && Known(st, st.io.fd)
    case HandleWrite(fd, n) =>
      st.io.Free? && st.mutex.Unlocked? && Known(st, fd) && st.conns[fd].writeOff + n <= |st.conns[fd].writeBuf|
    case Take(w) => w in st.workers && st.workers[w].Waiting? && st.queue != []
    case Answer(w, _) => st.mutex.Unlocked? && w in st.workers && st.workers[w].Running? && Known(st, st.workers[w].task.fd)
    case Redispatch => st.mutex.Locked? && Known(st, st.mutex.fd)
    case Finish(w) => w in st.workers && st.workers[w].Finishing?
  }

  function Next(st: State, a: Action): State
    requires Enabled(st, a)
  {
    match a
    case Accept(fd) => Put(st, fd, Connection("", "", 0, false), Log("", [], [], ""))
    case BeginRead(fd) => st.(io := Reading(fd, false))
    case Receive(data) => Append(st, st.io.fd, data).(io := Reading(st.io.fd, true))
    case EndRead => st.(io := if st.io.dispatch && !st.conns[st.io.fd].busy then Committed(st.io.fd) else Free)
    case Dispatch => TakeStatement(st.(io := Free), st.io.fd)
    case HandleWrite(fd, n) => Flush(st, fd, n)
    case Take(w) => st.(queue := st.queue[1..], workers := st.workers[w := Running(st.queue[0])])
    case Answer(w, data) =>
      var fd := st.workers[w].task.fd;
      Buffer(st, fd, data).(workers := st.workers[w := Answering], mutex := Locked(w, fd))
    case Redispatch => TakeStatement(Released(st), st.mutex.fd)
    case Finish(w) => st.(workers := st.workers[w := Waiting])
  }

  predicate Initial(st: State) {
    && st.conns == map[] && st.logs == map[] && st.queue == [] && st.io.Free? && st.mutex.Unlocked?
    && forall w :: w in st.workers ==> st.workers[w].Waiting?
  }

  // ---- tasks in flight ----------------------------------------------------------------

  predicate Runs(st: State, w: Worker) {
    w in st.workers && st.workers[w].Running?
  }

  function RunsFor(st: State, fd: Fd): set<Worker> {
    set w | w in st.workers && Runs(st, w) && st.workers[w].task.fd == fd
  }

  function Count(queue: seq<SqlTask>, fd: Fd): nat {
    if queue == [] then 0
    else Count(queue[..|queue| - 1], fd) + if queue[|queue| - 1].fd == fd then 1 else 0
  }

  /** How many statements of a connection are queued or running. */
  function Load(st: State, fd: Fd): nat {
    Count(st.queue, fd) + |RunsFor(st, fd)|
  }

  lemma CountNext(queue: seq<SqlTask>, t: SqlTask, fd: Fd)
    ensures Count(queue + [t], fd) == Count(queue, fd) + if t.fd == fd then 1 else 0
  {
    assert (queue + [t])[..|queue|] == queue;
  }

  lemma {:induction false} CountFront(queue: seq<SqlTask>, fd: Fd)
    requires queue != []
    ensures Count(queue, fd) == Count(queue[1..], fd) + if queue[0].fd == fd then 1 else 0
  {
    var n := |queue| - 1;
    if n > 0 {
      CountFront(queue[..n], fd);
      assert queue[1..][..n - 1] == queue[..n][1..];
    }
  }

  lemma {:induction false} CountSome(queue: seq<SqlTask>, i: nat)
    requires i < |queue|
    ensures Count(queue, queue[i].fd) >= 1
  {
    if i < |queue| - 1 { CountSome(queue[..|queue| - 1], i); }
  }

  lemma SameLoad(st: State, st': State, fd: Fd)
    requires st'.queue == st.queue && forall w :: Runs(st', w) <==> Runs(st, w)
    requires forall w :: Runs(st, w) ==> w in st'.workers && st'.workers[w] == st.workers[w]
    ensures Load(st', fd) == Load(st, fd)
  {
    assert RunsFor(st', fd) == RunsFor(st, fd);
  }

  /** A task in flight loads its connection. */
  lemma LoadSome(st: State, t: SqlTask)
    requires InFlight(st, t)
    ensures Load(st, t.fd) >= 1
  {
    if t in st.queue {
      var i :| 0 <= i < |st.queue| && st.queue[i] == t;
      CountSome(st.queue, i);
    } else {
      var w :| Runs(st, w) && st.workers[w].task == t;
      assert w in RunsFor(st, t.fd);
    }
  }

  ghost predicate InFlight(st: State, t: SqlTask) {
    t in st.queue || exists w :: Runs(st, w) && st.workers[w].task == t
  }

  lemma RunsMore(st: State, w: Worker, fd: Fd)
    requires Enabled(st, Take(w))
    ensures |RunsFor(Next(st, Take(w)), fd)| == |RunsFor(st, fd)| + if st.queue[0].fd == fd then 1 else 0
  {
    var st' := Next(st, Take(w));
    assert w !in RunsFor(st, fd) && st'.workers[w] == Running(st.queue[0]);
    assert RunsFor(st', fd) == if st.queue[0].fd == fd then RunsFor(st, fd) + {w} else RunsFor(st, fd);
  }

  lemma TakeLoad(st: State, w: Worker, fd: Fd)
    requires Enabled(st, Take(w))
    ensures Load(Next(st, Take(w)), fd) == Load(st, fd)
    ensures forall t :: InFlight(Next(st, Take(w)), t) ==> InFlight(st, t)
  {
    var st' := Next(st, Take(w));
    CountFront(st.queue, fd);
    RunsMore(st, w, fd);
    forall t | InFlight(st', t) ensures InFlight(st, t) {
      if t !in st'.queue {
        var v :| Runs(st', v) && st'.workers[v].task == t;
        if v != w { assert Runs(st, v); }
      }
    }
  }

  lemma AnswerLoad(st: State, w: Worker, data: string, fd: Fd)
    requires Enabled(st, Answer(w, data))
    ensures Load(st, fd) == Load(Next(st, Answer(w, data)), fd) + if st.workers[w].task.fd == fd then 1 else 0
    ensures forall t :: InFlight(Next(st, Answer(w, data)), t) ==> InFlight(st, t)
  {
    var st' := Next(st, Answer(w, data));
    assert RunsFor(st', fd) == RunsFor(st, fd) - {w};
    assert w in RunsFor(st, fd) <==> st.workers[w].task.fd == fd;
    forall t | InFlight(st', t) ensures InFlight(st, t) {
      if t !in st'.queue {
        var v :| Runs(st', v) && st'.workers[v].task == t;
        assert Runs(st, v);
      }
    }
  }

  lemma StatementLoad(st: State, fd: Fd, f: Fd)
    requires Known(st, fd)
    ensures Load(TakeStatement(st, fd), f) == Load(st, f) + if f == fd && HasStatement(st.conns[fd].readBuf) then 1 else 0
    ensures forall t :: InFlight(TakeStatement(st, fd), t) ==>
                          InFlight(st, t) || (HasStatement(st.conns[fd].readBuf) && t == SqlTask(fd, FirstStatement(st.conns[fd])))
  {
    var st' := TakeStatement(st, fd);
    assert forall w :: Runs(st', w) <==> Runs(st, w);
    assert RunsFor(st', f) == RunsFor(st, f);
    if HasStatement(st.conns[fd].readBuf) {
      CountNext(st.queue, SqlTask(fd, FirstStatement(st.conns[fd])), f);
    }
  }

  // ---- what every interleaving keeps --------------------------------------------------

  /** What is dispatched and what is buffered add up to what was received; what is sent and what
      is buffered add up to the responses. */
  predicate BytesOk(c: Connection, l: Log) {
    && Concat(l.dispatched) + c.readBuf == l.received
    && (forall i :: 0 <= i < |l.dispatched| ==> IsStatement(l.dispatched[i]))
    && c.writeOff <= |c.writeBuf|
    && l.sent + c.writeBuf[c.writeOff..] == Concat(l.responses)
  }

  /** The I/O thread or a worker is about to look at the connection. */
  predicate Attended(st: State, fd: Fd) {
    || (st.io.Reading? && st.io.fd == fd && st.io.dispatch) || (st.io.Committed? && st.io.fd == fd)
    || (st.mutex.Locked? && st.mutex.fd == fd)
  }

  /** Every statement dispatched but those in flight has its response; a busy connection has one
      in flight. */
  predicate ConnOk(st: State, fd: Fd) {
    && Known(st, fd)
    && BytesOk(st.conns[fd], st.logs[fd])
    && |st.logs[fd].dispatched| == |st.logs[fd].responses| + Load(st, fd)
    && (st.conns[fd].busy ==> Load(st, fd) >= 1)
  }

  /** An idle connection that nobody is about to look at holds no complete statement. */
  predicate Seen(st: State, fd: Fd) {
    Known(st, fd) && (st.conns[fd].busy || Attended(st, fd) || !HasStatement(st.conns[fd].readBuf))
  }

  ghost predicate TasksKnown(st: State) {
    forall t :: InFlight(st, t) ==> Known(st, t.fd) && t.sql in st.logs[t.fd].dispatched
  }

  ghost predicate Placed(st: State) {
    && st.conns.Keys == st.logs.Keys
    && (!st.io.Free? ==> st.io.fd in st.conns)
    && (st.mutex.Locked? ==> st.mutex.fd in st.conns && st.mutex.w in st.workers && st.workers[st.mutex.w].Answering?)
  }

  /** `but` is a connection that need not have been seen. */
  ghost predicate InvBut(st: State, but: set<Fd>) {
    && Placed(st) && TasksKnown(st)
    && (forall fd :: fd in st.conns ==> ConnOk(st, fd))
    && (forall fd :: fd in st.conns && fd !in but ==> Seen(st, fd))
  }

  ghost predicate Inv(st: State) {
    InvBut(st, {})
  }

  lemma InitialInv(st: State)
    requires Initial(st)
    ensures Inv(st)
  {
  }

  // ---- each buffer update keeps the accounts --------------------------------------------

  lemma ConcatOne(parts: seq<string>, s: string)
    ensures Concat(parts + [s]) == Concat(parts) + s
  {
    assert (parts + [s])[..|parts|] == parts;
  }

  lemma Assoc(a: string, b: string, c: string)
    ensures (a + b) + c == a + (b + c)
  {
  }

  lemma AppendOk(c: Connection, l: Log, data: string)
    requires BytesOk(c, l)
    ensures BytesOk(c.(readBuf := c.readBuf + data), l.(received := l.received + data))
  {
    Assoc(Concat(l.dispatched), c.readBuf, data);
  }

  /** Cutting a statement off keeps the accounts, and what is cut off is one statement. */
  lemma CutOk(c: Connection, l: Log)
    requires BytesOk(c, l) && HasStatement(c.readBuf)
    ensures IsStatement(FirstStatement(c)) && BytesOk(Cut(c), l.(dispatched := l.dispatched + [FirstStatement(c)]))
  {
    var n := Semi(c.readBuf);
    var stmt := FirstStatement(c);
    assert stmt[..n] == c.readBuf[..n];
    ConcatOne(l.dispatched, stmt);
    Assoc(Concat(l.dispatched), stmt, c.readBuf[n + 1..]);
    assert stmt + c.readBuf[n + 1..] == c.readBuf;
  }

  lemma AnswerOk(c: Connection, l: Log, data: string)
    requires BytesOk(c, l)
    ensures BytesOk(c.(writeBuf := c.writeBuf + data, busy := false), l.(responses := l.responses + [data]))
  {
    ConcatOne(l.responses, data);
    assert (c.writeBuf + data)[c.writeOff..] == c.writeBuf[c.writeOff..] + data;
    Assoc(l.sent, c.writeBuf[c.writeOff..], data);
  }

  lemma FlushOk(c: Connection, l: Log, n: nat)
    requires BytesOk(c, l) && c.writeOff + n <= |c.writeBuf|
    ensures BytesOk(Written(c, n), SentLog(c, l, n))
    ensures Written(c, n).busy == c.busy && Written(c, n).readBuf == c.readBuf
    ensures SentLog(c, l, n).dispatched == l.dispatched && SentLog(c, l, n).responses == l.responses
  {
    var off := c.writeOff + n;
    Assoc(l.sent, c.writeBuf[c.writeOff..off], c.writeBuf[off..]);
    assert c.writeBuf[c.writeOff..off] + c.writeBuf[off..] == c.writeBuf[c.writeOff..];
    assert off == |c.writeBuf| ==> c.writeBuf[off..] == "";
  }

  // ---- every step keeps the invariant ---------------------------------------------------

  lemma NoLoad(st: State, fd: Fd)
    requires forall t :: InFlight(st, t) ==> t.fd != fd
    ensures Load(st, fd) == 0
  {
    NoneQueued(st.queue, fd);
    forall w ensures w !in RunsFor(st, fd) {
      if w in RunsFor(st, fd) {
        assert InFlight(st, st.workers[w].task);
        assert false;
      }
    }
    assert RunsFor(st, fd) == {};
  }

  lemma {:induction false} NoneQueued(queue: seq<SqlTask>, fd: Fd)
    requires forall t :: t in queue ==> t.fd != fd
    ensures Count(queue, fd) == 0
  {
    if queue != [] { NoneQueued(queue[..|queue| - 1], fd); }
  }

  /** No task changes: neither the queue nor what is running. */
  predicate SameTasks(st: State, st': State) {
    st'.queue == st.queue && st'.workers == st.workers
  }

  lemma SameTasksLoad(st: State, st': State)
    requires SameTasks(st, st')
    ensures forall fd :: Load(st', fd) == Load(st, fd)
    ensures forall t :: InFlight(st', t) <==> InFlight(st, t)
  {
    forall fd ensures Load(st', fd) == Load(st, fd) {
      SameLoad(st, st', fd);
    }
    assert forall w :: Runs(st', w) <==> Runs(st, w);
    assert forall t :: InFlight(st, t) ==> InFlight(st', t);
    assert forall t :: InFlight(st', t) ==> InFlight(st, t);
  }

  /** A connection is replaced by one whose accounts are right and that hides no statement. */
  lemma PutKeeps(st: State, fd: Fd, c: Connection, l: Log)
    requires Inv(st) && BytesOk(c, l)
    requires if fd in st.conns then
               c.busy == st.conns[fd].busy && l.dispatched == st.logs[fd].dispatched && l.responses == st.logs[fd].responses
             else !c.busy && l.dispatched == [] == l.responses
    requires c.busy || Attended(st, fd) || !HasStatement(c.readBuf)
    ensures Inv(Put(st, fd, c, l))
  {
    var st' := Put(st, fd, c, l);
    SameTasksLoad(st, st');
    PutTasks(st, fd, c, l);
    if fd in st.conns { assert ConnOk(st, fd); } else { NoLoad(st, fd); }
    assert ConnOk(st', fd) && Seen(st', fd);
    forall f | f in st.conns && f != fd ensures ConnOk(st', f) && Seen(st', f) {
      OtherConn(st, st', f);
    }
  }

  lemma PutTasks(st: State, fd: Fd, c: Connection, l: Log)
    requires Placed(st) && TasksKnown(st) && (fd in st.conns ==> l.dispatched == st.logs[fd].dispatched)
    ensures TasksKnown(Put(st, fd, c, l)) && Placed(Put(st, fd, c, l))
  {
    SameTasksLoad(st, Put(st, fd, c, l));
  }

  /** A connection that a step does not touch. */
  lemma OtherConn(st: State, st': State, f: Fd)
    requires ConnOk(st, f) && Known(st', f) && Load(st', f) == Load(st, f)
    requires st'.conns[f] == st.conns[f] && st'.logs[f] == st.logs[f]
    ensures ConnOk(st', f)
    ensures Seen(st, f) && (Attended(st, f) ==> Attended(st', f)) ==> Seen(st', f)
  {
  }

  /** The I/O thread moves on: it may stop attending to a connection that is busy. */
  lemma PlaceKeeps(st: State, io: IoPc, but: set<Fd>)
    requires Inv(st) && (!io.Free? ==> io.fd in st.conns)
    requires forall f :: f in st.conns && Attended(st, f) && f !in but ==> st.conns[f].busy || Attended(st.(io := io), f)
    ensures InvBut(st.(io := io), but)
  {
    var st' := st.(io := io);
    SameTasksLoad(st, st');
    forall f | f in st.conns ensures ConnOk(st', f) && (f !in but ==> Seen(st', f)) {
      OtherConn(st, st', f);
    }
  }

  lemma ReceiveKeeps(st: State, data: string)
    requires Inv(st) && Enabled(st, Receive(data))
    ensures Inv(Next(st, Receive(data)))
  {
    var fd := st.io.fd;
    var c, l := st.conns[fd], st.logs[fd];
    assert ConnOk(st, fd);
    AppendOk(c, l, data);
    PlaceKeeps(st, Reading(fd, true), {});
    PutKeeps(st.(io := Reading(fd, true)), fd, c.(readBuf := c.readBuf + data), l.(received := l.received + data));
    assert Next(st, Receive(data)) ==
           Put(st.(io := Reading(fd, true)), fd, c.(readBuf := c.readBuf + data), l.(received := l.received + data));
  }

  lemma WriteKeeps(st: State, fd: Fd, n: nat)
    requires Inv(st) && Enabled(st, HandleWrite(fd, n))
    ensures Inv(Next(st, HandleWrite(fd, n)))
  {
    assert ConnOk(st, fd) && Seen(st, fd);
    FlushOk(st.conns[fd], st.logs[fd], n);
    PutKeeps(st, fd, Written(st.conns[fd], n), SentLog(st.conns[fd], st.logs[fd], n));
  }

  /** Taking a statement leaves none on the connection, or makes it busy. */
  lemma StatementKeeps(st: State, fd: Fd)
    requires InvBut(st, {fd}) && fd in st.conns
    ensures Inv(TakeStatement(st, fd))
  {
    var st' := TakeStatement(st, fd);
    forall f | f in st.conns ensures ConnOk(st', f) && Seen(st', f) {
      StatementLoad(st, fd, f);
      if f == fd { StatementOk(st, fd); } else { OtherConn(st, st', f); }
    }
    StatementTasks(st, fd);
  }

  lemma StatementOk(st: State, fd: Fd)
    requires ConnOk(st, fd)
    ensures ConnOk(TakeStatement(st, fd), fd) && Seen(TakeStatement(st, fd), fd)
  {
    StatementLoad(st, fd, fd);
    if HasStatement(st.conns[fd].readBuf) { CutOk(st.conns[fd], st.logs[fd]); }
  }

  lemma StatementTasks(st: State, fd: Fd)
    requires Placed(st) && TasksKnown(st) && fd in st.conns
    ensures Placed(TakeStatement(st, fd)) && TasksKnown(TakeStatement(st, fd))
  {
    StatementLoad(st, fd, fd);
  }

  lemma AnswerKeeps(st: State, w: Worker, data: string)
    requires Inv(st) && Enabled(st, Answer(w, data))
    ensures Inv(Next(st, Answer(w, data)))
  {
    var st', fd := Next(st, Answer(w, data)), st.workers[w].task.fd;
    forall f | f in st.conns ensures ConnOk(st', f) && Seen(st', f) {
      AnswerLoad(st, w, data, f);
      if f == fd { AnswerOk(st.conns[fd], st.logs[fd], data); assert ConnOk(st, f); } else { OtherConn(st, st', f); }
    }
    AnswerTasks(st, w, data);
  }

  lemma AnswerTasks(st: State, w: Worker, data: string)
    requires Placed(st) && TasksKnown(st) && Enabled(st, Answer(w, data))
    ensures Placed(Next(st, Answer(w, data))) && TasksKnown(Next(st, Answer(w, data)))
  {
    AnswerLoad(st, w, data, 0);
  }

  lemma ReleaseLoad(st: State)
    requires Placed(st) && Enabled(st, Redispatch)
    ensures forall f :: Load(Released(st), f) == Load(st, f)
    ensures forall t :: InFlight(Released(st), t) ==> InFlight(st, t)
  {
    var mid := Released(st);
    assert forall v :: Runs(mid, v) <==> Runs(st, v);
    forall f ensures Load(mid, f) == Load(st, f) {
      SameLoad(st, mid, f);
    }
  }

  /** Only the places of the worker and the mutex change. */
  lemma ReleaseKeeps(st: State)
    requires Inv(st) && Enabled(st, Redispatch)
    ensures InvBut(Released(st), {st.mutex.fd})
  {
    var mid := Released(st);
    ReleaseLoad(st);
    forall f | f in st.conns ensures ConnOk(mid, f) && (f != st.mutex.fd ==> Seen(mid, f)) {
      OtherConn(st, mid, f);
    }
  }

  function Released(st: State): State
    requires st.mutex.Locked?
  {
    st.(workers := st.workers[st.mutex.w := Finishing], mutex := Unlocked)
  }

  lemma InvKept(st: State, a: Action)
    requires Inv(st) && Enabled(st, a)
    ensures Inv(Next(st, a))
  {
    match a
    case Accept(fd) => AcceptKeeps(st, fd);
    case BeginRead(fd) => IoKeeps(st, a);
    case Receive(data) => ReceiveKeeps(st, data);
    case EndRead => IoKeeps(st, a);
    case Dispatch => DispatchKeeps(st);
    case HandleWrite(fd, n) => WriteKeeps(st, fd, n);
    case Take(w) => TakeKeeps(st, w);
    case Answer(w, data) => AnswerKeeps(st, w, data);
    case Redispatch => RedispatchKeeps(st);
    case Finish(w) => FinishKeeps(st, w);
  }

  lemma AcceptKeeps(st: State, fd: Fd)
    requires Inv(st) && Enabled(st, Accept(fd))
    ensures Inv(Next(st, Accept(fd)))
  {
    PutKeeps(st, fd, Connection("", "", 0, false), Log("", [], [], ""));
  }

  lemma IoKeeps(st: State, a: Action)
    requires Inv(st) && Enabled(st, a) && (a.BeginRead? || a.EndRead?)
    ensures Inv(Next(st, a))
  {
    PlaceKeeps(st, Next(st, a).io, {});
  }

  lemma RedispatchKeeps(st: State)
    requires Inv(st) && Enabled(st, Redispatch)
    ensures Inv(Next(st, Redispatch))
  {
    ReleaseKeeps(st);
    StatementKeeps(Released(st), st.mutex.fd);
  }

  lemma DispatchKeeps(st: State)
    requires Inv(st) && Enabled(st, Dispatch)
    ensures Inv(Next(st, Dispatch))
  {
    PlaceKeeps(st, Free, {st.io.fd});
    StatementKeeps(st.(io := Free), st.io.fd);
  }

  lemma TakeKeeps(st: State, w: Worker)
    requires Inv(st) && Enabled(st, Take(w))
    ensures Inv(Next(st, Take(w)))
  {
    var st' := Next(st, Take(w));
    forall f | f in st.conns ensures ConnOk(st', f) && Seen(st', f) {
      TakeLoad(st, w, f);
      OtherConn(st, st', f);
    }
    TakeLoad(st, w, 0);
  }

  lemma FinishKeeps(st: State, w: Worker)
    requires Inv(st) && Enabled(st, Finish(w))
    ensures Inv(Next(st, Finish(w)))
  {
    var st' := Next(st, Finish(w));
    assert forall v :: Runs(st', v) <==> Runs(st, v);
    forall f | f in st.conns ensures ConnOk(st', f) && Seen(st', f) {
      SameLoad(st, st', f);
      OtherConn(st, st', f);
    }
    assert forall t :: InFlight(st', t) ==> InFlight(st, t);
  }

  // ---- one task per connection ----------------------------------------------------------

  /** Complete statements waiting in a connection's read buffer. */
  function Pending(st: State, fd: Fd): nat
    requires Known(st, fd)
  {
    |Statements(st.conns[fd].readBuf)|
  }

  /** A connection may be dispatched by the I/O thread that has found it idle, and by the worker
      that has answered on it. When both may, or one may while a statement is in flight, too few
      statements wait for a second one to be taken. */
  predicate OneTask(st: State, fd: Fd) {
    && Known(st, fd)
    && var io, answering, busy := st.io == Committed(fd), st.mutex.Locked? && st.mutex.fd == fd, st.conns[fd].busy;
    && Load(st, fd) == (if busy then 1 else 0)
    && (io && answering ==> !busy && Pending(st, fd) <= 1)
    && (io && busy ==> Pending(st, fd) == 0)
    && (answering && busy ==> Pending(st, fd) == 0 && st.io.Free?)
  }

  /** The one task of a connection is the last statement dispatched. */
  ghost predicate LastOnly(st: State) {
    forall t :: InFlight(st, t) && Known(st, t.fd) ==>
      st.logs[t.fd].dispatched != [] && t.sql == st.logs[t.fd].dispatched[|st.logs[t.fd].dispatched| - 1]
  }

  ghost predicate Safe(st: State) {
    (forall fd :: fd in st.conns ==> OneTask(st, fd)) && LastOnly(st)
  }

  /** The read handler is about to find a connection idle on which a worker has just answered, with
      two statements waiting. */
  predicate Racy(st: State) {
    && st.io.Reading? && st.io.dispatch && st.mutex.Locked? && st.mutex.fd == st.io.fd
    && Known(st, st.io.fd) && !st.conns[st.io.fd].busy && Pending(st, st.io.fd) >= 2
  }

  /** A step that leaves a connection's statements, its flag and its load, and gives no new
      permission to dispatch on it. */
  predicate Quiet(st: State, st': State, f: Fd) {
    && Known(st, f) && Known(st', f) && Load(st', f) == Load(st, f)
    && st'.conns[f].readBuf == st.conns[f].readBuf && st'.conns[f].busy == st.conns[f].busy
    && (st'.io == Committed(f) ==> st.io == Committed(f))
    && (st'.mutex.Locked? && st'.mutex.fd == f ==> st.mutex == st'.mutex && (st.io.Free? ==> st'.io.Free?))
  }

  lemma QuietKeeps(st: State, st': State, f: Fd)
    requires OneTask(st, f) && Quiet(st, st', f)
    ensures OneTask(st', f)
  {
  }

  lemma PendingCut(st: State, fd: Fd)
    requires Known(st, fd)
    ensures Pending(st, fd) == 0 <==> !HasStatement(st.conns[fd].readBuf)
    ensures Pending(TakeStatement(st, fd), fd) == if Pending(st, fd) == 0 then 0 else Pending(st, fd) - 1
  {
  }

  /** Taking a statement on a connection that has none in flight, or none to take. */
  lemma StatementSafe(st: State, fd: Fd)
    requires Known(st, fd) && Load(st, fd) == (if st.conns[fd].busy then 1 else 0)
    requires st.conns[fd].busy ==> Pending(st, fd) == 0
    requires st.io == Committed(fd) ==> st.mutex.Unlocked? && Pending(st, fd) <= 1
    requires st.mutex.Locked? && st.mutex.fd == fd ==> st.io.Free? && Pending(st, fd) <= 1
    ensures OneTask(TakeStatement(st, fd), fd)
  {
    PendingCut(st, fd);
    StatementLoad(st, fd, fd);
  }

  lemma StatementLast(st: State, fd: Fd)
    requires Known(st, fd) && LastOnly(st) && (HasStatement(st.conns[fd].readBuf) ==> Load(st, fd) == 0)
    ensures LastOnly(TakeStatement(st, fd))
  {
    var st' := TakeStatement(st, fd);
    StatementLoad(st, fd, fd);
    forall t | InFlight(st', t) && Known(st', t.fd)
      ensures st'.logs[t.fd].dispatched != [] && t.sql == st'.logs[t.fd].dispatched[|st'.logs[t.fd].dispatched| - 1]
    {
      if InFlight(st, t) { LoadSome(st, t); }
    }
  }

  /** Everything stays with the tasks, and the logs of those in flight. */
  lemma LastKept(st: State, st': State)
    requires LastOnly(st) && forall t :: InFlight(st', t) ==> InFlight(st, t) && Known(st, t.fd)
    requires forall f :: Known(st, f) && Known(st', f) ==> st'.logs[f].dispatched == st.logs[f].dispatched
    ensures LastOnly(st')
  {
  }

  /** The connections that a dispatch does not touch stay as they are, on the way to it and in it. */
  lemma OthersSafe(st: State, mid: State, fd: Fd, f: Fd)
    requires OneTask(st, f) && f != fd && Known(mid, fd) && Known(mid, f) && Load(mid, f) == Load(st, f)
    requires mid.conns == st.conns && (mid.io == st.io || mid.io.Free?) && (mid.mutex == st.mutex || mid.mutex.Unlocked?)
    ensures OneTask(TakeStatement(mid, fd), f)
  {
    StatementLoad(mid, fd, f);
    QuietKeeps(st, TakeStatement(mid, fd), f);
  }

  /** From a safe state to a dispatch: `mid` is the state after the step before it. */
  lemma TakenSafe(st: State, mid: State, fd: Fd)
    requires Safe(st) && fd in st.conns && Placed(st) && mid.conns == st.conns && mid.logs == st.logs
    requires forall f :: Load(mid, f) == Load(st, f)
    requires (mid.io == st.io || mid.io.Free?) && (mid.mutex == st.mutex || mid.mutex.Unlocked?)
    requires LastOnly(mid) && OneTask(TakeStatement(mid, fd), fd) && (HasStatement(mid.conns[fd].readBuf) ==> Load(mid, fd) == 0)
    ensures Safe(TakeStatement(mid, fd))
  {
    StatementLast(mid, fd);
    forall f | f in st.conns ensures OneTask(TakeStatement(mid, fd), f) {
      if f != fd { OthersSafe(st, mid, fd, f); }
    }
  }

  lemma DispatchSafe(st: State)
    requires Inv(st) && Safe(st) && Enabled(st, Dispatch)
    ensures Safe(Next(st, Dispatch))
  {
    var fd, mid := st.io.fd, st.(io := Free);
    SameTasksLoad(st, mid);
    LastKept(st, mid);
    assert OneTask(st, fd);
    StatementSafe(mid, fd);
    PendingCut(mid, fd);
    TakenSafe(st, mid, fd);
  }

  lemma RedispatchSafe(st: State)
    requires Inv(st) && Safe(st) && Enabled(st, Redispatch)
    ensures Safe(Next(st, Redispatch))
  {
    var fd, mid := st.mutex.fd, Released(st);
    ReleaseLoad(st);
    LastKept(st, mid);
    assert OneTask(st, fd);
    StatementSafe(mid, fd);
    PendingCut(mid, fd);
    TakenSafe(st, mid, fd);
  }

  lemma AnswerSafe(st: State, w: Worker, data: string)
    requires Inv(st) && Safe(st) && Enabled(st, Answer(w, data))
    ensures Safe(Next(st, Answer(w, data)))
  {
    var st', fd := Next(st, Answer(w, data)), st.workers[w].task.fd;
    forall f | f in st.conns ensures OneTask(st', f) {
      AnswerLoad(st, w, data, f);
      if f != fd { QuietKeeps(st, st', f); } else { assert OneTask(st, f); }
    }
    AnswerLast(st, w, data);
  }

  lemma AnswerLast(st: State, w: Worker, data: string)
    requires Placed(st) && TasksKnown(st) && LastOnly(st) && Enabled(st, Answer(w, data))
    ensures LastOnly(Next(st, Answer(w, data)))
  {
    AnswerLoad(st, w, data, 0);
    LastKept(st, Next(st, Answer(w, data)));
  }

  /** The I/O thread and the buffers move; no task does. */
  lemma IoSafe(st: State, a: Action)
    requires Inv(st) && Safe(st) && Enabled(st, a) && !(a.EndRead? && Racy(st)) && MovesIo(a)
    ensures Safe(Next(st, a))
  {
    var st' := Next(st, a);
    IoTasks(st, a);
    forall f | f in st'.conns ensures OneTask(st', f) {
      if f !in st.conns { NoLoad(st, f); } else { IoQuiet(st, a, f); }
    }
  }

  predicate MovesIo(a: Action) {
    a.Accept? || a.BeginRead? || a.Receive? || a.EndRead? || a.HandleWrite?
  }

  lemma IoTasks(st: State, a: Action)
    requires Placed(st) && TasksKnown(st) && LastOnly(st) && Enabled(st, a) && MovesIo(a)
    ensures LastOnly(Next(st, a)) && forall f :: Load(Next(st, a), f) == Load(st, f)
  {
    SameTasksLoad(st, Next(st, a));
    LastKept(st, Next(st, a));
  }

  lemma IoQuiet(st: State, a: Action, f: Fd)
    requires Enabled(st, a) && OneTask(st, f) && !(a.EndRead? && Racy(st)) && Load(Next(st, a), f) == Load(st, f)
    requires MovesIo(a)
    ensures OneTask(Next(st, a), f)
  {
    if !a.EndRead? && !(a.Receive? && st.io.fd == f) {
      QuietKeeps(st, Next(st, a), f);
    }
  }

  lemma WorkerSafe(st: State, a: Action)
    requires Inv(st) && Safe(st) && Enabled(st, a) && (a.Take? || a.Finish?)
    ensures Safe(Next(st, a))
  {
    var st' := Next(st, a);
    assert a.Finish? ==> forall v :: Runs(st', v) <==> Runs(st, v);
    forall f | f in st.conns ensures OneTask(st', f) {
      if a.Take? { TakeLoad(st, a.w, f); } else { SameLoad(st, st', f); }
      QuietKeeps(st, st', f);
    }
    if a.Take? { TakeLoad(st, a.w, 0); }
    LastKept(st, st');
  }

  lemma SafeKept(st: State, a: Action)
    requires Inv(st) && Safe(st) && Enabled(st, a) && !(a.EndRead? && Racy(st))
    ensures Safe(Next(st, a))
  {
    match a
    case Accept(fd) => IoSafe(st, a);
    case BeginRead(fd) => IoSafe(st, a);
    case Receive(data) => IoSafe(st, a);
    case EndRead => IoSafe(st, a);
    case HandleWrite(fd, n) => IoSafe(st, a);
    case Dispatch => DispatchSafe(st);
    case Redispatch => RedispatchSafe(st);
    case Answer(w, data) => AnswerSafe(st, w, data);
    case Take(w) => WorkerSafe(st, a);
    case Finish(w) => WorkerSafe(st, a);
  }

  // ---- runs -----------------------------------------------------------------------------

  /** When the I/O thread may end its reading and look at the connection. */
  type Discipline = State -> bool

  /** The code's own: at any time. */
  function Anytime(): Discipline {
    (st: State) => true
  }

  /** A read handler that held the connection mutex for its dispatch. */
  function UnderMutex(): Discipline {
    (st: State) => st.mutex.Unlocked?
  }

  ghost predicate Run(states: seq<State>, may: Discipline) {
    && states != [] && Initial(states[0])
    && forall i :: 0 < i < |states| ==> Follows(states[i - 1], states[i], may)
  }

  ghost predicate Follows(st: State, st': State, may: Discipline) {
    exists a :: Enabled(st, a) && (a.EndRead? ==> may(st)) && st' == Next(st, a)
  }

  function Last(states: seq<State>): State
    requires states != []
  {
    states[|states| - 1]
  }

  lemma {:induction false} EveryState(states: seq<State>, may: Discipline, i: nat)
    requires Run(states, may) && i < |states|
    ensures Inv(states[i])
  {
    if i == 0 {
      InitialInv(states[0]);
    } else {
      EveryState(states, may, i - 1);
      assert Follows(states[i - 1], states[i], may);
      var a :| Enabled(states[i - 1], a) && (a.EndRead? ==> may(states[i - 1])) && states[i] == Next(states[i - 1], a);
      InvKept(states[i - 1], a);
    }
  }

  /** In every reachable state no byte is lost, repeated or reordered, in either direction. */
  lemma BytesKept(states: seq<State>, i: nat, fd: Fd)
    requires Run(states, Anytime()) && i < |states| && fd in states[i].conns
    ensures fd in states[i].logs
    ensures var c, l := states[i].conns[fd], states[i].logs[fd];
            && Concat(l.dispatched) + c.readBuf == l.received
            && c.writeOff <= |c.writeBuf| && l.sent + c.writeBuf[c.writeOff..] == Concat(l.responses)
  {
    EveryState(states, Anytime(), i);
    assert ConnOk(states[i], fd);
  }

  /** In every reachable state the statements without a response are those queued or running, and
      what is queued or running was dispatched on its connection. */
  lemma NoneLost(states: seq<State>, i: nat, fd: Fd, t: SqlTask)
    requires Run(states, Anytime()) && i < |states| && fd in states[i].conns
    ensures fd in states[i].logs && |states[i].logs[fd].dispatched| == |states[i].logs[fd].responses| + Load(states[i], fd)
    ensures InFlight(states[i], t) ==> t.fd in states[i].logs && t.sql in states[i].logs[t.fd].dispatched
  {
    EveryState(states, Anytime(), i);
    assert ConnOk(states[i], fd);
  }

  // ---- which statements are dispatched ----------------------------------------------------

  lemma FirstOf(x: string, rest: string)
    requires IsStatement(x)
    ensures Statements(x + rest) == [x] + Statements(rest) && Rest(x + rest) == Rest(rest)
  {
    var s, n := x + rest, Semi(x + rest);
    SemiOf(x, rest);
    assert s[n] == ';';
    assert s[..n + 1] == x && s[n + 1..] == rest;
  }

  /** Statements put one after the other are read back as the same statements. */
  lemma {:induction false} StatementsOf(parts: seq<string>, rest: string)
    requires forall i :: 0 <= i < |parts| ==> IsStatement(parts[i])
    ensures Statements(Concat(parts) + rest) == parts + Statements(rest) && Rest(Concat(parts) + rest) == Rest(rest)
    decreases |parts|
  {
    if parts == [] {
      assert Concat(parts) + rest == rest;
    } else {
      var init, x := parts[..|parts| - 1], parts[|parts| - 1];
      assert parts == init + [x];
      StatementsOf(init, x + rest);
      LastStatement(init, x, rest);
    }
  }

  lemma LastStatement(init: seq<string>, x: string, rest: string)
    requires IsStatement(x)
    requires Statements(Concat(init) + (x + rest)) == init + Statements(x + rest) && Rest(Concat(init) + (x + rest)) == Rest(x + rest)
    ensures Statements(Concat(init + [x]) + rest) == (init + [x]) + Statements(rest) && Rest(Concat(init + [x]) + rest) == Rest(rest)
  {
    FirstOf(x, rest);
    OneMorePart(init, x, rest);
    OneByOne(init, x, Statements(rest));
  }

  lemma OneMorePart(init: seq<string>, x: string, rest: string)
    ensures Concat(init + [x]) + rest == Concat(init) + (x + rest)
  {
    ConcatOne(init, x);
    Assoc(Concat(init), x, rest);
  }

  lemma OneByOne(init: seq<string>, x: string, more: seq<string>)
    ensures init + ([x] + more) == (init + [x]) + more
  {
  }

  /** What is dispatched are the first of the complete statements received, in order; what is not
      dispatched yet is in the buffer. */
  lemma DispatchedInOrder(states: seq<State>, i: nat, fd: Fd)
    requires Run(states, Anytime()) && i < |states| && fd in states[i].conns
    ensures fd in states[i].logs
    ensures Statements(states[i].logs[fd].received) == states[i].logs[fd].dispatched + Statements(states[i].conns[fd].readBuf)
  {
    EveryState(states, Anytime(), i);
    assert ConnOk(states[i], fd);
    StatementsOf(states[i].logs[fd].dispatched, states[i].conns[fd].readBuf);
  }

  /** When nothing is queued or running and neither the I/O thread nor a worker is in a handler,
      every complete statement received has been dispatched and answered, and only an incomplete
      one is buffered. */
  lemma NothingForgotten(states: seq<State>, i: nat, fd: Fd)
    requires Run(states, Anytime()) && i < |states| && fd in states[i].conns
    requires states[i].io.Free? && states[i].mutex.Unlocked? && states[i].queue == [] && forall w :: !Runs(states[i], w)
    ensures fd in states[i].logs
    ensures var c, l := states[i].conns[fd], states[i].logs[fd];
            && l.dispatched == Statements(l.received) && c.readBuf == Rest(l.received)
            && |l.responses| == |l.dispatched| && !c.busy
  {
    EveryState(states, Anytime(), i);
    assert ConnOk(states[i], fd) && Seen(states[i], fd);
    NoLoad(states[i], fd);
    DispatchedInOrder(states, i, fd);
    StatementsOf(states[i].logs[fd].dispatched, states[i].conns[fd].readBuf);
  }

  /** Outside the handlers an idle connection holds no complete statement. */
  lemma IdleMeansDone(states: seq<State>, i: nat, fd: Fd)
    requires Run(states, Anytime()) && i < |states| && fd in states[i].conns
    requires states[i].io.Free? && states[i].mutex.Unlocked? && !states[i].conns[fd].busy
    ensures fd in states[i].logs && Statements(states[i].logs[fd].received) == states[i].logs[fd].dispatched
  {
    EveryState(states, Anytime(), i);
    assert Seen(states[i], fd);
    DispatchedInOrder(states, i, fd);
  }

  // ---- when a connection has one task at most ------------------------------------------------

  ghost predicate Single(st: State) {
    forall fd :: fd in st.conns ==> Load(st, fd) <= 1
  }

  /** The discipline lets the read handler find the connection idle where that is a race. */
  ghost predicate Races(st: State, may: Discipline) {
    may(st) && Racy(st)
  }

  lemma {:induction false} SafeState(states: seq<State>, may: Discipline, i: nat)
    requires Run(states, may) && i < |states|
    requires forall j :: 0 <= j < i ==> !Races(states[j], may)
    ensures Safe(states[i])
  {
    if i == 0 {
      assert forall t :: !InFlight(states[0], t);
    } else {
      var st := states[i - 1];
      SafeState(states, may, i - 1);
      EveryState(states, may, i - 1);
      assert Follows(st, states[i], may) && !Races(st, may);
      var a :| Enabled(st, a) && (a.EndRead? ==> may(st)) && states[i] == Next(st, a);
      SafeKept(st, a);
    }
  }

  /** From a racy state: the read handler finds the connection idle and dispatches, and so does the
      worker. */
  lemma RaceEndsInTwo(st: State)
    requires Racy(st)
    ensures Enabled(st, EndRead) && Enabled(Next(st, EndRead), Dispatch) && Enabled(Next(Next(st, EndRead), Dispatch), Redispatch)
    ensures Known(Next(Next(Next(st, EndRead), Dispatch), Redispatch), st.io.fd)
    ensures Placed(st) ==> Load(Next(Next(Next(st, EndRead), Dispatch), Redispatch), st.io.fd) >= 2
  {
    var fd := st.io.fd;
    var e := Next(st, EndRead);
    var mid := e.(io := Free);
    var d := Next(e, Dispatch);
    SameTasksLoad(st, mid);
    PendingCut(mid, fd);
    StatementLoad(mid, fd, fd);
    if Placed(st) {
      ReleaseLoad(d);
      PendingCut(Released(d), fd);
      StatementLoad(Released(d), fd, fd);
    }
  }

  lemma OneMoreState(states: seq<State>, may: Discipline, a: Action)
    requires Run(states, may) && Enabled(Last(states), a) && (a.EndRead? ==> may(Last(states)))
    ensures Run(states + [Next(Last(states), a)], may)
  {
    var more := states + [Next(Last(states), a)];
    forall i | 0 < i < |more| ensures Follows(more[i - 1], more[i], may) {
      if i < |states| { assert Follows(states[i - 1], states[i], may); }
    }
  }

  /** For every discipline of the read handler: no connection ever has two statements queued or
      running if and only if the handler never looks at a connection on which a worker has answered
      but not dispatched, with two statements waiting. */
  lemma OneTaskIff(may: Discipline)
    ensures (forall states :: Run(states, may) ==> Single(Last(states))) <==>
            (forall states :: Run(states, may) ==> !Races(Last(states), may))
  {
    if forall states :: Run(states, may) ==> !Races(Last(states), may) {
      forall states | Run(states, may) ensures Single(Last(states)) {
        NeverRaces(states, may);
      }
    }
    forall states | Run(states, may) && Races(Last(states), may)
      ensures exists more :: Run(more, may) && !Single(Last(more))
    {
      var more := RaceReached(states, may);
    }
  }

  lemma RaceReached(states: seq<State>, may: Discipline) returns (more: seq<State>)
    requires Run(states, may) && Races(Last(states), may)
    ensures Run(more, may) && !Single(Last(more))
  {
    var st := Last(states);
    EveryState(states, may, |states| - 1);
    RaceEndsInTwo(st);
    OneMoreState(states, may, EndRead);
    more := states + [Next(st, EndRead)];
    OneMoreState(more, may, Dispatch);
    more := more + [Next(Last(more), Dispatch)];
    OneMoreState(more, may, Redispatch);
    more := more + [Next(Last(more), Redispatch)];
    EveryState(more, may, |more| - 1);
  }

  lemma NeverRaces(states: seq<State>, may: Discipline)
    requires Run(states, may)
    requires forall s :: Run(s, may) ==> !Races(Last(s), may)
    ensures Single(Last(states))
  {
    forall j | 0 <= j < |states| ensures !Races(states[j], may) {
      var prefix := states[..j + 1];
      assert forall i :: 0 < i < |prefix| ==> Follows(states[i - 1], states[i], may);
      assert Run(prefix, may) && Last(prefix) == states[j];
    }
    SafeState(states, may, |states| - 1);
    assert forall fd :: fd in Last(states).conns ==> OneTask(Last(states), fd);
  }

  /** With the mutex held for the read handler's dispatch, a connection is busy exactly when it has a
      statement queued or running, and never has two. */
  lemma OneTaskUnderMutex(states: seq<State>, i: nat, fd: Fd)
    requires Run(states, UnderMutex()) && i < |states| && fd in states[i].conns
    ensures Load(states[i], fd) == if states[i].conns[fd].busy then 1 else 0
  {
    SafeState(states, UnderMutex(), i);
    assert OneTask(states[i], fd);
  }

  /** As the code is, the same holds on every run in which no client has two complete statements
      waiting, and a worker runs exactly the statement whose response comes next. */
  lemma OneTaskOneWaiting(states: seq<State>, i: nat, fd: Fd)
    requires Run(states, Anytime()) && i < |states| && fd in states[i].conns
    requires forall j, f :: 0 <= j < i && Known(states[j], f) ==> Pending(states[j], f) <= 1
    ensures Load(states[i], fd) == if states[i].conns[fd].busy then 1 else 0
    ensures forall w :: Runs(states[i], w) && states[i].workers[w].task.fd == fd ==>
                          && fd in states[i].logs && |states[i].logs[fd].responses| < |states[i].logs[fd].dispatched|
                          && states[i].workers[w].task.sql == states[i].logs[fd].dispatched[|states[i].logs[fd].responses|]
  {
    forall j | 0 <= j < i ensures !Races(states[j], Anytime()) {
      assert states[j].io.Reading? && Known(states[j], states[j].io.fd) ==> Pending(states[j], states[j].io.fd) <= 1;
    }
    SafeState(states, Anytime(), i);
    EveryState(states, Anytime(), i);
    assert OneTask(states[i], fd) && ConnOk(states[i], fd);
    forall w | Runs(states[i], w) && states[i].workers[w].task.fd == fd
      ensures states[i].logs[fd].dispatched != []
      ensures states[i].workers[w].task.sql == states[i].logs[fd].dispatched[|states[i].logs[fd].dispatched| - 1]
      ensures Load(states[i], fd) == 1
    {
      assert InFlight(states[i], states[i].workers[w].task);
      LoadSome(states[i], states[i].workers[w].task);
    }
  }

  // ---- a run of the code with two tasks --------------------------------------------------------

  lemma Extend(states: seq<State>, a: Action, st: State) returns (more: seq<State>)
    requires Run(states, Anytime()) && Enabled(Last(states), a) && st == Next(Last(states), a)
    ensures Run(more, Anytime()) && Last(more) == st
  {
    OneMoreState(states, Anytime(), a);
    more := states + [st];
  }

  /** One connection, one worker. */
  function Small(c: Connection, l: Log, queue: seq<SqlTask>, pc: WorkerPc, io: IoPc, mutex: Mutex): State {
    State(map[1 := c], map[1 := l], queue, map[0 := pc], io, mutex)
  }

  lemma SemiOf(x: string, rest: string)
    requires IsStatement(x)
    ensures Semi(x + rest) == |x| - 1
  {
    var s, n := x + rest, Semi(x + rest);
    assert s[|x| - 1] == ';';
    assert forall i :: 0 <= i < |x| - 1 ==> s[i] == x[..|x| - 1][i];
    assert forall i :: 0 <= i < n ==> s[i] == s[..n][i];
  }

  lemma TakeSmall(st: State, c: Connection, l: Log, name: char, rest: string)
    requires st.conns == map[1 := c] && st.logs == map[1 := l] && name != ';' && c.readBuf == [name, ';'] + rest
    ensures TakeStatement(st, 1) ==
            Small(c.(readBuf := rest, busy := true), l.(dispatched := l.dispatched + [[name, ';']]),
                  st.queue + [SqlTask(1, [name, ';'])], Waiting, st.io, st.mutex).(workers := st.workers)
  {
    var stmt: string := [name, ';'];
    assert stmt[..1] == [name];
    SemiOf(stmt, rest);
    assert ';' == c.readBuf[1] && c.readBuf[..2] == stmt && c.readBuf[2..] == rest;
  }

  lemma FirstArrives() returns (states: seq<State>)
    ensures Run(states, Anytime())
    ensures Last(states) == Small(Connection("a;", "", 0, false), Log("a;", [], [], ""), [], Waiting, Reading(1, true), Unlocked)
  {
    var c, l := Connection("", "", 0, false), Log("", [], [], "");
    var c', l' := Connection("a;", "", 0, false), Log("a;", [], [], "");
    states := [State(map[], map[], [], map[0 := Waiting], Free, Unlocked)];
    states := Extend(states, Accept(1), Small(c, l, [], Waiting, Free, Unlocked));
    states := Extend(states, BeginRead(1), Small(c, l, [], Waiting, Reading(1, false), Unlocked));
    assert c.readBuf + "a;" == c'.readBuf && l.received + "a;" == l'.received;
    states := Extend(states, Receive("a;"), Small(c', l', [], Waiting, Reading(1, true), Unlocked));
  }

  /** The client sends `a;` and the worker takes it. */
  lemma FirstRuns() returns (states: seq<State>)
    ensures Run(states, Anytime())
    ensures Last(states) == Small(Connection("", "", 0, true), Log("a;", ["a;"], [], ""), [], Running(SqlTask(1, "a;")), Free, Unlocked)
  {
    states := FirstArrives();
    var c, l := Connection("a;", "", 0, false), Log("a;", [], [], "");
    var c', l' := Connection("", "", 0, true), Log("a;", ["a;"], [], "");
    states := Extend(states, EndRead, Small(c, l, [], Waiting, Committed(1), Unlocked));
    TakeSmall(Small(c, l, [], Waiting, Free, Unlocked), c, l, 'a', "");
    assert l.dispatched + [['a', ';']] == l'.dispatched && [] + [SqlTask(1, ['a', ';'])] == [SqlTask(1, "a;")];
    states := Extend(states, Dispatch, Small(c', l', [SqlTask(1, "a;")], Waiting, Free, Unlocked));
    states := Extend(states, Take(0), Small(c', l', [], Running(SqlTask(1, "a;")), Free, Unlocked));
  }

  /** While it runs, the client sends `b;c;`. */
  lemma OthersArrive() returns (states: seq<State>)
    ensures Run(states, Anytime())
    ensures Last(states) == Small(Connection("b;c;", "", 0, true), Log("a;b;c;", ["a;"], [], ""), [],
                                  Running(SqlTask(1, "a;")), Reading(1, true), Unlocked)
  {
    states := FirstRuns();
    var t := SqlTask(1, "a;");
    var c, l := Connection("", "", 0, true), Log("a;", ["a;"], [], "");
    var c', l' := Connection("b;c;", "", 0, true), Log("a;b;c;", ["a;"], [], "");
    states := Extend(states, BeginRead(1), Small(c, l, [], Running(t), Reading(1, false), Unlocked));
    assert c.readBuf + "b;c;" == c'.readBuf && l.received + "b;c;" == l'.received;
    states := Extend(states, Receive("b;c;"), Small(c', l', [], Running(t), Reading(1, true), Unlocked));
  }

  /** The worker answers. */
  lemma FirstAnswered() returns (states: seq<State>)
    ensures Run(states, Anytime())
    ensures Last(states) == Small(Connection("b;c;", "x", 0, false), Log("a;b;c;", ["a;"], ["x"], ""), [],
                                  Answering, Reading(1, true), Locked(0, 1))
  {
    states := OthersArrive();
    var c, l := Connection("b;c;", "x", 0, false), Log("a;b;c;", ["a;"], ["x"], "");
    assert "" + "x" == c.writeBuf && [] + ["x"] == l.responses;
    states := Extend(states, Answer(0, "x"), Small(c, l, [], Answering, Reading(1, true), Locked(0, 1)));
  }

  /** Before the worker dispatches, the read handler finds the connection idle and dispatches. */
  lemma HandlerDispatches() returns (states: seq<State>)
    ensures Run(states, Anytime())
    ensures Last(states) == Small(Connection("c;", "x", 0, true), Log("a;b;c;", ["a;", "b;"], ["x"], ""),
                                  [SqlTask(1, "b;")], Answering, Free, Locked(0, 1))
  {
    states := FirstAnswered();
    var c, l := Connection("b;c;", "x", 0, false), Log("a;b;c;", ["a;"], ["x"], "");
    states := Extend(states, EndRead, Small(c, l, [], Answering, Committed(1), Locked(0, 1)));
    TakeSmall(Small(c, l, [], Answering, Free, Locked(0, 1)), c, l, 'b', "c;");
    var c', l' := Connection("c;", "x", 0, true), Log("a;b;c;", ["a;", "b;"], ["x"], "");
    assert l.dispatched + [['b', ';']] == l'.dispatched && [] + [SqlTask(1, ['b', ';'])] == [SqlTask(1, "b;")];
    states := Extend(states, Dispatch, Small(c', l', [SqlTask(1, "b;")], Answering, Free, Locked(0, 1)));
  }

  /** Then the worker dispatches too, and both statements are queued. */
  lemma TwoTasks() returns (states: seq<State>)
    ensures Run(states, Anytime()) && 1 in Last(states).conns && Load(Last(states), 1) == 2
    ensures Last(states).queue == [SqlTask(1, "b;"), SqlTask(1, "c;")]
  {
    states := HandlerDispatches();
    var c, l := Connection("c;", "x", 0, true), Log("a;b;c;", ["a;", "b;"], ["x"], "");
    var mid := Small(c, l, [SqlTask(1, "b;")], Finishing, Free, Unlocked);
    assert Released(Last(states)).workers == mid.workers;
    TakeSmall(mid, c, l, 'c', "");
    var c', l' := Connection("", "x", 0, true), Log("a;b;c;", ["a;", "b;", "c;"], ["x"], "");
    assert l.dispatched + [['c', ';']] == l'.dispatched;
    assert mid.queue + [SqlTask(1, ['c', ';'])] == [SqlTask(1, "b;"), SqlTask(1, "c;")];
    states := Extend(states, Redispatch, Small(c', l', [SqlTask(1, "b;"), SqlTask(1, "c;")], Finishing, Free, Unlocked));
    TwoQueued(Last(states));
  }

  lemma TwoQueued(st: State)
    requires st.queue == [SqlTask(1, "b;"), SqlTask(1, "c;")] && st.workers == map[0 := Finishing]
    ensures Load(st, 1) == 2
  {
    assert RunsFor(st, 1) == {};
    CountNext([SqlTask(1, "b;")], SqlTask(1, "c;"), 1);
    CountNext([], SqlTask(1, "b;"), 1);
    assert [] + [SqlTask(1, "b;")] == [SqlTask(1, "b;")];
    assert st.queue[..1] == [SqlTask(1, "b;")] && st.queue[..1][..0] == [];
  }
}
