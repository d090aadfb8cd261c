/** The server comes to rest: without new input its own steps come to an end, and where they end
    every statement is answered and every answer is sent. */
module DispatcherProgress {
  import opened Dispatcher

  /** The steps that need no new input; a write takes something. */
  predicate Own(a: Action) {
    !a.Accept? && !a.BeginRead? && !a.Receive? && (a.HandleWrite? ==> a.n > 0)
  }

  /** At rest. */
  predicate Done(st: State) {
    && st.io.Free? && st.mutex.Unlocked? && st.queue == []
    && (forall w :: w in st.workers ==> st.workers[w].Waiting?)
    && (forall fd :: fd in st.conns ==> Unsent(st.conns[fd]) == 0)
  }

  function Unsent(c: Connection): nat {
    if c.writeOff <= |c.writeBuf| then |c.writeBuf| - c.writeOff else 0
  }

  // ---- a worker that has answered holds the mutex --------------------------------------------

  ghost predicate Holding(st: State) {
    forall w :: w in st.workers && st.workers[w].Answering? ==> st.mutex.Locked? && st.mutex.w == w
  }

  lemma HoldingKept(st: State, a: Action)
    requires Holding(st) && Enabled(st, a)
    ensures Holding(Next(st, a))
  {
    var st' := Next(st, a);
    if a.Redispatch? {
      assert st'.workers == Released(st).workers;
    } else if a.Dispatch? {
      assert st'.workers == st.workers && st'.mutex == st.mutex;
    }
  }

  lemma {:induction false} AlwaysHolding(states: seq<State>, i: nat)
    requires Run(states, Anytime()) && i < |states|
    ensures Inv(states[i]) && Holding(states[i])
  {
    EveryState(states, Anytime(), i);
    if i > 0 {
      AlwaysHolding(states, i - 1);
      assert Follows(states[i - 1], states[i], Anytime());
      var a :| Enabled(states[i - 1], a) && (a.EndRead? ==> Anytime()(states[i - 1])) && states[i] == Next(states[i - 1], a);
      HoldingKept(states[i - 1], a);
    }
  }

  // ---- some own step is possible until the server is at rest -----------------------------------

  lemma WorkerStep(st: State, w: Worker) returns (a: Action)
    requires Inv(st) && Holding(st) && w in st.workers && !st.workers[w].Waiting?
    ensures Own(a) && Enabled(st, a)
  {
    if st.mutex.Locked? {
      a := Redispatch;
    } else if st.workers[w].Running? {
      assert Runs(st, w);
      assert InFlight(st, st.workers[w].task);
      a := Answer(w, "");
    } else {
      a := Finish(w);
    }
  }

  /** Unless the server is at rest, or has no worker for what is queued, it has a step to take. */
  lemma SomeStep(st: State) returns (a: Action)
    requires Inv(st) && Holding(st) && !Done(st) && st.workers != map[]
    ensures Own(a) && Enabled(st, a)
  {
    if st.io.Reading? {
      a := EndRead;
    } else if st.io.Committed? {
      a := Dispatch;
    } else if st.mutex.Locked? {
      a := Redispatch;
    } else if w :| w in st.workers && !st.workers[w].Waiting? {
      a := WorkerStep(st, w);
    } else if st.queue != [] {
      assert st.workers.Keys != {};
      var w :| w in st.workers;
      a := Take(w);
    } else {
      var fd :| fd in st.conns && Unsent(st.conns[fd]) != 0;
      assert ConnOk(st, fd);
      a := HandleWrite(fd, Unsent(st.conns[fd]));
    }
  }

  lemma DoneIsStuck(st: State, a: Action)
    requires Inv(st) && Done(st) && Enabled(st, a)
    ensures !Own(a)
  {
    if a.HandleWrite? { assert ConnOk(st, a.fd) && Unsent(st.conns[a.fd]) == 0; }
  }

  // ---- own steps use something up -----------------------------------------------------------------

  ghost function Sum(f: nat -> nat, s: set<nat>): nat {
    if s == {} then 0 else var x :| x in s; f(x) + Sum(f, s - {x})
  }

  lemma {:induction false} SumPick(f: nat -> nat, s: set<nat>, x: nat)
    requires x in s
    ensures Sum(f, s) == f(x) + Sum(f, s - {x})
  {
    var y :| y in s && Sum(f, s) == f(y) + Sum(f, s - {y});
    if y != x {
      SumPick(f, s - {y}, x);
      SumPick(f, s - {x}, y);
      assert s - {y} - {x} == s - {x} - {y};
    }
  }

  lemma {:induction false} SumSame(f: nat -> nat, g: nat -> nat, s: set<nat>)
    requires forall x :: x in s ==> f(x) == g(x)
    ensures Sum(f, s) == Sum(g, s)
  {
    if s != {} {
      var x :| x in s;
      SumPick(f, s, x);
      SumPick(g, s, x);
      SumSame(f, g, s - {x});
    }
  }

  /** A sum changes by what one term changes. */
  lemma SumChange(f: nat -> nat, g: nat -> nat, s: set<nat>, x: nat)
    requires x in s && forall y :: y in s && y != x ==> f(y) == g(y)
    ensures Sum(g, s) - Sum(f, s) == g(x) - f(x)
  {
    SumPick(f, s, x);
    SumPick(g, s, x);
    SumSame(f, g, s - {x});
  }

  function PcWork(pc: WorkerPc): nat {
    match pc
    case Waiting => 0
    case Finishing => 1
    case Answering => 2
    case Running(_) => 3
  }

  function IoWork(io: IoPc): nat {
    match io
    case Free => 0
    case Committed(_) => 1
    case Reading(_, _) => 2
  }

  function Waits(st: State): nat -> nat {
    fd => if fd in st.conns then |Statements(st.conns[fd].readBuf)| else 0
  }

  function Pending(st: State): nat -> nat {
    fd => if fd in st.conns then Unsent(st.conns[fd]) else 0
  }

  function Busy(st: State): nat -> nat {
    w => if w in st.workers then PcWork(st.workers[w]) else 0
  }

  /** What the server still has to do before it can only write. */
  ghost function Work(st: State): nat {
    5 * Sum(Waits(st), st.conns.Keys) + 4 * |st.queue| + Sum(Busy(st), st.workers.Keys) + IoWork(st.io)
  }

  ghost function Output(st: State): nat {
    Sum(Pending(st), st.conns.Keys)
  }

  lemma CutLess(s: string, first: string, rest: string)
    requires HasStatement(s) && first == s[..Semi(s) + 1] && rest == s[Semi(s) + 1..]
    ensures |Statements(rest)| == |Statements(s)| - 1
  {
    assert Statements(s) == [first] + Statements(rest);
  }

  /** Queueing a statement makes less work of it; nothing else changes. */
  lemma StatementWork(st: State, fd: Fd)
    requires Known(st, fd)
    ensures Work(TakeStatement(st, fd)) == Work(st) - if HasStatement(st.conns[fd].readBuf) then 1 else 0
  {
    if HasStatement(st.conns[fd].readBuf) {
      var c := st.conns[fd];
      CutLess(c.readBuf, FirstStatement(c), Cut(c).readBuf);
      CutWork(st, TakeStatement(st, fd), fd);
    }
  }

  lemma CutWork(st: State, st': State, fd: Fd)
    requires fd in st.conns && fd in st'.conns && st'.conns == st.conns[fd := st'.conns[fd]]
    requires |Statements(st'.conns[fd].readBuf)| == |Statements(st.conns[fd].readBuf)| - 1
    requires |st'.queue| == |st.queue| + 1 && st'.workers == st.workers && st'.io == st.io
    ensures Work(st') == Work(st) - 1
  {
    assert st'.conns.Keys == st.conns.Keys;
    SumChange(Waits(st), Waits(st'), st.conns.Keys, fd);
    SumSame(Busy(st), Busy(st'), st.workers.Keys);
  }

  /** A worker that moves on has less to do. */
  lemma WorkerWork(st: State, st': State, w: Worker)
    requires w in st.workers && w in st'.workers && st'.workers == st.workers[w := st'.workers[w]]
    requires SameInput(st, st')
    ensures Work(st') - Work(st) ==
            4 * (|st'.queue| - |st.queue|) + PcWork(st'.workers[w]) - PcWork(st.workers[w]) + IoWork(st'.io) - IoWork(st.io)
  {
    assert st'.workers.Keys == st.workers.Keys;
    SumChange(Busy(st), Busy(st'), st.workers.Keys, w);
    SumSame(Waits(st), Waits(st'), st.conns.Keys);
  }

  /** No read buffer changes. */
  predicate SameInput(st: State, st': State) {
    st'.conns.Keys == st.conns.Keys && forall fd :: fd in st.conns ==> st'.conns[fd].readBuf == st.conns[fd].readBuf
  }

  lemma IoWorks(st: State, st': State)
    requires SameInput(st, st') && st'.workers == st.workers && st'.queue == st.queue
    ensures Work(st') - Work(st) == IoWork(st'.io) - IoWork(st.io)
  {
    SumSame(Waits(st), Waits(st'), st.conns.Keys);
    SumSame(Busy(st), Busy(st'), st.workers.Keys);
  }

  /** Only the write buffer of one connection may change, its read buffer does not. */
  predicate SameBut(st: State, st': State, fd: Fd) {
    && fd in st.conns && fd in st'.conns && st'.conns == st.conns[fd := st'.conns[fd]]
    && st'.conns[fd].readBuf == st.conns[fd].readBuf
  }

  lemma ButSame(st: State, st': State, fd: Fd)
    requires SameBut(st, st', fd)
    ensures SameInput(st, st')
  {
  }

  lemma OutputChange(st: State, st': State, fd: Fd)
    requires SameBut(st, st', fd)
    ensures Output(st') - Output(st) == Unsent(st'.conns[fd]) - Unsent(st.conns[fd])
  {
    assert st'.conns.Keys == st.conns.Keys;
    SumChange(Pending(st), Pending(st'), st.conns.Keys, fd);
  }

  lemma WriteUses(st: State, fd: Fd, n: nat)
    requires Enabled(st, HandleWrite(fd, n))
    ensures Work(Next(st, HandleWrite(fd, n))) == Work(st) && Output(Next(st, HandleWrite(fd, n))) == Output(st) - n
  {
    var st' := Flush(st, fd, n);
    assert SameBut(st, st', fd);
    ButSame(st, st', fd);
    IoWorks(st, st');
    WrittenLess(st.conns[fd], n);
    OutputChange(st, st', fd);
  }

  lemma WrittenLess(c: Connection, n: nat)
    requires c.writeOff + n <= |c.writeBuf|
    ensures Unsent(Written(c, n)) == Unsent(c) - n
  {
  }

  lemma ReleaseWork(st: State)
    requires st.mutex.Locked? && st.mutex.w in st.workers && st.workers[st.mutex.w].Answering?
    ensures Work(Released(st)) == Work(st) - 1
  {
    WorkerWork(st, Released(st), st.mutex.w);
  }

  lemma TakeUses(st: State, w: Worker)
    requires Enabled(st, Take(w))
    ensures Work(Next(st, Take(w))) < Work(st)
  {
    WorkerWork(st, Next(st, Take(w)), w);
  }

  lemma AnswerUses(st: State, w: Worker, data: string)
    requires Enabled(st, Answer(w, data))
    ensures Work(Next(st, Answer(w, data))) < Work(st)
  {
    var st' := Next(st, Answer(w, data));
    ButSame(st, st', st.workers[w].task.fd);
    WorkerWork(st, st', w);
  }

  lemma FinishUses(st: State, w: Worker)
    requires Enabled(st, Finish(w))
    ensures Work(Next(st, Finish(w))) < Work(st)
  {
    WorkerWork(st, Next(st, Finish(w)), w);
  }

  lemma HandlerUses(st: State, a: Action)
    requires Enabled(st, a) && (a.EndRead? || a.Dispatch?)
    ensures Work(Next(st, a)) < Work(st)
  {
    if a.EndRead? {
      IoWorks(st, Next(st, a));
    } else {
      IoWorks(st, st.(io := Free));
      StatementWork(st.(io := Free), st.io.fd);
    }
  }

  lemma RedispatchUses(st: State)
    requires Enabled(st, Redispatch) && Placed(st)
    ensures Work(Next(st, Redispatch)) < Work(st)
  {
    ReleaseWork(st);
    StatementWork(Released(st), st.mutex.fd);
  }

  /** Every own step leaves less work, or as much work and less output. */
  lemma StepUses(st: State, a: Action)
    requires Placed(st) && Own(a) && Enabled(st, a)
    ensures Work(Next(st, a)) < Work(st) || (Work(Next(st, a)) == Work(st) && Output(Next(st, a)) < Output(st))
  {
    if a.HandleWrite? {
      WriteUses(st, a.fd, a.n);
    } else if a.EndRead? || a.Dispatch? {
      HandlerUses(st, a);
    } else if a.Redispatch? {
      RedispatchUses(st);
    } else if a.Take? {
      TakeUses(st, a.w);
    } else if a.Answer? {
      AnswerUses(st, a.w, a.data);
    } else {
      FinishUses(st, a.w);
    }
  }

  // ---- the server comes to rest ---------------------------------------------------------------------

  /** From state `from` on the run takes own steps only. */
  ghost predicate OwnFrom(states: seq<State>, from: nat) {
    forall i :: from < i < |states| ==> OwnFollows(states[i - 1], states[i])
  }

  ghost predicate OwnFollows(st: State, st': State) {
    exists a :: Own(a) && Enabled(st, a) && st' == Next(st, a)
  }

  /** A run of own steps that cannot be continued is at rest; and a run at rest has no own step. */
  lemma StuckIff(states: seq<State>)
    requires Run(states, Anytime()) && states[0].workers != map[]
    ensures Done(Last(states)) <==> forall a :: Own(a) ==> !Enabled(Last(states), a)
  {
    var st := Last(states);
    AlwaysHolding(states, |states| - 1);
    SameWorkers(states, |states| - 1);
    if Done(st) {
      forall a | Own(a) ensures !Enabled(st, a) {
        if Enabled(st, a) { DoneIsStuck(st, a); }
      }
    } else {
      assert st.workers.Keys != {};
      var a := SomeStep(st);
    }
  }

  lemma NextWorkers(st: State, a: Action)
    requires Placed(st) && Enabled(st, a)
    ensures Next(st, a).workers.Keys == st.workers.Keys
  {
    if a.Redispatch? { assert Released(st).workers.Keys == st.workers.Keys; }
  }

  lemma {:induction false} SameWorkers(states: seq<State>, i: nat)
    requires Run(states, Anytime()) && i < |states|
    ensures states[i].workers.Keys == states[0].workers.Keys
  {
    if i > 0 {
      SameWorkers(states, i - 1);
      EveryState(states, Anytime(), i - 1);
      assert Follows(states[i - 1], states[i], Anytime());
      var a :| Enabled(states[i - 1], a) && (a.EndRead? ==> Anytime()(states[i - 1])) && states[i] == Next(states[i - 1], a);
      NextWorkers(states[i - 1], a);
    }
  }

  /** One own step more, if the server is not at rest. */
  lemma OneOwnStep(states: seq<State>) returns (st': State)
    requires Run(states, Anytime()) && states[0].workers != map[] && !Done(Last(states))
    ensures Run(states + [st'], Anytime()) && OwnFollows(Last(states), st')
    ensures Work(st') < Work(Last(states)) || (Work(st') == Work(Last(states)) && Output(st') < Output(Last(states)))
  {
    var st := Last(states);
    AlwaysHolding(states, |states| - 1);
    SameWorkers(states, |states| - 1);
    assert st.workers.Keys != {};
    var a := SomeStep(st);
    StepUses(st, a);
    OneMoreState(states, Anytime(), a);
    st' := Next(st, a);
  }

  /** Every run can be continued by own steps until the server is at rest; and no run of own steps goes
      on for ever, by `StepUses`. */
  lemma {:induction false} ComesToRest(states: seq<State>) returns (more: seq<State>)
    requires Run(states, Anytime()) && states[0].workers != map[]
    ensures |states| <= |more| && more[..|states|] == states && Run(more, Anytime())
    ensures OwnFrom(more, |states| - 1) && Done(Last(more))
    decreases Work(Last(states)), Output(Last(states))
  {
    if Done(Last(states)) {
      more := states;
    } else {
      var st' := OneOwnStep(states);
      var next := states + [st'];
      more := ComesToRest(next);
      FromNext(states, st', more);
    }
  }

  lemma FromNext(states: seq<State>, st': State, more: seq<State>)
    requires states != [] && OwnFollows(Last(states), st')
    requires |states| < |more| && more[..|states| + 1] == states + [st'] && OwnFrom(more, |states|)
    ensures more[..|states|] == states && OwnFrom(more, |states| - 1)
  {
    assert more[..|states|] == more[..|states| + 1][..|states|];
    assert more[|states| - 1] == Last(states) && more[|states|] == st';
  }

  /** At rest every complete statement received has been answered, once and in order, and the answers
      are what was sent. */
  lemma AtRest(states: seq<State>, fd: Fd)
    requires Run(states, Anytime()) && Done(Last(states)) && fd in Last(states).conns
    ensures fd in Last(states).logs
    ensures var l := Last(states).logs[fd];
            l.dispatched == Statements(l.received) && |l.responses| == |l.dispatched| && l.sent == Concat(l.responses)
  {
    var i := |states| - 1;
    assert forall w :: !Runs(states[i], w);
    NothingForgotten(states, i, fd);
    BytesKept(states, i, fd);
    var c := states[i].conns[fd];
    assert c.writeBuf[c.writeOff..] == "";
  }
}
