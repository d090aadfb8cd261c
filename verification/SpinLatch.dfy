/** The reader/writer spin latch with its version sequence, as a protocol of any number of
    threads, and the optimistic reader of the index built on it. Each atomic operation, and
    each read or write of the page, is one step; steps interleave freely. */
module SpinLatch {
  import opened IndexPages

  type Thread = nat

  const WRITE_BIT: int := 0x8000_0000
  const WORD: int := 0x1_0000_0000
  const SEQ: int := 0x1_0000_0000_0000_0000

  /** The part of a page that a lookup reads. */
  datatype Frame = Frame(numKey: int, keys: seq<int>, rids: seq<Rid>)

  ghost predicate FrameOk(f: Frame) {
    0 <= f.numKey <= |f.keys| && f.numKey < |f.rids| && Sorted(f.keys[..f.numKey])
  }

  /** Memory outside the arrays may be read while a writer is at work; it holds something. */
  function KeyAt(f: Frame, i: int): int {
    if 0 <= i < |f.keys| then f.keys[i] else 0
  }

  function ChildAt(f: Frame, i: int): PageId {
    if 0 <= i < |f.rids| then f.rids[i].pageNo else NO_PAGE
  }

  // ---- an internal lookup, one read at a time ---------------------------------

  datatype Lookup = Begin | Search(lo: int, hi: int) | AtChild(pos: int) | Found(child: PageId)

  function LookupStep(f: Frame, key: int, l: Lookup): Lookup {
    match l
    case Begin => Search(0, f.numKey)
    case Search(lo, hi) =>
      if lo < hi then
        var mid := lo + (hi - lo) / 2;
        if KeyAt(f, mid) <= key then Search(mid + 1, hi) else Search(lo, mid)
      else AtChild(lo)
    case AtChild(pos) => Found(ChildAt(f, pos))
    case Found(_) => l
  }

  /** The result of the lookup when it goes on from `l` and the page does not change. */
  function Result(f: Frame, key: int, l: Lookup): PageId
    decreases if l.Begin? then 3 else if l.Search? then 2 else if l.AtChild? then 1 else 0,
              if l.Search? && l.lo < l.hi then l.hi - l.lo else 0
  {
    if l.Found? then l.child else Result(f, key, LookupStep(f, key, l))
  }

  lemma AroundMid(f: Frame, mid: int)
    requires FrameOk(f) && 0 <= mid < f.numKey
    ensures forall i :: 0 <= i <= mid ==> f.keys[i] <= f.keys[mid]
    ensures forall i :: mid <= i < f.numKey ==> f.keys[mid] <= f.keys[i]
  {
    var ks := f.keys[..f.numKey];
    forall i | 0 <= i < f.numKey
      ensures i <= mid ==> f.keys[i] <= f.keys[mid]
      ensures mid <= i ==> f.keys[mid] <= f.keys[i]
    {
      if i < mid { assert ks[i] < ks[mid]; } else if mid < i { assert ks[mid] < ks[i]; }
    }
  }

  /** From any sound search interval the lookup finds the child that covers the key. */
  lemma {:induction false} SearchFinds(f: Frame, key: int, lo: int, hi: int)
    requires FrameOk(f) && 0 <= lo <= hi <= f.numKey
    requires forall i :: 0 <= i < lo ==> f.keys[i] <= key
    requires forall i :: hi <= i < f.numKey ==> key < f.keys[i]
    ensures Result(f, key, Search(lo, hi)) == f.rids[UpperBound(f.keys[..f.numKey], key)].pageNo
    decreases hi - lo
  {
    if lo < hi {
      var mid := lo + (hi - lo) / 2;
      AroundMid(f, mid);
      var next := LookupStep(f, key, Search(lo, hi));
      assert next.lo <= next.hi && next.hi - next.lo < hi - lo;
      SearchFinds(f, key, next.lo, next.hi);
    } else {
      SearchEnds(f, key, lo);
    }
  }

  lemma SearchEnds(f: Frame, key: int, lo: int)
    requires FrameOk(f) && 0 <= lo <= f.numKey
    requires forall i :: 0 <= i < lo ==> f.keys[i] <= key
    requires forall i :: lo <= i < f.numKey ==> key < f.keys[i]
    ensures Result(f, key, Search(lo, lo)) == f.rids[UpperBound(f.keys[..f.numKey], key)].pageNo
  {
    UpperBoundUnique(f.keys[..f.numKey], key, lo);
    assert Result(f, key, Search(lo, lo)) == Result(f, key, AtChild(lo)) == Result(f, key, Found(ChildAt(f, lo)));
  }

  // ---- the protocol -------------------------------------------------------------

  /** Where a thread is. `since` and `frame` record, for the proof, how often the sequence had been
      bumped and what the page held when an optimistic reader sampled; `stale` records whether the
      sequence went all the way round before it sampled again. */
  datatype Pc =
    | Idle
    | ReadLoaded(cur: int) | Reading
    | WriteLoaded | WriteEntered | Writing | WriteLeaving
    | Optimistic(key: int, seqNo: int, since: nat, frame: Frame, at: Lookup)
    | Accepted(key: int, frame: Frame, child: PageId, stale: bool)

  /** The latch, the page it protects, and the threads. `bumps` counts the increments of the
      sequence, which is this number in 64 bits. */
  datatype State = State(word: int, bumps: nat, page: Frame, pcs: map<Thread, Pc>) {
    function GetSequence(): int {
      bumps % SEQ
    }

    function Readers(): set<Thread> {
      set t | t in pcs && pcs[t].Reading?
    }

    predicate IsReader(t: Thread) {
      t in pcs && pcs[t].Reading?
    }

    predicate IsWriting(t: Thread) {
      t in pcs && pcs[t].Writing?
    }

    predicate IsWriter(t: Thread) {
      t in pcs && (pcs[t].WriteEntered? || pcs[t].Writing? || pcs[t].WriteLeaving?)
    }
  }

  datatype Action =
    | LoadShared | CasShared(spurious: bool) | UnlockShared
    | LoadExclusive | CasExclusive(spurious: bool) | BumpOdd | WritePage(frame: Frame) | BumpEven | StoreZero
    | Sample(key: int) | ReadCell | Validate | Finish

  /** Thread `t` can take the action where it stands. A thread unlocks only what it locked, and a
      writer leaves a page in order behind it. */
  ghost predicate Enabled(s: State, t: Thread, a: Action) {
    t in s.pcs && var pc := s.pcs[t];
    match a
    case LoadShared => pc.Idle?
    case CasShared(_) => pc.ReadLoaded?
    case UnlockShared => pc.Reading?
    case LoadExclusive => pc.Idle?
    case CasExclusive(_) => pc.WriteLoaded?
    case BumpOdd => pc.WriteEntered?
    case WritePage(_) => pc.Writing?
    case BumpEven => pc.Writing? && FrameOk(s.page)
    case StoreZero => pc.WriteLeaving?
    case Sample(_) => pc.Idle?
    case ReadCell => pc.Optimistic? && !pc.at.Found?
    case Validate => pc.Optimistic? && pc.at.Found?
    case Finish => pc.Accepted?
  }

  function Goto(s: State, t: Thread, pc: Pc): State {
    s.(pcs := s.pcs[t := pc])
  }

  /** The effect of an action: words wrap at 32 bits, a failed or spuriously failed
      compare-and-swap goes back to the loop. */
  function Next(s: State, t: Thread, a: Action): State
    requires Enabled(s, t, a)
  {
    var pc := s.pcs[t];
    match a
    case LoadShared => Goto(s, t, if s.word < WRITE_BIT then ReadLoaded(s.word) else Idle)
    case CasShared(spurious) =>
      if s.word == pc.cur && !spurious then Goto(s.(word := (pc.cur + 1) % WORD), t, Reading) else Goto(s, t, Idle)
    case UnlockShared => Goto(s.(word := (s.word - 1) % WORD), t, Idle)
    case LoadExclusive => Goto(s, t, if s.word == 0 then WriteLoaded else Idle)
    case CasExclusive(spurious) =>
      if s.word == 0 && !spurious then Goto(s.(word := WRITE_BIT), t, WriteEntered) else Goto(s, t, Idle)
    case BumpOdd => Goto(s.(bumps := s.bumps + 1), t, Writing)
    case WritePage(frame) => s.(page := frame)
    case BumpEven => Goto(s.(bumps := s.bumps + 1), t, WriteLeaving)
    case StoreZero => Goto(s.(word := 0), t, Idle)
    case Sample(key) =>
      Goto(s, t, if s.GetSequence() % 2 == 1 then Idle else Optimistic(key, s.GetSequence(), s.bumps, s.page, Begin))
    case ReadCell => Goto(s, t, pc.(at := LookupStep(s.page, pc.key, pc.at)))
    case Validate =>
      Goto(s, t, if s.GetSequence() == pc.seqNo then Accepted(pc.key, pc.frame, pc.at.child, s.bumps - pc.since >= SEQ) else Idle)
    case Finish => Goto(s, t, Idle)
  }

  ghost predicate Initial(s: State) {
    && s.word == 0 && s.bumps == 0 && FrameOk(s.page)
    && |s.pcs.Keys| < WRITE_BIT
    && forall t :: t in s.pcs ==> s.pcs[t].Idle?
  }

  // ---- the invariant --------------------------------------------------------------

  /** At most one writer; with a writer the word is the write bit and nobody reads, and without
      one the word counts the readers. */
  ghost predicate WordOk(s: State) {
    && (forall t, u :: s.IsWriter(t) && s.IsWriter(u) ==> t == u)
    && ((exists t :: s.IsWriter(t)) ==> s.word == WRITE_BIT && s.Readers() == {})
    && ((forall t :: !s.IsWriter(t)) ==> s.word == |s.Readers()|)
    && 0 <= s.word <= WRITE_BIT
  }

  /** The sequence is odd exactly while a writer may write, and the page is in order otherwise. */
  ghost predicate SequenceOk(s: State) {
    && (s.bumps % 2 == 1 <==> exists t :: s.IsWriting(t))
    && (s.bumps % 2 == 0 ==> FrameOk(s.page))
  }

  /** As long as the sequence has not been bumped, the page is what it was at the sample and the
      lookup under way is a lookup on it. */
  ghost predicate ReaderOk(s: State, pc: Pc) {
    match pc
    case ReadLoaded(cur) => 0 <= cur < WRITE_BIT
    case Optimistic(key, seqNo, since, frame, at) =>
      && since <= s.bumps && since % 2 == 0 && seqNo == since % SEQ && FrameOk(frame)
      && (since == s.bumps ==> s.page == frame && Result(frame, key, at) == Result(frame, key, Begin))
    case Accepted(key, frame, child, stale) =>
      FrameOk(frame) && (!stale ==> child == Result(frame, key, Begin))
    case _ => true
  }

  ghost predicate Inv(s: State) {
    && |s.pcs.Keys| < WRITE_BIT
    && WordOk(s) && SequenceOk(s)
    && forall t :: t in s.pcs ==> ReaderOk(s, s.pcs[t])
  }

  lemma InitialInv(s: State)
    requires Initial(s)
    ensures Inv(s)
  {
    assert s.Readers() == {};
  }

  lemma SubsetSize(a: set<Thread>, b: set<Thread>)
    requires a <= b
    ensures |a| <= |b|
  {
    if x :| x in a {
      SubsetSize(a - {x}, b - {x});
    }
  }

  /** The other threads keep their places. */
  ghost predicate OnlyMoves(s: State, s': State, t: Thread) {
    && t in s.pcs && t in s'.pcs && s'.pcs == s.pcs[t := s'.pcs[t]]
    && |s.pcs.Keys| < WRITE_BIT
  }

  lemma Others(s: State, s': State, t: Thread)
    requires OnlyMoves(s, s', t)
    ensures s'.pcs.Keys == s.pcs.Keys
    ensures forall u :: u != t ==> (s'.IsWriter(u) <==> s.IsWriter(u)) && (s'.IsWriting(u) <==> s.IsWriting(u))
    ensures s'.Readers() == if s'.IsReader(t) then s.Readers() + {t} else s.Readers() - {t}
    ensures |s'.Readers()| < WRITE_BIT
  {
    assert s'.pcs.Keys == s.pcs.Keys;
    SubsetSize(s'.Readers(), s'.pcs.Keys);
  }

  lemma NobodyEnters(s: State, s': State, t: Thread)
    requires WordOk(s) && OnlyMoves(s, s', t) && s'.word == s.word
    requires (s'.IsWriter(t) <==> s.IsWriter(t)) && (s'.IsReader(t) <==> s.IsReader(t))
    ensures WordOk(s')
  {
    Others(s, s', t);
    assert s'.Readers() == s.Readers();
    assert forall u :: s'.IsWriter(u) <==> s.IsWriter(u);
  }

  /** A reader that enters is counted, and the count stays below the write bit. */
  lemma ReaderEnters(s: State, s': State, t: Thread)
    requires WordOk(s) && OnlyMoves(s, s', t) && s.word < WRITE_BIT && s'.word == (s.word + 1) % WORD
    requires !s.IsWriter(t) && !s.IsReader(t) && s'.IsReader(t)
    ensures WordOk(s') && s'.word == s.word + 1 < WRITE_BIT
  {
    Others(s, s', t);
    assert forall u :: !s.IsWriter(u);
    assert forall u :: !s'.IsWriter(u);
  }

  lemma ReaderLeaves(s: State, s': State, t: Thread)
    requires WordOk(s) && OnlyMoves(s, s', t) && s'.word == (s.word - 1) % WORD
    requires s.IsReader(t) && !s'.IsReader(t) && !s'.IsWriter(t)
    ensures WordOk(s')
  {
    Others(s, s', t);
    Others(s, s, t);
    assert t in s.Readers();
    assert forall u :: !s.IsWriter(u);
    assert forall u :: !s'.IsWriter(u);
  }

  lemma WriterEnters(s: State, s': State, t: Thread)
    requires WordOk(s) && OnlyMoves(s, s', t) && s.word == 0 && s'.word == WRITE_BIT
    requires !s.IsReader(t) && s'.IsWriter(t) && !s'.IsReader(t)
    ensures WordOk(s')
  {
    Others(s, s', t);
    assert forall u :: !s.IsWriter(u);
    assert s.Readers() == {};
    assert forall u :: s'.IsWriter(u) <==> u == t;
  }

  /** Storing zero erases no reader: there is none. */
  lemma WriterLeaves(s: State, s': State, t: Thread)
    requires WordOk(s) && OnlyMoves(s, s', t) && s'.word == 0
    requires s.IsWriter(t) && !s'.IsWriter(t) && !s'.IsReader(t)
    ensures WordOk(s') && s.Readers() == {}
  {
    Others(s, s', t);
    assert forall u :: !s'.IsWriter(u);
  }

  lemma WordKept(s: State, t: Thread, a: Action)
    requires Inv(s) && Enabled(s, t, a)
    ensures WordOk(Next(s, t, a))
  {
    var s' := Next(s, t, a);
    assert ReaderOk(s, s.pcs[t]);
    if a.StoreZero? {
      WriterLeaves(s, s', t);
    } else if a.UnlockShared? {
      ReaderLeaves(s, s', t);
    } else if s'.pcs[t].WriteEntered? {
      WriterEnters(s, s', t);
    } else if s'.pcs[t].Reading? {
      ReaderEnters(s, s', t);
    } else {
      NobodyEnters(s, s', t);
    }
  }

  /** A thread that may write is the only writer. */
  lemma OnlyWriter(s: State, t: Thread)
    requires WordOk(s) && SequenceOk(s) && s.IsWriter(t)
    ensures forall u :: s.IsWriting(u) ==> u == t
    ensures s.bumps % 2 == 1 <==> s.IsWriting(t)
  {
    assert forall u :: s.IsWriting(u) ==> s.IsWriter(u);
  }

  lemma WriterMoves(s: State, s': State, t: Thread)
    requires WordOk(s) && SequenceOk(s) && OnlyMoves(s, s', t) && s.IsWriter(t)
    requires s'.bumps % 2 == 1 <==> s'.IsWriting(t)
    requires s'.bumps % 2 == 0 ==> FrameOk(s'.page)
    ensures SequenceOk(s')
  {
    Others(s, s', t);
    OnlyWriter(s, t);
  }

  lemma OthersMove(s: State, s': State, t: Thread)
    requires SequenceOk(s) && OnlyMoves(s, s', t) && !s.IsWriting(t) && !s'.IsWriting(t)
    requires s'.bumps == s.bumps && s'.page == s.page
    ensures SequenceOk(s')
  {
    Others(s, s', t);
    assert forall u :: s'.IsWriting(u) <==> s.IsWriting(u);
  }

  lemma SequenceKept(s: State, t: Thread, a: Action)
    requires Inv(s) && Enabled(s, t, a)
    ensures SequenceOk(Next(s, t, a))
  {
    var s' := Next(s, t, a);
    if s.IsWriter(t) {
      OnlyWriter(s, t);
      WriterMoves(s, s', t);
    } else {
      OthersMove(s, s', t);
    }
  }

  lemma Parity(b: nat)
    ensures b % SEQ % 2 == b % 2
  {
    assert b == b / SEQ * SEQ + b % SEQ;
  }

  /** Short of a full round, the same sequence number means no bump. */
  lemma SameSequence(b: nat, c: nat)
    requires c <= b && b - c < SEQ && b % SEQ == c % SEQ
    ensures b == c
  {
    assert b == b / SEQ * SEQ + b % SEQ && c == c / SEQ * SEQ + c % SEQ;
  }

  /** What an optimistic reader knows outlives the steps of the others. */
  lemma ReaderUndisturbed(s: State, s': State, pc: Pc)
    requires ReaderOk(s, pc) && s.bumps <= s'.bumps && (s'.page == s.page || s.bumps % 2 == 1)
    ensures ReaderOk(s', pc)
  {
  }

  lemma OwnReader(s: State, t: Thread, a: Action)
    requires Inv(s) && Enabled(s, t, a)
    ensures ReaderOk(Next(s, t, a), Next(s, t, a).pcs[t])
  {
    var pc := s.pcs[t];
    assert ReaderOk(s, pc);
    if a.Sample? {
      Parity(s.bumps);
    } else if a.Validate? && s.GetSequence() == pc.seqNo && s.bumps - pc.since < SEQ {
      SameSequence(s.bumps, pc.since);
      assert Result(pc.frame, pc.key, pc.at) == pc.at.child;
    } else if a.ReadCell? {
      assert Result(s.page, pc.key, pc.at) == Result(s.page, pc.key, LookupStep(s.page, pc.key, pc.at));
    } else if a.LoadShared? {
      assert 0 <= s.word;
    }
  }

  lemma ReadersKept(s: State, t: Thread, a: Action)
    requires Inv(s) && Enabled(s, t, a)
    ensures forall u :: u in Next(s, t, a).pcs ==> ReaderOk(Next(s, t, a), Next(s, t, a).pcs[u])
  {
    var s' := Next(s, t, a);
    if a.WritePage? { assert s.IsWriting(t); }
    forall u | u in s'.pcs ensures ReaderOk(s', s'.pcs[u]) {
      if u == t {
        OwnReader(s, t, a);
      } else {
        ReaderUndisturbed(s, s', s.pcs[u]);
      }
    }
  }

  lemma InvKept(s: State, t: Thread, a: Action)
    requires Inv(s) && Enabled(s, t, a)
    ensures Inv(Next(s, t, a))
  {
    WordKept(s, t, a);
    SequenceKept(s, t, a);
    ReadersKept(s, t, a);
    assert Next(s, t, a).pcs.Keys == s.pcs.Keys;
  }

  // ---- runs --------------------------------------------------------------------------

  /** A run: each state follows from the one before by a step of some thread. */
  ghost predicate Run(states: seq<State>) {
    && states != [] && Initial(states[0])
    && forall i :: 0 < i < |states| ==> Follows(states[i - 1], states[i])
  }

  ghost predicate Follows(s: State, s': State) {
    exists t, a :: Enabled(s, t, a) && s' == Next(s, t, a)
  }

  lemma {:induction false} EveryState(states: seq<State>, i: nat)
    requires Run(states) && i < |states|
    ensures Inv(states[i])
  {
    if i == 0 {
      InitialInv(states[0]);
    } else {
      EveryState(states, i - 1);
      assert Follows(states[i - 1], states[i]);
      var t, a :| Enabled(states[i - 1], t, a) && states[i] == Next(states[i - 1], t, a);
      InvKept(states[i - 1], t, a);
    }
  }

  /** In every reachable state a writer excludes every other holder, the word is the write bit
      exactly when a writer is in and otherwise the number of readers, which never reaches the
      write bit. */
  lemma Exclusion(states: seq<State>, i: nat)
    requires Run(states) && i < |states|
    ensures var s := states[i];
            && (forall t, u :: s.IsWriter(t) && (s.IsWriter(u) || s.IsReader(u)) ==> t == u)
            && (s.word == WRITE_BIT <==> exists t :: s.IsWriter(t))
            && (s.word != WRITE_BIT ==> s.word == |s.Readers()| < WRITE_BIT)
  {
    EveryState(states, i);
    var s := states[i];
    SubsetSize(s.Readers(), s.pcs.Keys);
    assert forall u :: s.IsReader(u) ==> u in s.Readers();
  }

  /** The store of zero in `unlock` happens when nobody reads. */
  lemma UnlockErasesNoReader(states: seq<State>, i: nat, t: Thread)
    requires Run(states) && i < |states| && Enabled(states[i], t, StoreZero)
    ensures states[i].Readers() == {} && Next(states[i], t, StoreZero).Readers() == {}
  {
    EveryState(states, i);
    assert states[i].IsWriter(t);
  }

  /** A step changes the page only while some thread writes, and then the sequence is odd. */
  lemma PageChanges(s: State, s': State)
    requires Inv(s) && Follows(s, s')
    ensures s.bumps <= s'.bumps
    ensures s'.page == s.page || (s.bumps % 2 == 1 && s.Readers() == {} && s'.bumps == s.bumps)
  {
    var u, a :| Enabled(s, u, a) && s' == Next(s, u, a);
    if a.WritePage? { assert s.IsWriting(u) && s.IsWriter(u); }
  }

  lemma StepInRun(states: seq<State>, i: nat)
    requires Run(states) && 0 < i < |states|
    ensures states[i - 1].bumps <= states[i].bumps
    ensures states[i].page == states[i - 1].page ||
            (states[i - 1].bumps % 2 == 1 && states[i - 1].Readers() == {} && states[i].bumps == states[i - 1].bumps)
  {
    EveryState(states, i - 1);
    assert Follows(states[i - 1], states[i]);
    PageChanges(states[i - 1], states[i]);
  }

  /** While a thread holds the latch shared no step changes the page. */
  lemma SharedHolderSeesOnePage(states: seq<State>, i: nat, t: Thread)
    requires Run(states) && 0 < i < |states| && states[i - 1].IsReader(t)
    ensures states[i].page == states[i - 1].page
  {
    StepInRun(states, i);
    assert t in states[i - 1].Readers();
  }

  /** The sequence only grows; between two states with the same even count the page stays. */
  lemma {:induction false} QuietWindow(states: seq<State>, i: nat, j: nat)
    requires Run(states) && i <= j < |states|
    ensures states[i].bumps <= states[j].bumps
    ensures states[i].bumps == states[j].bumps && states[i].bumps % 2 == 0 ==> states[i].page == states[j].page
    decreases j
  {
    if i < j {
      QuietWindow(states, i, j - 1);
      StepInRun(states, j);
    }
  }

  /** Two samples of the sequence that are even and equal: no step in between wrote the page,
      unless the 64-bit sequence went all the way round. */
  lemma EqualSamples(states: seq<State>, i: nat, k: nat, j: nat)
    requires Run(states) && i <= k <= j < |states|
    requires states[i].GetSequence() % 2 == 0 && states[i].GetSequence() == states[j].GetSequence()
    requires states[j].bumps - states[i].bumps < SEQ
    ensures states[k].page == states[i].page
  {
    QuietWindow(states, i, j);
    QuietWindow(states, i, k);
    QuietWindow(states, k, j);
    Parity(states[i].bumps);
    SameSequence(states[j].bumps, states[i].bumps);
  }

  /** An accepted lookup, however its reads interleaved with writers, gives the child that covers
      the key on one page in order: the one sampled. */
  lemma AcceptedLookup(states: seq<State>, i: nat, t: Thread)
    requires Run(states) && i < |states| && t in states[i].pcs && states[i].pcs[t].Accepted? && !states[i].pcs[t].stale
    ensures var pc := states[i].pcs[t];
            FrameOk(pc.frame) && pc.child == pc.frame.rids[UpperBound(pc.frame.keys[..pc.frame.numKey], pc.key)].pageNo
  {
    EveryState(states, i);
    var pc := states[i].pcs[t];
    assert ReaderOk(states[i], pc);
    SearchFinds(pc.frame, pc.key, 0, pc.frame.numKey);
    assert Result(pc.frame, pc.key, Begin) == Result(pc.frame, pc.key, Search(0, pc.frame.numKey));
  }

  /** That page was there: it is what the page held when the thread sampled, from when on it has been
      reading. */
  lemma {:induction false} FrameWasThere(states: seq<State>, i: nat, t: Thread) returns (k: nat)
    requires Run(states) && i < |states| && t in states[i].pcs
    requires states[i].pcs[t].Optimistic? || states[i].pcs[t].Accepted?
    ensures k < i && Sampled(states[k], t, states[i].pcs[t].frame)
    ensures forall j :: k < j <= i ==> ReadsFrame(states[j], t, states[i].pcs[t].frame)
  {
    var frame := states[i].pcs[t].frame;
    AllIdle(states, t);
    if Sampled(states[i - 1], t, frame) {
      k := i - 1;
    } else {
      FrameBack(states, i, t);
      k := FrameWasThere(states, i - 1, t);
    }
  }

  lemma AllIdle(states: seq<State>, t: Thread)
    requires Run(states)
    ensures t in states[0].pcs ==> states[0].pcs[t].Idle?
  {
  }

  predicate Sampled(s: State, t: Thread, frame: Frame) {
    t in s.pcs && s.pcs[t].Idle? && s.page == frame
  }

  lemma FrameBack(states: seq<State>, i: nat, t: Thread)
    requires Run(states) && 0 < i < |states| && t in states[i].pcs
    requires states[i].pcs[t].Optimistic? || states[i].pcs[t].Accepted?
    ensures Sampled(states[i - 1], t, states[i].pcs[t].frame) || ReadsFrame(states[i - 1], t, states[i].pcs[t].frame)
  {
    assert Follows(states[i - 1], states[i]);
    var u, a :| Enabled(states[i - 1], u, a) && states[i] == Next(states[i - 1], u, a);
    FrameStep(states[i - 1], u, a, t);
  }

  /** A read starts with a sample of the page, and goes on with the frame it has. */
  lemma FrameStep(s: State, u: Thread, a: Action, t: Thread)
    requires Enabled(s, u, a) && t in Next(s, u, a).pcs
    requires Next(s, u, a).pcs[t].Optimistic? || Next(s, u, a).pcs[t].Accepted?
    ensures var frame := Next(s, u, a).pcs[t].frame;
            Sampled(s, t, frame) || ReadsFrame(s, t, frame)
  {
  }

  /** A thread is in an optimistic read, or at its end, of a page sampled as `frame`. */
  predicate ReadsFrame(s: State, t: Thread, frame: Frame) {
    t in s.pcs && (s.pcs[t].Optimistic? || s.pcs[t].Accepted?) && s.pcs[t].frame == frame
  }
}
