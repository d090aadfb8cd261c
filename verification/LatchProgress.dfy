/** What a call to the latch achieves when no other thread moves while it runs. */
module LatchProgress {
  import opened IndexPages
  import opened SpinLatch

  /** Thread `t` takes the actions one after the other. */
  ghost predicate Can(s: State, t: Thread, actions: seq<Action>)
    decreases |actions|
  {
    actions == [] || (Enabled(s, t, actions[0]) && Can(Next(s, t, actions[0]), t, actions[1..]))
  }

  function After(s: State, t: Thread, actions: seq<Action>): State
    requires Can(s, t, actions)
    decreases |actions|
  {
    if actions == [] then s else After(Next(s, t, actions[0]), t, actions[1..])
  }

  lemma One(s: State, t: Thread, a: Action)
    requires Enabled(s, t, a)
    ensures Can(s, t, [a]) && After(s, t, [a]) == Next(s, t, a)
  {
    assert [a][1..] == [];
  }

  lemma {:induction false} Then(s: State, t: Thread, x: seq<Action>, y: seq<Action>)
    requires Can(s, t, x) && Can(After(s, t, x), t, y)
    ensures Can(s, t, x + y) && After(s, t, x + y) == After(After(s, t, x), t, y)
    decreases |x|
  {
    if x == [] {
      assert x + y == y;
    } else {
      Then(Next(s, t, x[0]), t, x[1..], y);
      assert (x + y)[1..] == x[1..] + y;
    }
  }

  lemma {:induction false} AfterKeeps(s: State, t: Thread, actions: seq<Action>)
    requires Inv(s) && Can(s, t, actions)
    ensures Inv(After(s, t, actions))
    decreases |actions|
  {
    if actions != [] {
      InvKept(s, t, actions[0]);
      AfterKeeps(Next(s, t, actions[0]), t, actions[1..]);
    }
  }

  // ---- locking and unlocking ------------------------------------------------------------

  const LOCK_SHARED: seq<Action> := [LoadShared, CasShared(false)]
  const LOCK: seq<Action> := [LoadExclusive, CasExclusive(false), BumpOdd]
  const UNLOCK: seq<Action> := [BumpEven, StoreZero]

  ghost predicate IsIdle(s: State, t: Thread) {
    t in s.pcs && s.pcs[t].Idle?
  }

  /** A reader gets in at the first attempt, beside any other readers, if and only if there is no
      writer; otherwise it is back where it was. */
  lemma SharedIff(states: seq<State>, i: nat, t: Thread)
    requires Run(states) && i < |states| && IsIdle(states[i], t)
    ensures var s := states[i];
            && Can(s, t, [LoadShared])
            && (Can(s, t, LOCK_SHARED) <==> forall u :: !s.IsWriter(u))
            && (Can(s, t, LOCK_SHARED) ==>
                  var s' := After(s, t, LOCK_SHARED);
                  s'.IsReader(t) && s'.Readers() == s.Readers() + {t} && s'.word == s.word + 1)
            && (!Can(s, t, LOCK_SHARED) ==> After(s, t, [LoadShared]) == s)
  {
    var s := states[i];
    Exclusion(states, i);
    EveryState(states, i);
    One(s, t, LoadShared);
    var s1 := Next(s, t, LoadShared);
    assert LOCK_SHARED[1..] == [CasShared(false)];
    if s.word < WRITE_BIT {
      One(s1, t, CasShared(false));
      var s2 := Next(s1, t, CasShared(false));
      assert s2 == After(s, t, LOCK_SHARED);
      assert s2.Readers() == s.Readers() + {t};
    } else {
      assert s1.pcs == s.pcs;
    }
  }

  /** A reader that leaves is no longer counted; nothing else changes. */
  lemma SharedLeaves(states: seq<State>, i: nat, t: Thread)
    requires Run(states) && i < |states| && states[i].IsReader(t)
    ensures Can(states[i], t, [UnlockShared])
    ensures After(states[i], t, [UnlockShared]) == states[i].(word := states[i].word - 1, pcs := states[i].pcs[t := Idle])
  {
    Exclusion(states, i);
    EveryState(states, i);
    One(states[i], t, UnlockShared);
    assert t in states[i].Readers();
  }

  /** A writer gets in at the first attempt if and only if nobody holds the latch. It then has it for
      itself, with an odd sequence. */
  lemma ExclusiveIff(states: seq<State>, i: nat, t: Thread)
    requires Run(states) && i < |states| && IsIdle(states[i], t)
    ensures var s := states[i];
            && Can(s, t, [LoadExclusive])
            && (Can(s, t, LOCK) <==> forall u :: !s.IsWriter(u) && !s.IsReader(u))
            && (Can(s, t, LOCK) ==>
                  && After(s, t, LOCK) == s.(word := WRITE_BIT, bumps := s.bumps + 1, pcs := s.pcs[t := Writing])
                  && After(s, t, LOCK).GetSequence() % 2 == 1)
            && (!Can(s, t, LOCK) ==> After(s, t, [LoadExclusive]) == s)
  {
    var s := states[i];
    HeldIff(states, i);
    One(s, t, LoadExclusive);
    var s1 := Next(s, t, LoadExclusive);
    assert LOCK[1..] == [CasExclusive(false), BumpOdd] && LOCK[1..][1..] == [BumpOdd];
    if s.word == 0 {
      var s2 := Next(s1, t, CasExclusive(false));
      One(s2, t, BumpOdd);
      assert Can(s1, t, LOCK[1..]) && After(s1, t, LOCK[1..]) == Next(s2, t, BumpOdd);
      NoWriterIsEven(states, i);
      assert s1.pcs[t := WriteEntered][t := Writing] == s.pcs[t := Writing];
      Parity(s.bumps + 1);
    } else {
      assert s1.pcs == s.pcs;
    }
  }

  lemma HeldIff(states: seq<State>, i: nat)
    requires Run(states) && i < |states|
    ensures var s := states[i]; s.word == 0 <==> forall u :: !s.IsWriter(u) && !s.IsReader(u)
  {
    Exclusion(states, i);
    var s := states[i];
    if s.word == 0 {
      forall u ensures !s.IsReader(u) { assert u !in s.Readers(); }
    }
    if forall u :: !s.IsWriter(u) && !s.IsReader(u) {
      forall u ensures u !in s.Readers() { assert !s.IsReader(u); }
      assert s.Readers() == {};
    }
  }

  lemma NoWriterIsEven(states: seq<State>, i: nat)
    requires Run(states) && i < |states|
    ensures (forall u :: !states[i].IsWriter(u)) ==> states[i].bumps % 2 == 0
  {
    EveryState(states, i);
    assert forall u :: states[i].IsWriting(u) ==> states[i].IsWriter(u);
  }

  /** A writer that leaves a page in order lets go of the latch, with an even sequence. */
  lemma ExclusiveLeaves(states: seq<State>, i: nat, t: Thread)
    requires Run(states) && i < |states| && states[i].IsWriting(t) && FrameOk(states[i].page)
    ensures Can(states[i], t, UNLOCK)
    ensures After(states[i], t, UNLOCK) == states[i].(word := 0, bumps := states[i].bumps + 1, pcs := states[i].pcs[t := Idle])
    ensures After(states[i], t, UNLOCK).GetSequence() % 2 == 0
  {
    var s := states[i];
    EveryState(states, i);
    assert s.bumps % 2 == 1;
    assert UNLOCK[1..] == [StoreZero];
    var s1 := Next(s, t, BumpEven);
    One(s1, t, StoreZero);
    assert s1.pcs[t := Idle] == s.pcs[t := Idle];
    Parity(s.bumps + 1);
  }

  // ---- an optimistic lookup -----------------------------------------------------------------

  /** How many reads a lookup still takes on a page that does not change. */
  function Left(f: Frame, key: int, l: Lookup): nat
    decreases if l.Begin? then 3 else if l.Search? then 2 else if l.AtChild? then 1 else 0,
              if l.Search? && l.lo < l.hi then l.hi - l.lo else 0
  {
    if l.Found? then 0 else 1 + Left(f, key, LookupStep(f, key, l))
  }

  function Reads(n: nat): seq<Action> {
    seq(n, _ => ReadCell)
  }

  /** The reads end with the child that the lookup comes to. */
  lemma {:induction false} ReadsFind(s: State, t: Thread, n: nat)
    requires t in s.pcs && s.pcs[t].Optimistic? && n == Left(s.page, s.pcs[t].key, s.pcs[t].at)
    ensures Can(s, t, Reads(n))
    ensures After(s, t, Reads(n)) ==
            Goto(s, t, s.pcs[t].(at := Found(Result(s.page, s.pcs[t].key, s.pcs[t].at))))
    decreases n
  {
    var pc := s.pcs[t];
    if n == 0 {
      assert s.pcs[t := pc] == s.pcs;
    } else {
      var next := Next(s, t, ReadCell);
      assert Reads(n)[1..] == Reads(n - 1);
      ReadsFind(next, t, n - 1);
      var last := pc.(at := Found(Result(s.page, pc.key, pc.at)));
      assert next.pcs[t := last] == s.pcs[t := last];
    }
  }

  /** The whole call of an optimistic lookup. */
  function LookupCall(f: Frame, key: int): seq<Action> {
    [Sample(key)] + (Reads(Left(f, key, Begin)) + [Validate])
  }

  /** An optimistic lookup that nobody disturbs is accepted, with the child that covers the key, if and
      only if the sequence is even; it changes nothing else. */
  lemma LookupIff(states: seq<State>, i: nat, t: Thread, key: int)
    requires Run(states) && i < |states| && IsIdle(states[i], t)
    ensures var s := states[i];
            && Can(s, t, [Sample(key)])
            && (Can(s, t, LookupCall(s.page, key)) <==> s.GetSequence() % 2 == 0)
            && (Can(s, t, LookupCall(s.page, key)) ==>
                  && FrameOk(s.page)
                  && After(s, t, LookupCall(s.page, key)) ==
                     Goto(s, t, Accepted(key, s.page, s.page.rids[UpperBound(s.page.keys[..s.page.numKey], key)].pageNo, false)))
            && (!Can(s, t, LookupCall(s.page, key)) ==> After(s, t, [Sample(key)]) == s)
  {
    var s, n := states[i], Left(states[i].page, key, Begin);
    EveryState(states, i);
    Parity(s.bumps);
    One(s, t, Sample(key));
    var s1 := Next(s, t, Sample(key));
    var rest := Reads(n) + [Validate];
    assert LookupCall(s.page, key)[0] == Sample(key) && LookupCall(s.page, key)[1..] == rest;
    if s.GetSequence() % 2 == 0 {
      ReadsFind(s1, t, n);
      var s2 := After(s1, t, Reads(n));
      One(s2, t, Validate);
      Then(s1, t, Reads(n), [Validate]);
      SearchFinds(s.page, key, 0, s.page.numKey);
      assert Result(s.page, key, Begin) == Result(s.page, key, Search(0, s.page.numKey));
    } else {
      assert s1.pcs == s.pcs;
      assert n > 0 && rest[0] == ReadCell;
    }
  }

  // ---- two readers at once ---------------------------------------------------------------------

  const PAGE: Frame := Frame(0, [], [Rid(2, 0)])

  const BOTH: map<Thread, Pc> := map[1 := Idle, 2 := Idle]

  /** Both of two threads come to read together. */
  lemma TwoReaders()
    ensures var s := State(0, 0, PAGE, BOTH);
            && Initial(s)
            && Can(s, 1, LOCK_SHARED)
            && Can(After(s, 1, LOCK_SHARED), 2, LOCK_SHARED)
            && After(After(s, 1, LOCK_SHARED), 2, LOCK_SHARED).Readers() == {1, 2}
            && After(After(s, 1, LOCK_SHARED), 2, LOCK_SHARED).word == 2
  {
    var s := State(0, 0, PAGE, BOTH);
    SubsetSize(BOTH.Keys, {1, 2});
    assert Initial(s);
    assert LOCK_SHARED[1..] == [CasShared(false)];
    var s1 := Next(s, 1, LoadShared);
    One(s1, 1, CasShared(false));
    var s2 := Next(s1, 1, CasShared(false));
    assert After(s, 1, LOCK_SHARED) == s2;
    var s3 := Next(s2, 2, LoadShared);
    One(s3, 2, CasShared(false));
  }
}
