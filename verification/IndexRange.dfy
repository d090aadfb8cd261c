/** Range scans: when the scan from the lower to the upper position ends, and that it is right then. */
module IndexRange {
  import opened IndexPages
  import opened BPlusTree
  import opened IndexNode
  import opened IndexHandle
  import opened IndexScan

  /** The scan's step from any position of a leaf, an entry or not: the next slot, or the next leaf
      if that slot is just past the leaf's last and the leaf is not the last one. */
  function Step(ix: Index, i: Iid): Iid {
    if i.pageNo in ix.pages && i.pageNo != ix.last && i.slotNo + 1 == |ix.pages[i.pageNo].keys| then Iid(ix.pages[i.pageNo].next, 0)
    else Iid(i.pageNo, i.slotNo + 1)
  }

  function Steps(ix: Index, i: Iid, n: nat): Iid
    decreases n
  {
    if n == 0 then i else Steps(ix, Step(ix, i), n - 1)
  }

  /** A scan stops when it stands at its end. */
  ghost predicate Stops(ix: Index, i: Iid, end: Iid) {
    exists n :: Steps(ix, i, n) == end
  }

  /** A position of a leaf that a scan cannot leave for the next leaf: past the last slot. */
  predicate Stuck(ix: Index, i: Iid) {
    i.pageNo in ix.pages && |ix.pages[i.pageNo].keys| <= i.slotNo
  }

  /** From past the last slot a scan goes on past it for ever. */
  lemma {:induction false} StaysStuck(ix: Index, i: Iid, n: nat)
    requires Stuck(ix, i)
    ensures Steps(ix, i, n) == Iid(i.pageNo, i.slotNo + n)
    decreases n
  {
    if n > 0 { StaysStuck(ix, Step(ix, i), n - 1); }
  }

  /** A scan from a proper position stops at an end position only if that end is proper: an end just
      past a leaf that is not the last one is jumped over. */
  lemma {:induction false} ImproperEndNeverMet(ix: Index, g: Shape, m: map<int, Rid>, i: Iid, end: Iid, n: nat)
    requires TreeOf(ix, g, m) && Proper(ix, i) && !Proper(ix, end)
    requires end.pageNo in ix.pages && end.slotNo <= |ix.pages[end.pageNo].keys|
    ensures Steps(ix, i, n) != end
    decreases n
  {
    if n > 0 {
      if IsEntry(ix, i) {
        NextPassesOneKey(ix, g, m, i, 0);
        ImproperEndNeverMet(ix, g, m, NextIid(ix, i), end, n - 1);
      } else {
        StaysStuck(ix, i, n);
      }
    }
  }

  /** Between proper positions in order the scan stops. */
  lemma {:induction false} ProperEndIsMet(ix: Index, g: Shape, m: map<int, Rid>, i: Iid, end: Iid) returns (n: nat)
    requires TreeOf(ix, g, m) && Proper(ix, i) && Proper(ix, end) && NotAfter(ix, m, i, end)
    ensures Steps(ix, i, n) == end
    decreases Ahead(ix, m, i)
  {
    if i == end {
      n := 0;
    } else {
      NotYetThere(ix, g, m, i, end);
      EntryIsStored(ix, g, m, i);
      var next, key := NextIid(ix, i), KeyAt(ix, i);
      forall k ensures k in m ==> (Before(ix, next, k) <==> Before(ix, i, k) || k == key) && Proper(ix, next) {
        NextPassesOneKey(ix, g, m, i, k);
      }
      NextPassesOneKey(ix, g, m, i, key);
      assert key in Ahead(ix, m, i) && key !in Ahead(ix, m, next);
      n := ProperEndIsMet(ix, g, m, next, end);
      n := n + 1;
    }
  }

  lemma BoundsInOrder(ix: Index, g: Shape, m: map<int, Rid>, low: int, high: int, i: Iid, j: Iid)
    requires TreeOf(ix, g, m) && IsLower(ix, g, low, i) && IsUpper(ix, g, high, j) && low <= high
    requires Proper(ix, i) && Proper(ix, j)
    ensures NotAfter(ix, m, i, j)
  {
    forall k | k in m && Before(ix, i, k) ensures Before(ix, j, k) {
      LowerPositionSplits(ix, g, m, i.pageNo, low, k);
      UpperPositionSplits(ix, g, m, j.pageNo, high, k);
    }
  }

  /** The scan of a range stops if and only if both its positions are proper, or they are the same. */
  lemma RangeStopsIff(ix: Index, g: Shape, m: map<int, Rid>, low: int, high: int, i: Iid, j: Iid)
    requires TreeOf(ix, g, m) && IsLower(ix, g, low, i) && IsUpper(ix, g, high, j) && low <= high
    ensures Stops(ix, i, j) <==> (Proper(ix, i) && Proper(ix, j)) || i == j
  {
    if i == j {
      assert Steps(ix, i, 0) == j;
    } else if Proper(ix, i) && Proper(ix, j) {
      BoundsInOrder(ix, g, m, low, high, i, j);
      var n := ProperEndIsMet(ix, g, m, i, j);
    } else if n: nat :| Steps(ix, i, n) == j {
      if Proper(ix, i) {
        ImproperEndNeverMet(ix, g, m, i, j, n);
      } else {
        StaysStuck(ix, i, n);
      }
    }
  }

  /** If the positions are the same improper one, no stored key is in the range. */
  lemma EqualMeansEmpty(ix: Index, g: Shape, m: map<int, Rid>, low: int, high: int, i: Iid, k: int)
    requires TreeOf(ix, g, m) && IsLower(ix, g, low, i) && IsUpper(ix, g, high, i) && low <= high
    ensures k in m ==> !(low <= k <= high)
  {
    var ks := ix.pages[i.pageNo].keys;
    assert NodeOk(ix, g, i.pageNo);
    LowerBoundUnique(ks, low, i.slotNo);
    UpperBoundUnique(ks, high, i.slotNo);
    assert forall a :: 0 <= a < |ks| ==> if a < i.slotNo then ks[a] < low else high < ks[a];
    if k in m && InRange(g[i.pageNo], k) { StoredInRange(ix, g, m, i.pageNo, k); }
  }

  /** `out` is the part of the map in [low, high], in ascending order. */
  ghost predicate IsRange(m: map<int, Rid>, low: int, high: int, out: seq<(int, Rid)>) {
    && Ascending(out)
    && (forall a :: 0 <= a < |out| ==> out[a].0 in m && out[a].1 == m[out[a].0])
    && (forall k :: HasKey(out, k) <==> k in m && low <= k <= high)
  }

  lemma CollectedIsRange(ix: Index, g: Shape, m: map<int, Rid>, low: int, high: int, i: Iid, j: Iid, out: seq<(int, Rid)>)
    requires TreeOf(ix, g, m) && IsLower(ix, g, low, i) && IsUpper(ix, g, high, j) && Proper(ix, i) && Proper(ix, j)
    requires Collected(ix, m, i, j, out)
    ensures IsRange(m, low, high, out)
  {
    forall k ensures HasKey(out, k) <==> k in m && low <= k <= high {
      if k in m {
        LowerPositionSplits(ix, g, m, i.pageNo, low, k);
        UpperPositionSplits(ix, g, m, j.pageNo, high, k);
      }
    }
  }

  lemma EmptyIsRange(ix: Index, g: Shape, m: map<int, Rid>, low: int, high: int, i: Iid)
    requires TreeOf(ix, g, m) && IsLower(ix, g, low, i) && IsUpper(ix, g, high, i) && low <= high
    ensures IsRange(m, low, high, [])
  {
    forall k ensures !HasKey([], k) && (k in m ==> !(low <= k <= high)) {
      EqualMeansEmpty(ix, g, m, low, high, i, k);
    }
  }

  /** The scan of a range: it stops if both positions are proper or they are the same, and then yields
      exactly the stored keys in [low, high], in ascending order; otherwise it is not run here, for
      it would never stop. */
  method ScanBetween(ih: IxIndex, low: int, high: int, ghost m: map<int, Rid>)
      returns (stops: bool, out: seq<(int, Rid)>, i: Iid, j: Iid)
    requires ih.Holds(m) && low <= high
    ensures IsLower(ih.State(), ih.shape, low, i) && IsUpper(ih.State(), ih.shape, high, j)
    ensures stops <==> Stops(ih.State(), i, j)
    ensures stops ==> IsRange(m, low, high, out)
  {
    var proper;
    i, j, proper := Bounds(ih, low, high, m);
    RangeStopsIff(ih.State(), ih.shape, m, low, high, i, j);
    stops := proper || i == j;
    if proper {
      out := ScanProper(ih, low, high, i, j, m);
    } else {
      out := [];
      if i == j { EmptyIsRange(ih.State(), ih.shape, m, low, high, i); }
    }
  }

  method Bounds(ih: IxIndex, low: int, high: int, ghost m: map<int, Rid>) returns (i: Iid, j: Iid, proper: bool)
    requires ih.Holds(m)
    ensures IsLower(ih.State(), ih.shape, low, i) && IsUpper(ih.State(), ih.shape, high, j)
    ensures proper <==> Proper(ih.State(), i) && Proper(ih.State(), j)
  {
    var iProper, jProper;
    i, iProper := LowerPosition(ih, low, m);
    j, jProper := UpperPosition(ih, high, m);
    proper := iProper && jProper;
  }

  method ScanProper(ih: IxIndex, low: int, high: int, i: Iid, j: Iid, ghost m: map<int, Rid>) returns (out: seq<(int, Rid)>)
    requires ih.Holds(m) && low <= high
    requires IsLower(ih.State(), ih.shape, low, i) && IsUpper(ih.State(), ih.shape, high, j)
    requires Proper(ih.State(), i) && Proper(ih.State(), j)
    ensures IsRange(m, low, high, out)
  {
    ghost var ix, g := ih.State(), ih.shape;
    BoundsInOrder(ix, g, m, low, high, i, j);
    out := ScanRange(ih, i, j, m);
    CollectedIsRange(ix, g, m, low, high, i, j, out);
  }

  // ---- an index and a range whose scan never stops -------------------------------------------

  /** Five keys in two leaves, of order 3: the root is page 4. */
  function ExampleIndex(): Index {
    Index(3, map[2 := Page(true, 4, LEAF_HEADER, 3, [10, 20], [Rid(1, 0), Rid(1, 1)]),
                 3 := Page(true, 4, 2, LEAF_HEADER, [30, 40, 50], [Rid(1, 2), Rid(1, 3), Rid(1, 4)]),
                 4 := Page(false, NO_PAGE, NO_PAGE, NO_PAGE, [30], [Rid(2, 0), Rid(3, 0)])],
          4, 2, 3, 5)
  }

  ghost function ExampleShape(): Shape {
    map[2 := Info(0, Unbounded, At(30)), 3 := Info(0, At(30), Unbounded), 4 := Info(1, Unbounded, Unbounded)]
  }

  function ExampleMap(): map<int, Rid> {
    map[10 := Rid(1, 0), 20 := Rid(1, 1), 30 := Rid(1, 2), 40 := Rid(1, 3), 50 := Rid(1, 4)]
  }

  lemma ExamplePage(p: PageId)
    requires p in ExampleIndex().pages
    ensures PageOk(ExampleIndex(), ExampleShape(), NoHole, NoPage, p)
  {
    var ix, g := ExampleIndex(), ExampleShape();
    if p == 4 {
      assert ChildOk(ix, g, NoHole, 4, 0) && ChildOk(ix, g, NoHole, 4, 1);
    } else {
      assert ix.pages[4].rids[p - 2].pageNo == p;
    }
  }

  lemma FirstStores()
    ensures LeafStores(ExampleIndex().pages[2], ExampleShape()[2], ExampleMap())
  {
    var n := ExampleIndex().pages[2];
    assert n.keys == [10, 20];
    LeafValueAt(n, 0);
    LeafValueAt(n, 1);
  }

  lemma SecondStores()
    ensures LeafStores(ExampleIndex().pages[3], ExampleShape()[3], ExampleMap())
  {
    var n := ExampleIndex().pages[3];
    assert n.keys == [30, 40, 50];
    LeafValueAt(n, 0);
    LeafValueAt(n, 1);
    LeafValueAt(n, 2);
  }

  lemma ExampleInv()
    ensures Inv(ExampleIndex(), ExampleShape(), NoHole, NoPage)
  {
    var ix, g := ExampleIndex(), ExampleShape();
    forall p | p in ix.pages ensures PageOk(ix, g, NoHole, NoPage, p) {
      ExamplePage(p);
    }
    assert KnownPages(ix, g);
  }

  lemma ExampleStores()
    ensures Stores(ExampleIndex(), ExampleShape(), ExampleMap())
  {
    FirstStores();
    SecondStores();
    assert StoresPart(ExampleIndex(), ExampleShape(), ExampleMap(), 4);
  }

  lemma ExampleIsTree()
    ensures TreeOf(ExampleIndex(), ExampleShape(), ExampleMap())
  {
    ExampleInv();
    ExampleStores();
  }

  /** The range from 25 to 50 starts past the last slot of the first leaf; its keys 30, 40 and 50 are
      never found. */
  lemma RangeNeverStops()
    ensures var ix, g := ExampleIndex(), ExampleShape();
            && TreeOf(ix, g, ExampleMap()) && IsLower(ix, g, 25, Iid(2, 2)) && IsUpper(ix, g, 50, Iid(3, 3))
            && !Stops(ix, Iid(2, 2), Iid(3, 3))
  {
    var ix, g := ExampleIndex(), ExampleShape();
    ExampleIsTree();
    LowerBoundUnique([10, 20], 25, 2);
    UpperBoundUnique([30, 40, 50], 50, 3);
    RangeStopsIff(ix, g, ExampleMap(), 25, 50, Iid(2, 2), Iid(3, 3));
  }
}
