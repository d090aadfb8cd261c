/** Scans along the leaf list, and the positions a range scan starts from and stops at. */
module IndexScan {
  import opened IndexPages
  import opened BPlusTree
  import opened IndexNode
  import opened IndexHandle

  /** A position in the index: a leaf page and a slot in it. */
  datatype Iid = Iid(pageNo: PageId, slotNo: int)

  predicate IsEntry(ix: Index, i: Iid) {
    i.pageNo in ix.pages && ix.pages[i.pageNo].isLeaf && 0 <= i.slotNo < |ix.pages[i.pageNo].keys|
  }

  /** One past the last slot of the last leaf. */
  predicate IsEnd(ix: Index, i: Iid) {
    ix.last in ix.pages && i == Iid(ix.last, |ix.pages[ix.last].keys|)
  }

  predicate Proper(ix: Index, i: Iid) {
    IsEntry(ix, i) || IsEnd(ix, i)
  }

  function KeyAt(ix: Index, i: Iid): int
    requires IsEntry(ix, i)
  {
    ix.pages[i.pageNo].keys[i.slotNo]
  }

  /** Key `k` is passed before a scan stands at `i`. */
  predicate Before(ix: Index, i: Iid, k: int) {
    IsEntry(ix, i) ==> k < KeyAt(ix, i)
  }

  /** The position after an entry: the next slot, or the next leaf when the leaf is done. */
  function NextIid(ix: Index, i: Iid): Iid
    requires IsEntry(ix, i)
  {
    if i.pageNo != ix.last && i.slotNo + 1 == |ix.pages[i.pageNo].keys| then Iid(ix.pages[i.pageNo].next, 0)
    else Iid(i.pageNo, i.slotNo + 1)
  }

  // ---- positions and keys -------------------------------------------------

  lemma EntryIsStored(ix: Index, g: Shape, m: map<int, Rid>, i: Iid)
    requires TreeOf(ix, g, m) && IsEntry(ix, i)
    ensures i.slotNo < |ix.pages[i.pageNo].rids|
    ensures KeyAt(ix, i) in m && m[KeyAt(ix, i)] == ix.pages[i.pageNo].rids[i.slotNo]
    ensures InRange(g[i.pageNo], KeyAt(ix, i))
  {
    var p := i.pageNo;
    assert NodeOk(ix, g, p) && StoresPart(ix, g, m, p);
    LeafValueAt(ix.pages[p], i.slotNo);
    assert KeyAt(ix, i) in ix.pages[p].keys;
  }

  lemma FirstIsLeast(s: seq<int>, k: int)
    requires Sorted(s) && k in s
    ensures 0 < |s| && s[0] <= k
  {
  }

  /** A stored key in the range of a leaf is in one of its slots. */
  lemma StoredInRange(ix: Index, g: Shape, m: map<int, Rid>, p: PageId, k: int)
    requires TreeOf(ix, g, m) && p in ix.pages && ix.pages[p].isLeaf && p in g
    requires k in m && InRange(g[p], k)
    ensures k in ix.pages[p].keys
  {
    assert StoresPart(ix, g, m, p);
  }

  /** Moving on passes exactly the key stood at, and never leaves the proper positions. */
  lemma NextPassesOneKey(ix: Index, g: Shape, m: map<int, Rid>, i: Iid, k: int)
    requires TreeOf(ix, g, m) && IsEntry(ix, i)
    ensures Proper(ix, NextIid(ix, i))
    ensures k in m ==> (Before(ix, NextIid(ix, i), k) <==> Before(ix, i, k) || k == KeyAt(ix, i))
  {
    var p, j := i.pageNo, NextIid(ix, i);
    var n := ix.pages[p];
    assert NodeOk(ix, g, p) && ChainOk(ix, g, p);
    EntryIsStored(ix, g, m, i);
    if p != ix.last && i.slotNo + 1 == |n.keys| {
      var h := NextLeafKey(ix, g, m, p);
    }
    if k in m {
      if InRange(g[p], k) {
        StoredInRange(ix, g, m, p, k);
        var a :| 0 <= a < |n.keys| && n.keys[a] == k;
      } else if j.pageNo != p && IsEntry(ix, j) && KeyAt(ix, i) < k < KeyAt(ix, j) {
        EntryIsStored(ix, g, m, j);
        assert ChainOk(ix, g, j.pageNo) && NodeOk(ix, g, j.pageNo);
        StoredInRange(ix, g, m, j.pageNo, k);
        FirstIsLeast(ix.pages[j.pageNo].keys, k);
      }
    }
  }

  /** Two proper positions that pass the same stored keys are the same position. */
  lemma SamePosition(ix: Index, g: Shape, m: map<int, Rid>, i: Iid, j: Iid)
    requires TreeOf(ix, g, m) && Proper(ix, i) && Proper(ix, j)
    requires forall k :: k in m ==> (Before(ix, i, k) <==> Before(ix, j, k))
    ensures i == j
  {
    if IsEntry(ix, i) { EntryIsStored(ix, g, m, i); assert !Before(ix, i, KeyAt(ix, i)); }
    if IsEntry(ix, j) { EntryIsStored(ix, g, m, j); assert !Before(ix, j, KeyAt(ix, j)); }
    if IsEntry(ix, i) && IsEntry(ix, j) {
      assert NodeOk(ix, g, i.pageNo) && NodeOk(ix, g, j.pageNo);
      SameLevelDisjoint(ix, g, i.pageNo, j.pageNo, KeyAt(ix, i));
    }
  }

  // ---- where scans begin and end ------------------------------------------

  lemma LeafBeginIsFirst(ix: Index, g: Shape, m: map<int, Rid>)
    requires TreeOf(ix, g, m)
    ensures Proper(ix, Iid(ix.first, 0))
    ensures forall k :: k in m ==> !Before(ix, Iid(ix.first, 0), k)
  {
    var p, i := ix.first, Iid(ix.first, 0);
    assert NodeOk(ix, g, p) && SizeOk(ix, NoPage, p) && ChainOk(ix, g, p) && ParentOk(ix, g, NoHole, p);
    FirstIsLeaf(ix, g, m);
    if IsEntry(ix, i) {
      EntryIsStored(ix, g, m, i);
      forall k | k in m ensures !Before(ix, i, k) {
        if k < KeyAt(ix, i) {
          StoredInRange(ix, g, m, p, k);
          FirstIsLeast(ix.pages[p].keys, k);
        }
      }
    } else {
      assert p == ix.root;
      forall k | k in m ensures false {
        StoredInRange(ix, g, m, p, k);
      }
    }
  }

  /** Some leaf has no lower end, and the header names it. */
  lemma FirstIsLeaf(ix: Index, g: Shape, m: map<int, Rid>)
    requires TreeOf(ix, g, m)
    ensures ix.pages[ix.first].isLeaf && ix.pages[ix.last].isLeaf
  {
    assert NodeOk(ix, g, ix.first) && NodeOk(ix, g, ix.last);
    assert ParentOk(ix, g, NoHole, ix.root);
    var p := Leftmost(ix, g, m, ix.root);
    assert ChainOk(ix, g, p);
    var q := Rightmost(ix, g, m, ix.root);
    assert ChainOk(ix, g, q);
  }

  lemma {:induction false} Leftmost(ix: Index, g: Shape, m: map<int, Rid>, p: PageId) returns (q: PageId)
    requires TreeOf(ix, g, m) && p in ix.pages && p in g && g[p].lo.Unbounded?
    ensures q in ix.pages && ix.pages[q].isLeaf && g[q].lo.Unbounded?
    decreases g[p].level
  {
    q := p;
    if !ix.pages[p].isLeaf {
      assert ChildrenOk(ix, g, NoHole, p) && NodeOk(ix, g, p);
      assert ChildOk(ix, g, NoHole, p, 0);
      q := Leftmost(ix, g, m, ix.pages[p].rids[0].pageNo);
    }
  }

  lemma {:induction false} Rightmost(ix: Index, g: Shape, m: map<int, Rid>, p: PageId) returns (q: PageId)
    requires TreeOf(ix, g, m) && p in ix.pages && p in g && g[p].hi.Unbounded?
    ensures q in ix.pages && ix.pages[q].isLeaf && g[q].hi.Unbounded?
    decreases g[p].level
  {
    q := p;
    if !ix.pages[p].isLeaf {
      assert ChildrenOk(ix, g, NoHole, p) && NodeOk(ix, g, p);
      var i := |ix.pages[p].keys|;
      assert ChildOk(ix, g, NoHole, p, i);
      q := Rightmost(ix, g, m, ix.pages[p].rids[i].pageNo);
    }
  }

  /** A proper lower-bound position separates the stored keys below `key` from the rest, and
      a proper upper-bound position those up to `key` from the rest. */
  lemma BoundPositions(ix: Index, g: Shape, m: map<int, Rid>, p: PageId, key: int, k: int)
    requires TreeOf(ix, g, m) && p in ix.pages && ix.pages[p].isLeaf && p in g && InRange(g[p], key)
    requires k in m
    ensures Proper(ix, Iid(p, LowerBound(ix.pages[p].keys, key))) ==>
              (Before(ix, Iid(p, LowerBound(ix.pages[p].keys, key)), k) <==> k < key)
    ensures Proper(ix, Iid(p, UpperBound(ix.pages[p].keys, key))) ==>
              (Before(ix, Iid(p, UpperBound(ix.pages[p].keys, key)), k) <==> k <= key)
  {
    LowerPositionSplits(ix, g, m, p, key, k);
    UpperPositionSplits(ix, g, m, p, key, k);
  }

  lemma LowerPositionSplits(ix: Index, g: Shape, m: map<int, Rid>, p: PageId, key: int, k: int)
    requires TreeOf(ix, g, m) && p in ix.pages && ix.pages[p].isLeaf && p in g && InRange(g[p], key)
    requires k in m
    ensures Proper(ix, Iid(p, LowerBound(ix.pages[p].keys, key))) ==>
              (Before(ix, Iid(p, LowerBound(ix.pages[p].keys, key)), k) <==> k < key)
  {
    var ks := ix.pages[p].keys;
    assert NodeOk(ix, g, p) && ChainOk(ix, g, p);
    LowerBoundUnique(ks, key, LowerBound(ks, key));
    var lo := Iid(p, LowerBound(ks, key));
    if IsEntry(ix, lo) { EntryIsStored(ix, g, m, lo); }
    if InRange(g[p], k) {
      StoredInRange(ix, g, m, p, k);
      var a :| 0 <= a < |ks| && ks[a] == k;
    }
  }

  lemma UpperPositionSplits(ix: Index, g: Shape, m: map<int, Rid>, p: PageId, key: int, k: int)
    requires TreeOf(ix, g, m) && p in ix.pages && ix.pages[p].isLeaf && p in g && InRange(g[p], key)
    requires k in m
    ensures Proper(ix, Iid(p, UpperBound(ix.pages[p].keys, key))) ==>
              (Before(ix, Iid(p, UpperBound(ix.pages[p].keys, key)), k) <==> k <= key)
  {
    var ks := ix.pages[p].keys;
    assert NodeOk(ix, g, p) && ChainOk(ix, g, p);
    UpperBoundUnique(ks, key, UpperBound(ks, key));
    var up := Iid(p, UpperBound(ks, key));
    if IsEntry(ix, up) { EntryIsStored(ix, g, m, up); }
    if InRange(g[p], k) {
      StoredInRange(ix, g, m, p, k);
      var a :| 0 <= a < |ks| && ks[a] == k;
    }
  }

  // ---- the scan object ----------------------------------------------------

  ghost predicate Ascending(out: seq<(int, Rid)>) {
    forall a, b :: 0 <= a < b < |out| ==> out[a].0 < out[b].0
  }

  ghost predicate HasKey(out: seq<(int, Rid)>, k: int) {
    exists a :: 0 <= a < |out| && out[a].0 == k
  }

  class IxScan {
    const ih: IxIndex
    const end: Iid
    var iid: Iid

    constructor (ih: IxIndex, lower: Iid, upper: Iid)
      ensures this.ih == ih && iid == lower && end == upper
    {
      this.ih, iid, end := ih, lower, upper;
    }

    predicate AtEnd()
      reads this
    {
      iid == end
    }

    /** One step; the code asserts that the scan stands at an entry. */
    method Next()
      requires ih.Valid() && IsEntry(ih.State(), iid)
      modifies this
      ensures iid == NextIid(ih.State(), old(iid))
    {
      assert ih.State().pages[iid.pageNo] == ih.nodes[iid.pageNo].View();
      var node := ih.nodes[iid.pageNo];
      iid := Iid(iid.pageNo, iid.slotNo + 1);
      if iid.pageNo != ih.last && iid.slotNo == node.numKey {
        iid := Iid(node.next, 0);
      }
    }

    /** Reads the entry stood at and moves on. */
    method Take(ghost ix: Index) returns (key: int, rid: Rid)
      requires this !in ih.Repr && ih.Valid() && ih.State() == ix
      requires IsEntry(ix, iid) && iid.slotNo < |ix.pages[iid.pageNo].rids|
      modifies this
      ensures ih.Valid() && ih.State() == ix
      ensures iid == NextIid(ix, old(iid)) && key == KeyAt(ix, old(iid))
      ensures rid == ix.pages[old(iid.pageNo)].rids[old(iid.slotNo)]
    {
      key, rid := Current();
      Next();
      ih.StateFrame();
    }

    method Current() returns (key: int, rid: Rid)
      requires ih.Valid() && IsEntry(ih.State(), iid) && iid.slotNo < |ih.State().pages[iid.pageNo].rids|
      ensures key == KeyAt(ih.State(), iid) && rid == ih.State().pages[iid.pageNo].rids[iid.slotNo]
    {
      assert ih.State().pages[iid.pageNo] == ih.nodes[iid.pageNo].View();
      key, rid := ih.nodes[iid.pageNo].keys[iid.slotNo], ih.nodes[iid.pageNo].rids[iid.slotNo];
    }
  }

  /** `out` is, in ascending order, the stored entries from position `lower` up to `cur`. */
  ghost predicate Collected(ix: Index, m: map<int, Rid>, lower: Iid, cur: Iid, out: seq<(int, Rid)>) {
    && Ascending(out)
    && (forall a :: 0 <= a < |out| ==> out[a].0 in m && out[a].1 == m[out[a].0])
    && (forall k :: HasKey(out, k) <==> k in m && !Before(ix, lower, k) && Before(ix, cur, k))
  }

  /** Every key passed at `i` is passed at `j`. */
  ghost predicate NotAfter(ix: Index, m: map<int, Rid>, i: Iid, j: Iid) {
    forall k :: k in m && Before(ix, i, k) ==> Before(ix, j, k)
  }

  ghost function Ahead(ix: Index, m: map<int, Rid>, i: Iid): set<int> {
    set k | k in m && !Before(ix, i, k)
  }

  lemma CollectOne(ix: Index, g: Shape, m: map<int, Rid>, lower: Iid, cur: Iid, upper: Iid, out: seq<(int, Rid)>, key: int, rid: Rid)
    requires TreeOf(ix, g, m) && IsEntry(ix, cur) && key == KeyAt(ix, cur) && key in m && rid == m[key]
    requires Collected(ix, m, lower, cur, out) && NotAfter(ix, m, lower, cur)
    requires NotAfter(ix, m, cur, upper) && Before(ix, upper, key)
    ensures var next := NextIid(ix, cur);
            && Proper(ix, next) && Collected(ix, m, lower, next, out + [(key, rid)])
            && NotAfter(ix, m, lower, next) && NotAfter(ix, m, next, upper)
            && Ahead(ix, m, next) < Ahead(ix, m, cur)
  {
    var next := NextIid(ix, cur);
    forall k ensures k in m ==> (Before(ix, next, k) <==> Before(ix, cur, k) || k == key) && Proper(ix, next) {
      NextPassesOneKey(ix, g, m, cur, k);
    }
    NextPassesOneKey(ix, g, m, cur, key);
    OneMore(out, key, rid);
    forall a | 0 <= a < |out| ensures out[a].0 < key { assert HasKey(out, out[a].0); }
    assert key in Ahead(ix, m, cur) && key !in Ahead(ix, m, next);
  }

  /** A scan between two proper positions yields, in ascending order and once each, exactly
      the stored entries from the lower position up to the upper one. */
  method ScanRange(ih: IxIndex, lower: Iid, upper: Iid, ghost m: map<int, Rid>) returns (out: seq<(int, Rid)>)
    requires ih.Holds(m) && Proper(ih.State(), lower) && Proper(ih.State(), upper)
    requires NotAfter(ih.State(), m, lower, upper)
    ensures Collected(ih.State(), m, lower, upper, out)
  {
    ghost var ix, g := ih.State(), ih.shape;
    var scan := new IxScan(ih, lower, upper);
    out := [];
    while !scan.AtEnd()
      invariant scan.ih == ih && scan.end == upper && scan !in ih.Repr
      invariant ih.Valid() && ih.State() == ix
      invariant InScan(ix, m, lower, scan.iid, upper, out)
      decreases Ahead(ix, m, scan.iid)
    {
      ScanStep(ix, g, m, lower, scan.iid, upper, out);
      var key, rid := scan.Take(ix);
      out := out + [(key, rid)];
    }
  }

  ghost predicate InScan(ix: Index, m: map<int, Rid>, lower: Iid, cur: Iid, upper: Iid, out: seq<(int, Rid)>) {
    && Proper(ix, cur) && Proper(ix, upper)
    && Collected(ix, m, lower, cur, out)
    && NotAfter(ix, m, lower, cur) && NotAfter(ix, m, cur, upper)
  }

  lemma ScanStep(ix: Index, g: Shape, m: map<int, Rid>, lower: Iid, cur: Iid, upper: Iid, out: seq<(int, Rid)>)
    requires TreeOf(ix, g, m) && InScan(ix, m, lower, cur, upper, out) && cur != upper
    ensures IsEntry(ix, cur) && cur.slotNo < |ix.pages[cur.pageNo].rids|
    ensures InScan(ix, m, lower, NextIid(ix, cur), upper, out + [(KeyAt(ix, cur), ix.pages[cur.pageNo].rids[cur.slotNo])])
    ensures Ahead(ix, m, NextIid(ix, cur)) < Ahead(ix, m, cur)
  {
    NotYetThere(ix, g, m, cur, upper);
    EntryIsStored(ix, g, m, cur);
    CollectOne(ix, g, m, lower, cur, upper, out, KeyAt(ix, cur), ix.pages[cur.pageNo].rids[cur.slotNo]);
  }

  lemma OneMore(out: seq<(int, Rid)>, key: int, rid: Rid)
    ensures forall k :: HasKey(out + [(key, rid)], k) <==> HasKey(out, k) || k == key
  {
    var o := out + [(key, rid)];
    assert o[|out|].0 == key;
    forall k | HasKey(out, k) ensures HasKey(o, k) {
      var a :| 0 <= a < |out| && out[a].0 == k;
      assert o[a].0 == k;
    }
    forall k | HasKey(o, k) && k != key ensures HasKey(out, k) {
      var a :| 0 <= a < |o| && o[a].0 == k;
      assert out[a].0 == k;
    }
  }

  /** Short of its end, a scan stands at an entry whose key lies before the end. */
  lemma NotYetThere(ix: Index, g: Shape, m: map<int, Rid>, i: Iid, end: Iid)
    requires TreeOf(ix, g, m) && Proper(ix, i) && Proper(ix, end) && i != end
    requires forall k :: k in m && Before(ix, i, k) ==> Before(ix, end, k)
    ensures IsEntry(ix, i) && Before(ix, end, KeyAt(ix, i))
  {
    if forall k :: k in m ==> (Before(ix, i, k) <==> Before(ix, end, k)) {
      SamePosition(ix, g, m, i, end);
    } else {
      var k :| k in m && !Before(ix, i, k) && Before(ix, end, k);
    }
  }

  /** From the first leaf to the end of the last one a scan yields the whole map in key order. */
  method ScanAll(ih: IxIndex, ghost m: map<int, Rid>) returns (out: seq<(int, Rid)>)
    requires ih.Holds(m)
    ensures Ascending(out)
    ensures forall a :: 0 <= a < |out| ==> out[a].0 in m && out[a].1 == m[out[a].0]
    ensures forall k :: HasKey(out, k) <==> k in m
  {
    ghost var ix := ih.State();
    LeafBeginIsFirst(ix, ih.shape, m);
    assert ix.pages[ix.last] == ih.nodes[ih.last].View();
    var begin, end := Iid(ih.first, 0), Iid(ih.last, ih.nodes[ih.last].numKey);
    assert IsEnd(ix, end);
    EndPassesAll(ix, ih.shape, m);
    out := ScanRange(ih, begin, end, m);
  }

  /** The end of the last leaf is an end and not an entry, so every key is before it. */
  lemma EndPassesAll(ix: Index, g: Shape, m: map<int, Rid>)
    requires TreeOf(ix, g, m)
    ensures var end := Iid(ix.last, |ix.pages[ix.last].keys|); !IsEntry(ix, end) && forall k :: Before(ix, end, k)
  {
  }

  /** The leaf of `key`, and the first slot there at or after it; the slot may be past the leaf's last. */
  ghost predicate IsLower(ix: Index, g: Shape, key: int, i: Iid) {
    && i.pageNo in ix.pages && ix.pages[i.pageNo].isLeaf && i.pageNo in g && InRange(g[i.pageNo], key)
    && i.slotNo == LowerBound(ix.pages[i.pageNo].keys, key)
  }

  /** The leaf of `key`, and the first slot there after it. */
  ghost predicate IsUpper(ix: Index, g: Shape, key: int, i: Iid) {
    && i.pageNo in ix.pages && ix.pages[i.pageNo].isLeaf && i.pageNo in g && InRange(g[i.pageNo], key)
    && i.slotNo == UpperBound(ix.pages[i.pageNo].keys, key)
  }

  /** First position at or after `key`, and whether a scan can use it. */
  method LowerPosition(ih: IxIndex, key: int, ghost m: map<int, Rid>) returns (i: Iid, proper: bool)
    requires ih.Holds(m)
    ensures IsLower(ih.State(), ih.shape, key, i) && (proper <==> Proper(ih.State(), i))
    ensures proper ==> forall k :: k in m ==> (Before(ih.State(), i, k) <==> k < key)
  {
    ghost var ix, g := ih.State(), ih.shape;
    var p := ih.FindLeaf(key);
    assert NodeOk(ix, g, p) && ix.pages[p] == ih.nodes[p].View();
    var s := ih.nodes[p].FindLower(key);
    i := Iid(p, s);
    proper := s < ih.nodes[p].numKey || p == ih.last;
    forall k | k in m && proper ensures Before(ix, i, k) <==> k < key {
      BoundPositions(ix, g, m, p, key, k);
    }
  }

  /** First position after `key`, and whether a scan can use it. */
  method UpperPosition(ih: IxIndex, key: int, ghost m: map<int, Rid>) returns (i: Iid, proper: bool)
    requires ih.Holds(m)
    ensures IsUpper(ih.State(), ih.shape, key, i) && (proper <==> Proper(ih.State(), i))
    ensures proper ==> forall k :: k in m ==> (Before(ih.State(), i, k) <==> k <= key)
  {
    ghost var ix, g := ih.State(), ih.shape;
    var p := ih.FindLeaf(key);
    assert NodeOk(ix, g, p) && ix.pages[p] == ih.nodes[p].View();
    var s := ih.nodes[p].FindUpper(key);
    i := Iid(p, s);
    proper := s < ih.nodes[p].numKey || p == ih.last;
    forall k | k in m && proper ensures Before(ix, i, k) <==> k <= key {
      BoundPositions(ix, g, m, p, key, k);
    }
  }
}
