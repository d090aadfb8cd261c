/** Splitting an overfull page: the tree is intact except that the new right page
    still has to enter the parent. */
module TreeSplit {
  import opened IndexPages
  import opened BPlusTree

  /** The new page takes the next page number. */
  function SplitLeaf(ix: Index, p: PageId): Index
    requires p in ix.pages && ix.pages[p].isLeaf && WellShaped(ix.pages[p]) && |ix.pages[p].keys| > 0
  {
    var n, q := ix.pages[p], ix.numPages;
    var pages := ix.pages[p := LeftHalf(n, q)][q := RightHalf(n, p)];
    ix.(pages := if n.next != LEAF_HEADER && n.next in pages then pages[n.next := pages[n.next].(prev := q)] else pages,
        last := if ix.last == p then q else ix.last,
        numPages := ix.numPages + 1)
  }

  /** The children that go to the right half. */
  predicate IsMoved(n: Page, p: PageId, r: PageId)
    requires WellShaped(n) && |n.keys| > 0
  {
    HasChild(RightHalf(n, p), r)
  }

  function Reparent(pages: map<PageId, Page>, right: Page, q: PageId): map<PageId, Page> {
    map r | r in pages :: if HasChild(right, r) then pages[r].(parent := q) else pages[r]
  }

  function SplitInternal(ix: Index, p: PageId): Index
    requires p in ix.pages && !ix.pages[p].isLeaf && WellShaped(ix.pages[p]) && |ix.pages[p].keys| > 0
  {
    var n, q := ix.pages[p], ix.numPages;
    ix.(pages := Reparent(ix.pages[p := LeftHalf(n, q)][q := RightHalf(n, p)], RightHalf(n, p), q),
        numPages := ix.numPages + 1)
  }

  function Split(ix: Index, p: PageId): Index
    requires p in ix.pages && WellShaped(ix.pages[p]) && |ix.pages[p].keys| > 0
  {
    if ix.pages[p].isLeaf then SplitLeaf(ix, p) else SplitInternal(ix, p)
  }

  /** The ranges after the split: `p` ends, and the new page begins, at the separator. */
  ghost function SplitShape(ix: Index, g: Shape, p: PageId): Shape
    requires p in ix.pages && p in g && |ix.pages[p].keys| > 0
  {
    var sep := Separator(ix.pages[p]);
    g[p := g[p].(hi := At(sep))][ix.numPages := g[p].(lo := At(sep))]
  }

  /** What a split needs to know of the overfull page itself. */
  ghost predicate SplitSite(ix: Index, g: Shape, p: PageId) {
    && 2 < ix.order && ix.root in ix.pages && ix.first in ix.pages && ix.last in ix.pages
    && NodeOk(ix, g, p) && SizeOk(ix, Over(p), p)
    && |ix.pages[p].keys| == ix.MaxSize() + 1
    && ix.numPages !in ix.pages && ix.numPages !in g
    && LEAF_HEADER !in ix.pages
  }

  lemma SeparatorInside(ix: Index, g: Shape, p: PageId)
    requires SplitSite(ix, g, p)
    ensures var sep := Separator(ix.pages[p]); (g[p].lo.At? ==> g[p].lo.v < sep) && (g[p].hi.At? ==> sep < g[p].hi.v)
    ensures 2 <= Mid(ix.pages[p]) < |ix.pages[p].keys| - 1
  {
    var n := ix.pages[p];
    assert InRange(g[p], n.keys[0]);
    assert InRange(g[p], n.keys[Mid(n)]);
  }

  lemma LeftHalfOk(n: Page, f: Info, q: PageId)
    requires WellShaped(n) && 2 <= Mid(n) < |n.keys| - 1
    requires forall i :: 0 <= i < |n.keys| ==> InRange(f, n.keys[i])
    ensures WellShaped(LeftHalf(n, q)) && |LeftHalf(n, q).keys| == Mid(n)
    ensures forall i :: 0 <= i < |LeftHalf(n, q).keys| ==> InRange(f.(hi := At(Separator(n))), LeftHalf(n, q).keys[i])
  {
    forall i | 0 <= i < Mid(n) ensures InRange(f, LeftHalf(n, q).keys[i]) { assert InRange(f, n.keys[i]); }
  }

  lemma RightHalfOk(n: Page, f: Info, p: PageId)
    requires WellShaped(n) && 2 <= Mid(n) < |n.keys| - 1
    requires forall i :: 0 <= i < |n.keys| ==> InRange(f, n.keys[i])
    ensures WellShaped(RightHalf(n, p)) && |RightHalf(n, p).keys| == |n.keys| - Mid(n) - (if n.isLeaf then 0 else 1)
    ensures forall i :: 0 <= i < |RightHalf(n, p).keys| ==> InRange(f.(lo := At(Separator(n))), RightHalf(n, p).keys[i])
  {
    var skip := |n.keys| - |RightHalf(n, p).keys|;
    forall i | 0 <= i < |RightHalf(n, p).keys| ensures InRange(f.(lo := At(Separator(n))), RightHalf(n, p).keys[i]) {
      assert RightHalf(n, p).keys[i] == n.keys[skip + i];
      assert InRange(f, n.keys[skip + i]);
    }
  }

  // ---- leaf ---------------------------------------------------------------

  lemma SplitLeafNode(ix: Index, g: Shape, p: PageId, r: PageId)
    requires SplitSite(ix, g, p) && ix.pages[p].isLeaf
    requires r in SplitLeaf(ix, p).pages
    requires r in ix.pages ==> NodeOk(ix, g, r) && SizeOk(ix, Over(p), r)
    ensures NodeOk(SplitLeaf(ix, p), SplitShape(ix, g, p), r) && SizeOk(SplitLeaf(ix, p), NoPage, r)
  {
    SeparatorInside(ix, g, p);
    var n := ix.pages[p];
    if r == p {
      LeftHalfOk(n, g[p], ix.numPages);
    } else if r == ix.numPages {
      RightHalfOk(n, g[p], p);
    }
  }

  lemma SplitLeafChildren(ix: Index, g: Shape, p: PageId, r: PageId)
    requires SplitSite(ix, g, p) && ix.pages[p].isLeaf
    requires r in SplitLeaf(ix, p).pages
    requires r in ix.pages ==> ChildrenOk(ix, g, NoHole, r)
    ensures ChildrenOk(SplitLeaf(ix, p), SplitShape(ix, g, p), Hole(p, ix.numPages), r)
  {
    var ix', g' := SplitLeaf(ix, p), SplitShape(ix, g, p);
    var hole := Hole(p, ix.numPages);
    if !ix'.pages[r].isLeaf {
      forall i | 0 <= i < |ix'.pages[r].rids| ensures ChildOk(ix', g', hole, r, i) {
        assert ChildOk(ix, g, NoHole, r, i);
      }
    }
  }

  lemma SplitLeafParent(ix: Index, g: Shape, p: PageId, r: PageId)
    requires SplitSite(ix, g, p) && ix.pages[p].isLeaf
    requires r in SplitLeaf(ix, p).pages
    requires r in ix.pages ==> ParentOk(ix, g, NoHole, r)
    ensures ParentOk(SplitLeaf(ix, p), SplitShape(ix, g, p), Hole(p, ix.numPages), r)
  {
  }

  lemma SplitLeafChain(ix: Index, g: Shape, p: PageId, r: PageId)
    requires SplitSite(ix, g, p) && ix.pages[p].isLeaf
    requires r in SplitLeaf(ix, p).pages
    requires ChainOk(ix, g, p) && (r in ix.pages ==> ChainOk(ix, g, r))
    requires NonEmptyRange(g[p])
    ensures ChainOk(SplitLeaf(ix, p), SplitShape(ix, g, p), r)
  {
    SeparatorInside(ix, g, p);
  }

  lemma SplitLeafStores(ix: Index, g: Shape, m: map<int, Rid>, p: PageId, r: PageId)
    requires SplitSite(ix, g, p) && ix.pages[p].isLeaf && LeafStores(ix.pages[p], g[p], m)
    requires r in SplitLeaf(ix, p).pages
    requires r in ix.pages ==> StoresPart(ix, g, m, r)
    ensures StoresPart(SplitLeaf(ix, p), SplitShape(ix, g, p), m, r)
  {
    if r == p || r == ix.numPages {
      SplitHalvesStore(ix, g, m, p, r);
    } else {
      SplitLeafOthersStore(ix, g, m, p, r);
    }
  }

  lemma SplitHalvesStore(ix: Index, g: Shape, m: map<int, Rid>, p: PageId, r: PageId)
    requires SplitSite(ix, g, p) && ix.pages[p].isLeaf && LeafStores(ix.pages[p], g[p], m)
    requires r == p || r == ix.numPages
    ensures StoresPart(SplitLeaf(ix, p), SplitShape(ix, g, p), m, r)
  {
    SeparatorInside(ix, g, p);
    var n, q := ix.pages[p], ix.numPages;
    var n', f' := SplitLeaf(ix, p).pages[r], SplitShape(ix, g, p)[r];
    if r == p {
      LeftHalfStores(n, g[p], m, q);
      OnlyPairsMatter(LeftHalf(n, q), n', f', m);
    } else {
      RightHalfStores(n, g[p], m, p);
      OnlyPairsMatter(RightHalf(n, p), n', f', m);
    }
  }

  lemma SplitLeafOthersStore(ix: Index, g: Shape, m: map<int, Rid>, p: PageId, r: PageId)
    requires SplitSite(ix, g, p) && ix.pages[p].isLeaf
    requires r in ix.pages && r != p && r in SplitLeaf(ix, p).pages && StoresPart(ix, g, m, r)
    ensures StoresPart(SplitLeaf(ix, p), SplitShape(ix, g, p), m, r)
  {
    var n', f' := SplitLeaf(ix, p).pages[r], SplitShape(ix, g, p)[r];
    assert n'.isLeaf == ix.pages[r].isLeaf && n'.keys == ix.pages[r].keys && n'.rids == ix.pages[r].rids && f' == g[r];
    if n'.isLeaf {
      OnlyPairsMatter(ix.pages[r], n', f', m);
    }
  }

  lemma OnlyPairsMatter(n: Page, n': Page, f: Info, m: map<int, Rid>)
    requires n.isLeaf && n'.isLeaf && n.keys == n'.keys && n.rids == n'.rids && LeafStores(n, f, m)
    ensures LeafStores(n', f, m)
  {
    forall k | k in n'.keys && k in m ensures LeafValue(n', k) == m[k] {
      assert LeafValue(n, k) == m[k];
    }
  }

  lemma LeftHalfStores(n: Page, f: Info, m: map<int, Rid>, q: PageId)
    requires n.isLeaf && LeafStores(n, f, m) && 2 <= Mid(n) < |n.keys| - 1
    requires f.hi.At? ==> Separator(n) < f.hi.v
    ensures LeafStores(LeftHalf(n, q), f.(hi := At(Separator(n))), m)
  {
    var l, mid := LeftHalf(n, q), Mid(n);
    forall k | InRange(f.(hi := At(Separator(n))), k) ensures k in l.keys <==> k in m {
      assert InRange(f, k);
      if k in n.keys {
        var i :| 0 <= i < |n.keys| && n.keys[i] == k;
        assert l.keys[i] == k;
      }
    }
    forall k | k in l.keys && k in m ensures LeafValue(l, k) == m[k] {
      var i :| 0 <= i < |l.keys| && l.keys[i] == k;
      LeafValueAt(l, i);
      LeafValueAt(n, i);
      assert n.keys[i] in n.keys;
    }
  }

  lemma RightHalfStores(n: Page, f: Info, m: map<int, Rid>, p: PageId)
    requires n.isLeaf && LeafStores(n, f, m) && 2 <= Mid(n) < |n.keys| - 1
    requires f.lo.At? ==> f.lo.v < Separator(n)
    ensures LeafStores(RightHalf(n, p), f.(lo := At(Separator(n))), m)
  {
    var r, mid := RightHalf(n, p), Mid(n);
    forall k | InRange(f.(lo := At(Separator(n))), k) ensures k in r.keys <==> k in m {
      assert InRange(f, k);
      if k in n.keys {
        var i :| 0 <= i < |n.keys| && n.keys[i] == k;
        assert mid <= i;
        assert r.keys[i - mid] == k;
      }
    }
    forall k | k in r.keys && k in m ensures LeafValue(r, k) == m[k] {
      var i :| 0 <= i < |r.keys| && r.keys[i] == k;
      LeafValueAt(r, i);
      LeafValueAt(n, mid + i);
      assert n.keys[mid + i] in n.keys;
    }
  }

  // ---- internal page ------------------------------------------------------

  /** A page is a child at one position only. */
  lemma ChildrenDistinct(ix: Index, g: Shape, hole: Hole, p: PageId, i: nat, j: nat)
    requires NodeOk(ix, g, p) && !ix.pages[p].isLeaf && hole == NoHole
    requires i < j < |ix.pages[p].rids| && ChildOk(ix, g, hole, p, i) && ChildOk(ix, g, hole, p, j)
    requires NonEmptyRange(g[ix.pages[p].rids[j].pageNo])
    ensures ix.pages[p].rids[i].pageNo != ix.pages[p].rids[j].pageNo
  {
  }

  lemma MovedChild(ix: Index, g: Shape, p: PageId, x: PageId, i: nat)
    requires SplitSite(ix, g, p) && !ix.pages[p].isLeaf && ChildrenOk(ix, g, NoHole, p)
    requires ChildOk(ix, g, NoHole, x, i) && NonEmptyRange(g[ix.pages[x].rids[i].pageNo])
    ensures IsMoved(ix.pages[p], p, ix.pages[x].rids[i].pageNo) <==> x == p && Mid(ix.pages[p]) < i
  {
    var n, mid := ix.pages[p], Mid(ix.pages[p]);
    var moved := RightHalf(n, p).rids;
    var c := ix.pages[x].rids[i].pageNo;
    if x == p && mid < i {
      assert moved[i - mid - 1].pageNo == c;
    }
    if !(x == p && mid < i) {
      forall j: nat | j < |moved| ensures moved[j].pageNo != c {
        var y := mid + 1 + j;
        assert moved[j] == n.rids[y] && ChildOk(ix, g, NoHole, p, y);
        if x == p { ChildrenDistinct(ix, g, NoHole, p, i, y); }
      }
    }
  }

  lemma NotMoved(ix: Index, g: Shape, p: PageId, r: PageId)
    requires SplitSite(ix, g, p) && !ix.pages[p].isLeaf && ChildrenOk(ix, g, NoHole, p)
    requires r == ix.numPages || r == p || (r in ix.pages && ix.pages[r].parent != p)
    ensures !IsMoved(ix.pages[p], p, r)
  {
    var n := ix.pages[p];
    var moved := RightHalf(n, p).rids;
    forall j | 0 <= j < |moved| ensures moved[j].pageNo != r {
      assert ChildOk(ix, g, NoHole, p, Mid(n) + 1 + j);
    }
  }

  lemma SplitInternalNode(ix: Index, g: Shape, p: PageId, r: PageId)
    requires SplitSite(ix, g, p) && !ix.pages[p].isLeaf
    requires r in SplitInternal(ix, p).pages
    requires r in ix.pages ==> NodeOk(ix, g, r) && SizeOk(ix, Over(p), r)
    ensures NodeOk(SplitInternal(ix, p), SplitShape(ix, g, p), r) && SizeOk(SplitInternal(ix, p), NoPage, r)
  {
    SeparatorInside(ix, g, p);
    var n := ix.pages[p];
    if r == p {
      LeftHalfOk(n, g[p], ix.numPages);
    } else if r == ix.numPages {
      RightHalfOk(n, g[p], p);
    }
  }

  lemma SplitInternalChain(ix: Index, g: Shape, p: PageId, r: PageId)
    requires SplitSite(ix, g, p) && !ix.pages[p].isLeaf
    requires r in SplitInternal(ix, p).pages
    requires r in ix.pages ==> ChainOk(ix, g, r)
    ensures ChainOk(SplitInternal(ix, p), SplitShape(ix, g, p), r)
  {
  }

  /** A child that stays: of the left half, or of another page. */
  lemma StayingChild(ix: Index, g: Shape, p: PageId, r: PageId, i: nat)
    requires SplitSite(ix, g, p) && !ix.pages[p].isLeaf && ChildrenOk(ix, g, NoHole, p) && r != ix.numPages
    requires r in SplitInternal(ix, p).pages && i < |SplitInternal(ix, p).pages[r].rids|
    requires ChildOk(ix, g, NoHole, r, i) && NonEmptyRange(g[ix.pages[r].rids[i].pageNo])
    ensures ChildOk(SplitInternal(ix, p), SplitShape(ix, g, p), Hole(p, ix.numPages), r, i)
  {
    SeparatorInside(ix, g, p);
    MovedChild(ix, g, p, r, i);
  }

  /** A child that moves to the right half. */
  lemma MovingChild(ix: Index, g: Shape, p: PageId, i: nat)
    requires SplitSite(ix, g, p) && !ix.pages[p].isLeaf && ChildrenOk(ix, g, NoHole, p)
    requires i < |SplitInternal(ix, p).pages[ix.numPages].rids|
    requires var j := Mid(ix.pages[p]) + 1 + i; ChildOk(ix, g, NoHole, p, j) && NonEmptyRange(g[ix.pages[p].rids[j].pageNo])
    ensures ChildOk(SplitInternal(ix, p), SplitShape(ix, g, p), Hole(p, ix.numPages), ix.numPages, i)
  {
    SeparatorInside(ix, g, p);
    MovedChild(ix, g, p, p, Mid(ix.pages[p]) + 1 + i);
  }

  lemma SplitInternalChild(ix: Index, g: Shape, p: PageId, r: PageId, i: nat)
    requires SplitSite(ix, g, p) && !ix.pages[p].isLeaf && ChildrenOk(ix, g, NoHole, p)
    requires r in SplitInternal(ix, p).pages && i < |SplitInternal(ix, p).pages[r].rids|
    requires var x, j := if r == ix.numPages then p else r, if r == ix.numPages then Mid(ix.pages[p]) + 1 + i else i;
             ChildOk(ix, g, NoHole, x, j) && NonEmptyRange(g[ix.pages[x].rids[j].pageNo])
    ensures ChildOk(SplitInternal(ix, p), SplitShape(ix, g, p), Hole(p, ix.numPages), r, i)
  {
    if r == ix.numPages { MovingChild(ix, g, p, i); } else { StayingChild(ix, g, p, r, i); }
  }

  lemma SplitInternalChildren(ix: Index, g: Shape, p: PageId, r: PageId)
    requires SplitSite(ix, g, p) && !ix.pages[p].isLeaf && ChildrenOk(ix, g, NoHole, p)
    requires r in SplitInternal(ix, p).pages
    requires r in ix.pages ==> ChildrenOk(ix, g, NoHole, r)
    requires forall c :: c in ix.pages ==> NodeOk(ix, g, c)
    ensures ChildrenOk(SplitInternal(ix, p), SplitShape(ix, g, p), Hole(p, ix.numPages), r)
  {
    var ix' := SplitInternal(ix, p);
    if !ix'.pages[r].isLeaf {
      forall i | 0 <= i < |ix'.pages[r].rids| ensures ChildOk(ix', SplitShape(ix, g, p), Hole(p, ix.numPages), r, i) {
        var x, j := if r == ix.numPages then p else r, if r == ix.numPages then Mid(ix.pages[p]) + 1 + i else i;
        assert ChildOk(ix, g, NoHole, x, j);
        assert NodeOk(ix, g, ix.pages[x].rids[j].pageNo);
        SplitInternalChild(ix, g, p, r, i);
      }
    }
  }

  lemma SplitInternalParent(ix: Index, g: Shape, p: PageId, r: PageId)
    requires SplitSite(ix, g, p) && !ix.pages[p].isLeaf && KnownPages(ix, g)
    requires forall c :: c in ix.pages ==> NodeOk(ix, g, c) && ChildrenOk(ix, g, NoHole, c)
    requires r in SplitInternal(ix, p).pages
    requires r in ix.pages ==> ParentOk(ix, g, NoHole, r)
    ensures ParentOk(SplitInternal(ix, p), SplitShape(ix, g, p), Hole(p, ix.numPages), r)
  {
    var ix' := SplitInternal(ix, p);
    var q, mid := ix.numPages, Mid(ix.pages[p]);
    if r == ix.root {
      NotMoved(ix, g, p, r);
    } else if r != q {
      var i := ChildIndex(ix, g, NoHole, r);
      var x := ix.pages[r].parent;
      assert NodeOk(ix, g, r);
      MovedChild(ix, g, p, x, i);
      if x == p && mid < i {
        assert ix'.pages[q].rids[i - mid - 1].pageNo == r;
      } else {
        assert ix'.pages[x].rids[i].pageNo == r;
      }
    }
  }

  lemma SplitInternalStores(ix: Index, g: Shape, m: map<int, Rid>, p: PageId, r: PageId)
    requires SplitSite(ix, g, p) && !ix.pages[p].isLeaf
    requires r in SplitInternal(ix, p).pages
    requires r in ix.pages ==> StoresPart(ix, g, m, r)
    ensures StoresPart(SplitInternal(ix, p), SplitShape(ix, g, p), m, r)
  {
    if r != p && r != ix.numPages && ix.pages[r].isLeaf {
      OnlyPairsMatter(ix.pages[r], SplitInternal(ix, p).pages[r], g[r], m);
    }
  }

  // ---- both ---------------------------------------------------------------

  ghost predicate ReadyToSplit(ix: Index, g: Shape, p: PageId) {
    && Inv(ix, g, NoHole, Over(p))
    && p in ix.pages && |ix.pages[p].keys| == ix.MaxSize() + 1
  }

  lemma ReadyIsSite(ix: Index, g: Shape, p: PageId)
    requires ReadyToSplit(ix, g, p)
    ensures SplitSite(ix, g, p)
  {
    assert NodeOk(ix, g, p) && SizeOk(ix, Over(p), p);
  }

  lemma SplitHole(ix: Index, g: Shape, p: PageId)
    requires KnownPages(ix, g) && SplitSite(ix, g, p) && ChildrenOk(ix, g, NoHole, p) && ChainOk(ix, g, p)
    ensures KnownPages(Split(ix, p), SplitShape(ix, g, p))
    ensures HoleOk(Split(ix, p), SplitShape(ix, g, p), Hole(p, ix.numPages))
  {
    if !ix.pages[p].isLeaf {
      NotMoved(ix, g, p, p);
      NotMoved(ix, g, p, ix.numPages);
    }
  }

  lemma SplitLeafKeepsTree(ix: Index, g: Shape, m: map<int, Rid>, p: PageId)
    requires ReadyToSplit(ix, g, p) && Stores(ix, g, m) && ix.pages[p].isLeaf
    ensures SplitSite(ix, g, p)
    ensures Inv(SplitLeaf(ix, p), SplitShape(ix, g, p), Hole(p, ix.numPages), NoPage)
    ensures Stores(SplitLeaf(ix, p), SplitShape(ix, g, p), m)
  {
    ReadyIsSite(ix, g, p);
    SplitHole(ix, g, p);
    var pages' := SplitLeaf(ix, p).pages;
    forall r | r in pages'
      ensures NodeOk(SplitLeaf(ix, p), SplitShape(ix, g, p), r) && SizeOk(SplitLeaf(ix, p), NoPage, r)
    { SplitLeafNode(ix, g, p, r); }
    forall r | r in pages'
      ensures ChildrenOk(SplitLeaf(ix, p), SplitShape(ix, g, p), Hole(p, ix.numPages), r)
    { SplitLeafChildren(ix, g, p, r); }
    forall r | r in pages'
      ensures ParentOk(SplitLeaf(ix, p), SplitShape(ix, g, p), Hole(p, ix.numPages), r)
    { SplitLeafParent(ix, g, p, r); }
    forall r | r in pages'
      ensures ChainOk(SplitLeaf(ix, p), SplitShape(ix, g, p), r)
    { SplitLeafChain(ix, g, p, r); }
    assert StoresPart(ix, g, m, p);
    forall r | r in pages'
      ensures StoresPart(SplitLeaf(ix, p), SplitShape(ix, g, p), m, r)
    { SplitLeafStores(ix, g, m, p, r); }
  }

  lemma SplitInternalKeepsTree(ix: Index, g: Shape, m: map<int, Rid>, p: PageId)
    requires ReadyToSplit(ix, g, p) && Stores(ix, g, m) && !ix.pages[p].isLeaf
    ensures SplitSite(ix, g, p)
    ensures Inv(SplitInternal(ix, p), SplitShape(ix, g, p), Hole(p, ix.numPages), NoPage)
    ensures Stores(SplitInternal(ix, p), SplitShape(ix, g, p), m)
  {
    ReadyIsSite(ix, g, p);
    SplitHole(ix, g, p);
    var pages' := SplitInternal(ix, p).pages;
    forall r | r in pages'
      ensures NodeOk(SplitInternal(ix, p), SplitShape(ix, g, p), r) && SizeOk(SplitInternal(ix, p), NoPage, r)
    { SplitInternalNode(ix, g, p, r); }
    forall r | r in pages'
      ensures ChildrenOk(SplitInternal(ix, p), SplitShape(ix, g, p), Hole(p, ix.numPages), r)
    { SplitInternalChildren(ix, g, p, r); }
    forall r | r in pages'
      ensures ParentOk(SplitInternal(ix, p), SplitShape(ix, g, p), Hole(p, ix.numPages), r)
    { SplitInternalParent(ix, g, p, r); }
    forall r | r in pages'
      ensures ChainOk(SplitInternal(ix, p), SplitShape(ix, g, p), r)
    { SplitInternalChain(ix, g, p, r); }
    forall r | r in pages'
      ensures StoresPart(SplitInternal(ix, p), SplitShape(ix, g, p), m, r)
    { SplitInternalStores(ix, g, m, p, r); }
  }

  /** A split leaves a B+ tree with one hole, and the stored map is what it was. */
  lemma SplitKeepsTree(ix: Index, g: Shape, m: map<int, Rid>, p: PageId)
    requires ReadyToSplit(ix, g, p) && Stores(ix, g, m)
    ensures SplitSite(ix, g, p)
    ensures Inv(Split(ix, p), SplitShape(ix, g, p), Hole(p, ix.numPages), NoPage)
    ensures Stores(Split(ix, p), SplitShape(ix, g, p), m)
  {
    if ix.pages[p].isLeaf {
      SplitLeafKeepsTree(ix, g, m, p);
    } else {
      SplitInternalKeepsTree(ix, g, m, p);
    }
  }
}
