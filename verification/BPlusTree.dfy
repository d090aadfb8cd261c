/** The B+ tree invariant and what each step of an insertion does to it.

    The invariant is local: every page carries a ghost level and a ghost key
    range, and each condition mentions a page and its direct neighbours only. */
module BPlusTree {
  import opened IndexPages

  datatype Bound = Unbounded | At(v: int)

  /** Ghost facts about a page: its height above the leaves and its key range [lo, hi). */
  datatype Info = Info(level: nat, lo: Bound, hi: Bound)

  type Shape = map<PageId, Info>

  /** The index file: its pages and the header fields that name them. */
  datatype Index = Index(order: nat, pages: map<PageId, Page>, root: PageId,
                         first: PageId, last: PageId, numPages: int) {
    function MaxSize(): nat { order + 1 }
    function MinSize(): nat { MaxSize() / 2 }
  }

  /** Between a split and the insertion into the parent, `right` is not yet a child. */
  datatype Hole = NoHole | Hole(left: PageId, right: PageId)

  /** During an insertion one page may hold one key more than `MaxSize`. */
  datatype Overfull = NoPage | Over(page: PageId)

  predicate InRange(f: Info, k: int) {
    && (f.lo.At? ==> f.lo.v <= k)
    && (f.hi.At? ==> k < f.hi.v)
  }

  predicate NonEmptyRange(f: Info) {
    f.lo.At? && f.hi.At? ==> f.lo.v < f.hi.v
  }

  // ---- the invariant, page by page ----------------------------------------

  ghost predicate KnownPages(ix: Index, g: Shape) {
    && g.Keys == ix.pages.Keys
    && (forall p :: p in ix.pages ==> INIT_ROOT <= p < ix.numPages)
    && ix.root in ix.pages && ix.first in ix.pages && ix.last in ix.pages
    && 2 < ix.order
  }

  ghost predicate SizeOk(ix: Index, big: Overfull, p: PageId) {
    && p in ix.pages
    && var n := |ix.pages[p].keys|;
    && n <= (if big == Over(p) then ix.MaxSize() + 1 else ix.MaxSize())
    && (p != ix.root ==> ix.MinSize() <= n)
    && (!ix.pages[p].isLeaf ==> 1 <= n)
  }

  ghost predicate NodeOk(ix: Index, g: Shape, p: PageId) {
    && p in ix.pages && p in g && ix.root in g
    && WellShaped(ix.pages[p])
    && (ix.pages[p].isLeaf <==> g[p].level == 0)
    && g[p].level <= g[ix.root].level
    && NonEmptyRange(g[p])
    && (forall i :: 0 <= i < |ix.pages[p].keys| ==> InRange(g[p], ix.pages[p].keys[i]))
  }

  /** The upper end of a child's range as its parent still sees it. */
  ghost function HiSeen(g: Shape, hole: Hole, c: PageId): Bound
    requires c in g
  {
    if hole.Hole? && hole.left == c && hole.right in g then g[hole.right].hi else g[c].hi
  }

  ghost predicate HoleOk(ix: Index, g: Shape, hole: Hole) {
    hole.Hole? ==>
      && hole.left in ix.pages && hole.right in ix.pages && hole.left in g && hole.right in g
      && hole.left != hole.right && hole.right != ix.root
      && g[hole.left].level == g[hole.right].level
      && g[hole.left].hi.At? && g[hole.left].hi == g[hole.right].lo
      && ix.pages[hole.right].parent == ix.pages[hole.left].parent
  }

  ghost predicate ChildOk(ix: Index, g: Shape, hole: Hole, p: PageId, i: int) {
    && p in ix.pages && p in g && 0 <= i < |ix.pages[p].rids| == |ix.pages[p].keys| + 1
    && var n := ix.pages[p];
    var c := n.rids[i].pageNo;
    && c in ix.pages && c in g
    && ix.pages[c].parent == p
    && g[c].level + 1 == g[p].level
    && g[c].lo == (if i == 0 then g[p].lo else At(n.keys[i - 1]))
    && HiSeen(g, hole, c) == (if i == |n.keys| then g[p].hi else At(n.keys[i]))
    && (hole.Hole? ==> c != hole.right)
  }

  ghost predicate ChildrenOk(ix: Index, g: Shape, hole: Hole, p: PageId) {
    && p in ix.pages
    && (!ix.pages[p].isLeaf ==> forall i {:trigger ChildOk(ix, g, hole, p, i)} :: 0 <= i < |ix.pages[p].rids| ==> ChildOk(ix, g, hole, p, i))
  }

  predicate HasChild(n: Page, c: PageId) {
    exists i :: 0 <= i < |n.rids| && n.rids[i].pageNo == c
  }

  ghost predicate ParentOk(ix: Index, g: Shape, hole: Hole, p: PageId) {
    && p in ix.pages && p in g
    && var up := ix.pages[p].parent;
    if p == ix.root then
      up == NO_PAGE && g[p].lo == Unbounded && HiSeen(g, hole, p) == Unbounded
    else if hole.Hole? && p == hole.right then
      true
    else
      up in ix.pages && !ix.pages[up].isLeaf && HasChild(ix.pages[up], p)
  }

  /** The leaf list follows the key ranges in both directions. */
  ghost predicate ChainOk(ix: Index, g: Shape, p: PageId) {
    && p in ix.pages && p in g
    && var n := ix.pages[p];
    n.isLeaf ==>
      && (g[p].hi.Unbounded? <==> p == ix.last)
      && (g[p].lo.Unbounded? <==> p == ix.first)
      && (if g[p].hi.Unbounded? then n.next == LEAF_HEADER else
            n.next in ix.pages && n.next in g && ix.pages[n.next].isLeaf && g[n.next].lo == g[p].hi && ix.pages[n.next].prev == p)
      && (if g[p].lo.Unbounded? then n.prev == LEAF_HEADER else
            n.prev in ix.pages && n.prev in g && ix.pages[n.prev].isLeaf && g[n.prev].hi == g[p].lo && ix.pages[n.prev].next == p)
  }

  /** Leaf by leaf, the tree stores exactly the part of `m` that falls in the leaf's range. */
  ghost predicate StoresPart(ix: Index, g: Shape, m: map<int, Rid>, p: PageId) {
    && p in ix.pages && p in g
    && (ix.pages[p].isLeaf ==> LeafStores(ix.pages[p], g[p], m))
  }

  ghost predicate LeafStores(n: Page, f: Info, m: map<int, Rid>)
    requires n.isLeaf
  {
    && WellShaped(n)
    && (forall k :: InRange(f, k) ==> (k in n.keys <==> k in m))
    && (forall k :: k in n.keys && k in m ==> LeafValue(n, k) == m[k])
  }

  ghost predicate PageOk(ix: Index, g: Shape, hole: Hole, big: Overfull, p: PageId) {
    && NodeOk(ix, g, p)
    && SizeOk(ix, big, p)
    && ChildrenOk(ix, g, hole, p)
    && ParentOk(ix, g, hole, p)
    && ChainOk(ix, g, p)
  }

  ghost predicate Inv(ix: Index, g: Shape, hole: Hole, big: Overfull) {
    && KnownPages(ix, g)
    && HoleOk(ix, g, hole)
    && (forall p {:trigger NodeOk(ix, g, p)} {:trigger SizeOk(ix, big, p)} {:trigger ChildrenOk(ix, g, hole, p)}
          {:trigger ParentOk(ix, g, hole, p)} {:trigger ChainOk(ix, g, p)} {:trigger PageOk(ix, g, hole, big, p)} ::
          p in ix.pages ==> PageOk(ix, g, hole, big, p))
  }

  ghost predicate Stores(ix: Index, g: Shape, m: map<int, Rid>) {
    forall p {:trigger StoresPart(ix, g, m, p)} :: p in ix.pages ==> StoresPart(ix, g, m, p)
  }

  /** A finished state: a B+ tree that stores the map `m`. */
  ghost predicate TreeOf(ix: Index, g: Shape, m: map<int, Rid>) {
    Inv(ix, g, NoHole, NoPage) && Stores(ix, g, m)
  }

  // ---- the created index --------------------------------------------------

  function EmptyIndex(order: nat): Index {
    Index(order, map[INIT_ROOT := Page(true, NO_PAGE, LEAF_HEADER, LEAF_HEADER, [], [])],
          INIT_ROOT, INIT_ROOT, INIT_ROOT, INIT_NUM_PAGES)
  }

  lemma EmptyIndexIsTree(order: nat)
    requires 2 < order
    ensures TreeOf(EmptyIndex(order), map[INIT_ROOT := Info(0, Unbounded, Unbounded)], map[])
  {
  }

  // ---- ranges of one level never overlap ----------------------------------

  lemma ChildRangeInParent(ix: Index, g: Shape, p: PageId, i: nat, k: int)
    requires NodeOk(ix, g, p) && ChildOk(ix, g, NoHole, p, i)
    requires InRange(g[ix.pages[p].rids[i].pageNo], k)
    ensures InRange(g[p], k)
    ensures forall j :: 0 <= j < |ix.pages[p].keys| ==> if j < i then ix.pages[p].keys[j] <= k else k < ix.pages[p].keys[j]
  {
    var n := ix.pages[p];
    if 0 < i { assert InRange(g[p], n.keys[i - 1]); }
    if i < |n.keys| { assert InRange(g[p], n.keys[i]); }
  }

  lemma {:induction false} SameLevelDisjoint(ix: Index, g: Shape, p: PageId, q: PageId, k: int)
    requires Inv(ix, g, NoHole, NoPage)
    requires p in ix.pages && q in ix.pages && g[p].level == g[q].level
    requires InRange(g[p], k) && InRange(g[q], k)
    ensures p == q
    decreases g[ix.root].level - g[p].level
  {
    assert NodeOk(ix, g, p) && NodeOk(ix, g, q) && ParentOk(ix, g, NoHole, p) && ParentOk(ix, g, NoHole, q);
    if p != ix.root {
      var i := ChildIndex(ix, g, NoHole, p);
      if q != ix.root {
        var j := ChildIndex(ix, g, NoHole, q);
        var x, y := ix.pages[p].parent, ix.pages[q].parent;
        ChildRangeInParent(ix, g, x, i, k);
        ChildRangeInParent(ix, g, y, j, k);
        SameLevelDisjoint(ix, g, x, y, k);
      }
    } else if q != ix.root {
      var j := ChildIndex(ix, g, NoHole, q);
    }
  }

  /** Where a page sits in its parent. */
  lemma ChildIndex(ix: Index, g: Shape, hole: Hole, p: PageId) returns (i: nat)
    requires KnownPages(ix, g) && p in ix.pages && p != ix.root
    requires forall q :: q in ix.pages ==> NodeOk(ix, g, q) && ChildrenOk(ix, g, hole, q)
    requires ParentOk(ix, g, hole, p) && (hole.Hole? ==> p != hole.right)
    ensures ix.pages[p].parent in ix.pages
    ensures var x := ix.pages[p].parent; i < |ix.pages[x].rids| && ix.pages[x].rids[i].pageNo == p && ChildOk(ix, g, hole, x, i)
    ensures g[p].level < g[ix.root].level
    ensures g[p].level + 1 == g[ix.pages[p].parent].level
  {
    var x := ix.pages[p].parent;
    i :| 0 <= i < |ix.pages[x].rids| && ix.pages[x].rids[i].pageNo == p;
    assert ChildrenOk(ix, g, hole, x) && NodeOk(ix, g, x);
    assert ChildOk(ix, g, hole, x, i);
  }

  /** The leaf after a leaf is never empty: its first key is stored. */
  lemma NextLeafKey(ix: Index, g: Shape, m: map<int, Rid>, p: PageId) returns (k: int)
    requires TreeOf(ix, g, m) && p in ix.pages && ix.pages[p].isLeaf && p in g && g[p].hi.At?
    ensures ix.pages[p].next in ix.pages
    ensures var n := ix.pages[ix.pages[p].next]; n.isLeaf && 0 < |n.keys| && k == n.keys[0]
    ensures k in m && g[p].hi.v <= k
  {
    assert ChainOk(ix, g, p);
    var q := ix.pages[p].next;
    assert NodeOk(ix, g, q) && SizeOk(ix, NoPage, q) && ParentOk(ix, g, NoHole, q) && StoresPart(ix, g, m, q);
    k := ix.pages[q].keys[0];
    assert InRange(g[q], k) && k in ix.pages[q].keys;
  }

  // ---- insertion into a leaf ----------------------------------------------

  function PutPage(ix: Index, p: PageId, n: Page): Index {
    ix.(pages := ix.pages[p := n])
  }

  ghost predicate LeafEdit(ix: Index, g: Shape, p: PageId, n: Page, big: Overfull) {
    && p in ix.pages && p in g && ix.pages[p].isLeaf
    && n == ix.pages[p].(keys := n.keys, rids := n.rids) && WellShaped(n)
    && (forall i :: 0 <= i < |n.keys| ==> InRange(g[p], n.keys[i]))
    && SizeOk(PutPage(ix, p, n), big, p)
  }

  lemma LeafEditAt(ix: Index, g: Shape, p: PageId, n: Page, big: Overfull, q: PageId)
    requires KnownPages(ix, g) && LeafEdit(ix, g, p, n, big)
    requires NodeOk(ix, g, q) && SizeOk(ix, NoPage, q) && ChainOk(ix, g, q)
    ensures NodeOk(PutPage(ix, p, n), g, q) && SizeOk(PutPage(ix, p, n), big, q) && ChainOk(PutPage(ix, p, n), g, q)
  {
  }

  lemma LeafEditLinksAt(ix: Index, g: Shape, p: PageId, n: Page, big: Overfull, q: PageId)
    requires KnownPages(ix, g) && LeafEdit(ix, g, p, n, big)
    requires ChildrenOk(ix, g, NoHole, q) && ParentOk(ix, g, NoHole, q)
    ensures ChildrenOk(PutPage(ix, p, n), g, NoHole, q) && ParentOk(PutPage(ix, p, n), g, NoHole, q)
  {
    var ix' := PutPage(ix, p, n);
    if !ix'.pages[q].isLeaf {
      forall i | 0 <= i < |ix'.pages[q].rids| ensures ChildOk(ix', g, NoHole, q, i) {
        assert ChildOk(ix, g, NoHole, q, i);
      }
    }
  }

  /** Changing the pairs of one leaf, within its range, keeps the tree around it. */
  lemma LeafEditKeepsInv(ix: Index, g: Shape, p: PageId, n: Page, big: Overfull)
    requires Inv(ix, g, NoHole, NoPage) && LeafEdit(ix, g, p, n, big)
    ensures Inv(PutPage(ix, p, n), g, NoHole, big)
  {
    var ix' := PutPage(ix, p, n);
    forall q | q in ix'.pages
      ensures NodeOk(ix', g, q) && SizeOk(ix', big, q) && ChainOk(ix', g, q)
    {
      LeafEditAt(ix, g, p, n, big, q);
    }
    forall q | q in ix'.pages
      ensures ChildrenOk(ix', g, NoHole, q) && ParentOk(ix', g, NoHole, q)
    {
      LeafEditLinksAt(ix, g, p, n, big, q);
    }
  }

  /** ... and changes the stored map only within the leaf's range. */
  lemma LeafEditStores(ix: Index, g: Shape, m: map<int, Rid>, p: PageId, n: Page, m': map<int, Rid>)
    requires TreeOf(ix, g, m)
    requires p in ix.pages && ix.pages[p].isLeaf && n.isLeaf
    requires LeafStores(n, g[p], m')
    requires forall k :: !InRange(g[p], k) ==> (k in m <==> k in m') && (k in m ==> m[k] == m'[k])
    ensures Stores(PutPage(ix, p, n), g, m')
  {
    var ix' := PutPage(ix, p, n);
    forall q | q in ix.pages ensures StoresPart(ix', g, m', q) {
      assert StoresPart(ix, g, m, q);
      if q != p && ix.pages[q].isLeaf {
        assert NodeOk(ix, g, q) && NodeOk(ix, g, p);
        forall k | InRange(g[q], k) ensures !InRange(g[p], k) {
          if InRange(g[p], k) { SameLevelDisjoint(ix, g, p, q, k); }
        }
      }
    }
  }

  /** Within its range a leaf that inserts `k` if absent stores the updated map. */
  lemma LeafInsertStores(n: Page, f: Info, m: map<int, Rid>, k: int, v: Rid)
    requires n.isLeaf && LeafStores(n, f, m) && InRange(f, k)
    ensures LeafStores(LeafInsert(n, k, v), f, if k in m then m else m[k := v])
  {
    var r := LeafInsert(n, k, v);
    var m' := if k in m then m else m[k := v];
    forall x | x in r.keys && x in m' ensures LeafValue(r, x) == m'[x] {
      LeafInsertValues(n, k, v, x);
    }
  }

  lemma LeafRemoveStores(n: Page, f: Info, m: map<int, Rid>, k: int)
    requires n.isLeaf && LeafStores(n, f, m) && InRange(f, k)
    ensures LeafStores(LeafRemove(n, k), f, m - {k})
  {
    var r := LeafRemove(n, k);
    forall x | x in r.keys && x in m - {k} ensures LeafValue(r, x) == m[x] {
      LeafRemoveValues(n, k, x);
    }
  }

  lemma LeafInsertIsEdit(ix: Index, g: Shape, p: PageId, k: int, v: Rid)
    requires NodeOk(ix, g, p) && SizeOk(ix, NoPage, p) && ix.pages[p].isLeaf && InRange(g[p], k)
    ensures LeafEdit(ix, g, p, LeafInsert(ix.pages[p], k, v), Over(p))
  {
    var r := LeafInsert(ix.pages[p], k, v);
    forall i | 0 <= i < |r.keys| ensures InRange(g[p], r.keys[i]) {
      assert r.keys[i] in r.keys;
    }
  }

  lemma LeafRemoveIsEdit(ix: Index, g: Shape, p: PageId, k: int)
    requires NodeOk(ix, g, p) && SizeOk(ix, NoPage, p) && ix.pages[p].isLeaf && InRange(g[p], k)
    requires p == ix.root || ix.MinSize() < |ix.pages[p].keys|
    ensures LeafEdit(ix, g, p, LeafRemove(ix.pages[p], k), NoPage)
  {
    var r := LeafRemove(ix.pages[p], k);
    forall i | 0 <= i < |r.keys| ensures InRange(g[p], r.keys[i]) {
      assert r.keys[i] in r.keys;
    }
  }

  /** Inserting into the leaf whose range holds the key stores it unless it is already there. */
  lemma LeafInsertIntoTree(ix: Index, g: Shape, m: map<int, Rid>, p: PageId, k: int, v: Rid)
    requires TreeOf(ix, g, m)
    requires p in ix.pages && ix.pages[p].isLeaf && InRange(g[p], k)
    ensures WellShaped(ix.pages[p])
    ensures Inv(PutPage(ix, p, LeafInsert(ix.pages[p], k, v)), g, NoHole, Over(p))
    ensures Stores(PutPage(ix, p, LeafInsert(ix.pages[p], k, v)), g, if k in m then m else m[k := v])
  {
    assert NodeOk(ix, g, p) && SizeOk(ix, NoPage, p) && StoresPart(ix, g, m, p);
    LeafInsertIsEdit(ix, g, p, k, v);
    LeafInsertStores(ix.pages[p], g[p], m, k, v);
    LeafEditKeepsInv(ix, g, p, LeafInsert(ix.pages[p], k, v), Over(p));
    LeafEditStores(ix, g, m, p, LeafInsert(ix.pages[p], k, v), if k in m then m else m[k := v]);
  }

  /** Removing from a leaf that stays at or above the minimum size, or from a root that is a leaf,
      removes exactly that key. */
  lemma LeafRemoveFromTree(ix: Index, g: Shape, m: map<int, Rid>, p: PageId, k: int)
    requires TreeOf(ix, g, m)
    requires p in ix.pages && ix.pages[p].isLeaf && InRange(g[p], k)
    requires p == ix.root || ix.MinSize() < |ix.pages[p].keys|
    ensures WellShaped(ix.pages[p])
    ensures TreeOf(PutPage(ix, p, LeafRemove(ix.pages[p], k)), g, m - {k})
  {
    assert NodeOk(ix, g, p) && SizeOk(ix, NoPage, p) && StoresPart(ix, g, m, p);
    LeafRemoveIsEdit(ix, g, p, k);
    LeafRemoveStores(ix.pages[p], g[p], m, k);
    LeafEditKeepsInv(ix, g, p, LeafRemove(ix.pages[p], k), NoPage);
    LeafEditStores(ix, g, m, p, LeafRemove(ix.pages[p], k), m - {k});
  }

  /** Once no page is overfull the marker may be dropped. */
  lemma NotOverfull(ix: Index, g: Shape, hole: Hole, p: PageId)
    requires Inv(ix, g, hole, Over(p)) && p in ix.pages && |ix.pages[p].keys| <= ix.MaxSize()
    ensures Inv(ix, g, hole, NoPage)
  {
    forall q | q in ix.pages ensures SizeOk(ix, NoPage, q) {
      assert SizeOk(ix, Over(p), q);
    }
  }
}
