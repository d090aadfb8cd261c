/** A pending separator enters the parent, or a new root above the old one. */
module TreeGrow {
  import opened IndexPages
  import opened BPlusTree

  /** First child slot that names page `c`; the slot count when there is none. */
  function FindChild(n: Page, c: PageId): (i: nat)
    ensures i <= |n.rids|
    ensures i < |n.rids| ==> n.rids[i].pageNo == c
    ensures forall j :: 0 <= j < i ==> n.rids[j].pageNo != c
  {
    FindRid(n.rids, c)
  }

  function FindRid(s: seq<Rid>, c: PageId): (i: nat)
    ensures i <= |s|
    ensures i < |s| ==> s[i].pageNo == c
    ensures forall j :: 0 <= j < i ==> s[j].pageNo != c
  {
    if s == [] || s[0].pageNo == c then 0 else 1 + FindRid(s[1..], c)
  }

  function GrowRoot(ix: Index, left: PageId, sep: int, right: PageId): Index
    requires left in ix.pages && right in ix.pages
  {
    var r := ix.numPages;
    ix.(pages := ix.pages[r := Page(false, NO_PAGE, NO_PAGE, NO_PAGE, [sep], [Rid(left, 0), Rid(right, 0)])]
                         [left := ix.pages[left].(parent := r)]
                         [right := ix.pages[right].(parent := r)],
        root := r,
        numPages := ix.numPages + 1)
  }

  function InsertChild(ix: Index, left: PageId, sep: int, right: PageId): Index
    requires left in ix.pages && right in ix.pages && ix.pages[left].parent in ix.pages
    requires var n := ix.pages[ix.pages[left].parent];
             !n.isLeaf && |n.rids| == |n.keys| + 1 && FindChild(n, left) <= |n.keys|
  {
    var x := ix.pages[left].parent;
    var n := ix.pages[x];
    ix.(pages := ix.pages[x := ChildInsert(n, FindChild(n, left), sep, right)]
                         [right := ix.pages[right].(parent := x)])
  }

  ghost function RootShape(ix: Index, g: Shape): Shape
    requires ix.root in g
  {
    g[ix.numPages := Info(g[ix.root].level + 1, Unbounded, Unbounded)]
  }

  /** The state between a split and the insertion of its separator. */
  ghost predicate Pending(ix: Index, g: Shape, left: PageId, sep: int, right: PageId) {
    && Inv(ix, g, Hole(left, right), NoPage)
    && g[left].hi == At(sep)
  }

  /** What growing needs to know of the two halves. */
  ghost predicate HoleSite(ix: Index, g: Shape, left: PageId, sep: int, right: PageId) {
    && KnownPages(ix, g) && HoleOk(ix, g, Hole(left, right))
    && NodeOk(ix, g, left) && NodeOk(ix, g, right)
    && g[left].hi == At(sep)
  }

  // ---- new root -----------------------------------------------------------

  lemma GrowRootAt(ix: Index, g: Shape, left: PageId, sep: int, right: PageId, q: PageId)
    requires HoleSite(ix, g, left, sep, right) && left == ix.root
    requires q in GrowRoot(ix, left, sep, right).pages
    requires q in ix.pages ==> NodeOk(ix, g, q) && SizeOk(ix, NoPage, q) && ChainOk(ix, g, q)
    requires SizeOk(ix, NoPage, left) && |ix.pages[left].keys| >= ix.MinSize()
    ensures NodeOk(GrowRoot(ix, left, sep, right), RootShape(ix, g), q)
    ensures SizeOk(GrowRoot(ix, left, sep, right), NoPage, q)
    ensures ChainOk(GrowRoot(ix, left, sep, right), RootShape(ix, g), q)
  {
  }

  lemma GrowRootLinks(ix: Index, g: Shape, left: PageId, sep: int, right: PageId, q: PageId)
    requires HoleSite(ix, g, left, sep, right) && left == ix.root
    requires ParentOk(ix, g, Hole(left, right), left)
    requires q in GrowRoot(ix, left, sep, right).pages
    requires q in ix.pages ==> ChildrenOk(ix, g, Hole(left, right), q) && ParentOk(ix, g, Hole(left, right), q)
    ensures ChildrenOk(GrowRoot(ix, left, sep, right), RootShape(ix, g), NoHole, q)
    ensures ParentOk(GrowRoot(ix, left, sep, right), RootShape(ix, g), NoHole, q)
  {
    var ix', g' := GrowRoot(ix, left, sep, right), RootShape(ix, g);
    if q != ix.numPages {
      if !ix'.pages[q].isLeaf {
        forall i | 0 <= i < |ix'.pages[q].rids| ensures ChildOk(ix', g', NoHole, q, i) {
          assert ChildOk(ix, g, Hole(left, right), q, i);
        }
      }
      if q == left {
        assert ix'.pages[ix.numPages].rids[0].pageNo == left;
      } else if q == right {
        assert ix'.pages[ix.numPages].rids[1].pageNo == right;
      }
    }
  }

  lemma GrowRootKeepsTree(ix: Index, g: Shape, m: map<int, Rid>, left: PageId, sep: int, right: PageId)
    requires Pending(ix, g, left, sep, right) && Stores(ix, g, m)
    requires ix.pages[left].parent == NO_PAGE && |ix.pages[left].keys| >= ix.MinSize()
    ensures left == ix.root
    ensures TreeOf(GrowRoot(ix, left, sep, right), RootShape(ix, g), m)
  {
    assert ParentOk(ix, g, Hole(left, right), left) && SizeOk(ix, NoPage, left);
    assert HoleSite(ix, g, left, sep, right) by { assert NodeOk(ix, g, left) && NodeOk(ix, g, right); }
    var pages' := GrowRoot(ix, left, sep, right).pages;
    forall q | q in pages'
      ensures NodeOk(GrowRoot(ix, left, sep, right), RootShape(ix, g), q)
      ensures SizeOk(GrowRoot(ix, left, sep, right), NoPage, q)
      ensures ChainOk(GrowRoot(ix, left, sep, right), RootShape(ix, g), q)
    { GrowRootAt(ix, g, left, sep, right, q); }
    forall q | q in pages'
      ensures ChildrenOk(GrowRoot(ix, left, sep, right), RootShape(ix, g), NoHole, q)
      ensures ParentOk(GrowRoot(ix, left, sep, right), RootShape(ix, g), NoHole, q)
    { GrowRootLinks(ix, g, left, sep, right, q); }
    GrowRootStores(ix, g, m, left, sep, right);
  }

  lemma GrowRootStores(ix: Index, g: Shape, m: map<int, Rid>, left: PageId, sep: int, right: PageId)
    requires left in ix.pages && right in ix.pages && left != right && Stores(ix, g, m)
    requires ix.root in g && ix.numPages !in ix.pages
    ensures Stores(GrowRoot(ix, left, sep, right), RootShape(ix, g), m)
  {
    var pages' := GrowRoot(ix, left, sep, right).pages;
    forall q | q in pages' ensures StoresPart(GrowRoot(ix, left, sep, right), RootShape(ix, g), m, q) {
      if q in ix.pages { assert StoresPart(ix, g, m, q); }
      ParentDoesNotMatter(ix, g, m, q, pages');
    }
  }

  /** What a leaf stores does not depend on its parent link. */
  lemma ParentDoesNotMatter(ix: Index, g: Shape, m: map<int, Rid>, q: PageId, pages': map<PageId, Page>)
    requires q in pages' && (q in ix.pages ==> StoresPart(ix, g, m, q) && pages'[q] == ix.pages[q].(parent := pages'[q].parent))
    ensures q in ix.pages && pages'[q].isLeaf ==> q in g && LeafStores(pages'[q], g[q], m)
  {
    if q in ix.pages && pages'[q].isLeaf {
      var n, n' := ix.pages[q], pages'[q];
      forall k | k in n'.keys && k in m ensures LeafValue(n', k) == m[k] {
        assert LeafValue(n, k) == m[k];
      }
    }
  }

  // ---- insertion into the parent ------------------------------------------

  /** What the parent of the split page looks like before the separator enters. */
  ghost predicate ParentSite(ix: Index, g: Shape, left: PageId, sep: int, right: PageId, x: PageId, i: nat) {
    && HoleSite(ix, g, left, sep, right)
    && x == ix.pages[left].parent
    && NodeOk(ix, g, x) && SizeOk(ix, NoPage, x) && !ix.pages[x].isLeaf
    && ChildrenOk(ix, g, Hole(left, right), x)
    && ChildOk(ix, g, Hole(left, right), x, i)
    && i == FindChild(ix.pages[x], left) && i <= |ix.pages[x].keys|
    && x != left && x != right
  }

  lemma FindParentSite(ix: Index, g: Shape, left: PageId, sep: int, right: PageId) returns (i: nat)
    requires Pending(ix, g, left, sep, right) && ix.pages[left].parent != NO_PAGE
    ensures left != ix.root
    ensures ParentSite(ix, g, left, sep, right, ix.pages[left].parent, i)
  {
    assert NodeOk(ix, g, left) && NodeOk(ix, g, right) && ParentOk(ix, g, Hole(left, right), left);
    i := ChildIndex(ix, g, Hole(left, right), left);
    var x := ix.pages[left].parent;
    i := FindChild(ix.pages[x], left);
    assert NodeOk(ix, g, x) && SizeOk(ix, NoPage, x) && ChildrenOk(ix, g, Hole(left, right), x);
    assert ChildOk(ix, g, Hole(left, right), x, i);
  }

  /** The separator lies strictly between its neighbours in the parent. */
  lemma ChildInsertSorted(ix: Index, g: Shape, left: PageId, sep: int, right: PageId, x: PageId, i: nat)
    requires ParentSite(ix, g, left, sep, right, x, i)
    ensures var n := ix.pages[x];
            WellShaped(ChildInsert(n, i, sep, right)) && InRange(g[x], sep)
            && (forall j :: 0 <= j < |n.keys| + 1 ==> InRange(g[x], ChildInsert(n, i, sep, right).keys[j]))
  {
    var n := ix.pages[x];
    if 0 < i { assert InRange(g[x], n.keys[i - 1]); assert n.keys[i - 1] < sep; }
    if i < |n.keys| { assert InRange(g[x], n.keys[i]); assert sep < n.keys[i]; }
    var ks := InsertAt(n.keys, i, sep);
    forall j | 0 <= j < |ks| ensures InRange(g[x], ks[j]) {
      if j != i { assert InRange(g[x], n.keys[if j < i then j else j - 1]); }
    }
    forall a, b | 0 <= a < b < |ks| ensures ks[a] < ks[b] {
      if 0 < i && a < i { assert n.keys[a] <= n.keys[i - 1]; }
      if i < |n.keys| && i < b { assert n.keys[i] <= n.keys[b - 1]; }
    }
  }

  lemma InsertChildAt(ix: Index, g: Shape, left: PageId, sep: int, right: PageId, x: PageId, i: nat, q: PageId)
    requires ParentSite(ix, g, left, sep, right, x, i)
    requires q in ix.pages && NodeOk(ix, g, q) && SizeOk(ix, NoPage, q) && ChainOk(ix, g, q)
    ensures NodeOk(InsertChild(ix, left, sep, right), g, q)
    ensures SizeOk(InsertChild(ix, left, sep, right), Over(x), q)
    ensures ChainOk(InsertChild(ix, left, sep, right), g, q)
  {
    ChildInsertSorted(ix, g, left, sep, right, x, i);
  }

  lemma InsertChildAtParent(ix: Index, g: Shape, left: PageId, sep: int, right: PageId, x: PageId, i: nat, j: nat)
    requires ParentSite(ix, g, left, sep, right, x, i)
    requires j < |ix.pages[x].rids| + 1
    ensures ChildOk(InsertChild(ix, left, sep, right), g, NoHole, x, j)
  {
    if j <= i {
      assert ChildOk(ix, g, Hole(left, right), x, j);
      if j < i { assert ix.pages[x].rids[j].pageNo != left; }
    } else if j > i + 1 {
      assert ChildOk(ix, g, Hole(left, right), x, j - 1);
    }
  }

  lemma InsertChildLinks(ix: Index, g: Shape, left: PageId, sep: int, right: PageId, x: PageId, i: nat, q: PageId)
    requires ParentSite(ix, g, left, sep, right, x, i)
    requires q in ix.pages && ChildrenOk(ix, g, Hole(left, right), q) && ParentOk(ix, g, Hole(left, right), q)
    requires left != ix.root
    ensures ChildrenOk(InsertChild(ix, left, sep, right), g, NoHole, q)
    ensures ParentOk(InsertChild(ix, left, sep, right), g, NoHole, q)
  {
    var ix' := InsertChild(ix, left, sep, right);
    if !ix'.pages[q].isLeaf {
      forall j | 0 <= j < |ix'.pages[q].rids| ensures ChildOk(ix', g, NoHole, q, j) {
        if q == x {
          InsertChildAtParent(ix, g, left, sep, right, x, i, j);
        } else {
          assert ChildOk(ix, g, Hole(left, right), q, j);
        }
      }
    }
    var up := ix'.pages[q].parent;
    if q == right {
      assert ix'.pages[x].rids[i + 1].pageNo == right;
    } else if q != ix.root && up == x {
      var j :| 0 <= j < |ix.pages[x].rids| && ix.pages[x].rids[j].pageNo == q;
      assert ix'.pages[x].rids[if j <= i then j else j + 1].pageNo == q;
    }
  }

  lemma InsertChildKeepsNodes(ix: Index, g: Shape, left: PageId, sep: int, right: PageId, x: PageId, i: nat)
    requires Inv(ix, g, Hole(left, right), NoPage) && ParentSite(ix, g, left, sep, right, x, i)
    ensures var ix' := InsertChild(ix, left, sep, right);
            forall q :: q in ix'.pages ==> NodeOk(ix', g, q) && SizeOk(ix', Over(x), q) && ChainOk(ix', g, q)
  {
    forall q | q in InsertChild(ix, left, sep, right).pages
      ensures NodeOk(InsertChild(ix, left, sep, right), g, q)
      ensures SizeOk(InsertChild(ix, left, sep, right), Over(x), q)
      ensures ChainOk(InsertChild(ix, left, sep, right), g, q)
    { InsertChildAt(ix, g, left, sep, right, x, i, q); }
  }

  lemma InsertChildKeepsLinks(ix: Index, g: Shape, left: PageId, sep: int, right: PageId, x: PageId, i: nat)
    requires Inv(ix, g, Hole(left, right), NoPage) && ParentSite(ix, g, left, sep, right, x, i) && left != ix.root
    ensures var ix' := InsertChild(ix, left, sep, right);
            forall q :: q in ix'.pages ==> ChildrenOk(ix', g, NoHole, q) && ParentOk(ix', g, NoHole, q)
  {
    forall q | q in InsertChild(ix, left, sep, right).pages
      ensures ChildrenOk(InsertChild(ix, left, sep, right), g, NoHole, q)
      ensures ParentOk(InsertChild(ix, left, sep, right), g, NoHole, q)
    { InsertChildLinks(ix, g, left, sep, right, x, i, q); }
  }

  lemma InsertChildKeepsInv(ix: Index, g: Shape, left: PageId, sep: int, right: PageId, x: PageId, i: nat)
    requires Inv(ix, g, Hole(left, right), NoPage) && ParentSite(ix, g, left, sep, right, x, i) && left != ix.root
    ensures Inv(InsertChild(ix, left, sep, right), g, NoHole, Over(x))
  {
    InsertChildKeepsNodes(ix, g, left, sep, right, x, i);
    InsertChildKeepsLinks(ix, g, left, sep, right, x, i);
  }

  /** The separator in the parent closes the hole; the parent may now be overfull. */
  lemma InsertChildKeepsTree(ix: Index, g: Shape, m: map<int, Rid>, left: PageId, sep: int, right: PageId) returns (i: nat)
    requires Pending(ix, g, left, sep, right) && Stores(ix, g, m)
    requires ix.pages[left].parent != NO_PAGE
    ensures ParentSite(ix, g, left, sep, right, ix.pages[left].parent, i)
    ensures Inv(InsertChild(ix, left, sep, right), g, NoHole, Over(ix.pages[left].parent))
    ensures Stores(InsertChild(ix, left, sep, right), g, m)
  {
    i := FindParentSite(ix, g, left, sep, right);
    var x := ix.pages[left].parent;
    InsertChildKeepsInv(ix, g, left, sep, right, x, i);
    InsertChildStores(ix, g, m, left, sep, right, x, i);
  }

  lemma InsertChildStores(ix: Index, g: Shape, m: map<int, Rid>, left: PageId, sep: int, right: PageId, x: PageId, i: nat)
    requires ParentSite(ix, g, left, sep, right, x, i) && Stores(ix, g, m)
    ensures Stores(InsertChild(ix, left, sep, right), g, m)
  {
    var pages' := InsertChild(ix, left, sep, right).pages;
    forall q | q in pages' ensures StoresPart(InsertChild(ix, left, sep, right), g, m, q) {
      assert StoresPart(ix, g, m, q);
      if q != x { ParentDoesNotMatter(ix, g, m, q, pages'); }
    }
  }
}
