/** What the local invariant means for the whole tree, and which pages an insertion reaches. */
module TreePaths {
  import opened IndexPages
  import opened BPlusTree
  import opened TreeSplit
  import opened TreeGrow

  // ---- global reading of the invariant ------------------------------------

  /** The page reached from `p` by following `n` parent links. */
  function Climb(ix: Index, p: PageId, n: nat): PageId
    decreases n
  {
    if n == 0 || p !in ix.pages then p else Climb(ix, ix.pages[p].parent, n - 1)
  }

  /** All leaves lie at one depth: from each of them the root is exactly as many links away as
      the root's level, and it is not met earlier. */
  lemma {:induction false} LeavesAtOneDepth(ix: Index, g: Shape, p: PageId, n: nat)
    requires Inv(ix, g, NoHole, NoPage) && p in ix.pages && ix.pages[p].isLeaf
    ensures n <= g[ix.root].level ==> (Climb(ix, p, n) == ix.root <==> n == g[ix.root].level)
  {
    assert NodeOk(ix, g, p);
    if n <= g[ix.root].level { ClimbRaises(ix, g, p, n); }
  }

  lemma {:induction false} ClimbRaises(ix: Index, g: Shape, p: PageId, n: nat)
    requires Inv(ix, g, NoHole, NoPage) && p in ix.pages && g[p].level + n <= g[ix.root].level
    ensures Climb(ix, p, n) in ix.pages && g[Climb(ix, p, n)].level == g[p].level + n
    ensures Climb(ix, p, n) == ix.root <==> g[p].level + n == g[ix.root].level
    decreases n
  {
    assert NodeOk(ix, g, p) && ParentOk(ix, g, NoHole, p);
    if p != ix.root { var i := ChildIndex(ix, g, NoHole, p); }
    if n > 0 {
      ClimbRaises(ix, g, ix.pages[p].parent, n - 1);
    }
  }

  ghost predicate InLeaf(ix: Index, p: PageId, k: int) {
    p in ix.pages && ix.pages[p].isLeaf && k in ix.pages[p].keys
  }

  /** Stored keys are the keys in leaves, and no key is in two leaves. */
  lemma StoredInOneLeaf(ix: Index, g: Shape, m: map<int, Rid>, k: int)
    requires TreeOf(ix, g, m)
    ensures k in m <==> exists p :: InLeaf(ix, p, k)
    ensures forall p, q :: InLeaf(ix, p, k) && InLeaf(ix, q, k) ==> p == q
  {
    forall p | InLeaf(ix, p, k) ensures InRange(g[p], k) && k in m && g[p].level == 0 {
      assert NodeOk(ix, g, p) && StoresPart(ix, g, m, p);
      var i :| 0 <= i < |ix.pages[p].keys| && ix.pages[p].keys[i] == k;
    }
    forall p, q | InLeaf(ix, p, k) && InLeaf(ix, q, k) ensures p == q {
      SameLevelDisjoint(ix, g, p, q, k);
    }
    if k in m {
      assert ParentOk(ix, g, NoHole, ix.root);
      var p := DescendTo(ix, g, ix.root, k);
      assert StoresPart(ix, g, m, p);
      assert InLeaf(ix, p, k);
    }
  }

  lemma {:induction false} DescendTo(ix: Index, g: Shape, p: PageId, k: int) returns (q: PageId)
    requires Inv(ix, g, NoHole, NoPage) && p in ix.pages && InRange(g[p], k)
    ensures q in ix.pages && ix.pages[q].isLeaf && InRange(g[q], k)
    decreases g[p].level
  {
    q := p;
    if !ix.pages[p].isLeaf {
      var i := UpperBound(ix.pages[p].keys, k);
      assert NodeOk(ix, g, p) && ChildrenOk(ix, g, NoHole, p);
      assert ChildOk(ix, g, NoHole, p, i);
      q := DescendTo(ix, g, ix.pages[p].rids[i].pageNo, k);
    }
  }

  // ---- the pages a split can reach ----------------------------------------

  /** The pages above `p` that receive a separator if `p` splits: the parent, and further up
      as long as each of them is full. */
  function UpChain(ix: Index, p: PageId, n: nat): set<PageId>
    decreases n
  {
    if n == 0 || p !in ix.pages || ix.pages[p].parent !in ix.pages then {}
    else
      var x := ix.pages[p].parent;
      {x} + if |ix.pages[x].keys| >= ix.MaxSize() then UpChain(ix, x, n - 1) else {}
  }

  /** Outside `s` a page keeps all but its links to parent and previous leaf. */
  ghost predicate ContentKept(ix: Index, ix': Index, s: set<PageId>) {
    forall r :: r in ix.pages && r !in s ==>
                  r in ix'.pages && ix'.pages[r] == ix.pages[r].(parent := ix'.pages[r].parent, prev := ix'.pages[r].prev)
  }

  /** Above level `l` the pages keep their keys and parents. */
  ghost predicate SameAbove(ix: Index, ix': Index, g: Shape, l: nat) {
    && ix.order == ix'.order
    && (forall r :: r in ix.pages && r in g && g[r].level > l ==>
          r in ix'.pages && ix'.pages[r].keys == ix.pages[r].keys && ix'.pages[r].parent == ix.pages[r].parent)
    && (forall r :: r in ix'.pages && r !in ix.pages ==> r >= ix.numPages)
  }

  lemma {:induction false} UpChainSame(ix: Index, ix': Index, g: Shape, hole: Hole, p: PageId, n: nat)
    requires Inv(ix, g, hole, NoPage) && p in ix.pages && (hole.Hole? ==> p != hole.right && g[hole.right].level <= g[p].level)
    requires SameAbove(ix, ix', g, g[p].level) && p in ix'.pages && ix'.pages[p].parent == ix.pages[p].parent
    ensures UpChain(ix', p, n) == UpChain(ix, p, n)
    decreases n
  {
    if n > 0 {
      StepUp(ix, g, hole, p);
      if p != ix.root { UpChainSame(ix, ix', g, hole, ix.pages[p].parent, n - 1); }
    }
  }

  /** One step up: the root has no parent, and any other page's is one level above. */
  lemma StepUp(ix: Index, g: Shape, hole: Hole, p: PageId)
    requires Inv(ix, g, hole, NoPage) && p in ix.pages && (hole.Hole? ==> p != hole.right && g[hole.right].level <= g[p].level)
    ensures p in g && 0 < ix.numPages && (p == ix.root ==> ix.pages[p].parent == NO_PAGE && NO_PAGE !in ix.pages)
    ensures p != ix.root ==>
              && ix.pages[p].parent in ix.pages && ix.pages[p].parent in g && g[ix.pages[p].parent].level == g[p].level + 1
              && (hole.Hole? ==> ix.pages[p].parent != hole.right && g[hole.right].level <= g[ix.pages[p].parent].level)
  {
    assert ParentOk(ix, g, hole, p) && KnownPages(ix, g);
    if p != ix.root { var i := ChildIndex(ix, g, hole, p); }
  }

  /** One step of the propagation: the separator goes into the parent `x`, `x` splits, and what
      happens above is confined to the chain of `x`. Then the whole is confined to the chain of `left`. */
  lemma ChainGrows(ix: Index, g: Shape, left: PageId, sep: int, right: PageId, i: nat, last: Index, n: nat)
    requires Inv(ix, g, Hole(left, right), NoPage) && ParentSite(ix, g, left, sep, right, ix.pages[left].parent, i)
    requires var x := ix.pages[left].parent; var ix1 := InsertChild(ix, left, sep, right);
             && WellShaped(ix1.pages[x]) && |ix1.pages[x].keys| > ix.MaxSize()
             && (forall r :: HasChild(ix1.pages[x], r) ==> r in g && g[r].level < g[x].level)
             && 0 < n && ContentKept(Split(ix1, x), last, UpChain(Split(ix1, x), x, n - 1))
    ensures ContentKept(ix, last, UpChain(ix, left, n))
  {
    var x := ix.pages[left].parent;
    var ix1 := InsertChild(ix, left, sep, right);
    var ix2 := Split(ix1, x);
    StepIsLocal(ix, g, left, sep, right, i);
    UpChainSame(ix, ix2, g, Hole(left, right), x, n - 1);
    KeptInTwoSteps(ix, ix2, last, {x}, UpChain(ix, x, n - 1));
    assert UpChain(ix, left, n) == {x} + UpChain(ix, x, n - 1);
  }

  lemma KeptInTwoSteps(ix: Index, mid: Index, last: Index, s: set<PageId>, t: set<PageId>)
    requires ContentKept(ix, mid, s) && ContentKept(mid, last, t)
    ensures ContentKept(ix, last, s + t)
  {
  }

  /** Insertion into the parent and its split leave everything above, and all other keys, alone. */
  lemma StepIsLocal(ix: Index, g: Shape, left: PageId, sep: int, right: PageId, i: nat)
    requires KnownPages(ix, g) && left in ix.pages && ParentSite(ix, g, left, sep, right, ix.pages[left].parent, i)
    requires ix.pages[left].parent in g && ChildOk(ix, g, Hole(left, right), ix.pages[left].parent, i)
    requires var x := ix.pages[left].parent; var ix1 := InsertChild(ix, left, sep, right);
             && WellShaped(ix1.pages[x]) && |ix1.pages[x].keys| > 0
             && (forall r :: HasChild(ix1.pages[x], r) ==> r in g && g[r].level < g[x].level)
    ensures var x := ix.pages[left].parent; var ix2 := Split(InsertChild(ix, left, sep, right), x);
            && SameAbove(ix, ix2, g, g[x].level) && ContentKept(ix, ix2, {x})
            && x in ix2.pages && ix2.pages[x].parent == ix.pages[x].parent
  {
    var x := ix.pages[left].parent;
    ChildOnlyBelow(InsertChild(ix, left, sep, right), g, x);
  }

  /** A moved child lies below the page it was moved from. */
  lemma ChildOnlyBelow(ix: Index, g: Shape, x: PageId)
    requires x in ix.pages && x in g && !ix.pages[x].isLeaf && WellShaped(ix.pages[x]) && |ix.pages[x].keys| > 0
    requires forall r :: HasChild(ix.pages[x], r) ==> r in g && g[r].level < g[x].level
    ensures forall r :: HasChild(RightHalf(ix.pages[x], x), r) ==> r in g && g[r].level < g[x].level
  {
    var n := ix.pages[x];
    forall r | HasChild(RightHalf(n, x), r) ensures HasChild(n, r) {
      var j :| 0 <= j < |RightHalf(n, x).rids| && RightHalf(n, x).rids[j].pageNo == r;
      assert n.rids[Mid(n) + 1 + j].pageNo == r;
    }
  }

  /** The same step, from the invariant before it. */
  lemma PropagationIsConfined(ix: Index, g: Shape, m: map<int, Rid>, left: PageId, sep: int, right: PageId, last: Index, n: nat)
    requires Pending(ix, g, left, sep, right) && Stores(ix, g, m) && ix.pages[left].parent != NO_PAGE
    requires ParentReady(ix, left, right)
    requires 0 < n && SettledFrom(InsertChild(ix, left, sep, right), ix.pages[left].parent, last, n - 1)
    ensures ContentKept(ix, last, UpChain(ix, left, n))
  {
    var x := ix.pages[left].parent;
    if |InsertChild(ix, left, sep, right).pages[x].keys| > ix.MaxSize() {
      var i := InsertChildKeepsTree(ix, g, m, left, sep, right);
      ChildrenBelow(InsertChild(ix, left, sep, right), g, x);
      ChainGrows(ix, g, left, sep, right, i, last, n);
    }
  }

  /** How far the settling of page `x` may reach: not at all when it is within its size, and
      otherwise to its halves and to the pages its separator reaches. */
  ghost predicate SettledFrom(ix: Index, x: PageId, last: Index, above: nat)
    requires x in ix.pages
  {
    if |ix.pages[x].keys| <= ix.MaxSize() then last == ix
    else SplitReady(ix, x) && ContentKept(Split(ix, x), last, UpChain(Split(ix, x), x, above))
  }

  /** What a split needs to find in the page table. */
  ghost predicate SplitReady(ix: Index, p: PageId) {
    && p in ix.pages && ix.numPages !in ix.pages && WellShaped(ix.pages[p])
    && 2 <= Mid(ix.pages[p]) < |ix.pages[p].keys| - 1
    && (ix.pages[p].isLeaf ==> ix.pages[p].next == LEAF_HEADER || ix.pages[p].next in ix.pages)
    && (!ix.pages[p].isLeaf ==> forall r :: HasChild(ix.pages[p], r) ==> r in ix.pages)
  }

  lemma ChildrenBelow(ix: Index, g: Shape, x: PageId)
    requires Inv(ix, g, NoHole, Over(x)) && x in ix.pages && !ix.pages[x].isLeaf
    ensures forall r :: HasChild(ix.pages[x], r) ==> r in g && g[r].level < g[x].level
  {
    assert ChildrenOk(ix, g, NoHole, x);
    forall r | HasChild(ix.pages[x], r) ensures r in g && g[r].level < g[x].level {
      var j :| 0 <= j < |ix.pages[x].rids| && ix.pages[x].rids[j].pageNo == r;
      assert ChildOk(ix, g, NoHole, x, j);
    }
  }

  /** What must be in place in the parent before the separator can enter it. */
  ghost predicate ParentReady(ix: Index, left: PageId, right: PageId) {
    && left in ix.pages && right in ix.pages
    && var x := ix.pages[left].parent;
    && x in ix.pages && x != right
    && !ix.pages[x].isLeaf && WellShaped(ix.pages[x]) && HasChild(ix.pages[x], left)
    && FindChild(ix.pages[x], left) <= |ix.pages[x].keys| <= ix.MaxSize()
  }

  /** The pages whose keys an insertion into leaf `p` may change: the leaf, and when it is full
      the pages its separator reaches. */
  function Touched(ix: Index, p: PageId, above: nat): set<PageId>
    requires p in ix.pages
  {
    {p} + if |ix.pages[p].keys| >= ix.MaxSize() then UpChain(ix, p, above) else {}
  }

  ghost predicate LeafStored(ix: Index, p: PageId, n: Page) {
    && p in ix.pages && ix.pages[p].isLeaf
    && n == ix.pages[p].(keys := n.keys, rids := n.rids)
    && |n.keys| <= |ix.pages[p].keys| + 1
  }

  lemma InsertionIsConfined(ix: Index, g: Shape, p: PageId, n: Page, last: Index, above: nat)
    requires Inv(ix, g, NoHole, NoPage) && LeafStored(ix, p, n)
    requires p in PutPage(ix, p, n).pages && SettledFrom(PutPage(ix, p, n), p, last, above)
    ensures ContentKept(ix, last, Touched(ix, p, above))
  {
    var ix1 := PutPage(ix, p, n);
    if |n.keys| > ix.MaxSize() {
      assert NodeOk(ix, g, p);
      LeafStepIsLocal(ix, g, p, n);
      UpChainSame(ix, Split(ix1, p), g, NoHole, p, above);
      KeptInTwoSteps(ix, Split(ix1, p), last, {p}, UpChain(ix, p, above));
    }
  }

  lemma LeafStepIsLocal(ix: Index, g: Shape, p: PageId, n: Page)
    requires KnownPages(ix, g) && LeafStored(ix, p, n) && SplitReady(PutPage(ix, p, n), p)
    requires g[p].level == 0 && forall r :: r in ix.pages && ix.pages[r].isLeaf ==> NodeOk(ix, g, r)
    requires ChainOk(ix, g, p)
    ensures var ix2 := Split(PutPage(ix, p, n), p);
            && SameAbove(ix, ix2, g, 0) && ContentKept(ix, ix2, {p})
            && p in ix2.pages && ix2.pages[p].parent == ix.pages[p].parent
  {
    var nx := n.next;
    if nx in ix.pages { assert nx in g; }
  }
}
