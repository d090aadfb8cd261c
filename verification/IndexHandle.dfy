/** The index handle: pages as mutable nodes named by page number, the descent to a
    leaf, splits that cascade upwards, and the insertion, removal and lookup of a key. */
module IndexHandle {
  import opened IndexPages
  import opened BPlusTree
  import opened TreeSplit
  import opened TreeGrow
  import opened TreePaths
  import opened IndexNode

  class IxIndex {
    const order: nat
    var nodes: map<PageId, IxNode>
    var root: PageId
    var first: PageId
    var last: PageId
    var numPages: int

    ghost var shape: Shape
    ghost var Repr: set<object>

    function MaxSize(): nat { order + 1 }
    function MinSize(): nat { MaxSize() / 2 }

    /** Every page has buffers of its own. */
    ghost predicate Valid()
      reads `nodes, `Repr, Repr
    {
      && this !in Repr
      && (forall p :: p in nodes ==> nodes[p] in Repr && nodes[p].keys in Repr && nodes[p].rids in Repr)
      && (forall p :: p in nodes ==> nodes[p].Valid() && nodes[p].Room() == MaxSize() + 1)
      && (forall p, q :: p in nodes && q in nodes && p != q ==>
            nodes[p] != nodes[q] && nodes[p].keys != nodes[q].keys && nodes[p].rids != nodes[q].rids)
    }

    ghost function Pages(): map<PageId, Page>
      requires Valid()
      reads `nodes, `Repr, Repr
    {
      map p | p in nodes :: nodes[p].View()
    }

    ghost function State(): Index
      requires Valid()
      reads `nodes, `root, `first, `last, `numPages, `Repr, Repr
    {
      Index(order, Pages(), root, first, last, numPages)
    }

    /** The handle holds a B+ tree that stores exactly `m`. */
    ghost predicate Holds(m: map<int, Rid>)
      reads this, Repr
    {
      Valid() && TreeOf(State(), shape, m)
    }

    /** Levels above the leaves. */
    ghost function Height(): nat
      reads `root, `shape
    {
      if root in shape then shape[root].level else 0
    }

    /** Nothing outside the handle and its buffers can change its state. */
    twostate lemma StateFrame()
      requires old(Valid()) && unchanged(this) && unchanged(Repr)
      ensures Valid() && State() == old(State())
    {
    }

    /** A freshly created index: one empty leaf, page 2, as root and only leaf. */
    constructor (order: nat)
      requires 2 < order
      ensures Holds(map[]) && this.order == order && fresh(Repr)
    {
      var n := new IxNode(order + 1, true);
      n.prev, n.next := LEAF_HEADER, LEAF_HEADER;
      this.order := order;
      nodes := map[INIT_ROOT := n];
      root, first, last, numPages := INIT_ROOT, INIT_ROOT, INIT_ROOT, INIT_NUM_PAGES;
      shape := map[INIT_ROOT := Info(0, Unbounded, Unbounded)];
      Repr := {n, n.keys, n.rids};
      new;
      EmptyIndexIsTree(order);
      assert State() == EmptyIndex(order);
    }

    // ---- descent ----------------------------------------------------------

    /** The child chosen by an internal page covers the key. */
    static lemma ChildCovers(ix: Index, g: Shape, p: PageId, key: int)
      requires NodeOk(ix, g, p) && ChildrenOk(ix, g, NoHole, p) && !ix.pages[p].isLeaf && InRange(g[p], key)
      ensures var i := UpperBound(ix.pages[p].keys, key);
              ChildOk(ix, g, NoHole, p, i) && InRange(g[ix.pages[p].rids[i].pageNo], key)
    {
      var n := ix.pages[p];
      var i := UpperBound(n.keys, key);
      assert ChildOk(ix, g, NoHole, p, i);
    }

    /** Walks from the root to the leaf whose range holds the key. */
    method FindLeaf(key: int) returns (p: PageId)
      requires Valid() && Inv(State(), shape, NoHole, NoPage)
      ensures p in nodes && nodes[p].isLeaf && p in shape && InRange(shape[p], key)
    {
      p := root;
      assert ParentOk(State(), shape, NoHole, p) && NodeOk(State(), shape, p);
      while !nodes[p].isLeaf
        invariant p in nodes && p in shape && InRange(shape[p], key)
        decreases shape[p].level
      {
        p := StepDown(p, key);
      }
    }

    /** The child whose range holds the key. */
    method StepDown(p: PageId, key: int) returns (c: PageId)
      requires Valid() && Inv(State(), shape, NoHole, NoPage)
      requires p in nodes && p in shape && !nodes[p].isLeaf && InRange(shape[p], key)
      ensures c in nodes && c in shape && InRange(shape[c], key) && 0 <= shape[c].level < shape[p].level
    {
      assert NodeOk(State(), shape, p) && ChildrenOk(State(), shape, NoHole, p);
      assert State().pages[p] == nodes[p].View();
      ChildCovers(State(), shape, p, key);
      c := nodes[p].InternalLookup(key);
      assert NodeOk(State(), shape, c);
    }

    /** Point lookup agrees with the stored map. */
    method GetValue(key: int, ghost m: map<int, Rid>) returns (found: bool, rid: Rid)
      requires Holds(m)
      ensures found <==> key in m
      ensures found ==> rid == m[key]
    {
      var p := FindLeaf(key);
      assert NodeOk(State(), shape, p) && StoresPart(State(), shape, m, p);
      assert State().pages[p] == nodes[p].View();
      found, rid := nodes[p].LeafLookup(key);
    }

    // ---- single-page updates ----------------------------------------------

    /** The header fields and the page table are as before; only page contents changed. */
    twostate predicate SamePageTable()
      reads this
    {
      && nodes == old(nodes) && root == old(root) && first == old(first) && last == old(last)
      && numPages == old(numPages) && shape == old(shape) && Repr == old(Repr)
    }

    /** The other pages' buffers are untouched. */
    twostate lemma OthersUnchanged(p: PageId)
      requires old(Valid()) && Valid() && nodes == old(nodes) && p in nodes
      requires forall o :: o in old(Repr) && o != nodes[p] && o != nodes[p].keys && o != nodes[p].rids ==> unchanged(o)
      ensures Pages() == old(Pages())[p := nodes[p].View()]
    {
      forall q | q in nodes && q != p ensures nodes[q].View() == old(nodes[q].View()) {
        assert nodes[q].keys as object != nodes[p].rids as object;
        assert nodes[q].rids as object != nodes[p].keys as object;
      }
    }

    method InsertInLeaf(p: PageId, key: int, value: Rid)
      requires Valid() && p in nodes && nodes[p].isLeaf && WellShaped(nodes[p].View()) && nodes[p].numKey < nodes[p].Room()
      modifies this, Repr
      ensures Valid() && SamePageTable()
      ensures State() == PutPage(old(State()), p, LeafInsert(old(nodes[p].View()), key, value))
    {
      var _ := nodes[p].Insert(key, value);
      OthersUnchanged(p);
    }

    method RemoveFromLeaf(p: PageId, key: int)
      requires Valid() && p in nodes && nodes[p].isLeaf && WellShaped(nodes[p].View())
      modifies this, Repr
      ensures Valid() && SamePageTable()
      ensures State() == PutPage(old(State()), p, LeafRemove(old(nodes[p].View()), key))
    {
      var _ := nodes[p].Remove(key);
      OthersUnchanged(p);
    }

    method SetParent(p: PageId, up: PageId)
      requires Valid() && p in nodes
      modifies this, Repr
      ensures Valid() && SamePageTable()
      ensures Pages() == old(Pages())[p := old(Pages()[p]).(parent := up)]
    {
      nodes[p].parent := up;
      OthersUnchanged(p);
    }

    method SetPrev(p: PageId, left: PageId)
      requires Valid() && p in nodes
      modifies this, Repr
      ensures Valid() && SamePageTable()
      ensures Pages() == old(Pages())[p := old(Pages()[p]).(prev := left)]
    {
      nodes[p].prev := left;
      OthersUnchanged(p);
    }

    method InsertChildInto(x: PageId, i: nat, sep: int, right: PageId, asWritten: bool)
      requires Valid() && x in nodes && !nodes[x].isLeaf && i <= nodes[x].numKey < nodes[x].Room()
      requires asWritten ==> i == nodes[x].numKey
      modifies this, Repr
      ensures Valid() && SamePageTable()
      ensures Pages() == old(Pages())[x := ChildInsert(old(Pages()[x]), i, sep, right)]
    {
      if asWritten {
        AppendIsLayout(nodes[x].View(), sep, right, nodes[x].rids[nodes[x].numKey + 1]);
        nodes[x].InsertChildAsWritten(i, sep, right);
      } else {
        nodes[x].InsertChildAfter(i, sep, right);
      }
      OthersUnchanged(x);
    }

    // ---- split ------------------------------------------------------------

    /** Page `p` keeps its left half. */
    method CutToLeftHalf(p: PageId, next: PageId)
      requires Valid() && p in nodes && WellShaped(nodes[p].View())
      requires !nodes[p].isLeaf ==> next == nodes[p].next
      modifies this, Repr
      ensures Valid() && SamePageTable()
      ensures Pages() == old(Pages())[p := LeftHalf(old(nodes[p].View()), next)]
    {
      var a := nodes[p];
      ghost var n := a.View();
      a.numKey := a.numKey / 2;
      a.next := next;
      assert a.View().keys == n.keys[..Mid(n)] && a.View().rids == LeftHalf(n, next).rids;
      assert a.View() == LeftHalf(n, next);
      OthersUnchanged(p);
    }

    /** Puts a new page buffer under the next page number. */
    method AddPage(b: IxNode) returns (q: PageId)
      requires Valid() && numPages !in nodes
      requires b.Valid() && b.Room() == MaxSize() + 1 && b !in Repr && b.keys !in Repr && b.rids !in Repr
      modifies this
      ensures Valid() && Repr == old(Repr) + {b, b.keys, b.rids}
      ensures q == old(numPages) && SameHeader(q + 1) && nodes == old(nodes)[q := b]
      ensures Pages() == old(Pages())[q := b.View()]
    {
      q := numPages;
      numPages := numPages + 1;
      nodes := nodes[q := b];
      Repr := Repr + {b, b.keys, b.rids};
    }

    /** Buffers that were not there before are newly allocated. */
    twostate predicate OnlyNewBuffers()
      reads this
    {
      forall o :: o in Repr && o !in old(Repr) ==> fresh(o)
    }

    twostate predicate SameHeader(pages: int)
      reads this
    {
      && root == old(root) && first == old(first) && last == old(last) && shape == old(shape) && numPages == pages
    }

    /** The two halves of a leaf under their page numbers. */
    /** Two pages of a table may be replaced in either order. */
    static lemma EitherOrder(pages: map<PageId, Page>, p: PageId, x: Page, q: PageId, y: Page)
      requires p != q
      ensures pages[q := y][p := x] == pages[p := x][q := y]
    {
    }

    method HalveLeaf(p: PageId) returns (q: PageId)
      requires Valid() && p in nodes && nodes[p].isLeaf && numPages !in nodes
      requires WellShaped(nodes[p].View()) && 2 <= Mid(nodes[p].View()) < nodes[p].numKey - 1
      modifies this, Repr
      ensures Valid() && OnlyNewBuffers()
      ensures q == old(numPages) && q != p && q in nodes && SameHeader(q + 1)
      ensures Pages() == old(Pages())[p := LeftHalf(old(nodes[p].View()), q)][q := RightHalf(old(nodes[p].View()), p)]
    {
      ghost var n, pages := nodes[p].View(), Pages();
      var b := nodes[p].RightHalfLeaf(p);
      q := AddPage(b);
      assert nodes[p].View() == n;
      ghost var grown := Pages();
      CutToLeftHalf(p, q);
      EitherOrder(pages, p, LeftHalf(n, q), q, RightHalf(n, p));
      assert Pages() == grown[p := LeftHalf(n, q)];
    }

    /** The leaf list and the last-leaf field take in the new leaf `q` after `p`. */
    method LinkLeaf(p: PageId, q: PageId)
      requires Valid() && p in nodes && q in nodes
      requires nodes[q].next == LEAF_HEADER || nodes[q].next in nodes
      modifies this, Repr
      ensures Valid() && nodes == old(nodes) && root == old(root) && first == old(first)
      ensures numPages == old(numPages) && shape == old(shape) && Repr == old(Repr)
      ensures last == if old(last) == p then q else old(last)
      ensures var nx := old(nodes[q].next);
              Pages() == if nx != LEAF_HEADER then old(Pages())[nx := old(nodes[nx].View()).(prev := q)] else old(Pages())
    {
      var nx := nodes[q].next;
      if nx != LEAF_HEADER {
        SetPrev(nx, q);
      }
      if last == p {
        last := q;
      }
    }

    method SplitLeafNode(p: PageId) returns (q: PageId)
      requires Valid() && p in nodes && nodes[p].isLeaf && numPages !in nodes
      requires WellShaped(nodes[p].View()) && 2 <= Mid(nodes[p].View()) < nodes[p].numKey - 1
      requires nodes[p].next == LEAF_HEADER || nodes[p].next in nodes
      modifies this, Repr
      ensures Valid() && OnlyNewBuffers() && q == old(numPages)
      ensures old(State()).pages[p] == old(nodes[p].View())
      ensures State() == SplitLeaf(old(State()), p) && shape == old(shape)
    {
      ghost var pages := Pages();
      q := HalveLeaf(p);
      assert nodes.Keys == Pages().Keys;
      ghost var right := Pages()[q];
      assert right == nodes[q].View();
      LinkLeaf(p, q);
    }

    method HalveInternal(p: PageId) returns (q: PageId)
      requires Valid() && p in nodes && !nodes[p].isLeaf && numPages !in nodes
      requires WellShaped(nodes[p].View()) && 2 <= Mid(nodes[p].View()) < nodes[p].numKey - 1
      modifies this, Repr
      ensures Valid() && OnlyNewBuffers()
      ensures q == old(numPages) && q != p && q in nodes && SameHeader(q + 1)
      ensures Pages() == old(Pages())[p := LeftHalf(old(nodes[p].View()), q)][q := RightHalf(old(nodes[p].View()), p)]
    {
      ghost var n, pages := nodes[p].View(), Pages();
      var b := nodes[p].RightHalfInternal(p);
      q := AddPage(b);
      assert nodes[p].View() == n;
      ghost var grown := Pages();
      CutToLeftHalf(p, nodes[p].next);
      assert LeftHalf(n, n.next) == LeftHalf(n, q);
      EitherOrder(pages, p, LeftHalf(n, q), q, RightHalf(n, p));
      assert Pages() == grown[p := LeftHalf(n, q)];
    }

    /** All children of `q` get `q` as their parent. */
    method ReparentChildren(q: PageId)
      requires Valid() && q in nodes && !nodes[q].isLeaf && nodes[q].numKey + 1 <= MaxSize() + 2
      requires forall i :: 0 <= i <= nodes[q].numKey ==> nodes[q].rids[i].pageNo in nodes && nodes[q].rids[i].pageNo != q
      modifies this, Repr
      ensures Valid() && SamePageTable()
      ensures Pages() == Reparent(old(Pages()), old(nodes[q].View()), q)
    {
      ghost var pages, n := Pages(), nodes[q].View();
      assert forall j :: 0 <= j < |n.rids| ==> n.rids[j] == nodes[q].rids[j];
      ReparentAll(q, n);
      UpToIsReparent(pages, n, |n.rids|, q);
      assert n.(rids := n.rids[..|n.rids|]) == n;
    }

    method ReparentAll(q: PageId, ghost n: Page)
      requires Valid() && q in nodes && !nodes[q].isLeaf && nodes[q].View() == n
      requires forall j :: 0 <= j < |n.rids| ==> n.rids[j].pageNo in nodes && n.rids[j].pageNo != q
      modifies this, Repr
      ensures Valid() && SamePageTable()
      ensures Pages() == ReparentUpTo(old(Pages()), n, |n.rids|, q)
    {
      ghost var pages := Pages();
      var i := 0;
      while i <= nodes[q].numKey
        invariant Valid() && SamePageTable() && nodes[q].View() == n
        invariant 0 <= i <= |n.rids| == nodes[q].numKey + 1
        invariant Pages() == ReparentUpTo(pages, n, i, q)
        decreases |n.rids| - i
      {
        var c := nodes[q].rids[i].pageNo;
        assert c == n.rids[i].pageNo;
        SetParent(c, q);
        assert Pages()[q] == n;
        i := i + 1;
      }
    }

    /** The pages after the first `i` children of `n` have got `q` as their parent. */
    static ghost function ReparentUpTo(pages: map<PageId, Page>, n: Page, i: nat, q: PageId): map<PageId, Page>
      requires i <= |n.rids|
    {
      if i == 0 then pages
      else
        var before, c := ReparentUpTo(pages, n, i - 1, q), n.rids[i - 1].pageNo;
        if c in before then before[c := before[c].(parent := q)] else before
    }

    static lemma {:induction false} UpToIsReparent(pages: map<PageId, Page>, n: Page, i: nat, q: PageId)
      requires i <= |n.rids| && forall j :: 0 <= j < i ==> n.rids[j].pageNo in pages
      ensures ReparentUpTo(pages, n, i, q) == Reparent(pages, n.(rids := n.rids[..i]), q)
    {
      if i > 0 {
        UpToIsReparent(pages, n, i - 1, q);
        ReparentOneMore(pages, n, i - 1, q);
      }
    }

    static lemma ReparentOneMore(pages: map<PageId, Page>, n: Page, i: nat, q: PageId)
      requires i < |n.rids| && n.rids[i].pageNo in pages
      ensures var c := n.rids[i].pageNo; var before := Reparent(pages, n.(rids := n.rids[..i]), q);
              Reparent(pages, n.(rids := n.rids[..i + 1]), q) == before[c := before[c].(parent := q)]
    {
      forall r | r in pages
        ensures HasChild(n.(rids := n.rids[..i + 1]), r) <==> HasChild(n.(rids := n.rids[..i]), r) || r == n.rids[i].pageNo
      {
        if r == n.rids[i].pageNo { assert n.rids[..i + 1][i].pageNo == r; }
        if HasChild(n.(rids := n.rids[..i]), r) {
          var j :| 0 <= j < i && n.rids[..i][j].pageNo == r;
          assert n.rids[..i + 1][j].pageNo == r;
        }
        if HasChild(n.(rids := n.rids[..i + 1]), r) && r != n.rids[i].pageNo {
          var j :| 0 <= j < i + 1 && n.rids[..i + 1][j].pageNo == r;
          assert n.rids[..i][j].pageNo == r;
        }
      }
    }

    /** The right half of a node points only to children of the node. */
    static lemma RightHalfChildren(n: Page, p: PageId, known: set<PageId>)
      requires !n.isLeaf && WellShaped(n) && |n.keys| > 0
      requires forall r :: HasChild(n, r) ==> r in known
      ensures forall i :: 0 <= i < |RightHalf(n, p).rids| ==> RightHalf(n, p).rids[i].pageNo in known
    {
      forall i | 0 <= i < |RightHalf(n, p).rids| ensures RightHalf(n, p).rids[i].pageNo in known {
        assert n.rids[Mid(n) + 1 + i] == RightHalf(n, p).rids[i];
        assert HasChild(n, n.rids[Mid(n) + 1 + i].pageNo);
      }
    }

    /** Halves an internal node; the children of the new half are pages of the index. */
    method HalveReady(p: PageId) returns (q: PageId)
      requires Valid() && p in nodes && !nodes[p].isLeaf && numPages !in nodes
      requires WellShaped(nodes[p].View()) && 2 <= Mid(nodes[p].View()) < nodes[p].numKey - 1
      requires forall r :: HasChild(nodes[p].View(), r) ==> r in nodes
      modifies this, Repr
      ensures Valid() && OnlyNewBuffers()
      ensures q == old(numPages) && q != p && q in nodes && SameHeader(q + 1)
      ensures Pages() == old(Pages())[p := LeftHalf(old(nodes[p].View()), q)][q := RightHalf(old(nodes[p].View()), p)]
      ensures nodes[q].View() == RightHalf(old(nodes[p].View()), p) && nodes[q].numKey <= MaxSize()
      ensures forall i :: 0 <= i <= nodes[q].numKey ==> nodes[q].rids[i].pageNo in nodes && nodes[q].rids[i].pageNo != q
    {
      ghost var n := nodes[p].View();
      RightHalfChildren(n, p, nodes.Keys);
      q := HalveInternal(p);
      assert nodes.Keys == Pages().Keys;
      ghost var right := Pages()[q];
      assert right == nodes[q].View() && right == RightHalf(n, p);
      forall i | 0 <= i <= nodes[q].numKey ensures nodes[q].rids[i].pageNo in nodes && nodes[q].rids[i].pageNo != q {
        assert nodes[q].rids[i] == right.rids[i];
      }
    }

    method SplitInternalNode(p: PageId) returns (q: PageId)
      requires Valid() && p in nodes && !nodes[p].isLeaf && numPages !in nodes
      requires WellShaped(nodes[p].View()) && 2 <= Mid(nodes[p].View()) < nodes[p].numKey - 1
      requires forall r :: HasChild(nodes[p].View(), r) ==> r in nodes
      modifies this, Repr
      ensures Valid() && OnlyNewBuffers() && q == old(numPages)
      ensures old(State()).pages[p] == old(nodes[p].View())
      ensures State() == SplitInternal(old(State()), p) && shape == old(shape)
    {
      ghost var ix, n := State(), nodes[p].View();
      q := HalveReady(p);
      ghost var halves := Pages();
      assert halves == ix.pages[p := LeftHalf(n, q)][q := RightHalf(n, p)];
      ReparentChildren(q);
      assert Pages() == Reparent(halves, RightHalf(n, p), q) == SplitInternal(ix, p).pages;
    }

    /** Splits a page; the separator is saved before the halves are cut. */
    method SplitPage(p: PageId) returns (sep: int, q: PageId)
      requires Valid() && SplitReady(State(), p)
      modifies this, Repr
      ensures Valid() && OnlyNewBuffers() && q == old(numPages)
      ensures sep == Separator(old(State()).pages[p])
      ensures State() == Split(old(State()), p) && shape == old(shape)
    {
      assert State().pages[p] == nodes[p].View();
      sep := nodes[p].keys[nodes[p].numKey / 2];
      if nodes[p].isLeaf {
        q := SplitLeafNode(p);
      } else {
        q := SplitInternalNode(p);
      }
    }

    static lemma SplitSiteFacts(ix: Index, g: Shape, p: PageId)
      requires ReadyToSplit(ix, g, p)
      ensures SplitSite(ix, g, p) && SplitReady(ix, p)
    {
      ReadyIsSite(ix, g, p);
      SeparatorInside(ix, g, p);
      assert ChainOk(ix, g, p) && ChildrenOk(ix, g, NoHole, p);
      if !ix.pages[p].isLeaf {
        forall r | HasChild(ix.pages[p], r) ensures r in ix.pages {
          var i :| 0 <= i < |ix.pages[p].rids| && ix.pages[p].rids[i].pageNo == r;
          assert ChildOk(ix, g, NoHole, p, i);
        }
      }
    }

    // ---- propagation ------------------------------------------------------

    method SetParents(left: PageId, right: PageId, up: PageId)
      requires Valid() && left in nodes && right in nodes && left != right
      modifies this, Repr
      ensures Valid() && SamePageTable()
      ensures Pages() == old(Pages())[left := old(Pages()[left]).(parent := up)][right := old(Pages()[right]).(parent := up)]
    {
      SetParent(left, up);
      SetParent(right, up);
    }

    method AddRootPage(left: PageId, sep: int, right: PageId) returns (top: PageId)
      requires Valid() && numPages !in nodes
      modifies this
      ensures Valid() && OnlyNewBuffers() && old(Repr) <= Repr
      ensures top == old(numPages) && SameHeader(top + 1) && nodes.Keys == old(nodes.Keys) + {top}
      ensures forall p :: p in old(nodes) ==> nodes[p] == old(nodes[p])
      ensures Pages() == old(Pages())[top := Page(false, NO_PAGE, NO_PAGE, NO_PAGE, [sep], [Rid(left, 0), Rid(right, 0)])]
    {
      var b := new IxNode.AsRoot(MaxSize(), left, sep, right);
      top := AddPage(b);
    }

    /** A new root above the two halves of the old one. */
    method GrowNewRoot(left: PageId, sep: int, right: PageId)
      requires Valid() && left in nodes && right in nodes && left != right && numPages !in nodes
      modifies this, Repr
      ensures Valid() && OnlyNewBuffers()
      ensures old(State()).pages.Keys == old(nodes).Keys
      ensures State() == GrowRoot(old(State()), left, sep, right) && shape == old(shape)
    {
      ghost var ix := State();
      var top := AddRootPage(left, sep, right);
      ghost var grown := Pages();
      SetParents(left, right, top);
      assert Pages() == grown[left := grown[left].(parent := top)][right := grown[right].(parent := top)];
      assert Pages() == GrowRoot(ix, left, sep, right).pages;
      root := top;
    }

    method GrowAndReshape(left: PageId, sep: int, right: PageId)
      requires Valid() && left in nodes && right in nodes && left != right && numPages !in nodes && root in shape
      modifies this, Repr
      ensures Valid() && OnlyNewBuffers()
      ensures left in old(State()).pages && right in old(State()).pages
      ensures State() == GrowRoot(old(State()), left, sep, right) && shape == RootShape(old(State()), old(shape))
      ensures ContentKept(old(State()), State(), {})
    {
      ghost var g := RootShape(State(), shape);
      GrowNewRoot(left, sep, right);
      shape := g;
    }

    /** The separator and the right page enter the parent of `left`. */
    method PutInParent(left: PageId, sep: int, right: PageId, asWritten: bool)
      requires Valid() && left in nodes && right in nodes && nodes[left].parent in nodes && nodes[left].parent != right
      requires var x := nodes[nodes[left].parent];
               !x.isLeaf && WellShaped(x.View()) && HasChild(x.View(), left) && x.numKey < x.Room()
      requires asWritten ==> FindChild(nodes[nodes[left].parent].View(), left) == nodes[nodes[left].parent].numKey
      modifies this, Repr
      ensures Valid() && SamePageTable()
      ensures old(State()).pages.Keys == old(nodes).Keys && old(State()).pages[left] == old(nodes[left].View())
      ensures var n := old(nodes[nodes[left].parent].View()); FindChild(n, left) <= |n.keys|
      ensures State() == InsertChild(old(State()), left, sep, right)
    {
      var x := nodes[left].parent;
      ghost var n := nodes[x].View();
      var i := nodes[x].FindChildSlot(left);
      assert i == FindChild(n, left) by { FindChildUnique(n, left, i); }
      ghost var pages := Pages();
      InsertChildInto(x, i, sep, right, asWritten);
      ghost var mid := Pages();
      assert mid == pages[x := ChildInsert(n, i, sep, right)] && mid[right] == pages[right];
      SetParent(right, x);
      assert Pages() == pages[x := ChildInsert(n, i, sep, right)][right := pages[right].(parent := x)];
    }

    static lemma AppendIsLayout(n: Page, sep: int, right: PageId, stale: Rid)
      requires !n.isLeaf && |n.rids| == |n.keys| + 1
      ensures ChildInsertAsWritten(n, |n.keys|, sep, right, stale) == ChildInsert(n, |n.keys|, sep, right)
    {
    }

    static lemma FindChildUnique(n: Page, c: PageId, i: nat)
      requires i <= |n.rids| && (i < |n.rids| ==> n.rids[i].pageNo == c) && HasChild(n, c)
      requires forall j :: 0 <= j < i ==> n.rids[j].pageNo != c
      ensures i == FindChild(n, c) < |n.rids|
    {
    }

    /** Facts about the parent that the propagation needs, and the state the step reaches. */
    static lemma ParentStep(ix: Index, g: Shape, m: map<int, Rid>, left: PageId, sep: int, right: PageId)
      requires Pending(ix, g, left, sep, right) && Stores(ix, g, m)
      requires ix.pages[left].parent != NO_PAGE
      ensures ParentReady(ix, left, right)
      ensures var x := ix.pages[left].parent; var ix' := InsertChild(ix, left, sep, right);
              && Inv(ix', g, NoHole, Over(x)) && Stores(ix', g, m)
              && x in ix'.pages && |ix'.pages[x].keys| == |ix.pages[x].keys| + 1
              && g[left].level + 1 == g[x].level <= g[ix.root].level
              && (g[right].hi.Unbounded? ==> g[x].hi.Unbounded? && FindChild(ix.pages[x], left) == |ix.pages[x].keys|)
    {
      var i := InsertChildKeepsTree(ix, g, m, left, sep, right);
    }

    static lemma RootStep(ix: Index, g: Shape, m: map<int, Rid>, left: PageId, sep: int, right: PageId)
      requires Pending(ix, g, left, sep, right) && Stores(ix, g, m)
      requires ix.pages[left].parent == NO_PAGE && |ix.pages[left].keys| >= ix.MinSize()
      ensures left in ix.pages && right in ix.pages && left != right && ix.numPages !in ix.pages && ix.root in g
      ensures TreeOf(GrowRoot(ix, left, sep, right), RootShape(ix, g), m)
    {
      GrowRootKeepsTree(ix, g, m, left, sep, right);
    }

    static lemma SplitStep(ix: Index, g: Shape, m: map<int, Rid>, p: PageId)
      requires ReadyToSplit(ix, g, p) && Stores(ix, g, m)
      ensures SplitReady(ix, p)
      ensures Pending(Split(ix, p), SplitShape(ix, g, p), p, Separator(ix.pages[p]), ix.numPages)
      ensures Stores(Split(ix, p), SplitShape(ix, g, p), m)
      ensures ix.MinSize() <= |Split(ix, p).pages[p].keys|
      ensures var g' := SplitShape(ix, g, p); g'[ix.root].level - g'[p].level == g[ix.root].level - g[p].level
    {
      SplitSiteFacts(ix, g, p);
      SplitKeepsTree(ix, g, m, p);
    }

    method SplitAndReshape(p: PageId) returns (sep: int, q: PageId)
      requires Valid() && SplitReady(State(), p) && p in shape
      modifies this, Repr
      ensures Valid() && OnlyNewBuffers() && q == old(numPages)
      ensures sep == Separator(old(State()).pages[p]) && root == old(root)
      ensures State() == Split(old(State()), p) && shape == SplitShape(old(State()), old(shape), p)
    {
      ghost var g := SplitShape(State(), shape, p);
      sep, q := SplitPage(p);
      shape := g;
    }

    /** Splits an overfull page of a B+ tree; the tree then lacks only its new separator. */
    method SplitOverfull(x: PageId, ghost m: map<int, Rid>) returns (sep: int, q: PageId)
      requires Valid() && ReadyToSplit(State(), shape, x) && Stores(State(), shape, m)
      modifies this, Repr
      ensures Valid() && OnlyNewBuffers()
      ensures SplitReady(old(State()), x) && State() == Split(old(State()), x)
      ensures Pending(State(), shape, x, sep, q) && Stores(State(), shape, m)
      ensures MinSize() <= |State().pages[x].keys|
      ensures root == old(root) && shape[root].level - shape[x].level == old(shape[root].level - shape[x].level)
      ensures shape[q].hi == old(shape[x].hi)
    {
      ghost var ix, g := State(), shape;
      SplitStep(ix, g, m, x);
      sep, q := SplitAndReshape(x);
    }

    /** The separator enters the parent, which may become overfull. */
    method InsertSeparator(left: PageId, sep: int, right: PageId, asWritten: bool, ghost m: map<int, Rid>) returns (x: PageId)
      requires Valid() && Pending(State(), shape, left, sep, right) && Stores(State(), shape, m)
      requires left in nodes && nodes[left].parent != NO_PAGE
      requires asWritten ==> shape[right].hi.Unbounded?
      modifies this, Repr
      ensures Valid() && Repr == old(Repr)
      ensures ParentReady(old(State()), left, right) && x == old(State()).pages[left].parent
      ensures State() == InsertChild(old(State()), left, sep, right)
      ensures Inv(State(), shape, NoHole, Over(x)) && Stores(State(), shape, m)
      ensures x in nodes && nodes[x].numKey <= MaxSize() + 1
      ensures shape == old(shape) && root == old(root) && shape[left].level + 1 == shape[x].level <= shape[root].level
      ensures asWritten ==> shape[x].hi.Unbounded?
    {
      ghost var ix, g := State(), shape;
      assert ix.pages[left] == nodes[left].View();
      ParentStep(ix, g, m, left, sep, right);
      x := nodes[left].parent;
      assert ix.pages[x] == nodes[x].View();
      PutInParent(left, sep, right, asWritten);
      assert State().pages[x] == nodes[x].View();
    }

    /** The old root was split: a new root goes above its halves. */
    method RaiseRoot(left: PageId, sep: int, right: PageId, ghost m: map<int, Rid>)
      requires Valid() && Pending(State(), shape, left, sep, right) && Stores(State(), shape, m)
      requires nodes[left].parent == NO_PAGE && MinSize() <= |State().pages[left].keys|
      modifies this, Repr
      ensures OnlyNewBuffers() && Holds(m) && ContentKept(old(State()), State(), {})
    {
      ghost var ix, g := State(), shape;
      assert ix.pages[left] == nodes[left].View();
      RootStep(ix, g, m, left, sep, right);
      GrowAndReshape(left, sep, right);
    }

    /** The separator goes up, splitting full ancestors, until a page has room or a new root
        is made; `above` is the number of levels left. With `asWritten` the parent is updated
        as the code does it, which is right while the split page is the rightmost of its level. */
    method InsertIntoParent(left: PageId, sep: int, right: PageId, asWritten: bool, ghost m: map<int, Rid>, ghost above: nat)
      requires Valid() && Pending(State(), shape, left, sep, right) && Stores(State(), shape, m)
      requires MinSize() <= |State().pages[left].keys|
      requires shape[root].level == shape[left].level + above
      requires asWritten ==> shape[right].hi.Unbounded?
      modifies this, Repr
      ensures OnlyNewBuffers() && Holds(m)
      ensures ContentKept(old(State()), State(), UpChain(old(State()), left, above))
      decreases above, 1
    {
      if nodes[left].parent == NO_PAGE {
        RaiseRoot(left, sep, right, m);
      } else {
        PassToParent(left, sep, right, asWritten, m, above);
      }
    }

    method PassToParent(left: PageId, sep: int, right: PageId, asWritten: bool, ghost m: map<int, Rid>, ghost above: nat)
      requires Valid() && Pending(State(), shape, left, sep, right) && Stores(State(), shape, m)
      requires left in nodes && nodes[left].parent != NO_PAGE
      requires shape[root].level == shape[left].level + above
      requires asWritten ==> shape[right].hi.Unbounded?
      modifies this, Repr
      ensures OnlyNewBuffers() && Holds(m)
      ensures ContentKept(old(State()), State(), UpChain(old(State()), left, above))
      decreases above, 0
    {
      ghost var ix, g := State(), shape;
      var x := InsertSeparator(left, sep, right, asWritten, m);
      assert State() == InsertChild(ix, left, sep, right) && x == ix.pages[left].parent && ParentReady(ix, left, right);
      SettlePage(x, asWritten, m, above - 1);
      PropagationIsConfined(ix, g, m, left, sep, right, State(), above);
    }

    /** Splits a page if it is over the maximum, all the way up. */
    method SettlePage(x: PageId, asWritten: bool, ghost m: map<int, Rid>, ghost above: nat)
      requires Valid() && Inv(State(), shape, NoHole, Over(x)) && Stores(State(), shape, m)
      requires x in nodes && nodes[x].numKey <= MaxSize() + 1
      requires shape[root].level == shape[x].level + above
      requires asWritten ==> shape[x].hi.Unbounded?
      modifies this, Repr
      ensures OnlyNewBuffers() && Holds(m)
      ensures x in old(State()).pages && SettledFrom(old(State()), x, State(), above)
      decreases above, 3
    {
      assert State().pages[x] == nodes[x].View();
      if nodes[x].numKey > MaxSize() {
        OverfullIsReady(x);
        SplitUpwards(x, asWritten, m, above);
      } else {
        NotOverfull(State(), shape, NoHole, x);
      }
    }

    /** Splits an overfull page and passes its separator on; other keys change only in the pages
        above it that the separators reach. */
    method SplitUpwards(x: PageId, asWritten: bool, ghost m: map<int, Rid>, ghost above: nat)
      requires Valid() && ReadyToSplit(State(), shape, x) && Stores(State(), shape, m)
      requires shape[root].level == shape[x].level + above
      requires asWritten ==> shape[x].hi.Unbounded?
      modifies this, Repr
      ensures OnlyNewBuffers() && Holds(m)
      ensures SplitReady(old(State()), x)
      ensures ContentKept(Split(old(State()), x), State(), UpChain(Split(old(State()), x), x, above))
      decreases above, 2
    {
      var up, q := SplitOverfull(x, m);
      ghost var r := Repr;
      label Before:
      InsertIntoParent(x, up, q, asWritten, m, above);
      forall o | o in Repr && o !in old(Repr) ensures fresh(o) {
        if o !in r { assert fresh@Before(o); }
      }
    }

    lemma OverfullIsReady(x: PageId)
      requires Valid() && Inv(State(), shape, NoHole, Over(x))
      requires x in nodes && nodes[x].numKey == MaxSize() + 1
      ensures ReadyToSplit(State(), shape, x)
    {
      assert State().pages[x] == nodes[x].View();
    }

    // ---- entries ----------------------------------------------------------

    /** Insert-if-absent in the leaf whose range holds the key. */
    method StoreInLeaf(p: PageId, key: int, value: Rid, ghost m: map<int, Rid>)
      requires Holds(m) && p in nodes && nodes[p].isLeaf && p in shape && InRange(shape[p], key)
      modifies this, Repr
      ensures Valid() && Repr == old(Repr) && shape == old(shape) && root == old(root) && nodes == old(nodes)
      ensures Inv(State(), shape, NoHole, Over(p)) && Stores(State(), shape, if key in m then m else m[key := value])
      ensures shape[p].level <= shape[root].level
      ensures p in State().pages && LeafStored(old(State()), p, State().pages[p])
      ensures State() == PutPage(old(State()), p, State().pages[p])
      ensures nodes[p].numKey <= if old(nodes[p].numKey) < MaxSize() then MaxSize() else MaxSize() + 1
    {
      LeafFacts(State(), shape, p);
      assert State().pages[p] == nodes[p].View();
      LeafInsertIntoTree(State(), shape, m, p, key, value);
      InsertInLeaf(p, key, value);
      assert State().pages[p] == nodes[p].View();
    }

    static lemma LeafFacts(ix: Index, g: Shape, p: PageId)
      requires Inv(ix, g, NoHole, NoPage) && p in ix.pages
      ensures WellShaped(ix.pages[p]) && |ix.pages[p].keys| <= ix.MaxSize()
      ensures g[p].level <= g[ix.root].level
    {
      assert NodeOk(ix, g, p) && SizeOk(ix, NoPage, p);
    }

    /** Stores the pair unless the key is present; every other key keeps its value. A full
        leaf is descended to a second time and may split. Returns the leaf descended to. */
    method InsertEntry(key: int, value: Rid, ghost m: map<int, Rid>) returns (leaf: PageId)
      requires Holds(m)
      modifies this, Repr
      ensures OnlyNewBuffers() && Holds(if key in m then m else m[key := value])
    {
      leaf := InsertEntryWith(key, value, false, m);
    }

    /** The parent update exactly as the code performs it is right for ascending keys. */
    method InsertAscending(key: int, value: Rid, ghost m: map<int, Rid>) returns (leaf: PageId)
      requires Holds(m) && forall k :: k in m ==> k < key
      modifies this, Repr
      ensures OnlyNewBuffers() && Holds(m[key := value])
    {
      leaf := InsertEntryWith(key, value, true, m);
    }

    method InsertEntryWith(key: int, value: Rid, asWritten: bool, ghost m: map<int, Rid>) returns (leaf: PageId)
      requires Holds(m)
      requires asWritten ==> forall k :: k in m ==> k < key
      modifies this, Repr
      ensures OnlyNewBuffers() && Holds(if key in m then m else m[key := value])
      ensures leaf in old(State()).pages && old(State()).pages[leaf].isLeaf && leaf in old(shape) && InRange(old(shape)[leaf], key)
      ensures ContentKept(old(State()), State(), Touched(old(State()), leaf, old(Height())))
    {
      leaf := FindLeaf(key);
      if nodes[leaf].numKey >= MaxSize() {
        leaf := FindLeaf(key);
      }
      assert State().pages[leaf] == nodes[leaf].View() && State() == old(State()) && Height() == old(Height());
      StoreAndSettle(leaf, key, value, asWritten, m);
    }

    /** Insertion into the leaf, then splits if it went over the maximum; a leaf with room just takes the pair. */
    method StoreAndSettle(p: PageId, key: int, value: Rid, asWritten: bool, ghost m: map<int, Rid>)
      requires Holds(m) && p in nodes && nodes[p].isLeaf && p in shape && InRange(shape[p], key)
      requires asWritten ==> forall k :: k in m ==> k < key
      modifies this, Repr
      ensures OnlyNewBuffers() && Holds(if key in m then m else m[key := value])
      ensures p in old(State()).pages
      ensures ContentKept(old(State()), State(), Touched(old(State()), p, old(Height())))
    {
      ghost var m' := if key in m then m else m[key := value];
      ghost var ix, g := State(), shape;
      if asWritten { LargestKeyGoesLast(ix, g, m, p, key); }
      StoreInLeaf(p, key, value, m);
      ghost var ix1 := State();
      LeafLevel(ix, g, p);
      SettlePage(p, asWritten, m', shape[root].level);
      assert SettledFrom(ix1, p, State(), g[ix.root].level);
      InsertionIsConfined(ix, g, p, ix1.pages[p], State(), g[ix.root].level);
    }

    static lemma LeafLevel(ix: Index, g: Shape, p: PageId)
      requires Inv(ix, g, NoHole, NoPage) && p in ix.pages && ix.pages[p].isLeaf
      ensures p in g && g[p].level == 0
    {
      assert NodeOk(ix, g, p);
    }

    /** A key above every stored key belongs to the last leaf, whose range has no upper end. */
    static lemma LargestKeyGoesLast(ix: Index, g: Shape, m: map<int, Rid>, p: PageId, key: int)
      requires TreeOf(ix, g, m) && p in ix.pages && ix.pages[p].isLeaf && p in g && InRange(g[p], key)
      requires forall k :: k in m ==> k < key
      ensures g[p].hi.Unbounded?
    {
      if g[p].hi.At? {
        var k := NextLeafKey(ix, g, m, p);
      }
    }

    /** Removal while the leaf stays at or above its minimum; otherwise nothing is done and
        the caller has to take the path with merges. `p` is the leaf that covers the key. */
    method DeleteEntryFast(key: int, ghost m: map<int, Rid>) returns (done: bool, removed: bool, p: PageId)
      requires Holds(m)
      modifies this, Repr
      ensures Repr == old(Repr) && Holds(if done then m - {key} else m)
      ensures shape == old(shape) && LeafFor(old(State()), shape, p, key)
      ensures done <==> MinSize() < |old(State()).pages[p].keys|
      ensures removed <==> done && key in m
      ensures !done ==> State() == old(State())
    {
      p := FindLeaf(key);
      assert State().pages[p] == nodes[p].View();
      LeafFacts(State(), shape, p);
      if nodes[p].numKey > MinSize() {
        assert StoresPart(State(), shape, m, p);
        LeafRemoveFromTree(State(), shape, m, p, key);
        var size := nodes[p].numKey;
        RemoveFromLeaf(p, key);
        assert State().pages[p] == nodes[p].View();
        removed := nodes[p].numKey != size;
        done := true;
      } else {
        done, removed := false, false;
      }
    }

    static ghost predicate LeafFor(ix: Index, g: Shape, p: PageId, key: int) {
      p in ix.pages && ix.pages[p].isLeaf && p in g && InRange(g[p], key)
    }

    /** There is one such leaf. */
    static lemma OneLeafFor(ix: Index, g: Shape, p: PageId, q: PageId, key: int)
      requires Inv(ix, g, NoHole, NoPage) && LeafFor(ix, g, p, key) && LeafFor(ix, g, q, key)
      ensures p == q
    {
      assert NodeOk(ix, g, p) && NodeOk(ix, g, q);
      SameLevelDisjoint(ix, g, p, q, key);
    }

    /** Removal: the short path, and if it is closed the exclusive one, up to the point where a leaf
        that lost its key is too small; `settled` says that it did not come to that. */
    method DeleteEntry(key: int, ghost m: map<int, Rid>) returns (settled: bool, removed: bool, p: PageId)
      requires Holds(m)
      modifies this, Repr
      ensures Repr == old(Repr) && Holds(if settled then m - {key} else m)
      ensures shape == old(shape) && LeafFor(old(State()), shape, p, key)
      ensures settled <==> key !in m || MinSize() < |old(State()).pages[p].keys|
                           || (p == old(root) && 1 < |old(State()).pages[p].keys|)
      ensures removed <==> settled && key in m
      ensures !settled ==> State() == old(State())
    {
      settled, removed, p := DeleteEntryFast(key, m);
      if !settled {
        ghost var q := p;
        settled, removed, p := DeleteExclusive(key, m);
        OneLeafFor(old(State()), old(shape), p, q, key);
      }
    }

    /** The exclusive path, which descends again. */
    method DeleteExclusive(key: int, ghost m: map<int, Rid>) returns (settled: bool, removed: bool, p: PageId)
      requires Holds(m)
      modifies this, Repr
      ensures Repr == old(Repr) && shape == old(shape) && Holds(if settled then m - {key} else m)
      ensures LeafFor(old(State()), shape, p, key)
      ensures settled <==> key !in m || (p == old(root) && 1 < |old(State()).pages[p].keys|)
      ensures removed <==> settled && key in m
      ensures !settled ==> State() == old(State())
    {
      p := FindLeaf(key);
      assert State().pages[p] == nodes[p].View();
      assert StoresPart(State(), shape, m, p);
      LeafFacts(State(), shape, p);
      var found, _ := nodes[p].LeafLookup(key);
      if !found {
        assert m - {key} == m;
        return true, false, p;
      }
      if p != root || nodes[p].numKey == 1 {
        return false, false, p;
      }
      LeafRemoveFromTree(State(), shape, m, p, key);
      RemoveFromLeaf(p, key);
      return true, true, p;
    }
  }
}
