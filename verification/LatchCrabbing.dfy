/** The write-latching descent: which pages it still holds when it reaches the leaf. */
module LatchCrabbing {
  import opened IndexPages
  import opened BPlusTree
  import opened TreePaths
  import opened IndexNode
  import opened IndexHandle

  /** A page that may split under an insertion, or shrink below its minimum under a removal. */
  predicate Unsafe(ix: Index, p: PageId, forInsert: bool) {
    p in ix.pages &&
    if forInsert then |ix.pages[p].keys| >= ix.MaxSize() else |ix.pages[p].keys| <= ix.MinSize()
  }

  function PagesOf(s: seq<PageId>): set<PageId> {
    set p | p in s
  }

  /** `kept` followed by `node` is a downward path; below its top every page is unsafe, and its
      top is the root or safe. */
  ghost predicate UnsafePath(ix: Index, kept: seq<PageId>, node: PageId, forInsert: bool)
    decreases |kept|
  {
    && node in ix.pages
    && if kept == [] then node == ix.root || !Unsafe(ix, node, forInsert)
       else
         var last := kept[|kept| - 1];
         Unsafe(ix, node, forInsert) && ix.pages[node].parent == last && UnsafePath(ix, kept[..|kept| - 1], last, forInsert)
  }

  /** The latches held are those of the path and no others. */
  ghost predicate Holding(latched: set<PageId>, kept: seq<PageId>, node: PageId) {
    latched == PagesOf(kept) + {node}
  }

  lemma PathGrows(ix: Index, kept: seq<PageId>, node: PageId, child: PageId, forInsert: bool)
    requires UnsafePath(ix, kept, node, forInsert) && child in ix.pages && ix.pages[child].parent == node
    ensures Unsafe(ix, child, forInsert) ==> UnsafePath(ix, kept + [node], child, forInsert)
    ensures !Unsafe(ix, child, forInsert) ==> UnsafePath(ix, [], child, forInsert)
    ensures PagesOf(kept + [node]) == PagesOf(kept) + {node}
  {
    assert (kept + [node])[..|kept|] == kept;
  }

  /** The pages a split of `node` reaches are exactly the retained ancestors. */
  lemma {:induction false} ChainIsRetained(ix: Index, kept: seq<PageId>, node: PageId, n: nat)
    requires UnsafePath(ix, kept, node, true) && |kept| <= n
    requires kept != [] || node == ix.root
    requires ix.root in ix.pages && ix.pages[ix.root].parent !in ix.pages
    ensures UpChain(ix, node, n) == PagesOf(kept)
    decreases n
  {
    if kept != [] {
      var x, rest := kept[|kept| - 1], kept[..|kept| - 1];
      assert PagesOf(kept) == PagesOf(rest) + {x} by {
        assert kept == rest + [x];
        PathGrows(ix, rest, x, node, true);
      }
      if rest != [] || x == ix.root {
        ChainIsRetained(ix, rest, x, n - 1);
      }
    }
  }

  /** Facts about one descent step. */
  lemma DescentStep(ix: Index, g: Shape, node: PageId, key: int)
    requires Inv(ix, g, NoHole, NoPage) && node in ix.pages && node in g && !ix.pages[node].isLeaf && InRange(g[node], key)
    ensures WellShaped(ix.pages[node])
    ensures var c := ix.pages[node].rids[UpperBound(ix.pages[node].keys, key)].pageNo;
            c in ix.pages && c in g && InRange(g[c], key) && ix.pages[c].parent == node && g[c].level + 1 == g[node].level
  {
    assert NodeOk(ix, g, node) && ChildrenOk(ix, g, NoHole, node);
    assert ChildOk(ix, g, NoHole, node, UpperBound(ix.pages[node].keys, key));
  }

  lemma RootRange(ix: Index, g: Shape, key: int)
    requires Inv(ix, g, NoHole, NoPage)
    ensures ix.root in g && InRange(g[ix.root], key) && ix.pages[ix.root].parent !in ix.pages
  {
    assert ParentOk(ix, g, NoHole, ix.root);
  }

  /** The latching descent: the child is latched while its parent is held, and all latches
      above are dropped as soon as the child is safe. */
  method CrabbingFindLeaf(ih: IxIndex, key: int, forInsert: bool)
      returns (leaf: PageId, retained: seq<PageId>, latched: set<PageId>)
    requires ih.Valid() && Inv(ih.State(), ih.shape, NoHole, NoPage)
    ensures leaf in ih.State().pages && ih.State().pages[leaf].isLeaf && leaf in ih.shape && InRange(ih.shape[leaf], key)
    ensures Holding(latched, retained, leaf) && UnsafePath(ih.State(), retained, leaf, forInsert)
    ensures |retained| <= ih.Height()
  {
    ghost var ix, g := ih.State(), ih.shape;
    RootRange(ix, g, key);
    var node := ih.root;
    retained, latched := [], {node};
    while !ih.nodes[node].isLeaf
      invariant node in ix.pages && node in g && InRange(g[node], key)
      invariant Holding(latched, retained, node) && UnsafePath(ix, retained, node, forInsert)
      invariant |retained| + g[node].level <= g[ix.root].level
      invariant forall r :: r in latched ==> r in g && g[node].level <= g[r].level
      decreases g[node].level
    {
      assert ix.pages[node] == ih.nodes[node].View();
      DescentStep(ix, g, node, key);
      var child := ih.nodes[node].InternalLookup(key);
      assert ix.pages[child] == ih.nodes[child].View();
      latched := latched + {child};
      var size := ih.nodes[child].numKey;
      PathGrows(ix, retained, node, child, forInsert);
      if if forInsert then size < ih.MaxSize() else size > ih.MinSize() {
        latched := Unlatch(latched, retained);
        retained := [];
        latched := latched - {node};
      } else {
        retained := retained + [node];
      }
      node := child;
    }
    leaf := node;
  }

  method Unlatch(latched: set<PageId>, pages: seq<PageId>) returns (rest: set<PageId>)
    ensures rest == latched - PagesOf(pages)
  {
    rest := latched;
    for i := 0 to |pages|
      invariant rest == latched - PagesOf(pages[..i])
    {
      rest := rest - {pages[i]};
      assert pages[..i + 1] == pages[..i] + [pages[i]];
    }
    assert pages[..|pages|] == pages;
  }

  /** For an insertion the latches held at the leaf are exactly the pages whose keys the
      insertion may change. */
  lemma LatchedIsTouched(ix: Index, g: Shape, latched: set<PageId>, retained: seq<PageId>, leaf: PageId, height: nat)
    requires Inv(ix, g, NoHole, NoPage) && height == g[ix.root].level && |retained| <= height
    requires Holding(latched, retained, leaf) && UnsafePath(ix, retained, leaf, true)
    ensures leaf in ix.pages && latched == Touched(ix, leaf, height)
  {
    RootRange(ix, g, 0);
    if retained != [] || leaf == ix.root {
      ChainIsRetained(ix, retained, leaf, height);
    }
  }

  /** An insertion after the latching descent changes keys only in latched or new pages. */
  method InsertUnderLatches(ih: IxIndex, key: int, value: Rid, ghost m: map<int, Rid>) returns (leaf: PageId, latched: set<PageId>)
    requires ih.Holds(m)
    modifies ih, ih.Repr
    ensures ih.Holds(if key in m then m else m[key := value])
    ensures leaf in latched && ContentKept(old(ih.State()), ih.State(), latched)
  {
    var retained;
    leaf, retained, latched := CrabbingFindLeaf(ih, key, true);
    LatchedIsTouched(ih.State(), ih.shape, latched, retained, leaf, ih.Height());
    var p := ih.InsertEntryWith(key, value, false, m);
    SameLeaf(old(ih.State()), old(ih.shape), leaf, p, key);
  }

  lemma SameLeaf(ix: Index, g: Shape, p: PageId, q: PageId, key: int)
    requires Inv(ix, g, NoHole, NoPage) && p in ix.pages && q in ix.pages && ix.pages[p].isLeaf && ix.pages[q].isLeaf
    requires p in g && q in g && InRange(g[p], key) && InRange(g[q], key)
    ensures p == q
  {
    assert NodeOk(ix, g, p) && NodeOk(ix, g, q);
    SameLevelDisjoint(ix, g, p, q, key);
  }
}
