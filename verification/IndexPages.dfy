/** Pages of the B+ tree index as values: the in-node searches, the node-level
    edits, and the page contents before and after a split.

    A key is an `int`: the position of the key bytes in the order of `ix_compare`
    (KeyOrder proves that order to be an integer order). */
module IndexPages {

  type PageId = int

  const NO_PAGE: PageId := -1
  const LEAF_HEADER: PageId := 1
  const INIT_ROOT: PageId := 2
  const INIT_NUM_PAGES: nat := 3

  datatype Rid = Rid(pageNo: PageId, slotNo: int)

  /** A page of the tree. A leaf has one rid per key; an internal page has one
      more child than keys, child i holding the keys in [keys[i-1], keys[i]). */
  datatype Page = Page(isLeaf: bool, parent: PageId, prev: PageId, next: PageId,
                       keys: seq<int>, rids: seq<Rid>)

  ghost predicate Sorted(s: seq<int>) {
    forall i, j :: 0 <= i < j < |s| ==> s[i] < s[j]
  }

  ghost predicate WellShaped(n: Page) {
    && |n.rids| == (if n.isLeaf then |n.keys| else |n.keys| + 1)
    && Sorted(n.keys)
  }

  /** First position whose key is not below `k`; specification of the node's binary search. */
  function LowerBound(s: seq<int>, k: int): (p: nat)
    ensures p <= |s|
    ensures forall i :: 0 <= i < p ==> s[i] < k
    ensures p < |s| ==> k <= s[p]
  {
    if s == [] || k <= s[0] then 0 else 1 + LowerBound(s[1..], k)
  }

  /** First position whose key is above `k`. */
  function UpperBound(s: seq<int>, k: int): (p: nat)
    ensures p <= |s|
    ensures forall i :: 0 <= i < p ==> s[i] <= k
    ensures p < |s| ==> k < s[p]
  {
    if s == [] || k < s[0] then 0 else 1 + UpperBound(s[1..], k)
  }

  /** In a sorted node each search result is the only position with its property. */
  lemma LowerBoundUnique(s: seq<int>, k: int, p: nat)
    requires Sorted(s) && p <= |s|
    ensures p == LowerBound(s, k) <==> (forall i :: 0 <= i < p ==> s[i] < k) && (forall i :: p <= i < |s| ==> k <= s[i])
  {
    var b := LowerBound(s, k);
    if p < b {
      assert s[p] < k;
    } else if b < p {
      assert k <= s[b];
    }
  }

  lemma UpperBoundUnique(s: seq<int>, k: int, p: nat)
    requires Sorted(s) && p <= |s|
    ensures p == UpperBound(s, k) <==> (forall i :: 0 <= i < p ==> s[i] <= k) && (forall i :: p <= i < |s| ==> k < s[i])
  {
    var b := UpperBound(s, k);
    if p < b {
      assert s[p] <= k;
    } else if b < p {
      assert k < s[b];
    }
  }

  lemma LowerBoundFinds(s: seq<int>, k: int)
    requires Sorted(s)
    ensures k in s <==> LowerBound(s, k) < |s| && s[LowerBound(s, k)] == k
  {
    var b := LowerBound(s, k);
    if b < |s| && s[b] != k {
      forall i | b <= i < |s| ensures s[i] != k { assert s[b] <= s[i]; }
    }
  }

  function InsertAt<T>(s: seq<T>, i: nat, x: T): (r: seq<T>)
    requires i <= |s|
  {
    s[..i] + [x] + s[i..]
  }

  function RemoveAt<T>(s: seq<T>, i: nat): (r: seq<T>)
    requires i < |s|
  {
    s[..i] + s[i + 1..]
  }

  /** Node-level insert-if-absent on a leaf. */
  function LeafInsert(n: Page, k: int, v: Rid): (r: Page)
    requires n.isLeaf && WellShaped(n)
    ensures r.isLeaf && WellShaped(r)
    ensures r == n.(keys := r.keys, rids := r.rids)
    ensures forall x :: x in r.keys <==> x in n.keys || x == k
    ensures |r.keys| == if k in n.keys then |n.keys| else |n.keys| + 1
  {
    var pos := LowerBound(n.keys, k);
    if pos < |n.keys| && n.keys[pos] == k then n
    else
      var r := n.(keys := InsertAt(n.keys, pos, k), rids := InsertAt(n.rids, pos, v));
      assert k !in n.keys;
      assert forall x :: x in n.keys ==> x in n.keys[..pos] || x in n.keys[pos..];
      r
  }

  lemma RemovedElements(s: seq<int>, i: nat)
    requires i < |s|
    ensures var r := RemoveAt(s, i);
            |r| == |s| - 1 && forall j :: 0 <= j < |r| ==> r[j] == s[if j < i then j else j + 1]
  {
  }

  /** Node-level removal on a leaf. */
  function LeafRemove(n: Page, k: int): (r: Page)
    requires n.isLeaf && WellShaped(n)
    ensures r.isLeaf && WellShaped(r)
    ensures r == n.(keys := r.keys, rids := r.rids)
    ensures forall x :: x in r.keys <==> x in n.keys && x != k
    ensures |r.keys| == if k in n.keys then |n.keys| - 1 else |n.keys|
  {
    var pos := LowerBound(n.keys, k);
    if pos < |n.keys| && n.keys[pos] == k then
      var r := n.(keys := RemoveAt(n.keys, pos), rids := RemoveAt(n.rids, pos));
      RemovedElements(n.keys, pos);
      assert forall i :: 0 <= i < |n.keys| && i != pos ==> n.keys[i] == r.keys[if i < pos then i else i - 1];
      assert Sorted(r.keys);
      r
    else
      assert k !in n.keys;
      n
  }

  /** The value a leaf stores under a key it holds. */
  function LeafValue(n: Page, k: int): (v: Rid)
    requires n.isLeaf && WellShaped(n) && k in n.keys
  {
    var pos := LowerBound(n.keys, k);
    assert pos < |n.keys| && n.keys[pos] == k;
    n.rids[pos]
  }

  lemma LeafValueAt(n: Page, i: nat)
    requires n.isLeaf && WellShaped(n) && i < |n.keys|
    ensures LeafValue(n, n.keys[i]) == n.rids[i]
  {
    LowerBoundUnique(n.keys, n.keys[i], i);
  }

  /** Insertion keeps the value of every other key, and the stored value of `k` itself. */
  lemma LeafInsertValues(n: Page, k: int, v: Rid, x: int)
    requires n.isLeaf && WellShaped(n) && x in LeafInsert(n, k, v).keys
    ensures LeafValue(LeafInsert(n, k, v), x) == if x in n.keys then LeafValue(n, x) else v
  {
    var r := LeafInsert(n, k, v);
    var pos := LowerBound(n.keys, k);
    if x in n.keys {
      var i :| 0 <= i < |n.keys| && n.keys[i] == x;
      LeafValueAt(n, i);
      if r != n {
        var j := if i < pos then i else i + 1;
        assert r.keys[j] == x && r.rids[j] == n.rids[i];
        LeafValueAt(r, j);
      }
    } else {
      assert r.keys[pos] == x && r.rids[pos] == v;
      LeafValueAt(r, pos);
    }
  }

  lemma LeafRemoveValues(n: Page, k: int, x: int)
    requires n.isLeaf && WellShaped(n) && x in n.keys && x != k
    ensures LeafValue(LeafRemove(n, k), x) == LeafValue(n, x)
  {
    var r := LeafRemove(n, k);
    var pos := LowerBound(n.keys, k);
    var i :| 0 <= i < |n.keys| && n.keys[i] == x;
    LeafValueAt(n, i);
    if r != n {
      var j := if i < pos then i else i - 1;
      assert r.keys[j] == x && r.rids[j] == n.rids[i];
      LeafValueAt(r, j);
    }
  }

  /** A separator and the page to its right enter an internal page just after child `i`. */
  function ChildInsert(n: Page, i: nat, sep: int, right: PageId): (r: Page)
    requires !n.isLeaf && |n.rids| == |n.keys| + 1 && i <= |n.keys|
  {
    n.(keys := InsertAt(n.keys, i, sep), rids := InsertAt(n.rids, i + 1, Rid(right, 0)))
  }

  // ---- split --------------------------------------------------------------

  function Mid(n: Page): nat { |n.keys| / 2 }

  /** The key that goes up when `n` is split. */
  function Separator(n: Page): int
    requires |n.keys| > 0
  {
    n.keys[Mid(n)]
  }

  function LeftHalf(n: Page, q: PageId): Page
    requires WellShaped(n)
  {
    if n.isLeaf then n.(keys := n.keys[..Mid(n)], rids := n.rids[..Mid(n)], next := q)
    else n.(keys := n.keys[..Mid(n)], rids := n.rids[..Mid(n) + 1])
  }

  function RightHalf(n: Page, p: PageId): Page
    requires WellShaped(n) && |n.keys| > 0
  {
    if n.isLeaf then Page(true, n.parent, p, n.next, n.keys[Mid(n)..], n.rids[Mid(n)..])
    else Page(false, n.parent, NO_PAGE, NO_PAGE, n.keys[Mid(n) + 1..], n.rids[Mid(n) + 1..])
  }

  // ---- the parent update as written ---------------------------------------

  /** The parent update as the code performs it: an append for the rightmost child, and
      otherwise an insertion of the pair one slot past the child. `stale` is whatever the
      child array held beyond its last child. */
  function ChildInsertAsWritten(n: Page, i: nat, sep: int, right: PageId, stale: Rid): (r: Page)
    requires !n.isLeaf && |n.rids| == |n.keys| + 1 && i <= |n.keys|
  {
    var size := |n.keys|;
    if i == size then n.(keys := n.keys + [sep], rids := n.rids + [Rid(right, 0)])
    else n.(keys := n.keys[..i + 1] + [sep] + n.keys[i + 1..],
            rids := n.rids[..i + 1] + [Rid(right, 0)] + n.rids[i + 1..size] + [stale])
  }

  /** As written, the parent's keys stay in order exactly when the child that was split is
      the rightmost one; then, and only then, the result is the documented layout. */
  lemma AsWrittenIffRightmost(n: Page, i: nat, sep: int, right: PageId, stale: Rid)
    requires !n.isLeaf && WellShaped(n) && i <= |n.keys|
    requires (0 < i ==> n.keys[i - 1] < sep) && (i < |n.keys| ==> sep < n.keys[i])
    ensures Sorted(ChildInsertAsWritten(n, i, sep, right, stale).keys) <==> i == |n.keys|
    ensures ChildInsertAsWritten(n, i, sep, right, stale) == ChildInsert(n, i, sep, right) <==> i == |n.keys|
    ensures Sorted(ChildInsert(n, i, sep, right).keys)
  {
    var lit, doc := ChildInsertAsWritten(n, i, sep, right, stale), ChildInsert(n, i, sep, right);
    forall a, b | 0 <= a < b < |doc.keys| ensures doc.keys[a] < doc.keys[b] {
      if 0 < i && a < i { assert n.keys[a] <= n.keys[i - 1]; }
      if i < |n.keys| && i < b { assert n.keys[i] <= n.keys[b - 1]; }
    }
    if i < |n.keys| {
      assert lit.keys[i] == n.keys[i] && lit.keys[i + 1] == sep && doc.keys[i] == sep;
    } else {
      assert lit.keys == doc.keys && lit.rids == doc.rids;
    }
  }

  /** A parent with keys 10, 20 whose first child splits at 5: the last child (page 8) is lost. */
  lemma AsWrittenLosesChild(stale: Rid)
    requires stale.pageNo != 8
    ensures var n := Page(false, NO_PAGE, NO_PAGE, NO_PAGE, [10, 20], [Rid(6, 0), Rid(7, 0), Rid(8, 0)]);
            var r := ChildInsertAsWritten(n, 0, 5, 9, stale);
            r.keys == [10, 5, 20] && r.rids == [Rid(6, 0), Rid(9, 0), Rid(7, 0), stale]
  {
    var n := Page(false, NO_PAGE, NO_PAGE, NO_PAGE, [10, 20], [Rid(6, 0), Rid(7, 0), Rid(8, 0)]);
    assert n.keys[..1] == [10] && n.keys[1..] == [20];
    assert n.rids[..1] == [Rid(6, 0)] && n.rids[1..2] == [Rid(7, 0)];
  }
}
