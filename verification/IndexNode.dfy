/** One page of the index in memory: key and rid arrays that are shifted in place. */
module IndexNode {
  import opened IndexPages

  class IxNode {
    var isLeaf: bool
    var numKey: nat
    var parent: PageId
    var prev: PageId
    var next: PageId
    const keys: array<int>
    const rids: array<Rid>

    /** A page buffer has room for one key more than `maxSize`, and one child more than that. */
    constructor (maxSize: nat, leaf: bool)
      ensures Valid() && Room() == maxSize + 1
      ensures isLeaf == leaf && numKey == 0 && parent == NO_PAGE && prev == NO_PAGE && next == NO_PAGE
      ensures fresh(keys) && fresh(rids)
    {
      keys := new int[maxSize + 1];
      rids := new Rid[maxSize + 2](_ => Rid(NO_PAGE, 0));
      isLeaf, numKey, parent, prev, next := leaf, 0, NO_PAGE, NO_PAGE, NO_PAGE;
    }

    /** An internal page with one separator between two children. */
    constructor AsRoot(maxSize: nat, left: PageId, sep: int, right: PageId)
      ensures Valid() && Room() == maxSize + 1
      ensures View() == Page(false, NO_PAGE, NO_PAGE, NO_PAGE, [sep], [Rid(left, 0), Rid(right, 0)])
      ensures fresh(keys) && fresh(rids)
    {
      keys := new int[maxSize + 1];
      rids := new Rid[maxSize + 2](_ => Rid(NO_PAGE, 0));
      isLeaf, numKey, parent, prev, next := false, 1, NO_PAGE, NO_PAGE, NO_PAGE;
      new;
      keys[0] := sep;
      rids[0] := Rid(left, 0);
      rids[1] := Rid(right, 0);
    }

    function Room(): nat { keys.Length }

    ghost predicate Valid()
      reads this
    {
      && numKey <= keys.Length
      && rids.Length == keys.Length + 1
    }

    function RidCount(): nat
      reads this
    {
      if isLeaf then numKey else numKey + 1
    }

    /** The page this node holds. */
    ghost function View(): Page
      requires Valid()
      reads this, keys, rids
    {
      Page(isLeaf, parent, prev, next, keys[..numKey], rids[..RidCount()])
    }

    // ---- search -----------------------------------------------------------

    method FindLower(target: int) returns (lo: nat)
      requires Valid() && Sorted(keys[..numKey])
      ensures lo == LowerBound(keys[..numKey], target)
    {
      lo := 0;
      var hi := numKey;
      while lo < hi
        invariant 0 <= lo <= hi <= numKey
        invariant forall i :: 0 <= i < lo ==> keys[i] < target
        invariant forall i :: hi <= i < numKey ==> target <= keys[i]
      {
        var mid := lo + (hi - lo) / 2;
        assert keys[..numKey][mid] == keys[mid];
        if keys[mid] < target {
          forall i | 0 <= i < mid ensures keys[i] < keys[mid] { assert keys[..numKey][i] < keys[..numKey][mid]; }
          lo := mid + 1;
        } else {
          forall i | mid < i < numKey ensures keys[mid] < keys[i] { assert keys[..numKey][mid] < keys[..numKey][i]; }
          hi := mid;
        }
      }
      LowerBoundUnique(keys[..numKey], target, lo);
    }

    method FindUpper(target: int) returns (lo: nat)
      requires Valid() && Sorted(keys[..numKey])
      ensures lo == UpperBound(keys[..numKey], target)
    {
      lo := 0;
      var hi := numKey;
      while lo < hi
        invariant 0 <= lo <= hi <= numKey
        invariant forall i :: 0 <= i < lo ==> keys[i] <= target
        invariant forall i :: hi <= i < numKey ==> target < keys[i]
      {
        var mid := lo + (hi - lo) / 2;
        assert keys[..numKey][mid] == keys[mid];
        if keys[mid] <= target {
          forall i | 0 <= i < mid ensures keys[i] < keys[mid] { assert keys[..numKey][i] < keys[..numKey][mid]; }
          lo := mid + 1;
        } else {
          forall i | mid < i < numKey ensures keys[mid] < keys[i] { assert keys[..numKey][mid] < keys[..numKey][i]; }
          hi := mid;
        }
      }
      UpperBoundUnique(keys[..numKey], target, lo);
    }

    /** Whether the leaf holds the key, and the rid stored under it. */
    method LeafLookup(key: int) returns (found: bool, rid: Rid)
      requires Valid() && isLeaf && WellShaped(View())
      ensures found <==> key in View().keys
      ensures found ==> rid == LeafValue(View(), key)
    {
      LowerBoundFinds(View().keys, key);
      var pos := FindLower(key);
      found, rid := pos < numKey && keys[pos] == key, rids[0];
      if found { rid := rids[pos]; }
    }

    /** The child whose range holds the key. */
    method InternalLookup(key: int) returns (child: PageId)
      requires Valid() && !isLeaf && WellShaped(View())
      ensures child == View().rids[UpperBound(View().keys, key)].pageNo
    {
      var pos := FindUpper(key);
      child := rids[pos].pageNo;
    }

    // ---- edits ------------------------------------------------------------

    /** Opens a gap of `n` slots at `pos` by moving the rest right, from the end. */
    static method ShiftRight<T>(a: array<T>, pos: nat, len: nat, n: nat)
      requires pos <= len && len + n <= a.Length
      modifies a
      ensures a[..pos] == old(a[..pos])
      ensures a[pos + n..len + n] == old(a[pos..len])
      ensures a[len + n..] == old(a[len + n..])
    {
      var i := len;
      while pos < i
        invariant pos <= i <= len
        invariant a[..i] == old(a[..i])
        invariant a[i + n..len + n] == old(a[i..len])
        invariant a[len + n..] == old(a[len + n..])
      {
        i := i - 1;
        a[i + n] := a[i];
      }
    }

    static method ShiftLeft<T>(a: array<T>, pos: nat, len: nat)
      requires pos < len <= a.Length
      modifies a
      ensures a[..pos] == old(a[..pos])
      ensures a[pos..len - 1] == old(a[pos + 1..len])
    {
      var i := pos;
      while i + 1 < len
        invariant pos <= i < len
        invariant a[..pos] == old(a[..pos])
        invariant forall k :: pos <= k < i ==> a[k] == old(a[k + 1])
        invariant forall k :: i <= k < a.Length ==> a[k] == old(a[k])
      {
        a[i] := a[i + 1];
        i := i + 1;
      }
    }

    /** Closes the gap of one element. */
    static method TakeAt<T>(a: array<T>, pos: nat, len: nat)
      requires pos < len <= a.Length
      modifies a
      ensures a[..len - 1] == RemoveAt(old(a[..len]), pos)
    {
      ghost var s := a[..len];
      ShiftLeft(a, pos, len);
      assert a[pos..len - 1] == s[pos + 1..];
      assert a[..len - 1] == a[..pos] + a[pos..len - 1];
    }

    /** Opens a gap for one element and fills it. */
    static method PutAt<T>(a: array<T>, pos: nat, len: nat, x: T)
      requires pos <= len < a.Length
      modifies a
      ensures a[..len + 1] == InsertAt(old(a[..len]), pos, x)
    {
      ghost var s := a[..len];
      ShiftRight(a, pos, len, 1);
      assert a[pos + 1..len + 1] == s[pos..];
      a[pos] := x;
      assert a[..pos] == s[..pos];
    }

    static method CopyIn<T>(a: array<T>, pos: nat, xs: seq<T>)
      requires pos + |xs| <= a.Length
      modifies a
      ensures a[..pos] == old(a[..pos]) && a[pos..pos + |xs|] == xs && a[pos + |xs|..] == old(a[pos + |xs|..])
    {
      var i := 0;
      while i < |xs|
        invariant i <= |xs|
        invariant a[..pos] == old(a[..pos])
        invariant a[pos..pos + i] == xs[..i]
        invariant a[pos + i..] == old(a[pos + i..])
      {
        a[pos + i] := xs[i];
        i := i + 1;
      }
    }

    /** Opens a gap and fills it. */
    static method PutAll<T>(a: array<T>, pos: nat, len: nat, xs: seq<T>)
      requires pos <= len && len + |xs| <= a.Length
      modifies a
      ensures a[..len + |xs|] == old(a[..pos]) + xs + old(a[pos..len])
      ensures a[len + |xs|..] == old(a[len + |xs|..])
    {
      var n := |xs|;
      ghost var low, high, rest := a[..pos], a[pos..len], a[len + n..];
      ShiftRight(a, pos, len, n);
      ghost var tail := a[pos + n..];
      assert tail == high + rest;
      CopyIn(a, pos, xs);
      assert a[pos + n..] == tail;
      assert a[pos + n..len + n] == high && a[len + n..] == rest;
      assert a[..len + n] == a[..pos] + a[pos..pos + n] + a[pos + n..len + n];
    }

    /** Inserts consecutive pairs at `pos`. The rid array keeps whatever lay past the
        shifted part; for an internal page that is why the caller must place the last child. */
    method InsertPairs(pos: nat, ks: seq<int>, rs: seq<Rid>)
      requires Valid() && pos <= numKey && |ks| == |rs| && numKey + |ks| <= Room()
      modifies this`numKey, keys, rids
      ensures Valid() && numKey == old(numKey) + |ks|
      ensures keys[..numKey] == old(keys[..pos]) + ks + old(keys[pos..numKey])
      ensures rids[..numKey] == old(rids[..pos]) + rs + old(rids[pos..numKey])
      ensures rids[numKey..] == old(rids[numKey + |ks|..])
    {
      PutAll(keys, pos, numKey, ks);
      PutAll(rids, pos, numKey, rs);
      numKey := numKey + |ks|;
    }

    method InsertPair(pos: nat, k: int, r: Rid)
      requires Valid() && pos <= numKey < Room()
      modifies this`numKey, keys, rids
      ensures Valid() && numKey == old(numKey) + 1
      ensures keys[..numKey] == InsertAt(old(keys[..numKey]), pos, k)
      ensures rids[..numKey] == InsertAt(old(rids[..numKey]), pos, r)
      ensures rids[numKey..] == old(rids[numKey + 1..])
    {
      InsertPairs(pos, [k], [r]);
    }

    /** Insert-if-absent on a leaf; returns the number of pairs. */
    method Insert(key: int, value: Rid) returns (size: nat)
      requires Valid() && isLeaf && WellShaped(View()) && numKey < Room()
      modifies this`numKey, keys, rids
      ensures Valid() && View() == LeafInsert(old(View()), key, value)
      ensures size == |View().keys|
    {
      var pos := FindLower(key);
      if pos < numKey && keys[pos] == key {
        return numKey;
      }
      InsertPair(pos, key, value);
      return numKey;
    }

    method ErasePair(pos: nat)
      requires Valid() && pos < numKey
      modifies this`numKey, keys, rids
      ensures Valid() && numKey == old(numKey) - 1
      ensures keys[..numKey] == RemoveAt(old(keys[..numKey]), pos)
      ensures rids[..numKey] == RemoveAt(old(rids[..numKey]), pos)
    {
      if pos + 1 < numKey {
        TakeAt(keys, pos, numKey);
        TakeAt(rids, pos, numKey);
      }
      numKey := numKey - 1;
    }

    /** Removes a key from a leaf if it is there; returns the number of pairs. */
    method Remove(key: int) returns (size: nat)
      requires Valid() && isLeaf && WellShaped(View())
      modifies this`numKey, keys, rids
      ensures Valid() && View() == LeafRemove(old(View()), key)
      ensures size == |View().keys|
    {
      var pos := FindLower(key);
      if pos < numKey && keys[pos] == key {
        ErasePair(pos);
      }
      return numKey;
    }

    /** Slot of a child page; the number of slots when it is not a child. */
    method FindChildSlot(c: PageId) returns (i: nat)
      requires Valid()
      ensures i <= RidCount()
      ensures i < RidCount() ==> rids[i].pageNo == c
      ensures forall j :: 0 <= j < i ==> rids[j].pageNo != c
    {
      i := 0;
      while i < RidCount() && rids[i].pageNo != c
        invariant i <= RidCount()
        invariant forall j :: 0 <= j < i ==> rids[j].pageNo != c
      {
        i := i + 1;
      }
    }

    /** A new buffer with the right half of this leaf, linked behind page `p`. */
    method RightHalfLeaf(p: PageId) returns (b: IxNode)
      requires Valid() && isLeaf && WellShaped(View()) && 0 < numKey && 0 < Room()
      ensures fresh(b) && fresh(b.keys) && fresh(b.rids)
      ensures b.Valid() && b.Room() == Room() && b.View() == RightHalf(View(), p)
    {
      b := new IxNode(Room() - 1, true);
      var mid := numKey / 2;
      b.InsertPairs(0, keys[mid..numKey], rids[mid..numKey]);
      b.parent, b.prev, b.next := parent, p, next;
      assert b.View().keys == View().keys[mid..] && b.View().rids == View().rids[mid..];
    }

    /** A new buffer with the right half of this internal page; the middle key stays out,
        and the last child has to be placed on its own. */
    method RightHalfInternal(p: PageId) returns (b: IxNode)
      requires Valid() && !isLeaf && WellShaped(View()) && 0 < numKey && 0 < Room()
      ensures fresh(b) && fresh(b.keys) && fresh(b.rids)
      ensures b.Valid() && b.Room() == Room() && b.View() == RightHalf(View(), p)
    {
      var mid := numKey / 2;
      ghost var n := View();
      assert n.keys[mid + 1..] == keys[mid + 1..numKey] && n.rids[mid + 1..] == rids[mid + 1..numKey] + [rids[numKey]];
      b := new IxNode(Room() - 1, false);
      b.FillInternal(keys[mid + 1..numKey], rids[mid + 1..numKey], rids[numKey], parent);
    }

    /** Fills a new internal page: pairs, last child, and the page's parent. */
    method FillInternal(ks: seq<int>, rs: seq<Rid>, last: Rid, up: PageId)
      requires Valid() && !isLeaf && numKey == 0 && |ks| == |rs| <= Room()
      modifies this`numKey, this`parent, keys, rids
      ensures Valid() && View() == Page(false, up, prev, next, ks, rs + [last])
    {
      if ks != [] {
        InsertPairs(0, ks, rs);
      }
      assert keys[..numKey] == ks && rids[..numKey] == rs;
      rids[numKey] := last;
      parent := up;
    }

    /** Separator `sep` and its right page enter just after child `i`: key at slot `i`,
        child at slot `i + 1`, and all later children move. */
    method InsertChildAfter(i: nat, sep: int, right: PageId)
      requires Valid() && !isLeaf && i <= numKey < Room()
      modifies this`numKey, keys, rids
      ensures Valid() && View() == ChildInsert(old(View()), i, sep, right)
    {
      PutAt(keys, i, numKey, sep);
      PutAt(rids, i + 1, numKey + 1, Rid(right, 0));
      numKey := numKey + 1;
    }

    /** The same update as the code performs it. */
    method InsertChildAsWritten(i: nat, sep: int, right: PageId)
      requires Valid() && !isLeaf && i <= numKey < Room()
      modifies this`numKey, keys, rids
      ensures Valid()
      ensures View() == ChildInsertAsWritten(old(View()), i, sep, right, old(rids[numKey + 1]))
    {
      ghost var n, stale := View(), rids[numKey + 1];
      if i == numKey {
        keys[i] := sep;
        rids[i + 1] := Rid(right, 0);
        numKey := numKey + 1;
      } else {
        InsertPair(i + 1, sep, Rid(right, 0));
        assert rids[numKey] == stale;
      }
      assert View().keys == ChildInsertAsWritten(n, i, sep, right, stale).keys;
      assert View().rids == ChildInsertAsWritten(n, i, sep, right, stale).rids;
    }
  }
}
