/** Where a join executor reads a column. A record is bytes; the executor finds the column's
    description by name and reads at its offset in the left or the right record. The combined
    columns of the output carry the right columns with offsets moved up by the left tuple's length. */
module ColumnLookup {
  import opened Conditions

  datatype ColMeta = ColMeta(col: Col, typ: ColType, len: nat, offset: nat)

  datatype Algorithm = NestedLoop | Hash | SortMerge

  /** What an executor reads: which record, and the bytes from `offset` on. */
  datatype Place = Place(isLeft: bool, offset: nat, len: nat)

  ghost predicate Layout(cols: seq<ColMeta>, width: nat) {
    && (forall i :: 0 <= i < |cols| ==> 0 < cols[i].len && cols[i].offset + cols[i].len <= width)
    && (forall i, j :: 0 <= i < j < |cols| ==> cols[i].col != cols[j].col)
  }

  predicate Has(cols: seq<ColMeta>, target: Col) {
    cols != [] && (cols[0].col == target || Has(cols[1..], target))
  }

  /** The first column of that name. */
  function Find(cols: seq<ColMeta>, target: Col): (m: Option<ColMeta>)
    ensures m.Some? <==> Has(cols, target)
    ensures m.Some? ==> m.value in cols && m.value.col == target
  {
    if cols == [] then None else if cols[0].col == target then Some(cols[0]) else Find(cols[1..], target)
  }

  function Shifted(cols: seq<ColMeta>, up: nat): (r: seq<ColMeta>)
    ensures |r| == |cols| && forall i :: 0 <= i < |r| ==> r[i] == cols[i].(offset := cols[i].offset + up)
  {
    seq(|cols|, i requires 0 <= i < |cols| => cols[i].(offset := cols[i].offset + up))
  }

  /** The two children of a join. */
  datatype Children = Children(left: seq<ColMeta>, leftLen: nat, right: seq<ColMeta>, rightLen: nat) {

    ghost predicate Valid() {
      && left != [] && Layout(left, leftLen) && Layout(right, rightLen)
      && (forall i :: 0 <= i < |left| ==> left[i].col.tab == left[0].col.tab)
      && (forall i :: 0 <= i < |right| ==> right[i].col.tab != left[0].col.tab)
    }

    function Combined(): seq<ColMeta> {
      left + Shifted(right, leftLen)
    }

    /** The order in which an executor searches for a column's description. */
    function Order(alg: Algorithm): seq<ColMeta> {
      if alg.NestedLoop? then left + right + Combined() else Combined() + left + right
    }

    /** The hash join takes the offset from a search of its own, the children first. */
    function PlaceOf(alg: Algorithm, target: Col): Option<Place>
      requires left != []
    {
      match Find(Order(alg), target)
      case None => None
      case Some(meta) =>
        var near := Find(left + right + Combined(), target);
        var offset := if alg.Hash? && near.Some? then near.value.offset else meta.offset;
        Some(Place(meta.col.tab == left[0].col.tab, offset, meta.len))
    }

    /** The column's own place in its child's record. */
    function OwnPlace(target: Col): Option<Place> {
      match Find(left, target)
      case Some(meta) => Some(Place(true, meta.offset, meta.len))
      case None =>
        match Find(right, target)
        case Some(meta) => Some(Place(false, meta.offset, meta.len))
        case None => None
    }

    // ---- which search finds which description -----------------------------------------

    static lemma {:induction false} FindConcat(a: seq<ColMeta>, b: seq<ColMeta>, target: Col)
      ensures Find(a + b, target) == if Has(a, target) then Find(a, target) else Find(b, target)
      decreases |a|
    {
      if a == [] {
        assert a + b == b;
      } else {
        assert (a + b)[1..] == a[1..] + b;
        FindConcat(a[1..], b, target);
      }
    }

    static lemma {:induction false} FindShifted(cols: seq<ColMeta>, up: nat, target: Col)
      ensures Has(Shifted(cols, up), target) <==> Has(cols, target)
      ensures Has(cols, target) ==>
                Find(Shifted(cols, up), target) == Some(Find(cols, target).value.(offset := Find(cols, target).value.offset + up))
      decreases |cols|
    {
      if cols != [] {
        assert Shifted(cols, up)[1..] == Shifted(cols[1..], up);
        FindShifted(cols[1..], up, target);
      }
    }

    static lemma FirstFound(a: seq<ColMeta>, b: seq<ColMeta>, c: seq<ColMeta>, target: Col)
      ensures Find(a + b + c, target) ==
              if Has(a, target) then Find(a, target) else if Has(b, target) then Find(b, target) else Find(c, target)
    {
      FindConcat(a, b, target);
      FindConcat(a + b, c, target);
      assert Find(a + b, target).Some? <==> Has(a + b, target);
    }

    lemma NotBoth(target: Col)
      requires Valid() && Has(left, target)
      ensures !Has(right, target)
    {
      Named(left, target);
      Named(right, target);
    }

    static lemma Named(cols: seq<ColMeta>, target: Col)
      ensures Has(cols, target) <==> exists m :: m in cols && m.col == target
    {
      assert Has(cols, target) ==> Find(cols, target).value in cols;
      if cols != [] { Named(cols[1..], target); }
    }

    lemma FindCombined(target: Col)
      requires Has(left, target) || Has(right, target)
      ensures Has(Combined(), target)
      ensures Find(Combined(), target) ==
              if Has(left, target) then Find(left, target)
              else Some(Find(right, target).value.(offset := Find(right, target).value.offset + leftLen))
    {
      FindShifted(right, leftLen, target);
      FindConcat(left, Shifted(right, leftLen), target);
      assert Find(Combined(), target).Some?;
    }

    lemma Searches(target: Col)
      requires left != [] && (Has(left, target) || Has(right, target))
      ensures Find(left + right + Combined(), target) == if Has(left, target) then Find(left, target) else Find(right, target)
      ensures Find(Combined() + left + right, target) == Find(Combined(), target)
    {
      FirstFound(left, right, Combined(), target);
      FindCombined(target);
      FirstFound(Combined(), left, right, target);
    }

    /** The places, spelled out. */
    lemma Places(alg: Algorithm, target: Col)
      requires Valid() && (Has(left, target) || Has(right, target))
      ensures PlaceOf(alg, target).Some? && OwnPlace(target).Some? && OwnPlace(target).value.isLeft == Has(left, target)
      ensures PlaceOf(alg, target).value ==
              if alg.SortMerge? && !Has(left, target) then
                OwnPlace(target).value.(offset := OwnPlace(target).value.offset + leftLen)
              else OwnPlace(target).value
    {
      Searches(target);
      FindCombined(target);
      if Has(left, target) {
        assert Find(left, target).value in left;
      } else {
        assert Find(right, target).value in right;
      }
    }

    /** Every executor finds the column's own place, except that the sort-merge join finds a column
        of the right side past its place by the length of the left tuple. */
    lemma PlaceIff(alg: Algorithm, target: Col)
      requires Valid() && (Has(left, target) || Has(right, target))
      ensures PlaceOf(alg, target) == OwnPlace(target) <==> !alg.SortMerge? || Has(left, target) || leftLen == 0
    {
      Places(alg, target);
    }

    // ---- what is read -------------------------------------------------------------------

    /** Bytes from `offset` on; `beyond` is what lies behind the record. */
    static function ReadAt(rec: seq<int>, beyond: nat -> int, offset: nat, n: nat): seq<int> {
      seq(n, i requires 0 <= i < n => if offset + i < |rec| then rec[offset + i] else beyond(offset + i))
    }

    static function Read(p: Place, l: seq<int>, r: seq<int>, beyond: nat -> int): seq<int> {
      ReadAt(if p.isLeft then l else r, beyond, p.offset, p.len)
    }

    ghost predicate ReadsOwn(alg: Algorithm, target: Col)
      requires left != [] && (Has(left, target) || Has(right, target))
    {
      && PlaceOf(alg, target).Some? && OwnPlace(target).Some?
      && forall l: seq<int>, r: seq<int>, beyond :: |l| == leftLen && |r| == rightLen ==>
                                                      Read(PlaceOf(alg, target).value, l, r, beyond) == Read(OwnPlace(target).value, l, r, beyond)
    }

    /** An executor reads a column's own bytes, on every pair of records, if and only if it is not the
        sort-merge join, or the column is on the left, or the left tuple is empty. */
    lemma LookupIff(alg: Algorithm, target: Col)
      requires Valid() && (Has(left, target) || Has(right, target))
      ensures ReadsOwn(alg, target) <==> !alg.SortMerge? || Has(left, target) || leftLen == 0
    {
      Places(alg, target);
      if alg.SortMerge? && !Has(left, target) && leftLen > 0 {
        ReadsOther(target);
      }
    }

    lemma OwnInside(target: Col)
      requires Valid() && Has(right, target) && !Has(left, target)
      ensures OwnPlace(target).Some? && 0 < OwnPlace(target).value.len
      ensures OwnPlace(target).value.offset + OwnPlace(target).value.len <= rightLen && !OwnPlace(target).value.isLeft
    {
      assert Find(right, target).value in right;
    }

    /** A record with zeros in a place and ones everywhere else. */
    static function ZeroAt(own: Place, n: nat): (r: seq<int>)
      ensures |r| == n && forall i :: 0 <= i < n ==> r[i] == if own.offset <= i < own.offset + own.len then 0 else 1
    {
      seq(n, i requires 0 <= i < n => if own.offset <= i < own.offset + own.len then 0 else 1)
    }

    lemma ReadsOther(target: Col)
      requires Valid() && Has(right, target) && !Has(left, target) && leftLen > 0
      ensures !ReadsOwn(SortMerge, target)
    {
      Places(SortMerge, target);
      OwnInside(target);
      var p, own := PlaceOf(SortMerge, target).value, OwnPlace(target).value;
      var l: seq<int>, r := seq(leftLen, _ => 0), ZeroAt(own, rightLen);
      var beyond := (i: nat) => 1;
      PastPlace(own, leftLen, r, beyond);
      assert !p.isLeft && !own.isLeft && p.offset == own.offset + leftLen && p.len == own.len;
      assert Read(p, l, r, beyond) != Read(own, l, r, beyond);
    }

    /** Zeros in a column's place and ones everywhere else: read past the place, a one is read. */
    static lemma PastPlace(own: Place, up: nat, r: seq<int>, beyond: nat -> int)
      requires 0 < own.len && 0 < up && own.offset + own.len <= |r|
      requires forall i :: 0 <= i < |r| ==> r[i] == if own.offset <= i < own.offset + own.len then 0 else 1
      requires forall i :: beyond(i) == 1
      ensures ReadAt(r, beyond, own.offset + up, own.len) != ReadAt(r, beyond, own.offset, own.len)
    {
      var i := own.len - 1;
      assert ReadAt(r, beyond, own.offset + up, own.len)[i] == 1;
      assert ReadAt(r, beyond, own.offset, own.len)[i] == 0;
    }

    /** And it reads behind the right record if and only if the column ends less than the left tuple's
        length before the record does. */
    lemma BehindRecordIff(target: Col)
      requires Valid() && Has(right, target)
      ensures PlaceOf(SortMerge, target).Some? && OwnPlace(target).Some?
      ensures var p, own := PlaceOf(SortMerge, target).value, OwnPlace(target).value;
              p.offset + p.len > rightLen <==> rightLen - (own.offset + own.len) < leftLen
    {
      if Has(left, target) { NotBoth(target); }
      Places(SortMerge, target);
    }
  }

  // ---- an input ------------------------------------------------------------------------

  /** Tables t(a INT) and u(b INT, c INT). */
  function ExampleChildren(): Children {
    Children([ColMeta(Col("t", "a"), TypeInt, 4, 0)], 4,
             [ColMeta(Col("u", "b"), TypeInt, 4, 0), ColMeta(Col("u", "c"), TypeInt, 4, 4)], 8)
  }

  /** For t.a = u.b and the rows a = 1 and b = 2, c = 1, nested loop and hash compare 1 with 2; the
      sort-merge join compares 1 with the 1 of column c, and takes the rows for a match. */
  lemma SortMergeComparesWrongColumn(beyond: nat -> int)
    ensures ExampleChildren().Valid()
    ensures var s, l, r := ExampleChildren(), [1, 0, 0, 0], [2, 0, 0, 0, 1, 0, 0, 0];
            var a, b := Col("t", "a"), Col("u", "b");
            && (forall alg: Algorithm :: s.PlaceOf(alg, a).Some? && s.PlaceOf(alg, b).Some?)
            && Children.Read(s.PlaceOf(SortMerge, a).value, l, r, beyond) == Children.Read(s.PlaceOf(SortMerge, b).value, l, r, beyond)
            && Children.Read(s.PlaceOf(NestedLoop, a).value, l, r, beyond) != Children.Read(s.PlaceOf(NestedLoop, b).value, l, r, beyond)
            && Children.Read(s.PlaceOf(Hash, a).value, l, r, beyond) != Children.Read(s.PlaceOf(Hash, b).value, l, r, beyond)
  {
    var s, a, b := ExampleChildren(), Col("t", "a"), Col("u", "b");
    var l, r := [1, 0, 0, 0], [2, 0, 0, 0, 1, 0, 0, 0];
    ExamplePlaces();
    assert Children.ReadAt(l, beyond, 0, 4) == [1, 0, 0, 0];
    assert Children.ReadAt(r, beyond, 0, 4) == [2, 0, 0, 0];
    assert Children.ReadAt(r, beyond, 4, 4) == [1, 0, 0, 0];
  }

  lemma ExamplePlaces()
    ensures ExampleChildren().Valid()
    ensures forall alg: Algorithm ::
              && ExampleChildren().PlaceOf(alg, Col("t", "a")) == Some(Place(true, 0, 4))
              && ExampleChildren().PlaceOf(alg, Col("u", "b")) == Some(Place(false, if alg.SortMerge? then 4 else 0, 4))
  {
    var s, a, b := ExampleChildren(), Col("t", "a"), Col("u", "b");
    ExampleOwn();
    forall alg: Algorithm
      ensures s.PlaceOf(alg, a) == Some(Place(true, 0, 4))
      ensures s.PlaceOf(alg, b) == Some(Place(false, if alg.SortMerge? then 4 else 0, 4))
    {
      s.Places(alg, a);
      s.Places(alg, b);
    }
  }

  lemma ExampleOwn()
    ensures var s, a, b := ExampleChildren(), Col("t", "a"), Col("u", "b");
            && s.Valid() && Has(s.left, a) && !Has(s.left, b) && Has(s.right, b)
            && s.OwnPlace(a) == Some(Place(true, 0, 4)) && s.OwnPlace(b) == Some(Place(false, 0, 4))
  {
  }
}
