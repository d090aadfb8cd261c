/** Whole runs: any sequence of insertions into a created index, then a scan. */
module IndexRuns {
  import opened IndexPages
  import opened BPlusTree
  import opened IndexHandle
  import opened IndexScan

  /** The map a run of insertions builds: the first value given for a key stays. */
  function FirstWins(entries: seq<(int, Rid)>): map<int, Rid> {
    if entries == [] then map[]
    else
      var m, e := FirstWins(entries[..|entries| - 1]), entries[|entries| - 1];
      if e.0 in m then m else m[e.0 := e.1]
  }

  /** What `FirstWins` holds, position by position. */
  lemma {:induction false} FirstWinsIsFirst(entries: seq<(int, Rid)>, k: int)
    ensures k in FirstWins(entries) <==> exists i :: 0 <= i < |entries| && entries[i].0 == k
    ensures forall i :: 0 <= i < |entries| && entries[i].0 == k && (forall j :: 0 <= j < i ==> entries[j].0 != k) ==>
              FirstWins(entries)[k] == entries[i].1
  {
    if entries != [] {
      var n := |entries| - 1;
      FirstWinsIsFirst(entries[..n], k);
      if k in FirstWins(entries[..n]) {
        var i :| 0 <= i < n && entries[..n][i].0 == k;
        assert entries[i].0 == k;
      } else {
        assert forall i :: 0 <= i < n ==> entries[..n][i].0 != k;
        if entries[n].0 == k { assert entries[n].0 == k; }
      }
      forall i | 0 <= i < |entries| && entries[i].0 == k && (forall j :: 0 <= j < i ==> entries[j].0 != k)
        ensures FirstWins(entries)[k] == entries[i].1
      {
        if i < n { assert entries[..n][i].0 == k; }
      }
    }
  }

  /** A created index after any run of insertions is a B+ tree holding the run's map. */
  method InsertRun(order: nat, entries: seq<(int, Rid)>) returns (ih: IxIndex)
    requires 2 < order
    ensures ih.Holds(FirstWins(entries)) && fresh(ih) && fresh(ih.Repr)
  {
    ih := new IxIndex(order);
    InsertAll(ih, entries);
  }

  method InsertAll(ih: IxIndex, entries: seq<(int, Rid)>)
    requires ih.Holds(FirstWins([]))
    modifies ih, ih.Repr
    ensures ih.Holds(FirstWins(entries)) && ih.OnlyNewBuffers()
  {
    assert entries[..0] == [];
    for i := 0 to |entries|
      invariant ih.Holds(FirstWins(entries[..i])) && ih.OnlyNewBuffers()
    {
      InsertNext(ih, entries, i);
    }
    assert entries[..|entries|] == entries;
  }

  method InsertNext(ih: IxIndex, entries: seq<(int, Rid)>, i: nat)
    requires i < |entries| && ih.Holds(FirstWins(entries[..i]))
    modifies ih, ih.Repr
    ensures ih.Holds(FirstWins(entries[..i + 1])) && ih.OnlyNewBuffers()
  {
    assert entries[..i + 1][..i] == entries[..i];
    var _ := ih.InsertEntry(entries[i].0, entries[i].1, FirstWins(entries[..i]));
  }

  /** Scanning the index after a run lists its map: ascending, each key once, first values. */
  method InsertRunThenScan(order: nat, entries: seq<(int, Rid)>) returns (out: seq<(int, Rid)>)
    requires 2 < order
    ensures Ascending(out)
    ensures forall k :: HasKey(out, k) <==> exists i :: 0 <= i < |entries| && entries[i].0 == k
    ensures forall a, i :: (0 <= a < |out| && 0 <= i < |entries| && entries[i].0 == out[a].0
                            && (forall j :: 0 <= j < i ==> entries[j].0 != out[a].0)) ==> out[a].1 == entries[i].1
  {
    var ih := InsertRun(order, entries);
    out := ScanAll(ih, FirstWins(entries));
    forall k ensures HasKey(out, k) <==> exists i :: 0 <= i < |entries| && entries[i].0 == k {
      FirstWinsIsFirst(entries, k);
    }
    forall a, i | 0 <= a < |out| && 0 <= i < |entries| && entries[i].0 == out[a].0
      && (forall j :: 0 <= j < i ==> entries[j].0 != out[a].0)
      ensures out[a].1 == entries[i].1
    {
      FirstWinsIsFirst(entries, out[a].0);
    }
  }
}
