/** A node's arrays in its page: the keys, with room for as many as the node may hold, and right
    behind them the record ids. Inserting one key more writes over the record ids. */
module PageBytes {

  type Bytes = seq<int>

  /** Bytes of a record id: page number and slot number. */
  const RID: nat := 8

  /** Copies `len` bytes from `src` to `dst`; the places may overlap. */
  function Move(buf: Bytes, dst: nat, src: nat, len: nat): (r: Bytes)
    requires dst + len <= |buf| && src + len <= |buf|
    ensures |r| == |buf|
    ensures forall i :: 0 <= i < |buf| ==> r[i] == if dst <= i < dst + len then buf[src + i - dst] else buf[i]
  {
    buf[..dst] + buf[src..src + len] + buf[dst + len..]
  }

  function Put(buf: Bytes, at: nat, xs: Bytes): (r: Bytes)
    requires at + |xs| <= |buf|
    ensures |r| == |buf|
    ensures forall i :: 0 <= i < |buf| ==> r[i] == if at <= i < at + |xs| then xs[i - at] else buf[i]
  {
    buf[..at] + xs + buf[at + |xs|..]
  }

  /** A page's arrays: keys of `len` bytes, with room reserved for `max` of them. */
  datatype Layout = Layout(len: nat, max: nat) {

    function KeysSize(): nat {
      max * len
    }

    /** A page big enough for `n` keys and record ids, wherever they are. */
    predicate Holds(buf: Bytes, n: nat) {
      n * len <= |buf| && KeysSize() + n * RID <= |buf|
    }

    /** The bytes of the first `n` record ids. */
    function Rids(buf: Bytes, n: nat): Bytes
      requires Holds(buf, n)
    {
      buf[KeysSize()..KeysSize() + n * RID]
    }

    /** One pair inserted at `pos` among `n`: keys are shifted and the key copied in, then the record
        ids. */
    function InsertPair(buf: Bytes, n: nat, pos: nat, key: Bytes, rid: Bytes): (r: Bytes)
      requires pos <= n && |key| == len && |rid| == RID && Holds(buf, n + 1)
      ensures |r| == |buf|
    {
      InsertRid(InsertKey(buf, n, pos, key), KeysSize(), n, pos, rid)
    }

    function InsertKey(buf: Bytes, n: nat, pos: nat, key: Bytes): (r: Bytes)
      requires pos <= n && |key| == len && (n + 1) * len <= |buf|
      ensures |r| == |buf|
    {
      Bounds(n, pos);
      Put(Move(buf, (pos + 1) * len, pos * len, (n - pos) * len), pos * len, key)
    }

    static function InsertRid(buf: Bytes, at: nat, n: nat, pos: nat, rid: Bytes): (r: Bytes)
      requires pos <= n && |rid| == RID && at + (n + 1) * RID <= |buf|
      ensures |r| == |buf|
    {
      Put(Move(buf, at + (pos + 1) * RID, at + pos * RID, (n - pos) * RID), at + pos * RID, rid)
    }

    lemma Bounds(n: nat, pos: nat)
      requires pos <= n
      ensures (pos + 1) * len + (n - pos) * len == (n + 1) * len
      ensures pos * len + (n - pos) * len == n * len && pos * len + len == (pos + 1) * len
      ensures n * len <= (n + 1) * len && (pos + 1) * len <= (n + 1) * len
    {
    }

    predicate CanInsert(buf: Bytes, n: nat, pos: nat, key: Bytes, rid: Bytes) {
      pos <= n && |key| == len && |rid| == RID && Holds(buf, n) && Holds(buf, n + 1)
    }

    /** The bytes of the first `n` keys. */
    function Keys(buf: Bytes, n: nat): Bytes
      requires Holds(buf, n)
    {
      buf[..n * len]
    }

    /** The record ids are the old ones with the new one put in. */
    predicate RidsRight(buf: Bytes, n: nat, pos: nat, key: Bytes, rid: Bytes)
      requires CanInsert(buf, n, pos, key, rid)
    {
      Rids(InsertPair(buf, n, pos, key, rid), n + 1) == Rids(buf, n)[..pos * RID] + rid + Rids(buf, n)[pos * RID..]
    }

    /** They are, whatever the page, the place, the key and the id. */
    ghost predicate Intact(n: nat) {
      forall buf: Bytes, pos: nat, key: Bytes, rid: Bytes :: CanInsert(buf, n, pos, key, rid) ==> RidsRight(buf, n, pos, key, rid)
    }

    /** Keys that end before the record ids leave them alone. */
    lemma KeysApart(buf: Bytes, n: nat, pos: nat, key: Bytes)
      requires pos <= n && |key| == len && (n + 1) * len <= KeysSize() <= |buf|
      ensures InsertKey(buf, n, pos, key)[KeysSize()..] == buf[KeysSize()..]
    {
      Bounds(n, pos);
    }

    /** Record ids from `at` on, shifted and with the new one put in. */
    static lemma Spliced(buf: Bytes, at: nat, n: nat, pos: nat, rid: Bytes)
      requires pos <= n && |rid| == RID && at + (n + 1) * RID <= |buf|
      ensures InsertRid(buf, at, n, pos, rid)[at..at + (n + 1) * RID] ==
              buf[at..at + n * RID][..pos * RID] + rid + buf[at..at + n * RID][pos * RID..]
    {
    }

    lemma Inserted(buf: Bytes, n: nat, pos: nat, key: Bytes, rid: Bytes)
      requires CanInsert(buf, n, pos, key, rid) && (n + 1) * len <= KeysSize()
      ensures RidsRight(buf, n, pos, key, rid)
    {
      var keys, at := InsertKey(buf, n, pos, key), KeysSize();
      KeysApart(buf, n, pos, key);
      Spliced(keys, at, n, pos, rid);
      SameSlice(keys, buf, at, n * RID);
    }

    lemma KeySpliced(buf: Bytes, n: nat, pos: nat, key: Bytes)
      requires pos <= n && |key| == len && (n + 1) * len <= |buf|
      ensures n * len <= (n + 1) * len && pos * len <= n * len
      ensures InsertKey(buf, n, pos, key)[..(n + 1) * len] == buf[..n * len][..pos * len] + key + buf[..n * len][pos * len..]
    {
      Bounds(n, pos);
      var r := InsertKey(buf, n, pos, key);
      var s := buf[..n * len][..pos * len] + key + buf[..n * len][pos * len..];
      assert |s| == (n + 1) * len;
      forall i | 0 <= i < |s| ensures r[i] == s[i] {
        if pos * len + len <= i { assert s[i] == buf[i - len]; }
      }
    }

    /** With room for one more the keys are the old ones with the new one put in. */
    lemma KeysInserted(buf: Bytes, n: nat, pos: nat, key: Bytes, rid: Bytes)
      requires CanInsert(buf, n, pos, key, rid) && n < max
      ensures n * len <= (n + 1) * len && pos * len <= n * len
      ensures Keys(InsertPair(buf, n, pos, key, rid), n + 1) == Keys(buf, n)[..pos * len] + key + Keys(buf, n)[pos * len..]
    {
      MoreKeys(n + 1, max);
      KeySpliced(buf, n, pos, key);
      var keys, all := InsertKey(buf, n, pos, key), InsertPair(buf, n, pos, key, rid);
      assert all[..KeysSize()] == keys[..KeysSize()];
      assert all[..(n + 1) * len] == all[..KeysSize()][..(n + 1) * len] == keys[..KeysSize()][..(n + 1) * len];
    }

    static lemma SameSlice(a: Bytes, b: Bytes, at: nat, n: nat)
      requires |a| == |b| && at + n <= |a| && a[at..] == b[at..]
      ensures a[at..at + n] == b[at..at + n]
    {
      assert a[at..at + n] == a[at..][..n] && b[at..at + n] == b[at..][..n];
    }

    lemma MoreKeys(a: nat, b: nat)
      requires a <= b
      ensures a * len <= b * len
    {
    }

    /** Appending a key to a full node writes the key over the first record id. */
    lemma FullNodeLosesFirst(buf: Bytes, key: Bytes, rid: Bytes)
      requires 0 < max && 0 < len && |key| == len && |rid| == RID && Holds(buf, max + 1)
      ensures var after := InsertPair(buf, max, max, key, rid);
              forall i :: 0 <= i < len && i < RID ==> after[KeysSize() + i] == key[i]
    {
      Bounds(max, max);
      assert (max - max) * len == 0;
      assert KeysSize() == max * len;
    }

    /** With at most `max` keys in a node, an insertion leaves the record ids right, whatever the keys,
        the ids and the place, if and only if the node has fewer than `max`. */
    lemma IntactIff(n: nat)
      requires 0 < len && 0 < max && n <= max
      ensures Intact(n) <==> n < max
    {
      if n < max {
        MoreKeys(n + 1, max);
        forall buf: Bytes, pos: nat, key: Bytes, rid: Bytes | CanInsert(buf, n, pos, key, rid) ensures RidsRight(buf, n, pos, key, rid) {
          Inserted(buf, n, pos, key, rid);
        }
      } else {
        FullNotIntact();
      }
    }

    lemma FullNotIntact()
      requires 0 < len && 0 < max
      ensures !Intact(max)
    {
      var size := (max + 1) * len + (max + 1) * RID;
      MoreKeys(max, max + 1);
      var buf: Bytes, key: Bytes, rid: Bytes := seq(size, _ => 0), seq(len, _ => 1), seq(RID, _ => 0);
      assert CanInsert(buf, max, max, key, rid);
      FullNodeLosesFirst(buf, key, rid);
      var after := InsertPair(buf, max, max, key, rid);
      assert Rids(after, max + 1)[0] == after[KeysSize()] == 1;
      assert (Rids(buf, max)[..max * RID] + rid + Rids(buf, max)[max * RID..])[0] == 0;
      assert !RidsRight(buf, max, max, key, rid);
    }
  }
}
