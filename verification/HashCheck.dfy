/** HASH_FSCK, the table's own integrity check: it finds nothing wrong in any valid table. */
module HashCheck {
  import opened HashTable

  lemma {:induction false} DistinctSize(s: seq<Element>)
    requires Distinct(s)
    ensures |Elems(s)| == |s|
  {
    if s == [] {
      assert Elems(s) == {};
    } else {
      var t := s[..|s| - 1];
      DistinctSize(t);
      assert s == t + [s[|s| - 1]];
      ElemsPlus(t, s[|s| - 1]);
    }
  }

  /** Walks one chain; ok is false where the source would stop the program. */
  method CheckChain(first: Element?, ghost c: seq<Element>) returns (ok: bool, n: nat)
    requires Chained(c) && first == First(c)
    ensures ok && n == |c|
  {
    var thh, prev: Element? := first, null;
    n := 0;
    while thh != null
      invariant n <= |c| && thh == At(c, n) && prev == At(c, n - 1)
      decreases |c| - n
    {
      if prev != thh.hhPrev { return false, n; }
      n := n + 1;
      prev := thh;
      thh := thh.hhNext;
    }
    return true, n;
  }

  method CheckOrder(first: Element?, ghost s: seq<Element>) returns (ok: bool, n: nat)
    requires Linked(s) && first == First(s)
    ensures ok && n == |s|
  {
    var thh, prev: Element? := first, null;
    n := 0;
    while thh != null
      invariant n <= |s| && thh == At(s, n) && prev == At(s, n - 1)
      decreases |s| - n
    {
      if prev != thh.prev { return false, n; }
      n := n + 1;
      prev := thh;
      thh := thh.next;
    }
    return true, n;
  }

  lemma OneMoreChain(all: set<Element>, chains: seq<seq<Element>>, hash: Hash, i: nat)
    requires Placed(all, chains, hash) && i < |chains|
    ensures |Members(chains[..i + 1])| == |Members(chains[..i])| + |chains[i]|
  {
    hide *;
    LaterChain(all, chains, hash, i);
    MembersSnoc(chains, i);
    DistinctSize(chains[i]);
  }

  lemma AllChains(chains: seq<seq<Element>>)
    ensures chains[..|chains|] == chains && Members(chains[..0]) == {}
  {
  }

  /** The bucket half: every chain is sound and as long as its count says, and together they hold num_items. */
  method CheckBuckets(t: Table, ghost all: set<Element>) returns (ok: bool)
    requires t.BucketsOk(all) && t.numItems == |all|
    ensures ok
  {
    hide *;
    t.BucketsArePlaced(all);
    AllChains(t.chains);
    var i, count: nat := 0, 0;
    while i < t.numBuckets
      invariant i <= t.numBuckets && count == |Members(t.chains[..i])|
    {
      HoldsAt(t.buckets[..], t.chains, i);
      HoldsIs(t.buckets[i], t.chains[i]);
      ChainedAt(t.chains, i);
      OneMoreChain(all, t.chains, t.hash, i);
      var sound, n := CheckChain(t.buckets[i].head, t.chains[i]);
      if !sound { return false; }
      count := count + n;
      if t.buckets[i].count != n { return false; }
      i := i + 1;
    }
    ok := count == t.numItems;
  }

  lemma HoldsIs(bucket: Bucket, chain: seq<Element>)
    requires Holds(bucket, chain)
    ensures bucket.head == First(chain) && bucket.count == |chain|
  {
  }

  /** HASH_FSCK. */
  method Fsck(t: Table) returns (ok: bool)
    requires t.Valid()
    ensures ok
  {
    if t.head != null {
      assert t.head == First(t.order) && t.OrderOk();
      hide *;
      t.ValidParts();
      t.OrderIs();
      DistinctSize(t.order);
      ok := CheckBuckets(t, Elems(t.order));
      if !ok { return; }
      var n;
      ok, n := CheckOrder(t.head, t.order);
      ok := ok && n == t.numItems;
    } else {
      ok := true;
    }
  }
}
