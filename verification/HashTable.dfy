/** uthash.h: an intrusive hash table whose elements also form a list in insertion order. */
module HashTable {
  import opened Common
  import opened Bits

  type Key = seq<byte>

  /** A hashable structure with its UT_hash_handle. The key of an element does not change. */
  class Element {
    const key: Key
    var hashv: nat
    var prev: Element?
    var next: Element?
    var hhPrev: Element?
    var hhNext: Element?

    constructor (key: Key)
      ensures this.key == key
    {
      this.key := key;
      hashv, prev, next, hhPrev, hhNext := 0, null, null, null, null;
    }
  }

  datatype Bucket = Bucket(head: Element?, count: nat, expandMult: nat)

  const INITIAL_NUM_BUCKETS := 32
  const INITIAL_NUM_BUCKETS_LOG2 := 5
  const BKT_CAPACITY_THRESH := 10

  // --- The two kinds of list --------------------------------------------------------------------

  ghost predicate Distinct(s: seq<Element>) { forall i, j :: 0 <= i < j < |s| ==> s[i] != s[j] }

  function First(s: seq<Element>): Element? { if s == [] then null else s[0] }

  function At(s: seq<Element>, i: int): Element? { if 0 <= i < |s| then s[i] else null }

  /** next and prev run through s. */
  ghost predicate Linked(s: seq<Element>)
    reads s`next, s`prev
  {
    forall i :: 0 <= i < |s| ==> s[i].next == At(s, i + 1) && s[i].prev == At(s, i - 1)
  }

  /** hh_next and hh_prev run through s. */
  ghost predicate Chained(s: seq<Element>)
    reads s`hhNext, s`hhPrev
  {
    forall i :: 0 <= i < |s| ==> s[i].hhNext == At(s, i + 1) && s[i].hhPrev == At(s, i - 1)
  }

  function Without(s: seq<Element>, i: nat): seq<Element>
    requires i < |s|
  {
    s[..i] + s[i + 1..]
  }

  ghost function Elems(s: seq<Element>): set<Element> { set e | e in s }

  ghost function Members(chains: seq<seq<Element>>): set<Element> {
    set b, e | 0 <= b < |chains| && e in chains[b] :: e
  }

  // --- Where elements belong --------------------------------------------------------------------

  type Hash = Key -> nat

  /** HASH_TO_BKT: hashv & (n - 1), for n a power of two. */
  function ToBkt(hashv: nat, n: nat): (b: nat)
    requires n > 0
    ensures b < n
  {
    BitAnd(hashv, n - 1)
  }

  /** For a power of two that is the remainder: the bucket b holds the hash values b, n + b, 2n + b and so on. */
  lemma ToBktIs(hashv: nat, k: nat, b: nat)
    requires b < Pow2(k)
    ensures ToBkt(hashv, Pow2(k)) == hashv % Pow2(k)
    ensures ToBkt(hashv, Pow2(k)) == b <==> exists q: nat :: hashv == q * Pow2(k) + b
  {
    AndLow(hashv, k);
    hide Pow2, BitAnd;
    DivMod(hashv, Pow2(k));
    forall q: nat | hashv == q * Pow2(k) + b ensures hashv % Pow2(k) == b { DivModOf(b, q, Pow2(k)); }
  }

  /** On 32-bit words, with num_buckets - 1 as mask. */
  lemma ToBktOfWords(hashv: bv32, mask: bv32, k: nat)
    requires Val(mask) == Pow2(k) - 1
    ensures Val(hashv & mask) == ToBkt(Val(hashv), Pow2(k))
  {
    AndWords(hashv, mask);
    hide Val, BitAnd;
  }

  /** The elements of all are in the chains, each in the one its hash selects and there only once. */
  ghost predicate Placed(all: set<Element>, chains: seq<seq<Element>>, hash: Hash) {
    && |chains| > 0
    && (forall e :: e in all ==> e in chains[ToBkt(hash(e.key), |chains|)])
    && (forall b, e :: 0 <= b < |chains| && e in chains[b] ==> e in all && ToBkt(hash(e.key), |chains|) == b)
    && (forall b :: 0 <= b < |chains| ==> Distinct(chains[b]))
  }

  ghost predicate Holds(bucket: Bucket, chain: seq<Element>) {
    bucket.head == First(chain) && bucket.count == |chain|
  }

  ghost predicate AllHold(buckets: seq<Bucket>, chains: seq<seq<Element>>) {
    |buckets| == |chains| && forall b :: 0 <= b < |chains| ==> Holds(buckets[b], chains[b])
  }

  ghost predicate AllChained(chains: seq<seq<Element>>)
    reads Members(chains)`hhNext, Members(chains)`hhPrev
  {
    forall b :: 0 <= b < |chains| ==> assert forall e :: e in chains[b] ==> e in Members(chains); Chained(chains[b])
  }

  ghost predicate KeysDistinct(s: seq<Element>) {
    forall i, j :: 0 <= i < j < |s| ==> s[i].key != s[j].key
  }

  ghost predicate Hashed(all: set<Element>, hash: Hash)
    reads all`hashv
  {
    forall e :: e in all ==> e.hashv == hash(e.key)
  }

  // --- What FIND promises -----------------------------------------------------------------------

  /** The live element with this key. */
  function Lookup(s: seq<Element>, key: Key): Element? {
    if s == [] then null else if s[0].key == key then s[0] else Lookup(s[1..], key)
  }

  lemma {:induction false} LookupIs(s: seq<Element>, key: Key, out: Element?)
    requires KeysDistinct(s)
    requires if out == null then forall e :: e in s ==> e.key != key else out in s && out.key == key
    ensures Lookup(s, key) == out
  {
    if s != [] {
      if s[0].key == key {
        assert s[0] in s;
      } else {
        assert s == [s[0]] + s[1..];
        LookupIs(s[1..], key, out);
      }
    }
  }

  // --- Putting an element at the front of a chain -----------------------------------------------

  function Push(chains: seq<seq<Element>>, b: nat, e: Element): seq<seq<Element>>
    requires b < |chains|
  {
    chains[b := [e] + chains[b]]
  }

  lemma PlacedPush(all: set<Element>, chains: seq<seq<Element>>, hash: Hash, b: nat, e: Element)
    requires Placed(all, chains, hash) && e !in all && b == ToBkt(hash(e.key), |chains|)
    ensures Placed(all + {e}, Push(chains, b, e), hash)
  {
    hide ToBkt;
    var after := Push(chains, b, e);
    forall x | x in all + {e} ensures x in after[ToBkt(hash(x.key), |after|)] {
      if x != e { assert x in chains[ToBkt(hash(x.key), |chains|)]; }
    }
  }

  lemma PlacedMembers(all: set<Element>, chains: seq<seq<Element>>, hash: Hash)
    requires Placed(all, chains, hash)
    ensures Members(chains) == all
  {
    hide ToBkt;
  }

  /** The links HASH_ADD_TO_BKT and HASH_EXPAND_BUCKETS set. */
  method LinkFront(head: Element?, add: Element, ghost c: seq<Element>)
    requires Chained(c) && head == First(c) && add !in c && Distinct(c)
    modifies add`hhNext, add`hhPrev, c`hhPrev
    ensures Chained([add] + c)
  {
    add.hhNext := head;
    add.hhPrev := null;
    if head != null {
      head.hhPrev := add;
    }
  }

  ghost predicate Apart(s: seq<Element>, t: seq<Element>) { forall e :: e in s ==> e !in t }

  lemma ChainsApart(all: set<Element>, chains: seq<seq<Element>>, hash: Hash, b: nat)
    requires Placed(all, chains, hash) && b < |chains|
    ensures forall c :: 0 <= c < |chains| && c != b ==> Apart(chains[c], chains[b])
  {
    hide ToBkt;
    forall c | 0 <= c < |chains| && c != b ensures Apart(chains[c], chains[b]) {
      forall e | e in chains[c] ensures e !in chains[b] { assert ToBkt(hash(e.key), |chains|) == c; }
    }
  }

  method PushChain(head: Element?, add: Element, b: nat,
                   ghost all: set<Element>, ghost chains: seq<seq<Element>>, ghost hash: Hash)
    requires Placed(all, chains, hash) && add !in all && b < |chains| && head == First(chains[b])
    requires AllChained(chains)
    modifies add`hhNext, add`hhPrev, chains[b]`hhPrev
    ensures AllChained(Push(chains, b, add))
  {
    ChainsApart(all, chains, hash, b);
    assert forall c :: 0 <= c < |chains| ==> add !in chains[c];
    assert Distinct(chains[b]);
    hide Placed, Members;
    LinkFront(head, add, chains[b]);
    forall c | 0 <= c < |chains| ensures Chained(Push(chains, b, add)[c]) {
      if c != b {
        assert Apart(chains[c], chains[b]) && old(Chained(chains[c])) && add !in chains[c];
        assert forall e :: e in chains[c] ==> e.hhNext == old(e.hhNext) && e.hhPrev == old(e.hhPrev);
        assert Chained(chains[c]);
      } else { assert Chained([add]+chains[b]); }
    }
  }

  lemma HoldsPush(buckets: seq<Bucket>, chains: seq<seq<Element>>, b: nat, e: Element, mult: nat)
    requires AllHold(buckets, chains) && b < |chains|
    ensures AllHold(buckets[b := Bucket(e, buckets[b].count + 1, mult)], Push(chains, b, e))
  {
  }

  // --- Taking an element out of a chain ---------------------------------------------------------

  function Drop(chains: seq<seq<Element>>, b: nat, j: nat): seq<seq<Element>>
    requires b < |chains| && j < |chains[b]|
  {
    chains[b := Without(chains[b], j)]
  }

  lemma WithoutIs(s: seq<Element>, i: nat)
    requires Distinct(s) && i < |s|
    ensures Distinct(Without(s, i)) && forall e :: e in Without(s, i) <==> e in s && e != s[i]
  {
    var w := Without(s, i);
    forall e | e in s && e != s[i] ensures e in w {
      var k :| 0 <= k < |s| && s[k] == e;
      assert w[if k < i then k else k - 1] == e;
    }
  }

  lemma WithoutLength(s: seq<Element>, i: nat)
    requires i < |s|
    ensures |Without(s, i)| == |s| - 1
  {
  }

  lemma PlacedDrop(all: set<Element>, chains: seq<seq<Element>>, hash: Hash, b: nat, j: nat)
    requires Placed(all, chains, hash) && b < |chains| && j < |chains[b]|
    ensures Placed(all - {chains[b][j]}, Drop(chains, b, j), hash)
  {
    WithoutIs(chains[b], j);
    assert ToBkt(hash(chains[b][j].key), |chains|) == b;
    hide ToBkt, Without, Distinct;
  }

  /** HASH_DEL_IN_BKT. */
  method Unchain(bucket: Bucket, del: Element, ghost c: seq<Element>, ghost j: nat) returns (after: Bucket)
    requires Holds(bucket, c) && Chained(c) && Distinct(c) && j < |c| && c[j] == del
    modifies (set e | e in c && e != del)`hhNext, (set e | e in c && e != del)`hhPrev
    ensures Holds(after, Without(c, j)) && Chained(Without(c, j)) && after.expandMult == bucket.expandMult
  {
    after := bucket.(count := bucket.count - 1);
    if bucket.head == del {
      after := after.(head := del.hhNext);
    }
    if del.hhPrev != null {
      del.hhPrev.hhNext := del.hhNext;
    }
    if del.hhNext != null {
      del.hhNext.hhPrev := del.hhPrev;
    }
    BridgedChain(c, j);
    hide Chained;
  }

  // --- Expansion --------------------------------------------------------------------------------

  function Over(n: nat, ideal: nat): nat { if n > ideal then n - ideal else 0 }

  /** How many elements are beyond the ideal length of their chain. */
  ghost function Excess(chains: seq<seq<Element>>, ideal: nat): nat {
    if chains == [] then 0 else Over(|chains[0]|, ideal) + Excess(chains[1..], ideal)
  }

  lemma {:induction false} ExcessPush(chains: seq<seq<Element>>, b: nat, e: Element, ideal: nat)
    requires b < |chains|
    ensures Excess(Push(chains, b, e), ideal) ==
            Excess(chains, ideal) + (if |chains[b]| + 1 > ideal then 1 else 0)
  {
    var after := Push(chains, b, e);
    if b == 0 {
      assert after[1..] == chains[1..];
    } else {
      assert after[1..] == Push(chains[1..], b - 1, e);
      ExcessPush(chains[1..], b - 1, e, ideal);
    }
  }

  /** What expansion leaves in expand_mult. */
  ghost predicate MultsSet(buckets: seq<Bucket>, ideal: nat)
    requires ideal > 0
  {
    forall b :: 0 <= b < |buckets| ==>
      buckets[b].expandMult == if buckets[b].count > ideal then buckets[b].count / ideal else 0
  }

  /** The state of the new buckets: the elements of all are in them, and the bookkeeping is right. */
  ghost predicate Rehashed(buckets: seq<Bucket>, chains: seq<seq<Element>>, all: set<Element>, hash: Hash,
                           ideal: nat, nonideal: nat)
  {
    && AllHold(buckets, chains) && Placed(all, chains, hash)
    && ideal > 0 && MultsSet(buckets, ideal) && nonideal == Excess(chains, ideal)
  }

  lemma RehashedPush(buckets: seq<Bucket>, chains: seq<seq<Element>>, all: set<Element>, hash: Hash,
                     ideal: nat, nonideal: nat, b: nat, e: Element)
    requires Rehashed(buckets, chains, all, hash, ideal, nonideal)
    requires e !in all && b == ToBkt(hash(e.key), |buckets|)
    ensures var n := buckets[b].count + 1;
            Rehashed(buckets[b := Bucket(e, n, if n > ideal then n / ideal else 0)], Push(chains, b, e), all + {e},
                     hash, ideal, nonideal + (if n > ideal then 1 else 0))
    ensures buckets[b].head == First(chains[b]) && (buckets[b].count + 1 <= ideal ==> buckets[b].expandMult == 0)
    ensures forall x :: x in chains[b] ==> x in all
  {
    var n := buckets[b].count + 1;
    assert Holds(buckets[b], chains[b]);
    PlacedPush(all, chains, hash, b, e);
    ExcessPush(chains, b, e, ideal);
    HoldsPush(buckets, chains, b, e, if n > ideal then n / ideal else 0);
    hide Placed, AllHold, Excess, ToBkt;
  }

  /** One more element for this new bucket; the second result is 1 when it is beyond the ideal length. */
  method CountIn(bucket: Bucket, ideal: nat) returns (after: Bucket, extra: nat)
    requires ideal > 0 && (bucket.count + 1 <= ideal ==> bucket.expandMult == 0)
    ensures var n := bucket.count + 1; after == Bucket(bucket.head, n, if n > ideal then n / ideal else 0)
    ensures extra == if bucket.count + 1 > ideal then 1 else 0
  {
    extra := 0;
    after := bucket.(count := bucket.count + 1);
    if after.count > ideal {
      extra := 1;
      after := after.(expandMult := after.count / ideal);
    }
  }

  lemma RehashedHas(buckets: seq<Bucket>, chains: seq<seq<Element>>, all: set<Element>, hash: Hash, ideal: nat,
                    nonideal: nat)
    requires Rehashed(buckets, chains, all, hash, ideal, nonideal)
    ensures |buckets| == |chains| > 0 && Placed(all, chains, hash) && ideal > 0
  {
  }

  /** The body of the inner loop of HASH_EXPAND_BUCKETS. */
  method MoveElement(thh: Element, newBuckets: array<Bucket>, ideal: nat, nonideal0: nat,
                     ghost all: set<Element>, ghost chains: seq<seq<Element>>, ghost hash: Hash)
    returns (nonideal: nat, ghost after: seq<seq<Element>>)
    requires Rehashed(newBuckets[..], chains, all, hash, ideal, nonideal0) && AllChained(chains)
    requires thh !in all && thh.hashv == hash(thh.key)
    modifies newBuckets, thh`hhNext, thh`hhPrev, all`hhPrev
    ensures Rehashed(newBuckets[..], after, all + {thh}, hash, ideal, nonideal) && AllChained(after)
    ensures |after| == |chains|
  {
    hide *;
    RehashedHas(newBuckets[..], chains, all, hash, ideal, nonideal0);
    PlacedMembers(all, chains, hash);
    var b := ToBkt(thh.hashv, newBuckets.Length);
    ghost var was := newBuckets[..];
    RehashedPush(was, chains, all, hash, ideal, nonideal0, b, thh);
    after := Push(chains, b, thh);
    assert |after| == |chains| by { PushLength(chains, b, thh); }
    var bucket, extra := CountIn(newBuckets[b], ideal);
    PushChain(bucket.head, thh, b, all, chains, hash);
    newBuckets[b] := bucket.(head := thh);
    assert newBuckets[..] == was[b := bucket.(head := thh)];
    nonideal := nonideal0 + extra;
  }

  lemma PushLength(chains: seq<seq<Element>>, b: nat, e: Element)
    requires b < |chains|
    ensures |Push(chains, b, e)| == |chains|
  {
  }

  /** From place j on, hh_next still runs through s. */
  ghost predicate NextFrom(s: seq<Element>, j: nat)
    requires j <= |s|
    reads s[j..]`hhNext
  {
    forall i :: j <= i < |s| ==> assert s[i] == s[j..][i - j]; s[i].hhNext == At(s, i + 1)
  }

  lemma ElemsSnoc(s: seq<Element>, j: nat)
    requires j < |s|
    ensures Elems(s[..j + 1]) == Elems(s[..j]) + {s[j]}
  {
    assert s[..j + 1] == s[..j] + [s[j]];
  }

  lemma NotBefore(s: seq<Element>, j: nat)
    requires Distinct(s) && j < |s|
    ensures s[j] !in Elems(s[..j])
  {
  }

  lemma NextFromStep(s: seq<Element>, j: nat)
    requires j < |s| && NextFrom(s, j) && Distinct(s)
    ensures NextFrom(s, j + 1) && s[j].hhNext == At(s, j + 1) && s[j] !in s[j + 1..]
  {
  }

  lemma AtIs(s: seq<Element>, j: nat)
    requires j <= |s|
    ensures At(s, j) != null ==> j < |s| && At(s, j) == s[j] && s[j] in s && s[j] in Elems(s)
    ensures At(s, j) == null ==> j == |s|
  {
  }

  lemma HashedAt(all: set<Element>, hash: Hash, e: Element)
    requires Hashed(all, hash) && e in all
    ensures e.hashv == hash(e.key)
  {
  }

  /** One turn of the inner loop, at place j of the old chain c. */
  method MoveNext(thh: Element, newBuckets: array<Bucket>, ideal: nat, nonideal0: nat, ghost c: seq<Element>,
                  ghost j: nat, ghost all: set<Element>, ghost chains: seq<seq<Element>>, ghost hash: Hash)
    returns (next: Element?, nonideal: nat, ghost after: seq<seq<Element>>)
    requires j < |c| && thh == c[j] && Distinct(c) && NextFrom(c, j) && Hashed(Elems(c), hash) && Elems(c) !! all
    requires Rehashed(newBuckets[..], chains, all + Elems(c[..j]), hash, ideal, nonideal0) && AllChained(chains)
    modifies newBuckets, c`hhNext, c`hhPrev, all`hhPrev
    ensures Rehashed(newBuckets[..], after, all + Elems(c[..j + 1]), hash, ideal, nonideal) && AllChained(after)
    ensures |after| == |chains| && next == At(c, j + 1) && NextFrom(c, j + 1)
  {
    hide *;
    NextFromStep(c, j);
    MovedOne(c, j, all);
    HashedAt(Elems(c), hash, thh);
    next := thh.hhNext;
    nonideal, after := MoveElement(thh, newBuckets, ideal, nonideal0, all + Elems(c[..j]), chains, hash);
  }

  lemma MovedOne(c: seq<Element>, j: nat, all: set<Element>)
    requires j < |c| && Distinct(c) && Elems(c) !! all
    ensures all + Elems(c[..j + 1]) == all + Elems(c[..j]) + {c[j]}
    ensures c[j] in Elems(c) && c[j] !in all + Elems(c[..j])
    ensures forall e :: e in all + Elems(c[..j]) ==> e in all || e in c
  {
    ElemsSnoc(c, j);
    NotBefore(c, j);
  }

  lemma ElemsIn(s: seq<Element>, t: seq<Element>)
    ensures forall e :: e in Elems(s) <==> e in s
    ensures forall e :: e in Elems(t) <==> e in t
  {
  }

  /** The inner loop: one old chain c. */
  method RehashBucket(head: Element?, newBuckets: array<Bucket>, ideal: nat, nonideal0: nat, ghost c: seq<Element>,
                      ghost all: set<Element>, ghost chains: seq<seq<Element>>, ghost hash: Hash)
    returns (nonideal: nat, ghost after: seq<seq<Element>>)
    requires Rehashed(newBuckets[..], chains, all, hash, ideal, nonideal0) && AllChained(chains)
    requires head == First(c) && Distinct(c) && NextFrom(c, 0) && Hashed(Elems(c), hash) && Elems(c) !! all
    modifies newBuckets, c`hhNext, c`hhPrev, all`hhPrev
    ensures Rehashed(newBuckets[..], after, all + Elems(c), hash, ideal, nonideal) && AllChained(after)
    ensures |after| == |chains|
  {
    nonideal, after := nonideal0, chains;
    var thh := head;
    ghost var j := 0;
    assert thh == At(c, 0);
    assert all + Elems(c[..0]) == all;
    assert c[..|c|] == c;
    hide *;
    while thh != null
      invariant j <= |c| && thh == At(c, j) && NextFrom(c, j) && |after| == |chains|
      invariant Rehashed(newBuckets[..], after, all + Elems(c[..j]), hash, ideal, nonideal) && AllChained(after)
      decreases |c| - j
    {
      AtIs(c, j);
      thh, nonideal, after := MoveNext(thh, newBuckets, ideal, nonideal, c, j, all, after, hash);
      j := j + 1;
    }
    AtIs(c, j);
  }

  // --- The table --------------------------------------------------------------------------------

  lemma MembersSnoc(chains: seq<seq<Element>>, i: nat)
    requires i < |chains|
    ensures Members(chains[..i + 1]) == Members(chains[..i]) + Elems(chains[i])
  {
    forall e | e in Elems(chains[i]) ensures e in Members(chains[..i + 1]) { assert e in chains[..i + 1][i]; }
    forall e | e in Members(chains[..i]) ensures e in Members(chains[..i + 1]) {
      var b :| 0 <= b < i && e in chains[..i][b];
      assert e in chains[..i + 1][b];
    }
  }

  lemma LaterChain(all: set<Element>, chains: seq<seq<Element>>, hash: Hash, i: nat)
    requires Placed(all, chains, hash) && i < |chains|
    ensures Elems(chains[i]) !! Members(chains[..i]) && Elems(chains[i]) <= all && Members(chains[..i]) <= all
    ensures Members(chains[i + 1..]) <= all
    ensures Distinct(chains[i])
    ensures forall k :: 0 <= k < |chains| && k != i ==> Apart(chains[k], chains[i])
  {
    ChainsApart(all, chains, hash, i);
    hide ToBkt;
  }

  /** hh_next still runs through these chains. */
  ghost predicate NextInAll(chains: seq<seq<Element>>)
    reads Members(chains)`hhNext
  {
    forall k :: 0 <= k < |chains| ==> assert forall e :: e in chains[k] ==> e in Members(chains); NextFrom(chains[k], 0)
  }

  lemma HashedSubset(all: set<Element>, some: set<Element>, hash: Hash)
    requires Hashed(all, hash) && some <= all
    ensures Hashed(some, hash)
  {
  }

  lemma HeadOf(buckets: seq<Bucket>, chains: seq<seq<Element>>, i: nat)
    requires AllHold(buckets, chains) && i < |chains|
    ensures i < |buckets| && buckets[i].head == First(chains[i])
  {
    assert Holds(buckets[i], chains[i]);
  }

  lemma PlacedChain(all: set<Element>, chains: seq<seq<Element>>, hash: Hash, b: nat)
    requires Placed(all, chains, hash) && b < |chains|
    ensures Distinct(chains[b]) && forall e :: e in chains[b] ==> e in all
  {
    hide ToBkt;
  }

  lemma NextInFirst(chains: seq<seq<Element>>, i: nat)
    requires i < |chains| && NextInAll(chains[i..])
    ensures NextFrom(chains[i], 0) && NextInAll(chains[i + 1..])
  {
    var rest := chains[i..];
    assert rest[0] == chains[i] && chains[i + 1..] == rest[1..];
    assert forall k :: 0 <= k < |rest| - 1 ==> rest[1..][k] == rest[k + 1];
  }

  lemma LaterApart(chains: seq<seq<Element>>, i: nat)
    requires i < |chains| && forall k :: 0 <= k < |chains| && k != i ==> Apart(chains[k], chains[i])
    ensures forall e :: e in Members(chains[i + 1..]) ==> e !in chains[i]
  {
    forall e | e in Members(chains[i + 1..]) ensures e !in chains[i] {
      var k :| 0 <= k < |chains| - (i + 1) && e in chains[i + 1..][k];
      assert chains[i + 1..][k] == chains[i + 1 + k] && Apart(chains[i + 1 + k], chains[i]);
    }
  }

  /** One turn of the outer loop of HASH_EXPAND_BUCKETS. */
  method RehashNth(buckets: array<Bucket>, i: nat, newBuckets: array<Bucket>, ideal: nat, nonideal0: nat,
                   ghost olds: seq<seq<Element>>, ghost all: set<Element>, ghost chains: seq<seq<Element>>,
                   ghost hash: Hash)
    returns (nonideal: nat, ghost after: seq<seq<Element>>)
    requires buckets != newBuckets && AllHold(buckets[..], olds) && Placed(all, olds, hash) && i < |olds|
    requires Rehashed(newBuckets[..], chains, Members(olds[..i]), hash, ideal, nonideal0) && AllChained(chains)
    requires NextInAll(olds[i..]) && Hashed(all, hash)
    modifies newBuckets, all`hhNext, all`hhPrev
    ensures Rehashed(newBuckets[..], after, Members(olds[..i + 1]), hash, ideal, nonideal) && AllChained(after)
    ensures |after| == |chains| && NextInAll(olds[i + 1..])
  {
    hide *;
    HeadOf(buckets[..], olds, i);
    NextInFirst(olds, i);
    LaterChain(all, olds, hash, i);
    LaterApart(olds, i);
    HashedSubset(all, Elems(olds[i]), hash);
    MembersSnoc(olds, i);
    ElemsIn(olds[i], olds[i]);
    nonideal, after := RehashBucket(buckets[i].head, newBuckets, ideal, nonideal0, olds[i],
                                    Members(olds[..i]), chains, hash);
  }

  /** Both loops of HASH_EXPAND_BUCKETS. */
  method RehashAll(buckets: array<Bucket>, newBuckets: array<Bucket>, ideal: nat,
                   ghost olds: seq<seq<Element>>, ghost all: set<Element>, ghost chains: seq<seq<Element>>,
                   ghost hash: Hash)
    returns (nonideal: nat, ghost after: seq<seq<Element>>)
    requires buckets != newBuckets && AllHold(buckets[..], olds) && Placed(all, olds, hash)
    requires Rehashed(newBuckets[..], chains, {}, hash, ideal, 0) && AllChained(chains)
    requires AllChained(olds) && Hashed(all, hash)
    modifies newBuckets, all`hhNext, all`hhPrev
    ensures Rehashed(newBuckets[..], after, all, hash, ideal, nonideal) && AllChained(after)
    ensures |after| == |chains|
  {
    nonideal, after := 0, chains;
    var i := 0;
    assert Members(olds[..0]) == {} && olds[..|olds|] == olds;
    assert buckets.Length == |olds|;
    PlacedMembers(all, olds, hash);
    assert olds[0..] == olds;
    ChainedNext(olds);
    hide *;
    while i < buckets.Length
      invariant i <= buckets.Length == |olds| && |after| == |chains| && NextInAll(olds[i..])
      invariant Rehashed(newBuckets[..], after, Members(olds[..i]), hash, ideal, nonideal) && AllChained(after)
      invariant buckets[..] == old(buckets[..])
    {
      nonideal, after := RehashNth(buckets, i, newBuckets, ideal, nonideal, olds, all, after, hash);
      i := i + 1;
    }
  }

  lemma ChainedNext(chains: seq<seq<Element>>)
    requires AllChained(chains)
    ensures NextInAll(chains)
  {
    forall k | 0 <= k < |chains| ensures NextFrom(chains[k], 0) { assert Chained(chains[k]); }
  }

  lemma RehashedIs(buckets: seq<Bucket>, chains: seq<seq<Element>>, all: set<Element>, hash: Hash,
                   ideal: nat, nonideal: nat)
    requires Rehashed(buckets, chains, all, hash, ideal, nonideal)
    ensures AllHold(buckets, chains) && Placed(all, chains, hash)
    ensures ideal > 0 && MultsSet(buckets, ideal) && nonideal == Excess(chains, ideal)
  {
  }

  lemma {:induction false} NoExcess(chains: seq<seq<Element>>, ideal: nat)
    requires forall b :: 0 <= b < |chains| ==> chains[b] == []
    ensures Excess(chains, ideal) == 0
  {
    if chains != [] { NoExcess(chains[1..], ideal); }
  }

  function EmptyChains(n: nat): (chains: seq<seq<Element>>)
    ensures |chains| == n && forall b :: 0 <= b < n ==> chains[b] == []
  {
    seq(n, b => [])
  }

  lemma NothingYet(buckets: seq<Bucket>, hash: Hash, ideal: nat)
    requires |buckets| > 0 && forall b :: 0 <= b < |buckets| ==> buckets[b] == Bucket(null, 0, 0)
    ensures var chains := EmptyChains(|buckets|);
            Placed({}, chains, hash) && AllHold(buckets, chains) && AllChained(chains)
            && (ideal > 0 ==> Rehashed(buckets, chains, {}, hash, ideal, 0))
  {
    NoExcess(EmptyChains(|buckets|), ideal);
    hide EmptyChains;
  }

  /** n / b rounded up. */
  function CeilDiv(n: nat, b: nat): nat
    requires b > 0
  {
    (n + b - 1) / b
  }

  /** n >> k. */
  function ShiftRight(n: nat, k: nat): nat { Div(n, Pow2(k)) }

  function Div(n: nat, d: nat): nat
    requires d > 0
  {
    n / d
  }

  /** n & (m - 1), for m a power of two. */
  function LowBits(n: nat, m: nat): nat
    requires m > 0
  {
    BitAnd(n, m - 1)
  }

  lemma CeilIs(n: nat, k: nat, b: nat)
    requires b == Pow2(k)
    ensures ShiftRight(n, k) + (if LowBits(n, b) != 0 then 1 else 0) == CeilDiv(n, b)
    ensures n > 0 ==> CeilDiv(n, b) > 0
    ensures n <= CeilDiv(n, b) * b < n + b
  {
    AndLow(n, k);
    hide Pow2, BitAnd;
    var q, r := n / b, n % b;
    assert n == q * b + r;
    if r == 0 {
      assert n + b - 1 == q * b + (b - 1);
      QuotientIs(n + b - 1, b, q);
    } else {
      assert n + b - 1 == (q + 1) * b + (r - 1);
      QuotientIs(n + b - 1, b, q + 1);
    }
    if q == 0 { assert q * b == 0; }
  }

  lemma QuotientIs(n: nat, b: nat, q: nat)
    requires b > 0 && q * b <= n < q * b + b
    ensures n / b == q
  {
    var p := n / b;
    assert p * b <= n < p * b + b;
    assert p < q ==> (p + 1) * b <= q * b;
    assert p > q ==> (q + 1) * b <= p * b;
  }

  /** HASH_BLOOM_BYTELEN. */
  function BloomBytes(bits: nat): (n: nat)
    ensures forall i :: 0 <= i < Pow2(bits) ==> i / 8 < n
  {
    Pow2(bits) / 8 + (if Pow2(bits) % 8 != 0 then 1 else 0)
  }

  /** 1U << k. */
  function BitMask(k: nat): (m: bv8)
    requires k < 8
    ensures m != 0
  {
    [1, 2, 4, 8, 16, 32, 64, 128][k]
  }

  lemma BitMaskIs()
    ensures BitMask(0) == 1 << 0 && BitMask(1) == 1 << 1 && BitMask(2) == 1 << 2 && BitMask(3) == 1 << 3
    ensures BitMask(4) == 1 << 4 && BitMask(5) == 1 << 5 && BitMask(6) == 1 << 6 && BitMask(7) == 1 << 7
  {
  }

  /** Setting bit j of a byte sets that bit and no other. */
  lemma OtherBits(b: bv8, j: nat, k: nat)
    requires j < 8 && k < 8
    ensures (b | BitMask(j)) & BitMask(k) != 0 <==> b & BitMask(k) != 0 || j == k
  {
    BitStaysSet(b, BitMask(j));
    if j != k {
      DifferentBits(j, k);
      OtherBit(b, BitMask(j), BitMask(k));
    }
  }

  lemma DifferentBits(j: nat, k: nat)
    requires j < 8 && k < 8 && j != k
    ensures BitMask(j) & BitMask(k) == 0
  {
  }

  lemma OtherBit(b: bv8, m: bv8, k: bv8)
    requires m & k == 0
    ensures (b | m) & k == b & k
  {
  }

  lemma BitStaysSet(b: bv8, m: bv8)
    requires m != 0
    ensures (b | m) & m != 0
  {
  }

  /** HASH_FIND_IN_BKT. */
  method FindInBkt(first: Element?, key: Key, ghost c: seq<Element>) returns (out: Element?)
    requires Chained(c) && first == First(c)
    ensures if out == null then forall e :: e in c ==> e.key != key else out in c && out.key == key
  {
    out := first;
    ghost var i := 0;
    while out != null
      invariant i <= |c| && out == At(c, i)
      invariant forall k :: 0 <= k < i ==> c[k].key != key
      decreases |c| - i
    {
      if |out.key| == |key| {
        if out.key == key { break; }
      }
      out := out.hhNext;
      i := i + 1;
    }
  }

  method ZeroedBuckets(n: nat) returns (buckets: array<Bucket>)
    ensures fresh(buckets) && buckets.Length == n
    ensures forall b :: 0 <= b < n ==> buckets[b] == Bucket(null, 0, 0)
  {
    buckets := new Bucket[n](_ => Bucket(null, 0, 0));
  }

  lemma ChainedAt(chains: seq<seq<Element>>, b: nat)
    requires AllChained(chains) && b < |chains|
    ensures Chained(chains[b])
  {
  }

  /** An answer about the one chain the key selects is an answer about all elements. */
  lemma FoundIs(all: set<Element>, chains: seq<seq<Element>>, hash: Hash, key: Key, out: Element?)
    requires Placed(all, chains, hash)
    requires var c := chains[ToBkt(hash(key), |chains|)];
             if out == null then forall e :: e in c ==> e.key != key else out in c && out.key == key
    ensures if out == null then forall e :: e in all ==> e.key != key else out in all && out.key == key
  {
  }

  method LinkLast(tail: Element?, add: Element, ghost s: seq<Element>)
    requires Linked(s) && Distinct(s) && s != [] && tail == s[|s| - 1] && add !in s && add.next == null
    modifies add`prev, s`next
    ensures Linked(s + [add]) && Distinct(s + [add])
  {
    LastOf(s, add);
    tail.next := add;
    add.prev := tail;
    assert forall i :: 0 <= i < |s| - 1 ==> s[i].next == At(s, i + 1);
    LinkedLonger(s, add);
    hide Linked;
  }

  lemma LastOf(s: seq<Element>, add: Element)
    requires Distinct(s) && s != [] && add !in s
    ensures Distinct(s + [add]) && forall i :: 0 <= i < |s| - 1 ==> s[i] != s[|s| - 1]
  {
  }

  lemma LinkedLonger(s: seq<Element>, add: Element)
    requires s != [] && add.next == null && add.prev == s[|s| - 1] && s[|s| - 1].next == add
    requires forall i :: 0 <= i < |s| - 1 ==> s[i].next == At(s, i + 1)
    requires forall i :: 0 <= i < |s| ==> s[i].prev == At(s, i - 1)
    ensures Linked(s + [add])
  {
  }

  lemma NewKey(s: seq<Element>, add: Element)
    requires (s == [] || KeysDistinct(s)) && Lookup(s, add.key) == null
    ensures KeysDistinct(s + [add])
  {
    forall e | e in s ensures e.key != add.key { NotFound(s, add.key); }
  }

  lemma {:induction false} NotFound(s: seq<Element>, key: Key)
    requires Lookup(s, key) == null
    ensures forall e :: e in s ==> e.key != key
  {
    if s != [] { NotFound(s[1..], key); }
  }

  lemma ElemsPlus(s: seq<Element>, add: Element)
    ensures Elems(s + [add]) == Elems(s) + {add}
    ensures forall e :: e in Elems(s) <==> e in s
  {
  }

  lemma HashedNone(hash: Hash)
    ensures Hashed({}, hash)
  {
  }

  lemma HashedMore(all: set<Element>, hash: Hash, add: Element)
    requires Hashed(all, hash) && add.hashv == hash(add.key)
    ensures Hashed(all + {add}, hash)
  {
  }

  /** Whom s[k] points to once place i is bridged. */
  function AfterNext(s: seq<Element>, i: nat, k: int): Element? { if k == i - 1 then At(s, i + 1) else At(s, k + 1) }

  function AfterPrev(s: seq<Element>, i: nat, k: int): Element? { if k == i + 1 then At(s, i - 1) else At(s, k - 1) }

  lemma Bridged(s: seq<Element>, i: nat)
    requires Distinct(s) && i < |s|
    requires forall k :: 0 <= k < |s| && k != i ==> s[k].next == AfterNext(s, i, k) && s[k].prev == AfterPrev(s, i, k)
    ensures Linked(Without(s, i))
  {
    var w := Without(s, i);
    forall m | 0 <= m < |w| ensures w[m].next == At(w, m + 1) && w[m].prev == At(w, m - 1) {
      assert w[m] == s[if m < i then m else m + 1];
    }
  }

  lemma BridgedChain(s: seq<Element>, i: nat)
    requires Distinct(s) && i < |s|
    requires forall k :: 0 <= k < |s| && k != i ==>
               s[k].hhNext == AfterNext(s, i, k) && s[k].hhPrev == AfterPrev(s, i, k)
    ensures Chained(Without(s, i))
  {
    var w := Without(s, i);
    forall m | 0 <= m < |w| ensures w[m].hhNext == At(w, m + 1) && w[m].hhPrev == At(w, m - 1) {
      assert w[m] == s[if m < i then m else m + 1];
    }
  }

  /** The links HASH_DELETE sets in the list, and the new head and tail. */
  method Unlink(head0: Element, tail0: Element, del: Element, ghost s: seq<Element>, ghost i: nat)
    returns (head: Element?, tail: Element?)
    requires Linked(s) && Distinct(s) && i < |s| && s[i] == del && |s| > 1
    requires head0 == s[0] && tail0 == s[|s| - 1]
    modifies s`next, s`prev
    ensures Linked(Without(s, i)) && |Without(s, i)| == |s| - 1
    ensures head == Without(s, i)[0] && tail == Without(s, i)[|s| - 2]
  {
    head, tail := head0, tail0;
    if del == tail {
      tail := del.prev;
    }
    assert i == |s| - 1 <==> del == s[|s| - 1];
    if del.prev != null {
      del.prev.next := del.next;
    } else {
      head := del.next;
    }
    if del.next != null {
      del.next.prev := del.prev;
    }
    Bridged(s, i);
    hide Linked;
  }

  method UnchainAll(bucket: Bucket, del: Element, b: nat, ghost all: set<Element>,
                    ghost chains: seq<seq<Element>>, ghost hash: Hash, ghost j: nat)
    returns (after: Bucket)
    requires Placed(all, chains, hash) && AllChained(chains) && b < |chains| && Holds(bucket, chains[b])
    requires j < |chains[b]| && chains[b][j] == del
    modifies chains[b]`hhNext, chains[b]`hhPrev
    ensures AllChained(Drop(chains, b, j)) && Holds(after, Without(chains[b], j))
  {
    ChainsApart(all, chains, hash, b);
    assert Distinct(chains[b]);
    hide Placed, Members, Without, Holds;
    after := Unchain(bucket, del, chains[b], j);
    forall c | 0 <= c < |chains| ensures Chained(Drop(chains, b, j)[c]) {
      if c != b {
        assert Apart(chains[c], chains[b]) && old(Chained(chains[c]));
        assert forall e :: e in chains[c] ==> e.hhNext == old(e.hhNext) && e.hhPrev == old(e.hhPrev);
        assert Chained(chains[c]);
      }
    }
  }

  lemma HoldsAt(buckets: seq<Bucket>, chains: seq<seq<Element>>, b: nat)
    requires AllHold(buckets, chains) && b < |chains|
    ensures b < |buckets| && Holds(buckets[b], chains[b])
  {
  }

  lemma HoldsDrop(buckets: seq<Bucket>, chains: seq<seq<Element>>, b: nat, j: nat, after: Bucket)
    requires AllHold(buckets, chains) && b < |chains| && j < |chains[b]| && Holds(after, Without(chains[b], j))
    ensures AllHold(buckets[b := after], Drop(chains, b, j))
  {
    hide Holds, Without;
  }

  /** s without e. */
  function Remove(s: seq<Element>, e: Element): seq<Element> {
    if s == [] then [] else if s[0] == e then s[1..] else [s[0]] + Remove(s[1..], e)
  }

  lemma {:induction false} PlaceOf(s: seq<Element>, e: Element) returns (i: nat)
    requires e in s
    ensures i < |s| && s[i] == e && Remove(s, e) == Without(s, i)
  {
    if s[0] == e {
      i := 0;
      assert Without(s, 0) == s[1..];
    } else {
      i := PlaceOf(s[1..], e);
      assert Without(s, i + 1) == [s[0]] + Without(s[1..], i);
      i := i + 1;
    }
  }

  lemma PlaceInChain(all: set<Element>, chains: seq<seq<Element>>, hash: Hash, e: Element, b: nat) returns (j: nat)
    requires Placed(all, chains, hash) && e in all && b == ToBkt(hash(e.key), |chains|)
    ensures j < |chains[b]| && chains[b][j] == e
  {
    assert e in chains[b];
    j :| 0 <= j < |chains[b]| && chains[b][j] == e;
  }

  lemma ElemsWithout(s: seq<Element>, i: nat)
    requires KeysDistinct(s) && i < |s|
    ensures Elems(Without(s, i)) == Elems(s) - {s[i]} && KeysDistinct(Without(s, i))
  {
    assert Distinct(s);
    WithoutIs(s, i);
    var w := Without(s, i);
    assert forall k :: 0 <= k < |w| ==> w[k] == s[if k < i then k else k + 1];
  }

  lemma InBucket(all: set<Element>, chains: seq<seq<Element>>, hash: Hash, e: Element, b: nat)
    requires Placed(all, chains, hash) && e in all && b < |chains|
    ensures e in chains[b] <==> ToBkt(hash(e.key), |chains|) == b
  {
    hide ToBkt;
  }

  class Table {
    const hash: Hash
    const withBloom: bool
    const bloomBits: nat
    var head: Element?
    var tail: Element?
    var buckets: array<Bucket>
    var numBuckets: nat
    var log2NumBuckets: nat
    var numItems: nat
    var idealChainMaxlen: nat
    var nonidealItems: nat
    var ineffExpands: nat
    var noexpand: bool
    var bloom: array<bv8>
    ghost var order: seq<Element>
    ghost var chains: seq<seq<Element>>

    /** The bucket array holds the elements of all. */
    ghost predicate BucketsOk(all: set<Element>)
      reads this`buckets, this`numBuckets, this`log2NumBuckets, this`chains, buckets,
            Members(chains)`hhNext, Members(chains)`hhPrev
    {
      && numBuckets == buckets.Length == Pow2(log2NumBuckets)
      && AllHold(buckets[..], chains) && Placed(all, chains, hash) && AllChained(chains)
    }

    lemma BucketsAre(all: set<Element>)
      requires numBuckets == buckets.Length == Pow2(log2NumBuckets)
      requires AllHold(buckets[..], chains) && Placed(all, chains, hash) && AllChained(chains)
      ensures BucketsOk(all)
    {
    }

    lemma BucketsArePlaced(all: set<Element>)
      requires BucketsOk(all)
      ensures |chains| == numBuckets == buckets.Length == Pow2(log2NumBuckets) > 0
      ensures 2 * numBuckets == Pow2(log2NumBuckets + 1)
      ensures AllHold(buckets[..], chains) && Placed(all, chains, hash) && AllChained(chains) && Members(chains) == all
    {
      PlacedMembers(all, chains, hash);
      hide Placed, AllHold, AllChained, Members;
    }

    /** Which chain holds a live element: the one whose number is its hash value modulo the number of buckets. */
    lemma BucketOfHash(all: set<Element>, e: Element, b: nat)
      requires BucketsOk(all) && e in all && b < numBuckets
      ensures e in chains[b] <==> exists q: nat :: hash(e.key) == q * numBuckets + b
    {
      hide *;
      BucketsArePlaced(all);
      InBucket(all, chains, hash, e, b);
      ToBktIs(hash(e.key), log2NumBuckets, b);
    }

    /** Redistributes the elements and installs the new bucket array. */
    method Rebuild(newBuckets: array<Bucket>, ideal: nat, ghost all: set<Element>) returns (nonideal: nat)
      requires BucketsOk(all) && Hashed(all, hash) && ideal > 0 && newBuckets != buckets
      requires newBuckets.Length == 2 * numBuckets
      requires forall b :: 0 <= b < newBuckets.Length ==> newBuckets[b] == Bucket(null, 0, 0)
      modifies this`buckets, this`numBuckets, this`log2NumBuckets, this`chains, newBuckets, all`hhNext, all`hhPrev
      ensures BucketsOk(all) && buckets == newBuckets
      ensures numBuckets == 2 * old(numBuckets) && log2NumBuckets == old(log2NumBuckets) + 1
      ensures MultsSet(buckets[..], ideal) && nonideal == Excess(chains, ideal)
    {
      hide *;
      BucketsArePlaced(all);
      NothingYet(newBuckets[..], hash, ideal);
      ghost var after;
      nonideal, after := RehashAll(buckets, newBuckets, ideal, chains, all, EmptyChains(newBuckets.Length), hash);
      RehashedIs(newBuckets[..], after, all, hash, ideal, nonideal);
      numBuckets := numBuckets * 2;
      log2NumBuckets := log2NumBuckets + 1;
      buckets := newBuckets;
      chains := after;
      BucketsAre(all);
    }

    /** HASH_EXPAND_BUCKETS: twice as many buckets for the same elements. */
    method Expand(ghost all: set<Element>)
      requires BucketsOk(all) && Hashed(all, hash) && numItems > 0
      modifies this`buckets, this`numBuckets, this`log2NumBuckets, this`chains, this`idealChainMaxlen,
               this`nonidealItems, this`ineffExpands, this`noexpand, all`hhNext, all`hhPrev
      ensures BucketsOk(all) && fresh(buckets)
      ensures numBuckets == 2 * old(numBuckets) && log2NumBuckets == old(log2NumBuckets) + 1
      ensures idealChainMaxlen == CeilDiv(numItems, numBuckets) > 0 && MultsSet(buckets[..], idealChainMaxlen)
      ensures nonidealItems == Excess(chains, idealChainMaxlen)
      ensures ineffExpands == (if nonidealItems > numItems / 2 then old(ineffExpands) + 1 else 0)
      ensures noexpand == (old(noexpand) || ineffExpands > 1)
    {
      hide *;
      BucketsArePlaced(all);
      var newBuckets := ZeroedBuckets(2 * numBuckets);
      CeilIs(numItems, log2NumBuckets + 1, 2 * numBuckets);
      idealChainMaxlen := ShiftRight(numItems, log2NumBuckets + 1) +
                          (if LowBits(numItems, numBuckets * 2) != 0 then 1 else 0);
      nonidealItems := Rebuild(newBuckets, idealChainMaxlen, all);
      ineffExpands := if nonidealItems > numItems / 2 then ineffExpands + 1 else 0;
      if ineffExpands > 1 {
        noexpand := true;
      }
    }

    /** The part of HASH_ADD_TO_BKT before the test for expansion. */
    method LinkInto(b: nat, add: Element, ghost all: set<Element>)
      requires BucketsOk(all) && add !in all && b < numBuckets && b == ToBkt(hash(add.key), numBuckets)
      modifies buckets, this`chains, add`hhNext, add`hhPrev, all`hhPrev
      ensures BucketsOk(all + {add})
      ensures buckets[b] == Bucket(add, old(buckets[b].count) + 1, old(buckets[b].expandMult))
    {
      hide *;
      BucketsArePlaced(all);
      var bucket := buckets[b].(count := buckets[b].count + 1);
      HeadOf(buckets[..], chains, b);
      HoldsPush(buckets[..], chains, b, add, bucket.expandMult);
      PlacedPush(all, chains, hash, b, add);
      PlacedChain(all, chains, hash, b);
      PushChain(bucket.head, add, b, all, chains, hash);
      ghost var was := buckets[..];
      buckets[b] := bucket.(head := add);
      assert buckets[..] == was[b := Bucket(add, was[b].count + 1, bucket.expandMult)];
      chains := Push(chains, b, add);
      BucketsAre(all + {add});
    }

    /** HASH_ADD_TO_BKT. */
    method AddToBkt(b: nat, add: Element, ghost all: set<Element>)
      requires BucketsOk(all) && add !in all && b < numBuckets && b == ToBkt(hash(add.key), numBuckets)
      requires Hashed(all + {add}, hash) && numItems > 0
      modifies buckets, this`buckets, this`numBuckets, this`log2NumBuckets, this`chains, this`idealChainMaxlen,
               this`nonidealItems, this`ineffExpands, this`noexpand, add`hhNext, add`hhPrev, all`hhNext, all`hhPrev
      ensures BucketsOk(all + {add}) && (buckets == old(buckets) || fresh(buckets))
      ensures var bucket := old(buckets[b]);
              var crowded := bucket.count + 1 >= (bucket.expandMult + 1) * 10 && !old(noexpand);
              && numBuckets == (if crowded then 2 else 1) * old(numBuckets)
              && (crowded ==> idealChainMaxlen == CeilDiv(numItems, numBuckets) > 0
                              && MultsSet(buckets[..], idealChainMaxlen)
                              && nonidealItems == Excess(chains, idealChainMaxlen))
              && (!crowded ==> buckets == old(buckets) && noexpand == old(noexpand))
    {
      hide BucketsOk, Hashed, ToBkt, MultsSet, Excess, CeilDiv, Placed;
      LinkInto(b, add, all);
      assert b < buckets.Length by { BucketsArePlaced(all + {add}); }
      if buckets[b].count >= (buckets[b].expandMult + 1) * BKT_CAPACITY_THRESH && !noexpand {
        Expand(all + {add});
      }
    }

    // --- The Bloom filter ---

    function BloomIndex(hashv: nat): (i: nat)
      ensures i < Pow2(bloomBits) && i == hashv % Pow2(bloomBits)
    {
      AndLow(hashv, bloomBits);
      LowBits(hashv, Pow2(bloomBits))
    }

    /** Bit number i of the filter. */
    predicate BloomBit(i: nat)
      reads this`bloom, bloom
      requires withBloom && bloom.Length == BloomBytes(bloomBits) && i < Pow2(bloomBits)
    {
      bloom[i / 8] & BitMask(i % 8) != 0
    }

    /** HASH_BLOOM_TEST; without HASH_BLOOM it is constantly true. */
    predicate BloomTest(hashv: nat)
      reads this`bloom, bloom
      requires withBloom ==> bloom.Length == BloomBytes(bloomBits)
    {
      withBloom ==> BloomBit(BloomIndex(hashv))
    }

    /** No live element is rejected. */
    ghost predicate BloomOk(all: set<Element>)
      reads this`bloom, bloom
    {
      && (withBloom ==> bloom.Length == BloomBytes(bloomBits))
      && forall e :: e in all ==> BloomTest(hash(e.key))
    }

    /** HASH_BLOOM_BITSET. */
    method SetBit(i: nat)
      requires withBloom && bloom.Length == BloomBytes(bloomBits) && i < Pow2(bloomBits)
      modifies bloom
      ensures forall j :: 0 <= j < Pow2(bloomBits) ==> (BloomBit(j) <==> old(BloomBit(j)) || j == i)
    {
      ghost var was := bloom[i / 8];
      bloom[i / 8] := bloom[i / 8] | BitMask(i % 8);
      hide BitMask, Pow2;
      forall j | 0 <= j < Pow2(bloomBits) ensures BloomBit(j) <==> old(BloomBit(j)) || j == i {
        OtherBits(was, i % 8, j % 8);
      }
    }

    /** HASH_BLOOM_ADD. */
    method BloomAdd(add: Element, ghost all: set<Element>)
      requires BloomOk(all) && add.hashv == hash(add.key)
      modifies bloom
      ensures BloomOk(all + {add})
      ensures withBloom ==> forall j :: 0 <= j < Pow2(bloomBits) ==>
                (BloomBit(j) <==> old(BloomBit(j)) || j == add.hashv % Pow2(bloomBits))
    {
      if withBloom {
        SetBit(BloomIndex(add.hashv));
        hide BloomIndex, BloomBit, Pow2, BloomBytes;
      }
    }

    /** Without a filter nothing is rejected; with one, the bit of the hash value decides. */
    lemma BloomTestIs(hashv: nat)
      requires withBloom ==> bloom.Length == BloomBytes(bloomBits)
      ensures BloomTest(hashv) <==> !withBloom || BloomBit(hashv % Pow2(bloomBits))
    {
    }

    // --- The list in insertion order ---

    ghost predicate OrderOk()
      reads this`order, this`head, this`tail, this`numItems, order`next, order`prev
    {
      && order != [] && Distinct(order) && Linked(order)
      && head == order[0] && tail == order[|order| - 1] && numItems == |order|
    }

    /** The two arrays are different objects. */
    ghost predicate Separate()
      reads this`buckets, this`bloom
    {
      (buckets as object) != (bloom as object)
    }

    /** The table is empty, which is all the source keeps of it then, or everything fits together. */
    ghost predicate Valid()
      reads this, buckets, bloom, order`next, order`prev, order`hashv, Members(chains)`hhNext, Members(chains)`hhPrev
    {
      if order == [] then head == null
      else
        && OrderOk() && KeysDistinct(order) && Separate()
        && BucketsOk(Elems(order)) && Hashed(Elems(order), hash) && BloomOk(Elems(order))
    }

    constructor (hash: Hash, withBloom: bool, bloomBits: nat)
      ensures Valid() && order == [] && this.hash == hash && fresh(buckets) && fresh(bloom)
    {
      this.hash, this.withBloom, this.bloomBits := hash, withBloom, bloomBits;
      head, tail, order, chains := null, null, [], [];
      buckets, bloom := new Bucket[0](_ => Bucket(null, 0, 0)), new bv8[0](_ => 0);
    }

    /** HASH_FIND: the live element with this key, if there is one. */
    method Find(key: Key) returns (out: Element?)
      requires Valid()
      ensures out == Lookup(order, key)
      ensures if out == null then forall e :: e in order ==> e.key != key else out in order && out.key == key
    {
      out := null;
      if head != null {
        assert BucketsOk(Elems(order)) && BloomOk(Elems(order)) && KeysDistinct(order);
        ElemsIn(order, order);
        hide *;
        BucketsArePlaced(Elems(order));
        var hashv := hash(key);
        var b := ToBkt(hashv, numBuckets);
        BloomBound(Elems(order));
        if BloomTest(hashv) {
          HeadOf(buckets[..], chains, b);
          ChainedAt(chains, b);
          out := FindInBkt(buckets[b].head, key, chains[b]);
          FoundIs(Elems(order), chains, hash, key, out);
        } else {
          NotInBloom(Elems(order), key);
        }
        LookupIs(order, key, out);
      }
    }

    lemma BloomBound(all: set<Element>)
      requires BloomOk(all)
      ensures withBloom ==> bloom.Length == BloomBytes(bloomBits)
    {
    }

    lemma NotInBloom(all: set<Element>, key: Key)
      requires BloomOk(all) && !BloomTest(hash(key))
      ensures forall e :: e in all ==> e.key != key
    {
    }

    // --- Adding ---

    /** Linking at the tail. */
    method AppendOrder(add: Element)
      requires OrderOk() && add !in order && add.next == null
      modifies this`tail, this`order, this`numItems, add`prev, order`next
      ensures OrderOk() && order == old(order) + [add]
    {
      hide Linked, Distinct;
      LinkLast(tail, add, order);
      tail := add;
      numItems := numItems + 1;
      order := order + [add];
    }

    /** HASH_MAKE_TABLE, except for its tail. */
    method MakeTable()
      modifies this`buckets, this`bloom, this`chains, this`numBuckets, this`log2NumBuckets, this`idealChainMaxlen,
               this`nonidealItems, this`ineffExpands, this`noexpand
      ensures BucketsOk({}) && BloomOk({}) && fresh(buckets) && fresh(bloom) && Separate()
      ensures numBuckets == 32 && ineffExpands == 0 && !noexpand
    {
      numBuckets, log2NumBuckets := INITIAL_NUM_BUCKETS, INITIAL_NUM_BUCKETS_LOG2;
      idealChainMaxlen, nonidealItems, ineffExpands, noexpand := 0, 0, 0, false;
      buckets := ZeroedBuckets(INITIAL_NUM_BUCKETS);
      bloom := new bv8[BloomBytes(bloomBits)](_ => 0);
      assert Pow2(5) == 32 by { assert Pow2(2) == 4; }
      chains := EmptyChains(INITIAL_NUM_BUCKETS);
      hide *;
      assert Pow2(log2NumBuckets) == 32 == buckets.Length == numBuckets;
      NothingYet(buckets[..], hash, 0);
      BucketsAre({});
      NoBloom();
      SeparateIs();
    }

    lemma NoBloom()
      requires withBloom ==> bloom.Length == BloomBytes(bloomBits)
      ensures BloomOk({})
    {
    }

    /** The first element of an empty table. */
    method StartTable(add: Element)
      requires add.next == null
      modifies this, add`prev
      ensures OrderOk() && order == [add] && BucketsOk({}) && BloomOk({}) && Separate()
      ensures fresh(buckets) && fresh(bloom)
      ensures numBuckets == 32 && ineffExpands == 0 && !noexpand
    {
      hide *;
      head, order := add, [add];
      add.prev := null;
      tail := add;
      numItems := 1;
      StartedWith(add);
      MakeTable();
    }

    lemma StartedWith(add: Element)
      requires order == [add] && head == tail == add && numItems == 1 && add.next == null && add.prev == null
      ensures OrderOk()
    {
    }

    /** The second half of HASH_ADD_KEYPTR: the bucket and the Bloom bit. */
    method Insert(add: Element, ghost all: set<Element>)
      requires numItems > 0 && BucketsOk(all) && Hashed(all, hash) && BloomOk(all) && add !in all && Separate()
      modifies buckets, bloom, this`buckets, this`numBuckets, this`log2NumBuckets, this`chains, this`idealChainMaxlen,
               this`nonidealItems, this`ineffExpands, this`noexpand, add`hashv, add`hhNext, add`hhPrev,
               all`hhNext, all`hhPrev
      ensures BucketsOk(all + {add}) && Hashed(all + {add}, hash) && BloomOk(all + {add}) && Separate()
      ensures buckets == old(buckets) || fresh(buckets)
    {
      hide *;
      SeparateIs();
      BucketsArePlaced(all);
      add.hashv := hash(add.key);
      HashedMore(all, hash, add);
      AddToBkt(ToBkt(add.hashv, numBuckets), add, all);
      SeparateIs();
      BucketsArePlaced(all + {add});
      BloomAdd(add, all);
    }

    lemma SeparateIs()
      ensures Separate() <==> (buckets as object) != (bloom as object)
    {
    }

    /** The parts of Valid that linking at the tail leaves alone. */
    method AppendKeeps(add: Element, ghost all: set<Element>)
      requires OrderOk() && add !in order && add.next == null && all == Elems(order)
      requires BucketsOk(all) && Hashed(all, hash) && BloomOk(all)
      modifies this`tail, this`order, this`numItems, add`prev, order`next
      ensures OrderOk() && order == old(order) + [add]
      ensures BucketsOk(all) && Hashed(all, hash) && BloomOk(all)
    {
      hide *;
      BucketsArePlaced(all);
      AppendOrder(add);
    }

    /** The element is in the list and in no bucket yet. */
    method LinkInOrder(add: Element, ghost all: set<Element>)
      requires if order == [] then head == null else head != null && OrderOk() && BucketsOk(all) && Separate()
      requires all == Elems(order) && Hashed(all, hash) && (order != [] ==> BloomOk(all)) && add !in order
      requires add.next == null
      modifies this, add`prev, order`next
      ensures OrderOk() && order == old(order) + [add] && numItems > 0
      ensures BucketsOk(all) && Hashed(all, hash) && BloomOk(all) && Separate()
      ensures if old(order) == [] then fresh(buckets) && fresh(bloom)
              else buckets == old(buckets) && bloom == old(bloom)
    {
      hide *;
      NoElements();
      if head == null {
        StartTable(add);
      } else {
        AppendKeeps(add, all);
      }
      OrderCount();
    }

    lemma NoElements()
      ensures order == [] ==> Elems(order) == {}
    {
    }

    /** HASH_ADD_KEYPTR, for a key that is not live. */
    method Add(add: Element)
      requires Valid() && add !in order && Lookup(order, add.key) == null
      modifies this, buckets, bloom, add, order`next, order`hhNext, order`hhPrev
      ensures Valid() && order == old(order) + [add] && OrderOk()
      ensures buckets == old(buckets) || fresh(buckets)
      ensures bloom == old(bloom) || fresh(bloom)
    {
      hide *;
      ValidParts();
      NewKey(order, add);
      ghost var all := Elems(order);
      ElemsPlus(order, add);
      add.next := null;
      LinkInOrder(add, all);
      label Linked:
      Insert(add, all);
      OrderKept@Linked();
      ValidNow();
    }

    lemma ValidParts()
      requires Valid()
      ensures if order == [] then head == null else head != null && OrderOk() && BucketsOk(Elems(order)) && Separate()
      ensures Hashed(Elems(order), hash) && (order != [] ==> BloomOk(Elems(order)))
      ensures order == [] || KeysDistinct(order)
      ensures order != [] ==> Members(chains) == Elems(order)
    {
      if order == [] {
        HashedNone(hash);
        assert Elems(order) == {};
      } else {
        BucketsArePlaced(Elems(order));
      }
    }

    twostate lemma OrderKept()
      requires old(OrderOk())
      requires order == old(order) && head == old(head) && tail == old(tail) && numItems == old(numItems)
      requires forall e :: e in order ==> e.next == old(e.next) && e.prev == old(e.prev)
      ensures OrderOk()
    {
    }

    lemma OrderCount()
      requires OrderOk()
      ensures numItems > 0
    {
    }

    lemma ValidNow()
      requires OrderOk() && KeysDistinct(order) && Separate()
      requires BucketsOk(Elems(order)) && Hashed(Elems(order), hash) && BloomOk(Elems(order))
      ensures Valid()
    {
    }

    // --- Deleting ---

    /** Takes the element at place i out of the list. */
    method UnlinkOrder(del: Element, ghost i: nat)
      requires OrderOk() && i < |order| && order[i] == del && |order| > 1
      modifies this`head, this`tail, this`order, this`numItems, order`next, order`prev
      ensures OrderOk() && order == Without(old(order), i)
    {
      hide *;
      OrderIs();
      WithoutIs(order, i);
      WithoutLength(order, i);
      head, tail := Unlink(head, tail, del, order, i);
      numItems := numItems - 1;
      order := Without(order, i);
      OrderIs();
    }

    lemma OrderIs()
      ensures OrderOk() <==> order != [] && Distinct(order) && Linked(order)
                             && head == order[0] && tail == order[|order| - 1] && numItems == |order|
    {
    }

    /** Takes the element out of its bucket. */
    method RemoveFromBkt(del: Element, b: nat, ghost all: set<Element>, ghost j: nat)
      requires BucketsOk(all) && b < |chains| && j < |chains[b]| && chains[b][j] == del
      modifies buckets, this`chains, all`hhNext, all`hhPrev
      ensures BucketsOk(all - {del})
    {
      hide *;
      BucketsArePlaced(all);
      PlacedDrop(all, chains, hash, b, j);
      PlacedChain(all, chains, hash, b);
      HoldsAt(buckets[..], chains, b);
      ghost var was := buckets[..];
      buckets[b] := UnchainAll(buckets[b], del, b, all, chains, hash, j);
      HoldsDrop(was, chains, b, j, buckets[b]);
      assert buckets[..] == was[b := buckets[b]];
      chains := Drop(chains, b, j);
      BucketsAre(all - {del});
    }

    lemma BloomKept(all: set<Element>, some: set<Element>)
      requires BloomOk(all) && some <= all
      ensures BloomOk(some)
    {
    }

    /** With neither neighbour the element is the only one. */
    lemma OnlyOne(del: Element, i: nat)
      requires OrderOk() && i < |order| && order[i] == del
      ensures del.prev == null && del.next == null <==> |order| == 1
      ensures |order| == 1 ==> Without(order, i) == []
    {
    }

    lemma ValidEmpty()
      requires order == [] && head == null
      ensures Valid()
    {
    }

    /** The element of a table with more than one goes from the list and from its bucket. */
    method Detach(del: Element, ghost i: nat, ghost all: set<Element>)
      requires OrderOk() && BucketsOk(all) && Hashed(all, hash) && BloomOk(all) && Separate() && KeysDistinct(order)
      requires all == Elems(order) && i < |order| && order[i] == del && |order| > 1
      modifies this`head, this`tail, this`order, this`numItems, this`chains, buckets,
               order`next, order`prev, order`hhNext, order`hhPrev
      ensures Valid() && order == Without(old(order), i)
    {
      hide *;
      SeparateIs();
      ElemsIn(order, order);
      BucketsArePlaced(all);
      HashedAt(all, hash, del);
      var b := ToBkt(del.hashv, numBuckets);
      ghost var j := PlaceInChain(all, chains, hash, del, b);
      ElemsWithout(order, i);
      OrderIs();
      UnlinkOrder(del, i);
      label Unlinked:
      RemoveFromBkt(del, b, all, j);
      OrderKept@Unlinked();
      HashedSubset(all, all - {del}, hash);
      BloomKept(all, all - {del});
      ValidNow();
    }

    /** HASH_DELETE. */
    method Delete(del: Element)
      requires Valid() && del in order
      modifies this`head, this`tail, this`order, this`numItems, this`chains, buckets,
               order`next, order`prev, order`hhNext, order`hhPrev
      ensures Valid() && order == Remove(old(order), del)
    {
      hide *;
      ValidParts();
      ghost var i := PlaceOf(order, del);
      OnlyOne(del, i);
      if del.prev == null && del.next == null {
        head := null;
        order := [];
        ValidEmpty();
      } else {
        Detach(del, i, Elems(order));
      }
    }
  }
}
