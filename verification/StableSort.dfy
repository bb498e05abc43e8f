/** The bottom-up merge sort of HASH_SRT, on sequences: what its passes compute, and that this is a stable sort. */
module StableSort {
  import opened Common

  type Cmp<!T> = (T, T) -> int

  /** On the elements of S, cmp(a, b) <= 0 is a total preorder: a may stand before b. */
  ghost predicate TotalPreorder<T>(cmp: Cmp<T>, S: set<T>) {
    && (forall a, b :: a in S && b in S ==> cmp(a, b) <= 0 || cmp(b, a) <= 0)
    && (forall a, b, c :: a in S && b in S && c in S && cmp(a, b) <= 0 && cmp(b, c) <= 0 ==> cmp(a, c) <= 0)
  }

  ghost predicate Within<T>(s: seq<T>, S: set<T>) { forall x :: x in s ==> x in S }

  // --- The algorithm ----------------------------------------------------------------------------

  function Merge<T>(cmp: Cmp<T>, p: seq<T>, q: seq<T>): (r: seq<T>)
    ensures |r| == |p| + |q|
    decreases |p| + |q|
  {
    if p == [] then q
    else if q == [] then p
    else if cmp(p[0], q[0]) <= 0 then [p[0]] + Merge(cmp, p[1..], q)
    else [q[0]] + Merge(cmp, p, q[1..])
  }

  /** The first run of length k, or what there is of it; the second; and the rest. */
  function FirstRun<T>(s: seq<T>, k: nat): seq<T> { s[..Min(k, |s|)] }

  function SecondRun<T>(s: seq<T>, k: nat): seq<T> { s[Min(k, |s|)..Min(2 * k, |s|)] }

  function Rest<T>(s: seq<T>, k: nat): seq<T> { s[Min(2 * k, |s|)..] }

  /** One pass: neighbouring runs of length k are merged. */
  function Pass<T>(cmp: Cmp<T>, s: seq<T>, k: nat): (r: seq<T>)
    requires k > 0
    ensures |r| == |s|
    decreases |s|
  {
    if s == [] then [] else Merge(cmp, FirstRun(s, k), SecondRun(s, k)) + Pass(cmp, Rest(s, k), k)
  }

  /** Passes with doubled runs until one pass needs no more than one merge. */
  function BottomUp<T>(cmp: Cmp<T>, s: seq<T>, k: nat): (r: seq<T>)
    requires k > 0
    ensures |r| == |s|
    decreases |s| - k
  {
    if |s| <= 2 * k then Pass(cmp, s, k) else BottomUp(cmp, Pass(cmp, s, k), 2 * k)
  }

  // --- What sorting means -----------------------------------------------------------------------

  ghost predicate Sorted<T>(cmp: Cmp<T>, s: seq<T>) {
    forall i, j :: 0 <= i < j < |s| ==> cmp(s[i], s[j]) <= 0
  }

  /** Every run of k, counted from the start, is sorted. */
  ghost predicate RunsSorted<T>(cmp: Cmp<T>, s: seq<T>, k: nat)
    decreases |s|
  {
    k > 0 ==> s == [] || (Sorted(cmp, s[..Min(k, |s|)]) && RunsSorted(cmp, s[Min(k, |s|)..], k))
  }

  predicate Tied<T>(cmp: Cmp<T>, a: T, b: T) { cmp(a, b) <= 0 && cmp(b, a) <= 0 }

  /** The elements that tie with x, in their order. */
  function Ties<T>(cmp: Cmp<T>, s: seq<T>, x: T): seq<T> {
    if s == [] then [] else (if Tied(cmp, s[0], x) then [s[0]] else []) + Ties(cmp, s[1..], x)
  }

  /** t is s sorted, with ties in their old order. */
  ghost predicate IsStableSort<T>(cmp: Cmp<T>, s: seq<T>, t: seq<T>) {
    Sorted(cmp, t) && multiset(t) == multiset(s) && forall x :: x in s ==> Ties(cmp, t, x) == Ties(cmp, s, x)
  }

  // --- Proof ------------------------------------------------------------------------------------

  lemma {:induction false} MergeMultiset<T>(cmp: Cmp<T>, p: seq<T>, q: seq<T>)
    ensures multiset(Merge(cmp, p, q)) == multiset(p) + multiset(q)
    decreases |p| + |q|
  {
    if p != [] && q != [] {
      if cmp(p[0], q[0]) <= 0 {
        assert p == [p[0]] + p[1..];
        MergeMultiset(cmp, p[1..], q);
      } else {
        assert q == [q[0]] + q[1..];
        MergeMultiset(cmp, p, q[1..]);
      }
    }
  }

  lemma SortedCons<T>(cmp: Cmp<T>, x: T, s: seq<T>)
    requires Sorted(cmp, s) && Before(cmp, x, s)
    ensures Sorted(cmp, [x] + s)
  {
  }

  lemma SortedTail<T>(cmp: Cmp<T>, s: seq<T>)
    requires Sorted(cmp, s) && s != []
    ensures Sorted(cmp, s[1..]) && Before(cmp, s[0], s[1..])
  {
  }

  lemma BeforeAll<T>(cmp: Cmp<T>, S: set<T>, x: T, s: seq<T>)
    requires TotalPreorder(cmp, S) && x in S && Within(s, S) && Sorted(cmp, s) && s != [] && cmp(x, s[0]) <= 0
    ensures Before(cmp, x, s)
  {
    forall i | 0 <= i < |s| ensures cmp(x, s[i]) <= 0 {
      assert i > 0 ==> cmp(s[0], s[i]) <= 0;
      assert s[0] in s && s[i] in s;
    }
  }

  ghost predicate Before<T>(cmp: Cmp<T>, x: T, s: seq<T>) { forall i :: 0 <= i < |s| ==> cmp(x, s[i]) <= 0 }

  lemma {:induction false} MergeBefore<T>(cmp: Cmp<T>, x: T, p: seq<T>, q: seq<T>)
    requires Before(cmp, x, p) && Before(cmp, x, q)
    ensures Before(cmp, x, Merge(cmp, p, q))
    decreases |p| + |q|
  {
    if p != [] && q != [] {
      if cmp(p[0], q[0]) <= 0 { MergeBefore(cmp, x, p[1..], q); } else { MergeBefore(cmp, x, p, q[1..]); }
    }
  }

  lemma {:induction false} MergeSorts<T>(cmp: Cmp<T>, S: set<T>, p: seq<T>, q: seq<T>)
    requires TotalPreorder(cmp, S) && Within(p, S) && Within(q, S) && Sorted(cmp, p) && Sorted(cmp, q)
    ensures Sorted(cmp, Merge(cmp, p, q))
    decreases |p| + |q|
  {
    if p != [] && q != [] {
      SortedTail(cmp, p);
      SortedTail(cmp, q);
      if cmp(p[0], q[0]) <= 0 {
        BeforeAll(cmp, S, p[0], q);
        MergeSorts(cmp, S, p[1..], q);
        MergeBefore(cmp, p[0], p[1..], q);
        SortedCons(cmp, p[0], Merge(cmp, p[1..], q));
      } else {
        assert cmp(q[0], p[0]) <= 0;
        BeforeAll(cmp, S, q[0], p);
        MergeSorts(cmp, S, p, q[1..]);
        MergeBefore(cmp, q[0], p, q[1..]);
        SortedCons(cmp, q[0], Merge(cmp, p, q[1..]));
      }
      hide Sorted, TotalPreorder;
    }
  }

  lemma {:induction false} NoTies<T>(cmp: Cmp<T>, s: seq<T>, x: T)
    requires forall i :: 0 <= i < |s| ==> !Tied(cmp, s[i], x)
    ensures Ties(cmp, s, x) == []
  {
    if s != [] { NoTies(cmp, s[1..], x); }
  }

  lemma {:induction false} TiesConcat<T>(cmp: Cmp<T>, s: seq<T>, t: seq<T>, x: T)
    ensures Ties(cmp, s + t, x) == Ties(cmp, s, x) + Ties(cmp, t, x)
  {
    if s == [] {
      assert s + t == t;
    } else {
      assert (s + t)[1..] == s[1..] + t && (s + t)[0] == s[0];
      TiesConcat(cmp, s[1..], t, x);
      var first := if Tied(cmp, s[0], x) then [s[0]] else [];
      assert Ties(cmp, s, x) == first + Ties(cmp, s[1..], x);
      assert Ties(cmp, s + t, x) == first + Ties(cmp, s[1..] + t, x);
      hide Ties, Tied;
    }
  }

  /** When q[0] goes first although p[0] was there before, nothing in p ties with q[0]. */
  lemma TakenFirst<T>(cmp: Cmp<T>, S: set<T>, p: seq<T>, y: T, x: T)
    requires TotalPreorder(cmp, S) && Within(p, S) && y in S && x in S && p != [] && Sorted(cmp, p)
    requires cmp(p[0], y) > 0 && Tied(cmp, y, x)
    ensures Ties(cmp, p, x) == []
  {
    forall i | 0 <= i < |p| ensures !Tied(cmp, p[i], x) {
      assert p[0] in p && p[i] in p;
      assert i > 0 ==> cmp(p[0], p[i]) <= 0;
    }
    NoTies(cmp, p, x);
  }

  function OneTie<T>(cmp: Cmp<T>, a: T, x: T): seq<T> { if Tied(cmp, a, x) then [a] else [] }

  lemma TiesCons<T>(cmp: Cmp<T>, a: T, s: seq<T>, x: T)
    ensures Ties(cmp, [a] + s, x) == OneTie(cmp, a, x) + Ties(cmp, s, x)
  {
    assert ([a] + s)[1..] == s;
  }

  lemma MergeTakes<T>(cmp: Cmp<T>, p: seq<T>, q: seq<T>)
    requires p != [] && q != []
    ensures Merge(cmp, p, q) ==
            if cmp(p[0], q[0]) <= 0 then [p[0]] + Merge(cmp, p[1..], q) else [q[0]] + Merge(cmp, p, q[1..])
  {
  }

  lemma WithinTail<T>(s: seq<T>, S: set<T>)
    requires Within(s, S) && s != []
    ensures s[0] in S && Within(s[1..], S) && s == [s[0]] + s[1..]
  {
  }

  lemma EmptyMerge<T>(cmp: Cmp<T>, p: seq<T>, q: seq<T>, x: T)
    requires p == [] || q == []
    ensures Ties(cmp, Merge(cmp, p, q), x) == Ties(cmp, p, x) + Ties(cmp, q, x)
  {
  }

  lemma {:induction false} MergeIsStable<T>(cmp: Cmp<T>, S: set<T>, p: seq<T>, q: seq<T>, x: T)
    requires TotalPreorder(cmp, S) && Within(p, S) && Within(q, S) && x in S && Sorted(cmp, p) && Sorted(cmp, q)
    ensures Ties(cmp, Merge(cmp, p, q), x) == Ties(cmp, p, x) + Ties(cmp, q, x)
    decreases |p| + |q|
  {
    hide *;
    if p == [] || q == [] {
      EmptyMerge(cmp, p, q, x);
    } else {
      SortedTail(cmp, p);
      SortedTail(cmp, q);
      WithinTail(p, S);
      WithinTail(q, S);
      MergeTakes(cmp, p, q);
      if cmp(p[0], q[0]) <= 0 {
        MergeIsStable(cmp, S, p[1..], q, x);
        TiesCons(cmp, p[0], Merge(cmp, p[1..], q), x);
        TiesCons(cmp, p[0], p[1..], x);
      } else {
        MergeIsStable(cmp, S, p, q[1..], x);
        TiesCons(cmp, q[0], Merge(cmp, p, q[1..]), x);
        TiesCons(cmp, q[0], q[1..], x);
        SwapTie(cmp, S, p, q[0], x);
        var h, u, v := OneTie(cmp, q[0], x), Ties(cmp, p, x), Ties(cmp, q[1..], x);
        assert h + (u + v) == (h + u) + v && (u + h) + v == u + (h + v);
      }
    }
  }

  /** An element that overtakes the run p does not overtake a tie of its own. */
  lemma SwapTie<T>(cmp: Cmp<T>, S: set<T>, p: seq<T>, y: T, x: T)
    requires TotalPreorder(cmp, S) && Within(p, S) && y in S && x in S && p != [] && Sorted(cmp, p) && cmp(p[0], y) > 0
    ensures OneTie(cmp, y, x) + Ties(cmp, p, x) == Ties(cmp, p, x) + OneTie(cmp, y, x)
  {
    if Tied(cmp, y, x) { TakenFirst(cmp, S, p, y, x); }
    hide Ties, TotalPreorder, Sorted, Within;
  }

  lemma Runs<T>(s: seq<T>, k: nat)
    ensures s == FirstRun(s, k) + SecondRun(s, k) + Rest(s, k)
    ensures k > 0 && s != [] ==> |Rest(s, k)| < |s|
    ensures |FirstRun(s, k)| + |SecondRun(s, k)| == Min(2 * k, |s|)
  {
  }

  lemma RunsWithin<T>(s: seq<T>, k: nat, S: set<T>)
    requires Within(s, S)
    ensures Within(FirstRun(s, k), S) && Within(SecondRun(s, k), S) && Within(Rest(s, k), S)
  {
  }

  lemma PassStep<T>(cmp: Cmp<T>, s: seq<T>, k: nat)
    requires k > 0 && s != []
    ensures Pass(cmp, s, k) == Merge(cmp, FirstRun(s, k), SecondRun(s, k)) + Pass(cmp, Rest(s, k), k)
  {
  }

  lemma {:induction false} PassMultiset<T>(cmp: Cmp<T>, s: seq<T>, k: nat)
    requires k > 0
    ensures multiset(Pass(cmp, s, k)) == multiset(s)
    decreases |s|
  {
    if s != [] {
      hide *;
      Runs(s, k);
      PassStep(cmp, s, k);
      MergeMultiset(cmp, FirstRun(s, k), SecondRun(s, k));
      PassMultiset(cmp, Rest(s, k), k);
    }
  }

  lemma RunsOf<T>(cmp: Cmp<T>, s: seq<T>, k: nat)
    requires k > 0 && RunsSorted(cmp, s, k) && s != []
    ensures Sorted(cmp, FirstRun(s, k)) && Sorted(cmp, SecondRun(s, k)) && RunsSorted(cmp, Rest(s, k), k)
  {
    var mid, end := Min(k, |s|), Min(2 * k, |s|);
    var later := s[mid..];
    assert RunsSorted(cmp, later, k) && Min(k, |later|) == end - mid;
    assert later[..end - mid] == SecondRun(s, k) && later[end - mid..] == Rest(s, k);
    hide Sorted;
  }

  lemma RunsJoin<T>(cmp: Cmp<T>, m: seq<T>, after: seq<T>, k: nat, n: nat)
    requires k > 0 && Sorted(cmp, m) && RunsSorted(cmp, after, k) && n == |m| + |after| && |m| == Min(k, n)
    ensures RunsSorted(cmp, m + after, k)
  {
    assert (m + after)[..|m|] == m && (m + after)[|m|..] == after;
    hide Sorted;
  }

  lemma {:induction false} PassSorts<T>(cmp: Cmp<T>, S: set<T>, s: seq<T>, k: nat)
    requires k > 0 && TotalPreorder(cmp, S) && Within(s, S) && RunsSorted(cmp, s, k)
    ensures RunsSorted(cmp, Pass(cmp, s, k), 2 * k)
    decreases |s|
  {
    if s != [] {
      hide *;
      Runs(s, k);
      RunsWithin(s, k, S);
      RunsOf(cmp, s, k);
      PassStep(cmp, s, k);
      MergeSorts(cmp, S, FirstRun(s, k), SecondRun(s, k));
      PassSorts(cmp, S, Rest(s, k), k);
      RunsJoin(cmp, Merge(cmp, FirstRun(s, k), SecondRun(s, k)), Pass(cmp, Rest(s, k), k), 2 * k, |s|);
    }
  }

  lemma TiesReplaced<T>(cmp: Cmp<T>, p: seq<T>, q: seq<T>, rest: seq<T>, m: seq<T>, after: seq<T>, x: T)
    requires Ties(cmp, m, x) == Ties(cmp, p, x) + Ties(cmp, q, x) && Ties(cmp, after, x) == Ties(cmp, rest, x)
    ensures Ties(cmp, m + after, x) == Ties(cmp, p + q + rest, x)
  {
    hide *;
    TiesConcat(cmp, m, after, x);
    TiesConcat(cmp, p + q, rest, x);
    TiesConcat(cmp, p, q, x);
  }

  lemma {:induction false} PassIsStable<T>(cmp: Cmp<T>, S: set<T>, s: seq<T>, k: nat, x: T)
    requires k > 0 && TotalPreorder(cmp, S) && Within(s, S) && RunsSorted(cmp, s, k) && x in S
    ensures Ties(cmp, Pass(cmp, s, k), x) == Ties(cmp, s, x)
    decreases |s|
  {
    if s != [] {
      hide *;
      var p, q, rest := FirstRun(s, k), SecondRun(s, k), Rest(s, k);
      Runs(s, k);
      RunsWithin(s, k, S);
      RunsOf(cmp, s, k);
      PassStep(cmp, s, k);
      MergeIsStable(cmp, S, p, q, x);
      PassIsStable(cmp, S, rest, k, x);
      TiesReplaced(cmp, p, q, rest, Merge(cmp, p, q), Pass(cmp, rest, k), x);
    }
  }

  lemma {:induction false} SinglesSorted<T>(cmp: Cmp<T>, s: seq<T>)
    ensures RunsSorted(cmp, s, 1)
    decreases |s|
  {
    if s != [] { SinglesSorted(cmp, s[1..]); }
  }

  lemma {:induction false} BottomUpSorts<T>(cmp: Cmp<T>, S: set<T>, s: seq<T>, k: nat)
    requires k > 0 && TotalPreorder(cmp, S) && Within(s, S) && RunsSorted(cmp, s, k)
    ensures var t := BottomUp(cmp, s, k);
            Sorted(cmp, t) && multiset(t) == multiset(s) && forall x :: x in S ==> Ties(cmp, t, x) == Ties(cmp, s, x)
    decreases |s| - k
  {
    var r := Pass(cmp, s, k);
    PassMultiset(cmp, s, k);
    PassSorts(cmp, S, s, k);
    forall x | x in S ensures Ties(cmp, r, x) == Ties(cmp, s, x) { PassIsStable(cmp, S, s, k, x); }
    if |s| <= 2 * k {
      assert r[..|r|] == r;
    } else {
      assert Within(r, S) by { SameElements(r, s); }
      hide Sorted, TotalPreorder, Merge, Ties, RunsSorted, Within, Pass;
      BottomUpSorts(cmp, S, r, 2 * k);
    }
  }

  lemma SameElements<T>(s: seq<T>, t: seq<T>)
    requires multiset(s) == multiset(t)
    ensures forall x :: x in s <==> x in t
  {
    forall x ensures x in s <==> x in t { assert x in multiset(s) <==> x in multiset(t); }
  }

  /** HASH_SRT's passes are a stable sort, for every length and every total preorder. */
  lemma BottomUpIsStableSort<T>(cmp: Cmp<T>, S: set<T>, s: seq<T>)
    requires TotalPreorder(cmp, S) && Within(s, S)
    ensures IsStableSort(cmp, s, BottomUp(cmp, s, 1))
  {
    SinglesSorted(cmp, s);
    BottomUpSorts(cmp, S, s, 1);
  }
}
