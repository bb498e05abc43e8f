/** HASH_SRT: sorting the insertion-order list of a table in place. */
module HashSort {
  import opened Common
  import opened HashTable
  import opened StableSort

  // --- The list while a pass is under way -------------------------------------------------------

  /** next has not been changed yet from place lo of s to place hi. */
  ghost predicate Ahead(s: seq<Element>, lo: nat, hi: nat)
    requires lo <= hi <= |s|
    reads s[lo..hi]`next
  {
    forall i :: lo <= i < hi ==> assert s[i] == s[lo..hi][i - lo]; s[i].next == At(s, i + 1)
  }

  /** The new list, whose last next is still to be set. */
  ghost predicate Built(out: seq<Element>)
    reads out`next, out`prev
  {
    forall i :: 0 <= i < |out| ==> out[i].prev == At(out, i - 1) && (i + 1 < |out| ==> out[i].next == out[i + 1])
  }

  /** The new list has none of the elements still waiting in the two runs and behind them. */
  ghost predicate Clear(out: seq<Element>, s: seq<Element>, pi: nat, mid: nat, qi: nat) {
    && pi <= mid <= qi <= |s| && Distinct(s) && Distinct(out) && (forall x :: x in out ==> x in s)
    && (forall i :: pi <= i < mid ==> s[i] !in out)
    && (forall i :: qi <= i < |s| ==> s[i] !in out)
  }

  /** What tail and list are for the list out. */
  ghost predicate Ends(out: seq<Element>, list: Element?, tail: Element?) {
    list == First(out) && tail == At(out, |out| - 1)
  }

  /** Moves e to the end of the new list. */
  method Append(e: Element, list0: Element?, tail: Element?, ghost out: seq<Element>) returns (list: Element?)
    requires Built(out) && Distinct(out) && e !in out && Ends(out, list0, tail)
    modifies e`prev, Elems(out)`next
    ensures Built(out + [e]) && Ends(out + [e], list, e)
  {
    list := list0;
    if tail != null {
      tail.next := e;
    } else {
      list := e;
    }
    e.prev := tail;
  }

  lemma ClearFirst(out: seq<Element>, s: seq<Element>, pi: nat, mid: nat, qi: nat)
    requires Clear(out, s, pi, mid, qi) && pi < mid
    ensures s[pi] !in out && Clear(out + [s[pi]], s, pi + 1, mid, qi)
    ensures forall x :: x in s[pi + 1..mid] || x in s[qi..] ==> x !in out
  {
  }

  lemma ClearSecond(out: seq<Element>, s: seq<Element>, pi: nat, mid: nat, qi: nat)
    requires Clear(out, s, pi, mid, qi) && qi < |s|
    ensures s[qi] !in out && Clear(out + [s[qi]], s, pi, mid, qi + 1)
    ensures forall x :: x in s[pi..mid] || x in s[qi + 1..] ==> x !in out
  {
  }

  /** The next element of two sorted runs, and what remains of them. */
  function Chosen(cmp: Cmp<Element>, s: seq<Element>, pi: nat, mid: nat, qi: nat, end: nat): bool
    requires pi <= mid <= qi <= end <= |s| && (pi < mid || qi < end)
  {
    pi < mid && (qi == end || cmp(s[pi], s[qi]) <= 0)
  }

  lemma MergeChosen(cmp: Cmp<Element>, s: seq<Element>, pi: nat, mid: nat, qi: nat, end: nat)
    requires pi <= mid <= qi <= end <= |s| && (pi < mid || qi < end)
    ensures Merge(cmp, s[pi..mid], s[qi..end]) ==
            if Chosen(cmp, s, pi, mid, qi, end) then [s[pi]] + Merge(cmp, s[pi + 1..mid], s[qi..end])
            else [s[qi]] + Merge(cmp, s[pi..mid], s[qi + 1..end])
  {
    if pi < mid { assert s[pi..mid][1..] == s[pi + 1..mid]; }
    if qi < end { assert s[qi..end][1..] == s[qi + 1..end]; }
    if pi == mid { assert s[qi..end] == [s[qi]] + s[qi + 1..end]; }
    if pi < mid && qi == end { assert s[pi..mid] == [s[pi]] + s[pi + 1..mid]; }
  }

  /** The local variables of the inner loop, for runs that begin at pi and qi of s. */
  ghost predicate Merging(s: seq<Element>, out: seq<Element>, p: Element?, q: Element?, psize: nat, qsize: nat,
                          list: Element?, tail: Element?, pi: nat, mid: nat, qi: nat, insize: nat)
  {
    && Clear(out, s, pi, mid, qi) && Ends(out, list, tail) && qi <= Min(mid + insize, |s|)
    && psize == mid - pi && (psize > 0 ==> p == s[pi]) && q == At(s, qi) && qsize + (qi - mid) == insize
  }

  lemma AheadStep(s: seq<Element>, lo: nat, hi: nat)
    requires lo < hi <= |s| && Ahead(s, lo, hi)
    ensures Ahead(s, lo + 1, hi) && s[lo].next == At(s, lo + 1)
  {
    assert s[lo] == s[lo..hi][0];
  }

  /** Which run the next element comes from, and the handles after it is taken. */
  method Take(cmp: Cmp<Element>, p0: Element?, q0: Element?, psize0: nat, qsize0: nat, ghost s: seq<Element>,
              ghost out: seq<Element>, list: Element?, tail: Element?,
              ghost pi: nat, ghost mid: nat, ghost qi: nat, ghost insize: nat)
    returns (e: Element, p: Element?, q: Element?, psize: nat, qsize: nat, ghost fromP: bool)
    requires Merging(s, out, p0, q0, psize0, qsize0, list, tail, pi, mid, qi, insize)
    requires Ahead(s, pi, mid) && Ahead(s, qi, |s|)
    requires psize0 > 0 || (qsize0 > 0 && q0 != null)
    ensures fromP == Chosen(cmp, s, pi, mid, qi, Min(mid + insize, |s|))
    ensures fromP ==> e == s[pi] && p == At(s, pi + 1) && psize == psize0 - 1 && q == q0 && qsize == qsize0
    ensures !fromP ==> qi < |s| && e == s[qi] && q == At(s, qi + 1) && qsize == qsize0 - 1 && p == p0 && psize == psize0
  {
    hide Ahead, Clear, Ends;
    assert pi <= mid <= qi <= |s| by { ClearBounds(out, s, pi, mid, qi); }
    p, q, psize, qsize := p0, q0, psize0, qsize0;
    if pi < mid { AheadStep(s, pi, mid); }
    if qi < |s| { AheadStep(s, qi, |s|); }
    if psize == 0 {
      e := q;
      q := q.next;
      qsize := qsize - 1;
      fromP := false;
    } else if qsize == 0 || q == null {
      e := p;
      p := p.next;
      psize := psize - 1;
      fromP := true;
    } else if cmp(p, q) <= 0 {
      e := p;
      p := p.next;
      psize := psize - 1;
      fromP := true;
    } else {
      e := q;
      q := q.next;
      qsize := qsize - 1;
      fromP := false;
    }
  }

  lemma ClearBounds(out: seq<Element>, s: seq<Element>, pi: nat, mid: nat, qi: nat)
    requires Clear(out, s, pi, mid, qi)
    ensures pi <= mid <= qi <= |s| && Distinct(out)
  {
  }

  /** The new list with what is still to come out of the two runs. */
  ghost function Total(cmp: Cmp<Element>, s: seq<Element>, out: seq<Element>,
                       pi: nat, mid: nat, qi: nat, insize: nat): seq<Element>
    requires pi <= mid <= qi <= Min(mid + insize, |s|)
  {
    out + Merge(cmp, s[pi..mid], s[qi..Min(mid + insize, |s|)])
  }

  /** The links as they are in the middle of a merge. */
  ghost predicate Links(s: seq<Element>, out: seq<Element>, pi: nat, mid: nat, qi: nat)
    requires pi <= mid <= qi <= |s|
    reads s[pi..mid]`next, s[qi..]`next, out`next, out`prev
  {
    Ahead(s, pi, mid) && Ahead(s, qi, |s|) && Built(out)
  }

  lemma TotalFirst(cmp: Cmp<Element>, s: seq<Element>, out: seq<Element>, pi: nat, mid: nat, qi: nat, insize: nat)
    requires pi < mid <= qi <= Min(mid + insize, |s|) && Chosen(cmp, s, pi, mid, qi, Min(mid + insize, |s|))
    ensures Total(cmp, s, out + [s[pi]], pi + 1, mid, qi, insize) == Total(cmp, s, out, pi, mid, qi, insize)
  {
    hide Merge, Chosen;
    MergeChosen(cmp, s, pi, mid, qi, Min(mid + insize, |s|));
  }

  lemma TotalSecond(cmp: Cmp<Element>, s: seq<Element>, out: seq<Element>, pi: nat, mid: nat, qi: nat, insize: nat)
    requires pi <= mid <= qi < Min(mid + insize, |s|) && !Chosen(cmp, s, pi, mid, qi, Min(mid + insize, |s|))
    ensures Total(cmp, s, out + [s[qi]], pi, mid, qi + 1, insize) == Total(cmp, s, out, pi, mid, qi, insize)
  {
    hide Merge, Chosen;
    MergeChosen(cmp, s, pi, mid, qi, Min(mid + insize, |s|));
  }

  lemma TookFirst(cmp: Cmp<Element>, s: seq<Element>, out: seq<Element>, p: Element?, q: Element?, psize: nat,
                  qsize: nat, list: Element?, tail: Element?, pi: nat, mid: nat, qi: nat, insize: nat,
                  list': Element?)
    requires Merging(s, out, p, q, psize, qsize, list, tail, pi, mid, qi, insize) && pi < mid
    requires Chosen(cmp, s, pi, mid, qi, Min(mid + insize, |s|)) && Ends(out + [s[pi]], list', s[pi])
    ensures Merging(s, out + [s[pi]], At(s, pi + 1), q, psize - 1, qsize, list', s[pi], pi + 1, mid, qi, insize)
    ensures Total(cmp, s, out + [s[pi]], pi + 1, mid, qi, insize) == Total(cmp, s, out, pi, mid, qi, insize)
  {
    hide Clear, Ends;
    ClearBounds(out, s, pi, mid, qi);
    ClearFirst(out, s, pi, mid, qi);
    TotalFirst(cmp, s, out, pi, mid, qi, insize);
    hide Total, Chosen;
  }

  lemma TookSecond(cmp: Cmp<Element>, s: seq<Element>, out: seq<Element>, p: Element?, q: Element?, psize: nat,
                   qsize: nat, list: Element?, tail: Element?, pi: nat, mid: nat, qi: nat, insize: nat,
                   list': Element?)
    requires Merging(s, out, p, q, psize, qsize, list, tail, pi, mid, qi, insize) && qi < Min(mid + insize, |s|)
    requires !Chosen(cmp, s, pi, mid, qi, Min(mid + insize, |s|)) && Ends(out + [s[qi]], list', s[qi])
    ensures Merging(s, out + [s[qi]], p, At(s, qi + 1), psize, qsize - 1, list', s[qi], pi, mid, qi + 1, insize)
    ensures Total(cmp, s, out + [s[qi]], pi, mid, qi + 1, insize) == Total(cmp, s, out, pi, mid, qi, insize)
  {
    hide Clear, Ends;
    ClearBounds(out, s, pi, mid, qi);
    ClearSecond(out, s, pi, mid, qi);
    TotalSecond(cmp, s, out, pi, mid, qi, insize);
    hide Total, Chosen;
  }

  lemma MergingIs(s: seq<Element>, out: seq<Element>, p: Element?, q: Element?, psize: nat, qsize: nat,
                  list: Element?, tail: Element?, pi: nat, mid: nat, qi: nat, insize: nat)
    requires Merging(s, out, p, q, psize, qsize, list, tail, pi, mid, qi, insize)
    ensures Clear(out, s, pi, mid, qi) && Ends(out, list, tail) && Distinct(out)
    ensures pi <= mid <= qi <= Min(mid + insize, |s|) <= |s|
    ensures (psize > 0 <==> pi < mid) && ((qsize > 0 && q != null) <==> qi < Min(mid + insize, |s|)) && q == At(s, qi)
    ensures forall x :: x in out <==> x in Elems(out)
    ensures forall x :: x in s <==> x in Elems(s)
    ensures Elems(out) <= Elems(s)
  {
    hide Ends;
  }

  lemma LinksAre(s: seq<Element>, out: seq<Element>, pi: nat, mid: nat, qi: nat)
    requires pi <= mid <= qi <= |s|
    ensures Links(s, out, pi, mid, qi) <==> Ahead(s, pi, mid) && Ahead(s, qi, |s|) && Built(out)
  {
  }

  /** One turn of the loop that merges two runs. */
  method MergeStep(cmp: Cmp<Element>, p0: Element?, q0: Element?, psize0: nat, qsize0: nat,
                   list0: Element?, tail0: Element?, ghost s: seq<Element>, ghost out0: seq<Element>,
                   ghost pi0: nat, ghost mid: nat, ghost qi0: nat, ghost insize: nat)
    returns (p: Element?, q: Element?, psize: nat, qsize: nat, list: Element?, tail: Element?,
             ghost out: seq<Element>, ghost pi: nat, ghost qi: nat)
    requires pi0 <= mid <= qi0 <= Min(mid + insize, |s|) <= |s|
    requires Merging(s, out0, p0, q0, psize0, qsize0, list0, tail0, pi0, mid, qi0, insize)
    requires Links(s, out0, pi0, mid, qi0)
    requires psize0 > 0 || (qsize0 > 0 && q0 != null)
    modifies Elems(s)`next, Elems(s)`prev
    ensures pi <= mid <= qi <= Min(mid + insize, |s|)
    ensures Merging(s, out, p, q, psize, qsize, list, tail, pi, mid, qi, insize)
    ensures Links(s, out, pi, mid, qi)
    ensures Total(cmp, s, out, pi, mid, qi, insize) == Total(cmp, s, out0, pi0, mid, qi0, insize)
    ensures (mid - pi) + (Min(mid + insize, |s|) - qi) < (mid - pi0) + (Min(mid + insize, |s|) - qi0)
  {
    hide *;
    LinksAre(s, out0, pi0, mid, qi0);
    MergingIs(s, out0, p0, q0, psize0, qsize0, list0, tail0, pi0, mid, qi0, insize);
    var e;
    ghost var fromP;
    e, p, q, psize, qsize, fromP := Take(cmp, p0, q0, psize0, qsize0, s, out0, list0, tail0, pi0, mid, qi0, insize);
    pi, qi := pi0, qi0;
    ChosenBounds(cmp, s, pi0, mid, qi0, Min(mid + insize, |s|));
    if fromP {
      ClearFirst(out0, s, pi, mid, qi);
      AheadStep(s, pi, mid);
      pi := pi + 1;
    } else {
      ClearSecond(out0, s, pi, mid, qi);
      AheadStep(s, qi, |s|);
      qi := qi + 1;
    }
    assert e !in out0 && e in s && Elems(out0) <= Elems(s);
    list := Append(e, list0, tail0, out0);
    tail := e;
    out := out0 + [e];
    if fromP {
      TookFirst(cmp, s, out0, p0, q0, psize0, qsize0, list0, tail0, pi0, mid, qi0, insize, list);
    } else {
      TookSecond(cmp, s, out0, p0, q0, psize0, qsize0, list0, tail0, pi0, mid, qi0, insize, list);
    }
    LinksAre(s, out, pi, mid, qi);
  }

  lemma ChosenBounds(cmp: Cmp<Element>, s: seq<Element>, pi: nat, mid: nat, qi: nat, end: nat)
    requires pi <= mid <= qi <= end <= |s| && (pi < mid || qi < end)
    ensures if Chosen(cmp, s, pi, mid, qi, end) then pi < mid else qi < end
  {
  }

  /** Merges the run from base to mid with the one from mid on. */
  method MergeRuns(cmp: Cmp<Element>, p0: Element?, q0: Element?, psize0: nat, insize: nat,
                   list0: Element?, tail0: Element?, ghost s: seq<Element>, ghost out0: seq<Element>,
                   ghost base: nat, ghost mid: nat)
    returns (q: Element?, list: Element?, tail: Element?, ghost out: seq<Element>, ghost qi: nat)
    requires base <= mid <= Min(mid + insize, |s|) <= |s|
    requires Merging(s, out0, p0, q0, psize0, insize, list0, tail0, base, mid, mid, insize)
    requires Links(s, out0, base, mid, mid)
    modifies Elems(s)`next, Elems(s)`prev
    ensures mid <= qi == Min(mid + insize, |s|) && q == At(s, qi)
    ensures out == Total(cmp, s, out0, base, mid, mid, insize)
    ensures Clear(out, s, mid, mid, qi) && Ends(out, list, tail) && Links(s, out, mid, mid, qi)
  {
    hide *;
    var p, psize, qsize := p0, psize0, insize;
    ghost var pi: nat := base;
    q, list, tail, out, qi := q0, list0, tail0, out0, mid;
    MergingIs(s, out, p, q, psize, qsize, list, tail, pi, mid, qi, insize);
    while psize > 0 || (qsize > 0 && q != null)
      invariant pi <= mid <= qi <= Min(mid + insize, |s|)
      invariant Merging(s, out, p, q, psize, qsize, list, tail, pi, mid, qi, insize) && Links(s, out, pi, mid, qi)
      invariant Total(cmp, s, out, pi, mid, qi, insize) == Total(cmp, s, out0, base, mid, mid, insize)
      decreases (mid - pi) + (Min(mid + insize, |s|) - qi)
    {
      p, q, psize, qsize, list, tail, out, pi, qi :=
        MergeStep(cmp, p, q, psize, qsize, list, tail, s, out, pi, mid, qi, insize);
    }
    MergingIs(s, out, p, q, psize, qsize, list, tail, pi, mid, qi, insize);
    TotalDone(cmp, s, out, mid, insize);
  }

  lemma TotalDone(cmp: Cmp<Element>, s: seq<Element>, out: seq<Element>, mid: nat, insize: nat)
    requires mid <= Min(mid + insize, |s|)
    ensures Total(cmp, s, out, mid, mid, Min(mid + insize, |s|), insize) == out
  {
  }

  lemma ClearAgain(out: seq<Element>, s: seq<Element>, mid: nat, end: nat)
    requires Clear(out, s, mid, mid, end)
    ensures Clear(out, s, end, end, end)
  {
  }

  /** Walks insize elements on, or to the end of the list. */
  method SplitRun(p: Element, insize: nat, ghost s: seq<Element>, ghost base: nat)
    returns (q: Element?, psize: nat, ghost mid: nat)
    requires base < |s| && p == s[base] && Ahead(s, base, |s|) && insize > 0
    ensures mid == Min(base + insize, |s|) && base < mid <= |s| && psize == mid - base && q == At(s, mid)
    ensures Ahead(s, base, mid) && Ahead(s, mid, |s|)
  {
    q, psize := p, 0;
    var i := 0;
    while i < insize
      invariant i <= insize && psize == i && base + i < |s| && q == s[base + i]
    {
      psize := psize + 1;
      assert s[base..][i] == s[base + i];
      q := q.next;
      if q == null { break; }
      i := i + 1;
    }
    mid := base + psize;
    AheadSplit(s, base, mid);
  }

  lemma AheadSplit(s: seq<Element>, lo: nat, mid: nat)
    requires lo <= mid <= |s| && Ahead(s, lo, |s|)
    ensures Ahead(s, lo, mid) && Ahead(s, mid, |s|)
  {
  }

  // --- A pass and the whole sort ----------------------------------------------------------------

  /** The new list with what the rest of the pass makes of the rest of s. */
  ghost function Whole(cmp: Cmp<Element>, s: seq<Element>, out: seq<Element>, base: nat, insize: nat): seq<Element>
    requires base <= |s| && insize > 0
  {
    out + Pass(cmp, s[base..], insize)
  }

  lemma RunsOfRest(s: seq<Element>, base: nat, mid: nat, end: nat, insize: nat)
    requires base < mid <= end <= |s| && mid == Min(base + insize, |s|) && end == Min(mid + insize, |s|)
    ensures FirstRun(s[base..], insize) == s[base..mid] && SecondRun(s[base..], insize) == s[mid..end]
    ensures Rest(s[base..], insize) == s[end..] && end == Min(base + 2 * insize, |s|)
  {
    var rest := s[base..];
    assert Min(insize, |rest|) == mid - base && Min(2 * insize, |rest|) == end - base;
    SliceOfSlice(s, base, 0, mid - base);
    SliceOfSlice(s, base, mid - base, end - base);
    SliceOfSlice(s, base, end - base, |rest|);
  }

  lemma SliceOfSlice(s: seq<Element>, a: nat, b: nat, c: nat)
    requires a <= |s| && b <= c <= |s| - a
    ensures s[a..][b..c] == s[a + b..a + c]
  {
  }

  lemma WholeTurn(cmp: Cmp<Element>, s: seq<Element>, out: seq<Element>, base: nat, mid: nat, end: nat, insize: nat)
    requires base < mid <= end <= |s| && insize > 0
    requires mid == Min(base + insize, |s|) && end == Min(mid + insize, |s|)
    ensures Whole(cmp, s, Total(cmp, s, out, base, mid, mid, insize), end, insize) == Whole(cmp, s, out, base, insize)
    ensures end == Min(base + 2 * insize, |s|)
  {
    hide Merge, Pass, FirstRun, SecondRun, Rest;
    PassStep(cmp, s[base..], insize);
    RunsOfRest(s, base, mid, end, insize);
    var m, r := Merge(cmp, s[base..mid], s[mid..end]), Pass(cmp, s[end..], insize);
    assert out + m + r == out + (m + r);
    assert Total(cmp, s, out, base, mid, mid, insize) == out + m;
  }

  /** Between two merges. */
  ghost predicate Between(s: seq<Element>, out: seq<Element>, list: Element?, tail: Element?, base: nat)
    requires base <= |s|
    reads s[base..]`next, out`next, out`prev
  {
    Clear(out, s, base, base, base) && Ends(out, list, tail) && Ahead(s, base, |s|) && Built(out)
  }

  lemma StartMerging(s: seq<Element>, out: seq<Element>, list: Element?, tail: Element?, base: nat,
                     mid: nat, psize: nat, q: Element?, insize: nat)
    requires base < |s| && Between(s, out, list, tail, base) && mid == Min(base + insize, |s|) && insize > 0
    requires psize == mid - base && q == At(s, mid)
    ensures mid <= Min(mid + insize, |s|) && base < mid <= |s|
    ensures Merging(s, out, s[base], q, psize, insize, list, tail, base, mid, mid, insize)
    ensures Links(s, out, base, mid, mid)
  {
    AheadSplit(s, base, mid);
    hide Ahead, Ends, Built;
  }

  lemma StopMerging(s: seq<Element>, out: seq<Element>, list: Element?, tail: Element?, mid: nat, end: nat)
    requires mid <= end <= |s| && Clear(out, s, mid, mid, end) && Ends(out, list, tail) && Links(s, out, mid, mid, end)
    ensures Between(s, out, list, tail, end)
  {
    ClearAgain(out, s, mid, end);
    hide Clear, Ahead, Ends, Built;
  }

  lemma BetweenAhead(s: seq<Element>, out: seq<Element>, list: Element?, tail: Element?, base: nat)
    requires base <= |s| && Between(s, out, list, tail, base)
    ensures Ahead(s, base, |s|)
  {
  }

  /** One turn of the loop of a pass: two runs are split off and merged. */
  method MergeTwo(cmp: Cmp<Element>, p: Element, insize: nat, list0: Element?, tail0: Element?,
                  ghost s: seq<Element>, ghost out0: seq<Element>, ghost base: nat)
    returns (q: Element?, list: Element?, tail: Element?, ghost out: seq<Element>, ghost end: nat)
    requires base < |s| && p == s[base] && insize > 0 && Between(s, out0, list0, tail0, base)
    modifies Elems(s)`next, Elems(s)`prev
    ensures base < end == Min(base + 2 * insize, |s|) <= |s| && q == At(s, end)
    ensures Between(s, out, list, tail, end) && Whole(cmp, s, out, end, insize) == Whole(cmp, s, out0, base, insize)
  {
    hide Between, Whole, Total, Links, Clear, Ends, Built, Ahead, Merging;
    var psize;
    ghost var mid;
    BetweenAhead(s, out0, list0, tail0, base);
    q, psize, mid := SplitRun(p, insize, s, base);
    StartMerging(s, out0, list0, tail0, base, mid, psize, q, insize);
    q, list, tail, out, end := MergeRuns(cmp, p, q, psize, insize, list0, tail0, s, out0, base, mid);
    StopMerging(s, out, list, tail, mid, end);
    WholeTurn(cmp, s, out0, base, mid, end, insize);
  }

  lemma StartPass(cmp: Cmp<Element>, s: seq<Element>, insize: nat)
    requires Linked(s) && Distinct(s) && insize > 0
    ensures Between(s, [], null, null, 0) && Whole(cmp, s, [], 0, insize) == Pass(cmp, s, insize)
  {
    assert s[0..] == s && [] + Pass(cmp, s, insize) == Pass(cmp, s, insize);
    hide Pass;
  }

  lemma EndPass(cmp: Cmp<Element>, s: seq<Element>, out: seq<Element>, list: Element?, tail: Element?, insize: nat)
    requires insize > 0 && s != [] && Between(s, out, list, tail, |s|)
    ensures Whole(cmp, s, out, |s|, insize) == out && Distinct(out) && Built(out) && Elems(out) <= Elems(s)
    ensures |out| == |Whole(cmp, s, out, |s|, insize)| && Ends(out, list, tail)
  {
    assert s[|s|..] == [];
  }

  lemma EndsAre(out: seq<Element>, list: Element?, tail: Element?)
    requires Ends(out, list, tail) && out != []
    ensures list == out[0] && tail == out[|out| - 1] && tail in Elems(out)
  {
  }

  /** The loop over the merges of a pass. */
  method MergeLoop(cmp: Cmp<Element>, list0: Element, insize: nat, ghost s: seq<Element>)
    returns (list: Element?, tail: Element?, nmerges: nat, ghost out: seq<Element>)
    requires s != [] && list0 == s[0] && insize > 0 && Between(s, [], null, null, 0)
    modifies Elems(s)`next, Elems(s)`prev
    ensures Between(s, out, list, tail, |s|) && Whole(cmp, s, out, |s|, insize) == Whole(cmp, s, [], 0, insize)
    ensures nmerges <= 1 <==> |s| <= 2 * insize
  {
    hide Between, Whole, Elems;
    var p: Element? := list0;
    list, tail, nmerges, out := null, null, 0, [];
    ghost var base: nat := 0;
    while p != null
      invariant base <= |s| && p == At(s, base) && Between(s, out, list, tail, base)
      invariant Whole(cmp, s, out, base, insize) == Whole(cmp, s, [], 0, insize)
      invariant if nmerges == 0 then base == 0 else if nmerges == 1 then base == Min(2 * insize, |s|)
                else 2 * insize < |s|
      decreases |s| - base
    {
      nmerges := nmerges + 1;
      p, list, tail, out, base := MergeTwo(cmp, p, insize, list, tail, s, out, base);
    }
  }

  /** One pass. */
  method MergePass(cmp: Cmp<Element>, list0: Element, insize: nat, ghost s: seq<Element>)
    returns (list: Element, tail: Element, nmerges: nat)
    requires s != [] && Linked(s) && Distinct(s) && list0 == s[0] && insize > 0
    modifies Elems(s)`next, Elems(s)`prev
    ensures var out := Pass(cmp, s, insize);
            Linked(out) && Distinct(out) && Elems(out) <= Elems(s) && list == out[0] && tail == out[|out| - 1]
    ensures nmerges <= 1 <==> |s| <= 2 * insize
  {
    hide *;
    StartPass(cmp, s, insize);
    var l, t;
    ghost var out;
    l, t, nmerges, out := MergeLoop(cmp, list0, insize, s);
    EndPass(cmp, s, out, l, t, insize);
    EndsAre(out, l, t);
    list, tail := l, t;
    EndList(tail, out);
  }

  /** The null that ends the new list. */
  method EndList(tail: Element, ghost out: seq<Element>)
    requires out != [] && Built(out) && Distinct(out) && tail == out[|out| - 1]
    modifies tail`next
    ensures Linked(out)
  {
    tail.next := null;
  }

  /** One turn of the outer loop; it was the last one when there was at most one merge. */
  lemma SortTurn(cmp: Cmp<Element>, s: seq<Element>, insize: nat, nmerges: nat)
    requires insize > 0 && s != [] && (nmerges <= 1 <==> |s| <= 2 * insize)
    ensures |Pass(cmp, s, insize)| == |s|
    ensures if nmerges <= 1 then BottomUp(cmp, s, insize) == Pass(cmp, s, insize)
            else BottomUp(cmp, s, insize) == BottomUp(cmp, Pass(cmp, s, insize), 2 * insize) && 2 * insize < |s|
  {
    hide Pass;
  }

  /** The loops of HASH_SRT, on the list alone. */
  method SortList(cmp: Cmp<Element>, first: Element, ghost s0: seq<Element>) returns (head: Element, tail: Element)
    requires s0 != [] && Linked(s0) && Distinct(s0) && first == s0[0]
    modifies Elems(s0)`next, Elems(s0)`prev
    ensures var s := BottomUp(cmp, s0, 1);
            Linked(s) && Distinct(s) && |s| == |s0| && head == s[0] && tail == s[|s| - 1]
  {
    hide Linked, Distinct, Elems, Pass, BottomUp;
    var insize, looping, list := 1, true, first;
    head, tail := first, first;
    ghost var s := s0;
    while looping
      invariant insize > 0 && s != [] && Linked(s) && Distinct(s) && list == s[0] && |s| == |s0|
      invariant Elems(s) <= Elems(s0)
      invariant looping ==> BottomUp(cmp, s, insize) == BottomUp(cmp, s0, 1)
      invariant !looping ==> s == BottomUp(cmp, s0, 1) && head == list && tail == s[|s| - 1]
      decreases looping, |s| - insize
    {
      var last, nmerges;
      SubsetNext(s, s0);
      list, last, nmerges := MergePass(cmp, list, insize, s);
      SortTurn(cmp, s, insize, nmerges);
      s := Pass(cmp, s, insize);
      if nmerges <= 1 {
        looping := false;
        tail := last;
        head := list;
      }
      insize := insize * 2;
    }
  }

  lemma SubsetNext(s: seq<Element>, t: seq<Element>)
    requires Elems(s) <= Elems(t)
    ensures forall e :: e in Elems(s) ==> e in Elems(t)
  {
  }

  lemma Reordered(s: seq<Element>, t: seq<Element>)
    requires KeysDistinct(s) && multiset(t) == multiset(s) && Distinct(t)
    ensures KeysDistinct(t) && Elems(t) == Elems(s)
  {
    SameElements(t, s);
    forall i, j | 0 <= i < j < |t| ensures t[i].key != t[j].key {
      assert t[i] in s && t[j] in s && t[i] != t[j];
    }
  }

  lemma {:induction false} BottomUpMultiset(cmp: Cmp<Element>, s: seq<Element>, k: nat)
    requires k > 0
    ensures multiset(BottomUp(cmp, s, k)) == multiset(s)
    decreases |s| - k
  {
    PassMultiset(cmp, s, k);
    hide Pass;
    if |s| > 2 * k { BottomUpMultiset(cmp, Pass(cmp, s, k), 2 * k); }
  }

  /** Relinking the list leaves the buckets alone. */
  method SortKeeps(t: Table, cmp: Cmp<Element>, first: Element, ghost s: seq<Element>, ghost all: set<Element>)
    returns (head: Element, tail: Element)
    requires s != [] && Linked(s) && Distinct(s) && first == s[0] && all == Elems(s)
    requires t.BucketsOk(all) && Hashed(all, t.hash) && t.BloomOk(all)
    modifies all`next, all`prev
    ensures t.BucketsOk(all) && Hashed(all, t.hash) && t.BloomOk(all)
    ensures var u := BottomUp(cmp, s, 1);
            Linked(u) && Distinct(u) && |u| == |s| && head == u[0] && tail == u[|u| - 1]
  {
    hide *;
    t.BucketsArePlaced(all);
    head, tail := SortList(cmp, first, s);
  }

  /** HASH_SRT: the list becomes the sorted one, whatever cmp is; the buckets are not touched. */
  method Sort(t: Table, cmp: Cmp<Element>)
    requires t.Valid()
    modifies t`head, t`tail, t`order, t.order`next, t.order`prev
    ensures t.Valid() && t.order == if old(t.order) == [] then [] else BottomUp(cmp, old(t.order), 1)
  {
    hide *;
    t.ValidParts();
    if t.head != null {
      ghost var s, all := t.order, Elems(t.order);
      t.OrderIs();
      ElemsIn(s, s);
      BottomUpMultiset(cmp, s, 1);
      var head, tail := SortKeeps(t, cmp, t.head, s, all);
      t.head, t.tail := head, tail;
      t.order := BottomUp(cmp, s, 1);
      Reordered(s, t.order);
      t.OrderIs();
      t.ValidNow();
    }
  }

  /** With a total preorder on the elements, HASH_SRT leaves a stable sort; and every HASH_FIND has the answer it
      had before. */
  lemma SortIsStable(cmp: Cmp<Element>, s: seq<Element>, key: Key)
    requires KeysDistinct(s) && TotalPreorder(cmp, Elems(s))
    ensures IsStableSort(cmp, s, BottomUp(cmp, s, 1))
    ensures Lookup(BottomUp(cmp, s, 1), key) == Lookup(s, key)
  {
    var t := BottomUp(cmp, s, 1);
    BottomUpIsStableSort(cmp, Elems(s), s);
    BottomUpMultiset(cmp, s, 1);
    hide BottomUp;
    DistinctByMultiset(s, t);
    Reordered(s, t);
    LookupReordered(s, t, key);
  }

  lemma LookupReordered(s: seq<Element>, t: seq<Element>, key: Key)
    requires KeysDistinct(s) && KeysDistinct(t) && Elems(s) == Elems(t)
    ensures Lookup(s, key) == Lookup(t, key)
  {
    ElemsIn(s, t);
    LookupFinds(s, key);
    LookupIs(t, key, Lookup(s, key));
  }

  lemma {:induction false} LookupFinds(s: seq<Element>, key: Key)
    ensures var out := Lookup(s, key);
            if out == null then forall e :: e in s ==> e.key != key else out in s && out.key == key
  {
    if s != [] && s[0].key != key { LookupFinds(s[1..], key); }
  }

  lemma DistinctByMultiset(s: seq<Element>, t: seq<Element>)
    requires KeysDistinct(s) && multiset(s) == multiset(t)
    ensures Distinct(t)
  {
    forall i, j | 0 <= i < j < |t| ensures t[i] != t[j] {
      AtMostOnce(s, t[i]);
      TwiceIsTwo(t, i, j);
    }
  }

  lemma {:induction false} AtMostOnce(s: seq<Element>, e: Element)
    requires KeysDistinct(s)
    ensures multiset(s)[e] <= 1
  {
    if s != [] {
      assert s == [s[0]] + s[1..];
      AtMostOnce(s[1..], e);
    }
  }

  lemma TwiceIsTwo(t: seq<Element>, i: nat, j: nat)
    requires i < j < |t|
    ensures t[i] == t[j] ==> multiset(t)[t[i]] >= 2
  {
    assert t == t[..i] + [t[i]] + t[i + 1..j] + [t[j]] + t[j + 1..];
  }
}
