/** nsdl_lineS: a line on a surface, by Bresenham's algorithm with a limit of 1000 points. */
module Line {
  import opened Common

  type Point = (int, int)

  const LIMIT := 1000

  // --- What a line is ---------------------------------------------------------------------------

  function Sign(a: int, b: int): int { if a < b then 1 else -1 }

  /** How far a steps of the minor axis are from the ideal after n steps of the major one, times the length of the
      major axis. */
  function Off(n: int, a: int, major: nat, minor: nat): int { n * minor - a * major }

  /** At most half a pixel from the ideal; when it lies exactly between two pixels, the line has not yet stepped. */
  predicate Near(n: int, a: int, major: nat, minor: nat) {
    2 * Off(n, a, major, minor) <= major && (major > 0 ==> 0 - major < 2 * Off(n, a, major, minor))
  }

  /** The point number n of the line from s to e, when j and k count the steps in x and in y. */
  predicate OnLine(s: Point, e: Point, n: nat, j: nat, k: nat) {
    var dx, dy := Abs(e.0 - s.0), Abs(e.1 - s.1);
    j <= n && k <= n && if dx >= dy then j == n && Near(n, k, dx, dy) else k == n && Near(n, j, dy, dx)
  }

  function At(s: Point, e: Point, j: nat, k: nat): Point {
    (if s.0 < e.0 then s.0 + j else s.0 - j, if s.1 < e.1 then s.1 + k else s.1 - k)
  }

  /** p is point number n: n whole steps along the longer axis, and within half a pixel on the other. */
  ghost predicate IsPoint(s: Point, e: Point, n: nat, p: Point) {
    exists j: nat, k: nat :: OnLine(s, e, n, j, k) && p == At(s, e, j, k)
  }

  predicate Neighbours(p: Point, q: Point) {
    p != q && Abs(p.0 - q.0) <= 1 && Abs(p.1 - q.1) <= 1
  }

  /** ps begins the line from s to e. */
  ghost predicate IsPath(s: Point, e: Point, ps: seq<Point>) {
    && (forall n :: 0 <= n < |ps| ==> IsPoint(s, e, n, ps[n]))
    && (forall n :: 0 < n < |ps| ==> Neighbours(ps[n - 1], ps[n]))
  }

  // --- The error term ---------------------------------------------------------------------------

  lemma OffSteps(n: int, a: int, major: nat, minor: nat)
    ensures Off(n + 1, a, major, minor) == Off(n, a, major, minor) + minor
    ensures Off(n, a + 1, major, minor) == Off(n, a, major, minor) - major
  {
  }

  /** err is a linear function of how far the line is off. */
  predicate ErrIs(err: int, dx: nat, dy: nat, j: nat, k: nat) {
    err == dx - dy + (if dx >= dy then 0 - Off(j, k, dx, dy) else Off(k, j, dy, dx))
  }

  lemma WholeMultiple(d: int, m: nat, p: int)
    requires m > 0 && p == d * m && 0 - m <= 2 * p <= m
    ensures d == 0
  {
    assert d >= 1 ==> d * m >= 1 * m;
    assert d <= -1 ==> d * m <= -1 * m;
  }

  /** There is one such pixel for each n: the ideal rounded, halves down. */
  lemma NearIs(n: nat, a: nat, major: nat, minor: nat)
    requires major > 0
    ensures Near(n, a, major, minor) <==> a == (2 * n * minor + major - 1) / (2 * major)
  {
    var v, m := 2 * n * minor + major - 1, 2 * major;
    var r := v - a * m;
    assert r == 2 * Off(n, a, major, minor) + major - 1 by {
      assert a * (2 * major) == 2 * (a * major) && 2 * n * minor == 2 * (n * minor);
    }
    assert Near(n, a, major, minor) <==> 0 <= r < m;
    hide Near;
    if 0 <= r < m {
      DivModOf(r, a, m);
    } else if a == v / m {
      DivMod(v, m);
    }
  }

  lemma Factor(n: int, a: int, m: int)
    ensures n * m - a * m == (n - a) * m
  {
  }

  /** At the last step of the major axis the minor one is complete too. */
  lemma LastIsEnd(a: nat, major: nat, minor: nat)
    requires major > 0 && Near(major, a, major, minor)
    ensures a == minor
  {
    Factor(minor, a, major);
    assert major * minor == minor * major;
    WholeMultiple(minor - a, major, Off(major, a, major, minor));
  }

  /** Where both axes are equally long every point is on the diagonal. */
  lemma Diagonal(n: nat, a: nat, major: nat)
    requires major > 0 && Near(n, a, major, major)
    ensures a == n && Off(n, a, major, major) == 0
  {
    Factor(n, a, major);
    WholeMultiple(n - a, major, Off(n, a, major, major));
  }

  /** The two tests of the loop always step along the longer axis, and along the shorter one when otherwise the
      line would be more than half a pixel off. */
  lemma StepIsRight(s: Point, e: Point, n: nat, j: nat, k: nat, err: int)
    requires s != e && OnLine(s, e, n, j, k)
    requires ErrIs(err, Abs(e.0 - s.0), Abs(e.1 - s.1), j, k)
    ensures var dx, dy := Abs(e.0 - s.0), Abs(e.1 - s.1);
            var right, down := 2 * err > 0 - dy, 2 * err < dx;
            var j', k' := if right then j + 1 else j, if down then k + 1 else k;
            && OnLine(s, e, n + 1, j', k') && (right || down)
            && ErrIs(err - (if right then dy else 0) + (if down then dx else 0), dx, dy, j', k')
  {
    var dx, dy := Abs(e.0 - s.0), Abs(e.1 - s.1);
    hide Off;
    if dx >= dy {
      if dx == dy { Diagonal(n, k, dx); }
      OffSteps(j, k, dx, dy);
      OffSteps(j + 1, k, dx, dy);
    } else {
      OffSteps(k, j, dy, dx);
      OffSteps(k + 1, j, dy, dx);
    }
  }

  lemma BothComplete(s: Point, e: Point, n: nat, j: nat, k: nat)
    requires OnLine(s, e, n, j, k) && n == Max(Abs(e.0 - s.0), Abs(e.1 - s.1))
    ensures j == Abs(e.0 - s.0) && k == Abs(e.1 - s.1)
  {
    hide Near;
    var dx, dy := Abs(e.0 - s.0), Abs(e.1 - s.1);
    if n > 0 { LastIsEnd(if dx >= dy then k else j, n, if dx >= dy then dy else dx); }
  }

  /** Of each length there is one path. */
  lemma PathIsUnique(s: Point, e: Point, ps: seq<Point>, qs: seq<Point>)
    requires IsPath(s, e, ps) && IsPath(s, e, qs) && |ps| == |qs| <= Max(Abs(e.0 - s.0), Abs(e.1 - s.1)) + 1
    ensures ps == qs
  {
    forall n | 0 <= n < |ps| ensures ps[n] == qs[n] {
      assert IsPoint(s, e, n, ps[n]) && IsPoint(s, e, n, qs[n]);
      hide IsPath;
      PointIsUnique(s, e, n, ps[n], qs[n]);
    }
  }

  lemma PointIsUnique(s: Point, e: Point, n: nat, p: Point, q: Point)
    requires IsPoint(s, e, n, p) && IsPoint(s, e, n, q) && n <= Max(Abs(e.0 - s.0), Abs(e.1 - s.1))
    ensures p == q
  {
    var dx, dy := Abs(e.0 - s.0), Abs(e.1 - s.1);
    var j: nat, k: nat :| OnLine(s, e, n, j, k) && p == At(s, e, j, k);
    var j': nat, k': nat :| OnLine(s, e, n, j', k') && q == At(s, e, j', k');
    hide Near, At, Max;
    if dx >= dy > 0 || dx > dy {
      NearIs(n, k, dx, dy);
      NearIs(n, k', dx, dy);
    } else if dy > 0 {
      NearIs(n, j, dy, dx);
      NearIs(n, j', dy, dx);
    } else {
      assert n == 0 by { hide OnLine; }
    }
  }

  lemma MajorCount(s: Point, e: Point, n: nat, j: nat, k: nat)
    requires OnLine(s, e, n, j, k)
    ensures if Abs(e.0 - s.0) >= Abs(e.1 - s.1) then j == n else k == n
  {
    hide Near;
  }

  /** The loop returns at the end point and nowhere before. */
  lemma EndReached(s: Point, e: Point, n: nat, j: nat, k: nat)
    requires OnLine(s, e, n, j, k) && n <= Max(Abs(e.0 - s.0), Abs(e.1 - s.1))
    ensures At(s, e, j, k) == e <==> n == Max(Abs(e.0 - s.0), Abs(e.1 - s.1))
  {
    hide OnLine;
    MajorCount(s, e, n, j, k);
    if n == Max(Abs(e.0 - s.0), Abs(e.1 - s.1)) { BothComplete(s, e, n, j, k); }
  }

  lemma PathGrows(s: Point, e: Point, ps: seq<Point>, p: Point, j: nat, k: nat)
    requires IsPath(s, e, ps) && OnLine(s, e, |ps|, j, k) && p == At(s, e, j, k)
    requires ps != [] ==> Neighbours(ps[|ps| - 1], p)
    ensures IsPath(s, e, ps + [p])
  {
    assert IsPoint(s, e, |ps|, p);
    hide OnLine, At, Neighbours, IsPoint;
  }

  /** The loop before its turn number |ps|, when (cx, cy) has not been plotted yet. */
  ghost predicate Plotting(s: Point, e: Point, ps: seq<Point>, p: Point, err: int, j: nat, k: nat) {
    && IsPath(s, e, ps) && OnLine(s, e, |ps|, j, k) && p == At(s, e, j, k)
    && ErrIs(err, Abs(e.0 - s.0), Abs(e.1 - s.1), j, k)
    && |ps| <= Max(Abs(e.0 - s.0), Abs(e.1 - s.1))
    && (ps != [] ==> Neighbours(ps[|ps| - 1], p))
  }

  lemma StartPlotting(s: Point, e: Point)
    ensures Plotting(s, e, [], s, Abs(e.0 - s.0) - Abs(e.1 - s.1), 0, 0)
  {
  }

  lemma Plotted(s: Point, e: Point, ps: seq<Point>, p: Point, err: int, j: nat, k: nat)
    requires Plotting(s, e, ps, p, err, j, k)
    ensures IsPath(s, e, ps + [p]) && |ps| <= Max(Abs(e.0 - s.0), Abs(e.1 - s.1))
    ensures p == e <==> |ps| == Max(Abs(e.0 - s.0), Abs(e.1 - s.1))
  {
    PathGrows(s, e, ps, p, j, k);
    EndReached(s, e, |ps|, j, k);
  }

  lemma NextPoint(s: Point, e: Point, ps: seq<Point>, p: Point, err: int, j: nat, k: nat)
    requires Plotting(s, e, ps, p, err, j, k) && p != e
    ensures var dx, dy := Abs(e.0 - s.0), Abs(e.1 - s.1);
            var right, down := 2 * err > 0 - dy, 2 * err < dx;
            Plotting(s, e, ps + [p],
                     (if right then p.0 + Sign(s.0, e.0) else p.0, if down then p.1 + Sign(s.1, e.1) else p.1),
                     err - (if right then dy else 0) + (if down then dx else 0),
                     if right then j + 1 else j, if down then k + 1 else k)
  {
    hide IsPath, OnLine, ErrIs, Max;
    Plotted(s, e, ps, p, err, j, k);
    if s == e { Trivial(s, e, ps); }
    StepIsRight(s, e, |ps|, j, k, err);
  }

  lemma Trivial(s: Point, e: Point, ps: seq<Point>)
    requires s == e && |ps| <= Max(Abs(e.0 - s.0), Abs(e.1 - s.1))
    ensures |ps| == Max(Abs(e.0 - s.0), Abs(e.1 - s.1))
  {
  }

  /** The end of one turn of the loop: on to the next point. */
  method Advance(ghost s: Point, ghost e: Point, cx0: int, cy0: int, err0: int, dx: int, dy: int, sx: int, sy: int,
                 ghost ps: seq<Point>, ghost j0: nat, ghost k0: nat)
    returns (cx: int, cy: int, err: int, ghost j: nat, ghost k: nat)
    requires Plotting(s, e, ps, (cx0, cy0), err0, j0, k0) && (cx0, cy0) != e
    requires dx == Abs(e.0 - s.0) && dy == Abs(e.1 - s.1) && sx == Sign(s.0, e.0) && sy == Sign(s.1, e.1)
    ensures Plotting(s, e, ps + [(cx0, cy0)], (cx, cy), err, j, k)
  {
    NextPoint(s, e, ps, (cx0, cy0), err0, j0, k0);
    hide *;
    cx, cy, err, j, k := cx0, cy0, err0, j0, k0;
    var e2 := 2 * err;
    if e2 > 0 - dy { err := err - dy; cx := cx + sx; j := j + 1; }
    if e2 < dx { err := err + dx; cy := cy + sy; k := k + 1; }
  }

  // --- The surface ------------------------------------------------------------------------------

  class Surface {
    const w: nat
    const h: nat
    var pixels: array2<nat>

    ghost predicate Valid()
      reads this`pixels
    {
      pixels.Length0 == h && pixels.Length1 == w
    }

    constructor (w: nat, h: nat)
      ensures Valid() && this.w == w && this.h == h && fresh(pixels) && forall p :: Inside(p) ==> Pixel(p) == 0
    {
      this.w, this.h := w, h;
      pixels := new nat[h, w]((y, x) => 0);
    }

    predicate Inside(p: Point) { 0 <= p.0 < w && 0 <= p.1 < h }

    function Pixel(p: Point): nat
      reads this`pixels, pixels
      requires Valid() && Inside(p)
    {
      pixels[p.1, p.0]
    }

    /** nsdl_pointS: points outside the surface are ignored. */
    method PointS(x: int, y: int, value: nat)
      requires Valid()
      modifies pixels
      ensures forall p :: Inside(p) ==> Pixel(p) == if p == (x, y) then value else old(Pixel(p))
    {
      if x < 0 || y < 0 || x >= w || y >= h { return; }
      pixels[y, x] := value;
    }

    /** nsdl_lineS. ps is the points plotted, in their order. */
    method LineS(startX: int, startY: int, endX: int, endY: int, color: nat) returns (ghost ps: seq<Point>)
      requires Valid()
      modifies pixels
      ensures var s, e := (startX, startY), (endX, endY); var length := Max(Abs(endX - startX), Abs(endY - startY));
              && |ps| == Min(length + 1, 1000) && IsPath(s, e, ps)
              && (length < 1000 ==> ps[length] == e)
      ensures forall p :: Inside(p) ==> Pixel(p) == if p in ps then color else old(Pixel(p))
    {
      var cx, cy := startX, startY;
      var dx, dy := endX - cx, endY - cy;
      if dx < 0 { dx := 0 - dx; }
      if dy < 0 { dy := 0 - dy; }
      var sx, sy := 0, 0;
      if cx < endX { sx := 1; } else { sx := -1; }
      if cy < endY { sy := 1; } else { sy := -1; }
      var err := dx - dy;
      ghost var s, e, j: nat, k: nat := (startX, startY), (endX, endY), 0, 0;
      ps := [];
      assert dx == Abs(endX - startX) && dy == Abs(endY - startY);
      assert sx == Sign(startX, endX) && sy == Sign(startY, endY);
      StartPlotting(s, e);
      hide *;
      for n := 0 to LIMIT
        invariant |ps| == n && Plotting(s, e, ps, (cx, cy), err, j, k) && IsPath(s, e, ps)
        invariant |ps| <= Max(Abs(endX - startX), Abs(endY - startY))
        invariant forall p :: Inside(p) ==> Pixel(p) == if p in ps then color else old(Pixel(p))
      {
        Plotted(s, e, ps, (cx, cy), err, j, k);
        PointS(cx, cy, color);
        ghost var before := ps;
        ps := ps + [(cx, cy)];
        if cx == endX && cy == endY { return; }
        cx, cy, err, j, k := Advance(s, e, cx, cy, err, dx, dy, sx, sy, before, j, k);
      }
    }
  }
}
