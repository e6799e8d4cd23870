/** fillTriangle of Adafruit_GFX: one horizontal span per scanline between two interpolated edges. */
module Triangles {
  import opened MachineInts
  import opened Arithmetic
  import opened Lines
  import opened Circles

  /** A call of writeFastHLine: w pixels from (x, y) rightwards. */
  datatype HLine = HLine(x: int, y: int, w: int) {
    predicate Paints(u: int, v: int) {
      v == y && x <= u < x + w
    }
  }

  // ----- what the spans should be

  /** Where the edge from p down to q crosses scanline y, truncated toward p. */
  function Cross(p: Point, q: Point, y: int): int
    requires p.y < q.y
  {
    p.x + Quot((q.x - p.x) * (y - p.y), q.y - p.y)
  }

  datatype Triangle = Triangle(p: Point, q: Point, s: Point) {
    predicate Sorted() { p.y <= q.y <= s.y }

    /** The span of scanline y, by the interpolation formulas in longhand. */
    function Span(y: int): HLine
      requires Sorted() && p.y < s.y && p.y <= y
    {
      var a := if y < q.y || q.y == s.y then Cross(p, q, y) else Cross(q, s, y);
      var b := Cross(p, s, y);
      HLine(Min(a, b), y, Max(a, b) - Min(a, b) + 1)
    }

    /** One span per scanline; all vertices on one scanline are a single span. */
    function Spans(): seq<HLine>
      requires Sorted()
    {
      if p.y == s.y then
        var a, b := Min(p.x, Min(q.x, s.x)), Max(p.x, Max(q.x, s.x));
        [HLine(a, p.y, b - a + 1)]
      else seq(s.y - p.y + 1, k requires 0 <= k => Span(p.y + k))
    }
  }

  /** The three compare-and-swap steps. */
  function SortByY(t: Triangle): Triangle {
    var t1 := if t.p.y > t.q.y then Triangle(t.q, t.p, t.s) else t;
    var t2 := if t1.q.y > t1.s.y then Triangle(t1.p, t1.s, t1.q) else t1;
    if t2.p.y > t2.q.y then Triangle(t2.q, t2.p, t2.s) else t2
  }

  lemma SortedByY(t: Triangle)
    ensures SortByY(t).Sorted()
    ensures multiset{SortByY(t).p, SortByY(t).q, SortByY(t).s} == multiset{t.p, t.q, t.s}
  {}

  /** Vertices for which no int16 or int32 variable of fillTriangle wraps. */
  predicate Fits(t: Triangle) {
    InRange(t.p) && InRange(t.q) && InRange(t.s) && Close(t.p, t.q) && Close(t.q, t.s) && Close(t.p, t.s)
  }

  predicate InRange(a: Point) {
    -0x8000 <= a.x < 0x8000 && -0x8000 < a.y < 0x7FFF
  }

  predicate Close(a: Point, b: Point) {
    Abs(a.x - b.x) <= 0x7FFE && Abs(a.y - b.y) <= 0x7FFF
  }

  // ----- crossings

  lemma CrossEnds(p: Point, q: Point)
    requires p.y < q.y
    ensures Cross(p, q, p.y) == p.x && Cross(p, q, q.y) == q.x
  {
    hide Quot;
    QuotOfSignedFraction(q.x - p.x, 0, q.y - p.y);
    QuotOfSignedFraction(q.x - p.x, q.y - p.y, q.y - p.y);
  }

  /** A crossing lies between the ends of its edge. */
  lemma CrossBetween(p: Point, q: Point, y: int)
    requires p.y < q.y && p.y <= y <= q.y
    ensures Min(p.x, q.x) <= Cross(p, q, y) <= Max(p.x, q.x)
  {
    hide Quot;
    QuotOfSignedFraction(q.x - p.x, y - p.y, q.y - p.y);
  }

  // ----- the method

  method FillTriangle(x0In: Int16, y0In: Int16, x1In: Int16, y1In: Int16, x2In: Int16, y2In: Int16)
    returns (spans: seq<HLine>)
    requires Fits(Triangle(Point(x0In, y0In), Point(x1In, y1In), Point(x2In, y2In)))
    ensures spans == SortByY(Triangle(Point(x0In, y0In), Point(x1In, y1In), Point(x2In, y2In))).Spans()
  {
    var x0: Int16, y0: Int16, x1: Int16, y1: Int16, x2: Int16, y2: Int16 := x0In, y0In, x1In, y1In, x2In, y2In;
    if y0 > y1 {
      y0, y1 := y1, y0;
      x0, x1 := x1, x0;
    }
    if y1 > y2 {
      y2, y1 := y1, y2;
      x2, x1 := x1, x2;
    }
    if y0 > y1 {
      y0, y1 := y1, y0;
      x0, x1 := x1, x0;
    }
    ghost var t := Triangle(Point(x0, y0), Point(x1, y1), Point(x2, y2));
    assert t == SortByY(Triangle(Point(x0In, y0In), Point(x1In, y1In), Point(x2In, y2In)));
    if y0 == y2 {
      var a, b := x0, x0;
      if x1 < a {
        a := x1;
      } else if x1 > b {
        b := x1;
      }
      if x2 < a {
        a := x2;
      } else if x2 > b {
        b := x2;
      }
      var w: Int16 := b - a + 1;
      return [HLine(a, y0, w)];
    }
    spans := FillSorted(x0, y0, x1, y1, x2, y2);
  }

  /** fillTriangle after sorting, when not all vertices are on one scanline. */
  method FillSorted(x0: Int16, y0: Int16, x1: Int16, y1: Int16, x2: Int16, y2: Int16) returns (spans: seq<HLine>)
    requires y0 <= y1 <= y2 && y0 < y2 && Fits(Triangle(Point(x0, y0), Point(x1, y1), Point(x2, y2)))
    ensures spans == Triangle(Point(x0, y0), Point(x1, y1), Point(x2, y2)).Spans()
  {
    hide Triangle.Span;
    ghost var t := Triangle(Point(x0, y0), Point(x1, y1), Point(x2, y2));
    var last: Int16 := if y1 == y2 then y1 else y1 - 1;
    var upper := FillUpper(x0, y0, x1, y1, x2, y2, last);
    var lower := FillLower(x0, y0, x1, y1, x2, y2, last + 1);
    spans := upper + lower;
  }

  /** The first loop: the spans between the edges 0-1 and 0-2 down to scanline last. */
  method FillUpper(x0: Int16, y0: Int16, x1: Int16, y1: Int16, x2: Int16, y2: Int16, last: Int16)
    returns (spans: seq<HLine>)
    requires y0 <= y1 <= y2 && y0 < y2 && Fits(Triangle(Point(x0, y0), Point(x1, y1), Point(x2, y2)))
    requires last == if y1 == y2 then y1 else y1 - 1
    ensures |spans| == last + 1 - y0
    ensures forall k :: 0 <= k < |spans| ==> spans[k] == Triangle(Point(x0, y0), Point(x1, y1), Point(x2, y2)).Span(y0 + k)
  {
    hide Quot, Cross;
    ghost var t := Triangle(Point(x0, y0), Point(x1, y1), Point(x2, y2));
    var dx01: Int16, dy01: Int16, dx02: Int16, dy02: Int16 := x1 - x0, y1 - y0, x2 - x0, y2 - y0;
    var sa: Int32, sb: Int32, y: Int16 := 0, 0, y0;
    spans := [];
    while y <= last
      invariant y0 <= y <= last + 1 && |spans| == y - y0
      invariant sa == dx01 * (y - y0) && sb == dx02 * (y - y0)
      invariant forall k :: 0 <= k < |spans| ==> spans[k] == t.Span(y0 + k)
    {
      var a: Int16 := CrossFrom(x0, sa, dy01, t.p, t.q, y);
      var b: Int16 := CrossFrom(x0, sb, dy02, t.p, t.s, y);
      NextProduct(dx01, y - y0);
      NextProduct(dx02, y - y0);
      sa := sa + dx01;
      sb := sb + dx02;
      if a > b {
        a, b := b, a;
      }
      var w: Int16 := b - a + 1;
      spans := spans + [HLine(a, y, w)];
      y := y + 1;
    }
  }

  /** The second loop: the spans between the edges 1-2 and 0-2 from scanline first on. */
  method FillLower(x0: Int16, y0: Int16, x1: Int16, y1: Int16, x2: Int16, y2: Int16, first: Int16)
    returns (spans: seq<HLine>)
    requires y0 <= y1 <= y2 && y0 < y2 && Fits(Triangle(Point(x0, y0), Point(x1, y1), Point(x2, y2)))
    requires first == if y1 == y2 then y1 + 1 else y1
    ensures |spans| == y2 + 1 - first
    ensures forall k :: 0 <= k < |spans| ==>
      spans[k] == Triangle(Point(x0, y0), Point(x1, y1), Point(x2, y2)).Span(first + k)
  {
    hide Quot, Cross;
    ghost var t := Triangle(Point(x0, y0), Point(x1, y1), Point(x2, y2));
    var dx02: Int16, dy02: Int16, dx12: Int16, dy12: Int16 := x2 - x0, y2 - y0, x2 - x1, y2 - y1;
    var y: Int16 := first;
    SmallProduct(dx12, y - y1);
    SmallProduct(dx02, y - y0);
    var sa: Int32, sb: Int32 := dx12 * (y - y1), dx02 * (y - y0);
    spans := [];
    while y <= y2
      invariant first <= y <= y2 + 1 && |spans| == y - first
      invariant sa == dx12 * (y - y1) && sb == dx02 * (y - y0)
      invariant forall k :: 0 <= k < |spans| ==> spans[k] == t.Span(first + k)
    {
      var a: Int16 := CrossFrom(x1, sa, dy12, t.q, t.s, y);
      var b: Int16 := CrossFrom(x0, sb, dy02, t.p, t.s, y);
      NextProduct(dx12, y - y1);
      NextProduct(dx02, y - y0);
      sa := sa + dx12;
      sb := sb + dx02;
      if a > b {
        a, b := b, a;
      }
      var w: Int16 := b - a + 1;
      spans := spans + [HLine(a, y, w)];
      y := y + 1;
    }
  }

  /** x + s / dy, where s has been summed up to the product the longhand formula uses. */
  method CrossFrom(x: Int16, s: Int32, dy: Int16, ghost p: Point, ghost q: Point, ghost y: int) returns (a: Int16)
    requires p.x == x && dy == q.y - p.y && p.y <= y <= q.y && p.y < q.y && s == (q.x - p.x) * (y - p.y)
    requires -0x8000 <= q.x < 0x8000
    ensures a == Cross(p, q, y) && Min(p.x, q.x) <= a <= Max(p.x, q.x)
  {
    CrossBetween(p, q, y);
    a := x + Quot(s, dy);
  }

  /** The running sums after one more scanline, and their size. */
  lemma NextProduct(dx: int, n: int)
    requires -0x7FFF <= dx <= 0x7FFF && 0 <= n <= 0x7FFF
    ensures dx * (n + 1) == dx * n + dx && -0x4000_0000 <= dx * n + dx <= 0x4000_0000
  {
    SmallProduct(dx, n + 1);
  }

  lemma SmallProduct(dx: int, n: int)
    requires -0x7FFF <= dx <= 0x7FFF && 0 <= n <= 0x8000
    ensures -0x4000_0000 <= dx * n <= 0x4000_0000
  {
    MulMono(dx, 0x7FFF, n);
    MulMono(-0x7FFF, dx, n);
    Negated(0x7FFF, n);
  }

  // ----- what the spans cover

  /** Some span paints the pixel (u, v). */
  predicate Covers(spans: seq<HLine>, u: int, v: int) {
    exists k :: 0 <= k < |spans| && spans[k].Paints(u, v)
  }

  /** Some point of the edge at height v lies at u or left of it. */
  predicate EdgeAtMost(a: Point, b: Point, u: int, v: int) {
    if a.y < b.y then a.y <= v <= b.y && (b.x - a.x) * (v - a.y) <= (u - a.x) * (b.y - a.y)
    else if b.y < a.y then b.y <= v <= a.y && (a.x - b.x) * (v - b.y) <= (u - b.x) * (a.y - b.y)
    else v == a.y && Min(a.x, b.x) <= u
  }

  /** Some point of the edge at height v lies left of u. */
  predicate EdgeBelow(a: Point, b: Point, u: int, v: int) {
    if a.y < b.y then a.y <= v <= b.y && (b.x - a.x) * (v - a.y) < (u - a.x) * (b.y - a.y)
    else if b.y < a.y then b.y <= v <= a.y && (a.x - b.x) * (v - b.y) < (u - b.x) * (a.y - b.y)
    else v == a.y && Min(a.x, b.x) < u
  }

  function Mirror(a: Point): Point { Point(-a.x, a.y) }

  function MirrorT(t: Triangle): Triangle { Triangle(Mirror(t.p), Mirror(t.q), Mirror(t.s)) }

  predicate SideAtMost(t: Triangle, u: int, v: int) {
    EdgeAtMost(t.p, t.q, u, v) || EdgeAtMost(t.q, t.s, u, v) || EdgeAtMost(t.p, t.s, u, v)
  }

  predicate SideBelow(t: Triangle, u: int, v: int) {
    EdgeBelow(t.p, t.q, u, v) || EdgeBelow(t.q, t.s, u, v) || EdgeBelow(t.p, t.s, u, v)
  }

  /** The lattice point (u, v) is in the closed triangle: edge points at its height lie on both sides. */
  predicate InTriangle(t: Triangle, u: int, v: int) {
    SideAtMost(t, u, v) && SideAtMost(MirrorT(t), -u, v)
  }

  /** On its scanline, (u, v) is less than one pixel outside the closed triangle. */
  predicate NearTriangle(t: Triangle, u: int, v: int) {
    SideBelow(t, u + 1, v) && SideBelow(MirrorT(t), -u + 1, v)
  }

  /** The order of the vertices does not matter. */
  lemma SortingKeeps(t: Triangle, u: int, v: int)
    ensures InTriangle(SortByY(t), u, v) <==> InTriangle(t, u, v)
    ensures NearTriangle(SortByY(t), u, v) <==> NearTriangle(t, u, v)
  {
    hide EdgeAtMost, EdgeBelow;
    EdgeEitherWay(t.p, t.q, u, v);
    EdgeEitherWay(t.q, t.s, u, v);
    EdgeEitherWay(t.p, t.s, u, v);
    EdgeEitherWay(Mirror(t.p), Mirror(t.q), -u, v);
    EdgeEitherWay(Mirror(t.q), Mirror(t.s), -u, v);
    EdgeEitherWay(Mirror(t.p), Mirror(t.s), -u, v);
    EdgeEitherWay(t.p, t.q, u + 1, v);
    EdgeEitherWay(t.q, t.s, u + 1, v);
    EdgeEitherWay(t.p, t.s, u + 1, v);
    EdgeEitherWay(Mirror(t.p), Mirror(t.q), -u + 1, v);
    EdgeEitherWay(Mirror(t.q), Mirror(t.s), -u + 1, v);
    EdgeEitherWay(Mirror(t.p), Mirror(t.s), -u + 1, v);
  }

  lemma EdgeEitherWay(a: Point, b: Point, u: int, v: int)
    ensures EdgeAtMost(a, b, u, v) <==> EdgeAtMost(b, a, u, v)
    ensures EdgeBelow(a, b, u, v) <==> EdgeBelow(b, a, u, v)
  {}

  /** The truncated crossing is at most u if the exact one is. */
  lemma CrossAtMost(p: Point, q: Point, u: int, v: int)
    requires p.y < q.y && EdgeAtMost(p, q, u, v)
    ensures Cross(p, q, v) <= u
  {
    hide Quot;
    var n, d := (q.x - p.x) * (v - p.y), q.y - p.y;
    QuotBounds(n, d);
    ProductOrder(Quot(n, d) - 1, u - p.x, d);
    if n >= 0 {
      MulMono(u - p.x + 1, Quot(n, d), d);
    } else {
      assert (Quot(n, d) - 1) * d == Quot(n, d) * d - d;
    }
  }

  /** The exact crossing is less than a pixel beyond u if the truncated one is at most u. */
  lemma CrossBelow(p: Point, q: Point, u: int, v: int)
    requires p.y < q.y && p.y <= v <= q.y && Cross(p, q, v) <= u
    ensures EdgeBelow(p, q, u + 1, v)
  {
    hide Quot;
    var n, d := (q.x - p.x) * (v - p.y), q.y - p.y;
    QuotBounds(n, d);
    MulMono(Quot(n, d), u - p.x, d);
    assert (u + 1 - p.x) * d == (u - p.x) * d + d;
  }

  lemma CrossMirrored(p: Point, q: Point, y: int)
    requires p.y < q.y
    ensures Cross(Mirror(p), Mirror(q), y) == -Cross(p, q, y)
  {
    hide Quot;
    Negated(q.x - p.x, y - p.y);
    QuotMirrored((q.x - p.x) * (y - p.y), q.y - p.y);
  }

  lemma SpanMirrored(t: Triangle, y: int)
    requires t.Sorted() && t.p.y < t.s.y && t.p.y <= y
    ensures MirrorT(t).Span(y).x == -(t.Span(y).x + t.Span(y).w - 1)
  {
    hide Cross;
    CrossMirrored(t.p, t.s, y);
    if y < t.q.y || t.q.y == t.s.y {
      CrossMirrored(t.p, t.q, y);
    } else {
      CrossMirrored(t.q, t.s, y);
    }
  }

  /** A span starts at or left of every point of the triangle on its scanline. */
  lemma SpanStart(t: Triangle, u: int, v: int)
    requires t.Sorted() && t.p.y < t.s.y && t.p.y <= v <= t.s.y && SideAtMost(t, u, v)
    ensures t.Span(v).x <= u
  {
    hide Cross;
    CrossEnds(t.p, t.s);
    if EdgeAtMost(t.p, t.s, u, v) {
      CrossAtMost(t.p, t.s, u, v);
    } else if EdgeAtMost(t.p, t.q, u, v) {
      UpperEdge(t, u, v);
    } else {
      LowerEdge(t, u, v);
    }
  }

  lemma UpperEdge(t: Triangle, u: int, v: int)
    requires t.Sorted() && t.p.y < t.s.y && EdgeAtMost(t.p, t.q, u, v)
    ensures t.Span(v).x <= u
  {
    hide Cross;
    CrossEnds(t.p, t.s);
    if t.p.y < t.q.y {
      CrossAtMost(t.p, t.q, u, v);
      CrossEnds(t.p, t.q);
    }
    if t.q.y < t.s.y {
      CrossEnds(t.q, t.s);
    }
  }

  lemma LowerEdge(t: Triangle, u: int, v: int)
    requires t.Sorted() && t.p.y < t.s.y && EdgeAtMost(t.q, t.s, u, v)
    ensures t.Span(v).x <= u
  {
    hide Cross;
    CrossEnds(t.p, t.s);
    if t.q.y < t.s.y {
      CrossAtMost(t.q, t.s, u, v);
    } else {
      CrossEnds(t.p, t.q);
    }
  }

  /** A span's first pixel is less than one pixel left of the triangle. */
  lemma SpanStartNear(t: Triangle, u: int, v: int)
    requires t.Sorted() && t.p.y < t.s.y && t.p.y <= v <= t.s.y && t.Span(v).x <= u
    ensures SideBelow(t, u + 1, v)
  {
    hide Cross, EdgeBelow;
    if Cross(t.p, t.s, v) <= u {
      CrossBelow(t.p, t.s, u, v);
    } else if v < t.q.y || t.q.y == t.s.y {
      CrossBelow(t.p, t.q, u, v);
    } else {
      CrossBelow(t.q, t.s, u, v);
    }
  }

  /** Every scanline from the top vertex to the bottom one has exactly one span, inside the x range of
      the vertices. */
  lemma OneSpanPerScanline(t: Triangle, k: nat)
    requires t.Sorted() && k <= t.s.y - t.p.y
    ensures |t.Spans()| == t.s.y - t.p.y + 1
    ensures var span := t.Spans()[k];
            span.y == t.p.y + k && span.w >= 1
            && Min(t.p.x, Min(t.q.x, t.s.x)) <= span.x && span.x + span.w - 1 <= Max(t.p.x, Max(t.q.x, t.s.x))
  {
    if t.p.y < t.s.y {
      SpanIs(t, k);
    }
  }

  lemma SpanIs(t: Triangle, k: nat)
    requires t.Sorted() && t.p.y < t.s.y && k <= t.s.y - t.p.y
    ensures |t.Spans()| == t.s.y - t.p.y + 1
    ensures var span := t.Spans()[k];
            span.y == t.p.y + k && span.w >= 1
            && Min(t.p.x, Min(t.q.x, t.s.x)) <= span.x && span.x + span.w - 1 <= Max(t.p.x, Max(t.q.x, t.s.x))
  {
    SpanInRange(t, t.p.y + k);
    hide Cross;
    assert t.Spans()[k] == t.Span(t.p.y + k);
  }

  lemma SpanInRange(t: Triangle, y: int)
    requires t.Sorted() && t.p.y < t.s.y && t.p.y <= y <= t.s.y
    ensures Min(t.p.x, Min(t.q.x, t.s.x)) <= t.Span(y).x
    ensures t.Span(y).x + t.Span(y).w - 1 <= Max(t.p.x, Max(t.q.x, t.s.x))
  {
    hide Cross;
    CrossBetween(t.p, t.s, y);
    if y < t.q.y || t.q.y == t.s.y {
      CrossBetween(t.p, t.q, y);
    } else {
      CrossBetween(t.q, t.s, y);
    }
  }

  /** The spans paint every lattice point of the closed triangle, and only points that are less than one
      pixel outside it, for the vertices in any order. */
  lemma TriangleCovered(t: Triangle, u: int, v: int)
    ensures SortByY(t).Sorted()
    ensures InTriangle(t, u, v) ==> Covers(SortByY(t).Spans(), u, v)
    ensures Covers(SortByY(t).Spans(), u, v) ==> NearTriangle(t, u, v)
  {
    hide InTriangle, NearTriangle, Covers;
    SortedByY(t);
    SortingKeeps(t, u, v);
    SortedCovered(SortByY(t), u, v);
  }

  lemma SortedCovered(t: Triangle, u: int, v: int)
    requires t.Sorted()
    ensures InTriangle(t, u, v) ==> Covers(t.Spans(), u, v)
    ensures Covers(t.Spans(), u, v) ==> NearTriangle(t, u, v)
  {
    hide SideAtMost, SideBelow, EdgeAtMost, EdgeBelow, Triangle.Span;
    if t.p.y == t.s.y {
      FlatCovered(t, u, v);
    } else {
      SpanPaints(t, u, v);
      if InTriangle(t, u, v) {
        SideInRange(t, u, v);
        SpanMirrored(t, v);
        SpanStart(t, u, v);
        SpanStart(MirrorT(t), -u, v);
      }
      if Covers(t.Spans(), u, v) {
        SpanMirrored(t, v);
        SpanStartNear(t, u, v);
        SpanStartNear(MirrorT(t), -u, v);
      }
    }
  }

  lemma SideInRange(t: Triangle, u: int, v: int)
    requires t.Sorted() && SideAtMost(t, u, v)
    ensures t.p.y <= v <= t.s.y
  {}

  lemma SpanPaints(t: Triangle, u: int, v: int)
    requires t.Sorted() && t.p.y < t.s.y
    ensures Covers(t.Spans(), u, v) <==> t.p.y <= v <= t.s.y && t.Span(v).x <= u < t.Span(v).x + t.Span(v).w
  {
    hide Cross;
    if Covers(t.Spans(), u, v) {
      var k :| 0 <= k < |t.Spans()| && t.Spans()[k].Paints(u, v);
      assert t.Spans()[k] == t.Span(t.p.y + k);
    }
    if t.p.y <= v <= t.s.y {
      assert t.Spans()[v - t.p.y] == t.Span(v);
    }
  }

  lemma FlatCovered(t: Triangle, u: int, v: int)
    requires t.p.y == t.q.y == t.s.y
    ensures InTriangle(t, u, v) ==> Covers(t.Spans(), u, v)
    ensures Covers(t.Spans(), u, v) ==> NearTriangle(t, u, v)
  {
    assert InTriangle(t, u, v) ==> t.Spans()[0].Paints(u, v);
  }

  // ----- when painted points lie outside

  /** The edge from p down to q runs to the given side, and its crossing with scanline y is not whole. */
  predicate Drifts(p: Point, q: Point, y: int, right: bool)
    requires p.y < q.y
  {
    (if right then q.x > p.x else q.x < p.x) && (q.x - p.x) * (y - p.y) % (q.y - p.y) != 0
  }

  /** The edge at the middle vertex that the span of scanline y uses, besides the long one. */
  function Bent(t: Triangle, y: int): (e: (Point, Point))
    requires t.Sorted() && t.p.y < t.s.y
    ensures t.p.y <= y <= t.s.y ==> e.0.y < e.1.y && e.0.y <= y <= e.1.y
  {
    if y < t.q.y || t.q.y == t.s.y then (t.p, t.q) else (t.q, t.s)
  }

  /** A truncated crossing lies on the near side of the edge or on it exactly when the edge does not drift away. */
  lemma CrossExact(p: Point, q: Point, y: int)
    requires p.y < q.y && p.y <= y <= q.y
    ensures EdgeAtMost(p, q, Cross(p, q, y), y) <==> !Drifts(p, q, y, true)
    ensures EdgeAtMost(Mirror(p), Mirror(q), -Cross(p, q, y), y) <==> !Drifts(p, q, y, false)
  {
    hide Quot;
    var n, d := (q.x - p.x) * (y - p.y), q.y - p.y;
    RunSign(q.x - p.x, y - p.y);
    QuotRemainder(n, d);
    Negated(q.x - p.x, y - p.y);
    Negated(Quot(n, d), d);
  }

  lemma RunSign(a: int, b: nat)
    ensures a > 0 ==> a * b >= 0
    ensures a < 0 ==> a * b <= 0
    ensures a * b > 0 ==> a > 0
    ensures a * b < 0 ==> a < 0
  {
    MulMono(a, 0, b);
    MulMono(0, a, b);
  }

  lemma QuotRemainder(n: int, d: int)
    requires d > 0
    ensures n <= Quot(n, d) * d <==> !(n > 0 && n % d != 0)
    ensures Quot(n, d) * d <= n <==> !(n < 0 && n % d != 0)
    ensures n == 0 ==> n % d == 0
  {
    var m: int := if n >= 0 then n else -n;
    WholeQuotient(m, d);
    if n < 0 {
      Negated(m / d, d);
      MirroredRemainder(m, d);
    }
  }

  lemma WholeQuotient(m: int, d: int)
    requires m >= 0 && d > 0
    ensures m / d * d <= m && (m / d * d == m <==> m % d == 0)
    ensures m == 0 ==> m % d == 0
  {
    assert m == d * (m / d) + m % d;
  }

  lemma MirroredRemainder(m: int, d: int)
    requires m >= 0 && d > 0
    ensures (-m) % d == 0 <==> m % d == 0
  {
    var q, r := (-m) / d, (-m) % d;
    assert -m == q * d + r;
    if r == 0 {
      Negated(q, d);
      QuotientIs(m, d, -q);
    }
    if m % d == 0 {
      Negated(m / d, d);
      QuotientIs(-m, d, -(m / d));
    }
  }

  lemma EdgeWidens(p: Point, q: Point, u: int, w: int, v: int)
    requires p.y < q.y && u <= w && (EdgeAtMost(p, q, u, v) || EdgeBelow(p, q, u, v))
    ensures EdgeAtMost(p, q, w, v)
  {
    MulMono(u - p.x, w - p.x, q.y - p.y);
  }

  /** On a scanline only the two edges of its span matter. */
  lemma TwoEdges(t: Triangle, u: int, v: int)
    requires t.Sorted() && t.p.y < t.s.y && t.p.y <= v <= t.s.y
    ensures var e := Bent(t, v);
      SideAtMost(t, u, v) <==> EdgeAtMost(e.0, e.1, u, v) || EdgeAtMost(t.p, t.s, u, v)
  {
    if v == t.q.y {
      EdgeEnds(t.p, t.q, u);
      EdgeEnds(t.q, t.s, u);
      EdgeEnds(t.p, t.s, u);
    }
  }

  lemma EdgeEnds(a: Point, b: Point, u: int)
    requires a.y < b.y || a.y == b.y
    ensures a.y < b.y ==> (EdgeAtMost(a, b, u, a.y) <==> a.x <= u) && (EdgeAtMost(a, b, u, b.y) <==> b.x <= u)
  {
    if a.y < b.y {
      MulMono(b.x - a.x, u - a.x, b.y - a.y);
      MulMono(u - a.x + 1, b.x - a.x, b.y - a.y);
      MulMono(0, u - a.x, b.y - a.y);
      MulMono(u - a.x + 1, 0, b.y - a.y);
    }
  }

  /** Whether the crossing of the edge from a to b, one of the two edges of the span, is in the triangle: o is where
      the other edge, from g to h, crosses. */
  lemma EndExact(a: Point, b: Point, g: Point, h: Point, v: int)
    requires a.y < b.y && a.y <= v <= b.y && g.y < h.y && g.y <= v <= h.y
    ensures var c, o := Cross(a, b, v), Cross(g, h, v);
      (EdgeAtMost(a, b, c, v) || EdgeAtMost(g, h, c, v))
      && (EdgeAtMost(Mirror(a), Mirror(b), -c, v) || EdgeAtMost(Mirror(g), Mirror(h), -c, v))
      <==> if c < o then !Drifts(a, b, v, true) else if c > o then !Drifts(a, b, v, false)
           else !(Drifts(a, b, v, true) && Drifts(g, h, v, true)) && !(Drifts(a, b, v, false) && Drifts(g, h, v, false))
  {
    hide Cross, EdgeAtMost, EdgeBelow, Drifts;
    var c, o := Cross(a, b, v), Cross(g, h, v);
    CrossExact(a, b, v);
    CrossMirrored(g, h, v);
    if c < o {
      NotAtMost(g, h, c, v);
      CrossBelow(Mirror(g), Mirror(h), -o, v);
      EdgeWidens(Mirror(g), Mirror(h), -o + 1, -c, v);
    } else if c > o {
      NotAtMost(Mirror(g), Mirror(h), -c, v);
      CrossBelow(g, h, o, v);
      EdgeWidens(g, h, o + 1, c, v);
    } else {
      CrossExact(g, h, v);
    }
  }

  lemma NotAtMost(p: Point, q: Point, u: int, v: int)
    requires p.y < q.y && u < Cross(p, q, v)
    ensures !EdgeAtMost(p, q, u, v)
  {
    hide Cross;
    if EdgeAtMost(p, q, u, v) {
      CrossAtMost(p, q, u, v);
    }
  }

  /** c and o are the ends of the span, where the edge from e to f and the long edge cross; which of them are in the
      closed triangle. */
  ghost predicate EndsAre(t: Triangle, y: int, e: Point, f: Point, c: int, o: int)
    requires t.Sorted() && t.p.y < t.s.y && t.p.y <= y && e.y < f.y
  {
    && t.Span(y) == HLine(Min(c, o), y, Max(c, o) - Min(c, o) + 1)
    && (c < o ==> (InTriangle(t, c, y) <==> !Drifts(e, f, y, true)))
    && (c < o ==> (InTriangle(t, o, y) <==> !Drifts(t.p, t.s, y, false)))
    && (o < c ==> (InTriangle(t, o, y) <==> !Drifts(t.p, t.s, y, true)))
    && (o < c ==> (InTriangle(t, c, y) <==> !Drifts(e, f, y, false)))
    && (c == o ==> (InTriangle(t, c, y) <==> !BothDrift(t, y, e, f)))
  }

  predicate BothDrift(t: Triangle, y: int, e: Point, f: Point)
    requires t.p.y < t.s.y && e.y < f.y
  {
    || (Drifts(e, f, y, true) && Drifts(t.p, t.s, y, true))
    || (Drifts(e, f, y, false) && Drifts(t.p, t.s, y, false))
  }

  /** Exactly when the two ends of a span are in the closed triangle: an end is outside if and only if its edge drifts
      inwards, and a single pixel if and only if both edges drift to the same side. */
  lemma SpanEndsExact(t: Triangle, y: int)
    requires t.Sorted() && t.p.y < t.s.y && t.p.y <= y <= t.s.y
    ensures var (e, f) := Bent(t, y); EndsAre(t, y, e, f, Cross(e, f, y), Cross(t.p, t.s, y))
  {
    hide Cross, EdgeAtMost, Drifts, SideAtMost;
    var (e, f) := Bent(t, y);
    var c, o := Cross(e, f, y), Cross(t.p, t.s, y);
    EndExact(e, f, t.p, t.s, y);
    EndExact(t.p, t.s, e, f, y);
    TwoEdges(t, c, y);
    TwoEdges(t, o, y);
    TwoEdges(MirrorT(t), -c, y);
    TwoEdges(MirrorT(t), -o, y);
  }

  /** A span paints only points of the closed triangle if and only if its two ends are such points. */
  lemma SpanInTriangle(t: Triangle, y: int)
    requires t.Sorted() && t.p.y < t.s.y && t.p.y <= y <= t.s.y
    ensures var span := t.Span(y);
      (forall u :: span.x <= u < span.x + span.w ==> InTriangle(t, u, y))
      <==> InTriangle(t, span.x, y) && InTriangle(t, span.x + span.w - 1, y)
  {
    hide Cross, EdgeAtMost, SideAtMost;
    var span := t.Span(y);
    var last := span.x + span.w - 1;
    if InTriangle(t, span.x, y) && InTriangle(t, last, y) {
      forall u | span.x <= u < span.x + span.w ensures InTriangle(t, u, y) {
        SideWidens(t, span.x, u, y);
        SideWidens(MirrorT(t), -last, -u, y);
      }
    }
  }

  lemma SideWidens(t: Triangle, u: int, w: int, v: int)
    requires t.Sorted() && t.p.y < t.s.y && t.p.y <= v <= t.s.y && u <= w && SideAtMost(t, u, v)
    ensures SideAtMost(t, w, v)
  {
    hide EdgeAtMost, SideAtMost;
    TwoEdges(t, u, v);
    TwoEdges(t, w, v);
    var (e, f) := Bent(t, v);
    if EdgeAtMost(e, f, u, v) {
      EdgeWidens(e, f, u, w, v);
    } else {
      EdgeWidens(t.p, t.s, u, w, v);
    }
  }

  const SAMPLE := Triangle(Point(0, 0), Point(1, 2), Point(5, 2))

  /** (0, 1) is painted for the triangle (0, 0), (1, 2), (5, 2) and lies outside it. */
  lemma PaintedOutside()
    ensures SAMPLE.Sorted() && Covers(SAMPLE.Spans(), 0, 1) && !InTriangle(SAMPLE, 0, 1)
  {
    hide InTriangle, Covers, Cross, Drifts, Triangle.Spans, Triangle.Span;
    SampleCrossings();
    SpanEndsExact(SAMPLE, 1);
    SpanPaints(SAMPLE, 0, 1);
  }

  lemma SampleCrossings()
    ensures Cross(SAMPLE.p, SAMPLE.q, 1) == 0 && Cross(SAMPLE.p, SAMPLE.s, 1) == 2
    ensures Drifts(SAMPLE.p, SAMPLE.q, 1, true)
  {
    hide Cross, Drifts, Quot;
    HalfWay(1);
    HalfWay(5);
    HalvesTruncated();
  }

  lemma HalfWay(n: int)
    ensures Cross(Point(0, 0), Point(n, 2), 1) == Quot(n, 2)
    ensures Drifts(Point(0, 0), Point(n, 2), 1, true) <==> n > 0 && n % 2 != 0
  {
    hide Quot;
    var one := 1;
    assert n * one == n;
  }

  lemma HalvesTruncated()
    ensures Quot(1, 2) == 0 && Quot(5, 2) == 2 && 1 % 2 == 1
  {}

  /** The vertices are points of the triangle, so each of them is painted. */
  lemma VerticesPainted(t: Triangle, a: Point)
    requires a in [t.p, t.q, t.s]
    ensures SortByY(t).Sorted() && Covers(SortByY(t).Spans(), a.x, a.y)
  {
    hide Covers, InTriangle, NearTriangle, Triangle.Spans;
    VertexInTriangle(t, a);
    TriangleCovered(t, a.x, a.y);
  }

  lemma VertexInTriangle(t: Triangle, a: Point)
    requires a in [t.p, t.q, t.s]
    ensures InTriangle(t, a.x, a.y)
  {
    hide EdgeAtMost;
    forall b: Point ensures EdgeAtMost(a, b, a.x, a.y) && EdgeAtMost(b, a, a.x, a.y) {
      EndOfEdge(a, b);
    }
    EndOfEdge(Mirror(a), Mirror(t.p));
    EndOfEdge(Mirror(a), Mirror(t.q));
    EndOfEdge(Mirror(a), Mirror(t.s));
  }

  lemma EndOfEdge(a: Point, b: Point)
    ensures EdgeAtMost(a, b, a.x, a.y) && EdgeAtMost(b, a, a.x, a.y)
  {}
}
