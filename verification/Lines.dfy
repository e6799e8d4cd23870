/** Bresenham lines of Adafruit_GFX: writeLine, and drawLine and the generic fast lines built on it.
    The pixels handed to writePixel are the result, in order. */
module Lines {
  import opened MachineInts
  import opened Arithmetic

  datatype Point = Point(x: int, y: int) {
    function Swapped(): Point { Point(y, x) }
  }

  /** Endpoints for which no int16 variable of writeLine wraps: y0 may pass the end by one. */
  predicate Fits(p: Point, q: Point) {
    && -0x8000 < p.x < 0x7FFF && -0x8000 < p.y < 0x7FFF
    && -0x8000 < q.x < 0x7FFF && -0x8000 < q.y < 0x7FFF
    && Abs(q.x - p.x) <= 0x7FFF && Abs(q.y - p.y) <= 0x7FFF
  }

  predicate Steep(p: Point, q: Point) {
    Abs(q.y - p.y) > Abs(q.x - p.x)
  }

  /** The distance along the longer axis. */
  function Major(p: Point, q: Point): nat {
    if Steep(p, q) then Abs(q.y - p.y) else Abs(q.x - p.x)
  }

  function Minor(p: Point, q: Point): nat {
    if Steep(p, q) then Abs(q.x - p.x) else Abs(q.y - p.y)
  }

  /** i * dy / dx rounded to the nearest whole number, a half rounded down. */
  function Nearest(i: nat, dx: nat, dy: nat): nat {
    if dx == 0 then 0
    else
      MulMono(0, i, dy);
      QuotientNotNegative(i * dy + (dx - 1) / 2, dx);
      (i * dy + (dx - 1) / 2) / dx
  }

  /** A line in the frame of its longer axis: it starts at (x, y) and climbs or falls. */
  datatype Frame = Frame(steep: bool, x: int, y: int, climbs: bool, dx: nat, dy: nat) {
    /** The pixel i steps along and k steps across. */
    function At(i: int, k: int): Point {
      var r := Point(x + i, if climbs then y + k else y - k);
      if steep then r.Swapped() else r
    }
  }

  /** The frame whose start is the end with the smaller major coordinate. */
  function FrameOf(p: Point, q: Point): Frame {
    var a, b := if Steep(p, q) then p.Swapped() else p, if Steep(p, q) then q.Swapped() else q;
    var s, e := if a.x > b.x then b else a, if a.x > b.x then a else b;
    Frame(Steep(p, q), s.x, s.y, s.y < e.y, Major(p, q), Minor(p, q))
  }

  /** Pixel i of the reference line: rounded to the nearest pixel across. */
  function IdealPixel(f: Frame, i: nat): Point {
    f.At(i, Nearest(i, f.dx, f.dy))
  }

  /** The reference line. */
  function IdealLine(p: Point, q: Point): seq<Point> {
    seq(Major(p, q) + 1, i requires 0 <= i => IdealPixel(FrameOf(p, q), i))
  }

  method WriteLine(x0In: Int16, y0In: Int16, x1In: Int16, y1In: Int16) returns (pixels: seq<Point>)
    requires Fits(Point(x0In, y0In), Point(x1In, y1In))
    ensures pixels == IdealLine(Point(x0In, y0In), Point(x1In, y1In))
  {
    var x0: Int16, y0: Int16, x1: Int16, y1: Int16 := x0In, y0In, x1In, y1In;
    var steep := Abs(y1 - y0) > Abs(x1 - x0);
    if steep {
      x0, y0 := y0, x0;
      x1, y1 := y1, x1;
    }
    if x0 > x1 {
      x0, x1 := x1, x0;
      y0, y1 := y1, y0;
    }
    assert FrameOf(Point(x0In, y0In), Point(x1In, y1In)) == Frame(steep, x0, y0, y0 < y1, x1 - x0, Abs(y1 - y0));
    pixels := WriteOriented(steep, x0, y0, x1, y1);
  }

  /** The drawing loop of writeLine, once the ends are swapped so that the line runs rightwards. */
  method WriteOriented(steep: bool, x0In: Int16, y0In: Int16, x1: Int16, y1: Int16) returns (pixels: seq<Point>)
    requires Fits(Point(x0In, y0In), Point(x1, y1)) && x0In <= x1 && Abs(y1 - y0In) <= x1 - x0In
    ensures var f := Frame(steep, x0In, y0In, y0In < y1, x1 - x0In, Abs(y1 - y0In));
            |pixels| == f.dx + 1 && forall j :: 0 <= j <= f.dx ==> pixels[j] == IdealPixel(f, j)
  {
    hide Tracks, IdealPixel;
    var x0: Int16, y0: Int16 := x0In, y0In;
    var dx: Int16, dy: Int16 := x1 - x0, Abs(y1 - y0);
    var err: Int16 := dx / 2;
    var ystep: Int16 := if y0 < y1 then 1 else -1;
    ghost var f := Frame(steep, x0, y0, y0 < y1, dx, dy);
    pixels := [];
    TrackStart(f);
    while x0 <= x1
      invariant |pixels| <= dx + 1 && x0 == f.x + |pixels|
      invariant Tracks(f, |pixels|, y0, err)
      invariant forall j :: 0 <= j < |pixels| ==> pixels[j] == IdealPixel(f, j)
    {
      TrackStep(f, |pixels|, y0, err);
      pixels := pixels + [if steep then Point(y0, x0) else Point(x0, y0)];
      err := err - dy;
      if err < 0 {
        y0 := y0 + ystep;
        err := err + dx;
      }
      x0 := x0 + 1;
    }
  }

  /** How far the line has moved across when its minor coordinate is y. */
  function Across(f: Frame, y: int): int {
    if f.climbs then y - f.y else f.y - y
  }

  /** The loop invariant of writeLine: y is where the line is after i steps along, and err measures how far it
      lies below the rounding threshold. */
  predicate Tracks(f: Frame, i: nat, y: int, err: int) {
    0 <= Across(f, y) <= f.dy + 1 && ErrorOf(f, i, Across(f, y), err)
  }

  lemma TrackStart(f: Frame)
    requires f.dy <= f.dx
    ensures Tracks(f, 0, f.y, f.dx / 2)
  {
    ErrorStart(f);
  }

  lemma TrackStep(f: Frame, i: nat, y: int, err: int)
    requires Tracks(f, i, y, err) && i <= f.dx && f.dy <= f.dx
    ensures 0 <= err <= f.dx && 0 <= Across(f, y) <= f.dy + 1
    ensures IdealPixel(f, i) == if f.steep then Point(y, f.x + i) else Point(f.x + i, y)
    ensures if err - f.dy < 0
            then Tracks(f, i + 1, if f.climbs then y + 1 else y - 1, err - f.dy + f.dx) && Across(f, y) <= f.dy
            else Tracks(f, i + 1, y, err - f.dy)
  {
    hide ErrorOf, Nearest, IdealPixel;
    var k := Across(f, y);
    ErrorMeansNearest(f, i, k, err);
    PixelAt(f, f.x + i, y, i, k);
    ErrorStep(f, i, k, err);
  }

  /** err measures how far k steps across lie below the rounding threshold. */
  predicate ErrorOf(f: Frame, i: nat, k: nat, err: int) {
    err == f.dx / 2 - i * f.dy + k * f.dx && 0 <= err <= f.dx && (f.dx > 0 ==> err < f.dx) && (f.dx == 0 ==> k == 0)
  }

  lemma PixelAt(f: Frame, x: int, y: int, i: nat, k: nat)
    requires x == f.x + i && y == (if f.climbs then f.y + k else f.y - k) && k == Nearest(i, f.dx, f.dy)
    ensures IdealPixel(f, i) == if f.steep then Point(y, x) else Point(x, y)
  {}

  lemma ErrorStart(f: Frame)
    requires f.dy <= f.dx
    ensures ErrorOf(f, 0, 0, f.dx / 2)
  {}

  lemma ErrorMeansNearest(f: Frame, i: nat, k: nat, err: int)
    requires ErrorOf(f, i, k, err)
    ensures k == Nearest(i, f.dx, f.dy)
  {
    if f.dx > 0 {
      QuotientIs(i * f.dy + (f.dx - 1) / 2, f.dx, k);
    }
  }

  lemma ErrorStep(f: Frame, i: nat, k: nat, err: int)
    requires ErrorOf(f, i, k, err) && i <= f.dx && f.dy <= f.dx
    ensures 0 <= err <= f.dx
    ensures if err - f.dy < 0 then ErrorOf(f, i + 1, k + 1, err - f.dy + f.dx) && k <= f.dy
            else ErrorOf(f, i + 1, k, err - f.dy)
  {
    NextMultiple(i, f.dy);
    NextMultiple(k, f.dx);
    if err - f.dy < 0 {
      StepStaysInside(f.dx, f.dy, i, k);
    }
  }

  lemma StepStaysInside(dx: nat, dy: nat, i: nat, k: nat)
    requires i <= dx && dy <= dx && dx / 2 - i * dy + k * dx - dy < 0
    ensures k <= dy
  {
    MulMono(i, dx, dy);
    MulMono(dy + 1, k, dx);
    NextMultiple(dy, dx);
  }

  // ----- what the reference line is

  /** One pixel per step of the longer axis, from one end to the other. */
  lemma LineEnds(p: Point, q: Point)
    ensures var line := IdealLine(p, q);
            |line| == Major(p, q) + 1
            && {line[0], line[|line| - 1]} == {p, q}
  {
    var f := FrameOf(p, q);
    NearestEnds(f.dx, f.dy);
    assert f.dx == 0 ==> p == q;
    assert {f.At(0, 0), f.At(f.dx, f.dy)} == {p, q};
  }

  lemma NearestEnds(dx: nat, dy: nat)
    requires dy <= dx
    ensures Nearest(0, dx, dy) == 0 && Nearest(dx, dx, dy) == dy
  {
    if dx > 0 {
      QuotientIs((dx - 1) / 2, dx, 0);
      assert dx * dy == dy * dx;
      QuotientIs(dx * dy + (dx - 1) / 2, dx, dy);
    }
  }

  /** k is i * e / d rounded to the nearest whole number, a half towards zero. */
  predicate Rounded(k: int, e: int, i: int, d: int) {
    if e >= 0 then -d <= 2 * (k * d - i * e) < d else -d <= 2 * (i * e - k * d) < d
  }

  /** Every pixel is within half a pixel of the exact line; of two at just half a pixel it is the one before the step. */
  lemma WithinHalfAPixel(i: nat, dx: nat, dy: nat)
    requires dx > 0
    ensures Rounded(Nearest(i, dx, dy), dy, i, dx)
  {
    MulMono(0, i, dy);
    DivisionRest(i * dy + (dx - 1) / 2, dx);
  }

  /** Pixel i of a line that starts at p: i steps along, and the rounded part of the way across. */
  lemma LineExact(p: Point, q: Point, i: nat)
    requires i <= Major(p, q) && if Abs(q.y - p.y) > Abs(q.x - p.x) then p.y < q.y else p.x < q.x
    ensures var r := IdealLine(p, q)[i];
            if Abs(q.y - p.y) > Abs(q.x - p.x) then r.y == p.y + i && Rounded(r.x - p.x, q.x - p.x, i, q.y - p.y)
            else r.x == p.x + i && Rounded(r.y - p.y, q.y - p.y, i, q.x - p.x)
  {
    hide Nearest, Rounded;
    var f := FrameOf(p, q);
    WithinHalfAPixel(i, f.dx, f.dy);
    RoundedDown(Nearest(i, f.dx, f.dy), f.dy, i, f.dx);
    if f.dy == 0 {
      StraightNearest(i, f.dx);
    }
  }

  lemma RoundedDown(k: int, e: int, i: int, d: int)
    requires Rounded(k, e, i, d) && e >= 0
    ensures e > 0 ==> Rounded(-k, -e, i, d)
  {
    Negated(k, d);
    Negated(e, i);
  }

  /** Each pixel is one step along and no step or one step across from the one before. */
  lemma LineSteps(p: Point, q: Point, i: nat)
    requires i < Major(p, q)
    ensures var f, a, b := FrameOf(p, q), IdealLine(p, q)[i], IdealLine(p, q)[i + 1];
            var along, across := if f.steep then b.y - a.y else b.x - a.x, if f.steep then b.x - a.x else b.y - a.y;
            along == 1 && 0 <= (if f.climbs then across else -across) <= 1
  {
    var f := FrameOf(p, q);
    NearestSteps(i, f.dx, f.dy);
    assert IdealLine(p, q)[i] == IdealPixel(f, i) && IdealLine(p, q)[i + 1] == IdealPixel(f, i + 1);
  }

  lemma NearestSteps(i: nat, dx: nat, dy: nat)
    requires dy <= dx
    ensures 0 <= Nearest(i + 1, dx, dy) - Nearest(i, dx, dy) <= 1
  {
    if dx > 0 {
      MulMono(0, i, dy);
      NextMultiple(i, dy);
      QuotientGrowth(i * dy + (dx - 1) / 2, (i + 1) * dy + (dx - 1) / 2, dx);
    }
  }

  lemma QuotientGrowth(n: nat, m: nat, d: nat)
    requires d > 0 && n <= m <= n + d
    ensures n / d <= m / d <= n / d + 1
  {
    DivisionRest(n, d);
    DivisionRest(m, d);
    MultiplesApart(n / d, m / d, n, m, d);
  }

  lemma MultiplesApart(a: int, b: int, n: nat, m: nat, d: nat)
    requires a * d <= n < a * d + d && b * d <= m < b * d + d && n <= m <= n + d
    ensures a <= b <= a + 1
  {
    MulMono(b + 1, a, d);
    MulMono(a + 2, b, d);
  }

  /** Swapping the ends gives the same pixels in the same order. */
  lemma LineIsSymmetric(p: Point, q: Point)
    ensures IdealLine(p, q) == IdealLine(q, p)
  {
    assert Major(p, q) == 0 ==> p == q;
    assert FrameOf(p, q) == FrameOf(q, p);
  }

  // ----- fast lines and drawLine

  function ColumnDots(x: int, y: int, h: int): seq<Point> {
    if h <= 0 then [] else seq(h, i requires 0 <= i => Point(x, y + i))
  }

  function RowDots(x: int, y: int, w: int): seq<Point> {
    if w <= 0 then [] else seq(w, i requires 0 <= i => Point(x + i, y))
  }

  /** The generic drawFastVLine draws the h pixels from (x, y) down exactly when h is positive; for any
      other h it draws 2 - h pixels, the line back up to row y + h - 1. */
  lemma FastVLineExact(x: int, y: int, h: int)
    ensures IdealLine(Point(x, y), Point(x, y + h - 1)) == ColumnDots(x, y, h) <==> h >= 1
    ensures h <= 0 ==> |IdealLine(Point(x, y), Point(x, y + h - 1))| == 2 - h
  {
    var p, q := Point(x, y), Point(x, y + h - 1);
    if h >= 1 {
      forall i | 0 <= i < h ensures IdealLine(p, q)[i] == Point(x, y + i) {
        StraightNearest(i, h - 1);
      }
    }
  }

  lemma FastHLineExact(x: int, y: int, w: int)
    ensures IdealLine(Point(x, y), Point(x + w - 1, y)) == RowDots(x, y, w) <==> w >= 1
    ensures w <= 0 ==> |IdealLine(Point(x, y), Point(x + w - 1, y))| == 2 - w
  {
    var p, q := Point(x, y), Point(x + w - 1, y);
    if w >= 1 {
      forall i | 0 <= i < w ensures IdealLine(p, q)[i] == Point(x + i, y) {
        StraightNearest(i, w - 1);
      }
    }
  }

  lemma StraightNearest(i: nat, dx: nat)
    ensures Nearest(i, dx, 0) == 0
  {
    if dx > 0 {
      QuotientIs((dx - 1) / 2, dx, 0);
    }
  }

  method DrawFastVLine(x: Int16, y: Int16, h: Int16) returns (pixels: seq<Point>)
    requires Fits(Point(x, y), Point(x, y + h - 1))
    ensures pixels == IdealLine(Point(x, y), Point(x, y + h - 1))
  {
    pixels := WriteLine(x, y, x, y + h - 1);
  }

  method DrawFastHLine(x: Int16, y: Int16, w: Int16) returns (pixels: seq<Point>)
    requires Fits(Point(x, y), Point(x + w - 1, y))
    ensures pixels == IdealLine(Point(x, y), Point(x + w - 1, y))
  {
    pixels := WriteLine(x, y, x + w - 1, y);
  }

  /** drawLine sends straight lines to the fast routines with the smaller end first; the pixels are
      the reference line all the same. */
  method DrawLine(x0In: Int16, y0In: Int16, x1In: Int16, y1In: Int16) returns (pixels: seq<Point>)
    requires Fits(Point(x0In, y0In), Point(x1In, y1In))
    requires Abs(x1In - x0In) < 0x7FFF && Abs(y1In - y0In) < 0x7FFF
    ensures pixels == IdealLine(Point(x0In, y0In), Point(x1In, y1In))
  {
    hide IdealLine;
    LineIsSymmetric(Point(x0In, y0In), Point(x1In, y1In));
    var x0, y0, x1, y1 := x0In, y0In, x1In, y1In;
    if x0 == x1 {
      if y0 > y1 {
        y0, y1 := y1, y0;
      }
      pixels := DrawFastVLine(x0, y0, y1 - y0 + 1);
    } else if y0 == y1 {
      if x0 > x1 {
        x0, x1 := x1, x0;
      }
      pixels := DrawFastHLine(x0, y0, x1 - x0 + 1);
    } else {
      pixels := WriteLine(x0, y0, x1, y1);
    }
  }
}
