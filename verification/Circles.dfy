/** Midpoint circles of Adafruit_GFX: drawCircle, fillCircle, fillCircleHelper and fillRoundRect. */
module Circles {
  import opened MachineInts
  import opened Arithmetic
  import opened Lines

  // ----- reference definitions, relative to the centre

  /** The larger offset is sqrt(r*r - smaller*smaller) rounded to the nearest integer. */
  predicate OnCircle(r: nat, dx: int, dy: int) {
    var a, b := Min(Abs(dx), Abs(dy)), Max(Abs(dx), Abs(dy));
    if r == 0 then b == 0 else b * b - b + a * a < r * r <= b * b + b + a * a
  }

  /** On the circle or inside it: the larger offset is at most that rounded root. */
  predicate InDisc(r: nat, dx: int, dy: int) {
    var a, b := Min(Abs(dx), Abs(dy)), Max(Abs(dx), Abs(dy));
    b == 0 || b * b - b + a * a < r * r
  }

  // ----- the octant walk that the three loops share

  /** What holds at the loop heads for r > 0: f is the decision value of the pixel walk, and (x, y) lies
      within half a pixel of the circle. */
  predicate Octant(r: int, x: int, y: int, f: int) {
    && 0 <= x <= y + 1 && 0 <= y <= r
    && f == (x + 1) * (x + 1) + y * y - y - r * r
    && -y <= x * x + y * y - r * r <= y
    && (x <= y ==> x * x + y * y - r * r <= y - 1)
  }

  lemma OctantStart(r: int)
    requires r > 0
    ensures Octant(r, 0, r, 1 - r)
  {}

  lemma OctantStep(r: int, x: int, y: int, f: int)
    requires Octant(r, x, y, f) && x < y
    ensures f >= 0 ==> Octant(r, x + 1, y - 1, f - 2 * (y - 1) + 2 * x + 3)
    ensures f < 0 ==> Octant(r, x + 1, y, f + 2 * x + 3)
  {
    var e := x * x + y * y - r * r;
    assert (x + 1) * (x + 1) == x * x + 2 * x + 1;
    assert (x + 2) * (x + 2) == x * x + 4 * x + 4;
    assert (y - 1) * (y - 1) == y * y - 2 * y + 1;
    assert f == e + 2 * x + 1 - y;
  }

  /** No int16 variable of the walk overflows for radii up to 16383. */
  lemma OctantInRange(r: int, x: int, y: int, f: int)
    requires Octant(r, x, y, f) && r <= 16383
    ensures x <= 16383 && -32765 <= f <= 32767
  {
    SquareMono(16384, x);
    SquareMono(r, 16383);
    MulMono(0, y - 1, y);
    assert y >= 1 ==> y * y >= y;
    assert (x + 1) * (x + 1) == x * x + 2 * x + 1;
  }

  // ----- drawCircle

  /** The eight pixels of one step of the loop, in the order they are written. */
  function EightWays(x0: int, y0: int, x: int, y: int): seq<Point> {
    [Point(x0 + x, y0 + y), Point(x0 - x, y0 + y), Point(x0 + x, y0 - y), Point(x0 - x, y0 - y),
     Point(x0 + y, y0 + x), Point(x0 - y, y0 + x), Point(x0 + y, y0 - x), Point(x0 - y, y0 - x)]
  }

  lemma EightWaysAre(x0: int, y0: int, x: nat, y: nat, p: Point)
    ensures p in EightWays(x0, y0, x, y)
       <==> Min(Abs(p.x - x0), Abs(p.y - y0)) == Min(x, y) && Max(Abs(p.x - x0), Abs(p.y - y0)) == Max(x, y)
  {
    var w := EightWays(x0, y0, x, y);
    assert w[0] == Point(x0 + x, y0 + y) && w[1] == Point(x0 - x, y0 + y);
    assert w[2] == Point(x0 + x, y0 - y) && w[3] == Point(x0 - x, y0 - y);
    assert w[4] == Point(x0 + y, y0 + x) && w[5] == Point(x0 - y, y0 + x);
    assert w[6] == Point(x0 + y, y0 - x) && w[7] == Point(x0 - y, y0 - x);
  }

  function AxisPoints(x0: int, y0: int, r: int): seq<Point> {
    [Point(x0, y0 + r), Point(x0, y0 - r), Point(x0 + r, y0), Point(x0 - r, y0)]
  }

  lemma AxisPointsAre(x0: int, y0: int, r: nat, p: Point)
    ensures p in AxisPoints(x0, y0, r)
       <==> Min(Abs(p.x - x0), Abs(p.y - y0)) == 0 && Max(Abs(p.x - x0), Abs(p.y - y0)) == r
  {
    var w := AxisPoints(x0, y0, r);
    assert w[0] == Point(x0, y0 + r) && w[1] == Point(x0, y0 - r);
    assert w[2] == Point(x0 + r, y0) && w[3] == Point(x0 - r, y0);
  }

  /** At most one b >= 0 is the rounded root of r*r - a*a. */
  lemma RoundedRootUnique(r: int, a: int, b: int, c: int)
    requires b >= 0 && c >= 0
    requires b * b - b + a * a < r * r <= b * b + b + a * a
    requires c * c - c + a * a < r * r <= c * c + c + a * a
    ensures b == c
  {
    PronicMono(b + 1, c);
    PronicMono(c + 1, b);
    assert (b + 1) * (b + 1) == b * b + 2 * b + 1 && (c + 1) * (c + 1) == c * c + 2 * c + 1;
  }

  /** The circle's only pixels whose smaller offset is the walk's column x are those the step draws. */
  lemma OctantColumn(r: nat, x: int, y: int, f: int, a: int, b: int)
    requires r > 0 && Octant(r, x, y, f) && 0 <= a <= b && (a == x || (a, b) == (y, x))
    ensures OnCircle(r, a, b) <==> (a, b) == (Min(x, y), Max(x, y))
  {
    if a == x {
      if x <= y {
        if OnCircle(r, a, b) {
          RoundedRootUnique(r, x, b, y);
        }
      } else {
        assert x == y + 1;
        assert (y + 1) * (y + 1) == y * y + 2 * y + 1;
        PronicMono(x, b);
      }
    } else {
      assert x * x == y * y + 2 * y + 1;
    }
  }

  /** When the walk ends, no pixel of the circle has a smaller offset beyond x. */
  lemma OctantComplete(r: nat, x: int, y: int, f: int, a: int, b: int)
    requires r > 0 && Octant(r, x, y, f) && x >= y && x < a <= b
    ensures !OnCircle(r, a, b)
  {
    PronicMono(a, b);
    SquareMono(x + 1, a);
    SquareMono(y, x);
    PronicMono(x + 1, a);
    assert (x + 1) * (x + 1) == x * x + 2 * x + 1;
  }

  /** The pixels written so far are circle pixels, and include all whose smaller offset is at most x. */
  ghost predicate Walked(pixels: seq<Point>, x0: int, y0: int, r: nat, x: int) {
    forall p: Point ::
      (p in pixels ==> OnCircle(r, p.x - x0, p.y - y0))
      && (OnCircle(r, p.x - x0, p.y - y0) && Min(Abs(p.x - x0), Abs(p.y - y0)) <= x ==> p in pixels)
  }

  lemma WalkStart(x0: int, y0: int, r: nat)
    ensures Walked(AxisPoints(x0, y0, r), x0, y0, r, 0)
  {
    forall p: Point
      ensures p in AxisPoints(x0, y0, r) ==> OnCircle(r, p.x - x0, p.y - y0)
      ensures OnCircle(r, p.x - x0, p.y - y0) && Min(Abs(p.x - x0), Abs(p.y - y0)) <= 0 ==> p in AxisPoints(x0, y0, r)
    {
      AxisPointsAre(x0, y0, r, p);
      var b := Max(Abs(p.x - x0), Abs(p.y - y0));
      if r > 0 && OnCircle(r, p.x - x0, p.y - y0) && Min(Abs(p.x - x0), Abs(p.y - y0)) == 0 {
        RoundedRootUnique(r, 0, b, r);
      }
    }
  }

  lemma WalkStep(pixels: seq<Point>, x0: int, y0: int, r: nat, x: nat, y: nat, f: int)
    requires r > 0 && x > 0 && Octant(r, x, y, f) && Walked(pixels, x0, y0, r, x - 1)
    ensures Walked(pixels + EightWays(x0, y0, x, y), x0, y0, r, x)
  {
    hide Octant, OnCircle, EightWays;
    forall p: Point
      ensures p in pixels + EightWays(x0, y0, x, y) ==> OnCircle(r, p.x - x0, p.y - y0)
      ensures OnCircle(r, p.x - x0, p.y - y0) && Min(Abs(p.x - x0), Abs(p.y - y0)) <= x
          ==> p in pixels + EightWays(x0, y0, x, y)
    {
      EightWaysAre(x0, y0, x, y, p);
      var a, b := Min(Abs(p.x - x0), Abs(p.y - y0)), Max(Abs(p.x - x0), Abs(p.y - y0));
      OffsetsOnly(r, p.x - x0, p.y - y0);
      MinOfStep(r, x, y, f);
      if a == x || (a, b) == (y, x) {
        OctantColumn(r, x, y, f, a, b);
      }
    }
  }

  lemma OffsetsOnly(r: nat, dx: int, dy: int)
    ensures OnCircle(r, dx, dy) <==> OnCircle(r, Min(Abs(dx), Abs(dy)), Max(Abs(dx), Abs(dy)))
    ensures InDisc(r, dx, dy) <==> InDisc(r, Min(Abs(dx), Abs(dy)), Max(Abs(dx), Abs(dy)))
  {}

  lemma MinOfStep(r: int, x: int, y: int, f: int)
    requires Octant(r, x, y, f)
    ensures 0 <= x <= y + 1 && 0 <= y <= r
  {}

  lemma WalkEnd(pixels: seq<Point>, x0: int, y0: int, r: nat, x: nat, y: nat, f: int)
    requires r > 0 && Octant(r, x, y, f) && x >= y && Walked(pixels, x0, y0, r, x)
    ensures forall p: Point :: p in pixels <==> OnCircle(r, p.x - x0, p.y - y0)
  {
    hide Octant, OnCircle;
    forall p: Point | OnCircle(r, p.x - x0, p.y - y0) ensures p in pixels {
      var a, b := Min(Abs(p.x - x0), Abs(p.y - y0)), Max(Abs(p.x - x0), Abs(p.y - y0));
      OffsetsOnly(r, p.x - x0, p.y - y0);
      if a > x {
        OctantComplete(r, x, y, f, a, b);
      }
    }
  }

  lemma PointCircle(x0: int, y0: int)
    ensures forall p: Point :: p in AxisPoints(x0, y0, 0) <==> OnCircle(0, p.x - x0, p.y - y0)
  {
    forall p: Point ensures p in AxisPoints(x0, y0, 0) <==> OnCircle(0, p.x - x0, p.y - y0) {
      AxisPointsAre(x0, y0, 0, p);
    }
  }

  /** Exactly the circle's pixels are written, and each Int16 store is in range. */
  method DrawCircle(x0: Int16, y0: Int16, r: Int16) returns (pixels: seq<Point>)
    requires -16383 <= r <= 16383
    requires -0x8000 <= x0 - Abs(r) && x0 + Abs(r) < 0x8000 && -0x8000 <= y0 - Abs(r) && y0 + Abs(r) < 0x8000
    ensures r >= 0 ==> forall p: Point :: p in pixels <==> OnCircle(r, p.x - x0, p.y - y0)
    ensures r < 0 ==> pixels == AxisPoints(x0, y0, r)
  {
    hide Octant, OnCircle, EightWays, Walked, AxisPoints;
    var f: Int16, ddFx: Int16, ddFy: Int16, x: Int16, y: Int16 := 1 - r, 1, -2 * r, 0, r;
    pixels := WriteAxisPoints(x0, y0, r);
    if r > 0 {
      OctantStart(r);
      WalkStart(x0, y0, r);
    } else if r == 0 {
      PointCircle(x0, y0);
    }
    while x < y
      invariant ddFx == 2 * x + 1 && ddFy == -2 * y && y <= Max(r, 0)
      invariant r <= 0 ==> x == 0 && y == r && pixels == AxisPoints(x0, y0, r)
      invariant r > 0 ==> 0 <= x && 0 <= y && Octant(r, x, y, f) && Walked(pixels, x0, y0, r, x)
    {
      OctantInRange(r, x, y, f);
      OctantStep(r, x, y, f);
      if f >= 0 {
        y := y - 1;
        ddFy := ddFy + 2;
        f := f + ddFy;
      }
      x := x + 1;
      ddFx := ddFx + 2;
      OctantInRange(r, x, y, f + ddFx);
      f := f + ddFx;
      MinOfStep(r, x, y, f);
      WalkStep(pixels, x0, y0, r, x, y, f);
      WithinRadius(r, x, y, f);
      var step := WriteEightWays(x0, y0, x, y);
      pixels := pixels + step;
    }
    if r > 0 {
      WalkEnd(pixels, x0, y0, r, x, y, f);
    }
  }

  method WriteAxisPoints(x0: Int16, y0: Int16, r: Int16) returns (pixels: seq<Point>)
    requires -0x8000 <= x0 - Abs(r) && x0 + Abs(r) < 0x8000 && -0x8000 <= y0 - Abs(r) && y0 + Abs(r) < 0x8000
    ensures pixels == AxisPoints(x0, y0, r)
  {
    var top: Int16, bottom: Int16, right: Int16, left: Int16 := y0 - r, y0 + r, x0 + r, x0 - r;
    pixels := [Point(x0, bottom), Point(x0, top), Point(right, y0), Point(left, y0)];
  }

  lemma WithinRadius(r: int, x: int, y: int, f: int)
    requires Octant(r, x, y, f)
    ensures x <= r && y <= r
  {
    SquareMono(r + 1, x);
    PronicMono(1, y);
    assert (r + 1) * (r + 1) == r * r + 2 * r + 1;
  }

  method WriteEightWays(x0: Int16, y0: Int16, x: Int16, y: Int16) returns (pixels: seq<Point>)
    requires x >= 0 && y >= 0
    requires -0x8000 <= x0 - Max(x, y) && x0 + Max(x, y) < 0x8000
    requires -0x8000 <= y0 - Max(x, y) && y0 + Max(x, y) < 0x8000
    ensures pixels == EightWays(x0, y0, x, y)
  {
    var xPlusX: Int16, xLessX: Int16, yPlusY: Int16, yLessY: Int16 := x0 + x, x0 - x, y0 + y, y0 - y;
    var xPlusY: Int16, xLessY: Int16, yPlusX: Int16, yLessX: Int16 := x0 + y, x0 - y, y0 + x, y0 - x;
    pixels := [Point(xPlusX, yPlusY), Point(xLessX, yPlusY), Point(xPlusX, yLessY), Point(xLessX, yLessY),
               Point(xPlusY, yPlusX), Point(xLessY, yPlusX), Point(xPlusY, yLessX), Point(xLessY, yLessX)];
  }

  // ----- filled shapes, as the vertical lines they are made of

  /** A call of writeFastVLine: h pixels from (x, y) down; none if h is not positive. */
  datatype VLine = VLine(x: int, y: int, h: int) {
    predicate Paints(u: int, v: int) {
      u == x && y <= v < y + h
    }
  }

  /** How many of the lines paint the pixel (u, v). */
  function Painted(lines: seq<VLine>, u: int, v: int): nat {
    if lines == [] then 0
    else Painted(lines[..|lines| - 1], u, v) + if lines[|lines| - 1].Paints(u, v) then 1 else 0
  }

  lemma PaintedMore(lines: seq<VLine>, line: VLine, u: int, v: int)
    ensures Painted(lines + [line], u, v) == Painted(lines, u, v) + if line.Paints(u, v) then 1 else 0
  {
    assert (lines + [line])[..|lines|] == lines;
  }

  lemma {:induction false} PaintedJoin(a: seq<VLine>, b: seq<VLine>, u: int, v: int)
    ensures Painted(a + b, u, v) == Painted(a, u, v) + Painted(b, u, v)
    decreases |b|
  {
    if b == [] {
      assert a + b == a;
    } else {
      assert (a + b)[..|a + b| - 1] == a + b[..|b| - 1];
      PaintedJoin(a, b[..|b| - 1], u, v);
    }
  }

  /** Distance of v from the band y..y + delta, signed. */
  function Beyond(v: int, y: int, delta: int): int {
    if v < y then v - y else if v > y + delta then v - y - delta else 0
  }

  /** The pixel is in one of the columns 1..r to the right (side 1) or left (side -1) of the centre, in
      the disc whose centre is stretched to the rows y0..y0 + delta. */
  predicate InHalfDisc(x0: int, y0: int, r: nat, side: int, delta: int, u: int, v: int) {
    var c := if side > 0 then u - x0 else x0 - u;
    1 <= c <= r && InDisc(r, c, Beyond(v, y0, delta))
  }

  function Right(corners: UInt8): bool { corners % 2 == 1 }

  function Left(corners: UInt8): bool { (corners / 2) % 2 == 1 }

  /** How often the corners asked for should paint the pixel. */
  function HalfDiscs(x0: int, y0: int, r: nat, corners: UInt8, delta: int, u: int, v: int): nat {
    (if Right(corners) && InHalfDisc(x0, y0, r, 1, delta, u, v) then 1 else 0)
    + (if Left(corners) && InHalfDisc(x0, y0, r, -1, delta, u, v) then 1 else 0)
  }

  /** Column c of the disc reaches d rows above and below the centre. */
  ghost predicate Reaches(r: nat, c: nat, d: nat) {
    forall v :: InDisc(r, c, v) <==> Abs(v) <= d
  }

  /** In the first case of the loop, column x reaches y rows. */
  lemma UpperColumn(r: nat, x: nat, y: nat, f: int)
    requires r > 0 && 0 < x <= y && Octant(r, x, y, f)
    ensures Reaches(r, x, y)
  {
    forall v ensures InDisc(r, x, v) <==> Abs(v) <= y {
      var d := Abs(v);
      if d > x {
        PronicMono(d, y);
        PronicMono(y + 1, d);
        assert (y + 1) * (y + 1) == y * y + 2 * y + 1;
      } else {
        PronicMono(x, y);
        SquareMono(d, x);
      }
    }
  }

  /** In the second case, when y has stepped down from py, column py reaches px = x - 1 rows. */
  lemma OuterColumn(r: nat, x: nat, py: nat, f: int)
    requires r > 0 && x < py && Octant(r, x, py, f) && f >= 0
    ensures Reaches(r, py, x)
  {
    forall v ensures InDisc(r, py, v) <==> Abs(v) <= x {
      var d := Abs(v);
      assert (x + 1) * (x + 1) == x * x + 2 * x + 1;
      if d <= py {
        SquareMono(d, x);
        SquareMono(x + 1, d);
      } else {
        PronicMono(py, d);
        SquareMono(x + 1, py);
      }
    }
  }

  // ----- fillCircleHelper

  lemma WrongSide(lines: seq<VLine>, x0: int, y0: int, r: nat, corners: UInt8, delta: int)
    requires forall u, v :: Painted(lines, u, v) == HalfDiscs(x0, y0, r, corners, delta, u, v)
    ensures OnSides(lines, x0, corners)
  {
    hide InDisc, Beyond, Painted;
  }

  /** Nothing is painted in the centre column, nor on the right or left of it without the bit 0 or 1 of corners. */
  ghost predicate OnSides(lines: seq<VLine>, x0: int, corners: UInt8) {
    forall u, v :: (u > x0 && corners % 2 == 0) || (u < x0 && corners / 2 % 2 == 0) || u == x0 ==> Painted(lines, u, v) == 0
  }

  /** As InHalfDisc, for the columns done so far. */
  predicate InColumns(x0: int, y0: int, r: nat, side: int, delta: int, done: set<int>, u: int, v: int) {
    var c := if side > 0 then u - x0 else x0 - u;
    c in done && InDisc(r, c, Beyond(v, y0, delta))
  }

  /** Each pixel of the columns done is painted once per side asked for, and no other pixel is. */
  ghost predicate Filled(lines: seq<VLine>, x0: int, y0: int, r: nat, corners: UInt8, delta: int, done: set<int>) {
    forall u, v :: Painted(lines, u, v)
      == (if Right(corners) && InColumns(x0, y0, r, 1, delta, done, u, v) then 1 else 0)
         + (if Left(corners) && InColumns(x0, y0, r, -1, delta, done, u, v) then 1 else 0)
  }

  function ColumnLines(x0: int, y0: int, corners: UInt8, delta: int, c: int, d: int): seq<VLine> {
    (if Right(corners) then [VLine(x0 + c, y0 - d, 2 * d + delta + 1)] else [])
    + (if Left(corners) then [VLine(x0 - c, y0 - d, 2 * d + delta + 1)] else [])
  }

  lemma ColumnLinesPaint(x0: int, y0: int, corners: UInt8, delta: int, c: int, d: nat, u: int, v: int)
    requires delta >= -1
    ensures Painted(ColumnLines(x0, y0, corners, delta, c, d), u, v)
         == (if Right(corners) && u == x0 + c && Abs(Beyond(v, y0, delta)) <= d then 1 else 0)
            + (if Left(corners) && u == x0 - c && Abs(Beyond(v, y0, delta)) <= d then 1 else 0)
  {
    var right, left := VLine(x0 + c, y0 - d, 2 * d + delta + 1), VLine(x0 - c, y0 - d, 2 * d + delta + 1);
    PaintedMore([], right, u, v);
    PaintedMore([], left, u, v);
    PaintedMore([right], left, u, v);
    assert [] + [right] == [right] && [] + [left] == [left] && [right] + [] == [right];
  }

  lemma AddColumn(lines: seq<VLine>, x0: int, y0: int, r: nat, corners: UInt8, delta: int, done: set<int>, c: nat, d: nat)
    requires delta >= -1 && c > 0 && c !in done && (0 - c) !in done && Reaches(r, c, d)
    requires Filled(lines, x0, y0, r, corners, delta, done)
    ensures Filled(lines + ColumnLines(x0, y0, corners, delta, c, d), x0, y0, r, corners, delta, done + {c})
  {
    hide ColumnLines, Painted, InDisc, Right, Left, Beyond;
    var more := ColumnLines(x0, y0, corners, delta, c, d);
    var all := lines + more;
    forall u, v
      ensures Painted(all, u, v)
           == (if Right(corners) && InColumns(x0, y0, r, 1, delta, done + {c}, u, v) then 1 else 0)
              + (if Left(corners) && InColumns(x0, y0, r, -1, delta, done + {c}, u, v) then 1 else 0)
    {
      PaintedJoin(lines, more, u, v);
      ColumnLinesPaint(x0, y0, corners, delta, c, d, u, v);
      assert InDisc(r, c, Beyond(v, y0, delta)) <==> Abs(Beyond(v, y0, delta)) <= d;
    }
  }

  /** The columns finished when the walk is at (x, y). */
  function DoneColumns(r: nat, x: int, y: int): set<int> {
    set c: int | 1 <= c <= r && IsDone(x, y, c)
  }

  predicate IsDone(x: int, y: int, c: int) {
    c <= x || c > y
  }

  /** One pass of the loop: up to two new columns, none of them drawn before. */
  lemma PassColumns(r: nat, x: nat, y: nat, f: int, stepped: bool)
    requires r > 0 && x < y <= r && Octant(r, x, y, f) && stepped == (f >= 0)
    ensures var newY := if stepped then y - 1 else y;
            var first := if x + 1 < newY + 1 then {x + 1} else {};
            var second := if stepped then {y} else {};
            && DoneColumns(r, x + 1, newY) == DoneColumns(r, x, y) + first + second
            && first !! second && first !! DoneColumns(r, x, y) && second !! DoneColumns(r, x, y)
            && (first != {} ==> Reaches(r, x + 1, newY))
            && (stepped ==> Reaches(r, y, x))
  {
    var newY := if stepped then y - 1 else y;
    OctantStep(r, x, y, f);
    if x + 1 < newY + 1 {
      UpperColumn(r, x + 1, newY, if stepped then f - 2 * (y - 1) + 2 * x + 3 else f + 2 * x + 3);
    }
    if stepped {
      OuterColumn(r, x, y, f);
    }
  }

  method FillCircleHelper(x0: Int16, y0: Int16, r: Int16, corners: UInt8, delta0: Int16) returns (lines: seq<VLine>)
    requires -16383 <= r <= 16383 && delta0 < 0x7FFF
    requires r > 0 ==> -1 <= delta0 && 2 * r + delta0 + 1 < 0x8000
    requires r > 0 ==> -0x8000 <= y0 - r && (Left(corners) ==> -0x8000 <= x0 - r) && (Right(corners) ==> x0 + r < 0x8000)
    ensures forall u, v :: Painted(lines, u, v) == HalfDiscs(x0, y0, Max(r, 0), corners, delta0, u, v)
    ensures OnSides(lines, x0, corners)
    ensures r <= 0 ==> lines == []
  {
    hide Octant, Filled, ColumnLines, Reaches, DoneColumns, Painted, Right, Left, OnSides;
    var f: Int16, ddFx: Int16, ddFy: Int16, x: Int16, y: Int16 := 1 - r, 1, -2 * r, 0, r;
    var px: Int16, py: Int16 := x, y;
    var delta: Int16 := delta0 + 1;
    lines := [];
    ghost var n := Max(r, 0);
    NothingFilled(x0, y0, n, corners, delta0, r);
    if r > 0 {
      OctantStart(r);
    }
    while x < y
      invariant ddFx == 2 * x + 1 && ddFy == -2 * y && px == x && py == y && x <= Max(y, 0) + 1
      invariant r <= 0 ==> x == 0 && y == r && lines == []
      invariant r > 0 ==> 0 <= x && 0 <= y <= r && Octant(r, x, y, f)
      invariant Filled(lines, x0, y0, n, corners, delta0, DoneColumns(n, x, y))
    {
      OctantInRange(r, x, y, f);
      OctantStep(r, x, y, f);
      PassColumns(r, x, y, f, f >= 0);
      ghost var done := DoneColumns(n, x, y);
      if f >= 0 {
        y := y - 1;
        ddFy := ddFy + 2;
        f := f + ddFy;
      }
      x := x + 1;
      ddFx := ddFx + 2;
      OctantInRange(r, x, y, f + ddFx);
      f := f + ddFx;
      MinOfStep(r, x, y, f);
      WithinRadius(r, x, y, f);
      if x < y + 1 {
        DoneArePositive(n, px, py);
        AddColumn(lines, x0, y0, n, corners, delta0, done, x, y);
        done := done + {x as int};
        var more := WriteColumn(x0, y0, corners, delta, x, y);
        lines := lines + more;
      }
      if y != py {
        DoneArePositive(n, px, py);
        AddColumn(lines, x0, y0, n, corners, delta0, done, py, px);
        done := done + {py as int};
        var more := WriteColumn(x0, y0, corners, delta, py, px);
        lines := lines + more;
        py := y;
      }
      assert done == DoneColumns(n, x, y);
      px := x;
    }
    AllColumnsDone(lines, x0, y0, n, corners, delta0, x, y);
    WrongSide(lines, x0, y0, n, corners, delta0);
  }

  lemma NothingFilled(x0: int, y0: int, r: nat, corners: UInt8, delta: int, y: int)
    requires y <= r && (r > 0 ==> y == r)
    ensures Filled([], x0, y0, r, corners, delta, DoneColumns(r, 0, y))
  {
    assert DoneColumns(r, 0, y) == {};
  }

  lemma DoneArePositive(r: nat, x: int, y: int)
    ensures forall c :: c in DoneColumns(r, x, y) ==> c > 0
  {}

  lemma AllColumnsDone(lines: seq<VLine>, x0: int, y0: int, r: nat, corners: UInt8, delta: int, x: int, y: int)
    requires x >= y && Filled(lines, x0, y0, r, corners, delta, DoneColumns(r, x, y))
    ensures forall u, v :: Painted(lines, u, v) == HalfDiscs(x0, y0, r, corners, delta, u, v)
  {
    hide Painted, InDisc, Right, Left;
    forall u, v ensures Painted(lines, u, v) == HalfDiscs(x0, y0, r, corners, delta, u, v) {
      assert forall side: int :: InColumns(x0, y0, r, side, delta, DoneColumns(r, x, y), u, v)
                             <==> InHalfDisc(x0, y0, r, side, delta, u, v);
    }
  }

  method WriteColumn(x0: Int16, y0: Int16, corners: UInt8, delta: Int16, c: Int16, d: Int16) returns (lines: seq<VLine>)
    requires 0 <= c && 0 <= d && 0 <= delta && 2 * d + delta < 0x8000
    requires -0x8000 <= y0 - d && (Left(corners) ==> -0x8000 <= x0 - c) && (Right(corners) ==> x0 + c < 0x8000)
    ensures lines == ColumnLines(x0, y0, corners, delta - 1, c, d)
  {
    var top: Int16, height: Int16 := y0 - d, 2 * d + delta;
    lines := [];
    if corners % 2 == 1 {
      var right: Int16 := x0 + c;
      lines := lines + [VLine(right, top, height)];
    }
    if (corners / 2) % 2 == 1 {
      var left: Int16 := x0 - c;
      lines := lines + [VLine(left, top, height)];
    }
  }

  // ----- fillCircle and fillRoundRect

  /** Exactly the disc's pixels are painted, each once. A negative radius is a single call with a height that is not
      positive, which a device may take as nothing or, like the generic drawFastVLine, as a line upwards. */
  method FillCircle(x0: Int16, y0: Int16, r: Int16) returns (lines: seq<VLine>)
    requires -16383 <= r <= 16383
    requires -0x8000 <= x0 - Max(r, 0) && x0 + Max(r, 0) < 0x8000 && -0x8000 <= y0 - Max(r, 0) && y0 - r < 0x8000
    ensures forall u, v :: Painted(lines, u, v) == if r >= 0 && InDisc(r, u - x0, v - y0) then 1 else 0
    ensures r < 0 ==> lines == [VLine(x0, y0 - r, 2 * r + 1)]
  {
    hide InDisc, Painted, HalfDiscs;
    var top: Int16, height: Int16 := y0 - r, 2 * r + 1;
    var halves := FillCircleHelper(x0, y0, r, 3, 0);
    var middle := VLine(x0, top, height);
    lines := [middle] + halves;
    forall u, v ensures Painted(lines, u, v) == if r >= 0 && InDisc(r, u - x0, v - y0) then 1 else 0 {
      PaintedJoin([middle], halves, u, v);
      OneLine(middle, u, v);
      DiscInHalves(x0, y0, Max(r, 0), u, v);
    }
  }

  lemma OneLine(line: VLine, u: int, v: int)
    ensures Painted([line], u, v) == if line.Paints(u, v) then 1 else 0
  {
    PaintedMore([], line, u, v);
    assert [] + [line] == [line];
    assert Painted([], u, v) == 0;
  }

  /** The disc is its middle column and its two halves. */
  lemma DiscInHalves(x0: int, y0: int, r: nat, u: int, v: int)
    ensures HalfDiscs(x0, y0, r, 3, 0, u, v) == if u != x0 && InDisc(r, u - x0, v - y0) then 1 else 0
    ensures u == x0 ==> (InDisc(r, u - x0, v - y0) <==> y0 - r <= v <= y0 + r)
    ensures r == 0 ==> HalfDiscs(x0, y0, r, 3, 0, u, v) == 0
  {
    hide InDisc;
    if InDisc(r, u - x0, v - y0) {
      DiscInBox(r, u - x0, v - y0);
    }
    Mirrored(r, u - x0, v - y0);
    MiddleColumn(r, v - y0);
  }

  lemma MiddleColumn(r: nat, d: int)
    ensures InDisc(r, 0, d) <==> Abs(d) <= r
  {
    if d != 0 {
      PronicMono(Abs(d), r);
      PronicMono(r + 1, Abs(d));
      assert (r + 1) * (r + 1) == r * r + 2 * r + 1;
    }
  }

  lemma Mirrored(r: nat, dx: int, dy: int)
    ensures InDisc(r, dx, dy) <==> InDisc(r, -dx, dy)
    ensures InDisc(r, dx, dy) <==> InDisc(r, dx, -dy)
  {}

  /** A disc pixel is at most r from the centre in each direction. */
  lemma DiscInBox(r: nat, dx: int, dy: int)
    requires InDisc(r, dx, dy)
    ensures Abs(dx) <= r && Abs(dy) <= r
  {
    var b := Max(Abs(dx), Abs(dy));
    PronicMono(r + 1, b);
    assert (r + 1) * (r + 1) == r * r + 2 * r + 1;
  }

  /** How far u lies outside the span lo..hi - 1 at distance r from the ends; 0 in between. */
  function Inset(u: int, lo: int, size: int, r: int): int {
    if u < lo + r then lo + r - u else if u > lo + size - r - 1 then u - (lo + size - r - 1) else 0
  }

  /** The w by h box at (x, y) with its corners rounded to quarter discs of radius r. */
  predicate InRoundRect(x: int, y: int, w: int, h: int, r: nat, u: int, v: int) {
    InDisc(r, Inset(u, x, w, r), Inset(v, y, h, r))
  }

  /** The radius that fillRoundRect uses: at most half the shorter side, truncated toward zero. */
  function ClampedRadius(w: int, h: int, r: int): int {
    Min(r, Quot(Min(w, h), 2))
  }

  /** r is the largest radius up to r0 with which two corners fit on each side. */
  predicate LargestRadius(w: int, h: int, r0: int, r: nat) {
    r <= r0 && 2 * r <= w && 2 * r <= h && (r == r0 || 2 * (r + 1) > w || 2 * (r + 1) > h)
  }

  lemma LargestIsClamped(w: int, h: int, r0: int)
    ensures forall r: nat :: LargestRadius(w, h, r0, r) ==> ClampedRadius(w, h, r0) == r
    ensures w >= 0 && h >= 0 && r0 >= 0 ==> ClampedRadius(w, h, r0) >= 0 && LargestRadius(w, h, r0, ClampedRadius(w, h, r0))
  {
    forall r: nat | LargestRadius(w, h, r0, r) ensures ClampedRadius(w, h, r0) == r {
      QuotBounds(Min(w, h), 2);
    }
    if w >= 0 && h >= 0 && r0 >= 0 {
      QuotBounds(Min(w, h), 2);
    }
  }

  /** No int16 value of fillRoundRect wraps. */
  predicate RoundRectFits(x: int, y: int, w: int, h: int, r: int) {
    && -16383 <= r && Short(x + r) && Short(w - 2 * r) && x + w - r < 0x8000 && Short(x + w - r - 1)
    && Short(y + r) && Short(h - 2 * r - 1) && Short(h - 2 * r) && (r > 0 ==> x + w <= 0x8000)
  }

  method FillRect(x: Int16, y: Int16, w: Int16, h: Int16) returns (lines: seq<VLine>)
    requires x + w < 0x8000
    ensures forall u, v :: Painted(lines, u, v) == if x <= u < x + w && y <= v < y + h then 1 else 0
  {
    hide Painted;
    lines := [];
    NoLines();
    var i := x;
    while i < x + w
      invariant x <= i && (if w >= 0 then i <= x + w else i == x)
      invariant forall u, v :: Painted(lines, u, v) == if x <= u < i && y <= v < y + h then 1 else 0
    {
      ghost var before := lines;
      lines := lines + [VLine(i, y, h)];
      forall u, v ensures Painted(lines, u, v) == if x <= u < i + 1 && y <= v < y + h then 1 else 0 {
        PaintedMore(before, VLine(i, y, h), u, v);
      }
      i := i + 1;
    }
  }

  lemma NoLines()
    ensures forall u, v :: Painted([], u, v) == 0
  {}

  /** Exactly the pixels of the rounded box are painted, each once. A negative radius, asked for or from a negative
      side, gives a plain box that is wider by as much on both sides. */
  method FillRoundRect(x: Int16, y: Int16, w: Int16, h: Int16, r0: Int16) returns (lines: seq<VLine>)
    requires RoundRectFits(x, y, w, h, ClampedRadius(w, h, r0))
    ensures ClampedRadius(w, h, r0) >= 0 ==>
      forall u, v :: Painted(lines, u, v) == if InRoundRect(x, y, w, h, ClampedRadius(w, h, r0), u, v) then 1 else 0
    ensures forall r: nat, u, v :: LargestRadius(w, h, r0, r) ==>
      Painted(lines, u, v) == if InRoundRect(x, y, w, h, r, u, v) then 1 else 0
    ensures ClampedRadius(w, h, r0) < 0 ==>
      var r := ClampedRadius(w, h, r0);
      forall u, v :: Painted(lines, u, v) == if x + r <= u < x + w - r && y <= v < y + h then 1 else 0
  {
    hide InDisc, Painted, HalfDiscs, InRoundRect, LargestRadius;
    LargestIsClamped(w, h, r0);
    var maxRadius: Int16 := Quot(if w < h then w else h, 2);
    var r := r0;
    if r > maxRadius {
      r := maxRadius;
    }
    var middleX: Int16, middleW: Int16 := x + r, w - 2 * r;
    var middle := FillRect(middleX, y, middleW, h);
    var rightX: Int16, centreY: Int16, delta: Int16 := x + w - r - 1, y + r, h - 2 * r - 1;
    var right := FillCircleHelper(rightX, centreY, r, 1, delta);
    var left := FillCircleHelper(x + r, centreY, r, 2, delta);
    lines := middle + right + left;
    if r >= 0 {
      forall u, v ensures Painted(lines, u, v) == if InRoundRect(x, y, w, h, r, u, v) then 1 else 0 {
        PaintedJoin(middle + right, left, u, v);
        PaintedJoin(middle, right, u, v);
        RoundRectParts(x, y, w, h, r, u, v);
      }
    } else {
      assert lines == middle;
    }
  }

  /** The rounded box is its centre rectangle and two half discs stretched between its corners. */
  lemma RoundRectParts(x: int, y: int, w: int, h: int, r: nat, u: int, v: int)
    requires r == ClampedRadius(w, h, r)
    ensures (if x + r <= u < x + w - r && y <= v < y + h then 1 else 0)
            + HalfDiscs(x + w - r - 1, y + r, r, 1, h - 2 * r - 1, u, v) + HalfDiscs(x + r, y + r, r, 2, h - 2 * r - 1, u, v)
         == if InRoundRect(x, y, w, h, r, u, v) then 1 else 0
  {
    hide InDisc;
    var dx, dy := Inset(u, x, w, r), Inset(v, y, h, r);
    Mirrored(r, dx, dy);
    MiddleColumn(r, dy);
    MiddleColumn(r, dx);
    if InDisc(r, dx, dy) {
      DiscInBox(r, dx, dy);
    }
    assert 2 * r <= w && 2 * r <= h ==> Abs(Beyond(v, y + r, h - 2 * r - 1)) == dy;
  }

  /** The rounded box stays inside the box. */
  lemma RoundRectInBox(x: int, y: int, w: nat, h: nat, r: nat, u: int, v: int)
    requires InRoundRect(x, y, w, h, r, u, v) && 2 * r <= w && 2 * r <= h
    ensures x <= u < x + w && y <= v < y + h
  {
    DiscInBox(r, Inset(u, x, w, r), Inset(v, y, h, r));
  }

  /** Every pixel of the outline is a pixel of the filled circle. */
  lemma CircleInDisc(r: nat, dx: int, dy: int)
    requires OnCircle(r, dx, dy)
    ensures InDisc(r, dx, dy)
  {}

  /** The outline is the rim of the disc: a step further from the centre along the larger offset is
      outside. */
  lemma CircleIsRim(r: nat, dx: int, dy: int)
    requires r > 0 && 0 <= dx <= dy
    ensures OnCircle(r, dx, dy) <==> InDisc(r, dx, dy) && !InDisc(r, dx, dy + 1)
  {
    assert (dy + 1) * (dy + 1) == dy * dy + 2 * dy + 1;
  }
}
