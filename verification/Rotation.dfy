/** The four rotations of a drawing surface, as setRotation, drawPixel and getPixel use them. */
module Rotation {
  import opened MachineInts
  import opened PixelRuns

  /** Unrotated size and current rotation of a surface. */
  datatype Panel = Panel(w: nat, h: nat, rotation: nat) {
    predicate Valid() { rotation < 4 }

    function Width(): nat { if rotation % 2 == 0 then w else h }

    function Height(): nat { if rotation % 2 == 0 then h else w }

    /** (x, y) is on the rotated screen. */
    predicate Shows(x: int, y: int) {
      0 <= x < Width() && 0 <= y < Height()
    }

    /** (x, y) is a position of the unrotated surface. */
    predicate Holds(x: int, y: int) {
      0 <= x < w && 0 <= y < h
    }

    /** Unrotated position of the logical point (x, y). */
    function Turn(x: int, y: int): (int, int) {
      if rotation == 1 then (w - y - 1, x)
      else if rotation == 2 then (w - x - 1, h - y - 1)
      else if rotation == 3 then (y, h - x - 1)
      else (x, y)
    }
  }

  /** The logical point that is seen at position (u, v) of the unrotated surface. */
  function SeenAt(w: nat, h: nat, rotation: nat, u: int, v: int): (int, int) {
    match rotation
    case 0 => (u, v)
    case 1 => (v, w - 1 - u)
    case 2 => (w - 1 - u, h - 1 - v)
    case _ => (h - 1 - v, u)
  }

  lemma SeenIsTurned(p: Panel, u: int, v: int)
    requires p.Valid() && p.Holds(u, v)
    ensures var (x, y) := SeenAt(p.w, p.h, p.rotation, u, v);
            p.Shows(x, y) && p.Turn(x, y) == (u, v)
  {}

  /** Drawing through pen at logical points is drawing through raw at the turned points. */
  ghost predicate TurnsInto<S(!new)>(p: Panel, pen: (S, int, int) -> S, raw: (S, int, int) -> S) {
    forall x, y, u, v :: p.Turn(x, y) == (u, v) ==> Follows(pen, x, y, raw, u, v)
  }

  /** A pen that turns the points of the screen and does nothing off the screen. */
  lemma TurningPen<S(!new)>(p: Panel, pen: (S, int, int) -> S, raw: (S, int, int) -> S)
    requires p.Valid() && IdleOutside(raw, p.w, p.h)
    requires forall s, x, y :: pen(s, x, y) == if p.Shows(x, y) then raw(s, p.Turn(x, y).0, p.Turn(x, y).1) else s
    ensures TurnsInto(p, pen, raw)
  {
    forall x, y, u, v | p.Turn(x, y) == (u, v) ensures Follows(pen, x, y, raw, u, v) {
      assert p.Shows(x, y) <==> p.Holds(u, v);
      assert p.Holds(u, v) || Idle(raw, u, v);
    }
  }

  /** A line of the unrotated surface, from its leftmost or topmost pixel on. */
  datatype Span = Row(x: int, y: int) | Column(x: int, y: int) {
    function Draw<S>(raw: (S, int, int) -> S, s: S, n: int): S {
      if Row? then Run(raw, s, x, y, 1, 0, n) else Run(raw, s, x, y, 0, 1, n)
    }

    function Move(n: int): Span {
      if Row? then Row(x + n, y) else Column(x, y + n)
    }
  }

  /** Where the logical horizontal line of n pixels rightwards from (x, y) lies. */
  function RowSpan(p: Panel, x: int, y: int, n: int): Span {
    if p.rotation == 1 then Column(p.w - y - 1, x)
    else if p.rotation == 2 then Row(p.w - x - 1 - (n - 1), p.h - y - 1)
    else if p.rotation == 3 then Column(y, p.h - x - 1 - (n - 1))
    else Row(x, y)
  }

  /** Where the logical vertical line of n pixels downwards from (x, y) lies. */
  function ColumnSpan(p: Panel, x: int, y: int, n: int): Span {
    if p.rotation == 1 then Row(p.w - y - 1 - (n - 1), x)
    else if p.rotation == 2 then Column(p.w - x - 1, p.h - y - 1 - (n - 1))
    else if p.rotation == 3 then Row(y, p.h - x - 1)
    else Column(x, y)
  }

  lemma SpanAppend<S>(span: Span, raw: (S, int, int) -> S, s: S, m: nat, n: nat)
    ensures span.Draw(raw, s, m + n) == span.Move(m).Draw(raw, span.Draw(raw, s, m), n)
  {
    hide Run;
    if span.Row? {
      RunAppend(raw, s, span.x, span.y, 1, 0, m, n);
    } else {
      RunAppend(raw, s, span.x, span.y, 0, 1, m, n);
    }
  }

  lemma OnePixel<S>(span: Span, raw: (S, int, int) -> S, s: S)
    ensures span.Draw(raw, s, 1) == raw(s, span.x, span.y)
  {}

  lemma TurnedLine<S(!new)>(p: Panel, pen: (S, int, int) -> S, raw: (S, int, int) -> S, s: S, x: int, y: int, dx: int,
                            dy: int, u: int, v: int, du: int, dv: int, n: int)
    requires TurnsInto(p, pen, raw)
    requires forall i :: 0 <= i < n ==> p.Turn(x + i * dx, y + i * dy) == (u + i * du, v + i * dv)
    ensures Run(pen, s, x, y, dx, dy, n) == Run(raw, s, u, v, du, dv, n)
  {
    hide Run, Follows;
    MovedRun(pen, x, y, dx, dy, raw, u, v, du, dv, s, n);
  }

  /** A logical horizontal line is the physical line RowSpan, drawn from its first pixel on. */
  lemma RotatedRow<S(!new)>(p: Panel, pen: (S, int, int) -> S, raw: (S, int, int) -> S, s: S, x: int, y: int, n: nat)
    requires p.Valid() && TurnsInto(p, pen, raw) && Commutes(raw)
    ensures Run(pen, s, x, y, 1, 0, n) == RowSpan(p, x, y, n).Draw(raw, s, n)
  {
    hide Run, Commutes, TurnsInto;
    match p.rotation
    case 1 =>
      TurnedLine(p, pen, raw, s, x, y, 1, 0, p.w - y - 1, x, 0, 1, n);
    case 2 =>
      TurnedLine(p, pen, raw, s, x, y, 1, 0, p.w - x - 1, p.h - y - 1, -1, 0, n);
      RowBackwards(raw, s, p.w - x - 1, p.h - y - 1, n);
    case 3 =>
      TurnedLine(p, pen, raw, s, x, y, 1, 0, y, p.h - x - 1, 0, -1, n);
      ColumnBackwards(raw, s, y, p.h - x - 1, n);
    case _ =>
      TurnedLine(p, pen, raw, s, x, y, 1, 0, x, y, 1, 0, n);
  }

  /** A logical vertical line is the physical line ColumnSpan, drawn from its first pixel on. */
  lemma RotatedColumn<S(!new)>(p: Panel, pen: (S, int, int) -> S, raw: (S, int, int) -> S, s: S, x: int, y: int, n: nat)
    requires p.Valid() && TurnsInto(p, pen, raw) && Commutes(raw)
    ensures Run(pen, s, x, y, 0, 1, n) == ColumnSpan(p, x, y, n).Draw(raw, s, n)
  {
    hide Run, Commutes, TurnsInto;
    match p.rotation
    case 1 =>
      TurnedLine(p, pen, raw, s, x, y, 0, 1, p.w - y - 1, x, -1, 0, n);
      RowBackwards(raw, s, p.w - y - 1, x, n);
    case 2 =>
      TurnedLine(p, pen, raw, s, x, y, 0, 1, p.w - x - 1, p.h - y - 1, 0, -1, n);
      ColumnBackwards(raw, s, p.w - x - 1, p.h - y - 1, n);
    case 3 =>
      TurnedLine(p, pen, raw, s, x, y, 0, 1, y, p.h - x - 1, 1, 0, n);
    case _ =>
      TurnedLine(p, pen, raw, s, x, y, 0, 1, x, y, 0, 1, n);
  }

  // ----- clipping

  /** Nothing happens outside the rectangle of the given width and height at the origin. */
  ghost predicate IdleOutside<S(!new)>(plot: (S, int, int) -> S, width: int, height: int) {
    forall x, y :: !(0 <= x < width && 0 <= y < height) ==> Idle(plot, x, y)
  }

  /** Cutting a line to the rectangle loses nothing. */
  lemma ClippedRow<S(!new)>(plot: (S, int, int) -> S, width: int, height: int, s: S, x: int, y: int, n: nat)
    requires IdleOutside(plot, width, height)
    ensures var lo, hi := if x < 0 then 0 else x, if x + n > width then width else x + n;
            Run(plot, s, x, y, 1, 0, n) == Run(plot, s, lo, y, 1, 0, hi - lo)
  {
    hide Run, Idle;
    var lo, hi := if x < 0 then 0 else x, if x + n > width then width else x + n;
    if lo < hi {
      ClipRow(plot, s, x, y, n, lo, hi);
    } else {
      NothingDrawn(plot, s, x, y, 1, 0, n);
      NothingDrawn(plot, s, lo, y, 1, 0, hi - lo);
    }
  }

  lemma ClippedColumn<S(!new)>(plot: (S, int, int) -> S, width: int, height: int, s: S, x: int, y: int, n: nat)
    requires IdleOutside(plot, width, height)
    ensures var lo, hi := if y < 0 then 0 else y, if y + n > height then height else y + n;
            Run(plot, s, x, y, 0, 1, n) == Run(plot, s, x, lo, 0, 1, hi - lo)
  {
    hide Run, Idle;
    var lo, hi := if y < 0 then 0 else y, if y + n > height then height else y + n;
    if lo < hi {
      ClipColumn(plot, s, x, y, n, lo, hi);
    } else {
      NothingDrawn(plot, s, x, y, 0, 1, n);
      NothingDrawn(plot, s, x, lo, 0, 1, hi - lo);
    }
  }

  lemma NothingDrawn<S(!new)>(plot: (S, int, int) -> S, s: S, x: int, y: int, dx: int, dy: int, n: int)
    requires forall i :: 0 <= i < n ==> Idle(plot, x + i * dx, y + i * dy)
    ensures Run(plot, s, x, y, dx, dy, n) == s
  {
    if n > 0 {
      IdleRun(plot, s, x, y, dx, dy, n);
    }
  }
}
