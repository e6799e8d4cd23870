/** The page-packed frame buffer of Adafruit_SSD1306: each byte holds eight rows of one column. */
module Ssd1306 {
  import opened Arithmetic
  import opened MachineInts
  import opened ByteBits
  import opened PixelRuns
  import opened Rotation

  function BufferSize(p: Panel): nat { p.w * ((p.h + 7) / 8) }

  lemma IndexInBuffer(p: Panel, x: int, y: int)
    requires 0 <= x < p.w && 0 <= y < p.h
    ensures 0 <= x + (y / 8) * p.w < BufferSize(p)
  {
    assert y / 8 + 1 <= (p.h + 7) / 8;
    assert (y / 8 + 1) * p.w <= ((p.h + 7) / 8) * p.w;
  }

  // ----- what single pixels mean

  /** The pixel at the physical position (x, y) set, cleared or inverted; nothing off the panel. */
  function Put(buf: seq<bv8>, p: Panel, x: int, y: int, c: Color): seq<bv8> {
    if |buf| == BufferSize(p) && 0 <= x < p.w && 0 <= y < p.h then
      IndexInBuffer(p, x, y);
      MaskByte(buf, x + (y / 8) * p.w, LowBit(y % 8), c)
    else buf
  }

  /** The buffer after drawPixel(x, y, c). */
  function DrawPixel(buf: seq<bv8>, p: Panel, x: int, y: int, c: Color): seq<bv8> {
    if p.Shows(x, y) then var (px, py) := p.Turn(x, y); Put(buf, p, px, py, c) else buf
  }

  function GetPixel(buf: seq<bv8>, p: Panel, x: int, y: int): bool
    requires p.Valid() && |buf| == BufferSize(p)
  {
    if p.Shows(x, y) then
      var (px, py) := p.Turn(x, y);
      IndexInBuffer(p, px, py);
      Overlap(buf[px + (py / 8) * p.w], LowBit(py % 8))
    else false
  }

  function Pen(p: Panel, c: Color): (seq<bv8>, int, int) -> seq<bv8> {
    (buf: seq<bv8>, x: int, y: int) => DrawPixel(buf, p, x, y, c)
  }

  function Putter(p: Panel, c: Color): (seq<bv8>, int, int) -> seq<bv8> {
    (buf: seq<bv8>, x: int, y: int) => Put(buf, p, x, y, c)
  }

  /** One drawPixel call per pixel of the horizontal line of n pixels from (x, y) rightwards. */
  function RowPixelByPixel(buf: seq<bv8>, p: Panel, x: int, y: int, n: int, c: Color): seq<bv8> {
    Run(Pen(p, c), buf, x, y, 1, 0, n)
  }

  /** One drawPixel call per pixel of the vertical line of n pixels from (x, y) downwards. */
  function ColumnPixelByPixel(buf: seq<bv8>, p: Panel, x: int, y: int, n: int, c: Color): seq<bv8> {
    Run(Pen(p, c), buf, x, y, 0, 1, n)
  }

  // ----- drawPixel seen through getPixel

  /** A drawn pixel changes as its colour says, and no other pixel of the screen changes. */
  lemma DrawThenGet(buf: seq<bv8>, p: Panel, x: int, y: int, c: Color, u: int, v: int)
    requires p.Valid() && |buf| == BufferSize(p)
    ensures |DrawPixel(buf, p, x, y, c)| == |buf|
    ensures GetPixel(DrawPixel(buf, p, x, y, c), p, u, v)
         == if (u, v) == (x, y) && p.Shows(u, v) then Paint(GetPixel(buf, p, u, v), c) else GetPixel(buf, p, u, v)
  {
    hide Blend, Overlap, LowBit;
    if p.Shows(x, y) && p.Shows(u, v) {
      var (px, py) := p.Turn(x, y);
      var (pu, pv) := p.Turn(u, v);
      IndexInBuffer(p, px, py);
      IndexInBuffer(p, pu, pv);
      var i, j := px + (py / 8) * p.w, pu + (pv / 8) * p.w;
      if i == j {
        IndexIsInjective(p.w, px, py / 8, pu, pv / 8);
        assert (u, v) == (x, y) <==> py % 8 == pv % 8;
        BlendBit(buf[i], py % 8, pv % 8, c);
      }
    }
  }

  /** A line drawn pixel by pixel changes exactly the pixels of the line that are on the screen. */
  lemma {:induction false} RowThenGet(buf: seq<bv8>, p: Panel, x: int, y: int, n: int, c: Color, u: int, v: int)
    requires p.Valid() && |buf| == BufferSize(p)
    ensures |RowPixelByPixel(buf, p, x, y, n, c)| == |buf|
    ensures GetPixel(RowPixelByPixel(buf, p, x, y, n, c), p, u, v)
         == if p.Shows(u, v) && v == y && x <= u < x + n then Paint(GetPixel(buf, p, u, v), c)
            else GetPixel(buf, p, u, v)
    decreases n
  {
    if n > 0 {
      DrawThenGet(buf, p, x, y, c, u, v);
      RowThenGet(DrawPixel(buf, p, x, y, c), p, x + 1, y, n - 1, c, u, v);
    }
  }

  lemma {:induction false} ColumnThenGet(buf: seq<bv8>, p: Panel, x: int, y: int, n: int, c: Color, u: int, v: int)
    requires p.Valid() && |buf| == BufferSize(p)
    ensures |ColumnPixelByPixel(buf, p, x, y, n, c)| == |buf|
    ensures GetPixel(ColumnPixelByPixel(buf, p, x, y, n, c), p, u, v)
         == if p.Shows(u, v) && u == x && y <= v < y + n then Paint(GetPixel(buf, p, u, v), c)
            else GetPixel(buf, p, u, v)
    decreases n
  {
    if n > 0 {
      DrawThenGet(buf, p, x, y, c, u, v);
      ColumnThenGet(DrawPixel(buf, p, x, y, c), p, x, y + 1, n - 1, c, u, v);
    }
  }

  // ----- where on the panel that is

  /** The pixel at the physical position (px, py) is lit: bit py % 8 of the byte in column px of page py / 8. */
  predicate Lit(buf: seq<bv8>, width: nat, px: int, py: int) {
    0 <= px + py / 8 * width < |buf| && BitSet(buf[px + py / 8 * width], py % 8)
  }

  lemma LitIsGot(buf: seq<bv8>, p: Panel, px: int, py: int)
    requires p.Valid() && |buf| == BufferSize(p) && p.Holds(px, py)
    ensures var (x, y) := SeenAt(p.w, p.h, p.rotation, px, py);
            p.Shows(x, y) && GetPixel(buf, p, x, y) == Lit(buf, p.w, px, py)
  {
    hide BitSet, Overlap, LowBit, BufferSize;
    SeenIsTurned(p, px, py);
    IndexInBuffer(p, px, py);
    BitIsMask(buf[px + (py / 8) * p.w], py % 8);
  }

  /** What getPixel reads, by the rotation: which pixel of the panel. */
  predicate ReadsPanel(lit: bool, buf: seq<bv8>, width: nat, height: nat, rotation: nat, x: int, y: int) {
    && (rotation == 0 ==> (lit <==> 0 <= x < width && 0 <= y < height && Lit(buf, width, x, y)))
    && (rotation == 1 ==> (lit <==> 0 <= x < height && 0 <= y < width && Lit(buf, width, width - 1 - y, x)))
    && (rotation == 2 ==>
          (lit <==> 0 <= x < width && 0 <= y < height && Lit(buf, width, width - 1 - x, height - 1 - y)))
    && (rotation == 3 ==> (lit <==> 0 <= x < height && 0 <= y < width && Lit(buf, width, y, height - 1 - x)))
  }

  lemma GotIsOnPanel(buf: seq<bv8>, p: Panel, x: int, y: int)
    requires p.Valid() && |buf| == BufferSize(p)
    ensures ReadsPanel(GetPixel(buf, p, x, y), buf, p.w, p.h, p.rotation, x, y)
  {
    hide Lit, BufferSize;
    if p.Shows(x, y) {
      var (px, py) := p.Turn(x, y);
      LitIsGot(buf, p, px, py);
    }
  }

  /** Seen on the panel, the line of n pixels from the logical point (x, y) rightwards is painted and nothing else. */
  ghost predicate RowOnPanel(before: seq<bv8>, now: seq<bv8>, width: nat, height: nat, rotation: nat, x: int, y: int,
                             n: int, c: Color) {
    forall px, py :: 0 <= px < width && 0 <= py < height ==>
      Lit(now, width, px, py)
      == var (u, v) := SeenAt(width, height, rotation, px, py);
         if v == y && x <= u < x + n then c == White || (c == Inverse && !Lit(before, width, px, py))
         else Lit(before, width, px, py)
  }

  /** The same for the line of n pixels downwards. */
  ghost predicate ColumnOnPanel(before: seq<bv8>, now: seq<bv8>, width: nat, height: nat, rotation: nat, x: int,
                                y: int, n: int, c: Color) {
    forall px, py :: 0 <= px < width && 0 <= py < height ==>
      Lit(now, width, px, py)
      == var (u, v) := SeenAt(width, height, rotation, px, py);
         if u == x && y <= v < y + n then c == White || (c == Inverse && !Lit(before, width, px, py))
         else Lit(before, width, px, py)
  }

  lemma PixelIsOnPanel(buf: seq<bv8>, p: Panel, x: int, y: int, c: Color)
    requires p.Valid() && |buf| == BufferSize(p)
    ensures RowOnPanel(buf, DrawPixel(buf, p, x, y, c), p.w, p.h, p.rotation, x, y, 1, c)
  {
    hide Lit, GetPixel, DrawPixel, BufferSize;
    forall px, py | 0 <= px < p.w && 0 <= py < p.h
      ensures Lit(DrawPixel(buf, p, x, y, c), p.w, px, py)
           == if SeenAt(p.w, p.h, p.rotation, px, py) == (x, y) then Paint(Lit(buf, p.w, px, py), c)
              else Lit(buf, p.w, px, py)
    {
      var (u, v) := SeenAt(p.w, p.h, p.rotation, px, py);
      DrawThenGet(buf, p, x, y, c, u, v);
      LitIsGot(buf, p, px, py);
      LitIsGot(DrawPixel(buf, p, x, y, c), p, px, py);
    }
  }

  lemma RowIsOnPanel(buf: seq<bv8>, p: Panel, x: int, y: int, n: int, c: Color)
    requires p.Valid() && |buf| == BufferSize(p)
    ensures RowOnPanel(buf, RowPixelByPixel(buf, p, x, y, n, c), p.w, p.h, p.rotation, x, y, n, c)
  {
    hide Lit, GetPixel, RowPixelByPixel, BufferSize;
    var now := RowPixelByPixel(buf, p, x, y, n, c);
    forall px, py | 0 <= px < p.w && 0 <= py < p.h
      ensures Lit(now, p.w, px, py)
           == var (u, v) := SeenAt(p.w, p.h, p.rotation, px, py);
              if v == y && x <= u < x + n then Paint(Lit(buf, p.w, px, py), c) else Lit(buf, p.w, px, py)
    {
      var (u, v) := SeenAt(p.w, p.h, p.rotation, px, py);
      RowThenGet(buf, p, x, y, n, c, u, v);
      LitIsGot(buf, p, px, py);
      LitIsGot(now, p, px, py);
    }
  }

  lemma ColumnIsOnPanel(buf: seq<bv8>, p: Panel, x: int, y: int, n: int, c: Color)
    requires p.Valid() && |buf| == BufferSize(p)
    ensures ColumnOnPanel(buf, ColumnPixelByPixel(buf, p, x, y, n, c), p.w, p.h, p.rotation, x, y, n, c)
  {
    hide Lit, GetPixel, ColumnPixelByPixel, BufferSize;
    var now := ColumnPixelByPixel(buf, p, x, y, n, c);
    forall px, py | 0 <= px < p.w && 0 <= py < p.h
      ensures Lit(now, p.w, px, py)
           == var (u, v) := SeenAt(p.w, p.h, p.rotation, px, py);
              if u == x && y <= v < y + n then Paint(Lit(buf, p.w, px, py), c) else Lit(buf, p.w, px, py)
    {
      var (u, v) := SeenAt(p.w, p.h, p.rotation, px, py);
      ColumnThenGet(buf, p, x, y, n, c, u, v);
      LitIsGot(buf, p, px, py);
      LitIsGot(now, p, px, py);
    }
  }

  /** A white line from the logical origin on a dark panel: along the top edge from the left, down the right edge from
      the top, along the bottom edge from the right, or up the left edge from the bottom. */
  lemma RowFromOrigin(p: Panel, n: nat, px: nat, py: nat)
    requires p.Valid() && px < p.w && py < p.h
    ensures Lit(RowPixelByPixel(seq(BufferSize(p), _ => 0), p, 0, 0, n, White), p.w, px, py)
       <==> match p.rotation
            case 0 => py == 0 && px < n
            case 1 => px == p.w - 1 && py < n
            case 2 => py == p.h - 1 && px >= p.w - n
            case _ => px == 0 && py >= p.h - n
  {
    hide RowPixelByPixel;
    var dark := seq(BufferSize(p), _ => 0);
    RowIsOnPanel(dark, p, 0, 0, n, White);
    IndexInBuffer(p, px, py);
    assert !Lit(dark, p.w, px, py);
  }

  // ----- logical lines as physical runs

  lemma PuttersCommute(p: Panel, c: Color)
    ensures Commutes(Putter(p, c))
  {
    forall buf, x1, y1, x2, y2
      ensures Put(Put(buf, p, x1, y1, c), p, x2, y2, c) == Put(Put(buf, p, x2, y2, c), p, x1, y1, c)
    {
      PutsCommute(buf, p, x1, y1, x2, y2, c);
    }
  }

  lemma PutsCommute(buf: seq<bv8>, p: Panel, x1: int, y1: int, x2: int, y2: int, c: Color)
    ensures Put(Put(buf, p, x1, y1, c), p, x2, y2, c) == Put(Put(buf, p, x2, y2, c), p, x1, y1, c)
  {
    hide MaskByte, LowBit, BufferSize;
    if |buf| == BufferSize(p) && p.Holds(x1, y1) && p.Holds(x2, y2) {
      IndexInBuffer(p, x1, y1);
      IndexInBuffer(p, x2, y2);
      MasksCommute(buf, x1 + (y1 / 8) * p.w, LowBit(y1 % 8), x2 + (y2 / 8) * p.w, LowBit(y2 % 8), c);
    }
  }

  lemma PenTurns(p: Panel, c: Color)
    requires p.Valid()
    ensures TurnsInto(p, Pen(p, c), Putter(p, c))
  {
    hide MaskByte, LowBit, TurnsInto, IdleOutside;
    OffPanelIdle(p, c);
    TurningPen(p, Pen(p, c), Putter(p, c));
  }

  lemma OffPanelIdle(p: Panel, c: Color)
    ensures IdleOutside(Putter(p, c), p.w, p.h)
  {
    hide MaskByte, LowBit;
  }

  /** The line that drawFastHLine hands to an internal routine, after rotation. */
  lemma RowLands(buf: seq<bv8>, p: Panel, x: int, y: int, n: nat, c: Color)
    requires p.Valid()
    ensures RowPixelByPixel(buf, p, x, y, n, c) == RowSpan(p, x, y, n).Draw(Putter(p, c), buf, n)
  {
    hide Commutes, TurnsInto, Run, Put, DrawPixel;
    PuttersCommute(p, c);
    PenTurns(p, c);
    RotatedRow(p, Pen(p, c), Putter(p, c), buf, x, y, n);
  }

  lemma ColumnLands(buf: seq<bv8>, p: Panel, x: int, y: int, n: nat, c: Color)
    requires p.Valid()
    ensures ColumnPixelByPixel(buf, p, x, y, n, c) == ColumnSpan(p, x, y, n).Draw(Putter(p, c), buf, n)
  {
    hide Commutes, TurnsInto, Run, Put, DrawPixel;
    PuttersCommute(p, c);
    PenTurns(p, c);
    RotatedColumn(p, Pen(p, c), Putter(p, c), buf, x, y, n);
  }

  /** Clipping a line to the panel loses nothing. */
  lemma ClippedSpan(buf: seq<bv8>, p: Panel, span: Span, n: nat, c: Color)
    ensures var from, size := if span.Row? then span.x else span.y, if span.Row? then p.w else p.h;
            var lo, hi := if from < 0 then 0 else from, if from + n > size then size else from + n;
            span.Draw(Putter(p, c), buf, n) == span.Move(lo - from).Draw(Putter(p, c), buf, hi - lo)
  {
    OffPanelIdle(p, c);
    hide Put, Run, IdleOutside;
    if span.Row? {
      ClippedRow(Putter(p, c), p.w, p.h, buf, span.x, span.y, n);
    } else {
      ClippedColumn(Putter(p, c), p.w, p.h, buf, span.x, span.y, n);
    }
  }

  lemma OffPanelLine(buf: seq<bv8>, p: Panel, span: Span, n: int, c: Color)
    requires if span.Row? then !(0 <= span.y < p.h) else !(0 <= span.x < p.w)
    ensures span.Draw(Putter(p, c), buf, n) == buf
  {
    OffPanelIdle(p, c);
    hide Put, Run, Idle;
    var (dx, dy) := if span.Row? then (1, 0) else (0, 1);
    NothingDrawn(Putter(p, c), buf, span.x, span.y, dx, dy, n);
  }

  // ----- lines whose int16 coordinates wrap

  /** The span as int16 variables hold it. */
  function Stored(span: Span): Span {
    if span.Row? then Row(ToInt16(span.x), ToInt16(span.y)) else Column(ToInt16(span.x), ToInt16(span.y))
  }

  lemma StoredIs(span: Span, stored: Span)
    requires span.Row? == stored.Row? && stored.x == ToInt16(span.x) && stored.y == ToInt16(span.y)
    ensures Stored(span) == stored
  {}

  function Start(span: Span): int {
    if span.Row? then span.x else span.y
  }

  /** Clipping at the panel's edge adds the start to the length; a negative length then wraps to a positive one. */
  predicate RunsAway(span: Span, n: int) {
    Start(span) < 0 && Start(span) + n < -0x8000
  }

  /** The line that is drawn then: from the panel's edge, as long as the wrapped sum. */
  function Strayed(span: Span, n: int, buf: seq<bv8>, p: Panel, c: Color): seq<bv8> {
    (if span.Row? then Row(0, span.y) else Column(span.x, 0)).Draw(Putter(p, c), buf, Start(span) + n + 0x1_0000)
  }

  lemma PositiveStays(span: Span, n: int)
    requires n > 0
    ensures !RunsAway(Stored(span), n)
  {}

  lemma NoPixels<S>(plot: (S, int, int) -> S, s: S, x: int, y: int, dx: int, dy: int, n: int)
    ensures n <= 0 ==> Run(plot, s, x, y, dx, dy, n) == s
  {}

  lemma NoSpan<S>(span: Span, raw: (S, int, int) -> S, s: S, n: int)
    ensures n <= 0 ==> span.Draw(raw, s, n) == s
  {}

  /** The line has no pixel on the panel. */
  predicate Misses(p: Panel, span: Span, n: int) {
    var (size, across, breadth) := if span.Row? then (p.w, span.y, p.h) else (p.h, span.x, p.w);
    !(0 <= across < breadth) || Start(span) >= size || Start(span) + n <= 0
  }

  lemma MissingLine(buf: seq<bv8>, p: Panel, span: Span, n: nat, c: Color)
    requires Misses(p, span, n)
    ensures span.Draw(Putter(p, c), buf, n) == buf
  {
    hide Run, Put;
    if (if span.Row? then 0 <= span.y < p.h else 0 <= span.x < p.w) {
      ClippedSpan(buf, p, span, n, c);
      var from, size := Start(span), if span.Row? then p.w else p.h;
      var lo, hi := if from < 0 then 0 else from, if from + n > size then size else from + n;
      NoSpan(span.Move(lo - from), Putter(p, c), buf, hi - lo);
    } else {
      OffPanelLine(buf, p, span, n, c);
    }
  }

  /** For positive lengths a coordinate that wraps is off the panel before and after. */
  lemma WrappedSpan(buf: seq<bv8>, p: Panel, span: Span, n: nat, c: Color)
    requires Stored(span) == span || (Misses(p, span, n) && Misses(p, Stored(span), n))
    ensures Stored(span).Draw(Putter(p, c), buf, n) == span.Draw(Putter(p, c), buf, n)
  {
    hide Stored, Misses;
    if Stored(span) != span {
      MissingLine(buf, p, span, n, c);
      MissingLine(buf, p, Stored(span), n, c);
    }
  }

  /** A horizontal line is its stored span, whatever wraps on the way. */
  lemma StoredRow(buf: seq<bv8>, p: Panel, x: Int16, y: Int16, n: Int16, c: Color)
    requires p.Valid() && p.w <= 255 && p.h <= 255
    ensures RowPixelByPixel(buf, p, x, y, n, c) == Stored(RowSpan(p, x, y, n)).Draw(Putter(p, c), buf, n)
  {
    hide Run, Put, DrawPixel;
    if n > 0 {
      RowLands(buf, p, x, y, n, c);
      WrappedSpan(buf, p, RowSpan(p, x, y, n), n, c);
    } else {
      NoPixels(Pen(p, c), buf, x, y, 1, 0, n);
      NoSpan(Stored(RowSpan(p, x, y, n)), Putter(p, c), buf, n);
    }
  }

  lemma StoredColumn(buf: seq<bv8>, p: Panel, x: Int16, y: Int16, n: Int16, c: Color)
    requires p.Valid() && p.w <= 255 && p.h <= 255
    ensures ColumnPixelByPixel(buf, p, x, y, n, c) == Stored(ColumnSpan(p, x, y, n)).Draw(Putter(p, c), buf, n)
  {
    hide Run, Put, DrawPixel;
    if n > 0 {
      ColumnLands(buf, p, x, y, n, c);
      WrappedSpan(buf, p, ColumnSpan(p, x, y, n), n, c);
    } else {
      NoPixels(Pen(p, c), buf, x, y, 0, 1, n);
      NoSpan(Stored(ColumnSpan(p, x, y, n)), Putter(p, c), buf, n);
    }
  }

  /** A line that runs away along a row or column of the panel and is not empty is wrong: inverted pixels show. */
  lemma RunawayShows(buf: seq<bv8>, p: Panel, span: Span, n: int)
    requires p.Valid() && |buf| == BufferSize(p) && RunsAway(span, n) && Start(span) + n + 0x1_0000 > 0
    requires if span.Row? then 0 <= span.y < p.h && p.w > 0 else 0 <= span.x < p.w && p.h > 0
    ensures Strayed(span, n, buf, p, Inverse) != buf
  {
    hide Run, Put, DrawPixel, GetPixel;
    var q, k := p.(rotation := 0), Start(span) + n + 0x1_0000;
    SamePutter(p, Inverse);
    if span.Row? {
      RowThenGet(buf, q, 0, span.y, k, Inverse, 0, span.y);
      PuttersCommute(p, Inverse);
      RotatedRow(q, Pen(q, Inverse), Putter(p, Inverse), buf, 0, span.y, k);
    } else {
      ColumnThenGet(buf, q, span.x, 0, k, Inverse, span.x, 0);
      PuttersCommute(p, Inverse);
      RotatedColumn(q, Pen(q, Inverse), Putter(p, Inverse), buf, span.x, 0, k);
    }
  }

  lemma SamePutter(p: Panel, c: Color)
    ensures TurnsInto(p.(rotation := 0), Pen(p.(rotation := 0), c), Putter(p, c))
  {
    hide MaskByte, LowBit, TurnsInto, IdleOutside;
    OffPanelIdle(p, c);
    TurningPen(p.(rotation := 0), Pen(p.(rotation := 0), c), Putter(p, c));
  }

  // ----- masked byte writes as runs down a column

  lemma MaskGrows(buf: seq<bv8>, i: int, lo: nat, hi: nat, c: Color)
    requires 0 <= i < |buf| && lo <= hi < 8
    ensures MaskByte(buf, i, LowRange(lo, hi + 1), c)
         == MaskByte(MaskByte(buf, i, LowRange(lo, hi), c), i, LowBit(hi), c)
  {
    hide *;
    LowRangeStep(lo, hi);
    MaskByteTwice(buf, i, LowRange(lo, hi), LowBit(hi), c);
  }

  lemma BitIsPut(buf: seq<bv8>, p: Panel, x: int, page: nat, k: nat, c: Color)
    requires |buf| == BufferSize(p)
    requires 0 <= x < p.w && k < 8 && page * 8 + k < p.h
    requires 0 <= x + page * p.w < |buf|
    ensures MaskByte(buf, x + page * p.w, LowBit(k), c) == Put(buf, p, x, page * 8 + k, c)
  {
    PageOf(page * 8 + k, page, k);
  }

  /** One more bit written in the byte of row y + n makes the run one row longer. */
  lemma BitExtendsColumn(buf: seq<bv8>, now: seq<bv8>, p: Panel, x: int, y: int, n: nat, page: nat, k: nat, c: Color)
    requires |now| == BufferSize(p) && now == Column(x, y).Draw(Putter(p, c), buf, n)
    requires 0 <= x < p.w && k < 8 && y + n == page * 8 + k < p.h
    requires 0 <= x + page * p.w < |now|
    ensures MaskByte(now, x + page * p.w, LowBit(k), c) == Column(x, y).Draw(Putter(p, c), buf, n + 1)
  {
    hide MaskByte, LowBit, Run, Put;
    BitIsPut(now, p, x, page, k, c);
    OnePixel(Column(x, y + n), Putter(p, c), now);
    SpanAppend(Column(x, y), Putter(p, c), buf, n, 1);
  }

  /** One masked byte write is a run down the rows of that byte. */
  lemma {:induction false} ByteIsRun(buf: seq<bv8>, p: Panel, x: int, page: nat, lo: nat, hi: nat, c: Color)
    requires |buf| == BufferSize(p)
    requires 0 <= x < p.w && lo <= hi <= 8 && page * 8 + hi <= p.h
    requires 0 <= x + page * p.w < |buf|
    ensures MaskByte(buf, x + page * p.w, LowRange(lo, hi), c) == Column(x, page * 8 + lo).Draw(Putter(p, c), buf, hi - lo)
    decreases hi
  {
    hide Blend, LowBit, LowRange, LowOnes, MaskByte;
    var i := x + page * p.w;
    if lo == hi {
      EmptyRange(lo);
      MaskByteByNothing(buf, i, c);
    } else {
      ByteIsRun(buf, p, x, page, lo, hi - 1, c);
      MaskGrows(buf, i, lo, hi - 1, c);
      BitExtendsColumn(buf, MaskByte(buf, i, LowRange(lo, hi - 1), c), p, x, page * 8 + lo, hi - 1 - lo, page, hi - 1, c);
    }
  }

  lemma PageOf(y: nat, page: nat, k: nat)
    requires y == page * 8 + k && k < 8
    ensures y / 8 == page && y % 8 == k
  {}

  /** Writing the next byte of a column extends the run by the rows of that byte's mask. */
  lemma ExtendColumn(orig: seq<bv8>, now: seq<bv8>, p: Panel, x: int, y: nat, done: nat, page: nat, lo: nat, hi: nat,
                     c: Color)
    requires |now| == BufferSize(p) && 0 <= x < p.w
    requires now == Column(x, y).Draw(Putter(p, c), orig, done)
    requires y + done == page * 8 + lo && lo <= hi <= 8 && lo < 8 && y + done + (hi - lo) <= p.h && y + done < p.h
    ensures 0 <= x + page * p.w < |now|
    ensures MaskByte(now, x + page * p.w, LowRange(lo, hi), c) == Column(x, y).Draw(Putter(p, c), orig, done + (hi - lo))
  {
    hide MaskByte, LowRange, Run, Put, BufferSize;
    PageOf(y + done, page, lo);
    IndexInBuffer(p, x, y + done);
    ByteIsRun(now, p, x, page, lo, hi, c);
    SpanAppend(Column(x, y), Putter(p, c), orig, done, hi - lo);
  }

  /** Writing the next pixel of a row extends the run by one. */
  lemma ExtendRow(orig: seq<bv8>, now: seq<bv8>, p: Panel, x: nat, y: nat, done: nat, c: Color)
    requires |now| == BufferSize(p) && x + done < p.w && y < p.h
    requires now == Row(x, y).Draw(Putter(p, c), orig, done)
    ensures 0 <= (y / 8) * p.w + x + done < |now|
    ensures MaskByte(now, (y / 8) * p.w + x + done, LowBit(y % 8), c) == Row(x, y).Draw(Putter(p, c), orig, done + 1)
  {
    IndexInBuffer(p, x + done, y);
    OnePixel(Row(x + done, y), Putter(p, c), now);
    SpanAppend(Row(x, y), Putter(p, c), orig, done, 1);
  }

  // ----- the masks of drawFastVLineInternal

  function Premask(n: nat): bv8
    requires n < 8
  {
    [0x00, 0x80, 0xC0, 0xE0, 0xF0, 0xF8, 0xFC, 0xFE][n]
  }

  function Postmask(n: nat): bv8
    requires n < 8
  {
    [0x00, 0x01, 0x03, 0x07, 0x0F, 0x1F, 0x3F, 0x7F][n]
  }

  /** 0xFF >> n */
  function OnesShifted(n: nat): bv8
    requires n < 8
  {
    [0xFF, 0x7F, 0x3F, 0x1F, 0x0F, 0x07, 0x03, 0x01][n]
  }

  lemma PremaskIsRange(mod: nat)
    requires 0 < mod < 8
    ensures Premask(mod) == LowRange(8 - mod, 8)
  {
    assert Premask(mod) == 0xFF & !LowOnes(8 - mod);
  }

  lemma CutPremaskIsRange(mod: nat, h: nat)
    requires 0 < h < mod < 8
    ensures Premask(mod) & OnesShifted(mod - h) == LowRange(8 - mod, 8 - mod + h)
  {
    PremaskIsRange(mod);
    assert OnesShifted(mod - h) == LowOnes(8 - mod + h);
    MaskSwap(LowOnes(8 - mod), OnesShifted(mod - h));
  }

  lemma MaskSwap(a: bv8, b: bv8) ensures (0xFF & !a) & b == b & !a {}

  lemma PostmaskIsRange(n: nat)
    requires n < 8
    ensures Postmask(n) == LowRange(0, n)
  {
    RangeFromZero(n);
  }

  class Display {
    const WIDTH: UInt8
    const HEIGHT: UInt8
    var rotation: nat
    var buffer: array<bv8>

    ghost predicate Valid()
      reads this
    {
      Shape().Valid() && buffer.Length == BufferSize(Shape())
    }

    function Shape(): Panel
      reads this
    {
      Panel(WIDTH, HEIGHT, rotation)
    }

    constructor (w: UInt8, h: UInt8)
      ensures Valid() && fresh(buffer) && WIDTH == w && HEIGHT == h && rotation == 0
      ensures forall i :: 0 <= i < buffer.Length ==> buffer[i] == 0
    {
      WIDTH, HEIGHT, rotation := w, h, 0;
      buffer := new bv8[w * ((h + 7) / 8)](_ => 0);
    }

    method SetRotation(r: UInt8)
      requires Valid()
      modifies this`rotation
      ensures Valid() && rotation == r % 4
    {
      rotation := r % 4;
    }

    method WritePixel(x0: Int16, y0: Int16, c: Color)
      requires Valid()
      modifies buffer
      ensures buffer[..] == DrawPixel(old(buffer[..]), Shape(), x0, y0, c)
      ensures RowOnPanel(old(buffer[..]), buffer[..], WIDTH, HEIGHT, rotation, x0, y0, 1, c)
    {
      hide RowOnPanel;
      PixelIsOnPanel(buffer[..], Shape(), x0, y0, c);
      if x0 >= 0 && x0 < Shape().Width() && y0 >= 0 && y0 < Shape().Height() {
        var x, y := TurnToPanel(x0, y0);
        WriteMask(x + (y / 8) * WIDTH, LowBit(y % 8), c);
      }
    }

    method ReadPixel(x0: Int16, y0: Int16) returns (lit: bool)
      requires Valid()
      ensures lit == GetPixel(buffer[..], Shape(), x0, y0)
      ensures ReadsPanel(lit, buffer[..], WIDTH, HEIGHT, rotation, x0, y0)
    {
      hide ReadsPanel;
      GotIsOnPanel(buffer[..], Shape(), x0, y0);
      if x0 >= 0 && x0 < Shape().Width() && y0 >= 0 && y0 < Shape().Height() {
        var x, y := TurnToPanel(x0, y0);
        return Overlap(buffer[x + (y / 8) * WIDTH], LowBit(y % 8));
      }
      return false;
    }

    /** The rotation switch that drawPixel and getPixel share. */
    method TurnToPanel(x0: Int16, y0: Int16) returns (x: Int16, y: Int16)
      requires Valid() && Shape().Shows(x0, y0)
      ensures (x, y) == Shape().Turn(x0, y0)
      ensures 0 <= x < WIDTH && 0 <= y < HEIGHT && 0 <= x + (y / 8) * WIDTH < buffer.Length
    {
      hide BufferSize;
      x, y := x0, y0;
      match rotation {
        case 1 =>
          x, y := y, x;
          x := WIDTH - x - 1;
        case 2 =>
          x := WIDTH - x - 1;
          y := HEIGHT - y - 1;
        case 3 =>
          x, y := y, x;
          y := HEIGHT - y - 1;
        case _ =>
      }
      IndexInBuffer(Shape(), x, y);
    }

    /** The switch over colours that every masked byte write goes through. */
    method WriteMask(i: int, mask: bv8, c: Color)
      requires 0 <= i < buffer.Length
      modifies buffer
      ensures buffer[..] == MaskByte(old(buffer[..]), i, mask, c)
    {
      hide Union, Without, Flip;
      match c
      case White => buffer[i] := Union(buffer[i], mask);
      case Black => buffer[i] := Without(buffer[i], mask);
      case Inverse => buffer[i] := Flip(buffer[i], mask);
    }

    /** The whole-byte write of drawFastVLineInternal: inverted, or a value without reading. */
    method WriteWhole(i: int, c: Color)
      requires 0 <= i < buffer.Length
      modifies buffer
      ensures buffer[..] == MaskByte(old(buffer[..]), i, LowRange(0, 8), c)
    {
      hide Blend, Flip, LowRange;
      FullRange();
      BlendEverything(buffer[i], c);
      if c == Inverse {
        buffer[i] := Flip(buffer[i], 0xFF);
      } else {
        buffer[i] := if c != Black then 0xFF else 0;
      }
    }

    /** The mask of the first, partial byte: its high mod bits, cut when the line ends inside it. */
    method FirstMask(mod: UInt8, h: UInt8) returns (mask: bv8)
      requires 0 < mod < 8 && 0 < h
      ensures mask == LowRange(8 - mod, if h < mod then 8 - mod + h else 8)
    {
      mask := Premask(mod);
      PremaskIsRange(mod);
      if h < mod {
        CutPremaskIsRange(mod, h);
        mask := mask & OnesShifted(mod - h);
      }
    }

    /** All int16 arguments are covered: where a coordinate wraps, the line is off the panel before and after,
        but a negative length that wraps at the panel's edge draws a line that was not asked for. */
    method DrawFastHLine(x0: Int16, y0: Int16, w: Int16, c: Color)
      requires Valid()
      modifies buffer
      ensures buffer[..] == if RunsAway(Stored(RowSpan(Shape(), x0, y0, w)), w)
                            then Strayed(Stored(RowSpan(Shape(), x0, y0, w)), w, old(buffer[..]), Shape(), c)
                            else RowPixelByPixel(old(buffer[..]), Shape(), x0, y0, w, c)
      ensures w > 0 ==> RowOnPanel(old(buffer[..]), buffer[..], WIDTH, HEIGHT, rotation, x0, y0, w, c)
    {
      hide Run, Put, Stored, Strayed, RunsAway, ToInt16, RowPixelByPixel, RowOnPanel;
      if w > 0 {
        RowIsOnPanel(buffer[..], Shape(), x0, y0, w, c);
        PositiveStays(RowSpan(Shape(), x0, y0, w), w);
      }
      ghost var span := RowSpan(Shape(), x0, y0, w);
      StoredRow(buffer[..], Shape(), x0, y0, w, c);
      var swap := false;
      var x: Int16, y: Int16 := x0, y0;
      match rotation {
        case 1 =>
          swap := true;
          x, y := y, x;
          x := ToInt16(WIDTH - x - 1);
        case 2 =>
          x := ToInt16(WIDTH - x - 1);
          y := ToInt16(HEIGHT - y - 1);
          x := ToInt16(x - (w - 1));
          ToInt16Sum(WIDTH - x0 - 1, -(w - 1));
        case 3 =>
          swap := true;
          x, y := y, x;
          y := ToInt16(HEIGHT - y - 1);
          y := ToInt16(y - (w - 1));
          ToInt16Sum(HEIGHT - x0 - 1, -(w - 1));
        case _ =>
      }
      StoredIs(span, if swap then Column(x, y) else Row(x, y));
      if swap {
        DrawFastVLineInternal(x, y, w, c);
      } else {
        DrawFastHLineInternal(x, y, w, c);
      }
    }

    method DrawFastVLine(x0: Int16, y0: Int16, h: Int16, c: Color)
      requires Valid()
      modifies buffer
      ensures buffer[..] == if RunsAway(Stored(ColumnSpan(Shape(), x0, y0, h)), h)
                            then Strayed(Stored(ColumnSpan(Shape(), x0, y0, h)), h, old(buffer[..]), Shape(), c)
                            else ColumnPixelByPixel(old(buffer[..]), Shape(), x0, y0, h, c)
      ensures h > 0 ==> ColumnOnPanel(old(buffer[..]), buffer[..], WIDTH, HEIGHT, rotation, x0, y0, h, c)
    {
      hide Run, Put, Stored, Strayed, RunsAway, ToInt16, ColumnPixelByPixel, ColumnOnPanel;
      if h > 0 {
        ColumnIsOnPanel(buffer[..], Shape(), x0, y0, h, c);
        PositiveStays(ColumnSpan(Shape(), x0, y0, h), h);
      }
      ghost var span := ColumnSpan(Shape(), x0, y0, h);
      StoredColumn(buffer[..], Shape(), x0, y0, h, c);
      var swap := false;
      var x: Int16, y: Int16 := x0, y0;
      match rotation {
        case 1 =>
          swap := true;
          x, y := y, x;
          x := ToInt16(WIDTH - x - 1);
          x := ToInt16(x - (h - 1));
          ToInt16Sum(WIDTH - y0 - 1, -(h - 1));
        case 2 =>
          x := ToInt16(WIDTH - x - 1);
          y := ToInt16(HEIGHT - y - 1);
          y := ToInt16(y - (h - 1));
          ToInt16Sum(HEIGHT - y0 - 1, -(h - 1));
        case 3 =>
          swap := true;
          x, y := y, x;
          y := ToInt16(HEIGHT - y - 1);
        case _ =>
      }
      StoredIs(span, if swap then Row(x, y) else Column(x, y));
      if swap {
        DrawFastHLineInternal(x, y, h, c);
      } else {
        DrawFastVLineInternal(x, y, h, c);
      }
    }

    method DrawFastHLineInternal(x0: Int16, y: Int16, w0: Int16, c: Color)
      requires Valid()
      modifies buffer
      ensures buffer[..] == if RunsAway(Row(x0, y), w0) then Strayed(Row(x0, y), w0, old(buffer[..]), Shape(), c)
                            else Row(x0, y).Draw(Putter(Shape(), c), old(buffer[..]), w0)
    {
      hide Run, Put;
      var x: Int16, w: Int16 := x0, w0;
      if y >= 0 && y < HEIGHT {
        ghost var asked := if RunsAway(Row(x0, y), w0) then Row(0, y) else Row(x0, y);
        ghost var size := if RunsAway(Row(x0, y), w0) then x0 + w0 + 0x1_0000 else w0;
        if x < 0 {
          w := ToInt16(w + x);
          x := 0;
        }
        if x + w > WIDTH {
          w := WIDTH - x;
        }
        if size > 0 {
          ClippedSpan(buffer[..], Shape(), asked, size, c);
        } else {
          NoSpan(asked, Putter(Shape(), c), buffer[..], size);
        }
        NoSpan(Row(x, y), Putter(Shape(), c), buffer[..], w);
        if w > 0 {
          FillRow(x, y, w, c);
        }
      } else {
        OffPanelLine(buffer[..], Shape(), Row(x0, y), w0, c);
        OffPanelLine(buffer[..], Shape(), Row(0, y), x0 + w0 + 0x1_0000, c);
      }
    }

    /** The part of drawFastHLineInternal after clipping. */
    method FillRow(x: int, y: int, w0: int, c: Color)
      requires Valid() && 0 <= x && 0 <= y < HEIGHT && 0 < w0 && x + w0 <= WIDTH
      modifies buffer
      ensures buffer[..] == Row(x, y).Draw(Putter(Shape(), c), old(buffer[..]), w0)
    {
      ghost var orig := buffer[..];
      var pBuf, mask, w := (y / 8) * WIDTH + x, LowBit(y % 8), w0;
      while w > 0
        invariant 0 <= w <= w0
        invariant pBuf == (y / 8) * WIDTH + x + (w0 - w)
        invariant buffer[..] == Row(x, y).Draw(Putter(Shape(), c), orig, w0 - w)
      {
        ExtendRow(orig, buffer[..], Shape(), x, y, w0 - w, c);
        WriteMask(pBuf, mask, c);
        pBuf := pBuf + 1;
        w := w - 1;
      }
    }

    method DrawFastVLineInternal(x: Int16, y0: Int16, h0: Int16, c: Color)
      requires Valid()
      modifies buffer
      ensures buffer[..] == if RunsAway(Column(x, y0), h0) then Strayed(Column(x, y0), h0, old(buffer[..]), Shape(), c)
                            else Column(x, y0).Draw(Putter(Shape(), c), old(buffer[..]), h0)
    {
      hide Run, Put;
      if x >= 0 && x < WIDTH {
        var clippedY: Int16, clippedH: Int16 := y0, h0;
        ghost var asked := if RunsAway(Column(x, y0), h0) then Column(x, 0) else Column(x, y0);
        ghost var size := if RunsAway(Column(x, y0), h0) then y0 + h0 + 0x1_0000 else h0;
        if clippedY < 0 {
          clippedH := ToInt16(clippedH + clippedY);
          clippedY := 0;
        }
        if clippedY + clippedH > HEIGHT {
          clippedH := HEIGHT - clippedY;
        }
        if size > 0 {
          ClippedSpan(buffer[..], Shape(), asked, size, c);
        } else {
          NoSpan(asked, Putter(Shape(), c), buffer[..], size);
        }
        NoSpan(Column(x, clippedY), Putter(Shape(), c), buffer[..], clippedH);
        if clippedH > 0 {
          FillColumn(x, clippedY, clippedH, c);
        }
      } else {
        OffPanelLine(buffer[..], Shape(), Column(x, y0), h0, c);
        OffPanelLine(buffer[..], Shape(), Column(x, 0), y0 + h0 + 0x1_0000, c);
      }
    }

    /** The part of drawFastVLineInternal after clipping. */
    method FillColumn(x: int, y: UInt8, h0: UInt8, c: Color)
      requires Valid() && 0 <= x < WIDTH && 0 < h0 && y + h0 <= HEIGHT
      modifies buffer
      ensures buffer[..] == Column(x, y).Draw(Putter(Shape(), c), old(buffer[..]), h0)
    {
      hide Put, Run, LowRange, LowBit, Blend, MaskByte, BufferSize;
      ghost var orig, page := buffer[..], y / 8;
      NoSpan(Column(x, y), Putter(Shape(), c), orig, 0);
      var pBuf := (y / 8) * WIDTH + x;
      var mod: UInt8 := y % 8;
      if mod != 0 {
        mod := 8 - mod;
        var mask := FirstMask(mod, h0);
        ExtendColumn(orig, buffer[..], Shape(), x, y, 0, page, 8 - mod, if h0 < mod then 8 - mod + h0 else 8, c);
        WriteMask(pBuf, mask, c);
        NextMultiple(page, WIDTH);
        pBuf := pBuf + WIDTH;
        page := page + 1;
      }
      if h0 >= mod {
        FillAlignedColumn(pBuf, h0 - mod, c, orig, x, y, mod, page);
      }
    }

    /** Whole bytes, then the last partial byte, from a page boundary on. The ghost parameters say what
        has been drawn before: done rows from row y of column x. */
    method FillAlignedColumn(pBuf0: int, h0: UInt8, c: Color, ghost orig: seq<bv8>, ghost x: int, ghost y: nat,
                             ghost done: nat, ghost page0: nat)
      requires Valid() && |orig| == buffer.Length && 0 <= x < WIDTH && y + done + h0 <= HEIGHT
      requires y + done == page0 * 8 && pBuf0 == page0 * WIDTH + x
      requires buffer[..] == Column(x, y).Draw(Putter(Shape(), c), orig, done)
      modifies buffer
      ensures buffer[..] == Column(x, y).Draw(Putter(Shape(), c), orig, done + h0)
    {
      hide Put, Run, LowRange, LowBit, Blend, MaskByte, BufferSize, Postmask;
      var h, pBuf := h0, pBuf0;
      ghost var page := page0;
      while h >= 8
        invariant 0 <= h <= h0 && y + done + h0 - h == page * 8
        invariant pBuf == page * WIDTH + x
        invariant buffer[..] == Column(x, y).Draw(Putter(Shape(), c), orig, done + h0 - h)
      {
        ExtendColumn(orig, buffer[..], Shape(), x, y, done + h0 - h, page, 0, 8, c);
        WriteWhole(pBuf, c);
        NextMultiple(page, WIDTH);
        pBuf := pBuf + WIDTH;
        page := page + 1;
        h := h - 8;
      }
      if h != 0 {
        var mod := h % 8;
        assert mod == h;
        var mask := Postmask(mod);
        PostmaskIsRange(mod);
        ExtendColumn(orig, buffer[..], Shape(), x, y, done + h0 - h, page, 0, mod, c);
        WriteMask(pBuf, mask, c);
      }
    }
  }
}
