/** GFXcanvas1: a 1-bit canvas, each byte holding eight columns of one row, leftmost column in the
    highest bit, rows padded to whole bytes; and the two-colour drawBitmap that reads such buffers. */
module Canvas1 {
  import opened Arithmetic
  import opened MachineInts
  import opened ByteBits
  import opened PixelRuns
  import opened Rotation

  function RowBytes(w: nat): nat { (w + 7) / 8 }

  function BufferSize(p: Panel): nat { RowBytes(p.w) * p.h }

  /** Colour 0 clears, every other colour sets. */
  function Ink(color: UInt16): Color { if color > 0 then White else Black }

  lemma IndexInBuffer(w: nat, h: nat, x: int, y: int)
    requires 0 <= x < w && 0 <= y < h
    ensures 0 <= x / 8 < RowBytes(w)
    ensures 0 <= x / 8 + y * RowBytes(w) < RowBytes(w) * h
  {
    assert (y + 1) * RowBytes(w) <= h * RowBytes(w);
  }

  // ----- what single pixels mean

  /** The pixel at the raw position (x, y) set or cleared; nothing off the canvas. */
  function Put(buf: seq<bv8>, p: Panel, x: int, y: int, c: Color): seq<bv8> {
    if |buf| == BufferSize(p) && p.Holds(x, y) then
      IndexInBuffer(p.w, p.h, x, y);
      MaskByte(buf, x / 8 + y * RowBytes(p.w), HighBit(x % 8), c)
    else buf
  }

  function DrawPixel(buf: seq<bv8>, p: Panel, x: int, y: int, c: Color): seq<bv8> {
    if p.Shows(x, y) then var (px, py) := p.Turn(x, y); Put(buf, p, px, py, c) else buf
  }

  /** The bit of the raw position (x, y) of a buffer of rows of w pixels. */
  function RawPixel(buf: seq<bv8>, w: nat, h: nat, x: int, y: int): bool
    requires |buf| >= RowBytes(w) * h
  {
    if 0 <= x < w && 0 <= y < h then
      IndexInBuffer(w, h, x, y);
      Overlap(buf[x / 8 + y * RowBytes(w)], HighBit(x % 8))
    else false
  }

  function GetPixel(buf: seq<bv8>, p: Panel, x: int, y: int): bool
    requires |buf| == BufferSize(p)
  {
    var (px, py) := p.Turn(x, y);
    RawPixel(buf, p.w, p.h, px, py)
  }

  function Pen(p: Panel, c: Color): (seq<bv8>, int, int) -> seq<bv8> {
    (buf: seq<bv8>, x: int, y: int) => DrawPixel(buf, p, x, y, c)
  }

  function Putter(p: Panel, c: Color): (seq<bv8>, int, int) -> seq<bv8> {
    (buf: seq<bv8>, x: int, y: int) => Put(buf, p, x, y, c)
  }

  /** One drawPixel call per pixel of the line of |w| pixels from (x, y), leftwards if w is negative. */
  function RowPixelByPixel(buf: seq<bv8>, p: Panel, x: int, y: int, w: int, c: Color): seq<bv8> {
    if w >= 0 then Run(Pen(p, c), buf, x, y, 1, 0, w) else Run(Pen(p, c), buf, x, y, -1, 0, -w)
  }

  /** One drawPixel call per pixel of the line of |h| pixels from (x, y), upwards if h is negative. */
  function ColumnPixelByPixel(buf: seq<bv8>, p: Panel, x: int, y: int, h: int, c: Color): seq<bv8> {
    if h >= 0 then Run(Pen(p, c), buf, x, y, 0, 1, h) else Run(Pen(p, c), buf, x, y, 0, -1, -h)
  }

  // ----- drawPixel seen through getPixel

  /** A drawn pixel reads back as drawn, and every other pixel as before. */
  lemma DrawThenGet(buf: seq<bv8>, p: Panel, x: int, y: int, c: Color, u: int, v: int)
    requires p.Valid() && |buf| == BufferSize(p)
    ensures |DrawPixel(buf, p, x, y, c)| == |buf|
    ensures GetPixel(DrawPixel(buf, p, x, y, c), p, u, v)
         == if (u, v) == (x, y) && p.Shows(u, v) then Paint(GetPixel(buf, p, u, v), c) else GetPixel(buf, p, u, v)
  {
    hide Blend, Overlap, LowBit;
    var (px, py) := p.Turn(x, y);
    var (pu, pv) := p.Turn(u, v);
    assert p.Shows(x, y) <==> p.Holds(px, py);
    assert p.Shows(u, v) <==> p.Holds(pu, pv);
    if p.Holds(px, py) && p.Holds(pu, pv) {
      PutThenRead(buf, p, px, py, c, pu, pv);
      assert (u, v) == (x, y) <==> (pu, pv) == (px, py);
    }
  }

  lemma PutThenRead(buf: seq<bv8>, p: Panel, x: int, y: int, c: Color, u: int, v: int)
    requires |buf| == BufferSize(p) && p.Holds(x, y) && p.Holds(u, v)
    ensures |Put(buf, p, x, y, c)| == |buf|
    ensures RawPixel(Put(buf, p, x, y, c), p.w, p.h, u, v)
         == if (u, v) == (x, y) then Paint(RawPixel(buf, p.w, p.h, u, v), c) else RawPixel(buf, p.w, p.h, u, v)
  {
    hide Blend, Overlap, LowBit;
    IndexInBuffer(p.w, p.h, x, y);
    IndexInBuffer(p.w, p.h, u, v);
    var i, j := x / 8 + y * RowBytes(p.w), u / 8 + v * RowBytes(p.w);
    if i == j {
      IndexIsInjective(RowBytes(p.w), x / 8, y, u / 8, v);
      BlendBit(buf[i], 7 - x % 8, 7 - u % 8, c);
    }
  }

  /** A horizontal line drawn pixel by pixel changes exactly its pixels that are on the screen. */
  lemma {:induction false} RowThenGet(buf: seq<bv8>, p: Panel, x: int, y: int, w: int, c: Color, u: int, v: int)
    requires p.Valid() && |buf| == BufferSize(p)
    ensures |RowPixelByPixel(buf, p, x, y, w, c)| == |buf|
    ensures GetPixel(RowPixelByPixel(buf, p, x, y, w, c), p, u, v)
         == if p.Shows(u, v) && v == y && (x <= u < x + w || x + w < u <= x) then Paint(GetPixel(buf, p, u, v), c)
            else GetPixel(buf, p, u, v)
    decreases if w < 0 then -w else w
  {
    hide DrawPixel, GetPixel;
    if w != 0 {
      DrawThenGet(buf, p, x, y, c, u, v);
      RowThenGet(DrawPixel(buf, p, x, y, c), p, if w > 0 then x + 1 else x - 1, y, if w > 0 then w - 1 else w + 1, c, u, v);
    }
  }

  lemma {:induction false} ColumnThenGet(buf: seq<bv8>, p: Panel, x: int, y: int, h: int, c: Color, u: int, v: int)
    requires p.Valid() && |buf| == BufferSize(p)
    ensures |ColumnPixelByPixel(buf, p, x, y, h, c)| == |buf|
    ensures GetPixel(ColumnPixelByPixel(buf, p, x, y, h, c), p, u, v)
         == if p.Shows(u, v) && u == x && (y <= v < y + h || y + h < v <= y) then Paint(GetPixel(buf, p, u, v), c)
            else GetPixel(buf, p, u, v)
    decreases if h < 0 then -h else h
  {
    hide DrawPixel, GetPixel;
    if h != 0 {
      DrawThenGet(buf, p, x, y, c, u, v);
      ColumnThenGet(DrawPixel(buf, p, x, y, c), p, x, if h > 0 then y + 1 else y - 1, if h > 0 then h - 1 else h + 1, c, u, v);
    }
  }

  // ----- where on the canvas that is

  /** The pixel at the raw position (px, py) is set: bit 7 - px % 8 of byte px / 8 of row py. */
  predicate Lit(buf: seq<bv8>, width: nat, px: int, py: int) {
    0 <= px / 8 + py * ((width + 7) / 8) < |buf| && BitSet(buf[px / 8 + py * ((width + 7) / 8)], 7 - px % 8)
  }

  lemma LitIsGot(buf: seq<bv8>, p: Panel, px: int, py: int)
    requires p.Valid() && |buf| == BufferSize(p) && p.Holds(px, py)
    ensures var (x, y) := SeenAt(p.w, p.h, p.rotation, px, py);
            p.Shows(x, y) && GetPixel(buf, p, x, y) == Lit(buf, p.w, px, py)
  {
    hide BitSet, Overlap, LowBit;
    SeenIsTurned(p, px, py);
    IndexInBuffer(p.w, p.h, px, py);
    BitIsMask(buf[px / 8 + py * RowBytes(p.w)], 7 - px % 8);
  }

  /** What getPixel reads, by the rotation: which pixel of the canvas. */
  predicate ReadsCanvas(lit: bool, buf: seq<bv8>, width: nat, height: nat, rotation: nat, x: int, y: int) {
    && (rotation == 0 ==> (lit <==> 0 <= x < width && 0 <= y < height && Lit(buf, width, x, y)))
    && (rotation == 1 ==> (lit <==> 0 <= x < height && 0 <= y < width && Lit(buf, width, width - 1 - y, x)))
    && (rotation == 2 ==>
          (lit <==> 0 <= x < width && 0 <= y < height && Lit(buf, width, width - 1 - x, height - 1 - y)))
    && (rotation == 3 ==> (lit <==> 0 <= x < height && 0 <= y < width && Lit(buf, width, y, height - 1 - x)))
  }

  lemma GotIsOnCanvas(buf: seq<bv8>, p: Panel, x: int, y: int)
    requires p.Valid() && |buf| == BufferSize(p)
    ensures ReadsCanvas(GetPixel(buf, p, x, y), buf, p.w, p.h, p.rotation, x, y)
  {
    hide Lit, BufferSize, Overlap, HighBit;
    var (px, py) := p.Turn(x, y);
    if p.Holds(px, py) {
      LitIsGot(buf, p, px, py);
    }
  }

  /** Seen on the canvas, the line of |n| pixels from the logical point (x, y) is set or cleared and nothing else
      changes. */
  ghost predicate RowOnCanvas(before: seq<bv8>, now: seq<bv8>, width: nat, height: nat, rotation: nat, x: int, y: int,
                              n: int, lit: bool) {
    forall px, py :: 0 <= px < width && 0 <= py < height ==>
      Lit(now, width, px, py)
      == var (u, v) := SeenAt(width, height, rotation, px, py);
         if v == y && (x <= u < x + n || x + n < u <= x) then lit else Lit(before, width, px, py)
  }

  ghost predicate ColumnOnCanvas(before: seq<bv8>, now: seq<bv8>, width: nat, height: nat, rotation: nat, x: int,
                                 y: int, n: int, lit: bool) {
    forall px, py :: 0 <= px < width && 0 <= py < height ==>
      Lit(now, width, px, py)
      == var (u, v) := SeenAt(width, height, rotation, px, py);
         if u == x && (y <= v < y + n || y + n < v <= y) then lit else Lit(before, width, px, py)
  }

  lemma PixelIsOnCanvas(buf: seq<bv8>, p: Panel, x: int, y: int, color: UInt16)
    requires p.Valid() && |buf| == BufferSize(p)
    ensures RowOnCanvas(buf, DrawPixel(buf, p, x, y, Ink(color)), p.w, p.h, p.rotation, x, y, 1, color > 0)
  {
    hide Lit, GetPixel, DrawPixel, BufferSize;
    var now := DrawPixel(buf, p, x, y, Ink(color));
    forall px, py | 0 <= px < p.w && 0 <= py < p.h
      ensures Lit(now, p.w, px, py)
           == if SeenAt(p.w, p.h, p.rotation, px, py) == (x, y) then color > 0 else Lit(buf, p.w, px, py)
    {
      var (u, v) := SeenAt(p.w, p.h, p.rotation, px, py);
      DrawThenGet(buf, p, x, y, Ink(color), u, v);
      LitIsGot(buf, p, px, py);
      LitIsGot(now, p, px, py);
    }
  }

  lemma RowIsOnCanvas(buf: seq<bv8>, p: Panel, x: int, y: int, n: int, color: UInt16)
    requires p.Valid() && |buf| == BufferSize(p)
    ensures RowOnCanvas(buf, RowPixelByPixel(buf, p, x, y, n, Ink(color)), p.w, p.h, p.rotation, x, y, n, color > 0)
  {
    hide Lit, GetPixel, RowPixelByPixel, BufferSize;
    var now := RowPixelByPixel(buf, p, x, y, n, Ink(color));
    forall px, py | 0 <= px < p.w && 0 <= py < p.h
      ensures Lit(now, p.w, px, py)
           == var (u, v) := SeenAt(p.w, p.h, p.rotation, px, py);
              if v == y && (x <= u < x + n || x + n < u <= x) then color > 0 else Lit(buf, p.w, px, py)
    {
      var (u, v) := SeenAt(p.w, p.h, p.rotation, px, py);
      RowThenGet(buf, p, x, y, n, Ink(color), u, v);
      LitIsGot(buf, p, px, py);
      LitIsGot(now, p, px, py);
    }
  }

  lemma ColumnIsOnCanvas(buf: seq<bv8>, p: Panel, x: int, y: int, n: int, color: UInt16)
    requires p.Valid() && |buf| == BufferSize(p)
    ensures ColumnOnCanvas(buf, ColumnPixelByPixel(buf, p, x, y, n, Ink(color)), p.w, p.h, p.rotation, x, y, n, color > 0)
  {
    hide Lit, GetPixel, ColumnPixelByPixel, BufferSize;
    var now := ColumnPixelByPixel(buf, p, x, y, n, Ink(color));
    forall px, py | 0 <= px < p.w && 0 <= py < p.h
      ensures Lit(now, p.w, px, py)
           == var (u, v) := SeenAt(p.w, p.h, p.rotation, px, py);
              if u == x && (y <= v < y + n || y + n < v <= y) then color > 0 else Lit(buf, p.w, px, py)
    {
      var (u, v) := SeenAt(p.w, p.h, p.rotation, px, py);
      ColumnThenGet(buf, p, x, y, n, Ink(color), u, v);
      LitIsGot(buf, p, px, py);
      LitIsGot(now, p, px, py);
    }
  }

  // ----- logical lines as raw lines

  lemma PutsCommute(buf: seq<bv8>, p: Panel, x1: int, y1: int, x2: int, y2: int, c: Color)
    ensures Put(Put(buf, p, x1, y1, c), p, x2, y2, c) == Put(Put(buf, p, x2, y2, c), p, x1, y1, c)
  {
    hide MaskByte, LowBit;
    if |buf| == BufferSize(p) && p.Holds(x1, y1) && p.Holds(x2, y2) {
      IndexInBuffer(p.w, p.h, x1, y1);
      IndexInBuffer(p.w, p.h, x2, y2);
      MasksCommute(buf, x1 / 8 + y1 * RowBytes(p.w), HighBit(x1 % 8), x2 / 8 + y2 * RowBytes(p.w), HighBit(x2 % 8), c);
    }
  }

  lemma PlotsCommute(p: Panel, c: Color)
    ensures Commutes(Putter(p, c)) && Commutes(Pen(p, c))
  {
    forall buf, x1, y1, x2, y2
      ensures Put(Put(buf, p, x1, y1, c), p, x2, y2, c) == Put(Put(buf, p, x2, y2, c), p, x1, y1, c)
      ensures DrawPixel(DrawPixel(buf, p, x1, y1, c), p, x2, y2, c)
           == DrawPixel(DrawPixel(buf, p, x2, y2, c), p, x1, y1, c)
    {
      hide Put;
      PutsCommute(buf, p, x1, y1, x2, y2, c);
      var (u1, v1) := p.Turn(x1, y1);
      var (u2, v2) := p.Turn(x2, y2);
      PutsCommute(buf, p, u1, v1, u2, v2, c);
    }
  }

  lemma PenTurns(p: Panel, c: Color)
    requires p.Valid()
    ensures TurnsInto(p, Pen(p, c), Putter(p, c))
  {
    hide MaskByte, HighBit, TurnsInto;
    TurningPen(p, Pen(p, c), Putter(p, c));
  }

  lemma OffScreenIdle(p: Panel, c: Color)
    ensures IdleOutside(Pen(p, c), p.Width(), p.Height())
  {
    hide Put;
  }

  /** Normalising a negative length, clipping and rotating a horizontal line. */
  lemma RowLands(buf: seq<bv8>, p: Panel, x: int, y: int, w: int, c: Color)
    requires p.Valid()
    ensures var first, n := if w < 0 then x + w + 1 else x, Abs(w);
            var lo, hi := if first < 0 then 0 else first, if first + n > p.Width() then p.Width() as int else first + n;
            RowPixelByPixel(buf, p, x, y, w, c)
            == if lo < hi && 0 <= y < p.Height() then RowSpan(p, lo, y, hi - lo).Draw(Putter(p, c), buf, hi - lo) else buf
  {
    hide Commutes, TurnsInto, Run, Put, DrawPixel, IdleOutside;
    var first, n := if w < 0 then x + w + 1 else x, Abs(w);
    PlotsCommute(p, c);
    if w < 0 {
      RowBackwards(Pen(p, c), buf, x, y, n);
    }
    OffScreenIdle(p, c);
    PenTurns(p, c);
    if 0 <= y < p.Height() {
      var lo, hi := if first < 0 then 0 else first, if first + n > p.Width() then p.Width() as int else first + n;
      ClippedRow(Pen(p, c), p.Width(), p.Height(), buf, first, y, n);
      if lo < hi {
        RotatedRow(p, Pen(p, c), Putter(p, c), buf, lo, y, hi - lo);
      } else {
        EmptyRun(Pen(p, c), buf, lo, y, 1, 0, hi - lo);
      }
    } else {
      OffScreenRun(p, c, buf, first, y, 1, 0, n);
    }
  }

  lemma ColumnLands(buf: seq<bv8>, p: Panel, x: int, y: int, h: int, c: Color)
    requires p.Valid()
    ensures var first, n := if h < 0 then y + h + 1 else y, Abs(h);
            var lo, hi := if first < 0 then 0 else first, if first + n > p.Height() then p.Height() as int else first + n;
            ColumnPixelByPixel(buf, p, x, y, h, c)
            == if lo < hi && 0 <= x < p.Width() then ColumnSpan(p, x, lo, hi - lo).Draw(Putter(p, c), buf, hi - lo) else buf
  {
    hide Commutes, TurnsInto, Run, Put, DrawPixel, IdleOutside;
    var first, n := if h < 0 then y + h + 1 else y, Abs(h);
    PlotsCommute(p, c);
    if h < 0 {
      ColumnBackwards(Pen(p, c), buf, x, y, n);
    }
    OffScreenIdle(p, c);
    PenTurns(p, c);
    if 0 <= x < p.Width() {
      var lo, hi := if first < 0 then 0 else first, if first + n > p.Height() then p.Height() as int else first + n;
      ClippedColumn(Pen(p, c), p.Width(), p.Height(), buf, x, first, n);
      if lo < hi {
        RotatedColumn(p, Pen(p, c), Putter(p, c), buf, x, lo, hi - lo);
      } else {
        EmptyRun(Pen(p, c), buf, x, lo, 0, 1, hi - lo);
      }
    } else {
      OffScreenRun(p, c, buf, x, first, 0, 1, n);
    }
  }

  lemma EmptyRun<S>(plot: (S, int, int) -> S, s: S, x: int, y: int, dx: int, dy: int, n: int)
    requires n <= 0
    ensures Run(plot, s, x, y, dx, dy, n) == s
  {}

  lemma OffScreenRun(p: Panel, c: Color, buf: seq<bv8>, x: int, y: int, dx: int, dy: int, n: nat)
    requires if dx == 1 then dy == 0 && !(0 <= y < p.Height()) else dx == 0 && dy == 1 && !(0 <= x < p.Width())
    ensures Run(Pen(p, c), buf, x, y, dx, dy, n) == buf
  {
    OffScreenIdle(p, c);
    hide Put, Run, Idle, DrawPixel;
    NothingDrawn(Pen(p, c), buf, x, y, dx, dy, n);
  }

  // ----- masked byte writes as runs along a row

  lemma MaskGrows(buf: seq<bv8>, i: int, lo: nat, hi: nat, c: Color)
    requires 0 <= i < |buf| && lo <= hi < 8
    ensures MaskByte(buf, i, HighRange(lo, hi + 1), c)
         == MaskByte(MaskByte(buf, i, HighRange(lo, hi), c), i, HighBit(hi), c)
  {
    hide *;
    HighRangeStep(lo, hi);
    MaskByteTwice(buf, i, HighRange(lo, hi), HighBit(hi), c);
  }

  lemma EmptyMask(buf: seq<bv8>, i: int, lo: nat, c: Color)
    requires 0 <= i < |buf| && lo <= 8
    ensures MaskByte(buf, i, HighRange(lo, lo), c) == buf
  {
    EmptyRange(8 - lo);
    MaskByteByNothing(buf, i, c);
  }

  /** One more bit written in the byte of column x + n makes the run one column longer. */
  lemma BitExtendsRow(buf: seq<bv8>, now: seq<bv8>, p: Panel, x: int, y: int, n: nat, col: nat, k: nat, c: Color)
    requires |now| == BufferSize(p) && now == Row(x, y).Draw(Putter(p, c), buf, n)
    requires 0 <= y < p.h && k < 8 && x + n == col * 8 + k < p.w
    requires 0 <= col + y * RowBytes(p.w) < |now|
    ensures MaskByte(now, col + y * RowBytes(p.w), HighBit(k), c) == Row(x, y).Draw(Putter(p, c), buf, n + 1)
  {
    hide Blend, LowBit, Run;
    assert (x + n) / 8 == col && (x + n) % 8 == k;
    OnePixel(Row(x + n, y), Putter(p, c), now);
    SpanAppend(Row(x, y), Putter(p, c), buf, n, 1);
  }

  /** One masked byte write is a run along the columns of that byte. */
  lemma {:induction false} ByteIsRun(buf: seq<bv8>, p: Panel, y: int, col: nat, lo: nat, hi: nat, c: Color)
    requires |buf| == BufferSize(p)
    requires 0 <= y < p.h && lo <= hi <= 8 && col * 8 + hi <= p.w
    requires 0 <= col + y * RowBytes(p.w) < |buf|
    ensures MaskByte(buf, col + y * RowBytes(p.w), HighRange(lo, hi), c)
         == Row(col * 8 + lo, y).Draw(Putter(p, c), buf, hi - lo)
    decreases hi
  {
    hide Blend, HighRange, HighBit, MaskByte;
    var i := col + y * RowBytes(p.w);
    if lo == hi {
      EmptyMask(buf, i, lo, c);
    } else {
      ByteIsRun(buf, p, y, col, lo, hi - 1, c);
      MaskGrows(buf, i, lo, hi - 1, c);
      BitExtendsRow(buf, MaskByte(buf, i, HighRange(lo, hi - 1), c), p, col * 8 + lo, y, hi - 1 - lo, col, hi - 1, c);
    }
  }

  /** Writing the next byte of a row extends the run by the columns of that byte's mask. */
  lemma ExtendRow(orig: seq<bv8>, now: seq<bv8>, p: Panel, x: nat, y: int, done: nat, col: nat, lo: nat, hi: nat, c: Color)
    requires |now| == BufferSize(p) && 0 <= y < p.h
    requires now == Row(x, y).Draw(Putter(p, c), orig, done)
    requires x + done == col * 8 + lo && lo <= hi <= 8 && lo < 8 && x + done + (hi - lo) <= p.w && x + done < p.w
    ensures 0 <= col + y * RowBytes(p.w) < |now|
    ensures MaskByte(now, col + y * RowBytes(p.w), HighRange(lo, hi), c)
         == Row(x, y).Draw(Putter(p, c), orig, done + (hi - lo))
  {
    hide Blend, HighRange, MaskByte, Run, Put;
    assert (x + done) / 8 == col;
    IndexInBuffer(p.w, p.h, x + done, y);
    ByteIsRun(now, p, y, col, lo, hi, c);
    SpanAppend(Row(x, y), Putter(p, c), orig, done, hi - lo);
  }

  /** Writing the next pixel of a column extends the run by one. */
  lemma ExtendColumn(orig: seq<bv8>, now: seq<bv8>, p: Panel, x: int, y: int, done: nat, c: Color)
    requires |now| == BufferSize(p) && p.Holds(x, y + done)
    requires now == Column(x, y).Draw(Putter(p, c), orig, done)
    ensures 0 <= x / 8 + (y + done) * RowBytes(p.w) < |now|
    ensures MaskByte(now, x / 8 + (y + done) * RowBytes(p.w), HighBit(x % 8), c)
         == Column(x, y).Draw(Putter(p, c), orig, done + 1)
  {
    hide Blend, LowBit, Run;
    IndexInBuffer(p.w, p.h, x, y + done);
    OnePixel(Column(x, y + done), Putter(p, c), now);
    SpanAppend(Column(x, y), Putter(p, c), orig, done, 1);
  }

  /** A line of negative length n from `start` whose first pixel wraps onto a canvas of the given size, or whose
      length has no int16 negative while the line crosses the whole canvas. */
  predicate WrapsOnto(start: int, n: int, size: int) {
    if n == -0x8000 then start == 0x7FFF && size > 0 else n < 0 && start + n + 0x1_0001 < size
  }

  lemma TurnedOnCanvas(p: Panel, x: int, y: int)
    requires p.Valid() && p.Shows(x, y) && p.w < 0x8000 && p.h < 0x8000
    ensures p.Holds(p.Turn(x, y).0, p.Turn(x, y).1)
    ensures ToInt16(p.Turn(x, y).0) == p.Turn(x, y).0 && ToInt16(p.Turn(x, y).1) == p.Turn(x, y).1
  {}

  lemma SizeIs(p: Panel)
    ensures BufferSize(p) == RowBytes(p.w) * p.h
  {}

  lemma SizesKept(w: UInt16, h: UInt16)
    ensures (ToInt16(w) >= 0 <==> w < 0x8000) && (w < 0x8000 ==> ToInt16(w) == w)
    ensures (ToInt16(h) >= 0 <==> h < 0x8000) && (h < 0x8000 ==> ToInt16(h) == h)
  {}

  /** The values that drawFastHLine goes on with after turning a negative length round. */
  predicate Turned(start: Int16, n: Int16, from: Int16, size: Int16) {
    if n >= 0 then (from, size) == (start, n)
    else
      var first := ToInt16(start - (ToInt16(-(n as int)) - 1));
      if first < 0 then (from, size) == (0, ToInt16(ToInt16(-(n as int)) + first))
      else (from, size) == (first, ToInt16(-(n as int)))
  }

  lemma RowNormalised(buf: seq<bv8>, p: Panel, x0: Int16, y: int, w0: Int16, x: Int16, w: Int16, c: Color)
    requires p.Valid() && p.w < 0x8000 && p.h < 0x8000 && Turned(x0, w0, x, w)
    ensures w >= 0 || (x >= 0 && x + w <= 0)
    ensures !WrapsOnto(x0, w0, p.Width()) ==>
      RowPixelByPixel(buf, p, x0, y, w0, c) == if w < 0 then buf else RowPixelByPixel(buf, p, x, y, w, c)
    ensures WrapsOnto(x0, w0, p.Width()) && w0 == -0x8000 ==> w < 0
    ensures WrapsOnto(x0, w0, p.Width()) && w0 != -0x8000 ==> x == x0 + w0 + 0x1_0001 && w == -w0
  {
    hide Run, Put, DrawPixel, RowPixelByPixel;
    RowLands(buf, p, x0, y, w0, c);
    RowLands(buf, p, x, y, w, c);
  }

  lemma ColumnNormalised(buf: seq<bv8>, p: Panel, x: int, y0: Int16, h0: Int16, y: Int16, h: Int16, c: Color)
    requires p.Valid() && p.w < 0x8000 && p.h < 0x8000 && Turned(y0, h0, y, h)
    ensures h >= 0 || (y >= 0 && y + h <= 0)
    ensures !WrapsOnto(y0, h0, p.Height()) ==>
      ColumnPixelByPixel(buf, p, x, y0, h0, c) == if h < 0 then buf else ColumnPixelByPixel(buf, p, x, y, h, c)
    ensures WrapsOnto(y0, h0, p.Height()) && h0 == -0x8000 ==> h < 0
    ensures WrapsOnto(y0, h0, p.Height()) && h0 != -0x8000 ==> y == y0 + h0 + 0x1_0001 && h == -h0
  {
    hide Run, Put, DrawPixel, ColumnPixelByPixel;
    ColumnLands(buf, p, x, y0, h0, c);
    ColumnLands(buf, p, x, y, h, c);
  }

  /** Where a line that wraps onto the canvas differs from the one asked for, unless the pixel had the colour. */
  lemma WrappedRowShows(buf: seq<bv8>, p: Panel, x0: Int16, y: int, w0: Int16, c: Color)
    requires p.Valid() && p.w < 0x8000 && p.h < 0x8000 && |buf| == BufferSize(p) && c != Inverse
    requires WrapsOnto(x0, w0, p.Width()) && 0 <= y < p.Height()
    ensures var u := if w0 == -0x8000 then 0 else x0 + w0 + 0x1_0001;
            var drawn := if w0 == -0x8000 then buf else RowPixelByPixel(buf, p, u, y, -w0, c);
            |drawn| == |buf| == |RowPixelByPixel(buf, p, x0, y, w0, c)|
            && (GetPixel(buf, p, u, y) != (c == White) ==>
                  GetPixel(drawn, p, u, y) != GetPixel(RowPixelByPixel(buf, p, x0, y, w0, c), p, u, y))
  {
    hide RowPixelByPixel, GetPixel;
    var u := if w0 == -0x8000 then 0 else x0 + w0 + 0x1_0001;
    RowThenGet(buf, p, x0, y, w0, c, u, y);
    if w0 != -0x8000 {
      RowThenGet(buf, p, u, y, -w0, c, u, y);
    }
  }

  lemma WrappedColumnShows(buf: seq<bv8>, p: Panel, x: int, y0: Int16, h0: Int16, c: Color)
    requires p.Valid() && p.w < 0x8000 && p.h < 0x8000 && |buf| == BufferSize(p) && c != Inverse
    requires WrapsOnto(y0, h0, p.Height()) && 0 <= x < p.Width()
    ensures var v := if h0 == -0x8000 then 0 else y0 + h0 + 0x1_0001;
            var drawn := if h0 == -0x8000 then buf else ColumnPixelByPixel(buf, p, x, v, -h0, c);
            |drawn| == |buf| == |ColumnPixelByPixel(buf, p, x, y0, h0, c)|
            && (GetPixel(buf, p, x, v) != (c == White) ==>
                  GetPixel(drawn, p, x, v) != GetPixel(ColumnPixelByPixel(buf, p, x, y0, h0, c), p, x, v))
  {
    hide ColumnPixelByPixel, GetPixel;
    var v := if h0 == -0x8000 then 0 else y0 + h0 + 0x1_0001;
    ColumnThenGet(buf, p, x, y0, h0, c, x, v);
    if h0 != -0x8000 {
      ColumnThenGet(buf, p, x, v, -h0, c, x, v);
    }
  }

  class Canvas {
    const WIDTH: Int16
    const HEIGHT: Int16
    var rotation: nat
    var buffer: array<bv8>

    ghost predicate Valid()
      reads this
    {
      WIDTH >= 0 && HEIGHT >= 0 && Shape().Valid() && buffer.Length == BufferSize(Shape())
    }

    function Shape(): Panel
      reads this
    {
      Panel(if WIDTH < 0 then 0 else WIDTH, if HEIGHT < 0 then 0 else HEIGHT, rotation)
    }

    /** The sizes are kept as int16_t and the number of bytes as uint16_t, so the buffer holds the canvas if and
        only if nothing is cut off: not for 800 by 700 pixels, say. */
    constructor (w: UInt16, h: UInt16)
      ensures Valid() <==> w < 0x8000 && h < 0x8000 && RowBytes(w) * h < 0x1_0000
      ensures Valid() ==> WIDTH == w && HEIGHT == h
      ensures fresh(buffer) && buffer.Length == ToUInt16(RowBytes(w) * h) && rotation == 0
      ensures forall i :: 0 <= i < buffer.Length ==> buffer[i] == 0
    {
      SizesKept(w, h);
      hide ToUInt16, ToInt16, RowBytes, BufferSize;
      WIDTH, HEIGHT, rotation := ToInt16(w), ToInt16(h), 0;
      var bytes: UInt16 := ToUInt16(RowBytes(w) * h);
      buffer := new bv8[bytes](_ => 0);
      new;
      SizeIs(Shape());
    }

    method SetRotation(r: UInt8)
      requires Valid()
      modifies this`rotation
      ensures Valid() && rotation == r % 4
    {
      rotation := r % 4;
    }

    /** The rotation switch that drawPixel and getPixel share. */
    method TurnToRaw(x0: Int16, y0: Int16) returns (x: Int16, y: Int16)
      requires Valid()
      ensures (x, y) == (ToInt16(Shape().Turn(x0, y0).0), ToInt16(Shape().Turn(x0, y0).1))
    {
      x, y := x0, y0;
      match rotation {
        case 1 =>
          var t := x;
          x := ToInt16(WIDTH - 1 - y);
          y := t;
        case 2 =>
          x := ToInt16(WIDTH - 1 - x);
          y := ToInt16(HEIGHT - 1 - y);
        case 3 =>
          var t := x;
          x := y;
          y := ToInt16(HEIGHT - 1 - t);
        case _ =>
      }
    }

    method WriteMask(i: int, mask: bv8, color: UInt16)
      requires 0 <= i < buffer.Length
      modifies buffer
      ensures buffer[..] == MaskByte(old(buffer[..]), i, mask, Ink(color))
    {
      hide Union, Without;
      if color > 0 {
        buffer[i] := Union(buffer[i], mask);
      } else {
        buffer[i] := Without(buffer[i], mask);
      }
    }

    method WritePixel(x0: Int16, y0: Int16, color: UInt16)
      requires Valid()
      modifies buffer
      ensures buffer[..] == DrawPixel(old(buffer[..]), Shape(), x0, y0, Ink(color))
      ensures RowOnCanvas(old(buffer[..]), buffer[..], WIDTH, HEIGHT, rotation, x0, y0, 1, color > 0)
    {
      hide MaskByte, LowBit, HighBit, ToInt16, RowOnCanvas;
      PixelIsOnCanvas(buffer[..], Shape(), x0, y0, color);
      if x0 < 0 || y0 < 0 || x0 >= Shape().Width() || y0 >= Shape().Height() {
        return;
      }
      TurnedOnCanvas(Shape(), x0, y0);
      var x, y := TurnToRaw(x0, y0);
      IndexInBuffer(WIDTH, HEIGHT, x, y);
      WriteMask(x / 8 + y * RowBytes(WIDTH), HighBit(x % 8), color);
    }

    /** A coordinate that wraps is off the canvas before and after. */
    method ReadPixel(x0: Int16, y0: Int16) returns (lit: bool)
      requires Valid()
      ensures lit == GetPixel(buffer[..], Shape(), x0, y0)
      ensures ReadsCanvas(lit, buffer[..], WIDTH, HEIGHT, rotation, x0, y0)
    {
      hide ReadsCanvas;
      GotIsOnCanvas(buffer[..], Shape(), x0, y0);
      var x, y := TurnToRaw(x0, y0);
      lit := ReadRawPixel(x, y);
    }

    method ReadRawPixel(x: Int16, y: Int16) returns (lit: bool)
      requires Valid()
      ensures lit == RawPixel(buffer[..], WIDTH, HEIGHT, x, y)
    {
      if x < 0 || y < 0 || x >= WIDTH || y >= HEIGHT {
        return false;
      }
      IndexInBuffer(WIDTH, HEIGHT, x, y);
      return Overlap(buffer[x / 8 + y * ((WIDTH + 7) / 8)], HighBit(x % 8));
    }

    /** All int16 arguments are covered. Unless the negated length or the start wraps onto the canvas, the line
        asked for is drawn. */
    method DrawFastVLine(x0: Int16, y0: Int16, h0: Int16, color: UInt16)
      requires Valid()
      modifies buffer
      ensures !WrapsOnto(y0, h0, Shape().Height()) ==>
        buffer[..] == ColumnPixelByPixel(old(buffer[..]), Shape(), x0, y0, h0, Ink(color))
      ensures WrapsOnto(y0, h0, Shape().Height()) ==>
        buffer[..] == if h0 == -0x8000 then old(buffer[..])
                      else ColumnPixelByPixel(old(buffer[..]), Shape(), x0, y0 + h0 + 0x1_0001, -h0, Ink(color))
      ensures h0 >= 0 || (h0 > -0x8000 && y0 + h0 >= -0x8000) ==>
        ColumnOnCanvas(old(buffer[..]), buffer[..], WIDTH, HEIGHT, rotation, x0, y0, h0, color > 0)
    {
      hide Run, Put, DrawPixel, ColumnPixelByPixel, ToInt16, ColumnOnCanvas;
      ColumnIsOnCanvas(buffer[..], Shape(), x0, y0, h0, color);
      var y: Int16, h: Int16 := y0, h0;
      if h < 0 {
        h := ToInt16(h * -1);
        y := ToInt16(y - (h - 1));
        if y < 0 {
          h := ToInt16(h + y);
          y := 0;
        }
      }
      ColumnNormalised(buffer[..], Shape(), x0, y0, h0, y, h, Ink(color));
      DrawForwardVLine(x0, y, h, color);
    }

    /** The rest of drawFastVLine, after a negative length has been turned round. */
    method DrawForwardVLine(x0: Int16, y0: Int16, h0: Int16, color: UInt16)
      requires Valid() && (h0 >= 0 || (y0 >= 0 && y0 + h0 <= 0))
      modifies buffer
      ensures buffer[..] == if h0 < 0 then old(buffer[..])
                            else ColumnPixelByPixel(old(buffer[..]), Shape(), x0, y0, h0, Ink(color))
    {
      hide Run, Put, DrawPixel, ColumnPixelByPixel;
      ColumnLands(buffer[..], Shape(), x0, y0, h0, Ink(color));
      var y: Int16, h: Int16 := y0, h0;
      if x0 < 0 || x0 >= Shape().Width() || y >= Shape().Height() || y + h - 1 < 0 {
        return;
      }
      if y < 0 {
        h := h + y;
        y := 0;
      }
      if y + h > Shape().Height() {
        h := Shape().Height() - y;
      }
      DrawClippedVLine(x0, y, h, color);
    }

    method DrawFastHLine(x0: Int16, y0: Int16, w0: Int16, color: UInt16)
      requires Valid()
      modifies buffer
      ensures !WrapsOnto(x0, w0, Shape().Width()) ==>
        buffer[..] == RowPixelByPixel(old(buffer[..]), Shape(), x0, y0, w0, Ink(color))
      ensures WrapsOnto(x0, w0, Shape().Width()) ==>
        buffer[..] == if w0 == -0x8000 then old(buffer[..])
                      else RowPixelByPixel(old(buffer[..]), Shape(), x0 + w0 + 0x1_0001, y0, -w0, Ink(color))
      ensures w0 >= 0 || (w0 > -0x8000 && x0 + w0 >= -0x8000) ==>
        RowOnCanvas(old(buffer[..]), buffer[..], WIDTH, HEIGHT, rotation, x0, y0, w0, color > 0)
    {
      hide Run, Put, DrawPixel, RowPixelByPixel, ToInt16, RowOnCanvas;
      RowIsOnCanvas(buffer[..], Shape(), x0, y0, w0, color);
      var x: Int16, w: Int16 := x0, w0;
      if w < 0 {
        w := ToInt16(w * -1);
        x := ToInt16(x - (w - 1));
        if x < 0 {
          w := ToInt16(w + x);
          x := 0;
        }
      }
      RowNormalised(buffer[..], Shape(), x0, y0, w0, x, w, Ink(color));
      DrawForwardHLine(x, y0, w, color);
    }

    /** The rest of drawFastHLine, after a negative length has been turned round. */
    method DrawForwardHLine(x0: Int16, y0: Int16, w0: Int16, color: UInt16)
      requires Valid() && (w0 >= 0 || (x0 >= 0 && x0 + w0 <= 0))
      modifies buffer
      ensures buffer[..] == if w0 < 0 then old(buffer[..])
                            else RowPixelByPixel(old(buffer[..]), Shape(), x0, y0, w0, Ink(color))
    {
      hide Run, Put, DrawPixel, RowPixelByPixel;
      RowLands(buffer[..], Shape(), x0, y0, w0, Ink(color));
      var x: Int16, w: Int16 := x0, w0;
      if y0 < 0 || y0 >= Shape().Height() || x >= Shape().Width() || x + w - 1 < 0 {
        return;
      }
      if x < 0 {
        w := w + x;
        x := 0;
      }
      if x + w >= Shape().Width() {
        w := Shape().Width() - x;
      }
      DrawClippedHLine(x, y0, w, color);
    }

    /** The rotation branches of drawFastVLine. */
    method DrawClippedVLine(x0: Int16, y0: Int16, h: Int16, color: UInt16)
      requires Valid() && 0 <= x0 < Shape().Width() && 0 <= y0 && 0 <= h && y0 + h <= Shape().Height()
      requires y0 < Shape().Height() || y0 == 0
      requires h == 0 ==> y0 > 0 || Shape().Height() == 0
      modifies buffer
      ensures buffer[..] == if h > 0
                            then ColumnSpan(Shape(), x0, y0, h).Draw(Putter(Shape(), Ink(color)), old(buffer[..]), h)
                            else old(buffer[..])
    {
      hide Run, Put;
      var x: Int16, y: Int16 := x0, y0;
      match rotation {
        case 1 =>
          var t := x;
          x := WIDTH - 1 - y;
          y := t;
          x := x - (h - 1);
          DrawFastRawHLine(x, y, h, color);
        case 2 =>
          x := WIDTH - 1 - x;
          y := HEIGHT - 1 - y;
          y := y - (h - 1);
          DrawFastRawVLine(x, y, h, color);
        case 3 =>
          var t := x;
          x := y;
          y := HEIGHT - 1 - t;
          DrawFastRawHLine(x, y, h, color);
        case _ =>
          DrawFastRawVLine(x, y, h, color);
      }
    }

    /** The rotation branches of drawFastHLine. */
    method DrawClippedHLine(x0: Int16, y0: Int16, w: Int16, color: UInt16)
      requires Valid() && 0 <= y0 < Shape().Height() && 0 <= x0 && 0 <= w && x0 + w <= Shape().Width()
      requires x0 < Shape().Width() || x0 == 0
      requires w == 0 ==> x0 > 0 || Shape().Width() == 0
      modifies buffer
      ensures buffer[..] == if w > 0
                            then RowSpan(Shape(), x0, y0, w).Draw(Putter(Shape(), Ink(color)), old(buffer[..]), w)
                            else old(buffer[..])
    {
      hide Run, Put;
      var x: Int16, y: Int16 := x0, y0;
      match rotation {
        case 1 =>
          var t := x;
          x := WIDTH - 1 - y;
          y := t;
          DrawFastRawVLine(x, y, w, color);
        case 2 =>
          x := WIDTH - 1 - x;
          y := HEIGHT - 1 - y;
          x := x - (w - 1);
          DrawFastRawHLine(x, y, w, color);
        case 3 =>
          var t := x;
          x := y;
          y := HEIGHT - 1 - t;
          y := y - (w - 1);
          DrawFastRawVLine(x, y, w, color);
        case _ =>
          DrawFastRawHLine(x, y, w, color);
      }
    }

    method DrawFastRawVLine(x: Int16, y: Int16, h: Int16, color: UInt16)
      requires Valid() && 0 <= h && (h == 0 || (0 <= x < WIDTH && 0 <= y && y + h <= HEIGHT))
      modifies buffer
      ensures buffer[..] == Column(x, y).Draw(Putter(Shape(), Ink(color)), old(buffer[..]), h)
      ensures h == 0 ==> buffer[..] == old(buffer[..])
    {
      hide Put, MaskByte, LowBit;
      ghost var orig := buffer[..];
      var rowBytes := (WIDTH + 7) / 8;
      var ptr := x / 8 + y * rowBytes;
      var bitMask := HighBit(x % 8);
      var i: Int16 := 0;
      while i < h
        invariant 0 <= i <= h
        invariant ptr == x / 8 + (y + i) * rowBytes
        invariant buffer[..] == Column(x, y).Draw(Putter(Shape(), Ink(color)), orig, i)
        invariant i == 0 ==> buffer[..] == orig
      {
        ExtendColumn(orig, buffer[..], Shape(), x, y, i, Ink(color));
        NextMultiple(y + i, rowBytes);
        WriteMask(ptr, bitMask, color);
        ptr := ptr + rowBytes;
        i := i + 1;
      }
    }

    method DrawFastRawHLine(x: Int16, y: Int16, w: Int16, color: UInt16)
      requires Valid() && 0 <= w && ((w == 0 && x % 8 == 0) || (0 <= x && x + w <= WIDTH && x < WIDTH && 0 <= y < HEIGHT))
      modifies buffer
      ensures buffer[..] == Row(x, y).Draw(Putter(Shape(), Ink(color)), old(buffer[..]), w)
      ensures w == 0 ==> buffer[..] == old(buffer[..])
    {
      hide Put, MaskByte, LowBit, HighRange;
      ghost var orig, col := buffer[..], x / 8;
      var rowBytes := (WIDTH + 7) / 8;
      var ptr := x / 8 + y * rowBytes;
      var remaining := w;
      if x % 8 > 0 {
        var startMask;
        startMask, remaining := StartMask(x % 8, w);
        ExtendRow(orig, buffer[..], Shape(), x, y, 0, col, x % 8, x % 8 + (w - remaining), Ink(color));
        WriteMask(ptr, startMask, color);
        ptr := ptr + 1;
        col := col + 1;
      }
      if remaining > 0 {
        FillAlignedRow(ptr, remaining, color, orig, x, y, w - remaining, col);
      }
      assert w == 0 ==> Row(x, y).Draw(Putter(Shape(), Ink(color)), orig, w) == orig;
    }

    /** The mask of the first, partial byte, built bit by bit until the byte or the line ends. */
    method StartMask(from: nat, w: nat) returns (mask: bv8, remaining: nat)
      requires 0 < from < 8
      ensures remaining == (if w < 8 - from then 0 else w - (8 - from))
      ensures mask == HighRange(from, from + (w - remaining))
    {
      hide LowBit, LowRange, Overlap;
      mask, remaining := 0, w;
      EmptyRange(8 - from);
      var i := from;
      while i < 8 && remaining > 0
        invariant from <= i <= 8 && remaining == w - (i - from)
        invariant mask == HighRange(from, i)
      {
        HighRangeStep(from, i);
        mask := Union(mask, HighBit(i));
        i := i + 1;
        remaining := remaining - 1;
      }
    }

    method EndMask(bits: nat) returns (mask: bv8)
      requires bits < 8
      ensures mask == HighRange(0, bits)
    {
      hide LowBit, LowRange, Overlap;
      mask := 0;
      EmptyRange(8);
      for i := 0 to bits
        invariant mask == HighRange(0, i)
      {
        HighRangeStep(0, i);
        mask := Union(mask, HighBit(i));
      }
    }

    /** Whole bytes by memset, then the last partial byte, from a byte boundary on. The ghost parameters
        say what has been drawn before: done pixels from column x of row y. */
    method FillAlignedRow(ptr0: int, remaining: nat, color: UInt16, ghost orig: seq<bv8>, ghost x: nat, ghost y: nat,
                          ghost done: nat, ghost col0: nat)
      requires Valid() && y < HEIGHT && x + done + remaining <= WIDTH && remaining > 0
      requires x + done == col0 * 8 && ptr0 == col0 + y * RowBytes(WIDTH)
      requires buffer[..] == Row(x, y).Draw(Putter(Shape(), Ink(color)), orig, done)
      modifies buffer
      ensures buffer[..] == Row(x, y).Draw(Putter(Shape(), Ink(color)), orig, done + remaining)
    {
      hide Put, MaskByte, LowBit, HighRange, Run;
      var wholeBytes, lastBits := remaining / 8, remaining % 8;
      var wholeColor: bv8 := if color > 0 then 0xFF else 0x00;
      for i := 0 to wholeBytes
        invariant buffer[..] == Row(x, y).Draw(Putter(Shape(), Ink(color)), orig, done + 8 * i)
      {
        ExtendRow(orig, buffer[..], Shape(), x, y, done + 8 * i, col0 + i, 0, 8, Ink(color));
        WriteWhole(ptr0 + i, wholeColor, color);
      }
      if lastBits > 0 {
        var mask := EndMask(lastBits);
        ExtendRow(orig, buffer[..], Shape(), x, y, done + 8 * wholeBytes, col0 + wholeBytes, 0, lastBits, Ink(color));
        WriteMask(ptr0 + wholeBytes, mask, color);
      }
    }

    /** One byte of the memset. */
    method WriteWhole(i: int, value: bv8, ghost color: UInt16)
      requires 0 <= i < buffer.Length && value == if color > 0 then 0xFF else 0x00
      modifies buffer
      ensures buffer[..] == MaskByte(old(buffer[..]), i, HighRange(0, 8), Ink(color))
    {
      FullRange();
      BlendEverything(buffer[i], Ink(color));
      buffer[i] := value;
    }

    /** The two-colour drawBitmap: the byte b is reloaded every eighth column and shifted in between. */
    method DrawBitmap(x: Int16, y0: Int16, bitmap: array<bv8>, w: Int16, h: Int16, color: UInt16, bg: UInt16)
      requires Valid() && bitmap != buffer
      requires w > 0 && h > 0 ==> bitmap.Length >= RowBytes(w) * h
      modifies buffer
      ensures w <= 0 || h <= 0 ==> buffer[..] == old(buffer[..])
      ensures w > 0 && h > 0 ==>
        buffer[..] == BitmapRows(old(buffer[..]), Shape(), x, y0, Bitmap(bitmap[..], w, h, color, bg), h)
    {
      if w > 0 && h > 0 {
        DrawBits(x, y0, bitmap, w, h, color, bg);
      }
    }

    /** The loops of drawBitmap, for sizes for which they are entered. */
    method DrawBits(x: Int16, y0: Int16, bitmap: array<bv8>, w: Int16, h: Int16, color: UInt16, bg: UInt16)
      requires Valid() && bitmap != buffer && w > 0 && h > 0 && bitmap.Length >= RowBytes(w) * h
      modifies buffer
      ensures buffer[..] == BitmapRows(old(buffer[..]), Shape(), x, y0, Bitmap(bitmap[..], w, h, color, bg), h)
    {
      hide DrawPixel, RawPixel, Overlap, LowBit;
      ghost var orig, bm := buffer[..], Bitmap(bitmap[..], w, h, color, bg);
      var byteWidth := (w + 7) / 8;
      var b: bv8 := 0;
      var y: Int16, j: Int16 := y0, 0;
      while j < h
        invariant 0 <= j <= h && y == ToInt16(y0 + j)
        invariant buffer[..] == BitmapRows(orig, Shape(), x, y0, bm, j)
      {
        ghost var rows := buffer[..];
        var i: Int16 := 0;
        while i < w
          invariant 0 <= i <= w
          invariant i % 8 != 0 ==> ShiftedByte(bm, i - 1, j) == b
          invariant buffer[..] == BitmapRow(rows, Shape(), x, y0 + j, bm, j, i)
        {
          IndexInBuffer(w, h, i, j);
          if i % 8 != 0 {
            NextShift(bm, i, j);
            b := b << 1;
          } else {
            b := bitmap[j * byteWidth + i / 8];
          }
          ShiftedByteIsPixel(bm, i, j);
          WrappedPixel(buffer[..], Shape(), x + i, y0 + j, Ink(bm.ColorAt(i, j)));
          WritePixel(ToInt16(x + i), y, if b & 0x80 != 0 then color else bg);
          i := i + 1;
        }
        j := j + 1;
        y := ToInt16(y + 1);
      }
    }
  }

  // ----- drawBitmap

  datatype Bitmap = Bitmap(bits: seq<bv8>, w: nat, h: nat, color: UInt16, bg: UInt16) {
    predicate Valid() { |bits| >= RowBytes(w) * h }

    /** The colour drawBitmap paints column i of row j with. */
    function ColorAt(i: int, j: int): UInt16
      requires Valid()
    {
      if RawPixel(bits, w, h, i, j) then color else bg
    }
  }

  /** The first n pixels of row j of the bitmap, drawn one by one along row y of the canvas. */
  function BitmapRow(buf: seq<bv8>, p: Panel, x: int, y: int, bm: Bitmap, j: nat, n: nat): seq<bv8>
    requires bm.Valid()
  {
    if n == 0 then buf
    else DrawPixel(BitmapRow(buf, p, x, y, bm, j, n - 1), p, x + n - 1, y, Ink(bm.ColorAt(n - 1, j)))
  }

  function BitmapRows(buf: seq<bv8>, p: Panel, x: int, y: int, bm: Bitmap, m: nat): seq<bv8>
    requires bm.Valid()
  {
    if m == 0 then buf
    else BitmapRow(BitmapRows(buf, p, x, y, bm, m - 1), p, x, y + m - 1, bm, m - 1, bm.w)
  }

  /** A pixel that wraps in int16 is off the canvas before and after. */
  lemma WrappedPixel(buf: seq<bv8>, p: Panel, x: int, y: int, c: Color)
    requires p.w < 0x8000 && p.h < 0x8000 && -0x8000 <= x < 0x1_0000 && -0x8000 <= y < 0x1_0000
    ensures DrawPixel(buf, p, ToInt16(x), ToInt16(y), c) == DrawPixel(buf, p, x, y, c)
  {
    hide Put;
  }

  /** The byte of column i, shifted until column i is in the top bit. */
  function ShiftedByte(bm: Bitmap, i: nat, j: nat): bv8
    requires bm.Valid() && i < bm.w && j < bm.h
  {
    IndexInBuffer(bm.w, bm.h, i, j);
    ShiftLeft(bm.bits[i / 8 + j * RowBytes(bm.w)], i % 8)
  }

  lemma NextShift(bm: Bitmap, i: nat, j: nat)
    requires bm.Valid() && i < bm.w && j < bm.h && i % 8 != 0
    ensures ShiftedByte(bm, i, j) == ShiftedByte(bm, i - 1, j) << 1
  {
    assert (i - 1) / 8 == i / 8 && (i - 1) % 8 == i % 8 - 1;
  }

  lemma ShiftedByteIsPixel(bm: Bitmap, i: nat, j: nat)
    requires bm.Valid() && i < bm.w && j < bm.h
    ensures RawPixel(bm.bits, bm.w, bm.h, i, j) <==> ShiftedByte(bm, i, j) & 0x80 != 0
    ensures i % 8 == 0 ==> IndexOf(bm.w, i, j) < |bm.bits| && ShiftedByte(bm, i, j) == bm.bits[IndexOf(bm.w, i, j)]
  {
    IndexInBuffer(bm.w, bm.h, i, j);
    TopAfterShift(bm.bits[i / 8 + j * RowBytes(bm.w)], i % 8);
  }

  function IndexOf(w: nat, i: nat, j: nat): nat { j * RowBytes(w) + i / 8 }

  lemma {:induction false} BitmapRowThenGet(buf: seq<bv8>, p: Panel, x: int, y: int, bm: Bitmap, j: nat, n: nat, u: int,
                                            v: int)
    requires p.Valid() && |buf| == BufferSize(p) && bm.Valid()
    ensures |BitmapRow(buf, p, x, y, bm, j, n)| == |buf|
    ensures GetPixel(BitmapRow(buf, p, x, y, bm, j, n), p, u, v)
         == if p.Shows(u, v) && v == y && x <= u < x + n then bm.ColorAt(u - x, j) > 0 else GetPixel(buf, p, u, v)
    decreases n
  {
    hide DrawPixel, GetPixel, RawPixel;
    if n > 0 {
      BitmapRowThenGet(buf, p, x, y, bm, j, n - 1, u, v);
      DrawThenGet(BitmapRow(buf, p, x, y, bm, j, n - 1), p, x + n - 1, y, Ink(bm.ColorAt(n - 1, j)), u, v);
    }
  }

  /** After drawBitmap every canvas pixel under the bitmap shows its bitmap colour, and every other
      pixel is as before. */
  lemma {:induction false} BitmapThenGet(buf: seq<bv8>, p: Panel, x: int, y: int, bm: Bitmap, m: nat, u: int, v: int)
    requires p.Valid() && |buf| == BufferSize(p) && bm.Valid()
    ensures |BitmapRows(buf, p, x, y, bm, m)| == |buf|
    ensures GetPixel(BitmapRows(buf, p, x, y, bm, m), p, u, v)
         == if p.Shows(u, v) && x <= u < x + bm.w && y <= v < y + m then bm.ColorAt(u - x, v - y) > 0
            else GetPixel(buf, p, u, v)
    decreases m
  {
    hide GetPixel, RawPixel, BitmapRow;
    if m > 0 {
      BitmapThenGet(buf, p, x, y, bm, m - 1, u, v);
      BitmapRowThenGet(BitmapRows(buf, p, x, y, bm, m - 1), p, x, y + m - 1, bm, m - 1, bm.w, u, v);
    }
  }

  /** The round trip: a canvas buffer drawn with colours 1 and 0 on another canvas, in any rotation and
      at any offset, makes it agree with the source canvas on the overlap and changes nothing else. */
  lemma CanvasCopied(source: seq<bv8>, q: Panel, buf: seq<bv8>, p: Panel, x: int, y: int, u: int, v: int)
    requires |source| == BufferSize(q)
    requires p.Valid() && |buf| == BufferSize(p) && p.Shows(u, v)
    ensures |BitmapRows(buf, p, x, y, Bitmap(source, q.w, q.h, 1, 0), q.h)| == |buf|
    ensures GetPixel(BitmapRows(buf, p, x, y, Bitmap(source, q.w, q.h, 1, 0), q.h), p, u, v)
         == if q.Holds(u - x, v - y) then RawPixel(source, q.w, q.h, u - x, v - y) else GetPixel(buf, p, u, v)
  {
    hide GetPixel, RawPixel;
    BitmapThenGet(buf, p, x, y, Bitmap(source, q.w, q.h, 1, 0), q.h, u, v);
  }
}
