/** Text of Adafruit_GFX in the classic font: drawChar, write, charBounds and getTextBounds. */
module Text {
  import opened MachineInts
  import opened Arithmetic

  // ----- what is painted

  /** A rectangle in one colour: a pixel, a vertical line or a filled rectangle of the device. */
  datatype Fill = Fill(x: int, y: int, w: int, h: int, color: UInt16) {
    predicate Paints(u: int, v: int) {
      x <= u < x + w && y <= v < y + h
    }
  }

  /** The colours that pixel (u, v) is given, in order. */
  function Shown(fills: seq<Fill>, u: int, v: int): seq<UInt16> {
    if fills == [] then []
    else
      var last := fills[|fills| - 1];
      Shown(fills[..|fills| - 1], u, v) + if last.Paints(u, v) then [last.color] else []
  }

  lemma ShownMore(fills: seq<Fill>, f: Fill, u: int, v: int)
    ensures Shown(fills + [f], u, v) == Shown(fills, u, v) + if f.Paints(u, v) then [f.color] else []
  {
    assert (fills + [f])[..|fills|] == fills;
  }

  lemma {:induction false} ShownJoin(a: seq<Fill>, b: seq<Fill>, u: int, v: int)
    ensures Shown(a + b, u, v) == Shown(a, u, v) + Shown(b, u, v)
  {
    if b == [] {
      assert a + b == a;
    } else {
      var n := |b| - 1;
      ShownJoin(a, b[..n], u, v);
      assert (a + b)[..|a + b| - 1] == a + b[..n];
    }
  }

  // ----- glyphs

  /** The classic font: five columns for each of 256 characters, the top pixel in the lowest bit. */
  type Font = f: seq<UInt8> | |f| == 1280 witness seq(1280, _ => 0)

  datatype Style = Style(sizeX: UInt8, sizeY: UInt8, wrap: bool, width: Int16, height: Int16,
                         color: UInt16, background: UInt16, cp437: bool) {
    /** setTextSize keeps sizes above zero. */
    predicate Valid() { sizeX > 0 && sizeY > 0 }
  }

  /** Codes from 176 on are one off in the font unless the true code page is asked for. */
  function FontIndex(cp437: bool, c: UInt8): UInt8 {
    if !cp437 && c >= 176 then (c + 1) % 256 else c
  }

  function ShiftRight(line: UInt8, n: nat): UInt8 {
    if n == 0 then line else ShiftRight(line, n - 1) / 2
  }

  /** Whether row j of column i of a glyph is set. */
  predicate Ink(font: Font, index: UInt8, i: int, j: int) {
    0 <= i < 5 && 0 <= j < 8 && ShiftRight(font[index * 5 + i], j) % 2 == 1
  }

  datatype Spot = Spot(x: int, y: int)

  predicate Visible(st: Style, p: Spot) {
    p.x < st.width && p.y < st.height && p.x + 6 * st.sizeX - 1 >= 0 && p.y + 8 * st.sizeY - 1 >= 0
  }

  /** What drawing c at p paints on (u, v): the cell is 6 by 8 dots of the text size, ink in the foreground,
      the rest in the background unless both colours are the same. */
  function GlyphAt(st: Style, font: Font, p: Spot, c: UInt8, u: int, v: int): seq<UInt16>
    requires st.Valid()
  {
    var i, j := (u - p.x) / st.sizeX, (v - p.y) / st.sizeY;
    if !Visible(st, p) || !(0 <= i < 6 && 0 <= j < 8) then []
    else if Ink(font, FontIndex(st.cp437, c), i, j) then [st.color]
    else if st.background != st.color then [st.background]
    else []
  }

  /** One dot of a cell is the rectangle of points whose quotients are its column and row. */
  lemma DotIs(st: Style, p: Spot, i: int, j: int, color: UInt16, u: int, v: int)
    requires st.Valid()
    ensures Fill(p.x + i * st.sizeX, p.y + j * st.sizeY, st.sizeX, st.sizeY, color).Paints(u, v)
       <==> (u - p.x) / st.sizeX == i && (v - p.y) / st.sizeY == j
  {
    QuotientIff(u - p.x, st.sizeX, i);
    QuotientIff(v - p.y, st.sizeY, j);
  }

  lemma QuotientIff(n: int, d: int, k: int)
    requires d > 0
    ensures k * d <= n < k * d + d <==> n / d == k
  {
    if k * d <= n < k * d + d {
      QuotientIs(n, d, k);
    } else {
      DivisionRest(n, d);
    }
  }

  lemma LastColumnIs(st: Style, p: Spot, color: UInt16, u: int, v: int)
    requires st.Valid()
    ensures Fill(p.x + 5 * st.sizeX, p.y, st.sizeX, 8 * st.sizeY, color).Paints(u, v)
       <==> (u - p.x) / st.sizeX == 5 && 0 <= (v - p.y) / st.sizeY < 8
  {
    QuotientIff(u - p.x, st.sizeX, 5);
    QuotientBelow(v - p.y, st.sizeY, 8);
  }

  lemma QuotientBelow(n: int, d: int, k: nat)
    requires d > 0
    ensures 0 <= n < k * d <==> 0 <= n / d < k
  {
    DivisionRest(n, d);
    var q := n / d;
    MulMono(k, q, d);
    MulMono(q + 1, k, d);
    MulMono(0, q, d);
    MulMono(q + 1, 0, d);
  }

  function PowerOfTwo(j: nat): (p: nat)
    ensures p > 0
  {
    if j == 0 then 1 else 2 * PowerOfTwo(j - 1)
  }

  /** Whether bit j of a font byte is set. */
  predicate FontBit(b: UInt8, j: nat) { b / PowerOfTwo(j) % 2 == 1 }

  lemma {:induction false} ShiftIs(b: UInt8, j: nat)
    ensures ShiftRight(b, j) == b / PowerOfTwo(j)
  {
    if j > 0 {
      ShiftIs(b, j - 1);
      HalfQuotient(b, PowerOfTwo(j - 1));
    }
  }

  lemma HalfQuotient(n: nat, d: nat)
    requires d > 0
    ensures n / d / 2 == n / (2 * d)
  {
    var q := n / d / 2;
    DivisionRest(n, d);
    MulMono(2 * q, n / d, d);
    MulMono(n / d, 2 * q + 1, d);
    assert 2 * q * d == q * (2 * d) && (2 * q + 1) * d == q * (2 * d) + d;
    QuotientIs(n, 2 * d, q);
  }

  /** A point of the screen under dot (i, j) of the cell at p shows bit j of column i of the glyph, the sixth column being
      empty. Without the true code page the codes from 176 show the glyph behind their own. */
  lemma DotOnScreen(st: Style, font: Font, p: Spot, c: UInt8, i: int, j: int, u: int, v: int)
    requires st.Valid() && 0 <= u < st.width && 0 <= v < st.height && 0 <= i < 6 && 0 <= j < 8
    requires i * st.sizeX <= u - p.x < i * st.sizeX + st.sizeX && j * st.sizeY <= v - p.y < j * st.sizeY + st.sizeY
    ensures var glyph := if st.cp437 || c < 176 then c else if c < 255 then c as int + 1 else 0;
            GlyphAt(st, font, p, c, u, v)
            == if i < 5 && FontBit(font[glyph * 5 + i], j) then [st.color]
               else if st.background != st.color then [st.background] else []
  {
    hide ShiftRight, PowerOfTwo;
    QuotientIs(u - p.x, st.sizeX, i);
    QuotientIs(v - p.y, st.sizeY, j);
    MulMono(i, 5, st.sizeX);
    MulMono(0, i, st.sizeX);
    MulMono(j, 7, st.sizeY);
    MulMono(0, j, st.sizeY);
    if i < 5 {
      ShiftIs(font[FontIndex(st.cp437, c) * 5 + i], j);
    }
  }

  /** And a point outside the cell is left alone. */
  lemma OutsideCell(st: Style, font: Font, p: Spot, c: UInt8, u: int, v: int)
    requires st.Valid() && !(p.x <= u < p.x + 6 * st.sizeX && p.y <= v < p.y + 8 * st.sizeY)
    ensures GlyphAt(st, font, p, c, u, v) == []
  {
    hide Ink;
    QuotientBelow(u - p.x, st.sizeX, 6);
    QuotientBelow(v - p.y, st.sizeY, 8);
  }

  // ----- the cursor

  const NEWLINE: UInt8 := 10
  const RETURN: UInt8 := 13

  predicate Printed(c: UInt8) { c != NEWLINE && c != RETURN }

  function NextLine(st: Style, at: Spot): Spot { Spot(0, at.y + st.sizeY * 8) }

  /** Where a printed character goes: the next line when it would cross the right edge. */
  function Placed(st: Style, at: Spot): Spot {
    if st.wrap && at.x + st.sizeX * 6 > st.width then NextLine(st, at) else at
  }

  function Moved(st: Style, at: Spot, c: UInt8): Spot {
    if c == NEWLINE then NextLine(st, at)
    else if c == RETURN then at
    else Spot(Placed(st, at).x + st.sizeX * 6, Placed(st, at).y)
  }

  function MovedAll(st: Style, at: Spot, s: seq<UInt8>): Spot
    decreases |s|
  {
    if s == [] then at else MovedAll(st, Moved(st, at, s[0]), s[1..])
  }

  /** The upper left corners of the printed characters. */
  function Cells(st: Style, at: Spot, s: seq<UInt8>): seq<Spot>
    decreases |s|
  {
    if s == [] then []
    else (if Printed(s[0]) then [Placed(st, at)] else []) + Cells(st, Moved(st, at, s[0]), s[1..])
  }

  /** What printing c from `at` paints on (u, v). */
  function CharAt(st: Style, font: Font, at: Spot, c: UInt8, u: int, v: int): seq<UInt16>
    requires st.Valid()
  {
    if Printed(c) then GlyphAt(st, font, Placed(st, at), c, u, v) else []
  }

  /** What printing s from `at` paints on (u, v). */
  function TextAt(st: Style, font: Font, at: Spot, s: seq<UInt8>, u: int, v: int): seq<UInt16>
    requires st.Valid()
    decreases |s|
  {
    if s == [] then [] else CharAt(st, font, at, s[0], u, v) + TextAt(st, font, Moved(st, at, s[0]), s[1..], u, v)
  }

  /** The int16 coordinates of this step do not overflow. */
  predicate Fits(st: Style, at: Spot, c: UInt8) {
    && -0x8000 < at.x <= 0x7FFF && -0x8000 < at.y <= 0x7FFF
    && Moved(st, at, c).x <= 0x7FFF && Moved(st, at, c).y <= 0x7FFF
    && (Printed(c) ==> Placed(st, at).y + st.sizeY * 8 <= 0x8000)
  }

  predicate FitsAll(st: Style, at: Spot, s: seq<UInt8>)
    decreases |s|
  {
    && -0x8000 < at.x <= 0x7FFF && -0x8000 < at.y <= 0x7FFF
    && (s != [] ==> Fits(st, at, s[0]) && FitsAll(st, Moved(st, at, s[0]), s[1..]))
  }

  // ----- the screen

  class Printer {
    const font: Font
    const style: Style
    var cursorX: Int16
    var cursorY: Int16
    var painted: seq<Fill>

    ghost function Cursor(): Spot
      reads this
    {
      Spot(cursorX, cursorY)
    }

    constructor (font: Font, style: Style, x: Int16, y: Int16)
      ensures this.font == font && this.style == style && Cursor() == Spot(x, y) && painted == []
    {
      this.font, this.style := font, style;
      cursorX, cursorY, painted := x, y, [];
    }

    /** A dot of the text size; pixels and rectangles are written by different device calls. */
    method WriteDot(x: Int16, y: Int16, color: UInt16)
      modifies this`painted
      ensures painted == old(painted) + [Fill(x, y, style.sizeX, style.sizeY, color)]
    {
      if style.sizeX == 1 && style.sizeY == 1 {
        painted := painted + [Fill(x, y, 1, 1, color)];
      } else {
        painted := painted + [Fill(x, y, style.sizeX, style.sizeY, color)];
      }
    }

    /** Drawing a character paints each pixel of its cell at most once, as GlyphAt says. */
    method DrawChar(x: Int16, y: Int16, code: UInt8)
      requires style.Valid() && x + 6 * style.sizeX <= 0x8000 && y + 8 * style.sizeY <= 0x8000
      modifies this`painted
      ensures forall u, v :: Shown(painted, u, v)
                          == Shown(old(painted), u, v) + GlyphAt(style, font, Spot(x, y), code, u, v)
    {
      hide Shown, GlyphAt, DotsShown, DotAt, Ink;
      var p := Spot(x, y);
      var color, background := style.color, style.background;
      if x >= style.width || y >= style.height || x + 6 * style.sizeX - 1 < 0 || y + 8 * style.sizeY - 1 < 0 {
        NothingShown(style, font, p, code);
        return;
      }
      var c := code;
      if !style.cp437 && c >= 176 {
        c := (c as int + 1) % 256;
      }
      ghost var before := painted;
      NoDots(before, style, font, p, c);
      for i := 0 to 5
        modifies this`painted
        invariant DotsShown(painted, before, style, font, p, c, i, 0)
      {
        DrawColumn(x, y, c, i, before);
        NextColumn(painted, before, style, font, p, c, i);
      }
      ghost var was := painted;
      if background != color {
        if style.sizeX == 1 && style.sizeY == 1 {
          painted := painted + [Fill(x + 5, y, 1, 8, background)];
        } else {
          painted := painted + [Fill(x + 5 * style.sizeX, y, style.sizeX, 8 * style.sizeY, background)];
        }
      }
      LastColumn(was, painted, before, style, font, p, code, c);
    }

    /** The eight dots of column i of a glyph. */
    method DrawColumn(x: Int16, y: Int16, c: UInt8, i: nat, ghost before: seq<Fill>)
      requires style.Valid() && x + 6 * style.sizeX <= 0x8000 && y + 8 * style.sizeY <= 0x8000 && i < 5
      requires DotsShown(painted, before, style, font, Spot(x, y), c, i, 0)
      modifies this`painted
      ensures DotsShown(painted, before, style, font, Spot(x, y), c, i, 8)
    {
      hide Shown, GlyphAt, DotsShown, DotAt, Ink;
      var color, background := style.color, style.background;
      var line := font[c * 5 + i];
      for j := 0 to 8
        modifies this`painted
        invariant line == ShiftRight(font[c * 5 + i], j)
        invariant DotsShown(painted, before, style, font, Spot(x, y), c, i, j)
      {
        DotInRange(x, style.sizeX, i, 5);
        DotInRange(y, style.sizeY, j, 8);
        ghost var was := painted;
        if line % 2 == 1 {
          WriteDot(x + i * style.sizeX, y + j * style.sizeY, color);
        } else if background != color {
          WriteDot(x + i * style.sizeX, y + j * style.sizeY, background);
        }
        OneDot(was, painted, before, style, font, Spot(x, y), c, i, j);
        line := line / 2;
      }
    }

    /** Writing one character: the cursor moves, and what the character paints is painted. */
    method Write(c: UInt8)
      requires style.Valid() && Fits(style, Cursor(), c)
      modifies this`cursorX, this`cursorY, this`painted
      ensures Cursor() == Moved(style, old(Cursor()), c)
      ensures c == 10 ==> cursorX == 0 && cursorY == old(cursorY) + 8 * style.sizeY && painted == old(painted)
      ensures c == 13 ==> cursorX == old(cursorX) && cursorY == old(cursorY) && painted == old(painted)
      ensures c != 10 && c != 13 ==>
        if style.wrap && old(cursorX) + 6 * style.sizeX > style.width
        then cursorX == 6 * style.sizeX && cursorY == old(cursorY) + 8 * style.sizeY
        else cursorX == old(cursorX) + 6 * style.sizeX && cursorY == old(cursorY)
      ensures forall u, v :: Shown(painted, u, v)
                          == Shown(old(painted), u, v) + CharAt(style, font, old(Cursor()), c, u, v)
    {
      hide Shown, GlyphAt;
      if c == NEWLINE {
        cursorX := 0;
        cursorY := cursorY + style.sizeY * 8;
      } else if c != RETURN {
        if style.wrap && cursorX + style.sizeX * 6 > style.width {
          cursorX := 0;
          cursorY := cursorY + style.sizeY * 8;
        }
        DrawChar(cursorX, cursorY, c);
        cursorX := cursorX + style.sizeX * 6;
      }
    }

    /** Printing a string character by character. */
    method Print(s: seq<UInt8>)
      requires style.Valid() && FitsAll(style, Cursor(), s)
      modifies this`cursorX, this`cursorY, this`painted
      ensures Cursor() == MovedAll(style, old(Cursor()), s)
      ensures forall u, v :: Shown(painted, u, v)
                          == Shown(old(painted), u, v) + TextAt(style, font, old(Cursor()), s, u, v)
    {
      hide Shown, CharAt, Fits, Moved;
      assert s[0..] == s;
      for i := 0 to |s|
        modifies this`cursorX, this`cursorY, this`painted
        invariant FitsAll(style, Cursor(), s[i..])
        invariant MovedAll(style, Cursor(), s[i..]) == MovedAll(style, old(Cursor()), s)
        invariant forall u, v :: Shown(painted, u, v) + TextAt(style, font, Cursor(), s[i..], u, v)
                              == Shown(old(painted), u, v) + TextAt(style, font, old(Cursor()), s, u, v)
      {
        ghost var at, was := Cursor(), painted;
        TextSteps(style, font, at, s, i);
        Write(s[i]);
      }
    }

    /** The cursor after one character, and the box grown by its cell. Nothing is drawn. */
    method CharBounds(c: UInt8, x: Int16, y: Int16, box: Box) returns (nx: Int16, ny: Int16, grown: Box)
      requires style.Valid() && Fits(style, Spot(x, y), c) && box.InRange()
      ensures Spot(nx, ny) == Moved(style, Spot(x, y), c)
      ensures grown.InRange() && grown == if Printed(c) then Grown(style, box, Placed(style, Spot(x, y))) else box
    {
      nx, ny, grown := x, y, box;
      if c == NEWLINE {
        nx := 0;
        ny := ny + style.sizeY * 8;
      } else if c != RETURN {
        if style.wrap && nx + style.sizeX * 6 > style.width {
          nx := 0;
          ny := ny + style.sizeY * 8;
        }
        var x2 := nx + style.sizeX * 6 - 1;
        var y2 := ny + style.sizeY * 8 - 1;
        if x2 > grown.maxX {
          grown := grown.(maxX := x2);
        }
        if y2 > grown.maxY {
          grown := grown.(maxY := y2);
        }
        if nx < grown.minX {
          grown := grown.(minX := nx);
        }
        if ny < grown.minY {
          grown := grown.(minY := ny);
        }
        nx := nx + style.sizeX * 6;
      }
    }

    /** The rectangle of a string printed from (x, y). */
    method GetTextBounds(s: seq<UInt8>, x: Int16, y: Int16) returns (x1: Int16, y1: Int16, w: UInt16, h: UInt16)
      requires style.Valid() && FitsAll(style, Spot(x, y), s)
      ensures Bounds(style, Spot(x, y), s, x1, y1, w, h)
    {
      hide Fits, Moved, Placed, Printed, Cells, Fitting, Bounds, Grown, FitsAll;
      var cx, cy, box := x, y, Box(0x7FFF, 0x7FFF, -1, -1);
      ghost var cells: seq<Spot> := [];
      assert s[0..] == s && cells + Cells(style, Spot(x, y), s) == Cells(style, Spot(x, y), s);
      FittingNone(style, box);
      for i := 0 to |s|
        invariant FitsAll(style, Spot(cx, cy), s[i..])
        invariant cells + Cells(style, Spot(cx, cy), s[i..]) == Cells(style, Spot(x, y), s)
        invariant box.InRange() && Fitting(style, box, cells)
      {
        ghost var at := Spot(cx, cy);
        CellSteps(style, at, s, i);
        Regroup(cells, at, Cells(style, Moved(style, at, s[i]), s[i + 1..]));
        if Printed(s[i]) {
          PlacedInRange(style, at, s[i]);
          FittingMore(style, box, cells, Placed(style, at));
          Regroup(cells, Placed(style, at), Cells(style, Moved(style, at, s[i]), s[i + 1..]));
          cells := cells + [Placed(style, at)];
        }
        cx, cy, box := CharBounds(s[i], cx, cy, box);
      }
      NoCells(style, Spot(cx, cy), s[|s|..], cells);
      BoundsOf(style, Spot(x, y), s, box);
      x1, y1, w, h := x, y, 0, 0;
      if box.maxX >= box.minX {
        x1 := box.minX;
        w := (box.maxX - box.minX + 1) % 0x1_0000;
      }
      if box.maxY >= box.minY {
        y1 := box.minY;
        h := (box.maxY - box.minY + 1) % 0x1_0000;
      }
    }
  }

  // ----- bounds

  datatype Box = Box(minX: int, minY: int, maxX: int, maxY: int) {
    predicate InRange() {
      && -0x8000 < minX <= 0x7FFF && -0x8000 < minY <= 0x7FFF
      && -1 <= maxX <= 0x7FFF && -1 <= maxY <= 0x7FFF
    }
  }

  function Grown(st: Style, box: Box, p: Spot): Box {
    Box(Min(box.minX, p.x), Min(box.minY, p.y),
        Max(box.maxX, p.x + st.sizeX * 6 - 1), Max(box.maxY, p.y + st.sizeY * 8 - 1))
  }

  /** The rectangle is the smallest one around all cells that ends at column and row -1 or later;
      for no cells it is the empty one at the start. */
  predicate Bounds(st: Style, at: Spot, s: seq<UInt8>, x1: int, y1: int, w: nat, h: nat) {
    var cells := Cells(st, at, s);
    if cells == [] then x1 == at.x && y1 == at.y && w == 0 && h == 0
    else Around(st, cells, x1, y1, x1 + w - 1, y1 + h - 1) && Tight(st, cells, x1, y1, x1 + w - 1, y1 + h - 1)
  }

  predicate Around(st: Style, cells: seq<Spot>, left: int, top: int, right: int, bottom: int) {
    forall k :: 0 <= k < |cells| ==>
      && left <= cells[k].x && cells[k].x + st.sizeX * 6 - 1 <= right
      && top <= cells[k].y && cells[k].y + st.sizeY * 8 - 1 <= bottom
  }

  predicate Tight(st: Style, cells: seq<Spot>, left: int, top: int, right: int, bottom: int) {
    && right >= -1 && bottom >= -1
    && (exists k :: 0 <= k < |cells| && cells[k].x == left)
    && (exists k :: 0 <= k < |cells| && cells[k].y == top)
    && (right == -1 || exists k :: 0 <= k < |cells| && cells[k].x + st.sizeX * 6 - 1 == right)
    && (bottom == -1 || exists k :: 0 <= k < |cells| && cells[k].y + st.sizeY * 8 - 1 == bottom)
  }

  /** The box of the cells so far: the inverted one at first. */
  predicate Fitting(st: Style, box: Box, cells: seq<Spot>) {
    && (cells == [] ==> box == Box(0x7FFF, 0x7FFF, -1, -1))
    && (cells != [] ==> Around(st, cells, box.minX, box.minY, box.maxX, box.maxY)
                        && Tight(st, cells, box.minX, box.minY, box.maxX, box.maxY))
  }

  lemma NothingShown(st: Style, font: Font, p: Spot, c: UInt8)
    requires st.Valid() && !Visible(st, p)
    ensures forall u, v :: GlyphAt(st, font, p, c, u, v) == []
  {}

  /** The dots of a glyph before row j of column i. */
  function DotAt(st: Style, font: Font, p: Spot, index: UInt8, i: int, j: int, u: int, v: int): seq<UInt16>
    requires st.Valid()
  {
    var a, b := (u - p.x) / st.sizeX, (v - p.y) / st.sizeY;
    if !(0 <= a < 5 && 0 <= b < 8 && (a < i || (a == i && b < j))) then []
    else if Ink(font, index, a, b) then [st.color]
    else if st.background != st.color then [st.background]
    else []
  }

  ghost predicate DotsShown(fills: seq<Fill>, before: seq<Fill>, st: Style, font: Font, p: Spot, index: UInt8,
                            i: int, j: int)
    requires st.Valid()
  {
    forall u, v :: Shown(fills, u, v) == Shown(before, u, v) + DotAt(st, font, p, index, i, j, u, v)
  }

  lemma NoDots(fills: seq<Fill>, st: Style, font: Font, p: Spot, index: UInt8)
    requires st.Valid()
    ensures DotsShown(fills, fills, st, font, p, index, 0, 0)
  {}

  lemma NextColumn(fills: seq<Fill>, before: seq<Fill>, st: Style, font: Font, p: Spot, index: UInt8, i: int)
    requires st.Valid() && DotsShown(fills, before, st, font, p, index, i, 8)
    ensures DotsShown(fills, before, st, font, p, index, i + 1, 0)
  {
    forall u, v ensures DotAt(st, font, p, index, i, 8, u, v) == DotAt(st, font, p, index, i + 1, 0, u, v) {}
  }

  lemma OneDot(was: seq<Fill>, fills: seq<Fill>, before: seq<Fill>, st: Style, font: Font, p: Spot, index: UInt8,
               i: nat, j: nat)
    requires st.Valid() && i < 5 && j < 8 && DotsShown(was, before, st, font, p, index, i, j)
    requires var at := (p.x + i * st.sizeX, p.y + j * st.sizeY);
      fills == if ShiftRight(font[index * 5 + i], j) % 2 == 1 then was + [Fill(at.0, at.1, st.sizeX, st.sizeY, st.color)]
               else if st.background != st.color then was + [Fill(at.0, at.1, st.sizeX, st.sizeY, st.background)]
               else was
    ensures DotsShown(fills, before, st, font, p, index, i, j + 1)
  {
    hide Shown, ShiftRight;
    forall u, v ensures Shown(fills, u, v) == Shown(before, u, v) + DotAt(st, font, p, index, i, j + 1, u, v) {
      DotIs(st, p, i, j, st.color, u, v);
      DotIs(st, p, i, j, st.background, u, v);
      if fills != was {
        ShownMore(was, fills[|was|], u, v);
      }
    }
  }

  lemma LastColumn(was: seq<Fill>, fills: seq<Fill>, before: seq<Fill>, st: Style, font: Font, p: Spot,
                   code: UInt8, index: UInt8)
    requires st.Valid() && Visible(st, p) && index == FontIndex(st.cp437, code)
    requires DotsShown(was, before, st, font, p, index, 5, 0)
    requires fills == if st.background != st.color
                      then was + [Fill(p.x + 5 * st.sizeX, p.y, st.sizeX, 8 * st.sizeY, st.background)] else was
    ensures forall u, v :: Shown(fills, u, v) == Shown(before, u, v) + GlyphAt(st, font, p, code, u, v)
  {
    hide Shown, ShiftRight, FontIndex;
    forall u, v ensures Shown(fills, u, v) == Shown(before, u, v) + GlyphAt(st, font, p, code, u, v) {
      LastColumnIs(st, p, st.background, u, v);
      if fills != was {
        ShownMore(was, fills[|was|], u, v);
      }
    }
  }

  lemma DotInRange(x: int, size: UInt8, i: nat, n: nat)
    requires i < n && -0x8000 <= x && x + n * size <= 0x8000 && size > 0
    ensures -0x8000 <= x + i * size < 0x8000
  {
    MulMono(i + 1, n, size);
  }

  // ----- strings

  lemma TextSteps(st: Style, font: Font, at: Spot, s: seq<UInt8>, i: nat)
    requires st.Valid() && i < |s| && FitsAll(st, at, s[i..])
    ensures var next := Moved(st, at, s[i]);
      && Fits(st, at, s[i]) && FitsAll(st, next, s[i + 1..])
      && MovedAll(st, at, s[i..]) == MovedAll(st, next, s[i + 1..])
      && forall u, v :: TextAt(st, font, at, s[i..], u, v)
                     == CharAt(st, font, at, s[i], u, v) + TextAt(st, font, next, s[i + 1..], u, v)
  {
    hide CharAt, Fits, Moved;
    assert s[i..][0] == s[i] && s[i..][1..] == s[i + 1..];
  }

  lemma CellSteps(st: Style, at: Spot, s: seq<UInt8>, i: nat)
    requires i < |s| && FitsAll(st, at, s[i..])
    ensures Fits(st, at, s[i]) && FitsAll(st, Moved(st, at, s[i]), s[i + 1..])
    ensures Cells(st, at, s[i..])
         == (if Printed(s[i]) then [Placed(st, at)] else []) + Cells(st, Moved(st, at, s[i]), s[i + 1..])
  {
    hide Fits, Moved;
    assert s[i..][0] == s[i] && s[i..][1..] == s[i + 1..];
  }

  lemma PlacedInRange(st: Style, at: Spot, c: UInt8)
    requires Fits(st, at, c) && Printed(c)
    ensures Placed(st, at).x <= 0x7FFF && Placed(st, at).y <= 0x7FFF
  {}

  lemma Regroup(a: seq<Spot>, p: Spot, b: seq<Spot>)
    ensures a + ([p] + b) == (a + [p]) + b && a + ([] + b) == a + b
  {}

  lemma NoCells(st: Style, at: Spot, s: seq<UInt8>, cells: seq<Spot>)
    requires s == []
    ensures cells + Cells(st, at, s) == cells
  {}

  lemma FittingNone(st: Style, box: Box)
    requires box == Box(0x7FFF, 0x7FFF, -1, -1)
    ensures box.InRange() && Fitting(st, box, [])
  {}

  lemma FittingMore(st: Style, box: Box, cells: seq<Spot>, p: Spot)
    requires Fitting(st, box, cells) && p.x <= 0x7FFF && p.y <= 0x7FFF
    ensures Fitting(st, Grown(st, box, p), cells + [p])
  {
    var more, big, n := cells + [p], Grown(st, box, p), |cells|;
    assert more[n] == p;
    forall k | 0 <= k < |more|
      ensures big.minX <= more[k].x && more[k].x + st.sizeX * 6 - 1 <= big.maxX
      ensures big.minY <= more[k].y && more[k].y + st.sizeY * 8 - 1 <= big.maxY
    {
      assert k < n ==> more[k] == cells[k];
    }
    if cells != [] {
      var a :| 0 <= a < n && cells[a].x == box.minX;
      var b :| 0 <= b < n && cells[b].y == box.minY;
      assert more[a] == cells[a] && more[b] == cells[b];
      assert more[if p.x < box.minX then n else a].x == big.minX;
      assert more[if p.y < box.minY then n else b].y == big.minY;
      if box.maxX != -1 {
        var c :| 0 <= c < n && cells[c].x + st.sizeX * 6 - 1 == box.maxX;
        assert more[c] == cells[c];
      }
      if box.maxY != -1 {
        var d :| 0 <= d < n && cells[d].y + st.sizeY * 8 - 1 == box.maxY;
        assert more[d] == cells[d];
      }
    }
  }

  lemma BoundsOf(st: Style, at: Spot, s: seq<UInt8>, box: Box)
    requires st.Valid() && Fitting(st, box, Cells(st, at, s)) && box.InRange()
    ensures Cells(st, at, s) == [] <==> box.maxX < box.minX
    ensures Cells(st, at, s) == [] <==> box.maxY < box.minY
    ensures box.maxX >= box.minX && box.maxY >= box.minY ==>
      Bounds(st, at, s, box.minX, box.minY, box.maxX - box.minX + 1, box.maxY - box.minY + 1)
    ensures box.maxX < box.minX ==> Bounds(st, at, s, at.x, at.y, 0, 0)
  {
    hide Tight;
    var cells := Cells(st, at, s);
    if cells != [] {
      assert box.minX <= cells[0].x;
    }
  }

  /** The rectangle's right edge is the right edge of some cell if and only if some cell reaches column -1, and its
      bottom edge that of some cell if and only if some cell reaches row -1: otherwise it ends at -1. */
  lemma EdgesExact(st: Style, at: Spot, s: seq<UInt8>, x1: int, y1: int, w: nat, h: nat)
    requires st.Valid() && Bounds(st, at, s, x1, y1, w, h) && Cells(st, at, s) != []
    ensures var cells := Cells(st, at, s);
      && ((exists k :: 0 <= k < |cells| && cells[k].x + st.sizeX * 6 == x1 + w)
          <==> (exists k :: 0 <= k < |cells| && cells[k].x + st.sizeX * 6 - 1 >= -1))
      && ((exists k :: 0 <= k < |cells| && cells[k].y + st.sizeY * 8 == y1 + h)
          <==> (exists k :: 0 <= k < |cells| && cells[k].y + st.sizeY * 8 - 1 >= -1))
  {
    hide Cells;
    var cells := Cells(st, at, s);
    if c :| 0 <= c < |cells| && cells[c].x + st.sizeX * 6 - 1 >= -1 {
      assert cells[c].x + st.sizeX * 6 - 1 <= x1 + w - 1;
      var k :| 0 <= k < |cells| && (x1 + w - 1 == -1 || cells[k].x + st.sizeX * 6 - 1 == x1 + w - 1);
      assert cells[if x1 + w - 1 == -1 then c else k].x + st.sizeX * 6 == x1 + w;
    }
    if d :| 0 <= d < |cells| && cells[d].y + st.sizeY * 8 - 1 >= -1 {
      assert cells[d].y + st.sizeY * 8 - 1 <= y1 + h - 1;
      var k :| 0 <= k < |cells| && (y1 + h - 1 == -1 || cells[k].y + st.sizeY * 8 - 1 == y1 + h - 1);
      assert cells[if y1 + h - 1 == -1 then d else k].y + st.sizeY * 8 == y1 + h;
    }
  }

  /** There is only one such rectangle. */
  lemma BoundsUnique(st: Style, at: Spot, s: seq<UInt8>, x1: int, y1: int, w: nat, h: nat,
                     x2: int, y2: int, v: nat, g: nat)
    requires Bounds(st, at, s, x1, y1, w, h) && Bounds(st, at, s, x2, y2, v, g)
    ensures (x1, y1, w, h) == (x2, y2, v, g)
  {
    hide Cells;
    var cells := Cells(st, at, s);
    if cells != [] {
      TightWithin(st, cells, x1, y1, x1 + w - 1, y1 + h - 1, x2, y2, x2 + v - 1, y2 + g - 1);
      TightWithin(st, cells, x2, y2, x2 + v - 1, y2 + g - 1, x1, y1, x1 + w - 1, y1 + h - 1);
    }
  }

  lemma TightWithin(st: Style, cells: seq<Spot>, left: int, top: int, right: int, bottom: int,
                    l: int, t: int, r: int, b: int)
    requires Tight(st, cells, left, top, right, bottom)
    requires Around(st, cells, l, t, r, b) && r >= -1 && b >= -1
    ensures l <= left && t <= top && right <= r && bottom <= b
  {}

  /** One character wholly off the screen: its cell is 6 by 8, its rectangle 20 by 20. */
  lemma OffScreenText(st: Style)
    requires st.sizeX == 1 && st.sizeY == 1 && !st.wrap
    ensures Cells(st, Spot(-20, -20), [65]) == [Spot(-20, -20)]
    ensures Bounds(st, Spot(-20, -20), [65], -20, -20, 20, 20)
    ensures !Bounds(st, Spot(-20, -20), [65], -20, -20, 6, 8)
  {
    var at, s: seq<UInt8> := Spot(-20, -20), [65];
    assert s[1..] == [];
    assert Cells(st, at, s) == [at] + Cells(st, Moved(st, at, 65), []);
    assert Cells(st, at, s)[0] == at;
  }

  /** Every pixel that printing paints lies in the rectangle that getTextBounds gives. */
  lemma {:induction false} TextInBounds(st: Style, font: Font, at: Spot, s: seq<UInt8>,
                                        x1: int, y1: int, w: nat, h: nat, u: int, v: int)
    requires st.Valid() && Bounds(st, at, s, x1, y1, w, h)
    requires TextAt(st, font, at, s, u, v) != []
    ensures x1 <= u < x1 + w && y1 <= v < y1 + h
  {
    hide GlyphAt, Tight;
    var k := PaintingCell(st, font, at, s, u, v);
  }

  predicate InCell(st: Style, p: Spot, u: int, v: int) {
    p.x <= u < p.x + st.sizeX * 6 && p.y <= v < p.y + st.sizeY * 8
  }

  /** A painted pixel lies in the cell of some printed character. */
  lemma {:induction false} PaintingCell(st: Style, font: Font, at: Spot, s: seq<UInt8>, u: int, v: int) returns (k: nat)
    requires st.Valid() && TextAt(st, font, at, s, u, v) != []
    ensures k < |Cells(st, at, s)| && InCell(st, Cells(st, at, s)[k], u, v)
    decreases |s|
  {
    hide GlyphAt, InCell;
    var rest := Cells(st, Moved(st, at, s[0]), s[1..]);
    if CharAt(st, font, at, s[0], u, v) != [] {
      k := 0;
      GlyphInCell(st, font, Placed(st, at), s[0], u, v);
    } else {
      k := PaintingCell(st, font, Moved(st, at, s[0]), s[1..], u, v);
      k := if Printed(s[0]) then k + 1 else k;
    }
  }

  lemma GlyphInCell(st: Style, font: Font, p: Spot, c: UInt8, u: int, v: int)
    requires st.Valid() && GlyphAt(st, font, p, c, u, v) != []
    ensures InCell(st, p, u, v)
  {
    hide Ink, FontIndex, Visible;
    QuotientBelow(u - p.x, st.sizeX, 6);
    QuotientBelow(v - p.y, st.sizeY, 8);
  }

  /** Later characters are to the right on the same line or on lower lines. */
  lemma {:induction false} LaterCells(st: Style, at: Spot, s: seq<UInt8>, k: nat)
    requires st.Valid() && k < |Cells(st, at, s)|
    ensures var p := Cells(st, at, s)[k]; (p.y == at.y && p.x >= at.x) || p.y >= at.y + st.sizeY * 8
    decreases |s|
  {
    if Printed(s[0]) && k == 0 {
    } else {
      LaterCells(st, Moved(st, at, s[0]), s[1..], if Printed(s[0]) then k - 1 else k);
    }
  }

  /** Printing paints no pixel twice. */
  lemma {:induction false} PaintedOnce(st: Style, font: Font, at: Spot, s: seq<UInt8>, u: int, v: int)
    requires st.Valid()
    ensures |TextAt(st, font, at, s, u, v)| <= 1
    decreases |s|
  {
    hide GlyphAt;
    if s != [] {
      var next := Moved(st, at, s[0]);
      PaintedOnce(st, font, next, s[1..], u, v);
      GlyphOnce(st, font, Placed(st, at), s[0], u, v);
      if CharAt(st, font, at, s[0], u, v) != [] && TextAt(st, font, next, s[1..], u, v) != [] {
        GlyphInCell(st, font, Placed(st, at), s[0], u, v);
        var k := PaintingCell(st, font, next, s[1..], u, v);
        LaterCells(st, next, s[1..], k);
        assert false;
      }
    }
  }

  lemma GlyphOnce(st: Style, font: Font, p: Spot, c: UInt8, u: int, v: int)
    requires st.Valid()
    ensures |GlyphAt(st, font, p, c, u, v)| <= 1
  {}
}
