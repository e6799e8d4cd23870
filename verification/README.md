# Fast routines of an Arduino library bundle, and what they mean

The libraries modelled here do fast, stateful work that has a slow and obvious meaning. Each module states
that meaning on its own and proves that the code computes it.

- **Raster engine and packed frame buffers.** `MachineInts`, `Arithmetic`, `ByteBits` (masks and single bits),
  `PixelRuns` (drawing a run of pixels one after the other) and `Rotation` (the four screen rotations) are shared.
  `Ssd1306` is the page-packed buffer of the OLED driver, `Canvas1` the 1-bit canvas: their line routines, which
  rotate, clip and write masked bytes, leave the buffer that one `drawPixel` call per pixel leaves. `Lines`,
  `Circles` and `Triangles` prove the integer walks of Adafruit_GFX against exact definitions: the rounded line,
  the rounded circle, the disc and rounded box painted exactly once, the closed triangle. `Text` prints with the
  classic font and shows that the measured rectangle contains, and fits, what is painted.
- **SPI-TFT fills and pixel writes by DMA.** `Spitft` has the fill cache, the descriptor chains that an engine
  follows, and the two-buffer loop of `writePixels` running against an engine that progresses at any time.
- **uIP sockets.** `SocketQueues` says what each change of the slot arrays does to the two byte streams of a
  socket; `UipClient` is the socket itself, with user calls and network callbacks interleaved in any way.
  Its `Valid()` carries the conservation laws: bytes returned and bytes queued are the bytes received, bytes
  acknowledged and bytes queued are the bytes written, in order, and what is unacknowledged is the first block;
  until `stop()` throws the input away, or the connection ends and the output with it. Each segment on the network is
  the part of the written stream at the first unacknowledged byte, and what the blocks do not hold of the pool's memory
  is free.
- **DNS.** `Dns` writes a query and `DnsReply` reads the reply, against the encoding of RFC 1035, section 4.1.
- **Bits and dividers.** `SoftSpi` is the bit-banged SPI transfer, `Pdb` the divider search of the ADC's
  programmable delay block and its read-back.

Code that changes objects in place is modelled by classes with the same fields; each method's contract gives its
new state as a function of the old one, and lemmas say what that function means. C's truncating division is
`Arithmetic.Quot`. Integer widths are subset types, so every stored value is shown to be in range.

Where the code and what is expected of it part, the exact condition is proved:

- The generic vertical and horizontal lines draw what is asked for if and only if the length is at least 1
  (`Lines.FastVLineExact`, `Lines.FastHLineExact`). The SSD1306 and canvas lines do not have this trait.
- An SSD1306 line of a negative length that reaches beyond -32768 at the panel's edge wraps and is drawn
  (`Ssd1306.RunawayShows`); canvas lines do so when they wrap onto the canvas (`Canvas1.WrappedRowShows`,
  `Canvas1.WrappedColumnShows`). All other int16 arguments give the line asked for.
- A canvas buffer is as large as it has to be if and only if the sides fit int16 and the bytes fit 16 bits
  (`Canvas1.Canvas.constructor`).
- A negative radius, asked for or from a negative side, makes `fillRoundRect` paint a wider box
  (`Circles.FillRoundRect`).
- An end of a triangle's span lies outside the triangle if and only if its edge runs inwards and does not cross the
  scanline at a whole pixel; for a span of one pixel, both edges have to do so to the same side
  (`Triangles.SpanEndsExact`, with `Triangles.PaintedOutside` for an example). It is always less than one pixel
  outside (`Triangles.TriangleCovered`).
- The rectangle of a text ends at column -1 instead of a character's edge if and only if no character reaches that
  column, and likewise for rows (`Text.EdgesExact`, with `Text.OffScreenText` for an example).
- A closing connection with everything acknowledged closes if and only if it has no output block
  (`UipClient.Connection.SendOrClose`); a write of no bytes leaves one for good (`UipClient.EmptyWriteKeepsOpen`).
- A peer that was stopped is restarted by the callback after a read that frees a block (`UipClient.ReadResumes`). If it
  was stopped by a packet refused for want of memory with nothing queued, no read frees a block and it stays stopped
  (`UipClient.RefusedPeerStaysStopped`).
- `availableForWrite()` promises more than a write takes by what the last block lacks in size and by the blocks that the
  pool cannot serve (`UipClient.Connection.AvailableForWrite`); once a single partly filled block has been sent it
  promises too much (`UipClient.WriteWhatIsAvailable`).
- Bit-banged SPI reaches a device in modes 0, 1 and 2 and not in mode 3, where each bit comes one rise of the clock late
  (`SoftSpi.SpiDevice.Transfer`): the first transfer never does (`SoftSpi.BeginAndTransfer`), a later one if and only if
  all bits are alike and MOSI already has their level (`SoftSpi.LateBytes`).
- A name survives encoding if and only if its labels have 1 to 63 bytes (`Dns.NameRoundTrip`).
- A PDB frequency reads back exactly if and only if what the divisions leave over is less than the divisor
  (`Pdb.ReadBackExact`). So a scaled one does on every board (`Pdb.ScaledExact`, `Pdb.FastBusMisses`), and an
  unscaled one need not (`Pdb.UnscaledExact`, `Pdb.AudioRateMisses`). It is never off by a whole count.

Sums that the C++ code compares without storing them are taken in an int of more than 16 bits.

Verify with `dafny verify dfyconfig.toml`.

## Model

| member | source | states |
|---|---|---|
| Ssd1306.Display.DrawFastHLine | libraries/Adafruit_SSD1306/Adafruit_SSD1306.cpp:699-729 | for all int16 arguments, rotations and colours: the buffer that one drawPixel per pixel of the line leaves, except for a negative length that wraps at the panel's edge, for which the stray line is given; for a positive length also which pixels of the panel are painted, by the rotation field |
| Ssd1306.Display.DrawFastVLine | libraries/Adafruit_SSD1306/Adafruit_SSD1306.cpp:799-829 | the same for vertical lines, including the premask byte, the whole bytes and the postmask byte of the unrotated column, and which pixels of the panel are painted, by the rotation field |
| Ssd1306.Display.DrawFastHLineInternal | libraries/Adafruit_SSD1306/Adafruit_SSD1306.cpp:748-781 | for all int16 arguments: clipping and the row loop are a pixel-by-pixel run along the physical row, or the stray line when the clipped length wraps; no byte outside the buffer is touched |
| Ssd1306.Display.DrawFastVLineInternal | libraries/Adafruit_SSD1306/Adafruit_SSD1306.cpp:847-941 | for all int16 arguments: clipping and the three byte phases are a pixel-by-pixel run down the physical column, or the stray line when the clipped length wraps |
| Ssd1306.Display.FillColumn | libraries/Adafruit_SSD1306/Adafruit_SSD1306.cpp:858-939 | the premask byte, cut when the line ends inside it, and what follows, as a run of h pixels |
| Ssd1306.Display.FillAlignedColumn | libraries/Adafruit_SSD1306/Adafruit_SSD1306.cpp:893-938 | whole bytes and the postmask byte extend a run from a page boundary to its end |
| Ssd1306.Display.FirstMask | libraries/Adafruit_SSD1306/Adafruit_SSD1306.cpp:865-877 | the premask is the high bits of the byte, cut at the end of a short line |
| Ssd1306.Display.WritePixel | libraries/Adafruit_SSD1306/Adafruit_SSD1306.cpp:641-670 | exactly one pixel of the panel is set, cleared or inverted, which one by the rotation field: bit py % 8 of the byte in column px of page py / 8; nothing when off screen |
| Ssd1306.Display.ReadPixel | libraries/Adafruit_SSD1306/Adafruit_SSD1306.cpp:954-974 | which bit of the buffer is read in each rotation: the one that drawPixel at the same place writes; false off screen |
| Ssd1306.DrawThenGet | libraries/Adafruit_SSD1306/Adafruit_SSD1306.cpp:641-974 | a drawn pixel reads back set, cleared or inverted, and every other pixel of the screen as before, in any rotation |
| Ssd1306.RowThenGet | libraries/Adafruit_SSD1306/Adafruit_SSD1306.cpp:699-729 | a horizontal line changes exactly the on-screen pixels of the line, each once (so INVERSE flips each once) |
| Ssd1306.ColumnThenGet | libraries/Adafruit_SSD1306/Adafruit_SSD1306.cpp:799-829 | a vertical line changes exactly the on-screen pixels of the line, each once |
| Ssd1306.RowIsOnPanel | libraries/Adafruit_SSD1306/Adafruit_SSD1306.cpp:699-729 | where on the panel the pixels of a horizontal line lie in each rotation, read off the bits of the buffer |
| Ssd1306.ColumnIsOnPanel | libraries/Adafruit_SSD1306/Adafruit_SSD1306.cpp:799-829 | the same for vertical lines |
| Ssd1306.RowFromOrigin | libraries/Adafruit_SSD1306/Adafruit_SSD1306.cpp:701-722 | a line from (0, 0) runs along the top edge from the left, down the right edge, along the bottom edge from the right, or up the left edge, for rotations 0, 1, 2 and 3 |
| Ssd1306.RowLands | libraries/Adafruit_SSD1306/Adafruit_SSD1306.cpp:701-728 | a horizontal line on the rotated screen is the row or column of the panel that the switch hands on |
| Ssd1306.ColumnLands | libraries/Adafruit_SSD1306/Adafruit_SSD1306.cpp:801-828 | a vertical line on the rotated screen is the row or column of the panel that the switch hands on |
| Ssd1306.StoredRow | libraries/Adafruit_SSD1306/Adafruit_SSD1306.cpp:701-728 | a horizontal line is the span that int16 variables hold, because a coordinate that wraps is off the panel before and after |
| Ssd1306.StoredColumn | libraries/Adafruit_SSD1306/Adafruit_SSD1306.cpp:801-828 | a vertical line is the span that int16 variables hold, because a coordinate that wraps is off the panel before and after |
| Ssd1306.RunawayShows | libraries/Adafruit_SSD1306/Adafruit_SSD1306.cpp:751-759 | a stray line is wrong: drawn in INVERSE on a row or column of the panel it changes the buffer, while a negative length asks for nothing |
| Ssd1306.ByteIsRun | libraries/Adafruit_SSD1306/Adafruit_SSD1306.cpp:879-889 | one masked byte write equals drawing its pixels one by one |
| Ssd1306.PutsCommute | libraries/Adafruit_SSD1306/Adafruit_SSD1306.cpp:656-668 | drawing two pixels in either order gives the same buffer, also when they share a byte |
| Canvas1.Canvas.DrawFastVLine | libraries/Adafruit_GFX_Library/Adafruit_GFX.cpp:1904-1949 | for all int16 arguments, signed lengths and rotations: the buffer that one drawPixel per pixel of the line leaves, unless the length or the first pixel wraps onto the canvas; then what is drawn instead; where the pixels lie on the canvas is stated by the rotation field |
| Canvas1.Canvas.DrawFastHLine | libraries/Adafruit_GFX_Library/Adafruit_GFX.cpp:1960-2004 | for all int16 arguments, signed lengths and rotations: the buffer that one drawPixel per pixel of the line leaves, unless the length or the first pixel wraps onto the canvas; then what is drawn instead; where the pixels lie on the canvas is stated by the rotation field |
| Canvas1.RowNormalised | libraries/Adafruit_GFX_Library/Adafruit_GFX.cpp:1962-1969 | turning a negative length round loses and adds no pixel, unless it wraps onto the canvas |
| Canvas1.ColumnNormalised | libraries/Adafruit_GFX_Library/Adafruit_GFX.cpp:1907-1914 | turning a negative length round loses and adds no pixel, unless it wraps onto the canvas |
| Canvas1.WrappedRowShows | libraries/Adafruit_GFX_Library/Adafruit_GFX.cpp:1962-1969 | a horizontal line that wraps onto the canvas leaves a pixel other than the line asked for, unless it had that colour before |
| Canvas1.WrappedColumnShows | libraries/Adafruit_GFX_Library/Adafruit_GFX.cpp:1907-1914 | a vertical line that wraps onto the canvas leaves a pixel other than the line asked for, unless it had that colour before |
| Canvas1.Canvas.constructor | libraries/Adafruit_GFX_Library/Adafruit_GFX.cpp:1763-1768 | the buffer holds the canvas if and only if both sides fit int16 and the bytes fit uint16, and is cut off otherwise |
| Canvas1.Canvas.DrawFastRawVLine | libraries/Adafruit_GFX_Library/Adafruit_GFX.cpp:2015-2042 | the strided loop is a pixel-by-pixel run down the raw column |
| Canvas1.Canvas.DrawFastRawHLine | libraries/Adafruit_GFX_Library/Adafruit_GFX.cpp:2053-2107 | start mask, whole bytes and end mask are a pixel-by-pixel run along the raw row |
| Canvas1.Canvas.WritePixel | libraries/Adafruit_GFX_Library/Adafruit_GFX.cpp:1788-1824 | exactly one pixel of the canvas is set or cleared, which one by the rotation field: bit 7 - px % 8 of byte px / 8 of row py; nothing when off canvas |
| Canvas1.Canvas.ReadPixel | libraries/Adafruit_GFX_Library/Adafruit_GFX.cpp:1835-1854 | which bit of the buffer is read in each rotation: the one that drawPixel at the same place writes, for all int16 arguments |
| Canvas1.Canvas.ReadRawPixel | libraries/Adafruit_GFX_Library/Adafruit_GFX.cpp:1867-1880 | the bit at a raw position, false off the canvas |
| Canvas1.Canvas.DrawBitmap | libraries/Adafruit_GFX_Library/Adafruit_GFX.cpp:817-834 | drawing the set bits in one colour and the clear bits in another, at any offset and rotation, is one pixel write per bit of the bitmap; sizes that are not positive draw nothing |
| Canvas1.BitmapThenGet | libraries/Adafruit_GFX_Library/Adafruit_GFX.cpp:817-834 | after drawBitmap every pixel of the overlap has the colour its bit asks for and every other pixel is unchanged |
| Canvas1.CanvasCopied | libraries/Adafruit_GFX_Library/Adafruit_GFX.cpp:817-834 | round trip: drawing one canvas's buffer on another with colours 1 and 0 makes them agree on the overlap |
| Canvas1.ShiftedByteIsPixel | libraries/Adafruit_GFX_Library/Adafruit_GFX.cpp:823-828 | the byte shifted left once per column has at its top the bit that direct indexing finds |
| Canvas1.DrawThenGet | libraries/Adafruit_GFX_Library/Adafruit_GFX.cpp:1788-1854 | a drawn pixel reads back as drawn, every other pixel as before |
| Canvas1.RowThenGet | libraries/Adafruit_GFX_Library/Adafruit_GFX.cpp:1960-2004 | a horizontal line of signed length changes exactly its pixels that are on the canvas |
| Canvas1.ColumnThenGet | libraries/Adafruit_GFX_Library/Adafruit_GFX.cpp:1904-1949 | a vertical line of signed length changes exactly its pixels that are on the canvas |
| Canvas1.RowIsOnCanvas | libraries/Adafruit_GFX_Library/Adafruit_GFX.cpp:1960-2004 | where on the canvas the pixels of a horizontal line lie in each rotation, read off the bits of the buffer |
| Canvas1.ColumnIsOnCanvas | libraries/Adafruit_GFX_Library/Adafruit_GFX.cpp:1904-1949 | the same for vertical lines |
| Canvas1.RowLands | libraries/Adafruit_GFX_Library/Adafruit_GFX.cpp:1960-2004 | normalising a negative length, clipping and rotating loses and adds no pixel |
| Canvas1.ColumnLands | libraries/Adafruit_GFX_Library/Adafruit_GFX.cpp:1904-1949 | normalising a negative length, clipping and rotating loses and adds no pixel |
| Canvas1.ByteIsRun | libraries/Adafruit_GFX_Library/Adafruit_GFX.cpp:2060-2106 | one masked byte write equals drawing its pixels one by one |
| Lines.WriteLine | libraries/Adafruit_GFX_Library/Adafruit_GFX.cpp:132-173 | the integer error loop yields the ideal line: pixel i is the exact position rounded to the nearest pixel across |
| Lines.LineEnds | libraries/Adafruit_GFX_Library/Adafruit_GFX.cpp:132-173 | a line has max(dx, dy) + 1 pixels and its first and last are the two ends |
| Lines.WithinHalfAPixel | libraries/Adafruit_GFX_Library/Adafruit_GFX.cpp:132-173 | every pixel is the exact position rounded, a half towards the start: -dx <= 2 (k dx - i dy) < dx |
| Lines.LineExact | libraries/Adafruit_GFX_Library/Adafruit_GFX.cpp:132-173 | pixel i of a line from p to q is i steps along the longer axis and the rounded part of the way across, in all eight directions together with LineIsSymmetric |
| Lines.LineSteps | libraries/Adafruit_GFX_Library/Adafruit_GFX.cpp:132-173 | each pixel is one step along the longer axis and none or one across from the one before |
| Lines.LineIsSymmetric | libraries/Adafruit_GFX_Library/Adafruit_GFX.cpp:132-173 | swapping the end points gives the same pixels in the same order |
| Lines.ErrorStep | libraries/Adafruit_GFX_Library/Adafruit_GFX.cpp:152-172 | the invariant of the error term is kept by both branches of the loop |
| Lines.TrackStep | libraries/Adafruit_GFX_Library/Adafruit_GFX.cpp:152-172 | one pass of the loop draws the ideal pixel and keeps the error term |
| Lines.FastVLineExact | libraries/Adafruit_GFX_Library/Adafruit_GFX.cpp:265-270 | the generic drawFastVLine draws the h pixels asked for if and only if h is at least 1; otherwise it draws 2 - h pixels |
| Lines.FastHLineExact | libraries/Adafruit_GFX_Library/Adafruit_GFX.cpp:282-287 | the generic drawFastHLine draws the w pixels asked for if and only if w is at least 1; otherwise it draws 2 - w pixels |
| Lines.DrawFastVLine | libraries/Adafruit_GFX_Library/Adafruit_GFX.cpp:265-270 | the line that FastVLineExact is about |
| Lines.DrawFastHLine | libraries/Adafruit_GFX_Library/Adafruit_GFX.cpp:282-287 | the line that FastHLineExact is about |
| Lines.DrawLine | libraries/Adafruit_GFX_Library/Adafruit_GFX.cpp:330-346 | the straight-line shortcuts draw what the general line would |
| Circles.DrawCircle | libraries/Adafruit_GFX_Library/Adafruit_GFX.cpp:357-394 | the pixels written are exactly those whose larger offset is the rounded root of r squared minus the smaller offset squared; no int16 store overflows for r up to 16383 |
| Circles.OctantStep | libraries/Adafruit_GFX_Library/Adafruit_GFX.cpp:369-381 | f = (x+1)^2 + y^2 - y - r^2 and abs(x^2 + y^2 - r^2) <= y hold at every loop head |
| Circles.OctantInRange | libraries/Adafruit_GFX_Library/Adafruit_GFX.cpp:359-363 | f and the offsets fit int16 for every radius up to 16383 |
| Circles.OctantColumn | libraries/Adafruit_GFX_Library/Adafruit_GFX.cpp:382-391 | each step draws the only circle pixels of its column and their mirror images |
| Circles.OctantComplete | libraries/Adafruit_GFX_Library/Adafruit_GFX.cpp:369-393 | no circle pixel is left when the loop ends |
| Circles.FillCircle | libraries/Adafruit_GFX_Library/Adafruit_GFX.cpp:452-458 | every pixel of the disc is painted exactly once and no other pixel is; a negative radius is one vertical line of a height that is not positive, which paints nothing on devices that take it so, while the generic line of Lines.FastVLineExact goes upwards |
| Circles.FillCircleHelper | libraries/Adafruit_GFX_Library/Adafruit_GFX.cpp:471-511 | each column of the halves asked for is drawn exactly once, stretched by delta; the lowest bit of corners asks for the right half and the next one for the left half |
| Circles.UpperColumn | libraries/Adafruit_GFX_Library/Adafruit_GFX.cpp:496-501 | the column drawn at the loop's x reaches exactly the disc's rows |
| Circles.OuterColumn | libraries/Adafruit_GFX_Library/Adafruit_GFX.cpp:502-508 | the column drawn when y has stepped reaches exactly the disc's rows |
| Circles.PassColumns | libraries/Adafruit_GFX_Library/Adafruit_GFX.cpp:485-510 | one pass of the loop adds columns that were not drawn before, and skips none |
| Circles.FillRect | libraries/Adafruit_GFX_Library/Adafruit_GFX.cpp:300-307 | each pixel of the box is painted exactly once |
| Circles.FillRoundRect | libraries/Adafruit_GFX_Library/Adafruit_GFX.cpp:574-586 | each pixel of the rounded box is painted exactly once and no other pixel is, its radius being the largest up to the one asked for with 2 r <= w and 2 r <= h; a negative radius, also from a negative side, gives a plain box widened by it |
| Circles.LargestIsClamped | libraries/Adafruit_GFX_Library/Adafruit_GFX.cpp:575-577 | half the shorter side is the largest radius with which two corners fit on each side |
| Circles.RoundRectParts | libraries/Adafruit_GFX_Library/Adafruit_GFX.cpp:574-586 | the centre rectangle and the two helper calls overlap nowhere and leave no gap |
| Circles.RoundRectInBox | libraries/Adafruit_GFX_Library/Adafruit_GFX.cpp:574-586 | the rounded box stays inside the w by h box |
| Circles.CircleInDisc | libraries/Adafruit_GFX_Library/Adafruit_GFX.cpp:357-511 | every pixel of drawCircle is a pixel of fillCircle with the same radius |
| Circles.CircleIsRim | libraries/Adafruit_GFX_Library/Adafruit_GFX.cpp:357-511 | drawCircle's pixels are the disc pixels whose outer neighbour is not in the disc |
| Triangles.FillTriangle | libraries/Adafruit_GFX_Library/Adafruit_GFX.cpp:619-701 | the incremental sums give the longhand spans for every vertex order; no division by zero and no overflow is reached |
| Triangles.SortedByY | libraries/Adafruit_GFX_Library/Adafruit_GFX.cpp:624-636 | the three swaps sort the vertices by y and lose none |
| Triangles.CrossBetween | libraries/Adafruit_GFX_Library/Adafruit_GFX.cpp:676-678 | a truncated crossing stays between the ends of its edge |
| Triangles.OneSpanPerScanline | libraries/Adafruit_GFX_Library/Adafruit_GFX.cpp:619-701 | every scanline from the top vertex to the bottom one has exactly one span, inside the x range of the vertices |
| Triangles.TriangleCovered | libraries/Adafruit_GFX_Library/Adafruit_GFX.cpp:619-701 | every lattice point of the closed triangle is painted, and every painted point is less than one pixel from the triangle on its scanline |
| Triangles.SpanEndsExact | libraries/Adafruit_GFX_Library/Adafruit_GFX.cpp:669-699 | for every scanline exactly when the two ends of the span lie in the closed triangle: an end is outside if and only if its edge runs inwards with a remainder, a single pixel if and only if both edges run the same way with remainders |
| Triangles.SpanInTriangle | libraries/Adafruit_GFX_Library/Adafruit_GFX.cpp:669-699 | a scanline paints only points of the closed triangle if and only if its two ends are such points |
| Triangles.PaintedOutside | libraries/Adafruit_GFX_Library/Adafruit_GFX.cpp:669-699 | (0, 1) is painted for the triangle (0, 0), (1, 2), (5, 2) and lies outside it |
| Triangles.CrossExact | libraries/Adafruit_GFX_Library/Adafruit_GFX.cpp:670-671 | a truncated crossing lies on its edge or on a given side of it, exactly by the direction of the run and the remainder |
| Triangles.VerticesPainted | libraries/Adafruit_GFX_Library/Adafruit_GFX.cpp:619-701 | all three vertices are painted |
| Triangles.NextProduct | libraries/Adafruit_GFX_Library/Adafruit_GFX.cpp:669-677 | the running int32 sums equal the products of the longhand formula and do not overflow |
| Text.Printer.DrawChar | libraries/Adafruit_GFX_Library/Adafruit_GFX.cpp:1134-1173 | every pixel of the 6 by 8 cell is painted once in its glyph's colour, or not at all where it is clipped or transparent; no other pixel is painted |
| Text.DotOnScreen | libraries/Adafruit_GFX_Library/Adafruit_GFX.cpp:1134-1173 | every point of the screen under a cell shows the font bit of its dot; codes from 176 show the next glyph unless the true code page is set |
| Text.OutsideCell | libraries/Adafruit_GFX_Library/Adafruit_GFX.cpp:1134-1173 | no point outside the 6 by 8 cell is painted |
| Text.Printer.Write | libraries/Adafruit_GFX_Library/Adafruit_GFX.cpp:1242-1256 | a newline goes to the start of the next line, a return does nothing, any other character paints its cell where the wrap rule puts it and moves six dots on |
| Text.Printer.Print | libraries/Adafruit_GFX_Library/Adafruit_GFX.cpp:1242-1256 | a whole string: final cursor, and for every pixel the colours painted on it in order |
| Text.Printer.CharBounds | libraries/Adafruit_GFX_Library/Adafruit_GFX.cpp:1409-1433 | the simulated cursor moves exactly as write moves the real one, and the box grows by the cell of a printed character only |
| Text.Printer.GetTextBounds | libraries/Adafruit_GFX_Library/Adafruit_GFX.cpp:1448-1474 | the smallest rectangle around all printed cells among those that end at column and row -1 or later; empty, at the start, when nothing is printed |
| Text.EdgesExact | libraries/Adafruit_GFX_Library/Adafruit_GFX.cpp:1448-1474 | the right edge is the right edge of a cell if and only if some cell reaches column -1, and the bottom edge that of a cell if and only if some cell reaches row -1 |
| Text.BoundsUnique | libraries/Adafruit_GFX_Library/Adafruit_GFX.cpp:1448-1474 | the contract of getTextBounds admits one rectangle only |
| Text.OffScreenText | libraries/Adafruit_GFX_Library/Adafruit_GFX.cpp:1448-1474 | one character at (-20, -20) has a cell of 6 by 8 and a rectangle of 20 by 20 |
| Text.TextInBounds | libraries/Adafruit_GFX_Library/Adafruit_GFX.cpp:1134-1474 | every pixel that printing paints lies in the rectangle of getTextBounds, for every string, wrap setting, size and start |
| Text.PaintedOnce | libraries/Adafruit_GFX_Library/Adafruit_GFX.cpp:1134-1256 | printing a string paints no pixel twice |
| Text.LaterCells | libraries/Adafruit_GFX_Library/Adafruit_GFX.cpp:1242-1256 | later characters go to the right on the same line or a full line lower |
| Text.FittingMore | libraries/Adafruit_GFX_Library/Adafruit_GFX.cpp:1420-1430 | the four comparisons keep the box tight around the cells so far, from the inverted start box on |
| Text.OneDot | libraries/Adafruit_GFX_Library/Adafruit_GFX.cpp:1149-1166 | one pass of the bit loop adds exactly one dot's pixels in the right colour |
| Spitft.SpiTft.constructor | libraries/Adafruit_GFX_Library/Adafruit_SPITFT.cpp:662-675 | buffers for two scanlines rounded to even, and descriptors that cover the whole screen: two or more if and only if both sides have three pixels; the cache starts coherent |
| Spitft.SpiTft.WriteColor | libraries/Adafruit_GFX_Library/Adafruit_SPITFT.cpp:1193-1375 | whatever the cache held, exactly len copies of the colour go out, high byte first, and the cache stays coherent: each pixel is color / 256 and then color % 256 |
| Spitft.SpiTft.FillCache | libraries/Adafruit_GFX_Library/Adafruit_SPITFT.cpp:1274-1294 | afterwards the buffer holds enough byte-swapped pixels of the colour, although only missing ones are written, two at a time |
| Spitft.SpiTft.ChainOnePixel | libraries/Adafruit_GFX_Library/Adafruit_SPITFT.cpp:1252-1267 | the one-byte chain fits the descriptor list and sends len pixels |
| Spitft.SpiTft.ChainFill | libraries/Adafruit_GFX_Library/Adafruit_SPITFT.cpp:1296-1305 | the chain over the filled part of the buffer fits the descriptor list and sends len pixels |
| Spitft.ChainSendsAll | libraries/Adafruit_GFX_Library/Adafruit_SPITFT.cpp:1296-1312 | an engine that follows the links sends every transfer of the list once, in order |
| Spitft.FillTransfer | libraries/Adafruit_GFX_Library/Adafruit_SPITFT.cpp:1296-1303 | one transfer from a filled buffer is that many pixels of the colour, source end address and count in bytes |
| Spitft.FewerGroups | libraries/Adafruit_GFX_Library/Adafruit_SPITFT.cpp:671-675 | never more descriptors are needed than were allocated |
| Spitft.GroupsCover | libraries/Adafruit_GFX_Library/Adafruit_SPITFT.cpp:1296-1305 | the rounded-up group count is where the running length reaches zero |
| Spitft.SpiTft.WritePixels | libraries/Adafruit_GFX_Library/Adafruit_SPITFT.cpp:1042-1117 | for every way the engine progresses meanwhile: the pixels go out byte-swapped, in order, each once, for any length; the fill cache is invalidated; each pixel is its value / 256 and then % 256 |
| Spitft.SpiTft.WriteChunk | libraries/Adafruit_GFX_Library/Adafruit_SPITFT.cpp:1042-1083 | the half being filled is never the half in flight, and the next one is started after the engine is idle |
| Spitft.SpiTft.SwapBytes | libraries/Adafruit_GFX_Library/Adafruit_SPITFT.cpp:962-968 | swapping into a half that is not in flight leaves the bytes in flight as they are |
| Spitft.SpiTft.Progress | libraries/Adafruit_GFX_Library/Adafruit_SPITFT.cpp:1053-1083 | the engine sends the bytes in flight in order, however it is scheduled |
| Spitft.SpiTft.WritePixelsBigEndian | libraries/Adafruit_GFX_Library/Adafruit_SPITFT.cpp:1084-1119 | big-endian pixels go out as they are in memory by one chain of transfers that fits the list, before the call returns or after it |
| Spitft.SpiTft.StartChain | libraries/Adafruit_GFX_Library/Adafruit_SPITFT.cpp:1307-1320 | an engine started on the first descriptor has exactly the transfers of the list to send |
| Spitft.BytesElsewhere | libraries/Adafruit_GFX_Library/Adafruit_SPITFT.cpp:1042-1083 | a write outside a byte range leaves that range as it was |
| Spitft.SwappedBytes | libraries/Adafruit_GFX_Library/Adafruit_SPITFT.cpp:962-968 | swapped pixels in a little-endian buffer are the pixels high byte first |
| UipClient.Connection.AppCall | libraries/UIPEthernet/UIPClient.cpp:415-573 | in every state: input is taken whole or not at all and exactly when a slot and room are free; an acknowledgement moves exactly the outstanding bytes out of the queue; when asked to send, a non-empty prefix of the queue becomes outstanding and those bytes go on the network, or nothing does for want of room; a retransmission sends the outstanding bytes; when the peer is stopped afterwards; a connection that ends drops its output and keeps its input |
| UipClient.Connection.Receive | libraries/UIPEthernet/UIPClient.cpp:445-476 | the peer is stopped afterwards if and only if no restart was asked for and it was stopped, or the packet took the fifth slot or was refused |
| UipClient.Connection.EndConnection | libraries/UIPEthernet/UIPClient.cpp:477-500 | the output queue is dropped, received bytes stay queued, and the socket is freed if and only if there are none |
| UipClient.Connection.TakeNewData | libraries/UIPEthernet/UIPClient.cpp:445-470 | a packet is queued behind all earlier input, or refused; the fifth packet and a refused one stop the peer |
| UipClient.Connection.TakeAck | libraries/UIPEthernet/UIPClient.cpp:501-508 | the acknowledged block is the outstanding segment, and it leaves the queue |
| UipClient.Connection.Send | libraries/UIPEthernet/UIPClient.cpp:514-538 | the first block, cut at out_pos when it is the only one, is a prefix of what is queued and goes on the network byte for byte if there is room for the packet; what was outstanding is sent again with the same bytes |
| UipClient.Connection.SendOrClose | libraries/UIPEthernet/UIPClient.cpp:509-564 | the callback closes the connection if and only if it is closing and has no output block, and then every written byte is acknowledged; a closing one that does not send is stopped; what is sent is as for Send |
| UipClient.EmptyWriteKeepsOpen | libraries/UIPEthernet/UIPClient.cpp:217-269 | after a write of no bytes and stop() everything is acknowledged and no number of polls closes the connection, because of the empty block |
| UipClient.Connection.Deliver | libraries/UIPEthernet/UIPClient.cpp:415-573 | any event that uIP may raise keeps both streams and does what it is for: data is taken, the outstanding bytes are acknowledged, a segment is sent, the connection ends, memory comes or goes |
| UipClient.Connection.Tick | libraries/UIPEthernet/UIPClient.cpp:210-211 | any number of events, in any order, keeps both streams and the pool; segments put on the network without an acknowledgement in between are all the same; as many acknowledgements as there are blocks leave nothing unacknowledged; an end among them leaves the connection unusable |
| UipClient.SentInStep | libraries/UIPEthernet/UIPClient.cpp:524-536 | each segment on the network is the part of the written stream at the first unacknowledged byte, and a segment with the same place is the same again |
| UipClient.AckedInStep | libraries/UIPEthernet/UIPClient.cpp:501-508 | after an acknowledgement later segments lie behind the acknowledged ones |
| UipClient.SameUntilAcked | libraries/UIPEthernet/UIPClient.cpp:501-536 | segments between two acknowledgements are all the same |
| UipClient.Connection.GoneHoldsNothing | libraries/UIPEthernet/UIPClient.cpp:118-152 | a socket that is gone has given all its pool memory back: what is free and what is held always add up |
| UipClient.Connection.Read | libraries/UIPEthernet/UIPClient.cpp:312-353 | returns the first min(size, queued) bytes of the input and leaves exactly the rest, -1 without a socket; nothing is lost or repeated by partial reads; a restart is asked for if and only if a whole block was read of a stopped open connection; a socket that outlived its connection goes with its last byte |
| UipClient.Connection.ReadQueued | libraries/UIPEthernet/UIPClient.cpp:322-349 | the loop over the blocks: the first block goes if and only if it is not longer than what is asked for |
| UipClient.ReadResumes | libraries/UIPEthernet/UIPClient.cpp:327-332 | after a read that frees a block of a stopped peer the next callback leaves it running |
| UipClient.RefusedPeerStaysStopped | libraries/UIPEthernet/UIPClient.cpp:451-476 | a packet refused for want of memory with nothing queued stops the peer for good, however often the user reads and uIP polls |
| UipClient.Connection.Available | libraries/UIPEthernet/UIPClient.cpp:298-310 | equals the number of bytes queued |
| UipClient.Connection.Write | libraries/UIPEthernet/UIPClient.cpp:199-273 | the bytes taken are a prefix of the buffer, appended in order, in every interleaving with callbacks; a first turn without events takes min(size, Spare) bytes, Spare being the rest of the last block and the blocks that free slots and pool allow, so a buffer that fits is written at once; all of it when the time never runs out and the connection stays; 0 is returned when it has closed or ended |
| UipClient.Connection.WriteSome | libraries/UIPEthernet/UIPClient.cpp:214-261 | one pass takes exactly min(size, Spare) bytes: fewer than all only when the slots are used up and the last block is full, or the pool has no room for another block |
| UipClient.Connection.AvailableForWrite | libraries/UIPEthernet/UIPClient.cpp:275-287 | by how much it exceeds what a write takes: what the last block lacks in size, and the blocks that the pool cannot serve |
| UipClient.Connection.CutBlockIsFull | libraries/UIPEthernet/UIPClient.cpp:517-523 | a single block that has been sent was cut and has no free byte left |
| UipClient.WriteWhatIsAvailable | libraries/UIPEthernet/UIPClient.cpp:199-287 | writing what availableForWrite() promises succeeds at once if and only if blocks and pool are as it reckons, and never after a single partly filled block has been sent |
| UipClient.Connection.WritePacket | libraries/UIPEthernet/UIPClient.cpp:246-248 | as many bytes as fit go behind the bytes written before |
| UipClient.Connection.NewOutBlock | libraries/UIPEthernet/UIPClient.cpp:217-228 | a new block is taken only when the last one is full |
| UipClient.Connection.Stop | libraries/UIPEthernet/UIPClient.cpp:118-152 | input is thrown away; a connection that has ended is freed and any other is left to close; acknowledgements during the last tick are taken |
| UipClient.Connection.Detach | libraries/UIPEthernet/UIPClient.cpp:124-150 | the output queue is left to be sent |
| UipClient.Connection.CurrentBlock | libraries/UIPEthernet/UIPClient.cpp:595-607 | finds the last occupied slot because occupied slots are a prefix |
| UipClient.Connection.EatBlock | libraries/UIPEthernet/UIPClient.cpp:609-641 | frees the first block, gives its memory back and keeps the others in order |
| UipClient.Connection.FlushBlocks | libraries/UIPEthernet/UIPClient.cpp:643-654 | frees every block of a queue, gives their memory back and empties its slots |
| SocketQueues.PushInEffect | libraries/UIPEthernet/UIPClient.cpp:451-463 | a stored packet is appended to the input and leaves the output alone |
| SocketQueues.PopInEffect | libraries/UIPEthernet/UIPClient.cpp:327-330 | eating an input block removes its bytes from the front |
| SocketQueues.DropInEffect | libraries/UIPEthernet/UIPClient.cpp:343-346 | resizing the first input block removes just the bytes read |
| SocketQueues.PushOutEffect | libraries/UIPEthernet/UIPClient.cpp:217-227 | a new output block adds no bytes to what is to be sent |
| SocketQueues.AppendEffect | libraries/UIPEthernet/UIPClient.cpp:246-248 | writing at out_pos appends to what is to be sent |
| SocketQueues.CutOutEffect | libraries/UIPEthernet/UIPClient.cpp:514-523 | cutting the only block at out_pos changes nothing of what is to be sent and makes it the whole block; doing it again changes nothing |
| SocketQueues.PopOutEffect | libraries/UIPEthernet/UIPClient.cpp:501-508 | eating the first output block removes exactly the segment that was sent from it |
| Dns.BuildRequest | libraries/UIPEthernet/Dns.cpp:187-264 | the query: the id as given, recursion desired, one question and nothing else by index, then the name split at its dots with empty parts dropped, type A, class IN |
| Dns.WriteParts | libraries/UIPEthernet/Dns.cpp:227-251 | the pointer walk writes one label per non-empty part, for every string |
| Dns.NameRoundTrip | libraries/UIPEthernet/Dns.cpp:227-255 | an encoded name decodes to its labels if and only if every label has 1 to 63 bytes |
| Dns.SampleName | libraries/UIPEthernet/Dns.cpp:227-255 | a.bc is written as 1 a 2 b c 0 |
| Dns.LongLabelLost | libraries/UIPEthernet/Dns.cpp:240-248 | a label of more than 63 bytes never decodes to itself |
| Dns.PartsAreParts | libraries/UIPEthernet/Dns.cpp:227-251 | parts are not empty and hold no dots |
| Dns.PartsJoin | libraries/UIPEthernet/Dns.cpp:227-251 | joining the parts of a host name with dots gives the name back |
| DnsReply.QueryIsQuestion | libraries/UIPEthernet/Dns.cpp:227-348 | what the query writes after its header is one question that the reader skips to the byte, well formed if and only if no part is longer than 63 bytes |
| DnsReply.ProcessResponse | libraries/UIPEthernet/Dns.cpp:267-434 | each refusal code exactly when it applies, by the packet's bytes: the truncation bit or an error code gives -5, the other flag bits do not matter; for every accepted well-formed reply the data of the first type A class IN record when it is 4 bytes long, -9 when it is not, -10 when there is none |
| DnsReply.AnswerToRequest | libraries/UIPEthernet/Dns.cpp:187-434 | request and reply: for every name with parts of at most 63 bytes the reply that echoes the question and adds one address record has the address read, whatever the opcode, authority and recursion bits are |
| DnsReply.FlagBits | libraries/UIPEthernet/Dns.cpp:290-308 | the masks of the flags word test the top bit and the truncation bit of byte 2 and the low four bits of byte 3 |
| DnsReply.Datagram.SkipQuestions | libraries/UIPEthernet/Dns.cpp:324-348 | exactly the questions are read, whatever their number |
| DnsReply.Datagram.SkipQuestionName | libraries/UIPEthernet/Dns.cpp:327-341 | exactly the name that the encoder writes is read, although the byte counter of the inner loop ends at 255 |
| DnsReply.Datagram.SkipAnswerName | libraries/UIPEthernet/Dns.cpp:357-389 | labels ended by a zero length or by a compression pointer are read to their end and no further |
| DnsReply.Datagram.FindAddress | libraries/UIPEthernet/Dns.cpp:355-427 | records of other types or classes are skipped to their end, any number of them |
| DnsReply.LookedAt | libraries/UIPEthernet/Dns.cpp:406-418 | what is returned is determined: there is only one first wanted record |
| DnsReply.HeaderAhead | libraries/UIPEthernet/Dns.cpp:293-325 | the counts read from the header are the numbers of questions and answers that follow |
| Pdb.AdcModule.StartPdb | libraries/ADC-master/ADC_Module.cpp:1460-1583 | refused frequencies change nothing but the clock gate; accepted ones are stored without truncation, stand for a frequency less than one count away, and for themselves exactly when the divisions leave less than the divisor |
| Pdb.Scale | libraries/ADC-master/ADC_Module.cpp:1474-1564 | the branch ladder ends in 32767..65534 whenever it scales, and divides by exactly the factor of the fields it chooses |
| Pdb.AdcModule.GetPdbFrequency | libraries/ADC-master/ADC_Module.cpp:1601-1609 | whatever the registers hold nothing overflows 32 bits or divides by zero, and the result is what they stand for |
| Pdb.ScFactorIs | libraries/ADC-master/ADC_Module.cpp:1601-1608 | the fields that are read are bits 12 to 14, a power of two, and bits 2 and 3, a factor of 1, 10, 20 or 40 |
| Pdb.ReadBackError | libraries/ADC-master/ADC_Module.cpp:1460-1609 | f <= g and (g - f) (MOD + 1) < f for the frequency g read back |
| Pdb.ReadBackExact | libraries/ADC-master/ADC_Module.cpp:1460-1609 | for every factor g = f if and only if f times the second remainder plus the first is below the divisor |
| Pdb.ScaledExact | libraries/ADC-master/ADC_Module.cpp:1460-1609 | g = f whenever scaling is used and the bus clock is below 2^31 Hz, as on every board |
| Pdb.FastBusMisses | libraries/ADC-master/ADC_Module.cpp:1460-1609 | whatever startPDB stores for 65000 Hz on a bus of 4259969999 Hz does not read back as 65000: the limit is needed |
| Pdb.UnscaledExact | libraries/ADC-master/ADC_Module.cpp:1460-1609 | without scaling g = f if and only if the remainder of bus / f is below the quotient |
| Pdb.AudioRateMisses | libraries/ADC-master/ADC_Module.cpp:1460-1609 | what startPDB stores for 44100 Hz on a bus of 60 MHz reads back as 44117 |
| Pdb.DivideTwice | libraries/ADC-master/ADC_Module.cpp:1559-1564 | shifting, dividing by ten and shifting again is one division by the factor |
| Pdb.FieldsReadBack | libraries/ADC-master/ADC_Module.cpp:1578-1605 | PRESCALER and MULT read back from SC whatever other bits are set |
| Pdb.NoOverflow | libraries/ADC-master/ADC_Module.cpp:1601-1608 | the divisor is positive and at most 335544320 |
| SoftSpi.SpiDevice.Transfer | libraries/Adafruit_BusIO/Adafruit_SPIDevice.cpp:131-263 | for any buffer and bit order: a device in mode 1 or 2, or in mode 0 with the clock low before, takes the original bytes bit by bit from MOSI, one in mode 3 each bit one rise late; each byte becomes the eight bits read, and with MISO wired to MOSI the buffer ends unchanged |
| SoftSpi.SpiDevice.TransferByte | libraries/Adafruit_BusIO/Adafruit_SPIDevice.cpp:162-261 | eight bit times, in which the byte is replaced in place without disturbing the bits still to be sent |
| SoftSpi.SpiDevice.TransferBit | libraries/Adafruit_BusIO/Adafruit_SPIDevice.cpp:175-257 | after skipping an unchanged level the pin still has the level of the bit; MOSI has the bit at the falling edge, and at the rising edge only in modes 0 and 2 |
| SoftSpi.SpiDevice.Begin | libraries/Adafruit_BusIO/Adafruit_SPIDevice.cpp:102-118 | the clock idles low in modes 0 and 1 and high in modes 2 and 3 |
| SoftSpi.BeginAndTransfer | libraries/Adafruit_BusIO/Adafruit_SPIDevice.cpp:92-263 | the first transfer after begin() reaches the device if and only if the mode is not 3 |
| SoftSpi.LateBytes | libraries/Adafruit_BusIO/Adafruit_SPIDevice.cpp:220-257 | in mode 3 later transfers are right if and only if all bytes are 0xFF with MOSI high or all are 0 with MOSI low |
| SoftSpi.OneLate | libraries/Adafruit_BusIO/Adafruit_SPIDevice.cpp:220-257 | a bit stream delayed by one bit is the stream itself only if all its bits are alike |
| SoftSpi.RisesJoin | libraries/Adafruit_BusIO/Adafruit_SPIDevice.cpp:171-261 | what rising edges see of two transfers in a row |
| SoftSpi.HoldsMore | libraries/Adafruit_BusIO/Adafruit_SPIDevice.cpp:201-210 | a bit read in is kept and disturbs no other bit of the reply |
| SoftSpi.MidwayStep | libraries/Adafruit_BusIO/Adafruit_SPIDevice.cpp:171-261 | one bit time keeps the relation between mask, sent bits, reply and wire |
| SoftSpi.StreamDetermines | libraries/Adafruit_BusIO/Adafruit_SPIDevice.cpp:153-263 | different buffers never give the same bit stream |
| SoftSpi.MaskSteps | libraries/Adafruit_BusIO/Adafruit_SPIDevice.cpp:171-172 | the shifted mask visits each of the eight bits once and is then zero |

## Left out

What the libraries do beyond the model:

- Hardware: ports, pins, delays, clocks, bus transactions, interrupts, the transfer of a buffer to a display. Time
  outs, network events and the progress of the DMA engine are parameters.
- Board variants chosen by `#if`, such as lookup tables against shifts; both give the same masks.
- ESP32, RP2040 and other branches of `writeColor` and `writePixels` without DMA, apart from short runs in
  `writeColor`.
- Fonts other than the classic one, whose glyphs of no size wrap in `charBounds` only; the font table itself is a
  parameter.
- Colours above 2 on the SSD1306, for which whole bytes are set and partial ones are left alone.
- Bitmaps in one colour, greyscale and 16-bit canvases, buttons.
- uIP and the ENC28J60 memory: they are given by their contracts. At most one segment is unacknowledged and polls
  come only when none is; allocation gives a fresh block when there is room for it and fails otherwise.
- The table of sockets, and the port that is kept in a socket that outlived its connection.
- DHCP, servers, UDP sockets, ESP8266 commands and floating-point filters.
- The PDB register fields are those of the Kinetis header, which is not part of the repository.

Contracts that ask or say less than the code might:

- Canvas1.Canvas.ReadPixel: a failed allocation of the buffer is not modelled.
- Canvas1.Canvas.DrawFastRawHLine: a line of no pixels has to lie on the canvas or start on a byte boundary, as its
  callers see to.
- Lines.WriteLine: the ends are such that no int16 difference or step wraps.
- Circles.DrawCircle: order and number of writes to a pixel are not stated; pixels on the diagonals and axes may be
  written more than once.
- Circles.FillRoundRect: no int16 value of the call wraps, which the code does not guard.
- Triangles.FillTriangle: the vertices are at most 32767 apart, so that no int16 difference wraps.
- Text.Printer.Print: positions stay within int16, which the code does not guard; the print loop of the Arduino core
  is taken to write one character after the other.
- Spitft.SpiTft.WriteColor: runs are at most the screen's size, for which the descriptor list was allocated.
- Spitft.SpiTft.WritePixels: starts from an idle engine, as a caller that waits does; a second call while the
  first is under way is not covered. More than one chunk needs a second descriptor, which every screen of at least
  three by three pixels has; on smaller ones the code writes past its list.
- Spitft.SpiTft.WritePixelsBigEndian: starts from an idle engine, and the pixels are left alone until they are sent.
- UipClient.Connection.AppCall: a block fits the peer's segment size, and events come as uIP's contract allows.
- UipClient.Connection.Write: the loop ends when the list of turns ends, as Waiting; the code goes on waiting.
- DnsReply.ProcessResponse: replies that pass the header checks have to be well formed; reading past the end of a
  truncated one is not modelled.
- SoftSpi.SpiDevice.Transfer: the buffer has at least one byte, because the code reads the first one even for a
  length of zero.
- SoftSpi.SpiDevice.TransferBit: the level of MISO in each bit time is given; at which edge a device sets it is not
  modelled.
- UipClient.Connection.AvailableForWrite: its call of tick() is a step of its own.
