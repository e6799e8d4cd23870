/** The DMA branches of Adafruit_SPITFT: writeColor's colour-run cache and descriptor chain, and
    writePixels' two buffers filled while the DMA engine empties the other. */
module Spitft {
  import opened MachineInts
  import opened Arithmetic

  function Hi(color: UInt16): UInt8 { color / 256 }

  function Lo(color: UInt16): UInt8 { color % 256 }

  /** __builtin_bswap16 */
  function Swap(color: UInt16): UInt16 { Lo(color) * 256 + Hi(color) }

  // ----- bytes on the bus

  /** Byte i of a little-endian array of 16-bit pixels. */
  function ByteAt(pixels: seq<UInt16>, i: nat): UInt8
    requires i < 2 * |pixels|
  {
    if i % 2 == 0 then Lo(pixels[i / 2]) else Hi(pixels[i / 2])
  }

  function Bytes(pixels: seq<UInt16>, from: nat, to: nat): seq<UInt8>
    requires from <= to <= 2 * |pixels|
  {
    seq<UInt8>(to - from, i requires 0 <= i < to - from => ByteAt(pixels, from + i))
  }

  /** What the display expects: each pixel's high byte first. */
  function BigEndian(pixels: seq<UInt16>): seq<UInt8> {
    seq<UInt8>(2 * |pixels|, i requires 0 <= i < 2 * |pixels| => if i % 2 == 0 then Hi(pixels[i / 2]) else Lo(pixels[i / 2]))
  }

  /** n pixels of one colour. */
  function Solid(color: UInt16, n: nat): seq<UInt8> {
    seq<UInt8>(2 * n, i requires 0 <= i => if i % 2 == 0 then Hi(color) else Lo(color))
  }

  /** The bytes after the first `before` are the pixels', each pixel's high byte first. */
  ghost predicate HighByteFirst(bytes: seq<UInt8>, before: nat, pixels: seq<UInt16>) {
    && |bytes| == before + 2 * |pixels|
    && forall k :: 0 <= k < |pixels| ==>
         bytes[before + 2 * k] == pixels[k] / 256 && bytes[before + 2 * k + 1] == pixels[k] % 256
  }

  lemma BigEndianIs(before: seq<UInt8>, pixels: seq<UInt16>)
    ensures HighByteFirst(before + BigEndian(pixels), |before|, pixels)
  {
    forall k | 0 <= k < |pixels|
      ensures BigEndian(pixels)[2 * k] == pixels[k] / 256 && BigEndian(pixels)[2 * k + 1] == pixels[k] % 256
    {
      assert (2 * k + 1) / 2 == k && (2 * k + 1) % 2 == 1;
    }
  }

  lemma SolidIs(before: seq<UInt8>, color: UInt16, n: nat)
    ensures HighByteFirst(before + Solid(color, n), |before|, seq(n, _ => color))
  {
    hide HighByteFirst;
    SolidIsBigEndian(color, n);
    BigEndianIs(before, seq(n, _ => color));
  }

  lemma SolidIsBigEndian(color: UInt16, n: nat)
    ensures Solid(color, n) == BigEndian(seq(n, _ => color))
  {}

  lemma SolidJoin(color: UInt16, m: nat, n: nat)
    ensures Solid(color, m) + Solid(color, n) == Solid(color, m + n)
  {}

  lemma SwappedBytes(buf: seq<UInt16>, at: nat, colors: seq<UInt16>)
    requires at + |colors| <= |buf| && forall k :: 0 <= k < |colors| ==> buf[at + k] == Swap(colors[k])
    ensures Bytes(buf, 2 * at, 2 * (at + |colors|)) == BigEndian(colors)
  {
    forall i | 0 <= i < 2 * |colors| ensures ByteAt(buf, 2 * at + i) == BigEndian(colors)[i] {
      assert (2 * at + i) / 2 == at + i / 2 && (2 * at + i) % 2 == i % 2;
    }
  }

  lemma BigEndianJoin(a: seq<UInt16>, b: seq<UInt16>)
    ensures BigEndian(a + b) == BigEndian(a) + BigEndian(b)
  {
    forall i | 0 <= i < 2 * |a + b| ensures BigEndian(a + b)[i] == (BigEndian(a) + BigEndian(b))[i] {
      if i >= 2 * |a| {
        assert (i - 2 * |a|) / 2 == i / 2 - |a| && (i - 2 * |a|) % 2 == i % 2;
      }
    }
  }

  // ----- DMA descriptors

  /** Where a transfer reads: one byte again and again, or the bytes that end at an offset of a buffer. */
  datatype Source = OnePixelBuf | FillBuffer(end: nat) | UserPixels(end: nat)

  /** SRCADDR with SRCINC, BTCNT and DESCADDR, 0 standing for the end of the chain. */
  datatype Descriptor = Descriptor(src: Source, count: UInt16, next: nat)

  /** The memory the engine reads. */
  datatype Memory = Memory(one: UInt8, fill: seq<UInt16>, user: seq<UInt16>)

  predicate Readable(d: Descriptor, mem: Memory) {
    match d.src
    case OnePixelBuf => true
    case FillBuffer(end) => d.count <= end <= 2 * |mem.fill|
    case UserPixels(end) => d.count <= end <= 2 * |mem.user|
  }

  /** The bytes of one transfer. A source that increments is given by its end, so reading starts count
      bytes before it. */
  function Transfer(d: Descriptor, mem: Memory): seq<UInt8>
    requires Readable(d, mem)
  {
    match d.src
    case OnePixelBuf => seq(d.count, _ => mem.one)
    case FillBuffer(end) => Bytes(mem.fill, end - d.count, end)
    case UserPixels(end) => Bytes(mem.user, end - d.count, end)
  }

  predicate AllReadable(list: seq<Descriptor>, mem: Memory) {
    forall d :: d in list ==> Readable(d, mem)
  }

  /** The bytes the engine sends when started on descriptor k: it follows next until that is 0. */
  function Chain(list: seq<Descriptor>, k: nat, mem: Memory): seq<UInt8>
    requires k < |list| && AllReadable(list, mem)
    decreases |list| - k
  {
    Transfer(list[k], mem) + if k < list[k].next < |list| then Chain(list, list[k].next, mem) else []
  }

  /** All transfers of a list in order. */
  function Transfers(list: seq<Descriptor>, mem: Memory): seq<UInt8>
    requires AllReadable(list, mem)
  {
    if list == [] then [] else Transfers(list[..|list| - 1], mem) + Transfer(list[|list| - 1], mem)
  }

  /** The first n descriptors form one chain: each names the next, and the last ends it. */
  predicate Linked(list: seq<Descriptor>, n: nat) {
    0 < n <= |list| && (forall d :: 0 <= d < n - 1 ==> list[d].next == d + 1) && list[n - 1].next == 0
  }

  lemma {:induction false} ChainFrom(list: seq<Descriptor>, n: nat, k: nat, mem: Memory)
    requires Linked(list, n) && k < n && AllReadable(list[..n], mem)
    ensures AllReadable(list[..n], mem)
    ensures Transfers(list[..k], mem) + Chain(list[..n], k, mem) == Transfers(list[..n], mem)
    decreases n - k
  {
    hide Transfer, Readable;
    PrefixReadable(list, k, n, mem);
    PrefixReadable(list, k + 1, n, mem);
    assert list[..k + 1][..k] == list[..k] && list[..n][k] == list[k];
    if k + 1 < n {
      ChainFrom(list, n, k + 1, mem);
    }
  }

  lemma PrefixReadable(list: seq<Descriptor>, k: nat, n: nat, mem: Memory)
    requires k <= n <= |list| && AllReadable(list[..n], mem)
    ensures AllReadable(list[..k], mem)
  {
    forall d | d in list[..k] ensures Readable(d, mem) {
      var i :| 0 <= i < k && list[i] == d;
      assert list[..n][i] == d;
    }
  }

  /** A linked list sends all its transfers, each once, in order. */
  lemma ChainSendsAll(list: seq<Descriptor>, n: nat, mem: Memory)
    requires Linked(list, n) && AllReadable(list[..n], mem)
    ensures Chain(list[..n], 0, mem) == Transfers(list[..n], mem)
  {
    ChainFrom(list, n, 0, mem);
    assert Transfers(list[..0], mem) == [];
  }

  lemma OneByteTransfer(color: UInt16, count: nat, mem: Memory)
    requires Hi(color) == Lo(color) == mem.one && 2 * count < 0x1_0000
    ensures Readable(Descriptor(OnePixelBuf, 2 * count, 0), mem)
    ensures Transfer(Descriptor(OnePixelBuf, 2 * count, 0), mem) == Solid(color, count)
  {}

  lemma NoTransfers(color: UInt16, mem: Memory)
    ensures AllReadable([], mem) && Transfers([], mem) == Solid(color, 0)
  {}

  lemma NothingSent(mem: Memory)
    ensures AllReadable([], mem) && Transfers([], mem) == Bytes(mem.user, 0, 0)
  {}

  lemma FillTransfer(color: UInt16, count: nat, mem: Memory)
    requires count <= |mem.fill| && 2 * count < 0x1_0000
    requires forall k :: 0 <= k < count ==> mem.fill[k] == Swap(color)
    ensures Readable(Descriptor(FillBuffer(2 * count), 2 * count, 0), mem)
    ensures Transfer(Descriptor(FillBuffer(2 * count), 2 * count, 0), mem) == Solid(color, count)
  {
    SwappedBytes(mem.fill, 0, seq(count, _ => color));
    SolidIsBigEndian(color, count);
  }

  lemma UserTransfer(mem: Memory, from: nat, count: nat)
    requires from + count <= |mem.user| && 2 * count < 0x1_0000
    ensures Readable(Descriptor(UserPixels(2 * (from + count)), 2 * count, 0), mem)
    ensures Transfer(Descriptor(UserPixels(2 * (from + count)), 2 * count, 0), mem)
         == Bytes(mem.user, 2 * from, 2 * (from + count))
  {}

  lemma BytesJoin(pixels: seq<UInt16>, a: nat, b: nat, c: nat)
    requires a <= b <= c <= 2 * |pixels|
    ensures Bytes(pixels, a, b) + Bytes(pixels, b, c) == Bytes(pixels, a, c)
  {}

  /** Adding a descriptor to a list adds its transfer; where it links to does not matter. */
  lemma OneMore(list: seq<Descriptor>, d: Descriptor, next: nat, mem: Memory)
    requires AllReadable(list, mem) && Readable(d, mem)
    ensures AllReadable(list + [d.(next := next)], mem)
    ensures Transfers(list + [d.(next := next)], mem) == Transfers(list, mem) + Transfer(d, mem)
  {
    var more := list + [d.(next := next)];
    assert more[..|list|] == list;
  }

  /** Ending the chain after its last descriptor changes no transfer. */
  lemma ChainEnded(list: seq<Descriptor>, mem: Memory)
    requires list != [] && AllReadable(list, mem)
    ensures AllReadable(list[|list| - 1 := list[|list| - 1].(next := 0)], mem)
    ensures Transfers(list[|list| - 1 := list[|list| - 1].(next := 0)], mem) == Transfers(list, mem)
  {
    var last := list[|list| - 1];
    var ended := list[|list| - 1 := last.(next := 0)];
    assert ended[..|list| - 1] == list[..|list| - 1];
    forall d | d in ended ensures Readable(d, mem) {
      assert d in list || d == last.(next := 0);
      assert last in list;
    }
  }

  /** Rounding up: n things in groups of size, and how many are left when d groups have been taken. */
  function Groups(n: nat, size: nat): nat
    requires size > 0
  {
    QuotientNotNegative(n + size - 1, size);
    (n + size - 1) / size
  }

  lemma GroupsCover(n: nat, size: nat, d: nat)
    requires size > 0
    ensures d < Groups(n, size) <==> d * size < n
  {
    DivisionRest(n + size - 1, size);
    MulMono(d + 1, Groups(n, size), size);
    MulMono(Groups(n, size), d, size);
    assert (d + 1) * size == d * size + size;
  }

  lemma FewerGroups(n: nat, size: nat, m: nat, smaller: nat)
    requires 0 < smaller <= size && n <= m
    ensures Groups(n, size) <= Groups(m, smaller)
  {
    var g := Groups(n, size);
    if g > 0 {
      GroupsCover(n, size, g - 1);
      MulMono(smaller, size, g - 1);
      assert smaller * (g - 1) == (g - 1) * smaller && size * (g - 1) == (g - 1) * size;
      GroupsCover(m, smaller, g - 1);
    }
  }

  class SpiTft {
    const screen: nat // WIDTH * HEIGHT
    const maxFillLen: UInt16
    const pixelBuf: array<UInt16> // pixelBuf[0] at offset 0, pixelBuf[1] at offset maxFillLen / 2
    const descriptor: array<Descriptor>
    var lastFillColor: UInt16
    var lastFillLen: UInt32
    var onePixelBuf: UInt8

    // The DMA engine: while it is busy, what a chain has still to read of memory that nobody changes meanwhile, and
    // bytes readAt..readEnd - 1 of pixelBuf, are still to be sent.
    var dmaBusy: bool
    var pending: seq<UInt8>
    var readAt: nat
    var readEnd: nat
    var sent: seq<UInt8>

    ghost predicate Sized()
      reads this
    {
      && 0 < maxFillLen <= 32767 && maxFillLen % 2 == 0
      && pixelBuf.Length == maxFillLen && descriptor.Length == Groups(screen, maxFillLen)
    }

    /** The cache describes the buffer: its first lastFillLen pixels are lastFillColor, byte-swapped. */
    ghost predicate Coherent()
      reads this, pixelBuf
    {
      && lastFillLen % 2 == 0 && lastFillLen <= pixelBuf.Length
      && forall k :: 0 <= k < lastFillLen ==> pixelBuf[k] == Swap(lastFillColor)
    }

    ghost predicate Valid()
      reads this, pixelBuf
    {
      Sized() && Coherent()
    }

    function Engine(user: seq<UInt16>): Memory
      reads this, pixelBuf
    {
      Memory(onePixelBuf, pixelBuf[..], user)
    }

    /** Two scanlines of the longer side, its length rounded up to even, and descriptors to cover the screen with
        them: more than one if and only if both sides have at least three pixels. */
    constructor (width: Int16, height: Int16)
      requires 0 < width && 0 < height && width <= 16382 && height <= 16382
      ensures maxFillLen == 2 * (Max(width, height) + Max(width, height) % 2)
      ensures descriptor.Length >= 1 && (descriptor.Length >= 2 <==> width >= 3 && height >= 3)
      ensures Valid() && EngineSane() && !dmaBusy && sent == [] && screen == width * height && fresh(pixelBuf) && fresh(descriptor)
    {
      var major := if width > height then width else height;
      major := major + major % 2;
      ProductPositive(width, height);
      HowManyDescriptors(width, height, major);
      var numDescriptors := (width * height + (major * 2 - 1)) / (major * 2);
      assert numDescriptors == Groups(width * height, major * 2);
      hide Groups;
      screen := width * height;
      maxFillLen := major * 2;
      pixelBuf := new UInt16[major * 2](_ => 0);
      descriptor := new Descriptor[numDescriptors](_ => Descriptor(OnePixelBuf, 0, 0));
      lastFillColor, lastFillLen, onePixelBuf := 0, 0, 0;
      dmaBusy, pending, readAt, readEnd, sent := false, [], 0, 0, [];
    }

    /** len pixels of one colour go out, whatever the cache held before, and the cache stays coherent. */
    method WriteColor(color: UInt16, len: UInt32)
      requires Valid() && !dmaBusy && len <= screen
      modifies this, pixelBuf, descriptor
      ensures Valid() && !dmaBusy && sent == old(sent) + Solid(color, len)
      ensures HighByteFirst(sent, old(|sent|), seq(len, _ => color))
    {
      hide Transfers, Chain, Transfer, Groups, Linked, HighByteFirst;
      SolidIs(sent, color, len);
      if len == 0 {
        assert sent + Solid(color, 0) == sent;
        return;
      }
      var hi, lo := Hi(color), Lo(color);
      if len >= 16 {
        if hi == lo {
          onePixelBuf := color % 256;
          var n := ChainOnePixel(color, len);
          StartChain(n, [], Solid(color, len));
          Wait();
        } else {
          FillCache(color, len);
          var n := ChainFill(color, len);
          StartChain(n, [], Solid(color, len));
          Wait();
        }
      } else {
        var left := len;
        while left > 0
          invariant 0 <= left <= len && Valid() && !dmaBusy
          invariant sent == old(sent) + Solid(color, len - left)
        {
          SolidJoin(color, len - left, 1);
          assert Solid(color, 1) == [hi, lo];
          sent := sent + [hi, lo];
          left := left - 1;
        }
      }
    }

    /** Bring the buffer up to min(len, maxFillLen) pixels of the colour, writing two at a time and only
        those that are not there already. */
    method FillCache(color: UInt16, len: UInt32)
      requires Valid() && Hi(color) != Lo(color)
      modifies this`lastFillColor, this`lastFillLen, pixelBuf
      ensures Valid() && lastFillColor == color
      ensures lastFillLen >= (if len < maxFillLen then len else maxFillLen)
    {
      var twoPixels := Swap(color);
      var fillEnd := ((if len < maxFillLen then len else maxFillLen) + 1) / 2;
      if color == lastFillColor {
        if len > lastFillLen {
          FillPairs(lastFillLen / 2, fillEnd, twoPixels);
          lastFillLen := fillEnd * 2;
        }
      } else {
        FillPairs(0, fillEnd, twoPixels);
        lastFillLen := fillEnd * 2;
        lastFillColor := color;
      }
    }

    method FillPairs(start: nat, end: nat, value: UInt16)
      requires 2 * end <= pixelBuf.Length
      modifies pixelBuf
      ensures forall k :: 0 <= k < pixelBuf.Length ==>
        pixelBuf[k] == if 2 * start <= k < 2 * end then value else old(pixelBuf[k])
    {
      var i := start;
      while i < end
        invariant start <= i && (if start <= end then i <= end else i == start)
        invariant forall k :: 0 <= k < pixelBuf.Length ==>
          pixelBuf[k] == if 2 * start <= k < 2 * i then value else old(pixelBuf[k])
      {
        pixelBuf[2 * i], pixelBuf[2 * i + 1] := value, value;
        i := i + 1;
      }
    }

    /** Descriptors that repeat the one-byte buffer, at most 32767 pixels each. */
    method ChainOnePixel(color: UInt16, len0: UInt32) returns (n: nat)
      requires Sized() && 0 < len0 <= screen && Hi(color) == Lo(color) == onePixelBuf
      modifies descriptor
      ensures Linked(descriptor[..], n)
      ensures AllReadable(descriptor[..n], Engine([])) && Transfers(descriptor[..n], Engine([])) == Solid(color, len0)
    {
      hide Transfer, Transfers, Groups, Solid, Readable;
      FewerGroups(len0, 32767, screen, maxFillLen);
      n := Groups(len0, 32767);
      ghost var mem := Engine([]);
      var len := len0;
      NoTransfers(color, mem);
      assert descriptor[..0] == [];
      for d := 0 to n
        invariant len == (if d * 32767 < len0 then len0 - d * 32767 else 0)
        invariant forall j :: 0 <= j < d ==> descriptor[j].next == j + 1
        invariant AllReadable(descriptor[..d], mem) && Transfers(descriptor[..d], mem) == Solid(color, len0 - len)
      {
        GroupsCover(len0, 32767, d);
        var count := if len < 32767 then len else 32767;
        OneByteTransfer(color, count, mem);
        OneMore(descriptor[..d], Descriptor(OnePixelBuf, 2 * count, 0), d + 1, mem);
        SolidJoin(color, len0 - len, count);
        descriptor[d] := Descriptor(OnePixelBuf, 2 * count, d + 1);
        assert descriptor[..d + 1] == descriptor[..d] + [descriptor[d]];
        len := len - count;
      }
      GroupsCover(len0, 32767, 0);
      GroupsCover(len0, 32767, n);
      EndChain(n, mem);
    }

    /** Descriptors that send the filled part of the buffer again and again. */
    method ChainFill(color: UInt16, len0: UInt32) returns (n: nat)
      requires Valid() && 0 < len0 <= screen && lastFillColor == color
      requires lastFillLen >= (if len0 < maxFillLen then len0 else maxFillLen)
      modifies descriptor
      ensures Linked(descriptor[..], n)
      ensures AllReadable(descriptor[..n], Engine([])) && Transfers(descriptor[..n], Engine([])) == Solid(color, len0)
    {
      hide Transfer, Transfers, Groups, Solid, Readable;
      FewerGroups(len0, maxFillLen, screen, maxFillLen);
      n := Groups(len0, maxFillLen);
      ghost var mem := Engine([]);
      var len := len0;
      NoTransfers(color, mem);
      assert descriptor[..0] == [];
      for d := 0 to n
        invariant len == (if d * maxFillLen < len0 then len0 - d * maxFillLen else 0)
        invariant forall j :: 0 <= j < d ==> descriptor[j].next == j + 1
        invariant AllReadable(descriptor[..d], mem) && Transfers(descriptor[..d], mem) == Solid(color, len0 - len)
      {
        GroupsCover(len0, maxFillLen, d);
        var pixels := if len < maxFillLen then len else maxFillLen;
        FillTransfer(color, pixels, mem);
        OneMore(descriptor[..d], Descriptor(FillBuffer(2 * pixels), 2 * pixels, 0), d + 1, mem);
        SolidJoin(color, len0 - len, pixels);
        descriptor[d] := Descriptor(FillBuffer(2 * pixels), 2 * pixels, d + 1);
        assert descriptor[..d + 1] == descriptor[..d] + [descriptor[d]];
        NextMultiple(d, maxFillLen);
        len := len - pixels;
      }
      GroupsCover(len0, maxFillLen, 0);
      GroupsCover(len0, maxFillLen, n);
      EndChain(n, mem);
    }

    method EndChain(n: nat, ghost mem: Memory)
      requires 0 < n <= descriptor.Length && AllReadable(descriptor[..n], mem)
      requires forall j :: 0 <= j < n ==> descriptor[j].next == j + 1
      modifies descriptor
      ensures Linked(descriptor[..], n)
      ensures AllReadable(descriptor[..n], mem) && Transfers(descriptor[..n], mem) == old(Transfers(descriptor[..n], mem))
    {
      ChainEnded(descriptor[..n], mem);
      ghost var ended := descriptor[..n][n - 1 := descriptor[n - 1].(next := 0)];
      descriptor[n - 1] := descriptor[n - 1].(next := 0);
      assert descriptor[..n] == ended;
    }

    // ----- the engine

    /** The bytes the engine has still to send. */
    function InFlight(): seq<UInt8>
      reads this, pixelBuf
      requires readAt <= readEnd <= 2 * pixelBuf.Length
    {
      if dmaBusy then pending + Bytes(pixelBuf[..], readAt, readEnd) else []
    }

    ghost predicate EngineSane()
      reads this, pixelBuf
    {
      Sized() && readAt <= readEnd <= 2 * pixelBuf.Length
    }

    /** Start the engine on the first descriptor: it will follow the chain to its end. */
    method StartChain(n: nat, user: seq<UInt16>, ghost expected: seq<UInt8>)
      requires Sized() && Linked(descriptor[..], n) && AllReadable(descriptor[..n], Engine(user)) && !dmaBusy
      requires Transfers(descriptor[..n], Engine(user)) == expected
      modifies this`dmaBusy, this`pending, this`readAt, this`readEnd
      ensures EngineSane() && dmaBusy && InFlight() == expected
    {
      hide Transfers, Chain, AllReadable, Transfer;
      ChainSendsAll(descriptor[..], n, Engine(user));
      pending := Chain(descriptor[..n], 0, Engine(user));
      readAt, readEnd := 0, 0;
      dmaBusy := true;
    }

    /** The engine moves on by up to n bytes, reading the buffer as it is now, and reports completion. */
    method Progress(n: nat)
      requires EngineSane()
      modifies this`dmaBusy, this`pending, this`readAt, this`sent
      ensures EngineSane() && sent + InFlight() == old(sent + InFlight())
      ensures old(readAt) <= readAt && (dmaBusy ==> old(dmaBusy))
      ensures old(|pending| + readEnd - readAt) <= n ==> !dmaBusy
    {
      hide Bytes;
      if dmaBusy {
        var chained := if n < |pending| then n else |pending|;
        var step := if n - chained < readEnd - readAt then n - chained else readEnd - readAt;
        ghost var left := Bytes(pixelBuf[..], readAt + step, readEnd);
        BytesJoin(pixelBuf[..], readAt, readAt + step, readEnd);
        Regroup(sent, pending, chained, Bytes(pixelBuf[..], readAt, readAt + step), left);
        sent := sent + (pending[..chained] + Bytes(pixelBuf[..], readAt, readAt + step));
        pending := pending[chained..];
        readAt := readAt + step;
        dmaBusy := pending != [] || readAt < readEnd;
      }
    }

    /** dmaWait: nothing is written while waiting, so it does not matter in what steps the engine ends. */
    method Wait()
      requires EngineSane()
      modifies this`dmaBusy, this`pending, this`readAt, this`sent
      ensures EngineSane() && !dmaBusy && sent == old(sent + InFlight())
    {
      Progress(|pending| + readEnd - readAt);
    }

    // ----- writePixels

    /** The engine is not reading any of the pixels from..from + count - 1. */
    predicate Clear(from: nat, count: nat)
      reads this
    {
      dmaBusy ==> readEnd <= 2 * from || 2 * (from + count) <= readAt
    }

    /** swapBytes into the working buffer at from, the engine progressing by schedule[t] bytes before the
        t-th pixel; the pixels written are never ones in flight. */
    method SwapBytes(colors: seq<UInt16>, from: nat, schedule: seq<nat>)
      requires EngineSane() && from + |colors| <= pixelBuf.Length && Clear(from, |colors|)
      modifies this`dmaBusy, this`pending, this`readAt, this`sent, pixelBuf
      ensures EngineSane() && sent + InFlight() == old(sent + InFlight())
      ensures forall k :: 0 <= k < |colors| ==> pixelBuf[from + k] == Swap(colors[k])
      ensures old(readAt) <= readAt && (dmaBusy ==> old(dmaBusy))
    {
      hide Bytes, Swap, Coherent, BigEndian;
      for i := 0 to |colors|
        invariant EngineSane() && sent + InFlight() == old(sent + InFlight()) && Clear(from, |colors|)
        invariant forall k :: 0 <= k < i ==> pixelBuf[from + k] == Swap(colors[k])
        invariant old(readAt) <= readAt && (dmaBusy ==> old(dmaBusy))
      {
        Progress(if i < |schedule| then schedule[i] else 0);
        ghost var before := pixelBuf[..];
        pixelBuf[from + i] := Swap(colors[i]);
        if dmaBusy {
          BytesElsewhere(before, pixelBuf[..], from + i, readAt, readEnd);
        }
      }
    }

    /** The little-endian branch of writePixels from an idle engine: whatever the engine does meanwhile,
        the pixels go out byte-swapped, in order, each once. schedule gives the engine's progress: one
        list per chunk. */
    method WritePixels(colors: seq<UInt16>, block: bool, schedule: seq<seq<nat>>)
      requires Valid() && EngineSane() && !dmaBusy
      requires |colors| > maxFillLen / 2 ==> descriptor.Length >= 2
      requires |colors| > 0 ==> descriptor.Length >= 1
      modifies this, pixelBuf, descriptor
      ensures Valid() && EngineSane() && sent + InFlight() == old(sent) + BigEndian(colors)
      ensures block ==> !dmaBusy && sent == old(sent) + BigEndian(colors) && HighByteFirst(sent, old(|sent|), colors)
    {
      hide BigEndian, Bytes, Swap, HighByteFirst;
      EmptyBigEndian();
      if |colors| == 0 {
        assert sent + [] == sent;
        BigEndianIs(sent, colors);
        return;
      }
      var maxSpan := maxFillLen / 2;
      var idx, done, pass := 0, 0, 0;
      while done < |colors|
        invariant 0 <= done <= |colors| && (idx == 0 || idx == 1) && 0 <= pass
        invariant idx == 1 ==> descriptor.Length >= 2 || done == |colors|
        invariant EngineSane() && Clear(WorkingBuffer(idx), maxSpan)
        invariant sent + InFlight() == old(sent) + BigEndian(colors[..done])
        decreases |colors| - done
      {
        var count := if |colors| - done < maxSpan then |colors| - done else maxSpan;
        WriteChunk(colors[done..done + count], idx, if pass < |schedule| then schedule[pass] else []);
        BigEndianJoin(colors[..done], colors[done..done + count]);
        assert colors[..done] + colors[done..done + count] == colors[..done + count];
        idx := 1 - idx;
        done := done + count;
        pass := pass + 1;
      }
      assert colors[..done] == colors;
      lastFillColor := 0;
      lastFillLen := 0;
      if block {
        Wait();
        assert sent + [] == sent;
        BigEndianIs(old(sent), colors);
      }
    }

    /** The big-endian branch: the pixels' bytes go out as they are in memory, by one chain of transfers of at most
        32767 pixels, either before the call returns or afterwards from memory that is left alone. */
    method WritePixelsBigEndian(colors: seq<UInt16>, block: bool)
      requires Valid() && EngineSane() && !dmaBusy && |colors| <= screen
      modifies this, descriptor
      ensures Valid() && EngineSane() && sent + InFlight() == old(sent) + Bytes(colors, 0, 2 * |colors|)
      ensures block ==> !dmaBusy && sent == old(sent) + Bytes(colors, 0, 2 * |colors|)
    {
      hide Transfers, Chain, Transfer, Groups, Linked;
      if |colors| == 0 {
        assert sent + Bytes(colors, 0, 0) == sent + [] == sent;
        return;
      }
      var n := ChainUser(colors);
      StartChain(n, colors, Bytes(colors, 0, 2 * |colors|));
      lastFillColor := 0;
      lastFillLen := 0;
      if block {
        Wait();
        assert sent + [] == sent;
      }
    }

    method ChainUser(colors: seq<UInt16>) returns (n: nat)
      requires Sized() && 0 < |colors| <= screen
      modifies descriptor
      ensures Linked(descriptor[..], n) && AllReadable(descriptor[..n], Engine(colors))
      ensures Transfers(descriptor[..n], Engine(colors)) == Bytes(colors, 0, 2 * |colors|)
    {
      hide Transfer, Transfers, Groups, Bytes, Readable;
      var len := |colors|;
      FewerGroups(len, 32767, screen, maxFillLen);
      n := Groups(len, 32767);
      ghost var mem := Engine(colors);
      NothingSent(mem);
      assert descriptor[..0] == [];
      for d := 0 to n
        invariant len == (if d * 32767 < |colors| then |colors| - d * 32767 else 0)
        invariant forall j :: 0 <= j < d ==> descriptor[j].next == j + 1
        invariant AllReadable(descriptor[..d], mem)
        invariant Transfers(descriptor[..d], mem) == Bytes(colors, 0, 2 * (|colors| - len))
      {
        GroupsCover(|colors|, 32767, d);
        var count, from := if len < 32767 then len else 32767, |colors| - len;
        UserTransfer(mem, from, count);
        OneMore(descriptor[..d], Descriptor(UserPixels(2 * (from + count)), 2 * count, 0), d + 1, mem);
        BytesJoin(colors, 0, 2 * from, 2 * (from + count));
        descriptor[d] := Descriptor(UserPixels(2 * (from + count)), 2 * count, d + 1);
        assert descriptor[..d + 1] == descriptor[..d] + [descriptor[d]];
        len := len - count;
      }
      GroupsCover(|colors|, 32767, 0);
      GroupsCover(|colors|, 32767, n);
      EndChain(n, mem);
    }

    /** Offset of pixelBuf[idx]. */
    function WorkingBuffer(idx: nat): nat { if idx == 0 then 0 else maxFillLen / 2 }

    /** One pass of the loop: fill the working buffer idx while the engine may be emptying the other, wait,
        and start the engine on it. */
    method WriteChunk(chunk: seq<UInt16>, idx: nat, schedule: seq<nat>)
      requires EngineSane() && idx <= 1 && idx < descriptor.Length && 0 < |chunk| <= maxFillLen / 2
      requires Clear(WorkingBuffer(idx), maxFillLen / 2)
      modifies this`dmaBusy, this`pending, this`readAt, this`readEnd, this`sent, pixelBuf, descriptor
      ensures EngineSane() && dmaBusy && Clear(WorkingBuffer(1 - idx), maxFillLen / 2)
      ensures sent + InFlight() == old(sent + InFlight()) + BigEndian(chunk)
    {
      hide BigEndian, Bytes, Swap;
      var at := WorkingBuffer(idx);
      SwapBytes(chunk, at, schedule);
      SwappedBytes(pixelBuf[..], at, chunk);
      descriptor[idx] := Descriptor(FillBuffer(2 * (at + |chunk|)), |chunk| * 2, 0);
      Wait();
      StartJob(descriptor[idx]);
    }

    /** Copy the descriptor to the engine and trigger it. */
    method StartJob(d: Descriptor)
      requires EngineSane() && !dmaBusy && d.src.FillBuffer? && d.count <= d.src.end <= 2 * pixelBuf.Length && d.count > 0
      modifies this`dmaBusy, this`pending, this`readAt, this`readEnd
      ensures EngineSane() && dmaBusy && pending == [] && readEnd == d.src.end && readAt == d.src.end - d.count
      ensures InFlight() == Bytes(pixelBuf[..], readAt, readEnd)
    {
      hide Bytes;
      pending := [];
      readAt, readEnd := d.src.end - d.count, d.src.end;
      dmaBusy := true;
    }
  }

  /** Taking k bytes off the chain and a off the buffer's bytes a + b. Some of the chain is only left when nothing has
      been taken off the buffer. */
  lemma Regroup(sent: seq<UInt8>, pending: seq<UInt8>, k: nat, a: seq<UInt8>, b: seq<UInt8>)
    requires k <= |pending| && (k < |pending| ==> a == [])
    ensures sent + (pending + (a + b)) == sent + (pending[..k] + a) + (pending[k..] + b)
    ensures pending[k..] == [] && b == [] ==> pending[k..] + b == [] && sent + (pending[..k] + a) + [] == sent + (pending[..k] + a)
  {
    assert pending == pending[..k] + pending[k..];
    if k < |pending| {
      assert pending + (a + b) == (pending[..k] + a) + (pending[k..] + b);
    } else {
      assert pending[..k] == pending && pending[k..] == [];
    }
  }

  lemma EmptyBigEndian()
    ensures BigEndian([]) == []
  {}

  /** A write outside a byte range does not change its bytes. */
  lemma BytesElsewhere(a: seq<UInt16>, b: seq<UInt16>, at: nat, from: nat, to: nat)
    requires |a| == |b| && at < |a| && b == a[at := b[at]] && from <= to <= 2 * |a|
    requires to <= 2 * at || 2 * (at + 1) <= from
    ensures Bytes(a, from, to) == Bytes(b, from, to)
  {
    var now, was := Bytes(b, from, to), Bytes(a, from, to);
    forall i | 0 <= i < to - from ensures now[i] == was[i] {
      var k := (from + i) / 2;
      assert k < at || at < k;
      assert b[k] == a[k];
    }
  }

  lemma HowManyDescriptors(w: nat, h: nat, major: nat)
    requires w > 0 && h > 0 && major == Max(w, h) + Max(w, h) % 2
    ensures Groups(w * h, major * 2) >= 1
    ensures Groups(w * h, major * 2) >= 2 <==> w >= 3 && h >= 3
  {
    hide Groups;
    ProductPositive(w, h);
    AreaAgainst(w, h, major);
    GroupsCover(w * h, major * 2, 0);
    GroupsCover(w * h, major * 2, 1);
  }

  lemma AreaAgainst(w: nat, h: nat, major: nat)
    requires w > 0 && h > 0 && major == Max(w, h) + Max(w, h) % 2
    ensures major * 2 < w * h <==> w >= 3 && h >= 3
  {
    if w >= h {
      ShortTimesLong(h, w, w * h);
    } else {
      ShortTimesLong(w, h, w * h);
    }
  }

  lemma ShortTimesLong(short: nat, long: nat, area: nat)
    requires 0 < short <= long && area == short * long
    ensures short >= 3 ==> 3 * long <= area
    ensures short <= 2 ==> area <= 2 * long
  {
    MulMono(3, short, long);
    MulMono(short, 2, long);
  }
}
