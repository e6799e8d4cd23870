/** The bit-banged SPI transfer of Adafruit_BusIO (Adafruit_SPIDevice.cpp, begin() and transfer(buffer, len)), and
    what a device samples in each of the four modes of the Motorola SPI Block Guide (clock polarity and phase). */
module SoftSpi {
  import opened ByteBits

  // ----- bits on the wire

  /** The masks that the bit loop runs through; it stops at zero. */
  function Mask(lsbFirst: bool, j: nat): bv8
    requires j <= 8
  {
    var masks: seq<bv8> := if lsbFirst then [1, 2, 4, 8, 16, 32, 64, 128, 0] else [128, 64, 32, 16, 8, 4, 2, 1, 0];
    masks[j]
  }

  function NextMask(lsbFirst: bool, b: bv8): bv8 {
    if lsbFirst then b << 1 else b >> 1
  }

  function StartBit(lsbFirst: bool): bv8 {
    if lsbFirst then 0x1 else 0x80
  }

  lemma MaskSteps(lsbFirst: bool, j: nat)
    requires j < 8
    ensures Mask(lsbFirst, 0) == StartBit(lsbFirst) && Mask(lsbFirst, 8) == 0
    ensures Mask(lsbFirst, j) != 0 && NextMask(lsbFirst, Mask(lsbFirst, j)) == Mask(lsbFirst, j + 1)
  {
    if j < 4 {
      assert j in {0, 1, 2, 3};
    } else {
      assert j in {4, 5, 6, 7};
    }
  }

  predicate IsSet(byte: bv8, b: bv8) { byte & b != 0 }

  /** The bit that is sent as the j-th: bit j of the byte, or bit 7 - j when the highest goes first. */
  predicate BitAt(byte: bv8, lsbFirst: bool, j: nat)
    requires j < 8
  {
    BitSet(byte, if lsbFirst then j else 7 - j)
  }

  lemma MaskReads(byte: bv8, lsbFirst: bool, j: nat)
    requires j < 8
    ensures BitAt(byte, lsbFirst, j) <==> IsSet(byte, Mask(lsbFirst, j))
  {
    hide BitSet, Overlap, IsSet, LowBit;
    var k := if lsbFirst then j else 7 - j;
    BitIsMask(byte, k);
    LowBitIs(k);
    MaskIsPower(lsbFirst, j);
    OverlapIs(byte, LowBit(k));
  }

  lemma MaskIsPower(lsbFirst: bool, j: nat)
    requires j < 8
    ensures Mask(lsbFirst, j) == [1, 2, 4, 8, 16, 32, 64, 128][if lsbFirst then j else 7 - j]
  {}

  lemma OverlapIs(byte: bv8, mask: bv8)
    ensures Overlap(byte, mask) <==> IsSet(byte, mask)
  {}

  /** The bits of a byte in the order they are sent. */
  function Bits(byte: bv8, lsbFirst: bool): (bits: seq<bool>)
    ensures |bits| == 8
  {
    seq(8, j requires 0 <= j < 8 => BitAt(byte, lsbFirst, j))
  }

  function BitStream(bytes: seq<bv8>, lsbFirst: bool): (bits: seq<bool>)
    ensures |bits| == 8 * |bytes|
  {
    if bytes == [] then []
    else BitStream(bytes[..|bytes| - 1], lsbFirst) + Bits(bytes[|bytes| - 1], lsbFirst)
  }

  lemma NoStream(lsbFirst: bool)
    ensures BitStream([], lsbFirst) == []
  {}

  lemma StreamStep(bytes: seq<bv8>, n: nat, lsbFirst: bool)
    requires n < |bytes|
    ensures BitStream(bytes[..n + 1], lsbFirst) == BitStream(bytes[..n], lsbFirst) + Bits(bytes[n], lsbFirst)
  {
    assert bytes[..n + 1][..n] == bytes[..n];
  }

  /** A byte is determined by its bits. */
  lemma BitsDetermine(a: bv8, b: bv8, lsbFirst: bool)
    requires Bits(a, lsbFirst) == Bits(b, lsbFirst)
    ensures a == b
  {
    hide Mask, Bits;
    forall j: nat | j < 8 ensures (a & Mask(lsbFirst, j) != 0) == (b & Mask(lsbFirst, j) != 0) {
      SameBit(a, b, lsbFirst, j);
    }
    TheMasks();
    if lsbFirst {
      AllMasks(a, b, Mask(true, 0), Mask(true, 1), Mask(true, 2), Mask(true, 3),
               Mask(true, 4), Mask(true, 5), Mask(true, 6), Mask(true, 7));
    } else {
      AllMasks(a, b, Mask(false, 7), Mask(false, 6), Mask(false, 5), Mask(false, 4),
               Mask(false, 3), Mask(false, 2), Mask(false, 1), Mask(false, 0));
    }
  }

  lemma TheMasks()
    ensures Mask(true, 0) == 1 == Mask(false, 7) && Mask(true, 1) == 2 == Mask(false, 6)
    ensures Mask(true, 2) == 4 == Mask(false, 5) && Mask(true, 3) == 8 == Mask(false, 4)
    ensures Mask(true, 4) == 16 == Mask(false, 3) && Mask(true, 5) == 32 == Mask(false, 2)
    ensures Mask(true, 6) == 64 == Mask(false, 1) && Mask(true, 7) == 128 == Mask(false, 0)
  {}

  lemma SameBit(a: bv8, b: bv8, lsbFirst: bool, j: nat)
    requires j < 8 && Bits(a, lsbFirst) == Bits(b, lsbFirst)
    ensures (a & Mask(lsbFirst, j) != 0) == (b & Mask(lsbFirst, j) != 0)
  {
    hide BitAt, Mask;
    assert Bits(a, lsbFirst)[j] == Bits(b, lsbFirst)[j];
    MaskReads(a, lsbFirst, j);
    MaskReads(b, lsbFirst, j);
  }

  lemma AllMasks(a: bv8, b: bv8, m0: bv8, m1: bv8, m2: bv8, m3: bv8, m4: bv8, m5: bv8, m6: bv8, m7: bv8)
    requires m0 == 1 && m1 == 2 && m2 == 4 && m3 == 8 && m4 == 16 && m5 == 32 && m6 == 64 && m7 == 128
    requires (a & m0 != 0) == (b & m0 != 0) && (a & m1 != 0) == (b & m1 != 0)
    requires (a & m2 != 0) == (b & m2 != 0) && (a & m3 != 0) == (b & m3 != 0)
    requires (a & m4 != 0) == (b & m4 != 0) && (a & m5 != 0) == (b & m5 != 0)
    requires (a & m6 != 0) == (b & m6 != 0) && (a & m7 != 0) == (b & m7 != 0)
    ensures a == b
  {}

  lemma {:induction false} StreamDetermines(a: seq<bv8>, b: seq<bv8>, lsbFirst: bool)
    requires BitStream(a, lsbFirst) == BitStream(b, lsbFirst)
    ensures a == b
  {
    hide Bits;
    assert |a| == |b|;
    if a != [] {
      var n := |a| - 1;
      var x, y := BitStream(a[..n], lsbFirst), BitStream(b[..n], lsbFirst);
      assert x == BitStream(a, lsbFirst)[..8 * n] && y == BitStream(b, lsbFirst)[..8 * n];
      assert Bits(a[n], lsbFirst) == BitStream(a, lsbFirst)[8 * n..];
      assert Bits(b[n], lsbFirst) == BitStream(b, lsbFirst)[8 * n..];
      StreamDetermines(a[..n], b[..n], lsbFirst);
      BitsDetermine(a[n], b[n], lsbFirst);
      assert a == a[..n] + [a[n]] && b == b[..n] + [b[n]];
    }
  }

  // ----- collecting a reply

  /** The reply holds the bits read so far and nothing else. */
  predicate Holds(reply: bv8, lsbFirst: bool, bits: seq<bool>) {
    forall j :: 0 <= j < 8 ==> BitAt(reply, lsbFirst, j) == (j < |bits| && bits[j])
  }

  function Collect(reply: bv8, b: bv8, bit: bool): bv8 {
    if bit then reply | b else reply
  }

  lemma OrSetsOne(reply: bv8, lsbFirst: bool, j: nat, k: nat)
    requires j < 8 && k < 8
    ensures BitAt(Collect(reply, Mask(lsbFirst, j), true), lsbFirst, k) == (k == j || BitAt(reply, lsbFirst, k))
  {
    hide Mask, Collect, IsSet, BitAt;
    MaskReads(reply, lsbFirst, k);
    MaskReads(Collect(reply, Mask(lsbFirst, j), true), lsbFirst, k);
    var a, b := Mask(lsbFirst, j), Mask(lsbFirst, k);
    if j == k {
      MaskSteps(lsbFirst, j);
      OrHits(reply, a);
    } else {
      MasksApart(lsbFirst, j, k);
      OrMisses(reply, a, b);
    }
  }

  lemma OrHits(x: bv8, a: bv8)
    requires a != 0
    ensures IsSet(Collect(x, a, true), a)
  {}

  lemma OrMisses(x: bv8, a: bv8, b: bv8)
    requires a & b == 0
    ensures IsSet(Collect(x, a, true), b) == IsSet(x, b)
  {}

  lemma MasksApart(lsbFirst: bool, j: nat, k: nat)
    requires j < 8 && k < 8 && j != k
    ensures Mask(lsbFirst, j) & Mask(lsbFirst, k) == 0
  {
    var a, b := Mask(lsbFirst, j), Mask(lsbFirst, k);
    assert a in {1, 2, 4, 8, 16, 32, 64, 128};
    assert b in {1, 2, 4, 8, 16, 32, 64, 128};
    PowersApart(a, b);
  }

  lemma PowersApart(a: bv8, b: bv8)
    requires a in {1, 2, 4, 8, 16, 32, 64, 128} && b in {1, 2, 4, 8, 16, 32, 64, 128} && a != b
    ensures a & b == 0
  {}

  lemma HoldsMore(reply: bv8, lsbFirst: bool, bits: seq<bool>, bit: bool)
    requires |bits| < 8 && Holds(reply, lsbFirst, bits)
    ensures Holds(Collect(reply, Mask(lsbFirst, |bits|), bit), lsbFirst, bits + [bit])
  {
    hide BitAt, Mask;
    forall j | 0 <= j < 8
      ensures BitAt(Collect(reply, Mask(lsbFirst, |bits|), bit), lsbFirst, j)
           == (j < |bits + [bit]| && (bits + [bit])[j])
    {
      OrSetsOne(reply, lsbFirst, |bits|, j);
    }
  }

  lemma HoldsAll(reply: bv8, lsbFirst: bool, bits: seq<bool>)
    requires |bits| == 8 && Holds(reply, lsbFirst, bits)
    ensures Bits(reply, lsbFirst) == bits
  {}

  lemma HoldsNone(lsbFirst: bool)
    ensures Holds(0, lsbFirst, [])
  {
    hide BitAt, Mask;
    forall j | 0 <= j < 8 ensures !BitAt(0, lsbFirst, j) {
      MaskReads(0, lsbFirst, j);
    }
  }

  // ----- what a device samples

  /** Mode 0 and 1 idle low, 2 and 3 idle high; the first edge samples in 0 and 2, the second in 1 and 3. */
  datatype DataMode = Mode0 | Mode1 | Mode2 | Mode3

  /** The levels of MOSI at rising clock edges, when it has the given levels at the falling ones: `early` means that it
      is set before the clock rises. Initially the clock and MOSI are as given. */
  function Rises(early: bool, clock: bool, mosi: bool, levels: seq<bool>): seq<bool> {
    if levels == [] then []
    else if early then (if clock then levels[1..] else levels)
    else (if clock then [] else [mosi]) + levels[..|levels| - 1]
  }

  lemma RisesMore(early: bool, clock: bool, mosi: bool, levels: seq<bool>, level: bool)
    ensures var before := if levels == [] then mosi else levels[|levels| - 1];
            Rises(early, clock, mosi, levels + [level])
            == Rises(early, clock, mosi, levels)
               + if levels == [] && clock then [] else [if early then level else before]
  {
    var more := levels + [level];
    if levels == [] {
      assert more == [level] && more[1..] == [] && more[..0] == [];
    } else if early {
      assert more[1..] == levels[1..] + [level];
    } else {
      var first: seq<bool> := if clock then [] else [mosi];
      AllButLast(levels, level);
      var init, last := levels[..|levels| - 1], levels[|levels| - 1];
      assert first + (init + [last]) == first + init + [last];
    }
  }

  lemma AllButLast(levels: seq<bool>, level: bool)
    requires levels != []
    ensures (levels + [level])[..|levels + [level]| - 1] == levels == levels[..|levels| - 1] + [levels[|levels| - 1]]
  {}

  lemma {:induction false} RisesJoin(early: bool, clock: bool, mosi: bool, a: seq<bool>, b: seq<bool>)
    ensures var before := if a == [] then mosi else a[|a| - 1];
            Rises(early, clock, mosi, a + b)
            == Rises(early, clock, mosi, a) + Rises(early, clock && a == [], before, b)
    decreases |b|
  {
    hide Rises;
    var before := if a == [] then mosi else a[|a| - 1];
    if b == [] {
      assert a + b == a;
      NoRises(early, clock && a == [], before);
    } else {
      var n := |b| - 1;
      RisesJoin(early, clock, mosi, a, b[..n]);
      assert a + b == (a + b[..n]) + [b[n]] && b == b[..n] + [b[n]];
      RisesMore(early, clock, mosi, a + b[..n], b[n]);
      RisesMore(early, clock && a == [], before, b[..n], b[n]);
    }
  }

  lemma NoRises(early: bool, clock: bool, mosi: bool)
    ensures Rises(early, clock, mosi, []) == []
  {}

  /** The two pins, and the levels of MOSI at each rising and falling edge of the clock. */
  datatype PinState = PinState(clock: bool, mosi: bool, rising: seq<bool>, falling: seq<bool>)

  /** The pins when MOSI has had these levels, one in each bit time. */
  function After(p: PinState, early: bool, levels: seq<bool>): PinState {
    PinState(p.clock && levels == [], if levels == [] then p.mosi else levels[|levels| - 1],
             p.rising + Rises(early, p.clock, p.mosi, levels), p.falling + levels)
  }

  lemma AfterNone(p: PinState, early: bool)
    ensures After(p, early, []) == p
  {}

  lemma AfterJoin(p: PinState, early: bool, a: seq<bool>, b: seq<bool>)
    ensures After(After(p, early, a), early, b) == After(p, early, a + b)
  {
    hide Rises;
    RisesJoin(early, p.clock, p.mosi, a, b);
    if b == [] {
      assert a + b == a;
      NoRises(early, After(p, early, a).clock, After(p, early, a).mosi);
    }
  }

  lemma AfterIs(p: PinState, early: bool, levels: seq<bool>)
    ensures var q := After(p, early, levels);
            q.clock == (p.clock && |levels| == 0) && q.falling == p.falling + levels
            && q.rising == p.rising + Rises(early, p.clock, p.mosi, levels)
  {}

  lemma AfterOne(p: PinState, early: bool, level: bool, q: PinState)
    requires !q.clock && q.mosi == level && q.falling == p.falling + [level]
    requires q.rising == if p.clock then p.rising else p.rising + [if early then level else p.mosi]
    ensures q == After(p, early, [level])
  {}

  /** Bits that come one late are the right ones only if they are all alike. */
  lemma {:induction false} OneLate(level: bool, bits: seq<bool>)
    requires bits != []
    ensures [level] + bits[..|bits| - 1] == bits <==> AllAre(bits, level)
  {
    var late, n := [level] + bits[..|bits| - 1], |bits| - 1;
    assert forall k :: 0 < k <= n ==> late[k] == bits[k - 1];
    if late == bits {
      assert bits[0] == level;
      if n > 0 {
        OneLate(level, bits[1..]) by {
          assert bits[1..][..n - 1] == bits[..n][1..];
        }
        assert [level] + bits[1..][..n - 1] == bits[1..];
        assert forall k :: 0 < k <= n ==> bits[k] == bits[1..][k - 1];
      }
    }
  }

  // ----- the device

  /** What MISO is wired to: a device answering with these levels, or the MOSI pin itself. */
  datatype Wire = Answers(levels: seq<bool>) | Looped

  class SpiDevice {
    const lsbFirst: bool
    const mode: DataMode
    const hasMosi: bool
    const hasMiso: bool
    var clock: bool
    var mosi: bool
    /** The level of MOSI at each rising and at each falling edge of the clock. */
    ghost var rising: seq<bool>
    ghost var falling: seq<bool>
    /** The level read from MISO in each bit time. */
    ghost var heard: seq<bool>

    /** SPI_MODE0 or SPI_MODE2 */
    predicate Early() { mode.Mode0? || mode.Mode2? }

    ghost function Pins(): PinState
      reads this
    {
      PinState(clock, mosi, rising, falling)
    }

    /** The bits that a device in this mode takes from MOSI: in modes 0 and 3 it samples at rising edges, in modes 1 and
        2 at falling ones. */
    ghost function Taken(): seq<bool>
      reads this
    {
      if mode.Mode0? || mode.Mode3? then rising else falling
    }

    constructor (lsbFirst: bool, mode: DataMode, hasMosi: bool, hasMiso: bool, level: bool)
      ensures this.lsbFirst == lsbFirst && this.mode == mode
      ensures this.hasMosi == hasMosi && this.hasMiso == hasMiso && mosi == level
      ensures rising == falling == heard == []
    {
      this.lsbFirst, this.mode, this.hasMosi, this.hasMiso := lsbFirst, mode, hasMosi, hasMiso;
      clock, mosi, rising, falling, heard := false, level, [], [], [];
    }

    /** begin(): the clock idles low in modes 0 and 1, high in modes 2 and 3. No device is selected yet. */
    method Begin()
      modifies this`clock, this`mosi
      ensures clock <==> mode.Mode2? || mode.Mode3?
      ensures mosi == (hasMosi || old(mosi))
    {
      if mode.Mode0? || mode.Mode1? {
        clock := false;
      } else {
        clock := true;
      }
      if hasMosi {
        mosi := true;
      }
    }

    /** Writing the clock pin; an edge is an edge only if the level changes. */
    method WriteClock(level: bool)
      modifies this`clock, this`rising, this`falling
      ensures clock == level
      ensures rising == if level && !old(clock) then old(rising) + [mosi] else old(rising)
      ensures falling == if !level && old(clock) then old(falling) + [mosi] else old(falling)
    {
      if level && !clock {
        rising := rising + [mosi];
      }
      if !level && clock {
        falling := falling + [mosi];
      }
      clock := level;
    }

    /** Reading MISO in bit time k. */
    method ReadMiso(wire: Wire, k: nat) returns (level: bool)
      requires wire.Answers? ==> k < |wire.levels|
      modifies this`heard
      ensures heard == old(heard) + [level]
      ensures level == if wire.Looped? then mosi else wire.levels[k]
    {
      level := if wire.Looped? then mosi else wire.levels[k];
      heard := heard + [level];
    }

    /** One bit time: at the falling edge MOSI has the bit; at the rising edge, if there is one, only in modes 0 and 2. */
    method TransferBit(send: bv8, b: bv8, lastMosi: bool, wire: Wire, k: nat) returns (last: bool, bit: bool)
      requires wire.Answers? ==> k < |wire.levels|
      requires Early() && hasMosi && lastMosi != mosi ==> lastMosi != IsSet(send, b)
      modifies this`clock, this`mosi, this`rising, this`falling, this`heard
      ensures Early() && hasMosi ==> last == mosi
      ensures hasMosi ==> mosi == IsSet(send, b)
      ensures !hasMosi ==> mosi == old(mosi) && last == lastMosi
      ensures !clock && falling == old(falling) + [mosi]
      ensures rising == if old(clock) then old(rising) else old(rising) + [if Early() then mosi else old(mosi)]
      ensures hasMiso ==> heard == old(heard) + [bit] && bit == if wire.Looped? then mosi else wire.levels[k]
      ensures !hasMiso ==> heard == old(heard) && !bit
    {
      hide IsSet;
      last, bit := lastMosi, false;
      if Early() {
        var toWrite := IsSet(send, b);
        if hasMosi && last != toWrite {
          mosi := toWrite;
          last := toWrite;
        }
        WriteClock(true);
        if hasMiso {
          bit := ReadMiso(wire, k);
        }
        WriteClock(false);
      } else {
        WriteClock(true);
        if hasMosi {
          mosi := IsSet(send, b);
        }
        WriteClock(false);
        if hasMiso {
          bit := ReadMiso(wire, k);
        }
      }
    }

    /** The eight bit times of byte i. */
    method TransferByte(buffer: array<bv8>, i: nat, lastMosi: bool, wire: Wire)
      returns (last: bool, ghost levels: seq<bool>)
      requires i < buffer.Length
      requires wire.Answers? ==> 8 * i + 8 <= |wire.levels|
      requires Early() && hasMosi && lastMosi != mosi ==> lastMosi == !IsSet(buffer[i], StartBit(lsbFirst))
      modifies this`clock, this`mosi, this`rising, this`falling, this`heard, buffer
      ensures Early() && hasMosi ==> last == mosi
      ensures !hasMosi ==> mosi == old(mosi)
      ensures Pins() == After(old(Pins()), Early(), levels) && |levels| == 8
      ensures hasMosi ==> levels == Bits(old(buffer[i]), lsbFirst)
      ensures !hasMiso ==> heard == old(heard) && buffer[..] == old(buffer[..])
      ensures hasMiso ==> heard == old(heard) + Bits(buffer[i], lsbFirst)
      ensures hasMiso && wire.Answers? ==> Bits(buffer[i], lsbFirst) == wire.levels[8 * i..8 * i + 8]
      ensures hasMiso && wire.Looped? && hasMosi ==> Bits(buffer[i], lsbFirst) == Bits(old(buffer[i]), lsbFirst)
      ensures forall n :: 0 <= n < buffer.Length && n != i ==> buffer[n] == old(buffer[n])
    {
      hide *;
      var reply: bv8 := 0;
      var send := buffer[i];
      var b := StartBit(lsbFirst);
      last := lastMosi;
      var time := 8 * i;
      ghost var sent: seq<bool>, got: seq<bool> := [], [];
      AfterNone(Pins(), Early());
      MidwayStart(this, send, wire, 8 * i);
      while b != 0
        invariant |sent| <= 8 && time == 8 * i + |sent|
        invariant Midway(this, send, b, reply, sent, got, wire, 8 * i)
        invariant Early() && hasMosi && last != mosi ==> sent == [] && last == !IsSet(send, b)
        invariant !hasMosi ==> mosi == old(mosi)
        invariant Pins() == After(old(Pins()), Early(), sent)
        invariant !hasMiso ==> heard == old(heard) && buffer[i] == send
        invariant hasMiso ==> heard == old(heard) + got && (|got| > 0 ==> buffer[i] == reply)
        invariant forall n :: 0 <= n < buffer.Length && n != i ==> buffer[n] == old(buffer[n])
        decreases 8 - |sent|
      {
        MidwayRoom(this, send, b, reply, sent, got, wire, 8 * i);
        var bit;
        ghost var pins := Pins();
        PinsAre();
        last, bit := TransferBit(send, b, last, wire, time);
        PinsAre();
        AfterOne(pins, Early(), mosi, Pins());
        AfterJoin(old(Pins()), Early(), sent, [mosi]);
        MidwayStep(this, send, b, reply, sent, got, wire, 8 * i, mosi, bit);
        Assoc(old(heard), got, bit);
        reply := Collect(reply, b, bit);
        if hasMiso {
          buffer[i] := reply;
        }
        b := NextMask(lsbFirst, b);
        time := time + 1;
        sent, got := sent + [mosi], got + [bit];
      }
      MidwayEnd(this, send, b, reply, sent, got, wire, 8 * i);
      levels := sent;
    }

    lemma TakenIs(levels: seq<bool>, clock0: bool, mosi0: bool, rising0: seq<bool>, falling0: seq<bool>)
      requires falling == falling0 + levels && rising == rising0 + Rises(Early(), clock0, mosi0, levels)
      ensures var before := if mode.Mode0? || mode.Mode3? then rising0 else falling0;
              ((mode.Mode0? ==> !clock0) && !mode.Mode3? ==> Taken() == before + levels)
              && (mode.Mode3? && levels != [] ==>
                    Taken() == before + (if clock0 then [] else [mosi0]) + levels[..|levels| - 1])
    {}

    lemma PinsAre()
      ensures Pins() == PinState(clock, mosi, rising, falling)
    {}

    lemma TakenAre()
      ensures Taken() == if mode.Mode0? || mode.Mode3? then rising else falling
    {}

    /** The transfer. Each byte becomes the eight bits heard meanwhile; with MISO wired to MOSI nothing changes. A device
        in mode 1 or 2, or in mode 0 with the clock low before, takes the original bytes bit by bit from MOSI; one in
        mode 3 takes each bit one rise of the clock late. */
    method Transfer(buffer: array<bv8>, len: nat, wire: Wire)
      requires len <= buffer.Length && buffer.Length > 0
      requires wire.Answers? ==> 8 * len <= |wire.levels|
      modifies this`clock, this`mosi, this`rising, this`falling, this`heard, buffer
      ensures !hasMosi ==> mosi == old(mosi)
      ensures clock == (old(clock) && len == 0) && |falling| == |old(falling)| + 8 * len
      ensures hasMosi ==> falling == old(falling) + BitStream(old(buffer[..len]), lsbFirst)
      ensures hasMosi && (mode.Mode0? ==> !old(clock)) && !mode.Mode3? ==>
        Taken() == old(Taken()) + BitStream(old(buffer[..len]), lsbFirst)
      ensures hasMosi && mode.Mode3? && len > 0 ==>
        Taken() == old(Taken()) + (if old(clock) then [] else [old(mosi)])
                   + BitStream(old(buffer[..len]), lsbFirst)[..8 * len - 1]
      ensures !hasMiso ==> buffer[..] == old(buffer[..]) && heard == old(heard)
      ensures hasMiso ==> heard == old(heard) + BitStream(buffer[..len], lsbFirst)
      ensures hasMiso && wire.Answers? ==> BitStream(buffer[..len], lsbFirst) == wire.levels[..8 * len]
      ensures hasMiso && wire.Looped? && hasMosi ==> buffer[..] == old(buffer[..])
      ensures buffer[len..] == old(buffer[len..])
    {
      hide *;
      ghost var bits, clock0, mosi0, rising0, falling0 := BitStream(buffer[..len], lsbFirst), clock, mosi, rising, falling;
      TakenAre();
      TransferBytes(buffer, len, wire);
      if hasMosi {
        TakenIs(bits, clock0, mosi0, rising0, falling0);
      }
    }

    /** The loop over the bytes. */
    method TransferBytes(buffer: array<bv8>, len: nat, wire: Wire)
      requires len <= buffer.Length && buffer.Length > 0
      requires wire.Answers? ==> 8 * len <= |wire.levels|
      modifies this`clock, this`mosi, this`rising, this`falling, this`heard, buffer
      ensures !hasMosi ==> mosi == old(mosi)
      ensures clock == (old(clock) && len == 0) && |falling| == |old(falling)| + 8 * len
      ensures hasMosi ==> falling == old(falling) + BitStream(old(buffer[..len]), lsbFirst)
      ensures hasMosi ==>
        rising == old(rising) + Rises(Early(), old(clock), old(mosi), BitStream(old(buffer[..len]), lsbFirst))
      ensures !hasMiso ==> buffer[..] == old(buffer[..]) && heard == old(heard)
      ensures hasMiso ==> heard == old(heard) + BitStream(buffer[..len], lsbFirst)
      ensures hasMiso && wire.Answers? ==> BitStream(buffer[..len], lsbFirst) == wire.levels[..8 * len]
      ensures hasMiso && wire.Looped? && hasMosi ==> buffer[..] == old(buffer[..])
      ensures buffer[len..] == old(buffer[len..])
    {
      hide *;
      var startBit := StartBit(lsbFirst);
      var lastMosi := !IsSet(buffer[0], startBit);
      ghost var before, levels: seq<bool> := buffer[..], [];
      PinsAre();
      AfterNone(Pins(), Early());
      NoStream(lsbFirst);
      ReplacedNone(this, before, heard, wire);
      for i := 0 to len
        invariant Replaced(this, before, buffer[..], i, old(heard), heard, wire)
        invariant Early() && hasMosi && lastMosi != mosi ==> i == 0 && lastMosi == !IsSet(before[0], startBit)
        invariant !hasMosi ==> mosi == old(mosi)
        invariant Pins() == After(old(Pins()), Early(), levels) && |levels| == 8 * i
        invariant hasMosi ==> levels == BitStream(before[..i], lsbFirst)
      {
        ghost var mid, heard1, more := buffer[..], heard, [];
        NotYetReplaced(this, before, mid, i, old(heard), heard1, wire);
        lastMosi, more := TransferByte(buffer, i, lastMosi, wire);
        AfterJoin(old(Pins()), Early(), levels, more);
        levels := levels + more;
        StreamStep(before, i, lsbFirst);
        ReplacedMore(this, before, mid, buffer[..], i, old(heard), heard1, heard, wire);
      }
      PinsAre();
      AfterIs(old(Pins()), Early(), levels);
      ReplacedIs(this, before, buffer[..], len, old(heard), heard, wire);
      assert buffer[..len] == buffer[..][..len] && before[..len] == old(buffer[..len]);
      assert buffer[len..] == buffer[..][len..] && before[len..] == old(buffer[len..]);
    }
  }

  /** The buffer, and what has been heard, when the first i bytes have been transferred. */
  predicate Replaced(d: SpiDevice, before: seq<bv8>, now: seq<bv8>, i: nat, heard0: seq<bool>, heard: seq<bool>,
                     wire: Wire) {
    && i <= |now| == |before| && now[i..] == before[i..]
    && (!d.hasMiso ==> now == before && heard == heard0)
    && (d.hasMiso ==> heard == heard0 + BitStream(now[..i], d.lsbFirst))
    && (d.hasMiso && wire.Answers? ==>
          8 * i <= |wire.levels| && BitStream(now[..i], d.lsbFirst) == wire.levels[..8 * i])
    && (d.hasMiso && wire.Looped? && d.hasMosi ==> now == before)
  }

  lemma ReplacedNone(d: SpiDevice, before: seq<bv8>, heard0: seq<bool>, wire: Wire)
    ensures Replaced(d, before, before, 0, heard0, heard0, wire)
  {
    assert before[..0] == [];
    NoStream(d.lsbFirst);
  }

  lemma NotYetReplaced(d: SpiDevice, before: seq<bv8>, now: seq<bv8>, i: nat, heard0: seq<bool>, heard: seq<bool>,
                       wire: Wire)
    requires Replaced(d, before, now, i, heard0, heard, wire)
    ensures |now| == |before| && (i < |now| ==> now[i] == before[i])
  {
    assert i < |now| ==> now[i] == now[i..][0];
  }

  lemma ReplacedMore(d: SpiDevice, before: seq<bv8>, mid: seq<bv8>, now: seq<bv8>, i: nat, heard0: seq<bool>,
                     heard1: seq<bool>, heard: seq<bool>, wire: Wire)
    requires Replaced(d, before, mid, i, heard0, heard1, wire) && i < |mid| == |now|
    requires forall n :: 0 <= n < |now| && n != i ==> now[n] == mid[n]
    requires !d.hasMiso ==> now == mid && heard == heard1
    requires d.hasMiso ==> heard == heard1 + Bits(now[i], d.lsbFirst)
    requires d.hasMiso && wire.Answers? ==>
               8 * i + 8 <= |wire.levels| && Bits(now[i], d.lsbFirst) == wire.levels[8 * i..8 * i + 8]
    requires d.hasMiso && wire.Looped? && d.hasMosi ==> Bits(now[i], d.lsbFirst) == Bits(mid[i], d.lsbFirst)
    ensures Replaced(d, before, now, i + 1, heard0, heard, wire)
  {
    hide Bits, BitStream;
    StreamStep(now, i, d.lsbFirst);
    assert now[..i] == mid[..i];
    assert now[i + 1..] == mid[i..][1..] == before[i + 1..];
    AssocAll(heard0, BitStream(mid[..i], d.lsbFirst), Bits(now[i], d.lsbFirst));
    if d.hasMiso && wire.Looped? && d.hasMosi {
      BitsDetermine(now[i], mid[i], d.lsbFirst);
    }
  }

  lemma ReplacedIs(d: SpiDevice, before: seq<bv8>, now: seq<bv8>, i: nat, heard0: seq<bool>, heard: seq<bool>, wire: Wire)
    requires Replaced(d, before, now, i, heard0, heard, wire)
    ensures i <= |now| == |before| && now[i..] == before[i..]
    ensures !d.hasMiso ==> now == before && heard == heard0
    ensures d.hasMiso ==> heard == heard0 + BitStream(now[..i], d.lsbFirst)
    ensures d.hasMiso && wire.Answers? ==>
      8 * i <= |wire.levels| && BitStream(now[..i], d.lsbFirst) == wire.levels[..8 * i]
    ensures d.hasMiso && wire.Looped? && d.hasMosi ==> now == before
  {}

  /** After begin() the first transfer reaches the device in every mode but the last: there the clock is already high
      when it is to rise for the first bit, and each bit is set only after the rise that should sample it. */
  method BeginAndTransfer(d: SpiDevice, buffer: array<bv8>, len: nat, wire: Wire)
    requires d.hasMosi && d.Taken() == [] && 0 < len <= buffer.Length && (wire.Answers? ==> 8 * len <= |wire.levels|)
    modifies d, buffer
    ensures d.Taken() == BitStream(old(buffer[..len]), d.lsbFirst) <==> d.mode != Mode3
  {
    d.Begin();
    ghost var bits := BitStream(buffer[..len], d.lsbFirst);
    assert |bits| == 8 * len && [] + bits == bits && [] + [] + bits[..8 * len - 1] == bits[..8 * len - 1];
    d.Transfer(buffer, len, wire);
  }

  predicate AllAre(bits: seq<bool>, level: bool) {
    forall k :: 0 <= k < |bits| ==> bits[k] == level
  }

  /** A later transfer in mode 3 comes one bit late, which is right if and only if all bytes are 0xFF with MOSI high, or
      all are 0 with MOSI low. */
  lemma LateBytes(level: bool, bytes: seq<bv8>, lsbFirst: bool)
    requires bytes != []
    ensures var bits := BitStream(bytes, lsbFirst);
            [level] + bits[..|bits| - 1] == bits <==> forall i :: 0 <= i < |bytes| ==> bytes[i] == if level then 0xFF else 0
  {
    hide BitStream;
    OneLate(level, BitStream(bytes, lsbFirst));
    AllAlike(level, bytes, lsbFirst);
  }

  lemma {:induction false} AllAlike(level: bool, bytes: seq<bv8>, lsbFirst: bool)
    ensures AllAre(BitStream(bytes, lsbFirst), level)
       <==> forall i :: 0 <= i < |bytes| ==> bytes[i] == if level then 0xFF else 0
  {
    hide Bits, AllAre;
    if bytes == [] {
      NoneAre(level);
    } else {
      var n := |bytes| - 1;
      AllAlike(level, bytes[..n], lsbFirst);
      ByteAlike(level, bytes[n], lsbFirst);
      AllAreJoin(BitStream(bytes[..n], lsbFirst), Bits(bytes[n], lsbFirst), level);
      assert forall i :: 0 <= i < n ==> bytes[..n][i] == bytes[i];
    }
  }

  lemma NoneAre(level: bool)
    ensures AllAre([], level)
  {}

  lemma AllAreJoin(a: seq<bool>, b: seq<bool>, level: bool)
    ensures AllAre(a + b, level) <==> AllAre(a, level) && AllAre(b, level)
  {
    var all := a + b;
    assert forall k :: 0 <= k < |a| ==> a[k] == all[k];
    assert forall k :: 0 <= k < |b| ==> b[k] == all[|a| + k];
  }

  lemma ByteAlike(level: bool, byte: bv8, lsbFirst: bool)
    ensures AllAre(Bits(byte, lsbFirst), level) <==> byte == if level then 0xFF else 0
  {
    hide BitAt;
    var plain: bv8 := if level then 0xFF else 0;
    var bits, plainBits := Bits(byte, lsbFirst), Bits(plain, lsbFirst);
    forall k | 0 <= k < 8 ensures plainBits[k] == level {
      PlainBit(level, lsbFirst, k);
    }
    if bits == plainBits {
      BitsDetermine(byte, plain, lsbFirst);
    } else {
      assert exists k :: 0 <= k < 8 && bits[k] != plainBits[k];
    }
  }

  lemma PlainBit(level: bool, lsbFirst: bool, k: nat)
    requires k < 8
    ensures BitAt(if level then 0xFF else 0, lsbFirst, k) == level
  {
    hide BitAt, Mask;
    MaskReads(if level then 0xFF else 0, lsbFirst, k);
    MaskSteps(lsbFirst, k);
  }

  /** What was heard is what the wire gave. */
  predicate Echo(got: seq<bool>, sent: seq<bool>, wire: Wire, at: nat) {
    match wire
    case Answers(levels) => at + |got| <= |levels| && got == levels[at..at + |got|]
    case Looped => got == sent
  }

  /** Where the bit loop is after |sent| bits of byte `send`. */
  predicate Midway(d: SpiDevice, send: bv8, b: bv8, reply: bv8, sent: seq<bool>, got: seq<bool>, wire: Wire, at: nat) {
    && |sent| == |got| <= 8 && b == Mask(d.lsbFirst, |sent|)
    && (d.hasMosi ==> sent == Bits(send, d.lsbFirst)[..|sent|])
    && Holds(reply, d.lsbFirst, got)
    && (d.hasMiso ==> Echo(got, sent, wire, at))
  }

  lemma MidwayStart(d: SpiDevice, send: bv8, wire: Wire, at: nat)
    requires wire.Answers? ==> at <= |wire.levels|
    ensures Midway(d, send, StartBit(d.lsbFirst), 0, [], [], wire, at)
  {
    hide BitAt, Mask, Bits, StartBit;
    MaskSteps(d.lsbFirst, 0);
    HoldsNone(d.lsbFirst);
  }

  lemma MidwayStep(d: SpiDevice, send: bv8, b: bv8, reply: bv8, sent: seq<bool>, got: seq<bool>, wire: Wire, at: nat,
                   level: bool, bit: bool)
    requires Midway(d, send, b, reply, sent, got, wire, at) && b != 0
    requires wire.Answers? ==> at + |got| < |wire.levels|
    requires d.hasMosi ==> level == IsSet(send, b)
    requires d.hasMiso ==> bit == if wire.Looped? then level else wire.levels[at + |got|]
    ensures |sent| < 8
    ensures Midway(d, send, NextMask(d.lsbFirst, b), Collect(reply, b, bit),
                   sent + [level], got + [bit], wire, at)
  {
    hide Holds, Echo, Mask, NextMask, Bits, Collect, IsSet;
    AtMask(d.lsbFirst, |sent|, send);
    HoldsMore(reply, d.lsbFirst, got, bit);
    PrefixMore(sent, Bits(send, d.lsbFirst), level);
    if d.hasMiso {
      EchoMore(got, sent, wire, at, bit, level);
    }
  }

  lemma MidwayRoom(d: SpiDevice, send: bv8, b: bv8, reply: bv8, sent: seq<bool>, got: seq<bool>, wire: Wire, at: nat)
    requires Midway(d, send, b, reply, sent, got, wire, at) && b != 0
    ensures |sent| == |got| < 8
  {
    hide Holds, Echo, Mask, Bits;
    AtMask(d.lsbFirst, |sent|, send);
  }

  lemma MidwayEnd(d: SpiDevice, send: bv8, b: bv8, reply: bv8, sent: seq<bool>, got: seq<bool>, wire: Wire, at: nat)
    requires Midway(d, send, b, reply, sent, got, wire, at) && b == 0
    ensures |sent| == |got| == 8 && Bits(reply, d.lsbFirst) == got
    ensures d.hasMosi ==> sent == Bits(send, d.lsbFirst)
    ensures d.hasMiso && wire.Answers? ==> at + 8 <= |wire.levels| && got == wire.levels[at..at + 8]
    ensures d.hasMiso && wire.Looped? ==> got == sent
  {
    hide Holds, Echo, Mask, Bits;
    AtMask(d.lsbFirst, |sent|, send);
    HoldsAll(reply, d.lsbFirst, got);
    WholePrefix(Bits(send, d.lsbFirst));
    if d.hasMiso {
      EchoIs(got, sent, wire, at);
    }
  }

  lemma EchoMore(got: seq<bool>, sent: seq<bool>, wire: Wire, at: nat, bit: bool, level: bool)
    requires Echo(got, sent, wire, at) && (wire.Answers? ==> at + |got| < |wire.levels|)
    requires bit == if wire.Looped? then level else wire.levels[at + |got|]
    ensures Echo(got + [bit], sent + [level], wire, at)
  {}

  lemma EchoIs(got: seq<bool>, sent: seq<bool>, wire: Wire, at: nat)
    requires Echo(got, sent, wire, at)
    ensures wire.Answers? ==> at + |got| <= |wire.levels| && got == wire.levels[at..at + |got|]
    ensures wire.Looped? ==> got == sent
  {}

  lemma Assoc(a: seq<bool>, b: seq<bool>, bit: bool)
    ensures (a + b) + [bit] == a + (b + [bit])
  {}

  lemma AssocAll(a: seq<bool>, b: seq<bool>, c: seq<bool>)
    ensures (a + b) + c == a + (b + c)
  {}

  lemma PrefixMore(a: seq<bool>, all: seq<bool>, bit: bool)
    requires |a| < |all|
    ensures a == all[..|a|] && bit == all[|a|] ==> a + [bit] == all[..|a| + 1]
  {}

  lemma WholePrefix(all: seq<bool>)
    ensures all[..|all|] == all
  {}

  lemma AtMask(lsbFirst: bool, j: nat, send: bv8)
    requires j <= 8
    ensures Mask(lsbFirst, j) == 0 <==> j == 8
    ensures j < 8 ==> NextMask(lsbFirst, Mask(lsbFirst, j)) == Mask(lsbFirst, j + 1)
    ensures j < 8 ==> Bits(send, lsbFirst)[j] == IsSet(send, Mask(lsbFirst, j))
  {
    hide BitAt, Mask, NextMask, IsSet;
    MaskSteps(lsbFirst, 0);
    if j < 8 {
      MaskSteps(lsbFirst, j);
      MaskReads(send, lsbFirst, j);
    }
  }
}
