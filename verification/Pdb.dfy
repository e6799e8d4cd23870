/** The programmable delay block of the Teensy ADC driver: choosing its divider and reading it back
    (ADC_Module.cpp, startPDB and getPDBFrequency). */
module Pdb {
  import opened MachineInts
  import opened Arithmetic

  const MIN_LEVEL: UInt32 := 0xFFFF

  function Pow2(n: nat): (p: nat)
    ensures p > 0
  {
    if n == 0 then 1 else 2 * Pow2(n - 1)
  }

  /** The factor of the MULT field: 1, 10, 20 or 40. */
  function MultFactor(mult: nat): (f: nat)
    ensures f > 0
  {
    if mult == 0 then 1 else 10 * Pow2(mult - 1)
  }

  /** By how much the bus clock is divided for each count. */
  function Factor(prescaler: nat, mult: nat): (f: nat)
    ensures f > 0
  {
    ProductPositive(Pow2(prescaler), MultFactor(mult));
    Pow2(prescaler) * MultFactor(mult)
  }

  // ----- the status and control register

  /** Trigger input 15, PDB enabled, interrupt enabled, continuous mode, registers loaded at once. */
  const ADC_PDB_CONFIG: bv32 := (15 << 8) | 0x80 | 0x20 | 0x02 | (0 << 18)
  const PDB_SC_LDOK: bv32 := 0x01
  const PDB_SC_SWTRIG: bv32 := 0x10000

  function ScPrescaler(n: bv32): bv32 { (n & 7) << 12 }

  function ScMult(n: bv32): bv32 { (n & 3) << 2 }

  function ReadPrescaler(sc: bv32): bv32 { (sc & 0x7000) >> 12 }

  function ReadMult(sc: bv32): bv32 { (sc & 0xC) >> 2 }

  /** The two fields read back whatever else is set. */
  lemma FieldsReadBack(p: bv32, m: bv32, others: bv32)
    requires p < 8 && m < 4 && others & 0x700C == 0
    ensures ReadPrescaler(others | ScPrescaler(p) | ScMult(m)) == p
    ensures ReadMult(others | ScPrescaler(p) | ScMult(m)) == m
  {}

  function ToWord(n: nat): bv32
    requires n < 8
  {
    n as bv32
  }

  function FromWord(w: bv32): nat
    requires w < 8
  {
    w as nat
  }

  lemma WordRoundTrip(n: nat)
    requires n < 8
    ensures ToWord(n) < 8 && FromWord(ToWord(n)) == n && (n < 4 ==> ToWord(n) < 4)
  {}

  lemma FieldsSmall(sc: bv32)
    ensures ReadPrescaler(sc) < 8 && ReadMult(sc) < 4
    ensures FromWord(ReadPrescaler(sc)) < 8 && FromWord(ReadMult(sc)) < 4
  {}

  // ----- choosing the divider

  /** Dividing m counts by the factor brings them below 65535, by no more than one factor of two too far. */
  predicate Window(m: nat, prescaler: nat, mult: nat) {
    m < Factor(prescaler, mult) * MIN_LEVEL <= 2 * m
  }

  lemma Factors()
    ensures Factor(1, 0) == 2 && Factor(2, 0) == 4 && Factor(3, 0) == 8 && Factor(4, 0) == 16
    ensures Factor(5, 0) == 32 && Factor(6, 0) == 64 && Factor(7, 0) == 128
    ensures Factor(0, 1) == 10 && Factor(0, 2) == 20 && Factor(0, 3) == 40
    ensures Factor(4, 1) == 160 && Factor(4, 2) == 320 && Factor(4, 3) == 640
    ensures Factor(5, 3) == 1280 && Factor(6, 3) == 2560 && Factor(7, 3) == 5120
  {
    assert Pow2(1) == 2 && Pow2(2) == 4;
    assert Pow2(3) == 8 && Pow2(4) == 16;
    assert Pow2(5) == 32 && Pow2(6) == 64;
    assert Pow2(7) == 128;
  }

  lemma DivideTwice(a: nat, b: nat, c: nat)
    requires b > 0 && c > 0
    ensures b * c > 0 && a / b / c == a / (b * c)
  {
    var q := a / b;
    var s := q / c;
    assert b * q <= a < b * (q + 1);
    assert c * s <= q < c * (s + 1);
    ProductPositive(b, c);
    MulMono(c * s, q, b);
    MulMono(q + 1, c * (s + 1), b);
    assert c * s * b == s * (b * c) && c * (s + 1) * b == (s + 1) * (b * c);
    QuotientIs(a, b * c, s);
  }

  lemma InWindow(m: nat, prescaler: nat, mult: nat)
    requires Window(m, prescaler, mult)
    ensures 32767 <= m / Factor(prescaler, mult) <= 65534
  {
    var k := Factor(prescaler, mult);
    var q := m / k;
    assert k * q <= m < k * (q + 1);
    MulMono(q + 1, 32767, k);
    MulMono(65535, q, k);
  }

  /** The counts per period: unscaled when they fit 16 bits, else divided by prescaler and multiplier.
      Not ok: the frequency is too low. */
  method Scale(counts: UInt32) returns (ok: bool, mod: UInt32, prescaler: UInt8, mult: UInt8)
    ensures ok <==> counts < 5120 * MIN_LEVEL
    ensures ok ==> prescaler < 8 && mult < 4 && mod == counts / Factor(prescaler, mult)
    ensures counts <= MIN_LEVEL ==> prescaler == 0 && mult == 0 && mod == counts
    ensures ok && counts > MIN_LEVEL ==> 32767 <= mod <= 65534
  {
    hide Pow2, MultFactor, Factor;
    ok, mod, prescaler, mult := true, counts, 0, 0;
    Unscaled(counts);
    if mod > MIN_LEVEL {
      Factors();
      if mod < 2 * MIN_LEVEL {
        prescaler := 1;
      } else if mod < 4 * MIN_LEVEL {
        prescaler := 2;
      } else if mod < 8 * MIN_LEVEL {
        prescaler := 3;
      } else if mod < 10 * MIN_LEVEL {
        mult := 1;
      } else if mod < 16 * MIN_LEVEL {
        prescaler := 4;
      } else if mod < 20 * MIN_LEVEL {
        mult := 2;
      } else if mod < 32 * MIN_LEVEL {
        prescaler := 5;
      } else if mod < 40 * MIN_LEVEL {
        mult := 3;
      } else if mod < 64 * MIN_LEVEL {
        prescaler := 6;
      } else if mod < 128 * MIN_LEVEL {
        prescaler := 7;
      } else if mod < 160 * MIN_LEVEL {
        prescaler, mult := 4, 1;
      } else if mod < 320 * MIN_LEVEL {
        prescaler, mult := 4, 2;
      } else if mod < 640 * MIN_LEVEL {
        prescaler, mult := 4, 3;
      } else if mod < 1280 * MIN_LEVEL {
        prescaler, mult := 5, 3;
      } else if mod < 2560 * MIN_LEVEL {
        prescaler, mult := 6, 3;
      } else if mod < 5120 * MIN_LEVEL {
        prescaler, mult := 7, 3;
      } else {
        ok := false;
        return;
      }
      InWindow(counts, prescaler, mult);
      Divided(counts, prescaler, mult);
      mod := mod / Pow2(prescaler);
      if mult > 0 {
        mod := mod / 10;
        mod := mod / Pow2(mult - 1);
      }
    }
  }

  lemma Unscaled(counts: nat)
    ensures Factor(0, 0) == 1 && counts / Factor(0, 0) == counts
  {}

  lemma Divided(counts: nat, prescaler: nat, mult: nat)
    ensures mult == 0 ==> counts / Pow2(prescaler) == counts / Factor(prescaler, mult)
    ensures mult > 0 ==> counts / Pow2(prescaler) / 10 / Pow2(mult - 1) == counts / Factor(prescaler, mult)
    ensures 0 <= counts / Pow2(prescaler) <= counts
  {
    hide Pow2;
    var p := Pow2(prescaler);
    DivideTwice(counts, p, MultFactor(mult));
    if mult > 0 {
      DivideTwice(counts / p, 10, Pow2(mult - 1));
    }
    Smaller(counts, p);
  }

  lemma Smaller(n: nat, d: nat)
    requires d > 0
    ensures 0 <= n / d <= n
  {
    MulMono(1, d, n / d);
    assert d * (n / d) <= n;
  }

  // ----- the round trip

  /** For counts = bus / f divided by k: the frequency that mod = counts / k stands for. */
  lemma ReadBackError(bus: nat, f: nat, k: nat, mod: nat)
    requires f > 0 && k > 0 && mod == bus / f / k && mod > 0
    ensures mod * k > 0
    ensures var g := bus / (mod * k); f <= g && (g - f) * mod < f
  {
    var counts, n := bus / f, mod * k;
    ProductPositive(mod, k);
    DivisionRest(bus, f);
    DivisionRest(counts, k);
    DivisionRest(bus, n);
    MulMono(n, counts, f);
    NotBelow(bus, n, f, bus / n);
    MulMono(counts + 1, n + k, f);
    LessThanOneCount(f, k, mod, bus / n);
  }

  lemma LessThanOneCount(f: nat, k: nat, mod: nat, g: nat)
    requires g * (mod * k) < (mod * k + k) * f
    ensures (g - f) * mod < f
  {
    var e := (g - f) * mod - f;
    assert e * k == g * (mod * k) - (mod * k + k) * f;
    if e >= 0 {
      MulMono(0, e, k);
    }
  }

  lemma NotBelow(a: nat, n: nat, f: nat, g: nat)
    requires n > 0 && n * f <= a && g == a / n
    ensures f <= g
  {
    if f > g {
      MulMono(g + 1, f, n);
    }
  }

  /** When it is the frequency itself: what the two divisions leave over has to be less than the divisor. */
  lemma ReadBackExact(bus: nat, f: nat, k: nat, mod: nat)
    requires f > 0 && k > 0 && mod == bus / f / k && mod > 0
    ensures mod * k > 0
    ensures bus / (mod * k) == f <==> f * (bus / f % k) + bus % f < mod * k
  {
    var counts, n := bus / f, mod * k;
    ProductPositive(mod, k);
    SplitUp(bus, f, k);
    assert f * n >= 0 && n * f == f * n;
    if f * (counts % k) + bus % f < n {
      NotNegativeProduct(f, counts % k);
      QuotientIs(bus, n, f);
    } else {
      NextMultiple(f, n);
      NotBelow(bus, n, f + 1, bus / n);
    }
  }

  lemma NotNegativeProduct(a: nat, b: nat)
    ensures a * b >= 0
  {}

  lemma SplitUp(bus: nat, f: nat, k: nat)
    requires f > 0 && k > 0
    ensures bus == f * (bus / f / k * k) + f * (bus / f % k) + bus % f
  {
    var counts := bus / f;
    assert bus == f * counts + bus % f;
    assert counts == counts / k * k + counts % k;
    Distribute(f, counts / k * k, counts % k);
  }

  lemma Distribute(f: int, a: int, b: int)
    ensures f * (a + b) == f * a + f * b
  {}

  // ----- the driver

  /** The frequencies that startPDB takes. */
  predicate Accepted(bus: UInt32, freq: UInt32) {
    1 <= freq <= bus && bus / freq < 5120 * 0xFFFF
  }

  /** The prescaler: a factor for each of the bits 12, 13 and 14. */
  ghost function Prescale(sc: bv32): nat {
    (if sc & 0x1000 != 0 then 2 else 1) * (if sc & 0x2000 != 0 then 4 else 1) * (if sc & 0x4000 != 0 then 16 else 1)
  }

  /** The multiplier, in bits 2 and 3. */
  ghost function Multiply(sc: bv32): nat {
    if sc & 0xC == 0x0 then 1 else if sc & 0xC == 0x4 then 10 else if sc & 0xC == 0x8 then 20 else 40
  }

  /** The divider that the status and control register selects. */
  ghost function ScFactor(sc: bv32): (f: nat)
    ensures f > 0
  {
    Prescale(sc) * Multiply(sc)
  }

  lemma ScFactorIs(sc: bv32)
    ensures ReadPrescaler(sc) < 8 && ReadMult(sc) < 4
    ensures FromWord(ReadPrescaler(sc)) < 8 && FromWord(ReadMult(sc)) < 4
    ensures ScFactor(sc) == Factor(FromWord(ReadPrescaler(sc)), FromWord(ReadMult(sc)))
  {
    hide ReadPrescaler, ReadMult, Prescale, Multiply, FromWord, Pow2, MultFactor;
    FieldsSmall(sc);
    PrescaleIs(sc);
    MultiplyIs(sc);
  }

  lemma PrescaleIs(sc: bv32)
    ensures ReadPrescaler(sc) < 8 && Prescale(sc) == Pow2(FromWord(ReadPrescaler(sc)))
  {
    hide ReadPrescaler, Prescale, FromWord;
    FieldsSmall(sc);
    PrescalerBits(sc);
    SmallWords();
    assert Pow2(1) == 2 && Pow2(2) == 4;
    assert Pow2(3) == 8 && Pow2(4) == 16;
    assert Pow2(5) == 32 && Pow2(6) == 64;
    assert Pow2(7) == 128;
  }

  lemma PrescalerBits(sc: bv32)
    ensures var p := ReadPrescaler(sc);
            p < 8 && Prescale(sc) == if p < 4 then if p < 2 then if p == 0 then 1 else 2 else if p == 2 then 4 else 8
                                     else if p < 6 then if p == 4 then 16 else 32 else if p == 6 then 64 else 128
  {}

  lemma MultiplyIs(sc: bv32)
    ensures ReadMult(sc) < 4 && Multiply(sc) == MultFactor(FromWord(ReadMult(sc)))
  {
    hide ReadMult, Multiply, FromWord;
    FieldsSmall(sc);
    MultiplierBits(sc);
    SmallWords();
    assert Pow2(1) == 2 && Pow2(2) == 4;
  }

  lemma MultiplierBits(sc: bv32)
    ensures var m := ReadMult(sc);
            m < 4 && Multiply(sc) == if m == 0 then 1 else if m == 1 then 10 else if m == 2 then 20 else 40
  {}

  lemma SmallWords()
    ensures FromWord(0) == 0 && FromWord(1) == 1 && FromWord(2) == 2 && FromWord(3) == 3
    ensures FromWord(4) == 4 && FromWord(5) == 5 && FromWord(6) == 6 && FromWord(7) == 7
  {}

  /** The frequency that the two registers stand for. */
  ghost function Frequency(bus: UInt32, mod: UInt16, sc: bv32): nat {
    ProductPositive(mod + 1, ScFactor(sc));
    bus / ((mod + 1) * ScFactor(sc))
  }

  /** How the registers have to stand for an accepted frequency: MOD was not cut by its 16 bits, and what reads
      back is less than one count away from the frequency, and equal to it where stated. */
  ghost predicate StandsFor(bus: UInt32, freq: UInt32, mod: UInt16, sc: bv32)
    requires Accepted(bus, freq)
  {
    var counts, g := bus / freq, Frequency(bus, mod, sc);
    && mod + 1 == counts / ScFactor(sc)
    && (counts <= 0xFFFF ==> ScFactor(sc) == 1)
    && (counts > 0xFFFF ==> 32767 <= mod + 1 <= 65534)
    && freq <= g && (g - freq) * (mod + 1) < freq
    && (g == freq <==> freq * (counts % ScFactor(sc)) + bus % freq < (mod + 1) * ScFactor(sc))
  }

  /** So a scaled frequency is exact on every bus below 2^31 Hz, which no board exceeds. */
  lemma ScaledExact(bus: UInt32, freq: UInt32, mod: UInt16, sc: bv32)
    requires Accepted(bus, freq) && StandsFor(bus, freq, mod, sc)
    requires bus / freq > MIN_LEVEL && bus < 0x8000_0000
    ensures Frequency(bus, mod, sc) == freq
  {
    hide ScFactor, Frequency;
    assert freq * (bus / freq) <= bus;
    MulMono(0x1_0000, bus / freq, freq);
    if Frequency(bus, mod, sc) > freq {
      MulMono(1, Frequency(bus, mod, sc) - freq, mod + 1);
    }
  }

  /** An unscaled one is exact if and only if the remainder is below the quotient. */
  lemma UnscaledExact(bus: UInt32, freq: UInt32, mod: UInt16, sc: bv32)
    requires Accepted(bus, freq) && StandsFor(bus, freq, mod, sc) && bus / freq <= MIN_LEVEL
    ensures Frequency(bus, mod, sc) == freq <==> bus % freq < bus / freq
  {
    hide ScFactor, Frequency;
    assert bus / freq % 1 == 0 && bus / freq / 1 == bus / freq;
  }

  /** 44100 Hz on a bus of 60 MHz reads back as 44117 Hz. */
  lemma AudioRateMisses(mod: UInt16, sc: bv32)
    requires StandsFor(60_000_000, 44_100, mod, sc)
    ensures Frequency(60_000_000, mod, sc) == 44_117
  {
    hide ScFactor;
    assert ScFactor(sc) == 1 && mod + 1 == 1360;
  }

  /** The limit on the bus is needed: at 4259969999 Hz the scaled frequency 65000 Hz does not read back. */
  lemma FastBusMisses(mod: UInt16, sc: bv32)
    requires StandsFor(4_259_969_999, 65_000, mod, sc)
    ensures Frequency(4_259_969_999, mod, sc) != 65_000
  {
    hide ScFactor, Frequency;
    var k := ScFactor(sc);
    DivisionRest(65537, k);
    MulMono(32767, mod + 1, k);
    MulMono(mod + 1, 65534, k);
    assert k == 2;
  }

  /** The registers of the block; bus is ADC_F_BUS. */
  class AdcModule {
    const bus: UInt32
    var clockEnabled: bool
    var hardwareTrigger: bool
    var idly: UInt16
    var mod: UInt16
    var sc: bv32
    var channelControl: bv32

    constructor (bus: UInt32)
      ensures this.bus == bus
    {
      this.bus := bus;
    }

    /** Starting the block. A frequency that is not accepted only turns its clock on. */
    method StartPdb(freq: UInt32)
      modifies this
      ensures clockEnabled
      ensures !Accepted(bus, freq) ==> unchanged(`hardwareTrigger, `idly, `mod, `sc, `channelControl)
      ensures Accepted(bus, freq) ==> StandsFor(bus, freq, mod, sc)
      ensures Accepted(bus, freq) ==>
        hardwareTrigger && idly == 1 && channelControl == 0x0101 && sc & 0xFFFF8FF3 == 0x10FA2
    {
      hide *;
      clockEnabled := true;
      if freq > bus {
        NotAccepted(bus, freq);
        return;
      }
      if freq < 1 {
        NotAccepted(bus, freq);
        return;
      }
      QuotientSmall(bus, freq);
      var counts := bus / freq;
      var ok, m, prescaler, mult := Scale(counts);
      AcceptedIf(bus, freq, ok);
      if !ok {
        return;
      }
      hardwareTrigger := true;
      idly := 1;
      ModFits(bus, freq, m);
      mod := (m - 1) % 0x1_0000;
      sc := ADC_PDB_CONFIG | ScPrescaler(ToWord(prescaler)) | ScMult(ToWord(mult)) | PDB_SC_LDOK;
      sc := ADC_PDB_CONFIG | ScPrescaler(ToWord(prescaler)) | ScMult(ToWord(mult)) | PDB_SC_SWTRIG;
      channelControl := 0x0100 | 0x01;
      ScIs(prescaler, mult);
      Outcome(bus, freq, m, prescaler, mult, sc);
    }

    /** No shift or product overflows 32 bits and nothing is divided by zero, whatever the registers hold. */
    method GetPdbFrequency() returns (freq: UInt32)
      ensures freq == Frequency(bus, mod, sc)
    {
      hide *;
      ScFactorIs(sc);
      var prescaler := FromWord(ReadPrescaler(sc));
      var mult := FromWord(ReadMult(sc));
      NoOverflow(mod, prescaler, mult);
      var scaled: UInt32 := (mod + 1) * Pow2(prescaler);
      MultFactorIs(mult);
      var factor: UInt32 := if mult == 0 then 1 else 10 * Pow2(mult - 1);
      var divisor: UInt32 := scaled * factor;
      QuotientSmall(bus, divisor);
      freq := bus / divisor;
      FrequencyIs(bus, mod, sc, divisor);
    }
  }

  lemma MultFactorIs(mult: nat)
    ensures MultFactor(mult) == if mult == 0 then 1 else 10 * Pow2(mult - 1)
  {}

  lemma FrequencyIs(bus: UInt32, mod: UInt16, sc: bv32, divisor: nat)
    requires divisor > 0 && divisor == (mod + 1) * ScFactor(sc)
    ensures bus / divisor == Frequency(bus, mod, sc)
  {
    hide ScFactor;
  }

  lemma NotAccepted(bus: UInt32, freq: UInt32)
    requires freq > bus || freq < 1
    ensures !Accepted(bus, freq)
  {}

  lemma AcceptedIf(bus: UInt32, freq: UInt32, ok: bool)
    requires 1 <= freq <= bus && (ok <==> bus / freq < 5120 * MIN_LEVEL)
    ensures Accepted(bus, freq) == ok
  {}

  lemma QuotientSmall(n: UInt32, d: UInt32)
    requires d > 0
    ensures 0 <= n / d < 0x1_0000_0000
  {
    Smaller(n, d);
  }

  lemma ModFits(bus: nat, freq: nat, m: nat)
    requires 0 < freq <= bus
    requires bus / freq <= MIN_LEVEL ==> m == bus / freq
    requires bus / freq > MIN_LEVEL ==> 32767 <= m <= 65534
    ensures 0 < m <= 65535 && (m - 1) % 0x1_0000 == m - 1
  {
    NotBelow(bus, freq, 1, bus / freq);
  }

  lemma Outcome(bus: UInt32, freq: UInt32, m: UInt32, prescaler: UInt8, mult: UInt8, sc: bv32)
    requires Accepted(bus, freq) && 0 < m <= 65535
    requires m == bus / freq / Factor(prescaler, mult) && ScFactor(sc) == Factor(prescaler, mult)
    requires bus / freq <= MIN_LEVEL ==> prescaler == 0 && mult == 0 && m == bus / freq
    requires bus / freq > MIN_LEVEL ==> 32767 <= m <= 65534
    ensures StandsFor(bus, freq, m - 1, sc)
  {
    hide Factor, ScFactor;
    var counts, k := bus / freq, Factor(prescaler, mult);
    ReadBackError(bus, freq, k, m);
    ReadBackExact(bus, freq, k, m);
    Unscaled(counts);
  }

  lemma ScIs(prescaler: nat, mult: nat)
    requires prescaler < 8 && mult < 4
    ensures var sc := ADC_PDB_CONFIG | ScPrescaler(ToWord(prescaler)) | ScMult(ToWord(mult)) | PDB_SC_SWTRIG;
      sc & 0xFFFF8FF3 == 0x10FA2 && ScFactor(sc) == Factor(prescaler, mult)
  {
    hide Factor, ScFactor;
    ScFactorIs(ADC_PDB_CONFIG | ScPrescaler(ToWord(prescaler)) | ScMult(ToWord(mult)) | PDB_SC_SWTRIG);
    WordRoundTrip(prescaler);
    WordRoundTrip(mult);
    ScBits(ToWord(prescaler), ToWord(mult));
  }

  lemma ScBits(p: bv32, m: bv32)
    requires p < 8 && m < 4
    ensures var sc := ADC_PDB_CONFIG | ScPrescaler(p) | ScMult(m) | PDB_SC_SWTRIG;
      sc & 0xFFFF8FF3 == 0x10FA2 && ReadPrescaler(sc) == p && ReadMult(sc) == m
  {}

  lemma Pow2Small(n: nat)
    requires n < 8
    ensures 1 <= Pow2(n) <= 128 && (n < 3 ==> Pow2(n) <= 4)
  {
    assert Pow2(2) == 4;
    assert Pow2(4) == 16;
    assert Pow2(6) == 64;
  }

  lemma NoOverflow(mod: UInt16, prescaler: nat, mult: nat)
    requires prescaler < 8 && mult < 4
    ensures 0 < (mod + 1) * Pow2(prescaler) <= 0x80_0000 && 0 < MultFactor(mult) <= 40
    ensures 0 < (mod + 1) * Pow2(prescaler) * MultFactor(mult) <= 0x1400_0000
    ensures (mod + 1) * Pow2(prescaler) * MultFactor(mult) == (mod + 1) * Factor(prescaler, mult)
  {
    hide Pow2;
    Pow2Small(prescaler);
    if mult > 0 {
      Pow2Small(mult - 1);
    }
    Bounded(mod + 1, Pow2(prescaler), MultFactor(mult));
  }

  lemma Bounded(n: nat, p: nat, q: nat)
    requires 0 < n <= 0x1_0000 && 0 < p <= 128 && 0 < q <= 40
    ensures 0 < n * p <= 0x80_0000 && 0 < n * p * q <= 0x1400_0000 && n * p * q == n * (p * q)
  {
    ProductPositive(n, p);
    ProductPositive(n * p, q);
    MulMono(n, 0x1_0000, p);
    MulMono(q, 40, n * p);
    Regroup(n, p, q);
  }

  lemma Regroup(n: nat, p: nat, q: nat)
    ensures n * p * q == n * (p * q)
  {}
}
