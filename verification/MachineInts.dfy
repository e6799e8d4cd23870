/** The integer types of the C++ sources. A value stored in a variable of one of these types is
    proved to be in range, so every narrowing the sources do implicitly is shown not to truncate. */
module MachineInts {
  type UInt8 = v: int | 0 <= v < 0x100
  type UInt16 = v: int | 0 <= v < 0x1_0000
  type UInt32 = v: int | 0 <= v < 0x1_0000_0000
  type Int16 = v: int | -0x8000 <= v < 0x8000
  type Int32 = v: int | -0x8000_0000 <= v < 0x8000_0000

  function Abs(v: int): (r: nat)
    ensures r == v || r == -v
  {
    if v < 0 then -v else v
  }

  function Min(a: int, b: int): int { if a < b then a else b }

  function Max(a: int, b: int): int { if a < b then b else a }

  /** The value can be stored in an int16_t. */
  predicate Short(v: int) {
    -0x8000 <= v < 0x8000
  }

  /** What is left of a value that is stored in an int16_t. */
  function ToInt16(v: int): (r: Int16)
    ensures Short(v) ==> r == v
    ensures 0x8000 <= v < 0x1_8000 ==> r == v - 0x1_0000
    ensures -0x1_8000 <= v < -0x8000 ==> r == v + 0x1_0000
  {
    (v + 0x8000) % 0x1_0000 - 0x8000
  }

  /** What is left of a value that is stored in a uint16_t. */
  function ToUInt16(v: nat): (r: UInt16)
    ensures r == v <==> v < 0x1_0000
  {
    v % 0x1_0000
  }

  /** An overflow on the way to a sum does not matter. */
  lemma ToInt16Sum(a: int, b: int)
    ensures ToInt16(ToInt16(a) + b) == ToInt16(a + b)
  {}
}
