/** StackMap.HashCommon.nextPowerOfTwo, the table-size rounding, on the 64 bits of a Java long. */
module HashCommon {

  /** Java's `>>` on a long: a shift that copies the sign bit into the vacated high bits. */
  function Sar(x: bv64, s: bv64): bv64
    requires s < 64
  {
    if x >> 63 == 1 then !(!x >> s) else x >> s
  }

  /** `x |= x >> s`, one step of nextPowerOfTwo. */
  function OrShifted(x: bv64, s: bv64): bv64
    requires s < 64
  {
    x | Sar(x, s)
  }

  /** The steps for s = 1, 2, 4, 8, 16 and then 32, as nextPowerOfTwo applies them to x - 1. */
  function Filled(a: bv64): bv64
  {
    OrShifted(OrShifted(OrShifted(OrShifted(OrShifted(OrShifted(a, 1), 2), 4), 8), 16), 32)
  }

  predicate IsPowerOfTwo(r: bv64)
  {
    r != 0 && r & (r - 1) == 0
  }

  /** nextPowerOfTwo: 1 for 0, otherwise x - 1 filled, plus one. It works on a = x - 1: for a
      below 2^62 (1 <= x <= 2^62) it gives the least power of two above a, which is the least
      one at least x; for a from 2^62 to Long.MAX_VALUE it overflows to Long.MIN_VALUE, and for a
      negative a (x above Long.MIN_VALUE) it gives 0. */
  function NextPowerOfTwo(x: bv64): (r: bv64)
    ensures x == 0 ==> r == 1
    ensures x != 0 ==> var a := x - 1;
      && (a < 0x4000_0000_0000_0000 ==> IsPowerOfTwo(r) && a < r && r >> 1 <= a)
      && (0x4000_0000_0000_0000 <= a < 0x8000_0000_0000_0000 ==> r == 0x8000_0000_0000_0000)
      && (0x8000_0000_0000_0000 <= a ==> r == 0)
  {
    if x == 0 then 1
    else
      var a := x - 1;
      SignBit(a);
      if a >> 63 == 0 then NonNegativeFilled(a); Filled(a) + 1
      else FilledNegative(a); Filled(a) + 1
  }

  /** In unsigned terms a long is non-negative exactly when it is below 2^63. */
  lemma SignBit(a: bv64)
    ensures a >> 63 == 0 <==> a < 0x8000_0000_0000_0000
  {
  }

  /** The same ors with unsigned shifts, which is what they are on a non-negative long. */
  function Smear(a: bv64): bv64
  {
    var b := a | (a >> 1);
    var c := b | (b >> 2);
    var d := c | (c >> 4);
    var e := d | (d >> 8);
    var f := e | (e >> 16);
    f | (f >> 32)
  }

  /** On a non-negative long the filling plus one is the least power of two above it. */
  lemma NonNegativeFilled(a: bv64)
    requires a >> 63 == 0
    ensures var r := Filled(a) + 1;
      && IsPowerOfTwo(r) && a < r && r >> 1 <= a
      && (a >= 0x4000_0000_0000_0000 ==> r == 0x8000_0000_0000_0000)
  {
    FilledRun(a);
    RunPlusOne(Filled(a), a);
  }

  /** The ors turn a non-negative long into a run of low ones that keeps each of its bits and
      reaches its highest set bit and no further. */
  lemma FilledRun(a: bv64)
    requires a >> 63 == 0
    ensures var f := Filled(a);
      && f & (f + 1) == 0 && f >> 63 == 0 && f | a == f
      && (1 <= a ==> f >> 1 < a) && (a == 0 ==> f == 0)
  {
    FilledIsSmear(a);
    SmearRun(a);
  }

  lemma FilledIsSmear(a: bv64)
    requires a >> 63 == 0
    ensures Filled(a) == Smear(a)
  {
    var b := OrShifted(a, 1);
    SarOfNonNegative(a, 1);
    var c := OrShifted(b, 2);
    SarOfNonNegative(b, 2);
    var d := OrShifted(c, 4);
    SarOfNonNegative(c, 4);
    var e := OrShifted(d, 8);
    SarOfNonNegative(d, 8);
    var f := OrShifted(e, 16);
    SarOfNonNegative(e, 16);
    SarOfNonNegative(f, 32);
    assert Filled(a) == OrShifted(f, 32);
  }

  /** On a non-negative long `>>` is the unsigned shift, and oring the shift in keeps the sign
      bit clear. */
  lemma SarOfNonNegative(x: bv64, s: bv64)
    requires x >> 63 == 0 && s < 64
    ensures OrShifted(x, s) == x | (x >> s) && OrShifted(x, s) >> 63 == 0
  {
  }

  /** Smear makes the same run. */
  lemma SmearRun(a: bv64)
    requires a >> 63 == 0
    ensures var f := Smear(a);
      && f & (f + 1) == 0 && f >> 63 == 0 && f | a == f
      && (1 <= a ==> f >> 1 < a) && (a == 0 ==> f == 0)
  {
  }

  /** One more than a run of low ones that covers a and reaches its highest set bit is the least
      power of two above a; when a has bit 62 set that is the sign bit. */
  lemma RunPlusOne(f: bv64, a: bv64)
    requires f & (f + 1) == 0 && f >> 63 == 0 && f | a == f
    requires (1 <= a ==> f >> 1 < a) && (a == 0 ==> f == 0)
    ensures IsPowerOfTwo(f + 1) && a < f + 1 && (f + 1) >> 1 <= a
    ensures a >= 0x4000_0000_0000_0000 ==> f + 1 == 0x8000_0000_0000_0000
  {
    Covers(f, a);
  }

  /** A pattern that keeps every bit of a is at least a. */
  lemma Covers(s: bv64, a: bv64)
    requires s | a == s
    ensures s >= a
  {
  }

  /** A negative long fills to all ones. */
  lemma FilledNegative(a: bv64)
    requires a >> 63 == 1
    ensures Filled(a) == 0xFFFF_FFFF_FFFF_FFFF
  {
  }
}
