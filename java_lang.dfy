/** The few java.lang behaviours the core relies on: 32-bit int and 64-bit long
    arithmetic, String.hashCode, Long.hashCode and Long.toString. */
module JavaLang {

  const TWO_31: int := 0x8000_0000
  const TWO_32: int := 0x1_0000_0000
  const TWO_63: int := 0x8000_0000_0000_0000
  const TWO_64: int := 0x1_0000_0000_0000_0000

  /** The 32-bit Java int that a char widens to. Characters are Dafny scalar values,
      so a character outside the Basic Multilingual Plane counts as one unit here. */
  function CharUnit(c: char): bv32
  {
    (c as int) as bv32
  }

  /** A value a Java int can hold. */
  predicate IsInt(n: int)
  {
    -TWO_31 <= n < TWO_31
  }

  /** The value a Java int holds after an arithmetic result n is stored in it. */
  function Wrap32(n: int): (r: int)
    ensures IsInt(r)
    ensures (r - n) % TWO_32 == 0
    ensures IsInt(n) ==> r == n
  {
    var m := n % TWO_32;
    if m < TWO_31 then m else m - TWO_32
  }

  /** The value a Java long holds after an arithmetic result n is stored in it. */
  function Wrap64(n: int): (r: int)
    ensures -TWO_63 <= r < TWO_63
    ensures (r - n) % TWO_64 == 0
  {
    var m := n % TWO_64;
    if m < TWO_63 then m else m - TWO_64
  }

  /** The two's-complement bit pattern of a long. */
  function LongBits(n: int): bv64
  {
    (n % TWO_64) as bv64
  }

  /** The low 32 bits of a 64-bit pattern, as a Java (int) cast keeps them. */
  function Low32(x: bv64): bv32
  {
    (x & 0xFFFF_FFFF) as bv32
  }

  /** Long.hashCode: (int) (value ^ (value >>> 32)). */
  function LongHash(n: int): bv32
  {
    var b := LongBits(n);
    Low32(b ^ (b >> 32))
  }

  /** String.hashCode: h = 31 * h + c over the characters, left to right. */
  function StringHash(s: string): bv32
  {
    StringHashFrom(0, s)
  }

  function StringHashFrom(h: bv32, s: string): bv32
    decreases |s|
  {
    if s == [] then h else StringHashFrom(31 * h + CharUnit(s[0]), s[1..])
  }

  /** The decimal digits of a natural number, most significant first. */
  function Digits(n: nat): (r: string)
    ensures |r| > 0
    ensures forall i :: 0 <= i < |r| ==> '0' <= r[i] <= '9'
    decreases n
  {
    var d := ['0' + ((n % 10) as char)];
    if n < 10 then d else Digits(n / 10) + d
  }

  /** Long.toString: an optional minus sign followed by the digits. */
  function DecimalString(n: int): string
  {
    if n < 0 then "-" + Digits(-n) else Digits(n)
  }
}
