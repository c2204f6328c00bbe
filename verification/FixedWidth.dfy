/** Constants given as C expressions (TPointerExpr): the compiler knows only a range for the value,
    picks a number of bytes from that range, and leaves the bytes to the T0_INTn macros. */
module FixedWidth {
  import opened Ints
  import opened SevenE

  /** Bits needed for a signed representation of v, the sign bit included. */
  function BitLen(v: int): (n: nat)
    ensures n >= 1
    decreases if v < 0 then -v else v
  {
    if v == 0 || v == -1 then 1 else 1 + BitLen(v / 2)
  }

  /** BitLength: one loop for each sign. */
  method BitLength(v: int) returns (num: nat)
    ensures num == BitLen(v)
  {
    num := 1;
    var w := v;
    if w < 0 {
      while w != -1
        invariant w < 0 && num >= 1 && num - 1 + BitLen(w) == BitLen(v)
        decreases -w
      {
        num := num + 1;
        w := w / 2;
      }
    } else {
      while w != 0
        invariant w >= 0 && num >= 1 && num - 1 + BitLen(w) == BitLen(v)
        decreases w
      {
        num := num + 1;
        w := w / 2;
      }
    }
  }

  function MaxBitLen(min: int32, max: int32, off: int32): int {
    var rmin, rmax := min + off, max + off;
    var low := if rmin < 0 then BitLen(rmin) else 1;
    Min(Max(low, if rmax > 0 then BitLen(rmax) else 1), 32)
  }

  /** GetMaxBitLength, on 64-bit intermediate values. */
  method GetMaxBitLength(min: int32, max: int32, off: int32) returns (numBits: int)
    ensures numBits == MaxBitLen(min, max, off)
  {
    var rmin: int := min + off;
    var rmax: int := max + off;
    numBits := 1;
    if rmin < 0 {
      var b := BitLength(rmin);
      numBits := Max(numBits, b);
    }
    if rmax > 0 {
      var b := BitLength(rmax);
      numBits := Max(numBits, b);
    }
    numBits := Min(numBits, 32);
  }

  /** The number of bytes that CodeElementUIntExpr reserves for the constant. */
  function Width(min: int32, max: int32, off: int32): int {
    (MaxBitLen(min, max, off) + 6) / 7
  }

  // ----- The macros of the generated C code -----

  /** T0_FBYTE */
  function FByte(x: int, n: nat): byte {
    Shr(ToUint32(x), n) % 128
  }

  /** T0_VBYTE */
  function VByte(x: int, n: nat): byte {
    Shr(ToUint32(x), n) % 128 + 128
  }

  function Xor(a: byte, b: byte): byte {
    ((a as bv8) ^ (b as bv8)) as int
  }

  /** T0_SBYTE: the low byte of ((x >> 28) + 0xF8) ^ 0xF8. */
  function SByte(x: int): byte {
    Xor((Shr(ToUint32(x), 28) + 0xF8) % 256, 0xF8)
  }

  /** T0_INT1 to T0_INT5 */
  function FixedBytes(x: int, n: int): seq<byte>
    requires 1 <= n <= 5
  {
    if n == 1 then [FByte(x, 0)]
    else if n == 2 then [VByte(x, 7), FByte(x, 0)]
    else if n == 3 then [VByte(x, 14), VByte(x, 7), FByte(x, 0)]
    else if n == 4 then [VByte(x, 21), VByte(x, 14), VByte(x, 7), FByte(x, 0)]
    else [SByte(x), VByte(x, 21), VByte(x, 14), VByte(x, 7), FByte(x, 0)]
  }

  // ----- Sizing -----

  function Pow2(n: nat): (r: int)
    ensures r >= 1
  {
    if n == 0 then 1 else 2 * Pow2(n - 1)
  }

  /** BitLen is exact: n bits hold v iff -2^(n-1) <= v < 2^(n-1). */
  lemma {:induction false} BitLenExact(v: int, n: nat)
    requires n >= 1
    ensures BitLen(v) <= n <==> -Pow2(n - 1) <= v < Pow2(n - 1)
    decreases n
  {
    if n > 1 && v != 0 && v != -1 {
      BitLenExact(v / 2, n - 1);
    }
  }

  lemma {:induction false} Pow2Monotone(m: nat, n: nat)
    requires m <= n
    ensures Pow2(m) <= Pow2(n)
    decreases n
  {
    if m < n {
      Pow2Monotone(m, n - 1);
    }
  }

  lemma {:induction false} Pow2Seven(n: nat)
    ensures Pow2(7 * n + 6) == 64 * Pow128(n)
    decreases n
  {
    if n == 0 {
      assert Pow2(6) == 2 * Pow2(5) == 4 * Pow2(4) == 8 * Pow2(3) == 16 * Pow2(2) == 32 * Pow2(1);
    } else {
      var m := 7 * n + 6;
      assert Pow2(m) == 2 * Pow2(m - 1) == 4 * Pow2(m - 2) == 8 * Pow2(m - 3) == 16 * Pow2(m - 4)
          == 32 * Pow2(m - 5) == 64 * Pow2(m - 6) == 128 * Pow2(m - 7);
      Pow2Seven(n - 1);
    }
  }

  lemma IntBits(v: int32)
    ensures BitLen(v) <= 32
  {
    Pow2Seven(3);
    assert Pow2(27) == 64 * Pow128(3) == 64 * (128 * (128 * (128 * Pow128(0))));
    assert Pow2(31) == 2 * Pow2(30) == 4 * Pow2(29) == 8 * Pow2(28) == 16 * Pow2(27);
    BitLenExact(v, 32);
  }

  /** A value between lo and hi needs no more bits than the larger of the two bounds that matter. */
  lemma BitLenBetween(lo: int, v: int, hi: int, b: nat)
    requires lo <= v <= hi && b >= 1
    requires lo < 0 ==> BitLen(lo) <= b
    requires hi > 0 ==> BitLen(hi) <= b
    ensures BitLen(v) <= b
  {
    BitLenExact(lo, b);
    BitLenExact(v, b);
    BitLenExact(hi, b);
  }

  lemma BitsToGroups(v: int, bits: nat, n: nat)
    requires 1 <= bits <= 7 * n && BitLen(v) <= bits
    ensures LenSigned(v) <= n
  {
    BitLenExact(v, bits);
    Pow2Monotone(bits - 1, 7 * n - 1);
    Pow2Seven(n - 1);
    LenSignedBound(v, n);
  }

  /** Every value that the expression may take fits the reserved width. */
  lemma WidthSuffices(min: int32, max: int32, off: int32, x: int)
    requires min <= x <= max
    requires -TWO_31 <= min + off && max + off < TWO_31
    ensures 1 <= Width(min, max, off) <= 5
    ensures LenSigned(x + off) <= Width(min, max, off)
  {
    hide BitLen, LenSigned;
    IntBits(min + off);
    IntBits(max + off);
    var bits := MaxBitLen(min, max, off);
    BitLenBetween(min + off, x + off, max + off, bits);
    BitsToGroups(x + off, bits, Width(min, max, off));
  }

  /** The length in bits is the least that holds both bounds, but for the cap. */
  lemma MaxBitLenLeast(min: int32, max: int32, off: int32, b: nat)
    requires min <= max && b >= 1
    ensures 1 <= MaxBitLen(min, max, off) <= 32
    ensures MaxBitLen(min, max, off) <= b <==> b >= 32 || (BitLen(min + off) <= b && BitLen(max + off) <= b)
  {
    BitLenExact(min + off, b);
    BitLenExact(max + off, b);
    BitLenExact(0, b);
  }

  lemma BitsAreGroups(v: int, n: nat)
    requires n >= 1
    ensures BitLen(v) <= 7 * n <==> LenSigned(v) <= n
  {
    BitLenExact(v, 7 * n);
    Pow2Seven(n - 1);
    LenSignedBound(v, n);
  }

  /** The reserved width is the larger of the lengths that the two bounds need: no constant takes a byte too many. */
  lemma WidthLeast(min: int32, max: int32, off: int32)
    requires min <= max && -TWO_31 <= min + off && max + off < TWO_31
    ensures Width(min, max, off) == Max(LenSigned(min + off), LenSigned(max + off))
  {
    hide BitLen, LenSigned, MaxBitLen;
    WidthSuffices(min, max, off, min);
    WidthSuffices(min, max, off, max);
    var n := Max(LenSigned(min + off), LenSigned(max + off));
    BitsAreGroups(min + off, n);
    BitsAreGroups(max + off, n);
    MaxBitLenLeast(min, max, off, 7 * n);
  }

  // ----- What the macros produce -----

  lemma {:induction false} Shr7Shift(a: int, m: int, j: nat)
    ensures Shr7(a + Pow128(j) * m, j) == Shr7(a, j) + m
    decreases j
  {
    if j != 0 {
      var q := Pow128(j - 1) * m;
      assert Pow128(j) * m == 128 * q;
      assert (a + 128 * q) / 128 == a / 128 + q;
      Shr7Shift(a / 128, m, j - 1);
    }
  }

  /** The cast adds 2^32 to a negative value, which m makes 128^j times m. */
  lemma ShiftOfCast(x: int32, j: nat, m: int)
    requires Pow128(j) * m == TWO_32
    ensures Shr(ToUint32(x), 7 * j) == Shr7(x, j) + if x < 0 then m else 0
  {
    ShrIsShr7(ToUint32(x), j);
    hide Shr, Shr7, Pow128;
    if x < 0 {
      Shr7Shift(x, m, j);
    }
  }

  /** Groups 0 to 3 of the 32-bit cast are those of the value itself; group 4 differs by its sign. */
  lemma GroupsOfCast(x: int32)
    ensures Shr(ToUint32(x), 0) % 128 == Shr7(x, 0) % 128
    ensures Shr(ToUint32(x), 7) % 128 == Shr7(x, 1) % 128
    ensures Shr(ToUint32(x), 14) % 128 == Shr7(x, 2) % 128
    ensures Shr(ToUint32(x), 21) % 128 == Shr7(x, 3) % 128
    ensures Shr(ToUint32(x), 28) == Shr7(x, 4) + if x < 0 then 16 else 0
  {
    hide ToUint32, Shr, Shr7;
    Pow128Values();
    ShiftOfCast(x, 0, TWO_32);
    ShiftOfCast(x, 1, 0x200_0000);
    ShiftOfCast(x, 2, 0x4_0000);
    ShiftOfCast(x, 3, 0x800);
    ShiftOfCast(x, 4, 16);
    AddMultiple(Shr7(x, 0), 0x200_0000);
    AddMultiple(Shr7(x, 1), 0x4_0000);
    AddMultiple(Shr7(x, 2), 0x800);
    AddMultiple(Shr7(x, 3), 16);
  }

  lemma AddMultiple(a: int, k: int)
    ensures (a + 128 * k) % 128 == a % 128
  {
  }

  lemma Pow128Values()
    ensures Pow128(0) == 1 && Pow128(1) == 0x80 && Pow128(2) == 0x4000
    ensures Pow128(3) == 0x20_0000 && Pow128(4) == 0x1000_0000
  {
    assert Pow128(1) == 128 * Pow128(0);
    assert Pow128(2) == 128 * Pow128(1);
    assert Pow128(3) == 128 * Pow128(2);
    assert Pow128(4) == 128 * Pow128(3);
  }

  lemma SByteValue(x: int32)
    ensures x >= 0 ==> SByte(x) < 8
    ensures x < 0 ==> SByte(x) == Shr7(x, 4) % 128 + 128
  {
    hide ToUint32, Shr, Shr7, Xor;
    GroupsOfCast(x);
    TopBits(x);
    XorTable(Shr(ToUint32(x), 28));
  }

  lemma TopBits(x: int32)
    ensures -8 <= Shr7(x, 4) < 8 && (Shr7(x, 4) < 0 <==> x < 0)
  {
    assert Shr7(x, 4) == Shr7(x / 128, 3) == Shr7(x / 128 / 128, 2) == Shr7(x / 128 / 128 / 128, 1)
        == x / 128 / 128 / 128 / 128;
  }

  lemma XorTable(t: int)
    requires 0 <= t < 16
    ensures Xor((t + 0xF8) % 256, 0xF8) == if t < 8 then t else 0xF0 + t
  {
    hide Xor;
    XorHigh();
    XorLow();
  }

  lemma XorHigh()
    ensures Xor(0xF8, 0xF8) == 0 && Xor(0xF9, 0xF8) == 1 && Xor(0xFA, 0xF8) == 2 && Xor(0xFB, 0xF8) == 3
    ensures Xor(0xFC, 0xF8) == 4 && Xor(0xFD, 0xF8) == 5 && Xor(0xFE, 0xF8) == 6 && Xor(0xFF, 0xF8) == 7
  {
  }

  lemma XorLow()
    ensures Xor(0, 0xF8) == 0xF8 && Xor(1, 0xF8) == 0xF9 && Xor(2, 0xF8) == 0xFA && Xor(3, 0xF8) == 0xFB
    ensures Xor(4, 0xF8) == 0xFC && Xor(5, 0xF8) == 0xFD && Xor(6, 0xF8) == 0xFE && Xor(7, 0xF8) == 0xFF
  {
  }

  /** The groups above the last one, from the top. */
  lemma {:induction false} TopGroup(x: int, n: nat)
    requires n >= 1
    ensures Groups(x / 128, n) == [Shr7(x, n) % 128 + 128] + Groups(x / 128, n - 1)
    decreases n
  {
    if n > 1 {
      TopGroup(x / 128, n - 1);
      var low: seq<byte> := [x / 128 % 128 + 128];
      assert Groups(x / 128, n) == [Shr7(x, n) % 128 + 128] + Groups(x / 128 / 128, n - 2) + low;
    } else {
      assert Groups(x / 128, 1) == Groups(x / 128 / 128, 0) + [x / 128 % 128 + 128];
      assert Shr7(x, 1) == Shr7(x / 128, 0);
    }
  }

  /** T0_INT4 and below, from the top. */
  lemma FixedBytesUnfold(x: int32)
    ensures FixedBytes(x, 1) == [Shr7(x, 0) % 128]
    ensures FixedBytes(x, 2) == [Shr7(x, 1) % 128 + 128] + FixedBytes(x, 1)
    ensures FixedBytes(x, 3) == [Shr7(x, 2) % 128 + 128] + FixedBytes(x, 2)
    ensures FixedBytes(x, 4) == [Shr7(x, 3) % 128 + 128] + FixedBytes(x, 3)
    ensures x < 0 ==> FixedBytes(x, 5) == [Shr7(x, 4) % 128 + 128] + FixedBytes(x, 4)
  {
    hide ToUint32, Shr, Shr7, SByte;
    GroupsOfCast(x);
    SByteValue(x);
  }

  /** Up to four bytes, or with a negative value, the macros produce the 7E groups. */
  lemma {:induction false} FixedBytesAreGroups(x: int32, n: int)
    requires 1 <= n <= 5 && (n <= 4 || x < 0)
    ensures FixedBytes(x, n) == Groups(x / 128, n - 1) + [x % 128]
    decreases n
  {
    FixedBytesUnfold(x);
    if n > 1 {
      FixedBytesAreGroups(x, n - 1);
      TopGroup(x, n - 1);
    }
  }

  /** A constant of declared range [min, max] and offset off, laid out in the reserved width, is read
      back with exactly these bytes iff the width is at most 4 or the value is negative: T0_SBYTE sets
      no continuation bit when the top bit is clear. */
  lemma FixedWidthDecodes(code: seq<byte>, p: nat, min: int32, max: int32, off: int32, x: int)
    requires min <= x <= max
    requires -TWO_31 <= min + off && max + off < TWO_31
    requires var n := Width(min, max, off); 1 <= n <= 5 && At(code, p, FixedBytes(x + off, n))
    ensures var n := Width(min, max, off);
            ParseSigned(code, p) == Parsed(x + off, p + n) <==> n <= 4 || x + off < 0
  {
    var n, v := Width(min, max, off), x + off;
    WidthSuffices(min, max, off, x);
    if n <= 4 || v < 0 {
      FixedBytesAreGroups(v, n);
      PaddedRoundTrip(code, p, v, n);
    } else {
      SByteValue(v);
      assert code[p] == code[p..p + n][0] == SByte(v);
    }
  }

  /** A range that needs five bytes, and a value of it that is not read back: 0 in [0, 2^31 - 1]. */
  lemma FiveBytesFail()
    ensures Width(0, 0x7FFF_FFFF, 0) == 5
    ensures ParseSigned(FixedBytes(0, 5), 0) != Parsed(0, 5)
  {
    hide FixedBytes, ParseSigned;
    WidestRange();
    FixedWidthDecodes(FixedBytes(0, 5), 0, 0, 0x7FFF_FFFF, 0, 0);
  }

  lemma WidestRange()
    ensures Width(0, 0x7FFF_FFFF, 0) == 5
  {
    IntBits(0x7FFF_FFFF);
    PowersOfTwo();
    BitLenExact(0x7FFF_FFFF, 31);
    hide BitLen, Pow2;
  }

  lemma PowersOfTwo()
    ensures Pow2(30) == 0x4000_0000
  {
    Pow2Seven(3);
    assert Pow128(3) == 128 * Pow128(2) && Pow128(2) == 128 * Pow128(1) && Pow128(1) == 128 * Pow128(0);
    assert Pow2(30) == 2 * Pow2(29) == 4 * Pow2(28) == 8 * Pow2(27);
  }
}
