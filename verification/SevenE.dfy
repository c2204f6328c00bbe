/** The "7E" variable-length integers: the encoders of CodeElement and the two decoders of the
    generated C code. Big-endian groups of seven bits; every group but the last carries 0x80. */
module SevenE {
  import opened Ints

  /** The output buffer of the generator, kept as a byte list. */
  class BlobWriter {
    var bytes: seq<byte>

    constructor ()
      ensures bytes == []
    {
      bytes := [];
    }

    method Append(b: byte)
      modifies this
      ensures bytes == old(bytes) + [b]
    {
      bytes := bytes + [b];
    }
  }

  // ----- What an encoding is -----

  /** The n low groups of v, most significant first, each with its continuation bit. */
  function Groups(v: int, n: nat): (s: seq<byte>)
    ensures |s| == n
    decreases n
  {
    if n == 0 then [] else Groups(v / 128, n - 1) + [v % 128 + 128]
  }

  function LenUnsigned(v: nat): (n: nat)
    ensures n >= 1
  {
    if v < 0x80 then 1 else 1 + LenUnsigned(v / 128)
  }

  function LenSigned(v: int): (n: nat)
    ensures n >= 1
    decreases if v < 0 then -v else v
  {
    if -0x40 <= v < 0x40 then 1 else 1 + LenSigned(v / 128)
  }

  function EncUnsigned(v: nat): (s: seq<byte>)
    ensures |s| == LenUnsigned(v)
  {
    Groups(v / 128, LenUnsigned(v) - 1) + [v % 128]
  }

  function EncSigned(v: int): (s: seq<byte>)
    ensures |s| == LenSigned(v)
  {
    Groups(v / 128, LenSigned(v) - 1) + [v % 128]
  }

  // ----- The encoders, as the loops of the source -----

  /** `Shr7(v, n)` drops the n low groups of v. */
  function Shr7(v: int, n: nat): int
    decreases n
  {
    if n == 0 then v else Shr7(v / 128, n - 1)
  }

  lemma {:induction false} Shr7Step(v: int, n: nat)
    ensures Shr7(v, n + 1) == Shr7(v, n) / 128
    decreases n
  {
    if n != 0 {
      Shr7Step(v / 128, n - 1);
    }
  }

  lemma {:induction false} ShrIsShr7(v: int, n: nat)
    ensures Shr(v, 7 * n) == Shr7(v, n)
    decreases n
  {
    if n != 0 {
      ShrAdd(v, 7, 7 * (n - 1));
      ShrSeven(v);
      ShrIsShr7(v / 128, n - 1);
    }
  }

  /** The bytes that the writing loop has produced when the shift count is about to be 7 * j. */
  method EmitGroups(val: int, len: nat, bw: BlobWriter)
    requires len >= 1
    modifies bw
    ensures bw.bytes == old(bw.bytes) + Groups(val / 128, len - 1) + [val % 128]
  {
    var k := (len - 1) * 7;
    ghost var j := len;
    while k >= 0
      invariant k == 7 * (j - 1) && 0 <= j <= len
      invariant j > 0 ==> bw.bytes == old(bw.bytes) + Groups(Shr7(val, j), len - j)
      invariant j == 0 ==> bw.bytes == old(bw.bytes) + Groups(val / 128, len - 1) + [val % 128]
    {
      ShrIsShr7(val, j - 1);
      Shr7Step(val, j - 1);
      var x := Shr(val, k) % 128;
      if k > 0 {
        x := x + 0x80;
      }
      bw.Append(x);
      j := j - 1;
      k := k - 7;
    }
  }

  /** Encode7EUnsigned: the length is the same with and without a writer. */
  method Encode7EUnsigned(val: uint32, bw: BlobWriter?) returns (len: nat)
    modifies bw
    ensures len == LenUnsigned(val)
    ensures bw != null ==> bw.bytes == old(bw.bytes) + EncUnsigned(val)
  {
    len := 1;
    var w: nat := val;
    while w >= 0x80
      invariant len - 1 + LenUnsigned(w) == LenUnsigned(val) && len >= 1
    {
      len := len + 1;
      w := w / 128;
    }
    if bw != null {
      EmitGroups(val, len, bw);
    }
  }

  /** Encode7ESigned: one loop for each sign. */
  method Encode7ESigned(val: int32, bw: BlobWriter?) returns (len: nat)
    modifies bw
    ensures len == LenSigned(val)
    ensures bw != null ==> bw.bytes == old(bw.bytes) + EncSigned(val)
  {
    len := 1;
    var w: int := val;
    if val < 0 {
      while w < -0x40
        invariant w < 0 && len >= 1 && len - 1 + LenSigned(w) == LenSigned(val)
        decreases -w
      {
        len := len + 1;
        w := w / 128;
      }
    } else {
      while w >= 0x40
        invariant w >= 0 && len >= 1 && len - 1 + LenSigned(w) == LenSigned(val)
      {
        len := len + 1;
        w := w / 128;
      }
    }
    if bw != null {
      EmitGroups(val, len, bw);
    }
  }

  // ----- The decoders of the generated C code -----

  /** A decoded value and the position after it; reading past the end of the block is an overrun. */
  datatype Parsed = Parsed(value: int, next: nat) | Overrun

  /** The loop of t0_parse7E_unsigned, from position p with accumulator x. */
  function Accumulate(code: seq<byte>, p: nat, x: uint32): (r: Parsed)
    ensures r.Parsed? ==> 0 <= r.value < TWO_32 && p < r.next <= |code|
    decreases |code| - p
  {
    if p >= |code| then Overrun
    else
      var y := code[p];
      var x' := ToUint32(x * 128 + y % 128);
      if y < 0x80 then Parsed(x', p + 1) else Accumulate(code, p + 1, x')
  }

  function ParseUnsigned(code: seq<byte>, p: nat): Parsed {
    Accumulate(code, p, 0)
  }

  /** t0_parse7E_signed: bit 6 of the first byte is the sign; `~x` is 2^32 - 1 - x. */
  function ParseSigned(code: seq<byte>, p: nat): Parsed {
    if p >= |code| then Overrun
    else
      var neg := code[p] / 64 % 2 == 1;
      match Accumulate(code, p, if neg then TWO_32 - 1 else 0)
      case Overrun => Overrun
      case Parsed(x, next) =>
        if neg then Parsed(-ToInt32(TWO_32 - 1 - x) - 1, next) else Parsed(ToInt32(x), next)
  }

  /** t0_parse7E_unsigned as the loop that advances the code pointer. */
  method Parse7EUnsigned(code: seq<byte>, p: nat) returns (r: Parsed)
    ensures r == ParseUnsigned(code, p)
  {
    var x: uint32 := 0;
    var q := p;
    while q < |code|
      invariant q <= |code| || q == p
      invariant Accumulate(code, q, x) == ParseUnsigned(code, p)
      decreases |code| - q
    {
      var y := code[q];
      q := q + 1;
      x := ToUint32(x * 128 + y % 128);
      if y < 0x80 {
        return Parsed(x, q);
      }
    }
    return Overrun;
  }

  /** t0_parse7E_signed as a loop. */
  method Parse7ESigned(code: seq<byte>, p: nat) returns (r: Parsed)
    ensures r == ParseSigned(code, p)
  {
    if p >= |code| {
      return Overrun;
    }
    var neg := code[p] / 64 % 2 == 1;
    var x: uint32 := if neg then TWO_32 - 1 else 0;
    ghost var start := x;
    var q := p;
    while q < |code|
      invariant p <= q <= |code|
      invariant Accumulate(code, q, x) == Accumulate(code, p, start)
      decreases |code| - q
    {
      var y := code[q];
      q := q + 1;
      x := ToUint32(x * 128 + y % 128);
      if y < 0x80 {
        return if neg then Parsed(-ToInt32(TWO_32 - 1 - x) - 1, q) else Parsed(ToInt32(x), q);
      }
    }
    return Overrun;
  }

  // ----- Round trips -----

  lemma PushGroup(v: int)
    ensures ToUint32(ToUint32(v / 128) * 128 + v % 128) == ToUint32(v)
  {
    var q := v / 128;
    var k := q / TWO_32;
    assert v == q * 128 + v % 128;
    assert ToUint32(q) == q - k * TWO_32;
    assert ToUint32(q) * 128 + v % 128 == v - k * 128 * TWO_32;
    ModShift(v, -k * 128);
  }

  lemma ModShift(a: int, k: int)
    ensures (a + k * TWO_32) % TWO_32 == a % TWO_32
  {
    var q := a / TWO_32;
    assert a + k * TWO_32 == (q + k) * TWO_32 + a % TWO_32;
  }

  /** One byte whose low bits are the last group of v. */
  lemma TakeGroup(code: seq<byte>, q: nat, v: int)
    requires q < |code| && code[q] % 128 == v % 128
    ensures Accumulate(code, q, ToUint32(v / 128))
            == if code[q] < 0x80 then Parsed(ToUint32(v), q + 1) else Accumulate(code, q + 1, ToUint32(v))
  {
    PushGroup(v);
    hide ToUint32;
  }

  /** Reading n continuation groups of v turns the high part of v into v, modulo 2^32. */
  lemma {:induction false} AccumulateGroups(code: seq<byte>, p: nat, v: int, n: nat)
    requires At(code, p, Groups(v, n))
    ensures Accumulate(code, p, ToUint32(Shr7(v, n))) == Accumulate(code, p + n, ToUint32(v))
    decreases n
  {
    hide Accumulate, ToUint32;
    if n != 0 {
      AtSplit(code, p, Groups(v / 128, n - 1), [v % 128 + 128]);
      AccumulateGroups(code, p, v / 128, n - 1);
      assert code[p + n - 1] == code[p + n - 1..p + n][0] == v % 128 + 128;
      TakeGroup(code, p + n - 1, v);
    }
  }

  /** Reading all groups of v, the last one included. */
  lemma AccumulateAll(code: seq<byte>, p: nat, v: int, len: nat)
    requires len >= 1 && At(code, p, Groups(v / 128, len - 1) + [v % 128])
    ensures Accumulate(code, p, ToUint32(Shr7(v, len))) == Parsed(ToUint32(v), p + len)
  {
    hide Accumulate, ToUint32;
    AtSplit(code, p, Groups(v / 128, len - 1), [v % 128]);
    AccumulateGroups(code, p, v / 128, len - 1);
    assert code[p + len - 1] == code[p + len - 1..p + len][0] == v % 128;
    TakeGroup(code, p + len - 1, v);
  }

  lemma {:induction false} TopUnsigned(v: nat)
    ensures Shr7(v, LenUnsigned(v)) == 0
  {
    if v >= 0x80 {
      TopUnsigned(v / 128);
    } else {
      assert Shr7(v, 1) == Shr7(v / 128, 0);
    }
  }

  /** Seen through n groups, no fewer than needed, v leaves only its sign. */
  lemma {:induction false} TopSigned(v: int, n: nat)
    requires LenSigned(v) <= n
    ensures -0x40 <= Shr7(v, n - 1) < 0x40
    ensures Shr7(v, n) == if v < 0 then -1 else 0
    ensures Shr7(v, n - 1) < 0 <==> v < 0
    decreases n
  {
    if n == 1 {
      assert Shr7(v, 1) == Shr7(v / 128, 0);
    } else {
      TopSigned(v / 128, n - 1);
    }
  }

  /** The first byte of an encoding holds the top group. */
  lemma {:induction false} FirstGroup(v: int, n: nat)
    requires n >= 1
    ensures Groups(v, n)[0] == Shr7(v, n - 1) % 128 + 128
    decreases n
  {
    if n > 1 {
      FirstGroup(v / 128, n - 1);
    }
  }

  lemma FirstByteSigned(v: int, n: nat)
    requires LenSigned(v) <= n
    ensures ((Groups(v / 128, n - 1) + [v % 128])[0] / 64 % 2 == 1) <==> v < 0
  {
    TopSigned(v, n);
    if n > 1 {
      FirstGroup(v / 128, n - 1);
      assert Shr7(v, n - 1) == Shr7(v / 128, n - 2);
    }
    var top := Shr7(v, n - 1);
    assert (Groups(v / 128, n - 1) + [v % 128])[0] % 128 == top % 128;
  }

  /** decode(encode(v)) == v for every unsigned value, whatever bytes come before and after. */
  lemma UnsignedRoundTrip(code: seq<byte>, p: nat, v: uint32)
    requires At(code, p, EncUnsigned(v))
    ensures ParseUnsigned(code, p) == Parsed(v, p + LenUnsigned(v))
  {
    hide Accumulate, Groups, LenUnsigned, Shr7;
    TopUnsigned(v);
    AccumulateAll(code, p, v, LenUnsigned(v));
  }

  /** Any number of groups that holds v decodes to v, the shortest one included. */
  lemma PaddedRoundTrip(code: seq<byte>, p: nat, v: int32, n: nat)
    requires LenSigned(v) <= n && At(code, p, Groups(v / 128, n - 1) + [v % 128])
    ensures ParseSigned(code, p) == Parsed(v, p + n)
  {
    TopSigned(v, n);
    assert code[p] / 64 % 2 == 1 <==> v < 0 by {
      FirstByteSigned(v, n);
      assert code[p] == code[p..p + n][0];
    }
    AccumulateAll(code, p, v, n);
    CastBack(v);
  }

  /** decode(encode(v)) == v for every signed value, whatever bytes come before and after. */
  lemma SignedRoundTrip(code: seq<byte>, p: nat, v: int32)
    requires At(code, p, EncSigned(v))
    ensures ParseSigned(code, p) == Parsed(v, p + LenSigned(v))
  {
    PaddedRoundTrip(code, p, v, LenSigned(v));
  }

  lemma CastBack(v: int32)
    ensures ToUint32(-1) == TWO_32 - 1
    ensures v < 0 ==> -ToInt32(TWO_32 - 1 - ToUint32(v)) - 1 == v
    ensures v >= 0 ==> ToInt32(ToUint32(v)) == v
  {
  }

  // ----- Minimality -----

  function Pow128(n: nat): (r: nat)
    ensures r >= 1
  {
    if n == 0 then 1 else 128 * Pow128(n - 1)
  }

  /** n groups are enough exactly for the values below 128^n. */
  lemma {:induction false} LenUnsignedBound(v: nat, n: nat)
    requires n >= 1
    ensures LenUnsigned(v) <= n <==> v < Pow128(n)
  {
    if n == 1 {
      assert Pow128(1) == 128 * Pow128(0) == 128;
    } else if v >= 0x80 {
      LenUnsignedBound(v / 128, n - 1);
    } else {
      assert Pow128(n) >= 128;
    }
  }

  lemma {:induction false} LenSignedBound(v: int, n: nat)
    requires n >= 1
    ensures LenSigned(v) <= n <==> -64 * Pow128(n - 1) <= v < 64 * Pow128(n - 1)
    decreases n
  {
    if n > 1 {
      assert Pow128(n - 1) == 128 * Pow128(n - 2);
      if -0x40 <= v < 0x40 {
      } else {
        LenSignedBound(v / 128, n - 1);
      }
    }
  }

  lemma LengthsAtMostFive(u: uint32, v: int32)
    ensures LenUnsigned(u) <= 5 && LenSigned(v) <= 5
  {
    assert Pow128(5) == 128 * 128 * 128 * 128 * 128;
    LenUnsignedBound(u, 5);
    LenSignedBound(v, 5);
  }

  /** The loop of the decoders on unbounded integers. */
  function Exact(code: seq<byte>, p: nat, y: int): Parsed
    decreases |code| - p
  {
    if p >= |code| then Overrun
    else
      var z := y * 128 + code[p] % 128;
      if code[p] < 0x80 then Parsed(z, p + 1) else Exact(code, p + 1, z)
  }

  /** The 32-bit accumulator is the unbounded one modulo 2^32. */
  lemma {:induction false} AccumulateIsExact(code: seq<byte>, p: nat, y: int)
    ensures var a := Accumulate(code, p, ToUint32(y));
            var e := Exact(code, p, y);
            a == if e.Overrun? then Overrun else Parsed(ToUint32(e.value), e.next)
    decreases |code| - p
  {
    if p < |code| {
      var z := y * 128 + code[p] % 128;
      assert z / 128 == y && z % 128 == code[p] % 128;
      PushGroup(z);
      AccumulateIsExact(code, p + 1, z);
    }
  }

  /** k more groups multiply the range of the accumulated value by 128^k. */
  lemma {:induction false} ExactBound(code: seq<byte>, p: nat, y: int, lo: int, hi: int)
    requires lo <= y < hi && Exact(code, p, y).Parsed?
    ensures p < Exact(code, p, y).next
    ensures var k := Exact(code, p, y).next - p;
            lo * Pow128(k) <= Exact(code, p, y).value < hi * Pow128(k)
    decreases |code| - p
  {
    var z := y * 128 + code[p] % 128;
    assert Pow128(1) == 128 * Pow128(0);
    if code[p] >= 0x80 {
      ExactBound(code, p + 1, z, 128 * lo, 128 * hi);
      var k := Exact(code, p, y).next - p;
      MulAssoc(128, lo, Pow128(k - 1));
      MulAssoc(128, hi, Pow128(k - 1));
    }
  }

  lemma MulAssoc(a: int, b: int, c: int)
    ensures a * b * c == b * (a * c)
  {
  }

  /** No byte string shorter than the encoding of v decodes to v. */
  lemma UnsignedIsShortest(code: seq<byte>, p: nat)
    requires ParseUnsigned(code, p).Parsed?
    ensures p < ParseUnsigned(code, p).next && ParseUnsigned(code, p).value >= 0
    ensures LenUnsigned(ParseUnsigned(code, p).value) <= ParseUnsigned(code, p).next - p
  {
    AccumulateIsExact(code, p, 0);
    ExactBound(code, p, 0, 0, 1);
    LenUnsignedBound(ParseUnsigned(code, p).value, ParseUnsigned(code, p).next - p);
  }

  /** The sign of the first byte enters the accumulator as its bits above bit 6. */
  function SignedStart(y: byte): int {
    if y / 64 % 2 == 1 then y % 128 - 128 else y % 128
  }

  /** The two ways in which the decoder reads the accumulator back. */
  lemma ReadBack(z: int)
    ensures ToInt32(ToUint32(z)) == ToInt32(z) && -ToInt32(TWO_32 - 1 - ToUint32(z)) - 1 == ToInt32(z)
  {
  }

  /** After its first byte, the signed decoder is a cast of the unbounded loop. */
  lemma ParseSignedIsCast(code: seq<byte>, p: nat)
    requires p < |code|
    ensures var e := if code[p] < 0x80 then Parsed(SignedStart(code[p]), p + 1)
                     else Exact(code, p + 1, SignedStart(code[p]));
            ParseSigned(code, p) == if e.Overrun? then Overrun else Parsed(ToInt32(e.value), e.next)
  {
    hide Accumulate, ToInt32;
    var y0: int := if code[p] / 64 % 2 == 1 then -1 else 0;
    AccumulateIsExact(code, p, y0);
    var e := Exact(code, p, y0);
    assert y0 * 128 + code[p] % 128 == SignedStart(code[p]);
    if e.Parsed? {
      ReadBack(e.value);
    }
  }

  lemma ShortStaysExact(z: int, k: nat)
    requires 1 <= k <= 4 && -64 * Pow128(k - 1) <= z < 64 * Pow128(k - 1)
    ensures ToInt32(z) == z
  {
    assert Pow128(3) == 128 * 128 * 128;
    Pow128Monotone(k - 1, 3);
  }

  /** No byte string shorter than the encoding of v decodes to v, signed case. */
  lemma SignedIsShortest(code: seq<byte>, p: nat)
    requires ParseSigned(code, p).Parsed?
    ensures p < ParseSigned(code, p).next
    ensures LenSigned(ParseSigned(code, p).value) <= ParseSigned(code, p).next - p
  {
    assert p < |code|;
    hide ParseSigned, Exact, Accumulate, LenSigned, Pow128;
    ParseSignedIsCast(code, p);
    var v, k := ParseSigned(code, p).value, ParseSigned(code, p).next - p;
    if code[p] < 0x80 {
      OneGroup(code[p]);
    } else {
      var e := Exact(code, p + 1, SignedStart(code[p]));
      ExactBound(code, p + 1, SignedStart(code[p]), -64, 64);
      if k <= 4 {
        ShortStaysExact(e.value, k);
        LenSignedBound(v, k);
      } else {
        LengthsAtMostFive(0, v);
      }
    }
  }

  lemma OneGroup(y: byte)
    requires y < 0x80
    ensures LenSigned(ToInt32(SignedStart(y))) == 1
  {
  }

  lemma {:induction false} Pow128Monotone(m: nat, n: nat)
    requires m <= n
    ensures Pow128(m) <= Pow128(n)
  {
    if m < n {
      Pow128Monotone(m, n - 1);
    }
  }
}
