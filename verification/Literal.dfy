/** Literals: integers, character constants and strings. A token is a sequence of UTF-16 code units. */
module Literal {
  import opened Ints
  import opened ConstData

  // ----- Digits -----

  type Token = seq<char16>

  /** The code unit of an ASCII character. */
  function Ascii(c: char): char16
    requires c as int < 0x80
  {
    c as int
  }

  /** The value of a hexadecimal digit, -1 for any other character. */
  function HexVal(c: char16): (d: int)
    ensures -1 <= d < 16
  {
    if Ascii('0') <= c <= Ascii('9') then c - Ascii('0')
    else if Ascii('A') <= c <= Ascii('F') then c - Ascii('A') + 10
    else if Ascii('a') <= c <= Ascii('f') then c - Ascii('a') + 10
    else -1
  }

  type Radix = r: int | r == 2 || r == 10 || r == 16 witness 10

  predicate IsDigit(c: char16, radix: Radix) {
    0 <= HexVal(c) < radix
  }

  predicate Digits(s: Token, radix: Radix) {
    forall i :: 0 <= i < |s| ==> IsDigit(s[i], radix)
  }

  /** The number that a digit string denotes. */
  function Magnitude(s: Token, radix: Radix): nat
    requires Digits(s, radix)
  {
    if s == [] then 0 else Magnitude(s[..|s| - 1], radix) * radix + HexVal(s[|s| - 1])
  }

  lemma {:induction false} MagnitudeGrows(s: Token, radix: Radix, i: nat)
    requires Digits(s, radix) && i <= |s|
    ensures Magnitude(s[..i], radix) <= Magnitude(s, radix)
    decreases |s|
  {
    if i < |s| {
      var init := s[..|s| - 1];
      assert init[..i] == s[..i];
      MagnitudeGrows(init, radix, i);
      assert Magnitude(s, radix) == Magnitude(init, radix) * radix + HexVal(s[|s| - 1]);
      hide Magnitude, HexVal;
      assert Magnitude(init, radix) <= Magnitude(init, radix) * radix;
    } else {
      assert s[..i] == s;
    }
  }

  lemma MagnitudeNext(s: Token, radix: Radix, i: nat)
    requires Digits(s, radix) && i < |s|
    ensures Magnitude(s[..i + 1], radix) == Magnitude(s[..i], radix) * radix + HexVal(s[i])
  {
    assert s[..i + 1][..i] == s[..i];
  }

  lemma DigitsNext(s: Token, radix: Radix, i: nat)
    requires i < |s| && Digits(s[..i], radix)
    ensures IsDigit(s[i], radix) <==> 0 <= HexVal(s[i]) < radix
    ensures IsDigit(s[i], radix) <==> Digits(s[..i + 1], radix)
    ensures Digits(s, radix) ==> IsDigit(s[i], radix)
  {
    assert s[..i + 1] == s[..i] + [s[i]];
  }

  // ----- The accumulation loop -----

  const MAX_U32: int := 0xFFFF_FFFF

  /** One digit: the 32-bit accumulator and the overflow flag. */
  lemma PushDigit(acc: uint32, radix: Radix, d: int)
    requires 0 <= d < radix
    ensures var exact := acc * radix + d;
            var over := acc > MAX_U32 / radix || d > MAX_U32 - ToUint32(acc * radix);
            (over <==> exact > MAX_U32) && (!over ==> ToUint32(ToUint32(acc * radix) + d) == exact)
  {
    if acc <= MAX_U32 / radix {
      assert acc * radix <= MAX_U32;
    } else {
      assert acc * radix > MAX_U32;
    }
  }

  /** The loop over the digits: None is an invalid digit. The accumulator is exact as long as the flag is
      clear, and the flag is set exactly if the number does not fit 32 bits. */
  method Accumulate(s: Token, radix: Radix) returns (r: Option<(uint32, bool)>)
    ensures r.None? <==> !Digits(s, radix)
    ensures r.Some? ==> (r.value.1 <==> Magnitude(s, radix) > MAX_U32)
    ensures r.Some? && !r.value.1 ==> r.value.0 == Magnitude(s, radix)
  {
    hide Magnitude, HexVal;
    var acc: uint32, overflow := 0, false;
    var maxV := MAX_U32 / radix;
    StartTally(s, radix);
    for i := 0 to |s|
      invariant Tally(s, radix, i, acc, overflow)
    {
      var d := HexVal(s[i]);
      DigitsNext(s, radix, i);
      if d < 0 || d >= radix {
        return None;
      }
      TallyNext(s, radix, i, acc, overflow);
      if acc > maxV {
        overflow := true;
      }
      acc := ToUint32(acc * radix);
      if d > MAX_U32 - acc {
        overflow := true;
      }
      acc := ToUint32(acc + d);
    }
    assert s[..|s|] == s;
    r := Some((acc, overflow));
  }

  /** The state of the loop after i digits. */
  ghost predicate Tally(s: Token, radix: Radix, i: nat, acc: uint32, overflow: bool) {
    && i <= |s| && Digits(s[..i], radix)
    && (overflow <==> Magnitude(s[..i], radix) > MAX_U32)
    && (!overflow ==> acc == Magnitude(s[..i], radix))
  }

  lemma StartTally(s: Token, radix: Radix)
    ensures Tally(s, radix, 0, 0, false)
  {
  }

  lemma TallyNext(s: Token, radix: Radix, i: nat, acc: uint32, overflow: bool)
    requires Tally(s, radix, i, acc, overflow) && i < |s| && IsDigit(s[i], radix)
    ensures var d, acc1 := HexVal(s[i]), ToUint32(acc * radix);
            Tally(s, radix, i + 1, ToUint32(acc1 + d), overflow || acc > MAX_U32 / radix || d > MAX_U32 - acc1)
  {
    var t := s[..i + 1];
    DigitsNext(s, radix, i);
    assert t[..i] == s[..i] && t[..i + 1] == t;
    MagnitudeNext(t, radix, i);
    MagnitudeGrows(t, radix, i);
    hide Magnitude, HexVal, Digits;
    PushDigit(acc, radix, HexVal(s[i]));
  }

  // ----- Character constants -----

  function SingleCharEscape(c: char16): char16 {
    if c == Ascii('n') then 0x0A
    else if c == Ascii('r') then 0x0D
    else if c == Ascii('t') then 0x09
    else if c == Ascii('s') then 0x20
    else c
  }

  function Pow16(n: nat): nat {
    if n == 0 then 1 else 16 * Pow16(n - 1)
  }

  lemma {:induction false} MagnitudeBelow(s: Token)
    requires Digits(s, 16)
    ensures Magnitude(s, 16) < Pow16(|s|)
    decreases |s|
  {
    if s != [] {
      MagnitudeBelow(s[..|s| - 1]);
    }
  }

  lemma HexFits(s: Token)
    requires |s| <= 4 && Digits(s, 16)
    ensures Magnitude(s, 16) < 0x1_0000
  {
    MagnitudeBelow(s);
    assert Pow16(4) == 16 * Pow16(3) && Pow16(3) == 16 * Pow16(2) && Pow16(2) == 16 * Pow16(1) == 256;
  }

  /** DecHex; None is -1. The accumulator is a 32-bit integer, so that more than seven digits may overflow it; the
      escape sequences have two or four. */
  method DecHex(s: Token) returns (r: Option<int>)
    requires |s| <= 4
    ensures r == if Digits(s, 16) then Some(Magnitude(s, 16)) else None
    ensures r.Some? ==> 0 <= r.value < 0x1_0000
  {
    hide Magnitude, HexVal;
    var acc := 0;
    StartTally(s, 16);
    for i := 0 to |s|
      invariant Digits(s[..i], 16) && acc == Magnitude(s[..i], 16)
    {
      var d := HexVal(s[i]);
      DigitsNext(s, 16, i);
      if d < 0 {
        return None;
      }
      ghost var t := s[..i + 1];
      assert t[..i] == s[..i] && t[..i + 1] == t;
      MagnitudeNext(t, 16, i);
      acc := acc * 16 + d;
    }
    assert s[..|s|] == s;
    HexFits(s);
    r := Some(acc);
  }

  const BACKSLASH: char16 := 0x5C

  /** The character that stands for itself, or that an escape sequence denotes. */
  function CharOf(t: Token): Option<char16> {
    if |t| == 1 && t[0] != BACKSLASH then Some(t[0])
    else if |t| == 4 && t[0] == BACKSLASH && t[1] == Ascii('x') then HexOf(t[2..])
    else if |t| == 6 && t[0] == BACKSLASH && t[1] == Ascii('u') then HexOf(t[2..])
    else if |t| == 2 && t[0] == BACKSLASH && t[1] != Ascii('x') && t[1] != Ascii('u') then Some(SingleCharEscape(t[1]))
    else None
  }

  function HexOf(s: Token): Option<char16>
    requires |s| <= 4
  {
    if !Digits(s, 16) then None
    else
      HexFits(s);
      Some(Magnitude(s, 16))
  }

  /** DecodeCharConst; None is the exception. */
  method DecodeCharConst(t: Token) returns (r: Option<char16>)
    ensures r == CharOf(t)
  {
    if |t| == 1 && t[0] != BACKSLASH {
      return Some(t[0]);
    }
    if |t| >= 2 && t[0] == BACKSLASH {
      if t[1] == Ascii('x') {
        if |t| == 4 {
          var x := DecHex(t[2..]);
          return if x.Some? then Some(x.value) else None;
        }
      } else if t[1] == Ascii('u') {
        if |t| == 6 {
          var x := DecHex(t[2..]);
          return if x.Some? then Some(x.value) else None;
        }
      } else if |t| == 2 {
        return Some(SingleCharEscape(t[1]));
      }
    }
    r := None;
  }

  // ----- The whole token -----

  /** `Overflow` and `InvalidChar` are the exceptions; `Text` is a pointer to the start of a new block. */
  datatype Parsed = NotLiteral | Overflow | InvalidChar | Value(v: int32) | Text(block: ConstData)

  predicate StartsWith(s: Token, c: char)
    requires c as int < 0x80
  {
    s != [] && s[0] == Ascii(c)
  }

  predicate Prefixed(s: Token, lower: char, upper: char)
    requires lower as int < 0x80 && upper as int < 0x80
  {
    |s| >= 2 && s[0] == Ascii('0') && (s[1] == Ascii(lower) || s[1] == Ascii(upper))
  }

  predicate Quoted(tt: Token) {
    StartsWith(tt, '"') || StartsWith(tt, '`')
  }

  /** The sign, the radix and the digits of a token. */
  function Sign(tt: Token): (bool, Token) {
    if StartsWith(tt, '-') then (true, tt[1..])
    else if StartsWith(tt, '+') then (false, tt[1..])
    else (false, tt)
  }

  function Prefix(s: Token): (Radix, Token) {
    if Prefixed(s, 'x', 'X') then (16, s[2..])
    else if Prefixed(s, 'b', 'B') then (2, s[2..])
    else (10, s)
  }

  /** The integer that a literal denotes, if it is one. */
  function Denoted(tt: Token): Option<int> {
    var (neg, rest) := Sign(tt);
    var (radix, digits) := Prefix(rest);
    if digits == [] || !Digits(digits, radix) then None
    else
      var m: int := Magnitude(digits, radix);
      Some(if neg then -m else m)
  }

  /** A pointer to a new block that holds s. */
  method StringToBlob(s: Token) returns (block: ConstData)
    ensures fresh(block) && fresh(block.buf) && block.Valid()
    ensures block.Contents() == Utf8All(FromUtf16(s)) + [0]
  {
    block := new ConstData();
    block.AddString(s);
  }

  /** TryParseLiteral. A token that starts with a quote is the string after it, one that starts with a backquote the
      character after it, or an exception. On any other token it throws exactly on the literals outside
      [-2^31, 2^32), and otherwise returns the 32-bit value that is congruent to the literal. */
  method TryParseLiteral(tt: Token) returns (r: Parsed)
    ensures r.Text? <==> StartsWith(tt, '"')
    ensures r.Text? ==> fresh(r.block) && r.block.Valid() && r.block.Contents() == Utf8All(FromUtf16(tt[1..])) + [0]
    ensures r.InvalidChar? <==> StartsWith(tt, '`') && CharOf(tt[1..]).None?
    ensures StartsWith(tt, '`') && CharOf(tt[1..]).Some? ==> r == Value(CharOf(tt[1..]).value)
    ensures !Quoted(tt) ==> (r.NotLiteral? <==> Denoted(tt).None?)
    ensures !Quoted(tt) && Denoted(tt).Some? ==> (r.Overflow? <==> !(-TWO_31 <= Denoted(tt).value < TWO_32))
    ensures !Quoted(tt) && r.Value? ==> Denoted(tt).Some? && r.v == ToInt32(Denoted(tt).value)
  {
    if StartsWith(tt, '"') {
      var block := StringToBlob(tt[1..]);
      return Text(block);
    }
    if StartsWith(tt, '`') {
      var c := DecodeCharConst(tt[1..]);
      return if c.Some? then Value(c.value) else InvalidChar;
    }
    var (neg, rest) := Sign(tt);
    var (radix, digits) := Prefix(rest);
    if digits == [] {
      return NotLiteral;
    }
    var a := Accumulate(digits, radix);
    if a.None? {
      return NotLiteral;
    }
    var acc, overflow := a.value.0, a.value.1;
    var x := ToInt32(acc);
    if neg {
      if acc > TWO_31 {
        overflow := true;
      }
      x := ToInt32(-x);
    }
    if overflow {
      return Overflow;
    }
    r := Value(x);
  }

  // ----- Round trip -----

  function DigitChar(d: int): (c: char16)
    requires 0 <= d < 16
    ensures HexVal(c) == d
  {
    if d < 10 then Ascii('0') + d else Ascii('a') + (d - 10)
  }

  /** The usual numeral of a number, without leading zeros. */
  function Numeral(n: nat, radix: Radix): (s: Token)
    ensures s != [] && Digits(s, radix)
    decreases n
  {
    if n < radix then [DigitChar(n)] else Numeral(n / radix, radix) + [DigitChar(n % radix)]
  }

  lemma {:induction false} NumeralDenotes(n: nat, radix: Radix)
    ensures Magnitude(Numeral(n, radix), radix) == n
    decreases n
  {
    if n < radix {
      assert Numeral(n, radix)[..0] == [];
    } else {
      NumeralDenotes(n / radix, radix);
      var s := Numeral(n, radix);
      assert s[..|s| - 1] == Numeral(n / radix, radix);
    }
  }

  /** The decimal text of an integer. */
  function Show(v: int): Token {
    if v < 0 then [Ascii('-')] + Numeral(-v, 10) else Numeral(v, 10)
  }

  function ShowHex(v: nat): Token {
    [Ascii('0'), Ascii('x')] + Numeral(v, 16)
  }

  lemma NumeralPlain(n: nat)
    ensures var s := Numeral(n, 10);
            !StartsWith(s, '-') && !StartsWith(s, '+') && !Quoted(s)
    ensures Prefix(Numeral(n, 10)) == (10, Numeral(n, 10))
  {
    var s := Numeral(n, 10);
    assert IsDigit(s[0], 10);
    if |s| >= 2 {
      assert IsDigit(s[1], 10);
    }
  }

  /** Every integer is denoted by its decimal text, and every natural number by its hexadecimal one. */
  lemma ShowDenotes(v: int)
    ensures Denoted(Show(v)) == Some(v)
    ensures v >= 0 ==> Denoted(ShowHex(v)) == Some(v)
    ensures !Quoted(Show(v))
  {
    var n := if v < 0 then -v else v;
    NumeralPlain(n);
    NumeralDenotes(n, 10);
    NumeralDenotes(n, 16);
    if v < 0 {
      assert Show(v)[1..] == Numeral(n, 10);
    } else {
      assert ShowHex(v)[2..] == Numeral(n, 16);
    }
  }

  /** The escape sequence of a code unit. */
  function Escape(c: char16): Token {
    [BACKSLASH, Ascii('u'), DigitChar(c / 0x1000), DigitChar(c / 0x100 % 16), DigitChar(c / 0x10 % 16),
     DigitChar(c % 16)]
  }

  lemma FourDigits(s: Token)
    requires |s| == 4 && Digits(s, 16)
    ensures Magnitude(s, 16) == HexVal(s[0]) * 0x1000 + HexVal(s[1]) * 0x100 + HexVal(s[2]) * 0x10 + HexVal(s[3])
  {
    assert Magnitude(s[..0], 16) == 0;
    hide HexVal, Digits;
    MagnitudeNext(s, 16, 0);
    MagnitudeNext(s, 16, 1);
    MagnitudeNext(s, 16, 2);
    MagnitudeNext(s, 16, 3);
    hide Magnitude;
    assert s[..4] == s;
  }

  lemma FourGroups(c: nat)
    ensures c / 0x1000 * 0x1000 + c / 0x100 % 16 * 0x100 + c / 0x10 % 16 * 0x10 + c % 16 == c
  {
    var a, b, d := c / 0x10, c / 0x100, c / 0x1000;
    assert b == a / 16 && d == b / 16;
    assert c == a * 16 + c % 16 && a == b * 16 + a % 16 && b == d * 16 + b % 16;
  }

  lemma EscapeDigits(c: char16)
    ensures var t := Escape(c)[2..];
            && |t| == 4 && Digits(t, 16)
            && HexVal(t[0]) == c / 0x1000 && HexVal(t[1]) == c / 0x100 % 16
            && HexVal(t[2]) == c / 0x10 % 16 && HexVal(t[3]) == c % 16
  {
    hide HexVal, DigitChar;
  }

  /** Every code unit has a character constant, by its escape sequence. */
  lemma EscapeDenotes(c: char16)
    ensures CharOf(Escape(c)) == Some(c)
  {
    EscapeDigits(c);
    hide HexVal, Magnitude, Digits, DigitChar;
    FourDigits(Escape(c)[2..]);
    FourGroups(c);
  }

  // ----- What the spellings stand for -----

  /** The digits, in both cases; nothing else is one. */
  lemma DigitSpellings(c: char16, d: nat)
    requires d < 16
    ensures HexVal(c) == d <==>
              if d < 10 then c == Ascii('0') + d else c == Ascii('a') + d - 10 || c == Ascii('A') + d - 10
    ensures HexVal(c) < 0 <==>
              !(Ascii('0') <= c <= Ascii('9') || Ascii('A') <= c <= Ascii('F') || Ascii('a') <= c <= Ascii('f'))
  {
  }

  /** The value of a text is that of its digits, each weighted with its place. */
  lemma {:induction false} Positional(s: Token, radix: Radix, i: nat)
    requires Digits(s, radix) && i <= |s|
    ensures Magnitude(s, radix) == Magnitude(s[..i], radix) * Power(radix, |s| - i) + Magnitude(s[i..], radix)
    decreases |s| - i
  {
    if i == |s| {
      assert s[..i] == s && s[i..] == [];
    } else {
      var init, rest := s[..|s| - 1], s[i..];
      assert init[..i] == s[..i] && init[i..] == rest[..|rest| - 1];
      Positional(init, radix, i);
      var a, b := Magnitude(s[..i], radix), Power(radix, |init| - i);
      assert Magnitude(s, radix) == Magnitude(init, radix) * radix + HexVal(s[|s| - 1]);
      assert Magnitude(rest, radix) == Magnitude(init[i..], radix) * radix + HexVal(s[|s| - 1]);
      assert Power(radix, |s| - i) == radix * b;
      hide Magnitude, HexVal, Digits, Power;
      Distribute(a, b, radix, Magnitude(init[i..], radix));
    }
  }

  lemma Distribute(a: int, b: int, r: int, m: int)
    ensures (a * b + m) * r == a * (r * b) + m * r
  {
  }

  function Power(radix: Radix, n: nat): nat {
    if n == 0 then 1 else radix * Power(radix, n - 1)
  }

  predicate IsSign(t: Token) {
    t == [] || t == [Ascii('+')] || t == [Ascii('-')]
  }

  predicate IsPrefix(t: Token, radix: Radix) {
    if radix == 10 then t == []
    else
      && |t| == 2 && t[0] == Ascii('0')
      && if radix == 16 then t[1] == Ascii('x') || t[1] == Ascii('X') else t[1] == Ascii('b') || t[1] == Ascii('B')
  }

  /** A sign or none, a prefix in either case or none, and digits: this denotes the value of the digits. */
  lemma SpellingsDenote(sign: Token, prefix: Token, s: Token, radix: Radix)
    requires IsSign(sign) && IsPrefix(prefix, radix) && s != [] && Digits(s, radix)
    ensures Denoted(sign + (prefix + s))
            == Some(if sign == [Ascii('-')] then -(Magnitude(s, radix) as int) else Magnitude(s, radix))
  {
    PrefixSpelt(prefix, s, radix);
    SignSpelt(sign, prefix + s);
    hide Sign, Prefix, Digits, Magnitude, IsPrefix;
  }

  lemma SignSpelt(sign: Token, t: Token)
    requires IsSign(sign) && t != [] && t[0] != Ascii('+') && t[0] != Ascii('-')
    ensures Sign(sign + t) == (sign == [Ascii('-')], t)
  {
    if sign == [] {
      assert sign + t == t;
    } else {
      assert (sign + t)[1..] == t;
    }
  }

  lemma PrefixSpelt(prefix: Token, s: Token, radix: Radix)
    requires IsPrefix(prefix, radix) && s != [] && Digits(s, radix)
    ensures Prefix(prefix + s) == (radix, s) && (prefix + s)[0] != Ascii('+') && (prefix + s)[0] != Ascii('-')
  {
    assert IsDigit(s[0], radix);
    if radix == 10 {
      assert prefix + s == s;
      assert |s| >= 2 ==> IsDigit(s[1], 10);
    } else {
      assert (prefix + s)[2..] == s;
    }
  }

  /** The escapes of one character, and of two hexadecimal digits. */
  lemma EscapesStandFor(c: char16, s: Token)
    ensures CharOf([BACKSLASH, Ascii('n')]) == Some(10) && CharOf([BACKSLASH, Ascii('r')]) == Some(13)
    ensures CharOf([BACKSLASH, Ascii('t')]) == Some(9) && CharOf([BACKSLASH, Ascii('s')]) == Some(32)
    ensures c !in [Ascii('n'), Ascii('r'), Ascii('t'), Ascii('s'), Ascii('x'), Ascii('u')] ==>
              CharOf([BACKSLASH, c]) == Some(c)
    ensures |s| == 2 && Digits(s, 16) ==> CharOf([BACKSLASH, Ascii('x')] + s) == Some(Magnitude(s, 16))
    ensures c != BACKSLASH ==> CharOf([c]) == Some(c)
  {
    assert ([BACKSLASH, Ascii('x')] + s)[2..] == s;
    hide Magnitude, HexVal, Digits;
  }
}
