/** Constant data blocks: a growing byte buffer with big-endian integers and UTF-8 strings (RFC 3629). */
module ConstData {
  import opened Ints

  // ----- Text -----

  /** A Unicode scalar value. */
  type Scalar = c: int | 0 <= c < 0x11_0000 && !(0xD800 <= c < 0xE000)

  /** UTF-8, section 3 of RFC 3629. */
  function Utf8(c: Scalar): (s: seq<byte>)
    ensures 1 <= |s| <= 4
  {
    if c < 0x80 then [c]
    else if c < 0x800 then [0xC0 + c / 0x40, 0x80 + c % 0x40]
    else if c < 0x1_0000 then [0xE0 + c / 0x1000, 0x80 + c / 0x40 % 0x40, 0x80 + c % 0x40]
    else [0xF0 + c / 0x4_0000, 0x80 + c / 0x1000 % 0x40, 0x80 + c / 0x40 % 0x40, 0x80 + c % 0x40]
  }

  function Utf8All(s: seq<Scalar>): seq<byte> {
    if s == [] then [] else Utf8(s[0]) + Utf8All(s[1..])
  }

  /** UTF-16: one code unit, or a surrogate pair. */
  function Utf16(x: int): seq<char16>
    requires 0 <= x < 0x11_0000
  {
    if x < 0x1_0000 then [x] else [0xD800 + (x - 0x1_0000) / 0x400, 0xDC00 + (x - 0x1_0000) % 0x400]
  }

  function Utf16All(s: seq<Scalar>): seq<char16> {
    if s == [] then [] else Utf16(s[0]) + Utf16All(s[1..])
  }

  predicate High(u: char16) {
    0xD800 <= u < 0xDC00
  }

  predicate Low(u: char16) {
    0xDC00 <= u < 0xE000
  }

  /** The scalar values of UTF-16 text, as the UTF-8 encoder of the source reads it: each lone surrogate becomes
      U+FFFD. */
  function FromUtf16(s: seq<char16>): seq<Scalar> {
    if s == [] then []
    else if High(s[0]) && |s| > 1 && Low(s[1]) then
      [0x1_0000 + (s[0] - 0xD800) * 0x400 + (s[1] - 0xDC00)] + FromUtf16(s[2..])
    else if High(s[0]) || Low(s[0]) then [0xFFFD] + FromUtf16(s[1..])
    else [s[0]] + FromUtf16(s[1..])
  }

  /** No lone surrogate. */
  predicate WellFormed(s: seq<char16>) {
    if s == [] then true
    else if High(s[0]) && |s| > 1 && Low(s[1]) then WellFormed(s[2..])
    else !High(s[0]) && !Low(s[0]) && WellFormed(s[1..])
  }

  /** Reading UTF-16 and writing it again gives the text back exactly if it is well formed. */
  lemma {:induction false} Utf16RoundTrip(s: seq<char16>)
    ensures Utf16All(FromUtf16(s)) == s <==> WellFormed(s)
    ensures 0 in FromUtf16(s) <==> 0 in s
    decreases |s|
  {
    if s != [] {
      var t := FromUtf16(s);
      if High(s[0]) && |s| > 1 && Low(s[1]) {
        Utf16RoundTrip(s[2..]);
        PairParts(s[0], s[1]);
        assert s == [s[0], s[1]] + s[2..] && t[1..] == FromUtf16(s[2..]);
        assert Utf16All(t) == [s[0], s[1]] + Utf16All(t[1..]);
        assert Utf16All(t)[2..] == Utf16All(t[1..]);
      } else {
        Utf16RoundTrip(s[1..]);
        assert s == [s[0]] + s[1..] && t[1..] == FromUtf16(s[1..]);
        assert Utf16All(t) == [t[0]] + Utf16All(t[1..]);
        assert Utf16All(t)[1..] == Utf16All(t[1..]);
      }
    }
  }

  lemma PairParts(h: char16, l: char16)
    requires High(h) && Low(l)
    ensures Utf16(0x1_0000 + (h - 0xD800) * 0x400 + (l - 0xDC00)) == [h, l]
  {
  }

  /** Every sequence of scalar values is the reading of its UTF-16 text. */
  lemma {:induction false} ScalarsRoundTrip(s: seq<Scalar>)
    ensures WellFormed(Utf16All(s)) && FromUtf16(Utf16All(s)) == s
  {
    if s != [] {
      ScalarsRoundTrip(s[1..]);
      var u, rest := Utf16(s[0]), Utf16All(s[1..]);
      assert s == [s[0]] + s[1..] && (u + rest)[|u|..] == rest;
    }
  }

  /** A string constant ends at its first NUL. */
  function UpToNul(s: seq<Scalar>): seq<Scalar> {
    if s == [] || s[0] == 0 then [] else [s[0]] + UpToNul(s[1..])
  }

  lemma {:induction false} UpToNulAll(s: seq<Scalar>)
    ensures UpToNul(s) == s <==> 0 !in s
  {
    if s != [] {
      UpToNulAll(s[1..]);
      if s[0] != 0 {
        assert s == [s[0]] + s[1..];
        if UpToNul(s) == s {
          assert UpToNul(s)[1..] == UpToNul(s[1..]);
        }
      }
    }
  }

  // ----- The decoder -----

  /** A code point, or a byte that starts no sequence, and the offset after it. */
  datatype Decoded = Decoded(x: int, next: int)

  /** Length and first bits of a sequence that starts with x. */
  function Extra(x: byte): (int, int) {
    if x >= 0xF0 then (3, x % 8) else if x >= 0xE0 then (2, x % 16) else (1, x % 32)
  }

  /** Append n continuation bytes to acc; None: one of them is not a continuation byte. */
  function Continue(bytes: seq<byte>, off: nat, n: nat, acc: int): Option<int>
    requires off + n <= |bytes|
    decreases n
  {
    if n == 0 then Some(acc)
    else if bytes[off] < 0x80 || bytes[off] >= 0xC0 then None
    else Continue(bytes, off + 1, n - 1, acc * 64 + bytes[off] % 64)
  }

  /** DecodeUTF8; None is the exception. A byte that does not start a complete sequence stands for itself. */
  function DecodeAt(bytes: seq<byte>, off: int): (r: Option<Decoded>)
    ensures r.Some? <==> 0 <= off < |bytes|
    ensures r.Some? ==> off < r.value.next <= |bytes| && 0 <= r.value.x < 0x11_0000
  {
    if off < 0 || off >= |bytes| then None
    else
      var x := bytes[off];
      var (elen, acc) := Extra(x);
      if x < 0xC0 || x > 0xF7 || off + 1 + elen > |bytes| then Some(Decoded(x, off + 1))
      else
        ContinueIsNat(bytes, off + 1, elen, acc);
        match Continue(bytes, off + 1, elen, acc)
        case None => Some(Decoded(x, off + 1))
        case Some(y) => if y > 0x10_FFFF then Some(Decoded(x, off + 1)) else Some(Decoded(y, off + 1 + elen))
  }

  lemma {:induction false} ContinueIsNat(bytes: seq<byte>, off: nat, n: nat, acc: int)
    requires off + n <= |bytes| && acc >= 0
    ensures Continue(bytes, off, n, acc).Some? ==> Continue(bytes, off, n, acc).value >= 0
    decreases n
  {
    if n > 0 {
      ContinueIsNat(bytes, off + 1, n - 1, acc * 64 + bytes[off] % 64);
    }
  }

  /** ToString; None is the exception: no NUL before the end. */
  function TextAt(bytes: seq<byte>, off: int): Option<seq<char16>>
    decreases |bytes| - off
  {
    match DecodeAt(bytes, off)
    case None => None
    case Some(d) =>
      if d.x == 0 then Some([])
      else
        Before(Utf16(d.x), TextAt(bytes, d.next))
  }

  function Before(s: seq<char16>, t: Option<seq<char16>>): Option<seq<char16>> {
    if t.None? then None else Some(s + t.value)
  }

  lemma BeforeBefore(s: seq<char16>, u: seq<char16>, t: Option<seq<char16>>)
    ensures Before(s, Before(u, t)) == Before(s + u, t)
  {
    if t.Some? {
      assert s + (u + t.value) == s + u + t.value;
    }
  }

  // ----- Round trips -----

  /** c without its n low groups of six bits. */
  function Drop6(c: nat, n: nat): nat {
    if n == 0 then c else Drop6(c, n - 1) / 64
  }

  lemma Drop6Values(c: nat)
    ensures Drop6(c, 0) == c && Drop6(c, 1) == c / 0x40 && Drop6(c, 2) == c / 0x1000 && Drop6(c, 3) == c / 0x4_0000
  {
    assert Drop6(c, 3) == Drop6(c, 2) / 64 && Drop6(c, 2) == Drop6(c, 1) / 64 && Drop6(c, 1) == Drop6(c, 0) / 64;
    assert c / 0x40 / 0x40 == c / 0x1000 && c / 0x1000 / 0x40 == c / 0x4_0000;
  }

  /** The n continuation bytes of c. */
  function Tail(c: nat, n: nat): (s: seq<byte>)
    ensures |s| == n
  {
    if n == 0 then [] else [0x80 + Drop6(c, n - 1) % 64] + Tail(c, n - 1)
  }

  lemma TailValues(c: nat)
    ensures Tail(c, 0) == [] && Tail(c, 1) == [0x80 + c % 0x40]
    ensures Tail(c, 2) == [0x80 + c / 0x40 % 0x40, 0x80 + c % 0x40]
    ensures Tail(c, 3) == [0x80 + c / 0x1000 % 0x40, 0x80 + c / 0x40 % 0x40, 0x80 + c % 0x40]
  {
    Drop6Values(c);
    hide Drop6;
    assert Tail(c, 1) == [0x80 + c % 64] + Tail(c, 0);
    assert Tail(c, 2) == [0x80 + c / 0x40 % 64] + Tail(c, 1);
    assert Tail(c, 3) == [0x80 + c / 0x1000 % 64] + Tail(c, 2);
  }

  /** n continuation bytes complete the first bits of c. */
  lemma {:induction false} ContinueCompletes(bytes: seq<byte>, off: nat, n: nat, c: nat)
    requires off + n <= |bytes| && bytes[off..off + n] == Tail(c, n)
    ensures Continue(bytes, off, n, Drop6(c, n)) == Some(c)
    decreases n
  {
    if n > 0 {
      assert bytes[off] == bytes[off..off + n][0] == 0x80 + Drop6(c, n - 1) % 64;
      assert bytes[off + 1..off + 1 + (n - 1)] == bytes[off..off + n][1..] == Tail(c, n - 1);
      ContinueCompletes(bytes, off + 1, n - 1, c);
    }
  }

  lemma ExtraOf(n: int, mark: byte, top: int)
    requires (n, mark) in {(1, 0xC0), (2, 0xE0), (3, 0xF0)}
    requires 0 <= top < (if n == 1 then 32 else if n == 2 then 16 else 8)
    ensures Extra(mark + top) == (n, top)
  {
  }

  /** The encoding in these terms. */
  lemma Utf8Parts(c: Scalar)
    ensures var u := Utf8(c);
            var n := |u| - 1;
            && u == [u[0]] + Tail(c, n)
            && (n == 0 ==> u[0] == c < 0x80)
            && (n > 0 ==> 0xC0 <= u[0] <= 0xF7 && Extra(u[0]) == (n, Drop6(c, n)))
  {
    Drop6Values(c);
    TailValues(c);
    hide Drop6, Tail, Extra;
    if c < 0x800 {
      ExtraOf(1, 0xC0, if c < 0x80 then 0 else c / 0x40);
    } else if c < 0x1_0000 {
      ExtraOf(2, 0xE0, c / 0x1000);
    } else {
      ExtraOf(3, 0xF0, c / 0x4_0000);
    }
  }

  /** Every scalar value is decoded from its encoding, whatever comes before and after. */
  lemma ScalarRoundTrip(bytes: seq<byte>, off: nat, c: Scalar)
    requires At(bytes, off, Utf8(c))
    ensures DecodeAt(bytes, off) == Some(Decoded(c, off + |Utf8(c)|))
  {
    hide Utf8, Drop6, Extra, Tail, Continue;
    var u := Utf8(c);
    var n := |u| - 1;
    Utf8Parts(c);
    assert bytes[off] == bytes[off..off + |u|][0] == u[0];
    assert bytes[off + 1..off + 1 + n] == bytes[off..off + |u|][1..] == Tail(c, n);
    ContinueCompletes(bytes, off + 1, n, c);
  }

  predicate IsTail(b: byte) {
    0x80 <= b <= 0xBF
  }

  /** One character in the grammar of section 4 of RFC 3629, which has no overlong forms and no surrogates. */
  predicate Utf8Char(b: seq<byte>) {
    (|b| == 1 && b[0] <= 0x7F)
    || (|b| == 2 && 0xC2 <= b[0] <= 0xDF && IsTail(b[1]))
    || (|b| == 3 && IsTail(b[1]) && IsTail(b[2])
        && ((b[0] == 0xE0 && 0xA0 <= b[1]) || 0xE1 <= b[0] <= 0xEC || (b[0] == 0xED && b[1] <= 0x9F)
            || 0xEE <= b[0] <= 0xEF))
    || (|b| == 4 && IsTail(b[1]) && IsTail(b[2]) && IsTail(b[3])
        && ((b[0] == 0xF0 && 0x90 <= b[1]) || 0xF1 <= b[0] <= 0xF3 || (b[0] == 0xF4 && b[1] <= 0x8F)))
  }

  /** Six more bits. */
  function Spell(h: nat, t: nat): nat {
    h * 0x40 + t
  }

  /** The number that the bits of such a character spell. */
  function Spelt(b: seq<byte>): nat {
    if |b| == 1 then b[0]
    else if |b| == 2 then Spell(b[0] % 0x20, b[1] % 0x40)
    else if |b| == 3 then Spell(Spell(b[0] % 0x10, b[1] % 0x40), b[2] % 0x40)
    else if |b| == 4 then Spell(Spell(Spell(b[0] % 8, b[1] % 0x40), b[2] % 0x40), b[3] % 0x40)
    else 0
  }

  /** Six bits are taken off and put back. */
  lemma SpellBack(c: nat)
    ensures Spell(c / 0x40, c % 0x40) == c
    ensures c / 0x40 / 0x40 == c / 0x1000 && c / 0x1000 / 0x40 == c / 0x4_0000
  {
  }

  lemma SpellApart(h: nat, t: nat)
    requires t < 0x40
    ensures Spell(h, t) / 0x40 == h && Spell(h, t) % 0x40 == t
  {
  }

  /** The encoding of c is the one character of the grammar that spells c. */
  lemma Utf8IsGrammar(c: Scalar, b: seq<byte>)
    ensures Utf8Char(b) && Spelt(b) == c <==> b == Utf8(c)
  {
    Utf8Spells(c);
    if Utf8Char(b) && Spelt(b) == c {
      SpeltDigits(b, c);
    }
    hide Utf8Char, Spelt, Utf8;
  }

  lemma Utf8Spells(c: Scalar)
    ensures Utf8Char(Utf8(c)) && Spelt(Utf8(c)) == c
  {
    hide Spelt, Utf8Char, Utf8;
    if c < 0x80 {
      OneSpells(c);
    } else if c < 0x800 {
      TwoSpell(c);
    } else if c < 0x1_0000 {
      ThreeSpell(c);
    } else {
      FourSpell(c);
    }
  }

  lemma OneSpells(c: Scalar)
    requires c < 0x80
    ensures Utf8Char(Utf8(c)) && Spelt(Utf8(c)) == c
  {
  }

  lemma TwoSpell(c: Scalar)
    requires 0x80 <= c < 0x800
    ensures Utf8Char(Utf8(c)) && Spelt(Utf8(c)) == c
  {
    var u: seq<byte> := [0xC0 + c / 0x40, 0x80 + c % 0x40];
    assert u[0] % 0x20 == c / 0x40 && u[1] % 0x40 == c % 0x40;
    SpellBack(c);
    hide Spell;
    assert Utf8(c) == u;
  }

  lemma ThreeSpell(c: Scalar)
    requires 0x800 <= c < 0x1_0000
    ensures Utf8Char(Utf8(c)) && Spelt(Utf8(c)) == c
  {
    var u: seq<byte> := [0xE0 + c / 0x1000, 0x80 + c / 0x40 % 0x40, 0x80 + c % 0x40];
    assert u[0] % 0x10 == c / 0x1000 && u[1] % 0x40 == c / 0x40 % 0x40 && u[2] % 0x40 == c % 0x40;
    SpellBack(c);
    SpellBack(c / 0x40);
    hide Spell;
    assert Utf8(c) == u;
  }

  lemma FourSpell(c: Scalar)
    requires 0x1_0000 <= c
    ensures Utf8Char(Utf8(c)) && Spelt(Utf8(c)) == c
  {
    var u: seq<byte> := [0xF0 + c / 0x4_0000, 0x80 + c / 0x1000 % 0x40, 0x80 + c / 0x40 % 0x40, 0x80 + c % 0x40];
    assert u[0] % 8 == c / 0x4_0000 && u[1] % 0x40 == c / 0x1000 % 0x40;
    assert u[2] % 0x40 == c / 0x40 % 0x40 && u[3] % 0x40 == c % 0x40;
    SpellBack(c);
    SpellBack(c / 0x40);
    SpellBack(c / 0x1000);
    hide Spell;
    assert Utf8(c) == u;
  }

  lemma SpeltDigits(b: seq<byte>, c: Scalar)
    requires Utf8Char(b) && Spelt(b) == c
    ensures b == Utf8(c)
  {
    if |b| == 2 {
      TwoSpelt(b, c);
    } else if |b| == 3 {
      ThreeSpelt(b, c);
    } else if |b| == 4 {
      FourSpelt(b, c);
    }
    hide Spell;
  }

  lemma TwoSpelt(b: seq<byte>, c: Scalar)
    requires |b| == 2 && Utf8Char(b) && Spelt(b) == c
    ensures b == Utf8(c)
  {
    SpellApart(b[0] % 0x20, b[1] % 0x40);
    hide Spell;
    assert b[0] == 0xC0 + c / 0x40 && b[1] == 0x80 + c % 0x40;
    assert 0x80 <= c < 0x800;
    hide Utf8Char, Spelt;
    assert b == [b[0], b[1]];
  }

  lemma ThreeSpelt(b: seq<byte>, c: Scalar)
    requires |b| == 3 && Utf8Char(b) && Spelt(b) == c
    ensures b == Utf8(c)
  {
    ThreeDigits(b[0] % 0x10, b[1] % 0x40, b[2] % 0x40, c);
    hide Spell;
    assert b[0] == 0xE0 + c / 0x1000 && b[1] == 0x80 + c / 0x40 % 0x40 && b[2] == 0x80 + c % 0x40;
    assert 0x800 <= c < 0x1_0000;
    hide Utf8Char, Spelt;
    assert b == [b[0], b[1], b[2]];
  }

  lemma FourSpelt(b: seq<byte>, c: Scalar)
    requires |b| == 4 && Utf8Char(b) && Spelt(b) == c
    ensures b == Utf8(c)
  {
    FourDigits(b[0] % 8, b[1] % 0x40, b[2] % 0x40, b[3] % 0x40, c);
    hide Spell;
    assert b[0] == 0xF0 + c / 0x4_0000 && b[1] == 0x80 + c / 0x1000 % 0x40;
    assert b[2] == 0x80 + c / 0x40 % 0x40 && b[3] == 0x80 + c % 0x40;
    assert 0x1_0000 <= c;
    hide Utf8Char, Spelt;
    assert b == [b[0], b[1], b[2], b[3]];
  }

  lemma ThreeDigits(x: nat, y: nat, z: nat, c: nat)
    requires y < 0x40 && z < 0x40 && Spell(Spell(x, y), z) == c
    ensures c / 0x1000 == x && c / 0x40 % 0x40 == y && c % 0x40 == z && x * 0x1000 <= c < (x + 1) * 0x1000
    ensures c / 0x40 == Spell(x, y)
  {
    SpellApart(Spell(x, y), z);
    SpellApart(x, y);
    SpellBack(c);
  }

  lemma FourDigits(w: nat, x: nat, y: nat, z: nat, c: nat)
    requires x < 0x40 && y < 0x40 && z < 0x40 && Spell(Spell(Spell(w, x), y), z) == c
    ensures c / 0x4_0000 == w && c / 0x1000 % 0x40 == x && c / 0x40 % 0x40 == y && c % 0x40 == z
  {
    ThreeDigits(Spell(w, x), y, z, c);
    SpellApart(w, x);
    SpellBack(c);
  }

  /** A first byte announces how many bytes a character has. */
  function Announced(b: byte): nat {
    if 0xC0 <= b <= 0xDF then 2 else if 0xE0 <= b <= 0xEF then 3 else if 0xF0 <= b <= 0xF7 then 4 else 1
  }

  /** At off stands a character of several bytes, possibly overlong or a surrogate, that spells no more than 10FFFF. */
  predicate Several(bytes: seq<byte>, off: nat) {
    && off < |bytes| && Announced(bytes[off]) > 1 && off + Announced(bytes[off]) <= |bytes|
    && (forall i :: off < i < off + Announced(bytes[off]) ==> IsTail(bytes[i]))
    && Spelt(bytes[off..off + Announced(bytes[off])]) <= 0x10_FFFF
  }

  /** The decoder on any bytes: such a character, and otherwise a byte that stands for itself. */
  lemma DecodeExact(bytes: seq<byte>, off: nat)
    requires off < |bytes|
    ensures DecodeAt(bytes, off) ==
            if Several(bytes, off) then
              var next := off + Announced(bytes[off]);
              Some(Decoded(Spelt(bytes[off..next]), next))
            else Some(Decoded(bytes[off], off + 1))
  {
    var n := Announced(bytes[off]);
    if n > 1 && off + n <= |bytes| {
      ContinueSpells(bytes, off, n);
    }
    hide Continue, Spelt;
  }

  lemma ContinueSpells(bytes: seq<byte>, off: nat, n: nat)
    requires off + n <= |bytes| && 2 <= n <= 4 && n == Announced(bytes[off])
    ensures Extra(bytes[off]).0 == n - 1
    ensures Continue(bytes, off + 1, n - 1, Extra(bytes[off]).1)
            == if forall i :: off < i < off + n ==> IsTail(bytes[i]) then Some(Spelt(bytes[off..off + n])) else None
  {
    var b := bytes[off..off + n];
    assert b[0] == bytes[off] && b[1] == bytes[off + 1];
    assert n > 2 ==> b[2] == bytes[off + 2];
    assert n > 3 ==> b[3] == bytes[off + 3];
    ContinueOnce(bytes, off + 1, n - 1, Extra(bytes[off]).1);
    if n > 2 {
      ContinueOnce(bytes, off + 2, n - 2, Spell(b[0] % (if n == 3 then 0x10 else 8), b[1] % 0x40));
    }
    if n > 3 {
      ContinueOnce(bytes, off + 3, n - 3, Spell(Spell(b[0] % 8, b[1] % 0x40), b[2] % 0x40));
    }
    hide Continue, Spell;
  }

  lemma ContinueOnce(bytes: seq<byte>, off: nat, n: nat, acc: nat)
    requires off + n <= |bytes| && n > 0
    ensures Continue(bytes, off, n, acc)
            == if !IsTail(bytes[off]) then None
               else if n == 1 then Some(Spell(acc, bytes[off] % 0x40))
               else Continue(bytes, off + 1, n - 1, Spell(acc, bytes[off] % 0x40))
  {
    if n == 1 && IsTail(bytes[off]) {
      assert Continue(bytes, off + 1, 0, Spell(acc, bytes[off] % 0x40)) == Some(Spell(acc, bytes[off] % 0x40));
    }
  }

  /** Plain text is appended byte for byte, and a lone surrogate as the replacement character. */
  lemma {:induction false} PlainText(s: seq<char16>)
    requires forall i :: 0 <= i < |s| ==> s[i] < 0x80
    ensures Utf8All(FromUtf16(s)) == s
  {
    if s != [] {
      PlainText(s[1..]);
      var t := FromUtf16(s);
      assert t[0] == s[0] && t[1..] == FromUtf16(s[1..]);
      assert s == [s[0]] + s[1..];
    }
  }

  lemma LoneSurrogate(u: char16)
    requires 0xD800 <= u <= 0xDFFF
    ensures Utf8All(FromUtf16([u])) == [0xEF, 0xBF, 0xBD]
  {
    assert FromUtf16([u]) == [0xFFFD];
    assert Utf8All([0xFFFD]) == Utf8(0xFFFD) + Utf8All([]);
  }

  /** A string that was appended at off is read back up to its first NUL, as UTF-16. */
  lemma {:induction false} TextRoundTrip(bytes: seq<byte>, off: nat, s: seq<Scalar>)
    requires At(bytes, off, Utf8All(s) + [0])
    ensures TextAt(bytes, off) == Some(Utf16All(UpToNul(s)))
    decreases |s|
  {
    hide *;
    if s == [] {
      TextEmpty(bytes, off);
    } else {
      var u, rest := Utf8(s[0]), Utf8All(s[1..]);
      AllSteps(s);
      AtSplit(bytes, off, u, rest + [0]);
      ScalarRoundTrip(bytes, off, s[0]);
      if s[0] == 0 {
        TextEnds(bytes, off, off + |u|);
      } else {
        TextRoundTrip(bytes, off + |u|, s[1..]);
        TextStep(bytes, off, s[0], off + |u|, Utf16All(UpToNul(s[1..])));
      }
    }
  }

  lemma AllSteps(s: seq<Scalar>)
    requires s != []
    ensures Utf8All(s) + [0] == Utf8(s[0]) + (Utf8All(s[1..]) + [0])
    ensures Utf16All(UpToNul(s)) == if s[0] == 0 then [] else Utf16(s[0]) + Utf16All(UpToNul(s[1..]))
  {
    hide Utf8, Utf16;
    if s[0] != 0 {
      assert UpToNul(s)[1..] == UpToNul(s[1..]);
    }
  }

  lemma TextEmpty(bytes: seq<byte>, off: nat)
    requires At(bytes, off, Utf8All([]) + [0])
    ensures TextAt(bytes, off) == Some(Utf16All(UpToNul([])))
  {
    assert bytes[off] == bytes[off..off + 1][0] == 0;
  }

  lemma TextEnds(bytes: seq<byte>, off: nat, next: nat)
    requires DecodeAt(bytes, off) == Some(Decoded(0, next))
    ensures TextAt(bytes, off) == Some([])
  {
  }

  lemma TextStep(bytes: seq<byte>, off: nat, c: Scalar, next: nat, t: seq<char16>)
    requires c != 0 && DecodeAt(bytes, off) == Some(Decoded(c, next)) && TextAt(bytes, next) == Some(t)
    ensures TextAt(bytes, off) == Some(Utf16(c) + t)
  {
    hide DecodeAt, Utf16;
  }

  // ----- Big-endian integers -----

  /** The n low bytes of x, most significant first. */
  function BigEndian(x: int, n: nat): (s: seq<byte>)
    ensures |s| == n
    decreases n
  {
    if n == 0 then [] else BigEndian(x / 256, n - 1) + [x % 256]
  }

  function ValueOf(s: seq<byte>): nat {
    if s == [] then 0 else ValueOf(s[..|s| - 1]) * 256 + s[|s| - 1]
  }

  function Pow256(n: nat): (r: nat)
    ensures r >= 1
  {
    if n == 0 then 1 else 256 * Pow256(n - 1)
  }

  lemma {:induction false} BigEndianRoundTrip(x: int, n: nat)
    ensures ValueOf(BigEndian(x, n)) == x % Pow256(n)
    decreases n
  {
    if n > 0 {
      BigEndianRoundTrip(x / 256, n - 1);
      var s := BigEndian(x, n);
      assert s[..|s| - 1] == BigEndian(x / 256, n - 1);
      ModSplit(x, Pow256(n - 1));
    }
  }

  lemma ModSplit(x: int, m: nat)
    requires m >= 1
    ensures x / 256 % m * 256 + x % 256 == x % (256 * m)
  {
    var q, r := x / 256 / m, x / 256 % m;
    assert x / 256 == m * q + r;
    var low := r * 256 + x % 256;
    assert x == 256 * (m * q + r) + x % 256 == (256 * m) * q + low;
    assert 0 <= low < 256 * m;
    ModUnique(x, 256 * m, q, low);
  }

  lemma ModUnique(x: int, m: int, q: int, r: int)
    requires m > 0 && x == m * q + r && 0 <= r < m
    ensures x % m == r
  {
    var d := x / m - q;
    assert x == m * (x / m) + x % m;
    assert m * d == r - x % m;
    if d != 0 {
      MulAtLeast(m, d);
      assert false;
    }
  }

  lemma MulAtLeast(m: int, d: int)
    requires m > 0 && d != 0
    ensures m * d >= m || m * d <= -m
  {
  }

  /** What the Read methods return; None is the exception. */
  function ReadSpec(bytes: seq<byte>, off: int, n: nat): Option<int32> {
    if 0 <= off <= |bytes| - n then Some(ToInt32(ValueOf(bytes[off..off + n]))) else None
  }

  /** An integer that was appended is read back, modulo its width; four bytes keep every 32-bit value. */
  lemma IntegerRoundTrip(before: seq<byte>, x: int32, n: nat, after: seq<byte>)
    requires 2 <= n <= 4
    ensures ReadSpec(before + BigEndian(x, n) + after, |before|, n)
            == Some(if n == 4 then x else x % Pow256(n))
  {
    var bytes := before + BigEndian(x, n) + after;
    assert bytes[|before|..|before| + n] == BigEndian(x, n);
    BigEndianRoundTrip(x, n);
    Pow256Values();
    hide BigEndian, ValueOf, Pow256;
    LowBytes(x, n);
  }

  lemma Pow256Values()
    ensures Pow256(2) == 0x1_0000 && Pow256(3) == 0x100_0000 && Pow256(4) == TWO_32
  {
    assert Pow256(2) == 256 * Pow256(1) && Pow256(3) == 256 * Pow256(2) && Pow256(4) == 256 * Pow256(3);
  }

  lemma LowBytes(x: int32, n: nat)
    requires 2 <= n <= 4
    ensures ToInt32(x % Pow256(n)) == if n == 4 then x else x % Pow256(n)
  {
    Pow256Values();
    hide Pow256;
  }

  /** A string that was appended is read back up to its first NUL; it is read back as it was if and only if it has no
      NUL and no lone surrogate. */
  lemma StringRoundTrip(before: seq<byte>, s: seq<char16>, after: seq<byte>)
    ensures var bytes := before + (Utf8All(FromUtf16(s)) + [0]) + after;
            && TextAt(bytes, |before|) == Some(Utf16All(UpToNul(FromUtf16(s))))
            && (TextAt(bytes, |before|) == Some(s) <==> 0 !in s && WellFormed(s))
  {
    hide TextAt, Utf8All, Utf16All, UpToNul, FromUtf16, WellFormed;
    var t := FromUtf16(s);
    var bytes, all := before + (Utf8All(t) + [0]) + after, Utf8All(t) + [0];
    assert bytes[|before|..|before| + |all|] == all;
    TextRoundTrip(bytes, |before|, t);
    SameText(s);
  }

  lemma SameText(s: seq<char16>)
    ensures Utf16All(UpToNul(FromUtf16(s))) == s <==> 0 !in s && WellFormed(s)
  {
    hide Utf16All, UpToNul, FromUtf16, WellFormed;
    UpToNulAll(FromUtf16(s));
    Utf16RoundTrip(s);
    NulCut(FromUtf16(s));
    NoNul(UpToNul(FromUtf16(s)));
  }

  lemma {:induction false} NoNul(t: seq<Scalar>)
    requires 0 !in t
    ensures 0 !in Utf16All(t)
  {
    if t != [] {
      NoNul(t[1..]);
    }
  }

  lemma {:induction false} NulCut(t: seq<Scalar>)
    ensures 0 !in UpToNul(t)
  {
    if t != [] {
      NulCut(t[1..]);
    }
  }

  lemma ShiftedBytes(x: int)
    ensures BigEndian(x, 2) == [Shr(x, 8) % 256, x % 256]
    ensures BigEndian(x, 3) == [Shr(x, 16) % 256, Shr(x, 8) % 256, x % 256]
    ensures BigEndian(x, 4) == [Shr(x, 24) % 256, Shr(x, 16) % 256, Shr(x, 8) % 256, x % 256]
  {
    var y := x / 256;
    var z := y / 256;
    ShrEight(x);
    ShrEight(y);
    ShrEight(z);
    ShrAdd(x, 8, 8);
    ShrAdd(x, 8, 16);
    ShrAdd(y, 8, 8);
    hide Shr;
    assert BigEndian(z, 2) == BigEndian(z / 256, 1) + [z % 256];
    assert BigEndian(y, 2) == BigEndian(z, 1) + [y % 256] && BigEndian(y, 3) == BigEndian(z, 2) + [y % 256];
  }

  lemma ShrEight(v: int)
    ensures Shr(v, 8) == v / 256
  {
    ShrSeven(v);
    ShrAdd(v, 7, 1);
    hide Shr;
    assert Shr(v / 128, 1) == v / 128 / 2 by { ShrOne(v / 128); }
  }

  lemma ShrOne(v: int)
    ensures Shr(v, 1) == v / 2
  {
    assert Shr(v, 1) == Shr(v / 2, 0);
  }

  lemma ValueOfTwo(s: seq<byte>)
    requires |s| == 2
    ensures ValueOf(s) == (s[0] as int) * 0x100 + s[1]
  {
    assert ValueOf(s[..1]) == ValueOf(s[..1][..0]) * 256 + s[0] == s[0];
  }

  lemma ValueOfThree(s: seq<byte>)
    requires |s| == 3
    ensures ValueOf(s) == (s[0] as int) * 0x1_0000 + (s[1] as int) * 0x100 + s[2]
  {
    ValueOfTwo(s[..2]);
  }

  lemma ValueOfFour(s: seq<byte>)
    requires |s| == 4
    ensures ValueOf(s) == (s[0] as int) * 0x100_0000 + (s[1] as int) * 0x1_0000 + (s[2] as int) * 0x100 + s[3]
  {
    ValueOfThree(s[..3]);
  }

  // ----- The buffer -----

  class ConstData {
    var buf: array<byte>
    var len: nat
    var address: int

    constructor ()
      ensures Valid() && fresh(buf) && Contents() == []
    {
      buf := new byte[4](_ => 0);
      len := 0;
      address := 0;
    }

    ghost predicate Valid()
      reads this
    {
      len <= buf.Length && buf.Length > 0
    }

    ghost function Contents(): seq<byte>
      requires Valid()
      reads this, buf
    {
      buf[..len]
    }

    /** Room for elen more bytes; the buffer at least doubles when it is replaced. */
    method Expand(elen: nat)
      requires Valid()
      modifies this`buf
      ensures Valid() && len + elen <= buf.Length && Contents() == old(Contents())
      ensures buf == old(buf) || (fresh(buf) && buf.Length >= 2 * old(buf.Length))
    {
      var tlen := len + elen;
      if tlen > buf.Length {
        var nlen := if buf.Length * 2 < tlen then tlen else buf.Length * 2;
        var nbuf := new byte[nlen](_ => 0);
        forall i | 0 <= i < len {
          nbuf[i] := buf[i];
        }
        buf := nbuf;
      }
    }

    method Add8(b: byte)
      requires Valid()
      modifies this, buf
      ensures Valid() && (buf == old(buf) || fresh(buf))
      ensures Contents() == old(Contents()) + [b]
    {
      Expand(1);
      buf[len] := b;
      len := len + 1;
    }

    method Add16(x: int)
      requires Valid()
      modifies this, buf
      ensures Valid() && (buf == old(buf) || fresh(buf))
      ensures Contents() == old(Contents()) + BigEndian(x, 2)
    {
      Expand(2);
      ghost var was := Contents();
      ShiftedBytes(x);
      buf[len] := Shr(x, 8) % 256;
      buf[len + 1] := x % 256;
      len := len + 2;
      assert buf[..len] == was + BigEndian(x, 2);
    }

    method Add24(x: int)
      requires Valid()
      modifies this, buf
      ensures Valid() && (buf == old(buf) || fresh(buf))
      ensures Contents() == old(Contents()) + BigEndian(x, 3)
    {
      Expand(3);
      ghost var was := Contents();
      ShiftedBytes(x);
      buf[len] := Shr(x, 16) % 256;
      buf[len + 1] := Shr(x, 8) % 256;
      buf[len + 2] := x % 256;
      len := len + 3;
      assert buf[..len] == was + BigEndian(x, 3);
    }

    method Add32(x: int)
      requires Valid()
      modifies this, buf
      ensures Valid() && (buf == old(buf) || fresh(buf))
      ensures Contents() == old(Contents()) + BigEndian(x, 4)
    {
      Expand(4);
      ghost var was := Contents();
      ShiftedBytes(x);
      buf[len] := Shr(x, 24) % 256;
      buf[len + 1] := Shr(x, 16) % 256;
      buf[len + 2] := Shr(x, 8) % 256;
      buf[len + 3] := x % 256;
      len := len + 4;
      assert buf[..len] == was + BigEndian(x, 4);
    }

    method AddString(s: seq<char16>)
      requires Valid()
      modifies this, buf
      ensures Valid() && (buf == old(buf) || fresh(buf))
      ensures Contents() == old(Contents()) + Utf8All(FromUtf16(s)) + [0]
    {
      var sd := Utf8All(FromUtf16(s));
      Expand(|sd| + 1);
      ghost var was := Contents();
      forall i | 0 <= i < |sd| {
        buf[len + i] := sd[i];
      }
      buf[len + |sd|] := 0;
      len := len + |sd| + 1;
      assert buf[..len] == was + sd + [0];
    }

    /** CheckIndex: false is the exception. */
    method CheckIndex(off: int, dlen: nat) returns (ok: bool)
      ensures ok == (0 <= off <= len - dlen)
    {
      ok := !(off < 0 || off > len - dlen);
    }

    method Read16(off: int) returns (r: Option<int32>)
      requires Valid()
      ensures r == ReadSpec(Contents(), off, 2)
    {
      var ok := CheckIndex(off, 2);
      if !ok {
        return None;
      }
      ValueOfTwo(Contents()[off..off + 2]);
      r := Some((buf[off] as int) * 0x100 + buf[off + 1]);
    }

    method Read24(off: int) returns (r: Option<int32>)
      requires Valid()
      ensures r == ReadSpec(Contents(), off, 3)
    {
      var ok := CheckIndex(off, 3);
      if !ok {
        return None;
      }
      ValueOfThree(Contents()[off..off + 3]);
      r := Some((buf[off] as int) * 0x1_0000 + (buf[off + 1] as int) * 0x100 + buf[off + 2]);
    }

    method Read32(off: int) returns (r: Option<int32>)
      requires Valid()
      ensures r == ReadSpec(Contents(), off, 4)
    {
      var ok := CheckIndex(off, 4);
      if !ok {
        return None;
      }
      ValueOfFour(Contents()[off..off + 4]);
      r := Some(ToInt32((buf[off] as int) * 0x100_0000 + (buf[off + 1] as int) * 0x1_0000 + (buf[off + 2] as int) * 0x100 + buf[off + 3]));
    }

    method DecodeUTF8(off: int) returns (r: Option<Decoded>)
      requires Valid()
      ensures r == DecodeAt(Contents(), off)
    {
      if off < 0 || off >= len {
        return None;
      }
      var x := buf[off];
      if x < 0xC0 || x > 0xF7 {
        return Some(Decoded(x, off + 1));
      }
      var (elen, first) := Extra(x);
      if off + 1 + elen > len {
        return Some(Decoded(x, off + 1));
      }
      var acc: int := first;
      for i := 0 to elen
        invariant Continue(Contents(), off + 1, elen, first) == Continue(Contents(), off + 1 + i, elen - i, acc)
      {
        var y := buf[off + 1 + i];
        if y < 0x80 || y >= 0xC0 {
          return Some(Decoded(x, off + 1));
        }
        acc := acc * 64 + y % 64;
      }
      if acc > 0x10_FFFF {
        return Some(Decoded(x, off + 1));
      }
      r := Some(Decoded(acc, off + 1 + elen));
    }

    method ToString(off: int) returns (r: Option<seq<char16>>)
      requires Valid()
      ensures r == TextAt(Contents(), off)
    {
      var sb: seq<char16> := [];
      var at := off;
      assert TextAt(Contents(), off).Some? ==> [] + TextAt(Contents(), off).value == TextAt(Contents(), off).value;
      while true
        invariant TextAt(Contents(), off) == Before(sb, TextAt(Contents(), at))
        decreases len - at
      {
        var d := DecodeUTF8(at);
        if d.None? {
          return None;
        }
        if d.value.x == 0 {
          assert sb + [] == sb;
          return Some(sb);
        }
        BeforeBefore(sb, Utf16(d.value.x), TextAt(Contents(), d.value.next));
        sb := sb + Utf16(d.value.x);
        at := d.value.next;
      }
    }
  }

  // ----- The data block -----

  function TotalLength(contents: seq<seq<byte>>, n: nat): nat
    requires n <= |contents|
  {
    if n == 0 then 0 else TotalLength(contents, n - 1) + |contents[n - 1]|
  }

  /** t0_datablock: a zero byte, so that no address is 0, then all blocks. */
  function DataBlock(contents: seq<seq<byte>>, n: nat): (s: seq<byte>)
    requires n <= |contents|
    ensures |s| == 1 + TotalLength(contents, n)
  {
    if n == 0 then [0] else DataBlock(contents, n - 1) + contents[n - 1]
  }

  /** Block i is in the data block at its address, which is 1 plus the lengths of the blocks before it. */
  lemma {:induction false} BlockInPlace(contents: seq<seq<byte>>, n: nat, i: nat)
    requires i < n <= |contents|
    ensures var a := 1 + TotalLength(contents, i);
            a + |contents[i]| <= |DataBlock(contents, n)| && DataBlock(contents, n)[a..a + |contents[i]|] == contents[i]
    decreases n
  {
    if i < n - 1 {
      BlockInPlace(contents, n - 1, i);
      var a, before := 1 + TotalLength(contents, i), DataBlock(contents, n - 1);
      assert (before + contents[n - 1])[a..a + |contents[i]|] == before[a..a + |contents[i]|];
    }
  }

  /** Generate gives each block its address. */
  method PlaceBlocks(blocks: seq<ConstData>, ghost contents: seq<seq<byte>>) returns (dataLen: nat)
    requires |blocks| == |contents| && forall i :: 0 <= i < |blocks| ==> blocks[i].len == |contents[i]|
    requires forall i, j :: 0 <= i < j < |blocks| ==> blocks[i] != blocks[j]
    modifies blocks`address
    ensures forall i :: 0 <= i < |blocks| ==> blocks[i].address == 1 + TotalLength(contents, i)
    ensures dataLen == |DataBlock(contents, |contents|)|
  {
    dataLen := 1;
    ghost var addrs := seq(|contents| + 1, k requires 0 <= k <= |contents| => 1 + TotalLength(contents, k));
    for i := 0 to |blocks|
      invariant dataLen == addrs[i]
      invariant forall k :: 0 <= k < i ==> blocks[k].address == addrs[k]
    {
      assert addrs[i + 1] == addrs[i] + blocks[i].len;
      blocks[i].address := dataLen;
      dataLen := dataLen + blocks[i].len;
    }
  }

  /** The contents of a list of blocks. */
  ghost predicate Hold(blocks: seq<ConstData>, contents: seq<seq<byte>>)
    reads blocks, set b | b in blocks :: b.buf
  {
    |blocks| == |contents| && forall i :: 0 <= i < |blocks| ==> blocks[i].Valid() && blocks[i].Contents() == contents[i]
  }

  /** The bytes of the data block, as Generate and ConstData.Encode write them. */
  method WriteBlocks(blocks: seq<ConstData>, ghost contents: seq<seq<byte>>) returns (bytes: seq<byte>)
    requires Hold(blocks, contents)
    ensures bytes == DataBlock(contents, |contents|)
  {
    bytes := [0];
    for i := 0 to |blocks|
      invariant bytes == DataBlock(contents, i)
    {
      bytes := bytes + blocks[i].buf[..blocks[i].len];
    }
  }
}
