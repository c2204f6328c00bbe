/** Machine integers of the compiler and of the generated C code, slices of code, and the usual Option type. */
module Ints {

  datatype Option<+T> = None | Some(value: T)

  const TWO_31: int := 0x8000_0000
  const TWO_32: int := 0x1_0000_0000

  type byte = x: int | 0 <= x < 256
  type uint32 = x: int | 0 <= x < 0x1_0000_0000
  type int32 = x: int | -0x8000_0000 <= x < 0x8000_0000

  /** A UTF-16 code unit. */
  type char16 = x: int | 0 <= x < 0x1_0000

  function Min(a: int, b: int): int {
    if a < b then a else b
  }

  function Max(a: int, b: int): int {
    if a < b then b else a
  }

  /** The cast `(uint)x`: reduction modulo 2^32. */
  function ToUint32(x: int): uint32 {
    x % TWO_32
  }

  /** The cast `(int)x`: the representative of x modulo 2^32 in the signed range. */
  function ToInt32(x: int): (r: int)
    ensures -0x8000_0000 <= r < 0x8000_0000
  {
    var u := x % TWO_32;
    if u < TWO_31 then u else u - TWO_32
  }

  /** `v >> k`: k halvings, each rounding down (an arithmetic shift for negative v). */
  function Shr(v: int, k: nat): int
    decreases k
  {
    if k == 0 then v else Shr(v / 2, k - 1)
  }

  lemma {:induction false} ShrAdd(v: int, j: nat, k: nat)
    ensures Shr(v, j + k) == Shr(Shr(v, j), k)
    decreases j
  {
    if j != 0 {
      ShrAdd(v / 2, j - 1, k);
    }
  }

  lemma ShrSeven(v: int)
    ensures Shr(v, 7) == v / 128
  {
    var a := v / 2;
    var b := a / 2;
    var c := b / 2;
    var d := c / 2;
    var e := d / 2;
    var f := e / 2;
    calc {
      Shr(v, 7);
      Shr(a, 6);
      Shr(b, 5);
      Shr(c, 4);
      Shr(d, 3);
      Shr(e, 2);
      Shr(f, 1);
      f / 2;
      v / 128;
    }
  }

  /** The slice of code at p is s. */
  predicate At(code: seq<byte>, p: nat, s: seq<byte>) {
    p + |s| <= |code| && code[p..p + |s|] == s
  }

  lemma AtSplit(code: seq<byte>, p: nat, s: seq<byte>, t: seq<byte>)
    ensures At(code, p, s + t) <==> At(code, p, s) && At(code, p + |s|, t)
  {
    if p + |s| + |t| <= |code| {
      assert code[p..p + |s| + |t|] == code[p..p + |s|] + code[p + |s|..p + |s| + |t|];
      if At(code, p, s + t) {
        assert s == (s + t)[..|s|] == code[p..p + |s|];
        assert t == (s + t)[|s|..] == code[p + |s|..p + |s| + |t|];
      }
    }
  }

  lemma {:induction false} BoundedSet(s: set<nat>, n: nat)
    requires forall j :: j in s ==> j < n
    ensures |s| <= n
    decreases n
  {
    if n > 0 {
      BoundedSet(s - {n - 1}, n - 1);
    }
  }
}
