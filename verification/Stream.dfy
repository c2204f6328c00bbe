/** Reading the code block back: at the address of element i stand exactly the bytes of element i. */
module Stream {
  import opened Ints
  import opened SevenE
  import opened CodeElements

  /** T0_NEXT: one byte, or a 7E value. */
  function Next(code: seq<byte>, p: nat, oneByte: bool): Parsed {
    if oneByte then if p < |code| then Parsed(code[p], p + 1) else Overrun
    else ParseUnsigned(code, p)
  }

  /** The code block of a layout. */
  function Block(elems: seq<Elem>, lens: seq<nat>, oneByte: bool): seq<byte>
    requires LaidOut(elems, lens, oneByte) && Encodable(elems, oneByte)
  {
    Bytes(elems, |elems|, lens, oneByte)
  }

  lemma LaidOutAt(elems: seq<Elem>, lens: seq<nat>, oneByte: bool, i: nat)
    requires LaidOut(elems, lens, oneByte) && i < |elems|
    ensures lens[i] == LenAt(elems, i, lens, oneByte)
  {
    assert Round(elems, lens, oneByte)[i] == LenAt(elems, i, lens, oneByte);
  }

  lemma AtPrefix(s: seq<byte>, t: seq<byte>, p: nat, b: seq<byte>)
    requires At(s, p, b)
    ensures At(s + t, p, b)
  {
    assert (s + t)[p..p + |b|] == s[p..p + |b|];
  }

  lemma AtEnd(s: seq<byte>, t: seq<byte>)
    ensures At(s + t, |s|, t)
  {
    assert (s + t)[|s|..|s| + |t|] == t;
  }

  lemma {:induction false} BytesLength(elems: seq<Elem>, n: nat, lens: seq<nat>, oneByte: bool)
    requires LaidOut(elems, lens, oneByte) && n <= |elems| && Encodable(elems, oneByte)
    ensures |Bytes(elems, n, lens, oneByte)| == Sum(lens, n)
    decreases n
  {
    hide LaidOut, Encodable, ElemBytes, LenAt;
    if n > 0 {
      BytesLength(elems, n - 1, lens, oneByte);
      LaidOutAt(elems, lens, oneByte, n - 1);
    }
  }

  lemma {:induction false} BytesAt(elems: seq<Elem>, n: nat, lens: seq<nat>, oneByte: bool, i: nat)
    requires LaidOut(elems, lens, oneByte) && i < n <= |elems| && Encodable(elems, oneByte)
    ensures At(Bytes(elems, n, lens, oneByte), Sum(lens, i), ElemBytes(elems, i, lens, oneByte))
    decreases n
  {
    hide Round, Encodable, ElemBytes, LenAt, At;
    var front, last := Bytes(elems, n - 1, lens, oneByte), ElemBytes(elems, n - 1, lens, oneByte);
    if i < n - 1 {
      BytesAt(elems, n - 1, lens, oneByte, i);
      AtPrefix(front, last, Sum(lens, i), ElemBytes(elems, i, lens, oneByte));
    } else {
      BytesLength(elems, n - 1, lens, oneByte);
      AtEnd(front, last);
    }
  }

  lemma OpDecodes(code: seq<byte>, p: nat, op: uint32, oneByte: bool)
    requires oneByte ==> op <= 255
    requires At(code, p, EncOp(op, oneByte))
    ensures Next(code, p, oneByte) == Parsed(op, p + OpLen(op, oneByte))
  {
    if oneByte {
      assert code[p] == code[p..p + 1][0];
    } else {
      UnsignedRoundTrip(code, p, op);
    }
  }

  /** What the run loop reads at position p for element e: its slot or opcode, then its argument,
      which ends at q; the offset of a jump leads from q to `dest`. */
  predicate Reads(code: seq<byte>, oneByte: bool, p: nat, q: nat, e: Elem, dest: int) {
    var op := Next(code, p, oneByte);
    && op.Parsed? && op.value == e.op
    && match e
       case UInt(_) => op.next == q
       case UIntInt(_, v) => ParseSigned(code, op.next) == Parsed(v, q)
       case UIntUInt(_, v) => ParseUnsigned(code, op.next) == Parsed(v, q)
       case JumpTo(_, _) => ParseSigned(code, op.next) == Parsed(dest - q, q)
  }

  /** Decoding at the address of element i yields that element, consumes exactly its length, and takes
      a jump to the address of its target. */
  lemma StreamDecodes(elems: seq<Elem>, lens: seq<nat>, oneByte: bool, i: nat)
    requires LaidOut(elems, lens, oneByte) && Encodable(elems, oneByte) && i < |elems|
    requires Short(lens) && 10 * |lens| < TWO_31
    ensures Reads(Block(elems, lens, oneByte), oneByte, Sum(lens, i), Sum(lens, i + 1), elems[i],
                  if elems[i].JumpTo? then Sum(lens, elems[i].target) else 0)
  {
    hide Reads, ElemBytes, At;
    BytesAt(elems, |elems|, lens, oneByte, i);
    LaidOutAt(elems, lens, oneByte, i);
    if elems[i].JumpTo? {
      OffsetFits(lens, i, elems[i].target);
    }
    ElemDecodes(elems, lens, oneByte, i, Block(elems, lens, oneByte), Sum(lens, i));
  }

  lemma ElemDecodes(elems: seq<Elem>, lens: seq<nat>, oneByte: bool, i: nat, code: seq<byte>, p: nat)
    requires WellLinked(elems) && |lens| == |elems| && Encodable(elems, oneByte) && i < |elems|
    requires At(code, p, ElemBytes(elems, i, lens, oneByte))
    requires elems[i].JumpTo? ==> -TWO_31 <= Offset(lens, i, elems[i].target) < TWO_31
    ensures var q := p + LenAt(elems, i, lens, oneByte);
            Reads(code, oneByte, p, q, elems[i], if elems[i].JumpTo? then q + Offset(lens, i, elems[i].target) else 0)
  {
    hide Accumulate, ParseUnsigned, ParseSigned, EncSigned, EncUnsigned, Next, At, LenSigned, LenUnsigned;
    var op := EncOp(elems[i].op, oneByte);
    match elems[i]
    case UInt(o) =>
      AtSplit(code, p, op, []);
      OpDecodes(code, p, o, oneByte);
    case UIntInt(o, v) =>
      AtSplit(code, p, op, EncSigned(v));
      OpDecodes(code, p, o, oneByte);
      SignedRoundTrip(code, p + |op|, v);
    case UIntUInt(o, v) =>
      AtSplit(code, p, op, EncUnsigned(v));
      OpDecodes(code, p, o, oneByte);
      UnsignedRoundTrip(code, p + |op|, v);
    case JumpTo(o, t) =>
      AtSplit(code, p, op, EncSigned(Offset(lens, i, t)));
      OpDecodes(code, p, o, oneByte);
      SignedRoundTrip(code, p + |op|, Offset(lens, i, t));
  }

  /** The word header is written as a slot number but always read in 7E format: the number of locals
      comes back, with the position after the header, exactly when it is below 128 or the code block
      is not in one-byte mode. */
  lemma HeaderDecodes(code: seq<byte>, p: nat, numLocals: uint32, oneByte: bool)
    requires oneByte ==> numLocals <= 255
    requires At(code, p, EncOp(numLocals, oneByte))
    ensures ParseUnsigned(code, p) == Parsed(numLocals, p + OpLen(numLocals, oneByte))
            <==> (oneByte ==> numLocals < 128)
  {
    if oneByte {
      assert code[p] == code[p..p + 1][0];
    } else {
      UnsignedRoundTrip(code, p, numLocals);
    }
  }

  /** The header that stands at element b. */
  lemma HeaderAt(elems: seq<Elem>, lens: seq<nat>, oneByte: bool, b: nat, n: uint32)
    requires LaidOut(elems, lens, oneByte) && Encodable(elems, oneByte) && b < |elems|
    requires elems[b] == UInt(n) && (oneByte ==> n < 128)
    ensures ParseUnsigned(Block(elems, lens, oneByte), Sum(lens, b)) == Parsed(n, Sum(lens, b + 1))
  {
    hide Round, ParseUnsigned, At, EncOp;
    BytesAt(elems, |elems|, lens, oneByte, b);
    LaidOutAt(elems, lens, oneByte, b);
    assert ElemBytes(elems, b, lens, oneByte) == EncOp(n, oneByte) + [] == EncOp(n, oneByte);
    HeaderDecodes(Block(elems, lens, oneByte), Sum(lens, b), n, oneByte);
  }

  lemma {:induction false} SumGrows(lens: seq<nat>, i: nat, j: nat)
    requires i <= j <= |lens|
    ensures Sum(lens, i) <= Sum(lens, j)
    decreases j
  {
    if i < j {
      SumGrows(lens, i, j - 1);
    }
  }
}
