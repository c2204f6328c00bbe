/** Code elements and the layout loop: the length of a jump depends on addresses, which depend on
    lengths; the generator iterates until the total length repeats. */
module CodeElements {
  import opened Ints
  import opened SevenE

  /** One element of the code block; a jump names the position of its target in the list. */
  datatype Elem =
    | UInt(op: uint32)
    | UIntInt(op: uint32, sval: int32)
    | UIntUInt(op: uint32, uval: uint32)
    | JumpTo(op: uint32, target: nat)

  /** Every jump has its target in the list. */
  predicate WellLinked(elems: seq<Elem>) {
    forall i :: 0 <= i < |elems| && elems[i].JumpTo? ==> elems[i].target < |elems|
  }

  // ----- Lengths and addresses -----

  /** The address of element i when the elements before it have these lengths. */
  function Sum(lens: seq<nat>, i: nat): nat
    requires i <= |lens|
  {
    if i == 0 then 0 else Sum(lens, i - 1) + lens[i - 1]
  }

  function OpLen(op: uint32, oneByte: bool): (n: nat)
    ensures n >= 1
  {
    if oneByte then 1 else LenUnsigned(op)
  }

  /** Offset from the end of element i to its target. */
  function Offset(lens: seq<nat>, i: nat, target: nat): int
    requires i < |lens| && target < |lens|
  {
    Sum(lens, target) - Sum(lens, i + 1)
  }

  /** The length before any address is known. */
  function FirstLen(e: Elem, oneByte: bool): nat {
    OpLen(e.op, oneByte) + match e
                           case UInt(_) => 0
                           case UIntInt(_, v) => LenSigned(v)
                           case UIntUInt(_, v) => LenUnsigned(v)
                           case JumpTo(_, _) => 1
  }

  function LenAt(elems: seq<Elem>, i: nat, lens: seq<nat>, oneByte: bool): nat
    requires WellLinked(elems) && |lens| == |elems| && i < |elems|
  {
    if elems[i].JumpTo? then OpLen(elems[i].op, oneByte) + LenSigned(Offset(lens, i, elems[i].target))
    else FirstLen(elems[i], oneByte)
  }

  function FirstLens(elems: seq<Elem>, oneByte: bool): seq<nat> {
    seq(|elems|, i requires 0 <= i < |elems| => FirstLen(elems[i], oneByte))
  }

  /** One round: the lengths that follow from the addresses of the previous round. */
  function Round(elems: seq<Elem>, lens: seq<nat>, oneByte: bool): seq<nat>
    requires WellLinked(elems) && |lens| == |elems|
  {
    seq(|elems|, i requires 0 <= i < |elems| => LenAt(elems, i, lens, oneByte))
  }

  /** The lengths agree with the addresses that they induce. */
  predicate LaidOut(elems: seq<Elem>, lens: seq<nat>, oneByte: bool) {
    WellLinked(elems) && |lens| == |elems| && Round(elems, lens, oneByte) == lens
  }

  // ----- The rounds are monotone -----

  predicate Below(a: seq<nat>, b: seq<nat>) {
    |a| == |b| && forall i :: 0 <= i < |a| ==> a[i] <= b[i]
  }

  lemma {:induction false} SumMonotone(a: seq<nat>, b: seq<nat>, i: nat, j: nat)
    requires Below(a, b) && i <= j <= |a|
    ensures 0 <= Sum(a, j) - Sum(a, i) <= Sum(b, j) - Sum(b, i)
    decreases j
  {
    if i < j {
      SumMonotone(a, b, i, j - 1);
    }
  }

  lemma {:induction false} LenSignedMonotone(x: int, y: int)
    requires 0 <= x <= y || y <= x <= 0
    ensures LenSigned(x) <= LenSigned(y)
    decreases if y < 0 then -y else y
  {
    if -0x40 <= x < 0x40 {
    } else {
      LenSignedMonotone(x / 128, y / 128);
    }
  }

  /** Longer elements never shorten a jump. */
  lemma RoundMonotone(elems: seq<Elem>, a: seq<nat>, b: seq<nat>, oneByte: bool)
    requires WellLinked(elems) && |a| == |elems| && Below(a, b)
    ensures Below(Round(elems, a, oneByte), Round(elems, b, oneByte))
  {
    forall i | 0 <= i < |elems|
      ensures LenAt(elems, i, a, oneByte) <= LenAt(elems, i, b, oneByte)
    {
      if elems[i].JumpTo? {
        var t := elems[i].target;
        if i < t {
          SumMonotone(a, b, i + 1, t);
        } else {
          SumMonotone(a, b, t, i + 1);
        }
        LenSignedMonotone(Offset(a, i, t), Offset(b, i, t));
      }
    }
  }

  /** Lengths that grow and keep their total have not moved. */
  lemma {:induction false} EqualTotals(a: seq<nat>, b: seq<nat>, n: nat)
    requires Below(a, b) && n <= |a| && Sum(a, n) == Sum(b, n)
    ensures a[..n] == b[..n]
  {
    if n > 0 {
      SumMonotone(a, b, 0, n - 1);
      EqualTotals(a, b, n - 1);
      assert a[..n] == a[..n - 1] + [a[n - 1]] && b[..n] == b[..n - 1] + [b[n - 1]];
    }
  }

  /** No element is longer than two maximal 7E values. */
  predicate Short(lens: seq<nat>) {
    forall i :: 0 <= i < |lens| ==> lens[i] <= 10
  }

  lemma {:induction false} ShortSum(lens: seq<nat>, i: nat)
    requires Short(lens) && i <= |lens|
    ensures Sum(lens, i) <= 10 * i
  {
    if i > 0 {
      ShortSum(lens, i - 1);
    }
  }

  lemma OffsetFits(lens: seq<nat>, i: nat, target: nat)
    requires Short(lens) && i < |lens| && target < |lens| && 10 * |lens| < TWO_31
    ensures -TWO_31 <= Offset(lens, i, target) < TWO_31
  {
    ShortSum(lens, i + 1);
    ShortSum(lens, target);
  }

  lemma RoundStaysShort(elems: seq<Elem>, lens: seq<nat>, oneByte: bool)
    requires WellLinked(elems) && |lens| == |elems| && Short(lens) && 10 * |lens| < TWO_31
    ensures Short(Round(elems, lens, oneByte))
  {
    forall i | 0 <= i < |elems|
      ensures LenAt(elems, i, lens, oneByte) <= 10
    {
      LengthsAtMostFive(elems[i].op, 0);
      match elems[i]
      case UInt(_) =>
      case UIntInt(_, v) => LengthsAtMostFive(0, v);
      case UIntUInt(_, v) => LengthsAtMostFive(v, 0);
      case JumpTo(_, t) =>
        OffsetFits(lens, i, t);
        LengthsAtMostFive(0, Offset(lens, i, t));
    }
  }

  lemma FirstLensShort(elems: seq<Elem>, oneByte: bool)
    ensures Short(FirstLens(elems, oneByte))
  {
    forall i | 0 <= i < |elems|
      ensures FirstLen(elems[i], oneByte) <= 10
    {
      LengthsAtMostFive(elems[i].op, 0);
      match elems[i]
      case UIntInt(_, v) => LengthsAtMostFive(0, v);
      case UIntUInt(_, v) => LengthsAtMostFive(v, 0);
      case _ =>
    }
  }

  /** What holds of the lengths after every round of the layout loop. */
  ghost predicate Growing(elems: seq<Elem>, lens: seq<nat>, oneByte: bool) {
    && WellLinked(elems) && |lens| == |elems| && Short(lens) && Below(lens, Round(elems, lens, oneByte))
    && BelowLayouts(elems, lens, oneByte)
  }

  /** No element is longer than in any layout. */
  ghost predicate BelowLayouts(elems: seq<Elem>, lens: seq<nat>, oneByte: bool) {
    forall other :: LaidOut(elems, other, oneByte) ==> Below(lens, other)
  }

  lemma FirstBelowLayouts(elems: seq<Elem>, oneByte: bool)
    ensures BelowLayouts(elems, FirstLens(elems, oneByte), oneByte)
  {
    forall other | LaidOut(elems, other, oneByte)
      ensures Below(FirstLens(elems, oneByte), other)
    {
      assert forall i :: 0 <= i < |elems| ==> other[i] == Round(elems, other, oneByte)[i] == LenAt(elems, i, other, oneByte);
    }
  }

  lemma NextBelowLayouts(elems: seq<Elem>, lens: seq<nat>, oneByte: bool)
    requires WellLinked(elems) && |lens| == |elems| && BelowLayouts(elems, lens, oneByte)
    ensures BelowLayouts(elems, Round(elems, lens, oneByte), oneByte)
  {
    forall other | LaidOut(elems, other, oneByte)
      ensures Below(Round(elems, lens, oneByte), other)
    {
      RoundMonotone(elems, lens, other, oneByte);
    }
  }

  lemma FirstRound(elems: seq<Elem>, oneByte: bool)
    requires WellLinked(elems)
    ensures Growing(elems, FirstLens(elems, oneByte), oneByte)
  {
    FirstLensShort(elems, oneByte);
    FirstBelowLayouts(elems, oneByte);
    hide BelowLayouts;
  }

  /** Every round grows the lengths and their total, unless it has reached a fixpoint. */
  lemma NextRound(elems: seq<Elem>, lens: seq<nat>, oneByte: bool)
    requires Growing(elems, lens, oneByte) && 10 * |lens| < TWO_31
    ensures var next := Round(elems, lens, oneByte);
            && Growing(elems, next, oneByte)
            && Sum(lens, |lens|) <= Sum(next, |lens|) <= 10 * |lens|
            && (Sum(next, |lens|) == Sum(lens, |lens|) ==> next == lens)
  {
    hide BelowLayouts;
    var next := Round(elems, lens, oneByte);
    NextBelowLayouts(elems, lens, oneByte);
    RoundStaysShort(elems, lens, oneByte);
    RoundMonotone(elems, lens, next, oneByte);
    SumMonotone(lens, next, 0, |lens|);
    ShortSum(next, |lens|);
    if Sum(next, |lens|) == Sum(lens, |lens|) {
      EqualTotals(lens, next, |lens|);
      assert lens == lens[..|lens|] == next[..|lens|] == next;
    }
  }

  // ----- The bytes of an element -----

  function EncOp(op: uint32, oneByte: bool): (s: seq<byte>)
    requires oneByte ==> op <= 255
    ensures |s| == OpLen(op, oneByte)
  {
    if oneByte then [op] else EncUnsigned(op)
  }

  /** In one-byte mode every slot number must fit a byte. */
  predicate Encodable(elems: seq<Elem>, oneByte: bool) {
    forall i :: 0 <= i < |elems| && oneByte ==> elems[i].op <= 255
  }

  function ElemBytes(elems: seq<Elem>, i: nat, lens: seq<nat>, oneByte: bool): (s: seq<byte>)
    requires WellLinked(elems) && |lens| == |elems| && i < |elems| && Encodable(elems, oneByte)
    ensures |s| == LenAt(elems, i, lens, oneByte)
  {
    EncOp(elems[i].op, oneByte) + match elems[i]
                                  case UInt(_) => []
                                  case UIntInt(_, v) => EncSigned(v)
                                  case UIntUInt(_, v) => EncUnsigned(v)
                                  case JumpTo(_, t) => EncSigned(Offset(lens, i, t))
  }

  /** The bytes of the first n elements. */
  function Bytes(elems: seq<Elem>, n: nat, lens: seq<nat>, oneByte: bool): seq<byte>
    requires WellLinked(elems) && |lens| == |elems| && n <= |elems| && Encodable(elems, oneByte)
  {
    if n == 0 then [] else Bytes(elems, n - 1, lens, oneByte) + ElemBytes(elems, n - 1, lens, oneByte)
  }

  // ----- The objects of the generator -----

  class CodeElement {
    const elem: Elem
    var address: int
    var lastLength: int
    var target: CodeElement?

    constructor (elem: Elem)
      ensures this.elem == elem && address == -1 && lastLength == 0 && target == null
    {
      this.elem := elem;
      address := -1;
      lastLength := 0;
      target := null;
    }

    /** Only jumps accept a target. */
    method SetJumpTarget(t: CodeElement) returns (ok: bool)
      modifies this`target
      ensures ok == elem.JumpTo?
      ensures target == if ok then t else old(target)
    {
      ok := elem.JumpTo?;
      if ok {
        target := t;
      }
    }

    /** None while the target or one of the two addresses is missing. */
    function JumpOff(): Option<int>
      reads this, target
    {
      if target == null || address < 0 || target.address < 0 then None
      else Some(target.address - (address + lastLength))
    }

    method OpLength(oneByte: bool) returns (len: nat)
      ensures len == OpLen(elem.op, oneByte)
    {
      if oneByte {
        len := 1;
      } else {
        len := Encode7EUnsigned(elem.op, null);
      }
    }

    method GetLength(oneByte: bool) returns (len: nat)
      requires elem.JumpTo? && JumpOff().Some? ==> -TWO_31 <= JumpOff().value < TWO_31
      ensures len == if elem.JumpTo? && JumpOff().Some?
                     then OpLen(elem.op, oneByte) + LenSigned(JumpOff().value)
                     else FirstLen(elem, oneByte)
    {
      len := OpLength(oneByte);
      var n: nat := 0;
      match elem {
        case UInt(_) =>
        case UIntInt(_, v) => n := Encode7ESigned(v, null);
        case UIntUInt(_, v) => n := Encode7EUnsigned(v, null);
        case JumpTo(_, _) =>
          if JumpOff().None? {
            n := 1;
          } else {
            n := Encode7ESigned(JumpOff().value, null);
          }
      }
      len := len + n;
    }

    /** Encode; a slot that does not fit its byte and an unresolved jump are exceptions. */
    method Encode(bw: BlobWriter, oneByte: bool) returns (ok: bool)
      requires elem.JumpTo? && JumpOff().Some? ==> -TWO_31 <= JumpOff().value < TWO_31
      modifies bw
      ensures ok == ((oneByte ==> elem.op <= 255) && (elem.JumpTo? ==> JumpOff().Some?))
      ensures ok ==> bw.bytes == old(bw.bytes) + EncOp(elem.op, oneByte)
                                 + match elem
                                   case UInt(_) => []
                                   case UIntInt(_, v) => EncSigned(v)
                                   case UIntUInt(_, v) => EncUnsigned(v)
                                   case JumpTo(_, _) => EncSigned(JumpOff().value)
    {
      if oneByte {
        if elem.op > 255 {
          return false;
        }
        bw.Append(elem.op);
      } else {
        var _ := Encode7EUnsigned(elem.op, bw);
      }
      match elem {
        case UInt(_) =>
        case UIntInt(_, v) => var _ := Encode7ESigned(v, bw);
        case UIntUInt(_, v) => var _ := Encode7EUnsigned(v, bw);
        case JumpTo(_, _) =>
          if JumpOff().None? {
            return false;
          }
          var _ := Encode7ESigned(JumpOff().value, bw);
      }
      ok := true;
    }
  }

  /** The objects stand for the list of elements, with jumps linked to their targets. */
  ghost predicate Linked(gcode: seq<CodeElement>, elems: seq<Elem>)
    reads gcode
  {
    && WellLinked(elems) && |gcode| == |elems|
    && (forall i :: 0 <= i < |gcode| ==> gcode[i].elem == elems[i])
    && (forall i :: 0 <= i < |gcode| && elems[i].JumpTo? ==> gcode[i].target == gcode[elems[i].target])
  }

  ghost predicate Distinct(gcode: seq<CodeElement>) {
    forall i, j :: 0 <= i < j < |gcode| ==> gcode[i] != gcode[j]
  }

  /** The objects hold these lengths and the addresses that follow from them. */
  ghost predicate Placed(gcode: seq<CodeElement>, lens: seq<nat>)
    reads gcode
  {
    && |lens| == |gcode|
    && forall i :: 0 <= i < |gcode| ==> gcode[i].lastLength == lens[i] && gcode[i].address == Sum(lens, i)
  }

  ghost predicate Unplaced(gcode: seq<CodeElement>)
    reads gcode
  {
    forall i :: 0 <= i < |gcode| ==> gcode[i].address == -1
  }

  /** The second inner loop: assign addresses. */
  method PlaceAll(gcode: seq<CodeElement>, gcodeLen: array<nat>) returns (off: nat)
    requires Distinct(gcode) && gcodeLen.Length == |gcode|
    modifies gcode
    ensures forall k :: 0 <= k < |gcode| ==> gcode[k].target == old(gcode[k].target)
    ensures Placed(gcode, gcodeLen[..])
    ensures off == Sum(gcodeLen[..], |gcode|)
  {
    off := 0;
    ghost var lens := gcodeLen[..];
    ghost var addrs := seq(|gcode| + 1, k requires 0 <= k <= |gcode| => Sum(lens, k));
    for i := 0 to |gcode|
      invariant off == addrs[i] && gcodeLen[..] == lens
      invariant forall k :: 0 <= k < |gcode| ==> gcode[k].target == old(gcode[k].target)
      invariant forall k :: 0 <= k < i ==> gcode[k].lastLength == lens[k] && gcode[k].address == addrs[k]
    {
      assert addrs[i + 1] == addrs[i] + lens[i];
      gcode[i].address := off;
      gcode[i].lastLength := gcodeLen[i];
      off := off + gcodeLen[i];
    }
  }

  lemma PlacedOffset(gcode: seq<CodeElement>, elems: seq<Elem>, lens: seq<nat>, i: nat)
    requires Linked(gcode, elems) && Placed(gcode, lens) && i < |gcode| && elems[i].JumpTo?
    ensures gcode[i].JumpOff() == Some(Offset(lens, i, elems[i].target))
  {
    var ce, t := gcode[i], elems[i].target;
    assert t < |gcode| && ce.target == gcode[t];
    assert ce.address == Sum(lens, i) && ce.lastLength == lens[i];
    assert gcode[t].address == Sum(lens, t);
    assert Sum(lens, i + 1) == Sum(lens, i) + lens[i];
  }

  /** The lengths that a round measures: placeholders first, then those of the last addresses. */
  function Measured(elems: seq<Elem>, lens: seq<nat>, first: bool, oneByte: bool): seq<nat>
    requires WellLinked(elems) && |lens| == |elems|
  {
    if first then FirstLens(elems, oneByte) else Round(elems, lens, oneByte)
  }

  /** The first inner loop: measure every element with the addresses at hand. */
  method MeasureAll(gcode: seq<CodeElement>, gcodeLen: array<nat>, oneByte: bool,
                    ghost elems: seq<Elem>, ghost lens: seq<nat>, ghost first: bool)
    requires Linked(gcode, elems) && gcodeLen.Length == |gcode| == |lens| && 10 * |gcode| < TWO_31
    requires if first then Unplaced(gcode) else Placed(gcode, lens) && Short(lens)
    modifies gcodeLen
    ensures gcodeLen[..] == Measured(elems, lens, first, oneByte)
  {
    hide Linked, Placed, Unplaced, Short, Measured, CodeElement.JumpOff;
    LinkedLength(gcode, elems, lens, first, oneByte);
    ghost var want := Measured(elems, lens, first, oneByte);
    for i := 0 to |gcode|
      invariant forall k :: 0 <= k < i ==> gcodeLen[k] == want[k]
    {
      Readable(gcode, elems, lens, first, oneByte, i);
      gcodeLen[i] := gcode[i].GetLength(oneByte);
    }
  }

  lemma LinkedLength(gcode: seq<CodeElement>, elems: seq<Elem>, lens: seq<nat>, first: bool, oneByte: bool)
    requires Linked(gcode, elems) && |lens| == |gcode|
    ensures WellLinked(elems) && |elems| == |gcode| && |Measured(elems, lens, first, oneByte)| == |gcode|
  {
  }

  /** What GetLength finds at element i is what the round says. */
  lemma Readable(gcode: seq<CodeElement>, elems: seq<Elem>, lens: seq<nat>, first: bool, oneByte: bool, i: nat)
    requires Linked(gcode, elems) && |gcode| == |lens| && 10 * |gcode| < TWO_31 && i < |gcode|
    requires if first then Unplaced(gcode) else Placed(gcode, lens) && Short(lens)
    ensures WellLinked(elems) && |elems| == |lens|
    ensures var ce, off := gcode[i], gcode[i].JumpOff();
            && (ce.elem.JumpTo? && off.Some? ==> -TWO_31 <= off.value < TWO_31)
            && Measured(elems, lens, first, oneByte)[i]
               == if ce.elem.JumpTo? && off.Some? then OpLen(ce.elem.op, oneByte) + LenSigned(off.value)
                  else FirstLen(ce.elem, oneByte)
  {
    if !first && elems[i].JumpTo? {
      PlacedOffset(gcode, elems, lens, i);
      OffsetFits(lens, i, elems[i].target);
    }
  }

  /** One pass of the layout loop: measure, then place. */
  method LayoutPass(gcode: seq<CodeElement>, gcodeLen: array<nat>, oneByte: bool,
                    ghost elems: seq<Elem>, ghost lens: seq<nat>, ghost first: bool) returns (off: nat)
    requires Linked(gcode, elems) && Distinct(gcode)
    requires gcodeLen.Length == |gcode| == |lens| && 10 * |gcode| < TWO_31
    requires if first then Unplaced(gcode) else Placed(gcode, lens) && Short(lens)
    modifies gcode, gcodeLen
    ensures Linked(gcode, elems) && Placed(gcode, gcodeLen[..])
    ensures gcodeLen[..] == Measured(elems, lens, first, oneByte)
    ensures off == Sum(gcodeLen[..], |gcode|)
  {
    MeasureAll(gcode, gcodeLen, oneByte, elems, lens, first);
    off := PlaceAll(gcode, gcodeLen);
  }

  /** The layout loop of Generate. It terminates with lengths and addresses that agree, and these are the shortest ones:
      in no other layout is any element shorter. */
  method Layout(gcode: seq<CodeElement>, oneByte: bool, ghost elems: seq<Elem>) returns (ghost lens: seq<nat>)
    requires Linked(gcode, elems) && Distinct(gcode) && Unplaced(gcode) && 10 * |gcode| < TWO_31
    modifies gcode
    ensures Linked(gcode, elems) && Placed(gcode, lens)
    ensures LaidOut(elems, lens, oneByte) && Short(lens) && BelowLayouts(elems, lens, oneByte)
  {
    var totalLen: int := -1;
    var gcodeLen := new nat[|gcode|](_ => 0);
    lens := gcodeLen[..];
    while true
      invariant Linked(gcode, elems) && |lens| == |gcode| && totalLen <= 10 * |gcode|
      invariant totalLen == -1 ==> Unplaced(gcode)
      invariant totalLen != -1 ==> Placed(gcode, lens) && Growing(elems, lens, oneByte)
      invariant totalLen != -1 ==> totalLen == Sum(lens, |lens|)
      decreases 10 * |gcode| - totalLen
    {
      hide BelowLayouts;
      var off := LayoutPass(gcode, gcodeLen, oneByte, elems, lens, totalLen == -1);
      RoundProgress(elems, lens, totalLen, oneByte);
      lens := gcodeLen[..];
      if off == totalLen {
        break;
      }
      totalLen := off;
    }
  }

  lemma RoundProgress(elems: seq<Elem>, lens: seq<nat>, total: int, oneByte: bool)
    requires WellLinked(elems) && |lens| == |elems| && 10 * |elems| < TWO_31
    requires total != -1 ==> Growing(elems, lens, oneByte) && total == Sum(lens, |lens|)
    ensures var next := Measured(elems, lens, total == -1, oneByte);
            && Growing(elems, next, oneByte)
            && BelowLayouts(elems, next, oneByte)
            && total <= Sum(next, |lens|) <= 10 * |lens|
            && (Sum(next, |lens|) == total ==> LaidOut(elems, next, oneByte))
  {
    hide BelowLayouts;
    if total == -1 {
      FirstRound(elems, oneByte);
      ShortSum(FirstLens(elems, oneByte), |lens|);
    } else {
      NextRound(elems, lens, oneByte);
    }
  }
}
