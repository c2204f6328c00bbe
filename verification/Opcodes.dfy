/** Stack effects, opcodes and words of the T0 compiler. */
module Opcodes {
  import opened Ints

  // ----- Stack effects -----

  /** Elements consumed and produced; din < 0: unknown effect; dout < 0: the word never exits. */
  datatype SType = SType(din: int, dout: int) {
    predicate IsKnown() {
      din >= 0
    }

    predicate NoExit() {
      din >= 0 && dout < 0
    }

    /** The sub-effect test of SType.IsSubOf. */
    predicate IsSubOf(s: SType) {
      && IsKnown() && s.IsKnown()
      && din <= s.din
      && (NoExit() || (!s.NoExit() && din - dout == s.din - s.dout))
    }

    /** What a known effect allows a word to do when entered at depth d: never return (None), or
        return at the one depth that the effect prescribes. */
    ghost predicate Allows(d: int, exit: Option<int>) {
      din <= d && (exit.Some? ==> dout >= 0 && exit.value == d - din + dout)
    }
  }

  const UNKNOWN := SType(-1, -1)

  /** The constructor of the source: negative counts are normalised to -1. */
  function MakeSType(din: int, dout: int): SType {
    SType(if din < 0 then -1 else din, if dout < 0 then -1 else dout)
  }

  /** Wherever s may be used, t may be entered and does nothing that s does not announce. */
  ghost predicate Included(t: SType, s: SType) {
    && t.din <= s.din
    && forall d, exit :: s.din <= d && t.Allows(d, exit) ==> s.Allows(d, exit)
  }

  /** IsSubOf is exactly inclusion of behaviours. */
  lemma SubEffectIsInclusion(t: SType, s: SType)
    requires t.IsKnown() && s.IsKnown()
    ensures t.IsSubOf(s) <==> Included(t, s)
  {
    if Included(t, s) && !t.NoExit() {
      var out := Some(s.din - t.din + t.dout);
      assert t.Allows(s.din, out);
      assert s.Allows(s.din, out);
    }
  }

  // ----- Opcodes -----

  /** The displacement of a forward jump that is not resolved yet (Int32.MinValue). */
  const UNRESOLVED: int := -0x8000_0000

  /** A call is by name until its target word is looked up. */
  datatype Opcode =
    | Ret
    | Const(v: int32)
    | GetLocal(num: nat)
    | PutLocal(num: nat)
    | Jump(disp: int)
    | JumpIf(disp: int)
    | JumpIfNot(disp: int)
    | Call(target: nat)
    | CallByName(name: string)
  {
    predicate IsJump() {
      Jump? || JumpIf? || JumpIfNot?
    }

    function JumpDisp(): int {
      if IsJump() then disp else 0
    }

    predicate MayFallThrough() {
      !Ret? && (Jump? ==> disp == 0)
    }

    function StackAction(): int {
      match this
      case Const(_) => 1
      case GetLocal(_) => 1
      case PutLocal(_) => -1
      case JumpIf(_) => -1
      case JumpIfNot(_) => -1
      case _ => 0
    }
  }

  // ----- Words -----

  /** A data word pushes the address that its block received. */
  datatype Body =
    | Interpreted(numLocals: nat, code: seq<Opcode>)
    | Native
    | Data(address: int32)

  datatype Word = Word(name: string, body: Body, effect: SType)

  /** Words are referenced by their index in the table of the compiler. */
  type Program = seq<Word>

  /** Jumps stay inside the code, execution cannot run past its end, local numbers are allocated. */
  predicate Closed(code: seq<Opcode>, numLocals: nat) {
    && |code| > 0
    && forall i :: 0 <= i < |code| ==> ClosedAt(code, numLocals, i)
  }

  predicate ClosedAt(code: seq<Opcode>, numLocals: nat, i: nat)
    requires i < |code|
  {
    var op := code[i];
    && (op.IsJump() ==> 0 <= i + 1 + op.disp < |code|)
    && (op.MayFallThrough() ==> i + 1 < |code|)
    && (op.GetLocal? || op.PutLocal? ==> op.num < numLocals)
  }

  /** Every word that the code of a live word calls is live. */
  predicate CallsLive(p: Program, live: set<nat>) {
    forall w, i :: w in live && w < |p| && p[w].body.Interpreted? && 0 <= i < |p[w].body.code|
                   && p[w].body.code[i].Call? ==>
      p[w].body.code[i].target in live
  }
}
