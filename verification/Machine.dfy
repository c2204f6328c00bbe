/** The machine that runs opcodes inside the compiler: a data stack and a stack of activations. */
module Machine {
  import opened Ints
  import opened Opcodes

  /** A word in progress. `off` is the next opcode; a local that was not written yet is None. */
  datatype Act = Act(word: nat, off: int, locals: seq<Option<int32>>)

  datatype State =
    | Running(acts: seq<Act>, stack: seq<int32>)
    | Done(stack: seq<int32>)
    | Aborted
    | Crashed

  /** Native words are stack functions; None: the word does not return. */
  type Natives = (nat, seq<int32>) -> Option<seq<int32>>

  function EnterWord(w: nat, numLocals: nat): Act {
    Act(w, 0, seq(numLocals, _ => None))
  }

  /** A fresh local holds 0. */
  function ReadLocal(v: Option<int32>): int32 {
    if v.Some? then v.value else 0
  }

  predicate HasOpcode(p: Program, a: Act) {
    a.word < |p| && p[a.word].body.Interpreted? && 0 <= a.off < |p[a.word].body.code|
  }

  function CurrentOp(p: Program, a: Act): Opcode
    requires HasOpcode(p, a)
  {
    p[a.word].body.code[a.off]
  }

  /** One opcode: fetch, advance, run. */
  function Step(p: Program, native: Natives, s: State): State {
    if !s.Running? then s
    else if s.acts == [] || !HasOpcode(p, s.acts[|s.acts| - 1]) then Crashed
    else
      var a := s.acts[|s.acts| - 1];
      Exec(p, native, s.acts[..|s.acts| - 1], a.(off := a.off + 1), s.stack, CurrentOp(p, a))
  }

  function Exec(p: Program, native: Natives, rest: seq<Act>, a: Act, stack: seq<int32>, op: Opcode): State {
    match op
    case Ret => if rest == [] then Done(stack) else Running(rest, stack)
    case Const(v) => Running(rest + [a], stack + [v])
    case GetLocal(k) =>
      if k < |a.locals| then Running(rest + [a], stack + [ReadLocal(a.locals[k])]) else Crashed
    case PutLocal(k) =>
      if k < |a.locals| && stack != [] then
        Running(rest + [a.(locals := a.locals[k := Some(stack[|stack| - 1])])], stack[..|stack| - 1])
      else Crashed
    case Jump(d) => Running(rest + [a.(off := a.off + d)], stack)
    case JumpIf(d) => Branch(rest, a, stack, d, true)
    case JumpIfNot(d) => Branch(rest, a, stack, d, false)
    case Call(w) => if w < |p| then RunWord(p, native, w, rest + [a], stack) else Crashed
    case CallByName(_) => Crashed
  }

  function Branch(rest: seq<Act>, a: Act, stack: seq<int32>, disp: int, when: bool): State {
    if stack == [] then Crashed
    else if (stack[|stack| - 1] != 0) == when then
      Running(rest + [a.(off := a.off + disp)], stack[..|stack| - 1])
    else Running(rest + [a], stack[..|stack| - 1])
  }

  /** Word.Run */
  function RunWord(p: Program, native: Natives, w: nat, acts: seq<Act>, stack: seq<int32>): State
    requires w < |p|
  {
    match p[w].body
    case Interpreted(n, _) => Running(acts + [EnterWord(w, n)], stack)
    case Data(address) => Running(acts, stack + [address])
    case Native =>
      var r := native(w, stack);
      if r.Some? then Running(acts, r.value) else Aborted
  }

  /** n opcodes. */
  function Run(p: Program, native: Natives, s: State, n: nat): State {
    if n == 0 then s else Step(p, native, Run(p, native, s, n - 1))
  }

  function Start(p: Program, w: nat, stack: seq<int32>): State
    requires w < |p| && p[w].body.Interpreted?
  {
    Running([EnterWord(w, p[w].body.numLocals)], stack)
  }

  /** Return slots that the activations occupy in the generated code: locals and a return address. */
  function Slots(acts: seq<Act>): nat {
    if acts == [] then 0 else Slots(acts[..|acts| - 1]) + |acts[|acts| - 1].locals| + 1
  }

  lemma SlotsTop(rest: seq<Act>, a: Act)
    ensures Slots(rest + [a]) == Slots(rest) + |a.locals| + 1
  {
    assert (rest + [a])[..|rest|] == rest;
  }

  /** The next opcode is the call of a data word. */
  predicate CallsData(p: Program, s: State) {
    && s.Running? && s.acts != []
    && var a := s.acts[|s.acts| - 1];
       HasOpcode(p, a) && CallsDataOp(p, CurrentOp(p, a))
  }

  predicate CallsDataOp(p: Program, op: Opcode) {
    op.Call? && op.target < |p| && p[op.target].body.Data?
  }
}
