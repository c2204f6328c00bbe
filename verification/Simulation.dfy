/** Meaning preservation: every opcode of the compiler's machine is matched by the run loop of the
    generated code on the laid-out bytes. */
module Simulation {
  import opened Ints
  import opened SevenE
  import opened Opcodes
  import opened CodeElements
  import opened Stream
  import opened Machine
  import opened Runner

  // ----- What was compiled -----

  /** The bytecode of a word: a data word is compiled as the push of its address. */
  function CodeOf(b: Body): seq<Opcode> {
    match b
    case Interpreted(_, code) => code
    case Data(address) => [Const(address), Ret]
    case Native => []
  }

  function LocalCount(b: Body): nat {
    if b.Interpreted? then b.numLocals else 0
  }

  /** The outcome of linking: element list, lengths, first element and slot of each compiled word. */
  datatype Link = Link(elems: seq<Elem>, lens: seq<nat>, base: map<nat, nat>, slot: map<nat, uint32>)

  /** Opcode.ToCodeElement and FixUp for the opcode at offset i of a word that starts at element b. */
  predicate IsElemOf(l: Link, b: nat, i: nat, op: Opcode, e: Elem) {
    match op
    case Ret => e == UInt(0)
    case Const(v) => e == UIntInt(1, v)
    case GetLocal(k) => e == UIntUInt(2, ToUint32(k))
    case PutLocal(k) => e == UIntUInt(3, ToUint32(k))
    case Jump(d) => e.JumpTo? && e.op == 4 && e.target == b + 1 + i + 1 + d
    case JumpIf(d) => e.JumpTo? && e.op == 5 && e.target == b + 1 + i + 1 + d
    case JumpIfNot(d) => e.JumpTo? && e.op == 6 && e.target == b + 1 + i + 1 + d
    case Call(w) => w in l.slot && e == UInt(l.slot[w])
    case CallByName(_) => false
  }

  /** The word occupies the elements from b: its header, then one element for each opcode. */
  predicate WordPlaced(l: Link, b: nat, numLocals: nat, code: seq<Opcode>) {
    && b + 1 + |code| <= |l.elems|
    && l.elems[b] == UInt(ToUint32(numLocals))
    && forall i :: 0 <= i < |code| ==> IsElemOf(l, b, i, code[i], l.elems[b + 1 + i])
  }

  predicate WordLinked(p: Program, l: Link, img: Image, w: nat) {
    && w < |p| && w in l.slot
    && if p[w].body.Native? then 7 <= l.slot[w] < img.interpreted
       else
         && w in l.base
         && img.interpreted <= l.slot[w] < img.interpreted + |img.caddr|
         && l.base[w] < |l.lens|
         && img.caddr[l.slot[w] - img.interpreted] == Sum(l.lens, l.base[w])
         && WordPlaced(l, l.base[w], LocalCount(p[w].body), CodeOf(p[w].body))
         && Closed(CodeOf(p[w].body), LocalCount(p[w].body))
         && LocalCount(p[w].body) < (if img.oneByte then 128 else 0x10000)
  }

  /** The image holds the words in `live`: the conditions under which the generator's output is
      meaningful are a code block that 16-bit addresses cover and local counts that the header can hold. */
  predicate Compiled(p: Program, live: set<nat>, l: Link, img: Image) {
    && LaidOut(l.elems, l.lens, img.oneByte) && Encodable(l.elems, img.oneByte)
    && Short(l.lens) && 10 * |l.lens| < TWO_31
    && img.code == Block(l.elems, l.lens, img.oneByte) && |img.code| <= 0x10000
    && img.interpreted >= 7
    && (forall w :: w in live ==> WordLinked(p, l, img, w))
    && CallsLive(p, live)
  }

  /** The C code of a slot does what the native word with that slot does. */
  ghost predicate SameNatives(p: Program, live: set<nat>, l: Link, native: Natives, ccode: CCode) {
    forall w, s :: w in live && w < |p| && p[w].body.Native? && w in l.slot ==> ccode(l.slot[w], s) == native(w, s)
  }

  // ----- The relation between the two machines -----

  /** The address of the opcode that an activation runs next. */
  function OpAddr(l: Link, a: Act): nat
    requires ActLinked(l, a)
  {
    Sum(l.lens, ElemIndex(l, a))
  }

  predicate ActLinked(l: Link, a: Act) {
    a.word in l.base && 0 <= a.off && l.base[a.word] + 1 + a.off < |l.lens|
  }

  function ElemIndex(l: Link, a: Act): nat
    requires ActLinked(l, a)
  {
    l.base[a.word] + 1 + a.off
  }

  /** An activation of a live interpreted word, at one of its opcodes. */
  predicate ActLive(p: Program, live: set<nat>, a: Act) {
    a.word in live && HasOpcode(p, a) && |a.locals| == p[a.word].body.numLocals
  }

  predicate ActsLive(p: Program, live: set<nat>, acts: seq<Act>) {
    forall a :: a in acts ==> ActLive(p, live, a)
  }

  /** The address that the frame of the top activation returns to; 0 stands for leaving the run loop. */
  function ReturnAddr(l: Link, rest: seq<Act>): nat {
    if rest == [] || !ActLinked(l, rest[|rest| - 1]) then 0 else OpAddr(l, rest[|rest| - 1])
  }

  /** The return stack from index lo to rp holds one frame for each activation: its locals, the last
      one deepest, then the packed return address. Only written locals are determined. */
  ghost predicate Frames(l: Link, acts: seq<Act>, mem: seq<uint32>, lo: nat, rp: int)
    decreases |acts|
  {
    if acts == [] then rp == lo
    else
      var rest, a := acts[..|acts| - 1], acts[|acts| - 1];
      && lo + |a.locals| < rp <= |mem|
      && mem[rp - 1] == ReturnAddr(l, rest) + |a.locals| * 0x10000
      && LocalsIn(a.locals, mem, rp)
      && Frames(l, rest, mem, lo, rp - 1 - |a.locals|)
  }

  predicate LocalsIn(locals: seq<Option<int32>>, mem: seq<uint32>, rp: int)
    requires |locals| < rp <= |mem|
  {
    forall x :: 0 <= x < |locals| && locals[x].Some? ==> mem[rp - 2 - x] == ToUint32(locals[x].value)
  }

  ghost predicate Rel(p: Program, live: set<nat>, l: Link, lo: nat, size: nat, s: State, t: TState) {
    match s
    case Running(acts, stack) =>
      && acts != [] && ActsLive(p, live, acts)
      && t.TRunning? && t.ds == stack && |t.mem| == size
      && Frames(l, acts, t.mem, lo, t.rp)
      && ActLinked(l, acts[|acts| - 1]) && t.ip == OpAddr(l, acts[|acts| - 1])
    case Done(stack) => t == TExited(stack)
    case Aborted => t == TAborted
    case Crashed => false
  }

  // ----- Addresses -----

  /** Every element takes at least a byte, so addresses strictly increase up to the end of the block. */
  lemma AddressRange(elems: seq<Elem>, lens: seq<nat>, oneByte: bool, k: nat)
    requires LaidOut(elems, lens, oneByte) && Encodable(elems, oneByte) && k < |lens|
    ensures Sum(lens, k) < |Block(elems, lens, oneByte)| && (k > 0 ==> Sum(lens, k) > 0)
  {
    LaidOutAt(elems, lens, oneByte, k);
    LaidOutAt(elems, lens, oneByte, 0);
    BytesLength(elems, |elems|, lens, oneByte);
    hide LaidOut, Bytes;
    SumGrows(lens, k + 1, |lens|);
    assert Sum(lens, 1) == Sum(lens, 0) + lens[0];
    if k > 0 {
      SumGrows(lens, 1, k);
    }
  }

  /** Opcode addresses are never 0, and fit 16 bits. */
  lemma OpAddrRange(p: Program, live: set<nat>, l: Link, img: Image, a: Act)
    requires Compiled(p, live, l, img) && ActLinked(l, a)
    ensures 0 < OpAddr(l, a) < 0x10000
  {
    hide LaidOut, Encodable, Block;
    AddressRange(l.elems, l.lens, img.oneByte, ElemIndex(l, a));
  }

  lemma LiveLinked(p: Program, live: set<nat>, l: Link, img: Image, a: Act)
    requires Compiled(p, live, l, img) && ActLive(p, live, a)
    ensures HasOpcode(p, a) && ActLinked(l, a) && WordLinked(p, l, img, a.word)
    ensures IsElemOf(l, l.base[a.word], a.off, CurrentOp(p, a), l.elems[ElemIndex(l, a)])
    ensures ClosedAt(p[a.word].body.code, p[a.word].body.numLocals, a.off)
    ensures CurrentOp(p, a).Call? ==> CurrentOp(p, a).target in live
  {
    assert CodeOf(p[a.word].body) == p[a.word].body.code;
  }

  /** What the run loop reads where an activation stands. */
  lemma OpReads(p: Program, live: set<nat>, l: Link, img: Image, a: Act)
    requires Compiled(p, live, l, img) && ActLinked(l, a)
    ensures var k := ElemIndex(l, a);
            WellLinked(l.elems) && |l.elems| == |l.lens| &&
            Reads(img.code, img.oneByte, OpAddr(l, a), Sum(l.lens, k + 1), l.elems[k],
                  if l.elems[k].JumpTo? then Sum(l.lens, l.elems[k].target) else 0)
  {
    StreamDecodes(l.elems, l.lens, img.oneByte, ElemIndex(l, a));
  }

  // ----- Frames -----

  /** The definition of Frames for a stack of activations with a at the top. */
  lemma FramesTop(l: Link, rest: seq<Act>, a: Act, mem: seq<uint32>, lo: nat, rp: int)
    ensures Frames(l, rest + [a], mem, lo, rp) <==>
            && lo + |a.locals| < rp <= |mem|
            && mem[rp - 1] == ReturnAddr(l, rest) + |a.locals| * 0x10000
            && LocalsIn(a.locals, mem, rp)
            && Frames(l, rest, mem, lo, rp - 1 - |a.locals|)
  {
    assert (rest + [a])[..|rest|] == rest;
  }

  /** Frames below rp do not depend on the memory from rp up. */
  lemma {:induction false} FramesFrame(l: Link, acts: seq<Act>, mem: seq<uint32>, mem': seq<uint32>, lo: nat, rp: int)
    requires Frames(l, acts, mem, lo, rp) && 0 <= rp <= |mem| == |mem'| && mem[..rp] == mem'[..rp]
    ensures Frames(l, acts, mem', lo, rp)
    decreases |acts|
  {
    if acts != [] {
      var rest, a := acts[..|acts| - 1], acts[|acts| - 1];
      var rp0 := rp - 1 - |a.locals|;
      assert forall i :: 0 <= i < rp ==> mem[i] == mem[..rp][i] == mem'[..rp][i] == mem'[i];
      assert mem[..rp0] == mem[..rp][..rp0] == mem'[..rp0];
      FramesFrame(l, rest, mem, mem', lo, rp0);
    }
  }

  lemma {:induction false} FramesSlots(l: Link, acts: seq<Act>, mem: seq<uint32>, lo: nat, rp: int)
    requires Frames(l, acts, mem, lo, rp)
    ensures rp == lo + Slots(acts)
    decreases |acts|
  {
    if acts != [] {
      FramesSlots(l, acts[..|acts| - 1], mem, lo, rp - 1 - |acts[|acts| - 1].locals|);
    }
  }

  // ----- One step -----

  /** The current opcode reads a local that was not written since its word was entered. The compiler's
      machine reads 0; the generated code reads whatever the return stack memory holds. */
  predicate ReadsUnwritten(p: Program, s: State) {
    && s.Running? && s.acts != []
    && var a := s.acts[|s.acts| - 1];
       && HasOpcode(p, a) && CurrentOp(p, a).GetLocal?
       && CurrentOp(p, a).num < |a.locals| && a.locals[CurrentOp(p, a).num].None?
  }

  /** Turns of the run loop for one opcode: the call of a data word enters it, pushes and returns. */
  function Cost(p: Program, s: State): nat {
    if !s.Running? then 0 else if CallsData(p, s) then 3 else 1
  }

  /** Both stacks have room for state s, and for the frame of a data word on top of it. */
  predicate Room(p: Program, s: State, cap: nat, lo: nat, size: nat) {
    s.Running? ==> |s.stack| <= cap && lo + Slots(s.acts) + (if CallsData(p, s) then 1 else 0) <= size
  }

  lemma ActsSplit(p: Program, live: set<nat>, rest: seq<Act>, a: Act)
    ensures ActsLive(p, live, rest + [a]) <==> ActsLive(p, live, rest) && ActLive(p, live, a)
  {
    assert forall x :: x in rest + [a] <==> x in rest || x == a;
  }

  lemma SameLength(p: Program, live: set<nat>, l: Link, img: Image)
    requires Compiled(p, live, l, img)
    ensures |l.elems| == |l.lens|
  {
  }

  lemma JumpElem(l: Link, b: nat, i: nat, op: Opcode, e: Elem)
    requires IsElemOf(l, b, i, op, e)
    ensures op.IsJump() ==> e.JumpTo? && e.target == b + 1 + i + 1 + op.disp
  {
  }

  /** The opcode after a straight one, and the target of a jump, are opcodes of the same word. */
  lemma Successors(p: Program, live: set<nat>, l: Link, img: Image, a: Act)
    requires Compiled(p, live, l, img) && ActLive(p, live, a)
    ensures ActLinked(l, a) && |l.elems| == |l.lens|
    ensures var op := CurrentOp(p, a);
            var next := a.(off := a.off + 1);
            (op.MayFallThrough() ==>
              ActLive(p, live, next) && ActLinked(l, next) && OpAddr(l, next) == Sum(l.lens, ElemIndex(l, a) + 1))
    ensures var op := CurrentOp(p, a);
            op.IsJump() ==>
              var there := a.(off := a.off + 1 + op.disp);
              var e := l.elems[ElemIndex(l, a)];
              && ActLive(p, live, there) && ActLinked(l, there)
              && e.JumpTo? && e.target < |l.lens| && OpAddr(l, there) == Sum(l.lens, e.target)
  {
    SameLength(p, live, l, img);
    hide Compiled, WordLinked, IsElemOf, Sum;
    LiveLinked(p, live, l, img, a);
    var op, e := CurrentOp(p, a), l.elems[ElemIndex(l, a)];
    JumpElem(l, l.base[a.word], a.off, op, e);
    if op.MayFallThrough() {
      LiveLinked(p, live, l, img, a.(off := a.off + 1));
    }
    if op.IsJump() {
      LiveLinked(p, live, l, img, a.(off := a.off + 1 + op.disp));
    }
  }

  /** The relation, spelled out for a stack of activations with a at the top. */
  lemma RelTop(p: Program, live: set<nat>, l: Link, lo: nat, size: nat, rest: seq<Act>, a: Act,
               stack: seq<int32>, t: TState)
    ensures Rel(p, live, l, lo, size, Running(rest + [a], stack), t) <==>
            && ActsLive(p, live, rest) && ActLive(p, live, a)
            && t.TRunning? && t.ds == stack && |t.mem| == size
            && lo + |a.locals| < t.rp <= |t.mem|
            && t.mem[t.rp - 1] == ReturnAddr(l, rest) + |a.locals| * 0x10000
            && LocalsIn(a.locals, t.mem, t.rp)
            && Frames(l, rest, t.mem, lo, t.rp - 1 - |a.locals|)
            && ActLinked(l, a) && t.ip == OpAddr(l, a)
  {
    ActsSplit(p, live, rest, a);
    if t.TRunning? {
      FramesTop(l, rest, a, t.mem, lo, t.rp);
    }
  }

  lemma CastLocal(v: int32)
    ensures ToInt32(ToUint32(v)) == v
  {
  }

  /** One turn of the run loop at the address of an activation: what was decoded, in the terms of
      the opcode that stands there. */
  ghost predicate TurnIs(l: Link, img: Image, ccode: CCode, cap: nat, a: Act, op: Opcode, t: TState, t': TState)
    requires t.TRunning? && ActLinked(l, a)
  {
    var next := a.(off := a.off + 1);
    match op
    case Ret => exists ip :: t' == Return(t.(ip := ip))
    case Const(v) => ActLinked(l, next) && t' == WithStack(t.(ip := OpAddr(l, next)), t.ds + [v], cap)
    case GetLocal(k) => ActLinked(l, next) && t' == ReadLocalSlot(t, Parsed(ToUint32(k), OpAddr(l, next)), cap)
    case PutLocal(k) => ActLinked(l, next) && t' == WriteLocalSlot(t, Parsed(ToUint32(k), OpAddr(l, next)))
    case Jump(d) =>
      var there := next.(off := next.off + d);
      ActLinked(l, there) && t' == t.(ip := OpAddr(l, there))
    case JumpIf(d) => BranchIs(l, next, next.(off := next.off + d), true, t, t')
    case JumpIfNot(d) => BranchIs(l, next, next.(off := next.off + d), false, t, t')
    case Call(w) =>
      && w in l.slot && ActLinked(l, next)
      && t' == if l.slot[w] < img.interpreted then Builtin(img, ccode, cap, t.(ip := OpAddr(l, next)), l.slot[w])
               else Enter(img, t.(ip := OpAddr(l, next)), l.slot[w] - img.interpreted)
    case CallByName(_) => false
  }

  ghost predicate BranchIs(l: Link, next: Act, there: Act, when: bool, t: TState, t': TState)
    requires t.TRunning?
  {
    && ActLinked(l, next) && ActLinked(l, there)
    && t' == TakeIf(t, Parsed(OpAddr(l, there) - OpAddr(l, next), OpAddr(l, next)), when)
  }

  /** One turn of the run loop on an element that ends at q; `dest` is the target of a jump. */
  ghost predicate ElemTurn(img: Image, ccode: CCode, cap: nat, t: TState, q: nat, e: Elem, dest: int, t': TState)
    requires t.TRunning?
  {
    match e
    case UInt(op) =>
      t' == if op == 0 then Return(t.(ip := q))
            else if op < img.interpreted then Builtin(img, ccode, cap, t.(ip := q), op)
            else Enter(img, t.(ip := q), op - img.interpreted)
    case UIntInt(op, v) => op == 1 ==> t' == WithStack(t.(ip := q), t.ds + [v], cap)
    case UIntUInt(op, v) =>
      && (op == 2 ==> t' == ReadLocalSlot(t, Parsed(v, q), cap))
      && (op == 3 ==> t' == WriteLocalSlot(t, Parsed(v, q)))
    case JumpTo(op, _) =>
      && (op == 4 ==> t' == t.(ip := dest))
      && (op == 5 ==> t' == TakeIf(t, Parsed(dest - q, q), true))
      && (op == 6 ==> t' == TakeIf(t, Parsed(dest - q, q), false))
  }

  lemma TurnOnElem(img: Image, ccode: CCode, cap: nat, t: TState, q: nat, e: Elem, dest: int)
    requires t.TRunning? && t.ip >= 0 && img.interpreted >= 7
    requires Reads(img.code, img.oneByte, t.ip, q, e, dest)
    ensures ElemTurn(img, ccode, cap, t, q, e, dest, TStep(img, ccode, cap, t))
  {
    hide Next, ParseSigned, ParseUnsigned, Return, Enter;
    if e.UIntInt? {
      assert ToInt32(e.sval) == e.sval;
    }
  }

  /** Where the run loop goes next is where the machine goes next. */
  ghost predicate Leads(l: Link, a: Act, op: Opcode, e: Elem, q: nat, dest: int) {
    && (op.MayFallThrough() ==>
         var next := a.(off := a.off + 1);
         ActLinked(l, next) && OpAddr(l, next) == q)
    && (op.IsJump() ==>
         var there := a.(off := a.off + 1 + op.disp);
         e.JumpTo? && ActLinked(l, there) && OpAddr(l, there) == dest)
  }

  lemma TurnOnOp(l: Link, img: Image, ccode: CCode, cap: nat, a: Act, op: Opcode, e: Elem, b: nat,
                 q: nat, dest: int, t: TState, t': TState)
    requires t.TRunning? && ActLinked(l, a) && img.interpreted >= 7
    requires IsElemOf(l, b, a.off, op, e) && Leads(l, a, op, e, q, dest)
    requires op.Call? && op.target in l.slot ==> l.slot[op.target] >= 7
    requires ElemTurn(img, ccode, cap, t, q, e, dest, t')
    ensures TurnIs(l, img, ccode, cap, a, op, t, t')
  {
    hide OpAddr, Return, Enter, Builtin;
  }

  lemma SevenSlots(p: Program, live: set<nat>, l: Link, img: Image)
    requires Compiled(p, live, l, img)
    ensures img.interpreted >= 7
  {
  }

  lemma CalleeLinked(p: Program, live: set<nat>, l: Link, img: Image, a: Act)
    requires Compiled(p, live, l, img) && ActLive(p, live, a) && CurrentOp(p, a).Call?
    ensures CurrentOp(p, a).target in live && WordLinked(p, l, img, CurrentOp(p, a).target)
    ensures CurrentOp(p, a).target in l.slot
    ensures p[CurrentOp(p, a).target].body.Native? <==> l.slot[CurrentOp(p, a).target] < img.interpreted
    ensures l.slot[CurrentOp(p, a).target] >= 7
  {
    LiveLinked(p, live, l, img, a);
    assert WordLinked(p, l, img, CurrentOp(p, a).target);
  }

  lemma Turn(p: Program, live: set<nat>, l: Link, img: Image, ccode: CCode, cap: nat, a: Act, t: TState)
    requires Compiled(p, live, l, img) && ActLive(p, live, a)
    requires ActLinked(l, a) && t.TRunning? && t.ip == OpAddr(l, a)
    ensures TurnIs(l, img, ccode, cap, a, CurrentOp(p, a), t, TStep(img, ccode, cap, t))
  {
    hide Compiled, TStep, Reads, ActLive, WordLinked, ElemTurn, TurnIs, IsElemOf, OpAddr, Closed, ClosedAt;
    LiveLinked(p, live, l, img, a);
    SevenSlots(p, live, l, img);
    if CurrentOp(p, a).Call? {
      CalleeLinked(p, live, l, img, a);
    }
    OpReads(p, live, l, img, a);
    Successors(p, live, l, img, a);
    var op, e, q := CurrentOp(p, a), l.elems[ElemIndex(l, a)], Sum(l.lens, ElemIndex(l, a) + 1);
    var dest := if e.JumpTo? then Sum(l.lens, e.target) else 0;
    TurnOnElem(img, ccode, cap, t, q, e, dest);
    TurnOnOp(l, img, ccode, cap, a, op, e, l.base[a.word], q, dest, t, TStep(img, ccode, cap, t));
  }

  lemma SimConst(p: Program, live: set<nat>, l: Link, img: Image, native: Natives, ccode: CCode, cap: nat,
    lo: nat, size: nat, rest: seq<Act>, a: Act, stack: seq<int32>, t: TState)
    requires Compiled(p, live, l, img) && ActLive(p, live, a)
    requires Rel(p, live, l, lo, size, Running(rest + [a], stack), t)
    requires CurrentOp(p, a).Const? && |stack| < cap
    ensures Rel(p, live, l, lo, size, Exec(p, native, rest, a.(off := a.off + 1), stack, CurrentOp(p, a)),
                TStep(img, ccode, cap, t))
  {
    hide Compiled, Rel, TStep, Frames, ReturnAddr, OpAddr, ActsLive, LocalsIn;
    RelTop(p, live, l, lo, size, rest, a, stack, t);
    Turn(p, live, l, img, ccode, cap, a, t);
    Successors(p, live, l, img, a);
    var next, v := a.(off := a.off + 1), CurrentOp(p, a).v;
    RelTop(p, live, l, lo, size, rest, next, stack + [v], TRunning(OpAddr(l, next), stack + [v], t.mem, t.rp));
  }

  lemma SimGetLocal(p: Program, live: set<nat>, l: Link, img: Image, native: Natives, ccode: CCode, cap: nat,
    lo: nat, size: nat, rest: seq<Act>, a: Act, stack: seq<int32>, t: TState)
    requires Compiled(p, live, l, img) && ActLive(p, live, a)
    requires Rel(p, live, l, lo, size, Running(rest + [a], stack), t)
    requires CurrentOp(p, a).GetLocal? && |stack| < cap
    requires CurrentOp(p, a).num < |a.locals| && a.locals[CurrentOp(p, a).num].Some?
    ensures Rel(p, live, l, lo, size, Exec(p, native, rest, a.(off := a.off + 1), stack, CurrentOp(p, a)),
                TStep(img, ccode, cap, t))
  {
    hide Compiled, Rel, TStep, Frames, ReturnAddr, OpAddr, ActsLive, WordLinked;
    RelTop(p, live, l, lo, size, rest, a, stack, t);
    Turn(p, live, l, img, ccode, cap, a, t);
    Successors(p, live, l, img, a);
    LiveLinked(p, live, l, img, a);
    var next, v := a.(off := a.off + 1), a.locals[CurrentOp(p, a).num].value;
    CastLocal(v);
    RelTop(p, live, l, lo, size, rest, next, stack + [v], TRunning(OpAddr(l, next), stack + [v], t.mem, t.rp));
  }

  lemma SimPutLocal(p: Program, live: set<nat>, l: Link, img: Image, native: Natives, ccode: CCode, cap: nat,
    lo: nat, size: nat, rest: seq<Act>, a: Act, stack: seq<int32>, t: TState)
    requires Compiled(p, live, l, img) && ActLive(p, live, a)
    requires Rel(p, live, l, lo, size, Running(rest + [a], stack), t)
    requires CurrentOp(p, a).PutLocal? && CurrentOp(p, a).num < |a.locals| && stack != []
    ensures Rel(p, live, l, lo, size, Exec(p, native, rest, a.(off := a.off + 1), stack, CurrentOp(p, a)),
                TStep(img, ccode, cap, t))
  {
    hide Compiled, Rel, TStep, Frames, ReturnAddr, ActsLive, WordLinked;
    RelTop(p, live, l, lo, size, rest, a, stack, t);
    Turn(p, live, l, img, ccode, cap, a, t);
    Successors(p, live, l, img, a);
    LiveLinked(p, live, l, img, a);
    var k, v, stack' := CurrentOp(p, a).num, stack[|stack| - 1], stack[..|stack| - 1];
    var next := a.(off := a.off + 1, locals := a.locals[k := Some(v)]);
    assert ActLive(p, live, next) && ActLinked(l, next) && OpAddr(l, next) == OpAddr(l, a.(off := a.off + 1));
    var mem', low := t.mem[t.rp - 2 - k := ToUint32(v)], t.rp - 1 - |a.locals|;
    assert mem'[..low] == t.mem[..low];
    FramesFrame(l, rest, t.mem, mem', lo, low);
    RelTop(p, live, l, lo, size, rest, next, stack', TRunning(OpAddr(l, next), stack', mem', t.rp));
  }

  lemma SimJump(p: Program, live: set<nat>, l: Link, img: Image, native: Natives, ccode: CCode, cap: nat,
    lo: nat, size: nat, rest: seq<Act>, a: Act, stack: seq<int32>, t: TState)
    requires Compiled(p, live, l, img) && ActLive(p, live, a)
    requires Rel(p, live, l, lo, size, Running(rest + [a], stack), t)
    requires CurrentOp(p, a).IsJump() && (CurrentOp(p, a).Jump? || stack != [])
    ensures Rel(p, live, l, lo, size, Exec(p, native, rest, a.(off := a.off + 1), stack, CurrentOp(p, a)),
                TStep(img, ccode, cap, t))
  {
    hide Compiled, Rel, TStep, Frames, ReturnAddr, OpAddr, ActsLive, LocalsIn;
    RelTop(p, live, l, lo, size, rest, a, stack, t);
    Turn(p, live, l, img, ccode, cap, a, t);
    Successors(p, live, l, img, a);
    var op := CurrentOp(p, a);
    var next, there := a.(off := a.off + 1), a.(off := a.off + 1 + op.disp);
    var stack' := if op.Jump? then stack else stack[..|stack| - 1];
    if !op.Jump? {
      RelTop(p, live, l, lo, size, rest, next, stack', TRunning(OpAddr(l, next), stack', t.mem, t.rp));
    }
    RelTop(p, live, l, lo, size, rest, there, stack', TRunning(OpAddr(l, there), stack', t.mem, t.rp));
  }

  /** Leaving a word: the packed word gives back the number of locals and the caller's address, which
      is 0 exactly for the entry word. */
  lemma SimRet(p: Program, live: set<nat>, l: Link, img: Image, native: Natives, ccode: CCode, cap: nat,
    lo: nat, size: nat, rest: seq<Act>, a: Act, stack: seq<int32>, t: TState)
    requires Compiled(p, live, l, img) && ActLive(p, live, a)
    requires Rel(p, live, l, lo, size, Running(rest + [a], stack), t)
    requires CurrentOp(p, a).Ret?
    ensures Rel(p, live, l, lo, size, Exec(p, native, rest, a.(off := a.off + 1), stack, CurrentOp(p, a)),
                TStep(img, ccode, cap, t))
  {
    hide Compiled, Rel, TStep, ActLive, WordLinked, LocalsIn;
    RelTop(p, live, l, lo, size, rest, a, stack, t);
    Turn(p, live, l, img, ccode, cap, a, t);
    Successors(p, live, l, img, a);
    var rp' := t.rp - 1 - |a.locals|;
    if rest == [] {
      Unpack(0, |a.locals|);
      RelExit(p, live, l, lo, size, stack);
    } else {
      var r, b := rest[..|rest| - 1], rest[|rest| - 1];
      assert rest == r + [b];
      ActsSplit(p, live, r, b);
      LiveLinked(p, live, l, img, b);
      OpAddrRange(p, live, l, img, b);
      Unpack(OpAddr(l, b), |a.locals|);
      FramesTop(l, r, b, t.mem, lo, rp');
      RelTop(p, live, l, lo, size, r, b, stack, TRunning(OpAddr(l, b), stack, t.mem, rp'));
    }
  }

  lemma Unpack(addr: nat, n: nat)
    requires addr < 0x10000
    ensures (addr + n * 0x10000) % 0x10000 == addr && (addr + n * 0x10000) / 0x10000 == n
  {
  }

  lemma RelExit(p: Program, live: set<nat>, l: Link, lo: nat, size: nat, stack: seq<int32>)
    ensures Rel(p, live, l, lo, size, Done(stack), TExited(stack))
  {
  }

  // ----- Calls -----

  lemma HeaderReads(p: Program, live: set<nat>, l: Link, img: Image, w: nat)
    requires Compiled(p, live, l, img) && w in live && w < |p| && !p[w].body.Native?
    ensures WordLinked(p, l, img, w) && l.base[w] + 1 <= |l.lens|
    ensures ParseUnsigned(img.code, Sum(l.lens, l.base[w])) == Parsed(LocalCount(p[w].body), Sum(l.lens, l.base[w] + 1))
  {
    assert WordLinked(p, l, img, w);
    HeaderAt(l.elems, l.lens, img.oneByte, l.base[w], LocalCount(p[w].body));
  }

  /** T0_ENTER on the slot of a compiled word: past its header, with a frame for its locals. */
  lemma EnterJumps(p: Program, live: set<nat>, l: Link, img: Image, w: nat, t: TState)
    requires Compiled(p, live, l, img) && w in live && w < |p| && !p[w].body.Native?
    requires t.TRunning? && 0 <= t.ip < 0x10000 && t.rp + LocalCount(p[w].body) + 1 <= |t.mem|
    ensures WordLinked(p, l, img, w) && l.base[w] + 1 <= |l.lens|
    ensures var n := LocalCount(p[w].body);
            && t.ip + n * 0x10000 < TWO_32
            && Enter(img, t, l.slot[w] - img.interpreted)
               == TRunning(Sum(l.lens, l.base[w] + 1), t.ds, t.mem[t.rp + n := t.ip + n * 0x10000], t.rp + n + 1)
  {
    hide Compiled, ParseUnsigned, WordPlaced, Closed;
    HeaderReads(p, live, l, img, w);
  }

  /** Entering a word adds an activation on one side and a frame on the other. */
  lemma EnterRel(p: Program, live: set<nat>, l: Link, img: Image, lo: nat, size: nat,
                 acts: seq<Act>, w: nat, stack: seq<int32>, t: TState)
    requires Compiled(p, live, l, img) && w in live && w < |p| && p[w].body.Interpreted?
    requires t.TRunning? && t.ds == stack && |t.mem| == size && ActsLive(p, live, acts)
    requires Frames(l, acts, t.mem, lo, t.rp) && t.ip == ReturnAddr(l, acts)
    requires t.rp + p[w].body.numLocals + 1 <= size
    ensures WordLinked(p, l, img, w)
    ensures Rel(p, live, l, lo, size, Running(acts + [EnterWord(w, p[w].body.numLocals)], stack),
                Enter(img, t, l.slot[w] - img.interpreted))
  {
    hide Compiled, Enter, Frames, Rel, ActsLive, ReturnAddr;
    var n := p[w].body.numLocals;
    var a := EnterWord(w, n);
    NewActLive(p, live, l, img, w);
    ReturnAddrRange(p, live, l, img, acts);
    EnterJumps(p, live, l, img, w, t);
    LiveLinked(p, live, l, img, a);
    hide ActLive, WordLinked;
    var mem' := t.mem[t.rp + n := t.ip + n * 0x10000];
    assert mem'[..t.rp] == t.mem[..t.rp];
    FramesFrame(l, acts, t.mem, mem', lo, t.rp);
    RelTop(p, live, l, lo, size, acts, a, stack, TRunning(Sum(l.lens, l.base[w] + 1), stack, mem', t.rp + n + 1));
  }

  lemma NewActLive(p: Program, live: set<nat>, l: Link, img: Image, w: nat)
    requires Compiled(p, live, l, img) && w in live && w < |p| && p[w].body.Interpreted?
    ensures WordLinked(p, l, img, w) && ActLive(p, live, EnterWord(w, p[w].body.numLocals))
  {
    assert WordLinked(p, l, img, w);
  }

  lemma ReturnAddrRange(p: Program, live: set<nat>, l: Link, img: Image, rest: seq<Act>)
    requires Compiled(p, live, l, img)
    ensures 0 <= ReturnAddr(l, rest) < 0x10000
  {
    hide Compiled;
    if rest != [] && ActLinked(l, rest[|rest| - 1]) {
      OpAddrRange(p, live, l, img, rest[|rest| - 1]);
    }
  }

  lemma RunTwice(img: Image, ccode: CCode, cap: nat, t: TState)
    ensures TRun(img, ccode, cap, t, 1) == TStep(img, ccode, cap, t)
    ensures TRun(img, ccode, cap, t, 3) == TStep(img, ccode, cap, TStep(img, ccode, cap, TStep(img, ccode, cap, t)))
  {
    assert TRun(img, ccode, cap, t, 1) == TStep(img, ccode, cap, TRun(img, ccode, cap, t, 0));
    assert TRun(img, ccode, cap, t, 2) == TStep(img, ccode, cap, TRun(img, ccode, cap, t, 1));
  }

  lemma DataPush(p: Program, live: set<nat>, l: Link, img: Image, ccode: CCode, cap: nat, w: nat, t: TState)
    requires Compiled(p, live, l, img) && w in live && w < |p| && p[w].body.Data?
    requires ActLinked(l, Act(w, 0, [])) && ActLinked(l, Act(w, 1, []))
    requires t.TRunning? && t.ip == Sum(l.lens, l.base[w] + 1) && |t.ds| < cap
    ensures TStep(img, ccode, cap, t)
            == t.(ip := Sum(l.lens, l.base[w] + 2), ds := t.ds + [p[w].body.address])
  {
    hide Compiled, WordLinked, Reads, TStep, Closed;
    DataElems(p, live, l, img, w);
    SevenSlots(p, live, l, img);
    OpReads(p, live, l, img, Act(w, 0, []));
    TurnOnElem(img, ccode, cap, t, Sum(l.lens, l.base[w] + 2), l.elems[l.base[w] + 1], 0);
  }

  lemma DataReturn(p: Program, live: set<nat>, l: Link, img: Image, ccode: CCode, cap: nat, w: nat, t: TState)
    requires Compiled(p, live, l, img) && w in live && w < |p| && p[w].body.Data?
    requires ActLinked(l, Act(w, 1, []))
    requires t.TRunning? && t.ip == Sum(l.lens, l.base[w] + 2)
    requires 0 < t.rp <= |t.mem| && 0 < t.mem[t.rp - 1] < 0x10000
    ensures TStep(img, ccode, cap, t) == t.(ip := t.mem[t.rp - 1], rp := t.rp - 1)
  {
    hide Compiled, WordLinked, Reads, TStep, Builtin, Enter, Closed, WordPlaced;
    DataElems(p, live, l, img, w);
    SevenSlots(p, live, l, img);
    OpReads(p, live, l, img, Act(w, 1, []));
    hide Sum;
    TurnOnElem(img, ccode, cap, t, Sum(l.lens, l.base[w] + 3), l.elems[l.base[w] + 2], 0);
    Unpack(t.mem[t.rp - 1], 0);
  }

  /** The bytecode of a data word: entered with a one-slot frame, it pushes its address and returns. */
  lemma DataTurns(p: Program, live: set<nat>, l: Link, img: Image, ccode: CCode, cap: nat, w: nat, t: TState)
    requires Compiled(p, live, l, img) && w in live && w < |p| && p[w].body.Data?
    requires t.TRunning? && 0 < t.ip < 0x10000 && t.rp + 1 <= |t.mem| && |t.ds| < cap
    ensures WordLinked(p, l, img, w)
    ensures TStep(img, ccode, cap, TStep(img, ccode, cap, Enter(img, t, l.slot[w] - img.interpreted)))
            == TRunning(t.ip, t.ds + [p[w].body.address], t.mem[t.rp := t.ip], t.rp)
  {
    hide Compiled, WordLinked, TStep, Enter;
    EnterJumps(p, live, l, img, w, t);
    DataElems(p, live, l, img, w);
    var t1 := Enter(img, t, l.slot[w] - img.interpreted);
    DataPush(p, live, l, img, ccode, cap, w, t1);
    DataReturn(p, live, l, img, ccode, cap, w, TStep(img, ccode, cap, t1));
  }

  lemma DataElems(p: Program, live: set<nat>, l: Link, img: Image, w: nat)
    requires Compiled(p, live, l, img) && w in live && w < |p| && p[w].body.Data?
    ensures WordLinked(p, l, img, w)
    ensures ActLinked(l, Act(w, 0, [])) && ActLinked(l, Act(w, 1, []))
    ensures |l.elems| == |l.lens|
    ensures l.elems[l.base[w] + 1] == UIntInt(1, p[w].body.address) && l.elems[l.base[w] + 2] == UInt(0)
  {
    assert WordLinked(p, l, img, w);
    var code := CodeOf(p[w].body);
    assert code[0] == Const(p[w].body.address) && code[1] == Ret;
    assert IsElemOf(l, l.base[w], 0, code[0], l.elems[l.base[w] + 1 + 0]);
    assert IsElemOf(l, l.base[w], 1, code[1], l.elems[l.base[w] + 1 + 1]);
  }

  /** The relation does not depend on memory from rp up, and the data stack is the same on both sides. */
  lemma RelWith(p: Program, live: set<nat>, l: Link, lo: nat, size: nat, rest: seq<Act>, a: Act,
                stack: seq<int32>, t: TState, stack': seq<int32>, mem': seq<uint32>)
    requires Rel(p, live, l, lo, size, Running(rest + [a], stack), t)
    requires t.TRunning? && t.rp <= |t.mem| == |mem'| && mem'[..t.rp] == t.mem[..t.rp]
    ensures Rel(p, live, l, lo, size, Running(rest + [a], stack'), t.(ds := stack', mem := mem'))
  {
    assert (rest + [a])[|rest|] == a;
    FramesFrame(l, rest + [a], t.mem, mem', lo, t.rp);
  }

  lemma RelFacts(p: Program, live: set<nat>, l: Link, lo: nat, size: nat, rest: seq<Act>, a: Act,
                 stack: seq<int32>, t: TState)
    requires Rel(p, live, l, lo, size, Running(rest + [a], stack), t)
    ensures t.TRunning? && t.ds == stack && |t.mem| == size && t.rp == lo + Slots(rest + [a]) <= size
    ensures ActLinked(l, a) && t.ip == OpAddr(l, a)
  {
    RelTop(p, live, l, lo, size, rest, a, stack, t);
    FramesSlots(l, rest + [a], t.mem, lo, t.rp);
  }

  lemma SimEnter(p: Program, live: set<nat>, l: Link, img: Image, lo: nat, size: nat,
                 rest: seq<Act>, a: Act, w: nat, stack: seq<int32>, t: TState)
    requires Compiled(p, live, l, img) && w in live && w < |p| && p[w].body.Interpreted?
    requires Rel(p, live, l, lo, size, Running(rest + [a], stack), t)
    requires lo + Slots(rest + [a] + [EnterWord(w, p[w].body.numLocals)]) <= size
    ensures WordLinked(p, l, img, w)
    ensures Rel(p, live, l, lo, size, Running(rest + [a] + [EnterWord(w, p[w].body.numLocals)], stack),
                Enter(img, t, l.slot[w] - img.interpreted))
  {
    FramesSlots(l, rest + [a], t.mem, lo, t.rp);
    SlotsTop(rest + [a], EnterWord(w, p[w].body.numLocals));
    assert (rest + [a])[|rest|] == a;
    EnterRel(p, live, l, img, lo, size, rest + [a], w, stack, t);
  }

  lemma SimData(p: Program, live: set<nat>, l: Link, img: Image, ccode: CCode, cap: nat, lo: nat, size: nat,
                rest: seq<Act>, a: Act, w: nat, stack: seq<int32>, t: TState)
    requires Compiled(p, live, l, img) && w in live && w < |p| && p[w].body.Data?
    requires Rel(p, live, l, lo, size, Running(rest + [a], stack), t)
    requires lo + Slots(rest + [a]) + 1 <= size && |stack| < cap
    ensures WordLinked(p, l, img, w)
    ensures Rel(p, live, l, lo, size, Running(rest + [a], stack + [p[w].body.address]),
                TStep(img, ccode, cap, TStep(img, ccode, cap, Enter(img, t, l.slot[w] - img.interpreted))))
  {
    hide Compiled, Frames, Rel, TStep, Enter, WordLinked, OpAddr, Slots;
    RelFacts(p, live, l, lo, size, rest, a, stack, t);
    OpAddrRange(p, live, l, img, a);
    DataTurns(p, live, l, img, ccode, cap, w, t);
    var mem' := t.mem[t.rp := t.ip];
    assert mem'[..t.rp] == t.mem[..t.rp];
    RelWith(p, live, l, lo, size, rest, a, stack, t, stack + [p[w].body.address], mem');
  }

  /** A call leaves the caller at its next opcode. */
  lemma CallTurn(p: Program, live: set<nat>, l: Link, img: Image, ccode: CCode, cap: nat,
                 lo: nat, size: nat, rest: seq<Act>, a: Act, stack: seq<int32>, t: TState) returns (there: TState)
    requires Compiled(p, live, l, img) && ActLive(p, live, a)
    requires Rel(p, live, l, lo, size, Running(rest + [a], stack), t)
    requires CurrentOp(p, a).Call? && CurrentOp(p, a).target < |p|
    ensures there.TRunning? && there.ip >= 0 && there.ds == stack && CurrentOp(p, a).target in l.slot
    ensures Rel(p, live, l, lo, size, Running(rest + [a.(off := a.off + 1)], stack), there)
    ensures var slot := l.slot[CurrentOp(p, a).target];
            TStep(img, ccode, cap, t) == if slot < img.interpreted then Builtin(img, ccode, cap, there, slot)
                                         else Enter(img, there, slot - img.interpreted)
  {
    hide Compiled, Rel, TStep, Enter, Builtin, Frames, ReturnAddr, ActsLive;
    RelTop(p, live, l, lo, size, rest, a, stack, t);
    Turn(p, live, l, img, ccode, cap, a, t);
    Successors(p, live, l, img, a);
    there := t.(ip := OpAddr(l, a.(off := a.off + 1)));
    RelTop(p, live, l, lo, size, rest, a.(off := a.off + 1), stack, there);
  }

  /** From there the three kinds of words differ. */
  lemma SimCall(p: Program, live: set<nat>, l: Link, img: Image, native: Natives, ccode: CCode, cap: nat,
    lo: nat, size: nat, rest: seq<Act>, a: Act, stack: seq<int32>, t: TState)
    requires Compiled(p, live, l, img) && SameNatives(p, live, l, native, ccode) && ActLive(p, live, a)
    requires Rel(p, live, l, lo, size, Running(rest + [a], stack), t)
    requires CurrentOp(p, a).Call? && CurrentOp(p, a).target < |p|
    requires p[CurrentOp(p, a).target].body.Data? ==> lo + Slots(rest + [a]) + 1 <= size
    requires Room(p, Exec(p, native, rest, a.(off := a.off + 1), stack, CurrentOp(p, a)), cap, lo, size)
    ensures Rel(p, live, l, lo, size, Exec(p, native, rest, a.(off := a.off + 1), stack, CurrentOp(p, a)),
                TRun(img, ccode, cap, t, if p[CurrentOp(p, a).target].body.Data? then 3 else 1))
  {
    hide Compiled, Rel, TStep, Enter, Frames, SameNatives, Slots, WordLinked, TRun, CallsData;
    var w, next := CurrentOp(p, a).target, a.(off := a.off + 1);
    CalleeLinked(p, live, l, img, a);
    SlotsTop(rest, a);
    SlotsTop(rest, next);
    RunTwice(img, ccode, cap, t);
    var there := CallTurn(p, live, l, img, ccode, cap, lo, size, rest, a, stack, t);
    match p[w].body
    case Interpreted(n, _) => SimEnter(p, live, l, img, lo, size, rest, next, w, stack, there);
    case Data(address) => SimData(p, live, l, img, ccode, cap, lo, size, rest, next, w, stack, there);
    case Native =>
      NativeAgrees(p, live, l, native, ccode, w, stack);
      RelFacts(p, live, l, lo, size, rest, next, stack, there);
      if native(w, stack).Some? {
        RelWith(p, live, l, lo, size, rest, next, stack, there, native(w, stack).value, there.mem);
      } else {
        RelAborted(p, live, l, lo, size);
      }
  }

  lemma NativeAgrees(p: Program, live: set<nat>, l: Link, native: Natives, ccode: CCode, w: nat, s: seq<int32>)
    requires SameNatives(p, live, l, native, ccode) && w in live && w < |p| && p[w].body.Native? && w in l.slot
    ensures ccode(l.slot[w], s) == native(w, s)
  {
  }

  lemma RelAborted(p: Program, live: set<nat>, l: Link, lo: nat, size: nat)
    ensures Rel(p, live, l, lo, size, Aborted, TAborted)
  {
  }

  // ----- Whole steps and runs -----

  /** The opcode op of the top activation, by cases. */
  lemma SimOp(p: Program, live: set<nat>, l: Link, img: Image, native: Natives, ccode: CCode, cap: nat,
              lo: nat, size: nat, rest: seq<Act>, a: Act, stack: seq<int32>, t: TState, op: Opcode, s': State)
    requires Compiled(p, live, l, img) && SameNatives(p, live, l, native, ccode)
    requires Rel(p, live, l, lo, size, Running(rest + [a], stack), t)
    requires ActLive(p, live, a) && op == CurrentOp(p, a)
    requires s' == Exec(p, native, rest, a.(off := a.off + 1), stack, op) && s' != Crashed
    requires op.GetLocal? && op.num < |a.locals| ==> a.locals[op.num].Some?
    requires CallsDataOp(p, op) ==> lo + Slots(rest + [a]) + 1 <= size
    requires Room(p, s', cap, lo, size)
    ensures Rel(p, live, l, lo, size, s', TRun(img, ccode, cap, t, if CallsDataOp(p, op) then 3 else 1))
  {
    hide Compiled, Rel, SameNatives, TStep, TRun, Frames, ActLive, Slots, ActsLive, CallsData;
    RunTwice(img, ccode, cap, t);
    match op
    case Ret => SimRet(p, live, l, img, native, ccode, cap, lo, size, rest, a, stack, t);
    case Const(_) => SimConst(p, live, l, img, native, ccode, cap, lo, size, rest, a, stack, t);
    case GetLocal(_) => SimGetLocal(p, live, l, img, native, ccode, cap, lo, size, rest, a, stack, t);
    case PutLocal(_) => SimPutLocal(p, live, l, img, native, ccode, cap, lo, size, rest, a, stack, t);
    case Jump(_) => SimJump(p, live, l, img, native, ccode, cap, lo, size, rest, a, stack, t);
    case JumpIf(_) => SimJump(p, live, l, img, native, ccode, cap, lo, size, rest, a, stack, t);
    case JumpIfNot(_) => SimJump(p, live, l, img, native, ccode, cap, lo, size, rest, a, stack, t);
    case Call(_) => SimCall(p, live, l, img, native, ccode, cap, lo, size, rest, a, stack, t);
  }

  /** Every opcode of the compiler's machine is matched by Cost turns of the run loop. */
  lemma SimStep(p: Program, live: set<nat>, l: Link, img: Image, native: Natives, ccode: CCode, cap: nat,
                lo: nat, size: nat, s: State, t: TState)
    requires Compiled(p, live, l, img) && SameNatives(p, live, l, native, ccode)
    requires s.Running? && Rel(p, live, l, lo, size, s, t)
    requires !ReadsUnwritten(p, s) && Step(p, native, s) != Crashed
    requires Room(p, s, cap, lo, size) && Room(p, Step(p, native, s), cap, lo, size)
    ensures Rel(p, live, l, lo, size, Step(p, native, s), TRun(img, ccode, cap, t, Cost(p, s)))
  {
    hide Compiled, SameNatives, Exec, TStep, TRun, Frames, Slots;
    var rest, a := s.acts[..|s.acts| - 1], s.acts[|s.acts| - 1];
    assert s.acts == rest + [a] && s == Running(rest + [a], s.stack);
    assert ActLive(p, live, a);
    SimOp(p, live, l, img, native, ccode, cap, lo, size, rest, a, s.stack, t, CurrentOp(p, a), Step(p, native, s));
  }

  /** T0_DEFENTRY: ip at the start of the code block, so that 0 is the saved address. */
  function TStart(img: Image, stack: seq<int32>, mem: seq<uint32>, rp: nat, slot: int): TState {
    if slot < img.interpreted then TFault else Enter(img, TRunning(0, stack, mem, rp), slot - img.interpreted)
  }

  lemma SimStart(p: Program, live: set<nat>, l: Link, img: Image, w: nat, stack: seq<int32>,
                 mem: seq<uint32>, lo: nat)
    requires Compiled(p, live, l, img) && w in live && w < |p| && p[w].body.Interpreted?
    requires lo + p[w].body.numLocals + 1 <= |mem|
    ensures WordLinked(p, l, img, w)
    ensures Rel(p, live, l, lo, |mem|, Start(p, w, stack), TStart(img, stack, mem, lo, l.slot[w]))
  {
    hide Compiled, Rel, Enter, WordPlaced, Closed;
    EnterRel(p, live, l, img, lo, |mem|, [], w, stack, TRunning(0, stack, mem, lo));
    assert [] + [EnterWord(w, p[w].body.numLocals)] == [EnterWord(w, p[w].body.numLocals)];
  }

  /** The first n opcodes of a run never crash, never read an unwritten local and find room. */
  ghost predicate GoodRun(p: Program, native: Natives, s: State, n: nat, cap: nat, lo: nat, size: nat) {
    && (forall i :: 0 <= i <= n ==> Run(p, native, s, i) != Crashed && Room(p, Run(p, native, s, i), cap, lo, size))
    && (forall i :: 0 <= i < n ==> !ReadsUnwritten(p, Run(p, native, s, i)))
  }

  function TotalCost(p: Program, native: Natives, s: State, n: nat): nat {
    if n == 0 then 0 else TotalCost(p, native, s, n - 1) + Cost(p, Run(p, native, s, n - 1))
  }

  /** Meaning preservation over runs: from related states, n opcodes and their turns lead to related
      states, whatever the return stack memory held before. */
  lemma {:induction false} SimRun(p: Program, live: set<nat>, l: Link, img: Image, native: Natives, ccode: CCode,
                                  cap: nat, lo: nat, size: nat, s: State, t: TState, n: nat)
    requires Compiled(p, live, l, img) && SameNatives(p, live, l, native, ccode)
    requires Rel(p, live, l, lo, size, s, t) && GoodRun(p, native, s, n, cap, lo, size)
    ensures Rel(p, live, l, lo, size, Run(p, native, s, n), TRun(img, ccode, cap, t, TotalCost(p, native, s, n)))
    decreases n
  {
    hide Compiled, Rel, SameNatives, Step, TStep, Room;
    if n > 0 {
      SimRun(p, live, l, img, native, ccode, cap, lo, size, s, t, n - 1);
      var s', t' := Run(p, native, s, n - 1), TRun(img, ccode, cap, t, TotalCost(p, native, s, n - 1));
      TRunAdd(img, ccode, cap, t, TotalCost(p, native, s, n - 1), Cost(p, s'));
      if s'.Running? {
        assert Step(p, native, s') == Run(p, native, s, n) != Crashed;
        SimStep(p, live, l, img, native, ccode, cap, lo, size, s', t');
      } else {
        StepStays(p, native, s');
      }
    }
  }

  lemma StepStays(p: Program, native: Natives, s: State)
    requires !s.Running?
    ensures Step(p, native, s) == s
  {
  }

  lemma {:induction false} TRunStays(img: Image, ccode: CCode, cap: nat, t: TState, m: nat, n: nat)
    requires !TRun(img, ccode, cap, t, m).TRunning? && m <= n
    ensures TRun(img, ccode, cap, t, n) == TRun(img, ccode, cap, t, m)
    decreases n
  {
    if m < n {
      TRunStays(img, ccode, cap, t, m, n - 1);
    }
  }

  lemma {:induction false} CostAtLeast(p: Program, native: Natives, s: State, n: nat)
    ensures Run(p, native, s, n).Running? ==> TotalCost(p, native, s, n) >= n
    ensures n > 0 && Run(p, native, s, n - 1).Running? ==> TotalCost(p, native, s, n) >= n
    decreases n
  {
    if n > 0 {
      CostAtLeast(p, native, s, n - 1);
      if !Run(p, native, s, n - 1).Running? {
        StepStays(p, native, Run(p, native, s, n - 1));
      }
    }
  }

  /** The run loop is left exactly when the entry word returns, and with the same data stack. */
  lemma ExitsTogether(p: Program, live: set<nat>, l: Link, img: Image, native: Natives, ccode: CCode,
                      cap: nat, lo: nat, size: nat, s: State, t: TState, n: nat, stack: seq<int32>)
    requires Compiled(p, live, l, img) && SameNatives(p, live, l, native, ccode)
    requires Rel(p, live, l, lo, size, s, t) && GoodRun(p, native, s, n, cap, lo, size)
    ensures Run(p, native, s, n) == Done(stack) ==>
              TRun(img, ccode, cap, t, TotalCost(p, native, s, n)) == TExited(stack)
    ensures TRun(img, ccode, cap, t, n) == TExited(stack) ==> Run(p, native, s, n) == Done(stack)
  {
    hide Compiled, SameNatives, Step, TStep, GoodRun;
    var c := TotalCost(p, native, s, n);
    SimRun(p, live, l, img, native, ccode, cap, lo, size, s, t, n);
    if TRun(img, ccode, cap, t, n) == TExited(stack) {
      if n <= c {
        TRunStays(img, ccode, cap, t, n, c);
      } else {
        CostAtLeast(p, native, s, n);
        TRunStays(img, ccode, cap, t, c, n);
      }
    }
  }

  /** The restriction on local variables is needed: from any related states about to read an unwritten
      local, the next states are related exactly when the memory slot happens to hold 0. */
  lemma UnwrittenLocal(p: Program, live: set<nat>, l: Link, img: Image, native: Natives, ccode: CCode, cap: nat,
                       lo: nat, size: nat, rest: seq<Act>, a: Act, stack: seq<int32>, t: TState)
    requires Compiled(p, live, l, img) && ActLive(p, live, a)
    requires Rel(p, live, l, lo, size, Running(rest + [a], stack), t) && |stack| < cap
    requires ReadsUnwritten(p, Running([a], stack))
    ensures t.TRunning? && 0 <= t.rp - 2 - CurrentOp(p, a).num && t.rp <= |t.mem|
    ensures Rel(p, live, l, lo, size, Step(p, native, Running(rest + [a], stack)), TStep(img, ccode, cap, t))
            <==> t.mem[t.rp - 2 - CurrentOp(p, a).num] == 0
  {
    hide Compiled, Rel, TStep, Frames, ReturnAddr, OpAddr, ActsLive, WordLinked, LocalsIn;
    RelTop(p, live, l, lo, size, rest, a, stack, t);
    Turn(p, live, l, img, ccode, cap, a, t);
    Successors(p, live, l, img, a);
    LiveLinked(p, live, l, img, a);
    assert (rest + [a])[|rest|] == a && (rest + [a])[..|rest|] == rest;
    var next, v := a.(off := a.off + 1), ToInt32(t.mem[t.rp - 2 - CurrentOp(p, a).num]);
    assert TStep(img, ccode, cap, t) == TRunning(OpAddr(l, next), stack + [v], t.mem, t.rp);
    RelTop(p, live, l, lo, size, rest, next, stack + [0], TRunning(OpAddr(l, next), stack + [v], t.mem, t.rp));
    assert (stack + [0])[|stack|] == 0 && (stack + [v])[|stack|] == v;
  }
}
