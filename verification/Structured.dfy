/** Structured control flow: what the builder makes of `if`, `else`, `then`, `begin`, `until`, `while`, `repeat` and `again`,
    nested in any way, runs on the machine as its structure says. */
module Structured {
  import opened Ints
  import opened Opcodes
  import opened Machine
  import opened Builder

  // ----- Structured code -----

  /** `neg`: the words `ifnot` and `untilnot`. */
  datatype Stm =
    | Empty
    | Simple(call: BCall)
    | Both(first: Stm, second: Stm)
    | If(neg: bool, body: Stm)
    | IfElse(neg: bool, yes: Stm, no: Stm)
    | Until(neg: bool, body: Stm)
    | While(cond: Stm, body: Stm)
    | Forever(body: Stm)

  /** The jump that is taken when the condition of `if` or `until` fails. */
  function Unless(neg: bool, disp: int): Opcode {
    if neg then JumpIf(disp) else JumpIfNot(disp)
  }

  function IfCalls(neg: bool, b: seq<BCall>): seq<BCall> {
    [Ahead(Unless(neg, 0))] + b + [Then]
  }

  /** `else` is `ahead 1 cs-roll then`. */
  function ElseCalls(neg: bool, y: seq<BCall>, n: seq<BCall>): seq<BCall> {
    [Ahead(Unless(neg, 0))] + y + [Ahead(Jump(0)), CSRoll(1), Then] + n + [Then]
  }

  function LoopCalls(op: Opcode, b: seq<BCall>): seq<BCall> {
    [Begin] + b + [Again(op)]
  }

  /** `while` is `if 1 cs-roll`, `repeat` is `again then`. */
  function WhileCalls(c: seq<BCall>, b: seq<BCall>): seq<BCall> {
    [Begin] + c + [Ahead(JumpIfNot(0)), CSRoll(1)] + b + [Again(Jump(0)), Then]
  }

  /** The builder calls. */
  function Calls(stm: Stm): seq<BCall> {
    match stm
    case Empty => []
    case Simple(call) => [call]
    case Both(first, second) => Calls(first) + Calls(second)
    case If(neg, body) => IfCalls(neg, Calls(body))
    case IfElse(neg, yes, no) => ElseCalls(neg, Calls(yes), Calls(no))
    case Until(neg, body) => LoopCalls(Unless(neg, 0), Calls(body))
    case While(cond, body) => WhileCalls(Calls(cond), Calls(body))
    case Forever(body) => LoopCalls(Jump(0), Calls(body))
  }

  type Names = map<string, nat>

  /** The opcode of a call without control flow. */
  function OpOf(names: Names, call: BCall): Option<Opcode> {
    match call
    case Literal(v) => Some(Const(v))
    case CallWord(w) => Some(Call(w))
    case ReadLocal(name) => if name in names then Some(GetLocal(names[name])) else None
    case WriteLocal(name) => if name in names then Some(PutLocal(names[name])) else None
    case _ => None
  }

  predicate Formed(names: Names, stm: Stm) {
    match stm
    case Empty => true
    case Simple(call) => OpOf(names, call).Some?
    case Both(first, second) => Formed(names, first) && Formed(names, second)
    case If(_, body) => Formed(names, body)
    case IfElse(_, yes, no) => Formed(names, yes) && Formed(names, no)
    case Until(_, body) => Formed(names, body)
    case While(cond, body) => Formed(names, cond) && Formed(names, body)
    case Forever(body) => Formed(names, body)
  }

  // The code, by structure: every jump passes over the parts between it and its target.

  function IfCode(neg: bool, b: seq<Opcode>): seq<Opcode> {
    [Unless(neg, |b|)] + b
  }

  function ElseCode(neg: bool, y: seq<Opcode>, n: seq<Opcode>): seq<Opcode> {
    [Unless(neg, |y| + 1)] + y + [Jump(|n|)] + n
  }

  function LoopCode(op: Opcode, b: seq<Opcode>): seq<Opcode>
    requires op.IsJump()
  {
    b + [WithDisp(op, -|b| - 1)]
  }

  function WhileCode(c: seq<Opcode>, b: seq<Opcode>): seq<Opcode> {
    c + [JumpIfNot(|b| + 1)] + b + [Jump(-|c| - |b| - 2)]
  }

  function Layout(names: Names, stm: Stm): seq<Opcode>
    requires Formed(names, stm)
  {
    match stm
    case Empty => []
    case Simple(call) => [OpOf(names, call).value]
    case Both(first, second) => Layout(names, first) + Layout(names, second)
    case If(neg, body) => IfCode(neg, Layout(names, body))
    case IfElse(neg, yes, no) => ElseCode(neg, Layout(names, yes), Layout(names, no))
    case Until(neg, body) => LoopCode(Unless(neg, 0), Layout(names, body))
    case While(cond, body) => WhileCode(Layout(names, cond), Layout(names, body))
    case Forever(body) => LoopCode(Jump(0), Layout(names, body))
  }

  // ----- The builder makes this code -----

  /** The calls one after another. */
  function ApplyFrom(st: BState, calls: seq<BCall>): (r: Option<BState>)
    requires Shaped(st)
    ensures r.Some? ==> Shaped(r.value)
    decreases |calls|
  {
    if calls == [] then Some(st)
    else
      match Apply(st, calls[0])
      case None => None
      case Some(st') => ApplyFrom(st', calls[1..])
  }

  lemma {:induction false} FromTwo(st: BState, a: seq<BCall>, b: seq<BCall>)
    requires Shaped(st)
    ensures ApplyFrom(st, a + b)
            == if ApplyFrom(st, a).Some? then ApplyFrom(ApplyFrom(st, a).value, b) else None
    decreases |a|
  {
    hide Apply;
    if a == [] {
      assert a + b == b;
    } else {
      assert (a + b)[1..] == a[1..] + b;
      if Apply(st, a[0]).Some? {
        FromTwo(Apply(st, a[0]).value, a[1..], b);
      }
    }
  }

  /** ApplyAll in these terms. */
  lemma {:induction false} FromNew(calls: seq<BCall>)
    ensures ApplyAll(calls) == ApplyFrom(NEW_BUILDER, calls)
    decreases |calls|
  {
    hide Apply;
    if calls != [] {
      var rest, last := calls[..|calls| - 1], calls[|calls| - 1];
      FromNew(rest);
      assert calls == rest + [last];
      FromTwo(NEW_BUILDER, rest, [last]);
      if ApplyFrom(NEW_BUILDER, rest).Some? {
        FromOne(ApplyFrom(NEW_BUILDER, rest).value, last);
      }
    }
  }

  lemma FromOne(st: BState, call: BCall)
    requires Shaped(st)
    ensures ApplyFrom(st, [call]) == Apply(st, call)
  {
    hide Apply;
    if Apply(st, call).Some? {
      assert ApplyFrom(st, [call]) == ApplyFrom(Apply(st, call).value, []);
    }
  }

  /** The entries of the control-flow stack and the local names are the same. */
  predicate SameStack(a: BState, b: BState) {
    && Shaped(a) && Shaped(b) && a.cfPtr == b.cfPtr && a.locals == b.locals
    && forall k :: 0 <= k <= a.cfPtr ==> b.cfStack[k] == a.cfStack[k]
  }

  /** Control may come to the end of the code. */
  predicate Open(st: BState) {
    st.jumpToLast || (st.code != [] && st.code[|st.code| - 1].MayFallThrough())
  }

  predicate CanEnd(stm: Stm) {
    match stm
    case Both(first, second) => CanEnd(first) && CanEnd(second)
    case Forever(_) => false
    case _ => true
  }

  /** What a structured part does to the builder: it appends its code, and leaves the entries of the control-flow stack as
      they were. */
  predicate Built(st: BState, r: Option<BState>, ops: seq<Opcode>, ends: bool) {
    r.Some? && SameStack(st, r.value) && r.value.code == st.code + ops && (ends && Open(st) ==> Open(r.value))
  }

  /** An entry was pushed. */
  predicate Pushed(a: BState, b: BState, x: int) {
    && Shaped(a) && Shaped(b) && b.cfPtr == a.cfPtr + 1 && a.locals == b.locals && b.cfStack[b.cfPtr] == x
    && forall k :: 0 <= k <= a.cfPtr ==> b.cfStack[k] == a.cfStack[k]
  }

  /** An entry was popped. */
  predicate Popped(a: BState, b: BState) {
    Shaped(a) && Shaped(b) && b.cfPtr == a.cfPtr - 1 && b.cfStack == a.cfStack && a.locals == b.locals
  }

  lemma AheadStep(st: BState, op: Opcode)
    requires Shaped(st) && op.IsJump()
    ensures var r := Apply(st, Ahead(op));
            r.Some? && Pushed(st, r.value, |st.code|) && r.value.code == st.code + [WithDisp(op, UNRESOLVED)]
  {
  }

  lemma BeginStep(st: BState)
    requires Shaped(st)
    ensures var r := Apply(st, Begin);
            r.Some? && Pushed(st, r.value, -|st.code| - 1) && r.value.code == st.code && r.value.jumpToLast == st.jumpToLast
  {
  }

  lemma ThenStep(st: BState, x: nat)
    requires Shaped(st) && st.cfPtr >= 0 && st.cfStack[st.cfPtr] == x < |st.code|
    requires st.code[x].IsJump() && st.code[x].disp == UNRESOLVED
    ensures var r := Apply(st, Then);
            && r.Some? && Popped(st, r.value) && r.value.jumpToLast
            && r.value.code == st.code[x := WithDisp(st.code[x], |st.code| - x - 1)]
  {
  }

  lemma AgainStep(st: BState, op: Opcode, t: int)
    requires t >= 0 && Shaped(st) && st.cfPtr >= 0 && st.cfStack[st.cfPtr] == -t - 1 && op.IsJump()
    ensures var r := Apply(st, Again(op));
            r.Some? && Popped(st, r.value) && r.value.code == st.code + [WithDisp(op, t - |st.code| - 1)]
  {
  }

  /** The two entries on top change places. */
  lemma RollStep(st: BState)
    requires Shaped(st) && st.cfPtr >= 1
    ensures var r := Apply(st, CSRoll(1));
            && r.Some? && Shaped(r.value) && r.value.cfPtr == st.cfPtr && r.value.locals == st.locals
            && r.value.code == st.code && r.value.jumpToLast == st.jumpToLast
            && r.value.cfStack[st.cfPtr] == st.cfStack[st.cfPtr - 1] && r.value.cfStack[st.cfPtr - 1] == st.cfStack[st.cfPtr]
            && forall k :: 0 <= k < st.cfPtr - 1 ==> r.value.cfStack[k] == st.cfStack[k]
  {
    RolledParts(st.cfStack, st.cfPtr, 1);
    hide Rolled;
  }

  lemma FromThree(st: BState, a: seq<BCall>, b: seq<BCall>, c: seq<BCall>)
    requires Shaped(st) && ApplyFrom(st, a).Some? && ApplyFrom(ApplyFrom(st, a).value, b).Some?
    ensures ApplyFrom(st, a + b + c) == ApplyFrom(ApplyFrom(ApplyFrom(st, a).value, b).value, c)
  {
    FromTwo(st, a + b, c);
    FromTwo(st, a, b);
  }

  /** A forward jump over a part. */
  lemma JumpOver(code: seq<Opcode>, op: Opcode, part: seq<Opcode>)
    requires op.IsJump()
    ensures (code + [WithDisp(op, UNRESOLVED)] + part)[|code| := WithDisp(op, |part|)] == code + ([WithDisp(op, |part|)] + part)
  {
  }

  lemma BuildsEmpty(st: BState)
    requires Shaped(st)
    ensures Built(st, ApplyFrom(st, []), [], true)
  {
  }

  lemma BuildsSimple(st: BState, call: BCall)
    requires Shaped(st) && OpOf(st.locals, call).Some?
    ensures Built(st, ApplyFrom(st, [call]), [OpOf(st.locals, call).value], true)
  {
    FromOne(st, call);
    hide ApplyFrom;
  }

  /** The builder makes of a structured part the code of its layout, and nothing else. */
  lemma {:induction false} BuildsLayout(st: BState, stm: Stm)
    requires Shaped(st) && Formed(st.locals, stm)
    ensures Built(st, ApplyFrom(st, Calls(stm)), Layout(st.locals, stm), CanEnd(stm))
    decreases stm, 0
  {
    hide Apply, ApplyFrom, Built, Open, IfCalls, ElseCalls, LoopCalls, WhileCalls, IfCode, ElseCode, LoopCode, WhileCode;
    match stm
    case Empty => BuildsEmpty(st);
    case Simple(call) => BuildsSimple(st, call);
    case Both(first, second) => BuildsBoth(st, first, second);
    case If(neg, body) => BuildsIf(st, neg, body);
    case IfElse(neg, yes, no) => BuildsElse(st, neg, yes, no);
    case Until(neg, body) => BuildsAgain(st, Unless(neg, 0), body);
    case While(cond, body) => BuildsWhile(st, cond, body);
    case Forever(body) => BuildsAgain(st, Jump(0), body);
  }

  lemma {:induction false} BuildsBoth(st: BState, first: Stm, second: Stm)
    requires Shaped(st) && Formed(st.locals, first) && Formed(st.locals, second)
    ensures Built(st, ApplyFrom(st, Calls(first) + Calls(second)), Layout(st.locals, first) + Layout(st.locals, second),
                  CanEnd(first) && CanEnd(second))
    decreases Both(first, second), -1
  {
    hide Apply, ApplyFrom, Calls, Layout, CanEnd;
    FromTwo(st, Calls(first), Calls(second));
    BuildsLayout(st, first);
    BuildsLayout(ApplyFrom(st, Calls(first)).value, second);
  }

  lemma {:induction false} BuildsIf(st: BState, neg: bool, body: Stm)
    requires Shaped(st) && Formed(st.locals, body)
    ensures Built(st, ApplyFrom(st, IfCalls(neg, Calls(body))), IfCode(neg, Layout(st.locals, body)), true)
    decreases body, 1
  {
    hide Apply, Calls, Layout;
    var op := Unless(neg, 0);
    AheadStep(st, op);
    FromOne(st, Ahead(op));
    var st1 := Apply(st, Ahead(op)).value;
    BuildsLayout(st1, body);
    var st2 := ApplyFrom(st1, Calls(body)).value;
    ThenStep(st2, |st.code|);
    FromOne(st2, Then);
    JumpOver(st.code, op, Layout(st.locals, body));
    FromThree(st, [Ahead(op)], Calls(body), [Then]);
  }

  lemma {:induction false} BuildsAgain(st: BState, op: Opcode, body: Stm)
    requires Shaped(st) && Formed(st.locals, body) && op.IsJump()
    ensures Built(st, ApplyFrom(st, LoopCalls(op, Calls(body))), LoopCode(op, Layout(st.locals, body)), !op.Jump?)
    decreases body, 1
  {
    hide Apply, Calls, Layout;
    BeginStep(st);
    FromOne(st, Begin);
    var st1 := Apply(st, Begin).value;
    BuildsLayout(st1, body);
    var st2 := ApplyFrom(st1, Calls(body)).value;
    AgainStep(st2, op, |st.code|);
    FromOne(st2, Again(op));
    FromThree(st, [Begin], Calls(body), [Again(op)]);
  }

  lemma UnlessJumps(neg: bool)
    ensures Unless(neg, 0).IsJump() && forall d: int :: WithDisp(Unless(neg, 0), d) == Unless(neg, d)
  {
  }

  lemma ElseParts(code: seq<Opcode>, neg: bool, y: seq<Opcode>, n: seq<Opcode>)
    ensures (code + [Unless(neg, |y| + 1)] + y) + ([Jump(|n|)] + n) == code + ElseCode(neg, y, n)
  {
  }

  lemma {:induction false} BuildsElse(st: BState, neg: bool, yes: Stm, no: Stm)
    requires Shaped(st) && Formed(st.locals, yes) && Formed(st.locals, no)
    ensures Built(st, ApplyFrom(st, ElseCalls(neg, Calls(yes), Calls(no))),
                  ElseCode(neg, Layout(st.locals, yes), Layout(st.locals, no)), true)
    decreases IfElse(neg, yes, no), -1
  {
    hide Apply, Calls, Layout, CanEnd, ApplyFrom, ElseCode, Unless;
    UnlessJumps(neg);
    var op, y, n := Unless(neg, 0), Layout(st.locals, yes), Layout(st.locals, no);
    AheadStep(st, op);
    FromOne(st, Ahead(op));
    var st1 := Apply(st, Ahead(op)).value;
    BuildsLayout(st1, yes);
    var st2 := ApplyFrom(st1, Calls(yes)).value;
    var st3 := ElseSteps(st, st1, st2, op, y);
    BuildsLayout(st3, no);
    var st4 := ApplyFrom(st3, Calls(no)).value;
    var head := st.code + [WithDisp(op, |y| + 1)] + y;
    var st5 := ElseEnd(st, st3, st4, head, n);
    ElseParts(st.code, neg, y, n);
    var c := [Ahead(Jump(0)), CSRoll(1), Then];
    FromThree(st, [Ahead(op)], Calls(yes), c);
    FromThree(st, [Ahead(op)] + Calls(yes) + c, Calls(no), [Then]);
  }

  /** `else`: ahead 1 cs-roll then. */
  lemma ElseSteps(st: BState, st1: BState, st2: BState, op: Opcode, y: seq<Opcode>) returns (st3: BState)
    requires op.IsJump() && Pushed(st, st1, |st.code|) && SameStack(st1, st2)
    requires st2.code == st.code + [WithDisp(op, UNRESOLVED)] + y
    ensures ApplyFrom(st2, [Ahead(Jump(0)), CSRoll(1), Then]) == Some(st3)
    ensures Pushed(st, st3, |st.code| + 1 + |y|)
    ensures st3.code == st.code + [WithDisp(op, |y| + 1)] + y + [WithDisp(Jump(0), UNRESOLVED)]
  {
    hide Apply;
    AheadStep(st2, Jump(0));
    var a := Apply(st2, Ahead(Jump(0))).value;
    RollStep(a);
    var b := Apply(a, CSRoll(1)).value;
    ThenStep(b, |st.code|);
    st3 := Apply(b, Then).value;
    FromSteps(st2, Ahead(Jump(0)), CSRoll(1), Then);
    var part := y + [WithDisp(Jump(0), UNRESOLVED)];
    assert b.code == st.code + [WithDisp(op, UNRESOLVED)] + part;
    JumpOver(st.code, op, part);
  }

  lemma ElseEnd(st: BState, st3: BState, st4: BState, head: seq<Opcode>, n: seq<Opcode>) returns (st5: BState)
    requires Pushed(st, st3, |head|) && SameStack(st3, st4)
    requires st3.code == head + [WithDisp(Jump(0), UNRESOLVED)] && st4.code == st3.code + n
    ensures ApplyFrom(st4, [Then]) == Some(st5)
    ensures SameStack(st, st5) && st5.jumpToLast && st5.code == head + ([Jump(|n|)] + n)
  {
    hide Apply;
    ThenStep(st4, |head|);
    FromOne(st4, Then);
    JumpOver(head, Jump(0), n);
    st5 := Apply(st4, Then).value;
  }

  lemma FromSteps(st: BState, a: BCall, b: BCall, c: BCall)
    requires Shaped(st) && Apply(st, a).Some? && Apply(Apply(st, a).value, b).Some?
    ensures ApplyFrom(st, [a, b, c]) == Apply(Apply(Apply(st, a).value, b).value, c)
  {
    hide Apply, ApplyFrom;
    FromOne(st, a);
    FromOne(Apply(st, a).value, b);
    FromOne(Apply(Apply(st, a).value, b).value, c);
    FromThree(st, [a], [b], [c]);
    assert [a, b, c] == [a] + [b] + [c];
  }

  lemma {:induction false} BuildsWhile(st: BState, cond: Stm, body: Stm)
    requires Shaped(st) && Formed(st.locals, cond) && Formed(st.locals, body)
    ensures Built(st, ApplyFrom(st, WhileCalls(Calls(cond), Calls(body))),
                  WhileCode(Layout(st.locals, cond), Layout(st.locals, body)), true)
    decreases While(cond, body), -1
  {
    hide Apply, Calls, Layout;
    var c, b := Layout(st.locals, cond), Layout(st.locals, body);
    BeginStep(st);
    FromOne(st, Begin);
    var st1 := Apply(st, Begin).value;
    BuildsLayout(st1, cond);
    var st2 := ApplyFrom(st1, Calls(cond)).value;
    var st3 := WhileSteps(st, st1, st2);
    BuildsLayout(st3, body);
    var st4 := ApplyFrom(st3, Calls(body)).value;
    var st5 := RepeatSteps(st, st3, st4, c, b);
    var w := [Ahead(JumpIfNot(0)), CSRoll(1)];
    FromThree(st, [Begin], Calls(cond), w);
    FromThree(st, [Begin] + Calls(cond) + w, Calls(body), [Again(Jump(0)), Then]);
  }

  /** The origin of `while` goes below the destination of `begin`. */
  predicate PushedBoth(a: BState, b: BState, x: int, y: int) {
    && Shaped(a) && Shaped(b) && b.cfPtr == a.cfPtr + 2 && a.locals == b.locals
    && b.cfStack[b.cfPtr - 1] == x && b.cfStack[b.cfPtr] == y
    && forall k :: 0 <= k <= a.cfPtr ==> b.cfStack[k] == a.cfStack[k]
  }

  lemma WhileSteps(st: BState, st1: BState, st2: BState) returns (st3: BState)
    requires Pushed(st, st1, -|st.code| - 1) && SameStack(st1, st2)
    ensures ApplyFrom(st2, [Ahead(JumpIfNot(0)), CSRoll(1)]) == Some(st3)
    ensures PushedBoth(st, st3, |st2.code|, -|st.code| - 1)
    ensures st3.code == st2.code + [WithDisp(JumpIfNot(0), UNRESOLVED)]
  {
    hide Apply;
    AheadStep(st2, JumpIfNot(0));
    var a := Apply(st2, Ahead(JumpIfNot(0))).value;
    RollStep(a);
    st3 := Apply(a, CSRoll(1)).value;
    FromPair(st2, Ahead(JumpIfNot(0)), CSRoll(1));
  }

  lemma FromPair(st: BState, a: BCall, b: BCall)
    requires Shaped(st) && Apply(st, a).Some?
    ensures ApplyFrom(st, [a, b]) == Apply(Apply(st, a).value, b)
  {
    hide Apply, ApplyFrom;
    FromOne(st, a);
    FromOne(Apply(st, a).value, b);
    FromTwo(st, [a], [b]);
    assert [a, b] == [a] + [b];
  }

  /** `repeat`: again then. */
  lemma RepeatSteps(st: BState, st3: BState, st4: BState, c: seq<Opcode>, b: seq<Opcode>) returns (st5: BState)
    requires PushedBoth(st, st3, |st.code| + |c|, -|st.code| - 1) && SameStack(st3, st4)
    requires st4.code == st.code + c + [WithDisp(JumpIfNot(0), UNRESOLVED)] + b
    ensures ApplyFrom(st4, [Again(Jump(0)), Then]) == Some(st5)
    ensures SameStack(st, st5) && st5.jumpToLast
    ensures st5.code == st.code + WhileCode(c, b)
  {
    hide Apply;
    AgainStep(st4, Jump(0), |st.code|);
    var a := Apply(st4, Again(Jump(0))).value;
    var head := st.code + c;
    var part := b + [WithDisp(Jump(0), -|c| - |b| - 2)];
    assert a.code == head + [WithDisp(JumpIfNot(0), UNRESOLVED)] + part;
    ThenStep(a, |head|);
    st5 := Apply(a, Then).value;
    FromPair(st4, Again(Jump(0)), Then);
    JumpOver(head, JumpIfNot(0), part);
  }

  // ----- What a structured part means -----

  /** Locals and data stack. */
  datatype Env = Env(locals: seq<Option<int32>>, stack: seq<int32>)

  /** One opcode without control flow; None: it fails, or its callee does not return within the fuel. */
  function OneOp(p: Program, native: Natives, op: Opcode, d: Env, fuel: nat): Option<Env> {
    match op
    case Const(v) => Some(d.(stack := d.stack + [v]))
    case GetLocal(k) => if k < |d.locals| then Some(d.(stack := d.stack + [Machine.ReadLocal(d.locals[k])])) else None
    case PutLocal(k) =>
      if k < |d.locals| && d.stack != [] then
        Some(Env(d.locals[k := Some(d.stack[|d.stack| - 1])], d.stack[..|d.stack| - 1]))
      else None
    case Call(v) =>
      if v >= |p| then None
      else (match p[v].body
            case Data(address) => Some(d.(stack := d.stack + [address]))
            case Native =>
              var r := native(v, d.stack);
              if r.Some? then Some(d.(stack := r.value)) else None
            case Interpreted(_, _) =>
              var r := Run(p, native, Start(p, v, d.stack), fuel);
              if r.Done? then Some(d.(stack := r.stack)) else None)
    case _ => None
  }

  /** The truth value on top of the stack is taken off. */
  function Truth(d: Env): Option<(bool, Env)> {
    if d.stack == [] then None else Some((d.stack[|d.stack| - 1] != 0, d.(stack := d.stack[..|d.stack| - 1])))
  }

  /** The run of a structured part; None: it does not come to its end within the fuel. */
  function Eval(p: Program, native: Natives, names: Names, stm: Stm, d: Env, fuel: nat): Option<Env>
    requires Formed(names, stm)
    decreases fuel, stm
  {
    match stm
    case Empty => Some(d)
    case Simple(call) => OneOp(p, native, OpOf(names, call).value, d, fuel)
    case Both(first, second) =>
      var r := Eval(p, native, names, first, d, fuel);
      if r.None? then None else Eval(p, native, names, second, r.value, fuel)
    case If(neg, body) =>
      var t := Truth(d);
      if t.None? then None
      else if t.value.0 != neg then Eval(p, native, names, body, t.value.1, fuel)
      else Some(t.value.1)
    case IfElse(neg, yes, no) =>
      var t := Truth(d);
      if t.None? then None
      else if t.value.0 != neg then Eval(p, native, names, yes, t.value.1, fuel)
      else Eval(p, native, names, no, t.value.1, fuel)
    case Until(neg, body) =>
      if fuel == 0 then None
      else
        var r := Eval(p, native, names, body, d, fuel - 1);
        var t := if r.None? then None else Truth(r.value);
        if t.None? then None
        else if t.value.0 != neg then Some(t.value.1)
        else Eval(p, native, names, stm, t.value.1, fuel - 1)
    case While(cond, body) =>
      if fuel == 0 then None
      else
        var r := Eval(p, native, names, cond, d, fuel - 1);
        var t := if r.None? then None else Truth(r.value);
        if t.None? then None
        else if !t.value.0 then Some(t.value.1)
        else
          var b := Eval(p, native, names, body, t.value.1, fuel - 1);
          if b.None? then None else Eval(p, native, names, stm, b.value, fuel - 1)
    case Forever(_) => None
  }

  // ----- Runs of callees -----

  lemma {:induction false} RunAdd(p: Program, native: Natives, s: State, m: nat, n: nat)
    ensures Run(p, native, s, m + n) == Run(p, native, Run(p, native, s, m), n)
    decreases n
  {
    hide Step;
    if n > 0 {
      RunAdd(p, native, s, m, n - 1);
    }
  }

  /** A run on top of other activations. */
  function Above(rest: seq<Act>, s: State): State {
    match s
    case Running(acts, stack) => Running(rest + acts, stack)
    case Done(stack) => Running(rest, stack)
    case _ => s
  }

  lemma StepAbove(p: Program, native: Natives, rest: seq<Act>, s: State)
    requires rest != [] && s.Running? && s.acts != []
    ensures Step(p, native, Above(rest, s)) == Above(rest, Step(p, native, s))
  {
    var below, a := s.acts[..|s.acts| - 1], s.acts[|s.acts| - 1];
    assert (rest + s.acts)[..|rest + s.acts| - 1] == rest + below && (rest + s.acts)[|rest + s.acts| - 1] == a;
    if HasOpcode(p, a) {
      ExecAbove(p, native, rest, below, a.(off := a.off + 1), s.stack, CurrentOp(p, a));
    }
    hide Exec;
  }

  lemma ExecAbove(p: Program, native: Natives, rest: seq<Act>, below: seq<Act>, a: Act, stack: seq<int32>, op: Opcode)
    requires rest != []
    ensures Exec(p, native, rest + below, a, stack, op) == Above(rest, Exec(p, native, below, a, stack, op))
  {
    assert forall b: Act :: rest + below + [b] == rest + (below + [b]);
    assert forall b: Act, c: Act :: rest + below + [b] + [c] == rest + (below + [b] + [c]);
    if below == [] {
      assert rest + below == rest;
    }
  }

  lemma {:induction false} RunAbove(p: Program, native: Natives, rest: seq<Act>, s: State, n: nat)
    requires rest != [] && s.Running? && s.acts != [] && Run(p, native, s, n).Running?
    ensures Run(p, native, s, n).acts != [] && Run(p, native, Above(rest, s), n) == Above(rest, Run(p, native, s, n))
  {
    if n > 0 {
      var before := Run(p, native, s, n - 1);
      assert before.Running?;
      RunAbove(p, native, rest, s, n - 1);
      StepAbove(p, native, rest, before);
      ActsLeft(p, native, before);
    }
    hide Step, Above;
  }

  lemma ActsLeft(p: Program, native: Natives, s: State)
    requires s.Running? && Step(p, native, s).Running?
    ensures Step(p, native, s).acts != []
  {
  }

  lemma StepStays(p: Program, native: Natives, s: State)
    requires !s.Running?
    ensures Step(p, native, s) == s
  {
  }

  /** A callee that returns leaves the activations below it as they were. */
  lemma {:induction false} CalleeReturns(p: Program, native: Natives, rest: seq<Act>, s: State, fuel: nat)
    returns (n: nat)
    requires rest != [] && s.Running? && s.acts != [] && Run(p, native, s, fuel).Done?
    ensures Run(p, native, Above(rest, s), n) == Running(rest, Run(p, native, s, fuel).stack)
    decreases fuel
  {
    hide Step, Above;
    var before := Run(p, native, s, fuel - 1);
    if before.Running? {
      n := fuel;
      RunAbove(p, native, rest, s, fuel - 1);
      StepAbove(p, native, rest, before);
      DoneAbove(rest, Run(p, native, s, fuel));
    } else {
      StepStays(p, native, before);
      n := CalleeReturns(p, native, rest, s, fuel - 1);
    }
  }

  lemma DoneAbove(rest: seq<Act>, s: State)
    requires s.Done?
    ensures Above(rest, s) == Running(rest, s.stack)
  {
  }

  // ----- The machine runs the layout -----

  /** The code of the part stands in word w from offset lo on. */
  predicate StandsIn(p: Program, w: nat, lo: nat, ops: seq<Opcode>) {
    && w < |p| && p[w].body.Interpreted?
    && lo + |ops| <= |p[w].body.code| && p[w].body.code[lo..lo + |ops|] == ops
  }

  lemma StandsApart(p: Program, w: nat, lo: nat, a: seq<Opcode>, b: seq<Opcode>)
    requires StandsIn(p, w, lo, a + b)
    ensures StandsIn(p, w, lo, a) && StandsIn(p, w, lo + |a|, b)
  {
    var code := p[w].body.code;
    assert code[lo..lo + |a|] == code[lo..lo + |a + b|][..|a|];
    assert code[lo + |a|..lo + |a| + |b|] == code[lo..lo + |a + b|][|a|..];
  }

  function At(rest: seq<Act>, w: nat, off: int, d: Env): State {
    Running(rest + [Act(w, off, d.locals)], d.stack)
  }

  /** A jump on a truth value. */
  lemma BranchStep(p: Program, native: Natives, rest: seq<Act>, w: nat, lo: nat, neg: bool, disp: int, d: Env)
    requires StandsIn(p, w, lo, [Unless(neg, disp)]) && Truth(d).Some?
    ensures var (b, d') := Truth(d).value;
            Step(p, native, At(rest, w, lo, d)) == At(rest, w, if b != neg then lo + 1 else lo + 1 + disp, d')
  {
    assert p[w].body.code[lo] == p[w].body.code[lo..lo + 1][0] == Unless(neg, disp);
    var acts := rest + [Act(w, lo, d.locals)];
    assert acts[..|acts| - 1] == rest;
  }

  lemma JumpStep(p: Program, native: Natives, rest: seq<Act>, w: nat, lo: nat, disp: int, d: Env)
    requires StandsIn(p, w, lo, [Jump(disp)])
    ensures Step(p, native, At(rest, w, lo, d)) == At(rest, w, lo + 1 + disp, d)
  {
    assert p[w].body.code[lo] == p[w].body.code[lo..lo + 1][0] == Jump(disp);
    var acts := rest + [Act(w, lo, d.locals)];
    assert acts[..|acts| - 1] == rest;
  }

  lemma {:induction false} RunsSimple(p: Program, native: Natives, rest: seq<Act>, w: nat, lo: nat, op: Opcode, d: Env,
                                      fuel: nat) returns (n: nat)
    requires StandsIn(p, w, lo, [op]) && OneOp(p, native, op, d, fuel).Some?
    ensures Run(p, native, At(rest, w, lo, d), n) == At(rest, w, lo + 1, OneOp(p, native, op, d, fuel).value)
  {
    var s := At(rest, w, lo, d);
    assert p[w].body.code[lo] == p[w].body.code[lo..lo + 1][0] == op;
    assert s.acts[..|s.acts| - 1] == rest;
    assert Run(p, native, s, 1) == Step(p, native, Run(p, native, s, 0));
    if op.Call? && p[op.target].body.Interpreted? {
      var below := rest + [Act(w, lo + 1, d.locals)];
      var callee := Start(p, op.target, d.stack);
      assert Step(p, native, s) == Above(below, callee);
      var m := CalleeReturns(p, native, below, callee, fuel);
      n := 1 + m;
      RunAdd(p, native, s, 1, m);
    } else {
      n := 1;
    }
  }

  /** From one state to another in some number of opcodes. */
  ghost predicate Leads(p: Program, native: Natives, s: State, t: State) {
    exists n: nat :: Run(p, native, s, n) == t
  }

  lemma LeadsTwice(p: Program, native: Natives, s: State, t: State, u: State)
    requires Leads(p, native, s, t) && Leads(p, native, t, u)
    ensures Leads(p, native, s, u)
  {
    var m: nat :| Run(p, native, s, m) == t;
    var n: nat :| Run(p, native, t, n) == u;
    RunAdd(p, native, s, m, n);
  }

  lemma LeadsOnce(p: Program, native: Natives, s: State)
    ensures Leads(p, native, s, s) && Leads(p, native, s, Step(p, native, s))
  {
    assert Run(p, native, s, 0) == s;
    assert Run(p, native, s, 1) == Step(p, native, Run(p, native, s, 0));
  }

  /** Wherever the code of a structured part stands, the machine runs it as its structure says, and goes on behind it. */
  lemma {:induction false} RunsLayout(p: Program, native: Natives, names: Names, rest: seq<Act>, w: nat, lo: nat,
                                      stm: Stm, d: Env, fuel: nat)
    requires Formed(names, stm) && StandsIn(p, w, lo, Layout(names, stm))
    requires Eval(p, native, names, stm, d, fuel).Some?
    ensures Leads(p, native, At(rest, w, lo, d),
                  At(rest, w, lo + |Layout(names, stm)|, Eval(p, native, names, stm, d, fuel).value))
    decreases fuel, stm, 1
  {
    hide Leads, Step, At, StandsIn, OneOp;
    match stm
    case Empty => LeadsOnce(p, native, At(rest, w, lo, d));
    case Simple(call) => RunsOp(p, native, rest, w, lo, OpOf(names, call).value, d, fuel);
    case Both(first, second) => RunsBoth(p, native, names, rest, w, lo, first, second, d, fuel);
    case If(neg, body) => RunsIf(p, native, names, rest, w, lo, neg, body, d, fuel);
    case IfElse(neg, yes, no) => RunsElse(p, native, names, rest, w, lo, neg, yes, no, d, fuel);
    case Until(neg, body) => RunsUntil(p, native, names, rest, w, lo, neg, body, d, fuel);
    case While(cond, body) => RunsWhile(p, native, names, rest, w, lo, cond, body, d, fuel);
    case Forever(_) =>
  }

  lemma RunsOp(p: Program, native: Natives, rest: seq<Act>, w: nat, lo: nat, op: Opcode, d: Env, fuel: nat)
    requires StandsIn(p, w, lo, [op]) && OneOp(p, native, op, d, fuel).Some?
    ensures Leads(p, native, At(rest, w, lo, d), At(rest, w, lo + 1, OneOp(p, native, op, d, fuel).value))
  {
    hide StandsIn, OneOp;
    var n := RunsSimple(p, native, rest, w, lo, op, d, fuel);
  }

  lemma {:induction false} RunsBoth(p: Program, native: Natives, names: Names, rest: seq<Act>, w: nat, lo: nat,
                                    first: Stm, second: Stm, d: Env, fuel: nat)
    requires Formed(names, first) && Formed(names, second)
    requires StandsIn(p, w, lo, Layout(names, first) + Layout(names, second))
    requires Eval(p, native, names, Both(first, second), d, fuel).Some?
    ensures Leads(p, native, At(rest, w, lo, d),
                  At(rest, w, lo + |Layout(names, first) + Layout(names, second)|,
                     Eval(p, native, names, Both(first, second), d, fuel).value))
    decreases fuel, Both(first, second), 0
  {
    hide Leads, Step, At, StandsIn, Layout, Formed, Unless, OneOp, Run;
    var a := Layout(names, first);
    StandsApart(p, w, lo, a, Layout(names, second));
    var d1 := Eval(p, native, names, first, d, fuel).value;
    var d2 := Eval(p, native, names, second, d1, fuel).value;
    RunsLayout(p, native, names, rest, w, lo, first, d, fuel);
    RunsLayout(p, native, names, rest, w, lo + |a|, second, d1, fuel);
    LeadsTwice(p, native, At(rest, w, lo, d), At(rest, w, lo + |a|, d1),
               At(rest, w, lo + |a| + |Layout(names, second)|, d2));
  }

  lemma {:induction false} RunsIf(p: Program, native: Natives, names: Names, rest: seq<Act>, w: nat, lo: nat,
                                  neg: bool, body: Stm, d: Env, fuel: nat)
    requires Formed(names, body) && StandsIn(p, w, lo, IfCode(neg, Layout(names, body)))
    requires Eval(p, native, names, If(neg, body), d, fuel).Some?
    ensures Leads(p, native, At(rest, w, lo, d),
                  At(rest, w, lo + |IfCode(neg, Layout(names, body))|,
                     Eval(p, native, names, If(neg, body), d, fuel).value))
    decreases fuel, If(neg, body), 0
  {
    hide Leads, Step, At, StandsIn, Layout, Formed, Unless, OneOp, Run;
    var b := Layout(names, body);
    var (t, d1) := Truth(d).value;
    StandsApart(p, w, lo, [Unless(neg, |b|)], b);
    BranchStep(p, native, rest, w, lo, neg, |b|, d);
    var s := At(rest, w, lo, d);
    LeadsOnce(p, native, s);
    if t != neg {
      var d2 := Eval(p, native, names, body, d1, fuel).value;
      RunsLayout(p, native, names, rest, w, lo + 1, body, d1, fuel);
      LeadsTwice(p, native, s, At(rest, w, lo + 1, d1), At(rest, w, lo + 1 + |b|, d2));
    }
  }

  lemma {:induction false} RunsElse(p: Program, native: Natives, names: Names, rest: seq<Act>, w: nat, lo: nat,
                                    neg: bool, yes: Stm, no: Stm, d: Env, fuel: nat)
    requires Formed(names, yes) && Formed(names, no)
    requires StandsIn(p, w, lo, ElseCode(neg, Layout(names, yes), Layout(names, no)))
    requires Eval(p, native, names, IfElse(neg, yes, no), d, fuel).Some?
    ensures Leads(p, native, At(rest, w, lo, d),
                  At(rest, w, lo + |ElseCode(neg, Layout(names, yes), Layout(names, no))|,
                     Eval(p, native, names, IfElse(neg, yes, no), d, fuel).value))
    decreases fuel, IfElse(neg, yes, no), 0
  {
    hide Leads, Step, At, StandsIn, Layout, Formed, Unless, OneOp, Run;
    var y, n := Layout(names, yes), Layout(names, no);
    var (t, d1) := Truth(d).value;
    var op, skip := [Unless(neg, |y| + 1)], [Jump(|n|)];
    StandsApart(p, w, lo, op + y + skip, n);
    StandsApart(p, w, lo, op + y, skip);
    StandsApart(p, w, lo, op, y);
    BranchStep(p, native, rest, w, lo, neg, |y| + 1, d);
    var s, mid, end := At(rest, w, lo, d), lo + 1 + |y|, lo + 1 + |y| + 1 + |n|;
    LeadsOnce(p, native, s);
    if t != neg {
      var d2 := Eval(p, native, names, yes, d1, fuel).value;
      JumpStep(p, native, rest, w, mid, |n|, d2);
      LeadsOnce(p, native, At(rest, w, mid, d2));
      RunsLayout(p, native, names, rest, w, lo + 1, yes, d1, fuel);
      LeadsTwice(p, native, s, At(rest, w, lo + 1, d1), At(rest, w, mid, d2));
      LeadsTwice(p, native, s, At(rest, w, mid, d2), At(rest, w, end, d2));
    } else {
      var d2 := Eval(p, native, names, no, d1, fuel).value;
      RunsLayout(p, native, names, rest, w, mid + 1, no, d1, fuel);
      LeadsTwice(p, native, s, At(rest, w, mid + 1, d1), At(rest, w, end, d2));
    }
  }

  lemma {:induction false} UntilTurn(p: Program, native: Natives, names: Names, neg: bool, body: Stm, d: Env, fuel: nat)
    returns (d1: Env, t: bool, d2: Env)
    requires Formed(names, body) && Eval(p, native, names, Until(neg, body), d, fuel).Some?
    ensures fuel > 0 && Eval(p, native, names, body, d, fuel - 1) == Some(d1) && Truth(d1) == Some((t, d2))
    ensures Eval(p, native, names, Until(neg, body), d, fuel)
            == if t != neg then Some(d2) else Eval(p, native, names, Until(neg, body), d2, fuel - 1)
  {
    hide Truth;
    d1 := Eval(p, native, names, body, d, fuel - 1).value;
    t, d2 := Truth(d1).value.0, Truth(d1).value.1;
  }

  lemma LoopParts(op: Opcode, b: seq<Opcode>)
    requires op.IsJump()
    ensures LoopCode(op, b) == b + [WithDisp(op, -|b| - 1)]
  {
  }

  lemma LoopLayouts(names: Names, neg: bool, body: Stm)
    requires Formed(names, body)
    ensures Formed(names, Until(neg, body)) && Formed(names, Forever(body))
    ensures Layout(names, Until(neg, body)) == LoopCode(Unless(neg, 0), Layout(names, body))
    ensures Layout(names, Forever(body)) == LoopCode(Jump(0), Layout(names, body))
  {
    hide LoopCode;
  }

  lemma {:induction false} RunsUntil(p: Program, native: Natives, names: Names, rest: seq<Act>, w: nat, lo: nat,
                                     neg: bool, body: Stm, d: Env, fuel: nat)
    requires Formed(names, body) && StandsIn(p, w, lo, LoopCode(Unless(neg, 0), Layout(names, body)))
    requires Eval(p, native, names, Until(neg, body), d, fuel).Some?
    ensures Leads(p, native, At(rest, w, lo, d),
                  At(rest, w, lo + |LoopCode(Unless(neg, 0), Layout(names, body))|,
                     Eval(p, native, names, Until(neg, body), d, fuel).value))
    decreases fuel, Until(neg, body), 0
  {
    hide Leads, Step, At, StandsIn, Layout, Formed, Eval, Truth, LoopCode;
    LoopLayouts(names, neg, body);
    var b, stm := Layout(names, body), Until(neg, body);
    LoopParts(Unless(neg, 0), b);
    var d1, t, d2 := UntilTurn(p, native, names, neg, body, d, fuel);
    StandsApart(p, w, lo, b, [Unless(neg, -|b| - 1)]);
    RunsLayout(p, native, names, rest, w, lo, body, d, fuel - 1);
    var s, mid := At(rest, w, lo, d), At(rest, w, lo + |b|, d1);
    BranchStep(p, native, rest, w, lo + |b|, neg, -|b| - 1, d1);
    LeadsOnce(p, native, mid);
    if t == neg {
      LeadsTwice(p, native, s, mid, At(rest, w, lo, d2));
      RunsLayout(p, native, names, rest, w, lo, stm, d2, fuel - 1);
      var d3 := Eval(p, native, names, stm, d2, fuel - 1).value;
      LeadsTwice(p, native, s, At(rest, w, lo, d2), At(rest, w, lo + |Layout(names, stm)|, d3));
    } else {
      LeadsTwice(p, native, s, mid, At(rest, w, lo + |b| + 1, d2));
    }
  }

  lemma {:induction false} WhileTurn(p: Program, native: Natives, names: Names, cond: Stm, body: Stm, d: Env, fuel: nat)
    returns (d1: Env, t: bool, d2: Env)
    requires Formed(names, cond) && Formed(names, body) && Eval(p, native, names, While(cond, body), d, fuel).Some?
    ensures fuel > 0 && Eval(p, native, names, cond, d, fuel - 1) == Some(d1) && Truth(d1) == Some((t, d2))
    ensures !t ==> Eval(p, native, names, While(cond, body), d, fuel) == Some(d2)
    ensures t ==> Eval(p, native, names, body, d2, fuel - 1).Some?
    ensures t ==> Eval(p, native, names, While(cond, body), d, fuel)
                  == Eval(p, native, names, While(cond, body), Eval(p, native, names, body, d2, fuel - 1).value, fuel - 1)
  {
    hide Truth;
    d1 := Eval(p, native, names, cond, d, fuel - 1).value;
    t, d2 := Truth(d1).value.0, Truth(d1).value.1;
  }

  lemma WhileParts(c: seq<Opcode>, b: seq<Opcode>)
    ensures WhileCode(c, b) == c + [Unless(false, |b| + 1)] + b + [Jump(-|c| - |b| - 2)]
  {
  }

  lemma WhileLayout(names: Names, cond: Stm, body: Stm)
    requires Formed(names, cond) && Formed(names, body)
    ensures Formed(names, While(cond, body))
    ensures Layout(names, While(cond, body)) == WhileCode(Layout(names, cond), Layout(names, body))
  {
    hide WhileCode;
  }

  lemma {:induction false} RunsWhile(p: Program, native: Natives, names: Names, rest: seq<Act>, w: nat, lo: nat,
                                     cond: Stm, body: Stm, d: Env, fuel: nat)
    requires Formed(names, cond) && Formed(names, body)
    requires StandsIn(p, w, lo, WhileCode(Layout(names, cond), Layout(names, body)))
    requires Eval(p, native, names, While(cond, body), d, fuel).Some?
    ensures Leads(p, native, At(rest, w, lo, d),
                  At(rest, w, lo + |WhileCode(Layout(names, cond), Layout(names, body))|,
                     Eval(p, native, names, While(cond, body), d, fuel).value))
    decreases fuel, While(cond, body), 0
  {
    hide Leads, Step, At, StandsIn, Layout, Formed, Eval, Truth, WhileCode, Unless;
    WhileLayout(names, cond, body);
    var c, b, stm := Layout(names, cond), Layout(names, body), While(cond, body);
    WhileParts(c, b);
    var d1, t, d2 := WhileTurn(p, native, names, cond, body, d, fuel);
    var exit, back := [Unless(false, |b| + 1)], [Jump(-|c| - |b| - 2)];
    StandsApart(p, w, lo, c + exit + b, back);
    StandsApart(p, w, lo, c + exit, b);
    StandsApart(p, w, lo, c, exit);
    RunsLayout(p, native, names, rest, w, lo, cond, d, fuel - 1);
    var s, test, bottom := At(rest, w, lo, d), At(rest, w, lo + |c|, d1), lo + |c| + 1 + |b|;
    BranchStep(p, native, rest, w, lo + |c|, false, |b| + 1, d1);
    LeadsOnce(p, native, test);
    if t {
      LeadsTwice(p, native, s, test, At(rest, w, lo + |c| + 1, d2));
      WhileBody(p, native, names, rest, w, lo, cond, body, d2, fuel);
      var d3 := Eval(p, native, names, body, d2, fuel - 1).value;
      LeadsTwice(p, native, s, At(rest, w, lo + |c| + 1, d2), At(rest, w, lo, d3));
      RunsLayout(p, native, names, rest, w, lo, stm, d3, fuel - 1);
      var d4 := Eval(p, native, names, stm, d3, fuel - 1).value;
      LeadsTwice(p, native, s, At(rest, w, lo, d3), At(rest, w, lo + |Layout(names, stm)|, d4));
    } else {
      LeadsTwice(p, native, s, test, At(rest, w, bottom + 1, d2));
    }
  }

  /** From behind the test back to it. */
  lemma {:induction false} WhileBody(p: Program, native: Natives, names: Names, rest: seq<Act>, w: nat, lo: nat,
                                     cond: Stm, body: Stm, d: Env, fuel: nat)
    requires Formed(names, cond) && Formed(names, body) && fuel > 0
    requires StandsIn(p, w, lo, WhileCode(Layout(names, cond), Layout(names, body)))
    requires Eval(p, native, names, body, d, fuel - 1).Some?
    ensures Leads(p, native, At(rest, w, lo + |Layout(names, cond)| + 1, d),
                  At(rest, w, lo, Eval(p, native, names, body, d, fuel - 1).value))
    decreases fuel, While(cond, body), -1
  {
    hide Leads, Step, At, StandsIn, Layout, Formed, Eval, WhileCode, Unless;
    var c, b := Layout(names, cond), Layout(names, body);
    WhileParts(c, b);
    var exit, back := [Unless(false, |b| + 1)], [Jump(-|c| - |b| - 2)];
    StandsApart(p, w, lo, c + exit + b, back);
    StandsApart(p, w, lo, c + exit, b);
    RunsLayout(p, native, names, rest, w, lo + |c| + 1, body, d, fuel - 1);
    var d3, bottom := Eval(p, native, names, body, d, fuel - 1).value, lo + |c| + 1 + |b|;
    JumpStep(p, native, rest, w, bottom, -|c| - |b| - 2, d3);
    LeadsOnce(p, native, At(rest, w, bottom, d3));
    LeadsTwice(p, native, At(rest, w, lo + |c| + 1, d), At(rest, w, bottom, d3), At(rest, w, lo, d3));
  }

  /** A turn of `begin .. again` comes back to its beginning. */
  lemma {:induction false} ForeverTurn(p: Program, native: Natives, names: Names, rest: seq<Act>, w: nat, lo: nat,
                                       body: Stm, d: Env, fuel: nat)
    requires Formed(names, body) && StandsIn(p, w, lo, Layout(names, Forever(body)))
    requires Eval(p, native, names, body, d, fuel).Some?
    ensures Leads(p, native, At(rest, w, lo, d), At(rest, w, lo, Eval(p, native, names, body, d, fuel).value))
  {
    hide Leads, Step, At, StandsIn, Layout, Formed, Eval, LoopCode;
    var b := Layout(names, body);
    LoopLayouts(names, false, body);
    LoopParts(Jump(0), b);
    StandsApart(p, w, lo, b, [Jump(-|b| - 1)]);
    RunsLayout(p, native, names, rest, w, lo, body, d, fuel);
    var d1 := Eval(p, native, names, body, d, fuel).value;
    JumpStep(p, native, rest, w, lo + |b|, -|b| - 1, d1);
    LeadsOnce(p, native, At(rest, w, lo + |b|, d1));
    LeadsTwice(p, native, At(rest, w, lo, d), At(rest, w, lo + |b|, d1), At(rest, w, lo, d1));
  }

  /** What comes to an end can. */
  lemma {:induction false} EndsIfEvaluated(p: Program, native: Natives, names: Names, stm: Stm, d: Env, fuel: nat)
    requires Formed(names, stm) && Eval(p, native, names, stm, d, fuel).Some?
    ensures CanEnd(stm)
    decreases stm
  {
    match stm
    case Both(first, second) =>
      EndsIfEvaluated(p, native, names, first, d, fuel);
      EndsIfEvaluated(p, native, names, second, Eval(p, native, names, first, d, fuel).value, fuel);
    case _ =>
  }

  /** A word whose builder received structured code runs as its structure says, and returns. */
  lemma {:induction false} StructuredWord(p: Program, native: Natives, st: BState, stm: Stm, w: nat, stack: seq<int32>,
                                          fuel: nat)
    requires Shaped(st) && st.cfPtr == -1 && st.code == [] && st.jumpToLast && Formed(st.locals, stm)
    requires w < |p| && p[w].body.Interpreted? && ApplyFrom(st, Calls(stm)).Some?
    requires Finished(ApplyFrom(st, Calls(stm)).value) == Some(p[w].body.code)
    requires Eval(p, native, st.locals, stm, Env(EnterWord(w, p[w].body.numLocals).locals, stack), fuel).Some?
    ensures Leads(p, native, Start(p, w, stack),
                  Done(Eval(p, native, st.locals, stm, Env(EnterWord(w, p[w].body.numLocals).locals, stack), fuel).value.stack))
  {
    hide Leads, Apply, ApplyFrom, Calls, Layout, Formed, Eval, CanEnd;
    var names, d := st.locals, Env(EnterWord(w, p[w].body.numLocals).locals, stack);
    var d' := Eval(p, native, names, stm, d, fuel).value;
    BuildsLayout(st, stm);
    EndsIfEvaluated(p, native, names, stm, d, fuel);
    var l, code := Layout(names, stm), p[w].body.code;
    assert code == l + [Ret];
    assert code[0..|l|] == l && code[|l|..|l| + 1] == [Ret];
    RunsLayout(p, native, names, [], w, 0, stm, d, fuel);
    RetStep(p, native, w, |l|, d');
    LeadsOnce(p, native, At([], w, |l|, d'));
    StartAt(p, w, stack);
    LeadsTwice(p, native, Start(p, w, stack), At([], w, |l|, d'), Done(d'.stack));
  }

  /** Definitions of locals leave the rest of the builder as it was. */
  lemma {:induction false} OnlyDefinitions(defs: seq<BCall>)
    requires (forall i :: 0 <= i < |defs| ==> defs[i].DefLocal?) && ApplyAll(defs).Some?
    ensures var st := ApplyAll(defs).value; st.cfPtr == -1 && st.code == [] && st.jumpToLast
    decreases |defs|
  {
    if defs != [] {
      OnlyDefinitions(defs[..|defs| - 1]);
      assert defs[|defs| - 1].DefLocal?;
    }
  }

  /** From a new builder on: any definitions of locals, then structured code. */
  lemma {:induction false} StructuredRuns(p: Program, native: Natives, defs: seq<BCall>, stm: Stm, w: nat,
                                          stack: seq<int32>, fuel: nat)
    requires (forall i :: 0 <= i < |defs| ==> defs[i].DefLocal?) && ApplyAll(defs).Some?
    requires Formed(ApplyAll(defs).value.locals, stm) && w < |p| && p[w].body.Interpreted?
    ensures ApplyAll(defs + Calls(stm)).Some?
    ensures var names := ApplyAll(defs).value.locals;
            var r := Eval(p, native, names, stm, Env(EnterWord(w, p[w].body.numLocals).locals, stack), fuel);
            r.Some? && Finished(ApplyAll(defs + Calls(stm)).value) == Some(p[w].body.code) ==>
              Leads(p, native, Start(p, w, stack), Done(r.value.stack))
  {
    hide Apply, Calls, Formed, Eval, Leads, Finished;
    OnlyDefinitions(defs);
    FromNew(defs);
    FromNew(defs + Calls(stm));
    FromTwo(NEW_BUILDER, defs, Calls(stm));
    var st := ApplyAll(defs).value;
    BuildsLayout(st, stm);
    var code := Finished(ApplyAll(defs + Calls(stm)).value);
    if code == Some(p[w].body.code)
       && Eval(p, native, st.locals, stm, Env(EnterWord(w, p[w].body.numLocals).locals, stack), fuel).Some? {
      StructuredWord(p, native, st, stm, w, stack, fuel);
    }
  }

  lemma RetStep(p: Program, native: Natives, w: nat, lo: nat, d: Env)
    requires StandsIn(p, w, lo, [Ret])
    ensures Step(p, native, At([], w, lo, d)) == Done(d.stack)
  {
    assert p[w].body.code[lo] == p[w].body.code[lo..lo + 1][0] == Ret;
  }

  lemma StartAt(p: Program, w: nat, stack: seq<int32>)
    requires w < |p| && p[w].body.Interpreted?
    ensures Start(p, w, stack) == At([], w, 0, Env(EnterWord(w, p[w].body.numLocals).locals, stack))
  {
  }
}
