/** The word builder: opcodes are appended one by one, and a control-flow stack remembers the jumps to
    resolve (origins, >= 0) and the places to jump back to (destinations, < 0). */
module Builder {
  import opened Ints
  import opened Opcodes

  // ----- The builder on values -----

  /** The fields of a builder. The whole buffer of the control-flow stack is kept: with a negative depth,
      cs-pick reads above the top. */
  datatype BState = BState(cfStack: seq<int>, cfPtr: int, code: seq<Opcode>, locals: map<string, nat>, jumpToLast: bool)

  datatype BCall =
    | CSRoll(depth: int)
    | CSPick(depth: int)
    | Literal(v: int32)
    | CallNamed(target: string)
    | CallWord(w: nat)
    | CallExt(name: string)
    | ReadLocal(name: string)
    | WriteLocal(name: string)
    | DefLocal(name: string)
    | AddRet
    | Ahead(op: Opcode)
    | Then
    | Begin
    | Again(op: Opcode)

  const NEW_BUILDER := BState(Zeros(16), -1, [], map[], true)

  function Zeros(n: nat): seq<int> {
    seq(n, _ => 0)
  }

  predicate Shaped(st: BState) {
    -1 <= st.cfPtr < |st.cfStack| && st.cfStack != []
  }

  function Add(st: BState, op: Opcode): BState {
    st.(code := st.code + [op], jumpToLast := false)
  }

  function Push(st: BState, x: int): BState
    requires Shaped(st)
  {
    var p := st.cfPtr + 1;
    var buf := if p == |st.cfStack| then st.cfStack + Zeros(|st.cfStack|) else st.cfStack;
    st.(cfStack := buf[p := x], cfPtr := p)
  }

  /** Three kinds of jumps exist; `disp` replaces the displacement. */
  function WithDisp(op: Opcode, disp: int): Opcode
    requires op.IsJump()
  {
    op.(disp := disp)
  }

  function Rolled(buf: seq<int>, top: nat, depth: nat): seq<int>
    requires depth <= top < |buf|
  {
    buf[..top - depth] + buf[top - depth + 1..top + 1] + [buf[top - depth]] + buf[top + 1..]
  }

  function UseLocal(st: BState, name: string, write: bool): Option<BState> {
    if name in st.locals then
      Some(Add(st, if write then PutLocal(st.locals[name]) else GetLocal(st.locals[name])))
    else None
  }

  /** One builder call; None is an exception. `op` of Ahead and Again tells the kind of jump. */
  function Apply(st: BState, call: BCall): (r: Option<BState>)
    requires Shaped(st)
    ensures r.Some? ==> Shaped(r.value)
  {
    match call
    case CSRoll(d) =>
      if 0 <= d <= st.cfPtr then Some(st.(cfStack := Rolled(st.cfStack, st.cfPtr, d))) else None
    case CSPick(d) =>
      if 0 <= st.cfPtr - d < |st.cfStack| then Some(Push(st, st.cfStack[st.cfPtr - d])) else None
    case Literal(v) => Some(Add(st, Const(v)))
    case CallNamed(target) =>
      var write := target != [] && target[0] == '>';
      var r := UseLocal(st, if write then target[1..] else target, write);
      if r.Some? then r else Some(Add(st, CallByName(target)))
    case CallWord(w) => Some(Add(st, Call(w)))
    case CallExt(name) => Some(Add(st, CallByName(name)))
    case ReadLocal(name) => UseLocal(st, name, false)
    case WriteLocal(name) => UseLocal(st, name, true)
    case DefLocal(name) =>
      if name in st.locals then None else Some(st.(locals := st.locals[name := |st.locals|]))
    case AddRet => Some(Add(st, Ret))
    case Ahead(op) =>
      if op.IsJump() then Some(Add(Push(st, |st.code|), WithDisp(op, UNRESOLVED))) else None
    case Then =>
      if st.cfPtr < 0 then None
      else
        var x := st.cfStack[st.cfPtr];
        if !(0 <= x < |st.code|) || !st.code[x].IsJump() || st.code[x].disp != UNRESOLVED then None
        else
          Some(st.(cfPtr := st.cfPtr - 1, jumpToLast := true,
                   code := st.code[x := WithDisp(st.code[x], |st.code| - x - 1)]))
    case Begin => Some(Push(st, -|st.code| - 1))
    case Again(op) =>
      if st.cfPtr < 0 || st.cfStack[st.cfPtr] >= 0 || !op.IsJump() then None
      else
        var x := -st.cfStack[st.cfPtr] - 1;
        Some(Add(st.(cfPtr := st.cfPtr - 1), WithDisp(op, x - |st.code| - 1)))
  }

  /** Build: the code of the finished word. */
  function Finished(st: BState): Option<seq<Opcode>>
    requires Shaped(st)
  {
    if st.cfPtr != -1 then None
    else if st.jumpToLast then Some(st.code + [Ret])
    else if st.code == [] then None
    else if st.code[|st.code| - 1].MayFallThrough() then Some(st.code + [Ret])
    else Some(st.code)
  }

  // ----- The invariant -----

  /** Origin i is on the control-flow stack. */
  predicate OnStack(st: BState, i: int)
    requires Shaped(st)
  {
    exists k :: 0 <= k <= st.cfPtr && st.cfStack[k] == i
  }

  /** A jump leads into the code, or to its end while that is marked, or it is an unresolved forward jump
      whose origin is on the control-flow stack. Local numbers are allocated. */
  predicate OpOk(st: BState, i: nat)
    requires Shaped(st) && i < |st.code|
  {
    var op := st.code[i];
    && (op.IsJump() ==>
         var t := i + 1 + op.disp;
         || 0 <= t < |st.code|
         || (t == |st.code| && st.jumpToLast)
         || (op.disp == UNRESOLVED && OnStack(st, i)))
    && (op.GetLocal? || op.PutLocal? ==> op.num < |st.locals|)
  }

  predicate Inv(st: BState) {
    && Shaped(st)
    && (forall i :: 0 <= i < |st.code| ==> OpOk(st, i))
    && (forall k :: 0 <= k < |st.cfStack| ==> -|st.code| - 1 <= st.cfStack[k])
    && (forall name :: name in st.locals ==> st.locals[name] < |st.locals|)
    && (st.code == [] ==> st.jumpToLast)
  }

  lemma NewInv()
    ensures Inv(NEW_BUILDER)
  {
  }

  lemma AddInv(st: BState, op: Opcode)
    requires Inv(st) && !(op.IsJump()) && (op.GetLocal? || op.PutLocal? ==> op.num < |st.locals|)
    ensures Inv(Add(st, op))
  {
    var st' := Add(st, op);
    forall i | 0 <= i < |st'.code|
      ensures OpOk(st', i)
    {
      if i < |st.code| {
        assert OpOk(st, i);
        if st.code[i].IsJump() && OnStack(st, i) {
          assert OnStack(st', i);
        }
      }
    }
  }

  lemma PushInv(st: BState, x: int)
    requires Inv(st) && -|st.code| - 1 <= x
    ensures Inv(Push(st, x)) && OnStack(Push(st, x), x)
    ensures forall i :: OnStack(st, i) ==> OnStack(Push(st, x), i)
  {
    var st' := Push(st, x);
    assert st'.cfStack[st'.cfPtr] == x;
    forall i | OnStack(st, i)
      ensures OnStack(st', i)
    {
      var k :| 0 <= k <= st.cfPtr && st.cfStack[k] == i;
      assert st'.cfStack[k] == i;
    }
    forall i | 0 <= i < |st'.code|
      ensures OpOk(st', i)
    {
      assert OpOk(st, i);
    }
  }

  lemma RollInv(st: BState, d: nat)
    requires Inv(st) && d <= st.cfPtr
    ensures Inv(st.(cfStack := Rolled(st.cfStack, st.cfPtr, d)))
  {
    var st' := st.(cfStack := Rolled(st.cfStack, st.cfPtr, d));
    var low := st.cfPtr - d;
    forall i | OnStack(st, i)
      ensures OnStack(st', i)
    {
      var k :| 0 <= k <= st.cfPtr && st.cfStack[k] == i;
      var k' := if k < low then k else if k == low then st.cfPtr else k - 1;
      assert st'.cfStack[k'] == i;
    }
    forall i | 0 <= i < |st'.code|
      ensures OpOk(st', i)
    {
      assert OpOk(st, i);
    }
    forall k | 0 <= k < |st'.cfStack|
      ensures -|st.code| - 1 <= st'.cfStack[k]
    {
      assert st'.cfStack[k] == st.cfStack[if low <= k < st.cfPtr then k + 1 else if k == st.cfPtr then low else k];
    }
  }

  lemma ThenInv(st: BState)
    requires Inv(st) && Apply(st, Then).Some?
    ensures Inv(Apply(st, Then).value)
  {
    var st', x := Apply(st, Then).value, st.cfStack[st.cfPtr];
    forall i | 0 <= i < |st'.code|
      ensures OpOk(st', i)
    {
      assert OpOk(st, i);
      if i != x && OnStack(st, i) {
        var k :| 0 <= k <= st.cfPtr && st.cfStack[k] == i;
        assert st'.cfStack[k] == i && k < st.cfPtr;
      }
    }
  }

  lemma AheadInv(st: BState, op: Opcode)
    requires Inv(st) && op.IsJump()
    ensures Inv(Apply(st, Ahead(op)).value)
  {
    var n := |st.code|;
    var st1, st' := Push(st, n), Apply(st, Ahead(op)).value;
    PushInv(st, n);
    assert forall i :: OnStack(st1, i) ==> OnStack(st', i);
    forall i | 0 <= i < |st'.code|
      ensures OpOk(st', i)
    {
      if i < n {
        assert OpOk(st1, i);
      }
    }
  }

  lemma AgainInv(st: BState, op: Opcode)
    requires Inv(st) && Apply(st, Again(op)).Some?
    ensures Inv(Apply(st, Again(op)).value)
  {
    var st' := Apply(st, Again(op)).value;
    forall i | 0 <= i < |st'.code|
      ensures OpOk(st', i)
    {
      if i < |st.code| {
        assert OpOk(st, i);
        if OnStack(st, i) {
          var k :| 0 <= k <= st.cfPtr && st.cfStack[k] == i;
          assert k < st.cfPtr && st'.cfStack[k] == i;
        }
      }
    }
  }

  lemma DefInv(st: BState, name: string)
    requires Inv(st) && name !in st.locals
    ensures Inv(st.(locals := st.locals[name := |st.locals|]))
  {
    var st' := st.(locals := st.locals[name := |st.locals|]);
    assert st'.locals.Keys == st.locals.Keys + {name};
    assert |st'.locals| == |st.locals| + 1;
    forall i | 0 <= i < |st'.code|
      ensures OpOk(st', i)
    {
      assert OpOk(st, i);
      if OnStack(st, i) {
        assert OnStack(st', i);
      }
    }
  }

  lemma NamedInv(st: BState, target: string)
    requires Inv(st)
    ensures Inv(Apply(st, CallNamed(target)).value)
  {
    var write := target != [] && target[0] == '>';
    var name := if write then target[1..] else target;
    if name in st.locals {
      AddInv(st, if write then PutLocal(st.locals[name]) else GetLocal(st.locals[name]));
    } else {
      AddInv(st, CallByName(target));
    }
    hide Inv;
  }

  /** Every successful builder call keeps the invariant. */
  lemma ApplyInv(st: BState, call: BCall)
    requires Inv(st) && Apply(st, call).Some?
    ensures Inv(Apply(st, call).value)
  {
    match call
    case CSRoll(d) => RollInv(st, d);
    case CSPick(d) => PushInv(st, st.cfStack[st.cfPtr - d]);
    case Literal(v) => AddInv(st, Const(v));
    case CallNamed(target) => NamedInv(st, target);
    case CallWord(w) => AddInv(st, Call(w));
    case CallExt(name) => AddInv(st, CallByName(name));
    case ReadLocal(name) => AddInv(st, GetLocal(st.locals[name]));
    case WriteLocal(name) => AddInv(st, PutLocal(st.locals[name]));
    case DefLocal(name) => DefInv(st, name);
    case AddRet => AddInv(st, Ret);
    case Ahead(op) => AheadInv(st, op);
    case Then => ThenInv(st);
    case Begin => PushInv(st, -|st.code| - 1);
    case Again(op) => AgainInv(st, op);
  }

  lemma RolledParts(buf: seq<int>, top: nat, depth: nat)
    requires depth <= top < |buf|
    ensures var r := Rolled(buf, top, depth);
            && |r| == |buf| && r[top] == buf[top - depth]
            && forall i :: 0 <= i < |buf| && i != top ==> r[i] == if top - depth <= i < top then buf[i + 1] else buf[i]
  {
  }

  lemma RollApplied(st: BState, depth: nat)
    requires Shaped(st) && depth <= st.cfPtr
    ensures Apply(st, CSRoll(depth)) == Some(st.(cfStack := Rolled(st.cfStack, st.cfPtr, depth)))
  {
  }

  // ----- Whole sequences of calls -----

  function ApplyAll(calls: seq<BCall>): (r: Option<BState>)
    ensures r.Some? ==> Inv(r.value)
  {
    if calls == [] then
      NewInv();
      Some(NEW_BUILDER)
    else
      match ApplyAll(calls[..|calls| - 1])
      case None => None
      case Some(st) =>
        var r := Apply(st, calls[|calls| - 1]);
        if r.Some? then ApplyInv(st, calls[|calls| - 1]); r else None
  }

  lemma FinishedClosed(st: BState)
    requires Inv(st) && Finished(st).Some?
    ensures Closed(Finished(st).value, |st.locals|)
  {
    var code := Finished(st).value;
    forall i | 0 <= i < |code|
      ensures ClosedAt(code, |st.locals|, i)
    {
      if i < |st.code| {
        assert OpOk(st, i) && !OnStack(st, i);
      }
    }
  }

  /** Builder closure: whatever the sequence of builder calls, with any arguments, a word that Build accepts
      has every jump resolved and inside its code, does not run past its last opcode, and uses allocated
      locals only. */
  lemma BuilderClosure(calls: seq<BCall>)
    requires ApplyAll(calls).Some? && Finished(ApplyAll(calls).value).Some?
    ensures Closed(Finished(ApplyAll(calls).value).value, |ApplyAll(calls).value.locals|)
  {
    FinishedClosed(ApplyAll(calls).value);
  }

  // ----- The builder object -----

  /** The entry at `depth` below the top moves to the top. */
  method RollArray(buf: array<int>, top: nat, depth: nat)
    requires depth <= top < buf.Length
    modifies buf
    ensures buf[..] == Rolled(old(buf[..]), top, depth)
  {
    hide Rolled;
    ghost var was := buf[..];
    RolledParts(was, top, depth);
    var x := buf[top - depth];
    assert x == was[top - depth];
    forall i | top - depth <= i < top {
      buf[i] := buf[i + 1];
    }
    assert forall i :: top - depth <= i < top ==> buf[i] == was[i + 1];
    assert forall i :: 0 <= i < top - depth || top < i < buf.Length ==> buf[i] == was[i];
    buf[top] := x;
    assert forall i :: 0 <= i < buf.Length ==> buf[i] == Rolled(was, top, depth)[i];
  }

  class WordBuilder {
    var cfStack: array<int>
    var cfPtr: int
    var code: seq<Opcode>
    var locals: map<string, nat>
    var jumpToLast: bool

    ghost function State(): BState
      reads this, cfStack
    {
      BState(cfStack[..], cfPtr, code, locals, jumpToLast)
    }

    ghost predicate Valid()
      reads this, cfStack
    {
      Inv(State())
    }

    constructor ()
      ensures Valid() && State() == NEW_BUILDER && fresh(cfStack)
    {
      cfStack := new int[16](_ => 0);
      cfPtr, code, locals, jumpToLast := -1, [], map[], true;
      new;
      assert cfStack[..] == Zeros(16);
      NewInv();
    }

    method AddOp(op: Opcode)
      modifies this`code, this`jumpToLast
      ensures State() == Add(old(State()), op)
    {
      code := code + [op];
      jumpToLast := false;
    }

    method CSPush(x: int)
      requires Shaped(State())
      modifies this`cfPtr, this`cfStack, cfStack
      ensures State() == Push(old(State()), x) && (cfStack == old(cfStack) || fresh(cfStack))
    {
      var len := cfStack.Length;
      cfPtr := cfPtr + 1;
      if cfPtr == len {
        var ncf := new int[2 * len](_ => 0);
        forall i | 0 <= i < len {
          ncf[i] := cfStack[i];
        }
        assert ncf[..] == cfStack[..] + Zeros(len);
        cfStack := ncf;
      }
      cfStack[cfPtr] := x;
    }

    method CSRollTo(depth: int) returns (ok: bool)
      requires Shaped(State())
      modifies cfStack
      ensures ok == Apply(old(State()), CSRoll(depth)).Some?
      ensures State() == if ok then Apply(old(State()), CSRoll(depth)).value else old(State())
    {
      ok := 0 <= depth <= cfPtr;
      if ok {
        RollApplied(State(), depth);
        hide Apply, Rolled;
        RollArray(cfStack, cfPtr, depth);
      }
    }

    method CSPickFrom(depth: int) returns (ok: bool)
      requires Shaped(State())
      modifies this`cfPtr, this`cfStack, cfStack
      ensures ok == Apply(old(State()), CSPick(depth)).Some?
      ensures State() == if ok then Apply(old(State()), CSPick(depth)).value else old(State())
      ensures cfStack == old(cfStack) || fresh(cfStack)
    {
      ok := 0 <= cfPtr - depth < cfStack.Length;
      if ok {
        CSPush(cfStack[cfPtr - depth]);
      }
    }

    method AddAhead(op: Opcode)
      requires Shaped(State()) && op.IsJump()
      modifies this, cfStack
      ensures State() == Apply(old(State()), Ahead(op)).value && (cfStack == old(cfStack) || fresh(cfStack))
    {
      CSPush(|code|);
      AddOp(WithDisp(op, UNRESOLVED));
    }

    method ResolveThen() returns (ok: bool)
      requires Shaped(State())
      modifies this`cfPtr, this`code, this`jumpToLast
      ensures ok == Apply(old(State()), Then).Some?
      ensures ok ==> State() == Apply(old(State()), Then).value
    {
      if cfPtr < 0 {
        return false;
      }
      var x := cfStack[cfPtr];
      cfPtr := cfPtr - 1;
      if x < 0 || x >= |code| || !code[x].IsJump() || code[x].disp != UNRESOLVED {
        return false;
      }
      code := code[x := WithDisp(code[x], |code| - x - 1)];
      jumpToLast := true;
      ok := true;
    }

    method AddBegin()
      requires Shaped(State())
      modifies this`cfPtr, this`cfStack, cfStack
      ensures State() == Apply(old(State()), Begin).value && (cfStack == old(cfStack) || fresh(cfStack))
    {
      CSPush(-|code| - 1);
    }

    method AddAgain(op: Opcode) returns (ok: bool)
      requires Shaped(State()) && op.IsJump()
      modifies this`cfPtr, this`code, this`jumpToLast
      ensures ok == Apply(old(State()), Again(op)).Some?
      ensures ok ==> State() == Apply(old(State()), Again(op)).value
    {
      if cfPtr < 0 {
        return false;
      }
      var x := cfStack[cfPtr];
      cfPtr := cfPtr - 1;
      if x >= 0 {
        return false;
      }
      AddOp(WithDisp(op, (-x - 1) - |code| - 1));
      ok := true;
    }

    method Use(name: string, write: bool) returns (ok: bool)
      modifies this`code, this`jumpToLast
      ensures ok == UseLocal(old(State()), name, write).Some?
      ensures State() == if ok then UseLocal(old(State()), name, write).value else old(State())
    {
      ok := name in locals;
      if ok {
        AddOp(if write then PutLocal(locals[name]) else GetLocal(locals[name]));
      }
    }

    /** Any builder call: it succeeds when the one on values does, with the same effect, and keeps the
        invariant. */
    method Do(call: BCall) returns (ok: bool)
      requires Valid()
      modifies this, cfStack
      ensures ok == Apply(old(State()), call).Some?
      ensures ok ==> Valid() && State() == Apply(old(State()), call).value
      ensures cfStack == old(cfStack) || fresh(cfStack)
    {
      ghost var st := State();
      assert Shaped(st);
      hide Inv;
      ok := true;
      match call {
        case CSRoll(d) => ok := CSRollTo(d);
        case CSPick(d) => ok := CSPickFrom(d);
        case Literal(v) => AddOp(Const(v));
        case CallNamed(target) =>
          var write := target != [] && target[0] == '>';
          var found := Use(if write then target[1..] else target, write);
          if !found {
            AddOp(CallByName(target));
          }
        case CallWord(w) => AddOp(Call(w));
        case CallExt(name) => AddOp(CallByName(name));
        case ReadLocal(name) => ok := Use(name, false);
        case WriteLocal(name) => ok := Use(name, true);
        case DefLocal(name) =>
          ok := name !in locals;
          if ok {
            locals := locals[name := |locals|];
          }
        case AddRet => AddOp(Ret);
        case Ahead(op) =>
          ok := op.IsJump();
          if ok {
            AddAhead(op);
          }
        case Then => ok := ResolveThen();
        case Begin => AddBegin();
        case Again(op) =>
          ok := op.IsJump();
          if ok {
            ok := AddAgain(op);
          }
      }
      if ok {
        ApplyInv(st, call);
      }
    }

    /** Build, which appends a `ret` where execution could reach the end. */
    method Build(name: string, effect: SType) returns (w: Option<Word>)
      requires Valid()
      modifies this`code, this`jumpToLast
      ensures w.Some? == Finished(old(State())).Some?
      ensures w.Some? ==>
                && w.value == Word(name, Interpreted(|locals|, Finished(old(State())).value), effect)
                && Closed(w.value.body.code, w.value.body.numLocals)
    {
      ghost var st := State();
      if cfPtr != -1 {
        return None;
      }
      if jumpToLast || code[|code| - 1].MayFallThrough() {
        AddOp(Ret);
      }
      FinishedClosed(st);
      w := Some(Word(name, Interpreted(|locals|, code), effect));
    }
  }
}
