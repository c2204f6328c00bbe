/** What any sequence of builder calls means: jumps with targets in place of displacements, entries of the control-flow
    stack in place of their codes, and locals numbered in the order of their definitions. */
module Labels {
  import opened Ints
  import opened Opcodes
  import opened Builder

  // ----- The builder with labels -----

  /** A forward jump that waits for its target, or a place to jump back to. */
  datatype Entry = Origin(i: nat) | Place(t: nat)

  datatype Kind = Always | IfTrue | IfFalse

  /** A jump without a target is not resolved yet. */
  datatype Instr = Plain(op: Opcode) | Goto(kind: Kind, target: Option<nat>)

  datatype LState = LState(entries: seq<Entry>, instrs: seq<Instr>, names: seq<string>)

  const NEW_LABELS := LState([], [], [])

  function KindOf(op: Opcode): Option<Kind> {
    match op
    case Jump(_) => Some(Always)
    case JumpIf(_) => Some(IfTrue)
    case JumpIfNot(_) => Some(IfFalse)
    case _ => None
  }

  /** The number of a local: how many were defined before it. */
  function NumberOf(names: seq<string>, name: string): Option<nat> {
    if names == [] then None
    else if names[|names| - 1] == name then Some(|names| - 1)
    else NumberOf(names[..|names| - 1], name)
  }

  function Emit(ls: LState, op: Opcode): LState {
    ls.(instrs := ls.instrs + [Plain(op)])
  }

  function Access(ls: LState, name: string, write: bool): Option<LState> {
    match NumberOf(ls.names, name)
    case None => None
    case Some(k) => Some(Emit(ls, if write then PutLocal(k) else GetLocal(k)))
  }

  /** The entry that is d below the top. */
  function EntryAt(ls: LState, d: nat): Entry
    requires d < |ls.entries|
  {
    ls.entries[|ls.entries| - 1 - d]
  }

  function LApply(ls: LState, call: BCall): Option<LState> {
    var top := |ls.entries| - 1;
    match call
    case CSRoll(d) =>
      if 0 <= d <= top then
        Some(ls.(entries := ls.entries[..top - d] + ls.entries[top - d + 1..] + [EntryAt(ls, d)]))
      else None
    case CSPick(d) => if 0 <= d <= top then Some(ls.(entries := ls.entries + [EntryAt(ls, d)])) else None
    case Literal(v) => Some(Emit(ls, Const(v)))
    case CallNamed(target) =>
      var r := if target != [] && target[0] == '>' then Access(ls, target[1..], true) else Access(ls, target, false);
      if r.Some? then r else Some(Emit(ls, CallByName(target)))
    case CallWord(w) => Some(Emit(ls, Call(w)))
    case CallExt(name) => Some(Emit(ls, CallByName(name)))
    case ReadLocal(name) => Access(ls, name, false)
    case WriteLocal(name) => Access(ls, name, true)
    case DefLocal(name) => if name in ls.names then None else Some(ls.(names := ls.names + [name]))
    case AddRet => Some(Emit(ls, Ret))
    case Ahead(op) =>
      if KindOf(op).None? then None
      else
        Some(ls.(entries := ls.entries + [Origin(|ls.instrs|)],
                 instrs := ls.instrs + [Goto(KindOf(op).value, None)]))
    case Then =>
      if top < 0 || !ls.entries[top].Origin? then None
      else
        var i := ls.entries[top].i;
        if i >= |ls.instrs| || !ls.instrs[i].Goto? || ls.instrs[i].target.Some? then None
        else
          Some(ls.(entries := ls.entries[..top],
                   instrs := ls.instrs[i := ls.instrs[i].(target := Some(|ls.instrs|))]))
    case Begin => Some(ls.(entries := ls.entries + [Place(|ls.instrs|)]))
    case Again(op) =>
      if top < 0 || !ls.entries[top].Place? || KindOf(op).None? then None
      else
        Some(ls.(entries := ls.entries[..top],
                 instrs := ls.instrs + [Goto(KindOf(op).value, Some(ls.entries[top].t))]))
  }

  function LApplyAll(calls: seq<BCall>): Option<LState> {
    if calls == [] then Some(NEW_LABELS)
    else
      match LApplyAll(calls[..|calls| - 1])
      case None => None
      case Some(ls) => LApply(ls, calls[|calls| - 1])
  }

  // ----- What the builder stands for -----

  /** Instruction i of the code: a jump leads to its target. */
  predicate Means(op: Opcode, i: nat, a: Instr) {
    match a
    case Plain(b) => op == b && !op.IsJump()
    case Goto(kind, target) =>
      && KindOf(op) == Some(kind)
      && if target.Some? then i + 1 + op.disp == target.value else op.disp == UNRESOLVED
  }

  predicate MeansEntry(x: int, e: Entry) {
    match e
    case Origin(i) => x == i
    case Place(t) => x == -1 - t
  }

  /** Control may come to the end: nothing stands there yet, or a jump leads there. */
  predicate Reaches(ls: LState) {
    ls.instrs == [] || exists i :: 0 <= i < |ls.instrs| && LeadsTo(ls.instrs[i], |ls.instrs|)
  }

  predicate LeadsTo(a: Instr, t: nat) {
    a.Goto? && a.target == Some(t)
  }

  /** Targets are offsets of the code or its end. */
  predicate Inside(ls: LState) {
    && (forall i :: 0 <= i < |ls.instrs| && ls.instrs[i].Goto? && ls.instrs[i].target.Some? ==>
          ls.instrs[i].target.value <= |ls.instrs|)
    && forall k :: 0 <= k < |ls.entries| && ls.entries[k].Place? ==> ls.entries[k].t <= |ls.instrs|
  }

  /** Locals have the numbers of their definitions. */
  ghost predicate NamesFit(locals: map<string, nat>, names: seq<string>) {
    && |locals| == |names|
    && forall name :: (name in locals <==> NumberOf(names, name).Some?)
                      && (name in locals ==> NumberOf(names, name) == Some(locals[name]))
  }

  ghost predicate StandsFor(st: BState, ls: LState) {
    && Shaped(st) && |ls.entries| == st.cfPtr + 1 && |ls.instrs| == |st.code| && Inside(ls)
    && (forall k :: 0 <= k < |ls.entries| ==> MeansEntry(st.cfStack[k], ls.entries[k]))
    && (forall i :: 0 <= i < |st.code| ==> Means(st.code[i], i, ls.instrs[i]))
    && NamesFit(st.locals, ls.names) && (st.jumpToLast <==> Reaches(ls))
  }

  lemma {:induction false} NumberedIfDefined(names: seq<string>, name: string)
    ensures NumberOf(names, name).Some? <==> name in names
  {
    if names != [] {
      NumberedIfDefined(names[..|names| - 1], name);
      assert names == names[..|names| - 1] + [names[|names| - 1]];
    }
  }

  // ----- Each call -----

  /** The depths of picks are not negative. (With a negative one cs-pick reads above the top.) */
  predicate Sound(call: BCall) {
    call.CSPick? ==> call.depth >= 0
  }

  /** The builder and its meaning go on together. */
  ghost predicate Together(r: Option<BState>, s: Option<LState>) {
    (r.Some? <==> s.Some?) && (r.Some? ==> StandsFor(r.value, s.value))
  }

  lemma EmitFits(st: BState, ls: LState, op: Opcode)
    requires StandsFor(st, ls) && !op.IsJump()
    ensures StandsFor(Add(st, op), Emit(ls, op))
  {
    var next := Emit(ls, op);
    forall i | 0 <= i < |next.instrs|
      ensures !LeadsTo(next.instrs[i], |next.instrs|)
    {
    }
    hide NumberOf;
  }

  lemma AccessFits(st: BState, ls: LState, name: string, write: bool)
    requires StandsFor(st, ls)
    ensures Together(UseLocal(st, name, write), Access(ls, name, write))
  {
    if name in st.locals {
      EmitFits(st, ls, if write then PutLocal(st.locals[name]) else GetLocal(st.locals[name]));
    }
    hide StandsFor, NumberOf;
  }

  lemma NamesNext(locals: map<string, nat>, names: seq<string>, name: string)
    requires NamesFit(locals, names) && name !in names
    ensures NamesFit(locals[name := |locals|], names + [name])
  {
    NumberedIfDefined(names, name);
    var next := names + [name];
    assert next[..|next| - 1] == names;
  }

  lemma DefineFits(st: BState, ls: LState, name: string)
    requires StandsFor(st, ls)
    ensures Together(Apply(st, DefLocal(name)), LApply(ls, DefLocal(name)))
  {
    NumberedIfDefined(ls.names, name);
    assert name in st.locals <==> name in ls.names;
    if name !in ls.names {
      NamesNext(st.locals, ls.names, name);
      hide NamesFit, Means, NumberOf;
      var next := ls.(names := ls.names + [name]);
      assert Reaches(next) <==> Reaches(ls);
    }
    hide Reaches;
  }

  lemma PushFits(st: BState, ls: LState, x: int, e: Entry)
    requires StandsFor(st, ls) && MeansEntry(x, e) && (e.Place? ==> e.t <= |ls.instrs|)
    ensures StandsFor(Push(st, x), ls.(entries := ls.entries + [e]))
  {
    hide NamesFit, Means;
    var next := ls.(entries := ls.entries + [e]);
    assert Reaches(next) <==> Reaches(ls);
    hide Reaches;
  }

  lemma AheadFits(st: BState, ls: LState, op: Opcode)
    requires StandsFor(st, ls) && op.IsJump()
    ensures Together(Apply(st, Ahead(op)), LApply(ls, Ahead(op)))
  {
    var pushed := ls.(entries := ls.entries + [Origin(|ls.instrs|)]);
    PushFits(st, ls, |st.code|, Origin(|ls.instrs|));
    GotoFits(Push(st, |st.code|), pushed, WithDisp(op, UNRESOLVED), None);
    hide StandsFor;
  }

  /** A jump is appended. */
  lemma GotoFits(st: BState, ls: LState, op: Opcode, target: Option<nat>)
    requires StandsFor(st, ls) && op.IsJump() && (target.Some? ==> target.value <= |ls.instrs|)
    requires op.disp == if target.Some? then target.value - |st.code| - 1 else UNRESOLVED
    ensures StandsFor(Add(st, op), ls.(instrs := ls.instrs + [Goto(KindOf(op).value, target)]))
  {
    var next := ls.(instrs := ls.instrs + [Goto(KindOf(op).value, target)]);
    forall i | 0 <= i < |next.instrs|
      ensures !LeadsTo(next.instrs[i], |next.instrs|)
    {
    }
    hide NumberOf;
  }

  /** An entry is popped. */
  lemma PopFits(st: BState, ls: LState)
    requires StandsFor(st, ls) && st.cfPtr >= 0
    ensures StandsFor(st.(cfPtr := st.cfPtr - 1), ls.(entries := ls.entries[..|ls.entries| - 1]))
  {
    hide NamesFit, Means;
    var next := ls.(entries := ls.entries[..|ls.entries| - 1]);
    assert Reaches(next) <==> Reaches(ls);
    hide Reaches;
  }

  lemma TopFits(st: BState, ls: LState)
    requires StandsFor(st, ls) && st.cfPtr >= 0
    ensures MeansEntry(st.cfStack[st.cfPtr], ls.entries[|ls.entries| - 1]) && |ls.entries| == st.cfPtr + 1
  {
  }

  lemma AgainFits(st: BState, ls: LState, op: Opcode)
    requires StandsFor(st, ls)
    ensures Together(Apply(st, Again(op)), LApply(ls, Again(op)))
  {
    hide NumberOf, Means, Reaches;
    if st.cfPtr >= 0 && op.IsJump() {
      TopFits(st, ls);
      PopFits(st, ls);
      var e := ls.entries[|ls.entries| - 1];
      if e.Place? {
        var popped := ls.(entries := ls.entries[..|ls.entries| - 1]);
        GotoFits(st.(cfPtr := st.cfPtr - 1), popped, WithDisp(op, e.t - |st.code| - 1), Some(e.t));
      }
    }
    hide StandsFor;
  }

  lemma ThenFits(st: BState, ls: LState)
    requires StandsFor(st, ls) && |st.code| < 0x8000_0000
    ensures Together(Apply(st, Then), LApply(ls, Then))
  {
    if st.cfPtr >= 0 {
      TopFits(st, ls);
      PopFits(st, ls);
      var e := ls.entries[|ls.entries| - 1];
      if e.Origin? && e.i < |ls.instrs| {
        assert Means(st.code[e.i], e.i, ls.instrs[e.i]);
        if ls.instrs[e.i].Goto? && ls.instrs[e.i].target.None? {
          var popped := ls.(entries := ls.entries[..|ls.entries| - 1]);
          ResolveFits(st.(cfPtr := st.cfPtr - 1), popped, e.i);
        }
      }
    }
    hide NumberOf, Reaches, Inside;
  }

  lemma ResolveFits(st: BState, ls: LState, i: nat)
    requires StandsFor(st, ls) && i < |ls.instrs| && ls.instrs[i].Goto? && ls.instrs[i].target.None?
    ensures st.code[i].IsJump()
    ensures StandsFor(st.(jumpToLast := true, code := st.code[i := WithDisp(st.code[i], |st.code| - i - 1)]),
                      ls.(instrs := ls.instrs[i := ls.instrs[i].(target := Some(|ls.instrs|))]))
  {
    hide NamesFit;
    assert Means(st.code[i], i, ls.instrs[i]);
    var next := ls.(instrs := ls.instrs[i := ls.instrs[i].(target := Some(|ls.instrs|))]);
    assert LeadsTo(next.instrs[i], |next.instrs|);
  }

  /** The entries of a rolled stack. */
  lemma RolledEntries(buf: seq<int>, entries: seq<Entry>, d: nat)
    requires d < |entries| <= |buf| && forall k :: 0 <= k < |entries| ==> MeansEntry(buf[k], entries[k])
    ensures var top := |entries| - 1;
            var next := entries[..top - d] + entries[top - d + 1..] + [entries[top - d]];
            && |next| == |entries| && |Rolled(buf, top, d)| == |buf|
            && forall k :: 0 <= k < |next| ==> MeansEntry(Rolled(buf, top, d)[k], next[k]) && next[k] in entries
  {
    var top := |entries| - 1;
    RolledParts(buf, top, d);
    hide Rolled, MeansEntry;
    var next := entries[..top - d] + entries[top - d + 1..] + [entries[top - d]];
    forall k | 0 <= k < |next|
      ensures MeansEntry(Rolled(buf, top, d)[k], next[k]) && next[k] in entries
    {
      var from := if k < top - d then k else if k < top then k + 1 else top - d;
      assert next[k] == entries[from] && MeansEntry(buf[from], entries[from]);
    }
  }

  lemma RollFits(st: BState, ls: LState, d: int)
    requires StandsFor(st, ls)
    ensures Together(Apply(st, CSRoll(d)), LApply(ls, CSRoll(d)))
  {
    if 0 <= d <= st.cfPtr {
      RolledEntries(st.cfStack, ls.entries, d);
      hide Rolled, NamesFit, Means, MeansEntry;
      var next := LApply(ls, CSRoll(d)).value;
      assert Reaches(next) <==> Reaches(ls);
      hide Reaches;
    }
  }

  lemma PickFits(st: BState, ls: LState, d: nat)
    requires StandsFor(st, ls)
    ensures Together(Apply(st, CSPick(d)), LApply(ls, CSPick(d)))
  {
    if d <= st.cfPtr {
      PushFits(st, ls, st.cfStack[st.cfPtr - d], EntryAt(ls, d));
    }
    hide NumberOf, Means, Reaches;
  }

  /** Every call: the builder throws exactly if the call has no meaning, and stays in step with it. */
  lemma ApplyFits(st: BState, ls: LState, call: BCall)
    requires StandsFor(st, ls) && Sound(call) && |st.code| < 0x8000_0000
    ensures Together(Apply(st, call), LApply(ls, call))
  {
    hide StandsFor;
    match call
    case CSRoll(d) => RollFits(st, ls, d);
    case CSPick(d) => PickFits(st, ls, d);
    case Literal(v) => EmitFits(st, ls, Const(v));
    case CallNamed(target) =>
      var write := target != [] && target[0] == '>';
      AccessFits(st, ls, if write then target[1..] else target, write);
      EmitFits(st, ls, CallByName(target));
    case CallWord(w) => EmitFits(st, ls, Call(w));
    case CallExt(name) => EmitFits(st, ls, CallByName(name));
    case ReadLocal(name) => AccessFits(st, ls, name, false);
    case WriteLocal(name) => AccessFits(st, ls, name, true);
    case DefLocal(name) => DefineFits(st, ls, name);
    case AddRet => EmitFits(st, ls, Ret);
    case Ahead(op) =>
      if op.IsJump() {
        AheadFits(st, ls, op);
      }
    case Then => ThenFits(st, ls);
    case Begin => BeginFits(st, ls);
    case Again(op) => AgainFits(st, ls, op);
  }

  lemma BeginFits(st: BState, ls: LState)
    requires StandsFor(st, ls)
    ensures Together(Apply(st, Begin), LApply(ls, Begin))
  {
    PushFits(st, ls, -|st.code| - 1, Place(|ls.instrs|));
    hide NumberOf, Means, Reaches;
  }

  // ----- Whole sequences -----

  /** Whatever the calls, up to the largest code that a list can hold: the builder accepts them exactly if they have a
      meaning, and then stands for it. */
  lemma {:induction false} BuilderMeans(calls: seq<BCall>)
    requires |calls| < 0x8000_0000 && forall i :: 0 <= i < |calls| ==> Sound(calls[i])
    ensures Together(ApplyAll(calls), LApplyAll(calls))
    ensures ApplyAll(calls).Some? ==> |ApplyAll(calls).value.code| <= |calls|
    decreases |calls|
  {
    if calls == [] {
      assert StandsFor(NEW_BUILDER, NEW_LABELS);
    } else {
      hide StandsFor, LApply, Sound, Apply;
      var rest, last := calls[..|calls| - 1], calls[|calls| - 1];
      BuilderMeans(rest);
      if ApplyAll(rest).Some? {
        ApplyFits(ApplyAll(rest).value, LApplyAll(rest).value, last);
        if ApplyAll(calls).Some? {
          CodeGrows(ApplyAll(rest).value, last);
        }
      }
    }
  }

  lemma CodeGrows(st: BState, call: BCall)
    requires Shaped(st) && Apply(st, call).Some?
    ensures |Apply(st, call).value.code| <= |st.code| + 1
  {
  }

  /** The finished word: a `ret` is appended exactly if control may come to the end of the code, by falling through or
      by a jump. */
  lemma FinishedMeans(st: BState, ls: LState)
    requires StandsFor(st, ls)
    ensures ls.entries != [] <==> Finished(st).None?
    ensures ls.entries == [] ==>
              Finished(st) == Some(st.code + if Reaches(ls) || st.code[|st.code| - 1].MayFallThrough() then [Ret] else [])
  {
    hide NumberOf, Means, Inside;
    assert st.code + [] == st.code;
  }
}
