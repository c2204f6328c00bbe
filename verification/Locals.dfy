/** Locals that are written before they are read: a condition on the code of the live words that a caller can check,
    and under which no run reads an unwritten local. */
module Locals {
  import opened Ints
  import opened Opcodes
  import opened Machine
  import opened Simulation

  /** For each opcode of a word, locals that are written whenever control gets there. */
  type Annotation = seq<set<nat>>

  function After(op: Opcode, before: set<nat>): set<nat> {
    if op.PutLocal? then before + {op.num} else before
  }

  /** Opcode i reads written locals only, and the annotation agrees with its successors. */
  predicate WrittenAt(code: seq<Opcode>, d: Annotation, i: nat)
    requires i < |code| == |d|
  {
    var op, after := code[i], After(code[i], d[i]);
    && (op.GetLocal? ==> op.num in d[i])
    && (op.MayFallThrough() && i + 1 < |d| ==> d[i + 1] <= after)
    && (op.IsJump() && 0 <= i + 1 + op.disp < |d| ==> d[i + 1 + op.disp] <= after)
  }

  predicate WrittenFirst(code: seq<Opcode>, d: Annotation) {
    |d| == |code| && (code != [] ==> d[0] == {}) && forall i :: 0 <= i < |code| ==> WrittenAt(code, d, i)
  }

  /** Every live word has such an annotation. */
  predicate AllWrittenFirst(p: Program, live: set<nat>, ds: seq<Annotation>) {
    |ds| == |p| && forall w :: w in live && w < |p| && p[w].body.Interpreted? ==> WrittenFirst(p[w].body.code, ds[w])
  }

  /** The locals that the annotation names at the next opcode of an activation are written. */
  predicate ActWritten(p: Program, live: set<nat>, ds: seq<Annotation>, a: Act) {
    && a.word in live && a.word < |p| == |ds| && p[a.word].body.Interpreted? && |ds[a.word]| == |p[a.word].body.code|
    && (0 <= a.off < |ds[a.word]| ==> AllWritten(a.locals, ds[a.word][a.off]))
  }

  predicate AllWritten(locals: seq<Option<int32>>, names: set<nat>) {
    forall k :: k in names ==> k < |locals| && locals[k].Some?
  }

  predicate StateWritten(p: Program, live: set<nat>, ds: seq<Annotation>, s: State) {
    s.Running? ==> forall a :: a in s.acts ==> ActWritten(p, live, ds, a)
  }

  lemma ActsWritten(p: Program, live: set<nat>, ds: seq<Annotation>, rest: seq<Act>, a: Act, stack: seq<int32>)
    requires (forall b :: b in rest ==> ActWritten(p, live, ds, b)) && ActWritten(p, live, ds, a)
    ensures StateWritten(p, live, ds, Running(rest + [a], stack))
  {
  }

  /** The current opcode leaves the activation at its successors as the annotation says. */
  lemma MoveWritten(p: Program, live: set<nat>, ds: seq<Annotation>, a: Act, a': Act, op: Opcode)
    requires AllWrittenFirst(p, live, ds) && ActWritten(p, live, ds, a) && HasOpcode(p, a) && op == CurrentOp(p, a)
    requires a'.word == a.word
    requires (op.MayFallThrough() && a'.off == a.off + 1) || (op.IsJump() && a'.off == a.off + 1 + op.disp)
    requires if op.PutLocal? then op.num < |a.locals| && exists v :: a'.locals == a.locals[op.num := Some(v)]
             else a'.locals == a.locals
    ensures ActWritten(p, live, ds, a')
  {
    assert WrittenAt(p[a.word].body.code, ds[a.word], a.off);
  }

  /** Every opcode keeps the annotation true of all activations. */
  lemma ExecWritten(p: Program, live: set<nat>, ds: seq<Annotation>, native: Natives, rest: seq<Act>, a: Act,
                    stack: seq<int32>)
    requires CallsLive(p, live) && AllWrittenFirst(p, live, ds) && HasOpcode(p, a) && ActWritten(p, live, ds, a)
    requires forall b :: b in rest ==> ActWritten(p, live, ds, b)
    ensures StateWritten(p, live, ds, Exec(p, native, rest, a.(off := a.off + 1), stack, CurrentOp(p, a)))
  {
    hide AllWrittenFirst, ActWritten, CallsLive;
    var op, next := CurrentOp(p, a), a.(off := a.off + 1);
    if op.MayFallThrough() && !op.PutLocal? {
      MoveWritten(p, live, ds, a, next, op);
    }
    if op.IsJump() {
      MoveWritten(p, live, ds, a, next.(off := next.off + op.disp), op);
    }
    match op
    case Call(v) =>
      if v < |p| && p[v].body.Interpreted? {
        EntryWritten(p, live, ds, a, v);
        ActsWritten(p, live, ds, rest, next, stack);
      }
    case PutLocal(k) =>
      if k < |a.locals| && stack != [] {
        var v := stack[|stack| - 1];
        MoveWritten(p, live, ds, a, next.(locals := a.locals[k := Some(v)]), op);
      }
    case _ =>
  }

  lemma EntryWritten(p: Program, live: set<nat>, ds: seq<Annotation>, a: Act, v: nat)
    requires CallsLive(p, live) && AllWrittenFirst(p, live, ds) && HasOpcode(p, a) && a.word in live
    requires CurrentOp(p, a) == Call(v) && v < |p| && p[v].body.Interpreted?
    ensures ActWritten(p, live, ds, EnterWord(v, p[v].body.numLocals))
  {
    assert v in live;
  }

  /** If every live word writes its locals before it reads them, no run of a live word reads an unwritten local. */
  lemma {:induction false} RunWritten(p: Program, live: set<nat>, ds: seq<Annotation>, native: Natives, w: nat,
                                      stack: seq<int32>, n: nat)
    requires CallsLive(p, live) && AllWrittenFirst(p, live, ds) && w in live && w < |p| && p[w].body.Interpreted?
    ensures StateWritten(p, live, ds, Run(p, native, Start(p, w, stack), n))
    ensures !ReadsUnwritten(p, Run(p, native, Start(p, w, stack), n))
    decreases n
  {
    var s0 := Start(p, w, stack);
    if n == 0 {
      assert ActWritten(p, live, ds, s0.acts[0]);
    } else {
      RunWritten(p, live, ds, native, w, stack, n - 1);
      StepWritten(p, live, ds, native, Run(p, native, s0, n - 1));
    }
    WrittenIsRead(p, live, ds, Run(p, native, s0, n));
  }

  lemma StepWritten(p: Program, live: set<nat>, ds: seq<Annotation>, native: Natives, s: State)
    requires CallsLive(p, live) && AllWrittenFirst(p, live, ds) && StateWritten(p, live, ds, s)
    ensures StateWritten(p, live, ds, Step(p, native, s))
  {
    hide AllWrittenFirst, CallsLive, Exec, ActWritten;
    if s.Running? && s.acts != [] {
      var rest, a := s.acts[..|s.acts| - 1], s.acts[|s.acts| - 1];
      assert s.acts == rest + [a];
      if HasOpcode(p, a) {
        ExecWritten(p, live, ds, native, rest, a, s.stack);
      }
    }
  }

  lemma WrittenIsRead(p: Program, live: set<nat>, ds: seq<Annotation>, s: State)
    requires AllWrittenFirst(p, live, ds) && StateWritten(p, live, ds, s)
    ensures !ReadsUnwritten(p, s)
  {
    if s.Running? && s.acts != [] {
      var a := s.acts[|s.acts| - 1];
      assert a in s.acts && ActWritten(p, live, ds, a);
      if HasOpcode(p, a) {
        assert WrittenAt(p[a.word].body.code, ds[a.word], a.off);
      }
    }
  }
}
