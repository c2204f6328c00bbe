/** Soundness of the flow analysis over all runs of the machine: depths, effects and bounds. */
module FlowSound {
  import opened Ints
  import opened Opcodes
  import opened Machine
  import F = Flow
  import opened FlowCert

  // ----- Assumptions -----

  // All of them concern a set `live` of words that is closed under calls: what a program defines besides, such as
  // `roll` with its approximate effect, does not matter to the words that do not reach it.

  /** A native word entered with its inputs on the stack either does not return, or exits with its
      declared effect; it does not touch what lies below its inputs. */
  ghost predicate RespectsEffects(p: Program, live: set<nat>, native: Natives) {
    forall w: nat, s ::
      w in live && w < |p| && p[w].body.Native? && p[w].effect.IsKnown() && p[w].effect.din <= |s| ==>
        Respects(p[w].effect, s, native(w, s))
  }

  predicate Respects(se: SType, s: seq<int32>, r: Option<seq<int32>>)
    requires 0 <= se.din <= |s|
  {
    r.Some? ==>
      && !se.NoExit() && |r.value| == |s| - se.din + se.dout
      && s[..|s| - se.din] <= r.value
  }

  /** Data words have the effect of their constructor, and local numbers are allocated. */
  predicate WordsFormed(p: Program, live: set<nat>) {
    && (forall w :: w in live && w < |p| && p[w].body.Data? ==> p[w].effect == SType(0, 1))
    && (forall w, i :: w in live && w < |p| && p[w].body.Interpreted? && 0 <= i < |p[w].body.code| ==>
          var op := p[w].body.code[i];
          op.GetLocal? || op.PutLocal? ==> op.num < p[w].body.numLocals)
  }

  predicate Given(p: Program, live: set<nat>, infos: F.Infos) {
    AllCertified(p, infos) && CallsLive(p, live) && WordsFormed(p, live)
  }

  // ----- Grants: bounds for both stacks -----

  /** For each word, how many data slots above its entry depth and how many return slots it is granted. */
  datatype Grant = Grant(data: seq<int>, slots: seq<int>)

  predicate Fits(p: Program, infos: F.Infos, g: Grant) {
    |p| == |infos| == |g.data| == |g.slots|
  }

  /** The grant of word w covers its opcode i, met at action c: the depth that it leaves, and what a callee is granted.
      The bytecode of a data word takes one return slot. */
  predicate CoversAt(p: Program, infos: F.Infos, g: Grant, w: nat, i: nat, c: int)
    requires Fits(p, infos, g) && w < |p| && p[w].body.Interpreted? && i < |p[w].body.code|
  {
    var frame := 1 + p[w].body.numLocals;
    && 0 <= g.data[w] && frame <= g.slots[w]
    && match p[w].body.code[i]
       case Call(v) =>
         v < |p| ==>
           if p[v].body.Interpreted? then c + g.data[v] <= g.data[w] && frame + g.slots[v] <= g.slots[w]
           else
             var se := infos[v].effect;
             && (if se.NoExit() then c else c + se.dout - se.din) <= g.data[w]
             && (p[v].body.Data? ==> frame + 1 <= g.slots[w])
       case Ret => true
       case op => c + op.StackAction() <= g.data[w]
  }

  /** The word w is live and was accepted, and the analysis reached its opcode i, at action c. */
  predicate Reached(p: Program, live: set<nat>, infos: F.Infos, w: nat, i: nat, c: int) {
    && w in live && w < |p| == |infos| && p[w].body.Interpreted? && infos[w].status.Analysed?
    && i < |p[w].body.code| == |infos[w].scan.sa| && infos[w].scan.sa[i] == Some(c)
  }

  ghost predicate Covers(p: Program, live: set<nat>, infos: F.Infos, g: Grant) {
    && Fits(p, infos, g)
    && forall w: nat, i: nat, c: int :: Reached(p, live, infos, w, i, c) ==> CoversAt(p, infos, g, w, i, c)
  }

  ghost predicate Granted(p: Program, live: set<nat>, infos: F.Infos, g: Grant) {
    Given(p, live, infos) && Covers(p, live, infos, g)
  }

  // ----- The invariant of a run -----

  /** A is an activation of an accepted word, entered at depth e, deep enough for its effect. */
  predicate Entered(p: Program, live: set<nat>, infos: F.Infos, a: Act, e: int) {
    && a.word in live && a.word < |p| == |infos| && p[a.word].body.Interpreted? && infos[a.word].status.Analysed?
    && |infos[a.word].scan.sa| == |p[a.word].body.code|
    && |a.locals| == p[a.word].body.numLocals && infos[a.word].effect.din <= e
  }

  /** The stack action that the analysis found at opcode i of the word of a. */
  function ActionAt(p: Program, infos: F.Infos, a: Act, i: int): Option<int> {
    if a.word < |infos| && 0 <= i < |infos[a.word].scan.sa| then infos[a.word].scan.sa[i] else None
  }

  predicate CallsAt(p: Program, a: Act, i: int, v: nat) {
    a.word < |p| && p[a.word].body.Interpreted? && 0 <= i < |p[a.word].body.code| && p[a.word].body.code[i] == Call(v)
  }

  /** The last activation was entered at depth e: each activation was called by the opcode before the
      offset of the one below, at that one's entry depth plus the action found there. The first one is
      of word w0 and was entered at depth d0. */
  ghost predicate Chain(p: Program, live: set<nat>, infos: F.Infos, acts: seq<Act>, e: int, w0: nat, d0: int)
    decreases |acts|
  {
    && acts != [] && Entered(p, live, infos, acts[|acts| - 1], e)
    && if |acts| == 1 then e == d0 && acts[0].word == w0
       else
         var rest, b := acts[..|acts| - 1], acts[|acts| - 2];
         var c := ActionAt(p, infos, b, b.off - 1);
         && CallsAt(p, b, b.off - 1, acts[|acts| - 1].word) && c.Some?
         && Chain(p, live, infos, rest, e - c.value, w0, d0)
  }

  /** The depth of the data stack is the entry depth plus the annotation of the current offset, within the grant;
      what lies below the inputs of the first word is untouched. */
  ghost predicate FlowInv(p: Program, live: set<nat>, infos: F.Infos, g: Grant, w0: nat, d0: int, base: seq<int32>,
                          s: State) {
    match s
    case Running(acts, stack) =>
      && acts != []
      && var a := acts[|acts| - 1];
         var c := ActionAt(p, infos, a, a.off);
         && c.Some? && Chain(p, live, infos, acts, |stack| - c.value, w0, d0)
         && a.word < |g.data| && c.value <= g.data[a.word] && base <= stack
    case Done(stack) =>
      && w0 < |infos| && infos[w0].effect.IsKnown() && !infos[w0].effect.NoExit()
      && |stack| == d0 + infos[w0].effect.dout - infos[w0].effect.din
      && base <= stack
    case Aborted => true
    case Crashed => false
  }

  /** The inputs of the first word end where base ends. */
  predicate BaseFits(infos: F.Infos, w0: nat, d0: int, base: seq<int32>) {
    w0 < |infos| && |base| == d0 - infos[w0].effect.din
  }

  // ----- Facts about certified words -----

  /** The certificate at one explored offset. */
  lemma {:induction false} CertAt(p: Program, live: set<nat>, infos: F.Infos, a: Act, e: int, i: int)
    requires AllCertified(p, infos) && Entered(p, live, infos, a, e) && ActionAt(p, infos, a, i).Some?
    ensures 0 <= i < |p[a.word].body.code|
    ensures LocalOk(p, infos, p[a.word].body.code, infos[a.word].scan, i)
    ensures var st := infos[a.word].scan;
            && Bounds(st) && st.mds == infos[a.word].maxData
            && infos[a.word].maxReturn == 1 + p[a.word].body.numLocals + st.mrs
            && F.Computed(st).IsSubOf(infos[a.word].effect)
            && -st.maxDepth <= infos[a.word].effect.din
  {
    assert Certified(p, infos, a.word);
  }

  /** A `ret` that the analysis reached leaves the depth that the effect announces. */
  lemma {:induction false} ExitIsEffect(p: Program, live: set<nat>, infos: F.Infos, a: Act, e: int, i: int)
    requires AllCertified(p, infos) && Entered(p, live, infos, a, e) && ActionAt(p, infos, a, i).Some?
    requires p[a.word].body.code[i].Ret?
    ensures var se := infos[a.word].effect;
            se.IsKnown() && !se.NoExit() && ActionAt(p, infos, a, i).value == se.dout - se.din
  {
    CertAt(p, live, infos, a, e, i);
  }

  lemma {:induction false} ChainTop(p: Program, live: set<nat>, infos: F.Infos, rest: seq<Act>, a: Act, e: int,
                                    w0: nat, d0: int)
    ensures Chain(p, live, infos, rest + [a], e, w0, d0) <==>
            && Entered(p, live, infos, a, e)
            && if rest == [] then e == d0 && a.word == w0
               else
                 var b := rest[|rest| - 1];
                 var c := ActionAt(p, infos, b, b.off - 1);
                 CallsAt(p, b, b.off - 1, a.word) && c.Some? && Chain(p, live, infos, rest, e - c.value, w0, d0)
  {
    assert (rest + [a])[..|rest|] == rest;
  }

  /** Every activation was entered with the inputs of its word above the base. */
  lemma {:induction false} ChainBase(p: Program, live: set<nat>, infos: F.Infos, acts: seq<Act>, e: int, w0: nat,
                                     d0: int)
    requires AllCertified(p, infos) && CallsLive(p, live) && acts != [] && Chain(p, live, infos, acts, e, w0, d0)
    ensures w0 < |infos|
    ensures d0 - infos[w0].effect.din <= e - infos[acts[|acts| - 1].word].effect.din
    decreases |acts|
  {
    hide Chain, AllCertified, ActionAt, CallsAt, CallsLive;
    var rest, a := acts[..|acts| - 1], acts[|acts| - 1];
    assert acts == rest + [a];
    ChainTop(p, live, infos, rest, a, e, w0, d0);
    if rest != [] {
      var r, b := rest[..|rest| - 1], rest[|rest| - 1];
      var c := ActionAt(p, infos, b, b.off - 1);
      assert rest == r + [b];
      ChainBase(p, live, infos, rest, e - c.value, w0, d0);
      ChainTop(p, live, infos, r, b, e - c.value, w0, d0);
      AfterCall(p, live, infos, b, e - c.value, b.off - 1, a.word);
    }
  }

  // ----- One step -----

  /** The top activation moves on within its word. */
  lemma {:induction false} StayIn(p: Program, live: set<nat>, infos: F.Infos, g: Grant, w0: nat, d0: int,
                                  base: seq<int32>, rest: seq<Act>, a: Act, a': Act, e: int, stack: seq<int32>)
    requires Chain(p, live, infos, rest + [a], e, w0, d0)
    requires a'.word == a.word && |a'.locals| == |a.locals|
    requires ActionAt(p, infos, a', a'.off) == Some(|stack| - e) && base <= stack
    requires a.word < |g.data| && |stack| - e <= g.data[a.word]
    ensures FlowInv(p, live, infos, g, w0, d0, base, Running(rest + [a'], stack))
  {
    ChainTop(p, live, infos, rest, a, e, w0, d0);
    ChainTop(p, live, infos, rest, a', e, w0, d0);
  }

  /** The lowest depth that the opcode of the top activation may reach is above base. */
  lemma {:induction false} AboveBase(p: Program, live: set<nat>, infos: F.Infos, w0: nat, d0: int, base: seq<int32>,
                                     rest: seq<Act>, a: Act, e: int, i: int)
    requires AllCertified(p, infos) && CallsLive(p, live)
    requires Chain(p, live, infos, rest + [a], e, w0, d0) && BaseFits(infos, w0, d0, base)
    requires ActionAt(p, infos, a, i).Some?
    ensures Entered(p, live, infos, a, e)
    ensures |base| <= e + infos[a.word].scan.maxDepth
  {
    ChainTop(p, live, infos, rest, a, e, w0, d0);
    ChainBase(p, live, infos, rest + [a], e, w0, d0);
    CertAt(p, live, infos, a, e, i);
  }

  /** What the certificate says about an opcode that is neither a call nor `ret`. */
  lemma {:induction false} PlainFacts(p: Program, live: set<nat>, infos: F.Infos, g: Grant, w0: nat, d0: int,
                                      base: seq<int32>, rest: seq<Act>, a: Act, e: int, c: int)
    requires Granted(p, live, infos, g) && BaseFits(infos, w0, d0, base) && Chain(p, live, infos, rest + [a], e, w0, d0)
    requires ActionAt(p, infos, a, a.off) == Some(c) && HasOpcode(p, a)
    requires !CurrentOp(p, a).Ret? && !CurrentOp(p, a).Call?
    ensures var op := CurrentOp(p, a);
            var d := c + op.StackAction();
            && !op.CallByName? && a.word < |g.data| && d <= g.data[a.word] && |base| <= e + d
            && (op.GetLocal? || op.PutLocal? ==> op.num < |a.locals|)
            && (op.MayFallThrough() ==> ActionAt(p, infos, a, a.off + 1) == Some(d))
            && (op.IsJump() ==> ActionAt(p, infos, a, a.off + 1 + op.disp) == Some(d))
  {
    hide Chain, AllCertified, CallsLive, WordsFormed, BaseFits, Bounds, F.Computed, Covers;
    AboveBase(p, live, infos, w0, d0, base, rest, a, e, a.off);
    CertAt(p, live, infos, a, e, a.off);
    GivenLocals(p, live, infos, a.word, a.off);
    GrantAt(p, live, infos, g, a, e, a.off, c);
  }

  /** The grant of the word of an activation covers each explored opcode. */
  lemma {:induction false} GrantAt(p: Program, live: set<nat>, infos: F.Infos, g: Grant, a: Act, e: int, i: int, c: int)
    requires Covers(p, live, infos, g) && Entered(p, live, infos, a, e) && ActionAt(p, infos, a, i) == Some(c)
    ensures Fits(p, infos, g) && 0 <= i < |p[a.word].body.code| && CoversAt(p, infos, g, a.word, i, c)
  {
    assert Reached(p, live, infos, a.word, i, c);
  }

  lemma {:induction false} GivenLocals(p: Program, live: set<nat>, infos: F.Infos, w: nat, i: nat)
    requires Given(p, live, infos) && w in live && w < |p| && p[w].body.Interpreted? && i < |p[w].body.code|
    ensures var op := p[w].body.code[i];
            op.GetLocal? || op.PutLocal? ==> op.num < p[w].body.numLocals
  {
  }

  lemma {:induction false} SameWord(p: Program, infos: F.Infos, a: Act, a': Act, i: int)
    requires a'.word == a.word
    ensures ActionAt(p, infos, a', i) == ActionAt(p, infos, a, i)
  {
  }

  lemma {:induction false} StepPlain(p: Program, live: set<nat>, infos: F.Infos, g: Grant, native: Natives, w0: nat,
                                     d0: int, base: seq<int32>, rest: seq<Act>, a: Act, e: int, stack: seq<int32>,
                                     op: Opcode)
    requires Granted(p, live, infos, g) && BaseFits(infos, w0, d0, base)
    requires Chain(p, live, infos, rest + [a], e, w0, d0) && base <= stack
    requires ActionAt(p, infos, a, a.off) == Some(|stack| - e) && HasOpcode(p, a) && op == CurrentOp(p, a)
    requires !op.Ret? && !op.Call?
    ensures FlowInv(p, live, infos, g, w0, d0, base, Exec(p, native, rest, a.(off := a.off + 1), stack, op))
  {
    hide Granted, Chain, FlowInv, BaseFits, ActionAt;
    PlainFacts(p, live, infos, g, w0, d0, base, rest, a, e, |stack| - e);
    forall a': Act, i | a'.word == a.word
      ensures ActionAt(p, infos, a', i) == ActionAt(p, infos, a, i)
    {
      SameWord(p, infos, a, a', i);
    }
    var next := a.(off := a.off + 1);
    match op
    case Const(v) =>
      StayIn(p, live, infos, g, w0, d0, base, rest, a, next, e, stack + [v]);
    case GetLocal(k) =>
      StayIn(p, live, infos, g, w0, d0, base, rest, a, next, e, stack + [ReadLocal(a.locals[k])]);
    case PutLocal(k) =>
      StayIn(p, live, infos, g, w0, d0, base, rest, a, next.(locals := a.locals[k := Some(stack[|stack| - 1])]), e,
             stack[..|stack| - 1]);
    case Jump(d) =>
      StayIn(p, live, infos, g, w0, d0, base, rest, a, next.(off := next.off + d), e, stack);
    case JumpIf(d) =>
      StayIn(p, live, infos, g, w0, d0, base, rest, a, next, e, stack[..|stack| - 1]);
      StayIn(p, live, infos, g, w0, d0, base, rest, a, next.(off := next.off + d), e, stack[..|stack| - 1]);
    case JumpIfNot(d) =>
      StayIn(p, live, infos, g, w0, d0, base, rest, a, next, e, stack[..|stack| - 1]);
      StayIn(p, live, infos, g, w0, d0, base, rest, a, next.(off := next.off + d), e, stack[..|stack| - 1]);
    case CallByName(_) =>
  }

  /** Returning: the caller is where the analysis expected it after the call. */
  lemma {:induction false} StepRet(p: Program, live: set<nat>, infos: F.Infos, g: Grant, w0: nat, d0: int,
                                   base: seq<int32>, rest: seq<Act>, a: Act, e: int, stack: seq<int32>)
    requires Granted(p, live, infos, g) && BaseFits(infos, w0, d0, base)
    requires Chain(p, live, infos, rest + [a], e, w0, d0) && base <= stack
    requires ActionAt(p, infos, a, a.off) == Some(|stack| - e) && HasOpcode(p, a) && CurrentOp(p, a).Ret?
    requires a.word < |g.data| && |stack| - e <= g.data[a.word]
    ensures FlowInv(p, live, infos, g, w0, d0, base, if rest == [] then Done(stack) else Running(rest, stack))
  {
    hide Chain, AllCertified, CallsLive, LocalOk, Bounds, Covers, CoversAt, WordsFormed;
    ChainTop(p, live, infos, rest, a, e, w0, d0);
    ExitIsEffect(p, live, infos, a, e, a.off);
    if rest != [] {
      var r, b := rest[..|rest| - 1], rest[|rest| - 1];
      assert rest == r + [b];
      var c := ActionAt(p, infos, b, b.off - 1).value;
      ChainTop(p, live, infos, r, b, e - c, w0, d0);
      AfterCall(p, live, infos, b, e - c, b.off - 1, a.word);
      GrantAt(p, live, infos, g, b, e - c, b.off - 1, c);
      CallCovered(p, infos, g, b.word, b.off - 1, c, a.word);
    }
  }

  /** What the certificate of the caller says about a call. */
  lemma {:induction false} AfterCall(p: Program, live: set<nat>, infos: F.Infos, b: Act, e: int, i: int, v: nat)
    requires AllCertified(p, infos) && CallsLive(p, live) && Entered(p, live, infos, b, e)
    requires ActionAt(p, infos, b, i).Some? && CallsAt(p, b, i, v)
    ensures Settled(p, infos, v) && v in live
    ensures var c, se := ActionAt(p, infos, b, i).value, infos[v].effect;
            && -infos[b.word].effect.din <= infos[b.word].scan.maxDepth <= c - se.din
            && (!se.NoExit() ==> ActionAt(p, infos, b, i + 1) == Some(c + se.dout - se.din))
  {
    CertAt(p, live, infos, b, e, i);
  }

  /** Calling: the callee is entered with its inputs on the stack. */
  lemma {:induction false} StepCall(p: Program, live: set<nat>, infos: F.Infos, g: Grant, native: Natives, w0: nat,
                                    d0: int, base: seq<int32>, rest: seq<Act>, a: Act, e: int, stack: seq<int32>,
                                    v: nat)
    requires Granted(p, live, infos, g) && BaseFits(infos, w0, d0, base) && RespectsEffects(p, live, native)
    requires Chain(p, live, infos, rest + [a], e, w0, d0) && base <= stack
    requires ActionAt(p, infos, a, a.off) == Some(|stack| - e) && HasOpcode(p, a) && CurrentOp(p, a) == Call(v)
    ensures v < |p|
    ensures FlowInv(p, live, infos, g, w0, d0, base, RunWord(p, native, v, rest + [a.(off := a.off + 1)], stack))
  {
    hide Chain, AllCertified, CallsLive, RespectsEffects, WordsFormed, FlowInv, Covers;
    AboveBase(p, live, infos, w0, d0, base, rest, a, e, a.off);
    AfterCall(p, live, infos, a, e, a.off, v);
    GrantAt(p, live, infos, g, a, e, a.off, |stack| - e);
    ChainTop(p, live, infos, rest, a, e, w0, d0);
    var next, acts := a.(off := a.off + 1), rest + [a.(off := a.off + 1)];
    SameWord(p, infos, a, next, a.off);
    SameWord(p, infos, a, next, a.off + 1);
    ChainTop(p, live, infos, rest, next, e, w0, d0);
    match p[v].body
    case Interpreted(n, code) =>
      assert acts[|acts| - 1] == next;
      CalleeGrant(p, live, infos, g, v);
      EnterCallee(p, live, infos, g, w0, d0, base, acts, v, stack);
    case Data(address) =>
      OpcodelessEffect(p, live, infos, v);
      StayIn(p, live, infos, g, w0, d0, base, rest, a, next, e, stack + [address]);
    case Native =>
      OpcodelessEffect(p, live, infos, v);
      NativeResult(p, live, infos, native, v, stack, base);
      var r := native(v, stack);
      if r.Some? {
        StayIn(p, live, infos, g, w0, d0, base, rest, a, next, e, r.value);
      } else {
        assert FlowInv(p, live, infos, g, w0, d0, base, Aborted) by { AbortedInv(p, live, infos, g, w0, d0, base); }
      }
  }

  lemma {:induction false} AbortedInv(p: Program, live: set<nat>, infos: F.Infos, g: Grant, w0: nat, d0: int,
                                      base: seq<int32>)
    ensures FlowInv(p, live, infos, g, w0, d0, base, Aborted)
  {
  }

  lemma {:induction false} NativeResult(p: Program, live: set<nat>, infos: F.Infos, native: Natives, v: nat,
                                        stack: seq<int32>, base: seq<int32>)
    requires AllCertified(p, infos) && RespectsEffects(p, live, native) && Settled(p, infos, v) && v in live && p[v].body.Native?
    requires base <= stack && |base| + infos[v].effect.din <= |stack|
    ensures var r := native(v, stack);
            r.Some? ==> !infos[v].effect.NoExit() && base <= r.value
                        && |r.value| == |stack| - infos[v].effect.din + infos[v].effect.dout
  {
    var se, r := infos[v].effect, native(v, stack);
    assert se == p[v].effect && Respects(se, stack, r);
    if r.Some? {
      assert base <= stack[..|stack| - se.din];
    }
  }

  lemma {:induction false} OpcodelessEffect(p: Program, live: set<nat>, infos: F.Infos, v: nat)
    requires Given(p, live, infos) && Settled(p, infos, v) && v in live && !p[v].body.Interpreted?
    ensures infos[v].effect == p[v].effect
    ensures p[v].body.Data? ==> p[v].effect == SType(0, 1)
  {
  }

  lemma {:induction false} EnterCallee(p: Program, live: set<nat>, infos: F.Infos, g: Grant, w0: nat, d0: int,
                                       base: seq<int32>, acts: seq<Act>, v: nat, stack: seq<int32>)
    requires Granted(p, live, infos, g) && Settled(p, infos, v) && v in live && p[v].body.Interpreted? && acts != [] && base <= stack
    requires var b := acts[|acts| - 1];
             var c := ActionAt(p, infos, b, b.off - 1);
             CallsAt(p, b, b.off - 1, v) && c.Some? && Chain(p, live, infos, acts, |stack| - c.value, w0, d0)
    requires infos[v].effect.din <= |stack| && v < |g.data| && 0 <= g.data[v]
    ensures FlowInv(p, live, infos, g, w0, d0, base, Running(acts + [EnterWord(v, p[v].body.numLocals)], stack))
  {
    hide Granted, Chain, CallsAt;
    var callee := EnterWord(v, p[v].body.numLocals);
    EntryAction(p, live, infos, g, v);
    ChainTop(p, live, infos, acts, callee, |stack|, w0, d0);
  }

  lemma {:induction false} CalleeGrant(p: Program, live: set<nat>, infos: F.Infos, g: Grant, v: nat)
    requires Granted(p, live, infos, g) && v in live && v < |p| && p[v].body.Interpreted? && infos[v].status.Analysed?
    ensures Fits(p, infos, g) && 0 <= g.data[v]
  {
    hide WordsFormed, CallsLive;
    assert Certified(p, infos, v);
    assert Reached(p, live, infos, v, 0, 0);
    hide Covers;
  }

  lemma {:induction false} EntryAction(p: Program, live: set<nat>, infos: F.Infos, g: Grant, v: nat)
    requires Granted(p, live, infos, g) && v < |p| && p[v].body.Interpreted? && infos[v].status.Analysed?
    ensures |infos[v].scan.sa| == |p[v].body.code| > 0 && infos[v].scan.sa[0] == Some(0)
  {
    hide Covers, CallsLive, WordsFormed;
    assert Certified(p, infos, v);
  }

  /** The invariant, spelled out at the top activation. */
  lemma {:induction false} InvTop(p: Program, live: set<nat>, infos: F.Infos, g: Grant, w0: nat, d0: int,
                                  base: seq<int32>, s: State) returns (rest: seq<Act>, a: Act, e: int)
    requires s.Running? && FlowInv(p, live, infos, g, w0, d0, base, s)
    ensures s.acts == rest + [a] && s.acts[..|s.acts| - 1] == rest && s.acts[|s.acts| - 1] == a
    ensures Chain(p, live, infos, rest + [a], e, w0, d0) && base <= s.stack && HasOpcode(p, a)
    ensures ActionAt(p, infos, a, a.off) == Some(|s.stack| - e)
    ensures a.word < |g.data| && |s.stack| - e <= g.data[a.word]
  {
    rest, a := s.acts[..|s.acts| - 1], s.acts[|s.acts| - 1];
    e := |s.stack| - ActionAt(p, infos, a, a.off).value;
    assert s.acts == rest + [a];
    ChainTop(p, live, infos, rest, a, e, w0, d0);
  }

  /** Every opcode keeps the invariant. */
  lemma {:induction false} StepSound(p: Program, live: set<nat>, infos: F.Infos, g: Grant, native: Natives, w0: nat,
                                     d0: int, base: seq<int32>, s: State)
    requires Granted(p, live, infos, g) && BaseFits(infos, w0, d0, base) && RespectsEffects(p, live, native)
    requires FlowInv(p, live, infos, g, w0, d0, base, s)
    ensures FlowInv(p, live, infos, g, w0, d0, base, Step(p, native, s))
  {
    hide Granted, Chain, FlowInv, RespectsEffects, BaseFits, Exec, ActionAt;
    if s.Running? {
      var rest, a, e := InvTop(p, live, infos, g, w0, d0, base, s);
      StepTop(p, live, infos, g, native, w0, d0, base, rest, a, e, s.stack);
    }
  }

  lemma {:induction false} StepTop(p: Program, live: set<nat>, infos: F.Infos, g: Grant, native: Natives, w0: nat,
                                   d0: int, base: seq<int32>, rest: seq<Act>, a: Act, e: int, stack: seq<int32>)
    requires Granted(p, live, infos, g) && BaseFits(infos, w0, d0, base) && RespectsEffects(p, live, native)
    requires Chain(p, live, infos, rest + [a], e, w0, d0) && base <= stack && HasOpcode(p, a)
    requires ActionAt(p, infos, a, a.off) == Some(|stack| - e)
    requires a.word < |g.data| && |stack| - e <= g.data[a.word]
    ensures FlowInv(p, live, infos, g, w0, d0, base,
                    Exec(p, native, rest, a.(off := a.off + 1), stack, CurrentOp(p, a)))
  {
    hide Granted, Chain, FlowInv, RespectsEffects, BaseFits, RunWord, ActionAt;
    var op := CurrentOp(p, a);
    if op.Ret? {
      StepRet(p, live, infos, g, w0, d0, base, rest, a, e, stack);
    } else if op.Call? {
      StepCall(p, live, infos, g, native, w0, d0, base, rest, a, e, stack, op.target);
    } else {
      StepPlain(p, live, infos, g, native, w0, d0, base, rest, a, e, stack, op);
    }
  }

  // ----- Whole runs -----

  lemma {:induction false} RunSound(p: Program, live: set<nat>, infos: F.Infos, g: Grant, native: Natives, w0: nat,
                                    d0: int, base: seq<int32>, s: State, n: nat)
    requires Granted(p, live, infos, g) && BaseFits(infos, w0, d0, base) && RespectsEffects(p, live, native)
    requires FlowInv(p, live, infos, g, w0, d0, base, s)
    ensures FlowInv(p, live, infos, g, w0, d0, base, Run(p, native, s, n))
  {
    hide Granted, FlowInv, RespectsEffects, BaseFits, Step;
    if n > 0 {
      RunSound(p, live, infos, g, native, w0, d0, base, s, n - 1);
      StepSound(p, live, infos, g, native, w0, d0, base, Run(p, native, s, n - 1));
    }
  }

  /** A live word that the analysis accepted, entered with at least its inputs on the stack. */
  predicate Enterable(p: Program, live: set<nat>, infos: F.Infos, w: nat, stack: seq<int32>) {
    && w in live && w < |p| == |infos| && p[w].body.Interpreted? && infos[w].status.Analysed?
    && 0 <= infos[w].effect.din <= |stack|
  }

  lemma {:induction false} StartSound(p: Program, live: set<nat>, infos: F.Infos, g: Grant, w: nat, stack: seq<int32>)
    requires Granted(p, live, infos, g) && Enterable(p, live, infos, w, stack)
    ensures var base := stack[..|stack| - infos[w].effect.din];
            BaseFits(infos, w, |stack|, base) && FlowInv(p, live, infos, g, w, |stack|, base, Start(p, w, stack))
  {
    CalleeGrant(p, live, infos, g, w);
    assert Certified(p, infos, w);
    var a := EnterWord(w, p[w].body.numLocals);
    assert [] + [a] == [a];
    ChainTop(p, live, infos, [], a, |stack|, w, |stack|);
  }

  // ----- Bounds -----

  /** From any activation, what its word is granted stays within what the first word is granted. */
  lemma {:induction false} ChainBounds(p: Program, live: set<nat>, infos: F.Infos, g: Grant, acts: seq<Act>, e: int,
                                       w0: nat, d0: int)
    requires AllCertified(p, infos) && CallsLive(p, live) && Covers(p, live, infos, g)
    requires acts != [] && Chain(p, live, infos, acts, e, w0, d0)
    ensures Fits(p, infos, g) && w0 < |p| && acts[|acts| - 1].word < |p|
    ensures var a := acts[|acts| - 1];
            && e + g.data[a.word] <= d0 + g.data[w0]
            && Slots(acts[..|acts| - 1]) + g.slots[a.word] <= g.slots[w0]
    decreases |acts|
  {
    hide Chain, AllCertified, CallsLive, CoversAt;
    var rest, a := acts[..|acts| - 1], acts[|acts| - 1];
    assert acts == rest + [a];
    ChainTop(p, live, infos, rest, a, e, w0, d0);
    if rest != [] {
      var r, b := rest[..|rest| - 1], rest[|rest| - 1];
      var c := ActionAt(p, infos, b, b.off - 1).value;
      assert rest == r + [b];
      ChainBounds(p, live, infos, g, rest, e - c, w0, d0);
      ChainTop(p, live, infos, r, b, e - c, w0, d0);
      GrantAt(p, live, infos, g, b, e - c, b.off - 1, c);
      CallCovered(p, infos, g, b.word, b.off - 1, c, a.word);
      SlotsTop(r, b);
    }
  }

  lemma {:induction false} CallCovered(p: Program, infos: F.Infos, g: Grant, w: nat, i: nat, c: int, v: nat)
    requires Fits(p, infos, g) && w < |p| && p[w].body.Interpreted? && i < |p[w].body.code|
    requires CoversAt(p, infos, g, w, i, c) && p[w].body.code[i] == Call(v) && v < |p| && p[v].body.Interpreted?
    ensures c + g.data[v] <= g.data[w] && 1 + p[w].body.numLocals + g.slots[v] <= g.slots[w]
  {
  }

  /** What a state of a run of word w, entered with the given stack, satisfies. */
  ghost predicate SafeState(p: Program, infos: F.Infos, g: Grant, w: nat, stack: seq<int32>, s: State)
    requires Fits(p, infos, g) && w < |p| && 0 <= infos[w].effect.din <= |stack|
  {
    var se := infos[w].effect;
    var base := stack[..|stack| - se.din];
    match s
    case Running(acts, ds) =>
      && base <= ds
      && |ds| <= |stack| + g.data[w]
      && Slots(acts) + (if CallsData(p, s) then 1 else 0) <= g.slots[w]
    case Done(ds) =>
      && se.IsKnown() && !se.NoExit()
      && |ds| == |stack| - se.din + se.dout && base <= ds
    case Aborted => true
    case Crashed => false
  }

  lemma {:induction false} InvIsSafe(p: Program, live: set<nat>, infos: F.Infos, g: Grant, w: nat, stack: seq<int32>,
                                     s: State)
    requires Granted(p, live, infos, g) && Enterable(p, live, infos, w, stack)
    requires FlowInv(p, live, infos, g, w, |stack|, stack[..|stack| - infos[w].effect.din], s)
    ensures Fits(p, infos, g) && SafeState(p, infos, g, w, stack, s)
  {
    if s.Running? {
      RunningIsSafe(p, live, infos, g, w, stack, s);
    } else {
      GrantedParts(p, live, infos, g);
    }
  }

  lemma {:induction false} RunningIsSafe(p: Program, live: set<nat>, infos: F.Infos, g: Grant, w: nat,
                                         stack: seq<int32>, s: State)
    requires Granted(p, live, infos, g) && Enterable(p, live, infos, w, stack) && s.Running?
    requires FlowInv(p, live, infos, g, w, |stack|, stack[..|stack| - infos[w].effect.din], s)
    ensures Fits(p, infos, g) && SafeState(p, infos, g, w, stack, s)
  {
    hide Granted, Chain, AllCertified, CallsLive, Slots, CallsAt, Covers, CoversAt, FlowInv, Certified;
    GrantedParts(p, live, infos, g);
    var base := stack[..|stack| - infos[w].effect.din];
    var rest, a, e := InvTop(p, live, infos, g, w, |stack|, base, s);
    ChainBounds(p, live, infos, g, rest + [a], e, w, |stack|);
    ChainTop(p, live, infos, rest, a, e, w, |stack|);
    assert (rest + [a])[..|rest|] == rest && (rest + [a])[|rest|] == a;
    GrantAt(p, live, infos, g, a, e, a.off, |s.stack| - e);
    FrameCovered(p, infos, g, a.word, a.off, |s.stack| - e);
    SlotsTop(rest, a);
  }

  lemma {:induction false} FrameCovered(p: Program, infos: F.Infos, g: Grant, w: nat, i: nat, c: int)
    requires Fits(p, infos, g) && w < |p| && p[w].body.Interpreted? && i < |p[w].body.code| && CoversAt(p, infos, g, w, i, c)
    ensures 1 + p[w].body.numLocals + (if CallsDataOp(p, p[w].body.code[i]) then 1 else 0) <= g.slots[w]
  {
  }

  lemma {:induction false} GrantedParts(p: Program, live: set<nat>, infos: F.Infos, g: Grant)
    requires Granted(p, live, infos, g)
    ensures AllCertified(p, infos) && CallsLive(p, live) && Covers(p, live, infos, g) && Fits(p, infos, g)
  {
  }

  /** Soundness: in every run of an accepted word, entered with its inputs on the stack, the machine never
      crashes; the data stack never drops below the inputs, and what lies below them is untouched; both stacks
      stay within any grant that covers the accepted words, over any call depth, the frames of data words
      included; the word can only return at the depth that its effect announces. */
  lemma {:induction false} FlowSoundness(p: Program, live: set<nat>, infos: F.Infos, g: Grant, native: Natives,
                                         w: nat, stack: seq<int32>, n: nat)
    requires Granted(p, live, infos, g) && RespectsEffects(p, live, native) && Enterable(p, live, infos, w, stack)
    ensures Fits(p, infos, g) && SafeState(p, infos, g, w, stack, Run(p, native, Start(p, w, stack), n))
  {
    hide Granted, FlowInv, RespectsEffects, BaseFits, Step, SafeState;
    var base := stack[..|stack| - infos[w].effect.din];
    StartSound(p, live, infos, g, w, stack);
    RunSound(p, live, infos, g, native, w, |stack|, base, Start(p, w, stack), n);
    InvIsSafe(p, live, infos, g, w, stack, Run(p, native, Start(p, w, stack), n));
  }

  /** The depth at which the last activation was entered, from the return addresses alone: every caller adds the action
      that the analysis found at its call. */
  function EntryDepth(p: Program, infos: F.Infos, acts: seq<Act>, d0: int): int {
    if |acts| <= 1 then d0
    else
      var b := acts[|acts| - 2];
      var c := ActionAt(p, infos, b, b.off - 1);
      EntryDepth(p, infos, acts[..|acts| - 1], d0) + if c.Some? then c.value else 0
  }

  lemma {:induction false} ChainDepth(p: Program, live: set<nat>, infos: F.Infos, acts: seq<Act>, e: int, w0: nat,
                                      d0: int)
    requires Chain(p, live, infos, acts, e, w0, d0)
    ensures acts != [] && acts[0].word == w0 && e == EntryDepth(p, infos, acts, d0)
    decreases |acts|
  {
    hide ActionAt, CallsAt, Entered;
    if |acts| > 1 {
      var rest, b := acts[..|acts| - 1], acts[|acts| - 2];
      ChainDepth(p, live, infos, rest, e - ActionAt(p, infos, b, b.off - 1).value, w0, d0);
    }
  }

  /** The last activation stands where the analysis expects it. */
  predicate DepthKnown(p: Program, live: set<nat>, infos: F.Infos, w0: nat, d0: int, acts: seq<Act>, depth: int) {
    && acts != [] && acts[0].word == w0
    && var a, e := acts[|acts| - 1], EntryDepth(p, infos, acts, d0);
       && a.word in live && a.word < |infos| && infos[a.word].status.Analysed? && infos[a.word].effect.din <= e
       && ActionAt(p, infos, a, a.off) == Some(depth - e)
  }

  lemma {:induction false} InvDepth(p: Program, live: set<nat>, infos: F.Infos, g: Grant, w0: nat, d0: int,
                                    base: seq<int32>, s: State)
    requires s.Running? && FlowInv(p, live, infos, g, w0, d0, base, s)
    ensures DepthKnown(p, live, infos, w0, d0, s.acts, |s.stack|)
  {
    hide Chain, FlowInv, ActionAt, EntryDepth;
    var rest, a, e := InvTop(p, live, infos, g, w0, d0, base, s);
    ChainTop(p, live, infos, rest, a, e, w0, d0);
    ChainDepth(p, live, infos, rest + [a], e, w0, d0);
  }

  /** In every state of a run the depth is exactly what the analysis found: the actions at the pending calls and at the
      next opcode, added up. So the active word is within its recorded bound if and only if its action is. */
  lemma {:induction false} RunDepth(p: Program, live: set<nat>, infos: F.Infos, g: Grant, native: Natives, w: nat,
                                    stack: seq<int32>, n: nat)
    requires Granted(p, live, infos, g) && RespectsEffects(p, live, native) && Enterable(p, live, infos, w, stack)
    requires Run(p, native, Start(p, w, stack), n).Running?
    ensures var s := Run(p, native, Start(p, w, stack), n);
            && DepthKnown(p, live, infos, w, |stack|, s.acts, |s.stack|)
            && var a, e := s.acts[|s.acts| - 1], EntryDepth(p, infos, s.acts, |stack|);
               (|s.stack| <= e + infos[a.word].maxData <==>
                 ActionAt(p, infos, a, a.off).value <= infos[a.word].maxData)
  {
    hide Granted, FlowInv, RespectsEffects, BaseFits, Step, ActionAt, EntryDepth;
    var base := stack[..|stack| - infos[w].effect.din];
    StartSound(p, live, infos, g, w, stack);
    RunSound(p, live, infos, g, native, w, |stack|, base, Start(p, w, stack), n);
    InvDepth(p, live, infos, g, w, |stack|, base, Run(p, native, Start(p, w, stack), n));
  }
}
