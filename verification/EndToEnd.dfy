/** The two halves of the argument together: a program that the flow analysis accepted and the generator
    laid out runs on the C machine with the stacks that the analysis asked for, never accesses anything
    outside its code and its stacks, and exits with the data stack that the opcodes prescribe. */
module EndToEnd {
  import opened Ints
  import opened SevenE
  import opened CodeElements
  import opened Stream
  import opened Opcodes
  import opened Machine
  import opened Runner
  import opened Simulation
  import Flow
  import FlowCert
  import opened FlowBounds
  import opened FlowSound
  import opened Locals
  import Generate

  // ----- Room -----

  /** The sizes of the C stacks: room for `data` values above the caller's stack, and for `slots` return
      slots above lo. */
  predicate Sized(stack: seq<int32>, data: int, slots: int, cap: nat, lo: nat, size: nat) {
    |stack| + data <= cap && lo + slots <= size
  }

  /** The first n opcodes of the run read no local before writing it. */
  ghost predicate NoUnwritten(p: Program, native: Natives, s: State, n: nat) {
    forall i :: 0 <= i < n ==> !ReadsUnwritten(p, Run(p, native, s, i))
  }

  lemma {:induction false} SafeHasRoom(p: Program, infos: Flow.Infos, g: Grant, w: nat, stack: seq<int32>, s: State,
                    cap: nat, lo: nat, size: nat)
    requires Fits(p, infos, g) && w < |p| && 0 <= infos[w].effect.din <= |stack|
    requires SafeState(p, infos, g, w, stack, s) && Sized(stack, g.data[w], g.slots[w], cap, lo, size)
    ensures s != Crashed && Room(p, s, cap, lo, size)
  {
    hide CallsData;
  }

  /** Everything that the theorems below assume about a program and its image, in which the words of `live` are
      compiled: `reach` holds those that the running word can reach. */
  ghost predicate Linked(p: Program, live: set<nat>, reach: set<nat>, l: Link, img: Image, native: Natives,
                         ccode: CCode, infos: Flow.Infos, g: Grant) {
    && Compiled(p, live, l, img) && SameNatives(p, live, l, native, ccode)
    && reach <= live && Granted(p, reach, infos, g) && RespectsEffects(p, reach, native)
  }

  /** The run finds room, so that the simulation applies to it. */
  lemma {:induction false} RunIsGood(p: Program, live: set<nat>, reach: set<nat>, l: Link, img: Image,
                                     native: Natives, ccode: CCode, infos: Flow.Infos, g: Grant, w: nat,
                                     stack: seq<int32>, cap: nat, lo: nat, size: nat, n: nat)
    requires Linked(p, live, reach, l, img, native, ccode, infos, g) && Enterable(p, reach, infos, w, stack)
    requires Fits(p, infos, g) && Sized(stack, g.data[w], g.slots[w], cap, lo, size)
    requires NoUnwritten(p, native, Start(p, w, stack), n)
    ensures GoodRun(p, native, Start(p, w, stack), n, cap, lo, size)
  {
    hide Compiled, SameNatives, Granted, RespectsEffects, Sized, Step, SafeState, Room, ReadsUnwritten;
    var s0 := Start(p, w, stack);
    forall i | 0 <= i <= n
      ensures Run(p, native, s0, i) != Crashed && Room(p, Run(p, native, s0, i), cap, lo, size)
    {
      FlowSoundness(p, reach, infos, g, native, w, stack, i);
      SafeHasRoom(p, infos, g, w, stack, Run(p, native, s0, i), cap, lo, size);
    }
  }

  // ----- The theorem -----

  /** What the C machine does in a run that starts in t and whose first turns match n opcodes from s. */
  ghost predicate Agrees(p: Program, native: Natives, img: Image, ccode: CCode, cap: nat, s: State, t: TState, n: nat) {
    var there := TRun(img, ccode, cap, t, TotalCost(p, native, s, n));
    && (forall k :: 0 <= k <= TotalCost(p, native, s, n) ==> TRun(img, ccode, cap, t, k) != TFault)
    && match Run(p, native, s, n)
       case Running(_, stack) => there.TRunning? && there.ds == stack
       case Done(stack) => there == TExited(stack)
       case Aborted => there == TAborted
       case Crashed => false
  }

  lemma RelAgrees(p: Program, live: set<nat>, l: Link, img: Image, native: Natives, ccode: CCode,
                  cap: nat, lo: nat, size: nat, s: State, t: TState, n: nat)
    requires Rel(p, live, l, lo, size, Run(p, native, s, n), TRun(img, ccode, cap, t, TotalCost(p, native, s, n)))
    ensures Agrees(p, native, img, ccode, cap, s, t, n)
  {
    hide TRun, TotalCost, Run, Frames, ActsLive, ActLinked;
    var c := TotalCost(p, native, s, n);
    forall k | 0 <= k <= c
      ensures TRun(img, ccode, cap, t, k) != TFault
    {
      if TRun(img, ccode, cap, t, k) == TFault {
        TRunStays(img, ccode, cap, t, k, c);
      }
    }
  }

  /** An accepted word, entered from C with its inputs on the stack and with stacks of the sizes that a grant gives
      it, runs as its opcodes say: no access is out of bounds, the data stacks are equal after each opcode, and the
      loop is left exactly when the word returns, at the depth of its effect. */
  lemma {:induction false} AcceptedRunsInC(p: Program, live: set<nat>, reach: set<nat>, l: Link, img: Image,
                                           native: Natives, ccode: CCode, infos: Flow.Infos, g: Grant, w: nat,
                                           stack: seq<int32>, mem: seq<uint32>, cap: nat, lo: nat, n: nat)
    requires Linked(p, live, reach, l, img, native, ccode, infos, g) && Enterable(p, reach, infos, w, stack)
    requires Fits(p, infos, g) && Sized(stack, g.data[w], g.slots[w], cap, lo, |mem|)
    requires NoUnwritten(p, native, Start(p, w, stack), n)
    ensures w in l.slot
    ensures var s, t := Start(p, w, stack), TStart(img, stack, mem, lo, l.slot[w]);
            && Agrees(p, native, img, ccode, cap, s, t, n)
            && SafeState(p, infos, g, w, stack, Run(p, native, s, n))
            && forall ds :: TRun(img, ccode, cap, t, n) == TExited(ds) ==> Run(p, native, s, n) == Done(ds)
  {
    var s := Start(p, w, stack);
    assert w in l.slot by { NewActLive(p, live, l, img, w); }
    var t := TStart(img, stack, mem, lo, l.slot[w]);
    RunIsGood(p, live, reach, l, img, native, ccode, infos, g, w, stack, cap, lo, |mem|, n);
    FlowSoundness(p, reach, infos, g, native, w, stack, n);
    EntryRoom(p, native, w, stack, cap, lo, |mem|, n);
    hide Compiled, SameNatives, Granted, RespectsEffects, Sized, Step, TStep, SafeState, GoodRun, Rel, TStart, Enterable,
         NoUnwritten, Agrees;
    SimStart(p, live, l, img, w, stack, mem, lo);
    SimRun(p, live, l, img, native, ccode, cap, lo, |mem|, s, t, n);
    RelAgrees(p, live, l, img, native, ccode, cap, lo, |mem|, s, t, n);
    forall ds | TRun(img, ccode, cap, t, n) == TExited(ds)
      ensures Run(p, native, s, n) == Done(ds)
    {
      ExitsTogether(p, live, l, img, native, ccode, cap, lo, |mem|, s, t, n, ds);
    }
  }

  /** The same under a condition on the code alone: the live words write their locals before they read them. */
  lemma {:induction false} WrittenRunsInC(p: Program, live: set<nat>, reach: set<nat>, l: Link, img: Image,
                                          native: Natives, ccode: CCode, infos: Flow.Infos, g: Grant,
                                          ds: seq<Annotation>, w: nat, stack: seq<int32>, mem: seq<uint32>, cap: nat,
                                          lo: nat, n: nat)
    requires Linked(p, live, reach, l, img, native, ccode, infos, g) && Enterable(p, reach, infos, w, stack)
    requires Fits(p, infos, g) && Sized(stack, g.data[w], g.slots[w], cap, lo, |mem|)
    requires AllWrittenFirst(p, reach, ds)
    ensures w in l.slot
    ensures var s, t := Start(p, w, stack), TStart(img, stack, mem, lo, l.slot[w]);
            && Agrees(p, native, img, ccode, cap, s, t, n)
            && SafeState(p, infos, g, w, stack, Run(p, native, s, n))
            && forall ds :: TRun(img, ccode, cap, t, n) == TExited(ds) ==> Run(p, native, s, n) == Done(ds)
  {
    assert CallsLive(p, reach);
    hide Linked, CallsLive, Sized, AllWrittenFirst, ReadsUnwritten, Agrees, SafeState, TStart, Run;
    forall i | 0 <= i < n
      ensures !ReadsUnwritten(p, Run(p, native, Start(p, w, stack), i))
    {
      RunWritten(p, reach, ds, native, w, stack, i);
    }
    AcceptedRunsInC(p, live, reach, l, img, native, ccode, infos, g, w, stack, mem, cap, lo, n);
  }

  lemma EntryRoom(p: Program, native: Natives, w: nat, stack: seq<int32>, cap: nat, lo: nat, size: nat, n: nat)
    requires w < |p| && p[w].body.Interpreted? && GoodRun(p, native, Start(p, w, stack), n, cap, lo, size)
    ensures lo + p[w].body.numLocals + 1 <= size
  {
    var s := Start(p, w, stack);
    assert Run(p, native, s, 0) == s && Room(p, s, cap, lo, size);
    SlotsTop([], s.acts[0]);
    assert [] + [s.acts[0]] == s.acts;
  }

  // ----- The limits of the generator -----

  /** What the generator promises for a program that it does not reject. */
  ghost predicate Generated(p: Program, entries: seq<nat>, live: set<nat>, l: Link, img: Image,
                            dsLimit: int, rsLimit: int, infos: Flow.Infos) {
    && Generate.LeastClosure(p, entries, live) && Compiled(p, live, l, img)
    && Generate.FlowChecked(p, entries, dsLimit, rsLimit, infos)
  }

  /** What the theorem about limits assumes besides. */
  ghost predicate Behaved(p: Program, live: set<nat>, reach: set<nat>, l: Link, native: Natives, ccode: CCode,
                          infos: Flow.Infos, k: nat, d: nat)
  {
    && SameNatives(p, live, l, native, ccode) && reach <= live && CallsLive(p, reach)
    && RespectsEffects(p, reach, native) && WordsFormed(p, reach) && Within(p, reach, infos, k, d)
  }

  lemma {:induction false} LimitsGranted(p: Program, entries: seq<nat>, live: set<nat>, reach: set<nat>, l: Link,
                                         img: Image, native: Natives, ccode: CCode, dsLimit: int, rsLimit: int,
                                         infos: Flow.Infos, k: nat, d: nat, e: nat, stack: seq<int32>)
    requires Generated(p, entries, live, l, img, dsLimit, rsLimit, infos) && Behaved(p, live, reach, l, native, ccode, infos, k, d)
    requires e in entries && e in reach && e < |p| == |infos| && p[e].body.Interpreted? && infos[e].effect.din <= |stack|
    ensures Enterable(p, reach, infos, e, stack)
    ensures Linked(p, live, reach, l, img, native, ccode, infos, Recorded(p, infos, k, d))
    ensures infos[e].maxData <= dsLimit && infos[e].maxReturn <= rsLimit
  {
    assert FlowCert.Certified(p, infos, e);
    RecordedCovers(p, reach, infos, k, d);
    hide SameNatives, RespectsEffects, WordsFormed, Covers, Within, FlowCert.Certified, CallsLive;
  }

  /** The limits that the flow checks were given, with k more data slots and d more return slots, bound the C stacks of
      every entry point, if the explored calls of opcode-less words stay within k and d. For k = d = 0 these are the
      limits themselves; the largest expansion, and one slot if there are data words, always suffice. */
  lemma {:induction false} LimitsSuffice(p: Program, entries: seq<nat>, live: set<nat>, reach: set<nat>, l: Link,
                                         img: Image, native: Natives, ccode: CCode, dsLimit: int, rsLimit: int,
                                         infos: Flow.Infos, k: nat, d: nat, e: nat, stack: seq<int32>,
                                         mem: seq<uint32>, cap: nat, lo: nat, n: nat)
    requires Generated(p, entries, live, l, img, dsLimit, rsLimit, infos) && Behaved(p, live, reach, l, native, ccode, infos, k, d)
    requires e in entries && e in reach && e < |p| == |infos| && p[e].body.Interpreted? && infos[e].effect.din <= |stack|
    requires Sized(stack, dsLimit + k, rsLimit + d, cap, lo, |mem|)
    requires NoUnwritten(p, native, Start(p, e, stack), n)
    ensures e in l.slot && 0 <= infos[e].effect.din
    ensures var s, t, g := Start(p, e, stack), TStart(img, stack, mem, lo, l.slot[e]), Recorded(p, infos, k, d);
            && Agrees(p, native, img, ccode, cap, s, t, n)
            && SafeState(p, infos, g, e, stack, Run(p, native, s, n))
            && forall ds :: TRun(img, ccode, cap, t, n) == TExited(ds) ==> Run(p, native, s, n) == Done(ds)
  {
    hide Generated, Behaved, Linked, NoUnwritten, Agrees, SafeState, TRun, Run, TStart;
    LimitsGranted(p, entries, live, reach, l, img, native, ccode, dsLimit, rsLimit, infos, k, d, e, stack);
    AcceptedRunsInC(p, live, reach, l, img, native, ccode, infos, Recorded(p, infos, k, d), e, stack, mem, cap, lo, n);
  }

  // ----- The extra slot -----

  /** WordData inherits MaxReturnStack 0, but its bytecode is entered with a one-slot frame: the call of a data
      word is out of bounds exactly when the return stack is full. */
  lemma DataCallNeedsSlot(p: Program, live: set<nat>, l: Link, img: Image, ccode: CCode, cap: nat, lo: nat, size: nat,
                          rest: seq<Act>, a: Act, stack: seq<int32>, t: TState)
    requires Compiled(p, live, l, img) && ActLive(p, live, a)
    requires Rel(p, live, l, lo, size, Running(rest + [a], stack), t) && CallsDataOp(p, CurrentOp(p, a))
    ensures TStep(img, ccode, cap, t) == TFault <==> lo + Slots(rest + [a]) + 1 > size
  {
    hide Compiled, Rel, Frames, TStep, Enter, Slots, WordLinked;
    var w := CurrentOp(p, a).target;
    RelFacts(p, live, l, lo, size, rest, a, stack, t);
    CalleeLinked(p, live, l, img, a);
    var there := CallTurn(p, live, l, img, ccode, cap, lo, size, rest, a, stack, t);
    SameSlots(rest, a);
    RelFacts(p, live, l, lo, size, rest, a.(off := a.off + 1), stack, there);
    OpAddrRange(p, live, l, img, a.(off := a.off + 1));
    if lo + Slots(rest + [a]) + 1 <= size {
      EnterJumps(p, live, l, img, w, there);
    } else {
      FullStack(p, live, l, img, w, there);
    }
  }

  lemma SameSlots(rest: seq<Act>, a: Act)
    ensures Slots(rest + [a.(off := a.off + 1)]) == Slots(rest + [a])
  {
    SlotsTop(rest, a);
    SlotsTop(rest, a.(off := a.off + 1));
  }

  lemma FullStack(p: Program, live: set<nat>, l: Link, img: Image, w: nat, t: TState)
    requires Compiled(p, live, l, img) && w in live && w < |p| && p[w].body.Data?
    requires t.TRunning? && t.ip >= 0 && t.rp + 1 > |t.mem|
    ensures WordLinked(p, l, img, w) && Enter(img, t, l.slot[w] - img.interpreted) == TFault
  {
    hide Compiled, ParseUnsigned, WordPlaced, Closed;
    HeaderReads(p, live, l, img, w);
  }

  /** The word that calls a data word and returns is granted one return slot, and needs two. */
  lemma {:induction false} DataCallerUndercounted(p: Program, v: Word, live: set<nat>, l: Link, img: Image,
                                                  ccode: CCode, cap: nat, stack: seq<int32>, mem: seq<uint32>)
    requires p == Caller(v) && v.body.Data? && v.effect == SType(0, 1)
    requires Compiled(p, live, l, img) && 0 in live
    ensures 0 in l.slot
    ensures var r := Flow.Analyse(p, Flow.InitialInfos(p), 0);
            && r.Accepted? && r.infos[0].maxReturn == 1
            && (|mem| == r.infos[0].maxReturn ==>
                 TRun(img, ccode, cap, TStart(img, stack, mem, 0, l.slot[0]), 1) == TFault)
  {
    CallerAccepted(p, v);
    hide Compiled, Rel, TStep, TStart, Flow.Analyse;
    NewActLive(p, live, l, img, 0);
    var a := EnterWord(0, 0);
    assert CurrentOp(p, a) == Call(1);
    if |mem| == 1 {
      SimStart(p, live, l, img, 0, stack, mem, 0);
      var t := TStart(img, stack, mem, 0, l.slot[0]);
      assert [] + [a] == [a];
      SlotsTop([], a);
      DataCallNeedsSlot(p, live, l, img, ccode, cap, 0, 1, [], a, stack, t);
      RunTwice(img, ccode, cap, t);
    }
  }

  /** A word that calls a data word, and its image. */
  function DataProgram(): Program {
    Caller(Word("data", Data(1), SType(0, 1)))
  }

  function DataLinked(): Link {
    Link([UInt(0), UInt(8), UInt(0), UInt(0), UIntInt(1, 1), UInt(0)], [1, 1, 1, 1, 2, 1], map[0 := 0, 1 := 3],
         map[0 := 7, 1 := 8])
  }

  function DataImage(): Image {
    Image([0, 8, 0, 0, 1, 1, 0], [0, 3], 7, true)
  }

  lemma DataCallerCompiled()
    ensures Compiled(DataProgram(), {0, 1}, DataLinked(), DataImage())
  {
    DataBytes();
    DataLayout();
    DataWords();
    hide LaidOut, Encodable, Short, WordLinked, Block, Sum;
  }

  lemma DataWords()
    ensures WordLinked(DataProgram(), DataLinked(), DataImage(), 0)
    ensures WordLinked(DataProgram(), DataLinked(), DataImage(), 1)
  {
    var p, l := DataProgram(), DataLinked();
    var code, push := p[0].body.code, CodeOf(p[1].body);
    assert Sum(l.lens, 1) == 1 && Sum(l.lens, 2) == 2 && Sum(l.lens, 3) == 3;
    assert ClosedAt(code, 0, 0) && ClosedAt(code, 0, 1) && ClosedAt(push, 0, 0) && ClosedAt(push, 0, 1);
    assert IsElemOf(l, 0, 0, code[0], l.elems[1]) && IsElemOf(l, 0, 1, code[1], l.elems[2]);
    assert IsElemOf(l, 3, 0, push[0], l.elems[4]) && IsElemOf(l, 3, 1, push[1], l.elems[5]);
  }

  lemma DataLayout()
    ensures var l := DataLinked(); LaidOut(l.elems, l.lens, true) && Encodable(l.elems, true) && Short(l.lens)
  {
    assert LenSigned(1) == 1;
    assert Round(DataLinked().elems, DataLinked().lens, true) == DataLinked().lens;
  }

  lemma DataElems()
    ensures var elems, lens := DataLinked().elems, DataLinked().lens;
            && ElemBytes(elems, 0, lens, true) == [0] && ElemBytes(elems, 1, lens, true) == [8]
            && ElemBytes(elems, 2, lens, true) == [0] && ElemBytes(elems, 3, lens, true) == [0]
            && ElemBytes(elems, 4, lens, true) == [1, 1] && ElemBytes(elems, 5, lens, true) == [0]
  {
    assert LenSigned(1) == 1 && EncSigned(1) == [1];
  }

  lemma DataBytes()
    ensures Block(DataLinked().elems, DataLinked().lens, true) == DataImage().code
  {
    DataElems();
    hide ElemBytes;
    var elems, lens := DataLinked().elems, DataLinked().lens;
    assert Bytes(elems, 1, lens, true) == Bytes(elems, 0, lens, true) + [0] == [0];
    assert Bytes(elems, 2, lens, true) == [0] + [8];
    assert Bytes(elems, 3, lens, true) == [0, 8] + [0];
    assert Bytes(elems, 4, lens, true) == [0, 8, 0] + [0];
    assert Bytes(elems, 5, lens, true) == [0, 8, 0, 0] + [1, 1];
    assert Bytes(elems, 6, lens, true) == [0, 8, 0, 0, 1, 1] + [0];
  }

  /** So there is a program that the analysis accepts, and whose image faults with the return stack it is granted. */
  lemma {:induction false} DataCallerFaults(ccode: CCode, cap: nat, stack: seq<int32>, mem: seq<uint32>)
    requires |mem| == 1
    ensures var r := Flow.Analyse(DataProgram(), Flow.InitialInfos(DataProgram()), 0);
            && r.Accepted? && r.infos[0].maxReturn == 1
            && TRun(DataImage(), ccode, cap, TStart(DataImage(), stack, mem, 0, 7), 1) == TFault
  {
    hide Compiled, Flow.Analyse, TRun, TStart;
    DataCallerCompiled();
    DataCallerUndercounted(DataProgram(), DataProgram()[1], {0, 1}, DataLinked(), DataImage(), ccode, cap, stack, mem);
  }

  // ----- A smallest program -----

  /** `: main v ;` */
  function PushProgram(v: int32): Program {
    [Word("main", Interpreted(0, [Const(v), Ret]), UNKNOWN)]
  }

  function PushLink(v: int32): Link {
    Link([UInt(0), UIntInt(1, v), UInt(0)], [1, 1 + LenSigned(v), 1], map[0 := 0], map[0 := 7])
  }

  function PushImage(v: int32): Image {
    Image(Block(PushLink(v).elems, PushLink(v).lens, true), [0], 7, true)
  }

  lemma PushCompiled(v: int32)
    ensures Compiled(PushProgram(v), {0}, PushLink(v), PushImage(v))
  {
    var p, l, img := PushProgram(v), PushLink(v), PushImage(v);
    LengthsAtMostFive(0, v);
    hide LenSigned, EncSigned;
    assert Round(l.elems, l.lens, true) == l.lens;
    BytesLength(l.elems, 3, l.lens, true);
    assert Sum(l.lens, 3) == Sum(l.lens, 2) + 1 == Sum(l.lens, 1) + 1 + LenSigned(v) + 1;
    var code := p[0].body.code;
    assert ClosedAt(code, 0, 0) && ClosedAt(code, 0, 1);
    assert IsElemOf(l, 0, 0, code[0], l.elems[1]) && IsElemOf(l, 0, 1, code[1], l.elems[2]);
    assert WordLinked(p, l, img, 0);
  }

  lemma {:induction false} PushAccepted(v: int32)
    ensures var p := PushProgram(v);
            var r := Flow.Analyse(p, Flow.InitialInfos(p), 0);
            r.Accepted? && r.infos[0].maxData == 1 && r.infos[0].maxReturn == 1 && r.infos[0].effect == SType(0, 1)
  {
    var p := PushProgram(v);
    var infos, code := Flow.InitialInfos(p), p[0].body.code;
    var marked := infos[0 := infos[0].(status := Flow.Ongoing)];
    var st0 := Flow.StartScan(2);
    assert st0.sa == [Some(0), None];
    Flow.PlainProgress(2, st0, Const(v));
    var st1 := Flow.Scan([Some(0), Some(1)], [], 0, 1, None, 1, 0, 0);
    assert Flow.PlainMove(st0, Const(v)) == Flow.Next(st1);
    Flow.PlainProgress(2, st1, Ret);
    assert Flow.PlainMove(st1, Ret) == Flow.Finish(st1.(exit := Some(1)));
    assert Flow.Explore(p, marked, 0, st1) == Flow.Conclude(p, marked, 0, st1.(exit := Some(1)));
    assert Flow.Explore(p, marked, 0, st0) == Flow.Explore(p, marked, 0, st1);
  }

  /** After the constant. */
  function PushedState(v: int32, stack: seq<int32>): State {
    Running([Act(0, 1, [])], stack + [v])
  }

  lemma PushSteps(v: int32, native: Natives, stack: seq<int32>)
    ensures var p := PushProgram(v);
            var s := Start(p, 0, stack);
            && Run(p, native, s, 2) == Done(stack + [v]) && TotalCost(p, native, s, 2) == 2
            && NoUnwritten(p, native, s, 2)
  {
    var p, s, s1 := PushProgram(v), Start(PushProgram(v), 0, stack), PushedState(v, stack);
    PushFirst(v, native, stack);
    PushSecond(v, native, stack);
    hide Step, Cost, ReadsUnwritten, PushedState, Start, PushProgram;
    assert Run(p, native, s, 0) == s && Run(p, native, s, 1) == Step(p, native, Run(p, native, s, 0));
    assert Run(p, native, s, 2) == Step(p, native, Run(p, native, s, 1));
    assert TotalCost(p, native, s, 1) == TotalCost(p, native, s, 0) + Cost(p, s);
  }

  lemma PushFirst(v: int32, native: Natives, stack: seq<int32>)
    ensures var p, s := PushProgram(v), Start(PushProgram(v), 0, stack);
            Step(p, native, s) == PushedState(v, stack) && Cost(p, s) == 1 && !ReadsUnwritten(p, s)
  {
    assert [] + [Act(0, 1, [])] == [Act(0, 1, [])];
  }

  lemma PushSecond(v: int32, native: Natives, stack: seq<int32>)
    ensures var p, s := PushProgram(v), PushedState(v, stack);
            Step(p, native, s) == Done(stack + [v]) && Cost(p, s) == 1 && !ReadsUnwritten(p, s)
  {
  }

  /** There are no calls. */
  lemma {:induction false} PushWithin(v: int32, infos: Flow.Infos)
    requires |infos| == 1
    ensures Within(PushProgram(v), {0}, infos, 0, 0)
  {
    hide FlowCert.Certified;
  }

  /** The program is the only live word, and has no native words. */
  lemma PushAlone(v: int32, native: Natives, ccode: CCode)
    ensures var p := PushProgram(v);
            RespectsEffects(p, {0}, native) && SameNatives(p, {0}, PushLink(v), native, ccode)
  {
  }

  lemma {:induction false} PushGranted(v: int32, infos: Flow.Infos)
    requires |infos| == 1 && infos[0].status.Analysed? && infos[0].effect == SType(0, 1)
    requires FlowCert.AllCertified(PushProgram(v), infos)
    ensures Granted(PushProgram(v), {0}, infos, Recorded(PushProgram(v), infos, 0, 0))
  {
    hide FlowCert.Certified, Covers;
    PushWithin(v, infos);
    RecordedCovers(PushProgram(v), {0}, infos, 0, 0);
  }

  lemma {:induction false} PushGiven(v: int32, native: Natives, ccode: CCode) returns (infos: Flow.Infos)
    ensures |infos| == 1 && infos[0].maxData == 1 && infos[0].maxReturn == 1
    ensures Linked(PushProgram(v), {0}, {0}, PushLink(v), PushImage(v), native, ccode, infos,
                   Recorded(PushProgram(v), infos, 0, 0))
    ensures forall stack :: Enterable(PushProgram(v), {0}, infos, 0, stack)
  {
    var p := PushProgram(v);
    infos := Flow.Analyse(p, Flow.InitialInfos(p), 0).infos;
    FlowCert.AnalyseCertifies(p, Flow.InitialInfos(p), 0);
    hide Compiled, Flow.Analyse, FlowCert.Certified, Granted, RespectsEffects, SameNatives;
    PushCompiled(v);
    PushAccepted(v);
    PushGranted(v, infos);
    PushAlone(v, native, ccode);
  }

  /** The theorem at work: for every v, the image of the word that pushes v and returns, with stacks of exactly the
      sizes that the analysis found, exits after two turns with v on top of what was there. */
  lemma PushRuns(v: int32, stack: seq<int32>, mem: seq<uint32>, ccode: CCode)
    requires |mem| == 1
    ensures var t := TStart(PushImage(v), stack, mem, 0, 7);
            TRun(PushImage(v), ccode, |stack| + 1, t, 2) == TExited(stack + [v])
  {
    hide Linked, Enterable, NoUnwritten, TRun, TStart, Run, SafeState;
    var p := PushProgram(v);
    var native: Natives := (w, ds) => None;
    var infos := PushGiven(v, native, ccode);
    PushSteps(v, native, stack);
    AcceptedRunsInC(p, {0}, {0}, PushLink(v), PushImage(v), native, ccode, infos, Recorded(p, infos, 0, 0), 0, stack, mem,
                    |stack| + 1, 0, 2);
  }

  // ----- A local that is read before it is written -----

  function LocalProgram(): Program {
    [Word("main", Interpreted(1, [GetLocal(0), Ret]), UNKNOWN)]
  }

  function LocalLink(): Link {
    Link([UInt(1), UIntUInt(2, 0), UInt(0)], [1, 2, 1], map[0 := 0], map[0 := 7])
  }

  function LocalImage(): Image {
    Image([1, 2, 0, 0], [0], 7, true)
  }

  lemma LocalCompiled()
    ensures Compiled(LocalProgram(), {0}, LocalLink(), LocalImage())
  {
    LocalLayout();
    LocalBytes();
    LocalWord();
    hide LaidOut, Encodable, Short, WordLinked, Block;
  }

  lemma LocalLayout()
    ensures var l := LocalLink(); LaidOut(l.elems, l.lens, true) && Encodable(l.elems, true) && Short(l.lens)
  {
    assert LenUnsigned(0) == 1;
    assert Round(LocalLink().elems, LocalLink().lens, true) == LocalLink().lens;
  }

  lemma LocalBytes()
    ensures Block(LocalLink().elems, LocalLink().lens, true) == LocalImage().code
  {
    var elems, lens := LocalLink().elems, LocalLink().lens;
    assert LenUnsigned(0) == 1 && EncUnsigned(0) == [0];
    assert ElemBytes(elems, 0, lens, true) == [1] && ElemBytes(elems, 1, lens, true) == [2, 0];
    assert ElemBytes(elems, 2, lens, true) == [0];
    hide ElemBytes;
    assert Bytes(elems, 1, lens, true) == Bytes(elems, 0, lens, true) + [1] == [1];
    assert Bytes(elems, 2, lens, true) == [1] + [2, 0];
    assert Bytes(elems, 3, lens, true) == [1, 2, 0] + [0];
  }

  lemma LocalWord()
    ensures WordLinked(LocalProgram(), LocalLink(), LocalImage(), 0)
  {
    var l, code := LocalLink(), LocalProgram()[0].body.code;
    assert ClosedAt(code, 1, 0) && ClosedAt(code, 1, 1);
    assert IsElemOf(l, 0, 0, code[0], l.elems[1]) && IsElemOf(l, 0, 1, code[1], l.elems[2]);
  }

  /** A word that reads its local first: the compiler's machine returns 0, the generated code what the return stack
      happened to hold. */
  lemma UnwrittenDiffers(native: Natives, ccode: CCode, stack: seq<int32>, mem: seq<uint32>)
    requires |mem| == 2
    ensures Run(LocalProgram(), native, Start(LocalProgram(), 0, stack), 2) == Done(stack + [0])
    ensures TRun(LocalImage(), ccode, |stack| + 1, TStart(LocalImage(), stack, mem, 0, 7), 2)
            == TExited(stack + [ToInt32(mem[0])])
  {
    LocalSource(native, stack);
    LocalTarget(ccode, stack, mem);
  }

  lemma LocalSource(native: Natives, stack: seq<int32>)
    ensures Run(LocalProgram(), native, Start(LocalProgram(), 0, stack), 2) == Done(stack + [0])
  {
    var p, s := LocalProgram(), Start(LocalProgram(), 0, stack);
    var a := s.acts[0];
    assert Step(p, native, s) == Running([] + [a.(off := 1)], stack + [0]);
    assert Run(p, native, s, 1) == Step(p, native, Run(p, native, s, 0)) == Step(p, native, s);
    assert Run(p, native, s, 2) == Step(p, native, Run(p, native, s, 1));
  }

  lemma LocalTarget(ccode: CCode, stack: seq<int32>, mem: seq<uint32>)
    requires |mem| == 2
    ensures TRun(LocalImage(), ccode, |stack| + 1, TStart(LocalImage(), stack, mem, 0, 7), 2)
            == TExited(stack + [ToInt32(mem[0])])
  {
    var img, cap := LocalImage(), |stack| + 1;
    var mem' := mem[1 := 0x10000];
    var t0, t1 := TRunning(1, stack, mem', 2), TRunning(3, stack + [ToInt32(mem[0])], mem', 2);
    LocalEntered(stack, mem);
    LocalRead(ccode, stack, mem');
    LocalLeft(ccode, stack + [ToInt32(mem[0])], mem', cap);
    hide TStep, TStart;
    assert TRun(img, ccode, cap, t0, 1) == TStep(img, ccode, cap, TRun(img, ccode, cap, t0, 0));
    assert TRun(img, ccode, cap, t0, 2) == TStep(img, ccode, cap, TRun(img, ccode, cap, t0, 1));
  }

  lemma LocalEntered(stack: seq<int32>, mem: seq<uint32>)
    requires |mem| == 2
    ensures TStart(LocalImage(), stack, mem, 0, 7) == TRunning(1, stack, mem[1 := 0x10000], 2)
  {
    assert ParseUnsigned(LocalImage().code, 0) == Parsed(1, 1);
  }

  lemma LocalRead(ccode: CCode, stack: seq<int32>, mem: seq<uint32>)
    requires |mem| == 2 && mem[1] == 0x10000
    ensures TStep(LocalImage(), ccode, |stack| + 1, TRunning(1, stack, mem, 2))
            == TRunning(3, stack + [ToInt32(mem[0])], mem, 2)
  {
    assert ParseUnsigned(LocalImage().code, 2) == Parsed(0, 3);
  }

  lemma LocalLeft(ccode: CCode, stack: seq<int32>, mem: seq<uint32>, cap: nat)
    requires |mem| == 2 && mem[1] == 0x10000
    ensures TStep(LocalImage(), ccode, cap, TRunning(3, stack, mem, 2)) == TExited(stack)
  {
  }
}
