/** What the bounds that the analysis records are worth: the least bounds that cover its annotation, when the
    recorded ones are among the covering ones, and by how much they may fall short. */
module FlowBounds {
  import opened Ints
  import opened Opcodes
  import opened Machine
  import F = Flow
  import opened FlowCert
  import opened FlowExact
  import opened FlowSound

  // ----- The least grant -----

  /** The analysis with max(0, out - in) for words without opcodes: the largest depth above entry at any explored
      opcode, callees included. (Accepted words have smaller ranks than their callers.) */
  function DataNeed(p: Program, infos: F.Infos, w: nat): int
    requires w < |p| == |infos|
    decreases Rank(p, infos, w), 1, 0, 0
  {
    if Scanned(p, infos, w) then DataUpTo(p, infos, w, |p[w].body.code|) else 0
  }

  function DataUpTo(p: Program, infos: F.Infos, w: nat, n: nat): int
    requires Scanned(p, infos, w) && n <= |p[w].body.code|
    decreases Rank(p, infos, w), 0, n, 1
  {
    if n == 0 then 0 else Max(DataUpTo(p, infos, w, n - 1), DataAt(p, infos, w, n - 1))
  }

  function DataAt(p: Program, infos: F.Infos, w: nat, i: nat): int
    requires Scanned(p, infos, w) && i < |p[w].body.code|
    decreases Rank(p, infos, w), 0, i, 0
  {
    if infos[w].scan.sa[i].None? then 0
    else
      var c := infos[w].scan.sa[i].value;
      match p[w].body.code[i]
      case Call(v) =>
        if v >= |p| then 0
        else if p[v].body.Interpreted? then
          if Rank(p, infos, v) < Rank(p, infos, w) then c + DataNeed(p, infos, v) else 0
        else if infos[v].effect.NoExit() then c
        else c + infos[v].effect.dout - infos[v].effect.din
      case Ret => 0
      case op => c + op.StackAction()
  }

  /** The return slots, with the bytecode of a data word counted as one. */
  function SlotNeed(p: Program, infos: F.Infos, w: nat): int
    requires w < |p| == |infos|
    decreases Rank(p, infos, w), 1, 0, 0
  {
    if Scanned(p, infos, w) then 1 + p[w].body.numLocals + SlotUpTo(p, infos, w, |p[w].body.code|) else 0
  }

  function SlotUpTo(p: Program, infos: F.Infos, w: nat, n: nat): int
    requires Scanned(p, infos, w) && n <= |p[w].body.code|
    decreases Rank(p, infos, w), 0, n, 1
  {
    if n == 0 then 0 else Max(SlotUpTo(p, infos, w, n - 1), SlotAt(p, infos, w, n - 1))
  }

  function SlotAt(p: Program, infos: F.Infos, w: nat, i: nat): int
    requires Scanned(p, infos, w) && i < |p[w].body.code|
    decreases Rank(p, infos, w), 0, i, 0
  {
    match p[w].body.code[i]
    case Call(v) =>
      if infos[w].scan.sa[i].None? || v >= |p| then 0
      else if p[v].body.Data? then 1
      else if p[v].body.Interpreted? && Rank(p, infos, v) < Rank(p, infos, w) then SlotNeed(p, infos, v)
      else 0
    case _ => 0
  }

  function NeedGrant(p: Program, infos: F.Infos): Grant
    requires |p| == |infos|
  {
    Grant(seq(|p|, w requires 0 <= w < |p| => DataNeed(p, infos, w)),
          seq(|p|, w requires 0 <= w < |p| => SlotNeed(p, infos, w)))
  }

  lemma {:induction false} UpToAtLeast(p: Program, infos: F.Infos, w: nat, n: nat, i: nat)
    requires Scanned(p, infos, w) && i < n <= |p[w].body.code|
    ensures 0 <= DataUpTo(p, infos, w, n) && DataAt(p, infos, w, i) <= DataUpTo(p, infos, w, n)
    ensures 0 <= SlotUpTo(p, infos, w, n) && SlotAt(p, infos, w, i) <= SlotUpTo(p, infos, w, n)
    decreases n
  {
    hide DataAt, SlotAt;
    if n > 1 {
      UpToAtLeast(p, infos, w, n - 1, if i < n - 1 then i else 0);
    } else {
      assert DataUpTo(p, infos, w, 0) == 0 && SlotUpTo(p, infos, w, 0) == 0;
    }
  }

  /** These needs cover the annotation. */
  lemma {:induction false} NeedCovers(p: Program, live: set<nat>, infos: F.Infos)
    requires AllCertified(p, infos)
    ensures Covers(p, live, infos, NeedGrant(p, infos))
  {
    hide AllCertified, DataUpTo, SlotUpTo;
    CertifiedLength(p, infos);
    var g := NeedGrant(p, infos);
    forall w: nat, i: nat, c: int | Reached(p, live, infos, w, i, c)
      ensures CoversAt(p, infos, g, w, i, c)
    {
      UpToAtLeast(p, infos, w, |p[w].body.code|, i);
      if p[w].body.code[i].Call? {
        CalleeRank(p, infos, w, i, p[w].body.code[i].target);
      }
    }
  }

  lemma {:induction false} CertifiedLength(p: Program, infos: F.Infos)
    requires AllCertified(p, infos)
    ensures |p| == |infos|
  {
  }

  /** They are the least grant that covers it. */
  lemma {:induction false} NeedLeast(p: Program, live: set<nat>, infos: F.Infos, g: Grant, w: nat)
    requires AllCertified(p, infos) && CallsLive(p, live) && Covers(p, live, infos, g)
    requires w in live && w < |p| == |infos| && p[w].body.Interpreted? && infos[w].status.Analysed?
    ensures Fits(p, infos, g) && DataNeed(p, infos, w) <= g.data[w] && SlotNeed(p, infos, w) <= g.slots[w]
    decreases Rank(p, infos, w), 1, 0
  {
    assert Certified(p, infos, w);
    assert Reached(p, live, infos, w, 0, 0);
    UpToLeast(p, live, infos, g, w, |p[w].body.code|);
  }

  lemma {:induction false} UpToLeast(p: Program, live: set<nat>, infos: F.Infos, g: Grant, w: nat, n: nat)
    requires AllCertified(p, infos) && CallsLive(p, live) && Covers(p, live, infos, g)
    requires w in live && Scanned(p, infos, w) && infos[w].status.Analysed? && n <= |p[w].body.code|
    requires 0 <= g.data[w] && 1 + p[w].body.numLocals <= g.slots[w]
    ensures DataUpTo(p, infos, w, n) <= g.data[w] && 1 + p[w].body.numLocals + SlotUpTo(p, infos, w, n) <= g.slots[w]
    decreases Rank(p, infos, w), 0, n
  {
    hide AllCertified, CallsLive, DataAt, SlotAt;
    if n > 0 {
      UpToLeast(p, live, infos, g, w, n - 1);
      AtLeastNeeded(p, live, infos, g, w, n - 1);
    }
  }

  lemma {:induction false} AtLeastNeeded(p: Program, live: set<nat>, infos: F.Infos, g: Grant, w: nat, i: nat)
    requires AllCertified(p, infos) && CallsLive(p, live) && Covers(p, live, infos, g)
    requires w in live && Scanned(p, infos, w) && infos[w].status.Analysed? && i < |p[w].body.code|
    requires 0 <= g.data[w] && 1 + p[w].body.numLocals <= g.slots[w]
    ensures DataAt(p, infos, w, i) <= g.data[w] && 1 + p[w].body.numLocals + SlotAt(p, infos, w, i) <= g.slots[w]
    decreases Rank(p, infos, w), 0, i
  {
    hide AllCertified, DataNeed, SlotNeed;
    if infos[w].scan.sa[i].Some? {
      var c := infos[w].scan.sa[i].value;
      assert Reached(p, live, infos, w, i, c);
      if p[w].body.code[i].Call? {
        var v := p[w].body.code[i].target;
        CalleeRank(p, infos, w, i, v);
        if p[v].body.Interpreted? {
          NeedLeast(p, live, infos, g, v);
        }
      }
    }
  }

  // ----- The recorded bounds -----

  /** The bounds that the analysis records, with k more data slots and d more return slots. */
  function Recorded(p: Program, infos: F.Infos, k: nat, d: nat): Grant
    requires |p| == |infos|
  {
    Grant(seq(|p|, w requires 0 <= w < |p| => infos[w].maxData + k), seq(|p|, w requires 0 <= w < |p| => infos[w].maxReturn + d))
  }

  /** An explored call of an opcode-less word v, met at action c in word w, stays within the recorded bounds: this is
      all that Math.Min(0, out - in) and MaxReturnStack 0 leave open. */
  predicate WithinAt(p: Program, infos: F.Infos, w: nat, c: int, v: nat, k: nat, d: nat)
    requires w < |p| == |infos| && p[w].body.Interpreted?
  {
    v < |p| && !p[v].body.Interpreted? ==>
      && (!infos[v].effect.NoExit() ==> c + infos[v].effect.dout - infos[v].effect.din <= infos[w].maxData + k)
      && (p[v].body.Data? ==> 2 + p[w].body.numLocals <= infos[w].maxReturn + d)
  }

  ghost predicate Within(p: Program, live: set<nat>, infos: F.Infos, k: nat, d: nat) {
    forall w: nat, i: nat, c: int :: Reached(p, live, infos, w, i, c) && p[w].body.code[i].Call? ==>
      WithinAt(p, infos, w, c, p[w].body.code[i].target, k, d)
  }

  /** The recorded bounds cover the annotation if and only if the explored calls of opcode-less words stay within. */
  lemma {:induction false} RecordedCovers(p: Program, live: set<nat>, infos: F.Infos, k: nat, d: nat)
    requires AllCertified(p, infos)
    ensures |p| == |infos| && (Covers(p, live, infos, Recorded(p, infos, k, d)) <==> Within(p, live, infos, k, d))
  {
    CertifiedLength(p, infos);
    hide AllCertified;
    var g := Recorded(p, infos, k, d);
    forall w: nat, i: nat, c: int | Reached(p, live, infos, w, i, c)
      ensures CoversAt(p, infos, g, w, i, c) <==>
                (p[w].body.code[i].Call? ==> WithinAt(p, infos, w, c, p[w].body.code[i].target, k, d))
    {
      RecordedAt(p, live, infos, k, d, w, i, c);
    }
    hide CoversAt, WithinAt, Reached;
  }

  lemma {:induction false} RecordedAt(p: Program, live: set<nat>, infos: F.Infos, k: nat, d: nat, w: nat, i: nat,
                                      c: int)
    requires AllCertified(p, infos) && Reached(p, live, infos, w, i, c)
    ensures CoversAt(p, infos, Recorded(p, infos, k, d), w, i, c) <==>
              (p[w].body.code[i].Call? ==> WithinAt(p, infos, w, c, p[w].body.code[i].target, k, d))
  {
    assert Certified(p, infos, w);
    hide AllCertified;
    assert LocalOk(p, infos, p[w].body.code, infos[w].scan, i);
  }

  /** The recorded bounds are right for all live words, that is, at least the needs, if and only if the explored calls
      of opcode-less words stay within them. */
  lemma {:induction false} RecordedExact(p: Program, live: set<nat>, infos: F.Infos)
    requires AllCertified(p, infos) && CallsLive(p, live) && |p| == |infos|
    ensures Within(p, live, infos, 0, 0) <==>
              forall w :: w in live && w < |p| && p[w].body.Interpreted? && infos[w].status.Analysed? ==>
                DataNeed(p, infos, w) <= infos[w].maxData && SlotNeed(p, infos, w) <= infos[w].maxReturn
  {
    hide AllCertified, CallsLive, DataNeed, SlotNeed;
    RecordedCovers(p, live, infos, 0, 0);
    NeedCovers(p, live, infos);
    if Within(p, live, infos, 0, 0) {
      forall w | w in live && w < |p| && p[w].body.Interpreted? && infos[w].status.Analysed?
        ensures DataNeed(p, infos, w) <= infos[w].maxData && SlotNeed(p, infos, w) <= infos[w].maxReturn
      {
        NeedLeast(p, live, infos, Recorded(p, infos, 0, 0), w);
      }
    }
  }

  /** The recorded bounds never exceed the needs. */
  lemma {:induction false} RecordedAtMost(p: Program, infos: F.Infos, w: nat)
    requires AllCertified(p, infos) && AllAttained(p, infos)
    requires w < |p| && p[w].body.Interpreted? && infos[w].status.Analysed?
    ensures |p| == |infos|
    ensures infos[w].maxData <= DataNeed(p, infos, w) && infos[w].maxReturn <= SlotNeed(p, infos, w)
    decreases Rank(p, infos, w), 1, 0
  {
    assert Certified(p, infos, w);
    BoundsExact(p, infos, w);
    AtMostUpTo(p, infos, w, |p[w].body.code|);
  }

  lemma {:induction false} AtMostUpTo(p: Program, infos: F.Infos, w: nat, n: nat)
    requires AllCertified(p, infos) && AllAttained(p, infos)
    requires Scanned(p, infos, w) && infos[w].status.Analysed? && n <= |p[w].body.code|
    ensures DataBoundUpTo(p, infos, w, n) <= DataUpTo(p, infos, w, n)
    ensures ReturnUpTo(p, infos, w, n) <= SlotUpTo(p, infos, w, n)
    decreases Rank(p, infos, w), 0, n
  {
    hide AllCertified, AllAttained, ReturnBound, DataBound, DataNeed, SlotNeed;
    if n > 0 {
      AtMostUpTo(p, infos, w, n - 1);
      UpToAtLeast(p, infos, w, n, n - 1);
      if infos[w].scan.sa[n - 1].Some? && p[w].body.code[n - 1].Call? {
        var v := p[w].body.code[n - 1].target;
        CalleeBounds(p, infos, w, n - 1);
        if p[v].body.Interpreted? {
          RecordedAtMost(p, infos, v);
          BoundsExact(p, infos, v);
        }
      }
    }
  }

  /** So where the explored calls of opcode-less words stay within the recorded bounds, these are the least that cover. */
  lemma {:induction false} RecordedIsNeed(p: Program, live: set<nat>, infos: F.Infos, w: nat)
    requires AllCertified(p, infos) && AllAttained(p, infos) && CallsLive(p, live) && Within(p, live, infos, 0, 0)
    requires w in live && w < |p| && p[w].body.Interpreted? && infos[w].status.Analysed?
    ensures |p| == |infos|
    ensures infos[w].maxData == DataNeed(p, infos, w) && infos[w].maxReturn == SlotNeed(p, infos, w)
  {
    RecordedAtMost(p, infos, w);
    RecordedExact(p, live, infos);
  }

  /** m bounds the growth of the stack by any single live word without opcodes. */
  predicate ExpandsBy(p: Program, live: set<nat>, m: nat) {
    forall w :: w in live && w < |p| && !p[w].body.Interpreted? && p[w].effect.IsKnown() && !p[w].effect.NoExit() ==>
      p[w].effect.dout - p[w].effect.din <= m
  }

  predicate HasData(p: Program, live: set<nat>) {
    exists w :: w in live && w < |p| && p[w].body.Data?
  }

  /** They never fall short by more than the largest expansion and, if there are data words, one return slot. In
      particular they are right where no opcode-less word expands the stack and there are no data words. */
  lemma {:induction false} SlackSuffices(p: Program, live: set<nat>, infos: F.Infos, m: nat)
    requires AllCertified(p, infos) && CallsLive(p, live) && ExpandsBy(p, live, m)
    ensures Within(p, live, infos, m, if HasData(p, live) then 1 else 0)
  {
    forall w: nat, i: nat, c: int | Reached(p, live, infos, w, i, c) && p[w].body.code[i].Call?
      ensures WithinAt(p, infos, w, c, p[w].body.code[i].target, m, if HasData(p, live) then 1 else 0)
    {
      assert Certified(p, infos, w);
      assert LocalOk(p, infos, p[w].body.code, infos[w].scan, i);
      assert p[w].body.code[i].target in live;
    }
  }

  /** The condition is exact at run time too, call by call: when the active word of a run calls an opcode-less word v
      and goes on, it is within its recorded bound after the call if and only if the call is. */
  lemma {:induction false} OvershootHappens(p: Program, live: set<nat>, infos: F.Infos, g: Grant, native: Natives,
                                            w: nat, stack: seq<int32>, n: nat, v: nat)
    requires Granted(p, live, infos, g) && RespectsEffects(p, live, native) && Enterable(p, live, infos, w, stack)
    requires var s := Run(p, native, Start(p, w, stack), n);
             && s.Running? && s.acts != [] && HasOpcode(p, s.acts[|s.acts| - 1])
             && CurrentOp(p, s.acts[|s.acts| - 1]) == Call(v) && v < |p| && !p[v].body.Interpreted?
             && Run(p, native, Start(p, w, stack), n + 1).Running?
    ensures var s, s' := Run(p, native, Start(p, w, stack), n), Run(p, native, Start(p, w, stack), n + 1);
            var a, e := s.acts[|s.acts| - 1], EntryDepth(p, infos, s.acts, |stack|);
            && v < |infos| && ActionAt(p, infos, a, a.off).Some?
            && (|s'.stack| <= e + infos[a.word].maxData <==>
                 ActionAt(p, infos, a, a.off).value + infos[v].effect.dout - infos[v].effect.din
                 <= infos[a.word].maxData)
  {
    RunDepth(p, live, infos, g, native, w, stack, n);
    OpcodelessDepth(p, live, infos, g, native, Run(p, native, Start(p, w, stack), n), v);
    hide Granted, RespectsEffects, Step;
  }

  lemma {:induction false} OpcodelessDepth(p: Program, live: set<nat>, infos: F.Infos, g: Grant, native: Natives,
                                           s: State, v: nat)
    requires Granted(p, live, infos, g) && RespectsEffects(p, live, native) && s.Running? && s.acts != []
    requires var a := s.acts[|s.acts| - 1];
             && a.word in live && a.word < |infos| && infos[a.word].status.Analysed?
             && HasOpcode(p, a) && CurrentOp(p, a) == Call(v) && v < |p| && !p[v].body.Interpreted?
             && ActionAt(p, infos, a, a.off).Some?
             && infos[a.word].effect.din + ActionAt(p, infos, a, a.off).value <= |s.stack|
    ensures Step(p, native, s).Running? ==>
              |Step(p, native, s).stack| == |s.stack| + infos[v].effect.dout - infos[v].effect.din
  {
    var a := s.acts[|s.acts| - 1];
    assert Certified(p, infos, a.word);
    assert LocalOk(p, infos, p[a.word].body.code, infos[a.word].scan, a.off);
    assert v in live;
    if p[v].body.Native? {
      assert Respects(p[v].effect, s.stack, native(v, s.stack));
    }
  }

  // ----- The default bounds of words without opcodes -----

  /** A word that calls v and returns. */
  function Caller(v: Word): Program {
    [Word("caller", Interpreted(0, [Call(1), Ret]), UNKNOWN), v]
  }

  /** The default MaxDataStack of words without opcodes, Math.Min(0, out - in), is right exactly for those
      that do not expand the stack: the analysis grants the word that calls v and returns no extra slot at
      all, and its run stays within that bound iff out <= in. So the grants of FlowSoundness are needed. */
  lemma {:induction false} DefaultBoundExact(v: Word, native: Natives, stack: seq<int32>)
    requires v.body.Native? && v.effect.IsKnown() && !v.effect.NoExit()
    requires v.effect.din <= |stack| && native(1, stack).Some? && Respects(v.effect, stack, native(1, stack))
    ensures var p := Caller(v);
            var r := F.Analyse(p, F.InitialInfos(p), 0);
            && r.Accepted? && r.infos[0].maxData == 0
            && var s := Run(p, native, Start(p, 0, stack), 1);
               && s.Running?
               && (|s.stack| <= |stack| + r.infos[0].maxData <==> v.effect.dout <= v.effect.din)
  {
    var p := Caller(v);
    CallerAccepted(p, v);
    var s0 := Start(p, 0, stack);
    assert Run(p, native, s0, 1) == Step(p, native, Run(p, native, s0, 0)) == Step(p, native, s0);
    assert s0.acts[0] == EnterWord(0, 0) && CurrentOp(p, s0.acts[0]) == Call(1);
  }

  lemma {:induction false} CallerAccepted(p: Program, v: Word)
    requires p == Caller(v) && !v.body.Interpreted? && v.effect.IsKnown() && !v.effect.NoExit()
    ensures var r := F.Analyse(p, F.InitialInfos(p), 0);
            r.Accepted? && r.infos[0].maxData == 0 && r.infos[0].maxReturn == 1
  {
    var infos, code := F.InitialInfos(p), p[0].body.code;
    var marked := infos[0 := infos[0].(status := F.Ongoing)];
    var st0, d := F.StartScan(2), v.effect.dout - v.effect.din;
    assert st0.sa == [Some(0), None] && F.Analyse(p, marked, 1) == F.Accepted(marked);
    F.CallProgress(2, p, marked, st0, 1);
    var st1 := F.Scan([Some(0), Some(d)], [], 0, 1, None, 0, 0, Min(Min(0, -v.effect.din), d));
    assert F.CallMove(p, marked, st0, 1) == F.Next(st1);
    F.PlainProgress(2, st1, Ret);
    assert F.PlainMove(st1, Ret) == F.Finish(st1.(exit := Some(d)));
    assert F.Explore(p, marked, 0, st1) == F.Conclude(p, marked, 0, st1.(exit := Some(d)));
    assert F.Explore(p, marked, 0, st0) == F.Explore(p, marked, 0, st1);
  }
}
