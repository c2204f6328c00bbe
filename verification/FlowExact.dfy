/** The bounds and the inputs that the analysis records are not only large enough but exactly what the explored opcodes
    call for. */
module FlowExact {
  import opened Ints
  import opened Opcodes
  import opened Flow
  import opened FlowCert
  import opened FlowReject

  // ----- What is recorded is met somewhere -----

  /** Opcode i, met at action c, leaves d on the data stack, or its callee may. */
  predicate MarksData(p: Program, infos: Infos, code: seq<Opcode>, sa: seq<Option<int>>, i: nat, d: int) {
    && i < |code| == |sa| && sa[i].Some? && |p| == |infos|
    && match code[i]
       case Call(v) => Settled(p, infos, v) && d == sa[i].value + MaxDataOf(p, infos, v)
       case CallByName(_) => false
       case Ret => false
       case op => d == sa[i].value + op.StackAction()
  }

  predicate MarksSlots(p: Program, infos: Infos, code: seq<Opcode>, sa: seq<Option<int>>, i: nat, d: int) {
    && i < |code| == |sa| && sa[i].Some? && |p| == |infos|
    && code[i].Call? && Settled(p, infos, code[i].target) && d == MaxReturnOf(p, infos, code[i].target)
  }

  /** Opcode i, met at action c, takes the stack down to d. */
  predicate MarksLow(p: Program, infos: Infos, code: seq<Opcode>, sa: seq<Option<int>>, i: nat, d: int) {
    && i < |code| == |sa| && sa[i].Some? && |p| == |infos|
    && match code[i]
       case Call(v) =>
         && Settled(p, infos, v)
         && var se := infos[v].effect;
            d == sa[i].value - se.din || d == sa[i].value + if se.NoExit() then 0 else se.dout - se.din
       case CallByName(_) => false
       case op => d == sa[i].value + op.StackAction()
  }

  predicate MarksExit(code: seq<Opcode>, sa: seq<Option<int>>, i: nat, d: int) {
    i < |code| == |sa| && sa[i] == Some(d) && code[i].Ret?
  }

  /** The accumulators of a scan are 0, or not set, or met at an explored opcode. */
  ghost predicate Attained(p: Program, infos: Infos, code: seq<Opcode>, st: Scan) {
    && (st.exit.Some? ==> exists i: nat :: MarksExit(code, st.sa, i, st.exit.value))
    && (st.mds == 0 || exists i: nat :: MarksData(p, infos, code, st.sa, i, st.mds))
    && (st.mrs == 0 || exists i: nat :: MarksSlots(p, infos, code, st.sa, i, st.mrs))
    && (st.maxDepth == 0 || exists i: nat :: MarksLow(p, infos, code, st.sa, i, st.maxDepth))
  }

  ghost predicate AllAttained(p: Program, infos: Infos) {
    && |p| == |infos|
    && (forall w :: 0 <= w < |p| && p[w].body.Interpreted? && infos[w].status.Analysed? ==>
          Attained(p, infos, p[w].body.code, infos[w].scan))
    && forall w :: 0 <= w < |p| && p[w].body.Interpreted? ==>
         infos[w].effect == if infos[w].status.Analysed? && !p[w].effect.IsKnown() then Computed(infos[w].scan)
                            else p[w].effect
  }

  /** What is settled stays so, and the annotation only grows. */
  ghost predicate Later(p: Program, a: Infos, b: Infos, sa: seq<Option<int>>, sb: seq<Option<int>>) {
    && |p| == |a| == |b| && |sa| == |sb| && (forall i :: 0 <= i < |sa| && sa[i].Some? ==> sb[i] == sa[i])
    && forall v: nat :: Settled(p, a, v) ==> SameCallee(p, a, b, v)
  }

  predicate SameCallee(p: Program, a: Infos, b: Infos, v: nat) {
    && v < |p| == |a| == |b| && Settled(p, b, v) && b[v].effect == a[v].effect
    && (p[v].body.Interpreted? ==> b[v].maxData == a[v].maxData && b[v].maxReturn == a[v].maxReturn)
  }

  lemma {:induction false} MarksLater(p: Program, a: Infos, b: Infos, code: seq<Opcode>, sa: seq<Option<int>>,
                                      sb: seq<Option<int>>, i: nat, d: int)
    requires Later(p, a, b, sa, sb)
    ensures MarksData(p, a, code, sa, i, d) ==> MarksData(p, b, code, sb, i, d)
    ensures MarksSlots(p, a, code, sa, i, d) ==> MarksSlots(p, b, code, sb, i, d)
    ensures MarksLow(p, a, code, sa, i, d) ==> MarksLow(p, b, code, sb, i, d)
    ensures MarksExit(code, sa, i, d) ==> MarksExit(code, sb, i, d)
  {
    if i < |code| && code[i].Call? && Settled(p, a, code[i].target) {
      assert SameCallee(p, a, b, code[i].target);
    }
  }

  lemma {:induction false} AttainedLater(p: Program, a: Infos, b: Infos, code: seq<Opcode>, st: Scan, st1: Scan)
    requires Attained(p, a, code, st) && Later(p, a, b, st.sa, st1.sa)
    requires st1.mds == st.mds && st1.mrs == st.mrs && st1.maxDepth == st.maxDepth && st1.exit == st.exit
    ensures Attained(p, b, code, st1)
  {
    forall i: nat, d
      ensures MarksData(p, a, code, st.sa, i, d) ==> MarksData(p, b, code, st1.sa, i, d)
      ensures MarksSlots(p, a, code, st.sa, i, d) ==> MarksSlots(p, b, code, st1.sa, i, d)
      ensures MarksLow(p, a, code, st.sa, i, d) ==> MarksLow(p, b, code, st1.sa, i, d)
      ensures MarksExit(code, st.sa, i, d) ==> MarksExit(code, st1.sa, i, d)
    {
      MarksLater(p, a, b, code, st.sa, st1.sa, i, d);
    }
    hide MarksData, MarksSlots, MarksLow, MarksExit, Later;
  }

  /** Analysing another word, or growing the annotation, settles nothing anew. */
  lemma {:induction false} KeptLater(p: Program, a: Infos, b: Infos, st: Scan)
    requires AllCertified(p, a) && AllCertified(p, b) && AllKept(a, b)
    ensures Later(p, a, b, st.sa, st.sa)
  {
    hide Certified;
    forall v: nat | Settled(p, a, v)
      ensures SameCallee(p, a, b, v)
    {
    }
  }

  // ----- One opcode -----

  /** The accumulators after the opcode: unchanged, or what the opcode marks. */
  predicate Accumulated(p: Program, infos: Infos, code: seq<Opcode>, st: Scan, st1: Scan) {
    && (st1.mds == st.mds || MarksData(p, infos, code, st1.sa, st.off, st1.mds))
    && (st1.mrs == st.mrs || MarksSlots(p, infos, code, st1.sa, st.off, st1.mrs))
    && (st1.maxDepth == st.maxDepth || MarksLow(p, infos, code, st1.sa, st.off, st1.maxDepth))
    && (st1.exit == st.exit || (st1.exit.Some? && MarksExit(code, st1.sa, st.off, st1.exit.value)))
  }

  lemma {:induction false} MoveAttains(p: Program, infos: Infos, code: seq<Opcode>, st: Scan, st1: Scan)
    requires Attained(p, infos, code, st) && Later(p, infos, infos, st.sa, st1.sa)
    requires Accumulated(p, infos, code, st, st1)
    ensures Attained(p, infos, code, st1)
  {
    AttainedLater(p, infos, infos, code, st, st.(sa := st1.sa));
    hide MarksData, MarksSlots, MarksLow, MarksExit, Later;
  }

  ghost predicate MoveAttained(p: Program, infos: Infos, code: seq<Opcode>, m: Move) {
    m.Reject? || Attained(p, infos, code, m.st)
  }

  lemma {:induction false} PlainAttains(p: Program, infos: Infos, code: seq<Opcode>, st: Scan)
    requires ScanInv(p, infos, code, st) && Attained(p, infos, code, st)
    ensures MoveAttained(p, infos, code, PlainMove(st, code[st.off]))
  {
    hide Advance, Attained, Queued, Pending, LocalOk;
    var op, c, m := code[st.off], st.sa[st.off].value, PlainMove(st, code[st.off]);
    if !m.Reject? {
      var st1 := if op.Ret? then st.(exit := Some(c)) else st.(mds := Max(st.mds, c + op.StackAction()));
      AdvanceIsAdvanced(st1, c + op.StackAction(), op.JumpDisp(), op.MayFallThrough());
      assert m == Advance(st1, c + op.StackAction(), op.JumpDisp(), op.MayFallThrough());
      SelfLater(p, infos, st.sa, m.st.sa);
      MoveAttains(p, infos, code, st, m.st);
    }
  }

  lemma {:induction false} SelfLater(p: Program, infos: Infos, sa: seq<Option<int>>, sb: seq<Option<int>>)
    requires |p| == |infos| && |sa| == |sb| && forall i :: 0 <= i < |sa| && sa[i].Some? ==> sb[i] == sa[i]
    ensures Later(p, infos, infos, sa, sb)
  {
  }

  lemma {:induction false} CallAttains(p: Program, infos: Infos, code: seq<Opcode>, st: Scan, v: nat)
    requires ScanInv(p, infos, code, st) && Attained(p, infos, code, st) && code[st.off] == Call(v) && v < |p|
    requires p[v].body.Interpreted? ==> infos[v].status.Analysed?
    ensures MoveAttained(p, infos, code, CallMove(p, infos, st, v))
  {
    hide Advance, Attained, Queued, Pending, LocalOk, MaxDataOf, MaxReturnOf;
    var c, m, se := st.sa[st.off].value, CallMove(p, infos, st, v), infos[v].effect;
    if !m.Reject? {
      var st1 := st.(mds := Max(st.mds, c + MaxDataOf(p, infos, v)), mrs := Max(st.mrs, MaxReturnOf(p, infos, v)),
                     maxDepth := Min(st.maxDepth, c - se.din));
      var d := c + if se.NoExit() then 0 else se.dout - se.din;
      AdvanceIsAdvanced(st1, d, 0, !se.NoExit());
      assert m == Advance(st1, d, 0, !se.NoExit());
      SelfLater(p, infos, st.sa, m.st.sa);
      MoveAttains(p, infos, code, st, m.st);
    }
  }

  // ----- The whole analysis -----

  lemma {:induction false} StoreAttains(p: Program, infos: Infos, w: nat, info: Info)
    requires AllCertified(p, infos) && AllAttained(p, infos) && w < |p| && p[w].body.Interpreted?
    requires !infos[w].status.Analysed?
    requires info.status.Analysed? ==> Attained(p, infos, p[w].body.code, info.scan)
    requires info.effect == if info.status.Analysed? && !p[w].effect.IsKnown() then Computed(info.scan)
                            else p[w].effect
    ensures AllAttained(p, infos[w := info])
  {
    hide Attained, Certified;
    var b := infos[w := info];
    forall u | 0 <= u < |p| && p[u].body.Interpreted? && b[u].status.Analysed?
      ensures Attained(p, b, p[u].body.code, b[u].scan)
    {
      forall v: nat | Settled(p, infos, v)
        ensures SameCallee(p, infos, b, v)
      {
      }
      AttainedLater(p, infos, b, p[u].body.code, b[u].scan, b[u].scan);
    }
  }

  /** Whatever the verdict, what has been recorded about analysed words is met somewhere. */
  lemma {:induction false} AnalyseAttains(p: Program, infos: Infos, w: nat)
    requires AllCertified(p, infos) && AllAttained(p, infos) && w < |p|
    ensures AllAttained(p, Analyse(p, infos, w).infos)
    decreases FreshWords(infos), 0, FreshWords([]), 0, 0
  {
    if p[w].body.Interpreted? && infos[w].status.Fresh? && p[w].body.code != [] {
      assert w in FreshWords(infos);
      var marked := infos[w].(status := Ongoing);
      StoreKeeps(p, infos, w, marked);
      StoreAttains(p, infos, w, marked);
      StartInv(p, infos[w := marked], p[w].body.code);
      ExploreAttains(p, infos[w := marked], w, StartScan(|p[w].body.code|));
    }
  }

  lemma {:induction false} ExploreAttains(p: Program, infos: Infos, w: nat, st: Scan)
    requires AllCertified(p, infos) && IsOngoing(p, infos, w) && ScanInv(p, infos, p[w].body.code, st)
    requires AllAttained(p, infos) && Attained(p, infos, p[w].body.code, st)
    ensures AllAttained(p, Explore(p, infos, w, st).infos)
    decreases FreshWords(infos), 1, Unset(st.sa), |p[w].body.code| - st.tX, 1
  {
    hide Advance, Attained, AllAttained, AllCertified, Progress, MoveAttained;
    var code := p[w].body.code;
    var op := code[st.off];
    if op.Call? && op.target < |p| {
      AnalyseCertifies(p, infos, op.target);
      AnalyseAttains(p, infos, op.target);
      var r := Analyse(p, infos, op.target);
      if r.Accepted? {
        InvKeptHere(p, infos, r.infos, code, st);
        CallKeepsInv(p, r.infos, code, st, op.target);
        CallAttains(p, r.infos, code, st, op.target);
        CallProgress(|code|, p, r.infos, st, op.target);
        FollowAttains(p, infos, r.infos, w, st, CallMove(p, r.infos, st, op.target));
      }
    } else {
      PlainKeepsInv(p, infos, code, st);
      PlainAttains(p, infos, code, st);
      PlainProgress(|code|, st, op);
      FollowAttains(p, infos, infos, w, st, PlainMove(st, op));
    }
  }

  lemma {:induction false} InvKeptHere(p: Program, a: Infos, b: Infos, code: seq<Opcode>, st: Scan)
    requires AllCertified(p, a) && AllCertified(p, b) && AllKept(a, b)
    requires ScanInv(p, a, code, st) && Attained(p, a, code, st)
    ensures ScanInv(p, b, code, st) && Attained(p, b, code, st)
  {
    hide Certified, ScanInv, Attained, Settled;
    InvKept(p, a, b, code, st);
    KeptLater(p, a, b, st);
    AttainedLater(p, a, b, code, st, st);
  }

  lemma {:induction false} FollowAttains(p: Program, before: Infos, infos: Infos, w: nat, st: Scan, m: Move)
    requires IsOngoing(p, before, w) && AllKept(before, infos) && Formed(|p[w].body.code|, st)
    requires Progress(|p[w].body.code|, st, m) && AllCertified(p, infos) && AllAttained(p, infos)
    requires m.Next? ==> ScanInv(p, infos, p[w].body.code, m.st)
    requires m.Finish? ==> Complete(p, infos, p[w].body.code, m.st)
    requires MoveAttained(p, infos, p[w].body.code, m)
    ensures AllAttained(p, Follow(p, before, infos, w, st, m).infos)
    decreases FreshWords(before), 1, Unset(st.sa), |p[w].body.code| - st.tX, 0
  {
    hide Attained, Certified, Computed;
    match m
    case Reject(_) =>
    case Finish(st') =>
      var r := Conclude(p, infos, w, st');
      if r.Accepted? {
        StoreAttains(p, infos, w, r.infos[w]);
      }
    case Next(st') => ExploreAttains(p, infos, w, st');
  }

  // ----- The recorded bounds in closed form -----

  function Rank(p: Program, infos: Infos, w: nat): nat
    requires w < |p| == |infos|
  {
    if p[w].body.Interpreted? && infos[w].maxReturn > 0 then infos[w].maxReturn else 0
  }

  predicate Scanned(p: Program, infos: Infos, w: nat) {
    w < |p| == |infos| && p[w].body.Interpreted? && |infos[w].scan.sa| == |p[w].body.code|
  }

  /** Return slots: the frame of the word and the deepest callee; words without opcodes count for nothing. */
  function ReturnBound(p: Program, infos: Infos, w: nat): int
    requires w < |p| == |infos|
    decreases Rank(p, infos, w), 1, 0
  {
    if Scanned(p, infos, w) then 1 + p[w].body.numLocals + ReturnUpTo(p, infos, w, |p[w].body.code|) else 0
  }

  function ReturnUpTo(p: Program, infos: Infos, w: nat, n: nat): int
    requires Scanned(p, infos, w) && n <= |p[w].body.code|
    decreases Rank(p, infos, w), 0, n
  {
    if n == 0 then 0
    else
      var rest := ReturnUpTo(p, infos, w, n - 1);
      match p[w].body.code[n - 1]
      case Call(v) =>
        if infos[w].scan.sa[n - 1].Some? && v < |p| && p[v].body.Interpreted? && Rank(p, infos, v) < Rank(p, infos, w)
        then Max(rest, ReturnBound(p, infos, v)) else rest
      case _ => rest
  }

  /** Data slots above the entry depth: what the explored opcodes leave, and what callees need above theirs. A word
      without opcodes counts with the smaller of the depths before and after it. */
  function DataBound(p: Program, infos: Infos, w: nat): int
    requires w < |p| == |infos|
    decreases Rank(p, infos, w), 1, 0
  {
    if Scanned(p, infos, w) then DataBoundUpTo(p, infos, w, |p[w].body.code|) else 0
  }

  function DataBoundUpTo(p: Program, infos: Infos, w: nat, n: nat): int
    requires Scanned(p, infos, w) && n <= |p[w].body.code|
    decreases Rank(p, infos, w), 0, n
  {
    if n == 0 then 0
    else
      var rest := DataBoundUpTo(p, infos, w, n - 1);
      if infos[w].scan.sa[n - 1].None? then rest
      else
        var c := infos[w].scan.sa[n - 1].value;
        match p[w].body.code[n - 1]
        case Call(v) =>
          if v >= |p| then rest
          else if p[v].body.Interpreted? then
            if Rank(p, infos, v) < Rank(p, infos, w) then Max(rest, c + DataBound(p, infos, v)) else rest
          else
            var se := infos[v].effect;
            Max(rest, if se.NoExit() || se.dout >= se.din then c else c - (se.din - se.dout))
        case Ret => rest
        case op => Max(rest, c + op.StackAction())
  }

  /** A certified callee is ranked below its caller. */
  lemma {:induction false} CalleeRank(p: Program, infos: Infos, w: nat, i: nat, v: nat)
    requires AllCertified(p, infos) && Scanned(p, infos, w) && infos[w].status.Analysed?
    requires i < |p[w].body.code| && infos[w].scan.sa[i].Some? && p[w].body.code[i] == Call(v)
    ensures Settled(p, infos, v)
    ensures p[v].body.Interpreted? ==> Rank(p, infos, v) < Rank(p, infos, w)
  {
    assert Certified(p, infos, w);
    assert LocalOk(p, infos, p[w].body.code, infos[w].scan, i);
    if p[v].body.Interpreted? {
      assert Certified(p, infos, v);
    }
  }

  /** What the analysis has recorded is exactly this. */
  lemma {:induction false} BoundsExact(p: Program, infos: Infos, w: nat)
    requires AllCertified(p, infos) && AllAttained(p, infos)
    requires w < |p| && p[w].body.Interpreted? && infos[w].status.Analysed?
    ensures |p| == |infos|
    ensures infos[w].maxReturn == ReturnBound(p, infos, w) && infos[w].maxData == DataBound(p, infos, w)
    decreases Rank(p, infos, w), 1, 0
  {
    assert Certified(p, infos, w);
    var st, n := infos[w].scan, |p[w].body.code|;
    BoundsUpTo(p, infos, w, n);
    if st.mrs != 0 {
      var i: nat :| MarksSlots(p, infos, p[w].body.code, st.sa, i, st.mrs);
      MarkCounted(p, infos, w, i, n);
    }
    if st.mds != 0 {
      var i: nat :| MarksData(p, infos, p[w].body.code, st.sa, i, st.mds);
      MarkCounted(p, infos, w, i, n);
    }
  }

  /** Nothing exceeds what is recorded. */
  lemma {:induction false} BoundsUpTo(p: Program, infos: Infos, w: nat, n: nat)
    requires AllCertified(p, infos) && AllAttained(p, infos)
    requires Scanned(p, infos, w) && infos[w].status.Analysed? && n <= |p[w].body.code|
    ensures 0 <= ReturnUpTo(p, infos, w, n) <= infos[w].scan.mrs
    ensures 0 <= DataBoundUpTo(p, infos, w, n) <= infos[w].scan.mds
    decreases Rank(p, infos, w), 0, n
  {
    hide AllAttained;
    assert Certified(p, infos, w);
    if n > 0 {
      BoundsUpTo(p, infos, w, n - 1);
      if infos[w].scan.sa[n - 1].Some? {
        assert LocalOk(p, infos, p[w].body.code, infos[w].scan, n - 1);
        CalleeBounds(p, infos, w, n - 1);
      }
    }
  }

  /** The bounds of a callee are exact by induction. */
  lemma {:induction false} CalleeBounds(p: Program, infos: Infos, w: nat, i: nat)
    requires AllCertified(p, infos) && AllAttained(p, infos)
    requires Scanned(p, infos, w) && infos[w].status.Analysed? && i < |p[w].body.code|
    requires infos[w].scan.sa[i].Some?
    ensures p[w].body.code[i].Call? ==>
              var v := p[w].body.code[i].target;
              && Settled(p, infos, v)
              && (p[v].body.Interpreted? ==>
                    && Rank(p, infos, v) < Rank(p, infos, w)
                    && MaxReturnOf(p, infos, v) == ReturnBound(p, infos, v)
                    && MaxDataOf(p, infos, v) == DataBound(p, infos, v))
    decreases Rank(p, infos, w), 0, i
  {
    hide ReturnBound, DataBound, AllAttained, AllCertified;
    if p[w].body.code[i].Call? {
      var v := p[w].body.code[i].target;
      CalleeRank(p, infos, w, i, v);
      if p[v].body.Interpreted? {
        BoundsExact(p, infos, v);
      }
    }
  }

  /** What an explored opcode marks is counted. */
  lemma {:induction false} MarkCounted(p: Program, infos: Infos, w: nat, i: nat, n: nat)
    requires AllCertified(p, infos) && AllAttained(p, infos)
    requires Scanned(p, infos, w) && infos[w].status.Analysed? && i < n <= |p[w].body.code|
    ensures forall d :: MarksSlots(p, infos, p[w].body.code, infos[w].scan.sa, i, d) ==>
                          d <= 0 || d <= ReturnUpTo(p, infos, w, n)
    ensures forall d :: MarksData(p, infos, p[w].body.code, infos[w].scan.sa, i, d) ==> d <= DataBoundUpTo(p, infos, w, n)
    decreases Rank(p, infos, w), 0, n
  {
    hide AllAttained, AllCertified;
    if i < n - 1 {
      MarkCounted(p, infos, w, i, n - 1);
    } else if infos[w].scan.sa[i].Some? {
      CalleeBounds(p, infos, w, i);
    }
  }

  // ----- The inputs in closed form -----

  /** The lowest depth that an explored opcode below n takes the stack to, 0 at most: the inputs of a callee, and what
      it leaves if it returns. */
  function LowUpTo(p: Program, infos: Infos, w: nat, n: nat): int
    requires Scanned(p, infos, w) && n <= |p[w].body.code|
  {
    if n == 0 then 0
    else
      var rest := LowUpTo(p, infos, w, n - 1);
      if infos[w].scan.sa[n - 1].None? then rest
      else
        var c := infos[w].scan.sa[n - 1].value;
        match p[w].body.code[n - 1]
        case Call(v) =>
          if v >= |p| then rest
          else
            var se := infos[v].effect;
            Min(rest, if se.NoExit() then c - se.din else Min(c - se.din, c - se.din + se.dout))
        case op => Min(rest, c + op.StackAction())
  }

  lemma {:induction false} LowExact(p: Program, infos: Infos, w: nat)
    requires AllCertified(p, infos) && AllAttained(p, infos)
    requires w < |p| && p[w].body.Interpreted? && infos[w].status.Analysed?
    ensures Scanned(p, infos, w) && infos[w].scan.maxDepth == LowUpTo(p, infos, w, |p[w].body.code|)
  {
    assert Certified(p, infos, w);
    var st, n := infos[w].scan, |p[w].body.code|;
    LowAtLeast(p, infos, w, n);
    if st.maxDepth != 0 {
      var i: nat :| MarksLow(p, infos, p[w].body.code, st.sa, i, st.maxDepth);
      LowCounted(p, infos, w, i, n, st.maxDepth);
    }
  }

  lemma {:induction false} LowAtLeast(p: Program, infos: Infos, w: nat, n: nat)
    requires AllCertified(p, infos) && Scanned(p, infos, w) && infos[w].status.Analysed? && n <= |p[w].body.code|
    ensures infos[w].scan.maxDepth <= LowUpTo(p, infos, w, n) <= 0
  {
    assert Certified(p, infos, w);
    if n > 0 {
      LowAtLeast(p, infos, w, n - 1);
      if infos[w].scan.sa[n - 1].Some? {
        assert LocalOk(p, infos, p[w].body.code, infos[w].scan, n - 1);
      }
    }
  }

  lemma {:induction false} LowCounted(p: Program, infos: Infos, w: nat, i: nat, n: nat, d: int)
    requires Scanned(p, infos, w) && i < n <= |p[w].body.code|
    requires MarksLow(p, infos, p[w].body.code, infos[w].scan.sa, i, d) && d < 0
    ensures LowUpTo(p, infos, w, n) <= d
    decreases n
  {
    if i < n - 1 {
      LowCounted(p, infos, w, i, n - 1, d);
    }
  }

  /** The inferred effect of an undeclared word: its inputs are what the lowest depth asks for, it has an exit exactly
      if a `ret` is explored, and leaves what is there at every `ret`. */
  lemma {:induction false} EffectExact(p: Program, infos: Infos, w: nat)
    requires AllCertified(p, infos) && AllAttained(p, infos)
    requires w < |p| && p[w].body.Interpreted? && infos[w].status.Analysed? && !p[w].effect.IsKnown()
    ensures Scanned(p, infos, w) && infos[w].effect.din == -LowUpTo(p, infos, w, |p[w].body.code|)
    ensures infos[w].effect.NoExit() <==>
              forall i :: 0 <= i < |p[w].body.code| && p[w].body.code[i].Ret? ==> infos[w].scan.sa[i].None?
    ensures forall i :: 0 <= i < |p[w].body.code| && p[w].body.code[i].Ret? && infos[w].scan.sa[i].Some? ==>
              infos[w].scan.sa[i].value == infos[w].effect.dout - infos[w].effect.din
  {
    LowExact(p, infos, w);
    hide LowUpTo;
    assert Certified(p, infos, w);
    var code, st := p[w].body.code, infos[w].scan;
    forall i | 0 <= i < |code| && code[i].Ret? && st.sa[i].Some?
      ensures st.exit == st.sa[i]
    {
      assert LocalOk(p, infos, code, st, i);
    }
    if st.exit.Some? {
      var i: nat :| MarksExit(code, st.sa, i, st.exit.value);
      assert i < |code| && code[i].Ret? && st.sa[i].Some?;
    }
  }

  /** The inputs are the fewest: the annotation fits a number of inputs if and only if it is at least this. */
  lemma {:induction false} FewestInputs(p: Program, infos: Infos, w: nat, din: nat)
    requires AllCertified(p, infos) && AllAttained(p, infos)
    requires w < |p| && p[w].body.Interpreted? && infos[w].status.Analysed?
    ensures Scanned(p, infos, w)
    ensures din >= -infos[w].scan.maxDepth <==>
              var code, st := p[w].body.code, infos[w].scan;
              forall i :: 0 <= i < |code| && st.sa[i].Some? ==>
                LocallyConsistent(p, infos, code, st.sa, st.exit, Some(din), i)
  {
    assert Certified(p, infos, w);
    var code, st := p[w].body.code, infos[w].scan;
    forall i | 0 <= i < |code| && st.sa[i].Some?
      ensures LocalOk(p, infos, code, st, i)
      ensures din >= -st.maxDepth ==> LocallyConsistent(p, infos, code, st.sa, st.exit, Some(din), i)
    {
      assert LocalOk(p, infos, code, st, i);
      if din >= -st.maxDepth {
        OkIsConsistent(p, infos, code, st, Some(din), i);
      }
    }
    if st.maxDepth != 0 {
      var i: nat :| MarksLow(p, infos, code, st.sa, i, st.maxDepth);
      LowBinds(p, infos, code, st, i, din);
    }
    hide LocallyConsistent, LocalOk, MarksLow;
  }

  lemma {:induction false} LowBinds(p: Program, infos: Infos, code: seq<Opcode>, st: Scan, i: nat, din: nat)
    requires MarksLow(p, infos, code, st.sa, i, st.maxDepth)
    ensures LocallyConsistent(p, infos, code, st.sa, st.exit, Some(din), i) ==> din >= -st.maxDepth
  {
  }
}
