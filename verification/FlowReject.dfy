/** What rejection means: apart from recursion and from an overflow of the work queue, a rejected word
    has no consistent annotation at all. */
module FlowReject {
  import opened Ints
  import opened Opcodes
  import opened Flow
  import opened FlowCert

  // ----- Consistent annotations -----

  /** A callee whose effect is decided: it has no opcodes, or its analysis is over. */
  predicate Decided(p: Program, infos: Infos, v: nat) {
    v < |p| == |infos| && (p[v].body.Interpreted? ==> infos[v].status.Analysed?)
  }

  /** Stack action s[i] is compatible with opcode i and with the annotation of its successors. Calls of
      words that are not decided are left unconstrained. `exit` is the action at every `ret`, and no
      action may fall below `-floor` if a floor is given. */
  predicate LocallyConsistent(p: Program, infos: Infos, code: seq<Opcode>, s: seq<Option<int>>,
                              exit: Option<int>, floor: Option<int>, i: nat)
    requires i < |code| == |s| && s[i].Some?
  {
    var c := s[i].value;
    match code[i]
    case Ret => exit == Some(c) && AtLeast(floor, c)
    case Call(v) =>
      && v < |p|
      && (Decided(p, infos, v) ==>
            var se := infos[v].effect;
            && se.IsKnown() && AtLeast(floor, c - se.din)
            && (se.NoExit() ==> AtLeast(floor, c))
            && (!se.NoExit() ==> AtLeast(floor, c + se.dout - se.din) && FlowsTo(s, i + 1, c + se.dout - se.din)))
    case CallByName(_) => false
    case op =>
      var d := c + op.StackAction();
      && AtLeast(floor, d)
      && (op.JumpDisp() != 0 ==> FlowsTo(s, i + 1 + op.JumpDisp(), d))
      && (op.MayFallThrough() ==> FlowsTo(s, i + 1, d))
  }

  predicate AtLeast(floor: Option<int>, c: int) {
    floor.Some? ==> c >= -floor.value
  }

  /** A declared effect bounds the action below and fixes the action at `ret`. */
  function Floor(declared: SType): Option<int> {
    if declared.IsKnown() then Some(declared.din) else None
  }

  predicate Consistent(p: Program, infos: Infos, w: nat, s: seq<Option<int>>, exit: Option<int>) {
    && w < |p| == |infos| && p[w].body.Interpreted?
    && var code := p[w].body.code;
       var declared := infos[w].effect;
       && |s| == |code| > 0 && s[0] == Some(0)
       && (forall i :: 0 <= i < |code| && s[i].Some? ==>
             LocallyConsistent(p, infos, code, s, exit, Floor(declared), i))
       && (declared.IsKnown() && exit.Some? ==> !declared.NoExit() && exit.value == declared.dout - declared.din)
  }

  /** The annotation of an accepted word is consistent in this sense. */
  lemma {:induction false} CertifiedIsConsistent(p: Program, infos: Infos, w: nat)
    requires |p| == |infos| && w < |p| && p[w].body.Interpreted? && Certified(p, infos, w)
    ensures Consistent(p, infos, w, infos[w].scan.sa, infos[w].scan.exit)
  {
    hide LocalOk, LocallyConsistent, Bounds;
    var code, st := p[w].body.code, infos[w].scan;
    assert AtLeast(Floor(infos[w].effect), st.maxDepth);
    forall i | 0 <= i < |code| && st.sa[i].Some?
      ensures LocallyConsistent(p, infos, code, st.sa, st.exit, Floor(infos[w].effect), i)
    {
      OkIsConsistent(p, infos, code, st, Floor(infos[w].effect), i);
    }
    CertifiedExit(p, infos, w);
  }

  lemma {:induction false} OkIsConsistent(p: Program, infos: Infos, code: seq<Opcode>, st: Scan, floor: Option<int>,
                                          i: nat)
    requires i < |code| == |st.sa| && st.sa[i].Some? && LocalOk(p, infos, code, st, i) && |p| == |infos|
    requires Bounds(st) && AtLeast(floor, st.maxDepth)
    ensures LocallyConsistent(p, infos, code, st.sa, st.exit, floor, i)
  {
    hide FlowsTo;
  }

  lemma {:induction false} CertifiedExit(p: Program, infos: Infos, w: nat)
    requires |p| == |infos| && w < |p| && p[w].body.Interpreted? && Certified(p, infos, w)
    ensures var se, exit := infos[w].effect, infos[w].scan.exit;
            exit.Some? ==> !se.NoExit() && exit.value == se.dout - se.din
  {
  }

  // ----- Every scan is forced -----

  /** What the scan has found so far is what every consistent annotation says. */
  predicate Agrees(st: Scan, s: seq<Option<int>>, exit: Option<int>, floor: Option<int>) {
    && |st.sa| == |s|
    && (forall i :: 0 <= i < |s| && st.sa[i].Some? ==> s[i] == st.sa[i])
    && (st.exit.Some? ==> exit == st.exit)
    && AtLeast(floor, st.maxDepth)
  }

  lemma AdvanceAgrees(st: Scan, c: int, disp: int, mft: bool, s: seq<Option<int>>, exit: Option<int>,
                      floor: Option<int>)
    requires Formed(|st.sa|, st) && Agrees(st, s, exit, floor) && AtLeast(floor, c)
    requires disp != 0 ==> FlowsTo(s, st.off + 1 + disp, c)
    requires mft ==> FlowsTo(s, st.off + 1, c)
    ensures var m := Advance(st, c, disp, mft);
            if m.Reject? then m.reason.QueueFull? else Agrees(m.st, s, exit, floor)
  {
  }

  lemma {:induction false} PlainAgrees(p: Program, infos: Infos, code: seq<Opcode>, st: Scan, s: seq<Option<int>>,
                                       exit: Option<int>, floor: Option<int>)
    requires Formed(|code|, st) && |s| == |code| && Agrees(st, s, exit, floor)
    requires LocallyConsistent(p, infos, code, s, exit, floor, st.off)
    requires !(code[st.off].Call? && code[st.off].target < |p|)
    ensures var m := PlainMove(st, code[st.off]);
            if m.Reject? then m.reason.QueueFull? else Agrees(m.st, s, exit, floor)
  {
    hide Advance;
    var op, c := code[st.off], st.sa[st.off].value;
    var st1 := if op.Ret? then st.(exit := Some(c)) else st.(mds := Max(st.mds, c + op.StackAction()));
    AdvanceAgrees(st1, c + op.StackAction(), op.JumpDisp(), op.MayFallThrough(), s, exit, floor);
  }

  lemma {:induction false} CallAgrees(p: Program, infos: Infos, code: seq<Opcode>, st: Scan, v: nat,
                                      s: seq<Option<int>>, exit: Option<int>, floor: Option<int>)
    requires Formed(|code|, st) && |s| == |code| && Agrees(st, s, exit, floor)
    requires code[st.off] == Call(v) && Decided(p, infos, v)
    requires LocallyConsistent(p, infos, code, s, exit, floor, st.off)
    ensures var m := CallMove(p, infos, st, v);
            if m.Reject? then m.reason.QueueFull? else Agrees(m.st, s, exit, floor)
  {
    hide Advance, MaxDataOf, MaxReturnOf;
    var c, se := st.sa[st.off].value, infos[v].effect;
    var st1 := st.(mds := Max(st.mds, c + MaxDataOf(p, infos, v)), mrs := Max(st.mrs, MaxReturnOf(p, infos, v)),
                   maxDepth := Min(st.maxDepth, c - se.din));
    AdvanceAgrees(st1, c + if se.NoExit() then 0 else se.dout - se.din, 0, !se.NoExit(), s, exit, floor);
  }

  /** With every opcode explored in agreement with a consistent annotation, the computed effect is a
      sub-effect of the declared one. */
  lemma {:induction false} ConcludeAgrees(p: Program, infos: Infos, w: nat, st: Scan, s: seq<Option<int>>,
                                          exit: Option<int>)
    requires IsOngoing(p, infos, w) && Consistent(p, infos, w, s, exit)
    requires Agrees(st, s, exit, Floor(infos[w].effect)) && st.maxDepth <= 0
    requires st.exit.Some? ==> st.maxDepth <= st.exit.value
    ensures Conclude(p, infos, w, st).Accepted?
  {
  }

  // ----- The theorem -----

  /** The exceptions that blame the code of the word. */
  predicate Blames(r: Reason) {
    !r.Recursive? && !r.QueueFull?
  }

  /** Decided words keep their effects to the end, so an annotation that is consistent at the end was
      consistent all along. */
  lemma {:induction false} ConsistentBefore(p: Program, a: Infos, b: Infos, w: nat, s: seq<Option<int>>,
                                            exit: Option<int>, i: nat)
    requires AllCertified(p, a) && AllCertified(p, b) && Kept(a, b, w) && Consistent(p, b, w, s, exit)
    requires a[w].effect == b[w].effect && !a[w].status.Analysed? && !b[w].status.Analysed?
    requires i < |s| && s[i].Some?
    ensures LocallyConsistent(p, a, p[w].body.code, s, exit, Floor(a[w].effect), i)
  {
    assert LocallyConsistent(p, b, p[w].body.code, s, exit, Floor(b[w].effect), i);
  }

  lemma {:induction false} AnalyseBlame(p: Program, infos: Infos, w: nat, s: seq<Option<int>>, exit: Option<int>)
    requires AllCertified(p, infos) && w < |p|
    requires var r := Analyse(p, infos, w);
             r.Rejected? && Blames(r.reason) && Consistent(p, r.infos, r.word, s, exit)
    ensures false
    decreases FreshWords(infos), 0, FreshWords([]), 0, 0
  {
    if p[w].body.Interpreted? && infos[w].status.Fresh? && p[w].body.code != [] {
      assert w in FreshWords(infos);
      var marked := infos[w].(status := Ongoing);
      StoreKeeps(p, infos, w, marked);
      StartInv(p, infos[w := marked], p[w].body.code);
      ExploreBlame(p, infos[w := marked], w, StartScan(|p[w].body.code|), s, exit);
    }
  }

  lemma {:induction false} ExploreBlame(p: Program, infos: Infos, w: nat, st: Scan, s: seq<Option<int>>,
                                        exit: Option<int>)
    requires AllCertified(p, infos) && IsOngoing(p, infos, w) && ScanInv(p, infos, p[w].body.code, st)
    requires var r := Explore(p, infos, w, st);
             && r.Rejected? && Blames(r.reason) && Consistent(p, r.infos, r.word, s, exit)
             && (r.word == w ==> Agrees(st, s, exit, Floor(infos[w].effect)))
    ensures false
    decreases FreshWords(infos), 1, Unset(st.sa), |p[w].body.code| - st.tX, 1
  {
    var code := p[w].body.code;
    var op := code[st.off];
    var final := Explore(p, infos, w, st);
    ExploreCertifies(p, infos, w, st);
    ExploreKeepsOngoing(p, infos, w, st);
    if op.Call? && op.target < |p| {
      AnalyseCertifies(p, infos, op.target);
      var r := Analyse(p, infos, op.target);
      if r.Rejected? {
        AnalyseBlame(p, infos, op.target, s, exit);
      } else {
        InvKept(p, infos, r.infos, code, st);
        CallKeepsInv(p, r.infos, code, st, op.target);
        CallProgress(|code|, p, r.infos, st, op.target);
        FollowKeepsOngoing(p, infos, r.infos, w, st, CallMove(p, r.infos, st, op.target));
        if final.word == w {
          ConsistentBefore(p, r.infos, final.infos, w, s, exit, st.off);
          CallAgrees(p, r.infos, code, st, op.target, s, exit, Floor(infos[w].effect));
        }
        FollowBlame(p, infos, r.infos, w, st, CallMove(p, r.infos, st, op.target), s, exit);
      }
    } else {
      PlainKeepsInv(p, infos, code, st);
      PlainProgress(|code|, st, op);
      if final.word == w {
        ConsistentBefore(p, infos, final.infos, w, s, exit, st.off);
        PlainAgrees(p, infos, code, st, s, exit, Floor(infos[w].effect));
      }
      FollowBlame(p, infos, infos, w, st, PlainMove(st, op), s, exit);
    }
  }

  lemma {:induction false} FollowBlame(p: Program, before: Infos, infos: Infos, w: nat, st: Scan, m: Move,
                                       s: seq<Option<int>>, exit: Option<int>)
    requires IsOngoing(p, before, w) && AllKept(before, infos) && Formed(|p[w].body.code|, st)
    requires Progress(|p[w].body.code|, st, m) && AllCertified(p, infos)
    requires m.Next? ==> ScanInv(p, infos, p[w].body.code, m.st)
    requires m.Finish? ==> Complete(p, infos, p[w].body.code, m.st)
    requires var r := Follow(p, before, infos, w, st, m);
             && r.Rejected? && Blames(r.reason) && Consistent(p, r.infos, r.word, s, exit)
             && (r.word == w && m.Reject? ==> m.reason.QueueFull?)
             && (r.word == w && !m.Reject? ==> Agrees(m.st, s, exit, Floor(infos[w].effect)))
    ensures false
    decreases FreshWords(before), 1, Unset(st.sa), |p[w].body.code| - st.tX, 0
  {
    match m
    case Reject(_) =>
    case Finish(st') => ConcludeAgrees(p, infos, w, st', s, exit);
    case Next(st') => ExploreBlame(p, infos, w, st', s, exit);
  }

  /** While a word is not accepted its fields stay as they were. */
  lemma {:induction false} ExploreKeepsOngoing(p: Program, infos: Infos, w: nat, st: Scan)
    requires IsOngoing(p, infos, w) && Formed(|p[w].body.code|, st)
    ensures Explore(p, infos, w, st).Rejected? ==> Explore(p, infos, w, st).infos[w] == infos[w]
    decreases FreshWords(infos), 1, Unset(st.sa), |p[w].body.code| - st.tX, 1
  {
    var op := p[w].body.code[st.off];
    if op.Call? && op.target < |p| {
      var r := Analyse(p, infos, op.target);
      if r.Accepted? {
        CallProgress(|p[w].body.code|, p, r.infos, st, op.target);
        FollowKeepsOngoing(p, infos, r.infos, w, st, CallMove(p, r.infos, st, op.target));
      }
    } else {
      PlainProgress(|p[w].body.code|, st, op);
      FollowKeepsOngoing(p, infos, infos, w, st, PlainMove(st, op));
    }
  }

  lemma {:induction false} FollowKeepsOngoing(p: Program, before: Infos, infos: Infos, w: nat, st: Scan, m: Move)
    requires IsOngoing(p, before, w) && AllKept(before, infos) && Formed(|p[w].body.code|, st)
    requires Progress(|p[w].body.code|, st, m)
    ensures var r := Follow(p, before, infos, w, st, m); Kept(infos, r.infos, w)
    ensures Follow(p, before, infos, w, st, m).Rejected? ==> Follow(p, before, infos, w, st, m).infos[w] == infos[w]
    decreases FreshWords(before), 1, Unset(st.sa), |p[w].body.code| - st.tX, 0
  {
    match m
    case Reject(_) =>
    case Finish(_) =>
    case Next(st') => ExploreKeepsOngoing(p, infos, w, st');
  }

  /** Rejection with a reason that blames the code: no consistent annotation of the blamed word exists. */
  lemma {:induction false} RejectedHasNone(p: Program, infos: Infos, w: nat)
    requires AllCertified(p, infos) && w < |p|
    requires var r := Analyse(p, infos, w); r.Rejected? && Blames(r.reason)
    ensures var r := Analyse(p, infos, w);
            forall s, exit :: !Consistent(p, r.infos, r.word, s, exit)
  {
    var r := Analyse(p, infos, w);
    forall s, exit
      ensures !Consistent(p, r.infos, r.word, s, exit)
    {
      if Consistent(p, r.infos, r.word, s, exit) {
        AnalyseBlame(p, infos, w, s, exit);
      }
    }
  }

  /** Acceptance: the stored annotation is consistent. */
  lemma {:induction false} AcceptedHasOne(p: Program, infos: Infos, w: nat)
    requires AllCertified(p, infos) && w < |p| && p[w].body.Interpreted? && Analyse(p, infos, w).Accepted?
    ensures var r := Analyse(p, infos, w);
            Consistent(p, r.infos, w, r.infos[w].scan.sa, r.infos[w].scan.exit)
  {
    AnalyseCertifies(p, infos, w);
    CertifiedIsConsistent(p, Analyse(p, infos, w).infos, w);
  }

  // ----- Recursion -----

  predicate Calls(p: Program, u: nat, v: nat) {
    u < |p| && p[u].body.Interpreted? && Call(v) in p[u].body.code
  }

  /** A path of calls. */
  predicate CallPath(p: Program, path: seq<nat>) {
    forall k :: 0 <= k < |path| - 1 ==> Calls(p, path[k], path[k + 1])
  }

  ghost predicate OnCycle(p: Program, w: nat) {
    exists path: seq<nat> :: |path| >= 2 && path[0] == path[|path| - 1] == w && CallPath(p, path)
  }

  /** The words under analysis are on the path of calls that leads to the current one. */
  predicate OngoingOn(infos: Infos, path: seq<nat>) {
    forall v :: 0 <= v < |infos| && infos[v].status.Ongoing? ==> v in path
  }

  lemma CycleFrom(p: Program, path: seq<nat>, w: nat)
    requires CallPath(p, path + [w]) && w in path
    ensures OnCycle(p, w)
  {
    var k :| 0 <= k < |path| && path[k] == w;
    var cycle := path[k..] + [w];
    forall i | 0 <= i < |cycle| - 1
      ensures Calls(p, cycle[i], cycle[i + 1])
    {
      assert cycle[i] == (path + [w])[k + i] && cycle[i + 1] == (path + [w])[k + i + 1];
    }
    assert cycle[0] == cycle[|cycle| - 1] == w;
  }

  /** A word rejected as recursive does reach itself through calls. */
  lemma {:induction false} RecursiveIsReal(p: Program, infos: Infos, w: nat, path: seq<nat>)
    requires w < |p| == |infos| && OngoingOn(infos, path) && CallPath(p, path + [w])
    ensures var r := Analyse(p, infos, w);
            && (r.Rejected? && r.reason.Recursive? ==> OnCycle(p, r.word))
            && (r.Accepted? ==> OngoingOn(r.infos, path))
    decreases FreshWords(infos), 0, FreshWords([]), 0, 0
  {
    if p[w].body.Interpreted? && infos[w].status.Ongoing? {
      CycleFrom(p, path, w);
    } else if p[w].body.Interpreted? && infos[w].status.Fresh? && p[w].body.code != [] {
      assert w in FreshWords(infos);
      var infos' := infos[w := infos[w].(status := Ongoing)];
      assert OngoingOn(infos', path + [w]);
      ExploreRecursive(p, infos', w, StartScan(|p[w].body.code|), path);
    }
  }

  lemma {:induction false} ExploreRecursive(p: Program, infos: Infos, w: nat, st: Scan, path: seq<nat>)
    requires IsOngoing(p, infos, w) && Formed(|p[w].body.code|, st)
    requires OngoingOn(infos, path + [w]) && CallPath(p, path + [w])
    ensures var r := Explore(p, infos, w, st);
            && (r.Rejected? && r.reason.Recursive? ==> OnCycle(p, r.word))
            && (r.Accepted? ==> OngoingOn(r.infos, path))
    decreases FreshWords(infos), 1, Unset(st.sa), |p[w].body.code| - st.tX, 1
  {
    var code := p[w].body.code;
    var op := code[st.off];
    if op.Call? && op.target < |p| {
      assert op in code;
      assert CallPath(p, path + [w] + [op.target]) by {
        var q := path + [w] + [op.target];
        forall k | 0 <= k < |q| - 1
          ensures Calls(p, q[k], q[k + 1])
        {
          if k < |path| {
            assert q[k] == (path + [w])[k] && q[k + 1] == (path + [w])[k + 1];
          }
        }
      }
      RecursiveIsReal(p, infos, op.target, path + [w]);
      var r := Analyse(p, infos, op.target);
      if r.Accepted? {
        CallProgress(|code|, p, r.infos, st, op.target);
        FollowRecursive(p, infos, r.infos, w, st, CallMove(p, r.infos, st, op.target), path);
      }
    } else {
      PlainProgress(|code|, st, op);
      PlainReason(st, op);
      FollowRecursive(p, infos, infos, w, st, PlainMove(st, op), path);
    }
  }

  lemma PlainReason(st: Scan, op: Opcode)
    requires st.off < |st.sa| && st.sa[st.off].Some?
    ensures PlainMove(st, op).Reject? ==> !PlainMove(st, op).reason.Recursive?
  {
  }

  lemma {:induction false} FollowRecursive(p: Program, before: Infos, infos: Infos, w: nat, st: Scan, m: Move,
                                           path: seq<nat>)
    requires IsOngoing(p, before, w) && AllKept(before, infos) && Formed(|p[w].body.code|, st)
    requires Progress(|p[w].body.code|, st, m)
    requires OngoingOn(infos, path + [w]) && CallPath(p, path + [w])
    requires m.Reject? ==> !m.reason.Recursive?
    ensures var r := Follow(p, before, infos, w, st, m);
            && (r.Rejected? && r.reason.Recursive? ==> OnCycle(p, r.word))
            && (r.Accepted? ==> OngoingOn(r.infos, path))
    decreases FreshWords(before), 1, Unset(st.sa), |p[w].body.code| - st.tX, 0
  {
    match m
    case Reject(_) =>
    case Finish(_) =>
    case Next(st') => ExploreRecursive(p, infos, w, st', path);
  }

  // ----- Accepted words do not recurse -----

  /** A call at an offset that the analysis of u reached. */
  predicate ExploredCall(p: Program, infos: Infos, u: nat, v: nat) {
    && u < |p| == |infos| && p[u].body.Interpreted? && infos[u].status.Analysed?
    && v < |p| && p[v].body.Interpreted?
    && exists i :: 0 <= i < |p[u].body.code| == |infos[u].scan.sa| && infos[u].scan.sa[i].Some?
                   && p[u].body.code[i] == Call(v)
  }

  /** The return-stack bound of a word strictly decreases along calls, so the graph of explored calls of
      accepted words has no cycle. */
  lemma {:induction false} ReturnBoundDecreases(p: Program, infos: Infos, path: seq<nat>)
    requires AllCertified(p, infos) && |path| >= 2
    requires forall k :: 0 <= k < |path| - 1 ==> ExploredCall(p, infos, path[k], path[k + 1])
    ensures path[0] < |p| && path[|path| - 1] < |p|
    ensures infos[path[|path| - 1]].maxReturn < infos[path[0]].maxReturn
    ensures path[0] != path[|path| - 1]
  {
    var n := |path|;
    var u, v := path[n - 2], path[n - 1];
    assert ExploredCall(p, infos, u, v);
    var i :| 0 <= i < |p[u].body.code| && infos[u].scan.sa[i].Some? && p[u].body.code[i] == Call(v);
    assert Certified(p, infos, u);
    assert LocalOk(p, infos, p[u].body.code, infos[u].scan, i);
    if n > 2 {
      ReturnBoundDecreases(p, infos, path[..n - 1]);
    }
  }
}
