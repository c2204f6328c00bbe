/** What acceptance means: the annotation of an accepted word is consistent at every explored offset,
    and the recorded bounds and effect cover it. */
module FlowCert {
  import opened Ints
  import opened Opcodes
  import opened Flow

  predicate FlowsTo(sa: seq<Option<int>>, j: int, c: int) {
    0 <= j < |sa| && sa[j] == Some(c)
  }

  /** A callee whose effect and bounds are final. */
  predicate Settled(p: Program, infos: Infos, v: nat) {
    && v < |p| == |infos|
    && (p[v].body.Interpreted? ==> infos[v].status.Analysed?)
    && infos[v].effect.IsKnown()
  }

  /** The annotation agrees with opcode i and its successors, and the bounds cover it. */
  predicate LocalOk(p: Program, infos: Infos, code: seq<Opcode>, st: Scan, i: nat)
    requires i < |code| == |st.sa| && st.sa[i].Some?
  {
    var c := st.sa[i].value;
    match code[i]
    case Ret => st.exit == Some(c)
    case Call(v) =>
      && Settled(p, infos, v)
      && c + MaxDataOf(p, infos, v) <= st.mds && MaxReturnOf(p, infos, v) <= st.mrs
      && var se := infos[v].effect;
         && st.maxDepth <= c - se.din
         && (!se.NoExit() ==> st.maxDepth <= c + se.dout - se.din && FlowsTo(st.sa, i + 1, c + se.dout - se.din))
    case CallByName(_) => false
    case op =>
      var d := c + op.StackAction();
      && d <= st.mds && st.maxDepth <= d
      && (op.JumpDisp() != 0 ==> FlowsTo(st.sa, i + 1 + op.JumpDisp(), d))
      && (op.MayFallThrough() ==> FlowsTo(st.sa, i + 1, d))
  }

  predicate Bounds(st: Scan) {
    && st.maxDepth <= 0 <= st.mds && 0 <= st.mrs
    && (st.exit.Some? ==> st.maxDepth <= st.exit.value)
    && forall i :: 0 <= i < |st.sa| && st.sa[i].Some? ==> st.maxDepth <= st.sa[i].value
  }

  /** The stored result of an accepted word. */
  predicate Certified(p: Program, infos: Infos, w: nat)
    requires w < |p| == |infos| && p[w].body.Interpreted?
  {
    var code, info := p[w].body.code, infos[w];
    var st := info.scan;
    && |code| == |st.sa| > 0 && st.sa[0] == Some(0) && Bounds(st)
    && (forall i :: 0 <= i < |code| && st.sa[i].Some? ==> LocalOk(p, infos, code, st, i))
    && Computed(st).IsSubOf(info.effect)
    && info.maxData == st.mds && info.maxReturn == 1 + p[w].body.numLocals + st.mrs
  }

  /** Every word keeps its declared effect if it has one, and analysed words are certified. */
  predicate AllCertified(p: Program, infos: Infos) {
    && |p| == |infos|
    && (forall v :: 0 <= v < |p| && (p[v].effect.IsKnown() || !p[v].body.Interpreted?) ==>
          infos[v].effect == p[v].effect)
    && (forall v :: 0 <= v < |p| && p[v].body.Interpreted? && infos[v].status.Analysed? ==> Certified(p, infos, v))
  }

  // ----- Invariant of the scan -----

  /** Offset i waits to be explored. */
  predicate Pending(st: Scan, i: nat) {
    i == st.off || Queued(st, i)
  }

  predicate Queued(st: Scan, i: nat) {
    exists k :: st.tX <= k < |st.queue| && st.queue[k] == i
  }

  predicate ScanInv(p: Program, infos: Infos, code: seq<Opcode>, st: Scan) {
    && |p| == |infos| && Formed(|code|, st) && st.sa[0] == Some(0) && Bounds(st)
    && forall i :: 0 <= i < |code| && st.sa[i].Some? ==> Pending(st, i) || LocalOk(p, infos, code, st, i)
  }

  predicate Complete(p: Program, infos: Infos, code: seq<Opcode>, st: Scan) {
    && |p| == |infos| && |code| == |st.sa| > 0 && st.sa[0] == Some(0) && Bounds(st)
    && forall i :: 0 <= i < |code| && st.sa[i].Some? ==> LocalOk(p, infos, code, st, i)
  }

  /** A later scan extends the annotation and widens the bounds. */
  predicate Grows(a: Scan, b: Scan) {
    && |a.sa| == |b.sa| && a.mds <= b.mds && a.mrs <= b.mrs && b.maxDepth <= a.maxDepth
    && (a.exit.Some? ==> b.exit == a.exit)
    && forall i :: 0 <= i < |a.sa| && a.sa[i].Some? ==> b.sa[i] == a.sa[i]
  }

  lemma {:induction false} LocalOkGrows(p: Program, infos: Infos, infos': Infos, code: seq<Opcode>, a: Scan, b: Scan,
                                        i: nat)
    requires |p| == |infos| && AllKept(infos, infos')
    requires i < |code| == |a.sa| && a.sa[i].Some? && LocalOk(p, infos, code, a, i)
    requires forall v :: 0 <= v < |p| && !p[v].body.Interpreted? ==> infos'[v].effect == infos[v].effect
    requires Grows(a, b)
    ensures LocalOk(p, infos', code, b, i)
  {
    if code[i].Call? {
      assert Settled(p, infos, code[i].target);
    }
  }

  /** What Advance does to the annotation and to the waiting offsets. */
  ghost predicate Advanced(st: Scan, c: int, disp: int, mft: bool, m: Move) {
    m.Reject? ||
    (&& |m.st.sa| == |st.sa|
     && m.st.exit == st.exit && m.st.mds == st.mds && m.st.mrs == st.mrs && m.st.maxDepth == Min(st.maxDepth, c)
     && (forall i :: 0 <= i < |st.sa| && st.sa[i].Some? ==> m.st.sa[i] == st.sa[i])
     && (forall i :: 0 <= i < |st.sa| && st.sa[i].None? && m.st.sa[i].Some? ==>
           m.st.sa[i] == Some(c) && m.Next? && Pending(m.st, i))
     && (disp != 0 ==> FlowsTo(m.st.sa, st.off + 1 + disp, c))
     && (mft ==> FlowsTo(m.st.sa, st.off + 1, c))
     && (forall i :: Queued(st, i) ==> m.Next? && Pending(m.st, i)))
  }

  lemma AdvanceIsAdvanced(st: Scan, c: int, disp: int, mft: bool)
    requires Formed(|st.sa|, st)
    ensures Advanced(st, c, disp, mft, Advance(st, c, disp, mft))
  {
    hide FallThrough, Queued;
    var j := st.off + 1 + disp;
    var low := st.(maxDepth := Min(st.maxDepth, c));
    if disp == 0 {
      FallThroughIsAdvanced(low, c, mft);
      SameQueue(st, low);
    } else if |st.queue| < |st.sa| && 0 <= j < |st.sa| && Merge(st.sa, j, c).Some? {
      var st1 := low.(queue := st.queue + [j], sa := Merge(st.sa, j, c).value);
      assert Advance(st, c, disp, mft) == FallThrough(st1, c, mft);
      FallThroughIsAdvanced(st1, c, mft);
      QueuedPush(st, st1, j);
    }
  }

  lemma SameQueue(a: Scan, b: Scan)
    requires a.tX == b.tX && a.queue == b.queue
    ensures forall i :: Queued(a, i) <==> Queued(b, i)
  {
  }

  lemma QueuedPush(a: Scan, b: Scan, j: nat)
    requires b.tX == a.tX <= |a.queue| && b.queue == a.queue + [j]
    ensures Queued(b, j) && forall i :: Queued(a, i) ==> Queued(b, i)
  {
    assert b.queue[|a.queue|] == j;
    forall i | Queued(a, i)
      ensures Queued(b, i)
    {
      var k :| a.tX <= k < |a.queue| && a.queue[k] == i;
      assert b.queue[k] == i;
    }
  }

  lemma FallThroughIsAdvanced(st: Scan, c: int, mft: bool)
    requires st.off < |st.sa| && st.tX <= |st.queue|
    ensures var m := FallThrough(st, c, mft);
            m.Reject? ||
            (&& |m.st.sa| == |st.sa| && m.st.queue == st.queue
             && m.st.exit == st.exit && m.st.mds == st.mds && m.st.mrs == st.mrs && m.st.maxDepth == st.maxDepth
             && (forall i :: 0 <= i < |st.sa| && st.sa[i].Some? ==> m.st.sa[i] == st.sa[i])
             && (forall i :: 0 <= i < |st.sa| && st.sa[i].None? && m.st.sa[i].Some? ==>
                   m.st.sa[i] == Some(c) && m.Next? && i == m.st.off)
             && (mft ==> FlowsTo(m.st.sa, st.off + 1, c))
             && (forall i :: Queued(st, i) ==> m.Next? && Pending(m.st, i)))
  {
    var m := FallThrough(st, c, mft);
    if !m.Reject? {
      forall i | Queued(st, i)
        ensures m.Next? && Pending(m.st, i)
      {
        var k :| st.tX <= k < |st.queue| && st.queue[k] == i;
        if k > st.tX || m.st.tX == st.tX {
          assert m.st.queue[k] == i;
        }
      }
    }
  }

  /** After a move, everything explored is settled except for what waits. */
  lemma {:induction false} MoveKeepsInv(p: Program, infos: Infos, code: seq<Opcode>, st: Scan, st1: Scan, c: int,
                                        disp: int, mft: bool, m: Move)
    requires ScanInv(p, infos, code, st)
    requires st1.sa == st.sa && st1.off == st.off && st1.queue == st.queue && st1.tX == st.tX && Grows(st, st1)
    requires Bounds(st1) && Formed(|code|, st1)
    requires m == Advance(st1, c, disp, mft)
    requires m.Reject? || (|m.st.sa| == |code| && m.st.sa[st.off].Some? && LocalOk(p, infos, code, m.st, st.off))
    ensures m.Next? ==> ScanInv(p, infos, code, m.st)
    ensures m.Finish? ==> Complete(p, infos, code, m.st)
  {
    AdvanceIsAdvanced(st1, c, disp, mft);
    AdvanceProgress(|code|, st1, c, disp, mft);
    if !m.Reject? {
      assert Grows(st, m.st);
      forall i | 0 <= i < |code| && m.st.sa[i].Some?
        ensures (m.Next? && Pending(m.st, i)) || LocalOk(p, infos, code, m.st, i)
      {
        if st.sa[i].Some? && i != st.off {
          if Queued(st, i) {
            assert Queued(st1, i);
          } else {
            LocalOkGrows(p, infos, infos, code, st, m.st, i);
          }
        }
      }
    }
  }

  lemma {:induction false} PlainKeepsInv(p: Program, infos: Infos, code: seq<Opcode>, st: Scan)
    requires ScanInv(p, infos, code, st)
    ensures var m := PlainMove(st, code[st.off]);
            && (m.Next? ==> ScanInv(p, infos, code, m.st))
            && (m.Finish? ==> Complete(p, infos, code, m.st))
  {
    hide Advance, Queued, Pending, Settled;
    var op, c, m := code[st.off], st.sa[st.off].value, PlainMove(st, code[st.off]);
    if !m.Reject? {
      var st1 := if op.Ret? then st.(exit := Some(c)) else st.(mds := Max(st.mds, c + op.StackAction()));
      var d, disp, mft := c + op.StackAction(), op.JumpDisp(), op.MayFallThrough();
      assert m == Advance(st1, d, disp, mft);
      AdvanceIsAdvanced(st1, d, disp, mft);
      MoveKeepsInv(p, infos, code, st, st1, d, disp, mft, m);
    }
  }

  lemma {:induction false} CallKeepsInv(p: Program, infos: Infos, code: seq<Opcode>, st: Scan, v: nat)
    requires ScanInv(p, infos, code, st) && code[st.off] == Call(v) && v < |p|
    requires p[v].body.Interpreted? ==> infos[v].status.Analysed?
    ensures var m := CallMove(p, infos, st, v);
            && (m.Next? ==> ScanInv(p, infos, code, m.st))
            && (m.Finish? ==> Complete(p, infos, code, m.st))
  {
    hide Advance, Queued, Pending, MaxDataOf, MaxReturnOf;
    var c, m, se := st.sa[st.off].value, CallMove(p, infos, st, v), infos[v].effect;
    if se.IsKnown() && !m.Reject? {
      var st1 := st.(mds := Max(st.mds, c + MaxDataOf(p, infos, v)), mrs := Max(st.mrs, MaxReturnOf(p, infos, v)),
                     maxDepth := Min(st.maxDepth, c - se.din));
      var d := c + if se.NoExit() then 0 else se.dout - se.din;
      AdvanceIsAdvanced(st1, d, 0, !se.NoExit());
      MoveKeepsInv(p, infos, code, st, st1, d, 0, !se.NoExit(), m);
    }
  }

  // ----- The theorem -----

  lemma {:induction false} StartInv(p: Program, infos: Infos, code: seq<Opcode>)
    requires |p| == |infos| && code != []
    ensures ScanInv(p, infos, code, StartScan(|code|))
  {
  }

  lemma {:induction false} InvKept(p: Program, a: Infos, b: Infos, code: seq<Opcode>, st: Scan)
    requires ScanInv(p, a, code, st) && AllKept(a, b)
    requires forall u :: 0 <= u < |p| && !p[u].body.Interpreted? ==> b[u].effect == a[u].effect
    ensures ScanInv(p, b, code, st)
  {
    forall i | 0 <= i < |code| && st.sa[i].Some?
      ensures Pending(st, i) || LocalOk(p, b, code, st, i)
    {
      if !Pending(st, i) {
        LocalOkGrows(p, a, b, code, st, st, i);
      }
    }
  }

  /** Marking a word, or storing its result, does not disturb the others. */
  lemma {:induction false} StoreKeeps(p: Program, infos: Infos, w: nat, info: Info)
    requires AllCertified(p, infos) && w < |p| && p[w].body.Interpreted? && !infos[w].status.Analysed?
    requires p[w].effect.IsKnown() ==> info.effect == p[w].effect
    requires info.status.Analysed? ==>
               var st := info.scan;
               && Complete(p, infos, p[w].body.code, st) && Computed(st).IsSubOf(info.effect)
               && info.maxData == st.mds && info.maxReturn == 1 + p[w].body.numLocals + st.mrs
    ensures AllCertified(p, infos[w := info])
  {
    hide LocalOk, Bounds, Computed;
    var b := infos[w := info];
    forall v | 0 <= v < |p| && p[v].body.Interpreted? && b[v].status.Analysed?
      ensures Certified(p, b, v)
    {
      var st, code := b[v].scan, p[v].body.code;
      forall i | 0 <= i < |code| && st.sa[i].Some?
        ensures LocalOk(p, b, code, st, i)
      {
        assert LocalOk(p, infos, code, st, i);
        OkAfterStore(p, infos, w, info, code, st, i);
      }
    }
  }

  lemma {:induction false} OkAfterStore(p: Program, infos: Infos, w: nat, info: Info, code: seq<Opcode>, st: Scan,
                                        i: nat)
    requires w < |p| == |infos| && p[w].body.Interpreted? && !infos[w].status.Analysed?
    requires i < |code| == |st.sa| && st.sa[i].Some? && LocalOk(p, infos, code, st, i)
    ensures LocalOk(p, infos[w := info], code, st, i)
  {
    hide FlowsTo;
  }

  /** Whatever the verdict, analysed words are certified; an accepted word is analysed. */
  lemma {:induction false} AnalyseCertifies(p: Program, infos: Infos, w: nat)
    requires AllCertified(p, infos) && w < |p|
    ensures var r := Analyse(p, infos, w);
            && AllCertified(p, r.infos)
            && (r.Accepted? && p[w].body.Interpreted? ==> r.infos[w].status.Analysed?)
    decreases FreshWords(infos), 0, FreshWords([]), 0, 0
  {
    if p[w].body.Interpreted? && infos[w].status.Fresh? && p[w].body.code != [] {
      assert w in FreshWords(infos);
      var marked := infos[w].(status := Ongoing);
      StoreKeeps(p, infos, w, marked);
      StartInv(p, infos[w := marked], p[w].body.code);
      ExploreCertifies(p, infos[w := marked], w, StartScan(|p[w].body.code|));
    }
  }

  lemma {:induction false} ExploreCertifies(p: Program, infos: Infos, w: nat, st: Scan)
    requires AllCertified(p, infos) && IsOngoing(p, infos, w) && ScanInv(p, infos, p[w].body.code, st)
    ensures var r := Explore(p, infos, w, st);
            && AllCertified(p, r.infos)
            && (r.Accepted? ==> r.infos[w].status.Analysed?)
    decreases FreshWords(infos), 1, Unset(st.sa), |p[w].body.code| - st.tX, 1
  {
    var code := p[w].body.code;
    var op := code[st.off];
    if op.Call? && op.target < |p| {
      AnalyseCertifies(p, infos, op.target);
      var r := Analyse(p, infos, op.target);
      if r.Accepted? {
        InvKept(p, infos, r.infos, code, st);
        CallKeepsInv(p, r.infos, code, st, op.target);
        CallProgress(|code|, p, r.infos, st, op.target);
        FollowCertifies(p, infos, r.infos, w, st, CallMove(p, r.infos, st, op.target));
      }
    } else {
      PlainKeepsInv(p, infos, code, st);
      PlainProgress(|code|, st, op);
      FollowCertifies(p, infos, infos, w, st, PlainMove(st, op));
    }
  }

  lemma {:induction false} FollowCertifies(p: Program, before: Infos, infos: Infos, w: nat, st: Scan, m: Move)
    requires IsOngoing(p, before, w) && AllKept(before, infos) && Formed(|p[w].body.code|, st)
    requires Progress(|p[w].body.code|, st, m) && AllCertified(p, infos)
    requires m.Next? ==> ScanInv(p, infos, p[w].body.code, m.st)
    requires m.Finish? ==> Complete(p, infos, p[w].body.code, m.st)
    ensures var r := Follow(p, before, infos, w, st, m);
            && AllCertified(p, r.infos)
            && (r.Accepted? ==> r.infos[w].status.Analysed?)
    decreases FreshWords(before), 1, Unset(st.sa), |p[w].body.code| - st.tX, 0
  {
    match m
    case Reject(_) =>
    case Finish(st') =>
      var r := Conclude(p, infos, w, st');
      if r.Accepted? {
        if !infos[w].effect.IsKnown() {
          assert Computed(st').IsSubOf(Computed(st'));
        }
        StoreKeeps(p, infos, w, r.infos[w]);
      }
    case Next(st') => ExploreCertifies(p, infos, w, st');
  }
}
