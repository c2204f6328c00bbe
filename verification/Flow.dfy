/** The flow analysis of WordInterpreted: a worklist over the opcodes of a word, which analyses callees
    on the way and infers the stack effect and the stack bounds. */
module Flow {
  import opened Ints
  import opened Opcodes

  // ----- What the words remember -----

  /** The field flowAnalysis: 0, 1 and 2. */
  datatype Status = Fresh | Analysed | Ongoing

  /** The scan of one word: stack action at each explored offset (None: not reached), the queue
      toExplore with its read index, the current offset, the common action at `ret`, the two bounds and
      the lowest action seen. */
  datatype Scan = Scan(sa: seq<Option<int>>, queue: seq<nat>, tX: nat, off: nat,
                       exit: Option<int>, mds: int, mrs: int, maxDepth: int)

  /** The mutable fields of a word; `scan` is what its own analysis ended with. */
  datatype Info = Info(status: Status, effect: SType, maxData: int, maxReturn: int, scan: Scan)

  type Infos = seq<Info>

  const EMPTY_SCAN := Scan([], [], 0, 0, None, 0, 0, 0)

  function InitialInfos(p: Program): Infos {
    seq(|p|, i requires 0 <= i < |p| => Info(Fresh, p[i].effect, 0, 0, EMPTY_SCAN))
  }

  /** MaxDataStack: a word without opcodes has the default of Word, with its Math.Min. */
  function MaxDataOf(p: Program, infos: Infos, w: nat): int
    requires w < |p| == |infos|
  {
    if p[w].body.Interpreted? then infos[w].maxData
    else
      var se := infos[w].effect;
      if !se.IsKnown() then -1 else if se.NoExit() then 0 else Min(0, se.dout - se.din)
  }

  function MaxReturnOf(p: Program, infos: Infos, w: nat): int
    requires w < |p| == |infos|
  {
    if p[w].body.Interpreted? then infos[w].maxReturn else 0
  }

  // ----- One opcode -----

  /** Why a word is rejected; each reason is one exception of the source. */
  datatype Reason =
    | Recursive
    | NoCode
    | Unresolved
    | UnknownEffect
    | Mismatch
    | BadTarget
    | ExitMismatch
    | QueueFull
    | NotSubEffect

  datatype Verdict = Accepted(infos: Infos) | Rejected(word: nat, reason: Reason, infos: Infos)

  /** The outcome of one opcode: an exception, the next scan, or the end of the worklist. */
  datatype Move = Reject(reason: Reason) | Next(st: Scan) | Finish(st: Scan)

  function Merge(sa: seq<Option<int>>, j: int, c: int): Option<seq<Option<int>>>
    requires 0 <= j < |sa|
  {
    if sa[j].None? then Some(sa[j := Some(c)]) else if sa[j].value != c then None else Some(sa)
  }

  /** After the action of the opcode: `c` is the new stack action, `mft` whether to fall through. */
  function Advance(st: Scan, c: int, disp: int, mft: bool): Move
    requires st.off < |st.sa|
  {
    var st := st.(maxDepth := Min(st.maxDepth, c));
    if disp == 0 then FallThrough(st, c, mft)
    else
      var j := disp + st.off + 1;
      if |st.queue| >= |st.sa| then Reject(QueueFull)
      else if !(0 <= j < |st.sa|) then Reject(BadTarget)
      else
        match Merge(st.sa, j, c)
        case None => Reject(Mismatch)
        case Some(sa) => FallThrough(st.(queue := st.queue + [j], sa := sa), c, mft)
  }

  function FallThrough(st: Scan, c: int, mft: bool): Move
    requires st.off < |st.sa|
  {
    var off := st.off + 1;
    if !mft then Dequeue(st)
    else if off >= |st.sa| then Reject(BadTarget)
    else if st.sa[off].None? then Next(st.(sa := st.sa[off := Some(c)], off := off))
    else if st.sa[off].value != c then Reject(Mismatch)
    else Dequeue(st)
  }

  function Dequeue(st: Scan): Move {
    if st.tX < |st.queue| then Next(st.(off := st.queue[st.tX], tX := st.tX + 1)) else Finish(st)
  }

  /** An opcode other than a call; a call has been looked at before. */
  function PlainMove(st: Scan, op: Opcode): Move
    requires st.off < |st.sa| && st.sa[st.off].Some?
  {
    var c := st.sa[st.off].value;
    match op
    case Ret =>
      if st.exit.Some? && st.exit.value != c then Reject(ExitMismatch)
      else Advance(st.(exit := Some(c)), c, 0, false)
    case Call(_) => Reject(Unresolved)
    case CallByName(_) => Reject(Unresolved)
    case _ =>
      var a := op.StackAction();
      Advance(st.(mds := Max(st.mds, c + a)), c + a, op.JumpDisp(), op.MayFallThrough())
  }

  /** A call of the word v, whose analysis is over. */
  function CallMove(p: Program, infos: Infos, st: Scan, v: nat): Move
    requires st.off < |st.sa| && st.sa[st.off].Some? && v < |p| == |infos|
  {
    var c := st.sa[st.off].value;
    var se := infos[v].effect;
    if !se.IsKnown() then Reject(UnknownEffect)
    else
      var a := if se.NoExit() then 0 else se.dout - se.din;
      Advance(st.(mds := Max(st.mds, c + MaxDataOf(p, infos, v)), mrs := Max(st.mrs, MaxReturnOf(p, infos, v)),
                  maxDepth := Min(st.maxDepth, c - se.din)),
              c + a, 0, !se.NoExit())
  }

  // ----- The analysis -----

  /** The scan keeps its invariants: offsets in range, explored offsets annotated. */
  predicate Formed(n: nat, st: Scan) {
    && |st.sa| == n && st.off < n && st.sa[st.off].Some? && st.tX <= |st.queue| <= n
    && forall k :: 0 <= k < |st.queue| ==> st.queue[k] < n && st.sa[st.queue[k]].Some?
  }

  function Unset(sa: seq<Option<int>>): set<nat> {
    set i | 0 <= i < |sa| && sa[i].None?
  }

  function FreshWords(infos: Infos): set<nat> {
    set i | 0 <= i < |infos| && infos[i].status.Fresh?
  }

  /** Words that are not fresh keep their fields, but for w, which stays not fresh. */
  predicate Kept(a: Infos, b: Infos, w: nat) {
    && |a| == |b|
    && forall v :: 0 <= v < |a| && !a[v].status.Fresh? ==> !b[v].status.Fresh? && (v != w ==> b[v] == a[v])
  }

  predicate AllKept(a: Infos, b: Infos) {
    && |a| == |b|
    && forall v :: 0 <= v < |a| && !a[v].status.Fresh? ==> b[v] == a[v]
  }

  lemma {:induction false} FreshShrinks(a: Infos, b: Infos, w: nat)
    requires Kept(a, b, w)
    ensures FreshWords(b) <= FreshWords(a)
  {
  }

  /** A move keeps the scan well formed and makes progress: another offset is annotated, or the queue is
      read once more. */
  ghost predicate Progress(n: nat, st: Scan, m: Move) {
    && (m.Finish? ==> |m.st.sa| == n)
    && (m.Next? ==>
         && Formed(n, m.st)
         && (Unset(m.st.sa) < Unset(st.sa) || (Unset(m.st.sa) == Unset(st.sa) && st.tX < m.st.tX <= n)))
  }

  lemma AdvanceProgress(n: nat, st: Scan, c: int, disp: int, mft: bool)
    requires Formed(n, st)
    ensures Progress(n, st, Advance(st, c, disp, mft))
  {
    var m := Advance(st, c, disp, mft);
    if m.Next? {
      assert Unset(m.st.sa) <= Unset(st.sa);
      if mft && st.tX == m.st.tX {
        assert st.off + 1 in Unset(st.sa) && st.off + 1 !in Unset(m.st.sa);
      }
    }
  }

  lemma PlainProgress(n: nat, st: Scan, op: Opcode)
    requires Formed(n, st)
    ensures Progress(n, st, PlainMove(st, op))
  {
    var c := st.sa[st.off].value;
    var a := op.StackAction();
    var st1 := if op.Ret? then st.(exit := Some(c)) else st.(mds := Max(st.mds, c + a));
    SameProgress(n, st, st1, c + a, op.JumpDisp(), op.MayFallThrough());
    PlainIsAdvance(st, op, st1);
    hide PlainMove, Advance, Formed, Unset;
  }

  lemma PlainIsAdvance(st: Scan, op: Opcode, st1: Scan)
    requires st.off < |st.sa| && st.sa[st.off].Some?
    requires var c := st.sa[st.off].value;
             st1 == if op.Ret? then st.(exit := Some(c)) else st.(mds := Max(st.mds, c + op.StackAction()))
    ensures var m := PlainMove(st, op);
            m.Reject? || m == Advance(st1, st.sa[st.off].value + op.StackAction(), op.JumpDisp(), op.MayFallThrough())
  {
    hide Advance;
  }

  /** The accumulators do not matter for progress. */
  lemma SameProgress(n: nat, st: Scan, st1: Scan, c: int, disp: int, mft: bool)
    requires Formed(n, st) && st1.sa == st.sa && st1.queue == st.queue && st1.tX == st.tX && st1.off == st.off
    ensures Progress(n, st, Advance(st1, c, disp, mft))
  {
    assert Formed(n, st1);
    AdvanceProgress(n, st1, c, disp, mft);
    hide Advance, Formed;
  }

  lemma {:induction false} CallProgress(n: nat, p: Program, infos: Infos, st: Scan, v: nat)
    requires Formed(n, st) && v < |p| == |infos|
    ensures Progress(n, st, CallMove(p, infos, st, v))
  {
    var c := st.sa[st.off].value;
    var se := infos[v].effect;
    var st' := st.(mds := Max(st.mds, c + MaxDataOf(p, infos, v)), mrs := Max(st.mrs, MaxReturnOf(p, infos, v)),
                   maxDepth := Min(st.maxDepth, c - se.din));
    SameProgress(n, st, st', c + if se.NoExit() then 0 else se.dout - se.din, 0, !se.NoExit());
    hide Progress, Advance, Formed;
  }

  function StartScan(n: nat): Scan
    requires n > 0
  {
    Scan(seq(n, i => if i == 0 then Some(0) else None), [], 0, 0, None, 0, 0, 0)
  }

  predicate IsOngoing(p: Program, infos: Infos, w: nat) {
    w < |p| == |infos| && p[w].body.Interpreted? && infos[w].status.Ongoing?
  }

  /** AnalyseFlow of word w. */
  function Analyse(p: Program, infos: Infos, w: nat): (r: Verdict)
    requires w < |p| == |infos|
    ensures AllKept(infos, r.infos)
    decreases FreshWords(infos), 0, FreshWords([]), 0, 0
  {
    if !p[w].body.Interpreted? || infos[w].status.Analysed? then Accepted(infos)
    else if infos[w].status.Ongoing? then Rejected(w, Recursive, infos)
    else if p[w].body.code == [] then Rejected(w, NoCode, infos)
    else
      assert w in FreshWords(infos);
      Explore(p, infos[w := infos[w].(status := Ongoing)], w, StartScan(|p[w].body.code|))
  }

  /** The loop of AnalyseFlow, from scan st. */
  function Explore(p: Program, infos: Infos, w: nat, st: Scan): (r: Verdict)
    requires IsOngoing(p, infos, w) && Formed(|p[w].body.code|, st)
    ensures Kept(infos, r.infos, w)
    decreases FreshWords(infos), 1, Unset(st.sa), |p[w].body.code| - st.tX, 1
  {
    var op := p[w].body.code[st.off];
    if op.Call? && op.target < |p| then
      var r := Analyse(p, infos, op.target);
      if r.Rejected? then r
      else
        CallProgress(|p[w].body.code|, p, r.infos, st, op.target);
        Follow(p, infos, r.infos, w, st, CallMove(p, r.infos, st, op.target))
    else
      PlainProgress(|p[w].body.code|, st, op);
      Follow(p, infos, infos, w, st, PlainMove(st, op))
  }

  /** The rest of the loop after one opcode, which led from `before` to infos. */
  function Follow(p: Program, before: Infos, infos: Infos, w: nat, st: Scan, m: Move): (r: Verdict)
    requires IsOngoing(p, before, w) && AllKept(before, infos) && Formed(|p[w].body.code|, st)
    requires Progress(|p[w].body.code|, st, m)
    ensures Kept(before, r.infos, w)
    decreases FreshWords(before), 1, Unset(st.sa), |p[w].body.code| - st.tX, 0
  {
    match m
    case Reject(reason) => Rejected(w, reason, infos)
    case Finish(st') => Conclude(p, infos, w, st')
    case Next(st') => Explore(p, infos, w, st')
  }

  /** The effect that the scan computed. */
  function Computed(st: Scan): SType {
    MakeSType(-st.maxDepth, if st.exit.None? then -1 else -st.maxDepth + st.exit.value)
  }

  /** After the loop: the effect is checked against the declared one, or becomes the effect. */
  function Conclude(p: Program, infos: Infos, w: nat, st: Scan): (r: Verdict)
    requires IsOngoing(p, infos, w)
    ensures Kept(infos, r.infos, w)
  {
    var declared := infos[w].effect;
    if declared.IsKnown() && !Computed(st).IsSubOf(declared) then Rejected(w, NotSubEffect, infos)
    else Accepted(infos[w := Info(Analysed, if declared.IsKnown() then declared else Computed(st),
                                  st.mds, 1 + p[w].body.numLocals + st.mrs, st)])
  }
}
