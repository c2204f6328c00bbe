/** The work queue toExplore of the flow analysis has one slot for each opcode, but a jump target is queued each time
    its jump is explored: exactly when this overflows. */
module FlowQueue {
  import opened Ints
  import opened Opcodes
  import opened Flow
  import opened FlowCert
  import opened FlowReject

  // ----- Chains of jumps -----

  predicate RealJump(op: Opcode) {
    op.JumpDisp() != 0
  }

  function Target(code: seq<Opcode>, j: nat): int
    requires j < |code|
  {
    j + 1 + code[j].JumpDisp()
  }

  /** The number of jumps that follow one another from offset j on; when the fuel runs out, more than |code|. */
  function Chain(code: seq<Opcode>, j: nat, fuel: nat): nat
    requires j < |code|
    decreases fuel
  {
    if !RealJump(code[j]) then 0
    else if fuel == 0 then |code| + 1
    else if 0 <= Target(code, j) < |code| then 1 + Chain(code, Target(code, j), fuel - 1)
    else 1
  }

  /** A chain that ends has at most |code| jumps, so |code| is fuel enough. */
  function Jumps(code: seq<Opcode>, j: nat): nat
    requires j < |code|
  {
    Chain(code, j, |code|)
  }

  /** All chains together. */
  function TotalJumps(code: seq<Opcode>, n: nat): nat
    requires n <= |code|
  {
    if n == 0 then 0 else TotalJumps(code, n - 1) + Jumps(code, n - 1)
  }

  lemma {:induction false} MoreFuel(code: seq<Opcode>, j: nat, fuel: nat)
    requires j < |code| && Chain(code, j, fuel) <= |code|
    ensures Chain(code, j, fuel + 1) == Chain(code, j, fuel)
    decreases fuel
  {
    if RealJump(code[j]) && 0 <= Target(code, j) < |code| {
      MoreFuel(code, Target(code, j), fuel - 1);
    }
  }

  /** A jump has one more jump on its chain than its target. */
  lemma JumpsStep(code: seq<Opcode>, j: nat)
    requires j < |code| && Jumps(code, j) <= |code| && RealJump(code[j])
    ensures Jumps(code, j) >= 1
    ensures 0 <= Target(code, j) < |code| ==> Jumps(code, j) == 1 + Jumps(code, Target(code, j))
  {
    if 0 <= Target(code, j) < |code| {
      MoreFuel(code, Target(code, j), |code| - 1);
    }
  }

  // ----- Accepted words -----

  /** Every chain that starts at an annotated offset ends. */
  predicate ChainsEnd(code: seq<Opcode>, sa: seq<Option<int>>) {
    |sa| == |code| && forall i :: 0 <= i < |code| && sa[i].Some? ==> Jumps(code, i) <= |code|
  }

  /** The target of the jump at j is queued at or behind index `from`. */
  predicate Queues(code: seq<Opcode>, queue: seq<nat>, j: nat, from: nat)
    requires j < |code|
  {
    exists m :: from <= m < |queue| && queue[m] == Target(code, j)
  }

  predicate QueuedAt(code: seq<Opcode>, queue: seq<nat>, k: nat)
    requires k < |queue| && queue[k] < |code|
  {
    RealJump(code[queue[k]]) ==> Queues(code, queue, queue[k], k + 1)
  }

  /** Every explored jump has queued its target, behind the entry of the queue that it came from. */
  predicate Pushed(code: seq<Opcode>, st: Scan) {
    && Formed(|code|, st)
    && (forall i :: 0 <= i < |code| && st.sa[i].Some? && RealJump(code[i]) ==> Queued(st, i) || Queues(code, st.queue, i, 0))
    && forall k :: 0 <= k < st.tX ==> QueuedAt(code, st.queue, k)
  }

  /** The same, but for the current opcode. */
  predicate PushedBut(code: seq<Opcode>, st: Scan) {
    && Formed(|code|, st)
    && (forall i :: 0 <= i < |code| && st.sa[i].Some? && RealJump(code[i]) ==>
          i == st.off || Queued(st, i) || Queues(code, st.queue, i, 0))
    && forall k :: 0 <= k < st.tX ==> QueuedAt(code, st.queue, k) || st.queue[k] == st.off
  }

  lemma QueuesMore(code: seq<Opcode>, queue: seq<nat>, j: nat, from: nat, t: nat)
    requires j < |code|
    ensures Queues(code, queue, j, from) ==> Queues(code, queue + [t], j, from)
    ensures Target(code, j) == t && from <= |queue| ==> Queues(code, queue + [t], j, from)
  {
    var longer := queue + [t];
    assert longer[|queue|] == t;
    if Queues(code, queue, j, from) {
      var m :| from <= m < |queue| && queue[m] == Target(code, j);
      assert longer[m] == Target(code, j);
    }
  }

  lemma PushPushed(code: seq<Opcode>, st: Scan, c: int, j: nat)
    requires PushedBut(code, st) && RealJump(code[st.off]) && j == Target(code, st.off) && j < |code|
    requires Merge(st.sa, j, c).Some? && |st.queue| < |code|
    ensures Pushed(code, st.(queue := st.queue + [j], sa := Merge(st.sa, j, c).value))
  {
    hide Queues, RealJump;
    var st1 := st.(queue := st.queue + [j], sa := Merge(st.sa, j, c).value);
    assert st1.queue[|st.queue|] == j && Queued(st1, j);
    forall i | 0 <= i < |code| && st1.sa[i].Some? && RealJump(code[i])
      ensures Queued(st1, i) || Queues(code, st1.queue, i, 0)
    {
      QueuesMore(code, st.queue, i, 0, j);
      if Queued(st, i) {
        var k :| st.tX <= k < |st.queue| && st.queue[k] == i;
        assert st1.queue[k] == i;
      }
    }
    forall k | 0 <= k < st.tX
      ensures QueuedAt(code, st1.queue, k)
    {
      assert st1.queue[k] == st.queue[k] && (QueuedAt(code, st.queue, k) || st.queue[k] == st.off);
      QueuesMore(code, st.queue, st.queue[k], k + 1, j);
    }
  }

  /** After the last opcode: every explored jump has its target in the queue, behind the entry that it came from. */
  predicate AllPushed(code: seq<Opcode>, st: Scan) {
    && |st.sa| == |code| && |st.queue| <= |code| && (forall k :: 0 <= k < |st.queue| ==> st.queue[k] < |code|)
    && (forall i :: 0 <= i < |code| && st.sa[i].Some? && RealJump(code[i]) ==> Queues(code, st.queue, i, 0))
    && forall k :: 0 <= k < |st.queue| ==> QueuedAt(code, st.queue, k)
  }

  ghost predicate MovesPushed(code: seq<Opcode>, m: Move) {
    (m.Next? ==> PushedBut(code, m.st)) && (m.Finish? ==> AllPushed(code, m.st))
  }

  lemma FallPushed(code: seq<Opcode>, st: Scan, c: int, mft: bool)
    requires Pushed(code, st)
    ensures MovesPushed(code, FallThrough(st, c, mft))
  {
    hide Queues, RealJump, QueuedAt;
    var m := FallThrough(st, c, mft);
    if m.Next? {
      forall i | 0 <= i < |code| && m.st.sa[i].Some? && RealJump(code[i])
        ensures i == m.st.off || Queued(m.st, i) || Queues(code, m.st.queue, i, 0)
      {
        if i != m.st.off && Queued(st, i) {
          var k :| st.tX <= k < |st.queue| && st.queue[k] == i;
          assert m.st.queue[k] == i;
        }
      }
    }
  }

  lemma AdvancePushed(code: seq<Opcode>, st: Scan, c: int, disp: int, mft: bool)
    requires PushedBut(code, st) && disp == code[st.off].JumpDisp()
    ensures MovesPushed(code, Advance(st, c, disp, mft))
  {
    hide Queues, FallThrough, MovesPushed;
    var st1 := st.(maxDepth := Min(st.maxDepth, c));
    if disp == 0 {
      assert Pushed(code, st1);
      FallPushed(code, st1, c, mft);
    } else {
      var j := disp + st.off + 1;
      if |st.queue| < |code| && 0 <= j < |code| && Merge(st.sa, j, c).Some? {
        PushPushed(code, st1, c, j);
        FallPushed(code, st1.(queue := st.queue + [j], sa := Merge(st.sa, j, c).value), c, mft);
      }
      RejectPushed(code);
    }
  }

  lemma RejectPushed(code: seq<Opcode>)
    ensures forall reason :: MovesPushed(code, Reject(reason))
  {
  }

  lemma PlainPushed(code: seq<Opcode>, st: Scan)
    requires PushedBut(code, st)
    ensures MovesPushed(code, PlainMove(st, code[st.off]))
  {
    RejectPushed(code);
    hide Advance, Queues, MovesPushed;
    var op, c := code[st.off], st.sa[st.off].value;
    var st1 := if op.Ret? then st.(exit := Some(c)) else st.(mds := Max(st.mds, c + op.StackAction()));
    SamePushed(code, st, st1);
    AdvancePushed(code, st1, c + op.StackAction(), op.JumpDisp(), op.MayFallThrough());
  }

  lemma SamePushed(code: seq<Opcode>, st: Scan, st1: Scan)
    requires PushedBut(code, st)
    requires st1.sa == st.sa && st1.queue == st.queue && st1.tX == st.tX && st1.off == st.off
    ensures PushedBut(code, st1)
  {
    hide Queues, QueuedAt, RealJump;
    forall i | Queued(st, i)
      ensures Queued(st1, i)
    {
      var k :| st.tX <= k < |st.queue| && st.queue[k] == i;
      assert st1.queue[k] == i;
    }
  }

  lemma {:induction false} CallPushed(code: seq<Opcode>, p: Program, infos: Infos, st: Scan, v: nat)
    requires PushedBut(code, st) && code[st.off] == Call(v) && v < |p| == |infos|
    ensures MovesPushed(code, CallMove(p, infos, st, v))
  {
    RejectPushed(code);
    hide Advance, Queues, MovesPushed, MaxDataOf, MaxReturnOf;
    var c, se := st.sa[st.off].value, infos[v].effect;
    var st1 := st.(mds := Max(st.mds, c + MaxDataOf(p, infos, v)), mrs := Max(st.mrs, MaxReturnOf(p, infos, v)),
                   maxDepth := Min(st.maxDepth, c - se.din));
    SamePushed(code, st, st1);
    AdvancePushed(code, st1, c + if se.NoExit() then 0 else se.dout - se.din, 0, !se.NoExit());
  }

  lemma {:induction false} QueueEnds(code: seq<Opcode>, st: Scan, k: nat, fuel: nat)
    requires AllPushed(code, st) && k < |st.queue| <= k + 1 + fuel
    ensures Chain(code, st.queue[k], fuel) <= |st.queue| - 1 - k
    decreases |st.queue| - k
  {
    hide AllPushed;
    QueueFacts(code, st, k);
    if RealJump(code[st.queue[k]]) {
      var m :| k + 1 <= m < |st.queue| && st.queue[m] == Target(code, st.queue[k]);
      QueueFacts(code, st, m);
      QueueEnds(code, st, m, fuel - 1);
    }
  }

  lemma QueueFacts(code: seq<Opcode>, st: Scan, k: nat)
    requires AllPushed(code, st) && k < |st.queue|
    ensures st.queue[k] < |code| && QueuedAt(code, st.queue, k)
  {
  }

  lemma PushedEnds(code: seq<Opcode>, st: Scan)
    requires AllPushed(code, st)
    ensures ChainsEnd(code, st.sa)
  {
    forall i | 0 <= i < |code| && st.sa[i].Some?
      ensures Jumps(code, i) <= |code|
    {
      if RealJump(code[i]) {
        assert Queues(code, st.queue, i, 0);
        var m :| 0 <= m < |st.queue| && st.queue[m] == Target(code, i);
        QueueEnds(code, st, m, |code| - 1);
      }
    }
  }

  /** A word is accepted only if every chain of jumps from an explored offset ends. */
  lemma {:induction false} AcceptedChainsEnd(p: Program, infos: Infos, w: nat)
    requires w < |p| == |infos| && p[w].body.Interpreted? && infos[w].status.Fresh? && Analyse(p, infos, w).Accepted?
    ensures ChainsEnd(p[w].body.code, Analyse(p, infos, w).infos[w].scan.sa)
  {
    var code := p[w].body.code;
    assert w in FreshWords(infos);
    ExploreEnds(p, infos[w := infos[w].(status := Ongoing)], w, StartScan(|code|));
  }

  lemma {:induction false} ExploreEnds(p: Program, infos: Infos, w: nat, st: Scan)
    requires IsOngoing(p, infos, w) && PushedBut(p[w].body.code, st)
    ensures var r := Explore(p, infos, w, st);
            r.Accepted? ==> ChainsEnd(p[w].body.code, r.infos[w].scan.sa)
    decreases FreshWords(infos), 1, Unset(st.sa), |p[w].body.code| - st.tX, 1
  {
    FormedOf(p[w].body.code, st);
    hide Advance, Analyse, PushedBut, Progress, ChainsEnd, MovesPushed;
    var code := p[w].body.code;
    var op := code[st.off];
    if op.Call? && op.target < |p| {
      var r := Analyse(p, infos, op.target);
      if r.Accepted? {
        CallProgress(|code|, p, r.infos, st, op.target);
        CallPushed(code, p, r.infos, st, op.target);
        FollowEnds(p, infos, r.infos, w, st, CallMove(p, r.infos, st, op.target));
      }
    } else {
      PlainProgress(|code|, st, op);
      PlainPushed(code, st);
      FollowEnds(p, infos, infos, w, st, PlainMove(st, op));
    }
  }

  lemma FormedOf(code: seq<Opcode>, st: Scan)
    requires PushedBut(code, st)
    ensures Formed(|code|, st)
  {
  }

  lemma {:induction false} FollowEnds(p: Program, before: Infos, infos: Infos, w: nat, st: Scan, m: Move)
    requires IsOngoing(p, before, w) && AllKept(before, infos) && Formed(|p[w].body.code|, st)
    requires Progress(|p[w].body.code|, st, m) && MovesPushed(p[w].body.code, m)
    ensures var r := Follow(p, before, infos, w, st, m);
            r.Accepted? ==> ChainsEnd(p[w].body.code, r.infos[w].scan.sa)
    decreases FreshWords(before), 1, Unset(st.sa), |p[w].body.code| - st.tX, 0
  {
    match m
    case Reject(_) =>
    case Finish(st') => PushedEnds(p[w].body.code, st');
    case Next(st') => ExploreEnds(p, infos, w, st');
  }

  // ----- A plain traversal -----

  /** A traversal that queues every offset at most once: the offsets seen so far, and those that wait. */
  datatype Walk = Walk(seen: set<nat>, todo: seq<nat>)

  predicate InCode(code: seq<Opcode>, queue: seq<nat>) {
    forall k :: 0 <= k < |queue| ==> queue[k] < |code|
  }

  /** Control may go on from i to i + 1; `ends` are the offsets of calls that do not return. */
  predicate Falls(code: seq<Opcode>, ends: set<nat>, i: nat)
    requires i < |code|
  {
    code[i].MayFallThrough() && i !in ends
  }

  function Left(code: seq<Opcode>, seen: set<nat>): set<nat> {
    set i | 0 <= i < |code| && i !in seen
  }

  /** The jump at i makes its target wait, if it is new. */
  function Sight(code: seq<Opcode>, w: Walk, i: nat): (r: Walk)
    requires i < |code| && InCode(code, w.todo)
    ensures InCode(code, r.todo) && Left(code, r.seen) <= Left(code, w.seen)
    ensures r == w || Left(code, r.seen) < Left(code, w.seen)
  {
    var j := Target(code, i);
    if RealJump(code[i]) && 0 <= j < |code| && j !in w.seen then
      assert j in Left(code, w.seen);
      Walk(w.seen + {j}, w.todo + [j])
    else w
  }

  /** The chains of the offsets that the rest of the traversal first reaches by falling through. */
  function Entries(code: seq<Opcode>, ends: set<nat>, w: Walk): nat
    requires InCode(code, w.todo)
    decreases Left(code, w.seen), |w.todo|, 0
  {
    if w.todo == [] then 0 else EntriesAt(code, ends, Walk(w.seen, w.todo[1..]), w.todo[0])
  }

  /** The same at opcode i. */
  function EntriesAt(code: seq<Opcode>, ends: set<nat>, w: Walk, i: nat): nat
    requires i < |code| && InCode(code, w.todo)
    decreases Left(code, w.seen), |w.todo|, 2
  {
    FallEntries(code, ends, Sight(code, w, i), i)
  }

  /** The same after the jump at i, if there is one. */
  function FallEntries(code: seq<Opcode>, ends: set<nat>, w: Walk, i: nat): nat
    requires i < |code| && InCode(code, w.todo)
    decreases Left(code, w.seen), |w.todo|, 1
  {
    if Falls(code, ends, i) && i + 1 < |code| && i + 1 !in w.seen then
      assert i + 1 in Left(code, w.seen);
      Jumps(code, i + 1) + EntriesAt(code, ends, Walk(w.seen + {i + 1}, w.todo), i + 1)
    else Entries(code, ends, w)
  }

  /** The jumps on the chains of all offsets that a traversal from the start first reaches by falling through. */
  function EntryJumps(code: seq<Opcode>, ends: set<nat>): nat
    requires code != []
  {
    Jumps(code, 0) + EntriesAt(code, ends, Walk({0}, []), 0)
  }

  /** The calls that do not return. */
  function Ends(p: Program, infos: Infos, code: seq<Opcode>): set<nat>
    requires |p| == |infos|
  {
    set i | 0 <= i < |code| && code[i].Call? && code[i].target < |p| && infos[code[i].target].effect.NoExit()
  }

  // ----- The scan follows the traversal -----

  predicate Occurs(queue: seq<nat>, k: nat, j: nat) {
    exists m :: k <= m < |queue| && queue[m] == j
  }

  /** The offsets that wait for the first time, in order; those in `done` do not. */
  function Firsts(queue: seq<nat>, k: nat, done: set<nat>): (r: seq<nat>)
    ensures forall m :: 0 <= m < |r| ==> r[m] in queue
    decreases |queue| - k
  {
    if k >= |queue| then []
    else if queue[k] in done then Firsts(queue, k + 1, done)
    else [queue[k]] + Firsts(queue, k + 1, done + {queue[k]})
  }

  lemma {:induction false} FirstsAppend(queue: seq<nat>, k: nat, done: set<nat>, j: nat)
    requires k <= |queue|
    ensures Firsts(queue + [j], k, done)
            == Firsts(queue, k, done) + if j in done || Occurs(queue, k, j) then [] else [j]
    decreases |queue| - k
  {
    var longer := queue + [j];
    if k < |queue| {
      var q := queue[k];
      assert longer[k] == q;
      assert Occurs(queue, k, j) <==> q == j || Occurs(queue, k + 1, j);
      FirstsAppend(queue, k + 1, if q in done then done else done + {q}, j);
    } else {
      assert Firsts(longer, k + 1, done) == [] == Firsts(longer, k + 1, done + {j});
    }
  }

  lemma {:induction false} FirstsOther(queue: seq<nat>, k: nat, done: set<nat>, j: nat)
    requires !Occurs(queue, k, j)
    ensures Firsts(queue, k, done + {j}) == Firsts(queue, k, done)
    decreases |queue| - k
  {
    if k < |queue| {
      var q := queue[k];
      assert q != j;
      FirstsOther(queue, k + 1, if q in done then done else done + {q}, j);
      assert done + {j} + {q} == done + {q} + {j};
    }
  }

  function Annotated(sa: seq<Option<int>>): set<nat> {
    set i | 0 <= i < |sa| && sa[i].Some?
  }

  /** The chains of the offsets that wait in the queue. */
  function Waiting(code: seq<Opcode>, queue: seq<nat>, k: nat): nat
    requires InCode(code, queue)
    decreases |queue| - k
  {
    if k >= |queue| then 0 else Jumps(code, queue[k]) + Waiting(code, queue, k + 1)
  }

  lemma {:induction false} WaitingAppend(code: seq<Opcode>, queue: seq<nat>, j: nat, k: nat)
    requires InCode(code, queue) && j < |code| && k <= |queue|
    ensures InCode(code, queue + [j]) && Waiting(code, queue + [j], k) == Waiting(code, queue, k) + Jumps(code, j)
    decreases |queue| - k
  {
    hide Jumps;
    if k < |queue| {
      WaitingAppend(code, queue, j, k + 1);
    } else {
      assert Waiting(code, queue + [j], k + 1) == 0;
    }
  }

  /** The traversal that the scan has come to, where the offsets in `done` have been explored. */
  function WalkOf(code: seq<Opcode>, st: Scan, done: set<nat>): (w: Walk)
    requires InCode(code, st.queue)
    ensures InCode(code, w.todo)
  {
    var todo := Firsts(st.queue, st.tX, done);
    assert forall m :: 0 <= m < |todo| ==> todo[m] in st.queue;
    Walk(Annotated(st.sa), todo)
  }

  /** The successors of i are annotated. */
  predicate Led(code: seq<Opcode>, ends: set<nat>, sa: seq<Option<int>>, i: nat)
    requires i < |code| == |sa|
  {
    LedByJump(code, sa, i) && (Falls(code, ends, i) ==> i + 1 < |code| && sa[i + 1].Some?)
  }

  predicate LedByJump(code: seq<Opcode>, sa: seq<Option<int>>, i: nat)
    requires i < |code| == |sa|
  {
    RealJump(code[i]) ==> 0 <= Target(code, i) < |code| && sa[Target(code, i)].Some?
  }

  /** Every annotated offset is explored, or the current one, or waits; explored offsets have led on; chains end. */
  predicate Tracks(code: seq<Opcode>, ends: set<nat>, st: Scan, done: set<nat>) {
    && Formed(|code|, st) && InCode(code, st.queue) && done <= Annotated(st.sa)
    && (forall i :: i in Annotated(st.sa) ==> i in done || i == st.off || Occurs(st.queue, st.tX, i))
    && (forall i :: i in done ==> i == st.off || Led(code, ends, st.sa, i))
    && ChainsEnd(code, st.sa)
  }

  /** At an opcode: what is queued, and still will be, is the total. */
  predicate AtOpcode(code: seq<Opcode>, ends: set<nat>, st: Scan, done: set<nat>, total: nat) {
    && Tracks(code, ends, st, done) && (st.off in done ==> Led(code, ends, st.sa, st.off))
    && |st.queue| + Jumps(code, st.off) + Waiting(code, st.queue, st.tX)
       + EntriesAt(code, ends, WalkOf(code, st, done + {st.off}), st.off) == total
  }

  /** The same after the jump of the opcode, if it is one. */
  predicate AfterJump(code: seq<Opcode>, ends: set<nat>, st: Scan, done: set<nat>, total: nat) {
    && Tracks(code, ends, st, done) && st.off in done && LedByJump(code, st.sa, st.off)
    && |st.queue| + Waiting(code, st.queue, st.tX) + FallEntries(code, ends, WalkOf(code, st, done), st.off) == total
  }

  /** Before the next offset is taken from the queue. */
  predicate AfterOpcode(code: seq<Opcode>, ends: set<nat>, st: Scan, done: set<nat>, total: nat) {
    && Tracks(code, ends, st, done) && st.off in done && Led(code, ends, st.sa, st.off)
    && |st.queue| + Waiting(code, st.queue, st.tX) + Entries(code, ends, WalkOf(code, st, done)) == total
  }

  /** The total is known to be too large, from a chain without an end. */
  predicate Endless(code: seq<Opcode>, sa: seq<Option<int>>, total: nat) {
    total > |code| && !ChainsEnd(code, sa)
  }

  predicate Exact(code: seq<Opcode>, ends: set<nat>, st: Scan, done: set<nat>, total: nat) {
    Endless(code, st.sa, total) || AtOpcode(code, ends, st, done, total)
  }

  /** What a move does: the invariant goes on, the total has been queued, or it is too large. */
  ghost predicate Moved(code: seq<Opcode>, ends: set<nat>, m: Move, done: set<nat>, total: nat) {
    && (m.Next? ==> Exact(code, ends, m.st, done, total))
    && (m.Finish? ==> ChainsEnd(code, m.st.sa) ==> total <= |code|)
    && (m.Reject? && m.reason.QueueFull? ==> total > |code|)
  }

  /** An offset whose successors are annotated adds nothing. */
  lemma NothingNew(code: seq<Opcode>, ends: set<nat>, sa: seq<Option<int>>, todo: seq<nat>, i: nat)
    requires i < |code| == |sa| && Led(code, ends, sa, i) && InCode(code, todo)
    ensures EntriesAt(code, ends, Walk(Annotated(sa), todo), i) == Entries(code, ends, Walk(Annotated(sa), todo))
  {
    hide Jumps;
  }

  lemma DequeueExact(code: seq<Opcode>, ends: set<nat>, st: Scan, done: set<nat>, total: nat)
    requires AfterOpcode(code, ends, st, done, total)
    ensures Moved(code, ends, Dequeue(st), done, total)
  {
    hide Jumps, Led, ChainsEnd, EntriesAt;
    if st.tX < |st.queue| {
      var q := st.queue[st.tX];
      var st1 := st.(off := q, tX := st.tX + 1);
      forall i | i in Annotated(st1.sa)
        ensures i in done || i == q || Occurs(st1.queue, st1.tX, i)
      {
        if i !in done {
          var m :| st.tX <= m < |st.queue| && st.queue[m] == i;
          assert m == st.tX || st1.queue[m] == i;
        }
      }
      if q in done {
        assert done + {q} == done;
        NothingNew(code, ends, st.sa, WalkOf(code, st1, done).todo, q);
      } else {
        assert WalkOf(code, st, done).todo == [q] + WalkOf(code, st1, done + {q}).todo;
        assert WalkOf(code, st, done).todo[1..] == WalkOf(code, st1, done + {q}).todo;
      }
      assert AtOpcode(code, ends, st1, done, total);
    }
  }

  lemma FallExact(code: seq<Opcode>, ends: set<nat>, st: Scan, done: set<nat>, total: nat, c: int)
    requires AfterJump(code, ends, st, done, total)
    ensures Moved(code, ends, FallThrough(st, c, Falls(code, ends, st.off)), done, total)
  {
    var i := st.off + 1;
    if Falls(code, ends, st.off) && i < |code| && st.sa[i].None? {
      NewFall(code, ends, st, done, total, c);
    } else if !Falls(code, ends, st.off) || (i < |code| && st.sa[i] == Some(c)) {
      DequeueExact(code, ends, st, done, total);
    }
  }

  lemma NewFall(code: seq<Opcode>, ends: set<nat>, st: Scan, done: set<nat>, total: nat, c: int)
    requires AfterJump(code, ends, st, done, total)
    requires Falls(code, ends, st.off) && st.off + 1 < |code| && st.sa[st.off + 1].None?
    ensures Exact(code, ends, st.(sa := st.sa[st.off + 1 := Some(c)], off := st.off + 1), done, total)
  {
    hide Jumps, EntriesAt, Waiting;
    var i := st.off + 1;
    var st1 := st.(sa := st.sa[i := Some(c)], off := i);
    if Jumps(code, i) > |code| {
      assert st1.sa[i].Some?;
    } else {
      FirstsOther(st.queue, st.tX, done, i);
      assert Annotated(st1.sa) == Annotated(st.sa) + {i};
      assert WalkOf(code, st1, done + {i}) == Walk(Annotated(st.sa) + {i}, WalkOf(code, st, done).todo);
      assert AtOpcode(code, ends, st1, done, total);
    }
  }

  function PushScan(st: Scan, c: int, j: nat): Scan
    requires j < |st.sa| && Merge(st.sa, j, c).Some?
  {
    st.(queue := st.queue + [j], sa := Merge(st.sa, j, c).value)
  }

  lemma PushExact(code: seq<Opcode>, ends: set<nat>, st: Scan, done: set<nat>, total: nat, c: int, j: nat)
    requires AtOpcode(code, ends, st, done, total) && RealJump(code[st.off]) && j == Target(code, st.off) && j < |code|
    requires Merge(st.sa, j, c).Some? && |st.queue| < |code|
    ensures AfterJump(code, ends, PushScan(st, c, j), done + {st.off}, total)
  {
    PushTracks(code, ends, st, done, c, j);
    PushSight(code, ends, st, done, c, j);
    WaitingAppend(code, st.queue, j, st.tX);
    hide Jumps, FallEntries, Waiting, Tracks, LedByJump, Sight, WalkOf, Merge;
    PushJumps(code, ends, st, done);
  }

  lemma PushJumps(code: seq<Opcode>, ends: set<nat>, st: Scan, done: set<nat>)
    requires Tracks(code, ends, st, done) && RealJump(code[st.off]) && 0 <= Target(code, st.off) < |code|
    ensures Jumps(code, st.off) == 1 + Jumps(code, Target(code, st.off))
  {
    hide Jumps;
    assert st.sa[st.off].Some?;
    JumpsStep(code, st.off);
  }

  lemma PushTracks(code: seq<Opcode>, ends: set<nat>, st: Scan, done: set<nat>, c: int, j: nat)
    requires Tracks(code, ends, st, done) && RealJump(code[st.off]) && j == Target(code, st.off) && j < |code|
    requires Merge(st.sa, j, c).Some? && |st.queue| < |code|
    ensures var st1 := PushScan(st, c, j);
            Tracks(code, ends, st1, done + {st.off}) && LedByJump(code, st1.sa, st.off)
  {
    hide Jumps;
    var st1, done1 := PushScan(st, c, j), done + {st.off};
    PushJumps(code, ends, st, done);
    assert st1.queue[|st.queue|] == j;
    forall i | i in Annotated(st1.sa)
      ensures i in done1 || Occurs(st1.queue, st1.tX, i)
    {
      if i !in done1 && i != j {
        assert i in Annotated(st.sa);
        var m :| st.tX <= m < |st.queue| && st.queue[m] == i;
        assert st1.queue[m] == i;
      }
    }
  }

  lemma PushSight(code: seq<Opcode>, ends: set<nat>, st: Scan, done: set<nat>, c: int, j: nat)
    requires Tracks(code, ends, st, done) && RealJump(code[st.off]) && j == Target(code, st.off) && j < |code|
    requires Merge(st.sa, j, c).Some? && |st.queue| < |code|
    ensures var st1 := PushScan(st, c, j);
            && InCode(code, st1.queue)
            && Sight(code, WalkOf(code, st, done + {st.off}), st.off) == WalkOf(code, st1, done + {st.off})
  {
    hide Jumps, ChainsEnd, Led;
    var st1, done1 := PushScan(st, c, j), done + {st.off};
    FirstsAppend(st.queue, st.tX, done1, j);
    assert Annotated(st1.sa) == Annotated(st.sa) + {j};
    if j in Annotated(st.sa) {
      assert Annotated(st1.sa) == Annotated(st.sa);
    } else {
      assert j !in done1 && !Occurs(st.queue, st.tX, j);
    }
  }

  lemma AdvanceExact(code: seq<Opcode>, ends: set<nat>, st: Scan, done: set<nat>, total: nat, c: int)
    requires Formed(|code|, st) && Exact(code, ends, st, done, total)
    ensures Moved(code, ends, Advance(st, c, code[st.off].JumpDisp(), Falls(code, ends, st.off)), done + {st.off}, total)
  {
    hide AtOpcode, AfterJump, Moved, FallThrough, Endless, Falls;
    var disp, mft, done1 := code[st.off].JumpDisp(), Falls(code, ends, st.off), done + {st.off};
    if Endless(code, st.sa, total) {
      EndlessMoved(code, ends, st, done1, total, c, disp, mft);
    } else {
      var st1 := st.(maxDepth := Min(st.maxDepth, c));
      SameAt(code, ends, st, st1, done, total);
      var j := disp + st.off + 1;
      if disp == 0 {
        NoJump(code, ends, st1, done, total);
        FallExact(code, ends, st1, done1, total, c);
      } else if |st.queue| >= |code| {
        FullQueue(code, ends, st1, done, total);
        Rejections(code, ends, QueueFull, done1, total);
      } else if !(0 <= j < |code|) {
        Rejections(code, ends, BadTarget, done1, total);
      } else if Merge(st.sa, j, c).None? {
        Rejections(code, ends, Mismatch, done1, total);
      } else {
        PushExact(code, ends, st1, done, total, c, j);
        FallExact(code, ends, PushScan(st1, c, j), done1, total, c);
      }
    }
  }

  lemma Rejections(code: seq<Opcode>, ends: set<nat>, reason: Reason, done: set<nat>, total: nat)
    requires reason.QueueFull? ==> total > |code|
    ensures Moved(code, ends, Reject(reason), done, total)
  {
  }

  lemma EndlessMoved(code: seq<Opcode>, ends: set<nat>, st: Scan, done: set<nat>, total: nat, c: int, disp: int,
                     mft: bool)
    requires Formed(|code|, st) && Endless(code, st.sa, total)
    ensures Moved(code, ends, Advance(st, c, disp, mft), done, total)
  {
    hide Advance, Jumps, Pending, Queued, AtOpcode;
    var m := Advance(st, c, disp, mft);
    AdvanceIsAdvanced(st, c, disp, mft);
    if !m.Reject? {
      var i :| 0 <= i < |code| && st.sa[i].Some? && !(Jumps(code, i) <= |code|);
      assert m.st.sa[i].Some?;
    }
  }

  /** The accumulators do not matter. */
  lemma SameAt(code: seq<Opcode>, ends: set<nat>, st: Scan, st1: Scan, done: set<nat>, total: nat)
    requires st1.sa == st.sa && st1.queue == st.queue && st1.tX == st.tX && st1.off == st.off
    ensures Exact(code, ends, st, done, total) ==> Exact(code, ends, st1, done, total)
    ensures AtOpcode(code, ends, st, done, total) ==> AtOpcode(code, ends, st1, done, total)
  {
    hide Jumps, EntriesAt, Waiting, Led;
  }

  lemma NoJump(code: seq<Opcode>, ends: set<nat>, st: Scan, done: set<nat>, total: nat)
    requires AtOpcode(code, ends, st, done, total) && !RealJump(code[st.off])
    ensures AfterJump(code, ends, st, done + {st.off}, total)
  {
    hide FallEntries, Waiting;
    assert Jumps(code, st.off) == 0;
  }

  lemma FullQueue(code: seq<Opcode>, ends: set<nat>, st: Scan, done: set<nat>, total: nat)
    requires AtOpcode(code, ends, st, done, total) && RealJump(code[st.off]) && |st.queue| >= |code|
    ensures total > |code|
  {
    hide EntriesAt, Waiting;
    assert st.sa[st.off].Some?;
    JumpsStep(code, st.off);
  }

  lemma PlainExact(code: seq<Opcode>, ends: set<nat>, st: Scan, done: set<nat>, total: nat)
    requires Formed(|code|, st) && Exact(code, ends, st, done, total)
    requires st.off !in ends
    ensures Moved(code, ends, PlainMove(st, code[st.off]), done + {st.off}, total)
  {
    hide Advance, Exact, Moved, AtOpcode;
    var op, c := code[st.off], st.sa[st.off].value;
    var st1 := if op.Ret? then st.(exit := Some(c)) else st.(mds := Max(st.mds, c + op.StackAction()));
    SameAt(code, ends, st, st1, done, total);
    AdvanceExact(code, ends, st1, done, total, c + op.StackAction());
    Rejections(code, ends, ExitMismatch, done + {st.off}, total);
    Rejections(code, ends, Unresolved, done + {st.off}, total);
  }

  lemma {:induction false} CallExact(code: seq<Opcode>, ends: set<nat>, p: Program, infos: Infos, st: Scan, v: nat,
                                     done: set<nat>, total: nat)
    requires Formed(|code|, st) && Exact(code, ends, st, done, total)
    requires code[st.off] == Call(v) && v < |p| == |infos| && (st.off in ends <==> infos[v].effect.NoExit())
    ensures Moved(code, ends, CallMove(p, infos, st, v), done + {st.off}, total)
  {
    hide Advance, Exact, Moved, AtOpcode, MaxDataOf, MaxReturnOf;
    var c, se := st.sa[st.off].value, infos[v].effect;
    var st1 := st.(mds := Max(st.mds, c + MaxDataOf(p, infos, v)), mrs := Max(st.mrs, MaxReturnOf(p, infos, v)),
                   maxDepth := Min(st.maxDepth, c - se.din));
    SameAt(code, ends, st, st1, done, total);
    AdvanceExact(code, ends, st1, done, total, c + if se.NoExit() then 0 else se.dout - se.din);
    Rejections(code, ends, UnknownEffect, done + {st.off}, total);
  }

  // ----- When the queue overflows -----

  /** Words without opcodes keep their fields. */
  predicate OpcodelessKept(p: Program, a: Infos, b: Infos) {
    |p| == |a| == |b| && forall v :: 0 <= v < |p| && !p[v].body.Interpreted? ==> b[v] == a[v]
  }

  lemma {:induction false} AnalyseKeeps(p: Program, infos: Infos, w: nat)
    requires w < |p| == |infos|
    ensures OpcodelessKept(p, infos, Analyse(p, infos, w).infos)
    decreases FreshWords(infos), 0, FreshWords([]), 0, 0
  {
    if p[w].body.Interpreted? && infos[w].status.Fresh? && p[w].body.code != [] {
      assert w in FreshWords(infos);
      ExploreKeeps(p, infos[w := infos[w].(status := Ongoing)], w, StartScan(|p[w].body.code|));
    }
  }

  lemma {:induction false} ExploreKeeps(p: Program, infos: Infos, w: nat, st: Scan)
    requires IsOngoing(p, infos, w) && Formed(|p[w].body.code|, st)
    ensures OpcodelessKept(p, infos, Explore(p, infos, w, st).infos)
    decreases FreshWords(infos), 1, Unset(st.sa), |p[w].body.code| - st.tX, 1
  {
    hide Progress, Conclude;
    var op := p[w].body.code[st.off];
    if op.Call? && op.target < |p| {
      AnalyseKeeps(p, infos, op.target);
      var r := Analyse(p, infos, op.target);
      if r.Accepted? {
        CallProgress(|p[w].body.code|, p, r.infos, st, op.target);
        FollowKeeps(p, infos, r.infos, w, st, CallMove(p, r.infos, st, op.target));
      }
    } else {
      PlainProgress(|p[w].body.code|, st, op);
      FollowKeeps(p, infos, infos, w, st, PlainMove(st, op));
    }
  }

  lemma {:induction false} FollowKeeps(p: Program, before: Infos, infos: Infos, w: nat, st: Scan, m: Move)
    requires IsOngoing(p, before, w) && AllKept(before, infos) && Formed(|p[w].body.code|, st)
    requires Progress(|p[w].body.code|, st, m)
    ensures OpcodelessKept(p, infos, Follow(p, before, infos, w, st, m).infos)
    decreases FreshWords(before), 1, Unset(st.sa), |p[w].body.code| - st.tX, 0
  {
    match m
    case Reject(_) =>
    case Finish(_) =>
    case Next(st') => ExploreKeeps(p, infos, w, st');
  }

  /** The jumps that the scan of word u queues are more than its opcodes; `infos` tells which calls do not return. */
  predicate TooMany(p: Program, infos: Infos, u: nat) {
    && u < |p| == |infos| && p[u].body.Interpreted? && p[u].body.code != []
    && EntryJumps(p[u].body.code, Ends(p, infos, p[u].body.code)) > |p[u].body.code|
  }

  predicate BlamesQueue(p: Program, r: Verdict) {
    r.Rejected? && r.reason.QueueFull? ==> TooMany(p, r.infos, r.word)
  }

  /** The queue overflows only if the chains of jumps, counted once for each offset that a plain traversal first reaches
      by falling through, have together more jumps than the word has opcodes, and a word is accepted only if not. */
  lemma {:induction false} QueueExact(p: Program, infos: Infos, w: nat)
    requires w < |p| == |infos|
    ensures var r := Analyse(p, infos, w);
            && BlamesQueue(p, r)
            && (r.Accepted? && p[w].body.Interpreted? && infos[w].status.Fresh? ==> !TooMany(p, r.infos, w))
    decreases FreshWords(infos), 0, FreshWords([]), 0, 0
  {
    if p[w].body.Interpreted? && infos[w].status.Fresh? && p[w].body.code != [] {
      assert w in FreshWords(infos);
      var code, r := p[w].body.code, Analyse(p, infos, w);
      var ends := Ends(p, r.infos, code);
      StartExact(code, ends);
      ExploreExact(p, infos[w := infos[w].(status := Ongoing)], w, StartScan(|code|), ends, {});
      if r.Accepted? {
        AcceptedChainsEnd(p, infos, w);
      }
    }
  }

  lemma StartExact(code: seq<Opcode>, ends: set<nat>)
    requires code != []
    ensures Exact(code, ends, StartScan(|code|), {}, EntryJumps(code, ends))
  {
    hide Jumps, EntriesAt;
    var st := StartScan(|code|);
    if Jumps(code, 0) > |code| {
      assert st.sa[0].Some?;
    } else {
      assert Annotated(st.sa) == {0};
      assert WalkOf(code, st, {} + {0}) == Walk({0}, []);
    }
  }

  lemma {:induction false} ExploreExact(p: Program, infos: Infos, w: nat, st: Scan, ends: set<nat>, done: set<nat>)
    requires IsOngoing(p, infos, w) && Formed(|p[w].body.code|, st)
    requires ends == Ends(p, Explore(p, infos, w, st).infos, p[w].body.code)
    requires Exact(p[w].body.code, ends, st, done, EntryJumps(p[w].body.code, ends))
    ensures var r := Explore(p, infos, w, st);
            && BlamesQueue(p, r)
            && (r.Accepted? && ChainsEnd(p[w].body.code, r.infos[w].scan.sa) ==> !TooMany(p, r.infos, w))
    decreases FreshWords(infos), 1, Unset(st.sa), |p[w].body.code| - st.tX, 1
  {
    hide Advance, Analyse, Exact, Progress, EntryJumps, ChainsEnd, Moved;
    var code := p[w].body.code;
    var op, total := code[st.off], EntryJumps(code, ends);
    if op.Call? && op.target < |p| {
      QueueExact(p, infos, op.target);
      var r := Analyse(p, infos, op.target);
      if r.Accepted? {
        var m := CallMove(p, r.infos, st, op.target);
        CallProgress(|code|, p, r.infos, st, op.target);
        AcceptedIsOver(p, infos, w, op.target);
        FollowKeepsOngoing(p, infos, r.infos, w, st, m);
        FollowKeeps(p, infos, r.infos, w, st, m);
        CallExact(code, ends, p, r.infos, st, op.target, done, total);
        FollowExact(p, infos, r.infos, w, st, m, ends, done + {st.off});
      }
    } else {
      PlainProgress(|code|, st, op);
      PlainExact(code, ends, st, done, total);
      FollowExact(p, infos, infos, w, st, PlainMove(st, op), ends, done + {st.off});
    }
  }

  /** An accepted callee is another word, and keeps its effect from now on. */
  lemma {:induction false} AcceptedIsOver(p: Program, infos: Infos, w: nat, v: nat)
    requires IsOngoing(p, infos, w) && v < |p| && Analyse(p, infos, v).Accepted?
    ensures v != w
    ensures p[v].body.Interpreted? ==> !Analyse(p, infos, v).infos[v].status.Fresh?
  {
    hide Explore;
  }

  lemma {:induction false} FollowExact(p: Program, before: Infos, infos: Infos, w: nat, st: Scan, m: Move,
                                       ends: set<nat>, done: set<nat>)
    requires IsOngoing(p, before, w) && AllKept(before, infos) && Formed(|p[w].body.code|, st)
    requires Progress(|p[w].body.code|, st, m)
    requires ends == Ends(p, Follow(p, before, infos, w, st, m).infos, p[w].body.code)
    requires Moved(p[w].body.code, ends, m, done, EntryJumps(p[w].body.code, ends))
    ensures var r := Follow(p, before, infos, w, st, m);
            && BlamesQueue(p, r)
            && (r.Accepted? && ChainsEnd(p[w].body.code, r.infos[w].scan.sa) ==> !TooMany(p, r.infos, w))
    decreases FreshWords(before), 1, Unset(st.sa), |p[w].body.code| - st.tX, 0
  {
    hide EntryJumps, ChainsEnd, Exact;
    match m
    case Reject(_) =>
    case Finish(_) =>
    case Next(st') => ExploreExact(p, infos, w, st', ends, done);
  }

  /** An analysis that blames at most the word itself, and not for recursion, accepts exactly if the flow equations have
      a solution and the queue is long enough, both with what has been found out about the callees. */
  lemma {:induction false} VerdictExactly(p: Program, infos: Infos, w: nat)
    requires AllCertified(p, infos) && w < |p| && p[w].body.Interpreted? && infos[w].status.Fresh?
    requires var r := Analyse(p, infos, w); r.Rejected? ==> r.word == w && !r.reason.Recursive?
    ensures var r := Analyse(p, infos, w);
            r.Accepted? <==> (exists s, exit :: Consistent(p, r.infos, w, s, exit)) && !TooMany(p, r.infos, w)
  {
    hide TooMany, Consistent, Analyse;
    var r := Analyse(p, infos, w);
    QueueExact(p, infos, w);
    if r.Accepted? {
      AcceptedHasOne(p, infos, w);
    } else if !r.reason.QueueFull? {
      RejectedHasNone(p, infos, w);
    }
  }

  // ----- Words whose callees are analysed -----

  /** Every word that w calls is another word, without opcodes or analysed before. */
  predicate CalleesDecided(p: Program, infos: Infos, w: nat)
    requires w < |p| == |infos| && p[w].body.Interpreted?
  {
    forall v: nat :: Call(v) in p[w].body.code && v < |p| ==> v != w && Decided(p, infos, v)
  }

  /** The verdict is about w alone: nothing else changes, and a rejection blames w, though not for recursion. */
  predicate OwnVerdict(infos: Infos, w: nat, r: Verdict)
    requires w < |infos|
  {
    && |r.infos| == |infos| && r.infos == infos[w := r.infos[w]]
    && (r.Rejected? ==> r.word == w && !r.reason.Recursive? && r.infos == infos)
    && (r.Accepted? && infos[w].effect.IsKnown() ==> r.infos[w].effect == infos[w].effect)
  }

  lemma {:induction false} ExploreOwn(p: Program, infos: Infos, w: nat, st: Scan)
    requires IsOngoing(p, infos, w) && Formed(|p[w].body.code|, st) && CalleesDecided(p, infos, w)
    ensures OwnVerdict(infos, w, Explore(p, infos, w, st))
    decreases Unset(st.sa), |p[w].body.code| - st.tX, 1
  {
    hide Progress, Advance, Formed, CalleesDecided;
    var code := p[w].body.code;
    CodeAt(code, st);
    var op := code[st.off];
    if op.Call? && op.target < |p| {
      DecidedCallee(p, infos, w, op.target);
      CallProgress(|code|, p, infos, st, op.target);
      CallReason(p, infos, st, op.target);
      FollowOwn(p, infos, w, st, CallMove(p, infos, st, op.target));
    } else {
      PlainProgress(|code|, st, op);
      PlainReason(st, op);
      FollowOwn(p, infos, w, st, PlainMove(st, op));
    }
  }

  lemma CodeAt(code: seq<Opcode>, st: Scan)
    requires Formed(|code|, st)
    ensures st.off < |code| == |st.sa| && st.sa[st.off].Some? && code[st.off] in code
  {
  }

  lemma {:induction false} DecidedCallee(p: Program, infos: Infos, w: nat, v: nat)
    requires w < |p| == |infos| && p[w].body.Interpreted? && CalleesDecided(p, infos, w)
    requires Call(v) in p[w].body.code && v < |p|
    ensures v != w && Analyse(p, infos, v) == Accepted(infos)
  {
    hide Explore;
  }

  lemma {:induction false} CallReason(p: Program, infos: Infos, st: Scan, v: nat)
    requires st.off < |st.sa| && st.sa[st.off].Some? && v < |p| == |infos|
    ensures var m := CallMove(p, infos, st, v); m.Reject? ==> !m.reason.Recursive?
  {
  }

  lemma {:induction false} FollowOwn(p: Program, infos: Infos, w: nat, st: Scan, m: Move)
    requires IsOngoing(p, infos, w) && Formed(|p[w].body.code|, st) && CalleesDecided(p, infos, w)
    requires Progress(|p[w].body.code|, st, m) && (m.Reject? ==> !m.reason.Recursive?)
    ensures OwnVerdict(infos, w, Follow(p, infos, infos, w, st, m))
    decreases Unset(st.sa), |p[w].body.code| - st.tX, 0
  {
    match m
    case Reject(_) =>
    case Finish(_) =>
    case Next(st') => ExploreOwn(p, infos, w, st');
  }

  /** Solutions with what is known before the analysis of w and after it. */
  lemma {:induction false} SameEquations(p: Program, a: Infos, b: Infos, w: nat, s: seq<Option<int>>,
                                         exit: Option<int>)
    requires w < |p| == |a| == |b| && p[w].body.Interpreted? && CalleesDecided(p, a, w) && b == a[w := b[w]]
    requires a[w].effect.IsKnown() ==> b[w].effect == a[w].effect
    ensures Consistent(p, b, w, s, exit) ==> Consistent(p, a, w, s, exit)
    ensures b[w].effect == a[w].effect ==> (Consistent(p, a, w, s, exit) ==> Consistent(p, b, w, s, exit))
  {
    var code := p[w].body.code;
    if |s| == |code| {
      forall i | 0 <= i < |code| && s[i].Some?
        ensures var fa, fb := Floor(a[w].effect), Floor(b[w].effect);
                && (LocallyConsistent(p, b, code, s, exit, fb, i) ==> LocallyConsistent(p, a, code, s, exit, fa, i))
                && (fa == fb && LocallyConsistent(p, a, code, s, exit, fa, i)
                    ==> LocallyConsistent(p, b, code, s, exit, fb, i))
      {
        assert code[i] in code;
      }
    }
  }

  lemma {:induction false} SameCount(p: Program, a: Infos, b: Infos, w: nat)
    requires w < |p| == |a| == |b| && p[w].body.Interpreted? && CalleesDecided(p, a, w) && b == a[w := b[w]]
    ensures TooMany(p, a, w) == TooMany(p, b, w)
  {
    hide EntryJumps;
    var code := p[w].body.code;
    forall i | 0 <= i < |code| && code[i].Call? && code[i].target < |p|
      ensures a[code[i].target] == b[code[i].target]
    {
      assert code[i] in code;
    }
    assert Ends(p, a, code) == Ends(p, b, code);
  }

  /** A fresh word whose callees have been analysed is accepted exactly if its flow equations have a solution and the
      queue is long enough for it: a condition on what is known before the analysis. */
  lemma {:induction false} AcceptedExactly(p: Program, infos: Infos, w: nat)
    requires AllCertified(p, infos) && w < |p| && p[w].body.Interpreted? && infos[w].status.Fresh?
    requires CalleesDecided(p, infos, w)
    ensures Analyse(p, infos, w).Accepted? <==>
              (exists s, exit :: Consistent(p, infos, w, s, exit)) && !TooMany(p, infos, w)
  {
    var r := Analyse(p, infos, w);
    OwnAnalysis(p, infos, w);
    hide TooMany, Consistent, Analyse, CalleesDecided, AllCertified;
    VerdictExactly(p, infos, w);
    SameCount(p, infos, r.infos, w);
    forall s, exit
      ensures Consistent(p, r.infos, w, s, exit) ==> Consistent(p, infos, w, s, exit)
      ensures r.Rejected? ==> (Consistent(p, infos, w, s, exit) ==> Consistent(p, r.infos, w, s, exit))
    {
      SameEquations(p, infos, r.infos, w, s, exit);
    }
  }

  lemma {:induction false} OwnAnalysis(p: Program, infos: Infos, w: nat)
    requires w < |p| == |infos| && p[w].body.Interpreted? && infos[w].status.Fresh? && CalleesDecided(p, infos, w)
    ensures var r := Analyse(p, infos, w);
            && |r.infos| == |infos| && r.infos == infos[w := r.infos[w]]
            && (r.Rejected? ==> r.word == w && !r.reason.Recursive? && r.infos[w].effect == infos[w].effect)
            && (infos[w].effect.IsKnown() ==> r.infos[w].effect == infos[w].effect)
  {
    var code, marked := p[w].body.code, infos[w := infos[w].(status := Ongoing)];
    if code != [] {
      assert w in FreshWords(infos);
      assert CalleesDecided(p, marked, w);
      ExploreOwn(p, marked, w, StartScan(|code|));
      hide Explore;
    }
  }

  // ----- Conditions on the code alone -----

  /** The chains of the offsets below n that have not been seen. */
  function Unseen(code: seq<Opcode>, seen: set<nat>, n: nat): nat
    requires n <= |code|
  {
    if n == 0 then 0 else Unseen(code, seen, n - 1) + if n - 1 in seen then 0 else Jumps(code, n - 1)
  }

  lemma {:induction false} UnseenLess(code: seq<Opcode>, seen: set<nat>, j: nat, n: nat)
    requires j < |code| && n <= |code| && j !in seen
    ensures Unseen(code, seen + {j}, n) + (if j < n then Jumps(code, j) else 0) == Unseen(code, seen, n)
  {
    hide Jumps;
    if n > 0 {
      UnseenLess(code, seen, j, n - 1);
    }
  }

  lemma {:induction false} UnseenStart(code: seq<Opcode>, n: nat)
    requires n <= |code|
    ensures Unseen(code, {}, n) == TotalJumps(code, n)
  {
    hide Jumps;
    if n > 0 {
      UnseenStart(code, n - 1);
    }
  }

  lemma {:induction false} EntriesBound(code: seq<Opcode>, ends: set<nat>, w: Walk)
    requires InCode(code, w.todo)
    ensures Entries(code, ends, w) <= Unseen(code, w.seen, |code|)
    decreases Left(code, w.seen), |w.todo|, 0
  {
    if w.todo != [] {
      EntriesAtBound(code, ends, Walk(w.seen, w.todo[1..]), w.todo[0]);
    }
  }

  lemma {:induction false} EntriesAtBound(code: seq<Opcode>, ends: set<nat>, w: Walk, i: nat)
    requires i < |code| && InCode(code, w.todo)
    ensures EntriesAt(code, ends, w, i) <= Unseen(code, w.seen, |code|)
    decreases Left(code, w.seen), |w.todo|, 2
  {
    FallEntriesBound(code, ends, Sight(code, w, i), i);
    var j := Target(code, i);
    if Sight(code, w, i) != w {
      UnseenLess(code, w.seen, j, |code|);
    }
  }

  lemma {:induction false} FallEntriesBound(code: seq<Opcode>, ends: set<nat>, w: Walk, i: nat)
    requires i < |code| && InCode(code, w.todo)
    ensures FallEntries(code, ends, w, i) <= Unseen(code, w.seen, |code|)
    decreases Left(code, w.seen), |w.todo|, 1
  {
    if Falls(code, ends, i) && i + 1 < |code| && i + 1 !in w.seen {
      assert i + 1 in Left(code, w.seen);
      EntriesAtBound(code, ends, Walk(w.seen + {i + 1}, w.todo), i + 1);
      UnseenLess(code, w.seen, i + 1, |code|);
    } else {
      EntriesBound(code, ends, w);
    }
  }

  /** The queue overflows only in a word whose chains of jumps have more jumps, counted from every offset, than the word
      has opcodes. */
  lemma {:induction false} OverflowNeedsLongChains(p: Program, infos: Infos, w: nat)
    requires w < |p| == |infos|
    ensures var r := Analyse(p, infos, w);
            r.Rejected? && r.reason.QueueFull? ==>
              && r.word < |p| && p[r.word].body.Interpreted?
              && TotalJumps(p[r.word].body.code, |p[r.word].body.code|) > |p[r.word].body.code|
  {
    hide Analyse, Jumps, Unseen, TotalJumps, EntriesAt, Ends;
    var r := Analyse(p, infos, w);
    QueueExact(p, infos, w);
    if r.Rejected? && r.reason.QueueFull? {
      var code := p[r.word].body.code;
      EntriesAtBound(code, Ends(p, r.infos, code), Walk({0}, []), 0);
      UnseenLess(code, {}, 0, |code|);
      UnseenStart(code, |code|);
      assert {} + {0} == {0};
    }
  }

  /** Some jump leads to another jump. */
  predicate JumpToJump(code: seq<Opcode>) {
    exists i :: 0 <= i < |code| && RealJump(code[i]) && 0 <= Target(code, i) < |code| && RealJump(code[Target(code, i)])
  }

  /** In particular, a word without a jump to a jump is never rejected this way. */
  lemma {:induction false} SingleJumpsFit(code: seq<Opcode>, n: nat)
    requires !JumpToJump(code) && n <= |code|
    ensures TotalJumps(code, n) <= n
  {
    if n > 0 {
      SingleJumpsFit(code, n - 1);
      var j := n - 1;
      if RealJump(code[j]) && 0 <= Target(code, j) < |code| {
        assert Chain(code, Target(code, j), |code| - 1) == 0;
      }
    }
  }

  /** One step of control: the next opcode, also behind a call that returns, or the target of a jump. */
  predicate ControlStep(p: Program, infos: Infos, code: seq<Opcode>, i: nat, j: nat) {
    && i < |code| && !code[i].CallByName?
    && (code[i].Call? ==> code[i].target < |p| == |infos| && !infos[code[i].target].effect.NoExit())
    && ((code[i].MayFallThrough() && j == i + 1) || (RealJump(code[i]) && j == Target(code, i)))
  }

  predicate ControlPath(p: Program, infos: Infos, code: seq<Opcode>, path: seq<nat>) {
    path != [] && path[0] == 0 && forall k :: 0 <= k < |path| - 1 ==> ControlStep(p, infos, code, path[k], path[k + 1])
  }

  lemma {:induction false} PathExplored(p: Program, infos: Infos, w: nat, path: seq<nat>)
    requires w < |p| == |infos| && p[w].body.Interpreted? && Certified(p, infos, w)
    requires ControlPath(p, infos, p[w].body.code, path)
    ensures var sa, j := infos[w].scan.sa, path[|path| - 1]; j < |sa| == |p[w].body.code| && sa[j].Some?
    decreases |path|
  {
    if |path| > 1 {
      var front := path[..|path| - 1];
      PathExplored(p, infos, w, front);
      var i, j := front[|front| - 1], path[|path| - 1];
      assert ControlStep(p, infos, p[w].body.code, path[|path| - 2], path[|path| - 1]);
      assert LocalOk(p, infos, p[w].body.code, infos[w].scan, i);
    }
  }

  /** A word in which control can reach a chain of jumps that never ends is always rejected; whether a call returns is
      judged by what the analysis finds. */
  lemma {:induction false} EndlessChainRejected(p: Program, infos: Infos, w: nat, path: seq<nat>)
    requires AllCertified(p, infos) && w < |p| && p[w].body.Interpreted? && infos[w].status.Fresh?
    requires ControlPath(p, Analyse(p, infos, w).infos, p[w].body.code, path)
    requires path[|path| - 1] < |p[w].body.code|
    requires Jumps(p[w].body.code, path[|path| - 1]) > |p[w].body.code|
    ensures Analyse(p, infos, w).Rejected?
  {
    var r := Analyse(p, infos, w);
    AnalyseCertifies(p, infos, w);
    if r.Accepted? {
      AcceptedChainsEnd(p, infos, w);
      PathExplored(p, r.infos, w, path);
    }
  }

  /** The shortest such word is not at fault: `begin again` has a consistent annotation and is
      rejected, because its only slot of the queue is used again each time the jump is explored. */
  lemma {:induction false} BeginAgain(name: string)
    ensures var p := [Word(name, Interpreted(0, [Jump(-1)]), UNKNOWN)];
            && Analyse(p, InitialInfos(p), 0).Rejected?
            && Analyse(p, InitialInfos(p), 0).reason == QueueFull
            && Consistent(p, InitialInfos(p), 0, [Some(0)], None)
  {
    var p := [Word(name, Interpreted(0, [Jump(-1)]), UNKNOWN)];
    var infos := InitialInfos(p);
    var marked := infos[0 := infos[0].(status := Ongoing)];
    var st0 := StartScan(1);
    assert st0.sa == [Some(0)];
    var st1 := Scan([Some(0)], [0], 1, 0, None, 0, 0, 0);
    assert PlainMove(st0, Jump(-1)) == Next(st1);
    assert PlainMove(st1, Jump(-1)) == Reject(QueueFull);
    PlainProgress(1, st0, Jump(-1));
    PlainProgress(1, st1, Jump(-1));
    assert Explore(p, marked, 0, st1) == Rejected(0, QueueFull, marked);
    assert Explore(p, marked, 0, st0) == Explore(p, marked, 0, st1);
  }
}
