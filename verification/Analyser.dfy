/** AnalyseFlow as the source runs it: a loop over the arrays sa and toExplore, which calls itself on
    callees and stores its results in the words. */
module Analyser {
  import opened Ints
  import opened Opcodes
  import opened Flow

  datatype Merged = New | Same | Clash

  /** MergeSA; a clash is the exception "stack action mismatch". */
  method MergeSA(sa: array<Option<int>>, j: nat, c: int) returns (r: Merged)
    requires j < sa.Length
    modifies sa
    ensures match Merge(old(sa[..]), j, c)
            case None => r == Clash && sa[..] == old(sa[..])
            case Some(s) => sa[..] == s && r == if old(sa[j]).None? then New else Same
  {
    if sa[j].None? {
      sa[j] := Some(c);
      r := New;
    } else {
      r := if sa[j].value != c then Clash else Same;
    }
  }

  /** The local variables of AnalyseFlow that only accumulate. */
  datatype Tally = Tally(exitSA: Option<int>, mds: int, mrs: int, maxDepth: int)

  /** The scan that the arrays and variables of the loop stand for. */
  ghost function ScanOf(sa: seq<Option<int>>, queue: seq<nat>, tX: nat, off: nat, t: Tally): Scan {
    Scan(sa, queue, tX, off, t.exitSA, t.mds, t.mrs, t.maxDepth)
  }

  /** How the second half of the loop body ends: an exception, another turn, or `break`. */
  datatype Turn = Throw(reason: Reason) | Continue(tX: nat, tY: nat, off: nat) | Break(tY: nat)

  /** The second half of the loop body: queue the jump target, then fall through or dequeue. */
  method Explored(sa: array<Option<int>>, toExplore: array<nat>, tX: nat, tY: nat, off: nat, c: int, disp: int,
                  mft: bool, t: Tally) returns (r: Turn)
    requires off < sa.Length == toExplore.Length && tX <= tY <= toExplore.Length
    modifies sa, toExplore
    ensures var st := ScanOf(old(sa[..]), old(toExplore[..tY]), tX, off, t);
            match Advance(st, c, disp, mft)
            case Reject(reason) => r == Throw(reason)
            case Next(s) =>
              && r.Continue? && r.tY <= toExplore.Length
              && s == ScanOf(sa[..], toExplore[..r.tY], r.tX, r.off, t.(maxDepth := Min(t.maxDepth, c)))
            case Finish(s) =>
              && r.Break? && r.tY <= toExplore.Length
              && s == ScanOf(sa[..], toExplore[..r.tY], tX, off, t.(maxDepth := Min(t.maxDepth, c)))
  {
    var n, top := sa.Length, tY;
    if disp != 0 {
      var j := disp + off + 1;
      if top >= n {
        return Throw(QueueFull);
      }
      if !(0 <= j < n) {
        return Throw(BadTarget);
      }
      toExplore[top] := j;
      top := top + 1;
      var merged := MergeSA(sa, j, c);
      if merged.Clash? {
        return Throw(Mismatch);
      }
    }
    ghost var st := ScanOf(sa[..], toExplore[..top], tX, off, t.(maxDepth := Min(t.maxDepth, c)));
    assert Advance(ScanOf(old(sa[..]), old(toExplore[..tY]), tX, off, t), c, disp, mft) == FallThrough(st, c, mft);
    hide Advance;
    if mft {
      if off + 1 >= n {
        return Throw(BadTarget);
      }
      var merged := MergeSA(sa, off + 1, c);
      if merged.Clash? {
        return Throw(Mismatch);
      }
      if merged.New? {
        return Continue(tX, top, off + 1);
      }
    }
    r := if tX < top then Continue(tX + 1, top, toExplore[tX]) else Break(top);
  }

  /** The words of the compiler and the fields that the analysis updates in them. */
  class WordTable {
    const p: Program
    var infos: Infos

    constructor (p: Program)
      ensures this.p == p && infos == InitialInfos(p)
    {
      this.p := p;
      infos := InitialInfos(p);
    }

    /** What the first half of the loop body establishes: the rest of the loop is Advance on the new tally. */
    ghost predicate Inspected(before: Infos, w: nat, st: Scan, t: Tally, c: int, disp: int, mft: bool)
      reads this
      requires IsOngoing(p, before, w) && Formed(|p[w].body.code|, st)
    {
      var m := Advance(ScanOf(st.sa, st.queue, st.tX, st.off, t), c, disp, mft);
      && AllKept(before, infos) && Progress(|p[w].body.code|, st, m)
      && Explore(p, before, w, st) == Follow(p, before, infos, w, st, m)
    }

    lemma {:induction false} InspectedCases(first: Infos, before: Infos, w: nat, st: Scan, t: Tally, c: int,
                                            disp: int, mft: bool, m: Move)
      requires IsOngoing(p, before, w) && Formed(|p[w].body.code|, st)
      requires Inspected(before, w, st, t, c, disp, mft) && Kept(first, before, w)
      requires m == Advance(ScanOf(st.sa, st.queue, st.tX, st.off, t), c, disp, mft)
      ensures IsOngoing(p, infos, w) && Kept(first, infos, w)
      ensures m.Reject? ==> Explore(p, before, w, st) == Rejected(w, m.reason, infos)
      ensures m.Finish? ==> Explore(p, before, w, st) == Conclude(p, infos, w, m.st)
      ensures m.Next? ==> Formed(|p[w].body.code|, m.st) && Explore(p, before, w, st) == Explore(p, infos, w, m.st)
      ensures m.Next? ==> Unset(m.st.sa) < Unset(st.sa) || (Unset(m.st.sa) == Unset(st.sa) && st.tX < m.st.tX)
    {
      hide Explore, Advance, Conclude, Formed, Unset;
    }

    /** The first half of the loop body at a call: analyse the callee, then account for it. */
    method InspectCall(w: nat, v: nat, c: int, t: Tally, ghost st: Scan)
      returns (bad: Option<Verdict>, t': Tally, c': int, mft: bool)
      requires IsOngoing(p, infos, w) && Formed(|p[w].body.code|, st) && v < |p|
      requires p[w].body.code[st.off] == Call(v) && st.sa[st.off] == Some(c)
      requires st == ScanOf(st.sa, st.queue, st.tX, st.off, t)
      modifies this`infos
      ensures bad.Some? ==> Explore(p, old(infos), w, st) == bad.value && infos == bad.value.infos
      ensures bad.None? ==> Inspected(old(infos), w, st, t', c', 0, mft)
      decreases FreshWords(infos), 1
    {
      t', c', mft := t, c, false;
      ghost var before := infos;
      var callee := AnalyseFlow(v);
      if callee.Rejected? {
        return Some(callee), t, c, false;
      }
      CallProgress(|p[w].body.code|, p, infos, st, v);
      assert Explore(p, before, w, st) == Follow(p, before, infos, w, st, CallMove(p, infos, st, v));
      var se := infos[v].effect;
      if !se.IsKnown() {
        return Some(Rejected(w, UnknownEffect, infos)), t, c, false;
      }
      if !se.NoExit() {
        mft := true;
        c' := c + (se.dout - se.din);
      }
      t' := Tally(t.exitSA, Max(t.mds, c + MaxDataOf(p, infos, v)), Max(t.mrs, MaxReturnOf(p, infos, v)),
                  Min(t.maxDepth, c - se.din));
      bad := None;
      assert CallMove(p, infos, st, v) == Advance(ScanOf(st.sa, st.queue, st.tX, st.off, t'), c', 0, mft);
    }

    /** The first half of the loop body at any other opcode. */
    method InspectPlain(w: nat, op: Opcode, c: int, t: Tally, ghost st: Scan)
      returns (bad: Option<Verdict>, t': Tally, c': int, mft: bool)
      requires IsOngoing(p, infos, w) && Formed(|p[w].body.code|, st)
      requires op == p[w].body.code[st.off] && st.sa[st.off] == Some(c) && !(op.Call? && op.target < |p|)
      requires st == ScanOf(st.sa, st.queue, st.tX, st.off, t)
      ensures bad.Some? ==> Explore(p, infos, w, st) == bad.value && infos == bad.value.infos
      ensures bad.None? ==> Inspected(infos, w, st, t', c', op.JumpDisp(), mft)
    {
      t', c', mft := t, c + op.StackAction(), op.MayFallThrough();
      bad := None;
      PlainProgress(|p[w].body.code|, st, op);
      assert Explore(p, infos, w, st) == Follow(p, infos, infos, w, st, PlainMove(st, op));
      if op.Call? || op.CallByName? {
        bad := Some(Rejected(w, Unresolved, infos));
      } else if op.Ret? {
        if t.exitSA.Some? && t.exitSA.value != c {
          bad := Some(Rejected(w, ExitMismatch, infos));
        }
        t' := t.(exitSA := Some(c));
      } else {
        t' := t.(mds := Max(t.mds, c'));
      }
    }

    method AnalyseFlow(w: nat) returns (r: Verdict)
      requires w < |p| == |infos|
      modifies this`infos
      ensures r == Analyse(p, old(infos), w) && infos == r.infos
      decreases FreshWords(infos), 0
    {
      if !p[w].body.Interpreted? || infos[w].status.Analysed? {
        return Accepted(infos);
      }
      if infos[w].status.Ongoing? {
        return Rejected(w, Recursive, infos);
      }
      var code := p[w].body.code;
      if code == [] {
        return Rejected(w, NoCode, infos);
      }
      assert w in FreshWords(infos);
      infos := infos[w := infos[w].(status := Ongoing)];
      assert FreshWords(infos) < FreshWords(old(infos));
      r := Loop(w, code);
    }

    /** The loop of AnalyseFlow and what follows it. */
    method Loop(w: nat, code: seq<Opcode>) returns (r: Verdict)
      requires IsOngoing(p, infos, w) && code == p[w].body.code != []
      modifies this`infos
      ensures r == Explore(p, old(infos), w, StartScan(|code|)) && infos == r.infos
      decreases FreshWords(infos), 2
    {
      var n := |code|;
      var sa := new Option<int>[n](i => if i == 0 then Some(0) else None);
      var toExplore := new nat[n](_ => 0);
      var tX: nat, tY: nat, off: nat := 0, 0, 0;
      var t := Tally(None, 0, 0, 0);
      ghost var st := StartScan(n);
      assert sa[..] == st.sa && toExplore[..0] == [];
      while true
        invariant IsOngoing(p, infos, w) && Kept(old(infos), infos, w) && tY <= n
        invariant st == ScanOf(sa[..], toExplore[..tY], tX, off, t) && Formed(n, st)
        invariant Explore(p, infos, w, st) == Explore(p, old(infos), w, StartScan(n))
        decreases Unset(st.sa), n - tX
      {
        hide Explore, Follow, Analyse, Advance, Formed, Progress, Unset, Conclude, Inspected, IsOngoing, Kept, FreshWords,
             StartScan, CallMove, PlainMove;
        FormedFacts(n, st);
        ghost var before := infos;
        FreshShrinks(old(infos), infos, w);
        var bad, t', c, mft;
        if code[off].Call? && code[off].target < |p| {
          bad, t', c, mft := InspectCall(w, code[off].target, sa[off].value, t, st);
        } else {
          bad, t', c, mft := InspectPlain(w, code[off], sa[off].value, t, st);
        }
        if bad.Some? {
          return bad.value;
        }
        t := t';
        ghost var st1 := ScanOf(sa[..], toExplore[..tY], tX, off, t);
        ghost var m := Advance(st1, c, code[off].JumpDisp(), mft);
        InspectedCases(old(infos), before, w, st, t, c, code[off].JumpDisp(), mft, m);
        var turn := Explored(sa, toExplore, tX, tY, off, c, code[off].JumpDisp(), mft, t);
        t := t.(maxDepth := Min(t.maxDepth, c));
        match turn {
          case Throw(reason) =>
            return Rejected(w, reason, infos);
          case Continue(x, y, o) =>
            tX, tY, off := x, y, o;
            st := m.st;
            FormedFacts(n, st);
          case Break(y) =>
            r := Finish(w, Scan(sa[..], toExplore[..y], tX, off, t.exitSA, t.mds, t.mrs, t.maxDepth));
            return;
        }
      }
    }

    /** The end of AnalyseFlow: check or set the stack effect, and store the bounds. */
    method Finish(w: nat, st: Scan) returns (r: Verdict)
      requires IsOngoing(p, infos, w)
      modifies this`infos
      ensures r == Conclude(p, old(infos), w, st) && infos == r.infos
    {
      var computed := if st.exit.None? then MakeSType(-st.maxDepth, -1)
                      else MakeSType(-st.maxDepth, -st.maxDepth + st.exit.value);
      var effect := infos[w].effect;
      if effect.IsKnown() {
        if !computed.IsSubOf(effect) {
          return Rejected(w, NotSubEffect, infos);
        }
      } else {
        effect := computed;
      }
      infos := infos[w := Info(Analysed, effect, st.mds, 1 + p[w].body.numLocals + st.mrs, st)];
      r := Accepted(infos);
    }
  }

  lemma FormedFacts(n: nat, st: Scan)
    requires Formed(n, st)
    ensures |st.sa| == n && st.off < n && st.sa[st.off].Some? && st.tX <= |st.queue| <= n
  {
  }
}
