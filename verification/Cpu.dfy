/** The CPU object of the compiler, whose methods change its registers in place, and its agreement
    with the machine on values. */
module Cpu {
  import opened Ints
  import opened Opcodes
  import opened Machine

  datatype Frame = Frame(savedIpBuf: Option<nat>, savedIpOff: int, locals: seq<int32>)

  datatype Outcome = Going | Returned | Stopped | Exception

  class CPU {
    /** The word whose code is in ipBuf; None is the null reference. */
    var ipBuf: Option<nat>
    var ipOff: int
    var stackBuf: array<int32>
    var stackPtr: int
    var rsp: seq<Frame>

    ghost predicate Valid()
      reads this
    {
      -1 <= stackPtr < stackBuf.Length && stackBuf.Length > 0
    }

    ghost function Contents(): seq<int32>
      reads this, stackBuf
      requires Valid()
    {
      stackBuf[..stackPtr + 1]
    }

    constructor ()
      ensures Valid() && Contents() == [] && rsp == [] && ipBuf == None && ipOff == 0
      ensures fresh(stackBuf)
    {
      stackBuf := new int32[16](_ => 0);
      stackPtr := -1;
      rsp := [];
      ipBuf := None;
      ipOff := 0;
    }

    method Enter(w: nat, numLocals: nat)
      requires Valid()
      modifies this`rsp, this`ipBuf, this`ipOff
      ensures Valid() && Contents() == old(Contents())
      ensures rsp == old(rsp) + [Frame(old(ipBuf), old(ipOff), seq(numLocals, _ => 0))]
      ensures ipBuf == Some(w) && ipOff == 0
    {
      rsp := rsp + [Frame(ipBuf, ipOff, seq(numLocals, _ => 0))];
      ipBuf := Some(w);
      ipOff := 0;
    }

    /** Exit undoes Enter; without a frame it is an exception. */
    method Exit() returns (ok: bool)
      requires Valid()
      modifies this`rsp, this`ipBuf, this`ipOff
      ensures Valid() && Contents() == old(Contents())
      ensures ok == (old(rsp) != [])
      ensures if ok then
                var f := old(rsp)[|old(rsp)| - 1];
                rsp == old(rsp)[..|old(rsp)| - 1] && ipBuf == f.savedIpBuf && ipOff == f.savedIpOff
              else rsp == old(rsp) && ipBuf == old(ipBuf) && ipOff == old(ipOff)
    {
      ok := rsp != [];
      if ok {
        var f := rsp[|rsp| - 1];
        ipBuf, ipOff, rsp := f.savedIpBuf, f.savedIpOff, rsp[..|rsp| - 1];
      }
    }

    method Pop() returns (v: Option<int32>)
      requires Valid()
      modifies this`stackPtr
      ensures Valid()
      ensures old(Contents()) == [] ==> v == None && Contents() == []
      ensures old(Contents()) != [] ==>
                v == Some(old(Contents())[|old(Contents())| - 1]) &&
                Contents() == old(Contents())[..|old(Contents())| - 1]
    {
      if stackPtr < 0 {
        return None;
      }
      v := Some(stackBuf[stackPtr]);
      stackPtr := stackPtr - 1;
    }

    method Push(v: int32)
      requires Valid()
      modifies this`stackPtr, this`stackBuf, stackBuf
      ensures Valid() && (stackBuf == old(stackBuf) || fresh(stackBuf))
      ensures Contents() == old(Contents()) + [v]
    {
      if stackPtr + 1 == stackBuf.Length {
        var nbuf := new int32[2 * stackBuf.Length](_ => 0);
        forall i | 0 <= i < stackBuf.Length {
          nbuf[i] := stackBuf[i];
        }
        stackBuf := nbuf;
      }
      stackPtr := stackPtr + 1;
      stackBuf[stackPtr] := v;
    }

    /** The value at that depth moves to the top of stack; false: an index is out of bounds. */
    method Rot(depth: int) returns (ok: bool)
      requires Valid()
      modifies stackBuf
      ensures ok == (0 <= depth < |Contents()|)
      ensures Contents() == if ok then Rotated(old(Contents()), depth) else old(Contents())
    {
      hide Rotated;
      ok := 0 <= depth <= stackPtr;
      if ok {
        var v := stackBuf[stackPtr - depth];
        ghost var was := Contents();
        forall i | stackPtr - depth <= i < stackPtr {
          stackBuf[i] := stackBuf[i + 1];
        }
        stackBuf[stackPtr] := v;
        RotatedIs(was, Contents(), depth);
      }
    }

    /** The top of stack moves to that depth. */
    method NRot(depth: int) returns (ok: bool)
      requires Valid()
      modifies stackBuf
      ensures ok == (0 <= depth < |Contents()|)
      ensures Contents() == if ok then NRotated(old(Contents()), depth) else old(Contents())
    {
      hide NRotated;
      ok := 0 <= depth <= stackPtr;
      if ok {
        var v := stackBuf[stackPtr];
        ghost var was := Contents();
        forall i | stackPtr - depth < i <= stackPtr {
          stackBuf[i] := stackBuf[i - 1];
        }
        stackBuf[stackPtr - depth] := v;
        NRotatedIs(was, Contents(), depth);
      }
    }

    method GetLocal(num: nat) returns (v: Option<int32>)
      ensures v == if rsp != [] && num < |rsp[|rsp| - 1].locals|
                   then Some(rsp[|rsp| - 1].locals[num]) else None
    {
      if rsp != [] && num < |rsp[|rsp| - 1].locals| {
        return Some(rsp[|rsp| - 1].locals[num]);
      }
      return None;
    }

    method PutLocal(num: nat, v: int32) returns (ok: bool)
      modifies this`rsp
      ensures ok == (old(rsp) != [] && num < |old(rsp)[|old(rsp)| - 1].locals|)
      ensures rsp == if ok then
                       var top := old(rsp)[|old(rsp)| - 1];
                       old(rsp)[|old(rsp)| - 1 := top.(locals := top.locals[num := v])]
                     else old(rsp)
    {
      ok := rsp != [] && num < |rsp[|rsp| - 1].locals|;
      if ok {
        var top := rsp[|rsp| - 1];
        rsp := rsp[|rsp| - 1 := top.(locals := top.locals[num := v])];
      }
    }

    // ----- Agreement with the machine -----

    ghost predicate FramesOf(acts: seq<Act>)
      reads this
    {
      acts != [] && FramesMatch(rsp, ipBuf, ipOff, acts)
    }

    ghost predicate Represents(s: State)
      reads this, stackBuf
    {
      Valid() && s.Running? && FramesOf(s.acts) && Contents() == s.stack
    }

    /** Run a native word: its effect on the stack is given. */
    method RunNative(w: nat, native: Natives) returns (ok: bool)
      requires Valid()
      modifies this`stackPtr, this`stackBuf
      ensures Valid() && (stackBuf == old(stackBuf) || fresh(stackBuf))
      ensures ok == native(w, old(Contents())).Some?
      ensures ok ==> Contents() == native(w, old(Contents())).value
    {
      var r := native(w, stackBuf[..stackPtr + 1]);
      ok := r.Some?;
      if ok {
        var s := r.value;
        var nbuf := new int32[|s| + 1](_ => 0);
        forall i | 0 <= i < |s| {
          nbuf[i] := s[i];
        }
        stackBuf, stackPtr := nbuf, |s| - 1;
        assert stackBuf[..stackPtr + 1] == s;
      }
    }

    /** What one opcode leaves behind, in terms of the machine. */
    ghost predicate Reached(r: Outcome, t: State)
      reads this, stackBuf
    {
      match r
      case Going => Represents(t)
      case Returned => t.Done? && Valid() && Contents() == t.stack && ipBuf == None
      case Stopped => t.Aborted?
      case Exception => t.Crashed?
    }

    method RunRet(ghost rest: seq<Act>, ghost a: Act) returns (r: Outcome)
      requires Valid() && FramesOf(rest + [a])
      modifies this`rsp, this`ipBuf, this`ipOff
      ensures Reached(r, if rest == [] then Done(old(Contents())) else Running(rest, old(Contents())))
    {
      MatchTop(rsp, ipBuf, ipOff, rest, a);
      var ok := Exit();
      r := if ipBuf.None? then Returned else Going;
    }

    method RunPutLocal(num: nat, ghost rest: seq<Act>, ghost a: Act) returns (r: Outcome)
      requires Valid() && FramesOf(rest + [a])
      modifies this`rsp, this`stackPtr
      ensures var stack := old(Contents());
              Reached(r, if num < |a.locals| && stack != [] then
                           Running(rest + [a.(locals := a.locals[num := Some(stack[|stack| - 1])])], stack[..|stack| - 1])
                         else Crashed)
    {
      var v := Pop();
      if v.None? {
        return Exception;
      }
      MatchTop(rsp, ipBuf, ipOff, rest, a);
      var ok := PutLocal(num, v.value);
      if ok {
        MatchTop(rsp, ipBuf, ipOff, rest, a.(locals := a.locals[num := Some(v.value)]));
      }
      r := if ok then Going else Exception;
    }

    method RunBranch(disp: int, when: bool, ghost rest: seq<Act>, ghost a: Act) returns (r: Outcome)
      requires Valid() && FramesOf(rest + [a])
      modifies this`ipOff, this`stackPtr
      ensures Reached(r, Branch(rest, a, old(Contents()), disp, when))
    {
      var v := Pop();
      if v.None? {
        return Exception;
      }
      MatchTop(rsp, ipBuf, ipOff, rest, a);
      if (v.value != 0) == when {
        ipOff := ipOff + disp;
        MatchTop(rsp, ipBuf, ipOff, rest, a.(off := a.off + disp));
      }
      r := Going;
    }

    method RunCall(t: nat, p: Program, native: Natives, ghost acts: seq<Act>) returns (r: Outcome)
      requires Valid() && FramesOf(acts)
      modifies this, stackBuf
      ensures Reached(r, if t < |p| then RunWord(p, native, t, acts, old(Contents())) else Crashed)
    {
      if t >= |p| {
        return Exception;
      }
      match p[t].body {
        case Interpreted(n, _) =>
          Enter(t, n);
          assert rsp[..|rsp| - 1] == old(rsp);
          MatchTop(rsp, ipBuf, ipOff, acts, EnterWord(t, n));
          return Going;
        case Data(address) =>
          Push(address);
          return Going;
        case Native =>
          var ok := RunNative(t, native);
          return if ok then Going else Stopped;
      }
    }

    /** The body of the run loop: `op = ipBuf[ipOff ++]; op.Run(cpu)`. */
    method RunOne(p: Program, native: Natives, ghost s: State) returns (r: Outcome)
      requires Represents(s)
      modifies this, stackBuf
      ensures Reached(r, Step(p, native, s))
    {
      hide Exec, FramesMatch;
      ghost var rest, a := s.acts[..|s.acts| - 1], s.acts[|s.acts| - 1];
      assert s.acts == rest + [a];
      MatchTop(rsp, ipBuf, ipOff, rest, a);
      var w := ipBuf.value;
      if !(w < |p| && p[w].body.Interpreted? && 0 <= ipOff < |p[w].body.code|) {
        return Exception;
      }
      var op := p[w].body.code[ipOff];
      ipOff := ipOff + 1;
      a := a.(off := a.off + 1);
      MatchTop(rsp, ipBuf, ipOff, rest, a);
      r := RunOp(op, p, native, rest, a);
    }

    /** Opcode.Run */
    method RunOp(op: Opcode, p: Program, native: Natives, ghost rest: seq<Act>, ghost a: Act) returns (r: Outcome)
      requires Valid() && FramesOf(rest + [a])
      modifies this, stackBuf
      ensures Reached(r, Exec(p, native, rest, a, old(Contents()), op))
    {
      r := Going;
      match op {
        case Ret => r := RunRet(rest, a);
        case Const(v) => Push(v);
        case GetLocal(k) =>
          MatchTop(rsp, ipBuf, ipOff, rest, a);
          var v := GetLocal(k);
          if v.None? {
            return Exception;
          }
          Push(v.value);
        case PutLocal(k) => r := RunPutLocal(k, rest, a);
        case Jump(d) =>
          MatchTop(rsp, ipBuf, ipOff, rest, a);
          ipOff := ipOff + d;
          MatchTop(rsp, ipBuf, ipOff, rest, a.(off := a.off + d));
        case JumpIf(d) => r := RunBranch(d, true, rest, a);
        case JumpIfNot(d) => r := RunBranch(d, false, rest, a);
        case Call(t) => r := RunCall(t, p, native, rest + [a]);
        case CallByName(_) => r := Exception;
      }
    }
  }

  /** The top activation is where ipBuf and ipOff are; the one below is where the top frame saved them. */
  ghost predicate FramesMatch(rsp: seq<Frame>, ipBuf: Option<nat>, ipOff: int, acts: seq<Act>) {
    if rsp == [] then acts == [] && ipBuf == None
    else
      && acts != [] && TopMatches(rsp, ipBuf, ipOff, acts)
      && var f := rsp[|rsp| - 1];
         FramesMatch(rsp[..|rsp| - 1], f.savedIpBuf, f.savedIpOff, acts[..|acts| - 1])
  }

  ghost predicate TopMatches(rsp: seq<Frame>, ipBuf: Option<nat>, ipOff: int, acts: seq<Act>)
    requires rsp != [] && acts != []
  {
    var a := acts[|acts| - 1];
    ipBuf == Some(a.word) && ipOff == a.off && LocalsOf(rsp[|rsp| - 1].locals, a.locals)
  }

  /** The definition of FramesMatch for a stack of activations with a at the top. */
  lemma MatchTop(rsp: seq<Frame>, ipBuf: Option<nat>, ipOff: int, rest: seq<Act>, a: Act)
    ensures FramesMatch(rsp, ipBuf, ipOff, rest + [a]) <==>
            && rsp != [] && ipBuf == Some(a.word) && ipOff == a.off
            && LocalsOf(rsp[|rsp| - 1].locals, a.locals)
            && FramesMatch(rsp[..|rsp| - 1], rsp[|rsp| - 1].savedIpBuf, rsp[|rsp| - 1].savedIpOff, rest)
  {
    assert (rest + [a])[..|rest|] == rest;
  }

  /** A local that was never written holds 0. */
  ghost predicate LocalsOf(values: seq<int32>, locals: seq<Option<int32>>) {
    |values| == |locals| && forall i :: 0 <= i < |values| ==> values[i] == ReadLocal(locals[i])
  }

  // ----- Rotations -----

  function Rotated(s: seq<int32>, depth: int): seq<int32>
    requires 0 <= depth < |s|
  {
    var k := |s| - 1 - depth;
    s[..k] + s[k + 1..] + [s[k]]
  }

  function NRotated(s: seq<int32>, depth: int): seq<int32>
    requires 0 <= depth < |s|
  {
    var k := |s| - 1 - depth;
    s[..k] + [s[|s| - 1]] + s[k..|s| - 1]
  }

  lemma RotatedIs(s: seq<int32>, t: seq<int32>, depth: int)
    requires 0 <= depth < |s| == |t|
    requires var k := |s| - 1 - depth;
             && (forall i :: 0 <= i < k ==> t[i] == s[i])
             && (forall i :: k <= i < |s| - 1 ==> t[i] == s[i + 1])
             && t[|s| - 1] == s[k]
    ensures t == Rotated(s, depth)
  {
  }

  lemma NRotatedIs(s: seq<int32>, t: seq<int32>, depth: int)
    requires 0 <= depth < |s| == |t|
    requires var k := |s| - 1 - depth;
             && (forall i :: 0 <= i < k ==> t[i] == s[i])
             && (forall i :: k < i < |s| ==> t[i] == s[i - 1])
             && t[k] == s[|s| - 1]
    ensures t == NRotated(s, depth)
  {
  }

  /** Rot and NRot undo each other at every depth. */
  lemma RotationsCancel(s: seq<int32>, depth: int)
    requires 0 <= depth < |s|
    ensures NRotated(Rotated(s, depth), depth) == s
    ensures Rotated(NRotated(s, depth), depth) == s
  {
  }
}
