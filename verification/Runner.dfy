/** The generated C program: its tables and its run loop over a data stack and a return stack of
    fixed sizes. */
module Runner {
  import opened Ints
  import opened SevenE
  import opened Stream

  /** t0_codeblock, t0_caddr, T0_INTERPRETED and the variant of T0_NEXT. */
  datatype Image = Image(code: seq<byte>, caddr: seq<nat>, interpreted: nat, oneByte: bool)

  /** The registers: ip as an offset in the code block, the data stack below dp, the return stack
      memory and rp as an index in it. Fault stands for undefined behaviour: an access outside the
      code block or one of the two stacks. */
  datatype TState =
    | TRunning(ip: int, ds: seq<int32>, mem: seq<uint32>, rp: nat)
    | TExited(ds: seq<int32>)
    | TAborted
    | TFault

  /** The C code of each slot, as a stack function; None: it leaves the run loop for good. */
  type CCode = (nat, seq<int32>) -> Option<seq<int32>>

  /** Continue with another data stack, which has room for `cap` values. */
  function WithStack(t: TState, ds: seq<int32>, cap: nat): TState
    requires t.TRunning?
  {
    if |ds| <= cap then t.(ds := ds) else TFault
  }

  /** T0_ENTER: `slot` is relative to T0_INTERPRETED. */
  function Enter(img: Image, t: TState, slot: nat): TState
    requires t.TRunning? && t.ip >= 0
  {
    if slot >= |img.caddr| then TFault
    else
      match ParseUnsigned(img.code, img.caddr[slot])
      case Overrun => TFault
      case Parsed(lnum, newip) =>
        if lnum < 0 || t.rp + lnum + 1 > |t.mem| then TFault
        else TRunning(newip, t.ds, t.mem[t.rp + lnum := ToUint32(t.ip + lnum * 0x10000)], t.rp + lnum + 1)
  }

  /** case 0: the top half of the saved word is the number of locals, the bottom half the address. */
  function Return(t: TState): TState
    requires t.TRunning?
  {
    if t.rp == 0 || t.rp > |t.mem| then TFault
    else
      var x := t.mem[t.rp - 1];
      if t.rp - 1 < x / 0x10000 then TFault
      else if x % 0x10000 == 0 then TExited(t.ds)
      else t.(ip := x % 0x10000, rp := t.rp - 1 - x / 0x10000)
  }

  /** T0_LOCAL(x) is rp[-2-x]. */
  function ReadLocalSlot(t: TState, arg: Parsed, cap: nat): TState
    requires t.TRunning?
  {
    if arg.Overrun? || arg.value < 0 || t.rp - 2 - arg.value < 0 || t.rp > |t.mem| then TFault
    else WithStack(t.(ip := arg.next), t.ds + [ToInt32(t.mem[t.rp - 2 - arg.value])], cap)
  }

  function WriteLocalSlot(t: TState, arg: Parsed): TState
    requires t.TRunning?
  {
    if arg.Overrun? || arg.value < 0 || t.rp - 2 - arg.value < 0 || t.rp > |t.mem| || t.ds == [] then TFault
    else
      var v := ToUint32(t.ds[|t.ds| - 1]);
      t.(ip := arg.next, ds := t.ds[..|t.ds| - 1], mem := t.mem[t.rp - 2 - arg.value := v])
  }

  function TakeIf(t: TState, arg: Parsed, when: bool): TState
    requires t.TRunning?
  {
    if arg.Overrun? || t.ds == [] then TFault
    else
      var taken := (t.ds[|t.ds| - 1] != 0) == when;
      t.(ip := if taken then arg.next + arg.value else arg.next, ds := t.ds[..|t.ds| - 1])
  }

  /** The switch on slots below T0_INTERPRETED; ip is already past the slot number. */
  function Builtin(img: Image, ccode: CCode, cap: nat, t: TState, slot: nat): TState
    requires t.TRunning? && t.ip >= 0
  {
    if slot == 0 then Return(t)
    else if slot == 1 then
      var arg := ParseSigned(img.code, t.ip);
      if arg.Overrun? then TFault else WithStack(t.(ip := arg.next), t.ds + [ToInt32(arg.value)], cap)
    else if slot == 2 then ReadLocalSlot(t, ParseUnsigned(img.code, t.ip), cap)
    else if slot == 3 then WriteLocalSlot(t, ParseUnsigned(img.code, t.ip))
    else if slot == 4 then
      var arg := ParseSigned(img.code, t.ip);
      if arg.Overrun? then TFault else t.(ip := arg.next + arg.value)
    else if slot == 5 then TakeIf(t, ParseSigned(img.code, t.ip), true)
    else if slot == 6 then TakeIf(t, ParseSigned(img.code, t.ip), false)
    else
      var r := ccode(slot, t.ds);
      if r.None? then TAborted else WithStack(t, r.value, cap)
  }

  /** One turn of the run loop. */
  function TStep(img: Image, ccode: CCode, cap: nat, t: TState): TState {
    if !t.TRunning? then t
    else if t.ip < 0 then TFault
    else
      match Next(img.code, t.ip, img.oneByte)
      case Overrun => TFault
      case Parsed(slot, next) =>
        if slot < 0 then TFault
        else if slot < img.interpreted then Builtin(img, ccode, cap, t.(ip := next), slot)
        else Enter(img, t.(ip := next), slot - img.interpreted)
  }

  function TRun(img: Image, ccode: CCode, cap: nat, t: TState, n: nat): TState {
    if n == 0 then t else TStep(img, ccode, cap, TRun(img, ccode, cap, t, n - 1))
  }

  lemma {:induction false} TRunAdd(img: Image, ccode: CCode, cap: nat, t: TState, m: nat, n: nat)
    ensures TRun(img, ccode, cap, t, m + n) == TRun(img, ccode, cap, TRun(img, ccode, cap, t, m), n)
    decreases n
  {
    if n > 0 {
      TRunAdd(img, ccode, cap, t, m, n - 1);
    }
  }
}
