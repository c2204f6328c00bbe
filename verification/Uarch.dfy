/** Microarchitectural states and their comparison, component by component. */
module Uarch {
  import opened Ints

  datatype Component = LQ | SQ | ROB | LFB | HWPrefetcher | ExeStatus

  /** A queue after setmetaData: only the valid entries are left. The reorder buffer has no addresses. */
  datatype Queue = Queue(occupancy: nat, pc: seq<int>, address: seq<int>)

  datatype Units = Units(alu: seq<int>, addrgen: seq<int>, div: seq<int>, mul: seq<int>)

  datatype State = State(lq: Queue, sq: Queue, rob: Queue, lfb: seq<int>, address: int, data: int, units: Units)

  /** compareContent: the two Counters are equal. */
  predicate CompareContent(x: seq<int>, y: seq<int>) {
    multiset(x) == multiset(y)
  }

  /** UArch.compare with the __eq__ of each component; the data of the store queue is not compared. */
  predicate Compare(c: Component, a: State, b: State) {
    match c
    case LQ => SameQueue(a.lq, b.lq)
    case SQ => SameQueue(a.sq, b.sq)
    case ROB => a.rob.occupancy == b.rob.occupancy && CompareContent(a.rob.pc, b.rob.pc)
    case LFB => CompareContent(a.lfb, b.lfb)
    case HWPrefetcher => a.address == b.address && a.data == b.data
    case ExeStatus =>
      && CompareContent(a.units.alu, b.units.alu) && CompareContent(a.units.addrgen, b.units.addrgen)
      && CompareContent(a.units.mul, b.units.mul) && CompareContent(a.units.div, b.units.div)
  }

  predicate SameQueue(a: Queue, b: Queue) {
    a.occupancy == b.occupancy && CompareContent(a.pc, b.pc) && CompareContent(a.address, b.address)
  }

  /** The class of a state with respect to a component. */
  datatype Sig =
    | OfQueue(occupancy: nat, pc: multiset<int>, address: multiset<int>)
    | OfROB(occupancy: nat, pc: multiset<int>)
    | OfLFB(data: multiset<int>)
    | OfPrefetcher(addr: int, value: int)
    | OfUnits(alu: multiset<int>, addrgen: multiset<int>, div: multiset<int>, mul: multiset<int>)

  function SigOf(c: Component, s: State): Sig {
    match c
    case LQ => OfQueue(s.lq.occupancy, multiset(s.lq.pc), multiset(s.lq.address))
    case SQ => OfQueue(s.sq.occupancy, multiset(s.sq.pc), multiset(s.sq.address))
    case ROB => OfROB(s.rob.occupancy, multiset(s.rob.pc))
    case LFB => OfLFB(multiset(s.lfb))
    case HWPrefetcher => OfPrefetcher(s.address, s.data)
    case ExeStatus => OfUnits(multiset(s.units.alu), multiset(s.units.addrgen), multiset(s.units.div), multiset(s.units.mul))
  }

  /** Every comparison is the equality of classes, so an equivalence relation. */
  lemma CompareIsSameClass(c: Component, a: State, b: State)
    ensures Compare(c, a, b) <==> SigOf(c, a) == SigOf(c, b)
  {
  }

  // ----- Circular queues -----

  datatype Mark = Head | Tail | NoMark

  /** Python's lst[a:b] for the bounds that occur: -1 only as lst[-1:-1]. */
  function Slice(lst: seq<int>, a: int, b: int): seq<int> {
    var lo, hi := if a > |lst| then |lst| else a, if b > |lst| then |lst| else b;
    if 0 <= lo <= hi then lst[lo..hi] else []
  }

  /** The first position of m, -1 if there is none. */
  function First(ptr: seq<Mark>, m: Mark): (r: int)
    ensures -1 <= r < |ptr| && (r == -1 <==> m !in ptr)
    ensures r >= 0 ==> ptr[r] == m && m !in ptr[..r]
  {
    if ptr == [] then -1
    else if ptr[0] == m then 0
    else
      var r := First(ptr[1..], m);
      assert r >= 0 ==> ptr[..r + 1] == [ptr[0]] + ptr[1..][..r];
      if r < 0 then -1 else r + 1
  }

  lemma FirstIs(ptr: seq<Mark>, m: Mark, i: nat)
    requires i < |ptr| && ptr[i] == m && m !in ptr[..i]
    ensures First(ptr, m) == i
  {
  }

  /** list.index; None is ValueError. */
  method Index(ptr: seq<Mark>, m: Mark) returns (r: Option<nat>)
    ensures r == if m in ptr then Some(First(ptr, m)) else None
  {
    for i := 0 to |ptr|
      invariant m !in ptr[..i]
    {
      if ptr[i] == m {
        FirstIs(ptr, m, i);
        return Some(i);
      }
    }
    return None;
  }

  /** getValidEntries: from head to tail, or backwards from behind the tail to the head; there the list is indexed, and
      None is the IndexError for a list that is too short. */
  function ValidEntries(lst: seq<int>, head: int, tail: int): Option<seq<int>>
    requires -1 <= head && -1 <= tail
  {
    if head <= tail then Some(Slice(lst, head, tail))
    else if head < |lst| then Some(lst[tail + 1..head + 1])
    else None
  }

  /** Which entries remain: those from the head up to the one before the tail, as far as the list goes; or, for a head
      behind the tail, those behind the tail up to the head, with an error for a list that is too short. Without a head
      none remain. */
  lemma RemainingEntries(lst: seq<int>, head: nat, tail: nat)
    ensures ValidEntries(lst, -1, -1) == Some([])
    ensures head <= tail ==>
              var r := ValidEntries(lst, head, tail);
              && r.Some? && |r.value| == Max(0, Min(tail, |lst|) - head)
              && forall i :: 0 <= i < |r.value| ==> r.value[i] == lst[head + i]
    ensures head > tail ==>
              var r := ValidEntries(lst, head, tail);
              && (r.None? <==> |lst| <= head)
              && (r.Some? ==> |r.value| == head - tail && forall i :: 0 <= i < head - tail ==> r.value[i] == lst[tail + 1 + i])
  {
  }

  /** The subclasses of CircularQueue. */
  datatype Kind = LoadQueue | StoreQueue | ReorderBuffer

  /** Only the lists of its kind are fields of a queue. */
  class CircularQueue {
    const kind: Kind
    var ptr: seq<Mark>
    var sn: seq<int>
    var pc: seq<int>
    var address: seq<int>
    var data: seq<int>
    var inst: seq<int>
    var occupancy: nat
    var head: int
    var tail: int

    /** The lists of the queue, in the order in which setmetaData trims them. */
    ghost function Lists(): seq<seq<int>>
      reads this
    {
      match kind
      case LoadQueue => [sn, pc, address]
      case StoreQueue => [sn, pc, address, data]
      case ReorderBuffer => [sn, pc, inst]
    }

    /** setmetaData of the queues. It throws exactly for a head without a tail, and for a head behind the tail and
        behind the end of one of the lists. */
    method SetMetaData() returns (ok: bool)
      modifies this
      ensures var h, t := First(old(ptr), Head), First(old(ptr), Tail);
              && (ok <==> h == -1 || (t != -1 && InReach(old(Lists()), h, t)))
              && (ok ==> head == h && tail == if h == -1 then -1 else t)
      ensures ok ==> -1 <= head && -1 <= tail && ptr == old(ptr) && Trimmed(old(Lists()), Lists(), head, tail)
      ensures ok && AllOfLength(old(Lists()), |ptr|) ==> AllOfLength(Lists(), occupancy)
    {
      hide First, ValidEntries, AllOfLength, Trimmed;
      var newHead: int, newTail: int := -1, -1;
      var h := Index(ptr, Head);
      if h.Some? {
        newHead := h.value;
        var t := Index(ptr, Tail);
        if t.None? {
          return false;
        }
        newTail := t.value;
      }
      occupancy := if newTail >= newHead then newTail - newHead else newHead - newTail;
      head, tail := newHead, newTail;
      ghost var was := Lists();
      ok := Keep();
      if ok && AllOfLength(was, |ptr|) {
        TrimmedLength(was, Lists(), head, tail, |ptr|);
      }
    }

    /** The lists, one after the other. */
    method Keep() returns (ok: bool)
      requires -1 <= head && -1 <= tail
      modifies this`sn, this`pc, this`address, this`data, this`inst
      ensures ok <==> InReach(old(Lists()), head, tail)
      ensures ok ==> Trimmed(old(Lists()), Lists(), head, tail)
    {
      ghost var was := Lists();
      assert was[0] == sn && was[1] == pc && was[2] == if kind.ReorderBuffer? then inst else address;
      assert kind.StoreQueue? ==> was[3] == data;
      var s := ValidEntries(sn, head, tail);
      if s.None? {
        return false;
      }
      sn := s.value;
      var c := ValidEntries(pc, head, tail);
      if c.None? {
        return false;
      }
      pc := c.value;
      if kind.ReorderBuffer? {
        var i := ValidEntries(inst, head, tail);
        if i.None? {
          return false;
        }
        inst := i.value;
      } else {
        var a := ValidEntries(address, head, tail);
        if a.None? {
          return false;
        }
        address := a.value;
        if kind.StoreQueue? {
          var d := ValidEntries(data, head, tail);
          if d.None? {
            return false;
          }
          data := d.value;
        }
      }
      ok := true;
    }
  }

  /** From a head behind the tail the lists are indexed. */
  predicate InReach(lists: seq<seq<int>>, head: int, tail: int) {
    head > tail ==> forall i :: 0 <= i < |lists| ==> head < |lists[i]|
  }

  predicate AllOfLength(lists: seq<seq<int>>, n: nat) {
    forall i :: 0 <= i < |lists| ==> |lists[i]| == n
  }

  /** Each list is cut down to its valid entries. */
  predicate Trimmed(before: seq<seq<int>>, after: seq<seq<int>>, head: int, tail: int)
    requires -1 <= head && -1 <= tail
  {
    |after| == |before| && forall i :: 0 <= i < |before| ==> Some(after[i]) == ValidEntries(before[i], head, tail)
  }

  lemma TrimmedLength(before: seq<seq<int>>, after: seq<seq<int>>, head: int, tail: int, n: nat)
    requires -1 <= head < n && -1 <= tail < n && (head == -1 ==> tail == -1)
    requires Trimmed(before, after, head, tail) && AllOfLength(before, n)
    ensures AllOfLength(after, if tail >= head then tail - head else head - tail)
  {
  }

  /** A queue whose occupancy is the number of its valid entries, as setmetaData leaves it. */
  predicate Counted(q: Queue) {
    q.occupancy == |q.pc|
  }

  /** Equal program counters imply equal occupancies: the first test of the queue comparisons is redundant. */
  lemma OccupancyRedundant(a: Queue, b: Queue)
    requires Counted(a) && Counted(b)
    ensures SameQueue(a, b) <==> CompareContent(a.pc, b.pc) && CompareContent(a.address, b.address)
  {
    if CompareContent(a.pc, b.pc) {
      assert |multiset(a.pc)| == |a.pc| && |multiset(b.pc)| == |b.pc|;
    }
  }
}
