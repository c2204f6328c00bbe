/** The data phase of Generate: the blocks that live data words refer to receive addresses in t0_datablock, and the
    data words become pushes of these addresses. */
module DataLink {
  import opened Ints
  import opened Opcodes
  import C = ConstData

  /** A resolved data word: its block, by its identifier, and an offset in it. */
  datatype DataRef = DataRef(block: nat, offset: int)

  predicate LiveData(p: Program, live: set<nat>, w: nat) {
    w in live && w < |p| && p[w].body.Data?
  }

  /** Every data word is resolved. */
  predicate DataResolved(p: Program, refs: map<nat, DataRef>, n: nat) {
    forall w :: 0 <= w < |p| && p[w].body.Data? ==> w in refs && refs[w].block < n
  }

  predicate Referenced(p: Program, live: set<nat>, refs: map<nat, DataRef>, b: nat) {
    exists w :: LiveData(p, live, w) && w in refs && refs[w].block == b
  }

  /** The word w as the generator emits it. */
  function LinkedWord(p: Program, live: set<nat>, refs: map<nat, DataRef>, addr: map<nat, int>, w: nat): Word
    requires w < |p|
  {
    if LiveData(p, live, w) && w in refs && refs[w].block in addr then
      p[w].(body := Data(ToInt32(addr[refs[w].block] + refs[w].offset)))
    else p[w]
  }

  function LinkAll(p: Program, live: set<nat>, refs: map<nat, DataRef>, addr: map<nat, int>): Program {
    seq(|p|, w requires 0 <= w < |p| => LinkedWord(p, live, refs, addr, w))
  }

  /** Each block with an address stands there in the data block, behind the zero byte. */
  predicate BlocksStand(contents: seq<seq<byte>>, addr: map<nat, int>, dataBlock: seq<byte>) {
    forall b :: b in addr ==>
      && b < |contents| && 0 < addr[b] <= addr[b] + |contents[b]| <= |dataBlock|
      && dataBlock[addr[b]..addr[b] + |contents[b]|] == contents[b]
  }

  /** The identifiers of the referenced blocks, in order. */
  method GatherBlocks(p: Program, live: set<nat>, refs: map<nat, DataRef>, n: nat) returns (order: seq<nat>)
    requires DataResolved(p, refs, n)
    ensures forall b: nat :: b in order <==> b < n && Referenced(p, live, refs, b)
    ensures forall i :: 0 <= i < |order| ==> order[i] < n
    ensures forall i, j :: 0 <= i < j < |order| ==> order[i] < order[j]
  {
    var used: set<nat> := {};
    for w := 0 to |p|
      invariant forall b :: b in used <==> exists v :: 0 <= v < w && LiveData(p, live, v) && v in refs && refs[v].block == b
    {
      if LiveData(p, live, w) {
        used := used + {refs[w].block};
      }
    }
    order := [];
    for b := 0 to n
      invariant forall c :: c in order <==> c < b && c in used
      invariant forall i :: 0 <= i < |order| ==> order[i] < b
      invariant forall i, j :: 0 <= i < j < |order| ==> order[i] < order[j]
    {
      if b in used {
        order := order + [b];
      }
    }
  }

  /** Addresses, data block and the program with these addresses. */
  method LinkData(p: Program, live: set<nat>, refs: map<nat, DataRef>, blocks: seq<C.ConstData>,
                  ghost contents: seq<seq<byte>>)
    returns (q: Program, dataBlock: seq<byte>, addr: map<nat, int>)
    requires DataResolved(p, refs, |blocks|) && C.Hold(blocks, contents)
    requires forall i, j :: 0 <= i < j < |blocks| ==> blocks[i] != blocks[j]
    modifies blocks`address
    ensures q == LinkAll(p, live, refs, addr) && BlocksStand(contents, addr, dataBlock)
    ensures forall b: nat :: b in addr <==> b < |blocks| && Referenced(p, live, refs, b)
  {
    hide C.Hold, C.TotalLength, C.DataBlock, BlocksStand, Referenced, LinkAll;
    var order := GatherBlocks(p, live, refs, |blocks|);
    HoldLength(blocks, contents);
    var used := seq(|order|, i requires 0 <= i < |order| => blocks[order[i]]);
    ghost var picked := seq(|order|, i requires 0 <= i < |order| => contents[order[i]]);
    PickedHold(blocks, contents, order, used, picked);
    dataBlock := C.WriteBlocks(used, picked);
    var _ := C.PlaceBlocks(used, picked);
    addr := Addresses(order, used, picked);
    PickedStand(contents, order, picked, addr, dataBlock);
    q := LinkAll(p, live, refs, addr);
  }

  /** The address of each block, by its identifier. */
  method Addresses(order: seq<nat>, used: seq<C.ConstData>, ghost picked: seq<seq<byte>>) returns (addr: map<nat, int>)
    requires |order| == |used| == |picked| && forall i, j :: 0 <= i < j < |order| ==> order[i] < order[j]
    requires forall i :: 0 <= i < |used| ==> used[i].address == 1 + C.TotalLength(picked, i)
    ensures forall b :: b in addr <==> b in order
    ensures forall k :: 0 <= k < |order| ==> order[k] in addr && addr[order[k]] == 1 + C.TotalLength(picked, k)
  {
    hide C.TotalLength;
    addr := map[];
    for i := 0 to |order|
      invariant forall b :: b in addr <==> b in order[..i]
      invariant forall k :: 0 <= k < i ==> order[k] in addr && addr[order[k]] == used[k].address
    {
      assert order[..i + 1] == order[..i] + [order[i]];
      addr := addr[order[i] := used[i].address];
    }
    assert order[..|order|] == order;
  }

  lemma HoldLength(blocks: seq<C.ConstData>, contents: seq<seq<byte>>)
    requires C.Hold(blocks, contents)
    ensures |blocks| == |contents|
  {
  }

  lemma PickedHold(blocks: seq<C.ConstData>, contents: seq<seq<byte>>, order: seq<nat>, used: seq<C.ConstData>,
                   picked: seq<seq<byte>>)
    requires C.Hold(blocks, contents) && |order| == |used| == |picked|
    requires forall i :: 0 <= i < |order| ==> order[i] < |blocks|
    requires forall i :: 0 <= i < |order| ==> used[i] == blocks[order[i]] && picked[i] == contents[order[i]]
    ensures C.Hold(used, picked) && forall i :: 0 <= i < |used| ==> used[i] in blocks && used[i].len == |picked[i]|
  {
  }

  lemma PickedStand(contents: seq<seq<byte>>, order: seq<nat>, picked: seq<seq<byte>>, addr: map<nat, int>,
                    dataBlock: seq<byte>)
    requires |order| == |picked| && dataBlock == C.DataBlock(picked, |picked|)
    requires forall i :: 0 <= i < |order| ==> order[i] < |contents| && picked[i] == contents[order[i]]
    requires forall b :: b in addr <==> b in order
    requires forall k :: 0 <= k < |order| ==> order[k] in addr && addr[order[k]] == 1 + C.TotalLength(picked, k)
    ensures BlocksStand(contents, addr, dataBlock)
  {
    hide C.TotalLength, C.DataBlock;
    forall b | b in addr
      ensures b < |contents| && 0 < addr[b] <= addr[b] + |contents[b]| <= |dataBlock|
      ensures dataBlock[addr[b]..addr[b] + |contents[b]|] == contents[b]
    {
      var k :| 0 <= k < |order| && order[k] == b;
      C.BlockInPlace(picked, |picked|, k);
    }
  }

  /** A live data word pushes an address at which its block stands, from its offset on. */
  lemma DataWordPoints(p: Program, live: set<nat>, refs: map<nat, DataRef>, contents: seq<seq<byte>>, q: Program,
                       dataBlock: seq<byte>, addr: map<nat, int>, w: nat)
    requires q == LinkAll(p, live, refs, addr) && BlocksStand(contents, addr, dataBlock) && |dataBlock| < TWO_31
    requires LiveData(p, live, w) && w in refs && refs[w].block in addr && refs[w].block < |contents|
    requires 0 <= refs[w].offset <= |contents[refs[w].block]|
    ensures q[w].body.Data?
    ensures var a, block := q[w].body.address, contents[refs[w].block];
            && 0 < a <= a + |block| - refs[w].offset <= |dataBlock|
            && dataBlock[a..a + |block| - refs[w].offset] == block[refs[w].offset..]
  {
    var b, o := refs[w].block, refs[w].offset;
    assert q[w] == LinkedWord(p, live, refs, addr, w);
    var whole := dataBlock[addr[b]..addr[b] + |contents[b]|];
    assert whole[o..] == dataBlock[addr[b] + o..addr[b] + |contents[b]|];
  }

  /** Linking changes the addresses of data words and nothing else. */
  predicate Alike(p: Program, q: Program) {
    |p| == |q| && forall w :: 0 <= w < |p| ==> AlikeAt(p[w], q[w])
  }

  predicate AlikeAt(a: Word, b: Word) {
    a.effect == b.effect && a.name == b.name && (a.body == b.body || (a.body.Data? && b.body.Data?))
  }

  lemma LinkedAlike(p: Program, live: set<nat>, refs: map<nat, DataRef>, addr: map<nat, int>)
    ensures Alike(p, LinkAll(p, live, refs, addr))
  {
  }
}
