/** The back end of the compiler, T0Comp.Generate: gather the words that the entry points need, number
    them, turn them into code elements, lay these out and encode them. The program lists the words in the
    ordinal order of their names, in which the generator visits them. */
module Generate {
  import opened Ints
  import opened SevenE
  import opened Opcodes
  import opened CodeElements
  import opened Stream
  import opened Runner
  import opened Simulation
  import Flow
  import FlowCert
  import FlowExact
  import Analyser
  import C = ConstData
  import opened DataLink

  // ----- References -----

  /** WordInterpreted.Resolve: names are looked up; None is an unknown name. */
  function Resolve(code: seq<Opcode>, words: map<string, nat>): (r: Option<seq<Opcode>>)
    ensures r.Some? ==> |r.value| == |code|
  {
    if code == [] then Some([])
    else
      var op := code[|code| - 1];
      var rest := Resolve(code[..|code| - 1], words);
      if rest.None? then None
      else if !op.CallByName? then Some(rest.value + [op])
      else if op.name in words then Some(rest.value + [Call(words[op.name])])
      else None
  }

  lemma {:induction false} ResolveAt(code: seq<Opcode>, words: map<string, nat>, i: nat)
    requires i < |code| && Resolve(code, words).Some?
    ensures var r := Resolve(code, words).value;
            r[i] == if !code[i].CallByName? then code[i]
                    else if code[i].name in words then Call(words[code[i].name]) else r[i]
    ensures code[i].CallByName? ==> code[i].name in words
    decreases |code|
  {
    if i < |code| - 1 {
      ResolveAt(code[..|code| - 1], words, i);
    }
  }

  /** Resolution leaves no name and keeps the shape of the code. */
  lemma ResolveKeepsClosed(code: seq<Opcode>, numLocals: nat, words: map<string, nat>)
    requires Closed(code, numLocals) && Resolve(code, words).Some?
    ensures Closed(Resolve(code, words).value, numLocals)
    ensures forall i :: 0 <= i < |code| ==> !Resolve(code, words).value[i].CallByName?
  {
    var r := Resolve(code, words).value;
    forall i | 0 <= i < |r|
      ensures ClosedAt(r, numLocals, i) && !r[i].CallByName?
    {
      ResolveAt(code, words, i);
      assert ClosedAt(code, numLocals, i);
    }
  }

  function CodeIn(p: Program, w: nat): seq<Opcode>
    requires w < |p|
  {
    if p[w].body.Interpreted? then p[w].body.code else []
  }

  /** v is called from w. */
  predicate Refers(p: Program, w: nat, v: nat) {
    w < |p| && Call(v) in CodeIn(p, w)
  }

  /** GetReferences throws on a call that has no word. */
  predicate Referable(p: Program, w: nat)
    requires w < |p|
  {
    forall i :: 0 <= i < |CodeIn(p, w)| ==>
      !CodeIn(p, w)[i].CallByName? && (CodeIn(p, w)[i].Call? ==> CodeIn(p, w)[i].target < |p|)
  }

  ghost predicate RefClosed(p: Program, s: set<nat>) {
    forall w, v :: w in s && Refers(p, w, v) ==> v in s
  }

  ghost predicate Holds(s: set<nat>, entries: seq<nat>) {
    forall e :: e in entries ==> e in s
  }

  /** Every closed set that holds the entry points holds s. */
  ghost predicate Needed(p: Program, entries: seq<nat>, s: set<nat>) {
    forall t: set<nat> :: Holds(t, entries) && RefClosed(p, t) ==> s <= t
  }

  /** s holds the entry points, is closed under references, and is the least such set. */
  ghost predicate LeastClosure(p: Program, entries: seq<nat>, s: set<nat>) {
    Holds(s, entries) && RefClosed(p, s) && Needed(p, entries, s)
  }

  predicate InProgram(p: Program, s: set<nat>) {
    forall w :: w in s ==> w < |p|
  }

  lemma NeededRef(p: Program, entries: seq<nat>, s: set<nat>, w: nat, v: nat)
    requires Needed(p, entries, s) && w in s && Refers(p, w, v)
    ensures Needed(p, entries, s + {v})
  {
    forall t: set<nat> | Holds(t, entries) && RefClosed(p, t)
      ensures s + {v} <= t
    {
      assert w in t;
    }
  }

  /** The entry points, once each. */
  method StartQueue(p: Program, entries: seq<nat>) returns (wordSet: set<nat>, tx: seq<nat>)
    requires forall e :: e in entries ==> e < |p|
    ensures Holds(wordSet, entries) && Needed(p, entries, wordSet) && InProgram(p, wordSet)
    ensures forall w :: w in wordSet <==> w in tx
  {
    wordSet, tx := {}, [];
    for i := 0 to |entries|
      invariant forall k :: 0 <= k < i ==> entries[k] in wordSet
      invariant forall w :: w in wordSet <==> w in tx
      invariant forall w :: w in wordSet ==> w in entries
    {
      if entries[i] !in wordSet {
        wordSet := wordSet + {entries[i]};
        tx := tx + [entries[i]];
      }
    }
  }

  /** The inner loop: queue the words that w refers to. */
  method AddReferences(p: Program, entries: seq<nat>, w: nat, wordSet: set<nat>, tx: seq<nat>)
    returns (ok: bool, wordSet': set<nat>, tx': seq<nat>)
    requires w in wordSet && InProgram(p, wordSet) && Needed(p, entries, wordSet)
    ensures ok <==> Referable(p, w)
    ensures ok ==> wordSet <= wordSet' && InProgram(p, wordSet') && Needed(p, entries, wordSet')
    ensures ok ==> forall v :: Refers(p, w, v) ==> v in wordSet'
    ensures ok ==> (wordSet' == wordSet && tx' == tx) || wordSet < wordSet'
    ensures ok ==> tx <= tx' && forall v :: v in wordSet' <==> v in wordSet || v in tx'[|tx|..]
  {
    wordSet', tx' := wordSet, tx;
    var code := CodeIn(p, w);
    for i := 0 to |code|
      invariant wordSet <= wordSet' && InProgram(p, wordSet') && Needed(p, entries, wordSet')
      invariant forall k :: 0 <= k < i ==> !code[k].CallByName? && (code[k].Call? ==> code[k].target in wordSet')
      invariant (wordSet' == wordSet && tx' == tx) || wordSet < wordSet'
      invariant tx <= tx' && forall v :: v in wordSet' <==> v in wordSet || v in tx'[|tx|..]
    {
      if code[i].CallByName? || (code[i].Call? && code[i].target >= |p|) {
        return false, wordSet', tx';
      }
      if code[i].Call? && code[i].target !in wordSet' {
        NeededRef(p, entries, wordSet', w, code[i].target);
        wordSet' := wordSet' + {code[i].target};
        assert (tx' + [code[i].target])[|tx|..] == tx'[|tx|..] + [code[i].target];
        tx' := tx' + [code[i].target];
      }
    }
    ok := true;
  }

  /** Some needed word has a reference that cannot be resolved. */
  ghost predicate Unresolved(p: Program, entries: seq<nat>) {
    exists w: nat :: w < |p| && !Referable(p, w) && Needed(p, entries, {w})
  }

  lemma ResolvedClosure(p: Program, entries: seq<nat>, s: set<nat>)
    requires LeastClosure(p, entries, s) && InProgram(p, s) && forall w :: w in s ==> Referable(p, w)
    ensures !Unresolved(p, entries)
  {
    forall w: nat | w < |p| && Needed(p, entries, {w})
      ensures Referable(p, w)
    {
      assert {w} <= s && w in {w};
    }
  }

  /** The worklist at the start of Generate. None: some needed word has a reference that cannot be resolved. */
  method Gather(p: Program, entries: seq<nat>) returns (r: Option<set<nat>>)
    requires forall e :: e in entries ==> e < |p|
    ensures r.Some? ==> LeastClosure(p, entries, r.value) && InProgram(p, r.value)
    ensures r.Some? ==> forall w :: w in r.value ==> Referable(p, w)
    ensures r.None? <==> Unresolved(p, entries)
  {
    var wordSet, tx := StartQueue(p, entries);
    ghost var done: set<nat> := {};
    BoundedSet(wordSet, |p|);
    while tx != []
      invariant Holds(wordSet, entries) && Needed(p, entries, wordSet) && InProgram(p, wordSet) && |wordSet| <= |p|
      invariant forall w :: w in wordSet <==> w in done || w in tx
      invariant forall w :: w in done ==> Referable(p, w) && forall v :: Refers(p, w, v) ==> v in wordSet
      decreases |p| - |wordSet|, |tx|
    {
      var w := tx[0];
      ghost var before, queue := wordSet, tx;
      var ok;
      ok, wordSet, tx := AddReferences(p, entries, w, wordSet, tx[1..]);
      if !ok {
        assert w < |p| && !Referable(p, w) && Needed(p, entries, {w});
        return None;
      }
      done := done + {w};
      BoundedSet(wordSet, |p|);
      if before < wordSet {
        ProperSubset(before, wordSet);
      }
      assert forall v :: v in queue <==> v == w || v in queue[1..];
      assert forall v :: v in tx <==> v in queue[1..] || v in tx[|queue| - 1..];
    }
    ResolvedClosure(p, entries, wordSet);
    r := Some(wordSet);
  }

  lemma ProperSubset(a: set<nat>, b: set<nat>)
    requires a < b
    ensures |a| < |b|
  {
    var x :| x in b && x !in a;
    assert |b - a| > 0 && b == a + (b - a);
  }

  // ----- Slots -----

  /** slot: the number of each word; interpreted: the first number of a word without C code, up to total;
      words: these words in order. */
  datatype Slots = Slots(slot: map<nat, nat>, interpreted: nat, total: nat, words: seq<nat>)

  predicate HasC(ccode: seq<Option<string>>, w: nat) {
    w < |ccode| && ccode[w].Some?
  }

  /** Words with C code are numbered from 7 on, one number for each C text. */
  ghost predicate NativeOk(ccode: seq<Option<string>>, s: set<nat>, slot: map<nat, nat>, cur: nat) {
    && 7 <= cur <= 7 + |ccode|
    && (forall w :: w in slot <==> w in s && HasC(ccode, w))
    && (forall w :: w in slot ==> 7 <= slot[w] < cur)
    && (forall w, v :: w in slot && v in slot ==> (slot[w] == slot[v] <==> ccode[w] == ccode[v]))
  }

  /** What the slot numbers promise. */
  ghost predicate SlotsOk(ccode: seq<Option<string>>, s: set<nat>, r: Slots) {
    && r.slot.Keys == s && 7 <= r.interpreted <= r.total <= 7 + 2 * |ccode|
    && (forall w :: w in s ==> 7 <= r.slot[w] < r.total)
    && (forall w :: w in s ==> (r.slot[w] < r.interpreted <==> HasC(ccode, w)))
    && (forall w, v :: w in s && v in s ==>
          (r.slot[w] == r.slot[v] <==> w == v || (HasC(ccode, w) && HasC(ccode, v) && ccode[w] == ccode[v])))
    && r.total == r.interpreted + |r.words|
    && (forall k :: 0 <= k < |r.words| ==> r.words[k] in s && r.slot[r.words[k]] == r.interpreted + k)
    && (forall w :: w in s && !HasC(ccode, w) ==> w in r.words)
    && Increasing(r.words, |ccode|)
  }

  predicate Increasing(words: seq<nat>, n: nat) {
    && (forall k :: 0 <= k < |words| ==> words[k] < n)
    && forall i, j :: 0 <= i < j < |words| ==> words[i] < words[j]
  }

  /** Every number from 7 to cur is the number of some word. */
  ghost predicate AllUsed(slot: map<nat, nat>, cur: nat) {
    forall n: nat :: 7 <= n < cur ==> Taken(slot, n)
  }

  predicate Taken(slot: map<nat, nat>, n: nat) {
    exists w :: w in slot && slot[w] == n
  }

  /** The first numbering loop: words with equal C code share a slot. None: a native word has no C code. */
  method AssignNative(p: Program, ccode: seq<Option<string>>, s: set<nat>) returns (r: Option<map<nat, nat>>, cur: nat)
    requires |ccode| == |p| && InProgram(p, s)
    ensures r.None? <==> exists w :: w in s && p[w].body.Native? && !HasC(ccode, w)
    ensures r.Some? ==> NativeOk(ccode, s, r.value, cur) && AllUsed(r.value, cur)
  {
    var slot: map<nat, nat> := map[];
    cur := 7;
    ghost var firsts: seq<nat> := [];
    var ccodeUni: map<string, nat> := map[];
    for w := 0 to |p|
      invariant 7 <= cur <= 7 + w
      invariant forall v :: v in s && v < w && !HasC(ccode, v) ==> !p[v].body.Native?
      invariant forall v :: v in slot <==> v in s && v < w && HasC(ccode, v)
      invariant forall v :: v in slot ==> ccode[v].value in ccodeUni && slot[v] == ccodeUni[ccode[v].value]
      invariant forall c :: c in ccodeUni ==> 7 <= ccodeUni[c] < cur
      invariant forall c, d :: c in ccodeUni && d in ccodeUni && ccodeUni[c] == ccodeUni[d] ==> c == d
      invariant |firsts| == cur - 7 && forall k :: 0 <= k < |firsts| ==> firsts[k] in slot && slot[firsts[k]] == 7 + k
    {
      if w in s {
        if ccode[w].None? {
          if p[w].body.Native? {
            return None, cur;
          }
        } else {
          var c := ccode[w].value;
          if c !in ccodeUni {
            ccodeUni := ccodeUni[c := cur];
            cur := cur + 1;
            firsts := firsts + [w];
          }
          slot := slot[w := ccodeUni[c]];
        }
      }
    }
    r := Some(slot);
    forall n: nat | 7 <= n < cur
      ensures Taken(slot, n)
    {
      assert firsts[n - 7] in slot;
    }
  }

  /** The second numbering loop: all other words follow. */
  method AssignInterpreted(p: Program, ccode: seq<Option<string>>, s: set<nat>, native: map<nat, nat>, first: nat)
    returns (r: Slots)
    requires |ccode| == |p| && InProgram(p, s) && NativeOk(ccode, s, native, first) && AllUsed(native, first)
    ensures SlotsOk(ccode, s, r) && r.interpreted == first && AllUsed(r.slot, r.total)
  {
    var slot, cur := native, first;
    var words: seq<nat> := [];
    for w := 0 to |p|
      invariant cur == first + |words| && |words| <= w && Increasing(words, w)
      invariant forall v :: v in slot <==> v in native || v in words
      invariant forall v :: v in words <==> v in s && v < w && !HasC(ccode, v)
      invariant forall v :: v in native ==> slot[v] == native[v]
      invariant forall k :: 0 <= k < |words| ==> words[k] in slot && slot[words[k]] == first + k
    {
      if w in s && ccode[w].None? {
        slot := slot[w := cur];
        words := words + [w];
        cur := cur + 1;
      }
    }
    r := Slots(slot, first, cur, words);
    NumbersDiffer(ccode, s, native, r);
    NumbersUsed(native, r);
  }

  lemma NumbersUsed(native: map<nat, nat>, r: Slots)
    requires AllUsed(native, r.interpreted) && r.total == r.interpreted + |r.words|
    requires forall v :: v in native ==> v in r.slot && r.slot[v] == native[v]
    requires forall k :: 0 <= k < |r.words| ==> r.words[k] in r.slot && r.slot[r.words[k]] == r.interpreted + k
    ensures AllUsed(r.slot, r.total)
  {
    forall n: nat | 7 <= n < r.total
      ensures Taken(r.slot, n)
    {
      if n < r.interpreted {
        assert Taken(native, n);
        var w :| w in native && native[w] == n;
        assert w in r.slot;
      } else {
        assert r.words[n - r.interpreted] in r.slot;
      }
    }
  }

  lemma NumbersDiffer(ccode: seq<Option<string>>, s: set<nat>, native: map<nat, nat>, r: Slots)
    requires NativeOk(ccode, s, native, r.interpreted) && r.total == r.interpreted + |r.words|
    requires |r.words| <= |ccode| && Increasing(r.words, |ccode|)
    requires forall v :: v in r.slot <==> v in native || v in r.words
    requires forall v :: v in r.words <==> v in s && !HasC(ccode, v)
    requires forall v :: v in native ==> r.slot[v] == native[v]
    requires forall k :: 0 <= k < |r.words| ==> r.words[k] in r.slot && r.slot[r.words[k]] == r.interpreted + k
    ensures SlotsOk(ccode, s, r)
  {
    hide NativeOk;
    forall w | w in s
      ensures Numbered(ccode, r, w)
    {
      WordNumber(ccode, s, native, r, w);
    }
    forall w, v | w in s && v in s
      ensures r.slot[w] == r.slot[v] <==> w == v || (HasC(ccode, w) && HasC(ccode, v) && ccode[w] == ccode[v])
    {
      if HasC(ccode, w) && HasC(ccode, v) {
        SharedNumber(ccode, s, native, r.interpreted, w, v);
      } else {
        OwnNumber(ccode, r, w, v);
      }
    }
    NativeRange(ccode, s, native, r.interpreted);
    assert r.slot.Keys == s;
  }

  /** The number of one word. */
  predicate Numbered(ccode: seq<Option<string>>, r: Slots, w: nat) {
    && w in r.slot && 7 <= r.slot[w] < r.total && (r.slot[w] < r.interpreted <==> HasC(ccode, w))
    && (!HasC(ccode, w) ==>
         0 <= r.slot[w] - r.interpreted < |r.words| && r.words[r.slot[w] - r.interpreted] == w)
  }

  lemma WordNumber(ccode: seq<Option<string>>, s: set<nat>, native: map<nat, nat>, r: Slots, w: nat)
    requires NativeOk(ccode, s, native, r.interpreted) && r.total == r.interpreted + |r.words|
    requires |r.words| <= |ccode| && Increasing(r.words, |ccode|)
    requires forall v :: v in r.slot <==> v in native || v in r.words
    requires forall v :: v in r.words <==> v in s && !HasC(ccode, v)
    requires forall v :: v in native ==> r.slot[v] == native[v]
    requires forall k :: 0 <= k < |r.words| ==> r.words[k] in r.slot && r.slot[r.words[k]] == r.interpreted + k
    requires w in s
    ensures Numbered(ccode, r, w) && (HasC(ccode, w) ==> w in native)
  {
    if !HasC(ccode, w) {
      var k :| 0 <= k < |r.words| && r.words[k] == w;
    }
  }

  lemma OwnNumber(ccode: seq<Option<string>>, r: Slots, w: nat, v: nat)
    requires Numbered(ccode, r, w) && Numbered(ccode, r, v) && !(HasC(ccode, w) && HasC(ccode, v))
    ensures r.slot[w] == r.slot[v] <==> w == v
  {
  }

  lemma SharedNumber(ccode: seq<Option<string>>, s: set<nat>, native: map<nat, nat>, cur: nat, w: nat, v: nat)
    requires NativeOk(ccode, s, native, cur) && w in s && v in s && HasC(ccode, w) && HasC(ccode, v)
    ensures w in native && v in native && (native[w] == native[v] <==> ccode[w] == ccode[v])
  {
  }

  lemma NativeRange(ccode: seq<Option<string>>, s: set<nat>, native: map<nat, nat>, cur: nat)
    requires NativeOk(ccode, s, native, cur)
    ensures 7 <= cur <= 7 + |ccode|
    ensures forall w :: w in native ==> w in s
  {
  }

  method AssignSlots(p: Program, ccode: seq<Option<string>>, s: set<nat>) returns (r: Option<Slots>)
    requires |ccode| == |p| && InProgram(p, s)
    ensures r.None? <==> exists w :: w in s && p[w].body.Native? && !HasC(ccode, w)
    ensures r.Some? ==> SlotsOk(ccode, s, r.value) && AllUsed(r.value.slot, r.value.total)
  {
    var native, first := AssignNative(p, ccode, s);
    if native.None? {
      return None;
    }
    var slots := AssignInterpreted(p, ccode, s, native.value, first);
    r := Some(slots);
  }

  /** One-byte code is chosen when the number of slots is below 256: then every slot fits a byte. */
  lemma OneByteFits(ccode: seq<Option<string>>, s: set<nat>, r: Slots, w: nat)
    requires SlotsOk(ccode, s, r) && r.total < 256 && w in s
    ensures r.slot[w] <= 255
  {
  }

  // ----- Code elements -----

  /** Opcode.ToCodeElement, for an opcode at offset i of a word that starts at element b. None: the opcode is
      an unresolved call, or FixUp finds no target in the word. */
  function ToElem(slot: map<nat, nat>, code: seq<Opcode>, b: nat, i: nat): Option<Elem>
    requires i < |code|
  {
    match code[i]
    case Ret => Some(UInt(0))
    case Const(v) => Some(UIntInt(1, v))
    case GetLocal(k) => Some(UIntUInt(2, ToUint32(k)))
    case PutLocal(k) => Some(UIntUInt(3, ToUint32(k)))
    case Jump(d) => ToJump(4, |code|, b, i + 1 + d)
    case JumpIf(d) => ToJump(5, |code|, b, i + 1 + d)
    case JumpIfNot(d) => ToJump(6, |code|, b, i + 1 + d)
    case Call(w) => if w in slot then Some(UInt(ToUint32(slot[w]))) else None
    case CallByName(_) => None
  }

  function ToJump(op: uint32, n: nat, b: nat, j: int): Option<Elem> {
    if 0 <= j < n then Some(JumpTo(op, b + 1 + j)) else None
  }

  /** The objects stand for the elements of a list from position b on. */
  ghost predicate LinkedFrom(objs: seq<CodeElement>, elems: seq<Elem>, b: nat)
    reads objs
  {
    && |objs| == |elems|
    && (forall i :: 0 <= i < |objs| ==> objs[i].elem == elems[i])
    && (forall i :: 0 <= i < |objs| && elems[i].JumpTo? ==>
          b <= elems[i].target < b + |objs| && objs[i].target == objs[elems[i].target - b])
  }

  /** The elements of a word: its header, then one for each opcode. */
  ghost predicate WordElems(slot: map<nat, nat>, b: nat, numLocals: nat, code: seq<Opcode>, elems: seq<Elem>) {
    && |elems| == |code| + 1 && elems[0] == UInt(ToUint32(numLocals))
    && forall i :: 0 <= i < |code| ==> ToElem(slot, code, b, i) == Some(elems[1 + i])
  }

  /** GenerateCodeElements: build the elements, then link the jumps. */
  method GenerateCodeElements(slot: map<nat, nat>, numLocals: nat, code: seq<Opcode>, b: nat)
    returns (ok: bool, objs: seq<CodeElement>, ghost elems: seq<Elem>)
    ensures ok <==> forall i :: 0 <= i < |code| ==> ToElem(slot, code, b, i).Some?
    ensures forall k :: 0 <= k < |objs| ==> fresh(objs[k])
    ensures ok ==> Distinct(objs) && Unplaced(objs) && LinkedFrom(objs, elems, b)
    ensures ok ==> WordElems(slot, b, numLocals, code, elems) && |objs| == |elems| == |code| + 1
  {
    var header := new CodeElement(UInt(ToUint32(numLocals)));
    objs, elems := [header], [header.elem];
    for i := 0 to |code|
      invariant |objs| == |elems| == 1 + i && elems[0] == UInt(ToUint32(numLocals))
      invariant forall k :: 0 <= k < |objs| ==> fresh(objs[k])
      invariant Distinct(objs) && Unplaced(objs)
      invariant forall k :: 0 <= k < |objs| ==> objs[k].elem == elems[k]
      invariant forall k :: 0 <= k < i ==> ToElem(slot, code, b, k) == Some(elems[1 + k])
    {
      var e := ToElem(slot, code, b, i);
      if e.None? {
        return false, objs, elems;
      }
      var o := new CodeElement(e.value);
      assert o !in objs;
      objs, elems := objs + [o], elems + [e.value];
    }
    FixUp(slot, code, b, objs, elems);
    ok := true;
  }

  lemma JumpTarget(slot: map<nat, nat>, code: seq<Opcode>, b: nat, i: nat, e: Elem)
    requires i < |code| && ToElem(slot, code, b, i) == Some(e)
    ensures e.JumpTo? <==> code[i].IsJump()
    ensures e.JumpTo? ==> e.target == b + 1 + i + 1 + code[i].disp && 0 <= i + 1 + code[i].disp < |code|
  {
  }

  /** The second loop of GenerateCodeElements. */
  method FixUp(slot: map<nat, nat>, code: seq<Opcode>, b: nat, objs: seq<CodeElement>, ghost elems: seq<Elem>)
    requires |objs| == |elems| == |code| + 1 && elems[0].UInt? && Distinct(objs)
    requires forall k :: 0 <= k < |objs| ==> objs[k].elem == elems[k]
    requires forall i :: 0 <= i < |code| ==> ToElem(slot, code, b, i) == Some(elems[1 + i])
    modifies objs
    ensures forall o :: o in objs ==> o.address == old(o.address)
    ensures LinkedFrom(objs, elems, b)
  {
    for i := 1 to |objs|
      invariant forall o :: o in objs ==> o.address == old(o.address)
      invariant forall k :: 0 <= k < i && elems[k].JumpTo? ==>
                  b <= elems[k].target < b + |objs| && objs[k].target == objs[elems[k].target - b]
    {
      assert ToElem(slot, code, b, i - 1) == Some(elems[1 + (i - 1)]);
      JumpTarget(slot, code, b, i - 1, elems[i]);
      if code[i - 1].IsJump() {
        var ok := objs[i].SetJumpTarget(objs[i + 1 + code[i - 1].disp]);
      }
    }
  }

  // ----- The whole list -----

  /** A word stands at element b of the list. */
  ghost predicate WordAt(slot: map<nat, nat>, elems: seq<Elem>, b: nat, numLocals: nat, code: seq<Opcode>) {
    && b + 1 + |code| <= |elems| && elems[b] == UInt(ToUint32(numLocals))
    && forall i :: 0 <= i < |code| ==> ToElem(slot, code, b, i) == Some(elems[b + 1 + i])
  }

  lemma WordAtAppend(slot: map<nat, nat>, elems: seq<Elem>, more: seq<Elem>, b: nat, numLocals: nat, code: seq<Opcode>)
    requires WordAt(slot, elems, b, numLocals, code)
    ensures WordAt(slot, elems + more, b, numLocals, code)
  {
  }

  lemma WordAtEnd(slot: map<nat, nat>, elems: seq<Elem>, more: seq<Elem>, numLocals: nat, code: seq<Opcode>)
    requires WordElems(slot, |elems|, numLocals, code, more)
    ensures WordAt(slot, elems + more, |elems|, numLocals, code)
  {
    forall i | 0 <= i < |code|
      ensures ToElem(slot, code, |elems|, i) == Some((elems + more)[|elems| + 1 + i])
    {
      assert (elems + more)[|elems| + 1 + i] == more[1 + i];
    }
  }

  lemma LinkedAppend(a: seq<CodeElement>, ea: seq<Elem>, b: seq<CodeElement>, eb: seq<Elem>)
    requires LinkedFrom(a, ea, 0) && LinkedFrom(b, eb, |a|)
    ensures LinkedFrom(a + b, ea + eb, 0) && |a| == |ea|
  {
    var o, e := a + b, ea + eb;
    forall i | 0 <= i < |o| && e[i].JumpTo?
      ensures 0 <= e[i].target < |o| && o[i].target == o[e[i].target]
    {
      if i >= |a| {
        assert o[i] == b[i - |a|] && e[i] == eb[i - |a|];
      } else {
        assert o[i] == a[i] && e[i] == ea[i];
      }
    }
  }

  lemma DistinctAppend(a: seq<CodeElement>, b: seq<CodeElement>)
    requires Distinct(a) && Distinct(b) && forall i, j :: 0 <= i < |a| && 0 <= j < |b| ==> a[i] != b[j]
    ensures Distinct(a + b)
  {
  }

  lemma UnplacedAppend(a: seq<CodeElement>, b: seq<CodeElement>)
    requires Unplaced(a) && Unplaced(b)
    ensures Unplaced(a + b)
  {
  }

  function Size(p: Program, w: nat): nat
    requires w < |p|
  {
    |CodeOf(p[w].body)| + 1
  }

  /** Elements of the first n words, if all were compiled. */
  function TotalSize(p: Program, n: nat): nat
    requires n <= |p|
  {
    if n == 0 then 0 else TotalSize(p, n - 1) + Size(p, n - 1)
  }

  function SizeOf(p: Program, words: seq<nat>): nat
    requires forall k :: 0 <= k < |words| ==> words[k] < |p|
  {
    if words == [] then 0 else SizeOf(p, words[..|words| - 1]) + Size(p, words[|words| - 1])
  }

  lemma {:induction false} SizeAtMostTotal(p: Program, words: seq<nat>, n: nat)
    requires n <= |p| && Increasing(words, n)
    ensures SizeOf(p, words) <= TotalSize(p, n)
    decreases n
  {
    if words != [] {
      var last := words[|words| - 1];
      if last == n - 1 {
        SizeAtMostTotal(p, words[..|words| - 1], n - 1);
      } else {
        SizeAtMostTotal(p, words, n - 1);
      }
    }
  }

  lemma {:induction false} TotalAtLeast(p: Program, n: nat)
    requires n <= |p|
    ensures n <= TotalSize(p, n)
  {
    if n > 0 {
      TotalAtLeast(p, n - 1);
    }
  }

  /** entry[j] is the first element of words[j]. */
  ghost predicate Entries(p: Program, slot: map<nat, nat>, elems: seq<Elem>, words: seq<nat>, entry: seq<nat>) {
    && |entry| <= |words|
    && forall j :: 0 <= j < |entry| ==>
         && words[j] < |p| && entry[j] < |elems|
         && WordAt(slot, elems, entry[j], LocalCount(p[words[j]].body), CodeOf(p[words[j]].body))
  }

  lemma EntriesAppend(p: Program, slot: map<nat, nat>, elems: seq<Elem>, more: seq<Elem>, words: seq<nat>,
                      entry: seq<nat>)
    requires Entries(p, slot, elems, words, entry) && |entry| < |words| && words[|entry|] < |p|
    requires var w := words[|entry|];
             WordElems(slot, |elems|, LocalCount(p[w].body), CodeOf(p[w].body), more)
    ensures Entries(p, slot, elems + more, words, entry + [|elems|])
  {
    hide WordAt, CodeOf, LocalCount;
    var w := words[|entry|];
    forall j | 0 <= j < |entry|
      ensures WordAt(slot, elems + more, entry[j], LocalCount(p[words[j]].body), CodeOf(p[words[j]].body))
    {
      WordAtAppend(slot, elems, more, entry[j], LocalCount(p[words[j]].body), CodeOf(p[words[j]].body));
    }
    WordAtEnd(slot, elems, more, LocalCount(p[w].body), CodeOf(p[w].body));
  }

  /** Every element of the list belongs to one of the words placed so far. */
  ghost predicate Covered(p: Program, words: seq<nat>, entry: seq<nat>, n: nat) {
    && |entry| <= |words|
    && forall j :: 0 <= j < n ==> Belongs(p, words, entry, j)
  }

  predicate Belongs(p: Program, words: seq<nat>, entry: seq<nat>, j: nat)
    requires |entry| <= |words|
  {
    exists k :: 0 <= k < |entry| && InWord(p, words[k], entry[k], j)
  }

  predicate InWord(p: Program, w: nat, b: nat, j: nat) {
    w < |p| && b <= j < b + Size(p, w)
  }

  lemma CoveredAppend(p: Program, words: seq<nat>, entry: seq<nat>, n: nat)
    requires Covered(p, words, entry, n) && |entry| < |words| && words[|entry|] < |p|
    ensures Covered(p, words, entry + [n], n + Size(p, words[|entry|]))
  {
    hide InWord;
    var longer, m := entry + [n], |entry|;
    forall j | 0 <= j < n + Size(p, words[m])
      ensures Belongs(p, words, longer, j)
    {
      if j < n {
        assert Belongs(p, words, entry, j);
        var k :| 0 <= k < |entry| && InWord(p, words[k], entry[k], j);
        assert InWord(p, words[k], longer[k], j);
      } else {
        assert InWord(p, words[m], longer[m], j) by { LastWord(p, words[m], n, j); }
      }
    }
  }

  lemma LastWord(p: Program, w: nat, b: nat, j: nat)
    requires w < |p| && b <= j < b + Size(p, w)
    ensures InWord(p, w, b, j)
  {
  }

  /** Some opcode of the word has no element: an unresolved call, or a jump out of the word. */
  predicate Unbuildable(p: Program, slot: map<nat, nat>, w: nat)
    requires w < |p|
  {
    exists i :: 0 <= i < |CodeOf(p[w].body)| && ToElem(slot, CodeOf(p[w].body), 0, i).None?
  }

  /** What the failure means: the elements of a word can be built exactly if every jump stays inside the code, and every
      call is of a word with a slot. */
  lemma BuildableExactly(p: Program, slot: map<nat, nat>, w: nat)
    requires w < |p|
    ensures var code := CodeOf(p[w].body);
            !Unbuildable(p, slot, w) <==>
              forall i :: 0 <= i < |code| ==>
                && !code[i].CallByName? && (code[i].Call? ==> code[i].target in slot)
                && (code[i].IsJump() ==> 0 <= i + 1 + code[i].disp < |code|)
  {
    var code := CodeOf(p[w].body);
    forall i | 0 <= i < |code|
      ensures ToElem(slot, code, 0, i).Some? <==>
                && !code[i].CallByName? && (code[i].Call? ==> code[i].target in slot)
                && (code[i].IsJump() ==> 0 <= i + 1 + code[i].disp < |code|)
    {
    }
    hide ToElem;
  }

  lemma AnyBase(slot: map<nat, nat>, code: seq<Opcode>, b: nat)
    ensures (exists i :: 0 <= i < |code| && ToElem(slot, code, 0, i).None?)
            <==> exists i :: 0 <= i < |code| && ToElem(slot, code, b, i).None?
  {
    forall i | 0 <= i < |code|
      ensures ToElem(slot, code, 0, i).None? <==> ToElem(slot, code, b, i).None?
    {
    }
  }

  lemma SizeNext(p: Program, words: seq<nat>, k: nat)
    requires k < |words| && forall j :: 0 <= j < |words| ==> words[j] < |p|
    ensures SizeOf(p, words[..k + 1]) == SizeOf(p, words[..k]) + |CodeOf(p[words[k]].body)| + 1
    ensures Size(p, words[k]) == |CodeOf(p[words[k]].body)| + 1
  {
    assert words[..k + 1][..k] == words[..k];
  }

  /** New and properly linked elements. */
  ghost predicate Made(gcode: seq<CodeElement>, elems: seq<Elem>, b: nat)
    reads gcode
  {
    Distinct(gcode) && Unplaced(gcode) && LinkedFrom(gcode, elems, b)
  }

  lemma MadeAppend(a: seq<CodeElement>, ea: seq<Elem>, b: seq<CodeElement>, eb: seq<Elem>)
    requires Made(a, ea, 0) && Made(b, eb, |a|)
    requires forall x :: x in a ==> x !in b
    ensures Made(a + b, ea + eb, 0)
  {
    hide LinkedFrom, Unplaced, Distinct;
    forall i, j | 0 <= i < |a| && 0 <= j < |b|
      ensures a[i] != b[j]
    {
      assert a[i] in a && b[j] in b;
    }
    LinkedAppend(a, ea, b, eb);
    DistinctAppend(a, b);
    UnplacedAppend(a, b);
  }

  /** The elements of all words without C code. */
  method MakeElements(p: Program, slot: map<nat, nat>, words: seq<nat>)
    returns (ok: bool, gcode: seq<CodeElement>, entry: seq<nat>, ghost elems: seq<Elem>)
    requires forall k :: 0 <= k < |words| ==> words[k] < |p|
    ensures ok ==> (forall k :: 0 <= k < |gcode| ==> fresh(gcode[k])) && Made(gcode, elems, 0)
    ensures ok ==> |gcode| == |elems| == SizeOf(p, words) && |entry| == |words| && Entries(p, slot, elems, words, entry)
    ensures ok ==> Covered(p, words, entry, |elems|)
    ensures ok <==> forall k :: 0 <= k < |words| ==> !Unbuildable(p, slot, words[k])
  {
    hide Covered, Unbuildable, ToElem, Made, Entries, SizeOf, WordElems, LinkedFrom, Unplaced, Distinct, CodeOf, LocalCount;
    gcode, entry, elems := [], [], [];
    NothingMade(p, slot, words);
    for k := 0 to |words|
      invariant |entry| == k && |gcode| == |elems| == SizeOf(p, words[..k])
      invariant forall x :: x in gcode ==> fresh(x)
      invariant Made(gcode, elems, 0) && Entries(p, slot, elems, words, entry) && Covered(p, words, entry, |elems|)
      invariant forall j :: 0 <= j < k ==> !Unbuildable(p, slot, words[j])
    {
      BuildableAt(p, slot, words[k], |gcode|);
      var body := p[words[k]].body;
      var objs;
      ghost var more;
      ok, objs, more := GenerateCodeElements(slot, LocalCount(body), CodeOf(body), |gcode|);
      if !ok {
        return;
      }
      assert forall x :: x in gcode ==> x !in objs;
      assert Made(objs, more, |gcode|) by { ObjectsMade(objs, more, |gcode|); }
      MadeAppend(gcode, elems, objs, more);
      EntriesAppend(p, slot, elems, more, words, entry);
      CoveredAppend(p, words, entry, |elems|);
      SizeNext(p, words, k);
      entry := entry + [|gcode|];
      gcode, elems := gcode + objs, elems + more;
    }
    assert words[..|words|] == words;
    forall k | 0 <= k < |gcode|
      ensures fresh(gcode[k])
    {
      assert gcode[k] in gcode;
    }
    ok := true;
  }

  lemma BuildableAt(p: Program, slot: map<nat, nat>, w: nat, b: nat)
    requires w < |p|
    ensures var code := CodeOf(p[w].body);
            Unbuildable(p, slot, w) <==> !forall i :: 0 <= i < |code| ==> ToElem(slot, code, b, i).Some?
  {
    AnyBase(slot, CodeOf(p[w].body), b);
    hide ToElem;
  }

  lemma ObjectsMade(gcode: seq<CodeElement>, elems: seq<Elem>, b: nat)
    requires Distinct(gcode) && Unplaced(gcode) && LinkedFrom(gcode, elems, b)
    ensures Made(gcode, elems, b)
  {
  }

  lemma NothingMade(p: Program, slot: map<nat, nat>, words: seq<nat>)
    requires forall k :: 0 <= k < |words| ==> words[k] < |p|
    ensures Made([], [], 0) && Entries(p, slot, [], words, []) && SizeOf(p, words[..0]) == 0 && Covered(p, words, [], 0)
  {
  }

  /** What CodeElement.Encode appends is what the layout says of element i. */
  lemma ObjectBytes(gcode: seq<CodeElement>, elems: seq<Elem>, lens: seq<nat>, oneByte: bool, i: nat)
    requires Linked(gcode, elems) && Placed(gcode, lens) && i < |gcode|
    requires Short(lens) && 10 * |lens| < TWO_31
    ensures WellLinked(elems) && |lens| == |elems| == |gcode| && gcode[i].elem == elems[i]
    ensures elems[i].JumpTo? ==>
              && gcode[i].JumpOff().Some? && -TWO_31 <= gcode[i].JumpOff().value < TWO_31
              && gcode[i].JumpOff().value == Offset(lens, i, elems[i].target)
  {
    if elems[i].JumpTo? {
      PlacedOffset(gcode, elems, lens, i);
      OffsetFits(lens, i, elems[i].target);
    }
  }

  /** The bytes so far, if all slots fit. */
  ghost predicate Encoded(elems: seq<Elem>, i: nat, lens: seq<nat>, oneByte: bool, bytes: seq<byte>) {
    && i <= |elems| == |lens| && WellLinked(elems)
    && (Encodable(elems, oneByte) ==> bytes == Bytes(elems, i, lens, oneByte))
  }

  /** One turn of the encoding loop. */
  method EncodeNext(ce: CodeElement, bw: BlobWriter, oneByte: bool, ghost gcode: seq<CodeElement>,
                    ghost elems: seq<Elem>, ghost lens: seq<nat>, ghost i: nat) returns (ok: bool)
    requires Linked(gcode, elems) && Placed(gcode, lens) && i < |gcode| && ce == gcode[i]
    requires Short(lens) && 10 * |lens| < TWO_31 && Encoded(elems, i, lens, oneByte, bw.bytes)
    modifies bw
    ensures i < |elems| && (ok <==> (oneByte ==> elems[i].op <= 255))
    ensures ok ==> Encoded(elems, i + 1, lens, oneByte, bw.bytes)
  {
    hide Linked, Placed, Short, Bytes, EncOp, EncSigned, EncUnsigned, CodeElement.JumpOff, Encoded, Encodable, ElemBytes;
    ObjectBytes(gcode, elems, lens, oneByte, i);
    AppendedBytes(gcode, elems, lens, oneByte, i);
    ghost var before := bw.bytes;
    ok := ce.Encode(bw, oneByte);
    if ok {
      EncodedNext(elems, i, lens, oneByte, before, bw.bytes);
    }
  }

  /** What Encode appends is what the layout calls the bytes of the element. */
  lemma AppendedBytes(gcode: seq<CodeElement>, elems: seq<Elem>, lens: seq<nat>, oneByte: bool, i: nat)
    requires Linked(gcode, elems) && Placed(gcode, lens) && i < |gcode|
    requires Short(lens) && 10 * |lens| < TWO_31
    ensures WellLinked(elems) && |lens| == |elems| == |gcode|
    ensures gcode[i].elem.JumpTo? ==> gcode[i].JumpOff().Some? && -TWO_31 <= gcode[i].JumpOff().value < TWO_31
    ensures Encodable(elems, oneByte) ==>
              ElemBytes(elems, i, lens, oneByte)
              == EncOp(gcode[i].elem.op, oneByte) + match gcode[i].elem
                                                    case UInt(_) => []
                                                    case UIntInt(_, v) => EncSigned(v)
                                                    case UIntUInt(_, v) => EncUnsigned(v)
                                                    case JumpTo(_, _) => EncSigned(gcode[i].JumpOff().value)
  {
    ObjectBytes(gcode, elems, lens, oneByte, i);
    hide Linked, Placed, Short, EncOp, EncSigned, EncUnsigned, CodeElement.JumpOff, Encodable, Offset;
  }

  lemma EncodedNext(elems: seq<Elem>, i: nat, lens: seq<nat>, oneByte: bool, before: seq<byte>, after: seq<byte>)
    requires WellLinked(elems) && |lens| == |elems| && i < |elems| && Encoded(elems, i, lens, oneByte, before)
    requires Encodable(elems, oneByte) ==> after == before + ElemBytes(elems, i, lens, oneByte)
    ensures Encoded(elems, i + 1, lens, oneByte, after)
  {
    hide ElemBytes;
    if Encodable(elems, oneByte) {
      BytesNext(elems, i, lens, oneByte);
    }
  }

  lemma BytesNext(elems: seq<Elem>, i: nat, lens: seq<nat>, oneByte: bool)
    requires WellLinked(elems) && |lens| == |elems| && i < |elems| && Encodable(elems, oneByte)
    ensures Bytes(elems, i + 1, lens, oneByte) == Bytes(elems, i, lens, oneByte) + ElemBytes(elems, i, lens, oneByte)
  {
  }

  /** The encoding loop; None: a slot or a count of locals does not fit its byte. */
  method EncodeAll(gcode: seq<CodeElement>, oneByte: bool, ghost elems: seq<Elem>, ghost lens: seq<nat>)
    returns (r: Option<seq<byte>>)
    requires Linked(gcode, elems) && Placed(gcode, lens)
    requires LaidOut(elems, lens, oneByte) && Short(lens) && 10 * |lens| < TWO_31
    ensures r.Some? <==> Encodable(elems, oneByte)
    ensures r.Some? ==> r.value == Block(elems, lens, oneByte)
  {
    hide Linked, Placed, Short, Encoded, LaidOut;
    var bw := new BlobWriter();
    EncodedStart(gcode, elems, lens, oneByte);
    for i := 0 to |gcode|
      invariant Linked(gcode, elems) && Placed(gcode, lens) && Encoded(elems, i, lens, oneByte, bw.bytes)
      invariant forall k :: 0 <= k < i && oneByte ==> elems[k].op <= 255
    {
      var ok := EncodeNext(gcode[i], bw, oneByte, gcode, elems, lens, i);
      if !ok {
        return None;
      }
    }
    EncodedEnd(elems, lens, oneByte, bw.bytes);
    r := Some(bw.bytes);
  }

  lemma EncodedStart(gcode: seq<CodeElement>, elems: seq<Elem>, lens: seq<nat>, oneByte: bool)
    requires Linked(gcode, elems) && LaidOut(elems, lens, oneByte)
    ensures |gcode| == |elems| && Encoded(elems, 0, lens, oneByte, [])
  {
  }

  lemma EncodedEnd(elems: seq<Elem>, lens: seq<nat>, oneByte: bool, bytes: seq<byte>)
    requires LaidOut(elems, lens, oneByte) && Encodable(elems, oneByte)
    requires Encoded(elems, |elems|, lens, oneByte, bytes)
    ensures bytes == Block(elems, lens, oneByte)
  {
  }

  // ----- The result -----

  /** Conditions on the input under which the generated tables mean what the words mean: exactly the native
      words have C code; the other words come from the builder; their local counts fit the header; and
      16-bit addresses cover the code block. */
  ghost predicate Meaningful(p: Program, ccode: seq<Option<string>>, live: set<nat>, img: Image) {
    && |img.code| <= 0x10000
    && forall w :: w in live && w < |p| ==>
         && (p[w].body.Native? <==> HasC(ccode, w))
         && (!p[w].body.Native? ==>
              && Closed(CodeOf(p[w].body), LocalCount(p[w].body))
              && LocalCount(p[w].body) < (if img.oneByte then 128 else 0x10000))
  }

  lemma ElemIsOf(l: Link, slot: map<nat, nat>, code: seq<Opcode>, b: nat, i: nat, e: Elem)
    requires i < |code| && ToElem(slot, code, b, i) == Some(e)
    requires l.slot.Keys == slot.Keys && forall w :: w in slot ==> l.slot[w] == slot[w]
    ensures IsElemOf(l, b, i, code[i], e)
  {
  }

  lemma PlacedWord(l: Link, slot: map<nat, nat>, b: nat, numLocals: nat, code: seq<Opcode>)
    requires WordAt(slot, l.elems, b, numLocals, code)
    requires l.slot.Keys == slot.Keys && forall w :: w in slot ==> l.slot[w] == slot[w]
    ensures WordPlaced(l, b, numLocals, code)
  {
    forall i | 0 <= i < |code|
      ensures IsElemOf(l, b, i, code[i], l.elems[b + 1 + i])
    {
      assert ToElem(slot, code, b, i) == Some(l.elems[b + 1 + i]);
      ElemIsOf(l, slot, code, b, i, l.elems[b + 1 + i]);
    }
  }

  /** The link that the generator's tables describe. */
  function LinkOf(ccode: seq<Option<string>>, live: set<nat>, slots: Slots, elems: seq<Elem>, lens: seq<nat>,
                  entry: seq<nat>): Link
    requires forall w :: w in live ==> w in slots.slot
    requires forall w :: w in live && !HasC(ccode, w) ==> 0 <= slots.slot[w] - slots.interpreted < |entry|
  {
    Link(elems, lens,
         map w | w in live && !HasC(ccode, w) :: entry[slots.slot[w] - slots.interpreted],
         map w | w in live :: ToUint32(slots.slot[w]))
  }

  lemma SlotIndex(ccode: seq<Option<string>>, s: set<nat>, r: Slots, w: nat)
    requires SlotsOk(ccode, s, r) && w in s && !HasC(ccode, w)
    ensures 0 <= r.slot[w] - r.interpreted < |r.words| && r.words[r.slot[w] - r.interpreted] == w
  {
    var k :| 0 <= k < |r.words| && r.words[k] == w;
    assert r.slot[r.words[k]] == r.interpreted + k;
  }

  /** What the generator has in hand when it writes the tables. */
  ghost predicate Written(p: Program, ccode: seq<Option<string>>, live: set<nat>, slots: Slots, elems: seq<Elem>,
                          lens: seq<nat>, entry: seq<nat>, img: Image) {
    && |ccode| == |p| && InProgram(p, live) && RefClosed(p, live)
    && SlotsOk(ccode, live, slots) && slots.total <= TWO_32
    && LaidOut(elems, lens, img.oneByte) && Short(lens) && 10 * |lens| < TWO_31 && Encodable(elems, img.oneByte)
    && |entry| == |slots.words|
    && (forall k :: 0 <= k < |entry| ==> entry[k] < |lens|)
    && (forall k :: 0 <= k < |entry| ==> slots.words[k] < |p|)
    && (forall k :: 0 <= k < |entry| ==>
          WordAt(slots.slot, elems, entry[k], LocalCount(p[slots.words[k]].body), CodeOf(p[slots.words[k]].body)))
    && img.code == Block(elems, lens, img.oneByte) && img.interpreted == slots.interpreted
    && |img.caddr| == |entry| && forall k :: 0 <= k < |entry| ==> img.caddr[k] == Sum(lens, entry[k])
  }

  lemma WordIsLinked(p: Program, ccode: seq<Option<string>>, live: set<nat>, slots: Slots, elems: seq<Elem>,
                     lens: seq<nat>, entry: seq<nat>, img: Image, l: Link, w: nat)
    requires Written(p, ccode, live, slots, elems, lens, entry, img) && Meaningful(p, ccode, live, img) && w in live
    requires forall v :: v in live ==> v in slots.slot
    requires forall v :: v in live && !HasC(ccode, v) ==> 0 <= slots.slot[v] - slots.interpreted < |entry|
    requires l == LinkOf(ccode, live, slots, elems, lens, entry)
    ensures WordLinked(p, l, img, w)
  {
    hide Written, SlotsOk, WordAt, Closed, WordPlaced, Meaningful, LinkOf;
    WrittenSlots(p, ccode, live, slots, elems, lens, entry, img);
    SlotFacts(ccode, live, slots, w);
    LinkSlots(ccode, live, slots, elems, lens, entry);
    MeaningfulAt(p, ccode, live, img, w);
    if !p[w].body.Native? {
      var k := slots.slot[w] - slots.interpreted;
      SlotIndex(ccode, live, slots, w);
      WrittenEntry(p, ccode, live, slots, elems, lens, entry, img, k);
      LinkBase(ccode, live, slots, elems, lens, entry, w);
      PlacedWord(l, slots.slot, entry[k], LocalCount(p[w].body), CodeOf(p[w].body));
    }
  }

  lemma WrittenSlots(p: Program, ccode: seq<Option<string>>, live: set<nat>, slots: Slots, elems: seq<Elem>,
                     lens: seq<nat>, entry: seq<nat>, img: Image)
    requires Written(p, ccode, live, slots, elems, lens, entry, img)
    ensures SlotsOk(ccode, live, slots) && slots.total <= TWO_32 && InProgram(p, live)
    ensures img.interpreted == slots.interpreted && |entry| == |slots.words| == |img.caddr|
  {
  }

  lemma MeaningfulAt(p: Program, ccode: seq<Option<string>>, live: set<nat>, img: Image, w: nat)
    requires Meaningful(p, ccode, live, img) && w in live && w < |p|
    ensures p[w].body.Native? <==> HasC(ccode, w)
    ensures !p[w].body.Native? ==> Closed(CodeOf(p[w].body), LocalCount(p[w].body))
    ensures !p[w].body.Native? ==> LocalCount(p[w].body) < (if img.oneByte then 128 else 0x10000)
  {
  }

  lemma LinkBase(ccode: seq<Option<string>>, live: set<nat>, slots: Slots, elems: seq<Elem>, lens: seq<nat>,
                 entry: seq<nat>, w: nat)
    requires forall w :: w in live ==> w in slots.slot
    requires forall w :: w in live && !HasC(ccode, w) ==> 0 <= slots.slot[w] - slots.interpreted < |entry|
    requires w in live && !HasC(ccode, w)
    ensures var l := LinkOf(ccode, live, slots, elems, lens, entry);
            && w in l.base && l.base[w] == entry[slots.slot[w] - slots.interpreted]
            && l.elems == elems && l.lens == lens
  {
  }

  lemma SlotFacts(ccode: seq<Option<string>>, s: set<nat>, r: Slots, w: nat)
    requires SlotsOk(ccode, s, r) && w in s && r.total <= TWO_32
    ensures w in r.slot && 7 <= r.slot[w] < r.total && ToUint32(r.slot[w]) == r.slot[w]
    ensures r.slot[w] < r.interpreted <==> HasC(ccode, w)
    ensures r.total == r.interpreted + |r.words|
  {
  }

  lemma LinkSlots(ccode: seq<Option<string>>, live: set<nat>, slots: Slots, elems: seq<Elem>, lens: seq<nat>,
                  entry: seq<nat>)
    requires SlotsOk(ccode, live, slots) && slots.total <= TWO_32
    requires forall w :: w in live && !HasC(ccode, w) ==> 0 <= slots.slot[w] - slots.interpreted < |entry|
    ensures var l := LinkOf(ccode, live, slots, elems, lens, entry);
            l.slot.Keys == slots.slot.Keys && forall v :: v in slots.slot ==> l.slot[v] == slots.slot[v]
  {
    SlotKeys(ccode, live, slots);
    hide SlotsOk;
    forall v | v in slots.slot
      ensures ToUint32(slots.slot[v]) == slots.slot[v]
    {
    }
    hide ToUint32;
  }

  lemma SlotKeys(ccode: seq<Option<string>>, s: set<nat>, r: Slots)
    requires SlotsOk(ccode, s, r)
    ensures r.slot.Keys == s && forall w :: w in r.slot ==> r.slot[w] < r.total
  {
  }

  lemma WrittenEntry(p: Program, ccode: seq<Option<string>>, live: set<nat>, slots: Slots, elems: seq<Elem>,
                     lens: seq<nat>, entry: seq<nat>, img: Image, k: nat)
    requires Written(p, ccode, live, slots, elems, lens, entry, img) && k < |entry|
    ensures |img.caddr| == |entry| == |slots.words| && slots.words[k] < |p|
    ensures img.interpreted == slots.interpreted && entry[k] < |lens| && img.caddr[k] == Sum(lens, entry[k])
    ensures WordAt(slots.slot, elems, entry[k], LocalCount(p[slots.words[k]].body), CodeOf(p[slots.words[k]].body))
  {
  }

  /** The generated tables are what the simulation theorem needs. */
  lemma WrittenIsCompiled(p: Program, ccode: seq<Option<string>>, live: set<nat>, slots: Slots, elems: seq<Elem>,
                          lens: seq<nat>, entry: seq<nat>, img: Image) returns (l: Link)
    requires Written(p, ccode, live, slots, elems, lens, entry, img) && Meaningful(p, ccode, live, img)
    ensures Compiled(p, live, l, img)
    ensures forall w :: w in live ==> w in slots.slot && w in l.slot && l.slot[w] == slots.slot[w]
  {
    forall v | v in live && !HasC(ccode, v)
      ensures 0 <= slots.slot[v] - slots.interpreted < |entry|
    {
      SlotIndex(ccode, live, slots, v);
    }
    l := LinkOf(ccode, live, slots, elems, lens, entry);
    LinkSlots(ccode, live, slots, elems, lens, entry);
    forall w | w in live
      ensures WordLinked(p, l, img, w)
    {
      WordIsLinked(p, ccode, live, slots, elems, lens, entry, img, l, w);
    }
    LiveCalls(p, live);
  }

  lemma LiveCalls(p: Program, live: set<nat>)
    requires RefClosed(p, live)
    ensures CallsLive(p, live)
  {
    forall w, i | w in live && w < |p| && p[w].body.Interpreted? && 0 <= i < |p[w].body.code| && p[w].body.code[i].Call?
      ensures p[w].body.code[i].target in live
    {
      assert Refers(p, w, p[w].body.code[i].target);
    }
  }

  // ----- The flow checks -----

  /** Every entry point was accepted, within the limits. */
  ghost predicate FlowChecked(p: Program, entries: seq<nat>, dsLimit: int, rsLimit: int, infos: Flow.Infos) {
    FlowCert.AllCertified(p, infos) && forall e :: e in entries ==> EntryChecked(p, dsLimit, rsLimit, infos, e)
  }

  predicate EntryChecked(p: Program, dsLimit: int, rsLimit: int, infos: Flow.Infos, e: nat) {
    && e < |p| == |infos| && (p[e].body.Interpreted? ==> infos[e].status.Analysed?)
    && Flow.MaxDataOf(p, infos, e) <= dsLimit && Flow.MaxReturnOf(p, infos, e) <= rsLimit
  }

  /** The entry points in turn, each analysed with what the earlier ones left; None is an exception. */
  function FlowPhase(p: Program, entries: seq<nat>, dsLimit: int, rsLimit: int): (r: Option<Flow.Infos>)
    requires forall i :: 0 <= i < |entries| ==> entries[i] < |p|
    ensures r.Some? ==> |r.value| == |p|
  {
    if entries == [] then Some(Flow.InitialInfos(p))
    else
      var e := entries[|entries| - 1];
      match FlowPhase(p, entries[..|entries| - 1], dsLimit, rsLimit)
      case None => None
      case Some(infos) =>
        var v := Flow.Analyse(p, infos, e);
        if v.Rejected? || Flow.MaxDataOf(p, v.infos, e) > dsLimit || Flow.MaxReturnOf(p, v.infos, e) > rsLimit then None
        else Some(v.infos)
  }

  /** A failure stays a failure. */
  lemma {:induction false} FlowFailureStays(p: Program, entries: seq<nat>, dsLimit: int, rsLimit: int, i: nat)
    requires (forall k :: 0 <= k < |entries| ==> entries[k] < |p|) && i <= |entries| && FlowPhase(p, entries[..i], dsLimit, rsLimit).None?
    ensures FlowPhase(p, entries, dsLimit, rsLimit).None?
    decreases |entries|
  {
    if i < |entries| {
      assert entries[..|entries| - 1][..i] == entries[..i];
      FlowFailureStays(p, entries[..|entries| - 1], dsLimit, rsLimit, i);
    } else {
      assert entries[..i] == entries;
    }
  }

  /** The flow analysis phase of Generate. */
  method CheckFlow(p: Program, entries: seq<nat>, dsLimit: int, rsLimit: int)
    returns (ok: bool, ghost infos: Flow.Infos)
    requires forall e :: e in entries ==> e < |p|
    ensures forall i :: 0 <= i < |entries| ==> entries[i] in entries && entries[i] < |p|
    ensures ok <==> FlowPhase(p, entries, dsLimit, rsLimit).Some?
    ensures ok ==> FlowChecked(p, entries, dsLimit, rsLimit, infos)
  {
    hide FlowPhase, FlowChecked, Flow.Analyse, FlowCert.AllCertified, Flow.MaxDataOf, Flow.MaxReturnOf;
    var table := new Analyser.WordTable(p);
    infos := table.infos;
    forall i | 0 <= i < |entries|
      ensures entries[i] in entries && entries[i] < |p|
    {
    }
    PhaseStart(p, entries, dsLimit, rsLimit);
    for i := 0 to |entries|
      invariant |table.infos| == |p| && FlowCert.AllCertified(p, table.infos)
      invariant FlowChecked(p, entries[..i], dsLimit, rsLimit, table.infos)
      invariant FlowPhase(p, entries[..i], dsLimit, rsLimit) == Some(table.infos)
    {
      var e := entries[i];
      ghost var before := table.infos;
      FlowCert.AnalyseCertifies(p, before, e);
      PhaseNext(p, entries, dsLimit, rsLimit, i, before);
      var v := table.AnalyseFlow(e);
      infos := table.infos;
      if v.Rejected? || Flow.MaxDataOf(p, table.infos, e) > dsLimit || Flow.MaxReturnOf(p, table.infos, e) > rsLimit {
        FlowFailureStays(p, entries, dsLimit, rsLimit, i + 1);
        return false, infos;
      }
      CheckedNext(p, entries, dsLimit, rsLimit, i, before, table.infos);
    }
    infos := table.infos;
    assert entries[..|entries|] == entries;
    ok := true;
  }

  lemma {:induction false} PhaseStart(p: Program, entries: seq<nat>, dsLimit: int, rsLimit: int)
    ensures var infos := Flow.InitialInfos(p);
            && FlowCert.AllCertified(p, infos) && FlowChecked(p, entries[..0], dsLimit, rsLimit, infos)
            && FlowPhase(p, entries[..0], dsLimit, rsLimit) == Some(infos)
  {
  }

  lemma {:induction false} PhaseNext(p: Program, entries: seq<nat>, dsLimit: int, rsLimit: int, i: nat,
                                     infos: Flow.Infos)
    requires (forall k :: 0 <= k < |entries| ==> entries[k] < |p|) && i < |entries| && |infos| == |p|
    requires FlowPhase(p, entries[..i], dsLimit, rsLimit) == Some(infos)
    ensures var e := entries[i];
            var v := Flow.Analyse(p, infos, e);
            FlowPhase(p, entries[..i + 1], dsLimit, rsLimit)
            == if v.Rejected? || Flow.MaxDataOf(p, v.infos, e) > dsLimit || Flow.MaxReturnOf(p, v.infos, e) > rsLimit then None
               else Some(v.infos)
  {
    hide Flow.Analyse, Flow.MaxDataOf, Flow.MaxReturnOf;
    assert entries[..i + 1][..i] == entries[..i];
  }

  /** What the phase leaves is certified and exact. */
  lemma {:induction false} PhaseCertifies(p: Program, entries: seq<nat>, dsLimit: int, rsLimit: int)
    requires forall k :: 0 <= k < |entries| ==> entries[k] < |p|
    ensures var r := FlowPhase(p, entries, dsLimit, rsLimit);
            r.Some? ==> FlowCert.AllCertified(p, r.value) && FlowExact.AllAttained(p, r.value)
    decreases |entries|
  {
    hide FlowExact.Attained, FlowCert.Certified, Flow.Analyse, Flow.MaxDataOf, Flow.MaxReturnOf;
    if entries != [] {
      var rest, e := entries[..|entries| - 1], entries[|entries| - 1];
      PhaseCertifies(p, rest, dsLimit, rsLimit);
      var before := FlowPhase(p, rest, dsLimit, rsLimit);
      if before.Some? {
        FlowCert.AnalyseCertifies(p, before.value, e);
        FlowExact.AnalyseAttains(p, before.value, e);
      }
    }
  }

  /** The data bound of a word without opcodes: what it consumes is taken off, and what it adds is not counted. */
  function PlainBound(se: SType): int {
    if !se.IsKnown() then -1 else if se.NoExit() || se.dout >= se.din then 0 else -(se.din - se.dout)
  }

  /** The checks of an entry point, after the earlier ones have left infos: it passes exactly if the analysis accepts it,
      and the needs that the explored opcodes add up to are within both limits. */
  lemma {:induction false} EntryPasses(p: Program, entries: seq<nat>, e: nat, dsLimit: int, rsLimit: int,
                                       infos: Flow.Infos)
    requires (forall k :: 0 <= k < |entries| ==> entries[k] < |p|) && e < |p|
    requires FlowPhase(p, entries, dsLimit, rsLimit) == Some(infos)
    ensures FlowPhase(p, entries + [e], dsLimit, rsLimit).Some? <==>
              var v := Flow.Analyse(p, infos, e);
              && v.Accepted? && |v.infos| == |p|
              && if p[e].body.Interpreted? then
                   FlowExact.DataBound(p, v.infos, e) <= dsLimit && FlowExact.ReturnBound(p, v.infos, e) <= rsLimit
                 else PlainBound(p[e].effect) <= dsLimit && 0 <= rsLimit
  {
    PhaseCertifies(p, entries, dsLimit, rsLimit);
    FlowCert.AnalyseCertifies(p, infos, e);
    FlowExact.AnalyseAttains(p, infos, e);
    var v := Flow.Analyse(p, infos, e);
    assert (entries + [e])[..|entries|] == entries;
    if v.Accepted? && p[e].body.Interpreted? {
      FlowExact.BoundsExact(p, v.infos, e);
    }
    hide Flow.Analyse, FlowExact.AllAttained, FlowExact.DataBound, FlowExact.ReturnBound;
  }

  lemma {:induction false} CheckedNext(p: Program, entries: seq<nat>, dsLimit: int, rsLimit: int, i: nat,
                                       a: Flow.Infos, b: Flow.Infos)
    requires i < |entries| && FlowChecked(p, entries[..i], dsLimit, rsLimit, a)
    requires FlowCert.AllCertified(p, b) && Flow.AllKept(a, b)
    requires var e := entries[i];
             && e < |p| == |b| && (p[e].body.Interpreted? ==> b[e].status.Analysed?)
             && Flow.MaxDataOf(p, b, e) <= dsLimit && Flow.MaxReturnOf(p, b, e) <= rsLimit
    ensures FlowChecked(p, entries[..i + 1], dsLimit, rsLimit, b)
  {
    CheckedKept(p, entries[..i], dsLimit, rsLimit, a, b);
    assert EntryChecked(p, dsLimit, rsLimit, b, entries[i]);
    hide FlowCert.AllCertified, EntryChecked;
    assert entries[..i + 1] == entries[..i] + [entries[i]];
  }

  lemma {:induction false} CheckedKept(p: Program, entries: seq<nat>, dsLimit: int, rsLimit: int, a: Flow.Infos,
                                       b: Flow.Infos)
    requires FlowChecked(p, entries, dsLimit, rsLimit, a) && FlowCert.AllCertified(p, b) && Flow.AllKept(a, b)
    ensures FlowChecked(p, entries, dsLimit, rsLimit, b)
  {
    forall e | e in entries
      ensures EntryChecked(p, dsLimit, rsLimit, b, e)
    {
      assert EntryChecked(p, dsLimit, rsLimit, a, e);
    }
  }

  // ----- Generate -----

  /** Addresses of the entry elements, for t0_caddr. */
  method EntryAddresses(gcode: seq<CodeElement>, entry: seq<nat>, ghost lens: seq<nat>) returns (caddr: seq<nat>)
    requires Placed(gcode, lens) && forall k :: 0 <= k < |entry| ==> entry[k] < |gcode|
    ensures |caddr| == |entry| && forall k :: 0 <= k < |entry| ==> caddr[k] == Sum(lens, entry[k])
  {
    caddr := [];
    for i := 0 to |entry|
      invariant |caddr| == i && forall k :: 0 <= k < i ==> caddr[k] == Sum(lens, entry[k])
    {
      caddr := caddr + [gcode[entry[i]].address];
    }
  }

  /** The header of the word does not fit its byte. */
  predicate WideHeader(p: Program, w: nat)
    requires w < |p|
  {
    ToUint32(LocalCount(p[w].body)) > 255
  }

  /** Only headers can fail to fit a byte in one-byte mode. */
  lemma HeadersDecide(p: Program, ccode: seq<Option<string>>, live: set<nat>, slots: Slots, entry: seq<nat>,
                      elems: seq<Elem>)
    requires SlotsOk(ccode, live, slots) && slots.total < 256 && |entry| == |slots.words|
    requires Entries(p, slots.slot, elems, slots.words, entry) && Covered(p, slots.words, entry, |elems|)
    ensures forall k :: 0 <= k < |slots.words| ==> slots.words[k] < |p|
    ensures Encodable(elems, true) <==> forall k :: 0 <= k < |slots.words| ==> !WideHeader(p, slots.words[k])
  {
    var words := slots.words;
    SmallSlots(ccode, live, slots);
    hide SlotsOk, ToElem, WordAt, CodeOf, LocalCount, ToUint32;
    forall k | 0 <= k < |words|
      ensures words[k] < |p| && entry[k] < |elems| && (elems[entry[k]].op <= 255 <==> !WideHeader(p, words[k]))
    {
      HeaderOp(slots.slot, elems, entry[k], LocalCount(p[words[k]].body), CodeOf(p[words[k]].body));
    }
    if forall k :: 0 <= k < |words| ==> !WideHeader(p, words[k]) {
      forall j | 0 <= j < |elems|
        ensures elems[j].op <= 255
      {
        assert Belongs(p, words, entry, j);
        var k :| 0 <= k < |entry| && InWord(p, words[k], entry[k], j);
        if j != entry[k] {
          OpcodeOp(slots.slot, elems, entry[k], LocalCount(p[words[k]].body), CodeOf(p[words[k]].body), j);
        }
      }
    }
  }

  lemma SmallSlots(ccode: seq<Option<string>>, live: set<nat>, slots: Slots)
    requires SlotsOk(ccode, live, slots) && slots.total < 256
    ensures forall w :: w in slots.slot ==> slots.slot[w] <= 255
  {
  }

  lemma HeaderOp(slot: map<nat, nat>, elems: seq<Elem>, b: nat, numLocals: nat, code: seq<Opcode>)
    requires WordAt(slot, elems, b, numLocals, code)
    ensures b < |elems| && elems[b].op == ToUint32(numLocals)
  {
  }

  lemma OpcodeOp(slot: map<nat, nat>, elems: seq<Elem>, b: nat, numLocals: nat, code: seq<Opcode>, j: nat)
    requires WordAt(slot, elems, b, numLocals, code) && b < j <= b + |code|
    requires forall w :: w in slot ==> slot[w] <= 255
    ensures j < |elems| && elems[j].op <= 255
  {
    assert ToElem(slot, code, b, j - b - 1) == Some(elems[b + 1 + (j - b - 1)]);
  }

  /** The word makes Generate throw after the numbering. */
  predicate Unemittable(p: Program, slots: Slots, w: nat)
    requires w < |p|
  {
    Unbuildable(p, slots.slot, w) || (slots.total < 256 && WideHeader(p, w))
  }

  lemma WidestIsEncodable(elems: seq<Elem>)
    ensures Encodable(elems, false)
  {
  }

  /** The second half of Generate: elements, layout, tables. None: an exception of the source. */
  method Emit(p: Program, ccode: seq<Option<string>>, live: set<nat>, slots: Slots)
    returns (r: Option<Image>, ghost elems: seq<Elem>, ghost lens: seq<nat>, ghost entry: seq<nat>)
    requires |ccode| == |p| && InProgram(p, live) && RefClosed(p, live) && SlotsOk(ccode, live, slots)
    requires 10 * TotalSize(p, |p|) < TWO_31
    ensures r.Some? ==> Written(p, ccode, live, slots, elems, lens, entry, r.value)
    ensures r.Some? ==> r.value.oneByte == (slots.total < 256) && r.value.interpreted == slots.interpreted
    ensures forall k :: 0 <= k < |slots.words| ==> slots.words[k] < |p|
    ensures r.None? <==> exists k :: 0 <= k < |slots.words| && Unemittable(p, slots, slots.words[k])
  {
    hide WideHeader, Unbuildable, Encodable, SlotsOk, Written, Made, Entries, Covered, Linked, Placed, LaidOut, WordAt,
         Distinct, Unplaced, RefClosed, CodeOf, LocalCount, Block, Short, Increasing;
    SlotWords(p, ccode, live, slots);
    var ok, gcode, first;
    ok, gcode, first, elems := MakeElements(p, slots.slot, slots.words);
    entry, lens := first, [];
    if !ok {
      return None, elems, lens, entry;
    }
    SizeAtMostTotal(p, slots.words, |p|);
    TotalAtLeast(p, |p|);
    MadeFacts(p, slots, gcode, elems, entry);
    var oneByte := slots.total < 256;
    if oneByte {
      HeadersDecide(p, ccode, live, slots, entry, elems);
    } else {
      WidestIsEncodable(elems);
    }
    lens := Layout(gcode, oneByte, elems);
    PlacedLength(gcode, lens);
    var bytes := EncodeAll(gcode, oneByte, elems, lens);
    if bytes.None? {
      return None, elems, lens, entry;
    }
    var caddr := EntryAddresses(gcode, first, lens);
    r := Some(Image(bytes.value, caddr, slots.interpreted, oneByte));
    TablesWritten(p, ccode, live, slots, elems, lens, entry, r.value);
  }

  lemma SlotWords(p: Program, ccode: seq<Option<string>>, live: set<nat>, slots: Slots)
    requires SlotsOk(ccode, live, slots) && |ccode| == |p|
    ensures Increasing(slots.words, |p|) && forall k :: 0 <= k < |slots.words| ==> slots.words[k] < |p|
    ensures slots.total <= 7 + 2 * |p|
  {
  }

  lemma PlacedLength(gcode: seq<CodeElement>, lens: seq<nat>)
    requires Placed(gcode, lens)
    ensures |lens| == |gcode|
  {
  }

  lemma TablesWritten(p: Program, ccode: seq<Option<string>>, live: set<nat>, slots: Slots, elems: seq<Elem>,
                      lens: seq<nat>, entry: seq<nat>, img: Image)
    requires |ccode| == |p| && InProgram(p, live) && RefClosed(p, live) && SlotsOk(ccode, live, slots)
    requires slots.total <= TWO_32 && Entries(p, slots.slot, elems, slots.words, entry) && |entry| == |slots.words|
    requires LaidOut(elems, lens, img.oneByte) && Short(lens) && 10 * |lens| < TWO_31 && Encodable(elems, img.oneByte)
    requires img.code == Block(elems, lens, img.oneByte) && img.interpreted == slots.interpreted
    requires |img.caddr| == |entry| && forall k :: 0 <= k < |entry| ==> entry[k] < |lens| && img.caddr[k] == Sum(lens, entry[k])
    ensures Written(p, ccode, live, slots, elems, lens, entry, img)
  {
    hide SlotsOk, LaidOut, Encodable, Block, WordAt, Short, RefClosed;
  }

  lemma MadeFacts(p: Program, slots: Slots, gcode: seq<CodeElement>, elems: seq<Elem>, entry: seq<nat>)
    requires Made(gcode, elems, 0) && |entry| == |slots.words| && Entries(p, slots.slot, elems, slots.words, entry)
    ensures Linked(gcode, elems) && Distinct(gcode) && Unplaced(gcode)
    ensures forall k :: 0 <= k < |entry| ==> entry[k] < |gcode|
    ensures forall k :: 0 <= k < |entry| ==>
              && slots.words[k] < |p|
              && WordAt(slots.slot, elems, entry[k], LocalCount(p[slots.words[k]].body), CodeOf(p[slots.words[k]].body))
  {
  }

  lemma ClosureFacts(p: Program, entries: seq<nat>, s: set<nat>)
    requires LeastClosure(p, entries, s)
    ensures RefClosed(p, s)
  {
  }

  // The data phase gives data words their addresses: p is the program before it, q the program after it.

  lemma AlikeClosure(p: Program, q: Program, entries: seq<nat>, s: set<nat>)
    requires Alike(p, q) && LeastClosure(p, entries, s) && InProgram(p, s)
    ensures LeastClosure(q, entries, s) && InProgram(q, s)
  {
    forall w: nat, v: nat
      ensures Refers(p, w, v) <==> Refers(q, w, v)
    {
      if w < |p| {
        assert AlikeAt(p[w], q[w]);
      }
    }
    forall t: set<nat>
      ensures RefClosed(p, t) <==> RefClosed(q, t)
    {
    }
  }

  lemma {:induction false} AlikeSize(p: Program, q: Program, n: nat)
    requires Alike(p, q) && n <= |p|
    ensures TotalSize(p, n) == TotalSize(q, n)
  {
    if n > 0 {
      AlikeSize(p, q, n - 1);
      assert AlikeAt(p[n - 1], q[n - 1]);
    }
  }

  /** The flow analysis does not depend on the data addresses. */
  lemma {:induction false} AlikeAnalysed(p: Program, q: Program, infos: Flow.Infos, w: nat)
    requires Alike(p, q) && w < |p| == |infos|
    ensures Flow.InitialInfos(p) == Flow.InitialInfos(q)
    ensures Flow.Analyse(p, infos, w) == Flow.Analyse(q, infos, w)
    decreases Flow.FreshWords(infos), 0, Flow.FreshWords([]), 0, 0
  {
    assert forall v :: 0 <= v < |p| ==> AlikeAt(p[v], q[v]);
    if p[w].body.Interpreted? && infos[w].status.Fresh? && p[w].body.code != [] {
      assert w in Flow.FreshWords(infos);
      AlikeExplored(p, q, infos[w := infos[w].(status := Flow.Ongoing)], w, Flow.StartScan(|p[w].body.code|));
    }
  }

  lemma {:induction false} AlikeExplored(p: Program, q: Program, infos: Flow.Infos, w: nat, st: Flow.Scan)
    requires Alike(p, q) && Flow.IsOngoing(p, infos, w) && Flow.Formed(|p[w].body.code|, st)
    ensures q[w].body == p[w].body && Flow.Explore(p, infos, w, st) == Flow.Explore(q, infos, w, st)
    decreases Flow.FreshWords(infos), 1, Flow.Unset(st.sa), |p[w].body.code| - st.tX, 1
  {
    hide Flow.Advance, Flow.Progress;
    assert AlikeAt(p[w], q[w]);
    var code := p[w].body.code;
    var op := code[st.off];
    if op.Call? && op.target < |p| {
      AlikeAnalysed(p, q, infos, op.target);
      var r := Flow.Analyse(p, infos, op.target);
      if r.Accepted? {
        assert AlikeAt(p[op.target], q[op.target]);
        var m := Flow.CallMove(p, r.infos, st, op.target);
        assert m == Flow.CallMove(q, r.infos, st, op.target);
        Flow.CallProgress(|code|, p, r.infos, st, op.target);
        AlikeFollowed(p, q, infos, r.infos, w, st, m);
      }
    } else {
      Flow.PlainProgress(|code|, st, op);
      AlikeFollowed(p, q, infos, infos, w, st, Flow.PlainMove(st, op));
    }
  }

  lemma {:induction false} AlikeFollowed(p: Program, q: Program, before: Flow.Infos, infos: Flow.Infos, w: nat,
                                         st: Flow.Scan, m: Flow.Move)
    requires Alike(p, q) && Flow.IsOngoing(p, before, w) && Flow.AllKept(before, infos)
    requires Flow.Formed(|p[w].body.code|, st) && Flow.Progress(|p[w].body.code|, st, m)
    ensures q[w].body == p[w].body
    ensures Flow.Follow(p, before, infos, w, st, m) == Flow.Follow(q, before, infos, w, st, m)
    decreases Flow.FreshWords(before), 1, Flow.Unset(st.sa), |p[w].body.code| - st.tX, 0
  {
    assert AlikeAt(p[w], q[w]);
    match m
    case Reject(_) =>
    case Finish(_) =>
    case Next(st') => AlikeExplored(p, q, infos, w, st');
  }

  lemma {:induction false} AlikeChecked(p: Program, q: Program, entries: seq<nat>, dsLimit: int, rsLimit: int,
                                        infos: Flow.Infos)
    requires Alike(p, q) && FlowChecked(p, entries, dsLimit, rsLimit, infos)
    ensures FlowChecked(q, entries, dsLimit, rsLimit, infos)
  {
    hide FlowCert.Certified;
    forall w | 0 <= w < |p|
      ensures AlikeAt(p[w], q[w])
      ensures p[w].body.Interpreted? && infos[w].status.Analysed? ==> FlowCert.Certified(q, infos, w)
    {
      assert AlikeAt(p[w], q[w]);
      if p[w].body.Interpreted? && infos[w].status.Analysed? {
        AlikeCertified(p, q, infos, w);
      }
    }
  }

  lemma {:induction false} AlikeCertified(p: Program, q: Program, infos: Flow.Infos, w: nat)
    requires Alike(p, q) && |p| == |infos| && w < |p| && p[w].body.Interpreted? && FlowCert.Certified(p, infos, w)
    ensures q[w].body.Interpreted? && FlowCert.Certified(q, infos, w)
  {
    hide FlowCert.Bounds, Flow.Computed;
    assert AlikeAt(p[w], q[w]);
    var code, st := p[w].body.code, infos[w].scan;
    forall i | 0 <= i < |code| && st.sa[i].Some?
      ensures FlowCert.LocalOk(q, infos, code, st, i)
    {
      assert FlowCert.LocalOk(p, infos, code, st, i);
      if code[i].Call? {
        assert AlikeAt(p[code[i].target], q[code[i].target]);
      }
    }
  }

  /** The exceptions of Generate in order: an unresolved reference, a word that the flow analysis rejects or
      that exceeds a limit, a native word without C code, an entry point with C code, and a word whose elements
      cannot be built or encoded. */
  ghost predicate Throws(p: Program, q: Program, ccode: seq<Option<string>>, entries: seq<nat>, enableFlow: bool,
                         dsLimit: int, rsLimit: int, live: set<nat>, slots: Slots) {
    || Unresolved(p, entries)
    || (enableFlow && FlowRejected(p, entries, dsLimit, rsLimit))
    || TablesThrow(q, ccode, entries, live, slots)
  }

  ghost predicate TablesThrow(q: Program, ccode: seq<Option<string>>, entries: seq<nat>, live: set<nat>, slots: Slots) {
    || (LeastClosure(q, entries, live) && NoCCode(q, ccode, live))
    || (exists e :: e in entries && HasC(ccode, e))
    || (LeastClosure(q, entries, live) && SlotsOk(ccode, live, slots) && SomeUnemittable(q, slots))
  }

  predicate FlowRejected(p: Program, entries: seq<nat>, dsLimit: int, rsLimit: int) {
    (forall i :: 0 <= i < |entries| ==> entries[i] < |p|) && FlowPhase(p, entries, dsLimit, rsLimit).None?
  }

  predicate NoCCode(p: Program, ccode: seq<Option<string>>, live: set<nat>) {
    exists w :: w in live && w < |p| && p[w].body.Native? && !HasC(ccode, w)
  }

  predicate SomeUnemittable(p: Program, slots: Slots) {
    exists k :: 0 <= k < |slots.words| && slots.words[k] < |p| && Unemittable(p, slots, slots.words[k])
  }

  /** What the tables hold. */
  ghost predicate TablesOk(q: Program, ccode: seq<Option<string>>, entries: seq<nat>, live: set<nat>, slots: Slots,
                           l: Link, img: Image) {
    && SlotsOk(ccode, live, slots) && AllUsed(slots.slot, slots.total)
    && (forall e :: e in entries ==> !HasC(ccode, e))
    && img.interpreted == slots.interpreted && img.oneByte == (slots.total < 256)
    && (Meaningful(q, ccode, live, img) ==>
         && Compiled(q, live, l, img)
         && forall w :: w in live ==> w in slots.slot && w in l.slot && l.slot[w] == slots.slot[w])
  }

  /** The phases after the data phase: numbers, elements, layout, tables. */
  method Tables(q: Program, ccode: seq<Option<string>>, entries: seq<nat>, words: set<nat>)
    returns (r: Option<Image>, ghost l: Link, ghost slots: Slots)
    requires |ccode| == |q| && (forall e :: e in entries ==> e < |q|) && 10 * TotalSize(q, |q|) < TWO_31
    requires LeastClosure(q, entries, words) && InProgram(q, words)
    ensures r.Some? ==> TablesOk(q, ccode, entries, words, slots, l, r.value)
    ensures r.None? <==> TablesThrow(q, ccode, entries, words, slots)
  {
    hide LeastClosure, SlotsOk, AllUsed, Compiled, Written, Meaningful;
    l, slots := Link([], [], map[], map[]), Slots(map[], 7, 7, []);
    var numbered := AssignSlots(q, ccode, words);
    if numbered.None? {
      return None, l, slots;
    }
    slots := numbered.value;
    for i := 0 to |entries|
      invariant forall k :: 0 <= k < i ==> !HasC(ccode, entries[k])
    {
      assert entries[i] in entries;
      if ccode[entries[i]].Some? {
        return None, l, slots;
      }
    }
    ghost var elems, lens, entry;
    ClosureFacts(q, entries, words);
    r, elems, lens, entry := Emit(q, ccode, words, numbered.value);
    if r.Some? && Meaningful(q, ccode, words, r.value) {
      l := WrittenIsCompiled(q, ccode, words, slots, elems, lens, entry, r.value);
    }
  }

  /** Generate. None: an exception of the source. The image is that of q, the program in which data words push the
      addresses of their blocks in the data block. */
  method Generate(p: Program, refs: map<nat, DataRef>, blocks: seq<C.ConstData>, ghost contents: seq<seq<byte>>,
                  ccode: seq<Option<string>>, entries: seq<nat>, enableFlow: bool, dsLimit: int, rsLimit: int)
    returns (r: Option<Image>, dataBlock: seq<byte>, ghost addr: map<nat, int>, ghost q: Program, ghost live: set<nat>,
             ghost l: Link, ghost slots: Slots, ghost infos: Flow.Infos)
    requires |ccode| == |p| && (forall e :: e in entries ==> e < |p|) && 10 * TotalSize(p, |p|) < TWO_31
    requires DataResolved(p, refs, |blocks|) && C.Hold(blocks, contents)
    requires forall i, j :: 0 <= i < j < |blocks| ==> blocks[i] != blocks[j]
    modifies blocks`address
    ensures r.Some? ==> LeastClosure(q, entries, live) && InProgram(q, live)
    ensures r.Some? ==> q == LinkAll(p, live, refs, addr) && BlocksStand(contents, addr, dataBlock)
    ensures r.Some? ==> forall b: nat :: b in addr <==> b < |blocks| && Referenced(p, live, refs, b)
    ensures r.Some? ==> TablesOk(q, ccode, entries, live, slots, l, r.value)
    ensures r.Some? && enableFlow ==> FlowChecked(q, entries, dsLimit, rsLimit, infos)
    ensures r.None? <==> Throws(p, q, ccode, entries, enableFlow, dsLimit, rsLimit, live, slots)
  {
    hide LeastClosure, SlotsOk, FlowChecked, TablesOk, TablesThrow, TotalSize, C.Hold, BlocksStand, LinkAll, Alike, Referenced;
    l, infos, slots := Link([], [], map[], map[]), Flow.InitialInfos(p), Slots(map[], 7, 7, []);
    dataBlock, addr, q, live := [], map[], p, {};
    var words := Gather(p, entries);
    if words.None? {
      return None, dataBlock, addr, q, live, l, slots, infos;
    }
    live := words.value;
    if enableFlow {
      var ok;
      ok, infos := CheckFlow(p, entries, dsLimit, rsLimit);
      if !ok {
        return None, dataBlock, addr, q, live, l, slots, infos;
      }
    }
    var linked, addresses;
    linked, dataBlock, addresses := LinkData(p, words.value, refs, blocks, contents);
    q, addr := linked, addresses;
    LinkedAlike(p, live, refs, addr);
    assert |linked| == |p| by { AlikeLength(p, linked); }
    AlikeClosure(p, linked, entries, live);
    AlikeSize(p, linked, |p|);
    if enableFlow {
      AlikeChecked(p, linked, entries, dsLimit, rsLimit, infos);
    }
    r, l, slots := Tables(linked, ccode, entries, words.value);
  }

  lemma AlikeLength(p: Program, q: Program)
    requires Alike(p, q)
    ensures |p| == |q|
  {
  }
}
