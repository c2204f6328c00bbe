/** The leak classifier: how often each state occurs per key class, and the states that tell a class from all
    others. Lists of representatives stand for sets of state classes. */
module Tally {
  import opened Ints
  import opened Uarch

  /** A representative and its tally. */
  datatype Entry = Entry(state: State, n: real)

  /** Entries are pairwise inequivalent, and each was seen. */
  ghost predicate Distinct(c: Component, list: seq<Entry>) {
    && (forall i, j :: 0 <= i < j < |list| ==> SigOf(c, list[i].state) != SigOf(c, list[j].state))
    && (forall i :: 0 <= i < |list| ==> list[i].n > 0.0)
  }

  /** The tally of class g. */
  function Lookup(c: Component, list: seq<Entry>, g: Sig): real {
    if list == [] then 0.0
    else if SigOf(c, list[|list| - 1].state) == g then list[|list| - 1].n
    else Lookup(c, list[..|list| - 1], g)
  }

  lemma {:induction false} LookupAt(c: Component, list: seq<Entry>, i: nat)
    requires Distinct(c, list) && i < |list|
    ensures Lookup(c, list, SigOf(c, list[i].state)) == list[i].n
    decreases |list|
  {
    hide SigOf;
    if i < |list| - 1 {
      var rest := list[..|list| - 1];
      assert rest[i] == list[i] && list[|list| - 1] != list[i];
      LookupAt(c, rest, i);
    }
  }

  lemma {:induction false} LookupAbsent(c: Component, list: seq<Entry>, g: Sig)
    requires Distinct(c, list)
    ensures Lookup(c, list, g) == 0.0 <==> forall i :: 0 <= i < |list| ==> SigOf(c, list[i].state) != g
    decreases |list|
  {
    hide SigOf;
    if list != [] {
      var rest, last := list[..|list| - 1], list[|list| - 1];
      LookupAbsent(c, rest, g);
      if SigOf(c, last.state) != g && Lookup(c, list, g) != 0.0 {
        var i :| 0 <= i < |rest| && SigOf(c, rest[i].state) == g;
        assert list[i] == rest[i];
      }
      if SigOf(c, last.state) != g && Lookup(c, list, g) == 0.0 {
        forall i | 0 <= i < |list|
          ensures SigOf(c, list[i].state) != g
        {
          assert i < |rest| ==> list[i] == rest[i];
        }
      }
    }
  }

  /** Changing the tally of one entry changes the tally of its class alone. */
  lemma {:induction false} LookupUpdate(c: Component, list: seq<Entry>, i: nat, n: real, g: Sig)
    requires Distinct(c, list) && i < |list|
    ensures Lookup(c, list[i := list[i].(n := n)], g)
            == if g == SigOf(c, list[i].state) then n else Lookup(c, list, g)
    decreases |list|
  {
    hide SigOf;
    var new' := list[i := list[i].(n := n)];
    var rest := list[..|list| - 1];
    if i < |list| - 1 {
      assert new'[..|list| - 1] == rest[i := rest[i].(n := n)];
      assert SigOf(c, list[i].state) != SigOf(c, list[|list| - 1].state);
      LookupUpdate(c, rest, i, n, g);
    } else {
      assert new'[..|list| - 1] == rest;
    }
  }

  // ----- The tally loops -----

  function States(list: seq<Entry>): (r: seq<State>)
    ensures |r| == |list| && forall i :: 0 <= i < |list| ==> r[i] == list[i].state
  {
    seq(|list|, i requires 0 <= i < |list| => list[i].state)
  }

  /** find_index with compare: the first equivalent state. */
  method FindIndex(c: Component, states: seq<State>, s: State) returns (r: Option<nat>)
    ensures r.None? ==> forall i :: 0 <= i < |states| ==> SigOf(c, states[i]) != SigOf(c, s)
    ensures r.Some? ==> r.value < |states| && SigOf(c, states[r.value]) == SigOf(c, s)
    ensures r.Some? ==> forall i :: 0 <= i < r.value ==> SigOf(c, states[i]) != SigOf(c, s)
  {
    hide Compare, SigOf;
    for i := 0 to |states|
      invariant forall k :: 0 <= k < i ==> SigOf(c, states[k]) != SigOf(c, s)
    {
      CompareIsSameClass(c, states[i], s);
      if Compare(c, states[i], s) {
        return Some(i);
      }
    }
    return None;
  }

  lemma Appended(c: Component, list: seq<Entry>, s: State)
    requires Distinct(c, list) && forall i :: 0 <= i < |list| ==> SigOf(c, list[i].state) != SigOf(c, s)
    ensures Distinct(c, list + [Entry(s, 1.0)])
    ensures forall g :: Lookup(c, list + [Entry(s, 1.0)], g) == Lookup(c, list, g) + if g == SigOf(c, s) then 1.0 else 0.0
  {
    hide SigOf;
    assert (list + [Entry(s, 1.0)])[..|list|] == list;
    LookupAbsent(c, list, SigOf(c, s));
  }

  lemma Incremented(c: Component, list: seq<Entry>, i: nat)
    requires Distinct(c, list) && i < |list|
    ensures var list' := list[i := list[i].(n := list[i].n + 1.0)];
            && Distinct(c, list')
            && forall g :: Lookup(c, list', g) == Lookup(c, list, g) + if g == SigOf(c, list[i].state) then 1.0 else 0.0
  {
    hide SigOf, Lookup;
    LookupAt(c, list, i);
    forall g
      ensures Lookup(c, list[i := list[i].(n := list[i].n + 1.0)], g)
              == Lookup(c, list, g) + if g == SigOf(c, list[i].state) then 1.0 else 0.0
    {
      LookupUpdate(c, list, i, list[i].n + 1.0, g);
    }
  }

  /** Count one more occurrence of a state: increment its entry, or append one. */
  method Bump(c: Component, list: seq<Entry>, s: State) returns (list': seq<Entry>)
    requires Distinct(c, list)
    ensures Distinct(c, list')
    ensures forall g :: Lookup(c, list', g) == Lookup(c, list, g) + if g == SigOf(c, s) then 1.0 else 0.0
    ensures |list| <= |list'|
  {
    hide SigOf, Lookup, Distinct;
    var sidx := FindIndex(c, States(list), s);
    if sidx.None? {
      assert forall i :: 0 <= i < |list| ==> list[i].state == States(list)[i];
      list' := list + [Entry(s, 1.0)];
      Appended(c, list, s);
    } else {
      var i := sidx.value;
      list' := list[i := list[i].(n := list[i].n + 1.0)];
      Incremented(c, list, i);
    }
  }

  predicate Seen(c: Component, loop: seq<State>, g: Sig) {
    exists i :: 0 <= i < |loop| && SigOf(c, loop[i]) == g
  }

  lemma SeenNext(c: Component, loop: seq<State>, i: nat, g: Sig)
    requires i < |loop|
    ensures Seen(c, loop[..i + 1], g) <==> Seen(c, loop[..i], g) || SigOf(c, loop[i]) == g
  {
    hide SigOf;
    if Seen(c, loop[..i + 1], g) {
      var k :| 0 <= k < i + 1 && SigOf(c, loop[..i + 1][k]) == g;
      assert k < i ==> loop[..i][k] == loop[k];
    }
    if Seen(c, loop[..i], g) {
      var k :| 0 <= k < i && SigOf(c, loop[..i][k]) == g;
      assert loop[..i + 1][k] == loop[k];
    }
    assert loop[..i + 1][i] == loop[i];
  }

  /** The first inner loop: the states of one iteration, once each. */
  method UniqueStates(c: Component, loop: seq<State>) returns (uniq: seq<Entry>)
    ensures Distinct(c, uniq)
    ensures forall g :: Lookup(c, uniq, g) > 0.0 <==> Seen(c, loop, g)
    ensures forall g :: Lookup(c, uniq, g) >= 0.0
    ensures loop == [] <==> uniq == []
  {
    hide SigOf, Seen, Lookup;
    uniq := [];
    StartUnique(c, loop);
    for i := 0 to |loop|
      invariant Distinct(c, uniq)
      invariant forall g :: Lookup(c, uniq, g) > 0.0 <==> Seen(c, loop[..i], g)
      invariant forall g :: Lookup(c, uniq, g) >= 0.0
      invariant i == 0 <==> uniq == []
    {
      var before := uniq;
      uniq := Bump(c, uniq, loop[i]);
      forall g
        ensures Lookup(c, uniq, g) > 0.0 <==> Seen(c, loop[..i + 1], g)
      {
        SeenNext(c, loop, i, g);
      }
      if uniq == [] {
        EmptyLookup(c, SigOf(c, loop[i]));
      }
    }
    assert loop[..|loop|] == loop;
  }

  lemma StartUnique(c: Component, loop: seq<State>)
    ensures Distinct(c, []) && forall g :: Lookup(c, [], g) == 0.0 && !Seen(c, loop[..0], g)
  {
  }

  lemma EmptyLookup(c: Component, g: Sig)
    ensures Lookup(c, [], g) == 0.0
  {
  }

  /** The second inner loop: each state of the iteration adds one to the tally of its class. */
  method AddRound(c: Component, list: seq<Entry>, uniq: seq<Entry>) returns (list': seq<Entry>)
    requires Distinct(c, list) && Distinct(c, uniq)
    ensures Distinct(c, list')
    ensures forall g :: Lookup(c, list', g) == Lookup(c, list, g) + if Lookup(c, uniq, g) > 0.0 then 1.0 else 0.0
  {
    hide SigOf, Lookup;
    list' := list;
    EmptyLookups(c, uniq);
    for j := 0 to |uniq|
      invariant Distinct(c, list')
      invariant forall g ::
                  Lookup(c, list', g) == Lookup(c, list, g) + if Lookup(c, uniq[..j], g) > 0.0 then 1.0 else 0.0
    {
      list' := Bump(c, list', uniq[j].state);
      forall g
        ensures Lookup(c, list', g) == Lookup(c, list, g) + if Lookup(c, uniq[..j + 1], g) > 0.0 then 1.0 else 0.0
      {
        LookupNext(c, uniq, j, g);
      }
    }
    assert uniq[..|uniq|] == uniq;
  }

  lemma EmptyLookups(c: Component, list: seq<Entry>)
    ensures forall g :: Lookup(c, list[..0], g) == 0.0
  {
  }

  lemma LookupNext(c: Component, list: seq<Entry>, j: nat, g: Sig)
    requires Distinct(c, list) && j < |list|
    ensures Lookup(c, list[..j + 1], g) == if g == SigOf(c, list[j].state) then list[j].n else Lookup(c, list[..j], g)
    ensures g == SigOf(c, list[j].state) ==> Lookup(c, list[..j], g) == 0.0 && list[j].n > 0.0
  {
    hide SigOf;
    assert list[..j + 1][..j] == list[..j];
    LookupAbsent(c, list[..j], SigOf(c, list[j].state));
  }

  // ----- All iterations -----

  /** The simple count: iterations below n of class d in which a state of class g occurs. */
  function Rounds(c: Component, key: seq<string>, loops: seq<seq<State>>, n: nat, d: string, g: Sig): nat
    requires n <= |loops|
  {
    if n == 0 then 0
    else
      Rounds(c, key, loops, n - 1, d, g) +
      if n - 1 < |key| && key[n - 1] == d && Seen(c, loops[n - 1], g) then 1 else 0
  }

  /** The lists after n iterations hold exactly the simple counts. */
  ghost predicate Tallied(c: Component, key: seq<string>, loops: seq<seq<State>>, n: nat,
                          theta: map<string, seq<Entry>>)
  {
    && n <= |loops| && (forall d :: d in theta <==> d in key)
    && forall d :: d in theta ==>
         Distinct(c, theta[d])
         && forall g :: Lookup(c, theta[d], g) == Rounds(c, key, loops, n, d, g) as real
  }

  /** Iteration idx reads past the end of one of the lists. */
  predicate Missing(key: seq<string>, loops: seq<seq<State>>, idx: nat) {
    idx >= |loops| || (idx >= |key| && loops[idx] != [])
  }

  /** The tally loops for one component; None is an index error. */
  method TallyAll(c: Component, key: seq<string>, loops: seq<seq<State>>, iters: nat)
    returns (r: Option<map<string, seq<Entry>>>)
    ensures r.None? <==> exists idx: nat :: idx < iters && Missing(key, loops, idx)
    ensures r.Some? ==> Tallied(c, key, loops, iters, r.value)
  {
    hide SigOf, Lookup, Seen, Distinct;
    var theta: map<string, seq<Entry>> := map d | d in key :: [];
    StartTallied(c, key, loops, theta);
    for idx := 0 to iters
      invariant forall k: nat :: k < idx ==> !Missing(key, loops, k)
      invariant Tallied(c, key, loops, idx, theta)
    {
      if idx >= |loops| {
        assert Missing(key, loops, idx);
        return None;
      }
      var uniq := UniqueStates(c, loops[idx]);
      if uniq == [] {
        NothingSeen(c, loops[idx]);
      } else {
        if idx >= |key| {
          assert Missing(key, loops, idx);
          return None;
        }
        var list := AddRound(c, theta[key[idx]], uniq);
        theta := theta[key[idx] := list];
      }
    }
    r := Some(theta);
  }

  lemma StartTallied(c: Component, key: seq<string>, loops: seq<seq<State>>, theta: map<string, seq<Entry>>)
    requires forall d :: d in theta <==> d in key
    requires forall d :: d in theta ==> theta[d] == []
    ensures Tallied(c, key, loops, 0, theta)
  {
  }

  lemma NothingSeen(c: Component, loop: seq<State>)
    requires loop == []
    ensures forall g :: !Seen(c, loop, g)
  {
  }

  // ----- Frequencies -----

  function ClassCount(key: seq<string>, d: string): nat {
    multiset(key)[d]
  }

  /** No class is counted more often than it occurs among the keys. */
  lemma {:induction false} RoundsAtMost(c: Component, key: seq<string>, loops: seq<seq<State>>, n: nat, d: string,
                                        g: Sig)
    requires n <= |loops|
    ensures Rounds(c, key, loops, n, d, g) <= multiset(if n <= |key| then key[..n] else key)[d] <= ClassCount(key, d)
  {
    hide SigOf, Seen;
    if n == 0 {
    } else {
      RoundsAtMost(c, key, loops, n - 1, d, g);
      if n <= |key| {
        assert key[..n] == key[..n - 1] + [key[n - 1]];
        assert key == key[..n] + key[n..];
      } else {
        assert key[..|key|] == key;
      }
    }
  }

  /** The tally of a class, divided by the number of its keys. */
  ghost function Frequency(c: Component, key: seq<string>, loops: seq<seq<State>>, n: nat, d: string, g: Sig): real
    requires n <= |loops| && d in key
  {
    Rounds(c, key, loops, n, d, g) as real / ClassCount(key, d) as real
  }

  // ----- What the counts count -----

  /** The numbers below n that f holds of. */
  function Below(n: nat, f: nat -> bool): set<nat> {
    set k: nat | k < n && f(k)
  }

  lemma BelowNext(n: nat, f: nat -> bool)
    ensures |Below(n + 1, f)| == |Below(n, f)| + if f(n) then 1 else 0
  {
    var next, rest := Below(n + 1, f), Below(n, f);
    assert next == rest + if f(n) then {n} else {};
    assert n !in rest;
  }

  /** The iterations of class d. */
  function OfClass(key: seq<string>, d: string): nat -> bool {
    (k: nat) => k < |key| && key[k] == d
  }

  /** Those in which a state of class g occurs. */
  function Occurs(c: Component, key: seq<string>, loops: seq<seq<State>>, d: string, g: Sig): nat -> bool {
    (k: nat) => k < |key| && k < |loops| && key[k] == d && Seen(c, loops[k], g)
  }

  lemma {:induction false} RoundsCount(c: Component, key: seq<string>, loops: seq<seq<State>>, n: nat, d: string,
                                       g: Sig)
    requires n <= |loops|
    ensures Rounds(c, key, loops, n, d, g) == |Below(n, Occurs(c, key, loops, d, g))|
  {
    hide Below, Seen;
    if n > 0 {
      RoundsCount(c, key, loops, n - 1, d, g);
      BelowNext(n - 1, Occurs(c, key, loops, d, g));
    } else {
      NoneBelow(Occurs(c, key, loops, d, g));
    }
  }

  lemma NoneBelow(f: nat -> bool)
    ensures |Below(0, f)| == 0
  {
    assert Below(0, f) == {};
  }

  lemma {:induction false} KeysCount(key: seq<string>, n: nat, d: string)
    requires n <= |key|
    ensures multiset(key[..n])[d] == |Below(n, OfClass(key, d))|
  {
    hide Below;
    if n > 0 {
      KeysCount(key, n - 1, d);
      assert key[..n] == key[..n - 1] + [key[n - 1]];
      BelowNext(n - 1, OfClass(key, d));
    } else {
      NoneBelow(OfClass(key, d));
    }
  }

  /** A frequency is the share of the iterations of the class, all of them recorded, in which the state occurs; it is 1
      exactly if the state occurs in every one of them. */
  lemma FrequencyIsShare(c: Component, key: seq<string>, loops: seq<seq<State>>, n: nat, d: string, g: Sig)
    requires |key| <= n <= |loops| && d in key
    ensures var all, seen := Below(|key|, OfClass(key, d)), Below(n, Occurs(c, key, loops, d, g));
            && |all| > 0 && Frequency(c, key, loops, n, d, g) == |seen| as real / |all| as real
            && (Frequency(c, key, loops, n, d, g) == 1.0 <==>
                 forall k :: 0 <= k < |key| && key[k] == d ==> Seen(c, loops[k], g))
  {
    RoundsCount(c, key, loops, n, d, g);
    KeysCount(key, |key|, d);
    assert key[..|key|] == key;
    ShareOfAll(c, key, loops, n, d, g);
    hide Seen, Rounds, Below;
    IsOne(|Below(n, Occurs(c, key, loops, d, g))|, |Below(|key|, OfClass(key, d))|);
  }

  lemma ShareOfAll(c: Component, key: seq<string>, loops: seq<seq<State>>, n: nat, d: string, g: Sig)
    requires |key| <= n <= |loops| && d in key
    ensures var all, seen := Below(|key|, OfClass(key, d)), Below(n, Occurs(c, key, loops, d, g));
            && |all| > 0
            && (|seen| == |all| <==> forall k :: 0 <= k < |key| && key[k] == d ==> Seen(c, loops[k], g))
  {
    hide Seen;
    var all, seen := Below(|key|, OfClass(key, d)), Below(n, Occurs(c, key, loops, d, g));
    assert seen <= all;
    var k0: nat :| k0 < |key| && key[k0] == d;
    assert k0 in all;
    SubsetSize(seen, all);
    if seen == all {
      forall k | 0 <= k < |key| && key[k] == d
        ensures Seen(c, loops[k], g)
      {
        assert k in all;
      }
    }
  }

  lemma {:induction false} SubsetSize(a: set<nat>, b: set<nat>)
    requires a <= b
    ensures |a| <= |b| && (|a| == |b| <==> a == b)
  {
    var rest := b - a;
    assert b == a + rest;
    assert |b| == |a| + |rest|;
  }

  lemma IsOne(a: nat, b: nat)
    requires b > 0
    ensures a as real / b as real == 1.0 <==> a == b
  {
  }

  /** The class counts of the distinct keys. */
  function CountsOf(key: seq<string>, classes: seq<string>): nat {
    if classes == [] then 0 else CountsOf(key, classes[1..]) + ClassCount(key, classes[0])
  }

  /** They add up to the number of iterations. */
  lemma {:induction false} CountsAddUp(key: seq<string>, classes: seq<string>)
    requires forall i, j :: 0 <= i < j < |classes| ==> classes[i] != classes[j]
    requires forall d :: d in key ==> d in classes
    ensures CountsOf(key, classes) == |key|
    decreases |key|
  {
    if key == [] {
      NoKeys(classes);
    } else {
      var rest, d := key[..|key| - 1], key[|key| - 1];
      assert key == rest + [d];
      CountsAddUp(rest, classes);
      OneMore(rest, d, classes);
    }
  }

  lemma {:induction false} NoKeys(classes: seq<string>)
    ensures CountsOf([], classes) == 0
  {
    if classes != [] {
      NoKeys(classes[1..]);
    }
  }

  lemma {:induction false} OneMore(key: seq<string>, d: string, classes: seq<string>)
    requires forall i, j :: 0 <= i < j < |classes| ==> classes[i] != classes[j]
    ensures CountsOf(key + [d], classes) == CountsOf(key, classes) + if d in classes then 1 else 0
  {
    if classes != [] {
      OneMore(key, d, classes[1..]);
      assert d in classes <==> d == classes[0] || d in classes[1..];
    }
  }

  /** The list of key class d holds its frequencies. */
  ghost predicate HasFrequencies(c: Component, key: seq<string>, loops: seq<seq<State>>, n: nat, d: string,
                                 list: seq<Entry>)
    requires n <= |loops| && d in key
  {
    forall g :: Lookup(c, list, g) == Frequency(c, key, loops, n, d, g)
  }

  /** The lists hold exactly the frequencies. */
  ghost predicate Normalized(c: Component, key: seq<string>, loops: seq<seq<State>>, n: nat,
                             theta: map<string, seq<Entry>>)
  {
    && n <= |loops| && (forall d :: d in theta <==> d in key)
    && forall d :: d in theta ==> Distinct(c, theta[d]) && HasFrequencies(c, key, loops, n, d, theta[d])
  }

  lemma TallyNormalized(c: Component, key: seq<string>, loops: seq<seq<State>>, n: nat, d: string,
                        counts: map<string, seq<Entry>>, list: seq<Entry>)
    requires Tallied(c, key, loops, n, counts) && d in key
    requires forall g :: Lookup(c, list, g) == Lookup(c, counts[d], g) / ClassCount(key, d) as real
    ensures n <= |loops| && HasFrequencies(c, key, loops, n, d, list)
  {
    hide SigOf, Lookup, Rounds, Distinct;
  }

  /** The normalisation loop, for one class. */
  method Normalize(c: Component, list: seq<Entry>, cnt: nat) returns (list': seq<Entry>)
    requires Distinct(c, list) && cnt > 0
    ensures Distinct(c, list')
    ensures forall g :: Lookup(c, list', g) == Lookup(c, list, g) / cnt as real
  {
    hide SigOf, Lookup;
    list' := [];
    EmptyLookups(c, list);
    assert list[..0] == [];
    for i := 0 to |list|
      invariant |list'| == i
      invariant forall k :: 0 <= k < i ==> list'[k].state == list[k].state && list'[k].n > 0.0
      invariant forall g :: Lookup(c, list', g) == Lookup(c, list[..i], g) / cnt as real
    {
      var e := Entry(list[i].state, list[i].n / cnt as real);
      Quotient(list[i].n, cnt as real);
      forall g
        ensures Lookup(c, list' + [e], g) == Lookup(c, list[..i + 1], g) / cnt as real
      {
        LookupAppend(c, list', e, g);
        LookupNext(c, list, i, g);
      }
      list' := list' + [e];
    }
    assert list[..|list|] == list;
  }

  lemma Quotient(a: real, b: real)
    requires a > 0.0 && b > 0.0
    ensures a / b > 0.0
  {
  }

  lemma LookupAppend(c: Component, list: seq<Entry>, e: Entry, g: Sig)
    ensures Lookup(c, list + [e], g) == if SigOf(c, e.state) == g then e.n else Lookup(c, list, g)
  {
    assert (list + [e])[..|list|] == list;
  }

  /** Every stored frequency lies in (0, 1]. */
  lemma FrequencyRange(c: Component, key: seq<string>, loops: seq<seq<State>>, n: nat, theta: map<string, seq<Entry>>,
                       d: string, i: nat)
    requires Normalized(c, key, loops, n, theta) && d in theta && i < |theta[d]|
    ensures var e := theta[d][i];
            && e.n == Frequency(c, key, loops, n, d, SigOf(c, e.state))
            && 0.0 < e.n <= 1.0
  {
    hide SigOf, Lookup, Rounds;
    LookupAt(c, theta[d], i);
    var g := SigOf(c, theta[d][i].state);
    RoundsAtMost(c, key, loops, n, d, g);
    AtMostOne(Rounds(c, key, loops, n, d, g), ClassCount(key, d));
  }

  lemma AtMostOne(a: nat, b: nat)
    requires a <= b && b > 0
    ensures a as real / b as real <= 1.0
  {
  }

  /** A class of states has an entry for key class d exactly if one of its states occurred there. */
  lemma EntryIffSeen(c: Component, key: seq<string>, loops: seq<seq<State>>, n: nat, theta: map<string, seq<Entry>>,
                     d: string, g: Sig)
    requires Normalized(c, key, loops, n, theta) && d in theta
    ensures (exists i :: 0 <= i < |theta[d]| && SigOf(c, theta[d][i].state) == g)
            <==> exists k :: 0 <= k < n && k < |key| && key[k] == d && Seen(c, loops[k], g)
  {
    hide SigOf, Lookup, Seen;
    LookupAbsent(c, theta[d], g);
    RoundsPositive(c, key, loops, n, d, g);
    NotZero(Rounds(c, key, loops, n, d, g), ClassCount(key, d));
  }

  lemma NotZero(a: nat, b: nat)
    requires b > 0
    ensures a as real / b as real == 0.0 <==> a == 0
  {
  }

  lemma {:induction false} RoundsPositive(c: Component, key: seq<string>, loops: seq<seq<State>>, n: nat, d: string,
                                          g: Sig)
    requires n <= |loops|
    ensures Rounds(c, key, loops, n, d, g) > 0
            <==> exists k :: 0 <= k < n && k < |key| && key[k] == d && Seen(c, loops[k], g)
  {
    hide Seen;
    if n > 0 {
      RoundsPositive(c, key, loops, n - 1, d, g);
    }
  }

  /** The first i classes are normalized, the others as they were tallied. */
  ghost predicate NormalizedTo(c: Component, key: seq<string>, loops: seq<seq<State>>, n: nat, classes: seq<string>,
                               i: nat, counts: map<string, seq<Entry>>, theta: map<string, seq<Entry>>)
  {
    && n <= |loops| && i <= |classes| && (forall d :: d in theta <==> d in key)
    && (forall d :: d in key ==> d in counts && Distinct(c, theta[d]))
    && (forall d :: d in key && d !in classes[..i] ==> theta[d] == counts[d])
    && forall d :: d in key && d in classes[..i] ==> HasFrequencies(c, key, loops, n, d, theta[d])
  }

  lemma NormalizedNext(c: Component, key: seq<string>, loops: seq<seq<State>>, n: nat, classes: seq<string>, i: nat,
                       counts: map<string, seq<Entry>>, theta: map<string, seq<Entry>>, list: seq<Entry>)
    requires i < |classes| && classes[i] in key && classes[i] !in classes[..i]
    requires NormalizedTo(c, key, loops, n, classes, i, counts, theta) && Distinct(c, list)
    requires HasFrequencies(c, key, loops, n, classes[i], list)
    ensures NormalizedTo(c, key, loops, n, classes, i + 1, counts, theta[classes[i] := list])
  {
    hide HasFrequencies, Distinct;
    assert classes[..i + 1] == classes[..i] + [classes[i]];
  }

  lemma NormalizedAll(c: Component, key: seq<string>, loops: seq<seq<State>>, n: nat, classes: seq<string>,
                      counts: map<string, seq<Entry>>, theta: map<string, seq<Entry>>)
    requires forall d :: d in classes <==> d in key
    ensures Tallied(c, key, loops, n, counts) ==> NormalizedTo(c, key, loops, n, classes, 0, counts, counts)
    ensures NormalizedTo(c, key, loops, n, classes, |classes|, counts, theta) ==> Normalized(c, key, loops, n, theta)
  {
    hide HasFrequencies, Distinct, Lookup, Rounds;
    assert classes[..|classes|] == classes;
  }

  /** The list of the next class is the tallied one. */
  lemma NextList(c: Component, key: seq<string>, loops: seq<seq<State>>, n: nat, classes: seq<string>, i: nat,
                 counts: map<string, seq<Entry>>, theta: map<string, seq<Entry>>)
    requires NormalizedTo(c, key, loops, n, classes, i, counts, theta) && i < |classes| && classes[i] in key
    requires forall k :: 0 <= k < i ==> classes[k] != classes[i]
    ensures classes[i] !in classes[..i] && classes[i] in theta && classes[i] in counts
    ensures theta[classes[i]] == counts[classes[i]] && Distinct(c, theta[classes[i]])
  {
    hide HasFrequencies, Distinct;
  }

  /** All loops for one component, up to the call of uarch_diff. */
  method Frequencies(c: Component, key: seq<string>, loops: seq<seq<State>>, iters: nat)
    returns (r: Option<map<string, seq<Entry>>>)
    ensures r.None? <==> exists idx: nat :: idx < iters && Missing(key, loops, idx)
    ensures r.Some? ==> Normalized(c, key, loops, iters, r.value)
  {
    hide SigOf, Lookup, Distinct, Missing, HasFrequencies, Tallied, Normalized, NormalizedTo;
    r := TallyAll(c, key, loops, iters);
    if r.None? {
      return;
    }
    var counts, theta := r.value, r.value;
    var classes := Classes(key);
    NormalizedAll(c, key, loops, iters, classes, counts, theta);
    for i := 0 to |classes|
      invariant NormalizedTo(c, key, loops, iters, classes, i, counts, theta)
    {
      var d := classes[i];
      assert d in classes;
      NextList(c, key, loops, iters, classes, i, counts, theta);
      var list := Normalize(c, theta[d], ClassCount(key, d));
      TallyNormalized(c, key, loops, iters, d, counts, list);
      NormalizedNext(c, key, loops, iters, classes, i, counts, theta, list);
      theta := theta[d := list];
    }
    NormalizedAll(c, key, loops, iters, classes, counts, theta);
    r := Some(theta);
  }

  /** The keys of a dictionary built from the list of keys, in order of first occurrence. */
  method Classes(key: seq<string>) returns (classes: seq<string>)
    ensures forall d :: d in classes <==> d in key
    ensures forall i, j :: 0 <= i < j < |classes| ==> classes[i] != classes[j]
  {
    classes := [];
    for i := 0 to |key|
      invariant forall d :: d in classes <==> d in key[..i]
      invariant forall i, j :: 0 <= i < j < |classes| ==> classes[i] != classes[j]
    {
      assert key[..i + 1] == key[..i] + [key[i]];
      if key[i] !in classes {
        classes := classes + [key[i]];
      }
    }
    assert key[..|key|] == key;
  }
}
