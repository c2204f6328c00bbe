/** uarch_diff: the states whose frequency tells one key class from all others. */
module Candidates {
  import opened Ints
  import opened Uarch
  import opened Tally

  // ----- Selection among the frequencies of one state -----

  type Freq = (string, real)

  /** The selection loop from a candidate and a flag on. */
  function Chosen(freqs: seq<Freq>, phi: real, alpha: real, candidate: Option<Freq>, violation: bool): Option<Freq> {
    if freqs == [] then candidate
    else
      var freq := freqs[0];
      if candidate.Some? && freq.1 >= alpha then None
      else if freq.1 >= phi && !violation then Chosen(freqs[1..], phi, alpha, Some(freq), violation)
      else Chosen(freqs[1..], phi, alpha, candidate, violation || freq.1 >= alpha)
  }

  method Select(freqs: seq<Freq>, phi: real, alpha: real) returns (candidate: Option<Freq>)
    ensures candidate == Chosen(freqs, phi, alpha, None, false)
  {
    candidate := None;
    var violation := false;
    for j := 0 to |freqs|
      invariant Chosen(freqs, phi, alpha, None, false) == Chosen(freqs[j..], phi, alpha, candidate, violation)
    {
      var freq := freqs[j];
      assert freqs[j..][1..] == freqs[j + 1..];
      if candidate.Some? && freq.1 >= alpha {
        return None;
      } else if freq.1 >= phi && !violation {
        candidate := Some(freq);
      } else if freq.1 >= alpha {
        violation := true;
      }
    }
  }

  /** The frequency of class k is at least phi, and all others are below alpha. */
  predicate Only(freqs: seq<Freq>, phi: real, alpha: real, k: nat) {
    && k < |freqs| && freqs[k].1 >= phi
    && forall i :: 0 <= i < |freqs| && i != k ==> freqs[i].1 < alpha
  }

  predicate Between(freqs: seq<Freq>, phi: real, alpha: real, k: nat) {
    k < |freqs| && alpha <= freqs[k].1 < phi
  }

  /** What the two variables say about the frequencies seen so far. */
  ghost predicate LoopInv(seen: seq<Freq>, phi: real, alpha: real, candidate: Option<Freq>, violation: bool) {
    if candidate.Some? then !violation && exists k: nat :: Only(seen, phi, alpha, k) && seen[k] == candidate.value
    else if violation then exists k: nat :: Between(seen, phi, alpha, k)
    else forall i :: 0 <= i < |seen| ==> seen[i].1 < alpha
  }

  lemma LoopInvNext(seen: seq<Freq>, freq: Freq, phi: real, alpha: real, candidate: Option<Freq>, violation: bool)
    requires alpha <= phi && LoopInv(seen, phi, alpha, candidate, violation)
    requires !(candidate.Some? && freq.1 >= alpha)
    ensures if freq.1 >= phi && !violation then LoopInv(seen + [freq], phi, alpha, Some(freq), violation)
            else LoopInv(seen + [freq], phi, alpha, candidate, violation || freq.1 >= alpha)
  {
    var all := seen + [freq];
    if candidate.Some? {
      var k: nat :| Only(seen, phi, alpha, k) && seen[k] == candidate.value;
      assert Only(all, phi, alpha, k) && all[k] == candidate.value;
    } else if violation {
      var k: nat :| Between(seen, phi, alpha, k);
      assert Between(all, phi, alpha, k);
    } else if freq.1 >= phi {
      assert Only(all, phi, alpha, |seen|) && all[|seen|] == freq;
    } else if freq.1 >= alpha {
      assert Between(all, phi, alpha, |seen|);
    }
  }

  lemma {:induction false} ChosenFrom(seen: seq<Freq>, freqs: seq<Freq>, phi: real, alpha: real,
                                      candidate: Option<Freq>, violation: bool)
    requires alpha <= phi && LoopInv(seen, phi, alpha, candidate, violation)
    ensures var r := Chosen(freqs, phi, alpha, candidate, violation);
            && (r.None? ==> forall k: nat :: !Only(seen + freqs, phi, alpha, k))
            && (r.Some? ==> exists k: nat :: Only(seen + freqs, phi, alpha, k) && (seen + freqs)[k] == r.value)
    decreases |freqs|
  {
    if freqs == [] {
      assert seen + freqs == seen;
      if candidate.None? {
        NoOther(seen, phi, alpha, candidate, violation);
      }
    } else {
      var freq := freqs[0];
      if candidate.Some? && freq.1 >= alpha {
        var k: nat :| Only(seen, phi, alpha, k) && seen[k] == candidate.value;
        assert (seen + freqs)[k] == seen[k] && (seen + freqs)[|seen|] == freq;
      } else {
        LoopInvNext(seen, freq, phi, alpha, candidate, violation);
        assert seen + freqs == (seen + [freq]) + freqs[1..];
        if freq.1 >= phi && !violation {
          ChosenFrom(seen + [freq], freqs[1..], phi, alpha, Some(freq), violation);
        } else {
          ChosenFrom(seen + [freq], freqs[1..], phi, alpha, candidate, violation || freq.1 >= alpha);
        }
      }
    }
  }

  lemma NoOther(seen: seq<Freq>, phi: real, alpha: real, candidate: Option<Freq>, violation: bool)
    requires alpha <= phi && LoopInv(seen, phi, alpha, candidate, violation) && candidate.None?
    ensures forall k: nat :: !Only(seen, phi, alpha, k)
  {
    if violation {
      var k: nat :| Between(seen, phi, alpha, k);
    }
  }

  /** Frequency k is the last one of at least phi, and none behind the first of these is at least alpha. */
  predicate LastOf(freqs: seq<Freq>, phi: real, alpha: real, k: nat) {
    && k < |freqs| && freqs[k].1 >= phi && (forall i :: k < i < |freqs| ==> freqs[i].1 < phi)
    && forall i, j :: 0 <= i < j < |freqs| && freqs[i].1 >= phi ==> freqs[j].1 < alpha
  }

  /** The loop has met no frequency of at least phi yet (k is |seen|), or holds the last one of them. */
  lemma {:induction false} LastFrom(seen: seq<Freq>, freqs: seq<Freq>, phi: real, alpha: real, k: nat)
    requires phi < alpha
    requires LastOf(seen, phi, alpha, k) || (k == |seen| && forall i :: 0 <= i < |seen| ==> seen[i].1 < phi)
    ensures var r := Chosen(freqs, phi, alpha, if k < |seen| then Some(seen[k]) else None, false);
            && (r.None? ==> forall m: nat :: !LastOf(seen + freqs, phi, alpha, m))
            && (r.Some? ==> exists m: nat :: LastOf(seen + freqs, phi, alpha, m) && r.value == (seen + freqs)[m])
    decreases |freqs|
  {
    if freqs == [] {
      assert seen + freqs == seen;
    } else {
      var freq, next := freqs[0], seen + [freqs[0]];
      assert seen + freqs == next + freqs[1..];
      if k < |seen| && freq.1 >= alpha {
        assert (seen + freqs)[k] == seen[k] && (seen + freqs)[|seen|] == freq;
      } else if freq.1 >= phi {
        assert LastOf(next, phi, alpha, |seen|);
        LastFrom(next, freqs[1..], phi, alpha, |seen|);
      } else if k < |seen| {
        assert LastOf(next, phi, alpha, k);
        LastFrom(next, freqs[1..], phi, alpha, k);
      } else {
        LastFrom(next, freqs[1..], phi, alpha, k + 1);
      }
    }
  }

  /** For phi < alpha the loop finds this frequency, if there is one. */
  lemma ChosenIsLast(freqs: seq<Freq>, phi: real, alpha: real)
    requires phi < alpha
    ensures var r := Chosen(freqs, phi, alpha, None, false);
            && (r.None? ==> forall k: nat :: !LastOf(freqs, phi, alpha, k))
            && (r.Some? ==> exists k: nat :: LastOf(freqs, phi, alpha, k) && r.value == freqs[k])
  {
    LastFrom([], freqs, phi, alpha, 0);
    assert [] + freqs == freqs;
  }

  /** For alpha <= phi the loop finds the class that stands out, if there is one, in whatever order they come. */
  lemma ChosenIsOnly(freqs: seq<Freq>, phi: real, alpha: real)
    requires alpha <= phi
    ensures var r := Chosen(freqs, phi, alpha, None, false);
            && (r.Some? <==> exists k: nat :: Only(freqs, phi, alpha, k))
            && (r.Some? ==> exists k: nat :: Only(freqs, phi, alpha, k) && freqs[k] == r.value)
  {
    ChosenFrom([], freqs, phi, alpha, None, false);
    assert [] + freqs == freqs;
  }

  /** For phi < alpha it does not: two classes with frequency phi are both candidates, and the later one wins. */
  lemma OrderMatters(phi: real, alpha: real, a: string, b: string)
    requires phi < alpha
    ensures Chosen([(a, phi), (b, phi)], phi, alpha, None, false) == Some((b, phi))
    ensures Chosen([(b, phi), (a, phi)], phi, alpha, None, false) == Some((a, phi))
  {
    LaterWins(phi, alpha, a, b);
    LaterWins(phi, alpha, b, a);
  }

  lemma LaterWins(phi: real, alpha: real, a: string, b: string)
    requires phi < alpha
    ensures Chosen([(a, phi), (b, phi)], phi, alpha, None, false) == Some((b, phi))
  {
    var first, second: Freq := (a, phi), (b, phi);
    assert [first, second][1..] == [second] && [second][1..] == [];
    assert Chosen([first, second], phi, alpha, None, false) == Chosen([second], phi, alpha, Some(first), false)
        == Chosen([], phi, alpha, Some(second), false);
  }

  // ----- The states of all classes -----

  predicate Apart(c: Component, states: seq<State>) {
    forall i, j :: 0 <= i < j < |states| ==> SigOf(c, states[i]) != SigOf(c, states[j])
  }

  ghost predicate AllDistinct(c: Component, classes: seq<string>, theta: map<string, seq<Entry>>) {
    && (forall d :: d in classes ==> d in theta && Distinct(c, theta[d]))
    && forall i, j :: 0 <= i < j < |classes| ==> classes[i] != classes[j]
  }

  /** States of class g occur under one of the first n key classes. */
  predicate Occurs(c: Component, classes: seq<string>, theta: map<string, seq<Entry>>, n: nat, g: Sig)
    requires n <= |classes| && forall d :: d in classes ==> d in theta
  {
    exists i :: 0 <= i < n && Seen(c, States(theta[classes[i]]), g)
  }

  /** The states of list that are not represented yet. */
  method AddStates(c: Component, states: seq<State>, list: seq<Entry>) returns (states': seq<State>)
    requires Apart(c, states)
    ensures Apart(c, states')
    ensures forall g :: Seen(c, states', g) <==> Seen(c, states, g) || Seen(c, States(list), g)
  {
    hide SigOf;
    states' := states;
    var more := States(list);
    for i := 0 to |list|
      invariant Apart(c, states')
      invariant forall g :: Seen(c, states', g) <==> Seen(c, states, g) || Seen(c, more[..i], g)
    {
      var sidx := FindIndex(c, states', list[i].state);
      forall g
        ensures Seen(c, more[..i + 1], g) <==> Seen(c, more[..i], g) || SigOf(c, list[i].state) == g
        ensures Seen(c, states' + [list[i].state], g) <==> Seen(c, states', g) || SigOf(c, list[i].state) == g
      {
        SeenNext(c, more, i, g);
        var longer := states' + [list[i].state];
        assert longer[..|states'|] == states' && longer[..|states'| + 1] == longer;
        SeenNext(c, longer, |states'|, g);
      }
      if sidx.None? {
        states' := states' + [list[i].state];
      }
    }
    assert more[..|list|] == more;
  }

  /** The first loops of uarch_diff: the states of the first class, then those of the others that are new. */
  method CollectStates(c: Component, classes: seq<string>, theta: map<string, seq<Entry>>) returns (states: seq<State>)
    requires classes != [] && AllDistinct(c, classes, theta)
    ensures Apart(c, states)
    ensures forall g :: Seen(c, states, g) <==> Occurs(c, classes, theta, |classes|, g)
  {
    hide SigOf, Seen;
    assert classes[0] in classes;
    states := States(theta[classes[0]]);
    for i := 1 to |classes|
      invariant Apart(c, states)
      invariant forall g :: Seen(c, states, g) <==> Occurs(c, classes, theta, i, g)
    {
      assert classes[i] in classes;
      states := AddStates(c, states, theta[classes[i]]);
    }
  }

  // ----- The frequencies of a state, and the result -----

  /** The frequencies of class g, for each key class in order. */
  ghost predicate StatsOf(c: Component, classes: seq<string>, theta: map<string, seq<Entry>>, g: Sig, freqs: seq<Freq>)
    requires forall d :: d in classes ==> d in theta
  {
    |freqs| == |classes| && forall i :: 0 <= i < |classes| ==> freqs[i] == (classes[i], Lookup(c, theta[classes[i]], g))
  }

  method Stats(c: Component, classes: seq<string>, theta: map<string, seq<Entry>>, s: State) returns (freqs: seq<Freq>)
    requires AllDistinct(c, classes, theta)
    ensures StatsOf(c, classes, theta, SigOf(c, s), freqs)
  {
    hide SigOf, Lookup;
    freqs := [];
    for i := 0 to |classes|
      invariant |freqs| == i
      invariant forall k :: 0 <= k < i ==> freqs[k] == (classes[k], Lookup(c, theta[classes[k]], SigOf(c, s)))
    {
      var d := classes[i];
      assert d in classes;
      var sidx := FindIndex(c, States(theta[d]), s);
      if sidx.None? {
        LookupAbsent(c, theta[d], SigOf(c, s));
        freqs := freqs + [(d, 0.0)];
      } else {
        LookupAt(c, theta[d], sidx.value);
        freqs := freqs + [(d, theta[d][sidx.value].n)];
      }
    }
  }

  function ClassSet(classes: seq<string>): set<string> {
    set e | e in classes
  }

  /** Key class d stands out for class g: this mentions neither the order of the key classes nor representatives. */
  ghost predicate Tells(c: Component, classes: set<string>, freq: (string, Sig) -> real, phi: real, alpha: real,
                        d: string, g: Sig) {
    && d in classes && freq(d, g) >= phi
    && forall e :: e in classes && e != d ==> freq(e, g) < alpha
  }

  ghost function FreqOf(c: Component, theta: map<string, seq<Entry>>): (string, Sig) -> real {
    (d: string, g: Sig) => if d in theta then Lookup(c, theta[d], g) else 0.0
  }

  lemma OnlyTells(c: Component, classes: seq<string>, theta: map<string, seq<Entry>>, phi: real, alpha: real,
                  g: Sig, freqs: seq<Freq>, d: string)
    requires AllDistinct(c, classes, theta) && StatsOf(c, classes, theta, g, freqs)
    ensures Tells(c, ClassSet(classes), FreqOf(c, theta), phi, alpha, d, g)
            <==> exists k: nat :: Only(freqs, phi, alpha, k) && freqs[k].0 == d
  {
    hide Lookup, SigOf, Distinct;
    var f := FreqOf(c, theta);
    if k: nat :| Only(freqs, phi, alpha, k) && freqs[k].0 == d {
      assert classes[k] in classes;
      forall e | e in classes && e != d
        ensures f(e, g) < alpha
      {
        var i :| 0 <= i < |classes| && classes[i] == e;
        assert freqs[i].1 < alpha;
      }
    }
    if Tells(c, ClassSet(classes), f, phi, alpha, d, g) {
      var k: nat :| k < |classes| && classes[k] == d;
      forall i | 0 <= i < |freqs| && i != k
        ensures freqs[i].1 < alpha
      {
        assert classes[i] in classes && classes[i] != d;
        assert f(classes[i], g) < alpha;
      }
      assert Only(freqs, phi, alpha, k);
    }
  }

  /** The result has an entry for class g, labelled d. */
  predicate Listed(c: Component, diff: seq<(string, State)>, d: string, g: Sig) {
    exists i :: 0 <= i < |diff| && diff[i].0 == d && SigOf(c, diff[i].1) == g
  }

  lemma ListedAppend(c: Component, diff: seq<(string, State)>, e: (string, State), d: string, g: Sig)
    ensures Listed(c, diff + [e], d, g) <==> Listed(c, diff, d, g) || (d == e.0 && g == SigOf(c, e.1))
  {
    hide SigOf;
    var all := diff + [e];
    assert all[|diff|] == e && forall i :: 0 <= i < |diff| ==> all[i] == diff[i];
  }

  predicate EntriesApart(c: Component, diff: seq<(string, State)>) {
    forall i, j :: 0 <= i < j < |diff| ==> SigOf(c, diff[i].1) != SigOf(c, diff[j].1)
  }

  /** The selection loop of uarch_diff, for the states in hand. */
  method Differences(c: Component, classes: seq<string>, theta: map<string, seq<Entry>>, phi: real, alpha: real,
                     states: seq<State>) returns (diff: seq<(string, State)>)
    requires AllDistinct(c, classes, theta) && Apart(c, states)
    ensures alpha <= phi ==> EntriesApart(c, diff) && forall d, g ::
              Listed(c, diff, d, g) <==> Seen(c, states, g) && Tells(c, ClassSet(classes), FreqOf(c, theta), phi, alpha, d, g)
  {
    hide SigOf, Tells, Listed, Lookup, AllDistinct, StatsOf, Chosen, Seen, Only, ClassSet, FreqOf;
    diff := [];
    NothingListed(c, states, diff);
    for j := 0 to |states|
      invariant alpha <= phi ==> EntriesApart(c, diff)
      invariant alpha <= phi ==> forall i :: 0 <= i < |diff| ==> Seen(c, states[..j], SigOf(c, diff[i].1))
      invariant alpha <= phi ==> forall d, g ::
                  Listed(c, diff, d, g)
                  <==> Seen(c, states[..j], g) && Tells(c, ClassSet(classes), FreqOf(c, theta), phi, alpha, d, g)
    {
      var freqs := Stats(c, classes, theta, states[j]);
      var candidate := Select(freqs, phi, alpha);
      if alpha <= phi {
        NewState(c, states, j);
        forall g {
          SeenNext(c, states, j, g);
        }
        Verdict(c, classes, theta, phi, alpha, SigOf(c, states[j]), freqs, candidate);
        if candidate.Some? {
          forall d, g {
            ListedAppend(c, diff, (candidate.value.0, states[j]), d, g);
          }
        }
      }
      if candidate.Some? {
        diff := diff + [(candidate.value.0, states[j])];
      }
    }
    assert states[..|states|] == states;
  }

  lemma NothingListed(c: Component, states: seq<State>, diff: seq<(string, State)>)
    requires diff == []
    ensures forall d, g :: !Listed(c, diff, d, g)
    ensures forall g :: !Seen(c, states[..0], g)
  {
  }

  lemma NewState(c: Component, states: seq<State>, j: nat)
    requires Apart(c, states) && j < |states|
    ensures !Seen(c, states[..j], SigOf(c, states[j]))
  {
  }

  /** The candidate is the one label that tells. */
  lemma Verdict(c: Component, classes: seq<string>, theta: map<string, seq<Entry>>, phi: real, alpha: real,
                g: Sig, freqs: seq<Freq>, candidate: Option<Freq>)
    requires AllDistinct(c, classes, theta) && StatsOf(c, classes, theta, g, freqs) && alpha <= phi
    requires candidate == Chosen(freqs, phi, alpha, None, false)
    ensures forall d :: Tells(c, ClassSet(classes), FreqOf(c, theta), phi, alpha, d, g)
              <==> candidate.Some? && candidate.value.0 == d
  {
    hide SigOf, Tells, Lookup, AllDistinct, StatsOf, Chosen, ClassSet, FreqOf;
    ChosenIsOnly(freqs, phi, alpha);
    forall d
      ensures Tells(c, ClassSet(classes), FreqOf(c, theta), phi, alpha, d, g)
              <==> candidate.Some? && candidate.value.0 == d
    {
      OnlyTells(c, classes, theta, phi, alpha, g, freqs, d);
      forall k: nat, l: nat | Only(freqs, phi, alpha, k) && Only(freqs, phi, alpha, l)
        ensures k == l
      {
      }
    }
  }

  /** uarch_diff; None is the index error for an empty dictionary. For alpha <= phi it returns one entry for each
      class of states that occurs and tells a key class from all others, labelled with that key class. */
  method UarchDiff(c: Component, classes: seq<string>, theta: map<string, seq<Entry>>, phi: real, alpha: real)
    returns (r: Option<seq<(string, State)>>)
    requires AllDistinct(c, classes, theta)
    ensures r.None? <==> classes == []
    ensures r.Some? && alpha <= phi ==> EntriesApart(c, r.value) && forall d, g ::
              Listed(c, r.value, d, g)
              <==> Occurs(c, classes, theta, |classes|, g)
                   && Tells(c, ClassSet(classes), FreqOf(c, theta), phi, alpha, d, g)
  {
    hide SigOf, Tells, Listed, Lookup, Seen, ClassSet, FreqOf;
    if classes == [] {
      return None;
    }
    var states := CollectStates(c, classes, theta);
    var diff := Differences(c, classes, theta, phi, alpha, states);
    r := Some(diff);
  }

  // ----- The whole classifier -----

  /** The frequency of class g under key class d, straight from the samples. */
  ghost function SampleFreq(c: Component, key: seq<string>, loops: seq<seq<State>>, n: nat): (string, Sig) -> real
    requires n <= |loops|
  {
    (d: string, g: Sig) requires n <= |loops| => if d in key then Frequency(c, key, loops, n, d, g) else 0.0
  }

  /** States of class g occur in one of the first n iterations. */
  predicate Sampled(c: Component, key: seq<string>, loops: seq<seq<State>>, n: nat, g: Sig)
    requires n <= |loops|
  {
    exists k :: 0 <= k < n && k < |key| && Seen(c, loops[k], g)
  }

  /** From samples to distinguishing states: the result depends on the samples only through the frequencies with
      which classes of states occur in the iterations of each key class. */
  method Classify(c: Component, key: seq<string>, loops: seq<seq<State>>, iters: nat, phi: real, alpha: real)
    returns (r: Option<seq<(string, State)>>)
    ensures r.None? <==> key == [] || exists idx: nat :: idx < iters && Missing(key, loops, idx)
    ensures r.Some? && alpha <= phi ==>
              && iters <= |loops| && EntriesApart(c, r.value)
              && forall d, g :: Listed(c, r.value, d, g)
                   <==> Sampled(c, key, loops, iters, g)
                        && Tells(c, ClassSet(key), SampleFreq(c, key, loops, iters), phi, alpha, d, g)
  {
    hide SigOf, Listed, Lookup, Seen, Missing, Frequency;
    var theta := Frequencies(c, key, loops, iters);
    if theta.None? {
      return None;
    }
    var classes := Classes(key);
    assert key != [] ==> key[0] in classes;
    assert classes != [] ==> classes[0] in key;
    r := UarchDiff(c, classes, theta.value, phi, alpha);
    if r.Some? && alpha <= phi {
      forall d, g
        ensures Occurs(c, classes, theta.value, |classes|, g) <==> Sampled(c, key, loops, iters, g)
        ensures Tells(c, ClassSet(classes), FreqOf(c, theta.value), phi, alpha, d, g)
                <==> Tells(c, ClassSet(key), SampleFreq(c, key, loops, iters), phi, alpha, d, g)
      {
        OccursIsSampled(c, key, loops, iters, theta.value, classes, g);
        SameFrequencies(c, key, loops, iters, theta.value, classes, phi, alpha, d, g);
      }
    }
  }

  lemma OccursIsSampled(c: Component, key: seq<string>, loops: seq<seq<State>>, n: nat, theta: map<string, seq<Entry>>,
                        classes: seq<string>, g: Sig)
    requires Normalized(c, key, loops, n, theta) && forall d :: d in classes <==> d in key
    ensures Occurs(c, classes, theta, |classes|, g) <==> Sampled(c, key, loops, n, g)
  {
    assert n <= |loops|;
    hide SigOf, Lookup, Frequency, Distinct, Seen, States, Normalized;
    forall d | d in key
      ensures d in theta && (Seen(c, States(theta[d]), g) <==> SampledUnder(key, loops, n, d, c, g))
    {
      EntrySeen(c, key, loops, n, theta, d, g);
    }
    if Sampled(c, key, loops, n, g) {
      var k :| 0 <= k < n && k < |key| && Seen(c, loops[k], g);
      assert key[k] in classes && SampledUnder(key, loops, n, key[k], c, g);
    }
    if Occurs(c, classes, theta, |classes|, g) {
      var i :| 0 <= i < |classes| && Seen(c, States(theta[classes[i]]), g);
      assert classes[i] in classes && SampledUnder(key, loops, n, classes[i], c, g);
    }
  }

  predicate SampledUnder(key: seq<string>, loops: seq<seq<State>>, n: nat, d: string, c: Component, g: Sig)
    requires n <= |loops|
  {
    exists k :: 0 <= k < n && k < |key| && key[k] == d && Seen(c, loops[k], g)
  }

  lemma EntrySeen(c: Component, key: seq<string>, loops: seq<seq<State>>, n: nat, theta: map<string, seq<Entry>>,
                  d: string, g: Sig)
    requires Normalized(c, key, loops, n, theta) && d in key
    ensures d in theta && (Seen(c, States(theta[d]), g) <==> SampledUnder(key, loops, n, d, c, g))
  {
    hide SigOf, Lookup, Frequency, Distinct;
    EntryIffSeen(c, key, loops, n, theta, d, g);
    var list, states := theta[d], States(theta[d]);
    assert forall i :: 0 <= i < |list| ==> SigOf(c, states[i]) == SigOf(c, list[i].state);
  }

  lemma SameFrequencies(c: Component, key: seq<string>, loops: seq<seq<State>>, n: nat, theta: map<string, seq<Entry>>,
                        classes: seq<string>, phi: real, alpha: real, d: string, g: Sig)
    requires Normalized(c, key, loops, n, theta) && forall e :: e in classes <==> e in key
    ensures Tells(c, ClassSet(classes), FreqOf(c, theta), phi, alpha, d, g)
            <==> Tells(c, ClassSet(key), SampleFreq(c, key, loops, n), phi, alpha, d, g)
  {
    hide SigOf, Lookup, Frequency, Distinct;
    assert ClassSet(classes) == ClassSet(key);
  }
}
