/**
 * Reading words: the cursor walks of read_expression in both versions of the
 * class, and how a walk over the subset automaton relates to the NFA it was
 * built from.
 */
module Language {
  import opened Graph
  import opened Subsets

  /**
   * read_expression of src/automata.h from cursor `cur`, with `last` the value
   * of the previous step: each symbol is stepped; a symbol without an edge
   * leaves the cursor where it is and yields false; the answer is the value
   * of the last step.
   */
  function Read(states: seq<State>, cur: nat, w: seq<char>, last: bool): bool
    requires InRange(states) && cur < |states|
    decreases |w|
  {
    if w == [] then last
    else match FirstTarget(states[cur].edges, w[0])
      case None => Read(states, cur, w[1..], false)
      case Some(t) => Read(states, t, w[1..], states[t].terminal)
  }

  /** The cursor after Read's walk, before read_expression resets it. */
  function ReadCursor(states: seq<State>, cur: nat, w: seq<char>): (r: nat)
    requires InRange(states) && cur < |states|
    ensures r < |states|
    decreases |w|
  {
    if w == [] then cur
    else match FirstTarget(states[cur].edges, w[0])
      case None => ReadCursor(states, cur, w[1..])
      case Some(t) => ReadCursor(states, t, w[1..])
  }

  /**
   * read_expression of automata.h from cursor `cur`: false at the first
   * symbol without an edge, true as soon as a step lands on a terminal
   * state, false when the word runs out first.
   */
  function ReadRoot(states: seq<State>, cur: nat, w: seq<char>): bool
    requires InRange(states) && cur < |states|
    decreases |w|
  {
    if w == [] then false
    else match FirstTarget(states[cur].edges, w[0])
      case None => false
      case Some(t) => states[t].terminal || ReadRoot(states, t, w[1..])
  }

  /** Where automata.h's read_expression leaves the cursor: it is never reset. */
  function ReadRootCursor(states: seq<State>, cur: nat, w: seq<char>): (r: nat)
    requires InRange(states) && cur < |states|
    ensures r < |states|
    decreases |w|
  {
    if w == [] then cur
    else match FirstTarget(states[cur].edges, w[0])
      case None => cur
      case Some(t) => if states[t].terminal then t else ReadRootCursor(states, t, w[1..])
  }

  /** One step of automata.h's read_expression, both the answer and where the cursor ends. */
  lemma ReadRootStep(states: seq<State>, cur: nat, w: seq<char>)
    requires InRange(states) && cur < |states| && w != []
    ensures match FirstTarget(states[cur].edges, w[0])
      case None => !ReadRoot(states, cur, w) && ReadRootCursor(states, cur, w) == cur
      case Some(t) => t < |states| && ReadRoot(states, cur, w) == (states[t].terminal || ReadRoot(states, t, w[1..]))
                      && ReadRootCursor(states, cur, w) == if states[t].terminal then t else ReadRootCursor(states, t, w[1..])
  {
  }

  /** The set of NFA states reachable from the set `s` by reading `w`. */
  function Sim(ns: seq<State>, na: set<char>, s: set<nat>, w: seq<char>): (r: set<nat>)
    requires InRange(ns) && Within(s, |ns|)
    ensures Within(r, |ns|)
    decreases |w|
  {
    if w == [] then s
    else
      PostWithin(ns, s, w[0]);
      Sim(ns, na, Next(ns, na, s, w[0]), w[1..])
  }

  /** Read, lifted to sets of NFA states: an empty successor set is skipped the way a missing edge is. */
  function ReadSets(ns: seq<State>, na: set<char>, s: set<nat>, w: seq<char>, last: bool): bool
    requires InRange(ns) && Within(s, |ns|)
    decreases |w|
  {
    if w == [] then last
    else
      PostWithin(ns, s, w[0]);
      var t := Next(ns, na, s, w[0]);
      if t == {} then ReadSets(ns, na, s, w[1..], false)
      else ReadSets(ns, na, t, w[1..], Accepting(ns, t))
  }

  /** ReadRoot, lifted to sets of NFA states. */
  function ReadRootSets(ns: seq<State>, na: set<char>, s: set<nat>, w: seq<char>): bool
    requires InRange(ns) && Within(s, |ns|)
    decreases |w|
  {
    if w == [] then false
    else
      PostWithin(ns, s, w[0]);
      var t := Next(ns, na, s, w[0]);
      t != {} && (Accepting(ns, t) || ReadRootSets(ns, na, t, w[1..]))
  }

  /** No word leads anywhere from the empty set. */
  lemma {:induction false} SimEmpty(ns: seq<State>, na: set<char>, w: seq<char>)
    requires InRange(ns)
    ensures Sim(ns, na, {}, w) == {}
  {
    if w != [] {
      PostEmpty(ns, w[0]);
      SimEmpty(ns, na, w[1..]);
    }
  }

  /** Reading a nonempty prefix is one step followed by the rest of the prefix. */
  lemma SimPrefix(ns: seq<State>, na: set<char>, s: set<nat>, w: seq<char>, k: nat)
    requires InRange(ns) && Within(s, |ns|) && 1 <= k <= |w|
    ensures Within(Next(ns, na, s, w[0]), |ns|)
    ensures Sim(ns, na, s, w[..k]) == Sim(ns, na, Next(ns, na, s, w[0]), w[1..][..k - 1])
  {
    PostWithin(ns, s, w[0]);
    assert w[..k][0] == w[0] && w[..k][1..] == w[1..][..k - 1];
  }

  /**
   * The early-exit read accepts exactly the words that have a nonempty
   * prefix after which the NFA is in a terminal state.
   */
  lemma {:induction false} ReadRootSetsPrefix(ns: seq<State>, na: set<char>, s: set<nat>, w: seq<char>)
    requires InRange(ns) && Within(s, |ns|)
    ensures ReadRootSets(ns, na, s, w) <==> exists k :: 1 <= k <= |w| && Accepting(ns, Sim(ns, na, s, w[..k]))
    decreases |w|
  {
    if w != [] {
      PostWithin(ns, s, w[0]);
      var t := Next(ns, na, s, w[0]);
      ReadRootSetsPrefix(ns, na, t, w[1..]);
      forall k | 1 <= k <= |w|
        ensures Sim(ns, na, s, w[..k]) == Sim(ns, na, t, w[1..][..k - 1])
      {
        SimPrefix(ns, na, s, w, k);
      }
      if ReadRootSets(ns, na, s, w) {
        if Accepting(ns, t) {
          assert w[1..][..0] == [];
          assert Accepting(ns, Sim(ns, na, s, w[..1]));
        } else {
          var k :| 1 <= k <= |w[1..]| && Accepting(ns, Sim(ns, na, t, w[1..][..k]));
          assert Accepting(ns, Sim(ns, na, s, w[..k + 1]));
        }
      }
      if exists k :: 1 <= k <= |w| && Accepting(ns, Sim(ns, na, s, w[..k])) {
        var k :| 1 <= k <= |w| && Accepting(ns, Sim(ns, na, s, w[..k]));
        if t == {} {
          SimEmpty(ns, na, w[1..][..k - 1]);
          assert false;
        } else if !Accepting(ns, t) {
          assert k != 1 by {
            assert w[1..][..0] == [];
          }
          assert Accepting(ns, Sim(ns, na, t, w[1..][..k - 1]));
        }
      }
    }
  }

  /** Along a word whose NFA subsets never become empty, the skipping read is plain acceptance. */
  ghost predicate Alive(ns: seq<State>, na: set<char>, s: set<nat>, w: seq<char>)
    requires InRange(ns) && Within(s, |ns|)
  {
    forall k :: 0 <= k <= |w| ==> Sim(ns, na, s, w[..k]) != {}
  }

  /** After a first symbol read from a set that stays alive, the successor set is nonempty and stays alive. */
  lemma AliveTail(ns: seq<State>, na: set<char>, s: set<nat>, w: seq<char>)
    requires InRange(ns) && Within(s, |ns|) && Alive(ns, na, s, w) && w != []
    ensures Within(Next(ns, na, s, w[0]), |ns|) && Next(ns, na, s, w[0]) != {}
    ensures Alive(ns, na, Next(ns, na, s, w[0]), w[1..])
  {
    PostWithin(ns, s, w[0]);
    var t := Next(ns, na, s, w[0]);
    SimPrefix(ns, na, s, w, 1);
    assert w[1..][..0] == [];
    assert t != {} by {
      assert Sim(ns, na, s, w[..1]) != {};
    }
    forall k | 0 <= k <= |w[1..]| ensures Sim(ns, na, t, w[1..][..k]) != {} {
      SimPrefix(ns, na, s, w, k + 1);
      assert Sim(ns, na, s, w[..k + 1]) != {};
    }
  }

  lemma {:induction false} ReadSetsAlive(ns: seq<State>, na: set<char>, s: set<nat>, w: seq<char>, last: bool)
    requires InRange(ns) && Within(s, |ns|) && Alive(ns, na, s, w)
    ensures ReadSets(ns, na, s, w, last) == if w == [] then last else Accepting(ns, Sim(ns, na, s, w))
    decreases |w|
  {
    if w != [] {
      PostWithin(ns, s, w[0]);
      var t := Next(ns, na, s, w[0]);
      AliveTail(ns, na, s, w);
      ReadSetsAlive(ns, na, t, w[1..], Accepting(ns, t));
      if w[1..] != [] {
        SimPrefix(ns, na, s, w, |w|);
        assert w[..|w|] == w && w[1..][..|w| - 1] == w[1..];
      } else {
        assert Sim(ns, na, t, w[1..]) == t;
      }
    }
  }

  /** A state that loops to itself under every symbol of `w` answers its own flag for any nonempty `w`. */
  lemma {:induction false} ReadStays(states: seq<State>, v: nat, w: seq<char>, last: bool)
    requires InRange(states) && v < |states|
    requires forall i :: 0 <= i < |w| ==> FirstTarget(states[v].edges, w[i]) == Some(v)
    ensures Read(states, v, w, last) == if w == [] then last else states[v].terminal
    decreases |w|
  {
    if w != [] {
      assert FirstTarget(states[v].edges, w[0]) == Some(v);
      ReadStays(states, v, w[1..], states[v].terminal);
    }
  }

  /** The same over sets: a set that every symbol of `w` maps to itself answers whether it is accepting. */
  lemma {:induction false} ReadSetsStays(ns: seq<State>, na: set<char>, s: set<nat>, w: seq<char>, last: bool)
    requires InRange(ns) && Within(s, |ns|)
    requires forall i :: 0 <= i < |w| ==> Next(ns, na, s, w[i]) == s
    ensures ReadSets(ns, na, s, w, last) == if w == [] then last else Accepting(ns, s)
    decreases |w|
  {
    if w != [] {
      assert Next(ns, na, s, w[0]) == s;
      ReadSetsStays(ns, na, s, w[1..], Accepting(ns, s));
    }
  }

  /** A set from which no symbol of `w` leads anywhere reads a nonempty `w` as false. */
  lemma {:induction false} ReadSetsDead(ns: seq<State>, na: set<char>, s: set<nat>, w: seq<char>, last: bool)
    requires InRange(ns) && Within(s, |ns|)
    requires forall i :: 0 <= i < |w| ==> Next(ns, na, s, w[i]) == {}
    ensures ReadSets(ns, na, s, w, last) == if w == [] then last else false
    decreases |w|
  {
    if w != [] {
      assert Next(ns, na, s, w[0]) == {};
      ReadSetsDead(ns, na, s, w[1..], false);
    }
  }

  /** `w` starts with k pairs c d. */
  ghost predicate Pairs(w: seq<char>, c: char, d: char, k: nat)
    decreases k
  {
    k == 0 || (|w| >= 2 && w[0] == c && w[1] == d && Pairs(w[2..], c, d, k - 1))
  }

  /** What is left of `w` after its first k pairs. */
  ghost function AfterPairs(w: seq<char>, c: char, d: char, k: nat): seq<char>
    requires Pairs(w, c, d, k)
    decreases k
  {
    if k == 0 then w else AfterPairs(w[2..], c, d, k - 1)
  }

  /** One step of the skipping read over sets, onto a nonempty successor set. */
  lemma ReadSetsStep(ns: seq<State>, na: set<char>, s: set<nat>, w: seq<char>, last: bool)
    requires InRange(ns) && Within(s, |ns|) && w != []
    ensures Within(Next(ns, na, s, w[0]), |ns|)
    ensures Next(ns, na, s, w[0]) != {} ==>
              ReadSets(ns, na, s, w, last) == ReadSets(ns, na, Next(ns, na, s, w[0]), w[1..], Accepting(ns, Next(ns, na, s, w[0])))
  {
    PostWithin(ns, s, w[0]);
  }

  /** With no terminal state at all, the skipping read over sets never answers true. */
  lemma {:induction false} ReadSetsNoTerminal(ns: seq<State>, na: set<char>, s: set<nat>, w: seq<char>)
    requires InRange(ns) && Within(s, |ns|)
    requires forall v :: 0 <= v < |ns| ==> !ns[v].terminal
    ensures !ReadSets(ns, na, s, w, false)
    decreases |w|
  {
    if w != [] {
      PostWithin(ns, s, w[0]);
      var t := Next(ns, na, s, w[0]);
      assert !Accepting(ns, t);
      if t == {} {
        ReadSetsNoTerminal(ns, na, s, w[1..]);
      } else {
        ReadSetsNoTerminal(ns, na, t, w[1..]);
      }
    }
  }

  /** One step of ReadSets into a known nonempty successor set. */
  lemma ReadSetsTo(ns: seq<State>, na: set<char>, s: set<nat>, t: set<nat>, w: seq<char>, last: bool)
    requires InRange(ns) && Within(s, |ns|) && Within(t, |ns|) && w != [] && t != {}
    requires Next(ns, na, s, w[0]) == t
    ensures ReadSets(ns, na, s, w, last) == ReadSets(ns, na, t, w[1..], Accepting(ns, t))
  {
  }

  /**
   * Two nonempty sets that `c` and `d` map to each other: reading k pairs
   * c d from `s` comes back to `s`, with `s`'s acceptance as the answer so far.
   */
  lemma {:induction false} ReadSetsCycle(ns: seq<State>, na: set<char>, s: set<nat>, t: set<nat>, c: char, d: char,
                                         w: seq<char>, k: nat, last: bool)
    requires InRange(ns) && Within(s, |ns|) && Within(t, |ns|) && s != {} && t != {}
    requires Next(ns, na, s, c) == t && Next(ns, na, t, d) == s
    requires Pairs(w, c, d, k)
    ensures k > 0 ==> ReadSets(ns, na, s, w, last) == ReadSets(ns, na, s, AfterPairs(w, c, d, k), Accepting(ns, s))
    decreases k
  {
    if k > 0 {
      var acc := Accepting(ns, s);
      assert w[0] == c && w[1..][0] == d && w[1..][1..] == w[2..];
      ReadSetsStep(ns, na, s, w, last);
      ReadSetsStep(ns, na, t, w[1..], Accepting(ns, t));
      assert ReadSets(ns, na, s, w, last) == ReadSets(ns, na, s, w[2..], acc);
      if k > 1 {
        ReadSetsCycle(ns, na, s, t, c, d, w[2..], k - 1, acc);
      }
      assert AfterPairs(w, c, d, k) == AfterPairs(w[2..], c, d, k - 1);
    }
  }

  /** In the subset automaton, the only edge under `c` leads to the id of the successor set, if it is nonempty. */
  lemma SubsetStep(ns: seq<State>, na: set<char>, init: nat, ds: seq<State>, da: set<char>,
                   subsets: seq<set<nat>>, ids: map<set<nat>, nat>, j: nat, c: char)
    requires IsSubsetDfa(ns, na, init, ds, da, subsets, ids) && j < |ds|
    ensures Next(ns, na, subsets[j], c) != {} ==> Next(ns, na, subsets[j], c) in ids
    ensures var t := Next(ns, na, subsets[j], c);
      FirstTarget(ds[j].edges, c) == if t == {} then None else Some(ids[t])
  {
    assert EdgeFor(ns, na, subsets, ids, ds, j, c);
    var t := Next(ns, na, subsets[j], c);
    if t == {} {
      assert forall e :: e in ds[j].edges ==> e.symbol != c;
    } else {
      assert Edge(c, ids[t]) in Labelled(ds[j].edges, c);
    }
  }

  /** The subset automaton has at most one edge per state and label, and all of them in range. */
  lemma SubsetDeterministic(ns: seq<State>, na: set<char>, init: nat, ds: seq<State>, da: set<char>,
                            subsets: seq<set<nat>>, ids: map<set<nat>, nat>)
    requires IsSubsetDfa(ns, na, init, ds, da, subsets, ids)
    ensures forall j, c :: 0 <= j < |ds| ==> |Labelled(ds[j].edges, c)| <= 1
    ensures InRange(ds)
  {
    forall j, c | 0 <= j < |ds| ensures |Labelled(ds[j].edges, c)| <= 1 {
      assert EdgeFor(ns, na, subsets, ids, ds, j, c);
    }
    forall j, e | 0 <= j < |ds| && e in ds[j].edges ensures e.target < |ds| {
      assert EdgeFor(ns, na, subsets, ids, ds, j, e.symbol);
      assert e in Labelled(ds[j].edges, e.symbol);
    }
  }

  /**
   * With a non-terminal initial NFA state, DFA state j is terminal exactly
   * when its subset holds a terminal NFA state.
   */
  lemma SubsetTerminal(ns: seq<State>, na: set<char>, init: nat, ds: seq<State>, da: set<char>,
                       subsets: seq<set<nat>>, ids: map<set<nat>, nat>)
    requires init < |ns| && !ns[init].terminal
    requires IsSubsetDfa(ns, na, init, ds, da, subsets, ids)
    ensures forall j :: 0 <= j < |ds| ==> ds[j].terminal == Accepting(ns, subsets[j])
  {
    assert !Accepting(ns, subsets[0]);
  }

  /** Walking the subset automaton from DFA id j is the skipping read over NFA subsets from subsets[j]. */
  lemma {:induction false} ReadSubsets(ns: seq<State>, na: set<char>, init: nat, ds: seq<State>, da: set<char>,
                                       subsets: seq<set<nat>>, ids: map<set<nat>, nat>, j: nat, w: seq<char>, last: bool)
    requires InRange(ns) && init < |ns| && !ns[init].terminal
    requires IsSubsetDfa(ns, na, init, ds, da, subsets, ids) && j < |ds|
    ensures InRange(ds)
    ensures Read(ds, j, w, last) == ReadSets(ns, na, subsets[j], w, last)
    decreases |w|
  {
    SubsetDeterministic(ns, na, init, ds, da, subsets, ids);
    if w != [] {
      SubsetStep(ns, na, init, ds, da, subsets, ids, j, w[0]);
      var t := Next(ns, na, subsets[j], w[0]);
      if t == {} {
        ReadSubsets(ns, na, init, ds, da, subsets, ids, j, w[1..], false);
      } else {
        SubsetTerminal(ns, na, init, ds, da, subsets, ids);
        ReadSubsets(ns, na, init, ds, da, subsets, ids, ids[t], w[1..], ds[ids[t]].terminal);
      }
    }
  }

  /** The early-exit walk over the subset automaton from DFA id j is ReadRootSets from subsets[j]. */
  lemma {:induction false} ReadRootSubsets(ns: seq<State>, na: set<char>, init: nat, ds: seq<State>, da: set<char>,
                                           subsets: seq<set<nat>>, ids: map<set<nat>, nat>, j: nat, w: seq<char>)
    requires InRange(ns) && init < |ns| && !ns[init].terminal
    requires IsSubsetDfa(ns, na, init, ds, da, subsets, ids) && j < |ds|
    ensures InRange(ds)
    ensures ReadRoot(ds, j, w) == ReadRootSets(ns, na, subsets[j], w)
    decreases |w|
  {
    SubsetDeterministic(ns, na, init, ds, da, subsets, ids);
    if w != [] {
      SubsetStep(ns, na, init, ds, da, subsets, ids, j, w[0]);
      var t := Next(ns, na, subsets[j], w[0]);
      if t != {} {
        SubsetTerminal(ns, na, init, ds, da, subsets, ids);
        ReadRootSubsets(ns, na, init, ds, da, subsets, ids, ids[t], w[1..]);
      }
    }
  }

  /**
   * src/automata.h after thompson_nfa2dfa: on a word along which the NFA
   * never runs out of states, read_expression answers whether the NFA
   * accepts the word (false for the empty word).
   */
  lemma AcceptsAfterDeterminise(ns: seq<State>, na: set<char>, init: nat, ds: seq<State>, da: set<char>,
                                subsets: seq<set<nat>>, ids: map<set<nat>, nat>, w: seq<char>)
    requires InRange(ns) && init < |ns| && !ns[init].terminal
    requires IsSubsetDfa(ns, na, init, ds, da, subsets, ids)
    requires Alive(ns, na, {init}, w)
    ensures InRange(ds)
    ensures Read(ds, 0, w, false) == (w != [] && Accepting(ns, Sim(ns, na, {init}, w)))
  {
    ReadSubsets(ns, na, init, ds, da, subsets, ids, 0, w, false);
    ReadSetsAlive(ns, na, {init}, w, false);
  }

  /**
   * automata.h after thompson_nfa2dfa: read_expression answers whether some
   * nonempty prefix of the word is accepted by the NFA.
   */
  lemma RootAcceptsAfterDeterminise(ns: seq<State>, na: set<char>, init: nat, ds: seq<State>, da: set<char>,
                                    subsets: seq<set<nat>>, ids: map<set<nat>, nat>, w: seq<char>)
    requires InRange(ns) && init < |ns| && !ns[init].terminal
    requires IsSubsetDfa(ns, na, init, ds, da, subsets, ids)
    ensures InRange(ds)
    ensures ReadRoot(ds, 0, w) <==> exists k :: 1 <= k <= |w| && Accepting(ns, Sim(ns, na, {init}, w[..k]))
  {
    ReadRootSubsets(ns, na, init, ds, da, subsets, ids, 0, w);
    ReadRootSetsPrefix(ns, na, {init}, w);
  }

  /**
   * DFA state 0 is created non-terminal whatever the initial NFA state is:
   * when the initial state is terminal and loops to itself under `c`, the
   * NFA accepts the word [c] but the subset automaton reads it as false.
   */
  lemma InitialFlagLost(ns: seq<State>, na: set<char>, init: nat, ds: seq<State>, da: set<char>,
                        subsets: seq<set<nat>>, ids: map<set<nat>, nat>, c: char)
    requires InRange(ns) && init < |ns| && IsSubsetDfa(ns, na, init, ds, da, subsets, ids)
    requires ns[init].terminal && Next(ns, na, {init}, c) == {init}
    ensures InRange(ds)
    ensures Accepting(ns, Sim(ns, na, {init}, [c]))
    ensures !Read(ds, 0, [c], false)
  {
    SubsetDeterministic(ns, na, init, ds, da, subsets, ids);
    SubsetStep(ns, na, init, ds, da, subsets, ids, 0, c);
    assert ids[{init}] == 0;
    assert [c][1..] == [];
    assert Sim(ns, na, {init}, [c]) == {init};
    assert init in {init};
  }

  /** The smallest instance: one terminal state with an `a` loop accepts "a", its subset automaton does not. */
  lemma InitialFlagLostOnLoop(ds: seq<State>, da: set<char>, subsets: seq<set<nat>>, ids: map<set<nat>, nat>)
    requires IsSubsetDfa([State(true, [Edge('a', 0)])], {'a'}, 0, ds, da, subsets, ids)
    ensures InRange(ds)
    ensures Accepting([State(true, [Edge('a', 0)])], Sim([State(true, [Edge('a', 0)])], {'a'}, {0}, "a"))
    ensures !Read(ds, 0, "a", false)
  {
    var ns := [State(true, [Edge('a', 0)])];
    assert Next(ns, {'a'}, {0}, 'a') == {0} by {
      assert Edge('a', 0) in ns[0].edges;
    }
    InitialFlagLost(ns, {'a'}, 0, ds, da, subsets, ids, 'a');
  }
}
