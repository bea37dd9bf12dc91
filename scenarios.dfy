/**
 * The scenarios of test/unit.cpp, replayed on the model of src/automata.h:
 * each method performs the test's calls and promises the answers the test
 * expects.
 */
module Scenarios {
  import opened Graph
  import opened Epsilon
  import opened Elimination
  import opened Subsets
  import opened Language
  import opened SrcAutomata

  /** The word of SimpleTest2. */
  const LoopWord := "abcabcabcbcbcbcaaaabcbcbcbcbbbc"

  /** State 0 of SimpleTest2: the epsilon loop, then loops under a, b and c, in insertion order. */
  const LoopEdges := [Edge('#', 0), Edge('a', 0), Edge('b', 0), Edge('c', 0)]

  /** Every letter of LoopWord follows a loop of state 0. */
  lemma LoopWordRead()
    ensures Read([State(true, LoopEdges)], 0, LoopWord, false)
  {
    forall i | 0 <= i < |LoopWord| ensures FirstTarget(LoopEdges, LoopWord[i]) == Some(0) {
      assert LoopWord[i] in {'a', 'b', 'c'};
    }
    ReadStays([State(true, LoopEdges)], 0, LoopWord, false);
  }

  /** The three add_transition calls of SimpleTest2. */
  method AddLoops(a: Automata)
    requires a.Valid() && a.states == [State(true, [Edge('#', 0)])] && a.initial == 0
    modifies a
    ensures a.Valid() && a.states == [State(true, LoopEdges)] && a.cursor == old(a.cursor)
  {
    var st := a.AddTransition(a.Begin(), 'a', a.Begin());
    st := a.AddTransition(a.Begin(), 'b', a.Begin());
    st := a.AddTransition(a.Begin(), 'c', a.Begin());
    assert a.states[0].edges == LoopEdges;
  }

  /**
   * SimpleTest1 and SimpleTest2: a terminal epsilon loop on state 0 reads
   * "#" as true; with further loops under a, b and c, LoopWord reads as true.
   */
  method SimpleLoops() returns (first: bool, second: bool)
    ensures first && second
  {
    var a := new Automata('#');
    var st := a.AddTransition(a.Begin(), '#', a.Begin(), true);
    assert a.states[0].edges == [Edge('#', 0)];
    first := a.ReadExpression("#");
    AddLoops(a);
    LoopWordRead();
    second := a.ReadExpression(LoopWord);
  }

  /**
   * When the only epsilon edges are self-loops and state 0 is not terminal,
   * reading the result of thompson_nfa2dfa from state 0 is the skipping read
   * over sets of states of the automaton without those loops.
   */
  lemma ReadAfterThompson(g: seq<State>, na: set<char>, ds: seq<State>, da: set<char>,
                          subsets: seq<set<nat>>, ids: map<set<nat>, nat>, w: seq<char>)
    requires InRange(g) && |g| >= 1 && !g[0].terminal && LoopsOnly(g, '#')
    requires IsSubsetDfa(Eliminated(g, '#', na), na, 0, ds, da, subsets, ids)
    ensures InRange(DropEps(g, '#')) && InRange(ds)
    ensures Read(ds, 0, w, false) == ReadSets(DropEps(g, '#'), na, {0}, w, false)
  {
    EliminatedLoops(g, '#', na);
    var h := DropEps(g, '#');
    forall v, e | 0 <= v < |h| && e in h[v].edges ensures e.target < |h| {
      assert e in g[v].edges;
    }
    ReadSubsets(h, na, 0, ds, da, subsets, ids, 0, w, false);
  }

  /** Without epsilon edges, reading the result of thompson_nfa2dfa from 0 is the skipping read over sets of the automaton itself. */
  lemma NoEpsThompson(g: seq<State>, na: set<char>, ds: seq<State>, da: set<char>,
                      subsets: seq<set<nat>>, ids: map<set<nat>, nat>)
    requires InRange(g) && |g| >= 1 && !g[0].terminal && NoLabel(g, '#')
    requires IsSubsetDfa(Eliminated(g, '#', na), na, 0, ds, da, subsets, ids)
    ensures InRange(ds) && Within({0}, |g|)
    ensures forall w :: Read(ds, 0, w, false) == ReadSets(g, na, {0}, w, false)
  {
    DropEpsNone(g, '#');
    assert LoopsOnly(g, '#');
    ReadAfterThompson(g, na, ds, da, subsets, ids, []);
    forall w ensures Read(ds, 0, w, false) == ReadSets(g, na, {0}, w, false) {
      ReadAfterThompson(g, na, ds, da, subsets, ids, w);
    }
  }

  /**
   * States 0 to 2 of SimpleTest3 and NotSoSimpleTest2, without epsilon
   * edges: 0 -a-> 1 -b-> 0, and 0 -c-> 2, which is terminal. Automata are
   * described state by state rather than as one sequence display, so that
   * the verifier reasons about them instead of evaluating them.
   */
  ghost predicate CycleCore(ns: seq<State>)
  {
    |ns| >= 3 && ns[0] == State(false, [Edge('a', 1), Edge('c', 2)]) && ns[1] == State(false, [Edge('b', 0)])
    && ns[2].terminal
  }

  /** The automaton of SimpleTest3. */
  ghost predicate IsCycleNfa(ns: seq<State>)
  {
    CycleCore(ns) && |ns| == 3 && ns[2].edges == []
  }

  /** The calls of SimpleTest3 up to the determinisation; targets 1 and 2 are allocated on first use. */
  method BuildCycle() returns (b: Automata)
    ensures fresh(b) && b.Valid() && IsCycleNfa(b.states) && b.alphabet == {'a', 'b', 'c'}
    ensures b.cursor == 0 && b.initial == 0 && b.epsilon == '#'
  {
    b := new Automata('#');
    var st := b.AddTransition(b.Begin(), 'a', 1);
    assert |b.states| == 2 && b.states[0].edges == [Edge('a', 1)] && b.states[1] == State(false, []);
    st := b.AddTransition(1, 'b', b.Begin());
    assert |b.states| == 2 && b.states[0].edges == [Edge('a', 1)] && b.states[1].edges == [Edge('b', 0)];
    st := b.AddTransition(b.Begin(), 'c', 2, true);
    assert b.states[0].edges == [Edge('a', 1), Edge('c', 2)];
  }

  /** In the cycle, a leads from {0} to {1} and b back. */
  lemma CycleNext(ns: seq<State>, na: set<char>)
    requires CycleCore(ns) && 'a' in na && 'b' in na
    ensures Within({0}, |ns|) && Within({1}, |ns|)
    ensures Next(ns, na, {0}, 'a') == {1} && Next(ns, na, {1}, 'b') == {0}
  {
    PostOne(ns, 0, 'a');
    assert Labelled(ns[0].edges, 'a') == [Edge('a', 1)];
    PostOne(ns, 1, 'b');
    assert Labelled(ns[1].edges, 'b') == [Edge('b', 0)];
  }

  /** k pairs a b. */
  function AB(k: nat): (r: seq<char>)
    ensures |r| == 2 * k
  {
    if k == 0 then [] else "ab" + AB(k - 1)
  }

  /** AB(k) + t starts with k pairs a b, after which t is left. */
  lemma {:induction false} PairsAB(k: nat, t: seq<char>)
    ensures Pairs(AB(k) + t, 'a', 'b', k) && AfterPairs(AB(k) + t, 'a', 'b', k) == t
  {
    if k > 0 {
      var w := AB(k) + t;
      assert w[0] == 'a' && w[1] == 'b' && w[2..] == AB(k - 1) + t;
      PairsAB(k - 1, t);
    }
  }

  /** "ababab" is three pairs a b and nothing else. */
  lemma ThreePairs()
    ensures Pairs("ababab", 'a', 'b', 3) && AfterPairs("ababab", 'a', 'b', 3) == []
  {
    PairsAB(3, []);
    assert AB(3) + [] == "ababab";
  }

  /** Over sets, k > 0 pairs a b lead from {0} back to {0}, which is not accepting, whatever was read before. */
  lemma CycleWord(ns: seq<State>, na: set<char>, w: seq<char>, k: nat, last: bool)
    requires CycleCore(ns) && InRange(ns) && 'a' in na && 'b' in na
    requires k > 0 && Pairs(w, 'a', 'b', k)
    ensures Within({0}, |ns|)
    ensures ReadSets(ns, na, {0}, w, last) == ReadSets(ns, na, {0}, AfterPairs(w, 'a', 'b', k), false)
  {
    assert Within({0}, |ns|) && Within({1}, |ns|) && !Accepting(ns, {0});
    CycleNext(ns, na);
    ReadSetsCycle(ns, na, {0}, {1}, 'a', 'b', w, k, last);
  }

  /** Any determinisation of the cycle automaton by thompson_nfa2dfa reads every word from 0 as the automaton does over sets. */
  lemma CycleDfa(ns: seq<State>, na: set<char>, ds: seq<State>, da: set<char>, subsets: seq<set<nat>>,
                 ids: map<set<nat>, nat>)
    requires IsCycleNfa(ns) && na == {'a', 'b', 'c'}
    requires IsSubsetDfa(Eliminated(ns, '#', na), na, 0, ds, da, subsets, ids)
    ensures InRange(ns) && Within({0}, |ns|) && InRange(ds)
    ensures forall w :: Read(ds, 0, w, false) == ReadSets(ns, na, {0}, w, false)
  {
    assert InRange(ns) && |ns| >= 1 && !ns[0].terminal && NoLabel(ns, '#');
    NoEpsThompson(ns, na, ds, da, subsets, ids);
  }

  /** SimpleTest3: after the determinisation "ababab" reads as false. */
  method CycleRead() returns (r: bool)
    ensures !r
  {
    var b := BuildCycle();
    ghost var ns, na := b.states, b.alphabet;
    ghost var subsets, ids, parent, via := b.ThompsonNfa2Dfa();
    ThreePairs();
    CycleWord(ns, na, "ababab", 3, false);
    CycleDfa(ns, na, b.states, b.alphabet, subsets, ids);
    r := b.ReadExpression("ababab");
  }

  /** The automaton of NotSoSimpleTest1: loops under a, b and c on 0, then 0 -a-> 1; nothing is terminal. */
  ghost predicate IsLoopsArmNfa(ns: seq<State>)
  {
    |ns| == 2 && ns[0] == State(false, [Edge('a', 0), Edge('b', 0), Edge('c', 0), Edge('a', 1)]) && ns[1] == State(false, [])
  }

  /** The calls of NotSoSimpleTest1 up to the determinisation; target 1 is allocated non-terminal. */
  method BuildLoopsArm() returns (b: Automata)
    ensures fresh(b) && b.Valid() && IsLoopsArmNfa(b.states) && b.cursor == 0 && b.initial == 0 && b.epsilon == '#'
  {
    b := new Automata('#');
    var st := b.AddTransition(b.Begin(), 'a', b.Begin());
    st := b.AddTransition(b.Begin(), 'b', b.Begin());
    st := b.AddTransition(b.Begin(), 'c', b.Begin());
    assert |b.states| == 1 && b.states[0] == State(false, [Edge('a', 0), Edge('b', 0), Edge('c', 0)]);
    st := b.AddTransition(b.Begin(), 'a', 1);
    assert b.states[0].edges == [Edge('a', 0), Edge('b', 0), Edge('c', 0), Edge('a', 1)];
  }

  /** An automaton of at least one state, none terminal, with every entry in range and none under the epsilon symbol. */
  ghost predicate Inert(ns: seq<State>)
  {
    InRange(ns) && |ns| >= 1 && NoLabel(ns, '#') && forall v :: 0 <= v < |ns| ==> !ns[v].terminal
  }

  lemma LoopsArmInert(ns: seq<State>)
    requires IsLoopsArmNfa(ns)
    ensures Inert(ns)
  {
    assert forall e :: e in ns[0].edges ==> e.symbol in {'a', 'b', 'c'} && e.target <= 1;
  }

  /** A determinisation of an automaton without terminal states and epsilon entries reads every word as false. */
  lemma NoTerminalDfa(ns: seq<State>, na: set<char>, ds: seq<State>, da: set<char>, subsets: seq<set<nat>>,
                      ids: map<set<nat>, nat>)
    requires Inert(ns)
    requires IsSubsetDfa(Eliminated(ns, '#', na), na, 0, ds, da, subsets, ids)
    ensures InRange(ds) && forall w :: !Read(ds, 0, w, false)
  {
    assert !ns[0].terminal && Within({0}, |ns|);
    NoEpsThompson(ns, na, ds, da, subsets, ids);
    forall w ensures !Read(ds, 0, w, false) {
      ReadSetsNoTerminal(ns, na, {0}, w);
    }
  }

  /** NotSoSimpleTest1: after the determinisation "bbbcccbbba" reads as false, as any word does. */
  method LoopsArmRead() returns (r: bool)
    ensures !r
  {
    var b := BuildLoopsArm();
    ghost var ns, na := b.states, b.alphabet;
    ghost var subsets, ids, parent, via := b.ThompsonNfa2Dfa();
    LoopsArmInert(ns);
    NoTerminalDfa(ns, na, b.states, b.alphabet, subsets, ids);
    r := b.ReadExpression("bbbcccbbba");
  }

  /**
   * The automaton of NotSoSimpleTest2: the cycle, then 2 -m-> 3 with 3
   * terminal, and last an epsilon loop on 0.
   */
  ghost predicate IsLoopTailNfa(ns: seq<State>)
  {
    |ns| == 4 && ns[0] == State(false, [Edge('a', 1), Edge('c', 2), Edge('#', 0)]) && ns[1] == State(false, [Edge('b', 0)])
    && ns[2] == State(true, [Edge('m', 3)]) && ns[3] == State(true, [])
  }

  /** The same automaton once its epsilon loop is gone. */
  ghost predicate IsTailNfa(h: seq<State>)
  {
    CycleCore(h) && |h| == 4 && h[2].edges == [Edge('m', 3)] && h[3] == State(true, [])
  }

  /** The calls of NotSoSimpleTest2 up to the determinisation. */
  method BuildLoopTail() returns (b: Automata)
    ensures fresh(b) && b.Valid() && IsLoopTailNfa(b.states) && b.alphabet == {'a', 'b', 'c', 'm', '#'}
    ensures b.cursor == 0 && b.initial == 0 && b.epsilon == '#'
  {
    b := BuildCycle();
    var st := b.AddTransition(2, 'm', 3, true);
    assert |b.states| == 4 && b.states[2] == State(true, [Edge('m', 3)]) && b.states[3] == State(true, []);
    st := b.AddTransition(b.Begin(), '#', b.Begin());
    assert b.states[0].edges == [Edge('a', 1), Edge('c', 2), Edge('#', 0)];
  }

  /** The only epsilon edge is the loop on 0, and dropping it leaves the tail automaton. */
  lemma LoopTailDrop(ns: seq<State>)
    requires IsLoopTailNfa(ns)
    ensures InRange(ns) && LoopsOnly(ns, '#') && IsTailNfa(DropEps(ns, '#'))
  {
    var es := ns[0].edges;
    assert es[1..][1..] == [Edge('#', 0)] && es[1..][1..][1..] == [];
    assert Without(es, '#') == [Edge('a', 1), Edge('c', 2)];
    assert Without(ns[1].edges, '#') == ns[1].edges && Without(ns[2].edges, '#') == ns[2].edges;
  }

  /** In the tail automaton, c leads from {0} to {2}, m from {2} to {3}, and m from {3} nowhere. */
  lemma TailNext(h: seq<State>, na: set<char>)
    requires IsTailNfa(h) && 'c' in na && 'm' in na
    ensures InRange(h) && Within({0}, |h|) && Within({2}, |h|) && Within({3}, |h|)
    ensures Accepting(h, {2}) && Accepting(h, {3})
    ensures Next(h, na, {0}, 'c') == {2} && Next(h, na, {2}, 'm') == {3} && Next(h, na, {3}, 'm') == {}
  {
    assert 2 in {2} && 3 in {3};
    PostOne(h, 0, 'c');
    assert Labelled(h[0].edges, 'c') == [Edge('c', 2)];
    PostOne(h, 2, 'm');
    assert Labelled(h[2].edges, 'm') == [Edge('m', 3)];
    PostOne(h, 3, 'm');
  }

  /** From {0}, c then j times m is accepted exactly when j is at most one: from {3} an m finds no entry. */
  lemma TailRead(h: seq<State>, na: set<char>, t: seq<char>)
    requires IsTailNfa(h) && 'c' in na && 'm' in na
    requires |t| >= 1 && t[0] == 'c' && forall i :: 1 <= i < |t| ==> t[i] == 'm'
    ensures InRange(h) && Within({0}, |h|)
    ensures ReadSets(h, na, {0}, t, false) <==> |t| <= 2
  {
    var rest := t[1..];
    assert |t| >= 2 ==> rest[0] == 'm' && forall i :: 0 <= i < |rest[1..]| ==> rest[1..][i] == 'm';
    TailNext(h, na);
    ReadSetsTo(h, na, {0}, {2}, t, false);
    if |t| >= 2 {
      ReadSetsTo(h, na, {2}, {3}, rest, true);
      ReadSetsDead(h, na, {3}, rest[1..], true);
    }
  }

  /** (ab)^k then c m^j, k > 0: the tail automaton accepts exactly when j is at most one. */
  lemma TailVerdict(h: seq<State>, na: set<char>, k: nat, t: seq<char>)
    requires IsTailNfa(h) && {'a', 'b', 'c', 'm'} <= na && k > 0
    requires |t| >= 1 && t[0] == 'c' && forall i :: 1 <= i < |t| ==> t[i] == 'm'
    ensures InRange(h) && Within({0}, |h|)
    ensures ReadSets(h, na, {0}, AB(k) + t, false) <==> |t| <= 2
  {
    PairsAB(k, t);
    TailRead(h, na, t);
    CycleWord(h, na, AB(k) + t, k, false);
  }

  /** Any determinisation of the NotSoSimpleTest2 automaton reads every word from 0 as the tail automaton does over sets. */
  lemma LoopTailDfa(ns: seq<State>, na: set<char>, ds: seq<State>, da: set<char>, subsets: seq<set<nat>>,
                    ids: map<set<nat>, nat>)
    requires IsLoopTailNfa(ns)
    requires IsSubsetDfa(Eliminated(ns, '#', na), na, 0, ds, da, subsets, ids)
    ensures IsTailNfa(DropEps(ns, '#')) && InRange(DropEps(ns, '#')) && InRange(ds)
    ensures forall w :: Read(ds, 0, w, false) == ReadSets(DropEps(ns, '#'), na, {0}, w, false)
  {
    LoopTailDrop(ns);
    ReadAfterThompson(ns, na, ds, da, subsets, ids, []);
    forall w ensures Read(ds, 0, w, false) == ReadSets(DropEps(ns, '#'), na, {0}, w, false) {
      ReadAfterThompson(ns, na, ds, da, subsets, ids, w);
    }
  }

  /** The three words of NotSoSimpleTest2 over the sets of the tail automaton. */
  lemma TailWords(h: seq<State>, na: set<char>)
    requires IsTailNfa(h) && na == {'a', 'b', 'c', 'm', '#'}
    ensures InRange(h) && Within({0}, |h|)
    ensures ReadSets(h, na, {0}, "abababc", false) && ReadSets(h, na, {0}, "abababababcm", false)
    ensures !ReadSets(h, na, {0}, "abababcmmmm", false)
  {
    assert AB(3) + "c" == "abababc" && AB(5) + "cm" == "abababababcm" && AB(3) + "cmmmm" == "abababcmmmm";
    assert forall i :: 1 <= i < |"cmmmm"| ==> "cmmmm"[i] == 'm';
    TailVerdict(h, na, 3, "c");
    TailVerdict(h, na, 5, "cm");
    TailVerdict(h, na, 3, "cmmmm");
  }

  /** NotSoSimpleTest2: "abababc" and "abababababcm" are accepted, "abababcmmmm" is not. */
  method LoopTailReads() returns (r1: bool, r2: bool, r3: bool)
    ensures r1 && r2 && !r3
  {
    var b := BuildLoopTail();
    ghost var ns, na := b.states, b.alphabet;
    ghost var subsets, ids, parent, via := b.ThompsonNfa2Dfa();
    LoopTailDfa(ns, na, b.states, b.alphabet, subsets, ids);
    TailWords(DropEps(ns, '#'), na);
    r1 := b.ReadExpression("abababc");
    r2 := b.ReadExpression("abababababcm");
    r3 := b.ReadExpression("abababcmmmm");
  }

  /**
   * The automaton of NotSimpleTests: 0 -a-> 1, 2 and 3 in that order, each
   * of them terminal with a loop, under a on 1, b on 2 and c on 3.
   */
  ghost predicate IsFanNfa(ns: seq<State>)
  {
    |ns| == 4 && ns[0] == State(false, [Edge('a', 1), Edge('a', 2), Edge('a', 3)])
    && ns[1] == State(true, [Edge('a', 1)]) && ns[2] == State(true, [Edge('b', 2)]) && ns[3] == State(true, [Edge('c', 3)])
  }

  /** The state of the fan whose loop carries `x`. */
  function FanLoop(x: char): (r: nat)
    requires x in {'a', 'b', 'c'}
    ensures 1 <= r <= 3
  {
    if x == 'a' then 1 else if x == 'b' then 2 else 3
  }

  /** Every entry of a sequence carries `c`. */
  lemma {:induction false} LabelledAll(es: seq<Edge>, c: char)
    requires forall i :: 0 <= i < |es| ==> es[i].symbol == c
    ensures Labelled(es, c) == es
  {
    if es != [] {
      LabelledAll(es[1..], c);
      assert [es[0]] + es[1..] == es;
    }
  }

  /** From {0}, a leads to all three loop states. */
  lemma FanFirst(ns: seq<State>, na: set<char>)
    requires IsFanNfa(ns) && na == {'a', 'b', 'c'}
    ensures InRange(ns) && Within({0}, |ns|) && Next(ns, na, {0}, 'a') == {1, 2, 3}
  {
    var es := ns[0].edges;
    forall y ensures y in Post(ns, {0}, 'a') <==> 1 <= y <= 3 {
      if y == 1 { assert es[0] in es; }
      if y == 2 { assert es[1] in es; }
      if y == 3 { assert es[2] in es; }
    }
    assert Post(ns, {0}, 'a') == {1, 2, 3};
  }

  /** From {0}, nothing but a leads anywhere. */
  lemma FanOther(ns: seq<State>, na: set<char>, x: char)
    requires IsFanNfa(ns) && na == {'a', 'b', 'c'} && x != 'a'
    ensures InRange(ns) && Within({0}, |ns|) && Next(ns, na, {0}, x) == {}
  {
    PostOne(ns, 0, x);
    LabelledNone(ns[0].edges, x);
  }

  /** A loop state stays put under its own label. */
  lemma FanStay(ns: seq<State>, na: set<char>, x: char)
    requires IsFanNfa(ns) && na == {'a', 'b', 'c'} && x in {'a', 'b', 'c'}
    ensures InRange(ns) && Within({FanLoop(x)}, |ns|) && Next(ns, na, {FanLoop(x)}, x) == {FanLoop(x)}
  {
    var v := FanLoop(x);
    PostOne(ns, v, x);
    LabelledAll(ns[v].edges, x);
    assert ns[v].edges[0] in ns[v].edges;
  }

  /** From {1, 2, 3}, a loop label leads to its own loop state alone. */
  lemma FanSplit(ns: seq<State>, na: set<char>, x: char)
    requires IsFanNfa(ns) && na == {'a', 'b', 'c'} && x in {'a', 'b', 'c'}
    ensures InRange(ns) && Within({1, 2, 3}, |ns|) && Next(ns, na, {1, 2, 3}, x) == {FanLoop(x)}
  {
    var v := FanLoop(x);
    forall y ensures y in Post(ns, {1, 2, 3}, x) <==> y == v {
      if y == v { assert v in {1, 2, 3} && ns[v].edges[0] in ns[v].edges; }
    }
  }

  /** State 1 has no entry under b. */
  lemma FanDead(ns: seq<State>, na: set<char>)
    requires IsFanNfa(ns) && na == {'a', 'b', 'c'}
    ensures InRange(ns) && Within({1}, |ns|) && Next(ns, na, {1}, 'b') == {}
  {
    PostOne(ns, 1, 'b');
    assert Labelled(ns[1].edges, 'b') == [];
  }

  /** Once in the loop state of `x`, the fan stays there on any run of `x` and keeps answering true. */
  lemma FanStayWord(ns: seq<State>, na: set<char>, xs: seq<char>, x: char)
    requires IsFanNfa(ns) && na == {'a', 'b', 'c'} && x in {'a', 'b', 'c'}
    requires forall i :: 0 <= i < |xs| ==> xs[i] == x
    ensures InRange(ns) && Within({FanLoop(x)}, |ns|) && Accepting(ns, {FanLoop(x)})
    ensures ReadSets(ns, na, {FanLoop(x)}, xs, true)
  {
    var v := FanLoop(x);
    FanStay(ns, na, x);
    assert v in {v};
    ReadSetsStays(ns, na, {v}, xs, true);
  }

  /** An a, then any number of the loop label `x`: the fan reads it as true. */
  lemma FanLoopWord(ns: seq<State>, na: set<char>, w: seq<char>, x: char)
    requires IsFanNfa(ns) && na == {'a', 'b', 'c'} && x in {'a', 'b', 'c'}
    requires |w| >= 2 && w[0] == 'a' && forall i :: 1 <= i < |w| ==> w[i] == x
    ensures InRange(ns) && Within({0}, |ns|) && ReadSets(ns, na, {0}, w, false)
  {
    var tail := w[2..];
    assert w[1..][0] == w[1] && w[1..][1..] == tail;
    assert forall i :: 0 <= i < |tail| ==> tail[i] == w[i + 2];
    assert Within({1, 2, 3}, |ns|) && Accepting(ns, {1, 2, 3}) by {
      assert 1 in {1, 2, 3};
    }
    FanStayWord(ns, na, tail, x);
    FanFirst(ns, na);
    FanSplit(ns, na, x);
    ReadSetsTo(ns, na, {1, 2, 3}, {FanLoop(x)}, w[1..], true);
    ReadSetsTo(ns, na, {0}, {1, 2, 3}, w, false);
  }

  /** a a, then only b: after the second a the fan is in {1}, which has no b entry, so the read is false. */
  lemma FanDeadWord(ns: seq<State>, na: set<char>, w: seq<char>)
    requires IsFanNfa(ns) && na == {'a', 'b', 'c'}
    requires |w| >= 3 && w[0] == 'a' && w[1] == 'a' && forall i :: 2 <= i < |w| ==> w[i] == 'b'
    ensures InRange(ns) && Within({0}, |ns|) && !ReadSets(ns, na, {0}, w, false)
  {
    var tail := w[2..];
    assert w[1..][0] == w[1] && w[1..][1..] == tail;
    assert forall i :: 0 <= i < |tail| ==> tail[i] == 'b';
    assert Within({1, 2, 3}, |ns|) && Accepting(ns, {1, 2, 3}) && Accepting(ns, {1}) by {
      assert 1 in {1, 2, 3} && 1 in {1};
    }
    FanDead(ns, na);
    ReadSetsDead(ns, na, {1}, tail, true);
    FanFirst(ns, na);
    FanSplit(ns, na, 'a');
    ReadSetsTo(ns, na, {1, 2, 3}, {1}, w[1..], true);
    ReadSetsTo(ns, na, {0}, {1, 2, 3}, w, false);
  }

  /** A nonempty word without a: the fan never leaves {0} and reads it as false. */
  lemma FanNoA(ns: seq<State>, na: set<char>, w: seq<char>)
    requires IsFanNfa(ns) && na == {'a', 'b', 'c'}
    requires w != [] && forall i :: 0 <= i < |w| ==> w[i] != 'a'
    ensures InRange(ns) && Within({0}, |ns|) && !ReadSets(ns, na, {0}, w, false)
  {
    forall i | 0 <= i < |w| ensures Next(ns, na, {0}, w[i]) == {} {
      FanOther(ns, na, w[i]);
    }
    FanOther(ns, na, 'b');
    ReadSetsDead(ns, na, {0}, w, false);
  }

  /** The letter NotSimpleTests loops on in state i: 'a' + i - 1. */
  function FanLetter(i: nat): (r: char)
    requires 1 <= i <= 3
    ensures r in {'a', 'b', 'c'} && FanLoop(r) == i
  {
    (('a' as int) + i - 1) as char
  }

  /**
   * One round of the construction loop of NotSimpleTests: 0 -a-> i allocates
   * the terminal state i, then i gets a loop under `x`.
   */
  method AddArm(b: Automata, i: nat, x: char)
    requires b.Valid() && |b.states| == i && i >= 1
    modifies b
    ensures b.Valid() && |b.states| == i + 1 && b.alphabet == old(b.alphabet) + {'a', x}
    ensures b.states[0] == old(b.states[0]).(edges := old(b.states[0].edges) + [Edge('a', i)])
    ensures forall j :: 1 <= j < i ==> b.states[j] == old(b.states[j])
    ensures b.states[i] == State(true, [Edge(x, i)])
    ensures b.cursor == old(b.cursor) && b.initial == old(b.initial)
  {
    var st := b.AddTransition(0, 'a', i, true);
    st := b.AddTransition(i, x, i, true);
  }

  /** The entries of state 0 after n rounds: 0 -a-> 1, ..., 0 -a-> n. */
  function Spokes(n: nat): (r: seq<Edge>)
    ensures |r| == n && forall j :: 0 <= j < n ==> r[j] == Edge('a', j + 1)
  {
    if n == 0 then [] else Spokes(n - 1) + [Edge('a', n)]
  }

  /** The alphabet after n rounds. */
  function FanLetters(n: nat): (r: set<char>)
    requires n <= 3
    ensures n >= 1 ==> 'a' in r
    ensures forall c :: c in r <==> exists j :: 1 <= j <= n && c == FanLetter(j)
  {
    if n == 0 then {} else FanLetters(n - 1) + {FanLetter(n)}
  }

  /** The construction of NotSimpleTests. */
  method BuildFan() returns (b: Automata)
    ensures fresh(b) && b.Valid() && IsFanNfa(b.states) && b.alphabet == {'a', 'b', 'c'}
    ensures b.cursor == 0 && b.initial == 0 && b.epsilon == '#'
  {
    b := new Automata('#');
    for i := 1 to 4
      invariant b.Valid() && |b.states| == i && b.cursor == 0 && b.initial == 0
      invariant b.states[0] == State(false, Spokes(i - 1))
      invariant forall j :: 1 <= j < i ==> b.states[j] == State(true, [Edge(FanLetter(j), j)])
      invariant b.alphabet == FanLetters(i - 1)
    {
      AddArm(b, i, FanLetter(i));
    }
    FanBuilt(b.states, b.alphabet);
  }

  /** What the loop of BuildFan leaves after three rounds is the fan. */
  lemma FanBuilt(ns: seq<State>, na: set<char>)
    requires |ns| == 4 && ns[0] == State(false, Spokes(3)) && na == FanLetters(3)
    requires forall j :: 1 <= j < 4 ==> ns[j] == State(true, [Edge(FanLetter(j), j)])
    ensures IsFanNfa(ns) && na == {'a', 'b', 'c'}
  {
    assert Spokes(3) == [Edge('a', 1), Edge('a', 2), Edge('a', 3)];
    assert FanLetter(1) == 'a' && FanLetter(2) == 'b' && FanLetter(3) == 'c';
    assert ns[1] == State(true, [Edge(FanLetter(1), 1)]);
    assert ns[2] == State(true, [Edge(FanLetter(2), 2)]);
    assert ns[3] == State(true, [Edge(FanLetter(3), 3)]);
  }

  /** Any determinisation of the fan by thompson_nfa2dfa reads every word from 0 as the fan does over sets. */
  lemma FanDfa(ns: seq<State>, na: set<char>, ds: seq<State>, da: set<char>, subsets: seq<set<nat>>,
               ids: map<set<nat>, nat>)
    requires IsFanNfa(ns) && na == {'a', 'b', 'c'}
    requires IsSubsetDfa(Eliminated(ns, '#', na), na, 0, ds, da, subsets, ids)
    ensures InRange(ns) && Within({0}, |ns|) && InRange(ds)
    ensures forall w :: Read(ds, 0, w, false) == ReadSets(ns, na, {0}, w, false)
  {
    FanNoEps(ns);
    NoEpsThompson(ns, na, ds, da, subsets, ids);
  }

  /** The fan has no epsilon entries, its entries stay in range and its state 0 is not terminal. */
  lemma FanNoEps(ns: seq<State>)
    requires IsFanNfa(ns)
    ensures InRange(ns) && |ns| >= 1 && !ns[0].terminal && NoLabel(ns, '#')
  {
    assert forall e :: e in ns[0].edges ==> e.symbol == 'a';
  }

  /** NotSimpleTests: "aaaaaaaaaa" stays in state 1. */
  lemma FanAcceptsA(ns: seq<State>, na: set<char>)
    requires IsFanNfa(ns) && na == {'a', 'b', 'c'}
    ensures InRange(ns) && Within({0}, |ns|) && ReadSets(ns, na, {0}, "aaaaaaaaaa", false)
  {
    var w := "aaaaaaaaaa";
    assert forall i :: 1 <= i < |w| ==> w[i] == 'a';
    FanLoopWord(ns, na, w, 'a');
  }

  /** NotSimpleTests: "abbbbbbbbbb" ends in state 2. */
  lemma FanAcceptsB(ns: seq<State>, na: set<char>)
    requires IsFanNfa(ns) && na == {'a', 'b', 'c'}
    ensures InRange(ns) && Within({0}, |ns|) && ReadSets(ns, na, {0}, "abbbbbbbbbb", false)
  {
    var w := "abbbbbbbbbb";
    assert forall i :: 1 <= i < |w| ==> w[i] == 'b';
    FanLoopWord(ns, na, w, 'b');
  }

  /** NotSimpleTests: "accccccc" ends in state 3. */
  lemma FanAcceptsC(ns: seq<State>, na: set<char>)
    requires IsFanNfa(ns) && na == {'a', 'b', 'c'}
    ensures InRange(ns) && Within({0}, |ns|) && ReadSets(ns, na, {0}, "accccccc", false)
  {
    var w := "accccccc";
    assert forall i :: 1 <= i < |w| ==> w[i] == 'c';
    FanLoopWord(ns, na, w, 'c');
  }

  /** The two words NotSimpleTests expects the fan to reject. */
  lemma FanRejects(ns: seq<State>, na: set<char>)
    requires IsFanNfa(ns) && na == {'a', 'b', 'c'}
    ensures InRange(ns) && Within({0}, |ns|)
    ensures !ReadSets(ns, na, {0}, "aab", false) && !ReadSets(ns, na, {0}, "cccccccc", false)
  {
    var w := "cccccccc";
    assert forall i :: 0 <= i < |w| ==> w[i] != 'a';
    FanNoA(ns, na, w);
    FanDeadWord(ns, na, "aab");
  }

  /** NotSimpleTests, first automaton: the five read_string calls after the determinisation. */
  method FanReads() returns (r1: bool, r2: bool, r3: bool, r4: bool, r5: bool)
    ensures r1 && r2 && !r3 && r4 && !r5
  {
    var b := BuildFan();
    ghost var ns, na := b.states, b.alphabet;
    FanAcceptsA(ns, na);
    FanAcceptsB(ns, na);
    FanAcceptsC(ns, na);
    FanRejects(ns, na);
    ghost var subsets, ids, parent, via := b.ThompsonNfa2Dfa();
    FanDfa(ns, na, b.states, b.alphabet, subsets, ids);
    r1 := b.ReadString("aaaaaaaaaa");
    r2 := b.ReadString("abbbbbbbbbb");
    r3 := b.ReadString("aab");
    r4 := b.ReadString("accccccc");
    r5 := b.ReadString("cccccccc");
  }
}
