/**
 * The Automata class of src/automata.h, with T = char: a state vector, an
 * alphabet, the table of forward-referenced state ids (state_labels), the
 * reading cursor (current_state_id) and the initial state, which is 0.
 */
module SrcAutomata {
  import opened Graph
  import opened Epsilon
  import opened Elimination
  import opened Subsets
  import opened Language

  /** The state vector with the terminal flag of state `s` flipped. */
  function Toggled(states: seq<State>, s: nat): (r: seq<State>)
    requires s < |states|
    ensures |r| == |states| && r[s].terminal == !states[s].terminal && r[s].edges == states[s].edges
    ensures forall v :: 0 <= v < |states| && v != s ==> r[v] == states[v]
  {
    states[s := states[s].(terminal := !states[s].terminal)]
  }

  /** Flipping a flag twice restores the automaton. */
  lemma ToggleTwice(states: seq<State>, s: nat)
    requires s < |states|
    ensures Toggled(Toggled(states, s), s) == states
  {
    var r := Toggled(Toggled(states, s), s);
    assert forall v :: 0 <= v < |states| ==> r[v] == states[v];
  }

  /** The entries of `es` with the first occurrence of `e` removed. */
  function RemoveFirst(es: seq<Edge>, e: Edge): (r: seq<Edge>)
    ensures multiset(r) == multiset(es) - multiset{e}
    ensures e !in es ==> r == es
  {
    if es == [] then []
    else if es[0] == e then
      assert es == [es[0]] + es[1..];
      es[1..]
    else
      assert es == [es[0]] + es[1..];
      [es[0]] + RemoveFirst(es[1..], e)
  }

  /** RemoveFirst cuts the sequence at the first index holding `e`. */
  lemma {:induction false} RemoveFirstAt(es: seq<Edge>, e: Edge, k: nat)
    requires k < |es| && es[k] == e && e !in es[..k]
    ensures RemoveFirst(es, e) == es[..k] + es[k + 1..]
  {
    if k == 0 {
      assert es[..k] + es[k + 1..] == es[1..];
    } else {
      var tail := es[1..];
      assert es[..k] == [es[0]] + tail[..k - 1];
      assert es[k + 1..] == tail[k..];
      assert tail[k - 1] == e;
      assert es[0] != e by { assert es[0] == es[..k][0]; }
      assert e !in tail[..k - 1];
      RemoveFirstAt(tail, e, k - 1);
    }
  }

  /** Whatever RemoveFirst keeps was there before. */
  lemma RemoveFirstKeeps(es: seq<Edge>, e: Edge)
    ensures forall x :: x in RemoveFirst(es, e) ==> x in es
  {
    forall x | x in RemoveFirst(es, e) ensures x in es {
      assert x in multiset(RemoveFirst(es, e));
    }
  }

  class Automata {
    var states: seq<State>
    var alphabet: set<char>
    var labels: map<nat, nat>
    var cursor: nat
    var initial: nat
    const epsilon: char

    /**
     * The store is well formed: at least one state, the initial one is 0,
     * every edge targets an allocated state and carries a label of the
     * alphabet. The alias table and the cursor are not constrained: the
     * determinisation leaves both as they were, possibly pointing past the
     * new, smaller state vector.
     */
    predicate Valid()
      reads this
    {
      |states| >= 1 && initial == 0 && InRange(states) && LabelsIn(states, alphabet)
    }

    /** Automata(T epsilon_symbol): one non-terminal state, id 0, which is the initial one. */
    constructor(eps: char)
      ensures Valid() && epsilon == eps
      ensures states == [State(false, [])] && alphabet == {} && labels == map[] && cursor == 0 && initial == 0
    {
      epsilon := eps;
      states := [State(false, [])];
      alphabet := {};
      labels := map[];
      cursor := 0;
      initial := 0;
    }

    /** begin(): the initial state. */
    function Begin(): (r: nat)
      reads this
      requires Valid()
      ensures r == 0 && r < |states|
    {
      initial
    }

    /** add_state: a new state with the given flag and the next id, which is returned. */
    method AddState(terminal: bool := false) returns (id: nat)
      requires Valid()
      modifies this
      ensures Valid() && id == old(|states|)
      ensures states == old(states) + [State(terminal, [])]
      ensures alphabet == old(alphabet) && labels == old(labels) && cursor == old(cursor) && initial == old(initial)
    {
      id := |states|;
      states := states + [State(terminal, [])];
    }

    /**
     * at(): a real id is itself; an id past the state vector is looked up in
     * the alias table. A missing alias is None: there the source prints an
     * error and returns an indeterminate value.
     */
    function At(pos: nat): (r: Option<nat>)
      reads this
      ensures pos < |states| ==> r == Some(pos)
      ensures pos >= |states| ==> (r.Some? <==> pos in labels) && (r.Some? ==> r.value == labels[pos])
    {
      if pos < |states| then Some(pos)
      else if pos in labels then Some(labels[pos])
      else None
    }

    /**
     * add_transition(from, c, to, h). An unknown `from` throws and changes
     * nothing. A `to` past the state vector first allocates a state with
     * flag `h` and records it as the alias of `to`, unless `to` already has
     * an alias, which is then kept (the new state is left unreachable). The
     * target at(to) then gets flag OR h and `from` gets the entry (c, at(to));
     * `c` joins the alphabet. When at(to) names no state, which only a stale
     * alias can cause, states.at throws after the allocation.
     */
    method AddTransition(from: nat, c: char, to: nat, h: bool := false) returns (r: Status)
      requires Valid()
      modifies this
      ensures Valid()
      ensures cursor == old(cursor) && initial == old(initial)
      ensures old(from >= |states|) ==>
                r == OutOfRange && states == old(states) && alphabet == old(alphabet) && labels == old(labels)
      ensures old(from < |states| && to < |states|) ==>
                r == Ok && states == Link(old(states), from, c, to, h) && alphabet == old(alphabet) + {c}
                && labels == old(labels)
      ensures old(from < |states| && to >= |states|) ==>
                labels == (if to in old(labels) then old(labels) else old(labels)[to := old(|states|)])
                && var grown := old(states) + [State(h, [])];
                   var t := if to < |grown| then to else labels[to];
                   (t < |grown| ==> r == Ok && states == Link(grown, from, c, t, h) && alphabet == old(alphabet) + {c})
                   && (t >= |grown| ==> r == OutOfRange && states == grown && alphabet == old(alphabet))
    {
      if from >= |states| {
        return OutOfRange;
      }
      if to >= |states| {
        var npos := AddState(h);
        if to !in labels {
          labels := labels[to := npos];
        }
      }
      var t := At(to);
      if t.None? || t.value >= |states| {
        return OutOfRange;
      }
      states := Link(states, from, c, t.value, h);
      alphabet := alphabet + {c};
      r := Ok;
    }

    /** toggle_terminal: flips the flag of a known state; an unknown one throws. */
    method ToggleTerminal(s: nat) returns (r: Status)
      requires Valid()
      modifies this
      ensures Valid()
      ensures old(s < |states|) ==> r == Ok && states == Toggled(old(states), s)
      ensures old(s >= |states|) ==> r == OutOfRange && states == old(states)
      ensures alphabet == old(alphabet) && labels == old(labels) && cursor == old(cursor) && initial == old(initial)
    {
      if s >= |states| {
        return OutOfRange;
      }
      states := Toggled(states, s);
      r := Ok;
    }

    /**
     * drop_transition(from, c, to): erases the first-inserted entry (c, to)
     * of `from`, if there is one. The alphabet is not shrunk. The source
     * indexes `from` unchecked.
     */
    method DropTransition(from: nat, c: char, to: nat)
      requires Valid() && from < |states|
      modifies this
      ensures Valid()
      ensures states == old(states)[from := old(states)[from].(edges := RemoveFirst(old(states)[from].edges, Edge(c, to)))]
      ensures alphabet == old(alphabet) && labels == old(labels) && cursor == old(cursor) && initial == old(initial)
    {
      var es := states[from].edges;
      var k := 0;
      while k < |es| && es[k] != Edge(c, to)
        invariant 0 <= k <= |es| && Edge(c, to) !in es[..k]
      {
        assert es[..k + 1] == es[..k] + [es[k]];
        k := k + 1;
      }
      var kept := es;
      if k < |es| {
        RemoveFirstAt(es, Edge(c, to), k);
        kept := es[..k] + es[k + 1..];
      } else {
        assert es[..k] == es;
      }
      RemoveFirstKeeps(es, Edge(c, to));
      KeepEdges(states, from, kept, alphabet);
      states := states[from := states[from].(edges := kept)];
    }

    /**
     * dfs_(closure, v): adds `v` and, recursively, every epsilon successor
     * not yet in `closure`. What it adds is reachable from `v`, and every
     * added state has its epsilon successors in the result.
     */
    method DfsVisit(closure0: set<nat>, v: nat) returns (closure: set<nat>)
      requires Valid() && v < |states| && v !in closure0 && Within(closure0, |states|)
      ensures closure0 + {v} <= closure && Within(closure, |states|)
      ensures forall u :: u in closure && u !in closure0 ==> Reaches(states, epsilon, v, u)
      ensures forall u, e :: u in closure && u !in closure0 && e in states[u].edges && e.symbol == epsilon ==> e.target in closure
      decreases Range(|states|) - closure0
    {
      closure := closure0 + {v};
      ReachesRefl(states, epsilon, v);
      var es := states[v].edges;
      var i := 0;
      while i < |es|
        invariant 0 <= i <= |es|
        invariant closure0 + {v} <= closure && Within(closure, |states|)
        invariant forall u :: u in closure && u !in closure0 ==> Reaches(states, epsilon, v, u)
        invariant forall u, e :: u in closure && u !in closure0 && u != v && e in states[u].edges && e.symbol == epsilon ==> e.target in closure
        invariant forall j :: 0 <= j < i && es[j].symbol == epsilon ==> es[j].target in closure
      {
        var e := es[i];
        if e.target !in closure && e.symbol == epsilon {
          assert e in states[v].edges;
          assert v in Range(|states|) - closure0 && v !in Range(|states|) - closure;
          var sub := DfsVisit(closure, e.target);
          forall u | u in sub && u !in closure0 ensures Reaches(states, epsilon, v, u) {
            if u !in closure {
              ReachesPrepend(states, epsilon, v, e.target, u);
            }
          }
          closure := sub;
        }
        i := i + 1;
      }
    }

    /** dfs(v): the epsilon closure of `v`, without `v` itself even when a cycle returns to it. */
    method Dfs(v: nat) returns (r: set<nat>)
      requires Valid() && v < |states|
      ensures r == Closure(states, epsilon, v)
    {
      var all := DfsVisit({}, v);
      r := all - {v};
      assert EpsClosed(states, epsilon, all);
      forall y | y in Closure(states, epsilon, v) ensures y in r {
        ClosedHoldsReach(states, epsilon, all, v, y);
      }
    }

    /**
     * epsilon_edges_elimination: copies onto every state the edges of its
     * closure members, then erases every epsilon edge.
     */
    method EpsilonEdgesElimination()
      requires Valid()
      modifies this
      ensures Valid()
      ensures states == Eliminated(old(states), epsilon, old(alphabet))
      ensures alphabet == old(alphabet) && labels == old(labels) && cursor == old(cursor) && initial == old(initial)
    {
      CopyClosures();
      DropEpsilon();
    }

    /** The first phase: every state in turn receives the copies from its closure. */
    method CopyClosures()
      requires Valid()
      modifies this
      ensures Valid()
      ensures states == CopyFrom(old(states), epsilon, old(alphabet), 0)
      ensures alphabet == old(alphabet) && labels == old(labels) && cursor == old(cursor) && initial == old(initial)
    {
      ghost var g := states;
      var k := 0;
      while k < |states|
        invariant 0 <= k <= |g| && |states| == |g| && CopyFrom(states, epsilon, alphabet, k) == CopyFrom(g, epsilon, alphabet, 0)
        invariant Valid()
        invariant alphabet == old(alphabet) && labels == old(labels) && cursor == old(cursor) && initial == old(initial)
      {
        assert CopyFrom(states, epsilon, alphabet, k) == CopyFrom(CopyOnto(states, epsilon, alphabet, k), epsilon, alphabet, k + 1);
        CopyClosure(k);
        k := k + 1;
      }
    }

    /** The first phase for one state `k`: the copies from its closure, members in ascending order. */
    method CopyClosure(k: nat)
      requires Valid() && k < |states|
      modifies this
      ensures Valid()
      ensures states == CopyOnto(old(states), epsilon, old(alphabet), k)
      ensures alphabet == old(alphabet) && labels == old(labels) && cursor == old(cursor) && initial == old(initial)
    {
      var closure := Dfs(k);
      ghost var h := states;
      var pending := closure;
      ghost var added: seq<Edge> := [];
      AppendNothing(h, k);
      while pending != {}
        invariant pending <= closure && Valid() && |states| == |h|
        invariant states == Append(h, k, added)
        invariant added + Gather(h, pending, alphabet) == Gather(h, closure, alphabet)
        invariant alphabet == old(alphabet) && labels == old(labels) && cursor == old(cursor) && initial == old(initial)
        decreases pending
      {
        assert MinNat(pending) in pending;
        var v :| v in pending && forall u :: u in pending ==> v <= u;
        assert v == MinNat(pending) && v != k && states[v] == h[v];
        ghost var copies := ByLabels(h[v].edges, alphabet);
        CopyMember(k, v);
        assert states == Append(h, k, added + copies) by {
          AppendTwice(h, k, added, copies);
        }
        GatherAdvance(h, closure, pending, alphabet, added, v);
        added := added + copies;
        pending := pending - {v};
      }
      assert added == Gather(h, closure, alphabet) by {
        assert Gather(h, pending, alphabet) == [];
        assert added + [] == added;
      }
    }

    /** The copies from one closure member `v`: its entries label by label, labels in ascending order. */
    method CopyMember(k: nat, v: nat)
      requires Valid() && k < |states| && v < |states| && v != k
      modifies this
      ensures Valid()
      ensures states == Append(old(states), k, ByLabels(old(states)[v].edges, old(alphabet)))
      ensures alphabet == old(alphabet) && labels == old(labels) && cursor == old(cursor) && initial == old(initial)
    {
      ghost var h := states;
      var rest := alphabet;
      ghost var added: seq<Edge> := [];
      AppendNothing(h, k);
      while rest != {}
        invariant rest <= alphabet && Valid() && |states| == |h|
        invariant states == Append(h, k, added)
        invariant added + ByLabels(h[v].edges, rest) == ByLabels(h[v].edges, alphabet)
        invariant alphabet == old(alphabet) && labels == old(labels) && cursor == old(cursor) && initial == old(initial)
        decreases rest
      {
        assert MinChar(rest) in rest;
        var c :| c in rest && forall d :: d in rest ==> c <= d;
        assert c == MinChar(rest);
        var range := Labelled(states[v].edges, c);
        assert states[v] == h[v];
        assert forall e :: e in range ==> e.symbol == c && e.target < |states| by {
          forall e | e in range
            ensures e.symbol == c && e.target < |states|
          {
            assert e in states[v].edges;
          }
        }
        CopyLabel(k, c, range);
        AppendTwice(h, k, added, range);
        ByLabelsAdvance(h[v].edges, alphabet, rest, added, c);
        added := added + range;
        rest := rest - {c};
      }
      assert added == ByLabels(h[v].edges, alphabet);
    }

    /** One add_transition(k, c, t) of the first phase: the target is known and the label already in the alphabet. */
    method CopyEdge(k: nat, c: char, t: nat)
      requires Valid() && k < |states| && t < |states| && c in alphabet
      modifies this
      ensures Valid() && states == Append(old(states), k, [Edge(c, t)])
      ensures alphabet == old(alphabet) && labels == old(labels) && cursor == old(cursor) && initial == old(initial)
    {
      var status := AddTransition(k, c, t, false);
      LinkPlain(old(states), k, c, t);
      assert alphabet == old(alphabet) + {c};
    }

    /** The innermost loop of the first phase: add_transition(k, c, target) for each entry of the equal_range. */
    method CopyLabel(k: nat, c: char, range: seq<Edge>)
      requires Valid() && k < |states| && c in alphabet
      requires forall e :: e in range ==> e.symbol == c && e.target < |states|
      modifies this
      ensures Valid() && states == Append(old(states), k, range)
      ensures alphabet == old(alphabet) && labels == old(labels) && cursor == old(cursor) && initial == old(initial)
    {
      ghost var base := states;
      var i := 0;
      AppendNothing(base, k);
      while i < |range|
        invariant 0 <= i <= |range| && Valid() && |states| == |base|
        invariant states == Append(base, k, range[..i])
        invariant alphabet == old(alphabet) && labels == old(labels) && cursor == old(cursor) && initial == old(initial)
      {
        assert range[i] in range;
        CopyEdge(k, c, range[i].target);
        assert states == Append(base, k, range[..i + 1]) by {
          AppendTwice(base, k, range[..i], [range[i]]);
          assert range[..i] + [range[i]] == range[..i + 1];
        }
        i := i + 1;
      }
      assert range[..|range|] == range;
    }

    /** The second phase: every state's epsilon entries are erased one after the other. */
    method DropEpsilon()
      requires Valid()
      modifies this
      ensures Valid()
      ensures states == DropEps(old(states), epsilon)
      ensures alphabet == old(alphabet) && labels == old(labels) && cursor == old(cursor) && initial == old(initial)
    {
      ghost var h := states;
      var i := 0;
      while i < |states|
        invariant 0 <= i <= |states| && |states| == |h|
        invariant forall j :: 0 <= j < i ==> states[j] == h[j].(edges := Without(h[j].edges, epsilon))
        invariant forall j :: i <= j < |h| ==> states[j] == h[j]
        invariant alphabet == old(alphabet) && labels == old(labels) && cursor == old(cursor) && initial == old(initial)
      {
        var es := states[i].edges;
        var n := |Labelled(es, epsilon)|;
        var m := 0;
        while m < n
          invariant 0 <= m <= n
          invariant Without(es, epsilon) == Without(h[i].edges, epsilon) && |Labelled(es, epsilon)| == n - m
        {
          es := EraseFirst(es, epsilon);
          m := m + 1;
        }
        WithoutUnlabelled(es, epsilon);
        states := states[i := states[i].(edges := es)];
        i := i + 1;
      }
      assert states == DropEps(h, epsilon);
      forall v, e | 0 <= v < |states| && e in states[v].edges ensures e.target < |states| && e.symbol in alphabet {
        assert e in h[v].edges;
      }
    }

    /**
     * thompson_nfa2dfa: epsilon elimination, then the subset construction
     * from state 0, whose result replaces the state vector, the alphabet and
     * the initial state. The alias table and the cursor are not replaced.
     */
    method ThompsonNfa2Dfa() returns (ghost subsets: seq<set<nat>>, ghost ids: map<set<nat>, nat>,
                                      ghost parent: seq<nat>, ghost via: seq<char>)
      requires Valid()
      modifies this
      ensures Valid()
      ensures InRange(Eliminated(old(states), epsilon, old(alphabet))) && |Eliminated(old(states), epsilon, old(alphabet))| >= 1
      ensures IsSubsetDfa(Eliminated(old(states), epsilon, old(alphabet)), old(alphabet), 0, states, alphabet, subsets, ids)
      ensures BfsOrder(Eliminated(old(states), epsilon, old(alphabet)), old(alphabet), subsets, ids, parent, via)
      ensures labels == old(labels) && cursor == old(cursor) && initial == 0
    {
      EpsilonEdgesElimination();
      var ds, da;
      ds, da, subsets, ids, parent, via := Determinise(states, alphabet, initial);
      SubsetDeterministic(states, alphabet, initial, ds, da, subsets, ids);
      states, alphabet, initial := ds, da, 0;
    }

    /**
     * step(c): follows the first-inserted entry labelled `c` from the cursor
     * and reports the target and its flag; without one it reports (-1, false)
     * and the cursor stays. The source indexes the cursor unchecked.
     */
    method Step(c: char) returns (id: int, terminal: bool)
      requires Valid() && cursor < |states|
      modifies this
      ensures states == old(states) && alphabet == old(alphabet) && labels == old(labels) && initial == old(initial)
      ensures cursor < |states|
      ensures match FirstTarget(old(states)[old(cursor)].edges, c)
        case None => id == -1 && !terminal && cursor == old(cursor)
        case Some(t) => id == t && cursor == t && terminal == states[t].terminal
    {
      var found := FirstTarget(states[cursor].edges, c);
      if found.Some? {
        cursor := found.value;
        return cursor, states[found.value].terminal;
      }
      return -1, false;
    }

    /**
     * read_expression: steps every symbol and answers with the value of the
     * last step (false for the empty word); the cursor is then reset to 0.
     */
    method ReadExpression(w: seq<char>) returns (r: bool)
      requires Valid() && (w == [] || cursor < |states|)
      modifies this
      ensures states == old(states) && alphabet == old(alphabet) && labels == old(labels) && initial == old(initial)
      ensures cursor == 0
      ensures w == [] ==> !r
      ensures w != [] ==> r == Read(states, old(cursor), w, false)
    {
      r := false;
      var i := 0;
      while i < |w|
        invariant 0 <= i <= |w|
        invariant states == old(states) && alphabet == old(alphabet) && labels == old(labels) && initial == old(initial)
        invariant w != [] ==> cursor < |states| && Read(states, cursor, w[i..], r) == Read(states, old(cursor), w, false)
        invariant w == [] ==> !r
      {
        assert w[i..][0] == w[i] && w[i..][1..] == w[i + 1..];
        var id, terminal := Step(w[i]);
        r := terminal;
        i := i + 1;
      }
      cursor := 0;
    }

    /** read_string: read_expression over the characters of a string. */
    method ReadString(word: string) returns (r: bool)
      requires Valid() && (word == [] || cursor < |states|)
      modifies this
      ensures states == old(states) && alphabet == old(alphabet) && labels == old(labels) && initial == old(initial)
      ensures cursor == 0
      ensures word == [] ==> !r
      ensures word != [] ==> r == Read(states, old(cursor), word, false)
    {
      r := ReadExpression(word);
    }
  }
}
