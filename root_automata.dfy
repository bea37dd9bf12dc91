/**
 * The Automata class of the repository's root automata.h, with T = char:
 * the earlier variant of the class. It has the state vector, the alphabet,
 * the reading cursor and the initial state, but no alias table and no
 * epsilon elimination; add_transition fails part-way on an unknown target,
 * and read_expression stops at the first terminal state it reaches.
 */
module RootAutomata {
  import opened Graph
  import opened Subsets
  import opened Language

  class Automata {
    var states: seq<State>
    var alphabet: set<char>
    var cursor: nat
    var initial: nat
    const epsilon: char

    /**
     * The store has at least one state. Nothing more holds in general: an
     * add_transition to an unknown target leaves an entry pointing past the
     * state vector whose label never entered the alphabet, the initial id
     * is whatever the constructor was given, and the determinisation leaves
     * the cursor where it was.
     */
    predicate Valid()
      reads this
    {
      |states| >= 1
    }

    /**
     * Automata(T epsilon_symbol, size_t initial_id): one non-terminal state
     * at index 0, and begin() answers `initialId`, which need not be 0 nor
     * name a state.
     */
    constructor(eps: char, initialId: nat)
      ensures Valid() && epsilon == eps
      ensures states == [State(false, [])] && alphabet == {} && cursor == 0 && initial == initialId
    {
      epsilon := eps;
      states := [State(false, [])];
      alphabet := {};
      cursor := 0;
      initial := initialId;
    }

    /** begin(): the id given to the constructor, or 0 after a determinisation. */
    function Begin(): (r: nat)
      reads this
      ensures r == initial
    {
      initial
    }

    /** add_state: a new state with the given flag and the next id, which is returned. */
    method AddState(terminal: bool := false) returns (id: nat)
      requires Valid()
      modifies this
      ensures Valid() && id == old(|states|)
      ensures states == old(states) + [State(terminal, [])]
      ensures alphabet == old(alphabet) && cursor == old(cursor) && initial == old(initial)
    {
      id := |states|;
      states := states + [State(terminal, [])];
    }

    /**
     * add_transition(from, c, to, h). An unknown `from` throws before
     * anything changes. A known `from` receives the entry (c, to) first;
     * an unknown `to` then throws, so the entry stays, dangling, while the
     * flags and the alphabet are untouched. Otherwise `to` gets flag OR h
     * and `c` joins the alphabet. The source reports the failure on the
     * console; here it is the OutOfRange status.
     */
    method AddTransition(from: nat, c: char, to: nat, h: bool := false) returns (r: Status)
      requires Valid()
      modifies this
      ensures Valid()
      ensures cursor == old(cursor) && initial == old(initial)
      ensures old(from >= |states|) ==> r == OutOfRange && states == old(states) && alphabet == old(alphabet)
      ensures old(from < |states| && to >= |states|) ==>
                r == OutOfRange && states == Append(old(states), from, [Edge(c, to)]) && alphabet == old(alphabet)
      ensures old(from < |states| && to < |states|) ==>
                r == Ok && states == Link(old(states), from, c, to, h) && alphabet == old(alphabet) + {c}
    {
      if from >= |states| {
        return OutOfRange;
      }
      if to >= |states| {
        states := Append(states, from, [Edge(c, to)]);
        return OutOfRange;
      }
      states := Link(states, from, c, to, h);
      alphabet := alphabet + {c};
      r := Ok;
    }

    /**
     * thompson_nfa2dfa: the subset construction run directly on the stored
     * automaton, the epsilon symbol being an ordinary label. The result
     * replaces the states and the alphabet and has initial state 0; the
     * cursor is not carried over by the move and keeps its old value. The
     * source reads the flag of every edge target met, and the initial state
     * must name a state.
     */
    method ThompsonNfa2Dfa() returns (ghost subsets: seq<set<nat>>, ghost ids: map<set<nat>, nat>,
                                      ghost parent: seq<nat>, ghost via: seq<char>)
      requires Valid() && InRange(states) && initial < |states|
      modifies this
      ensures Valid() && InRange(states) && initial == 0 && cursor == old(cursor)
      ensures IsSubsetDfa(old(states), old(alphabet), old(initial), states, alphabet, subsets, ids)
      ensures BfsOrder(old(states), old(alphabet), subsets, ids, parent, via)
      ensures forall j, c :: 0 <= j < |states| ==> |Labelled(states[j].edges, c)| <= 1
    {
      var ds, da;
      ds, da, subsets, ids, parent, via := Determinise(states, alphabet, initial);
      SubsetDeterministic(states, alphabet, initial, ds, da, subsets, ids);
      states, alphabet, initial := ds, da, 0;
    }

    /**
     * step(c): follows the first-inserted entry labelled `c` from the cursor
     * and reports the target and its flag; without one it reports (-1, false)
     * and the cursor stays. The source indexes the cursor and the target
     * unchecked.
     */
    method Step(c: char) returns (id: int, terminal: bool)
      requires Valid() && cursor < |states|
      requires FirstTarget(states[cursor].edges, c).Some? ==> FirstTarget(states[cursor].edges, c).value < |states|
      modifies this
      ensures states == old(states) && alphabet == old(alphabet) && initial == old(initial)
      ensures cursor < |states|
      ensures match FirstTarget(old(states)[old(cursor)].edges, c)
        case None => id == -1 && !terminal && cursor == old(cursor)
        case Some(t) => id == t && cursor == t && terminal == states[t].terminal
    {
      var found := FirstTarget(states[cursor].edges, c);
      if found.Some? {
        cursor := found.value;
        return cursor, states[found.value].terminal;
      }
      return -1, false;
    }

    /**
     * read_expression: steps through the word and answers true as soon as a
     * step lands on a terminal state, false at the first symbol without an
     * entry and false when the word runs out. The cursor stays where the
     * walk stopped.
     */
    method ReadExpression(w: seq<char>) returns (r: bool)
      requires Valid() && InRange(states) && cursor < |states|
      modifies this
      ensures states == old(states) && alphabet == old(alphabet) && initial == old(initial)
      ensures r == ReadRoot(states, old(cursor), w)
      ensures cursor == ReadRootCursor(states, old(cursor), w)
    {
      ghost var answer, stop := ReadRoot(states, cursor, w), ReadRootCursor(states, cursor, w);
      var i := 0;
      while i < |w|
        invariant 0 <= i <= |w| && cursor < |states|
        invariant states == old(states) && alphabet == old(alphabet) && initial == old(initial)
        invariant ReadRoot(states, cursor, w[i..]) == answer && ReadRootCursor(states, cursor, w[i..]) == stop
      {
        ghost var rest := w[i..];
        assert rest[0] == w[i] && rest[1..] == w[i + 1..];
        ReadRootStep(states, cursor, rest);
        var id, terminal := Step(w[i]);
        if id == -1 {
          return false;
        }
        if terminal {
          return true;
        }
        i := i + 1;
      }
      return false;
    }
  }
}
