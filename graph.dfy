/**
 * The graph store shared by both versions of the Automata class: a vector of
 * states, each holding a terminal flag and a transition multimap keyed by the
 * edge label, plus lookups on those multimaps.
 *
 * The source keeps a state's transitions in a std::multimap ordered by label;
 * among equal labels a multimap keeps insertion order. Here a state keeps its
 * edges in insertion order, and every lookup works on the subsequence of one
 * label, which is exactly what equal_range and find see.
 */
module Graph {

  datatype Option<T> = None | Some(value: T)

  /** Outcome of an operation that throws std::out_of_range on a bad state id. */
  datatype Status = Ok | OutOfRange

  /** One entry of a transition multimap: the label and the id of the target state. */
  datatype Edge = Edge(symbol: char, target: nat)

  /** A state; its id is its index in the state vector. */
  datatype State = State(terminal: bool, edges: seq<Edge>)

  /** The ids 0 .. n-1. */
  function Range(n: nat): (r: set<nat>)
    ensures forall i: nat :: i in r <==> i < n
  {
    if n == 0 then {}
    else
      var r := Range(n - 1) + {n - 1};
      assert forall i: nat :: i in r <==> i in Range(n - 1) || i == n - 1;
      r
  }

  /** Every id in `s` names an allocated state. */
  predicate Within(s: set<nat>, n: nat)
  {
    forall v :: v in s ==> v < n
  }

  /** Every edge of every state points at an allocated state. */
  predicate InRange(states: seq<State>)
  {
    forall v, e :: 0 <= v < |states| && e in states[v].edges ==> e.target < |states|
  }

  /** Every label on an edge is a member of the alphabet. */
  predicate LabelsIn(states: seq<State>, alphabet: set<char>)
  {
    forall v, e :: 0 <= v < |states| && e in states[v].edges ==> e.symbol in alphabet
  }

  /** No edge carries the label `c`. */
  predicate NoLabel(states: seq<State>, c: char)
  {
    forall v, e :: 0 <= v < |states| && e in states[v].edges ==> e.symbol != c
  }

  /** The set of labels used on the edges of `states`. */
  function EdgeLabels(states: seq<State>): set<char>
  {
    set v, e | 0 <= v < |states| && e in states[v].edges :: e.symbol
  }

  /** multimap::equal_range: the entries with label `c`, in insertion order. */
  function Labelled(es: seq<Edge>, c: char): (r: seq<Edge>)
    ensures forall e :: e in r <==> e in es && e.symbol == c
    ensures |r| <= |es|
  {
    if es == [] then []
    else
      assert forall e :: e in es <==> e == es[0] || e in es[1..];
      (if es[0].symbol == c then [es[0]] else []) + Labelled(es[1..], c)
  }

  /** Erasing the whole equal_range of `c`: the entries whose label is not `c`, in order. */
  function Without(es: seq<Edge>, c: char): (r: seq<Edge>)
    ensures forall e :: e in r <==> e in es && e.symbol != c
    ensures forall d :: d != c ==> Labelled(r, d) == Labelled(es, d)
  {
    if es == [] then []
    else
      assert forall e :: e in es <==> e == es[0] || e in es[1..];
      assert es == [es[0]] + es[1..];
      var rest := Without(es[1..], c);
      assert forall d :: d != c ==> Labelled(rest, d) == Labelled(es[1..], d);
      if es[0].symbol == c then rest
      else
        assert forall d :: Labelled([es[0]] + rest, d) == Labelled([es[0]], d) + Labelled(rest, d) by {
          forall d ensures Labelled([es[0]] + rest, d) == Labelled([es[0]], d) + Labelled(rest, d) {
            LabelledConcat([es[0]], rest, d);
          }
        }
        [es[0]] + rest
  }

  /**
   * multimap::find: the target of the first-inserted entry with label `c`,
   * which is the head of its equal_range, or None when there is none.
   */
  function FirstTarget(es: seq<Edge>, c: char): (r: Option<nat>)
    ensures r.None? <==> (forall e :: e in es ==> e.symbol != c)
    ensures r.Some? ==> Labelled(es, c) != [] && r.value == Labelled(es, c)[0].target && Edge(c, r.value) in es
  {
    if es == [] then None
    else if es[0].symbol == c then Some(es[0].target)
    else
      assert forall e :: e in es <==> e == es[0] || e in es[1..];
      FirstTarget(es[1..], c)
  }

  /** The NFA successor set: the targets of all `c`-labelled edges leaving a state of `s`. */
  function Post(states: seq<State>, s: set<nat>, c: char): set<nat>
    requires Within(s, |states|)
  {
    set v, e | v in s && e in states[v].edges && e.symbol == c :: e.target
  }

  /**
   * The successor set the subset construction computes: it looks only at the
   * labels in the alphabet, so an edge whose label never reached the alphabet
   * contributes nothing.
   */
  function Next(states: seq<State>, alphabet: set<char>, s: set<nat>, c: char): set<nat>
    requires Within(s, |states|)
  {
    if c in alphabet then Post(states, s, c) else {}
  }

  /** A set of NFA states is accepting when one of its members is terminal. */
  predicate Accepting(states: seq<State>, s: set<nat>)
    requires Within(s, |states|)
  {
    exists v :: v in s && states[v].terminal
  }

  /**
   * The effect of a successful add_transition(from, c, t, h) once `t` names a
   * real state: the target's terminal flag becomes flag OR h and one entry
   * (c, t) is appended to `from`'s multimap.
   */
  function Link(states: seq<State>, from: nat, c: char, t: nat, h: bool): (r: seq<State>)
    requires from < |states| && t < |states|
    ensures |r| == |states| && r[from].edges == states[from].edges + [Edge(c, t)] && r[t].terminal == (states[t].terminal || h)
    ensures forall v :: 0 <= v < |states| && v != from ==> r[v].edges == states[v].edges
    ensures forall v :: 0 <= v < |states| && v != t ==> r[v].terminal == states[v].terminal
  {
    var marked := states[t := states[t].(terminal := states[t].terminal || h)];
    marked[from := marked[from].(edges := marked[from].edges + [Edge(c, t)])]
  }

  /** The least element of a nonempty set of labels: the next one a std::set<char> iteration visits. */
  ghost function MinChar(s: set<char>): (m: char)
    requires s != {}
    ensures m in s && forall c :: c in s ==> m <= c
    decreases s
  {
    var c :| c in s;
    if s == {c} then c
    else
      var m := MinChar(s - {c});
      assert forall d :: d in s ==> d == c || d in s - {c};
      if c <= m then c else m
  }

  /** The least element of a nonempty set of ids: the next one a std::set<size_t> iteration visits. */
  ghost function MinNat(s: set<nat>): (m: nat)
    requires s != {}
    ensures m in s && forall v :: v in s ==> m <= v
    decreases s
  {
    var v :| v in s;
    if s == {v} then v
    else
      var m := MinNat(s - {v});
      assert forall u :: u in s ==> u == v || u in s - {v};
      if v <= m then v else m
  }

  lemma LabelledConcat(a: seq<Edge>, b: seq<Edge>, c: char)
    ensures Labelled(a + b, c) == Labelled(a, c) + Labelled(b, c)
  {
    if a != [] {
      assert (a + b)[0] == a[0] && (a + b)[1..] == a[1..] + b;
      LabelledConcat(a[1..], b, c);
      assert Labelled(a + b, c) == (if a[0].symbol == c then [a[0]] else []) + Labelled(a[1..] + b, c);
    } else {
      assert a + b == b;
    }
  }

  /** Appending one entry extends exactly the equal_range of its label. */
  lemma LabelledAppend(es: seq<Edge>, e: Edge, c: char)
    ensures Labelled(es + [e], c) == Labelled(es, c) + (if e.symbol == c then [e] else [])
  {
    LabelledConcat(es, [e], c);
    assert Labelled([e], c) == (if e.symbol == c then [e] else []) + Labelled([], c);
  }

  /** The targets of a list of entries. */
  function TargetsOf(es: seq<Edge>): set<nat>
  {
    set e | e in es :: e.target
  }

  lemma TargetsOfSnoc(es: seq<Edge>, e: Edge)
    ensures TargetsOf(es + [e]) == TargetsOf(es) + {e.target}
  {
    assert forall x :: x in es + [e] <==> x in es || x == e;
  }

  lemma TargetsOfPrefix(es: seq<Edge>, i: nat)
    requires i < |es|
    ensures TargetsOf(es[..i + 1]) == TargetsOf(es[..i]) + {es[i].target}
  {
    assert es[..i + 1] == es[..i] + [es[i]];
    TargetsOfSnoc(es[..i], es[i]);
  }

  /** Adding one state to a set adds that state's `c`-successors to its Post. */
  lemma PostAddOne(states: seq<State>, s: set<nat>, v: nat, c: char)
    requires Within(s, |states|) && v < |states|
    ensures Within(s + {v}, |states|)
    ensures Post(states, s + {v}, c) == Post(states, s, c) + TargetsOf(Labelled(states[v].edges, c))
  {
  }

  /** The successors of one state are the targets of its entries under the label. */
  lemma PostOne(states: seq<State>, v: nat, c: char)
    requires v < |states|
    ensures Within({v}, |states|) && Post(states, {v}, c) == TargetsOf(Labelled(states[v].edges, c))
  {
    PostAddOne(states, {}, v, c);
    assert {} + {v} == {v};
  }

  lemma PostEmpty(states: seq<State>, c: char)
    ensures Post(states, {}, c) == {}
  {
  }

  /** In a graph whose edges stay in range, a successor set stays in range. */
  lemma PostWithin(states: seq<State>, s: set<nat>, c: char)
    requires InRange(states) && Within(s, |states|)
    ensures Within(Post(states, s, c), |states|)
  {
  }

  /** Replacing a state's edges by some of them keeps every target and label within bounds. */
  lemma KeepEdges(states: seq<State>, k: nat, xs: seq<Edge>, alphabet: set<char>)
    requires k < |states| && InRange(states) && LabelsIn(states, alphabet)
    requires forall e :: e in xs ==> e in states[k].edges
    ensures InRange(states[k := states[k].(edges := xs)]) && LabelsIn(states[k := states[k].(edges := xs)], alphabet)
  {
  }

  lemma AcceptingAdd(states: seq<State>, s: set<nat>, t: nat)
    requires Within(s, |states|) && t < |states|
    ensures Within(s + {t}, |states|)
    ensures Accepting(states, s + {t}) == (Accepting(states, s) || states[t].terminal)
  {
  }

  /** A set of one element is that element's singleton. */
  lemma Singleton(s: set<nat>, v: nat)
    requires |s| == 1 && v in s
    ensures s == {v}
  {
    assert |s - {v}| == 0;
  }

  /** A multimap without entries labelled `c` has an empty equal_range for `c`. */
  lemma LabelledNone(es: seq<Edge>, c: char)
    requires forall e :: e in es ==> e.symbol != c
    ensures Labelled(es, c) == []
  {
  }

  /** The entries `xs` appended, in order, to the multimap of state `k`. */
  function Append(states: seq<State>, k: nat, xs: seq<Edge>): (r: seq<State>)
    requires k < |states|
    ensures |r| == |states| && r[k].terminal == states[k].terminal && r[k].edges == states[k].edges + xs
    ensures forall v :: 0 <= v < |states| && v != k ==> r[v] == states[v]
  {
    states[k := states[k].(edges := states[k].edges + xs)]
  }

  lemma AppendNothing(states: seq<State>, k: nat)
    requires k < |states|
    ensures Append(states, k, []) == states
  {
    assert states[k].edges + [] == states[k].edges;
  }

  /** Appending in two goes is appending the concatenation. */
  lemma AppendTwice(states: seq<State>, k: nat, a: seq<Edge>, b: seq<Edge>)
    requires k < |states|
    ensures Append(Append(states, k, a), k, b) == Append(states, k, a + b)
  {
    assert states[k].edges + a + b == states[k].edges + (a + b);
  }

  /** Link without a terminal flag to merge only appends the entry. */
  lemma LinkPlain(states: seq<State>, from: nat, c: char, t: nat)
    requires from < |states| && t < |states|
    ensures Link(states, from, c, t, false) == Append(states, from, [Edge(c, t)])
  {
    assert states[t := states[t].(terminal := states[t].terminal || false)] == states;
  }

  /** Erasing the first entry labelled `c`, the one an iterator at the start of its equal_range designates. */
  function EraseFirst(es: seq<Edge>, c: char): (r: seq<Edge>)
    ensures Without(r, c) == Without(es, c)
    ensures |Labelled(r, c)| == if Labelled(es, c) == [] then 0 else |Labelled(es, c)| - 1
  {
    if es == [] then []
    else if es[0].symbol == c then
      assert Labelled(es, c) == [es[0]] + Labelled(es[1..], c);
      es[1..]
    else
      var r := [es[0]] + EraseFirst(es[1..], c);
      assert r[0] == es[0] && r[1..] == EraseFirst(es[1..], c);
      r
  }

  /** Once the equal_range of `c` is empty, erasing it changes nothing. */
  lemma {:induction false} WithoutUnlabelled(es: seq<Edge>, c: char)
    requires Labelled(es, c) == []
    ensures Without(es, c) == es
  {
    if es != [] {
      assert es[0].symbol != c;
      WithoutUnlabelled(es[1..], c);
      assert es == [es[0]] + es[1..];
    }
  }
}
