/**
 * The subset (powerset) construction of thompson_nfa2dfa. The loop text is
 * the same in src/automata.h:108-153 and automata.h:78-124, so it is modelled
 * once, on the values it reads (the NFA's states, its alphabet and its
 * initial id), and each version's class calls it and installs the result.
 *
 * Subset identity: the source keys its table of seen subsets by a hash digest
 * of the set; here it is keyed by the set itself, so two different subsets
 * are never merged into one DFA state.
 */
module Subsets {
  import opened Graph

  /** Every subset of the ids 0 .. n-1; the table of seen subsets never leaves it. */
  ghost function AllSubsets(n: nat): set<set<nat>>
  {
    set s | s <= Range(n)
  }

  /** Lexicographic order on the (DFA id, label) pairs the loop examines. */
  predicate Before(p: nat, c: char, q: nat, d: char)
  {
    p < q || (p == q && c < d)
  }

  /** `ids` numbers the subsets: DFA id j stands for NFA subset subsets[j], and only those. */
  ghost predicate Numbering(subsets: seq<set<nat>>, ids: map<set<nat>, nat>)
  {
    (forall j :: 0 <= j < |subsets| ==> subsets[j] in ids && ids[subsets[j]] == j)
    && (forall s :: s in ids ==> ids[s] < |subsets| && subsets[ids[s]] == s)
  }

  /** Every subset is a nonempty set of allocated NFA states. */
  ghost predicate Proper(ns: seq<State>, subsets: seq<set<nat>>)
  {
    forall j :: 0 <= j < |subsets| ==> subsets[j] != {} && Within(subsets[j], |ns|)
  }

  /**
   * DFA state j has the edges the construction gives it under label c: none
   * when the NFA successor set is empty, otherwise exactly one, to the DFA id
   * of that successor set.
   */
  ghost predicate EdgeFor(ns: seq<State>, na: set<char>, subsets: seq<set<nat>>, ids: map<set<nat>, nat>,
                          ds: seq<State>, j: nat, c: char)
    requires j < |subsets| && j < |ds| && Within(subsets[j], |ns|)
  {
    var t := Next(ns, na, subsets[j], c);
    if t == {} then Labelled(ds[j].edges, c) == []
    else t in ids && Labelled(ds[j].edges, c) == [Edge(c, ids[t])]
  }

  /**
   * `ds` with alphabet `da` is the subset automaton of the NFA `ns` (alphabet
   * `na`, initial state `init`), with DFA id j standing for subsets[j]:
   * state 0 stands for {init} and is created non-terminal; every later state
   * is terminal exactly when its subset holds a terminal NFA state; the edges
   * are those of EdgeFor; the alphabet is exactly the set of labels on edges.
   */
  ghost predicate IsSubsetDfa(ns: seq<State>, na: set<char>, init: nat,
                              ds: seq<State>, da: set<char>, subsets: seq<set<nat>>, ids: map<set<nat>, nat>)
  {
    |ds| == |subsets| >= 1 && subsets[0] == {init}
    && Numbering(subsets, ids)
    && Proper(ns, subsets)
    && !ds[0].terminal
    && (forall j :: 0 < j < |ds| ==> ds[j].terminal == Accepting(ns, subsets[j]))
    && (forall j, c :: 0 <= j < |ds| ==> EdgeFor(ns, na, subsets, ids, ds, j, c))
    && da == EdgeLabels(ds)
  }

  /**
   * The DFA ids follow breadth-first discovery: id j > 0 was found as the
   * successor of DFA state parent[j] under label via[j]; the discovering
   * (state, label) pairs increase with the id; and whenever a pair (p, c)
   * leads to a nonempty successor set, that set's id is 0 or was discovered
   * at a pair no later than (p, c).
   */
  ghost predicate BfsOrder(ns: seq<State>, na: set<char>, subsets: seq<set<nat>>, ids: map<set<nat>, nat>,
                           parent: seq<nat>, via: seq<char>)
    requires Proper(ns, subsets) && Numbering(subsets, ids)
  {
    |parent| == |subsets| && |via| == |subsets|
    && (forall j :: 0 < j < |subsets| ==>
          parent[j] < j && via[j] in na && subsets[j] == Next(ns, na, subsets[parent[j]], via[j]))
    && (forall j, k :: 0 < j < k < |subsets| ==> Before(parent[j], via[j], parent[k], via[k]))
    && (forall p, c :: 0 <= p < |subsets| && Next(ns, na, subsets[p], c) != {} ==>
          Next(ns, na, subsets[p], c) in ids && FoundBy(subsets, ids, parent, via, Next(ns, na, subsets[p], c), p, c))
  }

  /** Subset `t` has id 0 or was discovered at a pair no later than (p, c). */
  ghost predicate FoundBy(subsets: seq<set<nat>>, ids: map<set<nat>, nat>, parent: seq<nat>, via: seq<char>,
                          t: set<nat>, p: nat, c: char)
    requires t in ids && Numbering(subsets, ids) && |parent| == |subsets| && |via| == |subsets|
  {
    ids[t] == 0 || !Before(p, c, parent[ids[t]], via[ids[t]])
  }

  /**
   * The innermost loops of the construction: the union of the `sym`-successors
   * of the states in `vset`, and whether any of them is terminal.
   */
  method Successors(ns: seq<State>, vset: set<nat>, sym: char) returns (toVset: set<nat>, isTerminal: bool)
    requires InRange(ns) && Within(vset, |ns|)
    ensures toVset == Post(ns, vset, sym)
    ensures Within(toVset, |ns|)
    ensures isTerminal == Accepting(ns, toVset)
  {
    toVset, isTerminal := {}, false;
    PostEmpty(ns, sym);
    var pending := vset;
    while pending != {}
      invariant pending <= vset
      invariant toVset == Post(ns, vset - pending, sym)
      invariant Within(toVset, |ns|)
      invariant isTerminal == Accepting(ns, toVset)
      decreases pending
    {
      var v :| v in pending;
      toVset, isTerminal := AddTargets(ns, v, sym, toVset, isTerminal);
      PostAddOne(ns, vset - pending, v, sym);
      assert (vset - pending) + {v} == vset - (pending - {v});
      pending := pending - {v};
    }
    assert vset - pending == vset;
  }

  /** The equal_range loop for one member `v`: its `sym`-targets join the successor set. */
  method AddTargets(ns: seq<State>, v: nat, sym: char, toVset0: set<nat>, isTerminal0: bool)
    returns (toVset: set<nat>, isTerminal: bool)
    requires InRange(ns) && v < |ns| && Within(toVset0, |ns|) && isTerminal0 == Accepting(ns, toVset0)
    ensures toVset == toVset0 + TargetsOf(Labelled(ns[v].edges, sym))
    ensures Within(toVset, |ns|)
    ensures isTerminal == Accepting(ns, toVset)
  {
    toVset, isTerminal := toVset0, isTerminal0;
    var range := Labelled(ns[v].edges, sym);
    var i := 0;
    while i < |range|
      invariant 0 <= i <= |range|
      invariant toVset == toVset0 + TargetsOf(range[..i])
      invariant Within(toVset, |ns|)
      invariant isTerminal == Accepting(ns, toVset)
    {
      assert range[i] in ns[v].edges;
      var to := range[i].target;
      AcceptingAdd(ns, toVset, to);
      if ns[to].terminal {
        isTerminal := true;
      }
      toVset := toVset + {to};
      TargetsOfPrefix(range, i);
      i := i + 1;
    }
    assert range[..|range|] == range;
  }

  /** The facts about the construction's bookkeeping that the loop keeps at every step. */
  ghost predicate Shape(ns: seq<State>, subsets: seq<set<nat>>, ids: map<set<nat>, nat>, ds: seq<State>,
                        parent: seq<nat>, via: seq<char>)
  {
    |subsets| >= 1 && |ds| == |subsets| && |parent| == |subsets| && |via| == |subsets| && |ids| == |subsets|
    && Numbering(subsets, ids) && Proper(ns, subsets)
  }

  ghost predicate Frame(ns: seq<State>, na: set<char>, init: nat, subsets: seq<set<nat>>, ids: map<set<nat>, nat>,
                        ds: seq<State>, da: set<char>, parent: seq<nat>, via: seq<char>)
  {
    Shape(ns, subsets, ids, ds, parent, via)
    && subsets[0] == {init}
    && ids.Keys <= AllSubsets(|ns|)
    && !ds[0].terminal && (forall j :: 0 < j < |ds| ==> ds[j].terminal == Accepting(ns, subsets[j]))
    && da == EdgeLabels(ds)
    && (forall j :: 0 < j < |subsets| ==>
          parent[j] < j && via[j] in na && subsets[j] == Next(ns, na, subsets[parent[j]], via[j]))
    && (forall j, k :: 0 < j < k < |subsets| ==> Before(parent[j], via[j], parent[k], via[k]))
  }

  /** The loop has examined pair (p, c) once it is working on DFA state `done` with labels `rest` still to visit. */
  predicate Examined(p: nat, c: char, done: nat, rest: set<char>)
  {
    p < done || (p == done && c !in rest)
  }

  /** Every pair examined so far has its edge and its discovery recorded. */
  ghost predicate Recorded(ns: seq<State>, na: set<char>, subsets: seq<set<nat>>, ids: map<set<nat>, nat>,
                           ds: seq<State>, parent: seq<nat>, via: seq<char>, done: nat, rest: set<char>)
    requires Shape(ns, subsets, ids, ds, parent, via)
  {
    EdgesRecorded(ns, na, subsets, ids, ds, parent, via, done, rest)
    && FoundRecorded(ns, na, subsets, ids, ds, parent, via, done, rest)
  }

  ghost predicate EdgesRecorded(ns: seq<State>, na: set<char>, subsets: seq<set<nat>>, ids: map<set<nat>, nat>,
                                ds: seq<State>, parent: seq<nat>, via: seq<char>, done: nat, rest: set<char>)
    requires Shape(ns, subsets, ids, ds, parent, via)
  {
    forall j, c :: 0 <= j < |ds| && Examined(j, c, done, rest) ==> EdgeFor(ns, na, subsets, ids, ds, j, c)
  }

  ghost predicate FoundRecorded(ns: seq<State>, na: set<char>, subsets: seq<set<nat>>, ids: map<set<nat>, nat>,
                                ds: seq<State>, parent: seq<nat>, via: seq<char>, done: nat, rest: set<char>)
    requires Shape(ns, subsets, ids, ds, parent, via)
  {
    forall p, c :: 0 <= p < |subsets| && Examined(p, c, done, rest) && Next(ns, na, subsets[p], c) != {} ==>
      Next(ns, na, subsets[p], c) in ids && FoundBy(subsets, ids, parent, via, Next(ns, na, subsets[p], c), p, c)
  }

  /** The loop is working on DFA state `done`, with the labels `rest` still to visit. */
  ghost predicate Working(ns: seq<State>, na: set<char>, subsets: seq<set<nat>>, ids: map<set<nat>, nat>,
                          ds: seq<State>, parent: seq<nat>, via: seq<char>, done: nat, rest: set<char>)
    requires Shape(ns, subsets, ids, ds, parent, via)
  {
    done < |subsets| && rest <= na
    && Recorded(ns, na, subsets, ids, ds, parent, via, done, rest)
    && (forall j :: done < j < |ds| ==> ds[j].edges == [])
    && (forall c :: c in rest ==> Labelled(ds[done].edges, c) == [])
    && (forall j :: 0 < j < |subsets| ==> parent[j] <= done)
    && (forall j :: 0 < j < |subsets| && parent[j] == done ==> via[j] !in rest && forall c :: c in rest ==> via[j] < c)
  }

  /** A table of seen subsets that grew leaves fewer subsets unseen. */
  lemma Shrinks(all: set<set<nat>>, keys0: set<set<nat>>, keys: set<set<nat>>)
    requires keys0 <= keys <= all
    ensures all - keys <= all - keys0
    ensures keys != keys0 ==> all - keys < all - keys0
  {
    if keys != keys0 {
      var x :| x in keys && x !in keys0;
      assert x in all - keys0;
    }
  }

  /** What holds between two turns of the main loop: the subsets before `done` are expanded, the queue holds the others. */
  ghost predicate Round(ns: seq<State>, na: set<char>, init: nat, subsets: seq<set<nat>>, ids: map<set<nat>, nat>,
                        ds: seq<State>, da: set<char>, parent: seq<nat>, via: seq<char>, done: nat, queue: seq<set<nat>>)
  {
    Frame(ns, na, init, subsets, ids, ds, da, parent, via)
    && Between(ns, na, subsets, ids, ds, parent, via, done)
    && queue == subsets[done..]
  }

  /** Between frontier sets: the states before `done` are finished, the rest have no edges yet. */
  ghost predicate Between(ns: seq<State>, na: set<char>, subsets: seq<set<nat>>, ids: map<set<nat>, nat>,
                          ds: seq<State>, parent: seq<nat>, via: seq<char>, done: nat)
    requires Shape(ns, subsets, ids, ds, parent, via)
  {
    done <= |subsets|
    && Recorded(ns, na, subsets, ids, ds, parent, via, done, na)
    && (forall j :: done <= j < |ds| ==> ds[j].edges == [])
    && (forall j :: 0 < j < |subsets| ==> parent[j] < done)
  }

  lemma StartFrontier(ns: seq<State>, na: set<char>, subsets: seq<set<nat>>, ids: map<set<nat>, nat>,
                      ds: seq<State>, parent: seq<nat>, via: seq<char>, done: nat)
    requires Shape(ns, subsets, ids, ds, parent, via)
    requires Between(ns, na, subsets, ids, ds, parent, via, done) && done < |subsets|
    requires forall j :: 0 < j < |subsets| ==> via[j] in na
    ensures Working(ns, na, subsets, ids, ds, parent, via, done, na)
  {
  }

  lemma EndFrontier(ns: seq<State>, na: set<char>, subsets: seq<set<nat>>, ids: map<set<nat>, nat>,
                    ds: seq<State>, parent: seq<nat>, via: seq<char>, done: nat)
    requires Shape(ns, subsets, ids, ds, parent, via)
    requires Working(ns, na, subsets, ids, ds, parent, via, done, {})
    requires forall j :: 0 < j < |subsets| ==> via[j] in na
    ensures Between(ns, na, subsets, ids, ds, parent, via, done + 1)
  {
    forall j, c | 0 <= j < |ds| && Examined(j, c, done + 1, na)
      ensures EdgeFor(ns, na, subsets, ids, ds, j, c)
    {
      if j <= done {
        assert Examined(j, c, done, {});
      } else {
        assert Next(ns, na, subsets[j], c) == {};
      }
    }
    forall p, c | 0 <= p < |subsets| && Examined(p, c, done + 1, na) && Next(ns, na, subsets[p], c) != {}
      ensures Next(ns, na, subsets[p], c) in ids && FoundBy(subsets, ids, parent, via, Next(ns, na, subsets[p], c), p, c)
    {
      assert Examined(p, c, done, {});
    }
  }

  /** A frontier set made of one state without edges contributes nothing. */
  lemma SkipFrontier(ns: seq<State>, na: set<char>, subsets: seq<set<nat>>, ids: map<set<nat>, nat>,
                     ds: seq<State>, parent: seq<nat>, via: seq<char>, done: nat, v: nat)
    requires Shape(ns, subsets, ids, ds, parent, via)
    requires Between(ns, na, subsets, ids, ds, parent, via, done) && done < |subsets|
    requires subsets[done] == {v} && v < |ns| && ns[v].edges == []
    ensures Between(ns, na, subsets, ids, ds, parent, via, done + 1)
  {
    forall c ensures Next(ns, na, subsets[done], c) == {} {
      assert forall u, e :: u in subsets[done] && e in ns[u].edges ==> false;
    }
    forall j, c | 0 <= j < |ds| && Examined(j, c, done + 1, na)
      ensures EdgeFor(ns, na, subsets, ids, ds, j, c)
    {
      if j < done {
        assert Examined(j, c, done, na);
      } else if j > done {
        assert Next(ns, na, subsets[j], c) == {};
      }
    }
    forall p, c | 0 <= p < |subsets| && Examined(p, c, done + 1, na) && Next(ns, na, subsets[p], c) != {}
      ensures Next(ns, na, subsets[p], c) in ids && FoundBy(subsets, ids, parent, via, Next(ns, na, subsets[p], c), p, c)
    {
      assert p != done;
      assert Examined(p, c, done, na);
    }
  }

  /** A label whose successor set is empty adds nothing. */
  lemma StepEmpty(ns: seq<State>, na: set<char>, subsets: seq<set<nat>>, ids: map<set<nat>, nat>,
                  ds: seq<State>, parent: seq<nat>, via: seq<char>, done: nat, rest: set<char>, sym: char)
    requires Shape(ns, subsets, ids, ds, parent, via)
    requires Working(ns, na, subsets, ids, ds, parent, via, done, rest)
    requires sym in rest && (forall c :: c in rest ==> sym <= c)
    requires Next(ns, na, subsets[done], sym) == {}
    ensures Working(ns, na, subsets, ids, ds, parent, via, done, rest - {sym})
  {
    forall j, c | 0 <= j < |ds| && Examined(j, c, done, rest - {sym})
      ensures EdgeFor(ns, na, subsets, ids, ds, j, c)
    {
      if !(j == done && c == sym) {
        assert Examined(j, c, done, rest);
      }
    }
    forall p, c | 0 <= p < |subsets| && Examined(p, c, done, rest - {sym}) && Next(ns, na, subsets[p], c) != {}
      ensures Next(ns, na, subsets[p], c) in ids && FoundBy(subsets, ids, parent, via, Next(ns, na, subsets[p], c), p, c)
    {
      assert Examined(p, c, done, rest);
    }
  }

  /** Appending an edge to DFA state `from`. */
  function AddEdge(ds: seq<State>, from: nat, sym: char, to: nat): seq<State>
    requires from < |ds|
  {
    ds[from := ds[from].(edges := ds[from].edges + [Edge(sym, to)])]
  }

  lemma EdgeLabelsAddEdge(ds: seq<State>, from: nat, sym: char, to: nat)
    requires from < |ds|
    ensures EdgeLabels(AddEdge(ds, from, sym, to)) == EdgeLabels(ds) + {sym}
  {
    var ds' := AddEdge(ds, from, sym, to);
    assert Edge(sym, to) in ds'[from].edges;
    forall c | c in EdgeLabels(ds') ensures c in EdgeLabels(ds) + {sym} {
      var v, e :| 0 <= v < |ds'| && e in ds'[v].edges && e.symbol == c;
      if v != from || e != Edge(sym, to) {
        assert e in ds[v].edges;
      }
    }
    forall c | c in EdgeLabels(ds) ensures c in EdgeLabels(ds') {
      var v, e :| 0 <= v < |ds| && e in ds[v].edges && e.symbol == c;
      assert e in ds'[v].edges;
    }
  }

  lemma EdgeLabelsAddState(ds: seq<State>, st: State)
    requires st.edges == []
    ensures EdgeLabels(ds + [st]) == EdgeLabels(ds)
  {
    var ds' := ds + [st];
    forall c | c in EdgeLabels(ds') ensures c in EdgeLabels(ds) {
      var v, e :| 0 <= v < |ds'| && e in ds'[v].edges && e.symbol == c;
      assert v < |ds| && e in ds[v].edges;
    }
    forall c | c in EdgeLabels(ds) ensures c in EdgeLabels(ds') {
      var v, e :| 0 <= v < |ds| && e in ds[v].edges && e.symbol == c;
      assert e in ds'[v].edges;
    }
  }

  /** A label that leads to a subset seen before: only the edge to its id is added. */
  lemma StepOld(ns: seq<State>, na: set<char>, init: nat, subsets: seq<set<nat>>, ids: map<set<nat>, nat>,
                ds: seq<State>, da: set<char>, parent: seq<nat>, via: seq<char>, done: nat, rest: set<char>,
                sym: char, t: set<nat>)
    requires Frame(ns, na, init, subsets, ids, ds, da, parent, via)
    requires Working(ns, na, subsets, ids, ds, parent, via, done, rest)
    requires sym in rest && (forall c :: c in rest ==> sym <= c)
    requires t == Next(ns, na, subsets[done], sym) && t != {} && t in ids
    ensures Frame(ns, na, init, subsets, ids, AddEdge(ds, done, sym, ids[t]), da + {sym}, parent, via)
    ensures Working(ns, na, subsets, ids, AddEdge(ds, done, sym, ids[t]), parent, via, done, rest - {sym})
  {
    var ds' := AddEdge(ds, done, sym, ids[t]);
    OldFrame(ns, na, init, subsets, ids, ds, da, parent, via, done, sym, ids[t]);
    OldEdges(ns, na, subsets, ids, ds, parent, via, done, rest, sym, t);
    OldFound(ns, na, subsets, ids, ds, parent, via, done, rest, sym, t);
    forall c | c in rest - {sym} ensures Labelled(ds'[done].edges, c) == [] {
      LabelledAppend(ds[done].edges, Edge(sym, ids[t]), c);
    }
  }

  /** Adding an edge between existing DFA states keeps the frame, with its label added to the alphabet. */
  lemma OldFrame(ns: seq<State>, na: set<char>, init: nat, subsets: seq<set<nat>>, ids: map<set<nat>, nat>,
                 ds: seq<State>, da: set<char>, parent: seq<nat>, via: seq<char>, done: nat, sym: char, k: nat)
    requires Frame(ns, na, init, subsets, ids, ds, da, parent, via)
    requires done < |ds|
    ensures Frame(ns, na, init, subsets, ids, AddEdge(ds, done, sym, k), da + {sym}, parent, via)
  {
    var ds' := AddEdge(ds, done, sym, k);
    EdgeLabelsAddEdge(ds, done, sym, k);
    assert forall j :: 0 <= j < |ds| ==> ds'[j].terminal == ds[j].terminal;
  }

  lemma OldEdges(ns: seq<State>, na: set<char>, subsets: seq<set<nat>>, ids: map<set<nat>, nat>,
                 ds: seq<State>, parent: seq<nat>, via: seq<char>, done: nat, rest: set<char>,
                 sym: char, t: set<nat>)
    requires Shape(ns, subsets, ids, ds, parent, via)
    requires Working(ns, na, subsets, ids, ds, parent, via, done, rest)
    requires sym in rest
    requires t == Next(ns, na, subsets[done], sym) && t != {} && t in ids
    ensures Shape(ns, subsets, ids, AddEdge(ds, done, sym, ids[t]), parent, via)
    ensures EdgesRecorded(ns, na, subsets, ids, AddEdge(ds, done, sym, ids[t]), parent, via, done, rest - {sym})
  {
    var ds' := AddEdge(ds, done, sym, ids[t]);
    forall j, c | 0 <= j < |ds'| && Examined(j, c, done, rest - {sym})
      ensures EdgeFor(ns, na, subsets, ids, ds', j, c)
    {
      if j == done {
        LabelledAppend(ds[done].edges, Edge(sym, ids[t]), c);
        if c != sym {
          assert Examined(j, c, done, rest);
        }
      } else {
        assert Examined(j, c, done, rest);
        assert ds'[j] == ds[j];
      }
    }
  }

  lemma OldFound(ns: seq<State>, na: set<char>, subsets: seq<set<nat>>, ids: map<set<nat>, nat>,
                 ds: seq<State>, parent: seq<nat>, via: seq<char>, done: nat, rest: set<char>,
                 sym: char, t: set<nat>)
    requires Shape(ns, subsets, ids, ds, parent, via)
    requires Working(ns, na, subsets, ids, ds, parent, via, done, rest)
    requires sym in rest && (forall c :: c in rest ==> sym <= c)
    requires t == Next(ns, na, subsets[done], sym) && t != {} && t in ids
    ensures Shape(ns, subsets, ids, AddEdge(ds, done, sym, ids[t]), parent, via)
    ensures FoundRecorded(ns, na, subsets, ids, AddEdge(ds, done, sym, ids[t]), parent, via, done, rest - {sym})
  {
    forall p, c | 0 <= p < |subsets| && Examined(p, c, done, rest - {sym}) && Next(ns, na, subsets[p], c) != {}
      ensures Next(ns, na, subsets[p], c) in ids && FoundBy(subsets, ids, parent, via, Next(ns, na, subsets[p], c), p, c)
    {
      if p == done && c == sym {
        var k := ids[t];
        if k != 0 && parent[k] == done {
          assert via[k] < sym;
        }
      } else {
        assert Examined(p, c, done, rest);
      }
    }
  }

  /** A label that leads to a subset seen for the first time: the subset gets the next id. */
  lemma StepNew(ns: seq<State>, na: set<char>, init: nat, subsets: seq<set<nat>>, ids: map<set<nat>, nat>,
                ds: seq<State>, da: set<char>, parent: seq<nat>, via: seq<char>, done: nat, rest: set<char>,
                sym: char, t: set<nat>, term: bool)
    requires InRange(ns)
    requires Frame(ns, na, init, subsets, ids, ds, da, parent, via)
    requires Working(ns, na, subsets, ids, ds, parent, via, done, rest)
    requires sym in rest && (forall c :: c in rest ==> sym <= c)
    requires t == Next(ns, na, subsets[done], sym) && t != {} && t !in ids && term == Accepting(ns, t)
    ensures Frame(ns, na, init, subsets + [t], ids[t := |ids|], AddEdge(ds + [State(term, [])], done, sym, |ids|),
                  da + {sym}, parent + [done], via + [sym])
    ensures Working(ns, na, subsets + [t], ids[t := |ids|], AddEdge(ds + [State(term, [])], done, sym, |ids|),
                    parent + [done], via + [sym], done, rest - {sym})
  {
    var ids' := ids[t := |ids|];
    var ds2 := ds + [State(term, [])];
    var ds' := AddEdge(ds2, done, sym, |ids|);
    NewFrame(ns, na, init, subsets, ids, ds, da, parent, via, done, rest, sym, t, term);
    OldFrame(ns, na, init, subsets + [t], ids', ds2, da, parent + [done], via + [sym], done, sym, |ids|);
    NewEdges(ns, na, subsets, ids, ds, parent, via, done, rest, sym, t, term);
    NewFound(ns, na, subsets, ids, ds, parent, via, done, rest, sym, t, term);
    NewTail(ns, na, subsets, ids, ds, parent, via, done, rest, sym, t, term);
  }

  /** The conditions on the states and discoveries not yet examined. */
  lemma NewTail(ns: seq<State>, na: set<char>, subsets: seq<set<nat>>, ids: map<set<nat>, nat>,
                ds: seq<State>, parent: seq<nat>, via: seq<char>, done: nat, rest: set<char>,
                sym: char, t: set<nat>, term: bool)
    requires done < |ds| == |subsets| == |parent| == |via| == |ids|
    requires forall j :: done < j < |ds| ==> ds[j].edges == []
    requires forall c :: c in rest ==> Labelled(ds[done].edges, c) == []
    requires forall j :: 0 < j < |subsets| ==> parent[j] <= done
    requires forall j :: 0 < j < |subsets| && parent[j] == done ==> via[j] !in rest && forall c :: c in rest ==> via[j] < c
    requires sym in rest && (forall c :: c in rest ==> sym <= c)
    ensures var ds' := AddEdge(ds + [State(term, [])], done, sym, |ids|);
      var parent', via' := parent + [done], via + [sym];
      (forall j :: done < j < |ds'| ==> ds'[j].edges == [])
      && (forall c :: c in rest - {sym} ==> Labelled(ds'[done].edges, c) == [])
      && (forall j :: 0 < j < |subsets| + 1 ==> parent'[j] <= done)
      && (forall j :: 0 < j < |subsets| + 1 && parent'[j] == done ==>
            via'[j] !in rest - {sym} && forall c :: c in rest - {sym} ==> via'[j] < c)
  {
    var ds' := AddEdge(ds + [State(term, [])], done, sym, |ids|);
    forall c | c in rest - {sym} ensures Labelled(ds'[done].edges, c) == [] {
      LabelledAppend(ds[done].edges, Edge(sym, |ids|), c);
    }
  }

  /** The new subset, its DFA state (still without edges) and its discovery keep the frame. */
  lemma NewFrame(ns: seq<State>, na: set<char>, init: nat, subsets: seq<set<nat>>, ids: map<set<nat>, nat>,
                 ds: seq<State>, da: set<char>, parent: seq<nat>, via: seq<char>, done: nat, rest: set<char>,
                 sym: char, t: set<nat>, term: bool)
    requires InRange(ns)
    requires Frame(ns, na, init, subsets, ids, ds, da, parent, via)
    requires Working(ns, na, subsets, ids, ds, parent, via, done, rest)
    requires sym in rest && (forall c :: c in rest ==> sym <= c)
    requires t == Next(ns, na, subsets[done], sym) && t != {} && t !in ids && term == Accepting(ns, t)
    ensures Frame(ns, na, init, subsets + [t], ids[t := |ids|], ds + [State(term, [])], da, parent + [done], via + [sym])
  {
    var subsets', ids' := subsets + [t], ids[t := |ids|];
    var parent', via' := parent + [done], via + [sym];
    NewShape(ns, na, subsets, ids, ds, parent, via, done, sym, t, term);
    assert t <= Range(|ns|);
    EdgeLabelsAddState(ds, State(term, []));
    forall j, k | 0 < j < k < |subsets'| ensures Before(parent'[j], via'[j], parent'[k], via'[k]) {
      if k == |subsets| && parent[j] == done {
        assert via[j] < sym;
      }
    }
  }

  lemma NewShape(ns: seq<State>, na: set<char>, subsets: seq<set<nat>>, ids: map<set<nat>, nat>,
                 ds: seq<State>, parent: seq<nat>, via: seq<char>, done: nat, sym: char, t: set<nat>, term: bool)
    requires InRange(ns)
    requires Shape(ns, subsets, ids, ds, parent, via) && done < |subsets|
    requires t == Next(ns, na, subsets[done], sym) && t != {} && t !in ids
    ensures Within(t, |ns|)
    ensures Shape(ns, subsets + [t], ids[t := |ids|], ds + [State(term, [])], parent + [done], via + [sym])
  {
    var subsets', ids' := subsets + [t], ids[t := |ids|];
    PostWithin(ns, subsets[done], sym);
    forall j | 0 <= j < |subsets'| ensures subsets'[j] in ids' && ids'[subsets'[j]] == j {
      if j < |subsets| {
        assert subsets[j] in ids && subsets[j] != t;
      }
    }
  }

  lemma NewEdges(ns: seq<State>, na: set<char>, subsets: seq<set<nat>>, ids: map<set<nat>, nat>,
                 ds: seq<State>, parent: seq<nat>, via: seq<char>, done: nat, rest: set<char>,
                 sym: char, t: set<nat>, term: bool)
    requires InRange(ns)
    requires Shape(ns, subsets, ids, ds, parent, via)
    requires Working(ns, na, subsets, ids, ds, parent, via, done, rest)
    requires sym in rest
    requires t == Next(ns, na, subsets[done], sym) && t != {} && t !in ids
    ensures Shape(ns, subsets + [t], ids[t := |ids|], AddEdge(ds + [State(term, [])], done, sym, |ids|), parent + [done], via + [sym])
    ensures EdgesRecorded(ns, na, subsets + [t], ids[t := |ids|], AddEdge(ds + [State(term, [])], done, sym, |ids|),
                          parent + [done], via + [sym], done, rest - {sym})
  {
    var subsets', ids' := subsets + [t], ids[t := |ids|];
    var ds' := AddEdge(ds + [State(term, [])], done, sym, |ids|);
    NewShape(ns, na, subsets, ids, ds, parent, via, done, sym, t, term);
    forall j, c | 0 <= j < |ds'| && Examined(j, c, done, rest - {sym})
      ensures EdgeFor(ns, na, subsets', ids', ds', j, c)
    {
      assert j <= done && subsets'[j] == subsets[j];
      if j == done {
        LabelledAppend(ds[done].edges, Edge(sym, |ids|), c);
      }
      if !(j == done && c == sym) {
        assert Examined(j, c, done, rest);
        assert EdgeFor(ns, na, subsets, ids, ds, j, c);
        var n := Next(ns, na, subsets[j], c);
        if n != {} {
          assert n in ids && n != t;
        }
      }
    }
  }

  lemma NewFound(ns: seq<State>, na: set<char>, subsets: seq<set<nat>>, ids: map<set<nat>, nat>,
                 ds: seq<State>, parent: seq<nat>, via: seq<char>, done: nat, rest: set<char>,
                 sym: char, t: set<nat>, term: bool)
    requires InRange(ns)
    requires Shape(ns, subsets, ids, ds, parent, via)
    requires Working(ns, na, subsets, ids, ds, parent, via, done, rest)
    requires sym in rest
    requires t == Next(ns, na, subsets[done], sym) && t != {} && t !in ids
    ensures Shape(ns, subsets + [t], ids[t := |ids|], AddEdge(ds + [State(term, [])], done, sym, |ids|), parent + [done], via + [sym])
    ensures FoundRecorded(ns, na, subsets + [t], ids[t := |ids|], AddEdge(ds + [State(term, [])], done, sym, |ids|),
                          parent + [done], via + [sym], done, rest - {sym})
  {
    var subsets', ids' := subsets + [t], ids[t := |ids|];
    var parent', via' := parent + [done], via + [sym];
    NewShape(ns, na, subsets, ids, ds, parent, via, done, sym, t, term);
    forall p, c | 0 <= p < |subsets'| && Examined(p, c, done, rest - {sym}) && Next(ns, na, subsets'[p], c) != {}
      ensures Next(ns, na, subsets'[p], c) in ids' && FoundBy(subsets', ids', parent', via', Next(ns, na, subsets'[p], c), p, c)
    {
      assert p <= done && subsets'[p] == subsets[p];
      if !(p == done && c == sym) {
        assert Examined(p, c, done, rest);
        var n := Next(ns, na, subsets[p], c);
        assert n in ids && n != t;
        assert FoundBy(subsets, ids, parent, via, n, p, c);
      }
    }
  }

  lemma Finish(ns: seq<State>, na: set<char>, init: nat, subsets: seq<set<nat>>, ids: map<set<nat>, nat>,
               ds: seq<State>, da: set<char>, parent: seq<nat>, via: seq<char>)
    requires Frame(ns, na, init, subsets, ids, ds, da, parent, via)
    requires Between(ns, na, subsets, ids, ds, parent, via, |subsets|)
    ensures IsSubsetDfa(ns, na, init, ds, da, subsets, ids)
    ensures BfsOrder(ns, na, subsets, ids, parent, via)
  {
    forall j, c | 0 <= j < |ds| ensures EdgeFor(ns, na, subsets, ids, ds, j, c) {
      assert Examined(j, c, |subsets|, na);
    }
    forall p, c | 0 <= p < |subsets| && Next(ns, na, subsets[p], c) != {}
      ensures Next(ns, na, subsets[p], c) in ids && FoundBy(subsets, ids, parent, via, Next(ns, na, subsets[p], c), p, c)
    {
      assert Examined(p, c, |subsets|, na);
    }
  }

  /** The state before the main loop: DFA state 0 for {init}, which is the only subset queued. */
  lemma Start(ns: seq<State>, na: set<char>, init: nat)
    requires init < |ns|
    ensures Frame(ns, na, init, [{init}], map[{init} := 0], [State(false, [])], {}, [0], ['\0'])
    ensures Between(ns, na, [{init}], map[{init} := 0], [State(false, [])], [0], ['\0'], 0)
  {
    assert EdgeLabels([State(false, [])]) == {};
    assert {init} <= Range(|ns|);
  }

  /**
   * thompson_nfa2dfa's main loop: a breadth-first walk over the subsets of
   * NFA states reachable from {init}, numbering each new subset with the next
   * DFA id. The DFA under construction is extended the way Automata's own
   * add_state and add_transition extend it.
   */
  method Determinise(ns: seq<State>, na: set<char>, init: nat)
    returns (ds: seq<State>, da: set<char>, ghost subsets: seq<set<nat>>, ghost ids: map<set<nat>, nat>,
             ghost parent: seq<nat>, ghost via: seq<char>)
    requires InRange(ns) && init < |ns|
    ensures IsSubsetDfa(ns, na, init, ds, da, subsets, ids)
    ensures BfsOrder(ns, na, subsets, ids, parent, via)
  {
    ds, da := [State(false, [])], {};
    var tracking: map<set<nat>, nat> := map[{init} := 0];
    var queue := [{init}];
    subsets, parent, via := [{init}], [0], ['\0'];
    ghost var done: nat := 0;
    Start(ns, na, init);
    while queue != []
      invariant Round(ns, na, init, subsets, tracking, ds, da, parent, via, done, queue)
      decreases AllSubsets(|ns|) - tracking.Keys, |queue|
    {
      ghost var keys0 := tracking.Keys;
      ds, da, tracking, queue, subsets, parent, via := Expand(ns, na, init, ds, da, tracking, queue, subsets, parent, via, done);
      Shrinks(AllSubsets(|ns|), keys0, tracking.Keys);
      done := done + 1;
    }
    assert done == |subsets|;
    ids := tracking;
    Finish(ns, na, init, subsets, ids, ds, da, parent, via);
  }

  /**
   * One turn of the main loop, for the dequeued subset `vset` (DFA id `done`):
   * a subset made of one state without transitions is skipped; otherwise
   * every label of the alphabet is tried in ascending order, and a nonempty
   * successor set becomes an edge, to a new state when the set was not seen
   * before, which is then queued.
   */
  method Expand(ns: seq<State>, na: set<char>, init: nat,
                ds0: seq<State>, da0: set<char>, tracking0: map<set<nat>, nat>, queue0: seq<set<nat>>,
                ghost subsets0: seq<set<nat>>, ghost parent0: seq<nat>, ghost via0: seq<char>, ghost done: nat)
    returns (ds: seq<State>, da: set<char>, tracking: map<set<nat>, nat>, queue: seq<set<nat>>,
             ghost subsets: seq<set<nat>>, ghost parent: seq<nat>, ghost via: seq<char>)
    requires InRange(ns) && queue0 != []
    requires Round(ns, na, init, subsets0, tracking0, ds0, da0, parent0, via0, done, queue0)
    ensures Round(ns, na, init, subsets, tracking, ds, da, parent, via, done + 1, queue)
    ensures tracking0.Keys <= tracking.Keys <= AllSubsets(|ns|)
    ensures tracking.Keys == tracking0.Keys ==> |queue| < |queue0|
  {
    ds, da, tracking, subsets, parent, via := ds0, da0, tracking0, subsets0, parent0, via0;
    var vset := queue0[0];
    queue := queue0[1..];
    if |vset| == 1 {
      var v :| v in vset;
      Singleton(vset, v);
      if ns[v].edges == [] {
        SkipFrontier(ns, na, subsets, tracking, ds, parent, via, done, v);
        return;
      }
    }
    ds, da, tracking, queue, subsets, parent, via :=
      ExpandLabels(ns, na, init, vset, ds, da, tracking, queue, subsets, parent, via, done);
  }

  /** What holds between two labels of the turn for the dequeued subset `vset` (DFA id `done`). */
  ghost predicate Turn(ns: seq<State>, na: set<char>, init: nat, vset: set<nat>, subsets: seq<set<nat>>,
                       ids: map<set<nat>, nat>, ds: seq<State>, da: set<char>, parent: seq<nat>, via: seq<char>,
                       done: nat, rest: set<char>, queue: seq<set<nat>>, keys0: set<set<nat>>, queue0: seq<set<nat>>)
  {
    Frame(ns, na, init, subsets, ids, ds, da, parent, via)
    && Working(ns, na, subsets, ids, ds, parent, via, done, rest)
    && subsets[done] == vset && queue == subsets[done + 1..]
    && keys0 <= ids.Keys && (ids.Keys == keys0 ==> queue == queue0)
  }

  /** Every label of the alphabet tried in ascending order on the dequeued subset `vset`. */
  method ExpandLabels(ns: seq<State>, na: set<char>, init: nat, vset: set<nat>,
                      ds0: seq<State>, da0: set<char>, tracking0: map<set<nat>, nat>, queue0: seq<set<nat>>,
                      ghost subsets0: seq<set<nat>>, ghost parent0: seq<nat>, ghost via0: seq<char>, ghost done: nat)
    returns (ds: seq<State>, da: set<char>, tracking: map<set<nat>, nat>, queue: seq<set<nat>>,
             ghost subsets: seq<set<nat>>, ghost parent: seq<nat>, ghost via: seq<char>)
    requires InRange(ns)
    requires Frame(ns, na, init, subsets0, tracking0, ds0, da0, parent0, via0)
    requires Between(ns, na, subsets0, tracking0, ds0, parent0, via0, done)
    requires done < |subsets0| && vset == subsets0[done] && queue0 == subsets0[done + 1..]
    ensures Frame(ns, na, init, subsets, tracking, ds, da, parent, via)
    ensures Between(ns, na, subsets, tracking, ds, parent, via, done + 1)
    ensures queue == subsets[done + 1..]
    ensures tracking0.Keys <= tracking.Keys && (tracking.Keys == tracking0.Keys ==> queue == queue0)
  {
    ds, da, tracking, queue, subsets, parent, via := ds0, da0, tracking0, queue0, subsets0, parent0, via0;
    StartFrontier(ns, na, subsets, tracking, ds, parent, via, done);
    var rest := na;
    while rest != {}
      invariant Turn(ns, na, init, vset, subsets, tracking, ds, da, parent, via, done, rest, queue, tracking0.Keys, queue0)
      decreases rest
    {
      assert MinChar(rest) in rest;
      var sym :| sym in rest && forall c :: c in rest ==> sym <= c;
      ds, da, tracking, queue, subsets, parent, via :=
        TryLabel(ns, na, init, vset, sym, rest, ds, da, tracking, queue, subsets, parent, via, done, tracking0.Keys, queue0);
      rest := rest - {sym};
    }
    EndFrontier(ns, na, subsets, tracking, ds, parent, via, done);
  }

  /**
   * The body of the label loop: the successor set of `vset` under `sym`,
   * and the DFA state and edge it gives rise to.
   */
  method TryLabel(ns: seq<State>, na: set<char>, init: nat, vset: set<nat>, sym: char, ghost rest: set<char>,
                  ds0: seq<State>, da0: set<char>, tracking0: map<set<nat>, nat>, queue0: seq<set<nat>>,
                  ghost subsets0: seq<set<nat>>, ghost parent0: seq<nat>, ghost via0: seq<char>, ghost done: nat,
                  ghost keys: set<set<nat>>, ghost queue1: seq<set<nat>>)
    returns (ds: seq<State>, da: set<char>, tracking: map<set<nat>, nat>, queue: seq<set<nat>>,
             ghost subsets: seq<set<nat>>, ghost parent: seq<nat>, ghost via: seq<char>)
    requires InRange(ns)
    requires Turn(ns, na, init, vset, subsets0, tracking0, ds0, da0, parent0, via0, done, rest, queue0, keys, queue1)
    requires sym in rest && forall c :: c in rest ==> sym <= c
    ensures Turn(ns, na, init, vset, subsets, tracking, ds, da, parent, via, done, rest - {sym}, queue, keys, queue1)
  {
    ds, da, tracking, queue, subsets, parent, via := ds0, da0, tracking0, queue0, subsets0, parent0, via0;
    var from := tracking[vset];
    assert from == done;
    var toVset, isTerminal := Successors(ns, vset, sym);
    assert toVset == Next(ns, na, subsets[done], sym);
    if toVset == {} {
      StepEmpty(ns, na, subsets, tracking, ds, parent, via, done, rest, sym);
    } else if toVset !in tracking {
      ds, da, tracking, queue, subsets, parent, via :=
        Discover(ns, na, init, from, toVset, isTerminal, sym, rest, ds, da, tracking, queue, subsets, parent, via, done);
    } else {
      ds, da := Revisit(ns, na, init, from, toVset, sym, rest, ds, da, tracking, subsets, parent, via, done);
    }
  }

  /** A successor set seen before: only the edge to its DFA state is added. */
  method Revisit(ns: seq<State>, na: set<char>, init: nat, from: nat, toVset: set<nat>, sym: char,
                 ghost rest: set<char>, ds0: seq<State>, da0: set<char>, tracking: map<set<nat>, nat>,
                 ghost subsets: seq<set<nat>>, ghost parent: seq<nat>, ghost via: seq<char>, ghost done: nat)
    returns (ds: seq<State>, da: set<char>)
    requires Frame(ns, na, init, subsets, tracking, ds0, da0, parent, via)
    requires Working(ns, na, subsets, tracking, ds0, parent, via, done, rest)
    requires sym in rest && forall c :: c in rest ==> sym <= c
    requires toVset == Next(ns, na, subsets[done], sym) && toVset != {} && toVset in tracking
    requires from == done
    ensures Frame(ns, na, init, subsets, tracking, ds, da, parent, via)
    ensures Working(ns, na, subsets, tracking, ds, parent, via, done, rest - {sym})
  {
    StepOld(ns, na, init, subsets, tracking, ds0, da0, parent, via, done, rest, sym, toVset);
    ds := AddEdge(ds0, from, sym, tracking[toVset]);
    da := da0 + {sym};
  }

  /**
   * A successor set seen for the first time: a new DFA state with its
   * terminal flag, the edge to it from DFA state `done`, its entry in the
   * table of seen subsets, and its place at the back of the queue.
   */
  method Discover(ns: seq<State>, na: set<char>, init: nat, from: nat, toVset: set<nat>, isTerminal: bool, sym: char,
                  ghost rest: set<char>,
                  ds0: seq<State>, da0: set<char>, tracking0: map<set<nat>, nat>, queue0: seq<set<nat>>,
                  ghost subsets0: seq<set<nat>>, ghost parent0: seq<nat>, ghost via0: seq<char>, ghost done: nat)
    returns (ds: seq<State>, da: set<char>, tracking: map<set<nat>, nat>, queue: seq<set<nat>>,
             ghost subsets: seq<set<nat>>, ghost parent: seq<nat>, ghost via: seq<char>)
    requires InRange(ns)
    requires Frame(ns, na, init, subsets0, tracking0, ds0, da0, parent0, via0)
    requires Working(ns, na, subsets0, tracking0, ds0, parent0, via0, done, rest)
    requires sym in rest && forall c :: c in rest ==> sym <= c
    requires toVset == Next(ns, na, subsets0[done], sym) && toVset != {} && toVset !in tracking0
    requires isTerminal == Accepting(ns, toVset)
    requires queue0 == subsets0[done + 1..] && from == done
    ensures Frame(ns, na, init, subsets, tracking, ds, da, parent, via)
    ensures Working(ns, na, subsets, tracking, ds, parent, via, done, rest - {sym})
    ensures subsets == subsets0 + [toVset] && queue == queue0 + [toVset]
    ensures subsets[done] == subsets0[done] && queue == subsets[done + 1..]
    ensures tracking.Keys == tracking0.Keys + {toVset}
  {
    StepNew(ns, na, init, subsets0, tracking0, ds0, da0, parent0, via0, done, rest, sym, toVset, isTerminal);
    ds := AddEdge(ds0 + [State(isTerminal, [])], from, sym, |tracking0|);
    da := da0 + {sym};
    subsets, parent, via := subsets0 + [toVset], parent0 + [done], via0 + [sym];
    tracking := tracking0[toVset := |tracking0|];
    queue := queue0 + [toVset];
    SnocSuffix(subsets0, toVset, done);
  }

  /** Appending to the table of subsets appends to every suffix of it. */
  lemma SnocSuffix(s: seq<set<nat>>, t: set<nat>, d: nat)
    requires d < |s|
    ensures (s + [t])[d] == s[d] && (s + [t])[d + 1..] == s[d + 1..] + [t]
  {
  }
}
