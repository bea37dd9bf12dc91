/**
 * What epsilon_edges_elimination of src/automata.h computes, as functions on
 * the state vector, and what is proved about the result.
 *
 * The first phase visits the states in id order. For state k it computes the
 * epsilon closure of k in the graph as it stands at that moment (earlier
 * states already carry their copies), then walks the closure in ascending id
 * order and, for each member, its labels in ascending order, appending a copy
 * of every edge to k. The copies include epsilon edges, because the epsilon
 * symbol is itself in the alphabet. The second phase erases every epsilon
 * edge of every state.
 */
module Elimination {
  import opened Graph
  import opened Epsilon

  /** The entries of `es` grouped by label, labels in ascending order: a walk over `labels` with equal_range. */
  ghost function ByLabels(es: seq<Edge>, labels: set<char>): seq<Edge>
    decreases labels
  {
    if labels == {} then []
    else
      var c := MinChar(labels);
      Labelled(es, c) + ByLabels(es, labels - {c})
  }

  /** The copies appended for the closure members `vs`, members in ascending id order. */
  ghost function Gather(h: seq<State>, vs: set<nat>, labels: set<char>): seq<Edge>
    requires Within(vs, |h|)
    decreases vs
  {
    if vs == {} then []
    else
      var v := MinNat(vs);
      ByLabels(h[v].edges, labels) + Gather(h, vs - {v}, labels)
  }

  /** ByLabels holds exactly the entries whose label is in `labels`. */
  lemma {:induction false} ByLabelsHolds(es: seq<Edge>, labels: set<char>)
    ensures forall e :: e in ByLabels(es, labels) <==> e in es && e.symbol in labels
    decreases labels
  {
    if labels != {} {
      var c := MinChar(labels);
      ByLabelsHolds(es, labels - {c});
      var rest := ByLabels(es, labels - {c});
      assert forall e :: e in Labelled(es, c) + rest <==> e in Labelled(es, c) || e in rest;
    }
  }

  /** Gather holds exactly the entries, with a label in `labels`, of the members of `vs`. */
  lemma {:induction false} GatherHolds(h: seq<State>, vs: set<nat>, labels: set<char>)
    requires Within(vs, |h|)
    ensures forall e :: e in Gather(h, vs, labels) <==> exists v :: v in vs && e in h[v].edges && e.symbol in labels
    decreases vs
  {
    if vs != {} {
      var v := MinNat(vs);
      GatherHolds(h, vs - {v}, labels);
      ByLabelsHolds(h[v].edges, labels);
      var rest := Gather(h, vs - {v}, labels);
      assert forall e :: e in ByLabels(h[v].edges, labels) + rest <==> e in ByLabels(h[v].edges, labels) || e in rest;
      assert forall u :: u in vs <==> u == v || u in vs - {v};
    }
  }

  /** Walking one more closure member, the least one left, extends the copies made so far. */
  lemma GatherAdvance(h: seq<State>, vs: set<nat>, pending: set<nat>, labels: set<char>, added: seq<Edge>, v: nat)
    requires Within(vs, |h|) && pending <= vs && pending != {} && v == MinNat(pending)
    requires added + Gather(h, pending, labels) == Gather(h, vs, labels)
    ensures (added + ByLabels(h[v].edges, labels)) + Gather(h, pending - {v}, labels) == Gather(h, vs, labels)
  {
  }

  /** Walking one more label, the least one left, extends the copies made so far. */
  lemma ByLabelsAdvance(es: seq<Edge>, labels: set<char>, rest: set<char>, added: seq<Edge>, c: char)
    requires rest != {} && c == MinChar(rest)
    requires added + ByLabels(es, rest) == ByLabels(es, labels)
    ensures (added + Labelled(es, c)) + ByLabels(es, rest - {c}) == ByLabels(es, labels)
  {
  }

  /** Processing state k: the copies from its closure are appended to its edges. */
  ghost function CopyOnto(h: seq<State>, eps: char, labels: set<char>, k: nat): seq<State>
    requires k < |h|
  {
    Append(h, k, Gather(h, Closure(h, eps, k), labels))
  }

  /**
   * The graph the first phase leaves when it resumes at state `k` on `h`:
   * states k, k+1, ... receive their copies in turn, each from the graph as
   * the earlier steps left it.
   */
  ghost function CopyFrom(h: seq<State>, eps: char, labels: set<char>, k: nat): (r: seq<State>)
    ensures |r| == |h|
    decreases |h| - k
  {
    if k >= |h| then h else CopyFrom(CopyOnto(h, eps, labels, k), eps, labels, k + 1)
  }

  /** The second phase: every state loses its epsilon edges and keeps the others in order. */
  function DropEps(h: seq<State>, eps: char): (r: seq<State>)
    ensures |r| == |h|
    ensures forall i :: 0 <= i < |h| ==> r[i].terminal == h[i].terminal
    ensures forall i :: 0 <= i < |h| ==> r[i].edges == Without(h[i].edges, eps)
  {
    seq(|h|, i requires 0 <= i < |h| => h[i].(edges := Without(h[i].edges, eps)))
  }

  /** The state vector epsilon_edges_elimination leaves behind. */
  ghost function Eliminated(g: seq<State>, eps: char, labels: set<char>): seq<State>
  {
    DropEps(CopyFrom(g, eps, labels, 0), eps)
  }

  /** Entry `e` is an edge of a state that `v` reaches by epsilon edges (`v` itself included). */
  ghost predicate Via(g: seq<State>, eps: char, v: nat, e: Edge)
  {
    exists w: nat :: w < |g| && Reaches(g, eps, v, w) && e in g[w].edges
  }

  /** `h` has the states of `g`, with the same flags, and every edge of `g`. */
  ghost predicate Grown(g: seq<State>, h: seq<State>)
  {
    |h| == |g|
    && (forall v :: 0 <= v < |g| ==> h[v].terminal == g[v].terminal)
    && (forall v, e :: 0 <= v < |g| && e in g[v].edges ==> e in h[v].edges)
  }

  /** Every edge of `h` is an edge of `g` reachable by epsilon edges from its source. */
  ghost predicate Sound(g: seq<State>, h: seq<State>, eps: char)
    requires |h| == |g|
  {
    forall v, e :: 0 <= v < |h| && e in h[v].edges ==> Via(g, eps, v, e)
  }

  /** The states 0 .. k-1 of `h` hold every non-epsilon edge reachable from them in `g`. */
  ghost predicate Complete(g: seq<State>, h: seq<State>, eps: char, k: nat)
    requires |h| == |g| && k <= |g|
  {
    forall v, e :: 0 <= v < k && Via(g, eps, v, e) && e.symbol != eps ==> e in h[v].edges
  }

  /** The invariant of the first phase after k states. */
  ghost predicate PhaseInv(g: seq<State>, h: seq<State>, eps: char, labels: set<char>, k: nat)
  {
    Grown(g, h) && k <= |g| && Sound(g, h, eps) && Complete(g, h, eps, k) && InRange(h) && LabelsIn(h, labels)
  }

  lemma ViaOwn(g: seq<State>, eps: char, v: nat, e: Edge)
    requires v < |g| && e in g[v].edges
    ensures Via(g, eps, v, e)
  {
    ReachesRefl(g, eps, v);
  }

  /** An epsilon edge of a sound `h` joins two states connected in `g`, so `h` has the same closures. */
  lemma {:induction false} SoundClosure(g: seq<State>, h: seq<State>, eps: char, x: nat)
    requires InRange(g) && Grown(g, h) && Sound(g, h, eps)
    ensures Closure(h, eps, x) == Closure(g, eps, x)
  {
    forall v, e | 0 <= v < |h| && e in h[v].edges && e.symbol == eps && e.target < |g|
      ensures Reaches(g, eps, v, e.target)
    {
      assert Via(g, eps, v, e);
      var w: nat :| w < |g| && Reaches(g, eps, v, w) && e in g[w].edges;
      ReachesAppend(g, eps, v, w, e.target);
    }
    forall y ensures Reaches(g, eps, x, y) <==> Reaches(h, eps, x, y) {
      ReachesKept(g, h, eps, x, y);
    }
  }

  /** Every copy appended to state k is an edge reachable from k, in range and over the alphabet. */
  lemma {:induction false} CopiesVia(g: seq<State>, eps: char, labels: set<char>, h: seq<State>, k: nat)
    requires InRange(g) && k < |g|
    requires Grown(g, h) && Sound(g, h, eps) && InRange(h)
    ensures Closure(h, eps, k) == Closure(g, eps, k)
    ensures forall e :: e in Gather(h, Closure(h, eps, k), labels) ==>
              Via(g, eps, k, e) && e.target < |g| && e.symbol in labels
  {
    var c := Closure(h, eps, k);
    SoundClosure(g, h, eps, k);
    GatherHolds(h, c, labels);
    forall e | e in Gather(h, c, labels)
      ensures Via(g, eps, k, e) && e.target < |g| && e.symbol in labels
    {
      var v :| v in c && e in h[v].edges && e.symbol in labels;
      assert Via(g, eps, v, e);
      var w: nat :| w < |g| && Reaches(g, eps, v, w) && e in g[w].edges;
      ReachesTrans(g, eps, k, v, w);
    }
  }

  /** One step of the first phase keeps the invariant and completes state k. */
  lemma {:induction false} CopyStep(g: seq<State>, eps: char, labels: set<char>, h: seq<State>, k: nat)
    requires InRange(g) && LabelsIn(g, labels) && k < |g|
    requires Grown(g, h) && Sound(g, h, eps) && Complete(g, h, eps, k) && InRange(h) && LabelsIn(h, labels)
    ensures PhaseInv(g, CopyOnto(h, eps, labels, k), eps, labels, k + 1)
  {
    CopiesVia(g, eps, labels, h, k);
    var h' := CopyOnto(h, eps, labels, k);
    var copies := Gather(h, Closure(h, eps, k), labels);
    assert h'[k].edges == h[k].edges + copies;
    assert forall v :: 0 <= v < |h| && v != k ==> h'[v] == h[v];
    assert forall e :: e in h'[k].edges <==> e in h[k].edges || e in copies;
    CopyStepComplete(g, eps, labels, h, k);
  }

  lemma {:induction false} CopyStepComplete(g: seq<State>, eps: char, labels: set<char>, h: seq<State>, k: nat)
    requires InRange(g) && LabelsIn(g, labels) && k < |g|
    requires Grown(g, h) && Sound(g, h, eps) && Complete(g, h, eps, k) && InRange(h)
    ensures Complete(g, CopyOnto(h, eps, labels, k), eps, k + 1)
  {
    SoundClosure(g, h, eps, k);
    var h' := CopyOnto(h, eps, labels, k);
    var copies := Gather(h, Closure(h, eps, k), labels);
    GatherHolds(h, Closure(h, eps, k), labels);
    assert h'[k].edges == h[k].edges + copies;
    forall v, e | 0 <= v < k + 1 && Via(g, eps, v, e) && e.symbol != eps ensures e in h'[v].edges {
      if v == k {
        var w: nat :| w < |g| && Reaches(g, eps, k, w) && e in g[w].edges;
        if w == k {
          assert e in h[k].edges;
        } else {
          assert w in Closure(g, eps, k) && e in h[w].edges;
          assert e in copies;
        }
      } else {
        assert e in h[v].edges;
      }
    }
  }

  /** Resumed on a graph that keeps the invariant at `k`, the first phase ends with the invariant at |g|. */
  lemma {:induction false} CopyFromInvariant(g: seq<State>, h: seq<State>, eps: char, labels: set<char>, k: nat)
    requires InRange(g) && LabelsIn(g, labels) && PhaseInv(g, h, eps, labels, k)
    ensures PhaseInv(g, CopyFrom(h, eps, labels, k), eps, labels, |g|)
    decreases |g| - k, 1
  {
    if k < |g| {
      CopyFromStep(g, h, eps, labels, k);
    } else {
      assert k == |g| && CopyFrom(h, eps, labels, k) == h;
    }
  }

  /** The step case of CopyFromInvariant: state k receives its copies, then the rest follows. */
  lemma {:induction false} CopyFromStep(g: seq<State>, h: seq<State>, eps: char, labels: set<char>, k: nat)
    requires InRange(g) && LabelsIn(g, labels) && PhaseInv(g, h, eps, labels, k) && k < |g|
    ensures PhaseInv(g, CopyFrom(h, eps, labels, k), eps, labels, |g|)
    decreases |g| - k, 0
  {
    var next := CopyOnto(h, eps, labels, k);
    CopyStep(g, eps, labels, h, k);
    CopyFromInvariant(g, next, eps, labels, k + 1);
    assert CopyFrom(h, eps, labels, k) == CopyFrom(next, eps, labels, k + 1);
  }

  lemma StartInvariant(g: seq<State>, eps: char, labels: set<char>)
    requires InRange(g) && LabelsIn(g, labels)
    ensures PhaseInv(g, g, eps, labels, 0)
  {
    forall v, e | 0 <= v < |g| && e in g[v].edges ensures Via(g, eps, v, e) {
      ViaOwn(g, eps, v, e);
    }
  }

  /**
   * The result of the elimination: the same states with the same terminal
   * flags, and state s has as its edges exactly the non-epsilon edges of the
   * states s reaches by epsilon edges, s itself included.
   */
  lemma EliminatedEdges(g: seq<State>, eps: char, labels: set<char>)
    requires InRange(g) && LabelsIn(g, labels)
    ensures |Eliminated(g, eps, labels)| == |g|
    ensures forall s :: 0 <= s < |g| ==> Eliminated(g, eps, labels)[s].terminal == g[s].terminal
    ensures forall s, e :: 0 <= s < |g| ==>
              (e in Eliminated(g, eps, labels)[s].edges <==> e.symbol != eps && Via(g, eps, s, e))
  {
    StartInvariant(g, eps, labels);
    CopyFromInvariant(g, g, eps, labels, 0);
    var h := CopyFrom(g, eps, labels, 0);
    forall s, e | 0 <= s < |g|
      ensures e in Eliminated(g, eps, labels)[s].edges <==> e.symbol != eps && Via(g, eps, s, e)
    {
      assert Eliminated(g, eps, labels)[s].edges == Without(h[s].edges, eps);
    }
  }

  /** The result has no epsilon edge and is again a well-formed graph over the same alphabet. */
  lemma EliminatedWellFormed(g: seq<State>, eps: char, labels: set<char>)
    requires InRange(g) && LabelsIn(g, labels)
    ensures NoLabel(Eliminated(g, eps, labels), eps)
    ensures InRange(Eliminated(g, eps, labels)) && LabelsIn(Eliminated(g, eps, labels), labels)
  {
    StartInvariant(g, eps, labels);
    CopyFromInvariant(g, g, eps, labels, 0);
    var h := CopyFrom(g, eps, labels, 0);
    var r := Eliminated(g, eps, labels);
    forall v, e | 0 <= v < |r| && e in r[v].edges ensures e.symbol != eps && e.target < |r| && e.symbol in labels {
      assert r[v].edges == Without(h[v].edges, eps);
    }
  }

  /** When every epsilon edge is a self-loop there is nothing to copy: the first phase leaves the graph as it is. */
  lemma {:induction false} CopyFromLoops(h: seq<State>, eps: char, labels: set<char>, k: nat)
    requires LoopsOnly(h, eps)
    ensures CopyFrom(h, eps, labels, k) == h
    decreases |h| - k
  {
    if k < |h| {
      ClosureOfLoops(h, eps, k);
      AppendNothing(h, k);
      assert CopyOnto(h, eps, labels, k) == h;
      assert CopyFrom(h, eps, labels, k) == CopyFrom(CopyOnto(h, eps, labels, k), eps, labels, k + 1);
      CopyFromLoops(h, eps, labels, k + 1);
    }
  }

  /** A graph without epsilon edges loses nothing in the second phase. */
  lemma DropEpsNone(h: seq<State>, eps: char)
    requires NoLabel(h, eps)
    ensures DropEps(h, eps) == h
  {
    forall i | 0 <= i < |h| ensures Without(h[i].edges, eps) == h[i].edges {
      LabelledNone(h[i].edges, eps);
      WithoutUnlabelled(h[i].edges, eps);
    }
  }

  /** With epsilon self-loops only, elimination just erases them. */
  lemma EliminatedLoops(g: seq<State>, eps: char, labels: set<char>)
    requires LoopsOnly(g, eps)
    ensures Eliminated(g, eps, labels) == DropEps(g, eps)
  {
    CopyFromLoops(g, eps, labels, 0);
  }

  /** Elimination is idempotent: its result has no epsilon edge left to remove or follow. */
  lemma EliminateTwice(g: seq<State>, eps: char, labels: set<char>)
    requires InRange(g) && LabelsIn(g, labels)
    ensures Eliminated(Eliminated(g, eps, labels), eps, labels) == Eliminated(g, eps, labels)
  {
    var h := Eliminated(g, eps, labels);
    EliminatedWellFormed(g, eps, labels);
    EliminatedLoops(h, eps, labels);
    DropEpsNone(h, eps);
  }
}
