/**
 * Reachability along epsilon-labelled edges: the relation the depth-first
 * search dfs_ of src/automata.h explores, and the facts about it that the
 * epsilon elimination relies on.
 */
module Epsilon {
  import opened Graph

  /** `p` is a walk of one or more states joined by `eps`-labelled edges. */
  ghost predicate EpsPath(states: seq<State>, eps: char, p: seq<nat>)
  {
    |p| >= 1
    && (forall i :: 0 <= i < |p| ==> p[i] < |states|)
    && (forall i :: 0 <= i < |p| - 1 ==> Edge(eps, p[i + 1]) in states[p[i]].edges)
  }

  /** `y` is reachable from `x` by zero or more `eps`-labelled edges. */
  ghost predicate Reaches(states: seq<State>, eps: char, x: nat, y: nat)
  {
    exists p :: EpsPath(states, eps, p) && p[0] == x && p[|p| - 1] == y
  }

  /**
   * The epsilon closure of `x` as dfs() leaves it: every state reachable from
   * `x` by one or more epsilon edges, except `x` itself.
   */
  ghost function Closure(states: seq<State>, eps: char, x: nat): (r: set<nat>)
    ensures Within(r, |states|) && x !in r
  {
    set y | y in Range(|states|) && y != x && Reaches(states, eps, x, y)
  }

  /** A set closed under epsilon edges. */
  ghost predicate EpsClosed(states: seq<State>, eps: char, s: set<nat>)
  {
    forall u, e :: u in s && 0 <= u < |states| && e in states[u].edges && e.symbol == eps ==> e.target in s
  }

  lemma ReachesRefl(states: seq<State>, eps: char, x: nat)
    requires x < |states|
    ensures Reaches(states, eps, x, x)
  {
    assert EpsPath(states, eps, [x]);
  }

  /** An epsilon edge in front of a walk is a walk. */
  lemma {:induction false} ReachesPrepend(states: seq<State>, eps: char, x: nat, y: nat, z: nat)
    requires x < |states| && Edge(eps, y) in states[x].edges && Reaches(states, eps, y, z)
    ensures Reaches(states, eps, x, z)
  {
    var p :| EpsPath(states, eps, p) && p[0] == y && p[|p| - 1] == z;
    var q := [x] + p;
    assert forall i :: 0 < i < |q| ==> q[i] == p[i - 1];
    assert EpsPath(states, eps, q);
  }

  /** An epsilon edge after a walk is a walk. */
  lemma {:induction false} ReachesAppend(states: seq<State>, eps: char, x: nat, y: nat, z: nat)
    requires Reaches(states, eps, x, y) && y < |states| && Edge(eps, z) in states[y].edges
    requires z < |states|
    ensures Reaches(states, eps, x, z)
  {
    var p :| EpsPath(states, eps, p) && p[0] == x && p[|p| - 1] == y;
    var q := p + [z];
    assert EpsPath(states, eps, q);
  }

  lemma {:induction false} ReachesTrans(states: seq<State>, eps: char, x: nat, y: nat, z: nat)
    requires Reaches(states, eps, x, y) && Reaches(states, eps, y, z)
    ensures Reaches(states, eps, x, z)
  {
    var p :| EpsPath(states, eps, p) && p[0] == x && p[|p| - 1] == y;
    var q :| EpsPath(states, eps, q) && q[0] == y && q[|q| - 1] == z;
    var r := p + q[1..];
    assert forall i :: |p| <= i < |r| ==> r[i] == q[i - |p| + 1];
    assert EpsPath(states, eps, r);
  }

  /** A closed set that contains `x` contains everything reachable from `x`. */
  lemma {:induction false} ClosedHoldsReach(states: seq<State>, eps: char, s: set<nat>, x: nat, y: nat)
    requires EpsClosed(states, eps, s) && x in s && Reaches(states, eps, x, y)
    ensures y in s
  {
    var p :| EpsPath(states, eps, p) && p[0] == x && p[|p| - 1] == y;
    var i := 0;
    while i < |p| - 1
      invariant 0 <= i < |p| && p[i] in s
    {
      assert Edge(eps, p[i + 1]) in states[p[i]].edges;
      i := i + 1;
    }
  }

  /** Every epsilon edge leads back to the state it leaves. */
  predicate LoopsOnly(states: seq<State>, eps: char)
  {
    forall v, e :: 0 <= v < |states| && e in states[v].edges && e.symbol == eps ==> e.target == v
  }

  /** When every epsilon edge is a self-loop, a state reaches only itself. */
  lemma {:induction false} ReachesOnlySelf(states: seq<State>, eps: char, x: nat, y: nat)
    requires LoopsOnly(states, eps) && Reaches(states, eps, x, y)
    ensures x == y
  {
    var p :| EpsPath(states, eps, p) && p[0] == x && p[|p| - 1] == y;
    var i := 0;
    while i < |p| - 1
      invariant 0 <= i < |p| && p[i] == x
    {
      assert Edge(eps, p[i + 1]) in states[p[i]].edges;
      i := i + 1;
    }
  }

  /** ... and its closure is empty, the self-loop notwithstanding. */
  lemma ClosureOfLoops(states: seq<State>, eps: char, x: nat)
    requires LoopsOnly(states, eps)
    ensures Closure(states, eps, x) == {}
  {
    forall y | y in Closure(states, eps, x) ensures false {
      ReachesOnlySelf(states, eps, x, y);
    }
  }

  /**
   * Reachability is unchanged when edges are only added, and every added
   * epsilon edge joins two states that were already connected.
   */
  lemma {:induction false} ReachesKept(g: seq<State>, h: seq<State>, eps: char, x: nat, y: nat)
    requires |h| == |g|
    requires forall v, e :: 0 <= v < |g| && e in g[v].edges ==> e in h[v].edges
    requires forall v, e :: 0 <= v < |h| && e in h[v].edges && e.symbol == eps && e.target < |g| ==> Reaches(g, eps, v, e.target)
    ensures Reaches(g, eps, x, y) <==> Reaches(h, eps, x, y)
  {
    if Reaches(g, eps, x, y) {
      var p :| EpsPath(g, eps, p) && p[0] == x && p[|p| - 1] == y;
      assert EpsPath(h, eps, p) by {
        forall i | 0 <= i < |p| - 1 ensures Edge(eps, p[i + 1]) in h[p[i]].edges {
          assert Edge(eps, p[i + 1]) in g[p[i]].edges;
        }
      }
    }
    if Reaches(h, eps, x, y) {
      var p :| EpsPath(h, eps, p) && p[0] == x && p[|p| - 1] == y;
      var i := 0;
      ReachesRefl(g, eps, x);
      while i < |p| - 1
        invariant 0 <= i < |p| && Reaches(g, eps, x, p[i])
      {
        assert Edge(eps, p[i + 1]) in h[p[i]].edges;
        ReachesTrans(g, eps, x, p[i], p[i + 1]);
        i := i + 1;
      }
    }
  }
}
