/** Walks and cycles of a finite graph given by its successor sets. */
module Graphs {
  import opened Sequences

  type Graph<N> = map<N, set<N>>

  /** `graph.get(node, set())` */
  function Targets<N>(g: Graph<N>, n: N): set<N> {
    if n in g then g[n] else {}
  }

  ghost predicate Walk<N>(g: Graph<N>, w: seq<N>) {
    w != [] && forall i :: 0 <= i < |w| - 1 ==> w[i + 1] in Targets(g, w[i])
  }

  /** A closed walk with at least one edge. */
  ghost predicate Cycle<N>(g: Graph<N>, w: seq<N>) {
    Walk(g, w) && |w| >= 2 && w[0] == w[|w| - 1]
  }

  lemma CycleStart<N>(g: Graph<N>, w: seq<N>)
    ensures Cycle(g, w) ==> w[0] in g
  {
    if Cycle(g, w) { assert w[1] in Targets(g, w[0]); }
  }

  ghost predicate Cyclic<N(!new)>(g: Graph<N>) {
    exists w :: Cycle(g, w)
  }

  ghost predicate OnCycle<N(!new)>(g: Graph<N>, n: N) {
    exists w :: Cycle(g, w) && n in w
  }

  /** A listing in which every edge from a listed node goes to an earlier one. */
  ghost predicate Finishes<N>(g: Graph<N>, order: seq<N>) {
    forall i, t :: 0 <= i < |order| && t in Targets(g, order[i]) ==> t in order[..i]
  }

  /** From a node of such a listing every walk stays in it, going strictly down. */
  lemma {:induction false} WalkDescends<N>(g: Graph<N>, order: seq<N>, w: seq<N>, i: nat) returns (j: nat)
    requires Finishes(g, order) && Walk(g, w) && i < |order| && order[i] == w[0]
    ensures j < |order| && order[j] == w[|w| - 1]
    ensures j <= i && (|w| >= 2 ==> j < i)
    decreases |w|
  {
    if |w| == 1 {
      j := i;
    } else {
      assert w[1] in Targets(g, order[i]);
      assert w[1] in order[..i];
      var k :| 0 <= k < i && order[k] == w[1];
      assert forall m :: 0 <= m < |w[1..]| ==> w[1..][m] == w[m + 1];
      j := WalkDescends(g, order, w[1..], k);
    }
  }

  /** No cycle meets such a listing, when its nodes are listed once. */
  lemma FinishesAcyclic<N>(g: Graph<N>, order: seq<N>, w: seq<N>)
    requires Finishes(g, order)
    requires Distinct(order)
    ensures Cycle(g, w) ==> w[0] !in order
  {
    if Cycle(g, w) && w[0] in order {
      var i :| 0 <= i < |order| && order[i] == w[0];
      var j := WalkDescends(g, order, w, i);
      assert false;
    }
  }

  // ----- sets every member of which has a predecessor inside

  ghost predicate HasPredecessor<N(!new)>(g: Graph<N>, s: set<N>, n: N) {
    exists p :: p in s && n in Targets(g, p)
  }

  ghost predicate PredecessorClosed<N(!new)>(g: Graph<N>, s: set<N>) {
    forall n {:trigger HasPredecessor(g, s, n)} :: n in s ==> HasPredecessor(g, s, n)
  }

  lemma Predecessor<N(!new)>(g: Graph<N>, s: set<N>, n: N) returns (p: N)
    requires PredecessorClosed(g, s) && n in s
    ensures p in s && n in Targets(g, p)
  {
    assert HasPredecessor(g, s, n);
    p :| p in s && n in Targets(g, p);
  }

  /** A backward walk of any length inside such a set, written forwards. */
  lemma {:induction false} WalkInside<N(!new)>(g: Graph<N>, s: set<N>, k: nat) returns (w: seq<N>)
    requires PredecessorClosed(g, s) && s != {}
    ensures |w| == k + 1 && Walk(g, w) && forall i :: 0 <= i < |w| ==> w[i] in s
  {
    hide PredecessorClosed;
    if k == 0 {
      var n :| n in s;
      w := [n];
    } else {
      var v := WalkInside(g, s, k - 1);
      var p := Predecessor(g, s, v[0]);
      w := [p] + v;
    }
  }

  lemma {:induction false} Repeats<N>(w: seq<N>, s: set<N>) returns (i: nat, j: nat)
    requires |w| > |s| && forall k :: 0 <= k < |w| ==> w[k] in s
    ensures i < j < |w| && w[i] == w[j]
    decreases |w|
  {
    var last := |w| - 1;
    if k :| 0 <= k < last && w[k] == w[last] {
      i, j := k, last;
    } else {
      i, j := Repeats(w[..last], s - {w[last]});
    }
  }

  /** Such a set, if not empty, contains a cycle. */
  lemma PredecessorClosedHasCycle<N(!new)>(g: Graph<N>, s: set<N>) returns (c: seq<N>)
    requires PredecessorClosed(g, s) && s != {}
    ensures Cycle(g, c) && forall n :: n in c ==> n in s
  {
    hide PredecessorClosed;
    var w := WalkInside(g, s, |s|);
    var i, j := Repeats(w, s);
    c := w[i..j + 1];
    forall k | 0 <= k < |c| - 1 ensures c[k + 1] in Targets(g, c[k]) {
      assert c[k] == w[i + k] && c[k + 1] == w[i + k + 1];
    }
  }
}
