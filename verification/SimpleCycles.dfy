/** When no bundle lies on two different cycles, the cycle search misses nothing. */
module SimpleCycles {
  import opened Graphs
  import opened Cycles

  ghost predicate LeadsTo<N(!new)>(g: Ordered<N>, a: N, b: N) {
    exists w :: Walk(Unordered(g), w) && w[0] == a && w[|w| - 1] == b
  }

  /** A target of the node from which the edges lead back to it. */
  ghost predicate Returns<N(!new)>(g: Ordered<N>, n: N, t: N) {
    t in Next(g, n) && LeadsTo(g, t, n)
  }

  /** No node has two of them; how many targets lead elsewhere does not matter. */
  ghost predicate OneReturn<N(!new)>(g: Ordered<N>) {
    forall n, t, u :: Returns(g, n, t) && Returns(g, n, u) ==> t == u
  }

  lemma TargetsAreNext<N(!new)>(g: Ordered<N>, n: N)
    ensures forall t :: t in Targets(Unordered(g), n) <==> t in Next(g, n)
  {
  }

  lemma WalkPart<N(!new)>(g: Ordered<N>, w: seq<N>, i: nat, j: nat)
    requires Walk(Unordered(g), w) && i < j <= |w|
    ensures Walk(Unordered(g), w[i..j])
  {
    forall k | 0 <= k < |w[i..j]| - 1 ensures w[i..j][k + 1] in Targets(Unordered(g), w[i..j][k]) {
      assert w[i..j][k] == w[i + k] && w[i..j][k + 1] == w[i + k + 1];
    }
  }

  lemma WalkJoin<N(!new)>(g: Ordered<N>, a: seq<N>, b: seq<N>)
    requires Walk(Unordered(g), a) && Walk(Unordered(g), b) && b[0] in Next(g, a[|a| - 1])
    ensures Walk(Unordered(g), a + b)
  {
    TargetsAreNext(g, a[|a| - 1]);
    var w := a + b;
    forall k | 0 <= k < |w| - 1 ensures w[k + 1] in Targets(Unordered(g), w[k]) {
      if k < |a| - 1 { assert w[k] == a[k] && w[k + 1] == a[k + 1]; }
      if k >= |a| { assert w[k] == b[k - |a|] && w[k + 1] == b[k - |a| + 1]; }
    }
  }

  lemma WalkStep<N(!new)>(g: Ordered<N>, w: seq<N>, k: nat)
    requires Walk(Unordered(g), w) && k + 1 < |w|
    ensures w[k + 1] in Next(g, w[k])
  {
    TargetsAreNext(g, w[k]);
  }

  /** On a closed walk, each node returns through the next one. */
  lemma ReturnsAlong<N(!new)>(g: Ordered<N>, w: seq<N>, k: nat)
    requires Walk(Unordered(g), w) && k < |w| && w[0] in Next(g, w[|w| - 1])
    ensures Returns(g, w[k], if k + 1 < |w| then w[k + 1] else w[0])
  {
    hide Walk;
    WalkPart(g, w, 0, k + 1);
    assert w[0..k + 1] == w[..k + 1];
    var back := w[..k + 1];
    if k + 1 < |w| {
      WalkStep(g, w, k);
      WalkPart(g, w, k + 1, |w|);
      assert w[k + 1..|w|] == w[k + 1..] && w[k + 1..][|w| - k - 2] == w[|w| - 1];
      WalkJoin(g, w[k + 1..], back);
      back := w[k + 1..] + back;
    }
    assert Walk(Unordered(g), back) && back[|back| - 1] == w[k];
  }

  /** A node on a cycle has a target that returns, on a cycle too. */
  lemma CycleReturns<N(!new)>(g: Ordered<N>, n: N) returns (t: N)
    requires OnCycle(Unordered(g), n)
    ensures Returns(g, n, t) && OnCycle(Unordered(g), t)
  {
    var c :| Cycle(Unordered(g), c) && n in c;
    var i :| 0 <= i < |c| && c[i] == n;
    var k := if i == |c| - 1 then 0 else i;
    var w := c[..|c| - 1];
    WalkPart(g, c, 0, |c| - 1);
    WalkStep(g, c, |c| - 2);
    ReturnsAlong(g, w, k);
    t := c[k + 1];
    assert t in c;
  }

  /** A set the returning edges do not leave. */
  ghost predicate Keeps<N(!new)>(g: Ordered<N>, s: set<N>) {
    forall n, t :: n in s && Returns(g, n, t) ==> t in s
  }

  lemma {:induction false} WalkStays<N(!new)>(g: Ordered<N>, s: set<N>, w: seq<N>, k: nat)
    requires Keeps(g, s) && Walk(Unordered(g), w) && w[0] in Next(g, w[|w| - 1]) && w[0] in s && k < |w|
    ensures w[k] in s
  {
    hide Walk, Returns;
    if k == 0 {
    } else {
      WalkStays(g, s, w, k - 1);
      ReturnsAlong(g, w, k - 1);
    }
  }

  /** A node whose returning target is in such a set is in it. */
  lemma KeptBackwards<N(!new)>(g: Ordered<N>, s: set<N>, n: N, t: N)
    requires Keeps(g, s) && Returns(g, n, t) && t in s
    ensures n in s
  {
    hide Keeps;
    var w :| Walk(Unordered(g), w) && w[0] == t && w[|w| - 1] == n;
    WalkStays(g, s, w, |w| - 1);
  }

  // ----- the two invariants of the search

  /** The reported nodes are closed under going back along a cycle. */
  ghost predicate Backed<N(!new)>(g: Ordered<N>, cyclic: set<N>) {
    forall n, t :: Returns(g, n, t) && t in cyclic ==> n in cyclic
  }

  /** Whatever has been left and lies on a cycle has been reported. */
  ghost predicate Accounted<N(!new)>(g: Ordered<N>, s: State<N>) {
    Backed(g, s.cyclic) && forall n :: n in s.visited && OnCycle(Unordered(g), n) ==> n in s.cyclic
  }

  /** The part of the path that a back edge reports keeps its returning edges. */
  lemma SliceKeeps<N(!new)>(g: Ordered<N>, s: State<N>, n: N)
    requires OneReturn(g) && StackIsPath(g, s) && n in s.stack && n in Next(g, s.stack[|s.stack| - 1])
    ensures Keeps(g, From(s.stack, IndexOf(s.stack, n)))
  {
    hide Returns;
    var i := IndexOf(s.stack, n);
    var w := s.stack[i..];
    WalkPart(g, s.stack, i, |s.stack|);
    forall c, u | c in From(s.stack, i) && Returns(g, c, u) ensures u in From(s.stack, i) {
      var k :| 0 <= k < |w| && w[k] == c;
      ReturnsAlong(g, w, k);
      assert u in w;
    }
  }

  lemma BackEdgeAccounted<N(!new)>(g: Ordered<N>, s: State<N>, n: N)
    requires OneReturn(g) && StackIsPath(g, s) && n in s.stack && n in Next(g, s.stack[|s.stack| - 1])
    requires Accounted(g, s)
    ensures Accounted(g, s.(cyclic := s.cyclic + From(s.stack, IndexOf(s.stack, n))))
    ensures n in From(s.stack, IndexOf(s.stack, n))
  {
    hide Returns, OneReturn, StackIsPath, OnCycle, Keeps;
    var i := IndexOf(s.stack, n);
    SliceKeeps(g, s, n);
    forall m, t | Returns(g, m, t) && t in From(s.stack, i) ensures m in From(s.stack, i) {
      KeptBackwards(g, From(s.stack, i), m, t);
    }
    assert s.stack[i..][0] == n;
  }

  /** When its targets are accounted for, so is the node. */
  lemma LeaveAccounted<N(!new)>(g: Ordered<N>, n: N, out: State<N>, r: State<N>)
    requires Accounted(g, out) && r.visited == out.visited + {n} && r.cyclic == out.cyclic
    requires forall t :: t in Next(g, n) && OnCycle(Unordered(g), t) ==> t in out.cyclic
    ensures Accounted(g, r) && (OnCycle(Unordered(g), n) ==> n in r.cyclic)
  {
    hide OnCycle, LeadsTo;
    if OnCycle(Unordered(g), n) { var t := CycleReturns(g, n); }
  }

  lemma VisitedReported<N(!new)>(g: Ordered<N>, s: State<N>, n: N)
    requires Accounted(g, s) && n in s.visited
    ensures OnCycle(Unordered(g), n) ==> n in s.cyclic
  {
  }

  lemma SameAccount<N(!new)>(g: Ordered<N>, s: State<N>, r: State<N>)
    requires Accounted(g, s) && r.visited == s.visited && r.cyclic == s.cyclic
    ensures Accounted(g, r)
  {
  }

  lemma {:induction false} VisitAccounts<N(!new)>(g: Ordered<N>, all: set<N>, n: N, s: State<N>)
    requires OneReturn(g) && Closed(g, all) && n in all && StackIsPath(g, s) && Accounted(g, s)
    requires s.stack != [] ==> n in Next(g, s.stack[|s.stack| - 1])
    ensures Consistent(s) && Accounted(g, Visit(g, all, n, s))
    ensures OnCycle(Unordered(g), n) ==> n in Visit(g, all, n, s).cyclic
    decreases |all - s.visiting|, 0
  {
    hide OneReturn, Closed, StackIsPath, Accounted, OnCycle, VisitAll, Visit, Unordered;
    PathConsistent(g, s);
    if n in s.visiting {
      OnStack(g, all, n, s);
      InStack(s, n);
      BackEdgeAccounted(g, s, n);
    } else if n in s.visited {
      AlreadyVisited(g, all, n, s);
      VisitedReported(g, s, n);
    } else {
      var inner := Enter(s, n);
      assert all - inner.visiting == all - s.visiting - {n};
      NextInside(g, all, n);
      PushPath(g, s, n);
      SameAccount(g, s, inner);
      VisitAllAccounts(g, all, Next(g, n), inner);
      var out := VisitAll(g, all, Next(g, n), inner);
      NewNode(g, all, n, s, out);
      LeaveAccounted(g, n, out, Visit(g, all, n, s));
    }
  }

  lemma {:induction false} VisitAllAccounts<N(!new)>(g: Ordered<N>, all: set<N>, ts: seq<N>, s: State<N>)
    requires OneReturn(g) && Closed(g, all) && (forall t :: t in ts ==> t in all)
    requires StackIsPath(g, s) && Accounted(g, s)
    requires s.stack != [] ==> forall t :: t in ts ==> t in Next(g, s.stack[|s.stack| - 1])
    ensures Consistent(s) && Accounted(g, VisitAll(g, all, ts, s))
    ensures forall t :: t in ts && OnCycle(Unordered(g), t) ==> t in VisitAll(g, all, ts, s).cyclic
    decreases |all - s.visiting|, |ts|
  {
    hide OneReturn, Closed, StackIsPath, Accounted, OnCycle, VisitAll, Visit, Unordered, Next;
    PathConsistent(g, s);
    if ts == [] {
      AllNone(g, all, ts, s);
    } else {
      var init, last := ts[..|ts| - 1], ts[|ts| - 1];
      assert ts == init + [last] && last in ts;
      forall t | t in init ensures t in ts {}
      VisitAllAccounts(g, all, init, s);
      var mid := VisitAll(g, all, init, s);
      SamePath(g, s, mid);
      VisitAccounts(g, all, last, mid);
      AllOne(g, all, init, last, s);
    }
  }

  lemma CycleNodesListed<N(!new)>(g: Ordered<N>, n: N)
    requires OnCycle(Unordered(g), n)
    ensures n in g
  {
    var t := CycleReturns(g, n);
  }

  /** The reported nodes are exactly those on a cycle when no node has two targets that lead
      back to it. */
  lemma SimpleCyclesComplete<N(!new)>(g: Ordered<N>, nodes: seq<N>, all: set<N>)
    requires OneReturn(g) && Closed(g, all) && forall n :: n in nodes <==> n in g
    ensures forall n :: n in VisitAll(g, all, nodes, State({}, {}, {}, [])).cyclic <==> OnCycle(Unordered(g), n)
  {
    var start: State<N> := State({}, {}, {}, []);
    CyclicNamesCorrect(g, nodes, all);
    VisitAllAccounts(g, all, nodes, start);
    forall n | OnCycle(Unordered(g), n) ensures n in g { CycleNodesListed(g, n); }
  }
}
