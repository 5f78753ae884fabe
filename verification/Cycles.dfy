/** `_cyclic_bundle_names`: the depth-first search for delegation cycles. */
module Cycles {
  import opened Graphs
  import opened Sequences

  /** Each node's targets in the order the search takes them. */
  type Ordered<N> = map<N, seq<N>>

  function Next<N>(g: Ordered<N>, n: N): seq<N> {
    if n in g then g[n] else []
  }

  ghost function Unordered<N(!new)>(g: Ordered<N>): Graph<N> {
    map n | n in g :: (set t | t in g[n])
  }

  /** All nodes there are. */
  ghost predicate Closed<N(!new)>(g: Ordered<N>, all: set<N>) {
    g.Keys <= all && forall n, t :: n in g && t in g[n] ==> t in all
  }

  /** The three sets and the stack the nested function shares. */
  datatype State<N> = State(visiting: set<N>, visited: set<N>, cyclic: set<N>, stack: seq<N>)

  function IndexOf<N(==)>(s: seq<N>, n: N): (i: nat)
    requires n in s
    ensures i < |s| && s[i] == n && n !in s[..i]
  {
    if s[0] == n then 0 else 1 + IndexOf(s[1..], n)
  }

  function From<N(!new)>(s: seq<N>, i: nat): (r: set<N>)
    requires i <= |s|
    ensures forall n :: n in r <==> n in s[i..]
  {
    set n | n in s[i..]
  }

  ghost predicate Consistent<N(!new)>(s: State<N>) {
    forall n :: n in s.visiting <==> n in s.stack
  }

  lemma ClosedNodes<N(!new)>(g: Ordered<N>, all: set<N>)
    requires Closed(g, all)
    ensures forall n :: n in g ==> n in all
  {
  }

  lemma NextInside<N(!new)>(g: Ordered<N>, all: set<N>, n: N)
    requires Closed(g, all)
    ensures forall t :: t in Next(g, n) ==> t in all
  {
  }

  lemma SameStack<N(!new)>(s: State<N>, r: State<N>)
    requires Consistent(s) && r.visiting == s.visiting && r.stack == s.stack
    ensures Consistent(r)
  {
  }

  lemma InStack<N(!new)>(s: State<N>, n: N)
    requires Consistent(s) && n in s.visiting
    ensures n in s.stack
  {
  }

  /** `visit`, as a function of the shared state. */
  ghost function Visit<N(!new)>(g: Ordered<N>, all: set<N>, n: N, s: State<N>): (r: State<N>)
    requires Closed(g, all) && n in all && Consistent(s)
    ensures r.visiting == s.visiting && r.stack == s.stack
    ensures s.visited <= r.visited && s.cyclic <= r.cyclic
    decreases |all - s.visiting|, 0
  {
    if n in s.visiting then
      s.(cyclic := s.cyclic + From(s.stack, IndexOf(s.stack, n)))
    else if n in s.visited then
      s
    else
      assert all - (s.visiting + {n}) == all - s.visiting - {n};
      var inner := s.(visiting := s.visiting + {n}, stack := s.stack + [n]);
      var out := VisitAll(g, all, Next(g, n), inner);
      out.(visiting := s.visiting, stack := s.stack, visited := out.visited + {n})
  }

  ghost function VisitAll<N(!new)>(g: Ordered<N>, all: set<N>, ts: seq<N>, s: State<N>): (r: State<N>)
    requires Closed(g, all) && (forall t :: t in ts ==> t in all) && Consistent(s)
    ensures r.visiting == s.visiting && r.stack == s.stack
    ensures s.visited <= r.visited && s.cyclic <= r.cyclic
    decreases |all - s.visiting|, |ts|
  {
    if ts == [] then s
    else VisitAll(g, all, ts[..|ts| - 1], s).(
      visited := Visit(g, all, ts[|ts| - 1], VisitAll(g, all, ts[..|ts| - 1], s)).visited,
      cyclic := Visit(g, all, ts[|ts| - 1], VisitAll(g, all, ts[..|ts| - 1], s)).cyclic)
  }

  lemma AllOne<N(!new)>(g: Ordered<N>, all: set<N>, ts: seq<N>, t: N, s: State<N>)
    requires Closed(g, all) && (forall x :: x in ts ==> x in all) && t in all && Consistent(s)
    ensures VisitAll(g, all, ts + [t], s) == Visit(g, all, t, VisitAll(g, all, ts, s))
  {
    assert (ts + [t])[..|ts|] == ts;
  }

  lemma AllNone<N(!new)>(g: Ordered<N>, all: set<N>, ts: seq<N>, s: State<N>)
    requires Closed(g, all) && ts == [] && Consistent(s)
    ensures VisitAll(g, all, ts, s) == s
  {
  }

  lemma OnStack<N(!new)>(g: Ordered<N>, all: set<N>, n: N, s: State<N>)
    requires Closed(g, all) && n in all && Consistent(s) && n in s.visiting
    ensures Visit(g, all, n, s) == s.(cyclic := s.cyclic + From(s.stack, IndexOf(s.stack, n)))
  {
  }

  lemma AlreadyVisited<N(!new)>(g: Ordered<N>, all: set<N>, n: N, s: State<N>)
    requires Closed(g, all) && n in all && Consistent(s) && n !in s.visiting && n in s.visited
    ensures Visit(g, all, n, s) == s
  {
  }

  function Enter<N>(s: State<N>, n: N): State<N> {
    s.(visiting := s.visiting + {n}, stack := s.stack + [n])
  }

  lemma Entered<N(!new)>(s: State<N>, n: N)
    requires Consistent(s)
    ensures Consistent(Enter(s, n))
  {
  }

  lemma NewNode<N(!new)>(g: Ordered<N>, all: set<N>, n: N, s: State<N>, out: State<N>)
    requires Closed(g, all) && n in all && Consistent(s) && n !in s.visiting && n !in s.visited
    requires Consistent(Enter(s, n)) && (forall t :: t in Next(g, n) ==> t in all)
    requires out == VisitAll(g, all, Next(g, n), Enter(s, n))
    ensures Visit(g, all, n, s) == State(s.visiting, out.visited + {n}, out.cyclic, s.stack)
    ensures out.stack == s.stack + [n] && out.visiting == s.visiting + {n}
  {
    assert all - (s.visiting + {n}) == all - s.visiting - {n};
  }

  /** The search object: the sets the closure captures and the stack it passes along. */
  class Search<N(==, !new)> {
    const graph: Ordered<N>
    ghost const all: set<N>
    var visiting: set<N>
    var visited: set<N>
    var cyclic: set<N>
    var stack: seq<N>

    ghost function Now(): State<N>
      reads this
    {
      State(visiting, visited, cyclic, stack)
    }

    constructor (g: Ordered<N>, ghost universe: set<N>)
      ensures graph == g && all == universe && Now() == State({}, {}, {}, [])
    {
      graph, all := g, universe;
      visiting, visited, cyclic, stack := {}, {}, {}, [];
    }

    method VisitNode(n: N)
      requires Closed(graph, all) && n in all && Consistent(Now())
      modifies this
      ensures Now() == Visit(graph, all, n, old(Now()))
      decreases |all - visiting|, 0
    {
      hide Closed, Visit, VisitAll, Next, Consistent, From, IndexOf;
      ghost var before := Now();
      if n in visiting {
        OnStack(graph, all, n, before);
        InStack(before, n);
        cyclic := cyclic + From(stack, IndexOf(stack, n));
        return;
      }
      if n in visited {
        AlreadyVisited(graph, all, n, before);
        return;
      }
      visiting := visiting + {n};
      stack := stack + [n];
      NextInside(graph, all, n);
      Entered(before, n);
      assert all - visiting == all - before.visiting - {n};
      VisitEach(Next(graph, n));
      NewNode(graph, all, n, before, Now());
      stack := stack[..|stack| - 1];
      visiting := visiting - {n};
      visited := visited + {n};
      assert visiting == before.visiting && stack == before.stack;
    }

    /** The loop over a node's targets. */
    method VisitEach(targets: seq<N>)
      requires Closed(graph, all) && (forall t :: t in targets ==> t in all) && Consistent(Now())
      modifies this
      ensures Now() == VisitAll(graph, all, targets, old(Now()))
      decreases |all - visiting|, 1
    {
      hide Closed, Visit, VisitAll, Consistent;
      ghost var start := Now();
      AllNone(graph, all, targets[..0], start);
      for i := 0 to |targets|
        invariant Now() == VisitAll(graph, all, targets[..i], start)
      {
        AllOne(graph, all, targets[..i], targets[i], start);
        assert targets[..i + 1] == targets[..i] + [targets[i]];
        SameStack(start, Now());
        VisitNode(targets[i]);
      }
      assert targets[..|targets|] == targets;
    }
  }

  /** `_cyclic_bundle_names` over the nodes in the order the dictionary lists them. */
  method CyclicNames<N(==, !new)>(g: Ordered<N>, nodes: seq<N>, ghost all: set<N>) returns (cyclic: set<N>)
    requires Closed(g, all) && (forall n :: n in nodes <==> n in g)
    ensures cyclic == VisitAll(g, all, nodes, State({}, {}, {}, [])).cyclic
    ensures forall n :: n in cyclic ==> OnCycle(Unordered(g), n)
    ensures cyclic == {} <==> !Cyclic(Unordered(g))
  {
    hide Visit, Closed, OnCycle, Cyclic;
    ClosedNodes(g, all);
    var search := new Search<N>(g, all);
    for i := 0 to |nodes|
      invariant Consistent(search.Now())
      invariant search.Now() == VisitAll(g, all, nodes[..i], State({}, {}, {}, []))
    {
      assert nodes[..i + 1][..i] == nodes[..i];
      search.VisitNode(nodes[i]);
    }
    assert nodes[..|nodes|] == nodes;
    cyclic := search.cyclic;
    CyclicNamesCorrect(g, nodes, all);
  }

  // ----- soundness: whatever is reported lies on a cycle

  /** The stack is a path of the graph, listing the nodes being visited. */
  ghost predicate StackIsPath<N(!new)>(g: Ordered<N>, s: State<N>) {
    Consistent(s) && Distinct(s.stack) && (s.stack != [] ==> Walk(Unordered(g), s.stack))
  }

  ghost predicate Reported<N(!new)>(g: Ordered<N>, cyclic: set<N>) {
    forall n :: n in cyclic ==> OnCycle(Unordered(g), n)
  }

  /** Meeting a node of the stack closes the part of the path from it. */
  lemma BackEdge<N(!new)>(g: Ordered<N>, s: State<N>, n: N)
    requires StackIsPath(g, s) && n in s.stack && n in Next(g, s.stack[|s.stack| - 1])
    ensures Reported(g, From(s.stack, IndexOf(s.stack, n)))
  {
    var i := IndexOf(s.stack, n);
    var w := s.stack[i..] + [n];
    forall k | 0 <= k < |w| - 1 ensures w[k + 1] in Targets(Unordered(g), w[k]) {
      if k < |w| - 2 { assert w[k] == s.stack[i + k] && w[k + 1] == s.stack[i + k + 1]; }
    }
    assert Cycle(Unordered(g), w);
    forall m | m in From(s.stack, i) ensures OnCycle(Unordered(g), m) { assert m in w; }
  }

  lemma PushPath<N(!new)>(g: Ordered<N>, s: State<N>, n: N)
    requires StackIsPath(g, s) && n !in s.visiting && (s.stack != [] ==> n in Next(g, s.stack[|s.stack| - 1]))
    ensures StackIsPath(g, s.(visiting := s.visiting + {n}, stack := s.stack + [n]))
  {
    var w := s.stack + [n];
    forall k | 0 <= k < |w| - 1 ensures w[k + 1] in Targets(Unordered(g), w[k]) {
      if k < |w| - 2 { assert s.stack[k + 1] in Targets(Unordered(g), s.stack[k]); }
    }
  }

  lemma ReportedUnion<N(!new)>(g: Ordered<N>, a: set<N>, b: set<N>)
    requires Reported(g, a) && Reported(g, b)
    ensures Reported(g, a + b)
  {
  }

  lemma PathConsistent<N(!new)>(g: Ordered<N>, s: State<N>)
    requires StackIsPath(g, s)
    ensures Consistent(s)
  {
  }

  lemma SamePath<N(!new)>(g: Ordered<N>, s: State<N>, r: State<N>)
    requires StackIsPath(g, s) && r.visiting == s.visiting && r.stack == s.stack
    ensures StackIsPath(g, r)
  {
  }

  lemma {:induction false} VisitSound<N(!new)>(g: Ordered<N>, all: set<N>, n: N, s: State<N>)
    requires Closed(g, all) && n in all && StackIsPath(g, s) && Reported(g, s.cyclic)
    requires s.stack != [] ==> n in Next(g, s.stack[|s.stack| - 1])
    ensures Reported(g, Visit(g, all, n, s).cyclic)
    decreases |all - s.visiting|, 0
  {
    hide Reported, Unordered;
    if n in s.visiting {
      BackEdge(g, s, n);
      ReportedUnion(g, s.cyclic, From(s.stack, IndexOf(s.stack, n)));
    } else if n !in s.visited {
      var inner := s.(visiting := s.visiting + {n}, stack := s.stack + [n]);
      assert all - inner.visiting == all - s.visiting - {n};
      PushPath(g, s, n);
      VisitAllSound(g, all, Next(g, n), inner);
    }
  }

  lemma {:induction false} VisitAllSound<N(!new)>(g: Ordered<N>, all: set<N>, ts: seq<N>, s: State<N>)
    requires Closed(g, all) && (forall t :: t in ts ==> t in all) && StackIsPath(g, s) && Reported(g, s.cyclic)
    requires s.stack != [] ==> forall t :: t in ts ==> t in Next(g, s.stack[|s.stack| - 1])
    ensures Reported(g, VisitAll(g, all, ts, s).cyclic)
    decreases |all - s.visiting|, |ts|
  {
    hide Reported, Unordered, Closed, Visit, Next, StackIsPath;
    PathConsistent(g, s);
    if ts == [] {
    } else {
      var init, last := ts[..|ts| - 1], ts[|ts| - 1];
      assert ts == init + [last] && last in ts;
      forall t | t in init ensures t in ts {}
      VisitAllSound(g, all, init, s);
      SamePath(g, s, VisitAll(g, all, init, s));
      VisitSound(g, all, last, VisitAll(g, all, init, s));
    }
  }

  // ----- detection: a search that reports nothing has listed every node bottom-up

  /** The visited nodes in the order they were finished. */
  ghost predicate FinishedBy<N(!new)>(g: Ordered<N>, s: State<N>, order: seq<N>) {
    && Distinct(order)
    && (forall n :: n in order <==> n in s.visited)
    && (forall n :: n in s.visiting ==> n !in s.visited)
    && (s.cyclic == {} ==> Finishes(Unordered(g), order))
  }

  lemma Finishing<N(!new)>(g: Ordered<N>, n: N, s: State<N>, r: State<N>, order: seq<N>)
    requires FinishedBy(g, s, order) && n in s.visiting
    requires s.cyclic == {} ==> forall t :: t in Next(g, n) ==> t in s.visited
    requires r.visited == s.visited + {n} && r.cyclic == s.cyclic && r.visiting <= s.visiting && n !in r.visiting
    ensures FinishedBy(g, r, order + [n])
  {
    var out := order + [n];
    if r.cyclic == {} {
      forall i, t | 0 <= i < |out| && t in Targets(Unordered(g), out[i]) ensures t in out[..i] {
        if i < |order| {
          assert t in order[..i];
          assert out[..i] == order[..i];
        } else {
          assert out[..i] == order;
        }
      }
    }
  }

  lemma {:induction false} VisitFinishes<N(!new)>(g: Ordered<N>, all: set<N>, n: N, s: State<N>, order: seq<N>)
    returns (out: seq<N>)
    requires Closed(g, all) && n in all && Consistent(s) && FinishedBy(g, s, order)
    ensures FinishedBy(g, Visit(g, all, n, s), out)
    ensures Visit(g, all, n, s).cyclic == {} ==> n in Visit(g, all, n, s).visited
    decreases |all - s.visiting|, 0
  {
    var r := Visit(g, all, n, s);
    if n in s.visiting {
      out := order;
      assert n in From(s.stack, IndexOf(s.stack, n));
      assert n in r.cyclic;
    } else if n in s.visited {
      out := order;
    } else {
      var inner := s.(visiting := s.visiting + {n}, stack := s.stack + [n]);
      assert all - inner.visiting == all - s.visiting - {n};
      var mid := VisitAllFinishes(g, all, Next(g, n), inner, order);
      out := mid + [n];
      Finishing(g, n, VisitAll(g, all, Next(g, n), inner), r, mid);
    }
  }

  lemma {:induction false} VisitAllFinishes<N(!new)>(g: Ordered<N>, all: set<N>, ts: seq<N>, s: State<N>, order: seq<N>)
    returns (out: seq<N>)
    requires Closed(g, all) && (forall t :: t in ts ==> t in all) && Consistent(s) && FinishedBy(g, s, order)
    ensures FinishedBy(g, VisitAll(g, all, ts, s), out)
    ensures VisitAll(g, all, ts, s).cyclic == {} ==> forall t :: t in ts ==> t in VisitAll(g, all, ts, s).visited
    decreases |all - s.visiting|, |ts|
  {
    hide FinishedBy;
    if ts == [] {
      out := order;
    } else {
      var init, last := ts[..|ts| - 1], ts[|ts| - 1];
      var mid := VisitAllFinishes(g, all, init, s, order);
      out := VisitFinishes(g, all, last, VisitAll(g, all, init, s), mid);
      assert ts == init + [last];
    }
  }

  /** Every reported node lies on a real cycle, and something is reported exactly when the
      graph has a cycle. */
  lemma CyclicNamesCorrect<N(!new)>(g: Ordered<N>, nodes: seq<N>, all: set<N>)
    requires Closed(g, all) && (forall n :: n in nodes <==> n in g)
    ensures var cyclic := VisitAll(g, all, nodes, State({}, {}, {}, [])).cyclic;
            && (forall n :: n in cyclic ==> OnCycle(Unordered(g), n))
            && (cyclic == {} <==> !Cyclic(Unordered(g)))
  {
    var s: State<N> := State({}, {}, {}, []);
    VisitAllSound(g, all, nodes, s);
    var r := VisitAll(g, all, nodes, s);
    var order := VisitAllFinishes(g, all, nodes, s, []);
    if r.cyclic == {} {
      forall w ensures !Cycle(Unordered(g), w) {
        FinishesAcyclic(Unordered(g), order, w);
        CycleStart(Unordered(g), w);
      }
    } else {
      var n :| n in r.cyclic;
      var w :| Cycle(Unordered(g), w) && n in w;
    }
  }

  const MISSED: Ordered<int> := map[0 := [1, 2], 1 := [0], 2 := [1]]

  lemma MissedCycle()
    ensures OnCycle(Unordered(MISSED), 2)
  {
    var w := [0, 2, 1, 0];
    assert Cycle(Unordered(MISSED), w) && 2 in w;
  }

  /** Entering 1 below 0: its target 0 closes the cycle 0 -> 1 -> 0. */
  lemma MissedFromOne()
    ensures Visit(MISSED, {0, 1, 2}, 1, State({0}, {}, {}, [0])) == State({0}, {1}, {0, 1}, [0])
  {
    var all := {0, 1, 2};
    var in1: State<int> := State({0, 1}, {}, {}, [0, 1]);
    assert IndexOf([0, 1], 0) == 0 && From([0, 1], 0) == {0, 1};
    AllOne(MISSED, all, [], 0, in1);
    assert [] + [0] == [0];
    assert {0} + {1} == {0, 1} && [0] + [1] == [0, 1];
  }

  /** Entering 2 below 0, after 1: its target 1 has been visited, so nothing is added. */
  lemma MissedFromTwo()
    ensures Visit(MISSED, {0, 1, 2}, 2, State({0}, {1}, {0, 1}, [0])) == State({0}, {1, 2}, {0, 1}, [0])
  {
    var all := {0, 1, 2};
    var in2: State<int> := State({0, 2}, {1}, {0, 1}, [0, 2]);
    AlreadyVisited(MISSED, all, 1, in2);
    AllOne(MISSED, all, [], 1, in2);
    assert [] + [1] == [1];
    assert {0} + {2} == {0, 2} && [0] + [2] == [0, 2];
    assert {1} + {2} == {1, 2};
  }

  lemma MissedFromRoot()
    ensures Visit(MISSED, {0, 1, 2}, 0, State({}, {}, {}, [])) == State({}, {0, 1, 2}, {0, 1}, [])
  {
    hide Visit, VisitAll;
    var all := {0, 1, 2};
    var in0: State<int> := State({0}, {}, {}, [0]);
    MissedFromOne();
    MissedFromTwo();
    AllOne(MISSED, all, [], 1, in0);
    AllOne(MISSED, all, [1], 2, in0);
    AllNone(MISSED, all, [], in0);
    assert [] + [1] == [1] && [1] + [2] == [1, 2];
    assert Next(MISSED, 0) == [1, 2];
    var start: State<int> := State({}, {}, {}, []);
    assert Enter(start, 0) == in0;
    NewNode(MISSED, all, 0, start, State({0}, {1, 2}, {0, 1}, [0]));
    assert {1, 2} + {0} == {0, 1, 2};
  }

  /** Not every node of a cycle is reported: with 0 -> 1, 0 -> 2, 1 -> 0 and 2 -> 1 the
      search has already left 1 when it reaches 2, which lies on 0 -> 2 -> 1 -> 0. */
  lemma NotEveryNodeReported()
    ensures VisitAll(MISSED, {0, 1, 2}, [0, 1, 2], State({}, {}, {}, [])).cyclic == {0, 1}
    ensures OnCycle(Unordered(MISSED), 2)
  {
    hide Visit, VisitAll;
    var all := {0, 1, 2};
    var start: State<int> := State({}, {}, {}, []);
    var done := State({}, {0, 1, 2}, {0, 1}, []);
    MissedFromRoot();
    AlreadyVisited(MISSED, all, 1, done);
    AlreadyVisited(MISSED, all, 2, done);
    AllNone(MISSED, all, [], start);
    AllOne(MISSED, all, [], 0, start);
    AllOne(MISSED, all, [0], 1, start);
    AllOne(MISSED, all, [0, 1], 2, start);
    assert [] + [0] == [0] && [0] + [1] == [0, 1] && [0, 1] + [2] == [0, 1, 2];
    MissedCycle();
  }
}
