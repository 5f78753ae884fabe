/** `topo_order`: Kahn's algorithm with a sorted ready list. */
module TopoOrder {
  import opened Ordering
  import opened Sequences
  import opened Graphs

  type Edge = (int, int)

  function Elements(s: seq<int>): (r: set<int>)
    ensures forall x :: x in r <==> x in s
  {
    set x | x in s
  }

  /** The edges the code keeps: both ends among the items, no self-loop. Duplicates
      collapse because the ends are collected in sets. */
  function Blockers(items: set<int>, edges: seq<Edge>, x: int): set<int> {
    set e | e in edges && e.0 == x && e.0 in items && e.1 in items && e.0 != e.1 :: e.1
  }

  function BlockedBy(items: set<int>, edges: seq<Edge>, x: int): set<int> {
    set e | e in edges && e.1 == x && e.0 in items && e.1 in items && e.0 != e.1 :: e.0
  }

  /** The graph of the kept edges, blocked to blocker. */
  ghost function Induced(items: set<int>, edges: seq<Edge>): Graph<int> {
    map x | x in items :: Blockers(items, edges, x)
  }

  lemma Duality(items: set<int>, edges: seq<Edge>, x: int, y: int)
    ensures y in Blockers(items, edges, x) <==> x in BlockedBy(items, edges, y)
    ensures y in Blockers(items, edges, x) <==> x in items && y in items && x != y && (x, y) in edges
  {
    if y in Blockers(items, edges, x) { assert (x, y) in edges; }
    if x in BlockedBy(items, edges, y) { assert (x, y) in edges; }
    if x in items && y in items && x != y && (x, y) in edges {
      assert (x, y).1 in Blockers(items, edges, x);
      assert (x, y).0 in BlockedBy(items, edges, y);
    }
  }

  // ----- reading the edges

  ghost predicate Counted(items: set<int>, edges: seq<Edge>, successors: map<int, set<int>>, indegree: map<int, int>) {
    && successors.Keys == items && indegree.Keys == items
    && (forall x :: x in items ==> successors[x] == Blockers(items, edges, x))
    && (forall x :: x in items ==> indegree[x] == |BlockedBy(items, edges, x)|)
  }

  lemma CountNone(items: set<int>, successors: map<int, set<int>>, indegree: map<int, int>)
    requires successors == map x | x in items :: {}
    requires indegree == map x | x in items :: 0
    ensures Counted(items, [], successors, indegree)
  {
    forall x | x in items ensures Blockers(items, [], x) == {} && BlockedBy(items, [], x) == {} {}
  }

  lemma CountDomains(items: set<int>, edges: seq<Edge>, successors: map<int, set<int>>, indegree: map<int, int>)
    requires Counted(items, edges, successors, indegree)
    ensures successors.Keys == items && indegree.Keys == items
  {
  }

  ghost predicate Kept(items: set<int>, e: Edge) {
    e.0 in items && e.1 in items && e.0 != e.1
  }

  lemma AddEdge(items: set<int>, edges: seq<Edge>, e: Edge)
    ensures forall x :: Blockers(items, edges + [e], x)
                     == Blockers(items, edges, x)
                         + (if x == e.0 && e.0 in items && e.1 in items && e.0 != e.1 then {e.1} else {})
    ensures forall x :: BlockedBy(items, edges + [e], x)
                     == BlockedBy(items, edges, x)
                         + (if x == e.1 && e.0 in items && e.1 in items && e.0 != e.1 then {e.0} else {})
  {
    forall x, y
      ensures y in Blockers(items, edges + [e], x)
         <==> y in Blockers(items, edges, x) || (x == e.0 && y == e.1 && x in items && y in items && x != y)
    {
      Duality(items, edges + [e], x, y);
      Duality(items, edges, x, y);
    }
    forall x, y
      ensures y in BlockedBy(items, edges + [e], x)
         <==> y in BlockedBy(items, edges, x) || (x == e.1 && y == e.0 && x in items && y in items && x != y)
    {
      Duality(items, edges + [e], y, x);
      Duality(items, edges, y, x);
    }
  }

  lemma CountNew(items: set<int>, edges: seq<Edge>, e: Edge, successors: map<int, set<int>>, indegree: map<int, int>)
    requires Counted(items, edges, successors, indegree) && Kept(items, e) && e.1 !in successors[e.0]
    ensures Counted(items, edges + [e], successors[e.0 := successors[e.0] + {e.1}], indegree[e.1 := indegree[e.1] + 1])
  {
    AddEdge(items, edges, e);
    Duality(items, edges, e.0, e.1);
    hide Blockers, BlockedBy;
  }

  lemma Known(items: set<int>, edges: seq<Edge>, x: int, y: int)
    requires y in Blockers(items, edges, x)
    ensures Blockers(items, edges, x) + {y} == Blockers(items, edges, x)
    ensures BlockedBy(items, edges, y) + {x} == BlockedBy(items, edges, y)
  {
    Duality(items, edges, x, y);
  }

  lemma OldEdge(items: set<int>, edges: seq<Edge>, e: Edge, x: int, known: set<int>)
    requires Kept(items, e) ==> known == Blockers(items, edges, e.0) && e.1 in known
    ensures Blockers(items, edges + [e], x) == Blockers(items, edges, x)
    ensures BlockedBy(items, edges + [e], x) == BlockedBy(items, edges, x)
  {
    AddEdge(items, edges, e);
    if Kept(items, e) { Known(items, edges, e.0, e.1); }
    hide Blockers, BlockedBy;
  }

  lemma CountOld(items: set<int>, edges: seq<Edge>, e: Edge, successors: map<int, set<int>>, indegree: map<int, int>)
    requires Counted(items, edges, successors, indegree) && (Kept(items, e) ==> e.1 in successors[e.0])
    ensures Counted(items, edges + [e], successors, indegree)
  {
    forall x | x in items
      ensures Blockers(items, edges + [e], x) == Blockers(items, edges, x)
      ensures BlockedBy(items, edges + [e], x) == BlockedBy(items, edges, x)
    {
      hide *;
      OldEdge(items, edges, e, x, if Kept(items, e) then successors[e.0] else {});
    }
  }

  method CountEdges(items: set<int>, edges: seq<Edge>) returns (successors: map<int, set<int>>, indegree: map<int, int>)
    ensures Counted(items, edges, successors, indegree)
  {
    hide Counted;
    successors := map x | x in items :: {};
    indegree := map x | x in items :: 0;
    assert edges[..0] == [];
    CountNone(items, successors, indegree);
    for i := 0 to |edges|
      invariant Counted(items, edges[..i], successors, indegree)
    {
      var blocked, blocker := edges[i].0, edges[i].1;
      assert edges[..i + 1] == edges[..i] + [edges[i]];
      CountDomains(items, edges[..i], successors, indegree);
      if blocked in items && blocker in items && blocked != blocker && blocker !in successors[blocked] {
        CountNew(items, edges[..i], edges[i], successors, indegree);
        successors := successors[blocked := successors[blocked] + {blocker}];
        indegree := indegree[blocker := indegree[blocker] + 1];
      } else {
        CountOld(items, edges[..i], edges[i], successors, indegree);
      }
    }
    assert edges[..|edges|] == edges;
  }

  // ----- the main loop

  /** Items not yet listed whose blocked items all are: what may come next. */
  ghost function Available(items: set<int>, edges: seq<Edge>, listed: set<int>): set<int> {
    set x | x in items && x !in listed && BlockedBy(items, edges, x) <= listed
  }

  ghost predicate LeastAvailable(items: set<int>, edges: seq<Edge>, ordered: seq<int>, k: nat)
    requires k < |ordered|
  {
    var available := Available(items, edges, Elements(ordered[..k]));
    ordered[k] in available && forall y :: y in available ==> ordered[k] <= y
  }

  /** Each item is the least of those available when it was listed. */
  ghost predicate Greedy(items: set<int>, edges: seq<Edge>, ordered: seq<int>) {
    forall k :: 0 <= k < |ordered| ==> LeastAvailable(items, edges, ordered, k)
  }

  ghost predicate Ascending(s: seq<int>) {
    forall i, j :: 0 <= i < j < |s| ==> s[i] < s[j]
  }

  /** The state between two rounds. */
  ghost predicate Running(items: set<int>, edges: seq<Edge>, indegree: map<int, int>, ready: seq<int>,
                          ordered: seq<int>) {
    && indegree.Keys == items
    && Elements(ordered) <= items
    && Ascending(ready)
    && Elements(ready) == Available(items, edges, Elements(ordered))
    && (forall x :: x in items && x !in ordered ==> indegree[x] == |BlockedBy(items, edges, x) - Elements(ordered)|)
    && Greedy(items, edges, ordered)
  }

  lemma SortedDistinct(s: seq<int>, r: seq<int>)
    requires Distinct(s) && multiset(r) == multiset(s) && Sorted(IntLess, r)
    ensures Ascending(r) && Elements(r) == Elements(s) && |r| == |s|
  {
    SameMultiset(s, r);
    assert |multiset(r)| == |r| && |multiset(s)| == |s|;
    forall i, j | 0 <= i < j < |r| ensures r[i] < r[j] {
      assert !IntLess(r[j], r[i]);
    }
  }

  method SortInts(s: seq<int>) returns (r: seq<int>)
    requires Distinct(s)
    ensures Ascending(r) && Elements(r) == Elements(s) && |r| == |s| && multiset(r) == multiset(s)
  {
    r := Sort(IntLess, s);
    IntLessStrictTotal();
    SortSorted(IntLess, s);
    SortedDistinct(s, r);
  }

  /** The loop over one item's successors: degrees drop, and those reaching zero are
      appended. */
  method Release(succs: seq<int>, indegree: map<int, int>, ready: seq<int>)
    returns (degree: map<int, int>, out: seq<int>)
    requires Distinct(succs) && Elements(succs) <= indegree.Keys
    requires Distinct(ready) && Elements(ready) !! Elements(succs)
    ensures degree.Keys == indegree.Keys
    ensures forall x :: x in indegree ==> degree[x] == indegree[x] - (if x in succs then 1 else 0)
    ensures Distinct(out)
    ensures Elements(out) == Elements(ready) + (set x | x in succs && x in indegree && indegree[x] == 1)
  {
    degree, out := indegree, ready;
    for i := 0 to |succs|
      invariant degree.Keys == indegree.Keys
      invariant forall x :: x in indegree ==> degree[x] == indegree[x] - (if x in succs[..i] then 1 else 0)
      invariant Distinct(out)
      invariant forall x :: x in out <==> x in ready || (x in succs[..i] && indegree[x] == 1)
    {
      var s := succs[i];
      assert s !in succs[..i] && s in Elements(succs);
      assert s in Elements(succs) && s !in Elements(ready);
      assert succs[..i + 1] == succs[..i] + [s];
      degree := degree[s := degree[s] - 1];
      if degree[s] == 0 { out := out + [s]; }
    }
    assert succs[..|succs|] == succs;
    forall x
      ensures x in Elements(out) <==> x in Elements(ready) + (set y | y in succs && y in indegree && indegree[y] == 1)
    {
      assert x in succs <==> x in Elements(succs);
    }
  }

  /** A sorted listing of a set. */
  method SortedSet(s: set<int>) returns (r: seq<int>)
    ensures Ascending(r) && Elements(r) == s
  {
    var items: seq<int> := [];
    var rest := s;
    while rest != {}
      invariant Distinct(items) && rest <= s
      invariant forall x :: x in items <==> x in s && x !in rest
    {
      ghost var member := Member(rest);
      var x :| x in rest;
      items := items + [x];
      rest := rest - {x};
    }
    assert forall x :: x in Elements(items) <==> x in s;
    r := SortInts(items);
  }

  /** `[item for item in items if indegree[item] == 0]` */
  method Sources(items: seq<int>, indegree: map<int, int>) returns (r: seq<int>)
    requires Distinct(items) && Elements(items) <= indegree.Keys
    ensures Distinct(r) && forall x :: x in r <==> x in items && indegree[x] == 0
  {
    r := [];
    for i := 0 to |items|
      invariant Distinct(r) && forall x :: x in r <==> x in items[..i] && indegree[x] == 0
    {
      assert items[..i + 1] == items[..i] + [items[i]];
      assert items[i] !in items[..i];
      if indegree[items[i]] == 0 { r := r + [items[i]]; }
    }
    assert items[..|items|] == items;
  }

  /** `topo_order`: a prefix listed greedily, then the leftovers in ascending order. */
  method Order(items: seq<int>, edges: seq<Edge>) returns (result: seq<int>)
    requires Distinct(items)
    ensures exists n: nat :: IsOrder(items, edges, result, n)
  {
    var itemSet := Elements(items);
    var successors, indegree := CountEdges(itemSet, edges);
    var ready := Sources(items, indegree);
    ready := SortInts(ready);
    var ordered: seq<int> := [];
    Initially(itemSet, edges, successors, indegree, ready);
    while ready != []
      invariant Running(itemSet, edges, indegree, ready, ordered)
      decreases |itemSet - Elements(ordered)|
    {
      ghost var before := ordered;
      var item, rest := ready[0], ready[1..];
      HeadIsNew(itemSet, edges, indegree, ready, ordered);
      var succs := SortedSet(successors[item]);
      BeforeRelease(itemSet, edges, indegree, ready, ordered, item, succs);
      var degree, released := Release(succs, indegree, rest);
      Advance(itemSet, edges, indegree, ready, ordered, item, succs, degree, released);
      indegree := degree;
      ordered := ordered + [item];
      ready := SortInts(released);
      Rest(itemSet, before, item);
    }
    var remaining := SortedSet(itemSet - Elements(ordered));
    result := ordered + remaining;
    Finish(items, edges, indegree, ordered, remaining);
  }

  // ----- what the result is

  ghost predicate IsOrder(items: seq<int>, edges: seq<Edge>, result: seq<int>, n: nat) {
    && n <= |result|
    && multiset(result) == multiset(items)
    && Greedy(Elements(items), edges, result[..n])
    && Ascending(result[n..])
    && Available(Elements(items), edges, Elements(result[..n])) == {}
  }

  lemma NothingListed(items: set<int>, edges: seq<Edge>)
    ensures Greedy(items, edges, [])
  {
  }

  lemma Initially(items: set<int>, edges: seq<Edge>, successors: map<int, set<int>>, indegree: map<int, int>,
                  ready: seq<int>)
    requires Counted(items, edges, successors, indegree)
    requires Ascending(ready) && forall x :: x in Elements(ready) <==> x in items && indegree[x] == 0
    ensures Running(items, edges, indegree, ready, [])
  {
    hide BlockedBy, Blockers, Greedy;
    assert Elements([]) == {};
    forall x | x in items
      ensures BlockedBy(items, edges, x) - Elements([]) == BlockedBy(items, edges, x)
      ensures BlockedBy(items, edges, x) <= {} <==> |BlockedBy(items, edges, x)| == 0
    {
      if |BlockedBy(items, edges, x)| == 0 { assert BlockedBy(items, edges, x) == {}; }
    }
    forall x ensures x in Elements(ready) <==> x in Available(items, edges, {}) {}
    NothingListed(items, edges);
  }

  lemma HeadIsNew(items: set<int>, edges: seq<Edge>, indegree: map<int, int>, ready: seq<int>, ordered: seq<int>)
    requires Running(items, edges, indegree, ready, ordered) && ready != []
    ensures ready[0] in items && ready[0] !in ordered
  {
    assert ready[0] in Elements(ready);
  }

  /** Everything a listed item blocks was listed before it. */
  lemma ListedBlocked(items: set<int>, edges: seq<Edge>, ordered: seq<int>, x: int, y: int)
    requires Greedy(items, edges, ordered) && x in ordered && y in BlockedBy(items, edges, x)
    ensures y in ordered
  {
    var k :| 0 <= k < |ordered| && ordered[k] == x;
    assert LeastAvailable(items, edges, ordered, k);
    assert y in Elements(ordered[..k]);
  }

  /** Listing one more available item: its successors lose one blocked item each. */
  lemma BeforeRelease(items: set<int>, edges: seq<Edge>, indegree: map<int, int>, ready: seq<int>, ordered: seq<int>,
                      item: int, succs: seq<int>)
    requires Running(items, edges, indegree, ready, ordered) && ready != [] && item == ready[0]
    requires Ascending(succs) && Elements(succs) == Blockers(items, edges, item)
    ensures Distinct(succs) && Elements(succs) <= indegree.Keys
    ensures Distinct(ready[1..]) && Elements(ready[1..]) !! Elements(succs)
    ensures forall x :: x in succs ==> x !in ordered
  {
    assert item in Elements(ready);
    forall x | x in succs ensures x in items && x !in ready && x !in ordered {
      Duality(items, edges, item, x);
      assert item in BlockedBy(items, edges, x);
      if x in ordered { ListedBlocked(items, edges, ordered, x, item); }
    }
  }

  lemma DegreeDrops(items: set<int>, edges: seq<Edge>, ordered: seq<int>, item: int, x: int)
    requires item !in ordered && item in items && x in items
    ensures |BlockedBy(items, edges, x) - Elements(ordered + [item])|
         == |BlockedBy(items, edges, x) - Elements(ordered)| - (if x in Blockers(items, edges, item) then 1 else 0)
  {
    Duality(items, edges, item, x);
    var a := BlockedBy(items, edges, x) - Elements(ordered);
    assert BlockedBy(items, edges, x) - Elements(ordered + [item]) == a - {item};
  }

  /** Listing one more item completes exactly the sets it was the last missing member of. */
  lemma OneMore(b: set<int>, listed: set<int>, item: int)
    requires item !in listed
    ensures item in b ==> (b <= listed + {item} <==> |b - listed| == 1)
    ensures item !in b ==> (b <= listed + {item} <==> b <= listed)
  {
    if item in b {
      assert item in b - listed;
      if |b - listed| == 1 { OnlyMember(b - listed, item); }
      if b <= listed + {item} { assert b - listed == {item}; }
    }
  }

  lemma BecomesAvailable(items: set<int>, edges: seq<Edge>, indegree: map<int, int>, ready: seq<int>, ordered: seq<int>,
                         item: int, succs: seq<int>, x: int)
    requires Running(items, edges, indegree, ready, ordered) && ready != [] && item == ready[0]
    requires Elements(succs) == Blockers(items, edges, item)
    requires forall y :: y in succs ==> y !in ordered
    ensures x in Available(items, edges, Elements(ordered + [item]))
       <==> x in ready[1..] || (x in succs && x in indegree && indegree[x] == 1)
  {
    hide Greedy, Blockers, BlockedBy;
    assert Elements(ordered + [item]) == Elements(ordered) + {item};
    assert ready == [item] + ready[1..] && item !in ready[1..];
    assert x in ready <==> x in Elements(ready);
    assert x in succs <==> x in Elements(succs);
    HeadIsNew(items, edges, indegree, ready, ordered);
    Duality(items, edges, item, x);
    OneMore(BlockedBy(items, edges, x), Elements(ordered), item);
  }

  lemma GreedyExtends(items: set<int>, edges: seq<Edge>, indegree: map<int, int>, ready: seq<int>, ordered: seq<int>)
    requires Running(items, edges, indegree, ready, ordered) && ready != []
    ensures Greedy(items, edges, ordered + [ready[0]])
  {
    var next := ordered + [ready[0]];
    forall k | 0 <= k < |next| ensures LeastAvailable(items, edges, next, k) {
      assert next[..k] == ordered[..k];
      if k < |ordered| {
        assert LeastAvailable(items, edges, ordered, k);
      } else {
        assert ordered[..k] == ordered;
        assert ready[0] in Elements(ready);
        forall y | y in Elements(ready) ensures ready[0] <= y {
          var j :| 0 <= j < |ready| && ready[j] == y;
        }
      }
    }
  }

  lemma Advance(items: set<int>, edges: seq<Edge>, indegree: map<int, int>, ready: seq<int>, ordered: seq<int>,
                item: int, succs: seq<int>, degree: map<int, int>, released: seq<int>)
    requires Running(items, edges, indegree, ready, ordered) && ready != [] && item == ready[0]
    requires Ascending(succs) && Elements(succs) == Blockers(items, edges, item)
    requires degree.Keys == indegree.Keys
    requires forall x :: x in indegree ==> degree[x] == indegree[x] - (if x in succs then 1 else 0)
    requires Distinct(released)
    requires Elements(released) == Elements(ready[1..]) + (set x | x in succs && x in indegree && indegree[x] == 1)
    ensures forall s :: Ascending(s) && Elements(s) == Elements(released) ==>
            Running(items, edges, degree, s, ordered + [item])
  {
    hide Greedy, Available, BlockedBy, Blockers;
    HeadIsNew(items, edges, indegree, ready, ordered);
    BeforeRelease(items, edges, indegree, ready, ordered, item, succs);
    assert Elements(ordered + [item]) == Elements(ordered) + {item};
    forall x | x in items && x !in ordered + [item]
      ensures degree[x] == |BlockedBy(items, edges, x) - Elements(ordered + [item])|
    {
      DegreeDrops(items, edges, ordered, item, x);
    }
    forall x ensures x in Elements(released) <==> x in Available(items, edges, Elements(ordered + [item])) {
      BecomesAvailable(items, edges, indegree, ready, ordered, item, succs, x);
    }
    GreedyExtends(items, edges, indegree, ready, ordered);
  }

  lemma Rest(items: set<int>, ordered: seq<int>, item: int)
    requires item in items && item !in ordered
    ensures |items - Elements(ordered + [item])| < |items - Elements(ordered)|
  {
    assert items - Elements(ordered + [item]) == items - Elements(ordered) - {item};
  }

  /** Two disjoint duplicate-free lists covering a third hold the same items. */
  lemma SameItems(items: seq<int>, ordered: seq<int>, remaining: seq<int>)
    requires Distinct(items) && Distinct(ordered) && Ascending(remaining)
    requires Elements(ordered) <= Elements(items) && Elements(remaining) == Elements(items) - Elements(ordered)
    ensures multiset(ordered + remaining) == multiset(items)
  {
    var result := ordered + remaining;
    forall i, j | 0 <= i < j < |result| ensures result[i] != result[j] {
      if i < |ordered| <= j {
        assert remaining[j - |ordered|] in Elements(remaining) && ordered[i] in Elements(ordered);
      }
    }
    SameMembers(result, items);
  }

  lemma GreedyDistinct(items: set<int>, edges: seq<Edge>, ordered: seq<int>)
    requires Greedy(items, edges, ordered)
    ensures Distinct(ordered)
  {
    forall i, j | 0 <= i < j < |ordered| ensures ordered[i] != ordered[j] {
      assert LeastAvailable(items, edges, ordered, j);
      assert ordered[i] in ordered[..j];
    }
  }

  lemma Finish(items: seq<int>, edges: seq<Edge>, indegree: map<int, int>, ordered: seq<int>, remaining: seq<int>)
    requires Distinct(items) && Running(Elements(items), edges, indegree, [], ordered)
    requires Ascending(remaining) && Elements(remaining) == Elements(items) - Elements(ordered)
    ensures IsOrder(items, edges, ordered + remaining, |ordered|)
  {
    hide Greedy, Available;
    var result := ordered + remaining;
    assert result[..|ordered|] == ordered && result[|ordered|..] == remaining;
    assert Elements([]) == {};
    GreedyDistinct(Elements(items), edges, ordered);
    SameItems(items, ordered, remaining);
  }

  // ----- consequences

  /** A listing of all items with every blocked item before its blocker. */
  ghost predicate Topological(items: seq<int>, edges: seq<Edge>, t: seq<int>) {
    && multiset(t) == multiset(items)
    && forall i, j :: 0 <= i < |t| && 0 <= j < |t| && t[j] in Blockers(Elements(items), edges, t[i]) ==> i < j
  }

  lemma LeftoverMember(items: seq<int>, result: seq<int>, n: nat, x: int)
    requires Distinct(items) && n <= |result| && multiset(result) == multiset(items)
    ensures x in Elements(result[n..]) <==> x in items && x !in result[..n]
  {
    assert result == result[..n] + result[n..];
    assert x in multiset(result) <==> x in multiset(items);
    OccursOnce(items);
    assert multiset(result)[x] == multiset(result[..n])[x] + multiset(result[n..])[x];
  }

  /** The leftovers all have a predecessor among the leftovers, so they contain a cycle. */
  lemma LeftoversBlocked(items: seq<int>, edges: seq<Edge>, result: seq<int>, n: nat)
    requires Distinct(items) && IsOrder(items, edges, result, n)
    ensures PredecessorClosed(Induced(Elements(items), edges), Elements(result[n..]))
  {
    var all, listed := Elements(items), Elements(result[..n]);
    forall x | x in Elements(result[n..]) ensures HasPredecessor(Induced(all, edges), Elements(result[n..]), x) {
      LeftoverMember(items, result, n, x);
      assert x !in Available(all, edges, listed);
      var p :| p in BlockedBy(all, edges, x) && p !in listed;
      Duality(all, edges, p, x);
      LeftoverMember(items, result, n, p);
    }
  }

  lemma IsTopological(items: seq<int>, edges: seq<Edge>, result: seq<int>)
    requires Distinct(items) && IsOrder(items, edges, result, |result|)
    ensures Topological(items, edges, result)
  {
    var all := Elements(items);
    assert result[..|result|] == result;
    GreedyDistinct(all, edges, result);
    forall i, j | 0 <= i < |result| && 0 <= j < |result| && result[j] in Blockers(all, edges, result[i]) ensures i < j {
      Duality(all, edges, result[i], result[j]);
      assert LeastAvailable(all, edges, result, j);
      assert result[i] in Elements(result[..j]);
    }
  }

  lemma ReverseFinishes(items: seq<int>, edges: seq<Edge>, result: seq<int>, w: seq<int>)
    requires Distinct(items) && IsOrder(items, edges, result, |result|)
    ensures !Cycle(Induced(Elements(items), edges), w)
  {
    var g := Induced(Elements(items), edges);
    assert result[..|result|] == result;
    IsTopological(items, edges, result);
    var order := seq(|result|, i requires 0 <= i < |result| => result[|result| - 1 - i]);
    forall x: int ensures x in result <==> x in items { assert x in multiset(result) <==> x in multiset(items); }
    forall i, t | 0 <= i < |order| && t in Targets(g, order[i]) ensures t in order[..i] {
      Duality(Elements(items), edges, order[i], t);
      assert t in result;
      var j :| 0 <= j < |result| && result[j] == t;
      assert order[|result| - 1 - j] == t;
    }
    GreedyDistinct(Elements(items), edges, result);
    forall x | x in Elements(items) ensures x in order {
      var i :| 0 <= i < |result| && result[i] == x;
      assert order[|result| - 1 - i] == x;
    }
    FinishesAcyclic(g, order, w);
    CycleStart(g, w);
  }

  /** Every item is listed greedily exactly when the induced graph has no cycle. */
  lemma CompleteIffAcyclic(items: seq<int>, edges: seq<Edge>, result: seq<int>, n: nat)
    requires Distinct(items) && IsOrder(items, edges, result, n)
    ensures n == |result| <==> !Cyclic(Induced(Elements(items), edges))
  {
    hide Cycle, PredecessorClosed, Induced, Greedy, Available;
    var g := Induced(Elements(items), edges);
    if n < |result| {
      LeftoversBlocked(items, edges, result, n);
      assert result[n..][0] in Elements(result[n..]);
      var c := PredecessorClosedHasCycle(g, Elements(result[n..]));
      assert Cycle(g, c);
    } else if Cyclic(g) {
      var w :| Cycle(g, w);
      ReverseFinishes(items, edges, result, w);
    }
  }

  /** In a topological order the next item is one of the available ones. */
  lemma NextAvailable(items: seq<int>, edges: seq<Edge>, t: seq<int>, k: nat)
    requires Distinct(items) && Topological(items, edges, t) && k < |t|
    ensures t[k] in Available(Elements(items), edges, Elements(t[..k]))
  {
    var all := Elements(items);
    forall x: int ensures x in t <==> x in items { assert x in multiset(t) <==> x in multiset(items); }
    LeftoverMember(items, t, k, t[k]);
    assert t[k..][0] == t[k];
    forall y | y in BlockedBy(all, edges, t[k]) ensures y in Elements(t[..k]) {
      Duality(all, edges, y, t[k]);
      var i :| 0 <= i < |t| && t[i] == y;
      assert t[i] in t[..k];
    }
  }

  lemma {:induction false} FirstDifference(items: seq<int>, edges: seq<Edge>, result: seq<int>, t: seq<int>, k: nat)
    requires Distinct(items) && Greedy(Elements(items), edges, result)
    requires Topological(items, edges, t) && |result| == |t| && k <= |t| && result[..k] == t[..k]
    ensures result[k..] == t[k..] || LexLess(IntLess, result[k..], t[k..])
    decreases |t| - k
  {
    if k < |t| {
      NextAvailable(items, edges, t, k);
      assert LeastAvailable(Elements(items), edges, result, k);
      assert result[k] <= t[k];
      assert result[k..][1..] == result[k + 1..] && t[k..][1..] == t[k + 1..];
      if result[k] == t[k] {
        assert result[..k + 1] == result[..k] + [result[k]] && t[..k + 1] == t[..k] + [t[k]];
        FirstDifference(items, edges, result, t, k + 1);
        assert result[k..] == [result[k]] + result[k + 1..] && t[k..] == [t[k]] + t[k + 1..];
      }
    }
  }

  /** On an acyclic graph the result is the lexicographically least topological order. */
  lemma LexicographicallyLeast(items: seq<int>, edges: seq<Edge>, result: seq<int>, n: nat, t: seq<int>)
    requires Distinct(items) && IsOrder(items, edges, result, n) && !Cyclic(Induced(Elements(items), edges))
    requires Topological(items, edges, t)
    ensures Topological(items, edges, result)
    ensures result == t || LexLess(IntLess, result, t)
  {
    CompleteIffAcyclic(items, edges, result, n);
    assert result[..n] == result;
    IsTopological(items, edges, result);
    assert |multiset(result)| == |result| && |multiset(t)| == |t|;
    FirstDifference(items, edges, result, t, 0);
  }

  // ----- `axis_topo_order`: the same ordering on the groups of the items

  /** The edges between groups that the edges between included items induce, in order. */
  function Lifted(edges: seq<Edge>, included: set<int>, axisOf: map<int, int>): seq<Edge>
    requires included <= axisOf.Keys
  {
    if edges == [] then []
    else
      var e := edges[|edges| - 1];
      Lifted(edges[..|edges| - 1], included, axisOf)
          + (if e.0 in included && e.1 in included then [(axisOf[e.0], axisOf[e.1])] else [])
  }

  lemma {:induction false} LiftedContains(edges: seq<Edge>, included: set<int>, axisOf: map<int, int>, e: Edge)
    requires included <= axisOf.Keys && e in edges && e.0 in included && e.1 in included
    ensures (axisOf[e.0], axisOf[e.1]) in Lifted(edges, included, axisOf)
  {
    var init, last := edges[..|edges| - 1], edges[|edges| - 1];
    assert edges == init + [last];
    if e != last { LiftedContains(init, included, axisOf, e); }
  }

  /** Groups are given by their place in the fixed group order. */
  method AxisOrder(axes: seq<int>, edges: seq<Edge>, included: set<int>, axisOf: map<int, int>)
    returns (result: seq<int>)
    requires Distinct(axes) && included <= axisOf.Keys
    ensures exists n: nat :: IsOrder(axes, Lifted(edges, included, axisOf), result, n)
  {
    hide IsOrder;
    var lifted: seq<Edge> := [];
    for i := 0 to |edges|
      invariant lifted == Lifted(edges[..i], included, axisOf)
    {
      assert edges[..i + 1][..i] == edges[..i];
      var blocked, blocker := edges[i].0, edges[i].1;
      if blocked in included && blocker in included {
        lifted := lifted + [(axisOf[blocked], axisOf[blocker])];
      }
    }
    assert edges[..|edges|] == edges;
    result := Order(axes, lifted);
  }

  /** When the groups do not block each other in a circle, the group of a blocked item comes
      before the group of whatever blocks it, unless it is the same group. */
  lemma AxesRespectEdges(axes: seq<int>, edges: seq<Edge>, included: set<int>, axisOf: map<int, int>,
                         result: seq<int>, n: nat, e: Edge, i: nat, j: nat)
    requires Distinct(axes) && included <= axisOf.Keys && IsOrder(axes, Lifted(edges, included, axisOf), result, n)
    requires !Cyclic(Induced(Elements(axes), Lifted(edges, included, axisOf)))
    requires e in edges && e.0 in included && e.1 in included && axisOf[e.0] != axisOf[e.1]
    requires i < |result| && j < |result| && result[i] == axisOf[e.0] && result[j] == axisOf[e.1]
    ensures i < j
  {
    hide Induced, Cyclic, Greedy, Available, Blockers;
    var lifted := Lifted(edges, included, axisOf);
    CompleteIffAcyclic(axes, lifted, result, n);
    IsTopological(axes, lifted, result);
    LiftedContains(edges, included, axisOf, e);
    assert result[i] in multiset(axes) && result[j] in multiset(axes);
    Duality(Elements(axes), lifted, result[i], result[j]);
  }

  // ----- `dependency_edges`

  datatype Issue = Issue(number: int, blockedBy: seq<int>, blocking: seq<int>)

  ghost predicate Records(i: Issue, e: Edge) {
    (i.number == e.0 && e.1 in i.blockedBy) || (i.number == e.1 && e.0 in i.blocking)
  }

  /** Some issue records this dependency, from either end, and both ends are included. */
  ghost predicate Depends(issues: seq<Issue>, included: set<int>, e: Edge) {
    e.0 in included && e.1 in included && exists k :: 0 <= k < |issues| && Records(issues[k], e)
  }

  lemma DependsMore(issues: seq<Issue>, included: set<int>, i: nat, e: Edge)
    requires i < |issues|
    ensures Depends(issues[..i + 1], included, e)
       <==> Depends(issues[..i], included, e) || (e.0 in included && e.1 in included && Records(issues[i], e))
  {
    hide Records;
    var init, more := issues[..i], issues[..i + 1];
    assert more == init + [issues[i]];
    if Depends(init, included, e) {
      var k :| 0 <= k < |init| && Records(init[k], e);
      assert more[k] == init[k];
    }
    if e.0 in included && e.1 in included && Records(issues[i], e) { assert more[i] == issues[i]; }
  }

  method EdgesOf(issue: Issue, included: set<int>) returns (edges: set<Edge>)
    ensures forall e :: e in edges <==> e.0 in included && e.1 in included && Records(issue, e)
  {
    if issue.number !in included { return {}; }
    edges := {};
    for k := 0 to |issue.blockedBy|
      invariant forall e :: e in edges <==> e.0 == issue.number && e.1 in included && e.1 in issue.blockedBy[..k]
    {
      assert issue.blockedBy[..k + 1] == issue.blockedBy[..k] + [issue.blockedBy[k]];
      if issue.blockedBy[k] in included { edges := edges + {(issue.number, issue.blockedBy[k])}; }
    }
    assert issue.blockedBy[..|issue.blockedBy|] == issue.blockedBy;
    ghost var before := edges;
    for k := 0 to |issue.blocking|
      invariant forall e :: e in edges <==>
                e in before || (e.1 == issue.number && e.0 in included && e.0 in issue.blocking[..k])
    {
      assert issue.blocking[..k + 1] == issue.blocking[..k] + [issue.blocking[k]];
      if issue.blocking[k] in included { edges := edges + {(issue.blocking[k], issue.number)}; }
    }
    assert issue.blocking[..|issue.blocking|] == issue.blocking;
  }

  predicate EdgeLess(d: Edge, e: Edge) {
    d.0 < e.0 || (d.0 == e.0 && d.1 < e.1)
  }

  lemma EdgeLessStrictTotal()
    ensures StrictTotal(EdgeLess)
  {
    forall d, e ensures d == e || EdgeLess(d, e) || EdgeLess(e, d) { assert d == (d.0, d.1) && e == (e.0, e.1); }
  }

  /** `sorted` of a set of edges. */
  method SortedEdges(edges: set<Edge>) returns (r: seq<Edge>)
    ensures Sorted(EdgeLess, r) && Distinct(r) && forall e :: e in r <==> e in edges
  {
    var items: seq<Edge> := [];
    var rest := edges;
    while rest != {}
      invariant Distinct(items) && rest <= edges
      invariant forall e :: e in items <==> e in edges && e !in rest
    {
      ghost var member := Member(rest);
      var e :| e in rest;
      items := items + [e];
      rest := rest - {e};
    }
    r := Sort(EdgeLess, items);
    EdgeLessStrictTotal();
    SortSorted(EdgeLess, items);
    SameMultiset(items, r);
  }

  /** `dependency_edges`: each edge once, in order. */
  method DependencyEdges(issues: seq<Issue>, included: set<int>) returns (r: seq<Edge>)
    ensures Sorted(EdgeLess, r) && Distinct(r)
    ensures forall e :: e in r <==> Depends(issues, included, e)
  {
    var edges: set<Edge> := {};
    for i := 0 to |issues|
      invariant forall e :: e in edges <==> Depends(issues[..i], included, e)
    {
      var found := EdgesOf(issues[i], included);
      forall e: Edge ensures e in edges + found <==> Depends(issues[..i + 1], included, e) {
        DependsMore(issues, included, i, e);
      }
      edges := edges + found;
    }
    assert issues[..|issues|] == issues;
    r := SortedEdges(edges);
  }
}
