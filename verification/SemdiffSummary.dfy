/** The per-AIR summary of a comparison: its lists are the constraints of each status, in
    order, and its counts balance. */
module SemdiffSummary {
  import opened Ordering
  import opened Sequences
  import opened Atoms
  import opened Semdiff

  /** One entry of the dictionary `per_air_summary` returns. */
  datatype Summary = Summary(
    nBase: nat,
    nMutant: nat,
    changed: seq<int>,
    dropped: seq<int>,
    added: seq<int>,
    representable: seq<int>,
    unrepresentable: seq<int>)

  ghost predicate Increasing(s: seq<int>) {
    forall i, j :: 0 <= i < j < |s| ==> s[i] < s[j]
  }

  function InAir(keys: set<Key>, air: string): set<Key> {
    set k | k in keys && k.air == air
  }

  /** Both sides of a constraint have an expression. */
  predicate Representable(base: Constraints, mutant: Constraints, k: Key) {
    k in base && k in mutant && base[k].root.Some? && mutant[k].root.Some?
  }

  /** The list holds the indices of one status, each once and in order. */
  ghost predicate ListsStatus(s: seq<int>, base: Constraints, mutant: Constraints, air: string, status: Status)
    requires AllDecoded(base) && AllDecoded(mutant)
  {
    Increasing(s) && forall i :: i in s <==> StatusOf(base, mutant, Key(air, i)) == status
  }

  ghost predicate Expressed(side: Constraints, k: Key) {
    k in side && side[k].root.Some?
  }

  /** What one entry of the summary says. */
  ghost predicate SummaryOk(s: Summary, base: Constraints, mutant: Constraints, air: string)
    requires AllDecoded(base) && AllDecoded(mutant)
  {
    && s.nBase == |InAir(base.Keys, air)| && s.nMutant == |InAir(mutant.Keys, air)|
    && ListsStatus(s.changed, base, mutant, air, Changed)
    && ListsStatus(s.dropped, base, mutant, air, Removed)
    && ListsStatus(s.added, base, mutant, air, Added)
    && Increasing(s.representable) && Increasing(s.unrepresentable)
    && (forall i :: i in s.representable <==>
         i in s.changed && Expressed(base, Key(air, i)) && Expressed(mutant, Key(air, i)))
    && (forall i :: i in s.unrepresentable <==>
         i in s.changed && !(Expressed(base, Key(air, i)) && Expressed(mutant, Key(air, i))))
  }

  lemma IncreasingAppend(s: seq<int>, x: int)
    requires Increasing(s) && forall i :: i in s ==> i < x
    ensures Increasing(s + [x])
  {
    forall i, j | 0 <= i < j < |s + [x]| ensures (s + [x])[i] < (s + [x])[j] { assert s[i] in s; }
  }

  // ----- the lists

  /** `[c["constraint"] for c in changed if c["air"] == air and c["kind"] == status]` */
  function Indices(changes: seq<Change>, air: string, status: Status): seq<int> {
    if changes == [] then []
    else
      var n := |changes| - 1;
      var hit := changes[n].key.air == air && changes[n].status == status;
      Indices(changes[..n], air, status) + (if hit then [changes[n].key.index] else [])
  }

  method ListIndices(changes: seq<Change>, air: string, status: Status) returns (r: seq<int>)
    ensures r == Indices(changes, air, status)
  {
    r := [];
    for i := 0 to |changes|
      invariant r == Indices(changes[..i], air, status)
    {
      assert changes[..i + 1][..i] == changes[..i];
      if changes[i].key.air == air && changes[i].status == status { r := r + [changes[i].key.index]; }
    }
    assert changes[..|changes|] == changes;
  }

  lemma IndicesAppend(changes: seq<Change>, c: Change, air: string, status: Status)
    ensures Indices(changes + [c], air, status)
         == Indices(changes, air, status) + (if c.key.air == air && c.status == status then [c.key.index] else [])
  {
    assert (changes + [c])[..|changes|] == changes;
  }

  lemma {:induction false} SamePrefix(p: seq<int>, i: int, j: int)
    ensures LexLess(IntLess, p + [i], p + [j]) <==> i < j
  {
    if p == [] {
      assert [i][1..] == [] && [j][1..] == [] && [] + [i] == [i] && [] + [j] == [j];
    } else {
      SamePrefix(p[1..], i, j);
      assert (p + [i])[1..] == p[1..] + [i] && (p + [j])[1..] == p[1..] + [j];
    }
  }

  /** Within one AIR the key order is the order of the indices. */
  lemma KeyLessInAir(air: string, i: int, j: int)
    ensures KeyLess(Key(air, i), Key(air, j)) <==> i < j
  {
    SamePrefix(StringKey(air), i, j);
  }

  lemma BelowLast(keys: seq<Key>, air: string, i: int)
    requires keys != [] && Distinct(keys) && Sorted(KeyLess, keys)
    requires Key(air, i) in keys[..|keys| - 1] && keys[|keys| - 1].air == air
    ensures i < keys[|keys| - 1].index
  {
    hide KeyLess;
    var k := keys[|keys| - 1];
    assert k == Key(air, k.index);
    var j :| 0 <= j < |keys| - 1 && keys[j] == Key(air, i);
    KeyLessInAir(air, k.index, i);
    assert !KeyLess(k, keys[j]) && keys[j] != k;
  }

  lemma PrefixListing(keys: seq<Key>)
    requires keys != [] && Distinct(keys) && Sorted(KeyLess, keys)
    ensures Distinct(keys[..|keys| - 1]) && Sorted(KeyLess, keys[..|keys| - 1])
  {
    hide KeyLess;
  }

  /** The list comprehension over the report lists the status. */
  lemma {:induction false} IndicesReported(base: Constraints, mutant: Constraints, keys: seq<Key>, air: string,
                                           status: Status)
    requires AllDecoded(base) && AllDecoded(mutant) && Distinct(keys) && Sorted(KeyLess, keys)
    requires status != Unchanged && status != Rewritten
    ensures var s := Indices(Reported(base, mutant, keys), air, status);
            && Increasing(s)
            && forall i :: i in s <==> Key(air, i) in keys && StatusOf(base, mutant, Key(air, i)) == status
  {
    hide StatusOf, KeyLess;
    if keys == [] {
      NothingReported(base, mutant);
    } else {
      hide Reported, Indices, Distinct, Sorted, Increasing;
      var n := |keys| - 1;
      var k, done := keys[n], keys[..n];
      assert keys == done + [k];
      PrefixListing(keys);
      IndicesReported(base, mutant, done, air, status);
      ReportStep(base, mutant, done, k);
      var was, s := Indices(Reported(base, mutant, done), air, status),
          Indices(Reported(base, mutant, keys), air, status);
      IndicesAppend(Reported(base, mutant, done), Change(k, StatusOf(base, mutant, k)), air, status);
      var hit := k.air == air && StatusOf(base, mutant, k) == status;
      assert s == if hit then was + [k.index] else was;
      if k.air == air {
        assert k == Key(air, k.index);
        forall i | i in was ensures i < k.index { BelowLast(keys, air, i); }
        IncreasingAppend(was, k.index);
      }
    }
  }

  // ----- the split by representability

  lemma SortedDistinct(r: seq<int>)
    requires Sorted(IntLess, r) && Distinct(r)
    ensures Increasing(r)
  {
    forall i, j | 0 <= i < j < |r| ensures r[i] < r[j] { assert !IntLess(r[j], r[i]) && r[i] != r[j]; }
  }

  /** `sorted` of a set of indices. */
  method SortedIndices(s: set<int>) returns (r: seq<int>)
    ensures Increasing(r) && forall i :: i in r <==> i in s
  {
    var items: seq<int> := [];
    var rest := s;
    while rest != {}
      invariant rest <= s && Distinct(items) && forall i :: i in items <==> i in s && i !in rest
    {
      ghost var member := Member(rest);
      var i :| i in rest;
      items := items + [i];
      rest := rest - {i};
    }
    r := Sort(IntLess, items);
    IntLessStrictTotal();
    SortSorted(IntLess, items);
    SameMultiset(items, r);
    SortedDistinct(r);
  }

  method SplitChanged(changed: seq<int>, base: Constraints, mutant: Constraints, air: string)
    returns (representable: seq<int>, unrepresentable: seq<int>)
    requires Increasing(changed)
    ensures Increasing(representable) && Increasing(unrepresentable)
    ensures forall i :: i in representable <==> i in changed && Representable(base, mutant, Key(air, i))
    ensures forall i :: i in unrepresentable <==> i in changed && !Representable(base, mutant, Key(air, i))
  {
    representable := [];
    for n := 0 to |changed|
      invariant Increasing(representable)
      invariant forall i :: i in representable <==> i in changed[..n] && Representable(base, mutant, Key(air, i))
    {
      assert changed[..n + 1] == changed[..n] + [changed[n]];
      if Representable(base, mutant, Key(air, changed[n])) {
        IncreasingAppend(representable, changed[n]);
        representable := representable + [changed[n]];
      }
    }
    assert changed[..|changed|] == changed;
    unrepresentable := SortedIndices((set i | i in changed) - (set i | i in representable));
  }

  // ----- per_air_summary

  lemma Listed(base: Constraints, mutant: Constraints, keys: seq<Key>, air: string, status: Status)
    requires AllDecoded(base) && AllDecoded(mutant) && Listing(keys, base.Keys + mutant.Keys)
    requires status != Unchanged && status != Rewritten
    ensures ListsStatus(Indices(Reported(base, mutant, keys), air, status), base, mutant, air, status)
  {
    hide KeyLess, SameStructure, Equivalent;
    IndicesReported(base, mutant, keys, air, status);
  }

  lemma ExpressedSides(base: Constraints, mutant: Constraints, k: Key)
    ensures Representable(base, mutant, k) <==> Expressed(base, k) && Expressed(mutant, k)
  {
  }

  method SummaryOf(base: Constraints, mutant: Constraints, changes: seq<Change>, air: string, ghost keys: seq<Key>)
    returns (s: Summary)
    requires AllDecoded(base) && AllDecoded(mutant)
    requires Listing(keys, base.Keys + mutant.Keys) && changes == Reported(base, mutant, keys)
    ensures SummaryOk(s, base, mutant, air)
  {
    hide Reported, StatusOf, KeyLess, Representable, Expressed;
    forall k: Key ensures Representable(base, mutant, k) <==> Expressed(base, k) && Expressed(mutant, k) {
      ExpressedSides(base, mutant, k);
    }
    var changed := ListIndices(changes, air, Changed);
    Listed(base, mutant, keys, air, Changed);
    var representable, unrepresentable := SplitChanged(changed, base, mutant, air);
    var dropped := ListIndices(changes, air, Removed);
    Listed(base, mutant, keys, air, Removed);
    var added := ListIndices(changes, air, Added);
    Listed(base, mutant, keys, air, Added);
    s := Summary(|InAir(base.Keys, air)|, |InAir(mutant.Keys, air)|, changed, dropped, added,
                 representable, unrepresentable);
  }

  /** `per_air_summary` */
  method PerAirSummary(base: Constraints, mutant: Constraints, changes: seq<Change>, ghost keys: seq<Key>)
    returns (out: map<string, Summary>)
    requires AllDecoded(base) && AllDecoded(mutant)
    requires Listing(keys, base.Keys + mutant.Keys) && changes == Reported(base, mutant, keys)
    ensures forall air :: air in out <==> exists k :: k in base.Keys + mutant.Keys && k.air == air
    ensures forall air :: air in out ==> SummaryOk(out[air], base, mutant, air)
  {
    hide SummaryOk, Reported, Listing;
    out := map[];
    var rest := set k | k in base.Keys + mutant.Keys :: k.air;
    ghost var airs := rest;
    while rest != {}
      invariant rest <= airs && out.Keys == airs - rest
      invariant forall air :: air in out ==> SummaryOk(out[air], base, mutant, air)
    {
      var air :| air in rest;
      var s := SummaryOf(base, mutant, changes, air, keys);
      out := out[air := s];
      rest := rest - {air};
    }
  }

  // ----- the counts balance

  lemma {:induction false} KeysCount(s: seq<int>, air: string, ks: set<Key>)
    requires Increasing(s) && forall k :: k in ks <==> k.air == air && k.index in s
    ensures |ks| == |s|
  {
    if s == [] {
      assert forall k :: k !in ks;
    } else {
      var n := |s| - 1;
      assert s == s[..n] + [s[n]];
      KeysCount(s[..n], air, ks - {Key(air, s[n])});
      assert Key(air, s[n]) in ks;
    }
  }

  /** Every changed constraint is listed as representable or as not. */
  lemma ChangedSplits(s: Summary, base: Constraints, mutant: Constraints, air: string)
    requires AllDecoded(base) && AllDecoded(mutant) && SummaryOk(s, base, mutant, air)
    ensures |s.changed| == |s.representable| + |s.unrepresentable|
  {
    hide Expressed, StatusOf;
    var changed := set i | i in s.changed :: Key(air, i);
    var yes, no := set i | i in s.representable :: Key(air, i), set i | i in s.unrepresentable :: Key(air, i);
    KeysCount(s.changed, air, changed);
    KeysCount(s.representable, air, yes);
    KeysCount(s.unrepresentable, air, no);
    assert changed == yes + no && yes !! no;
  }

  lemma SidesDiffer(base: Constraints, mutant: Constraints, k: Key)
    requires AllDecoded(base) && AllDecoded(mutant)
    ensures StatusOf(base, mutant, k) == Added <==> k in mutant && k !in base
    ensures StatusOf(base, mutant, k) == Removed <==> k in base && k !in mutant
  {
    hide SameStructure, Equivalent;
  }

  lemma Gained(s: Summary, base: Constraints, mutant: Constraints, air: string)
    requires AllDecoded(base) && AllDecoded(mutant) && SummaryOk(s, base, mutant, air)
    ensures |InAir(mutant.Keys, air) - InAir(base.Keys, air)| == |s.added|
    ensures |InAir(base.Keys, air) - InAir(mutant.Keys, air)| == |s.dropped|
  {
    hide StatusOf, Expressed;
    var inBase, inMutant := InAir(base.Keys, air), InAir(mutant.Keys, air);
    forall k: Key
      ensures k in inMutant - inBase <==> k.air == air && k.index in s.added
      ensures k in inBase - inMutant <==> k.air == air && k.index in s.dropped
    {
      SidesDiffer(base, mutant, k);
      assert k == Key(k.air, k.index);
    }
    KeysCount(s.added, air, inMutant - inBase);
    KeysCount(s.dropped, air, inBase - inMutant);
  }

  /** Per AIR, what one side has and lost is what the other side has and gained. */
  lemma SummaryBalances(s: Summary, base: Constraints, mutant: Constraints, air: string)
    requires AllDecoded(base) && AllDecoded(mutant) && SummaryOk(s, base, mutant, air)
    ensures s.nBase + |s.added| == s.nMutant + |s.dropped|
    ensures |s.changed| == |s.representable| + |s.unrepresentable|
  {
    hide ListsStatus;
    var inBase, inMutant := InAir(base.Keys, air), InAir(mutant.Keys, air);
    Gained(s, base, mutant, air);
    ChangedSplits(s, base, mutant, air);
    assert inBase + (inMutant - inBase) == inMutant + (inBase - inMutant);
  }
}
