/** Dictionaries from a key to the list of items carrying it, and what grouping conserves. */
module Grouping {

  /** The items with one key, in their order. */
  function Select<T, K(==)>(items: seq<T>, key: T -> K, k: K): seq<T> {
    if items == [] then [] else
      (if key(items[0]) == k then [items[0]] else []) + Select(items[1..], key, k)
  }

  /** The items whose key is in a set. */
  function Pick<T, K(==)>(items: seq<T>, key: T -> K, ks: set<K>): seq<T> {
    if items == [] then [] else
      (if key(items[0]) in ks then [items[0]] else []) + Pick(items[1..], key, ks)
  }

  function Keys<T, K(==)>(items: seq<T>, key: T -> K): set<K> {
    if items == [] then {} else {key(items[0])} + Keys(items[1..], key)
  }

  lemma {:induction false} KeysAppend<T, K>(items: seq<T>, x: T, key: T -> K)
    ensures Keys(items + [x], key) == Keys(items, key) + {key(x)}
  {
    if items == [] {
      assert items + [x] == [x] && [x][1..] == [];
    } else {
      KeysAppend(items[1..], x, key);
      assert (items + [x])[1..] == items[1..] + [x];
    }
  }

  lemma {:induction false} KeyOf<T, K>(items: seq<T>, x: T, key: T -> K)
    requires x in items
    ensures key(x) in Keys(items, key)
  {
    if x != items[0] { KeyOf(items[1..], x, key); }
  }

  lemma {:induction false} OfKey<T, K>(items: seq<T>, k: K, key: T -> K) returns (x: T)
    requires k in Keys(items, key)
    ensures x in items && key(x) == k
  {
    if key(items[0]) == k { x := items[0]; } else { x := OfKey(items[1..], k, key); }
  }

  lemma {:induction false} SelectAppend<T, K>(items: seq<T>, x: T, key: T -> K, k: K)
    ensures Select(items + [x], key, k) == Select(items, key, k) + (if key(x) == k then [x] else [])
  {
    if items == [] {
      assert items + [x] == [x] && [x][1..] == [];
    } else {
      SelectAppend(items[1..], x, key, k);
      assert (items + [x])[1..] == items[1..] + [x];
    }
  }

  lemma {:induction false} SelectContents<T, K>(items: seq<T>, key: T -> K, k: K, x: T)
    ensures x in Select(items, key, k) <==> x in items && key(x) == k
  {
    if items == [] {
    } else {
      SelectContents(items[1..], key, k, x);
      assert items == [items[0]] + items[1..];
    }
  }

  lemma {:induction false} SelectCount<T, K>(items: seq<T>, key: T -> K, k: K, x: T)
    ensures multiset(Select(items, key, k))[x] == if key(x) == k then multiset(items)[x] else 0
  {
    if items == [] {
    } else {
      SelectCount(items[1..], key, k, x);
      assert items == [items[0]] + items[1..];
    }
  }

  lemma {:induction false} PickCount<T, K>(items: seq<T>, key: T -> K, ks: set<K>, x: T)
    ensures multiset(Pick(items, key, ks))[x] == if key(x) in ks then multiset(items)[x] else 0
  {
    if items == [] {
    } else {
      PickCount(items[1..], key, ks, x);
      assert items == [items[0]] + items[1..];
    }
  }

  lemma {:induction false} PickContents<T, K>(items: seq<T>, key: T -> K, ks: set<K>, x: T)
    ensures x in Pick(items, key, ks) <==> x in items && key(x) in ks
  {
    if items == [] {
    } else {
      PickContents(items[1..], key, ks, x);
      assert items == [items[0]] + items[1..];
    }
  }

  /** Taking one key out of the set takes exactly that key's group out. */
  lemma {:induction false} PickSplit<T, K>(items: seq<T>, key: T -> K, ks: set<K>, k: K)
    requires k in ks
    ensures multiset(Pick(items, key, ks)) == multiset(Select(items, key, k)) + multiset(Pick(items, key, ks - {k}))
  {
    if items == [] {
    } else {
      PickSplit(items[1..], key, ks, k);
    }
  }

  lemma {:induction false} PickDisjoint<T, K>(items: seq<T>, key: T -> K, ks: set<K>, ls: set<K>)
    requires ks !! ls
    ensures multiset(Pick(items, key, ks + ls)) == multiset(Pick(items, key, ks)) + multiset(Pick(items, key, ls))
  {
    if items == [] {
    } else {
      PickDisjoint(items[1..], key, ks, ls);
    }
  }

  lemma {:induction false} PickAll<T, K>(items: seq<T>, key: T -> K, ks: set<K>)
    requires Keys(items, key) <= ks
    ensures Pick(items, key, ks) == items
  {
    if items == [] {
    } else {
      PickAll(items[1..], key, ks);
    }
  }

  lemma {:induction false} NoneSelected<T, K>(items: seq<T>, key: T -> K, k: K)
    requires k !in Keys(items, key)
    ensures Select(items, key, k) == []
  {
    if items == [] {
    } else {
      NoneSelected(items[1..], key, k);
    }
  }

  /** `defaultdict(list)` filled in one pass. */
  method GroupBy<T, K(==)>(items: seq<T>, key: T -> K) returns (groups: map<K, seq<T>>)
    ensures groups.Keys == Keys(items, key)
    ensures forall k :: k in groups ==> groups[k] == Select(items, key, k) && groups[k] != []
  {
    groups := map[];
    for i := 0 to |items|
      invariant groups.Keys == Keys(items[..i], key)
      invariant forall k :: k in groups ==> groups[k] == Select(items[..i], key, k) && groups[k] != []
    {
      var x := items[i];
      var k := key(x);
      assert items[..i + 1] == items[..i] + [x];
      KeysAppend(items[..i], x, key);
      forall l ensures Select(items[..i + 1], key, l) == Select(items[..i], key, l) + (if k == l then [x] else []) {
        SelectAppend(items[..i], x, key, l);
      }
      if k !in groups { NoneSelected(items[..i], key, k); }
      var group := if k in groups then groups[k] else [];
      assert group == Select(items[..i], key, k);
      groups := groups[k := group + [x]];
    }
    assert items[..|items|] == items;
  }

  lemma {:induction false} PickNothing<T, K>(items: seq<T>, key: T -> K)
    ensures Pick(items, key, {}) == []
  {
    if items == [] {
    } else {
      PickNothing(items[1..], key);
    }
  }

  /** `[e for k, group in groups.items() if k in ks for e in group]` */
  method Gather<T, K(==)>(groups: map<K, seq<T>>, ks: set<K>, ghost items: seq<T>, ghost key: T -> K)
    returns (out: seq<T>)
    requires ks <= groups.Keys
    requires forall k :: k in groups ==> groups[k] == Select(items, key, k)
    ensures multiset(out) == multiset(Pick(items, key, ks))
  {
    out := [];
    var rest := ks;
    PickNothing(items, key);
    while rest != {}
      invariant rest <= ks
      invariant multiset(out) + multiset(Pick(items, key, rest)) == multiset(Pick(items, key, ks))
    {
      var k :| k in rest;
      PickSplit(items, key, rest, k);
      out := out + groups[k];
      rest := rest - {k};
    }
  }

  // ----- flattening

  function Flat<F, T>(fs: seq<F>, part: F -> seq<T>): seq<T> {
    if fs == [] then [] else Flat(fs[..|fs| - 1], part) + part(fs[|fs| - 1])
  }

  lemma FlatAppend<F, T>(fs: seq<F>, f: F, part: F -> seq<T>)
    ensures Flat(fs + [f], part) == Flat(fs, part) + part(f)
  {
    assert (fs + [f])[..|fs|] == fs;
  }

  lemma {:induction false} FlatSame<F, T>(fs: seq<F>, gs: seq<F>, part: F -> seq<T>)
    requires |fs| == |gs| && forall i :: 0 <= i < |fs| ==> part(fs[i]) == part(gs[i])
    ensures Flat(fs, part) == Flat(gs, part)
  {
    if fs == [] {
    } else {
      FlatSame(fs[..|fs| - 1], gs[..|gs| - 1], part);
    }
  }

  lemma {:induction false} FlatConcat<F, T>(fs: seq<F>, gs: seq<F>, part: F -> seq<T>)
    ensures Flat(fs + gs, part) == Flat(fs, part) + Flat(gs, part)
  {
    if gs == [] {
      assert fs + gs == fs;
    } else {
      FlatConcat(fs, gs[..|gs| - 1], part);
      assert (fs + gs)[..|fs + gs| - 1] == fs + gs[..|gs| - 1];
    }
  }

  lemma {:induction false} FlatContents<F, T>(fs: seq<F>, part: F -> seq<T>, x: T)
    ensures x in Flat(fs, part) <==> exists i :: 0 <= i < |fs| && x in part(fs[i])
  {
    if fs == [] {
    } else {
      FlatContents(fs[..|fs| - 1], part, x);
    }
  }

  lemma {:induction false} FlatHolds<F, T>(fs: seq<F>, part: F -> seq<T>, i: nat, x: T)
    requires i < |fs|
    ensures multiset(Flat(fs, part))[x] >= multiset(part(fs[i]))[x]
  {
    if i == |fs| - 1 {
    } else {
      FlatHolds(fs[..|fs| - 1], part, i, x);
    }
  }

  /** What two entries hold, the flattened list holds together. */
  lemma {:induction false} FlatHoldsBoth<F, T>(fs: seq<F>, part: F -> seq<T>, i: nat, j: nat, x: T)
    requires i < j < |fs|
    ensures multiset(Flat(fs, part))[x] >= multiset(part(fs[i]))[x] + multiset(part(fs[j]))[x]
  {
    if j == |fs| - 1 {
      FlatHolds(fs[..|fs| - 1], part, i, x);
    } else {
      FlatHoldsBoth(fs[..|fs| - 1], part, i, j, x);
    }
  }
}
