/** Monomials: the sorted `(atom, exponent)` tuples the code stores, and the multisets
    of atoms they stand for. */
module Monomials {
  import opened Ordering
  import opened Atoms
  import opened Results

  datatype Factor = Factor(atom: Atom, exp: int)
  type Mono = seq<Factor>

  predicate FactorLess(f: Factor, g: Factor) {
    AtomLess(f.atom, g.atom) || (f.atom == g.atom && f.exp < g.exp)
  }

  predicate MonoLess(m: Mono, n: Mono) {
    LexLess(FactorLess, m, n)
  }

  /** The class invariant: strictly increasing atoms, exponents at least one. */
  ghost predicate Canon(m: Mono) {
    && (forall i :: 0 <= i < |m| ==> m[i].exp >= 1)
    && (forall i, j :: 0 <= i < j < |m| ==> AtomLess(m[i].atom, m[j].atom))
  }

  ghost predicate Positive(m: Mono) {
    forall i :: 0 <= i < |m| ==> m[i].exp >= 1
  }

  /** What a tuple denotes: the product of its factors, as a multiset of atoms. */
  ghost function Abs(m: Mono): multiset<Atom> {
    if m == [] then multiset{}
    else multiset{}[m[0].atom := if m[0].exp < 0 then 0 else m[0].exp] + Abs(m[1..])
  }

  lemma FactorLessStrictTotal()
    ensures StrictTotal(FactorLess)
  {
    AtomLessStrictTotal();
  }

  lemma MonoLessStrictTotal()
    ensures StrictTotal(MonoLess)
  {
    FactorLessStrictTotal();
    forall x ensures !MonoLess(x, x) {
      LexIrreflexive(FactorLess, x);
    }
    forall x, y ensures x == y || MonoLess(x, y) || MonoLess(y, x) {
      LexTrichotomy(FactorLess, x, y);
    }
    forall x, y, z | MonoLess(x, y) && MonoLess(y, z) ensures MonoLess(x, z) {
      LexTransitive(FactorLess, x, y, z);
    }
  }

  lemma {:induction false} AbsAbsent(m: Mono, a: Atom)
    requires forall i :: 0 <= i < |m| ==> m[i].atom != a
    ensures Abs(m)[a] == 0
  {
    if m == [] {
    } else {
      AbsAbsent(m[1..], a);
    }
  }

  ghost predicate DistinctAtoms(m: Mono) {
    forall i, j :: 0 <= i < j < |m| ==> m[i].atom != m[j].atom
  }

  lemma CanonDistinct(m: Mono)
    requires Canon(m)
    ensures DistinctAtoms(m)
  {
    AtomLessStrictTotal();
  }

  lemma {:induction false} AbsAt(m: Mono, i: nat)
    requires i < |m| && DistinctAtoms(m) && m[i].exp >= 0
    ensures Abs(m)[m[i].atom] == m[i].exp
  {
    if i == 0 {
      AbsAbsent(m[1..], m[0].atom);
    } else {
      AbsAt(m[1..], i - 1);
    }
  }

  lemma {:induction false} AbsAppend(m: Mono, n: Mono)
    ensures Abs(m + n) == Abs(m) + Abs(n)
  {
    if m == [] {
      assert m + n == n;
    } else {
      AbsAppend(m[1..], n);
      assert (m + n)[1..] == m[1..] + n;
    }
  }

  lemma EmptyAbs(m: Mono)
    requires Canon(m)
    ensures Abs(m) == multiset{} <==> m == []
  {
    CanonDistinct(m);
    if m != [] { AbsAt(m, 0); }
  }

  lemma CanonTail(m: Mono)
    requires Canon(m) && m != []
    ensures Canon(m[1..])
    ensures Abs(m)[m[0].atom] == m[0].exp && Abs(m[1..])[m[0].atom] == 0
    ensures Abs(m[1..]) == Abs(m)[m[0].atom := 0]
  {
    CanonDistinct(m);
    AbsAt(m, 0);
    AbsAbsent(m[1..], m[0].atom);
    forall i | 0 <= i < |m[1..]| ensures m[1..][i].exp >= 1 {
      assert m[1..][i] == m[i + 1];
    }
  }

  lemma NothingBelowHead(n: Mono, a: Atom)
    requires Canon(n) && n != [] && AtomLess(a, n[0].atom)
    ensures Abs(n)[a] == 0
  {
    AtomLessStrictTotal();
    forall i | 0 <= i < |n| ensures n[i].atom != a {
      assert i > 0 ==> AtomLess(n[0].atom, n[i].atom);
    }
    AbsAbsent(n, a);
  }

  /** Equal denotations have the same least atom. */
  lemma HeadUnique(m: Mono, n: Mono)
    requires Canon(m) && Canon(n) && Abs(m) == Abs(n) && m != [] && n != []
    ensures m[0] == n[0]
  {
    CanonTail(m); CanonTail(n);
    var a, b := m[0].atom, n[0].atom;
    assert AtomLess(a, b) || a == b || AtomLess(b, a) by { AtomLessStrictTotal(); }
    if AtomLess(a, b) {
      NothingBelowHead(n, a);
    } else if AtomLess(b, a) {
      NothingBelowHead(m, b);
    }
  }

  /** The stored tuple is a normal form: one tuple per multiset of atoms. */
  lemma {:induction false} CanonUnique(m: Mono, n: Mono)
    requires Canon(m) && Canon(n) && Abs(m) == Abs(n)
    ensures m == n
  {
    EmptyAbs(m); EmptyAbs(n);
    if m == [] {
    } else {
      HeadUnique(m, n);
      CanonTail(m); CanonTail(n);
      CanonUnique(m[1..], n[1..]);
      assert m == [m[0]] + m[1..] && n == [n[0]] + n[1..];
    }
  }

  // ----- Python dictionaries keyed by atoms

  /** The dictionary `acc` read as a multiset: each atom as often as its exponent. */
  ghost predicate Counts(acc: map<Atom, int>, p: multiset<Atom>) {
    && (forall a :: a in acc ==> acc[a] >= 1)
    && (forall a :: p[a] == if a in acc then acc[a] else 0)
  }

  /** `dict(m)`: later pairs overwrite earlier ones. */
  function Dict(m: Mono): map<Atom, int> {
    if m == [] then map[] else Dict(m[..|m| - 1])[m[|m| - 1].atom := m[|m| - 1].exp]
  }

  lemma {:induction false} DictCounts(m: Mono)
    requires DistinctAtoms(m) && Positive(m)
    ensures Counts(Dict(m), Abs(m))
    ensures forall a :: a in Dict(m) ==> exists i :: 0 <= i < |m| && m[i].atom == a
  {
    if m == [] {
    } else {
      var k := |m| - 1;
      DictCounts(m[..k]);
      assert m == m[..k] + [m[k]];
      AbsAppend(m[..k], [m[k]]);
      assert Abs([m[k]]) == multiset{}[m[k].atom := m[k].exp] by { assert [m[k]][1..] == []; }
      AbsAbsent(m[..k], m[k].atom);
      forall a | a in Dict(m) ensures exists i :: 0 <= i < |m| && m[i].atom == a {
        if a == m[k].atom { assert m[k].atom == a; }
      }
    }
  }

  /** No factor of m uses the atom. */
  ghost predicate Fresh(a: Atom, m: Mono) {
    forall i :: 0 <= i < |m| ==> m[i].atom != a
  }

  lemma FreshFromAbs(a: Atom, m: Mono)
    requires Canon(m) && Abs(m)[a] == 0
    ensures Fresh(a, m)
  {
    CanonDistinct(m);
    forall i | 0 <= i < |m| ensures m[i].atom != a { AbsAt(m, i); }
  }

  lemma HeadBelow(f: Factor, m: Mono)
    requires Canon(m) && f.exp >= 1 && (m != [] ==> AtomLess(f.atom, m[0].atom))
    ensures Canon([f] + m)
  {
    forall j | 0 <= j < |m| ensures AtomLess(f.atom, m[j].atom) {
      AtomLessStrictTotal();
      assert j > 0 ==> AtomLess(m[0].atom, m[j].atom);
    }
  }

  lemma HeadAbove(f: Factor, m: Mono, g: Factor)
    requires Canon(m) && m != [] && m[0].atom != f.atom && !AtomLess(f.atom, m[0].atom)
    requires g == f || g in m[1..]
    ensures AtomLess(m[0].atom, g.atom)
  {
    AtomLessStrictTotal();
  }

  lemma {:induction false} InsertKeepsCanon(f: Factor, m: Mono)
    requires Canon(m) && f.exp >= 1 && Fresh(f.atom, m)
    ensures Canon(Insert(FactorLess, f, m))
  {
    if m == [] {
    } else {
      CanonTail(m);
      if FactorLess(f, m[0]) {
        HeadBelow(f, m);
      } else {
        var rest := Insert(FactorLess, f, m[1..]);
        InsertKeepsCanon(f, m[1..]);
        forall j | 0 <= j < |rest| ensures AtomLess(m[0].atom, rest[j].atom) {
          assert rest[j] in multiset(rest);
          assert rest[j] == f || rest[j] in m[1..];
          HeadAbove(f, m, rest[j]);
        }
        HeadBelow(m[0], rest);
      }
    }
  }

  lemma {:induction false} InsertAbs(f: Factor, m: Mono)
    requires f.exp >= 0
    ensures Abs(Insert(FactorLess, f, m)) == Abs(m) + multiset{}[f.atom := f.exp]
  {
    if m == [] || FactorLess(f, m[0]) {
      assert ([f] + m)[1..] == m;
    } else {
      InsertAbs(f, m[1..]);
      assert ([m[0]] + Insert(FactorLess, f, m[1..]))[1..] == Insert(FactorLess, f, m[1..]);
    }
  }

  lemma InsertCanon(f: Factor, m: Mono)
    requires Canon(m) && f.exp >= 1 && Abs(m)[f.atom] == 0
    ensures Canon(Insert(FactorLess, f, m))
    ensures Abs(Insert(FactorLess, f, m)) == Abs(m)[f.atom := f.exp]
  {
    FreshFromAbs(f.atom, m);
    InsertKeepsCanon(f, m);
    InsertAbs(f, m);
    assert Abs(m) + multiset{}[f.atom := f.exp] == Abs(m)[f.atom := f.exp];
  }

  /** `tuple(sorted(acc.items()))` */
  method SortedItems(acc: map<Atom, int>, ghost p: multiset<Atom>) returns (r: Mono)
    requires Counts(acc, p)
    ensures Canon(r) && Abs(r) == p
  {
    r := [];
    var rest := acc.Keys;
    while rest != {}
      invariant rest <= acc.Keys && Canon(r)
      invariant forall a :: Abs(r)[a] == if a in acc && a !in rest then acc[a] else 0
    {
      var a :| a in rest;
      InsertCanon(Factor(a, acc[a]), r);
      r := Insert(FactorLess, Factor(a, acc[a]), r);
      rest := rest - {a};
    }
  }

  /** `for key, exp in m: acc[key] = acc.get(key, 0) + exp` */
  method Merge(start: map<Atom, int>, m: Mono, ghost p: multiset<Atom>) returns (acc: map<Atom, int>)
    requires Counts(start, p) && Positive(m)
    ensures Counts(acc, p + Abs(m))
  {
    acc := start;
    assert m[..0] == [];
    for i := 0 to |m|
      invariant Counts(acc, p + Abs(m[..i]))
    {
      var key, exp := m[i].atom, m[i].exp;
      acc := acc[key := (if key in acc then acc[key] else 0) + exp];
      assert m[..i + 1] == m[..i] + [m[i]];
      AbsAppend(m[..i], [m[i]]);
      assert [m[i]][1..] == [];
      assert Abs([m[i]]) == multiset{}[key := exp];
    }
    assert m[..|m|] == m;
  }

  /** `_mul_mono` */
  method MulMono(a: Mono, b: Mono) returns (r: Mono)
    requires Canon(a) && Canon(b)
    ensures Canon(r) && Abs(r) == Abs(a) + Abs(b)
  {
    if a == [] { return b; }
    if b == [] { return a; }
    var acc := Dict(a);
    CanonDistinct(a);
    DictCounts(a);
    acc := Merge(acc, b, Abs(a));
    r := SortedItems(acc, Abs(a) + Abs(b));
  }

  lemma {:induction false} Chain(m: Mono, i: nat, j: nat)
    requires forall k :: 0 < k < |m| ==> AtomLess(m[k - 1].atom, m[k].atom)
    requires i < j < |m|
    ensures AtomLess(m[i].atom, m[j].atom)
    decreases j
  {
    AtomLessStrictTotal();
    assert AtomLess(m[j - 1].atom, m[j].atom);
    if i < j - 1 { Chain(m, i, j - 1); }
  }

  /** Comparing neighbours is enough. */
  lemma {:induction false} ChainCanon(m: Mono)
    requires Positive(m)
    requires forall k :: 0 < k < |m| ==> AtomLess(m[k - 1].atom, m[k].atom)
    ensures Canon(m)
  {
    forall i, j | 0 <= i < j < |m| ensures AtomLess(m[i].atom, m[j].atom) {
      Chain(m, i, j);
    }
  }

  /** `_canon_mono`: refuses an exponent below one, otherwise returns the normal form. */
  method CanonMono(m: Mono) returns (r: Result<Mono, Factor>)
    ensures r.Err? <==> !Positive(m)
    ensures r.Err? ==> r.error in m && r.error.exp < 1
    ensures r.Ok? ==> Canon(r.value) && Abs(r.value) == Abs(m)
    ensures Canon(m) ==> r == Ok(m)
  {
    var ordered := true;
    for i := 0 to |m|
      invariant forall k :: 0 <= k < i ==> m[k].exp >= 1
      invariant ordered <==> forall k :: 0 < k < i ==> AtomLess(m[k - 1].atom, m[k].atom)
    {
      if m[i].exp < 1 { return Err(m[i]); }
      if i > 0 && !AtomLess(m[i - 1].atom, m[i].atom) { ordered := false; }
    }
    if ordered {
      ChainCanon(m);
      return Ok(m);
    }
    var merged := Merge(map[], m, multiset{});
    assert multiset{} + Abs(m) == Abs(m);
    var t := SortedItems(merged, Abs(m));
    r := Ok(t);
    if Canon(m) { CanonUnique(m, t); }
  }
}
