/** Polynomials over GF(P) as the code stores them: a dictionary from canonical
    monomials to coefficients in 1..P-1. Each operation is proved against the formal
    sum it denotes. */
module Polynomials {
  import opened Ordering
  import opened Atoms
  import opened Monomials
  import opened Results
  import opened Modular
  import opened Goldilocks
  import opened FormalSums

  datatype Poly = Poly(terms: map<Mono, int>)

  ghost predicate CanonKeys(d: map<Mono, int>) {
    forall m :: m in d ==> Canon(m)
  }

  /** The class invariant of `Poly`. */
  ghost predicate WellFormed(p: Poly) {
    CanonKeys(p.terms) && forall m :: m in p.terms ==> 0 < p.terms[m] < P
  }

  // ----- dictionaries as formal sums

  datatype Entry = Entry(mono: Mono, coeff: int)

  /** The items of a dictionary, in some iteration order. */
  ghost function Items(d: map<Mono, int>): seq<Entry> {
    if d == map[] then [] else
      var m :| m in d;
      [Entry(m, d[m])] + Items(d - {m})
  }

  ghost function Denote(es: seq<Entry>): Sum {
    if es == [] then [] else [Term(Abs(es[0].mono), es[0].coeff)] + Denote(es[1..])
  }

  /** The formal sum a dictionary stands for. */
  ghost function Terms(d: map<Mono, int>): Sum {
    Denote(Items(d))
  }

  /** The first key of the iteration order. */
  lemma FirstItem(d: map<Mono, int>) returns (k: Mono)
    requires d != map[]
    ensures k in d && Items(d) == [Entry(k, d[k])] + Items(d - {k})
    ensures multiset(Items(d)) == multiset{Entry(k, d[k])} + multiset(Items(d - {k}))
    ensures Terms(d) == [Term(Abs(k), d[k])] + Terms(d - {k})
  {
    k :| k in d && Items(d) == [Entry(k, d[k])] + Items(d - {k});
    assert Items(d)[1..] == Items(d - {k});
  }

  lemma RemoveBoth(d: map<Mono, int>, k: Mono, m: Mono)
    ensures d - {k} - {m} == d - {m} - {k}
  {
  }

  lemma Exchange(a: Entry, b: Entry, rest: multiset<Entry>)
    ensures multiset{a} + (multiset{b} + rest) == multiset{b} + (multiset{a} + rest)
  {
  }

  /** The iteration order does not matter: any key can be taken first. */
  lemma {:induction false} ItemsSplit(d: map<Mono, int>, m: Mono)
    requires m in d
    ensures multiset(Items(d)) == multiset{Entry(m, d[m])} + multiset(Items(d - {m}))
    decreases |d|
  {
    var k := FirstItem(d);
    if k != m {
      ItemsSplit(d - {k}, m);
      ItemsSplit(d - {m}, k);
      RemoveBoth(d, k, m);
      Exchange(Entry(k, d[k]), Entry(m, d[m]), multiset(Items(d - {k} - {m})));
    }
  }

  lemma {:induction false} LinSplit(d: map<Mono, int>, m: Mono, g: Power -> int)
    requires m in d
    ensures Lin(Terms(d), g) == d[m] * g(Abs(m)) + Lin(Terms(d - {m}), g)
    decreases |d|
  {
    var k := FirstItem(d);
    if k != m {
      LinSplit(d - {k}, m, g);
      LinSplit(d - {m}, k, g);
      RemoveBoth(d, k, m);
    }
  }

  /** The functional that reads off one coefficient. */
  ghost function Is(x: Power): Power -> int {
    y => if y == x then 1 else 0
  }

  lemma {:induction false} CoeffIsLin(s: Sum, x: Power)
    ensures Coeff(s, x) == Lin(s, Is(x))
  {
    if s == [] {
    } else {
      CoeffIsLin(s[1..], x);
    }
  }

  ghost function At(m: Mono, c: int, x: Power): int {
    if Abs(m) == x then c else 0
  }

  function Get(d: map<Mono, int>, m: Mono): int {
    if m in d then d[m] else 0
  }

  lemma TermsSplit(d: map<Mono, int>, m: Mono, x: Power)
    requires m in d
    ensures Coeff(Terms(d), x) == At(m, d[m], x) + Coeff(Terms(d - {m}), x)
  {
    CoeffIsLin(Terms(d), x);
    CoeffIsLin(Terms(d - {m}), x);
    LinSplit(d, m, Is(x));
  }

  lemma TermsPop(d: map<Mono, int>, m: Mono, x: Power)
    ensures Coeff(Terms(d - {m}), x) == Coeff(Terms(d), x) - At(m, Get(d, m), x)
  {
    if m in d { TermsSplit(d, m, x); } else { assert d - {m} == d; }
  }

  lemma TermsPut(d: map<Mono, int>, m: Mono, c: int, x: Power)
    ensures Coeff(Terms(d[m := c]), x) == Coeff(Terms(d), x) + At(m, c - Get(d, m), x)
  {
    TermsSplit(d[m := c], m, x);
    assert d[m := c] - {m} == d - {m};
    TermsPop(d, m, x);
  }

  lemma TermsEmpty(x: Power)
    ensures Coeff(Terms(map[]), x) == 0
  {
  }

  /** In a dictionary with canonical keys, a coefficient is a lookup. */
  lemma {:induction false} CoeffLookup(d: map<Mono, int>, m: Mono)
    requires CanonKeys(d) && Canon(m)
    ensures Coeff(Terms(d), Abs(m)) == Get(d, m)
    decreases |d|
  {
    if d == map[] {
      TermsEmpty(Abs(m));
    } else {
      var k :| k in d;
      TermsSplit(d, k, Abs(m));
      CoeffLookup(d - {k}, m);
      if Abs(k) == Abs(m) { CanonUnique(k, m); }
    }
  }

  lemma {:induction false} CoeffAbsent(d: map<Mono, int>, x: Power)
    requires forall m :: m in d ==> Abs(m) != x
    ensures Coeff(Terms(d), x) == 0
    decreases |d|
  {
    if d == map[] {
    } else {
      var k :| k in d;
      TermsSplit(d, k, x);
      CoeffAbsent(d - {k}, x);
    }
  }

  lemma SameLookup(p: Poly, q: Poly, m: Mono)
    requires WellFormed(p) && WellFormed(q) && Equiv(Terms(p.terms), Terms(q.terms))
    requires m in p.terms
    ensures m in q.terms && p.terms[m] == q.terms[m]
  {
    CoeffLookup(p.terms, m);
    CoeffLookup(q.terms, m);
    assert Coeff(Terms(p.terms), Abs(m)) % P == Coeff(Terms(q.terms), Abs(m)) % P;
  }

  /** Uniqueness of the normal form: equal coefficients modulo P force equal dictionaries. */
  lemma NormalFormUnique(p: Poly, q: Poly)
    requires WellFormed(p) && WellFormed(q) && Equiv(Terms(p.terms), Terms(q.terms))
    ensures p == q
  {
    forall m | m in p.terms ensures m in q.terms && p.terms[m] == q.terms[m] {
      SameLookup(p, q, m);
    }
    forall m | m in q.terms ensures m in p.terms {
      SameLookup(q, p, m);
    }
  }

  // ----- construction

  /** An entry the constructor refuses. The exponents are only looked at under a
      coefficient that does not vanish. */
  ghost predicate Refused(m: Mono, c: int) {
    c % P != 0 && !Positive(m)
  }

  lemma InitStart(d: map<Mono, int>)
    ensures Equiv(Terms(map[]) + Terms(d), Terms(d))
  {
    assert Terms(map[]) + Terms(d) == Terms(d);
  }

  lemma InitFinish(reduced: map<Mono, int>)
    ensures Terms(reduced) + Terms(map[]) == Terms(reduced)
  {
  }

  lemma InitSkip(reduced: map<Mono, int>, rest: map<Mono, int>, m: Mono)
    requires m in rest && rest[m] % P == 0
    ensures Equiv(Terms(reduced) + Terms(rest - {m}), Terms(reduced) + Terms(rest))
  {
    forall x ensures Coeff(Terms(reduced) + Terms(rest - {m}), x) % P == Coeff(Terms(reduced) + Terms(rest), x) % P {
      CoeffAppend(Terms(reduced), Terms(rest - {m}), x);
      CoeffAppend(Terms(reduced), Terms(rest), x);
      TermsSplit(rest, m, x);
    }
  }

  /** The dictionary update `reduced[key] = v`, or the key's removal when v is zero. */
  function Store(d: map<Mono, int>, m: Mono, v: int): map<Mono, int> {
    if v != 0 then d[m := v] else d - {m}
  }

  lemma StoreCoeff(d: map<Mono, int>, m: Mono, v: int, x: Power)
    ensures Coeff(Terms(Store(d, m, v)), x) == Coeff(Terms(d), x) + At(m, v - Get(d, m), x)
  {
    TermsPut(d, m, v, x);
    TermsPop(d, m, x);
  }

  /** The value stored moves the old one by c, modulo P. */
  lemma StoredDifference(g: int, c: int) returns (v: int)
    ensures v == (g + c % P) % P
    ensures (v - g) % P == c % P
  {
    v := (g + c % P) % P;
    ModIdem(c, P);
    ModIdem(g + c % P, P);
    CongAdd(v, g + c % P, -g, -g, P);
  }

  lemma MoveTerm(before: Sum, after: Sum, rest: Sum, less: Sum, h: int, c: int, hit: bool, x: Power)
    requires Coeff(after, x) == Coeff(before, x) + if hit then h else 0
    requires Coeff(rest, x) == (if hit then c else 0) + Coeff(less, x)
    requires h % P == c % P
    ensures Coeff(after + less, x) % P == Coeff(before + rest, x) % P
  {
    CoeffAppend(after, less, x);
    CoeffAppend(before, rest, x);
    var a := Coeff(before, x) + Coeff(less, x);
    CongAdd(a, a, h, c, P);
  }

  lemma InitStep(before: map<Mono, int>, rest: map<Mono, int>, m: Mono, key: Mono, v: int)
    requires m in rest && Abs(key) == Abs(m) && (v - Get(before, key)) % P == rest[m] % P
    ensures Equiv(Terms(Store(before, key, v)) + Terms(rest - {m}), Terms(before) + Terms(rest))
  {
    var after, less := Store(before, key, v), rest - {m};
    var g, c := Get(before, key), rest[m];
    forall x ensures Coeff(Terms(after) + Terms(less), x) % P == Coeff(Terms(before) + Terms(rest), x) % P {
      StoreCoeff(before, key, v, x);
      TermsSplit(rest, m, x);
      var h := v - g;
      MoveTerm(Terms(before), Terms(after), Terms(rest), Terms(less), h, c, Abs(m) == x, x);
    }
  }

  /** One round of the constructor's loop. */
  method InitEntry(reduced: map<Mono, int>, m: Mono, coeff: int, ghost rest: map<Mono, int>)
    returns (r: Result<map<Mono, int>, Factor>)
    requires WellFormed(Poly(reduced)) && m in rest && rest[m] == coeff
    ensures r.Err? <==> Refused(m, coeff)
    ensures r.Ok? ==> WellFormed(Poly(r.value))
    ensures r.Ok? ==> Equiv(Terms(r.value) + Terms(rest - {m}), Terms(reduced) + Terms(rest))
  {
    var c := coeff % P;
    if c == 0 {
      InitSkip(reduced, rest, m);
      return Ok(reduced);
    }
    var key :- CanonMono(m);
    var v := (Get(reduced, key) + c) % P;
    ghost var v' := StoredDifference(Get(reduced, key), coeff);
    InitStep(reduced, rest, m, key, v);
    r := Ok(Store(reduced, key, v));
  }

  /** `Poly.__init__`: reduce modulo P, drop zeros, put keys into normal form, merge
      collisions. */
  method Init(d: map<Mono, int>) returns (r: Result<Poly, Factor>)
    ensures r.Err? <==> exists m :: m in d && Refused(m, d[m])
    ensures r.Ok? ==> WellFormed(r.value) && Equiv(Terms(r.value.terms), Terms(d))
  {
    var reduced: map<Mono, int> := map[];
    var rest := d;
    InitStart(d);
    while rest != map[]
      invariant forall m :: m in rest ==> m in d && rest[m] == d[m]
      invariant forall m :: m in d && m !in rest ==> !Refused(m, d[m])
      invariant WellFormed(Poly(reduced))
      invariant Equiv(Terms(reduced) + Terms(rest), Terms(d))
      decreases |rest|
    {
      var m :| m in rest;
      reduced :- InitEntry(reduced, m, d[m], rest);
      rest := rest - {m};
    }
    InitFinish(reduced);
    r := Ok(Poly(reduced));
  }

  /** The constructor on keys that are already canonical, as every operation calls it. */
  method Reduce(d: map<Mono, int>) returns (p: Poly)
    requires CanonKeys(d)
    ensures WellFormed(p) && Equiv(Terms(p.terms), Terms(d))
  {
    var r := Init(d);
    p := r.value;
  }

  // ----- arithmetic

  lemma TermsSingleton(m: Mono, c: int)
    ensures Terms(map[m := c]) == [Term(Abs(m), c)]
  {
    var d := map[m := c];
    assert m in d;
    var k := FirstItem(d);
    assert d - {k} == map[];
  }

  method Const(n: int) returns (p: Poly)
    ensures WellFormed(p) && Equiv(Terms(p.terms), [Term(multiset{}, n)])
  {
    p := Reduce(map[[] := n]);
    TermsSingleton([], n);
  }

  method Variable(a: Atom) returns (p: Poly)
    ensures WellFormed(p) && Equiv(Terms(p.terms), [Term(multiset{a}, 1)])
  {
    p := Reduce(map[[Factor(a, 1)] := 1]);
    TermsSingleton([Factor(a, 1)], 1);
    assert [Factor(a, 1)][1..] == [];
    assert Abs([Factor(a, 1)]) == multiset{a};
  }

  lemma RowPut(acc: map<Mono, int>, mono: Mono, c: int)
    ensures forall x :: Coeff(Terms(acc[mono := Get(acc, mono) + c]), x) == Coeff(Terms(acc), x) + At(mono, c, x)
  {
    forall x ensures Coeff(Terms(acc[mono := Get(acc, mono) + c]), x) == Coeff(Terms(acc), x) + At(mono, c, x) {
      TermsPut(acc, mono, Get(acc, mono) + c, x);
    }
  }

  lemma AddStep(acc: map<Mono, int>, rest: map<Mono, int>, m: Mono)
    requires m in rest
    ensures forall x :: Coeff(Terms(acc[m := Get(acc, m) + rest[m]]), x) + Coeff(Terms(rest - {m}), x)
                     == Coeff(Terms(acc), x) + Coeff(Terms(rest), x)
  {
    RowPut(acc, m, rest[m]);
    forall x ensures Coeff(Terms(rest), x) == At(m, rest[m], x) + Coeff(Terms(rest - {m}), x) {
      TermsSplit(rest, m, x);
    }
  }

  method Add(p: Poly, q: Poly) returns (r: Poly)
    requires WellFormed(p) && WellFormed(q)
    ensures WellFormed(r) && Equiv(Terms(r.terms), Terms(p.terms) + Terms(q.terms))
  {
    var acc := p.terms;
    var rest := q.terms;
    while rest != map[]
      invariant CanonKeys(acc) && CanonKeys(rest)
      invariant forall x ::
                  Coeff(Terms(acc), x) + Coeff(Terms(rest), x) == Coeff(Terms(p.terms), x) + Coeff(Terms(q.terms), x)
      decreases |rest|
    {
      var m :| m in rest;
      AddStep(acc, rest, m);
      acc := acc[m := Get(acc, m) + rest[m]];
      rest := rest - {m};
    }
    r := Reduce(acc);
    forall x ensures Coeff(Terms(acc), x) == Coeff(Terms(p.terms) + Terms(q.terms), x) {
      TermsEmpty(x);
      CoeffAppend(Terms(p.terms), Terms(q.terms), x);
    }
  }

  lemma ScaleAt(c: int, v: int, hit: bool, r: int)
    ensures c * ((if hit then v else 0) + r) == (if hit then c * v else 0) + c * r
  {
  }

  /** Multiplying every stored coefficient by c scales the formal sum. */
  lemma {:induction false} ScaledTerms(d: map<Mono, int>, e: map<Mono, int>, c: int, x: Power)
    requires d.Keys == e.Keys && forall m :: m in d ==> e[m] == c * d[m]
    ensures Coeff(Terms(e), x) == c * Coeff(Terms(d), x)
    decreases |d|
  {
    hide Terms, Coeff;
    if d == map[] {
      assert e == map[];
      TermsEmpty(x);
    } else {
      var m :| m in d;
      TermsSplit(d, m, x);
      TermsSplit(e, m, x);
      ScaledTerms(d - {m}, e - {m}, c, x);
      ScaleAt(c, d[m], Abs(m) == x, Coeff(Terms(d - {m}), x));
    }
  }

  method Negate(p: Poly) returns (r: Poly)
    requires WellFormed(p)
    ensures WellFormed(r) && Equiv(Terms(r.terms), Scale(-1, Terms(p.terms)))
  {
    var d := map m | m in p.terms :: -p.terms[m];
    r := Reduce(d);
    forall x ensures Coeff(Terms(d), x) == Coeff(Scale(-1, Terms(p.terms)), x) {
      ScaledTerms(p.terms, d, -1, x);
      CoeffScale(-1, Terms(p.terms), x);
    }
  }

  method Subtract(p: Poly, q: Poly) returns (r: Poly)
    requires WellFormed(p) && WellFormed(q)
    ensures WellFormed(r) && Equiv(Terms(r.terms), Terms(p.terms) + Scale(-1, Terms(q.terms)))
  {
    var n := Negate(q);
    r := Add(p, n);
    EquivAppend(Terms(p.terms), Terms(n.terms), Terms(p.terms), Scale(-1, Terms(q.terms)));
  }

  lemma ShiftMoves(a: Term, s: Sum, less: Sum, v: int, c: int, hit: bool, x: Power)
    requires hit ==> a.power <= x
    requires a.power <= x ==> Coeff(s, x - a.power) == (if hit then v else 0) + Coeff(less, x - a.power)
    requires c == a.coeff * v
    ensures Coeff(Shift(a, s), x) == (if hit then c else 0) + Coeff(Shift(a, less), x)
  {
    CoeffShift(a, s, x);
    CoeffShift(a, less, x);
    if a.power <= x { ScaleAt(a.coeff, v, hit, Coeff(less, x - a.power)); }
  }

  lemma ShiftSplit(a: Term, d: map<Mono, int>, m: Mono, mono: Mono, c: int, x: Power)
    requires m in d && Abs(mono) == a.power + Abs(m) && c == a.coeff * d[m]
    ensures Coeff(Shift(a, Terms(d)), x) == At(mono, c, x) + Coeff(Shift(a, Terms(d - {m})), x)
  {
    Quotient(a.power, Abs(m), x);
    if a.power <= x { TermsSplit(d, m, x - a.power); }
    ShiftMoves(a, Terms(d), Terms(d - {m}), d[m], c, Abs(mono) == x, x);
  }

  lemma RowStep(a: Term, acc: map<Mono, int>, rest: map<Mono, int>, m: Mono, mono: Mono, c: int)
    requires m in rest && Abs(mono) == a.power + Abs(m) && c == a.coeff * rest[m]
    ensures forall x :: Coeff(Terms(acc[mono := Get(acc, mono) + c]), x) + Coeff(Shift(a, Terms(rest - {m})), x)
                     == Coeff(Terms(acc), x) + Coeff(Shift(a, Terms(rest)), x)
  {
    forall x ensures Coeff(Shift(a, Terms(rest)), x) == At(mono, c, x) + Coeff(Shift(a, Terms(rest - {m})), x) {
      ShiftSplit(a, rest, m, mono, c, x);
    }
    RowPut(acc, mono, c);
  }

  /** The inner loop of `__mul__`: one term of the left operand against the whole right. */
  method MultiplyRow(start: map<Mono, int>, m1: Mono, c1: int, q: Poly) returns (acc: map<Mono, int>)
    requires CanonKeys(start) && Canon(m1) && WellFormed(q)
    ensures CanonKeys(acc)
    ensures forall x ::
              Coeff(Terms(acc), x) == Coeff(Terms(start), x) + Coeff(Shift(Term(Abs(m1), c1), Terms(q.terms)), x)
  {
    ghost var a := Term(Abs(m1), c1);
    acc := start;
    var rest := q.terms;
    while rest != map[]
      invariant CanonKeys(acc) && CanonKeys(rest)
      invariant forall x :: Coeff(Terms(acc), x) + Coeff(Shift(a, Terms(rest)), x)
                         == Coeff(Terms(start), x) + Coeff(Shift(a, Terms(q.terms)), x)
      decreases |rest|
    {
      var m2 :| m2 in rest;
      var mono := MulMono(m1, m2);
      ghost var before := acc;
      var c := c1 * rest[m2];
      acc := acc[mono := Get(acc, mono) + c];
      RowStep(a, before, rest, m2, mono, c);
      rest := rest - {m2};
    }
  }

  lemma TimesSplit(d: map<Mono, int>, m: Mono, t: Sum, x: Power)
    requires m in d
    ensures Coeff(Times(Terms(d), t), x) == Coeff(Shift(Term(Abs(m), d[m]), t), x) + Coeff(Times(Terms(d - {m}), t), x)
  {
    CoeffTimes(Terms(d), t, x);
    CoeffTimes(Terms(d - {m}), t, x);
    LinSplit(d, m, Share(t, x));
    CoeffShift(Term(Abs(m), d[m]), t, x);
  }

  method Multiply(p: Poly, q: Poly) returns (r: Poly)
    requires WellFormed(p) && WellFormed(q)
    ensures WellFormed(r) && Equiv(Terms(r.terms), Times(Terms(p.terms), Terms(q.terms)))
  {
    ghost var t := Terms(q.terms);
    var acc: map<Mono, int> := map[];
    var rest := p.terms;
    forall x { TermsEmpty(x); }
    while rest != map[]
      invariant CanonKeys(acc) && CanonKeys(rest)
      invariant forall x :: Coeff(Terms(acc), x) + Coeff(Times(Terms(rest), t), x) == Coeff(Times(Terms(p.terms), t), x)
      decreases |rest|
    {
      var m :| m in rest;
      ghost var before := acc;
      acc := MultiplyRow(acc, m, rest[m], q);
      forall x
        ensures Coeff(Terms(acc), x) + Coeff(Times(Terms(rest - {m}), t), x) == Coeff(Times(Terms(p.terms), t), x)
      {
        TimesSplit(rest, m, t, x);
        assert Coeff(Terms(before), x) + Coeff(Times(Terms(rest), t), x) == Coeff(Times(Terms(p.terms), t), x);
      }
      rest := rest - {m};
    }
    r := Reduce(acc);
  }

  // ----- the normal form as a function

  lemma HeadCong(a: int, b: int, h: int, c: int, hit: bool)
    requires a % P == b % P && h % P == c % P
    ensures (a + if hit then h else 0) % P == ((if hit then c else 0) + b) % P
  {
    if hit { CongAdd(a, b, h, c, P); }
  }

  lemma AddTerm(q: Poly, s: Sum, m: Mono, v: int)
    requires s != [] && Equiv(Terms(q.terms), s[1..]) && Abs(m) == s[0].power
    requires v == (Get(q.terms, m) + s[0].coeff) % P
    ensures Equiv(Terms(Store(q.terms, m, v)), s)
  {
    var g, c := Get(q.terms, m), s[0].coeff;
    var h := v - g;
    assert h % P == c % P by {
      ModIdem(g + c, P);
      CongAdd(v, g + c, -g, -g, P);
    }
    forall x ensures Coeff(Terms(Store(q.terms, m, v)), x) % P == Coeff(s, x) % P {
      StoreCoeff(q.terms, m, v, x);
      HeadCong(Coeff(Terms(q.terms), x), Coeff(s[1..], x), h, c, Abs(m) == x);
    }
  }

  lemma {:induction false} TupleExists(x: Power)
    ensures exists m :: Canon(m) && Abs(m) == x
    decreases |x|
  {
    if x == multiset{} {
      assert Canon([]) && Abs([]) == x;
    } else {
      var a :| a in x;
      var y := x[a := 0];
      assert x == y + multiset{}[a := x[a]];
      TupleExists(y);
      var m :| Canon(m) && Abs(m) == y;
      InsertCanon(Factor(a, x[a]), m);
      assert Abs(Insert(FactorLess, Factor(a, x[a]), m)) == x;
    }
  }

  /** The canonical tuple of a multiset of atoms. */
  ghost function TupleOf(x: Power): (m: Mono)
    ensures Canon(m) && Abs(m) == x
  {
    TupleExists(x);
    var m :| Canon(m) && Abs(m) == x;
    m
  }

  /** The polynomial of a formal sum, one term at a time. `ToPoly` computes it with the
      dictionary loops above. */
  ghost function NormalForm(s: Sum): (p: Poly)
    ensures WellFormed(p) && Equiv(Terms(p.terms), s)
  {
    if s == [] then
      Poly(map[])
    else
      var q := NormalForm(s[1..]);
      var m := TupleOf(s[0].power);
      var v := (Get(q.terms, m) + s[0].coeff) % P;
      AddTerm(q, s, m, v);
      Poly(Store(q.terms, m, v))
  }

  lemma NormalFormDetermines(p: Poly, s: Sum)
    requires WellFormed(p) && Equiv(Terms(p.terms), s)
    ensures p == NormalForm(s)
  {
    NormalFormUnique(p, NormalForm(s));
  }

  lemma NormalFormIff(s: Sum, t: Sum)
    ensures NormalForm(s) == NormalForm(t) <==> Equiv(s, t)
  {
    if Equiv(s, t) { NormalFormUnique(NormalForm(s), NormalForm(t)); }
  }

  // ----- canonical()

  predicate EntryLess(a: Entry, b: Entry) {
    MonoLess(a.mono, b.mono) || (a.mono == b.mono && a.coeff < b.coeff)
  }

  lemma EntryLessStrictTotal()
    ensures StrictTotal(EntryLess)
  {
    MonoLessStrictTotal();
  }

  /** `tuple(sorted(self.terms.items()))` */
  ghost function Canonical(p: Poly): seq<Entry> {
    Sort(EntryLess, Items(p.terms))
  }

  /** The sorted listing is the same whatever order the dictionary was filled in. */
  method ComputeCanonical(p: Poly) returns (c: seq<Entry>)
    ensures c == Canonical(p)
  {
    var entries: seq<Entry> := [];
    var rest := p.terms;
    while rest != map[]
      invariant multiset(entries) + multiset(Items(rest)) == multiset(Items(p.terms))
      decreases |rest|
    {
      var m :| m in rest;
      ItemsSplit(rest, m);
      entries := entries + [Entry(m, rest[m])];
      rest := rest - {m};
    }
    c := Sort(EntryLess, entries);
    EntryLessStrictTotal();
    SortSorted(EntryLess, entries);
    SortSorted(EntryLess, Items(p.terms));
    SortedUnique(EntryLess, c, Canonical(p));
  }

  lemma {:induction false} ItemsContents(d: map<Mono, int>, e: Entry)
    ensures e in Items(d) <==> e.mono in d && d[e.mono] == e.coeff
    decreases |d|
  {
    if d == map[] {
    } else {
      var k := FirstItem(d);
      ItemsContents(d - {k}, e);
    }
  }

  lemma {:induction false} DenoteAt(es: seq<Entry>, i: nat)
    requires i < |Denote(es)|
    ensures i < |es| && Denote(es)[i] == Term(Abs(es[i].mono), es[i].coeff)
  {
    if i == 0 {
    } else {
      DenoteAt(es[1..], i - 1);
    }
  }

  /** Every term of the formal sum is an entry of the dictionary. */
  lemma TermAt(d: map<Mono, int>, i: nat) returns (m: Mono)
    requires i < |Terms(d)|
    ensures m in d && Terms(d)[i] == Term(Abs(m), d[m])
  {
    DenoteAt(Items(d), i);
    var e := Items(d)[i];
    assert e in Items(d);
    ItemsContents(d, e);
    m := e.mono;
  }

  lemma CanonicalContents(p: Poly, e: Entry)
    ensures e in Canonical(p) <==> e.mono in p.terms && p.terms[e.mono] == e.coeff
  {
    ItemsContents(p.terms, e);
    assert e in multiset(Canonical(p)) <==> e in multiset(Items(p.terms));
  }

  lemma SameEntries(p: Poly, q: Poly, m: Mono, c: int)
    requires Canonical(p) == Canonical(q)
    ensures m in p.terms && p.terms[m] == c <==> m in q.terms && q.terms[m] == c
  {
    hide Canonical;
    CanonicalContents(p, Entry(m, c));
    CanonicalContents(q, Entry(m, c));
  }

  /** `canonical()` is faithful: equal listings mean equal dictionaries. */
  lemma CanonicalInjective(p: Poly, q: Poly)
    requires Canonical(p) == Canonical(q)
    ensures p == q
  {
    hide Canonical;
    forall m ensures m in p.terms <==> m in q.terms {
      SameEntries(p, q, m, if m in p.terms then p.terms[m] else 0);
      SameEntries(p, q, m, if m in q.terms then q.terms[m] else 0);
    }
    forall m | m in p.terms ensures q.terms[m] == p.terms[m] {
      SameEntries(p, q, m, p.terms[m]);
    }
    assert p.terms == q.terms;
  }
}
