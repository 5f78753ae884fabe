/** `_square_free`, the cofactor family and `_implied_by`: when the search says a clause
    is implied by a generated constraint, it is. */
module Implications {
  import opened Ordering
  import opened Atoms
  import opened Monomials
  import opened Results
  import opened Modular
  import opened Goldilocks
  import opened FormalSums
  import opened Polynomials
  import opened Expressions
  import opened Evaluation
  import opened Factoring

  // ----- x*x = x

  /** One monomial with the listed atoms' exponents cut to one. */
  function Cap(m: Mono, atoms: set<Atom>): (r: Mono)
    ensures |r| == |m|
    ensures forall i :: 0 <= i < |m| ==> r[i].atom == m[i].atom
    ensures forall i :: 0 <= i < |m| ==> r[i].exp == if m[i].atom in atoms then 1 else m[i].exp
  {
    seq(|m|, i requires 0 <= i < |m| => Factor(m[i].atom, if m[i].atom in atoms then 1 else m[i].exp))
  }

  lemma CapCanon(m: Mono, atoms: set<Atom>)
    requires Canon(m)
    ensures Canon(Cap(m, atoms))
  {
    forall i, j | 0 <= i < j < |m| ensures AtomLess(Cap(m, atoms)[i].atom, Cap(m, atoms)[j].atom) {
      assert AtomLess(m[i].atom, m[j].atom);
    }
  }

  ghost function CapPower(x: Power, atoms: set<Atom>): Power {
    Abs(Cap(TupleOf(x), atoms))
  }

  lemma CapPowerOfTuple(m: Mono, atoms: set<Atom>)
    requires Canon(m)
    ensures CapPower(Abs(m), atoms) == Abs(Cap(m, atoms))
  {
    CanonUnique(TupleOf(Abs(m)), m);
  }

  ghost function CapSum(s: Sum, atoms: set<Atom>): Sum {
    if s == [] then [] else [Term(CapPower(s[0].power, atoms), s[0].coeff)] + CapSum(s[1..], atoms)
  }

  /** The reduction of a polynomial by `x*x = x` on the listed atoms. */
  ghost function Reduced(p: Poly, atoms: set<Atom>): Poly {
    NormalForm(CapSum(Terms(p.terms), atoms))
  }

  ghost function CapIs(x: Power, atoms: set<Atom>): Power -> int {
    y => if CapPower(y, atoms) == x then 1 else 0
  }

  lemma {:induction false} CoeffCapSum(s: Sum, atoms: set<Atom>, x: Power)
    ensures Coeff(CapSum(s, atoms), x) == Lin(s, CapIs(x, atoms))
  {
    if s == [] {
    } else {
      CoeffCapSum(s[1..], atoms, x);
      assert CapSum(s, atoms)[1..] == CapSum(s[1..], atoms);
    }
  }

  lemma CapSplit(d: map<Mono, int>, m: Mono, atoms: set<Atom>, x: Power)
    requires m in d && Canon(m)
    ensures Coeff(CapSum(Terms(d), atoms), x) == At(Cap(m, atoms), d[m], x) + Coeff(CapSum(Terms(d - {m}), atoms), x)
  {
    CoeffCapSum(Terms(d), atoms, x);
    CoeffCapSum(Terms(d - {m}), atoms, x);
    LinSplit(d, m, CapIs(x, atoms));
    CapPowerOfTuple(m, atoms);
  }

  lemma {:induction false} CapNothing(s: Sum)
    ensures CapSum(s, {}) == s
  {
    if s == [] {
    } else {
      CapNothing(s[1..]);
      var m := TupleOf(s[0].power);
      assert Cap(m, {}) == m;
    }
  }

  lemma CapStep(out: map<Mono, int>, rest: map<Mono, int>, m: Mono, atoms: set<Atom>)
    requires m in rest && Canon(m)
    ensures forall x :: Coeff(Terms(out[Cap(m, atoms) := Get(out, Cap(m, atoms)) + rest[m]]), x)
                     + Coeff(CapSum(Terms(rest - {m}), atoms), x)
                     == Coeff(Terms(out), x) + Coeff(CapSum(Terms(rest), atoms), x)
  {
    hide *;
    RowPut(out, Cap(m, atoms), rest[m]);
    forall x
      ensures Coeff(CapSum(Terms(rest), atoms), x)
           == At(Cap(m, atoms), rest[m], x) + Coeff(CapSum(Terms(rest - {m}), atoms), x)
    {
      CapSplit(rest, m, atoms, x);
    }
  }

  /** `_square_free` */
  method SquareFree(p: Poly, atoms: set<Atom>) returns (r: Poly)
    requires WellFormed(p)
    ensures WellFormed(r) && r == Reduced(p, atoms)
  {
    if atoms == {} {
      CapNothing(Terms(p.terms));
      NormalFormDetermines(p, CapSum(Terms(p.terms), atoms));
      return p;
    }
    var out: map<Mono, int> := map[];
    var rest := p.terms;
    while rest != map[]
      invariant CanonKeys(out) && CanonKeys(rest)
      invariant forall x :: Coeff(Terms(out), x) + Coeff(CapSum(Terms(rest), atoms), x)
                         == Coeff(CapSum(Terms(p.terms), atoms), x)
      decreases |rest|
    {
      var m :| m in rest;
      CapStep(out, rest, m, atoms);
      CapCanon(m, atoms);
      out := out[Cap(m, atoms) := Get(out, Cap(m, atoms)) + rest[m]];
      rest := rest - {m};
    }
    r := Reduce(out);
    NormalFormDetermines(r, CapSum(Terms(p.terms), atoms));
  }

  /** The assignments under which the reduction is licensed. */
  ghost predicate BooleanOn(env: Env, atoms: set<Atom>) {
    forall a :: a in atoms ==> env(a) % P == 0 || env(a) % P == 1
  }

  lemma {:induction false} BooleanPower(v: int, n: nat)
    requires v % P == 0 || v % P == 1
    requires n >= 1
    ensures Pow(v, n) % P == v % P
  {
    if n == 1 {
      assert Pow(v, 1) == v * Pow(v, 0);
    } else {
      BooleanPower(v, n - 1);
      CongMul(v, v % P, Pow(v, n - 1), v % P, P) by { ModIdem(v, P); }
      assert v % P == (v % P) * (v % P);
    }
  }

  lemma {:induction false} CapMonoValue(m: Mono, atoms: set<Atom>, env: Env)
    requires Positive(m) && Positive(Cap(m, atoms)) && BooleanOn(env, atoms)
    ensures MonoValue(Cap(m, atoms), env) % P == MonoValue(m, env) % P
  {
    if m == [] {
    } else {
      var a, e, c := m[0].atom, m[0].exp, Cap(m, atoms);
      assert c[1..] == Cap(m[1..], atoms);
      TailPositive(m);
      TailPositive(c);
      CapMonoValue(m[1..], atoms, env);
      if a in atoms {
        BooleanPower(env(a), e);
        BooleanPower(env(a), 1);
      }
      CongMul(Pow(env(a), c[0].exp), Pow(env(a), e), MonoValue(c[1..], env), MonoValue(m[1..], env), P);
    }
  }

  lemma CapPowerValue(x: Power, atoms: set<Atom>, env: Env)
    requires BooleanOn(env, atoms)
    ensures PowerValue(CapPower(x, atoms), env) % P == PowerValue(x, env) % P
  {
    var m := TupleOf(x);
    CapCanon(m, atoms);
    CapMonoValue(m, atoms, env);
    MonoValueAbs(m, env);
    MonoValueAbs(Cap(m, atoms), env);
  }

  lemma TermCong(c: int, x: int, y: int, u: int, v: int)
    requires x % P == y % P && u % P == v % P
    ensures (c * x + u) % P == (c * y + v) % P
  {
    CongMul(c, c, x, y, P);
    CongAdd(c * x, c * y, u, v, P);
  }

  lemma {:induction false} CapSumValue(s: Sum, atoms: set<Atom>, env: Env)
    requires BooleanOn(env, atoms)
    ensures Value(CapSum(s, atoms), env) % P == Value(s, env) % P
  {
    hide CapPower, PowerValue, BooleanOn;
    if s == [] {
    } else {
      CapSumValue(s[1..], atoms, env);
      CapPowerValue(s[0].power, atoms, env);
      assert CapSum(s, atoms)[1..] == CapSum(s[1..], atoms);
      TermCong(s[0].coeff, PowerValue(CapPower(s[0].power, atoms), env), PowerValue(s[0].power, env),
               Value(CapSum(s[1..], atoms), env), Value(s[1..], env));
    }
  }

  /** The reduction keeps every value at assignments that are 0/1 on the listed atoms. */
  lemma ReducedValue(p: Poly, atoms: set<Atom>, env: Env)
    requires BooleanOn(env, atoms)
    ensures PolyValue(Reduced(p, atoms), env) == PolyValue(p, env)
  {
    var s := CapSum(Terms(p.terms), atoms);
    LinCong(Terms(NormalForm(s).terms), s, ValueAt(env));
    CapSumValue(Terms(p.terms), atoms, env);
  }

  lemma CappedOnce(x: Power, atoms: set<Atom>, a: Atom)
    requires a in atoms
    ensures CapPower(x, atoms)[a] <= 1
  {
    var c := Cap(TupleOf(x), atoms);
    CapCanon(TupleOf(x), atoms);
    CanonDistinct(c);
    if i :| 0 <= i < |c| && c[i].atom == a { AbsAt(c, i); } else { AbsAbsent(c, a); }
  }

  lemma {:induction false} CoeffOnlyCapped(s: Sum, atoms: set<Atom>, x: Power, a: Atom)
    requires a in atoms && x[a] >= 2
    ensures Coeff(CapSum(s, atoms), x) == 0
  {
    if s == [] {
    } else {
      CoeffOnlyCapped(s[1..], atoms, x, a);
      assert CapSum(s, atoms)[1..] == CapSum(s[1..], atoms);
      CappedOnce(s[0].power, atoms, a);
    }
  }

  /** After the reduction no listed atom is left with a higher power. */
  lemma ReducedIsSquareFree(p: Poly, atoms: set<Atom>, m: Mono, i: nat)
    requires m in Reduced(p, atoms).terms && i < |m| && m[i].atom in atoms
    ensures m[i].exp == 1
  {
    var s := CapSum(Terms(p.terms), atoms);
    var d := NormalForm(s).terms;
    CanonDistinct(m);
    AbsAt(m, i);
    CoeffLookup(d, m);
    if m[i].exp >= 2 {
      CoeffOnlyCapped(Terms(p.terms), atoms, Abs(m), m[i].atom);
      assert Coeff(Terms(d), Abs(m)) % P == Coeff(s, Abs(m)) % P;
      NonZeroEntry(NormalForm(s), m);
      assert false;
    }
  }

  // ----- the cofactor family

  datatype Cofactor = Unit | Times(a: Atom) | Complement(a: Atom)

  function CofactorExpr(c: Cofactor): Expr {
    match c
    case Unit => Expr.Const(1)
    case Times(a) => Expr.Var(a)
    case Complement(a) => Expr.Sub(Expr.Const(1), Expr.Var(a))
  }

  /** `_cofactor_family`: 1, then each shared atom and its complement. */
  function Family(shared: seq<Atom>): (f: seq<Cofactor>)
    ensures forall c :: c in f <==> c.Unit? || c.a in shared
  {
    if shared == [] then [Unit] else
      var f := Family(shared[..|shared| - 1]);
      var a := shared[|shared| - 1];
      assert shared == shared[..|shared| - 1] + [a];
      f + [Cofactor.Times(a), Complement(a)]
  }

  ghost function Product(c: Cofactor, right: Poly): Poly {
    NormalForm(FormalSums.Times(Terms(PolyOf(CofactorExpr(c)).terms), Terms(right.terms)))
  }

  /** The equation one round of the search tests: left = s * c * right after reduction. */
  ghost predicate Matches(left: Poly, right: Poly, boolean: set<Atom>, c: Cofactor, s: int) {
    Multiple(Reduced(left, boolean), Reduced(Product(c, right), boolean), s)
  }

  ghost predicate Matchable(left: Poly, right: Poly, boolean: set<Atom>, c: Cofactor) {
    && Reduced(left, boolean).terms != map[]
    && Reduced(Product(c, right), boolean).terms != map[]
    && exists s :: Matches(left, right, boolean, c, s)
  }

  datatype Implication = Implication(index: nat, cofactor: Cofactor, scalar: int, boolean: set<Atom>)

  /** The conditional licence: the fixed lanes either side mentions, and no other atom. */
  ghost predicate FixedLanes(left: Poly, right: Poly, boolean: set<Atom>) {
    forall a :: a in boolean <==> a.Pre? && (a in AtomsOf(left) || a in AtomsOf(right))
  }

  ghost predicate Licence(left: Poly, right: Poly, boolean: set<Atom>) {
    boolean == {} || FixedLanes(left, right, boolean)
  }

  function FixedAtoms(left: Poly, right: Poly): (r: set<Atom>)
    ensures forall boolean :: Licence(left, right, boolean) <==> boolean == {} || boolean == r
  {
    var r := set a | a in AtomsOf(left) + AtomsOf(right) && a.Pre?;
    assert FixedLanes(left, right, r);
    assert forall boolean :: FixedLanes(left, right, boolean) ==> boolean == r;
    r
  }

  ghost predicate InFamily(left: Poly, right: Poly, c: Cofactor) {
    c.Unit? || (c.a in AtomsOf(left) && c.a in AtomsOf(right))
  }

  /** Nothing in the family, under either licence, explains left by right. */
  ghost predicate Unexplained(left: Poly, right: Poly) {
    right.terms != map[] ==>
      forall c, boolean :: InFamily(left, right, c) && Licence(left, right, boolean) ==>
        !Matchable(left, right, boolean, c)
  }

  ghost predicate Explains(left: Poly, right: Poly, boolean: set<Atom>, c: Cofactor, s: int) {
    && InFamily(left, right, c)
    && Licence(left, right, boolean)
    && 0 < s < P
    && Matches(left, right, boolean, c, s)
  }

  /** The order of the family: 1, then by atom, each before its complement. */
  predicate Before(c: Cofactor, d: Cofactor) {
    || (c.Unit? && !d.Unit?)
    || (!c.Unit? && !d.Unit? && (AtomLess(c.a, d.a) || (c.a == d.a && c.Times? && d.Complement?)))
  }

  /** The conditional licence is reported only where no cofactor does without it, and a
      cofactor only where none before it does. */
  ghost predicate Preferred(left: Poly, right: Poly, boolean: set<Atom>, c: Cofactor) {
    && (boolean != {} ==> forall d :: InFamily(left, right, d) ==> !Matchable(left, right, {}, d))
    && forall d :: InFamily(left, right, d) && Before(d, c) ==> !Matchable(left, right, boolean, d)
  }

  ghost predicate Ascending(shared: seq<Atom>) {
    forall i, j :: 0 <= i < j < |shared| ==> AtomLess(shared[i], shared[j])
  }

  ghost predicate InOrder(family: seq<Cofactor>) {
    forall i, j :: 0 <= i < j < |family| ==> Before(family[i], family[j])
  }

  lemma {:induction false} FamilyInOrder(shared: seq<Atom>)
    requires Ascending(shared)
    ensures InOrder(Family(shared))
  {
    if shared == [] {
    } else {
      var n := |shared| - 1;
      var f := Family(shared[..n]);
      FamilyInOrder(shared[..n]);
      forall i | 0 <= i < |f| && !f[i].Unit? ensures AtomLess(f[i].a, shared[n]) {
        assert f[i] in f;
      }
    }
  }

  lemma BeforeStrict(c: Cofactor, d: Cofactor)
    requires Before(c, d)
    ensures !Before(d, c) && c != d
  {
    AtomLessStrictTotal();
  }

  lemma TwiceListed(r: seq<Atom>, i: nat, j: nat)
    requires i < j < |r|
    ensures r[i] == r[j] ==> multiset(r)[r[i]] >= 2
  {
    assert r == r[..j] + r[j..];
    assert r[i] in r[..j] && r[j] in r[j..];
  }

  lemma SortedIsAscending(r: seq<Atom>, atoms: set<Atom>)
    requires Sorted(AtomLess, r) && multiset(r) == multiset(atoms)
    ensures Ascending(r)
  {
    AtomLessStrictTotal();
    forall i, j | 0 <= i < j < |r| ensures AtomLess(r[i], r[j]) {
      TwiceListed(r, i, j);
    }
  }

  method SortedAtoms(atoms: set<Atom>) returns (r: seq<Atom>)
    ensures forall a :: a in r <==> a in atoms
    ensures Ascending(r)
  {
    var items: seq<Atom> := [];
    var rest := atoms;
    while rest != {}
      invariant rest <= atoms
      invariant multiset(items) == multiset(atoms - rest)
    {
      var a :| a in rest;
      assert atoms - (rest - {a}) == (atoms - rest) + {a};
      items := items + [a];
      rest := rest - {a};
    }
    r := Sort(AtomLess, items);
    AtomLessStrictTotal();
    SortSorted(AtomLess, items);
    SortedIsAscending(r, atoms);
    forall a ensures a in r <==> a in atoms {
      assert a in multiset(r) <==> a in multiset(atoms);
    }
  }

  /** One cofactor, multiplied out and compared up to a scalar. */
  method TestCofactor(target: Poly, right: Poly, boolean: set<Atom>, c: Cofactor, ghost left: Poly)
    returns (r: Option<int>)
    requires WellFormed(left) && WellFormed(right) && WellFormed(target) && target == Reduced(left, boolean)
    ensures r.None? ==> !Matchable(left, right, boolean, c)
    ensures r.Some? ==> 0 < r.value < P && Matches(left, right, boolean, c, r.value)
  {
    var cofactor := ToPoly(CofactorExpr(c));
    var product := Multiply(cofactor, right);
    NormalFormDetermines(product, FormalSums.Times(Terms(cofactor.terms), Terms(right.terms)));
    var reduced := SquareFree(product, boolean);
    r := ScalarFactor(target, reduced);
  }

  lemma EarlierInOrder(family: seq<Cofactor>, i: nat)
    requires InOrder(family) && i < |family|
    ensures forall d :: d in family && Before(d, family[i]) ==> d in family[..i]
  {
    forall d | d in family && Before(d, family[i]) ensures d in family[..i] {
      var k :| 0 <= k < |family| && family[k] == d;
      BeforeStrict(d, family[i]);
    }
  }

  /** The innermost loop: the family under one licence. */
  method SearchFamily(left: Poly, right: Poly, boolean: set<Atom>, family: seq<Cofactor>)
    returns (r: Option<(Cofactor, int)>)
    requires WellFormed(left) && WellFormed(right) && InOrder(family)
    ensures r.None? ==> forall c :: c in family ==> !Matchable(left, right, boolean, c)
    ensures r.Some? ==> r.value.0 in family && 0 < r.value.1 < P && Matches(left, right, boolean, r.value.0, r.value.1)
    ensures r.Some? ==> forall d :: d in family && Before(d, r.value.0) ==> !Matchable(left, right, boolean, d)
  {
    hide *;
    var target := SquareFree(left, boolean);
    for i := 0 to |family|
      invariant forall k :: 0 <= k < i ==> !Matchable(left, right, boolean, family[k])
    {
      var scalar := TestCofactor(target, right, boolean, family[i], left);
      if scalar.Some? {
        EarlierInOrder(family, i);
        return Some((family[i], scalar.value));
      }
    }
    r := None;
  }

  /** Both licences for one generated constraint: as polynomials, then with x*x = x on the
      pair's fixed lanes. */
  method SearchPair(left: Poly, right: Poly) returns (r: Option<(Cofactor, int, set<Atom>)>)
    requires WellFormed(left) && WellFormed(right)
    ensures r.None? ==> Unexplained(left, right)
    ensures r.Some? ==> Explains(left, right, r.value.2, r.value.0, r.value.1)
    ensures r.Some? ==> Preferred(left, right, r.value.2, r.value.0)
  {
    var fixed := FixedAtoms(left, right);
    var shared := SortedAtoms(AtomsOf(left) * AtomsOf(right));
    var family := Family(shared);
    FamilyInOrder(shared);
    var first := SearchFamily(left, right, {}, family);
    if first.Some? { return Some((first.value.0, first.value.1, {})); }
    if fixed == {} { return None; }
    var second := SearchFamily(left, right, fixed, family);
    if second.Some? { return Some((second.value.0, second.value.1, fixed)); }
    r := None;
  }

  /** One generated constraint; a zero polynomial explains nothing and is skipped. */
  method SearchEntry(left: Poly, gen: Expr) returns (r: Option<(Cofactor, int, set<Atom>)>)
    requires WellFormed(left)
    ensures r.None? ==> Unexplained(left, PolyOf(gen))
    ensures r.Some? ==> Explains(left, PolyOf(gen), r.value.2, r.value.0, r.value.1)
    ensures r.Some? ==> Preferred(left, PolyOf(gen), r.value.2, r.value.0)
  {
    var right := ToPoly(gen);
    if right.terms == map[] { return None; }
    r := SearchPair(left, right);
  }

  ghost predicate NoneExplains(clause: Expr, generated: seq<Expr>, n: nat) {
    n <= |generated| && forall k :: 0 <= k < n ==> Unexplained(PolyOf(clause), PolyOf(generated[k]))
  }

  lemma NoneExplainsNext(clause: Expr, generated: seq<Expr>, k: nat)
    requires k < |generated| && NoneExplains(clause, generated, k)
    requires Unexplained(PolyOf(clause), PolyOf(generated[k]))
    ensures NoneExplains(clause, generated, k + 1)
  {
    hide Unexplained;
  }

  ghost predicate IsImplication(clause: Expr, generated: seq<Expr>, i: Implication) {
    && i.index < |generated|
    && Explains(PolyOf(clause), PolyOf(generated[i.index]), i.boolean, i.cofactor, i.scalar)
    && Preferred(PolyOf(clause), PolyOf(generated[i.index]), i.boolean, i.cofactor)
  }

  /** `_implied_by`: the first generated constraint of which the clause is a multiple. */
  method ImpliedBy(clause: Expr, generated: seq<Expr>) returns (r: Option<Implication>)
    ensures r.Some? ==> IsImplication(clause, generated, r.value) && NoneExplains(clause, generated, r.value.index)
    ensures r.None? ==> PolyOf(clause).terms == map[] || NoneExplains(clause, generated, |generated|)
  {
    hide Unexplained, Explains, Preferred, PolyOf, WellFormed;
    var left := ToPoly(clause);
    if left.terms == map[] { return None; }
    for k := 0 to |generated|
      invariant NoneExplains(clause, generated, k)
    {
      var found := SearchEntry(left, generated[k]);
      if found.Some? {
        return Some(Implication(k, found.value.0, found.value.1, found.value.2));
      }
      NoneExplainsNext(clause, generated, k);
    }
    r := None;
  }

  // ----- what an implication means

  lemma MultipleValue(left: Poly, right: Poly, s: int, env: Env)
    requires Multiple(left, right, s)
    ensures PolyValue(left, env) == (s * Value(Terms(right.terms), env)) % P
  {
    LinCong(Terms(left.terms), Scale(s, Terms(right.terms)), ValueAt(env));
    LinScale(s, Terms(right.terms), ValueAt(env));
  }

  lemma ProductValue(c: Cofactor, gen: Expr, env: Env)
    ensures PolyValue(Product(c, PolyOf(gen)), env) == (ExprValue(CofactorExpr(c), env) * ExprValue(gen, env)) % P
  {
    var q, g := PolyOf(CofactorExpr(c)), PolyOf(gen);
    var s := FormalSums.Times(Terms(q.terms), Terms(g.terms));
    LinCong(Terms(NormalForm(s).terms), s, ValueAt(env));
    ValueTimes(Terms(q.terms), Terms(g.terms), env);
    FoldKeepsValue(CofactorExpr(c), env);
    FoldKeepsValue(gen, env);
    CongMul(Value(Terms(q.terms), env), ExprValue(CofactorExpr(c), env), Value(Terms(g.terms), env),
        ExprValue(gen, env), P);
  }

  /** A match, read at an assignment. */
  lemma MatchValue(clause: Expr, gen: Expr, boolean: set<Atom>, c: Cofactor, s: int, env: Env)
    requires Matches(PolyOf(clause), PolyOf(gen), boolean, c, s) && BooleanOn(env, boolean)
    ensures ExprValue(clause, env) % P == (s * (ExprValue(CofactorExpr(c), env) * ExprValue(gen, env))) % P
  {
    var left, right := PolyOf(clause), Product(c, PolyOf(gen));
    FoldKeepsValue(clause, env);
    ReducedValue(left, boolean, env);
    ReducedValue(right, boolean, env);
    MultipleValue(Reduced(left, boolean), Reduced(right, boolean), s, env);
    ProductValue(c, gen, env);
    var v, w := Value(Terms(Reduced(right, boolean).terms), env), ExprValue(CofactorExpr(c), env) * ExprValue(gen, env);
    CongMul(s, s, v, w, P);
  }

  /** At every assignment giving the licensed atoms 0/1 values the clause equals scalar
      times cofactor times constraint, so the constraint forces it. */
  lemma ImplicationSound(clause: Expr, gen: Expr, boolean: set<Atom>, c: Cofactor, s: int, env: Env)
    requires Explains(PolyOf(clause), PolyOf(gen), boolean, c, s) && BooleanOn(env, boolean)
    ensures ExprValue(clause, env) % P == (s * (ExprValue(CofactorExpr(c), env) * ExprValue(gen, env))) % P
    ensures ExprValue(gen, env) % P == 0 ==> ExprValue(clause, env) % P == 0
  {
    hide Matches, CofactorExpr;
    MatchValue(clause, gen, boolean, c, s, env);
    if ExprValue(gen, env) % P == 0 {
      ZeroTimes(ExprValue(CofactorExpr(c), env), ExprValue(gen, env));
      ZeroTimes(s, ExprValue(CofactorExpr(c), env) * ExprValue(gen, env));
    }
  }
}
