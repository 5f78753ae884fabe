/** What the search for implications finds and what it misses: it tries only the atoms that
    both polynomials mention, and a match with an atom of the clause alone goes unseen. */
module Cofactors {
  import opened Atoms
  import opened Monomials
  import opened Goldilocks
  import opened FormalSums
  import opened Polynomials
  import opened Expressions
  import opened Evaluation
  import opened Factoring
  import opened Implications

  // ----- the reduction, one exponent at a time

  lemma CapPowerAt(x: Power, atoms: set<Atom>, b: Atom)
    ensures CapPower(x, atoms)[b] == if b in atoms && x[b] > 0 then 1 else x[b]
  {
    var m := TupleOf(x);
    var c := Cap(m, atoms);
    CapCanon(m, atoms);
    CanonDistinct(m);
    CanonDistinct(c);
    if i :| 0 <= i < |m| && m[i].atom == b {
      AbsAt(m, i);
      AbsAt(c, i);
    } else {
      AbsAbsent(m, b);
      AbsAbsent(c, b);
    }
  }

  lemma CapPowerOneMore(x: Power, atoms: set<Atom>, a: Atom)
    ensures CapPower(x + multiset{a}, atoms)[a] > 0
    ensures CapPower(x + multiset{a}, atoms)[a := 0] == CapPower(x, atoms)[a := 0]
  {
    hide CapPower;
    var y := x + multiset{a};
    CapPowerAt(y, atoms, a);
    var u, v := CapPower(y, atoms)[a := 0], CapPower(x, atoms)[a := 0];
    forall b ensures u[b] == v[b] {
      CapPowerAt(y, atoms, b);
      CapPowerAt(x, atoms, b);
    }
  }

  // ----- substituting 0 or 1 for one atom

  /** The coefficient of m after the atom has been replaced by 1, or by 0. */
  ghost function Substituted(a: Atom, m: Power, one: bool): Power -> int {
    x => if x[a := 0] == m && (one || x[a] == 0) then 1 else 0
  }

  /** The same, read through the reduction. */
  ghost function ThroughCap(a: Atom, m: Power, one: bool, atoms: set<Atom>): Power -> int {
    x => Substituted(a, m, one)(CapPower(x, atoms))
  }

  lemma {:induction false} LinCapSum(s: Sum, a: Atom, m: Power, one: bool, atoms: set<Atom>)
    ensures Lin(CapSum(s, atoms), Substituted(a, m, one)) == Lin(s, ThroughCap(a, m, one, atoms))
  {
    if s == [] {
    } else {
      LinCapSum(s[1..], a, m, one, atoms);
      assert CapSum(s, atoms)[1..] == CapSum(s[1..], atoms);
    }
  }

  lemma ThroughCapAt(x: Power, a: Atom, m: Power, one: bool, atoms: set<Atom>)
    ensures var y := CapPower(x, atoms);
            ThroughCap(a, m, one, atoms)(x) == if y[a := 0] == m && (one || y[a] == 0) then 1 else 0
  {
    var y := CapPower(x, atoms);
    assert Substituted(a, m, one)(y) == if y[a := 0] == m && (one || y[a] == 0) then 1 else 0;
  }

  lemma OneMore(x: Power, a: Atom, m: Power, one: bool, atoms: set<Atom>)
    ensures var g := ThroughCap(a, m, one, atoms); g(multiset{a} + x) == if one then g(x) else 0
  {
    hide CapPower;
    var y := multiset{a} + x;
    assert y == x + multiset{a};
    CapPowerOneMore(x, atoms, a);
    ThroughCapAt(y, a, m, one, atoms);
    ThroughCapAt(x, a, m, one, atoms);
  }

  /** The cofactor as a formal sum. */
  function CofactorSum(c: Cofactor): Sum {
    match c
    case Unit => [Term(multiset{}, 1)]
    case Times(a) => [Term(multiset{a}, 1)]
    case Complement(a) => [Term(multiset{}, 1), Term(multiset{a}, -1)]
  }

  lemma CofactorSumIs(c: Cofactor)
    ensures SumOf(CofactorExpr(c)) == CofactorSum(c)
  {
    match c {
      case Unit =>
      case Times(a) =>
      case Complement(a) =>
        var t := [Term(multiset{a}, 1)];
        assert t[1..] == [];
        assert Scale(-1, t) == [Term(multiset{a}, -1)];
    }
  }

  lemma {:induction false} AtomVanishes(s: Sum, a: Atom, m: Power, atoms: set<Atom>)
    ensures Lin(Shift(Term(multiset{a}, 1), s), ThroughCap(a, m, false, atoms)) == 0
  {
    hide ThroughCap;
    if s == [] {
    } else {
      AtomVanishes(s[1..], a, m, atoms);
      OneMore(s[0].power, a, m, false, atoms);
    }
  }

  lemma {:induction false} ComplementVanishes(s: Sum, a: Atom, m: Power, atoms: set<Atom>)
    ensures var g := ThroughCap(a, m, true, atoms);
            Lin(Shift(Term(multiset{}, 1), s), g) + Lin(Shift(Term(multiset{a}, -1), s), g) == 0
  {
    hide ThroughCap;
    if s == [] {
    } else {
      ComplementVanishes(s[1..], a, m, atoms);
      OneMore(s[0].power, a, m, true, atoms);
      assert multiset{} + s[0].power == s[0].power;
    }
  }

  /** A one-atom cofactor times anything is zero where the cofactor is. */
  lemma CofactorVanishes(c: Cofactor, s: Sum, m: Power, atoms: set<Atom>)
    requires !c.Unit?
    ensures Lin(FormalSums.Times(CofactorSum(c), s), ThroughCap(c.a, m, c.Complement?, atoms)) == 0
  {
    hide Shift, ThroughCap;
    var t, g := CofactorSum(c), ThroughCap(c.a, m, c.Complement?, atoms);
    assert t[|t| - 1..][1..] == [];
    if c.Times? {
      assert t[1..] == [];
      assert FormalSums.Times(t, s) == Shift(t[0], s) + [];
      assert Shift(t[0], s) + [] == Shift(t[0], s);
      AtomVanishes(s, c.a, m, atoms);
    } else {
      assert t[1..] == [t[1]] && t[1..][1..] == [];
      assert FormalSums.Times(t[1..], s) == Shift(t[1], s) + [];
      assert Shift(t[1], s) + [] == Shift(t[1], s);
      assert FormalSums.Times(t, s) == Shift(t[0], s) + Shift(t[1], s);
      LinAppend(Shift(t[0], s), Shift(t[1], s), g);
      ComplementVanishes(s, c.a, m, atoms);
    }
  }

  lemma ReducedCong(p: Poly, atoms: set<Atom>, g: Power -> int)
    ensures Lin(Terms(Reduced(p, atoms).terms), g) % P == Lin(CapSum(Terms(p.terms), atoms), g) % P
  {
    LinCong(Terms(Reduced(p, atoms).terms), CapSum(Terms(p.terms), atoms), g);
  }

  lemma ProductCong(c: Cofactor, right: Poly, g: Power -> int)
    ensures Lin(Terms(Product(c, right).terms), g) % P
         == Lin(FormalSums.Times(Terms(PolyOf(CofactorExpr(c)).terms), Terms(right.terms)), g) % P
  {
    var s := FormalSums.Times(Terms(PolyOf(CofactorExpr(c)).terms), Terms(right.terms));
    LinCong(Terms(NormalForm(s).terms), s, g);
  }

  lemma ProductVanishes(c: Cofactor, right: Poly, m: Power, atoms: set<Atom>)
    requires !c.Unit?
    ensures Lin(Terms(Reduced(Product(c, right), atoms).terms), Substituted(c.a, m, c.Complement?)) % P == 0
  {
    hide CapSum, Lin, Substituted, ThroughCap, CofactorSum, Terms, Product;
    var g, h := Substituted(c.a, m, c.Complement?), ThroughCap(c.a, m, c.Complement?, atoms);
    var q, r := Terms(PolyOf(CofactorExpr(c)).terms), Terms(right.terms);
    ReducedCong(Product(c, right), atoms, g);
    LinCapSum(Terms(Product(c, right).terms), c.a, m, c.Complement?, atoms);
    ProductCong(c, right, h);
    CofactorSumIs(c);
    EquivTimes(q, r, CofactorSum(c), r);
    LinCong(FormalSums.Times(q, r), FormalSums.Times(CofactorSum(c), r), h);
    CofactorVanishes(c, r, m, atoms);
  }

  // ----- a polynomial without the atom

  ghost predicate Lacks(s: Sum, a: Atom) {
    forall i :: 0 <= i < |s| ==> s[i].power[a] == 0
  }

  lemma TermsLack(p: Poly, a: Atom)
    requires WellFormed(p) && a !in AtomsOf(p)
    ensures Lacks(Terms(p.terms), a)
  {
    hide Terms;
    forall i | 0 <= i < |Terms(p.terms)| ensures Terms(p.terms)[i].power[a] == 0 {
      var m := TermAt(p.terms, i);
      AtomsOfExact(p, a);
      AbsAbsent(m, a);
    }
  }

  lemma {:induction false} CapSumLacks(s: Sum, atoms: set<Atom>, a: Atom)
    requires Lacks(s, a)
    ensures Lacks(CapSum(s, atoms), a)
  {
    hide CapPower;
    if s == [] {
    } else {
      CapSumLacks(s[1..], atoms, a);
      CapPowerAt(s[0].power, atoms, a);
    }
  }

  lemma {:induction false} SubstitutedLacking(s: Sum, a: Atom, m: Power, one: bool)
    requires Lacks(s, a)
    ensures Coeff(s, m) == if m[a] == 0 then Lin(s, Substituted(a, m, one)) else 0
  {
    if s == [] {
    } else {
      SubstitutedLacking(s[1..], a, m, one);
      assert s[0].power[a := 0] == s[0].power;
    }
  }

  /** A polynomial all of whose coefficients vanish stores nothing. */
  lemma NoTerms(p: Poly)
    requires WellFormed(p) && forall m :: Coeff(Terms(p.terms), m) % P == 0
    ensures p.terms == map[]
  {
    if p.terms != map[] {
      var k :| k in p.terms;
      CoeffLookup(p.terms, k);
      NonZeroEntry(p, k);
    }
  }

  lemma ReducedCoeff(p: Poly, atoms: set<Atom>, m: Power)
    ensures Coeff(Terms(Reduced(p, atoms).terms), m) % P == Coeff(CapSum(Terms(p.terms), atoms), m) % P
  {
  }

  lemma LeftCoeff(left: Poly, right: Poly, atoms: set<Atom>, c: Cofactor, s: int, m: Power)
    requires WellFormed(left) && !c.Unit? && c.a !in AtomsOf(left) && Matches(left, right, atoms, c, s)
    ensures Coeff(Terms(Reduced(left, atoms).terms), m) % P == 0
  {
    hide CapSum, Lin, Coeff, Substituted, Terms, Product, Reduced, AtomsOf;
    var g := Substituted(c.a, m, c.Complement?);
    var t, l, r := CapSum(Terms(left.terms), atoms), Terms(Reduced(left, atoms).terms),
        Terms(Reduced(Product(c, right), atoms).terms);
    TermsLack(left, c.a);
    CapSumLacks(Terms(left.terms), atoms, c.a);
    SubstitutedLacking(t, c.a, m, c.Complement?);
    ReducedCoeff(left, atoms, m);
    ReducedCong(left, atoms, g);
    LinCong(l, Scale(s, r), g);
    LinScale(s, r, g);
    ProductVanishes(c, right, m, atoms);
    ZeroTimes(s, Lin(r, g));
  }

  lemma ReducedForm(p: Poly, atoms: set<Atom>)
    ensures WellFormed(Reduced(p, atoms))
  {
  }

  /** Under either licence, a one-atom cofactor that matches has its atom in the clause. */
  lemma CofactorAtomInClause(left: Poly, right: Poly, atoms: set<Atom>, c: Cofactor)
    requires WellFormed(left) && !c.Unit? && Matchable(left, right, atoms, c)
    ensures c.a in AtomsOf(left)
  {
    hide Matches, Coeff, Terms, Product, Reduced, AtomsOf;
    var s :| Matches(left, right, atoms, c, s);
    if c.a !in AtomsOf(left) {
      forall m ensures Coeff(Terms(Reduced(left, atoms).terms), m) % P == 0 { LeftCoeff(left, right, atoms, c, s, m); }
      ReducedForm(left, atoms);
      NoTerms(Reduced(left, atoms));
    }
  }

  /** The family as it is documented: an atom of either side. */
  ghost predicate InDocumentedFamily(left: Poly, right: Poly, c: Cofactor) {
    c.Unit? || c.a in AtomsOf(left) || c.a in AtomsOf(right)
  }

  /** A match with the documented family is tried exactly when its atom occurs in the
      constraint. */
  lemma TriedIff(left: Poly, right: Poly, atoms: set<Atom>, c: Cofactor)
    requires WellFormed(left) && InDocumentedFamily(left, right, c) && Matchable(left, right, atoms, c)
    ensures InFamily(left, right, c) <==> c.Unit? || c.a in AtomsOf(right)
  {
    hide Matchable, AtomsOf;
    if !c.Unit? { CofactorAtomInClause(left, right, atoms, c); }
  }

  // ----- an explanation that is missed

  lemma OnlyAtom(y: Atom, b: Atom)
    requires b in AtomsOf(PolyOf(Var(y)))
    ensures b == y
  {
    var p := PolyOf(Var(y));
    AtomsOfExact(p, b);
    var m: Mono :| m in p.terms && Mentions(m, b);
    var i :| 0 <= i < |m| && m[i].atom == b;
    CanonDistinct(m);
    AbsAt(m, i);
    CoeffLookup(p.terms, m);
    NonZeroEntry(p, m);
    assert Coeff(Terms(p.terms), Abs(m)) % P == Coeff(SumOf(Var(y)), Abs(m)) % P;
    assert SumOf(Var(y))[1..] == [];
    assert Coeff(SumOf(Var(y)), Abs(m)) == if Abs(m) == multiset{y} then 1 else 0;
    Modular.ModUnique(0, P, 0, 0);
    assert multiset{y}[b] > 0;
  }

  /** Both atoms 1, or the first one 0: what tells a*y from every multiple of y. */
  function Corner(a: Atom, v: int): Env {
    x => if x == a then v else 1
  }

  lemma CornerIsBoolean(a: Atom, v: int, atoms: set<Atom>)
    requires v == 0 || v == 1
    ensures BooleanOn(Corner(a, v), atoms)
  {
    Modular.ModUnique(0, P, 0, 0);
    Modular.ModUnique(1, P, 0, 1);
  }

  lemma CofactorValue(c: Cofactor, env: Env)
    ensures ExprValue(CofactorExpr(c), env) == if c.Unit? then 1 else if c.Times? then env(c.a) else 1 - env(c.a)
  {
  }

  lemma PairValue(a: Atom, y: Atom, env: Env)
    ensures ExprValue(Mul(Var(a), Var(y)), env) == env(a) * env(y)
    ensures ExprValue(Var(y), env) == env(y)
  {
  }

  /** At either corner the cofactor times y is the same. */
  lemma CornerValues(a: Atom, y: Atom, c: Cofactor, v: int)
    requires a != y && (c.Unit? || c.a == y)
    ensures ExprValue(Mul(Var(a), Var(y)), Corner(a, v)) == v
    ensures ExprValue(CofactorExpr(c), Corner(a, v)) == if c.Complement? then 0 else 1
    ensures ExprValue(Var(y), Corner(a, v)) == 1
  {
    hide ExprValue, CofactorExpr;
    CofactorValue(c, Corner(a, v));
    PairValue(a, y, Corner(a, v));
  }

  lemma AtCorner(a: Atom, y: Atom, atoms: set<Atom>, c: Cofactor, s: int, v: int)
    requires a != y && (c.Unit? || c.a == y) && (v == 0 || v == 1)
    requires Matches(PolyOf(Mul(Var(a), Var(y))), PolyOf(Var(y)), atoms, c, s)
    ensures v % P == (s * if c.Complement? then 0 else 1) % P
  {
    hide *;
    CornerIsBoolean(a, v, atoms);
    CornerValues(a, y, c, v);
    MatchValue(Mul(Var(a), Var(y)), Var(y), atoms, c, s, Corner(a, v));
  }

  lemma NoMultiple(a: Atom, y: Atom, atoms: set<Atom>, c: Cofactor, s: int)
    requires a != y && (c.Unit? || c.a == y)
    ensures !Matches(PolyOf(Mul(Var(a), Var(y))), PolyOf(Var(y)), atoms, c, s)
  {
    hide Matches, PolyOf;
    Modular.ModUnique(0, P, 0, 0);
    Modular.ModUnique(1, P, 0, 1);
    if Matches(PolyOf(Mul(Var(a), Var(y))), PolyOf(Var(y)), atoms, c, s) {
      AtCorner(a, y, atoms, c, s, 0);
      AtCorner(a, y, atoms, c, s, 1);
    }
  }

  lemma SumOfProduct(x: Expr, y: Expr)
    ensures SumOf(Mul(x, y)) == FormalSums.Times(SumOf(x), SumOf(y))
  {
    hide FormalSums.Times;
  }

  /** Multiplying the polynomials out is folding the product. */
  lemma ProductIsFold(c: Cofactor, y: Expr)
    ensures Product(c, PolyOf(y)) == PolyOf(Mul(CofactorExpr(c), y))
  {
    hide Terms, FormalSums.Times, SumOf, CofactorExpr, Equiv;
    var q, r := Terms(PolyOf(CofactorExpr(c)).terms), Terms(PolyOf(y).terms);
    EquivTimes(q, r, SumOf(CofactorExpr(c)), SumOf(y));
    SumOfProduct(CofactorExpr(c), y);
    NormalFormIff(FormalSums.Times(q, r), SumOf(Mul(CofactorExpr(c), y)));
  }

  lemma OneMultiple(p: Poly)
    ensures Multiple(p, p, 1)
  {
    forall m ensures Coeff(Scale(1, Terms(p.terms)), m) == Coeff(Terms(p.terms), m) {
      CoeffScale(1, Terms(p.terms), m);
    }
  }

  lemma TimesAtomMatches(a: Atom, y: Atom)
    ensures Product(Cofactor.Times(a), PolyOf(Var(y))) == PolyOf(Mul(Var(a), Var(y)))
    ensures Matches(PolyOf(Mul(Var(a), Var(y))), PolyOf(Var(y)), {}, Cofactor.Times(a), 1)
  {
    hide Product, PolyOf, Reduced, Multiple;
    assert CofactorExpr(Cofactor.Times(a)) == Var(a);
    ProductIsFold(Cofactor.Times(a), Var(y));
    OneMultiple(Reduced(PolyOf(Mul(Var(a), Var(y))), {}));
  }

  lemma ZeroValue(p: Poly, env: Env)
    ensures p.terms == map[] ==> PolyValue(p, env) == 0
  {
    Modular.ModUnique(0, P, 0, 0);
  }

  lemma ProductNotZero(a: Atom, y: Atom)
    ensures Reduced(PolyOf(Mul(Var(a), Var(y))), {}).terms != map[]
  {
    hide Reduced, PolyOf, Value;
    var e := Mul(Var(a), Var(y));
    var env: Env := x => 1;
    FoldKeepsValue(e, env);
    ReducedValue(PolyOf(e), {}, env);
    Modular.ModUnique(1, P, 0, 1);
    assert PolyValue(Reduced(PolyOf(e), {}), env) == 1;
    ZeroValue(Reduced(PolyOf(e), {}), env);
  }

  lemma OnlyEntry(a: Atom, y: Atom, i: Implication)
    requires IsImplication(Mul(Var(a), Var(y)), [Var(y)], i)
    ensures var left, right := PolyOf(Mul(Var(a), Var(y))), PolyOf(Var(y));
            InFamily(left, right, i.cofactor) && Matches(left, right, i.boolean, i.cofactor, i.scalar)
  {
    hide InFamily, Matches, PolyOf, Preferred;
  }

  lemma PolyForm(e: Expr)
    ensures WellFormed(PolyOf(e))
  {
  }

  /** The clause a*y is a times the constraint y, and no search finds it. */
  lemma MissedImplication(a: Atom, y: Atom)
    requires a != y
    ensures var left, right := PolyOf(Mul(Var(a), Var(y))), PolyOf(Var(y));
            && InDocumentedFamily(left, right, Cofactor.Times(a))
            && Matchable(left, right, {}, Cofactor.Times(a))
            && Unexplained(left, right)
    ensures forall i :: !IsImplication(Mul(Var(a), Var(y)), [Var(y)], i)
  {
    hide AtomsOf, PolyOf, Reduced, Product, Matches, WellFormed;
    var left, right := PolyOf(Mul(Var(a), Var(y))), PolyOf(Var(y));
    TimesAtomMatches(a, y);
    ProductNotZero(a, y);
    PolyForm(Mul(Var(a), Var(y)));
    CofactorAtomInClause(left, right, {}, Cofactor.Times(a));
    forall c, atoms, s | InFamily(left, right, c) ensures !Matches(left, right, atoms, c, s) {
      if !c.Unit? { OnlyAtom(y, c.a); }
      NoMultiple(a, y, atoms, c, s);
    }
    forall i ensures !IsImplication(Mul(Var(a), Var(y)), [Var(y)], i) {
      if IsImplication(Mul(Var(a), Var(y)), [Var(y)], i) { OnlyEntry(a, y, i); }
    }
  }
}
