/** When two expressions are equal as functions on GF(P): exactly when their polynomials
    agree after x^P has been replaced by x, and so, where no exponent reaches P, exactly when
    their canonical forms agree. */
module FunctionEquality {
  import opened Atoms
  import opened Monomials
  import opened Modular
  import opened Goldilocks
  import opened FormalSums
  import opened Polynomials
  import opened Expressions
  import opened Evaluation
  import opened RootBound

  // ----- one atom at a time

  /** The terms with a given power of one atom, that atom removed. */
  ghost function Slice(s: Sum, a: Atom, k: nat): Sum {
    if s == [] then []
    else (if s[0].power[a] == k then [Term(s[0].power[a := 0], s[0].coeff)] else []) + Slice(s[1..], a, k)
  }

  /** The sum as a polynomial in one atom: its coefficients under an assignment of the rest. */
  ghost function Columns(s: Sum, a: Atom, env: Env): (cs: seq<int>)
    ensures |cs| == P
  {
    seq(P, k requires 0 <= k < P => Value(Slice(s, a, k), env))
  }

  lemma {:induction false} PowerIgnores(x: Power, a: Atom, env: Env, v: int)
    requires x[a] == 0
    ensures PowerValue(x, Update(env, a, v)) == PowerValue(x, env)
    decreases |x|
  {
    if x == multiset{} {
    } else {
      var b :| b in x;
      PowerValueSplit(x, b, env);
      PowerValueSplit(x, b, Update(env, a, v));
      PowerIgnores(x - multiset{b}, a, env, v);
    }
  }

  lemma PowerValueAt(x: Power, a: Atom, env: Env)
    ensures PowerValue(x, env) == PowerValue(x[a := 0], env) * Pow(env(a), x[a])
  {
    assert x == x[a := 0] + multiset{}[a := x[a]];
    PowerValueAdd(x[a := 0], multiset{}[a := x[a]], env);
    RepeatedValue(a, x[a], env);
  }

  lemma PowerUpdated(x: Power, a: Atom, env: Env, v: int)
    ensures PowerValue(x, Update(env, a, v)) == PowerValue(x[a := 0], env) * Pow(v, x[a])
  {
    hide PowerValue;
    PowerValueAt(x, a, Update(env, a, v));
    PowerIgnores(x[a := 0], a, env, v);
  }

  lemma SliceHead(s: Sum, a: Atom, k: nat, env: Env)
    requires s != []
    ensures Value(Slice(s, a, k), env) == Value(Slice(s[1..], a, k), env)
              + (if s[0].power[a] == k then s[0].coeff * PowerValue(s[0].power[a := 0], env) else 0)
  {
    hide PowerValue;
    if s[0].power[a] == k {
      var t := Slice(s, a, k);
      assert t[1..] == Slice(s[1..], a, k);
    } else {
      assert Slice(s, a, k) == Slice(s[1..], a, k);
    }
  }

  lemma ColumnsHead(s: Sum, a: Atom, env: Env)
    requires s != [] && s[0].power[a] < P
    ensures var k, cs := s[0].power[a], Columns(s[1..], a, env);
            Columns(s, a, env) == cs[k := cs[k] + s[0].coeff * PowerValue(s[0].power[a := 0], env)]
  {
    hide Slice, Value, PowerValue;
    forall k: nat | k < P ensures Columns(s, a, env)[k] == Columns(s[1..], a, env)[k]
                                 + (if s[0].power[a] == k then s[0].coeff * PowerValue(s[0].power[a := 0], env) else 0)
    {
      SliceHead(s, a, k, env);
    }
  }

  /** No exponent reaches P. */
  ghost predicate Low(s: Sum) {
    forall i, b :: 0 <= i < |s| ==> s[i].power[b] < P
  }

  /** Every atom of the sum is listed. */
  ghost predicate Over(s: Sum, atoms: set<Atom>) {
    forall i, b :: 0 <= i < |s| && b in s[i].power ==> b in atoms
  }

  lemma LowTail(s: Sum)
    requires Low(s) && s != []
    ensures Low(s[1..]) && forall b :: s[0].power[b] < P
  {
  }

  lemma ColumnsEmpty(a: Atom, env: Env)
    ensures forall k :: 0 <= k < P ==> Columns([], a, env)[k] == 0
  {
  }

  lemma {:induction false} ValueByColumns(s: Sum, a: Atom, env: Env, v: int)
    requires Low(s)
    ensures Value(s, Update(env, a, v)) == Horner(Columns(s, a, env), v)
  {
    hide Columns, Horner, PowerValue, Slice;
    if s == [] {
      ColumnsEmpty(a, env);
      HornerZero(Columns(s, a, env), v);
    } else {
      var t := s[0];
      LowTail(s);
      ValueByColumns(s[1..], a, env, v);
      ColumnsHead(s, a, env);
      HornerPut(Columns(s[1..], a, env), t.power[a], t.coeff * PowerValue(t.power[a := 0], env), v);
      PowerUpdated(t.power, a, env, v);
      Regroup(t.coeff, PowerValue(t.power[a := 0], env), Pow(v, t.power[a]));
    }
  }

  // ----- slices keep what matters

  lemma SamePower(x: Power, y: Power, a: Atom)
    requires x[a] == y[a]
    ensures x[a := 0] == y[a := 0] <==> x == y
  {
    if x[a := 0] == y[a := 0] {
      forall b ensures x[b] == y[b] { assert x[a := 0][b] == y[a := 0][b]; }
    }
  }

  lemma {:induction false} CoeffSlice(s: Sum, a: Atom, m: Power)
    ensures Coeff(Slice(s, a, m[a]), m[a := 0]) == Coeff(s, m)
  {
    if s == [] {
    } else {
      CoeffSlice(s[1..], a, m);
      var t := Slice(s, a, m[a]);
      if s[0].power[a] == m[a] {
        assert t[1..] == Slice(s[1..], a, m[a]);
        SamePower(s[0].power, m, a);
      } else {
        assert t == Slice(s[1..], a, m[a]);
      }
    }
  }

  lemma {:induction false} SliceShape(s: Sum, a: Atom, k: nat, atoms: set<Atom>)
    requires Low(s) && Over(s, atoms)
    ensures Low(Slice(s, a, k)) && Over(Slice(s, a, k), atoms - {a})
  {
    if s == [] {
    } else {
      SliceShape(s[1..], a, k, atoms);
    }
  }

  lemma ColumnVanishes(s: Sum, a: Atom, k: nat, env: Env)
    requires Low(s) && k < P && forall e: Env :: Value(s, e) % P == 0
    ensures Value(Slice(s, a, k), env) % P == 0
  {
    hide Horner, Slice, Value, Low;
    var cs := Columns(s, a, env);
    forall v | 0 <= v < |cs| ensures Horner(cs, v) % P == 0 {
      ValueByColumns(s, a, env, v);
      assert Value(s, Update(env, a, v)) % P == 0;
    }
    TooManyRoots(cs);
    assert cs[k] % P == 0;
  }

  lemma {:induction false} CoeffTooHigh(s: Sum, a: Atom, m: Power)
    requires Low(s) && m[a] >= P
    ensures Coeff(s, m) == 0
  {
    if s == [] {
    } else {
      CoeffTooHigh(s[1..], a, m);
    }
  }

  lemma OverAt(s: Sum, atoms: set<Atom>, b: Atom)
    requires s != [] && Over(s, atoms)
    ensures b in s[0].power ==> b in atoms
  {
  }

  lemma EmptyPower(s: Sum)
    requires s != [] && Over(s, {})
    ensures s[0].power == multiset{} && Over(s[1..], {})
  {
    forall b ensures b !in s[0].power { OverAt(s, {}, b); }
  }

  lemma {:induction false} ConstantCoeff(s: Sum, m: Power, env: Env)
    requires Over(s, {})
    ensures Coeff(s, m) == if m == multiset{} then Value(s, env) else 0
  {
    if s == [] {
    } else {
      EmptyPower(s);
      assert PowerValue(multiset{}, env) == 1;
      ConstantCoeff(s[1..], m, env);
    }
  }

  lemma ConstantVanishes(s: Sum, m: Power)
    requires Over(s, {}) && forall env: Env :: Value(s, env) % P == 0
    ensures Coeff(s, m) % P == 0
  {
    ConstantCoeff(s, m, a => 0);
    assert Value(s, a => 0) % P == 0;
  }

  /** A low sum that is zero at every assignment has no coefficients modulo P. */
  lemma {:induction false} Vanishing(s: Sum, atoms: set<Atom>)
    requires Low(s) && Over(s, atoms) && forall env: Env :: Value(s, env) % P == 0
    ensures forall m :: Coeff(s, m) % P == 0
    decreases |atoms|
  {
    if atoms == {} {
      forall m ensures Coeff(s, m) % P == 0 { ConstantVanishes(s, m); }
    } else {
      var a :| a in atoms;
      forall k: nat, env: Env | k < P ensures Value(Slice(s, a, k), env) % P == 0 { ColumnVanishes(s, a, k, env); }
      forall m ensures Coeff(s, m) % P == 0 {
        CoeffSlice(s, a, m);
        if m[a] < P {
          SliceShape(s, a, m[a], atoms);
          Vanishing(Slice(s, a, m[a]), atoms - {a});
        } else {
          CoeffTooHigh(s, a, m);
        }
      }
    }
  }

  ghost function AtomsOfSum(s: Sum): (r: set<Atom>)
    ensures Over(s, r)
  {
    if s == [] then {} else (set b | b in s[0].power) + AtomsOfSum(s[1..])
  }

  // ----- low expressions

  /** No factor of the canonical form has an exponent of P or more. */
  ghost predicate LowDegree(e: Expr) {
    forall m: Mono, i: int :: m in PolyOf(e).terms && 0 <= i < |m| ==> m[i].exp < P
  }

  lemma LowMono(m: Mono, b: Atom)
    requires Canon(m) && forall i :: 0 <= i < |m| ==> m[i].exp < P
    ensures Abs(m)[b] < P
  {
    CanonDistinct(m);
    if i :| 0 <= i < |m| && m[i].atom == b { AbsAt(m, i); } else { AbsAbsent(m, b); }
  }

  lemma LowPoly(p: Poly)
    requires WellFormed(p) && forall m: Mono, i: int :: m in p.terms && 0 <= i < |m| ==> m[i].exp < P
    ensures Low(Terms(p.terms))
  {
    forall i, b | 0 <= i < |Terms(p.terms)| ensures Terms(p.terms)[i].power[b] < P {
      var m := TermAt(p.terms, i);
      LowMono(m, b);
    }
  }

  ghost predicate SameFunction(x: Expr, y: Expr) {
    forall env: Env :: ExprValue(x, env) % P == ExprValue(y, env) % P
  }

  ghost function Difference(p: Poly, q: Poly): Sum {
    Terms(p.terms) + Scale(-1, Terms(q.terms))
  }

  lemma {:induction false} LowScale(c: int, s: Sum)
    requires Low(s)
    ensures Low(Scale(c, s))
  {
    if s == [] {
    } else {
      LowTail(s);
      LowScale(c, s[1..]);
      assert Scale(c, s)[1..] == Scale(c, s[1..]);
      forall i, b | 0 <= i < |s| ensures Scale(c, s)[i].power[b] < P {
        if i == 0 {
        } else {
          assert Scale(c, s)[i] == Scale(c, s[1..])[i - 1];
        }
      }
    }
  }

  lemma DifferenceValue(p: Poly, q: Poly, env: Env)
    ensures Value(Difference(p, q), env) % P == 0 <==> PolyValue(p, env) == PolyValue(q, env)
  {
    LinAppend(Terms(p.terms), Scale(-1, Terms(q.terms)), ValueAt(env));
    LinScale(-1, Terms(q.terms), ValueAt(env));
    CongDifference(Value(Terms(p.terms), env), Value(Terms(q.terms), env), P);
  }

  lemma DifferenceCoeff(p: Poly, q: Poly, m: Power)
    ensures Coeff(Difference(p, q), m) % P == 0 <==> Coeff(Terms(p.terms), m) % P == Coeff(Terms(q.terms), m) % P
  {
    CoeffAppend(Terms(p.terms), Scale(-1, Terms(q.terms)), m);
    CoeffScale(-1, Terms(q.terms), m);
    CongDifference(Coeff(Terms(p.terms), m), Coeff(Terms(q.terms), m), P);
  }

  lemma LowAppend(s: Sum, t: Sum)
    requires Low(s) && Low(t)
    ensures Low(s + t)
  {
  }

  /** Two low polynomials with one value at every assignment are one polynomial. */
  lemma SameValuesSamePoly(p: Poly, q: Poly)
    requires WellFormed(p) && WellFormed(q) && Low(Terms(p.terms)) && Low(Terms(q.terms))
    requires forall env: Env :: PolyValue(p, env) == PolyValue(q, env)
    ensures p == q
  {
    hide Low, Value, Coeff, PolyValue, Terms;
    var s := Difference(p, q);
    LowScale(-1, Terms(q.terms));
    LowAppend(Terms(p.terms), Scale(-1, Terms(q.terms)));
    forall env: Env ensures Value(s, env) % P == 0 {
      assert PolyValue(p, env) == PolyValue(q, env);
      DifferenceValue(p, q, env);
    }
    Vanishing(s, AtomsOfSum(s));
    forall m ensures Coeff(Terms(p.terms), m) % P == Coeff(Terms(q.terms), m) % P { DifferenceCoeff(p, q, m); }
    NormalFormUnique(p, q);
  }

  lemma LowExpr(e: Expr)
    requires LowDegree(e)
    ensures WellFormed(PolyOf(e)) && Low(Terms(PolyOf(e).terms))
  {
    LowPoly(PolyOf(e));
  }

  /** Where no exponent reaches P, equality as functions is equality of canonical forms. */
  lemma LowFunctionEquality(x: Expr, y: Expr)
    requires LowDegree(x) && LowDegree(y)
    ensures SameFunction(x, y) <==> CanonicalOf(x) == CanonicalOf(y)
  {
    hide ExprValue, PolyOf, CanonicalOf, Low;
    if SameFunction(x, y) {
      LowExpr(x);
      LowExpr(y);
      forall env: Env ensures PolyValue(PolyOf(x), env) == PolyValue(PolyOf(y), env) {
        FoldKeepsValue(x, env);
        FoldKeepsValue(y, env);
        assert ExprValue(x, env) % P == ExprValue(y, env) % P;
      }
      SameValuesSamePoly(PolyOf(x), PolyOf(y));
      CanonicalDecides(x, y);
    }
    if CanonicalOf(x) == CanonicalOf(y) {
      forall env: Env ensures ExprValue(x, env) % P == ExprValue(y, env) % P { CanonicalImpliesSameValue(x, y, env); }
    }
  }

  /** Different canonical forms are told apart by some assignment. */
  lemma Separated(x: Expr, y: Expr) returns (env: Env)
    requires LowDegree(x) && LowDegree(y) && CanonicalOf(x) != CanonicalOf(y)
    ensures ExprValue(x, env) % P != ExprValue(y, env) % P
  {
    hide ExprValue, PolyOf, CanonicalOf, LowDegree;
    LowFunctionEquality(x, y);
    env :| ExprValue(x, env) % P != ExprValue(y, env) % P;
  }

  // ----- every expression

  /** The exponent below P that gives the same powers, x^P being x. */
  function LowExp(e: nat): (r: nat)
    ensures r < P && (e < P ==> r == e)
  {
    if e < P then e else LowExp(e - (P - 1))
  }

  lemma FrobeniusStep(v: int, k: nat)
    ensures Pow(v, P + k) % P == Pow(v, k + 1) % P
  {
    PowAdd(v, P, k);
    FrobeniusFixes(v);
    CongMul(Pow(v, P), v, Pow(v, k), Pow(v, k), P);
    assert Pow(v, k + 1) == v * Pow(v, k);
  }

  lemma {:induction false} LowExpValue(v: int, e: nat)
    ensures Pow(v, LowExp(e)) % P == Pow(v, e) % P
  {
    if e < P {
    } else {
      LowExpValue(v, e - (P - 1));
      FrobeniusStep(v, e - P);
    }
  }

  /** The monomial with every exponent brought below P. */
  ghost function LowPower(x: Power): Power
    decreases |x|
  {
    if x == multiset{} then x else
      var a :| a in x;
      LowPower(x[a := 0])[a := LowExp(x[a])]
  }

  lemma {:induction false} LowPowerAt(x: Power, b: Atom)
    ensures LowPower(x)[b] == LowExp(x[b])
    decreases |x|
  {
    if x == multiset{} {
    } else {
      var a :| a in x && LowPower(x) == LowPower(x[a := 0])[a := LowExp(x[a])];
      LowPowerAt(x[a := 0], b);
      var y, n := LowPower(x[a := 0]), LowExp(x[a]);
      assert y[a := n][b] == if b == a then n else y[b];
    }
  }

  lemma {:induction false} LowPowerValue(x: Power, env: Env)
    ensures PowerValue(LowPower(x), env) % P == PowerValue(x, env) % P
    decreases |x|
  {
    hide PowerValue, LowExp;
    if x == multiset{} {
    } else {
      var a :| a in x && LowPower(x) == LowPower(x[a := 0])[a := LowExp(x[a])];
      LowPowerValue(x[a := 0], env);
      LowPowerAt(x[a := 0], a);
      var y := LowPower(x[a := 0]);
      assert y[a := LowExp(x[a])][a := 0] == y;
      PowerValueAt(LowPower(x), a, env);
      PowerValueAt(x, a, env);
      LowExpValue(env(a), x[a]);
      CongMul(PowerValue(y, env), PowerValue(x[a := 0], env), Pow(env(a), LowExp(x[a])), Pow(env(a), x[a]), P);
    }
  }

  ghost function LowSum(s: Sum): Sum {
    if s == [] then [] else [Term(LowPower(s[0].power), s[0].coeff)] + LowSum(s[1..])
  }

  lemma {:induction false} LowSumIsLow(s: Sum)
    ensures Low(LowSum(s))
  {
    hide LowPower;
    if s == [] {
    } else {
      LowSumIsLow(s[1..]);
      forall b ensures LowPower(s[0].power)[b] < P { LowPowerAt(s[0].power, b); }
    }
  }

  lemma {:induction false} LowSumValue(s: Sum, env: Env)
    ensures Value(LowSum(s), env) % P == Value(s, env) % P
  {
    hide LowPower, PowerValue;
    if s == [] {
    } else {
      var x, y, c := s[0].power, LowPower(s[0].power), s[0].coeff;
      LowPowerValue(x, env);
      LowSumValue(s[1..], env);
      CongMul(c, c, PowerValue(y, env), PowerValue(x, env), P);
      CongAdd(c * PowerValue(y, env), c * PowerValue(x, env), Value(LowSum(s[1..]), env), Value(s[1..], env), P);
    }
  }

  /** The canonical form with x^P replaced by x throughout. */
  ghost function Lowered(e: Expr): Poly {
    NormalForm(LowSum(Terms(PolyOf(e).terms)))
  }

  lemma LoweredValue(e: Expr, env: Env)
    ensures PolyValue(Lowered(e), env) == ExprValue(e, env) % P
  {
    LowSumValue(Terms(PolyOf(e).terms), env);
    LinCong(Terms(Lowered(e).terms), LowSum(Terms(PolyOf(e).terms)), ValueAt(env));
    FoldKeepsValue(e, env);
  }

  lemma LoweredIsLow(e: Expr)
    ensures WellFormed(Lowered(e)) && Low(Terms(Lowered(e).terms))
  {
    hide LowSum, Terms, Coeff, PowerValue;
    var p, s := Lowered(e), LowSum(Terms(PolyOf(e).terms));
    LowSumIsLow(Terms(PolyOf(e).terms));
    forall m: Mono, i: int | m in p.terms && 0 <= i < |m| ensures m[i].exp < P {
      CanonDistinct(m);
      AbsAt(m, i);
      CoeffLookup(p.terms, m);
      assert Coeff(Terms(p.terms), Abs(m)) % P == Coeff(s, Abs(m)) % P;
      if m[i].exp >= P { CoeffTooHigh(s, m[i].atom, Abs(m)); }
    }
    LowPoly(p);
  }

  /** Two expressions are equal as functions exactly when they have one polynomial after
      x^P has been replaced by x. */
  lemma FunctionEqualityExactly(x: Expr, y: Expr)
    ensures SameFunction(x, y) <==> Lowered(x) == Lowered(y)
  {
    hide ExprValue, Lowered, Low, PolyValue;
    LoweredIsLow(x);
    LoweredIsLow(y);
    forall env: Env ensures PolyValue(Lowered(x), env) == ExprValue(x, env) % P { LoweredValue(x, env); }
    forall env: Env ensures PolyValue(Lowered(y), env) == ExprValue(y, env) % P { LoweredValue(y, env); }
    if SameFunction(x, y) { SameValuesSamePoly(Lowered(x), Lowered(y)); }
  }
}
