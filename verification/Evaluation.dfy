/** Values of polynomials and expressions under an assignment of the atoms. */
module Evaluation {
  import opened Atoms
  import opened Monomials
  import opened Results
  import opened Modular
  import opened Goldilocks
  import opened FormalSums
  import opened Polynomials
  import opened Expressions

  type Env = Atom -> int

  ghost function PowerValue(x: Power, env: Env): int
    decreases |x|
  {
    if x == multiset{} then 1 else
      var a :| a in x;
      env(a) * PowerValue(x - multiset{a}, env)
  }

  /** The value of each monomial, as a functional to extend linearly. */
  ghost function ValueAt(env: Env): Power -> int {
    x => PowerValue(x, env)
  }

  ghost function Value(s: Sum, env: Env): int {
    Lin(s, ValueAt(env))
  }

  /** The polynomial's value in GF(P). */
  ghost function PolyValue(p: Poly, env: Env): int {
    Value(Terms(p.terms), env) % P
  }

  /** The expression's value over the integers. */
  function ExprValue(e: Expr, env: Env): int {
    match e
    case Const(n) => n
    case Var(a) => env(a)
    case Neg(a) => -ExprValue(a, env)
    case Add(a, b) => ExprValue(a, env) + ExprValue(b, env)
    case Sub(a, b) => ExprValue(a, env) - ExprValue(b, env)
    case Mul(a, b) => ExprValue(a, env) * ExprValue(b, env)
  }

  /** The assignment changed at one atom. */
  function Update(env: Env, u: Atom, v: int): Env {
    a => if a == u then v else env(a)
  }

  // ----- values of monomials

  lemma SwapFactors(a: int, b: int, c: int)
    ensures a * (b * c) == b * (a * c)
  {
  }

  lemma {:induction false} PowerValueSplit(x: Power, a: Atom, env: Env)
    requires a in x
    ensures PowerValue(x, env) == env(a) * PowerValue(x - multiset{a}, env)
    decreases |x|
  {
    var b :| b in x && PowerValue(x, env) == env(b) * PowerValue(x - multiset{b}, env);
    if a != b {
      var y := x - multiset{a} - multiset{b};
      assert y == x - multiset{b} - multiset{a};
      PowerValueSplit(x - multiset{b}, a, env);
      PowerValueSplit(x - multiset{a}, b, env);
      SwapFactors(env(b), env(a), PowerValue(y, env));
    }
  }

  lemma Regroup(a: int, b: int, c: int)
    ensures (a * b) * c == a * (b * c)
  {
  }

  lemma {:induction false} PowerValueAdd(x: Power, y: Power, env: Env)
    ensures PowerValue(x + y, env) == PowerValue(x, env) * PowerValue(y, env)
    decreases |x|
  {
    if x == multiset{} {
      assert x + y == y;
    } else {
      var a :| a in x;
      var x' := x - multiset{a};
      assert x + y - multiset{a} == x' + y;
      PowerValueSplit(x, a, env);
      PowerValueSplit(x + y, a, env);
      PowerValueAdd(x', y, env);
      Regroup(env(a), PowerValue(x', env), PowerValue(y, env));
    }
  }

  lemma {:induction false} RepeatedValue(a: Atom, n: nat, env: Env)
    ensures PowerValue(multiset{}[a := n], env) == Pow(env(a), n)
  {
    var x := multiset{}[a := n];
    if n == 0 {
      assert x == multiset{};
    } else {
      PowerValueSplit(x, a, env);
      assert x - multiset{a} == multiset{}[a := n - 1];
      RepeatedValue(a, n - 1, env);
    }
  }

  lemma TailPositive(m: Mono)
    requires Positive(m) && m != []
    ensures Positive(m[1..]) && m[0].exp >= 0
  {
    forall i | 0 <= i < |m[1..]| ensures m[1..][i].exp >= 1 { assert m[1..][i] == m[i + 1]; }
  }

  ghost function MonoValue(m: Mono, env: Env): int
    requires Positive(m)
  {
    if m == [] then 1 else
      TailPositive(m);
      Pow(env(m[0].atom), m[0].exp) * MonoValue(m[1..], env)
  }

  lemma {:induction false} MonoValueAbs(m: Mono, env: Env)
    requires Positive(m)
    ensures PowerValue(Abs(m), env) == MonoValue(m, env)
  {
    if m == [] {
    } else {
      TailPositive(m);
      MonoValueAbs(m[1..], env);
      RepeatedValue(m[0].atom, m[0].exp, env);
      PowerValueAdd(multiset{}[m[0].atom := m[0].exp], Abs(m[1..]), env);
    }
  }

  // ----- evaluation is a ring homomorphism

  lemma ShiftArithmetic(a: int, x: int, b: int, y: int, v: int)
    ensures (a * b) * (x * y) + (a * x) * v == (a * x) * (b * y + v)
  {
    assert (a * b) * (x * y) == (a * x) * (b * y);
  }

  lemma {:induction false} ValueShift(t: Term, s: Sum, env: Env)
    ensures Value(Shift(t, s), env) == (t.coeff * PowerValue(t.power, env)) * Value(s, env)
  {
    if s == [] {
    } else {
      ValueShift(t, s[1..], env);
      PowerValueAdd(t.power, s[0].power, env);
      assert Shift(t, s)[1..] == Shift(t, s[1..]);
      ShiftArithmetic(t.coeff, PowerValue(t.power, env), s[0].coeff, PowerValue(s[0].power, env), Value(s[1..], env));
    }
  }

  lemma DistributeRight(h: int, r: int, v: int)
    ensures (h + r) * v == h * v + r * v
  {
  }

  lemma {:induction false} ValueTimes(s: Sum, t: Sum, env: Env)
    ensures Value(Times(s, t), env) == Value(s, env) * Value(t, env)
  {
    if s == [] {
    } else {
      ValueTimes(s[1..], t, env);
      ValueShift(s[0], t, env);
      LinAppend(Shift(s[0], t), Times(s[1..], t), ValueAt(env));
      DistributeRight(s[0].coeff * PowerValue(s[0].power, env), Value(s[1..], env), Value(t, env));
    }
  }

  lemma SingletonValue(t: Term, env: Env)
    ensures Value([t], env) == t.coeff * PowerValue(t.power, env)
  {
    var s := [t];
    assert s[1..] == [];
    assert Value(s, env) == s[0].coeff * ValueAt(env)(s[0].power) + Lin(s[1..], ValueAt(env));
  }

  /** Folding keeps the value, exactly, over the integers. */
  lemma {:induction false} SumOfValue(e: Expr, env: Env)
    ensures Value(SumOf(e), env) == ExprValue(e, env)
  {
    match e {
      case Const(n) =>
        SingletonValue(Term(multiset{}, n), env);
      case Var(a) =>
        SingletonValue(Term(multiset{a}, 1), env);
        PowerValueSplit(multiset{a}, a, env);
        assert multiset{a} - multiset{a} == multiset{};
      case Neg(a) =>
        SumOfValue(a, env);
        LinScale(-1, SumOf(a), ValueAt(env));
      case Add(a, b) =>
        SumOfValue(a, env); SumOfValue(b, env);
        LinAppend(SumOf(a), SumOf(b), ValueAt(env));
      case Sub(a, b) =>
        SumOfValue(a, env); SumOfValue(b, env);
        LinScale(-1, SumOf(b), ValueAt(env));
        LinAppend(SumOf(a), Scale(-1, SumOf(b)), ValueAt(env));
      case Mul(a, b) =>
        SumOfValue(a, env); SumOfValue(b, env);
        ValueTimes(SumOf(a), SumOf(b), env);
    }
  }

  /** Evaluation survives merging, reduction and the dropping of zero coefficients. */
  lemma FoldKeepsValue(e: Expr, env: Env)
    ensures PolyValue(PolyOf(e), env) == ExprValue(e, env) % P
  {
    SumOfValue(e, env);
    LinCong(Terms(PolyOf(e).terms), SumOf(e), ValueAt(env));
  }

  /** Canonically equal expressions agree at every assignment. */
  lemma CanonicalImpliesSameValue(a: Expr, b: Expr, env: Env)
    requires CanonicalOf(a) == CanonicalOf(b)
    ensures ExprValue(a, env) % P == ExprValue(b, env) % P
  {
    CanonicalDecides(a, b);
    FoldKeepsValue(a, env);
    FoldKeepsValue(b, env);
  }

  /** The value only depends on the assignment modulo P. */
  lemma {:induction false} ExprValueCong(e: Expr, env: Env, env': Env)
    requires forall a :: env(a) % P == env'(a) % P
    ensures ExprValue(e, env) % P == ExprValue(e, env') % P
  {
    match e {
      case Const(n) =>
      case Var(a) =>
      case Neg(a) =>
        ExprValueCong(a, env, env');
        CongNeg(ExprValue(a, env), ExprValue(a, env'), P);
      case Add(a, b) =>
        ExprValueCong(a, env, env'); ExprValueCong(b, env, env');
        CongAdd(ExprValue(a, env), ExprValue(a, env'), ExprValue(b, env), ExprValue(b, env'), P);
      case Sub(a, b) =>
        ExprValueCong(a, env, env'); ExprValueCong(b, env, env');
        CongNeg(ExprValue(b, env), ExprValue(b, env'), P);
        CongAdd(ExprValue(a, env), ExprValue(a, env'), -ExprValue(b, env), -ExprValue(b, env'), P);
      case Mul(a, b) =>
        ExprValueCong(a, env, env'); ExprValueCong(b, env, env');
        CongMul(ExprValue(a, env), ExprValue(a, env'), ExprValue(b, env), ExprValue(b, env'), P);
    }
  }

  // ----- canonical equality is stronger than equality as functions

  /** `x * x * ... * x`, n factors. */
  function PowerOf(e: Expr, n: nat): Expr {
    if n == 0 then Const(1) else Mul(e, PowerOf(e, n - 1))
  }

  lemma {:induction false} PowerOfValue(e: Expr, n: nat, env: Env)
    ensures ExprValue(PowerOf(e, n), env) == Pow(ExprValue(e, env), n)
  {
    if n == 0 {
    } else {
      PowerOfValue(e, n - 1, env);
    }
  }

  lemma {:induction false} PowerOfSum(a: Atom, n: nat)
    ensures SumOf(PowerOf(Var(a), n)) == [Term(multiset{}[a := n], 1)]
  {
    if n == 0 {
      assert multiset{}[a := 0] == multiset{};
    } else {
      PowerOfSum(a, n - 1);
      var t, u := Term(multiset{a}, 1), Term(multiset{}[a := n - 1], 1);
      assert [t][1..] == [] && [u][1..] == [];
      assert Times([t], [u]) == Shift(t, [u]) + Times([], [u]);
      assert Shift(t, [u]) == [Term(t.power + u.power, t.coeff * u.coeff)] + Shift(t, []);
      assert t.power + u.power == multiset{}[a := n];
    }
  }

  lemma FrobeniusFixes(v: int)
    ensures Pow(v, P) % P == v % P
  {
    PIsPrime();
    if v % P == 0 {
      ModIdem(0, P);
      CongMul(v, 0, Pow(v, P - 1), Pow(v, P - 1), P);
    } else {
      Fermat(v, P);
      CongMul(v, v, Pow(v, P - 1), 1, P) by { ModUnique(1, P, 0, 1); }
    }
  }

  lemma DistinctMonomials(x: Power, y: Power)
    requires x != y
    ensures !Equiv([Term(x, 1)], [Term(y, 1)])
  {
    assert [Term(x, 1)][1..] == [] && [Term(y, 1)][1..] == [];
    assert Coeff([Term(x, 1)], x) == 1 && Coeff([Term(y, 1)], x) == 0;
    assert Coeff([Term(x, 1)], x) % P != Coeff([Term(y, 1)], x) % P;
  }

  /** "Mathematically equal" means equal as formal polynomials: `x^P` and `x` agree at
      every assignment and have different canonical listings. */
  lemma FunctionEqualityIsWeaker(a: Atom)
    ensures forall env :: ExprValue(PowerOf(Var(a), P), env) % P == ExprValue(Var(a), env) % P
    ensures CanonicalOf(PowerOf(Var(a), P)) != CanonicalOf(Var(a))
  {
    forall env: Env ensures ExprValue(PowerOf(Var(a), P), env) % P == ExprValue(Var(a), env) % P {
      var v := env(a);
      PowerOfValue(Var(a), P, env);
      FrobeniusFixes(v);
    }
    CanonicalDecides(PowerOf(Var(a), P), Var(a));
    PowerOfSum(a, P);
    DistinctMonomials(multiset{}[a := P], multiset{a});
  }

  // ----- evaluate() and random_screen()

  /** A partial assignment extended by zero, to state what `evaluate` computes. */
  function Extend(assignment: map<Atom, int>): Env {
    a => if a in assignment then assignment[a] else 0
  }

  ghost predicate Mentions(m: Mono, a: Atom) {
    exists i :: 0 <= i < |m| && m[i].atom == a
  }

  /** `Poly.atoms()` */
  ghost predicate HasAtom(p: Poly, a: Atom) {
    exists m :: m in p.terms && Mentions(m, a)
  }

  /** `Poly.atoms` */
  function AtomsOf(p: Poly): set<Atom> {
    set m, f | m in p.terms && f in m :: f.atom
  }

  lemma AtomsOfExact(p: Poly, a: Atom)
    ensures a in AtomsOf(p) <==> HasAtom(p, a)
  {
    if a in AtomsOf(p) {
      var m, f :| m in p.terms && f in m && f.atom == a;
      assert Mentions(m, a);
    }
    if HasAtom(p, a) {
      var m: Mono :| m in p.terms && Mentions(m, a);
      var i :| 0 <= i < |m| && m[i].atom == a;
      assert m[i] in m;
    }
  }

  /** The value of the first i factors of a monomial. */
  ghost function PrefixValue(m: Mono, i: nat, env: Env): int
    requires i <= |m|
  {
    PowerValue(Abs(m[..i]), env)
  }

  /** What the inner loop of `evaluate` has computed after i factors. */
  ghost predicate TermSoFar(term: int, coeff: int, m: Mono, i: nat, env: Env)
    requires i <= |m|
  {
    term % P == (coeff * PrefixValue(m, i, env)) % P
  }

  lemma PrefixStart(m: Mono, env: Env)
    ensures PrefixValue(m, 0, env) == 1
  {
    assert m[..0] == [] && Abs([]) == multiset{};
  }

  lemma PrefixStep(m: Mono, i: nat, env: Env)
    requires i < |m| && Canon(m)
    ensures PrefixValue(m, i + 1, env) == PrefixValue(m, i, env) * Pow(env(m[i].atom), m[i].exp)
  {
    var a, e := m[i].atom, m[i].exp;
    assert m[..i + 1] == m[..i] + [m[i]];
    AbsAppend(m[..i], [m[i]]);
    assert [m[i]][1..] == [];
    assert Abs([m[i]]) == multiset{}[a := e];
    PowerValueAdd(Abs(m[..i]), multiset{}[a := e], env);
    RepeatedValue(a, e, env);
  }

  /** `term * pow(v % P, exp, P) % P` */
  function MulPow(term: int, v: int, exp: nat): int {
    term * (Pow(v % P, exp) % P) % P
  }

  lemma MulPowCong(term: int, v: int, exp: nat, u: int)
    requires term % P == u % P
    ensures MulPow(term, v, exp) % P == (u * Pow(v, exp)) % P
  {
    var f := Pow(v % P, exp) % P;
    ModIdem(v, P);
    PowCong(v % P, v, exp, P);
    ModIdem(Pow(v % P, exp), P);
    CongMul(term, u, f, Pow(v, exp), P);
    ModIdem(term * f, P);
  }

  lemma TermStep(term: int, coeff: int, m: Mono, i: nat, env: Env)
    requires i < |m| && Canon(m) && TermSoFar(term, coeff, m, i, env)
    ensures TermSoFar(MulPow(term, env(m[i].atom), m[i].exp), coeff, m, i + 1, env)
  {
    PrefixStep(m, i, env);
    MulPowCong(term, env(m[i].atom), m[i].exp, coeff * PrefixValue(m, i, env));
    Regroup(coeff, PrefixValue(m, i, env), Pow(env(m[i].atom), m[i].exp));
  }

  /** The inner loop of `evaluate`: one term, or the first atom without a value. */
  method EvaluateTerm(m: Mono, coeff: int, assignment: map<Atom, int>) returns (r: Result<int, Atom>)
    requires Canon(m)
    ensures r.Err? ==> Mentions(m, r.error) && r.error !in assignment
    ensures r.Ok? ==> forall a :: Mentions(m, a) ==> a in assignment
    ensures r.Ok? ==> TermSoFar(r.value, coeff, m, |m|, Extend(assignment))
  {
    var term := coeff;
    PrefixStart(m, Extend(assignment));
    for i := 0 to |m|
      invariant forall k :: 0 <= k < i ==> m[k].atom in assignment
      invariant TermSoFar(term, coeff, m, i, Extend(assignment))
    {
      var key := m[i].atom;
      if key !in assignment { return Err(key); }
      TermStep(term, coeff, m, i, Extend(assignment));
      term := MulPow(term, assignment[key], m[i].exp);
    }
    r := Ok(term);
  }

  /** The running total plus what the remaining terms are worth is the whole value. */
  ghost predicate Remaining(total: int, rest: map<Mono, int>, d: map<Mono, int>, env: Env) {
    (total + Value(Terms(rest), env)) % P == Value(Terms(d), env) % P
  }

  lemma Finished(total: int, d: map<Mono, int>, env: Env)
    requires 0 <= total < P && Remaining(total, map[], d, env)
    ensures total == Value(Terms(d), env) % P
  {
    ModUnique(total, P, 0, total);
  }

  lemma ValueSplit(d: map<Mono, int>, m: Mono, env: Env, u: int)
    requires m in d && u == d[m] * PowerValue(Abs(m), env)
    ensures Value(Terms(d), env) == u + Value(Terms(d - {m}), env)
  {
    LinSplit(d, m, ValueAt(env));
  }

  lemma AccumulateCong(total: int, t: int, u: int, v: int)
    requires t % P == u % P
    ensures ((total + t) % P + v) % P == (total + (u + v)) % P
  {
    ModIdem(total + t, P);
    CongAdd((total + t) % P, total + t, v, v, P);
    CongAdd(total + v, total + v, t, u, P);
  }

  lemma Accumulate(total: int, t: int, u: int, m: Mono, rest: map<Mono, int>, d: map<Mono, int>, env: Env)
    requires Value(Terms(rest), env) == u + Value(Terms(rest - {m}), env) && t % P == u % P
    requires Remaining(total, rest, d, env)
    ensures Remaining((total + t) % P, rest - {m}, d, env)
  {
    AccumulateCong(total, t, u, Value(Terms(rest - {m}), env));
  }

  /** One round of `evaluate`: the term's value is added to the running total. */
  method EvaluateEntry(total: int, m: Mono, rest: map<Mono, int>, assignment: map<Atom, int>, ghost d: map<Mono, int>)
    returns (r: Result<int, Atom>)
    requires m in rest && Canon(m) && Remaining(total, rest, d, Extend(assignment))
    ensures r.Err? ==> Mentions(m, r.error) && r.error !in assignment
    ensures r.Ok? ==> forall a :: Mentions(m, a) ==> a in assignment
    ensures r.Ok? ==> 0 <= r.value < P && Remaining(r.value, rest - {m}, d, Extend(assignment))
  {
    var t :- EvaluateTerm(m, rest[m], assignment);
    ghost var u := rest[m] * PowerValue(Abs(m), Extend(assignment));
    assert m[..|m|] == m;
    ValueSplit(rest, m, Extend(assignment), u);
    Accumulate(total, t, u, m, rest, d, Extend(assignment));
    r := Ok((total + t) % P);
  }

  /** `Poly.evaluate`: a missing atom is an error, not a default. */
  method Evaluate(p: Poly, assignment: map<Atom, int>) returns (r: Result<int, Atom>)
    requires WellFormed(p)
    ensures r.Err? <==> exists a :: HasAtom(p, a) && a !in assignment
    ensures r.Err? ==> HasAtom(p, r.error) && r.error !in assignment
    ensures r.Ok? ==> r.value == PolyValue(p, Extend(assignment))
  {
    ghost var env := Extend(assignment);
    var total := 0;
    var rest := p.terms;
    while rest != map[]
      invariant forall m :: m in rest ==> m in p.terms && rest[m] == p.terms[m]
      invariant forall m, a :: m in p.terms && m !in rest && Mentions(m, a) ==> a in assignment
      invariant 0 <= total < P
      invariant Remaining(total, rest, p.terms, env)
      decreases |rest|
    {
      var m :| m in rest;
      var next := EvaluateEntry(total, m, rest, assignment, p.terms);
      if next.Err? {
        assert HasAtom(p, next.error);
        return Err(next.error);
      }
      total := next.value;
      rest := rest - {m};
    }
    Finished(total, p.terms, env);
    r := Ok(total);
  }

  /** `{key: rng.randrange(P) for key in keys}` of trial i, the draws taken as a function. */
  function Sample(keys: set<Atom>, draw: (nat, Atom) -> int, i: nat): map<Atom, int> {
    map a | a in keys :: draw(i, a)
  }

  ghost predicate Separates(p: Poly, q: Poly, assignment: map<Atom, int>) {
    PolyValue(p, Extend(assignment)) != PolyValue(q, Extend(assignment))
  }

  /** With every atom covered, evaluation has nothing to refuse. */
  method EvaluateCovered(p: Poly, assignment: map<Atom, int>) returns (v: int)
    requires WellFormed(p) && AtomsOf(p) <= assignment.Keys
    ensures v == PolyValue(p, Extend(assignment))
  {
    var r := Evaluate(p, assignment);
    if r.Err? { AtomsOfExact(p, r.error); }
    v := r.value;
  }

  lemma SampleCovers(keys: set<Atom>, draw: (nat, Atom) -> int, i: nat)
    ensures Sample(keys, draw, i).Keys == keys
  {
  }

  lemma SeparatesIff(p: Poly, q: Poly, assignment: map<Atom, int>)
    ensures Separates(p, q, assignment) <==> PolyValue(p, Extend(assignment)) != PolyValue(q, Extend(assignment))
  {
  }

  lemma CanonicalInjectiveOr(p: Poly, q: Poly)
    ensures p == q || Canonical(p) != Canonical(q)
  {
    hide *;
    if Canonical(p) == Canonical(q) { CanonicalInjective(p, q); }
  }

  /** `random_screen` over the combined atom set: it never meets a missing atom, and
      `false` comes with a separating assignment, hence different polynomials. */
  method RandomScreen(p: Poly, q: Poly, trials: nat, draw: (nat, Atom) -> int) returns (same: bool)
    requires WellFormed(p) && WellFormed(q)
    ensures !same ==> Canonical(p) != Canonical(q)
    ensures same <==> forall i :: 0 <= i < trials ==> !Separates(p, q, Sample(AtomsOf(p) + AtomsOf(q), draw, i))
  {
    hide *;
    var keys := AtomsOf(p) + AtomsOf(q);
    for i := 0 to trials
      invariant forall k :: 0 <= k < i ==> !Separates(p, q, Sample(keys, draw, k))
    {
      var assignment := Sample(keys, draw, i);
      SampleCovers(keys, draw, i);
      var v := EvaluateCovered(p, assignment);
      var w := EvaluateCovered(q, assignment);
      SeparatesIff(p, q, assignment);
      if v != w {
        CanonicalInjectiveOr(p, q);
        return false;
      }
    }
    same := true;
  }
}
