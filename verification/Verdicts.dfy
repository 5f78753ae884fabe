/** Recognisers whose answer excuses a finding: booleanity constraints backed by a typing
    fact, and definitional pins of uncommitted fields. */
module Verdicts {
  import opened Sequences
  import opened Atoms
  import opened Monomials
  import opened Results
  import opened Modular
  import opened Goldilocks
  import opened Polynomials
  import opened Expressions
  import opened Evaluation
  import opened Factoring

  // ----- boolean_atom

  function Positive01(a: Atom): Expr {
    Expr.Mul(Var(a), Expr.Sub(Expr.Const(1), Var(a)))
  }

  function Negative01(a: Atom): Expr {
    Expr.Mul(Var(a), Expr.Sub(Var(a), Expr.Const(1)))
  }

  ghost predicate BooleanShape(e: Expr, a: Atom) {
    && AtomSet(e) == {a}
    && a.Main?
    && (CanonicalOf(e) == CanonicalOf(Positive01(a)) || CanonicalOf(e) == CanonicalOf(Negative01(a)))
  }

  lemma AtomsOf01(a: Atom, e: Expr)
    requires AtomSet(e) == {a}
    ensures AtomSet(Expr.Mul(Var(a), e)) == {a}
  {
  }

  /** Both shapes are recognised for a main column, of whatever stage, and for no other atom. */
  lemma BooleanAtomStages(a: Atom)
    ensures BooleanShape(Positive01(a), a) <==> a.Main?
    ensures BooleanShape(Negative01(a), a) <==> a.Main?
  {
    hide CanonicalOf;
    AtomsOf01(a, Expr.Sub(Expr.Const(1), Var(a)));
    AtomsOf01(a, Expr.Sub(Var(a), Expr.Const(1)));
  }

  method CanonicalKey(e: Expr) returns (c: seq<Entry>)
    ensures c == CanonicalOf(e)
  {
    var p := ToPoly(e);
    c := ComputeCanonical(p);
  }

  /** `boolean_atom` */
  method BooleanAtom(e: Expr) returns (r: Option<Atom>)
    ensures r.Some? <==> exists a :: BooleanShape(e, a)
    ensures r.Some? ==> BooleanShape(e, r.value)
  {
    hide CanonicalOf;
    var atoms := AtomSet(e);
    forall b | BooleanShape(e, b) ensures |atoms| == 1 && b.Main? && b in atoms {
      assert |{b}| == 1;
    }
    if |atoms| != 1 { return None; }
    var a :| a in atoms;
    OnlyMember(atoms, a);
    if !a.Main? { return None; }
    var canon := CanonicalKey(e);
    var positive := CanonicalKey(Positive01(a));
    var negative := CanonicalKey(Negative01(a));
    r := if canon == positive || canon == negative then Some(a) else None;
    assert r.Some? <==> BooleanShape(e, a);
  }

  lemma BooleanRoots(v: int, w: int)
    requires w == 1 - v || w == v - 1
    ensures (v * w) % P == 0 <==> v % P == 0 || v % P == 1
  {
    PIsPrime();
    ModUnique(1, P, 0, 1);
    CongDifference(v, 1, P);
    if w == 1 - v { CongDifference(1, v, P); }
    if (v * w) % P == 0 { Euclid(v, w, P); }
    if v % P == 0 || w % P == 0 { ZeroTimes(v, w); }
  }

  lemma Value01(a: Atom, env: Env)
    ensures ExprValue(Positive01(a), env) % P == 0 <==> env(a) % P == 0 || env(a) % P == 1
    ensures ExprValue(Negative01(a), env) % P == 0 <==> env(a) % P == 0 || env(a) % P == 1
  {
    var v := env(a);
    var x, y := Expr.Sub(Expr.Const(1), Var(a)), Expr.Sub(Var(a), Expr.Const(1));
    assert ExprValue(x, env) == 1 - v && ExprValue(y, env) == v - 1;
    BooleanRoots(v, 1 - v);
    BooleanRoots(v, v - 1);
  }

  /** A recognised constraint vanishes exactly when its column holds 0 or 1. */
  lemma BooleanShapeMeans(e: Expr, a: Atom, env: Env)
    requires BooleanShape(e, a)
    ensures ExprValue(e, env) % P == 0 <==> env(a) % P == 0 || env(a) % P == 1
  {
    hide CanonicalOf, AtomSet;
    Value01(a, env);
    if CanonicalOf(e) == CanonicalOf(Positive01(a)) {
      CanonicalImpliesSameValue(e, Positive01(a), env);
    } else {
      CanonicalImpliesSameValue(e, Negative01(a), env);
    }
  }

  // ----- typing by a bound

  datatype Relation = LessThan | AtMost

  /** A parsed `.val` bound on one column: `a.val < limit` or `a.val <= limit`. */
  datatype Bound = Bound(atom: Atom, relation: Relation, limit: int)

  predicate Holds(b: Bound, v: int) {
    match b.relation
    case LessThan => v < b.limit
    case AtMost => v <= b.limit
  }

  /** The least limit per witness column, with the relation not looked at. */
  ghost predicate LeastLimits(bounds: seq<Bound>, out: map<Atom, int>) {
    && (forall a :: a in out ==> a.Main? && exists b :: b in bounds && b.atom == a && b.limit == out[a])
    && (forall b :: b in bounds && b.atom.Main? ==> b.atom in out && out[b.atom] <= b.limit)
  }

  /** `_boolean_bound_atoms` over the bounds the parser recorded. */
  method BoundAtoms(bounds: seq<Bound>) returns (out: map<Atom, int>)
    ensures LeastLimits(bounds, out)
  {
    out := map[];
    for i := 0 to |bounds|
      invariant LeastLimits(bounds[..i], out)
    {
      var b := bounds[i];
      assert bounds[..i + 1] == bounds[..i] + [b];
      if b.atom.Main? && (b.atom !in out || b.limit < out[b.atom]) {
        out := out[b.atom := b.limit];
      }
    }
    assert bounds[..|bounds|] == bounds;
  }

  /** The test `reclassify_covered` makes on a bounded column. */
  predicate TypedByBound(out: map<Atom, int>, a: Atom) {
    a in out && out[a] <= 2
  }

  /** The value meets every bound on the column. */
  ghost predicate Meets(bounds: seq<Bound>, a: Atom, v: int) {
    forall b :: b in bounds && b.atom == a ==> Holds(b, v)
  }

  /** The bounds on the column leave 0 and 1 only. */
  ghost predicate Confined(bounds: seq<Bound>, a: Atom) {
    forall v :: 0 <= v < P && Meets(bounds, a, v) ==> v == 0 || v == 1
  }

  /** Some bound on the column does so alone, its relation taken into account. */
  predicate HasConfiningBound(bounds: seq<Bound>, a: Atom) {
    exists b :: b in bounds && b.atom == a
             && ((b.relation == LessThan && b.limit <= 2) || (b.relation == AtMost && b.limit <= 1))
  }

  /** A list of bounds confines a column exactly when one of them does. */
  lemma BoundsConfine(bounds: seq<Bound>, a: Atom)
    ensures Confined(bounds, a) <==> HasConfiningBound(bounds, a)
  {
    if !HasConfiningBound(bounds, a) {
      assert Meets(bounds, a, 2);
    }
    if HasConfiningBound(bounds, a) {
      var b :| b in bounds && b.atom == a && (if b.relation == LessThan then b.limit <= 2 else b.limit <= 1);
      assert forall v :: Meets(bounds, a, v) ==> Holds(b, v);
    }
  }

  /** The code's test accepts every confined witness column, and of the columns it accepts
      it confines exactly those with a confining bound. */
  lemma BoundTestExact(bounds: seq<Bound>, out: map<Atom, int>, a: Atom)
    requires LeastLimits(bounds, out) && a.Main?
    ensures Confined(bounds, a) ==> TypedByBound(out, a)
    ensures TypedByBound(out, a) ==> (Confined(bounds, a) <==> HasConfiningBound(bounds, a))
    ensures TypedByBound(out, a) && !Confined(bounds, a) ==> Bound(a, AtMost, 2) in bounds
  {
    BoundsConfine(bounds, a);
    if TypedByBound(out, a) {
      var b :| b in bounds && b.atom == a && b.limit == out[a];
      assert b == Bound(a, b.relation, b.limit);
    }
  }

  /** The input on which the test is wrong: `a.val <= 2` is accepted, and 2 satisfies it. */
  method InclusiveBoundAccepted(a: Atom) returns (out: map<Atom, int>)
    requires a.Main?
    ensures out == map[a := 2] && TypedByBound(out, a)
    ensures !Confined([Bound(a, AtMost, 2)], a) && Meets([Bound(a, AtMost, 2)], a, 2)
  {
    var bounds := [Bound(a, AtMost, 2)];
    out := BoundAtoms(bounds);
    assert bounds[0] in bounds;
    BoundsConfine(bounds, a);
  }

  lemma ConstantlyConfined(bounds: seq<Bound>, e: Expr, a: Atom, v: int)
    requires 0 <= v < P && Meets(bounds, a, v) && BooleanShape(e, a)
    requires forall env: Env :: Meets(bounds, a, env(a) % P) ==> ExprValue(e, env) % P == 0
    ensures v == 0 || v == 1
  {
    hide Meets, BooleanShape, ExprValue;
    var env: Env := x => v;
    ModUnique(v, P, 0, v);
    BooleanShapeMeans(e, a, env);
    assert Meets(bounds, a, env(a) % P);
  }

  /** A booleanity constraint follows from the bounds on its column exactly when one of
      them is confining; the bounds on other columns do not matter. */
  lemma BoundCoverageSound(bounds: seq<Bound>, e: Expr, a: Atom)
    requires BooleanShape(e, a)
    ensures (forall env: Env :: Meets(bounds, a, env(a) % P) ==> ExprValue(e, env) % P == 0)
       <==> HasConfiningBound(bounds, a)
  {
    hide BooleanShape, ExprValue, HasConfiningBound, Meets;
    BoundsConfine(bounds, a);
    forall env: Env ensures ExprValue(e, env) % P == 0 <==> env(a) % P == 0 || env(a) % P == 1 {
      BooleanShapeMeans(e, a, env);
    }
    if forall env: Env :: Meets(bounds, a, env(a) % P) ==> ExprValue(e, env) % P == 0 {
      forall v | 0 <= v < P && Meets(bounds, a, v) ensures v == 0 || v == 1 {
        ConstantlyConfined(bounds, e, a, v);
      }
    }
  }

  // ----- _unbacked_clause_is_definitional_pin

  ghost predicate Touches(m: Mono) {
    exists i :: 0 <= i < |m| && m[i].atom.Unresolved?
  }

  ghost predicate BarePin(m: Mono) {
    |m| == 1 && m[0].atom.Unresolved? && m[0].exp == 1
  }

  /** Every monomial reaching an uncommitted atom is that atom alone, and one remains
      after cancellation. */
  ghost predicate PinShape(p: Poly) {
    && (exists m :: m in p.terms && Touches(m))
    && (forall m :: m in p.terms && Touches(m) ==> BarePin(m))
  }

  method MonoTouches(m: Mono) returns (b: bool)
    ensures b <==> Touches(m)
  {
    for i := 0 to |m|
      invariant forall k :: 0 <= k < i ==> !m[k].atom.Unresolved?
    {
      if m[i].atom.Unresolved? { return true; }
    }
    b := false;
  }

  ghost predicate Lists(canon: seq<Entry>, p: Poly) {
    && (forall k :: 0 <= k < |canon| ==> canon[k].mono in p.terms)
    && (forall m :: m in p.terms ==> exists k :: 0 <= k < |canon| && canon[k].mono == m)
  }

  lemma ListsTerms(e: Expr, canon: seq<Entry>)
    requires canon == CanonicalOf(e)
    ensures Lists(canon, PolyOf(e))
  {
    hide PolyOf, Canonical;
    var p := PolyOf(e);
    forall k | 0 <= k < |canon| ensures canon[k].mono in p.terms {
      CanonicalContents(p, canon[k]);
      assert canon[k] in canon;
    }
    forall m | m in p.terms ensures exists k :: 0 <= k < |canon| && canon[k].mono == m {
      CanonicalContents(p, Entry(m, p.terms[m]));
    }
  }

  ghost predicate PinEntries(canon: seq<Entry>) {
    && (exists k :: 0 <= k < |canon| && Touches(canon[k].mono))
    && (forall k :: 0 <= k < |canon| && Touches(canon[k].mono) ==> BarePin(canon[k].mono))
  }

  lemma PinListed(p: Poly, canon: seq<Entry>)
    requires Lists(canon, p)
    ensures PinShape(p) <==> PinEntries(canon)
  {
    hide Touches, BarePin;
  }

  /** The loop over the canonical listing. */
  method PinListing(canon: seq<Entry>) returns (b: bool)
    ensures b <==> PinEntries(canon)
  {
    var saw := false;
    for i := 0 to |canon|
      invariant saw <==> exists k :: 0 <= k < i && Touches(canon[k].mono)
      invariant forall k :: 0 <= k < i && Touches(canon[k].mono) ==> BarePin(canon[k].mono)
    {
      var m := canon[i].mono;
      var touching := MonoTouches(m);
      if touching {
        saw := true;
        if |m| != 1 || m[0].exp != 1 { return false; }
      }
    }
    b := saw;
  }

  /** An uncommitted atom alone is a pin. */
  lemma AtomIsPin(u: Atom)
    requires u.Unresolved?
    ensures PinShape(PolyOf(Var(u)))
  {
    var m := [Factor(u, 1)];
    var p := Poly(map[m := 1]);
    TermsSingleton(m, 1);
    assert m[1..] == [] && Abs(m) == multiset{u};
    assert Terms(p.terms) == SumOf(Var(u));
    NormalFormDetermines(p, SumOf(Var(u)));
    assert m in p.terms && m[0].atom.Unresolved? && Touches(m);
  }

  method IsDefinitionalPin(e: Expr) returns (b: bool)
    ensures b <==> PinShape(PolyOf(e))
  {
    hide *;
    var canon := CanonicalKey(e);
    ListsTerms(e, canon);
    b := PinListing(canon);
    PinListed(PolyOf(e), canon);
  }

  lemma {:induction false} MonoIndependent(m: Mono, u: Atom, env: Env, v: int)
    requires Positive(m) && !Mentions(m, u)
    ensures MonoValue(m, Update(env, u, v)) == MonoValue(m, env)
  {
    if m == [] {
    } else {
      TailPositive(m);
      assert forall i :: 0 <= i < |m[1..]| ==> m[1..][i] == m[i + 1];
      MonoIndependent(m[1..], u, env, v);
      assert m[0].atom != u;
    }
  }

  lemma {:induction false} ValueIndependent(d: map<Mono, int>, u: Atom, env: Env, v: int)
    requires forall m :: m in d ==> Canon(m) && !Mentions(m, u)
    ensures Value(Terms(d), Update(env, u, v)) == Value(Terms(d), env)
    decreases |d|
  {
    if d == map[] {
    } else {
      var m :| m in d;
      MonoIndependent(m, u, env, v);
      MonoValueAbs(m, env);
      MonoValueAbs(m, Update(env, u, v));
      LinSplit(d, m, ValueAt(env));
      LinSplit(d, m, ValueAt(Update(env, u, v)));
      ValueIndependent(d - {m}, u, env, v);
    }
  }

  lemma MentionsTouches(m: Mono, u: Atom)
    ensures u.Unresolved? && Mentions(m, u) ==> Touches(m)
  {
  }

  lemma BarePins(m: Mono, n: Mono)
    requires BarePin(n)
    ensures BarePin(m) && Mentions(m, n[0].atom) ==> m == n
  {
    if BarePin(m) && Mentions(m, n[0].atom) {
      assert m == [m[0]] && n == [n[0]];
    }
  }

  /** In a pin, the pinned atom occurs in its own monomial only. */
  lemma PinIsolated(p: Poly, m0: Mono, m: Mono)
    requires WellFormed(p) && PinShape(p) && m0 in p.terms && Touches(m0) && m in p.terms && m != m0
    ensures !Mentions(m, m0[0].atom)
  {
    MentionsTouches(m, m0[0].atom);
    BarePins(m, m0);
  }

  /** Solving a linear equation over GF(P). */
  lemma Solve(c: int, r: int) returns (v: int)
    requires c % P != 0
    ensures (c * v + r) % P == 0
  {
    PIsPrime();
    var i := Inverse(c, P);
    v := i * (-r);
    ModUnique(1, P, 0, 1);
    ModUnique(0, P, 0, 0);
    CongMul(c * i, 1, -r, -r, P);
    assert c * v == (c * i) * (-r);
    CongAdd(c * v, -r, r, r, P);
  }

  /** The other monomials do not see the pinned atom. */
  lemma PinRest(p: Poly, m: Mono, env: Env, v: int)
    requires WellFormed(p) && PinShape(p) && m in p.terms && Touches(m)
    ensures Value(Terms(p.terms - {m}), Update(env, m[0].atom, v)) == Value(Terms(p.terms - {m}), env)
  {
    forall n | n in p.terms - {m} ensures !Mentions(n, m[0].atom) { PinIsolated(p, m, n); }
    ValueIndependent(p.terms - {m}, m[0].atom, env, v);
  }

  lemma UpdateAt(env: Env, u: Atom, v: int)
    ensures Update(env, u, v)(u) == v
  {
  }

  lemma PinValue(m: Mono, u: Atom, env: Env)
    requires BarePin(m) && m[0].atom == u
    ensures PowerValue(Abs(m), env) == env(u)
  {
    assert m[1..] == [];
    assert Abs(m) == multiset{u};
    PowerValueSplit(multiset{u}, u, env);
    assert multiset{u} - multiset{u} == multiset{};
  }

  /** The pin's own monomial contributes c times the atom's value. */
  lemma PinHead(p: Poly, m: Mono, env: Env, t: int)
    requires WellFormed(p) && PinShape(p) && m in p.terms && Touches(m) && t == p.terms[m] * env(m[0].atom)
    ensures Value(Terms(p.terms), env) == t + Value(Terms(p.terms - {m}), env)
  {
    hide Value;
    PinValue(m, m[0].atom, env);
    ValueSplit(p.terms, m, env, t);
  }

  lemma PinSolved(p: Poly, env: Env) returns (u: Atom, v: int)
    requires WellFormed(p) && PinShape(p)
    ensures u.Unresolved? && PolyValue(p, Update(env, u, v)) == 0
  {
    hide Value, Update, Terms;
    var m: Mono :| m in p.terms && Touches(m);
    u := m[0].atom;
    var c, rest := p.terms[m], p.terms - {m};
    ModUnique(c, P, 0, c);
    var r := Value(Terms(rest), env);
    v := Solve(c, r);
    PinRest(p, m, env, v);
    UpdateAt(env, u, v);
    PinHead(p, m, Update(env, u, v), c * v);
  }

  /** A definitional pin constrains nothing committed: whatever the committed atoms are,
      some value of one uncommitted atom makes the clause vanish. */
  lemma PinConstrainsNothing(e: Expr, env: Env) returns (u: Atom, v: int)
    requires PinShape(PolyOf(e))
    ensures u.Unresolved? && ExprValue(e, Update(env, u, v)) % P == 0
  {
    hide Value, Update, PinShape;
    u, v := PinSolved(PolyOf(e), env);
    FoldKeepsValue(e, Update(env, u, v));
  }

  /** A clause from whose canonical form every uncommitted atom has cancelled says the
      same thing whatever those atoms are, and is never accepted as a pin. */
  lemma CancelledIsNoPin(e: Expr)
    requires forall m :: m in PolyOf(e).terms ==> !Touches(m)
    ensures !PinShape(PolyOf(e))
    ensures forall env, u: Atom, v :: u.Unresolved? ==> ExprValue(e, Update(env, u, v)) % P == ExprValue(e, env) % P
  {
    forall env: Env, u: Atom, v | u.Unresolved? ensures ExprValue(e, Update(env, u, v)) % P == ExprValue(e, env) % P {
      forall m | m in PolyOf(e).terms ensures !Mentions(m, u) {
        MentionsTouches(m, u);
      }
      ValueIndependent(PolyOf(e).terms, u, env, v);
      FoldKeepsValue(e, env);
      FoldKeepsValue(e, Update(env, u, v));
    }
  }
}
