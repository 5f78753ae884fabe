/** The shared expression AST, its fold into polynomials, and evaluation. */
module Expressions {
  import opened Atoms
  import opened FormalSums
  import opened Polynomials

  datatype Expr =
    | Const(n: int)
    | Var(atom: Atom)
    | Neg(arg: Expr)
    | Add(left: Expr, right: Expr)
    | Sub(left: Expr, right: Expr)
    | Mul(left: Expr, right: Expr)

  /** `iter_atoms`: every atom occurrence, in reading order. */
  function Leaves(e: Expr): seq<Atom> {
    match e
    case Const(_) => []
    case Var(a) => [a]
    case Neg(a) => Leaves(a)
    case Add(a, b) => Leaves(a) + Leaves(b)
    case Sub(a, b) => Leaves(a) + Leaves(b)
    case Mul(a, b) => Leaves(a) + Leaves(b)
  }

  /** `set(iter_atoms(expr))` */
  function AtomSet(e: Expr): set<Atom> {
    match e
    case Const(_) => {}
    case Var(a) => {a}
    case Neg(a) => AtomSet(a)
    case Add(a, b) => AtomSet(a) + AtomSet(b)
    case Sub(a, b) => AtomSet(a) + AtomSet(b)
    case Mul(a, b) => AtomSet(a) + AtomSet(b)
  }

  lemma {:induction false} LeavesAreAtoms(e: Expr, x: Atom)
    ensures x in Leaves(e) <==> x in AtomSet(e)
  {
    match e {
      case Const(_) =>
      case Var(_) =>
      case Neg(a) => LeavesAreAtoms(a, x);
      case Add(a, b) => LeavesAreAtoms(a, x); LeavesAreAtoms(b, x);
      case Sub(a, b) => LeavesAreAtoms(a, x); LeavesAreAtoms(b, x);
      case Mul(a, b) => LeavesAreAtoms(a, x); LeavesAreAtoms(b, x);
    }
  }

  /** The unnormalised polynomial an expression denotes. */
  function SumOf(e: Expr): Sum {
    match e
    case Const(n) => [Term(multiset{}, n)]
    case Var(a) => [Term(multiset{a}, 1)]
    case Neg(a) => Scale(-1, SumOf(a))
    case Add(a, b) => SumOf(a) + SumOf(b)
    case Sub(a, b) => SumOf(a) + Scale(-1, SumOf(b))
    case Mul(a, b) => Times(SumOf(a), SumOf(b))
  }

  ghost function PolyOf(e: Expr): Poly {
    NormalForm(SumOf(e))
  }

  /** `canonical(to_poly(expr))`, the key every verdict compares. */
  ghost function CanonicalOf(e: Expr): seq<Entry> {
    Canonical(PolyOf(e))
  }

  // ----- one step of the fold per operator

  method NegateFold(q: Poly, ghost a: Expr) returns (p: Poly)
    requires WellFormed(q) && q == PolyOf(a)
    ensures WellFormed(p) && p == PolyOf(Neg(a))
  {
    p := Negate(q);
    EquivScale(-1, -1, Terms(q.terms), SumOf(a));
    NormalFormDetermines(p, SumOf(Neg(a)));
  }

  method AddFold(q: Poly, r: Poly, ghost a: Expr, ghost b: Expr) returns (p: Poly)
    requires WellFormed(q) && WellFormed(r) && q == PolyOf(a) && r == PolyOf(b)
    ensures WellFormed(p) && p == PolyOf(Add(a, b))
  {
    p := Polynomials.Add(q, r);
    EquivAppend(Terms(q.terms), Terms(r.terms), SumOf(a), SumOf(b));
    NormalFormDetermines(p, SumOf(Add(a, b)));
  }

  method SubtractFold(q: Poly, r: Poly, ghost a: Expr, ghost b: Expr) returns (p: Poly)
    requires WellFormed(q) && WellFormed(r) && q == PolyOf(a) && r == PolyOf(b)
    ensures WellFormed(p) && p == PolyOf(Sub(a, b))
  {
    p := Subtract(q, r);
    EquivScale(-1, -1, Terms(r.terms), SumOf(b));
    EquivAppend(Terms(q.terms), Scale(-1, Terms(r.terms)), SumOf(a), Scale(-1, SumOf(b)));
    NormalFormDetermines(p, SumOf(Sub(a, b)));
  }

  method MultiplyFold(q: Poly, r: Poly, ghost a: Expr, ghost b: Expr) returns (p: Poly)
    requires WellFormed(q) && WellFormed(r) && q == PolyOf(a) && r == PolyOf(b)
    ensures WellFormed(p) && p == PolyOf(Mul(a, b))
  {
    p := Multiply(q, r);
    EquivTimes(Terms(q.terms), Terms(r.terms), SumOf(a), SumOf(b));
    NormalFormDetermines(p, SumOf(Mul(a, b)));
  }

  /** `to_poly`: the fold of the dictionary operations. */
  method ToPoly(e: Expr) returns (p: Poly)
    ensures WellFormed(p) && p == PolyOf(e)
  {
    match e {
      case Const(n) =>
        p := Polynomials.Const(n);
        NormalFormDetermines(p, SumOf(e));
      case Var(a) =>
        p := Variable(a);
        NormalFormDetermines(p, SumOf(e));
      case Neg(a) =>
        var q := ToPoly(a);
        p := NegateFold(q, a);
      case Add(a, b) =>
        var q := ToPoly(a);
        var r := ToPoly(b);
        p := AddFold(q, r, a, b);
      case Sub(a, b) =>
        var q := ToPoly(a);
        var r := ToPoly(b);
        p := SubtractFold(q, r, a, b);
      case Mul(a, b) =>
        var q := ToPoly(a);
        var r := ToPoly(b);
        p := MultiplyFold(q, r, a, b);
    }
  }

  /** The decision: canonical listings agree exactly when all coefficients agree. */
  lemma CanonicalDecides(a: Expr, b: Expr)
    ensures CanonicalOf(a) == CanonicalOf(b) <==> Equiv(SumOf(a), SumOf(b))
    ensures CanonicalOf(a) == CanonicalOf(b) <==> PolyOf(a) == PolyOf(b)
  {
    NormalFormIff(SumOf(a), SumOf(b));
    if CanonicalOf(a) == CanonicalOf(b) { CanonicalInjective(PolyOf(a), PolyOf(b)); }
  }
}
