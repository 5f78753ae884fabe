/** Replacing atoms in expressions: `map_atoms`, lane-kind erasure, and the theorem that
    canonical equality survives every replacement. */
module Substitution {
  import opened Atoms
  import opened Results
  import opened Expressions
  import opened RingTheory
  import opened Evaluation

  /** Simultaneous replacement of atoms by expressions. */
  function Subst(e: Expr, f: Atom -> Expr): Expr {
    match e
    case Const(n) => e
    case Var(a) => f(a)
    case Neg(a) => Neg(Subst(a, f))
    case Add(a, b) => Add(Subst(a, f), Subst(b, f))
    case Sub(a, b) => Sub(Subst(a, f), Subst(b, f))
    case Mul(a, b) => Mul(Subst(a, f), Subst(b, f))
  }

  ghost function SubstProof(d: Proof, f: Atom -> Expr): Proof {
    match d
    case Sym(p) => Sym(SubstProof(p, f))
    case Trans(p, mid, q) => Trans(SubstProof(p, f), Subst(mid, f), SubstProof(q, f))
    case UnderNeg(p) => UnderNeg(SubstProof(p, f))
    case UnderAdd(p, q) => UnderAdd(SubstProof(p, f), SubstProof(q, f))
    case UnderMul(p, q) => UnderMul(SubstProof(p, f), SubstProof(q, f))
    case _ => d
  }

  /** Equational proofs are closed under substitution. */
  lemma {:induction false} SubstProves(d: Proof, a: Expr, b: Expr, f: Atom -> Expr)
    requires Proves(d, a, b)
    ensures Proves(SubstProof(d, f), Subst(a, f), Subst(b, f))
    decreases d
  {
    match d {
      case Sym(p) => SubstProves(p, b, a, f);
      case Trans(p, mid, q) => SubstProves(p, a, mid, f); SubstProves(q, mid, b, f);
      case UnderNeg(p) => SubstProves(p, a.arg, b.arg, f);
      case UnderAdd(p, q) => SubstProves(p, a.left, b.left, f); SubstProves(q, a.right, b.right, f);
      case UnderMul(p, q) => SubstProves(p, a.left, b.left, f); SubstProves(q, a.right, b.right, f);
      case _ =>
    }
  }

  /** Replacing atoms cannot separate canonically equal expressions, even when it merges
      atoms that were different. */
  lemma SubstKeepsCanonical(a: Expr, b: Expr, f: Atom -> Expr)
    requires CanonicalOf(a) == CanonicalOf(b)
    ensures CanonicalOf(Subst(a, f)) == CanonicalOf(Subst(b, f))
  {
    CanonicalIffProvable(a, b);
    var d :| Proves(d, a, b);
    SubstProves(d, a, b, f);
    assert Eq(Subst(a, f), Subst(b, f));
    CanonicalIffProvable(Subst(a, f), Subst(b, f));
  }

  /** The value of a substituted expression is the value under the composed assignment. */
  lemma {:induction false} SubstValue(e: Expr, f: Atom -> Expr, env: Env)
    ensures ExprValue(Subst(e, f), env) == ExprValue(e, a => ExprValue(f(a), env))
  {
    match e {
      case Const(n) =>
      case Var(a) =>
      case Neg(a) => SubstValue(a, f, env);
      case Add(a, b) => SubstValue(a, f, env); SubstValue(b, f, env);
      case Sub(a, b) => SubstValue(a, f, env); SubstValue(b, f, env);
      case Mul(a, b) => SubstValue(a, f, env); SubstValue(b, f, env);
    }
  }

  // ----- map_atoms and erasure, with their error

  /** `erase_lane_kind`: drop the lane kind, keep the slot. Only accessor atoms have one. */
  function EraseLaneKind(a: Atom): Result<Atom, Atom> {
    match a
    case Main(_, column, delta) => Ok(Slot(column, delta))
    case Pre(column, delta) => Ok(Slot(column, delta))
    case Chal(index) => Ok(Aux(index))
    case Exposed(index) => Ok(Aux(index))
    case _ => Err(a)
  }

  /** `map_atoms` with a mapper that may refuse an atom. */
  function MapAtoms(e: Expr, mapper: Atom -> Result<Atom, Atom>): Result<Expr, Atom> {
    match e
    case Const(n) => Ok(e)
    case Var(a) =>
      var b :- mapper(a);
      Ok(Var(b))
    case Neg(a) =>
      var x :- MapAtoms(a, mapper);
      Ok(Neg(x))
    case Add(a, b) =>
      var x :- MapAtoms(a, mapper);
      var y :- MapAtoms(b, mapper);
      Ok(Add(x, y))
    case Sub(a, b) =>
      var x :- MapAtoms(a, mapper);
      var y :- MapAtoms(b, mapper);
      Ok(Sub(x, y))
    case Mul(a, b) =>
      var x :- MapAtoms(a, mapper);
      var y :- MapAtoms(b, mapper);
      Ok(Mul(x, y))
  }

  function Erase(e: Expr): Result<Expr, Atom> {
    MapAtoms(e, EraseLaneKind)
  }

  /** A mapper as a total substitution. */
  function AsSubst(mapper: Atom -> Result<Atom, Atom>): Atom -> Expr {
    a => Var(if mapper(a).Ok? then mapper(a).value else a)
  }

  lemma {:induction false} MapAtomsIsSubst(e: Expr, mapper: Atom -> Result<Atom, Atom>)
    requires MapAtoms(e, mapper).Ok?
    ensures MapAtoms(e, mapper).value == Subst(e, AsSubst(mapper))
  {
    match e {
      case Const(n) =>
      case Var(a) =>
      case Neg(a) => MapAtomsIsSubst(a, mapper);
      case Add(a, b) => MapAtomsIsSubst(a, mapper); MapAtomsIsSubst(b, mapper);
      case Sub(a, b) => MapAtomsIsSubst(a, mapper); MapAtomsIsSubst(b, mapper);
      case Mul(a, b) => MapAtomsIsSubst(a, mapper); MapAtomsIsSubst(b, mapper);
    }
  }

  /** The mapping fails exactly when the mapper fails on some atom of the tree. */
  lemma {:induction false} MapAtomsDefined(e: Expr, mapper: Atom -> Result<Atom, Atom>)
    ensures MapAtoms(e, mapper).Ok? <==> forall a :: a in AtomSet(e) ==> mapper(a).Ok?
  {
    match e {
      case Const(n) =>
      case Var(a) => assert a in AtomSet(e);
      case Neg(a) => MapAtomsDefined(a, mapper);
      case Add(a, b) => MapAtomsDefined(a, mapper); MapAtomsDefined(b, mapper);
      case Sub(a, b) => MapAtomsDefined(a, mapper); MapAtomsDefined(b, mapper);
      case Mul(a, b) => MapAtomsDefined(a, mapper); MapAtomsDefined(b, mapper);
    }
  }

  /** Lane-kind erasure is a congruence of canonical equality, although it merges a
      witness with a fixed column and a challenge with an exposed value. */
  lemma ErasureCongruence(a: Expr, b: Expr)
    requires CanonicalOf(a) == CanonicalOf(b) && Erase(a).Ok? && Erase(b).Ok?
    ensures CanonicalOf(Erase(a).value) == CanonicalOf(Erase(b).value)
  {
    MapAtomsIsSubst(a, EraseLaneKind);
    MapAtomsIsSubst(b, EraseLaneKind);
    SubstKeepsCanonical(a, b, AsSubst(EraseLaneKind));
  }
}
