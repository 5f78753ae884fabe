/** What erasing the lane kind identifies: two columns at one index and row offset, two
    exposed or challenge values at one index, and nothing else. */
module Erasure {
  import opened Atoms
  import opened Goldilocks
  import opened Expressions
  import opened Evaluation
  import opened FunctionEquality
  import opened Substitution

  /** Both address one slot, whatever the lane kind and the stage. */
  predicate SameSlot(a: Atom, b: Atom) {
    || ((a.Main? || a.Pre?) && (b.Main? || b.Pre?) && a.column == b.column && a.delta == b.delta)
    || ((a.Chal? || a.Exposed?) && (b.Chal? || b.Exposed?) && a.index == b.index)
  }

  /** Two accessor atoms are erased to one atom exactly when they address one slot. */
  lemma ErasedAtoms(a: Atom, b: Atom)
    ensures Erase(Var(a)).Ok? <==> IsAccessor(a)
    ensures IsAccessor(a) && IsAccessor(b) ==> (Erase(Var(a)) == Erase(Var(b)) <==> SameSlot(a, b))
  {
  }

  /** An expression can be erased exactly when it is written in the accessor vocabulary. */
  lemma ErasedWhenAccessors(e: Expr)
    ensures Erase(e).Ok? <==> forall a :: a in AtomSet(e) ==> IsAccessor(a)
  {
    MapAtomsDefined(e, EraseLaneKind);
    forall a ensures EraseLaneKind(a).Ok? <==> IsAccessor(a) { ErasedAtoms(a, a); }
  }

  // ----- assignments that do not see the kind

  /** Every slot has one value. */
  ghost predicate BySlot(env: Env) {
    forall a, b :: SameSlot(a, b) ==> env(a) == env(b)
  }

  /** The two expressions have one value wherever lanes at one slot have one value. */
  ghost predicate AgreeBySlot(x: Expr, y: Expr) {
    forall env: Env :: BySlot(env) ==> ExprValue(x, env) % P == ExprValue(y, env) % P
  }

  /** The values of the erased atoms under such an assignment. */
  function SlotValues(env: Env): Env {
    (a: Atom) =>
         match a
         case Slot(column, delta) => env(Pre(column, delta))
         case Aux(index) => env(Chal(index))
         case _ => 0
  }

  lemma SlotValueAt(a: Atom, env: Env)
    requires EraseLaneKind(a).Ok? && BySlot(env)
    ensures SlotValues(env)(EraseLaneKind(a).value) == env(a)
  {
    match a {
      case Main(_, column, delta) => assert SameSlot(a, Pre(column, delta));
      case Exposed(index) => assert SameSlot(a, Chal(index));
      case _ =>
    }
  }

  lemma {:induction false} ErasedValue(e: Expr, env: Env)
    requires Erase(e).Ok? && BySlot(env)
    ensures ExprValue(Erase(e).value, SlotValues(env)) == ExprValue(e, env)
  {
    match e {
      case Const(_) =>
      case Var(a) => SlotValueAt(a, env);
      case Neg(a) => ErasedValue(a, env);
      case Add(a, b) => ErasedValue(a, env); ErasedValue(b, env);
      case Sub(a, b) => ErasedValue(a, env); ErasedValue(b, env);
      case Mul(a, b) => ErasedValue(a, env); ErasedValue(b, env);
    }
  }

  /** An assignment of the erased atoms, read at the atoms they stand for. */
  ghost function Lifted(slots: Env): Env {
    a => ExprValue(AsSubst(EraseLaneKind)(a), slots)
  }

  lemma LiftedBySlot(slots: Env)
    ensures BySlot(Lifted(slots))
  {
    forall a, b | SameSlot(a, b) ensures Lifted(slots)(a) == Lifted(slots)(b) {
      ErasedAtoms(a, b);
      assert AsSubst(EraseLaneKind)(a) == AsSubst(EraseLaneKind)(b);
    }
  }

  lemma LiftedValue(e: Expr, slots: Env)
    requires Erase(e).Ok?
    ensures ExprValue(e, Lifted(slots)) == ExprValue(Erase(e).value, slots)
  {
    MapAtomsIsSubst(e, EraseLaneKind);
    SubstValue(e, AsSubst(EraseLaneKind), slots);
  }

  /** Erased expressions are one function exactly when the expressions agree wherever lanes
      at one slot have one value. */
  lemma ErasedSameFunction(x: Expr, y: Expr)
    requires Erase(x).Ok? && Erase(y).Ok?
    ensures SameFunction(Erase(x).value, Erase(y).value) <==> AgreeBySlot(x, y)
  {
    hide Erase, ExprValue, Lifted, BySlot;
    if SameFunction(Erase(x).value, Erase(y).value) {
      forall env: Env | BySlot(env) ensures ExprValue(x, env) % P == ExprValue(y, env) % P {
        ErasedValue(x, env);
        ErasedValue(y, env);
        assert ExprValue(Erase(x).value, SlotValues(env)) % P == ExprValue(Erase(y).value, SlotValues(env)) % P;
      }
    }
    if AgreeBySlot(x, y) {
      forall slots: Env ensures ExprValue(Erase(x).value, slots) % P == ExprValue(Erase(y).value, slots) % P {
        LiftedBySlot(slots);
        LiftedValue(x, slots);
        LiftedValue(y, slots);
        assert ExprValue(x, Lifted(slots)) % P == ExprValue(y, Lifted(slots)) % P;
      }
    }
  }

  /** Equal erased forms mean agreement there, whatever the exponents. */
  lemma ErasedAgreement(x: Expr, y: Expr)
    requires Erase(x).Ok? && Erase(y).Ok? && CanonicalOf(Erase(x).value) == CanonicalOf(Erase(y).value)
    ensures AgreeBySlot(x, y)
  {
    hide Erase, ExprValue, CanonicalOf;
    forall env: Env ensures ExprValue(Erase(x).value, env) % P == ExprValue(Erase(y).value, env) % P {
      CanonicalImpliesSameValue(Erase(x).value, Erase(y).value, env);
    }
    ErasedSameFunction(x, y);
  }

  /** The erased expression exists and none of its exponents reaches P. */
  ghost predicate LowErased(e: Expr) {
    Erase(e).Ok? && LowDegree(Erase(e).value)
  }

  /** Where the erased exponents stay below P, the erased forms are equal exactly when the
      expressions agree wherever lanes at one slot have one value. */
  lemma ErasedFormsDecide(x: Expr, y: Expr)
    requires LowErased(x) && LowErased(y)
    ensures CanonicalOf(Erase(x).value) == CanonicalOf(Erase(y).value) <==> AgreeBySlot(x, y)
  {
    hide Erase, SameFunction, AgreeBySlot, CanonicalOf, LowDegree;
    ErasedSameFunction(x, y);
    LowFunctionEquality(Erase(x).value, Erase(y).value);
  }
}
