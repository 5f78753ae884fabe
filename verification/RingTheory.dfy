/** Equational proofs from the commutative-ring axioms with integer constants taken
    modulo P, and the theorem that the canonical form decides exactly that theory. */
module RingTheory {
  import opened Atoms
  import opened Goldilocks
  import opened FormalSums
  import opened Expressions

  /** Proof trees. Each axiom constructor states one ring axiom, read off the two sides
      it is used for. */
  datatype Proof =
    | Refl
    | Sym(p: Proof)
    | Trans(p: Proof, mid: Expr, q: Proof)
    | UnderNeg(p: Proof)
    | UnderAdd(p: Proof, q: Proof)
    | UnderMul(p: Proof, q: Proof)
    | AddComm
    | AddAssoc
    | AddZero
    | AddNeg
    | SubIsAddNeg
    | MulComm
    | MulAssoc
    | MulOne
    | Distribute
    | ConstAdd
    | ConstMul
    | ConstMod

  ghost predicate Proves(d: Proof, a: Expr, b: Expr)
    decreases d
  {
    match d
    case Refl => a == b
    case Sym(p) => Proves(p, b, a)
    case Trans(p, mid, q) => Proves(p, a, mid) && Proves(q, mid, b)
    case UnderNeg(p) => a.Neg? && b.Neg? && Proves(p, a.arg, b.arg)
    case UnderAdd(p, q) => a.Add? && b.Add? && Proves(p, a.left, b.left) && Proves(q, a.right, b.right)
    case UnderMul(p, q) => a.Mul? && b.Mul? && Proves(p, a.left, b.left) && Proves(q, a.right, b.right)
    case AddComm => a.Add? && b == Add(a.right, a.left)
    case AddAssoc => a.Add? && a.left.Add? && b == Add(a.left.left, Add(a.left.right, a.right))
    case AddZero => a == Add(b, Const(0))
    case AddNeg => a.Add? && a.right == Neg(a.left) && b == Const(0)
    case SubIsAddNeg => a.Sub? && b == Add(a.left, Neg(a.right))
    case MulComm => a.Mul? && b == Mul(a.right, a.left)
    case MulAssoc => a.Mul? && a.left.Mul? && b == Mul(a.left.left, Mul(a.left.right, a.right))
    case MulOne => a == Mul(b, Const(1))
    case Distribute => a.Mul? && a.right.Add? && b == Add(Mul(a.left, a.right.left), Mul(a.left, a.right.right))
    case ConstAdd => a.Add? && a.left.Const? && a.right.Const? && b == Const(a.left.n + a.right.n)
    case ConstMul => a.Mul? && a.left.Const? && a.right.Const? && b == Const(a.left.n * a.right.n)
    case ConstMod => a.Const? && b.Const? && a.n % P == b.n % P
  }

  /** Equality by the ring axioms. */
  ghost predicate Eq(a: Expr, b: Expr) {
    exists d :: Proves(d, a, b)
  }

  // ----- soundness: provable equality keeps every coefficient

  lemma SoundAddComm(s: Sum, t: Sum)
    ensures Equiv(s + t, t + s)
  {
    forall m ensures Coeff(s + t, m) == Coeff(t + s, m) {
      CoeffAppend(s, t, m);
      CoeffAppend(t, s, m);
    }
  }

  lemma SoundAddNeg(s: Sum)
    ensures Equiv(s + Scale(-1, s), [Term(multiset{}, 0)])
  {
    forall m ensures Coeff(s + Scale(-1, s), m) == Coeff([Term(multiset{}, 0)], m) {
      CoeffAppend(s, Scale(-1, s), m);
      CoeffScale(-1, s, m);
    }
  }

  lemma SoundAddZero(s: Sum)
    ensures Equiv(s + [Term(multiset{}, 0)], s)
  {
    forall m ensures Coeff(s + [Term(multiset{}, 0)], m) == Coeff(s, m) {
      CoeffAppend(s, [Term(multiset{}, 0)], m);
    }
  }

  lemma SoundMulOne(s: Sum)
    ensures Equiv(Times(s, [Term(multiset{}, 1)]), s)
  {
    forall m ensures Coeff(Times(s, [Term(multiset{}, 1)]), m) == Coeff(s, m) {
      ShiftSingleton(Term(multiset{}, 1), s, m);
      CoeffShift(Term(multiset{}, 1), s, m);
      assert m - multiset{} == m;
    }
  }

  lemma SoundMulComm(s: Sum, t: Sum)
    ensures Equiv(Times(s, t), Times(t, s))
  {
    forall m ensures Coeff(Times(s, t), m) == Coeff(Times(t, s), m) {
      TimesCommutes(s, t, m);
    }
  }

  lemma SoundDistribute(s: Sum, t: Sum, u: Sum)
    ensures Equiv(Times(s, t + u), Times(s, t) + Times(s, u))
  {
    forall m ensures Coeff(Times(s, t + u), m) == Coeff(Times(s, t) + Times(s, u), m) {
      CoeffTimesAppendRight(s, t, u, m);
      CoeffAppend(Times(s, t), Times(s, u), m);
    }
  }

  lemma SoundConstAdd(m: int, n: int)
    ensures Equiv([Term(multiset{}, m)] + [Term(multiset{}, n)], [Term(multiset{}, m + n)])
  {
    forall x ensures Coeff([Term(multiset{}, m)] + [Term(multiset{}, n)], x) == Coeff([Term(multiset{}, m + n)], x) {
      CoeffAppend([Term(multiset{}, m)], [Term(multiset{}, n)], x);
    }
  }

  lemma SoundConstMul(m: int, n: int)
    ensures Times([Term(multiset{}, m)], [Term(multiset{}, n)]) == [Term(multiset{}, m * n)]
  {
    var s, t := Term(multiset{}, m), Term(multiset{}, n);
    assert [s][1..] == [] && [t][1..] == [];
    assert Times([s], [t]) == Shift(s, [t]) + Times([], [t]);
    assert Shift(s, [t]) == [Term(s.power + t.power, s.coeff * t.coeff)] + Shift(s, []);
    assert s.power + t.power == multiset{};
  }

  lemma SoundConstMod(m: int, n: int)
    requires m % P == n % P
    ensures Equiv([Term(multiset{}, m)], [Term(multiset{}, n)])
  {
    forall x ensures Coeff([Term(multiset{}, m)], x) % P == Coeff([Term(multiset{}, n)], x) % P {
      assert [Term(multiset{}, m)][1..] == [] && [Term(multiset{}, n)][1..] == [];
    }
  }

  lemma {:induction false} Sound(d: Proof, a: Expr, b: Expr)
    requires Proves(d, a, b)
    ensures Equiv(SumOf(a), SumOf(b))
    decreases d
  {
    match d {
      case Refl =>
      case Sym(p) => Sound(p, b, a);
      case Trans(p, mid, q) => Sound(p, a, mid); Sound(q, mid, b);
      case UnderNeg(p) =>
        Sound(p, a.arg, b.arg);
        EquivScale(-1, -1, SumOf(a.arg), SumOf(b.arg));
      case UnderAdd(p, q) =>
        Sound(p, a.left, b.left); Sound(q, a.right, b.right);
        EquivAppend(SumOf(a.left), SumOf(a.right), SumOf(b.left), SumOf(b.right));
      case UnderMul(p, q) =>
        Sound(p, a.left, b.left); Sound(q, a.right, b.right);
        EquivTimes(SumOf(a.left), SumOf(a.right), SumOf(b.left), SumOf(b.right));
      case AddComm => SoundAddComm(SumOf(a.left), SumOf(a.right));
      case AddAssoc =>
        var s, t, u := SumOf(a.left.left), SumOf(a.left.right), SumOf(a.right);
        assert (s + t) + u == s + (t + u);
      case AddZero => SoundAddZero(SumOf(b));
      case AddNeg => SoundAddNeg(SumOf(a.left));
      case SubIsAddNeg =>
      case MulComm => SoundMulComm(SumOf(a.left), SumOf(a.right));
      case MulAssoc => TimesAssociates(SumOf(a.left.left), SumOf(a.left.right), SumOf(a.right));
      case MulOne => SoundMulOne(SumOf(b));
      case Distribute => SoundDistribute(SumOf(a.left), SumOf(a.right.left), SumOf(a.right.right));
      case ConstAdd => SoundConstAdd(a.left.n, a.right.n);
      case ConstMul => SoundConstMul(a.left.n, a.right.n);
      case ConstMod => SoundConstMod(a.n, b.n);
    }
  }

  // ----- the calculus of Eq

  lemma EqRefl(a: Expr) ensures Eq(a, a) {
    assert Proves(Refl, a, a);
  }

  lemma EqSym(a: Expr, b: Expr) requires Eq(a, b) ensures Eq(b, a) {
    var d :| Proves(d, a, b);
    assert Proves(Sym(d), b, a);
  }

  lemma EqTrans(a: Expr, b: Expr, c: Expr) requires Eq(a, b) && Eq(b, c) ensures Eq(a, c) {
    var d :| Proves(d, a, b);
    var e :| Proves(e, b, c);
    assert Proves(Trans(d, b, e), a, c);
  }

  lemma EqNeg(a: Expr, b: Expr) requires Eq(a, b) ensures Eq(Neg(a), Neg(b)) {
    var d :| Proves(d, a, b);
    assert Proves(UnderNeg(d), Neg(a), Neg(b));
  }

  lemma ByAxiom(d: Proof, a: Expr, b: Expr)
    requires Proves(d, a, b)
    ensures Eq(a, b)
  {
  }

  lemma EqAdd(a: Expr, b: Expr, a': Expr, b': Expr)
    requires Eq(a, a') && Eq(b, b')
    ensures Eq(Add(a, b), Add(a', b'))
  {
    var d :| Proves(d, a, a');
    var e :| Proves(e, b, b');
    ByAxiom(UnderAdd(d, e), Add(a, b), Add(a', b'));
  }

  lemma EqMul(a: Expr, b: Expr, a': Expr, b': Expr)
    requires Eq(a, a') && Eq(b, b')
    ensures Eq(Mul(a, b), Mul(a', b'))
  {
    var d :| Proves(d, a, a');
    var e :| Proves(e, b, b');
    ByAxiom(UnderMul(d, e), Mul(a, b), Mul(a', b'));
  }

  lemma Axioms(a: Expr, b: Expr, c: Expr)
    ensures Eq(Add(a, b), Add(b, a))
    ensures Eq(Add(Add(a, b), c), Add(a, Add(b, c)))
    ensures Eq(Add(a, Const(0)), a)
    ensures Eq(Add(a, Neg(a)), Const(0))
    ensures Eq(Sub(a, b), Add(a, Neg(b)))
    ensures Eq(Mul(a, b), Mul(b, a))
    ensures Eq(Mul(Mul(a, b), c), Mul(a, Mul(b, c)))
    ensures Eq(Mul(a, Const(1)), a)
    ensures Eq(Mul(a, Add(b, c)), Add(Mul(a, b), Mul(a, c)))
  {
    ByAxiom(Proof.AddComm, Add(a, b), Add(b, a));
    ByAxiom(Proof.AddAssoc, Add(Add(a, b), c), Add(a, Add(b, c)));
    ByAxiom(Proof.AddZero, Add(a, Const(0)), a);
    ByAxiom(Proof.AddNeg, Add(a, Neg(a)), Const(0));
    ByAxiom(Proof.SubIsAddNeg, Sub(a, b), Add(a, Neg(b)));
    ByAxiom(Proof.MulComm, Mul(a, b), Mul(b, a));
    ByAxiom(Proof.MulAssoc, Mul(Mul(a, b), c), Mul(a, Mul(b, c)));
    ByAxiom(Proof.MulOne, Mul(a, Const(1)), a);
    ByAxiom(Proof.Distribute, Mul(a, Add(b, c)), Add(Mul(a, b), Mul(a, c)));
  }

  lemma Constants(m: int, n: int)
    ensures Eq(Add(Const(m), Const(n)), Const(m + n))
    ensures Eq(Mul(Const(m), Const(n)), Const(m * n))
    ensures m % P == n % P ==> Eq(Const(m), Const(n))
  {
    assert Proves(ConstAdd, Add(Const(m), Const(n)), Const(m + n));
    assert Proves(ConstMul, Mul(Const(m), Const(n)), Const(m * n));
    if m % P == n % P { assert Proves(ConstMod, Const(m), Const(n)); }
  }

  // ----- completeness: every expression provably equals its list of terms

  lemma EqAddZeroLeft(a: Expr)
    ensures Eq(Add(Const(0), a), a)
  {
    Axioms(Const(0), a, a);
    Axioms(a, a, a);
    EqTrans(Add(Const(0), a), Add(a, Const(0)), a);
  }

  lemma EqMulOneLeft(a: Expr)
    ensures Eq(Mul(Const(1), a), a)
  {
    Axioms(Const(1), a, a);
    Axioms(a, a, a);
    EqTrans(Mul(Const(1), a), Mul(a, Const(1)), a);
  }

  /** A sum equal to one of its summands: the other is zero. */
  lemma EqIdempotent(z: Expr)
    requires Eq(z, Add(z, z))
    ensures Eq(z, Const(0))
  {
    var n := Neg(z);
    var l := Add(z, n);
    // 0 = z + -z = (z + z) + -z = z + (z + -z) = z + 0 = z
    Axioms(z, z, n);
    EqRefl(z); EqRefl(n);
    EqAdd(z, n, Add(z, z), n);
    EqAdd(z, l, z, Const(0));
    EqTrans(l, Add(Add(z, z), n), Add(z, l));
    EqTrans(l, Add(z, l), Add(z, Const(0)));
    EqTrans(l, Add(z, Const(0)), z);
    EqSym(l, z);
    EqTrans(z, l, Const(0));
  }

  lemma EqDistribute(a: Expr, b: Expr, c: Expr)
    ensures Eq(Mul(a, Add(b, c)), Add(Mul(a, b), Mul(a, c)))
  {
    Axioms(a, b, c);
  }

  lemma EqMulZero(a: Expr)
    ensures Eq(Mul(a, Const(0)), Const(0))
  {
    var o, z := Const(0), Mul(a, Const(0));
    // z = a * (0 + 0) = z + z
    Constants(0, 0);
    EqRefl(a);
    EqSym(Add(o, o), o);
    EqMul(a, o, a, Add(o, o));
    EqDistribute(a, o, o);
    EqTrans(z, Mul(a, Add(o, o)), Add(z, z));
    EqIdempotent(z);
  }

  lemma EqNegUnique(a: Expr, m: Expr)
    requires Eq(Add(a, m), Const(0))
    ensures Eq(Neg(a), m)
  {
    var o, n := Const(0), Neg(a);
    // -a = -a + 0 = -a + (a + m) = (-a + a) + m = 0 + m = m
    Axioms(n, a, m);
    Axioms(a, n, m);
    EqRefl(n); EqRefl(m);
    EqSym(Add(n, o), n);
    EqSym(Add(a, m), o);
    EqAdd(n, o, n, Add(a, m));
    EqTrans(n, Add(n, o), Add(n, Add(a, m)));
    EqSym(Add(Add(n, a), m), Add(n, Add(a, m)));
    EqTrans(n, Add(n, Add(a, m)), Add(Add(n, a), m));
    EqTrans(Add(n, a), Add(a, n), o);
    EqAdd(Add(n, a), m, o, m);
    EqTrans(n, Add(Add(n, a), m), Add(o, m));
    EqAddZeroLeft(m);
    EqTrans(n, Add(o, m), m);
  }

  lemma EqNegIsScale(a: Expr)
    ensures Eq(Neg(a), Mul(Const(-1), a))
  {
    var o, m, n := Const(0), Mul(Const(-1), a), Neg(a);
    var s := Add(Const(1), Const(-1));
    // a + m = a * 1 + a * -1 = a * (1 + -1) = a * 0 = 0
    Axioms(a, Const(1), Const(-1));
    Axioms(Const(-1), a, a);
    EqSym(Mul(a, Const(1)), a);
    EqAdd(a, m, Mul(a, Const(1)), Mul(a, Const(-1)));
    EqSym(Mul(a, s), Add(Mul(a, Const(1)), Mul(a, Const(-1))));
    EqTrans(Add(a, m), Add(Mul(a, Const(1)), Mul(a, Const(-1))), Mul(a, s));
    Constants(1, -1);
    EqRefl(a);
    EqMul(a, s, a, o);
    EqMulZero(a);
    EqTrans(Add(a, m), Mul(a, s), Mul(a, o));
    EqTrans(Add(a, m), Mul(a, o), o);
    EqNegUnique(a, m);
  }

  // ----- expressions for powers, terms and sums

  ghost function PowerExpr(x: Power): Expr
    decreases |x|
  {
    if x == multiset{} then Const(1) else
      var a :| a in x;
      Mul(Var(a), PowerExpr(x - multiset{a}))
  }

  ghost function TermExpr(t: Term): Expr {
    Mul(Const(t.coeff), PowerExpr(t.power))
  }

  ghost function SumExpr(s: Sum): Expr {
    if s == [] then Const(0) else Add(TermExpr(s[0]), SumExpr(s[1..]))
  }

  /** a * (b * c) = b * (a * c) */
  lemma EqMulSwap(a: Expr, b: Expr, c: Expr)
    ensures Eq(Mul(a, Mul(b, c)), Mul(b, Mul(a, c)))
  {
    Axioms(a, b, c);
    Axioms(b, a, c);
    EqRefl(c);
    EqSym(Mul(Mul(a, b), c), Mul(a, Mul(b, c)));
    EqMul(Mul(a, b), c, Mul(b, a), c);
    EqTrans(Mul(a, Mul(b, c)), Mul(Mul(a, b), c), Mul(Mul(b, a), c));
    EqTrans(Mul(a, Mul(b, c)), Mul(Mul(b, a), c), Mul(b, Mul(a, c)));
  }

  lemma {:induction false} PowerExprPick(x: Power, a: Atom)
    requires a in x
    ensures Eq(PowerExpr(x), Mul(Var(a), PowerExpr(x - multiset{a})))
    decreases |x|
  {
    var b :| b in x && PowerExpr(x) == Mul(Var(b), PowerExpr(x - multiset{b}));
    if a == b {
      EqRefl(PowerExpr(x));
    } else {
      var y := x - multiset{a} - multiset{b};
      assert y == x - multiset{b} - multiset{a};
      PowerExprPick(x - multiset{b}, a);
      PowerExprPick(x - multiset{a}, b);
      EqRefl(Var(b)); EqRefl(Var(a));
      EqMul(Var(b), PowerExpr(x - multiset{b}), Var(b), Mul(Var(a), PowerExpr(y)));
      EqMulSwap(Var(b), Var(a), PowerExpr(y));
      EqSym(PowerExpr(x - multiset{a}), Mul(Var(b), PowerExpr(y)));
      EqMul(Var(a), Mul(Var(b), PowerExpr(y)), Var(a), PowerExpr(x - multiset{a}));
      EqTrans(PowerExpr(x), Mul(Var(b), Mul(Var(a), PowerExpr(y))), Mul(Var(a), Mul(Var(b), PowerExpr(y))));
      EqTrans(PowerExpr(x), Mul(Var(a), Mul(Var(b), PowerExpr(y))), Mul(Var(a), PowerExpr(x - multiset{a})));
    }
  }

  lemma {:induction false} PowerExprAdd(x: Power, y: Power)
    ensures Eq(Mul(PowerExpr(x), PowerExpr(y)), PowerExpr(x + y))
    decreases |x|
  {
    if x == multiset{} {
      assert x + y == y;
      EqMulOneLeft(PowerExpr(y));
    } else {
      var a :| a in x;
      var x' := x - multiset{a};
      assert x + y - multiset{a} == x' + y;
      PowerExprPick(x, a);
      PowerExprPick(x + y, a);
      PowerExprAdd(x', y);
      EqRefl(PowerExpr(y)); EqRefl(Var(a));
      EqMul(PowerExpr(x), PowerExpr(y), Mul(Var(a), PowerExpr(x')), PowerExpr(y));
      Axioms(Var(a), PowerExpr(x'), PowerExpr(y));
      EqMul(Var(a), Mul(PowerExpr(x'), PowerExpr(y)), Var(a), PowerExpr(x' + y));
      EqSym(PowerExpr(x + y), Mul(Var(a), PowerExpr(x' + y)));
      var l := Mul(PowerExpr(x), PowerExpr(y));
      EqTrans(l, Mul(Mul(Var(a), PowerExpr(x')), PowerExpr(y)), Mul(Var(a), Mul(PowerExpr(x'), PowerExpr(y))));
      EqTrans(l, Mul(Var(a), Mul(PowerExpr(x'), PowerExpr(y))), Mul(Var(a), PowerExpr(x' + y)));
      EqTrans(l, Mul(Var(a), PowerExpr(x' + y)), PowerExpr(x + y));
    }
  }

  lemma {:induction false} SumExprAppend(s: Sum, t: Sum)
    ensures Eq(Add(SumExpr(s), SumExpr(t)), SumExpr(s + t))
  {
    if s == [] {
      assert s + t == t;
      EqAddZeroLeft(SumExpr(t));
    } else {
      SumExprAppend(s[1..], t);
      assert (s + t)[1..] == s[1..] + t;
      var h, r := TermExpr(s[0]), SumExpr(s[1..]);
      Axioms(h, r, SumExpr(t));
      EqRefl(h);
      EqAdd(h, Add(r, SumExpr(t)), h, SumExpr(s[1..] + t));
      EqTrans(Add(Add(h, r), SumExpr(t)), Add(h, Add(r, SumExpr(t))), SumExpr(s + t));
    }
  }

  /** c * (k * x) = (c * k) * x, with the constants multiplied out. */
  lemma EqScaleTerm(c: int, t: Term)
    ensures Eq(Mul(Const(c), TermExpr(t)), TermExpr(Term(t.power, c * t.coeff)))
  {
    var x := PowerExpr(t.power);
    Axioms(Const(c), Const(t.coeff), x);
    EqSym(Mul(Mul(Const(c), Const(t.coeff)), x), Mul(Const(c), TermExpr(t)));
    Constants(c, t.coeff);
    EqRefl(x);
    EqMul(Mul(Const(c), Const(t.coeff)), x, Const(c * t.coeff), x);
    EqTrans(Mul(Const(c), TermExpr(t)), Mul(Mul(Const(c), Const(t.coeff)), x), TermExpr(Term(t.power, c * t.coeff)));
  }

  lemma {:induction false} SumExprScale(c: int, s: Sum)
    ensures Eq(Mul(Const(c), SumExpr(s)), SumExpr(Scale(c, s)))
  {
    if s == [] {
      EqMulZero(Const(c));
    } else {
      SumExprScale(c, s[1..]);
      EqScaleTerm(c, s[0]);
      var h, r := TermExpr(s[0]), SumExpr(s[1..]);
      var h', r' := TermExpr(Term(s[0].power, c * s[0].coeff)), SumExpr(Scale(c, s[1..]));
      Axioms(Const(c), h, r);
      EqAdd(Mul(Const(c), h), Mul(Const(c), r), h', r');
      assert Scale(c, s)[1..] == Scale(c, s[1..]);
      EqTrans(Mul(Const(c), SumExpr(s)), Add(Mul(Const(c), h), Mul(Const(c), r)), SumExpr(Scale(c, s)));
    }
  }

  /** (a * x) * (b * y) = (a * b) * (x * y) */
  lemma EqMulTerms(t: Term, u: Term)
    ensures Eq(Mul(TermExpr(t), TermExpr(u)), TermExpr(Term(t.power + u.power, t.coeff * u.coeff)))
  {
    var a, x, b, y := Const(t.coeff), PowerExpr(t.power), Const(u.coeff), PowerExpr(u.power);
    var l := Mul(Mul(a, x), Mul(b, y));
    Axioms(a, x, Mul(b, y));
    EqMulSwap(x, b, y);
    EqRefl(a);
    EqMul(a, Mul(x, Mul(b, y)), a, Mul(b, Mul(x, y)));
    EqTrans(l, Mul(a, Mul(x, Mul(b, y))), Mul(a, Mul(b, Mul(x, y))));
    Axioms(a, b, Mul(x, y));
    EqSym(Mul(Mul(a, b), Mul(x, y)), Mul(a, Mul(b, Mul(x, y))));
    EqTrans(l, Mul(a, Mul(b, Mul(x, y))), Mul(Mul(a, b), Mul(x, y)));
    Constants(t.coeff, u.coeff);
    PowerExprAdd(t.power, u.power);
    var c, z := Const(t.coeff * u.coeff), PowerExpr(t.power + u.power);
    EqMul(Mul(a, b), Mul(x, y), c, z);
    EqTrans(l, Mul(Mul(a, b), Mul(x, y)), Mul(c, z));
  }

  lemma {:induction false} SumExprShift(t: Term, s: Sum)
    ensures Eq(Mul(TermExpr(t), SumExpr(s)), SumExpr(Shift(t, s)))
  {
    var e := TermExpr(t);
    if s == [] {
      EqMulZero(e);
    } else {
      SumExprShift(t, s[1..]);
      EqMulTerms(t, s[0]);
      var h, r := TermExpr(s[0]), SumExpr(s[1..]);
      var u := Term(t.power + s[0].power, t.coeff * s[0].coeff);
      Axioms(e, h, r);
      EqAdd(Mul(e, h), Mul(e, r), TermExpr(u), SumExpr(Shift(t, s[1..])));
      assert Shift(t, s)[1..] == Shift(t, s[1..]);
      EqTrans(Mul(e, SumExpr(s)), Add(Mul(e, h), Mul(e, r)), SumExpr(Shift(t, s)));
    }
  }

  lemma EqDistributeLeft(a: Expr, b: Expr, c: Expr)
    ensures Eq(Mul(Add(a, b), c), Add(Mul(a, c), Mul(b, c)))
  {
    Axioms(Add(a, b), c, c);
    Axioms(c, a, b);
    Axioms(c, b, b);
    EqTrans(Mul(Add(a, b), c), Mul(c, Add(a, b)), Add(Mul(c, a), Mul(c, b)));
    EqAdd(Mul(c, a), Mul(c, b), Mul(a, c), Mul(b, c));
    EqTrans(Mul(Add(a, b), c), Add(Mul(c, a), Mul(c, b)), Add(Mul(a, c), Mul(b, c)));
  }

  lemma {:induction false} SumExprTimes(s: Sum, t: Sum)
    ensures Eq(Mul(SumExpr(s), SumExpr(t)), SumExpr(Times(s, t)))
  {
    var e := SumExpr(t);
    if s == [] {
      Axioms(Const(0), e, e);
      EqMulZero(e);
      EqTrans(Mul(Const(0), e), Mul(e, Const(0)), Const(0));
    } else {
      var h, r := TermExpr(s[0]), SumExpr(s[1..]);
      SumExprTimes(s[1..], t);
      SumExprShift(s[0], t);
      EqDistributeLeft(h, r, e);
      EqAdd(Mul(h, e), Mul(r, e), SumExpr(Shift(s[0], t)), SumExpr(Times(s[1..], t)));
      SumExprAppend(Shift(s[0], t), Times(s[1..], t));
      EqTrans(Mul(Add(h, r), e), Add(Mul(h, e), Mul(r, e)), Add(SumExpr(Shift(s[0], t)), SumExpr(Times(s[1..], t))));
      EqTrans(Mul(Add(h, r), e), Add(SumExpr(Shift(s[0], t)), SumExpr(Times(s[1..], t))), SumExpr(Times(s, t)));
    }
  }

  lemma SingleTerm(t: Term, e: Expr)
    requires Eq(TermExpr(t), e)
    ensures Eq(e, SumExpr([t]))
  {
    assert [t][1..] == [];
    assert SumExpr([t]) == Add(TermExpr(t), SumExpr([]));
    Axioms(TermExpr(t), e, e);
    EqTrans(SumExpr([t]), TermExpr(t), e);
    EqSym(SumExpr([t]), e);
  }

  lemma ConstExpands(n: int)
    ensures Eq(Const(n), SumExpr([Term(multiset{}, n)]))
  {
    Axioms(Const(n), Const(1), Const(1));
    SingleTerm(Term(multiset{}, n), Const(n));
  }

  lemma VarExpands(a: Atom)
    ensures Eq(Var(a), SumExpr([Term(multiset{a}, 1)]))
  {
    var v := PowerExpr(multiset{a});
    PowerExprPick(multiset{a}, a);
    assert multiset{a} - multiset{a} == multiset{};
    Axioms(Var(a), Var(a), Var(a));
    EqTrans(v, Mul(Var(a), Const(1)), Var(a));
    EqMulOneLeft(v);
    EqTrans(Mul(Const(1), v), v, Var(a));
    SingleTerm(Term(multiset{a}, 1), Var(a));
  }

  lemma NegExpands(a: Expr, s: Sum)
    requires Eq(a, SumExpr(s))
    ensures Eq(Neg(a), SumExpr(Scale(-1, s)))
  {
    EqNeg(a, SumExpr(s));
    EqNegIsScale(SumExpr(s));
    SumExprScale(-1, s);
    EqTrans(Neg(a), Neg(SumExpr(s)), Mul(Const(-1), SumExpr(s)));
    EqTrans(Neg(a), Mul(Const(-1), SumExpr(s)), SumExpr(Scale(-1, s)));
  }

  lemma AddExpands(a: Expr, b: Expr, s: Sum, t: Sum)
    requires Eq(a, SumExpr(s)) && Eq(b, SumExpr(t))
    ensures Eq(Add(a, b), SumExpr(s + t))
  {
    EqAdd(a, b, SumExpr(s), SumExpr(t));
    SumExprAppend(s, t);
    EqTrans(Add(a, b), Add(SumExpr(s), SumExpr(t)), SumExpr(s + t));
  }

  lemma {:induction false} Expands(e: Expr)
    ensures Eq(e, SumExpr(SumOf(e)))
  {
    match e {
      case Const(n) => ConstExpands(n);
      case Var(a) => VarExpands(a);
      case Neg(a) =>
        Expands(a);
        NegExpands(a, SumOf(a));
      case Add(a, b) =>
        Expands(a); Expands(b);
        AddExpands(a, b, SumOf(a), SumOf(b));
      case Sub(a, b) =>
        Expands(a); Expands(b);
        NegExpands(b, SumOf(b));
        AddExpands(a, Neg(b), SumOf(a), Scale(-1, SumOf(b)));
        Axioms(a, b, b);
        EqTrans(e, Add(a, Neg(b)), SumExpr(SumOf(e)));
      case Mul(a, b) =>
        Expands(a); Expands(b);
        EqMul(a, b, SumExpr(SumOf(a)), SumExpr(SumOf(b)));
        SumExprTimes(SumOf(a), SumOf(b));
        EqTrans(e, Mul(SumExpr(SumOf(a)), SumExpr(SumOf(b))), SumExpr(SumOf(e)));
    }
  }

  // ----- equal coefficients are provably equal sums

  ghost function Gathered(s: Sum, m: Power): Expr {
    Add(TermExpr(Term(m, Coeff(s, m))), SumExpr(Without(s, m)))
  }

  lemma GatherEmpty(m: Power)
    ensures Eq(Const(0), Gathered([], m))
  {
    var x := PowerExpr(m);
    var z := Mul(Const(0), x);
    Axioms(Const(0), x, x);
    EqMulZero(x);
    EqTrans(z, Mul(x, Const(0)), Const(0));
    Axioms(z, x, x);
    EqTrans(Add(z, Const(0)), z, Const(0));
    EqSym(Add(z, Const(0)), Const(0));
  }

  lemma EqAddSwap(a: Expr, b: Expr, c: Expr)
    ensures Eq(Add(a, Add(b, c)), Add(b, Add(a, c)))
  {
    Axioms(a, b, c);
    Axioms(b, a, c);
    EqRefl(c);
    EqSym(Add(Add(a, b), c), Add(a, Add(b, c)));
    EqAdd(Add(a, b), c, Add(b, a), c);
    EqTrans(Add(a, Add(b, c)), Add(Add(a, b), c), Add(Add(b, a), c));
    EqTrans(Add(a, Add(b, c)), Add(Add(b, a), c), Add(b, Add(a, c)));
  }

  /** i * x + j * x = (i + j) * x */
  lemma EqCollect(i: int, j: int, x: Expr)
    ensures Eq(Add(Mul(Const(i), x), Mul(Const(j), x)), Mul(Const(i + j), x))
  {
    var a, b, s := Mul(Const(i), x), Mul(Const(j), x), Add(Const(i), Const(j));
    EqDistributeLeft(Const(i), Const(j), x);
    EqSym(Mul(s, x), Add(a, b));
    Constants(i, j);
    EqRefl(x);
    EqMul(s, x, Const(i + j), x);
    EqTrans(Add(a, b), Mul(s, x), Mul(Const(i + j), x));
  }

  lemma EqAddAssoc(a: Expr, b: Expr, c: Expr)
    ensures Eq(Add(a, Add(b, c)), Add(Add(a, b), c))
  {
    Axioms(a, b, c);
    EqSym(Add(Add(a, b), c), Add(a, Add(b, c)));
  }

  /** i * x + (j * x + w) = (i + j) * x + w */
  lemma GatherHit(i: int, j: int, m: Power, w: Expr)
    ensures Eq(Add(TermExpr(Term(m, i)), Add(TermExpr(Term(m, j)), w)), Add(TermExpr(Term(m, i + j)), w))
  {
    var a, b, c := TermExpr(Term(m, i)), TermExpr(Term(m, j)), TermExpr(Term(m, i + j));
    EqCollect(i, j, PowerExpr(m));
    EqRefl(w);
    EqAdd(Add(a, b), w, c, w);
    EqAddAssoc(a, b, w);
    EqTrans(Add(a, Add(b, w)), Add(Add(a, b), w), Add(c, w));
  }

  lemma GatherStep(s: Sum, m: Power)
    requires s != [] && Eq(SumExpr(s[1..]), Gathered(s[1..], m))
    ensures Eq(SumExpr(s), Gathered(s, m))
  {
    var h, g, w := TermExpr(s[0]), TermExpr(Term(m, Coeff(s[1..], m))), SumExpr(Without(s[1..], m));
    EqRefl(h);
    EqAdd(h, SumExpr(s[1..]), h, Add(g, w));
    if s[0].power == m {
      GatherHit(s[0].coeff, Coeff(s[1..], m), m, w);
    } else {
      EqAddSwap(h, g, w);
      assert Without(s, m)[1..] == Without(s[1..], m);
    }
    EqTrans(SumExpr(s), Add(h, Add(g, w)), Gathered(s, m));
  }

  /** Collecting the terms of one monomial. */
  lemma {:induction false} Gather(s: Sum, m: Power)
    ensures Eq(SumExpr(s), Gathered(s, m))
  {
    if s == [] {
      GatherEmpty(m);
    } else {
      Gather(s[1..], m);
      GatherStep(s, m);
    }
  }

  lemma {:induction false} EquivProvable(s: Sum, t: Sum)
    requires Equiv(s, t)
    ensures Eq(SumExpr(s), SumExpr(t))
    decreases |s| + |t|, if s == [] then 1 else 0
  {
    if s == [] && t == [] {
      EqRefl(SumExpr(s));
    } else if s != [] {
      var m := s[0].power;
      EquivWithout(s, t, m);
      EquivProvable(Without(s, m), Without(t, m));
      Gather(s, m);
      Gather(t, m);
      assert Coeff(s, m) % P == Coeff(t, m) % P;
      Constants(Coeff(s, m), Coeff(t, m));
      EqRefl(PowerExpr(m));
      EqMul(Const(Coeff(s, m)), PowerExpr(m), Const(Coeff(t, m)), PowerExpr(m));
      EqAdd(TermExpr(Term(m, Coeff(s, m))), SumExpr(Without(s, m)), TermExpr(Term(m, Coeff(t, m))),
          SumExpr(Without(t, m)));
      EqTrans(SumExpr(s), Gathered(s, m), Gathered(t, m));
      EqSym(SumExpr(t), Gathered(t, m));
      EqTrans(SumExpr(s), Gathered(t, m), SumExpr(t));
    } else {
      EquivProvable(t, s);
      EqSym(SumExpr(t), SumExpr(s));
    }
  }

  /** The main theorem of the normal form: two expressions have the same canonical
      listing exactly when the ring axioms modulo P prove them equal. */
  lemma CanonicalIffProvable(a: Expr, b: Expr)
    ensures CanonicalOf(a) == CanonicalOf(b) <==> Eq(a, b)
  {
    CanonicalDecides(a, b);
    if Eq(a, b) {
      var d :| Proves(d, a, b);
      Sound(d, a, b);
    }
    if Equiv(SumOf(a), SumOf(b)) {
      Expands(a);
      Expands(b);
      EquivProvable(SumOf(a), SumOf(b));
      EqTrans(a, SumExpr(SumOf(a)), SumExpr(SumOf(b)));
      EqSym(b, SumExpr(SumOf(b)));
      EqTrans(a, SumExpr(SumOf(b)), b);
    }
  }
}
