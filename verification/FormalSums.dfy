/** Formal sums of monomials with integer coefficients: the unnormalised polynomials
    that the term dictionaries are compared against. Everything that depends on a sum
    only through its coefficients modulo P goes through one lemma, `LinCong`. */
module FormalSums {
  import opened Atoms
  import opened Modular
  import opened Goldilocks

  type Power = multiset<Atom>

  datatype Term = Term(power: Power, coeff: int)
  type Sum = seq<Term>

  /** The coefficient of one monomial, over the integers. */
  ghost function Coeff(s: Sum, m: Power): int {
    if s == [] then 0 else (if s[0].power == m then s[0].coeff else 0) + Coeff(s[1..], m)
  }

  /** The linear functional that sends each monomial m to g(m). */
  ghost function Lin(s: Sum, g: Power -> int): int {
    if s == [] then 0 else s[0].coeff * g(s[0].power) + Lin(s[1..], g)
  }

  /** Equality of polynomials over GF(P): all coefficients agree. */
  ghost predicate Equiv(s: Sum, t: Sum) {
    forall m :: Coeff(s, m) % P == Coeff(t, m) % P
  }

  // ----- operations

  function Scale(c: int, s: Sum): (r: Sum)
    ensures |r| == |s|
  {
    if s == [] then [] else [Term(s[0].power, c * s[0].coeff)] + Scale(c, s[1..])
  }

  /** One term times a sum. */
  function Shift(t: Term, s: Sum): (r: Sum)
    ensures |r| == |s|
  {
    if s == [] then []
    else [Term(t.power + s[0].power, t.coeff * s[0].coeff)] + Shift(t, s[1..])
  }

  function Times(s: Sum, t: Sum): Sum {
    if s == [] then [] else Shift(s[0], t) + Times(s[1..], t)
  }

  // ----- coefficients of the operations

  lemma {:induction false} CoeffAppend(s: Sum, t: Sum, m: Power)
    ensures Coeff(s + t, m) == Coeff(s, m) + Coeff(t, m)
  {
    if s == [] {
      assert s + t == t;
    } else {
      CoeffAppend(s[1..], t, m);
      assert (s + t)[1..] == s[1..] + t;
    }
  }

  lemma {:induction false} LinAppend(s: Sum, t: Sum, g: Power -> int)
    ensures Lin(s + t, g) == Lin(s, g) + Lin(t, g)
  {
    if s == [] {
      assert s + t == t;
    } else {
      LinAppend(s[1..], t, g);
      assert (s + t)[1..] == s[1..] + t;
    }
  }

  lemma {:induction false} CoeffScale(c: int, s: Sum, m: Power)
    ensures Coeff(Scale(c, s), m) == c * Coeff(s, m)
  {
    if s == [] {
    } else {
      CoeffScale(c, s[1..], m);
    }
  }

  lemma {:induction false} LinScale(c: int, s: Sum, g: Power -> int)
    ensures Lin(Scale(c, s), g) == c * Lin(s, g)
  {
    if s == [] {
    } else {
      LinScale(c, s[1..], g);
      var x, y := s[0].coeff, g(s[0].power);
      assert (c * x) * y == c * (x * y);
    }
  }

  /** x * y = m exactly when x divides m and y is the quotient. */
  lemma Quotient(x: Power, y: Power, m: Power)
    ensures x + y == m <==> x <= m && y == m - x
  {
    if x <= m { assert m - x + x == m; }
    if x + y == m { assert m - x == y; }
  }

  lemma Distribute(c: int, x: int, y: int)
    ensures c * (x + y) == c * x + c * y
  {
  }

  lemma {:induction false} CoeffShift(t: Term, s: Sum, m: Power)
    ensures Coeff(Shift(t, s), m) == t.coeff * (if t.power <= m then Coeff(s, m - t.power) else 0)
  {
    if s == [] {
    } else {
      CoeffShift(t, s[1..], m);
      Quotient(t.power, s[0].power, m);
      if t.power <= m {
        Distribute(t.coeff, if s[0].power == m - t.power then s[0].coeff else 0, Coeff(s[1..], m - t.power));
      }
    }
  }

  /** The functional that picks out, from each left factor, its share of the
      coefficient of m in a product with t. */
  ghost function Share(t: Sum, m: Power): Power -> int {
    x => if x <= m then Coeff(t, m - x) else 0
  }

  lemma {:induction false} CoeffTimes(s: Sum, t: Sum, m: Power)
    ensures Coeff(Times(s, t), m) == Lin(s, Share(t, m))
  {
    if s == [] {
    } else {
      CoeffTimes(s[1..], t, m);
      CoeffAppend(Shift(s[0], t), Times(s[1..], t), m);
      CoeffShift(s[0], t, m);
    }
  }

  // ----- the one congruence lemma

  ghost function Without(s: Sum, m: Power): (r: Sum)
    ensures |r| <= |s|
  {
    if s == [] then []
    else if s[0].power == m then Without(s[1..], m)
    else [s[0]] + Without(s[1..], m)
  }

  lemma {:induction false} CoeffWithout(s: Sum, m: Power, n: Power)
    ensures Coeff(Without(s, m), n) == if m == n then 0 else Coeff(s, n)
  {
    if s == [] {
    } else {
      CoeffWithout(s[1..], m, n);
    }
  }

  lemma {:induction false} LinWithout(s: Sum, m: Power, g: Power -> int)
    ensures Lin(s, g) == Coeff(s, m) * g(m) + Lin(Without(s, m), g)
  {
    if s == [] {
    } else {
      LinWithout(s[1..], m, g);
      if s[0].power == m {
        var c, d, v := s[0].coeff, Coeff(s[1..], m), g(m);
        assert (c + d) * v == c * v + d * v;
      }
    }
  }

  lemma EquivWithout(s: Sum, t: Sum, m: Power)
    requires Equiv(s, t)
    ensures Equiv(Without(s, m), Without(t, m))
  {
    forall n ensures Coeff(Without(s, m), n) % P == Coeff(Without(t, m), n) % P {
      CoeffWithout(s, m, n);
      CoeffWithout(t, m, n);
    }
  }

  /** A linear functional sees a sum only through its coefficients modulo P. */
  lemma {:induction false} LinCong(s: Sum, t: Sum, g: Power -> int)
    requires Equiv(s, t)
    ensures Lin(s, g) % P == Lin(t, g) % P
    decreases |s| + |t|, if s == [] then 1 else 0
  {
    if s == [] && t == [] {
    } else if s != [] {
      var m := s[0].power;
      EquivWithout(s, t, m);
      LinCong(Without(s, m), Without(t, m), g);
      LinWithout(s, m, g);
      LinWithout(t, m, g);
      CongMul(Coeff(s, m), Coeff(t, m), g(m), g(m), P);
      CongAdd(Coeff(s, m) * g(m), Coeff(t, m) * g(m), Lin(Without(s, m), g), Lin(Without(t, m), g), P);
    } else {
      LinCong(t, s, g);
    }
  }

  // ----- Equiv is a congruence

  lemma EquivAppend(s: Sum, t: Sum, s': Sum, t': Sum)
    requires Equiv(s, s') && Equiv(t, t')
    ensures Equiv(s + t, s' + t')
  {
    forall m ensures Coeff(s + t, m) % P == Coeff(s' + t', m) % P {
      CoeffAppend(s, t, m);
      CoeffAppend(s', t', m);
      CongAdd(Coeff(s, m), Coeff(s', m), Coeff(t, m), Coeff(t', m), P);
    }
  }

  lemma EquivScale(c: int, d: int, s: Sum, t: Sum)
    requires Equiv(s, t) && c % P == d % P
    ensures Equiv(Scale(c, s), Scale(d, t))
  {
    forall m ensures Coeff(Scale(c, s), m) % P == Coeff(Scale(d, t), m) % P {
      CoeffScale(c, s, m);
      CoeffScale(d, t, m);
      CongMul(c, d, Coeff(s, m), Coeff(t, m), P);
    }
  }

  lemma EquivTimesLeft(s: Sum, s': Sum, t: Sum)
    requires Equiv(s, s')
    ensures Equiv(Times(s, t), Times(s', t))
  {
    forall m ensures Coeff(Times(s, t), m) % P == Coeff(Times(s', t), m) % P {
      CoeffTimes(s, t, m);
      CoeffTimes(s', t, m);
      LinCong(s, s', Share(t, m));
    }
  }

  // ----- the ring laws, on coefficients over the integers

  lemma ShareAppend(t: Sum, u: Sum, m: Power, x: Power)
    ensures Share(t + u, m)(x) == Share(t, m)(x) + Share(u, m)(x)
  {
    if x <= m { CoeffAppend(t, u, m - x); }
  }

  lemma {:induction false} LinShareAppend(s: Sum, t: Sum, u: Sum, m: Power)
    ensures Lin(s, Share(t + u, m)) == Lin(s, Share(t, m)) + Lin(s, Share(u, m))
  {
    if s == [] {
    } else {
      LinShareAppend(s[1..], t, u, m);
      ShareAppend(t, u, m, s[0].power);
      Distribute(s[0].coeff, Share(t, m)(s[0].power), Share(u, m)(s[0].power));
    }
  }

  lemma CoeffTimesAppendRight(s: Sum, t: Sum, u: Sum, m: Power)
    ensures Coeff(Times(s, t + u), m) == Coeff(Times(s, t), m) + Coeff(Times(s, u), m)
  {
    LinShareAppend(s, t, u, m);
    CoeffTimes(s, t + u, m);
    CoeffTimes(s, t, m);
    CoeffTimes(s, u, m);
  }

  lemma AppendAssociates(a: Sum, b: Sum, c: Sum)
    ensures a + (b + c) == (a + b) + c
  {
  }

  lemma {:induction false} TimesAppendLeft(s: Sum, t: Sum, u: Sum)
    ensures Times(s + t, u) == Times(s, u) + Times(t, u)
  {
    if s == [] {
      assert s + t == t;
    } else {
      TimesAppendLeft(s[1..], t, u);
      assert (s + t)[1..] == s[1..] + t;
      AppendAssociates(Shift(s[0], u), Times(s[1..], u), Times(t, u));
    }
  }

  lemma {:induction false} CoeffTimesEmpty(s: Sum, m: Power)
    ensures Coeff(Times(s, []), m) == 0
  {
    if s == [] {
    } else {
      CoeffTimesEmpty(s[1..], m);
      CoeffAppend(Shift(s[0], []), Times(s[1..], []), m);
    }
  }

  lemma {:induction false} ShiftSingleton(t: Term, s: Sum, m: Power)
    ensures Coeff(Times(s, [t]), m) == Coeff(Shift(t, s), m)
  {
    if s == [] {
    } else {
      ShiftSingleton(t, s[1..], m);
      assert [t][1..] == [];
      assert Shift(s[0], [t]) == [Term(s[0].power + t.power, s[0].coeff * t.coeff)] + Shift(s[0], []);
      assert Shift(s[0], []) == [];
      CoeffAppend(Shift(s[0], [t]), Times(s[1..], [t]), m);
      assert s[0].power + t.power == t.power + s[0].power;
      assert s[0].coeff * t.coeff == t.coeff * s[0].coeff;
      assert Shift(t, s) == Shift(s[0], [t]) + Shift(t, s[1..]);
      CoeffAppend(Shift(s[0], [t]), Shift(t, s[1..]), m);
    }
  }

  lemma {:induction false} TimesCommutes(s: Sum, t: Sum, m: Power)
    ensures Coeff(Times(s, t), m) == Coeff(Times(t, s), m)
  {
    if s == [] {
      CoeffTimesEmpty(t, m);
    } else {
      TimesCommutes(s[1..], t, m);
      CoeffAppend(Shift(s[0], t), Times(s[1..], t), m);
      assert s == [s[0]] + s[1..];
      CoeffTimesAppendRight(t, [s[0]], s[1..], m);
      ShiftSingleton(s[0], t, m);
    }
  }

  lemma {:induction false} ShiftShift(a: Term, b: Term, s: Sum)
    ensures Shift(a, Shift(b, s)) == Shift(Term(a.power + b.power, a.coeff * b.coeff), s)
  {
    if s == [] {
    } else {
      ShiftShift(a, b, s[1..]);
      assert a.power + (b.power + s[0].power) == (a.power + b.power) + s[0].power;
      assert a.coeff * (b.coeff * s[0].coeff) == (a.coeff * b.coeff) * s[0].coeff;
    }
  }

  lemma {:induction false} ShiftAppend(a: Term, s: Sum, t: Sum)
    ensures Shift(a, s + t) == Shift(a, s) + Shift(a, t)
  {
    if s == [] {
      assert s + t == t;
    } else {
      ShiftAppend(a, s[1..], t);
      assert (s + t)[1..] == s[1..] + t;
    }
  }

  lemma {:induction false} ShiftTimes(a: Term, s: Sum, t: Sum)
    ensures Times(Shift(a, s), t) == Shift(a, Times(s, t))
  {
    if s == [] {
    } else {
      ShiftTimes(a, s[1..], t);
      ShiftAppend(a, Shift(s[0], t), Times(s[1..], t));
      ShiftShift(a, s[0], t);
    }
  }

  lemma {:induction false} TimesAssociates(s: Sum, t: Sum, u: Sum)
    ensures Times(Times(s, t), u) == Times(s, Times(t, u))
  {
    if s == [] {
    } else {
      TimesAssociates(s[1..], t, u);
      TimesAppendLeft(Shift(s[0], t), Times(s[1..], t), u);
      ShiftTimes(s[0], t, u);
    }
  }

  lemma EquivTimes(s: Sum, t: Sum, s': Sum, t': Sum)
    requires Equiv(s, s') && Equiv(t, t')
    ensures Equiv(Times(s, t), Times(s', t'))
  {
    EquivTimesLeft(s, s', t);
    EquivTimesLeft(t, t', s');
    forall m ensures Coeff(Times(s, t), m) % P == Coeff(Times(s', t'), m) % P {
      TimesCommutes(s', t, m);
      TimesCommutes(s', t', m);
    }
  }
}
