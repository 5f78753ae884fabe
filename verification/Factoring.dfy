/** `_scalar_factor`: when one polynomial is a scalar multiple of another, and by which scalar. */
module Factoring {
  import opened Monomials
  import opened Results
  import opened Modular
  import opened Goldilocks
  import opened FormalSums
  import opened Polynomials

  // ----- _scalar_factor

  /** left = s * right, as formal polynomials over GF(P). */
  ghost predicate Multiple(left: Poly, right: Poly, s: int) {
    Equiv(Terms(left.terms), Scale(s, Terms(right.terms)))
  }

  lemma MultipleLookup(left: Poly, right: Poly, s: int, m: Mono)
    requires WellFormed(left) && WellFormed(right) && Multiple(left, right, s) && Canon(m)
    ensures Get(left.terms, m) % P == (s * Get(right.terms, m)) % P
  {
    CoeffLookup(left.terms, m);
    CoeffLookup(right.terms, m);
    CoeffScale(s, Terms(right.terms), Abs(m));
    assert Coeff(Terms(left.terms), Abs(m)) % P == Coeff(Scale(s, Terms(right.terms)), Abs(m)) % P;
  }

  lemma NonZeroEntry(p: Poly, m: Mono)
    requires WellFormed(p)
    ensures m in p.terms <==> Get(p.terms, m) % P != 0
  {
    if m in p.terms { ModUnique(p.terms[m], P, 0, p.terms[m]); }
  }

  lemma ZeroTimes(s: int, c: int)
    requires s % P == 0 || c % P == 0
    ensures (s * c) % P == 0
  {
    ModUnique(0, P, 0, 0);
    if s % P == 0 { CongMul(s, 0, c, c, P); } else { CongMul(s, s, c, 0, P); }
  }

  /** A multiple of a polynomial by s has its keys, and s is not zero unless it is. */
  lemma MultipleKeys(left: Poly, right: Poly, s: int)
    requires WellFormed(left) && WellFormed(right) && Multiple(left, right, s) && left.terms != map[]
    ensures s % P != 0 && left.terms.Keys == right.terms.Keys
  {
    PIsPrime();
    var k :| k in left.terms;
    MultipleLookup(left, right, s, k);
    NonZeroEntry(left, k);
    if s % P == 0 { ZeroTimes(s, Get(right.terms, k)); }
    forall m | m in left.terms || m in right.terms ensures m in left.terms && m in right.terms {
      MultipleLookup(left, right, s, m);
      NonZeroEntry(left, m);
      NonZeroEntry(right, m);
      if m in right.terms {
        if (s * Get(right.terms, m)) % P == 0 { Euclid(s, Get(right.terms, m), P); }
      } else {
        ZeroTimes(s, Get(right.terms, m));
      }
    }
  }

  /** `pow(c, P - 2, P)` inverts c. */
  lemma FermatInverse(c: int)
    requires c % P != 0
    ensures (Pow(c, P - 2) * c) % P == 1
  {
    PIsPrime();
    Fermat(c, P);
    assert Pow(c, P - 1) == c * Pow(c, P - 2);
  }

  /** The scalar the code computes from one shared monomial is the only candidate. */
  lemma ScalarRecovered(l: int, r: int, s: int)
    requires r % P != 0 && l % P == (s * r) % P
    ensures (l * (Pow(r, P - 2) % P)) % P == s % P
  {
    var i := Pow(r, P - 2);
    FermatInverse(r);
    ModIdem(i, P);
    CongMul(l, s * r, i % P, i, P);
    ModUnique(1, P, 0, 1);
    CongMul(s, s, i * r, 1, P);
    assert (s * r) * i == s * (i * r);
  }

  /** The key the code normalises on. */
  method Smallest(d: map<Mono, int>) returns (m: Mono)
    requires d != map[]
    ensures m in d && forall k :: k in d && k != m ==> MonoLess(m, k)
  {
    m :| m in d;
    var rest := d - {m};
    while rest != map[]
      invariant m in d && m !in rest && rest.Keys <= d.Keys
      invariant forall k :: k in d && k !in rest && k != m ==> MonoLess(m, k)
      decreases |rest|
    {
      var k :| k in rest;
      MonoLessStrictTotal();
      if MonoLess(k, m) { m := k; }
      rest := rest - {k};
    }
  }

  method ScaleBy(p: Poly, c: int) returns (r: Poly)
    requires WellFormed(p)
    ensures WellFormed(r) && Multiple(r, p, c)
  {
    var d := map m | m in p.terms :: c * p.terms[m];
    r := Reduce(d);
    forall x ensures Coeff(Terms(d), x) == Coeff(Scale(c, Terms(p.terms)), x) {
      ScaledTerms(p.terms, d, c, x);
      CoeffScale(c, Terms(p.terms), x);
    }
  }

  lemma ScalarNonZero(l: int, r: int)
    requires 0 < l < P && 0 < r < P
    ensures 0 < l * (Pow(r, P - 2) % P) % P < P
  {
    PIsPrime();
    ModUnique(l, P, 0, l);
    ModUnique(r, P, 0, r);
    var i := Pow(r, P - 2);
    FermatInverse(r);
    ModIdem(i, P);
    if i % P == 0 { ZeroTimes(i, r); }
    if (l * (i % P)) % P == 0 { Euclid(l, i % P, P); }
  }

  lemma ScalarDecides(left: Poly, right: Poly, mono: Mono, scalar: int, scaled: Poly)
    requires WellFormed(left) && WellFormed(right) && WellFormed(scaled)
    requires mono in left.terms && mono in right.terms
    requires scalar == left.terms[mono] * (Pow(right.terms[mono], P - 2) % P) % P
    requires Multiple(scaled, right, scalar)
    ensures scaled == left <==> exists s :: Multiple(left, right, s)
    ensures 0 < scalar < P
  {
    ScalarNonZero(left.terms[mono], right.terms[mono]);
    forall s | Multiple(left, right, s) ensures scaled == left {
      NonZeroEntry(right, mono);
      MultipleLookup(left, right, s, mono);
      ScalarRecovered(left.terms[mono], right.terms[mono], s);
      ModIdem(left.terms[mono] * (Pow(right.terms[mono], P - 2) % P), P);
      EquivScale(s, scalar, Terms(right.terms), Terms(right.terms));
      NormalFormUnique(scaled, left);
    }
  }

  /** `_scalar_factor`: on non-zero polynomials it finds the scalar exactly when there is
      one. */
  method ScalarFactor(left: Poly, right: Poly) returns (r: Option<int>)
    requires WellFormed(left) && WellFormed(right)
    ensures r.Some? ==> 0 < r.value < P && Multiple(left, right, r.value)
    ensures left.terms != map[] && right.terms != map[] ==> (r.Some? <==> exists s :: Multiple(left, right, s))
    ensures left.terms == map[] || right.terms == map[] ==> r.None?
  {
    if left.terms == map[] || right.terms == map[] { return None; }
    forall s | Multiple(left, right, s) ensures left.terms.Keys == right.terms.Keys {
      MultipleKeys(left, right, s);
    }
    if |left.terms.Keys| != |right.terms.Keys| { return None; }
    var mono := Smallest(right.terms);
    if mono !in left.terms { return None; }
    var scalar := left.terms[mono] * (Pow(right.terms[mono], P - 2) % P) % P;
    var scaled := ScaleBy(right, scalar);
    ScalarDecides(left, right, mono, scalar, scaled);
    var c1 := ComputeCanonical(scaled);
    var c2 := ComputeCanonical(left);
    if c1 == c2 {
      CanonicalInjective(scaled, left);
      return Some(scalar);
    }
    r := None;
  }
}
