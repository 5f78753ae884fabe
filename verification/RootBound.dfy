/** A polynomial in one variable over GF(P) with as many roots as coefficients is zero. */
module RootBound {
  import opened Modular
  import opened Goldilocks

  /** The value of a coefficient list, constant term first. */
  function Horner(cs: seq<int>, x: int): int {
    if cs == [] then 0 else cs[0] + x * Horner(cs[1..], x)
  }

  /** Synthetic division by (x - r). */
  function Quotient(cs: seq<int>, r: int): (q: seq<int>)
    ensures |q| == if cs == [] then 0 else |cs| - 1
  {
    if |cs| <= 1 then [] else [Horner(cs[1..], r)] + Quotient(cs[1..], r)
  }

  lemma Regrouped(c: int, r: int, x: int, h: int, q: int)
    ensures c + x * (h + (x - r) * q) == c + r * h + (x - r) * (h + x * q)
  {
    var d := x - r;
    assert x * (h + d * q) == x * h + x * (d * q);
    assert d * (h + x * q) == d * h + d * (x * q);
    assert x * (d * q) == d * (x * q);
    assert d * h == x * h - r * h;
  }

  lemma {:induction false} Division(cs: seq<int>, r: int, x: int)
    ensures Horner(cs, x) == Horner(cs, r) + (x - r) * Horner(Quotient(cs, r), x)
  {
    if |cs| <= 1 {
      assert cs == [] || cs[1..] == [];
    } else {
      var t := cs[1..];
      var q := Quotient(t, r);
      Division(t, r, x);
      assert Quotient(cs, r)[1..] == q;
      Regrouped(cs[0], r, x, Horner(t, r), Horner(q, x));
    }
  }

  lemma HeadVanishes(c: int, r: int, h: int)
    requires (c + r * h) % P == 0 && h % P == 0
    ensures c % P == 0
  {
    ModUnique(0, P, 0, 0);
    CongMul(r, r, h, 0, P);
    CongNeg(r * h, 0, P);
    CongAdd(c + r * h, 0, -(r * h), 0, P);
  }

  /** A list whose quotient and remainder vanish vanishes. */
  lemma {:induction false} Recovered(cs: seq<int>, r: int)
    requires Horner(cs, r) % P == 0
    requires forall i :: 0 <= i < |Quotient(cs, r)| ==> Quotient(cs, r)[i] % P == 0
    ensures forall i :: 0 <= i < |cs| ==> cs[i] % P == 0
  {
    if cs == [] {
    } else if |cs| == 1 {
      assert cs[1..] == [];
    } else {
      var t, q := cs[1..], Quotient(cs, r);
      assert q[0] == Horner(t, r);
      forall i | 0 <= i < |Quotient(t, r)| ensures Quotient(t, r)[i] % P == 0 { assert q[i + 1] % P == 0; }
      Recovered(t, r);
      HeadVanishes(cs[0], r, Horner(t, r));
      forall i | 0 <= i < |cs| ensures cs[i] % P == 0 {
        if i == 0 {
        } else {
          assert t[i - 1] % P == 0;
        }
      }
    }
  }

  lemma NonZeroDifference(v: int, r: int)
    requires 0 <= v < r < P
    ensures (v - r) % P != 0
  {
    ModUnique(v - r, P, -1, P + v - r);
  }

  lemma RootOfQuotient(a: int, b: int, d: int, q: int)
    requires a == b + d * q && a % P == 0 && b % P == 0
    ensures d % P == 0 || q % P == 0
  {
    PIsPrime();
    CongNeg(b, 0, P) by { ModUnique(0, P, 0, 0); }
    CongAdd(a, 0, -b, 0, P) by { ModUnique(0, P, 0, 0); }
    Euclid(d, q, P);
  }

  /** With as many distinct roots as coefficients, every coefficient is zero. */
  lemma {:induction false} TooManyRoots(cs: seq<int>)
    requires |cs| <= P && forall v :: 0 <= v < |cs| ==> Horner(cs, v) % P == 0
    ensures forall i :: 0 <= i < |cs| ==> cs[i] % P == 0
    decreases |cs|
  {
    if cs == [] {
    } else {
      var r := |cs| - 1;
      var q := Quotient(cs, r);
      forall v | 0 <= v < |q| ensures Horner(q, v) % P == 0 {
        Division(cs, r, v);
        PIsPrime();
        RootOfQuotient(Horner(cs, v), Horner(cs, r), v - r, Horner(q, v));
        NonZeroDifference(v, r);
      }
      TooManyRoots(q);
      Recovered(cs, r);
    }
  }

  // ----- changing one coefficient

  lemma Shifted(x: int, h: int, c: int, p: int)
    ensures x * (h + c * p) == x * h + c * (x * p)
  {
    assert x * (c * p) == c * (x * p);
  }

  lemma {:induction false} HornerPut(cs: seq<int>, k: nat, c: int, x: int)
    requires k < |cs|
    ensures Horner(cs[k := cs[k] + c], x) == Horner(cs, x) + c * Pow(x, k)
  {
    var ds := cs[k := cs[k] + c];
    if k == 0 {
      assert ds[1..] == cs[1..];
    } else {
      assert ds[1..] == cs[1..][k - 1 := cs[1..][k - 1] + c];
      HornerPut(cs[1..], k - 1, c, x);
      Shifted(x, Horner(cs[1..], x), c, Pow(x, k - 1));
    }
  }

  lemma {:induction false} HornerZero(cs: seq<int>, x: int)
    requires forall i :: 0 <= i < |cs| ==> cs[i] == 0
    ensures Horner(cs, x) == 0
  {
    if cs == [] {
    } else {
      HornerZero(cs[1..], x);
    }
  }
}
