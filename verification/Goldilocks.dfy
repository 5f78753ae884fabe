/** The field size of the whole tool, `2**64 - 2**32 + 1`, and a proof that it is prime. */
module Goldilocks {
  import opened Modular

  const P: int := 0x1_0000_0000_0000_0000 - 0x1_0000_0000 + 1

  /** Successive squares modulo P of an element of order 2^32, ending in -1. */
  function Squares(): (s: seq<int>)
    ensures |s| == 32 && s[31] == P - 1
  {
    [1753635133440165772, 4614640910117430873, 9123114210336311365, 16116352524544190054,
     6414415596519834757, 1213594585890690845, 17096174751763063430, 5456943929260765144,
     9713644485405565297, 16905767614792059275, 5416168637041100469, 17654865857378133588,
     3511170319078647661, 18146160046829613826, 9306717745644682924, 12380578893860276750,
     6115771955107415310, 17776499369601055404, 16207902636198568418, 1532612707718625687,
     17492915097719143606, 455906449640507599, 11353340290879379826, 1803076106186727246,
     13797081185216407910, 17870292113338400769, 549755813888, 70368744161280,
     17293822564807737345, 18446744069397807105, 281474976710656, 18446744069414584320]
  }

  lemma SquaresSquare(i: nat)
    requires i < 31
    ensures Squares()[i + 1] == Squares()[i] * Squares()[i] % P
  {
  }

  function TwoTo(k: nat): (n: nat)
    ensures n >= 1
  {
    if k == 0 then 1 else 2 * TwoTo(k - 1)
  }

  lemma {:induction false} IteratedSquare(i: nat)
    requires i < 32
    ensures Pow(Squares()[0], TwoTo(i)) % P == Squares()[i] % P
  {
    if i == 0 {
      assert Pow(Squares()[0], 1) == Squares()[0] * Pow(Squares()[0], 0);
    } else {
      IteratedSquare(i - 1);
      SquaresSquare(i - 1);
      var w, n, t := Squares()[0], TwoTo(i - 1), Squares()[i - 1];
      PowAdd(w, n, n);
      CongMul(Pow(w, n), t, Pow(w, n), t, P);
      ModIdem(t * t, P);
    }
  }

  /** Splits a positive number into a power of two and an odd part. */
  lemma {:induction false} OddPart(n: nat) returns (s: nat, t: nat)
    requires n > 0
    ensures n == TwoTo(s) * t && t % 2 == 1
    decreases n
  {
    if n % 2 == 1 {
      s, t := 0, n;
    } else {
      var s';
      s', t := OddPart(n / 2);
      s := s' + 1;
      assert n == 2 * (TwoTo(s') * t) == (2 * TwoTo(s')) * t;
    }
  }

  lemma {:induction false} TwoToAdd(m: nat, n: nat)
    ensures TwoTo(m + n) == TwoTo(m) * TwoTo(n)
  {
    if m == 0 {
    } else {
      TwoToAdd(m - 1, n);
    }
  }

  lemma {:induction false} MinusOnePow(a: int, t: nat, q: int)
    requires q > 1 && a % q == (-1) % q && t % 2 == 1
    ensures Pow(a, t) % q == (-1) % q
  {
    assert t >= 1;
    if t == 1 {
      assert Pow(a, 1) == a * Pow(a, 0);
    } else {
      MinusOnePow(a, t - 2, q);
      var u := Pow(a, t - 2);
      assert Pow(a, t) == a * (a * u) == (a * a) * u;
      CongMul(a, -1, a, -1, q);
      CongMul(a * a, 1, u, -1, q);
    }
  }

  lemma MinusOneIsNotOne(q: int)
    requires q > 2
    ensures (-1) % q == q - 1 != 1
  {
    ModUnique(-1, q, -1, q - 1);
  }

  /** `x^m = 1` and `m * n = e * t` with t odd rule out `w^e = -1`. */
  lemma OrderClash(w: int, q: int, m: nat, n: nat, e: nat, t: nat)
    requires q > 2 && Pow(w, m) % q == 1 && m * n == e * t && t % 2 == 1
    ensures Pow(w, e) % q != (-1) % q
  {
    MinusOneIsNotOne(q);
    ModUnique(1, q, 0, 1);
    if Pow(w, e) % q == (-1) % q {
      PowMul(w, m, n);
      PowMul(w, e, t);
      PowCong(Pow(w, m), 1, n, q);
      PowOne(n);
      MinusOnePow(Pow(w, e), t, q);
      assert false;
    }
  }

  lemma RootIsNonZero(w: int, q: int, e: nat)
    requires q > 2 && e > 0 && Pow(w, e) % q == (-1) % q
    ensures w % q != 0
  {
    MinusOneIsNotOne(q);
    ModUnique(0, q, 0, 0);
    if w % q == 0 {
      CongMul(w, 0, Pow(w, e - 1), Pow(w, e - 1), q);
      assert false;
    }
  }

  lemma Rearrange(m: int, t: int, n: int)
    ensures (m * t) * n == (m * n) * t
  {
  }

  lemma AtLeast(a: nat, b: int)
    requires b >= 1
    ensures a * b >= a
  {
    assert a * b == a + a * (b - 1);
  }

  /** If `w^(2^31)` is -1 modulo an odd prime q then q - 1 is a multiple of 2^32:
      otherwise the odd part t of q - 1 makes `(w^t)^(2^31)` both 1 and -1. */
  lemma TwoPowerDividesOrder(w: int, q: int)
    requires IsPrime(q) && q != 2 && Pow(w, TwoTo(31)) % q == (-1) % q
    ensures q > TwoTo(32)
  {
    RootIsNonZero(w, q, TwoTo(31));
    Fermat(w, q);
    var s, t := OddPart(q - 1);
    if s <= 31 {
      TwoToAdd(s, 31 - s);
      Rearrange(TwoTo(s), t, TwoTo(31 - s));
      OrderClash(w, q, q - 1, TwoTo(31 - s), TwoTo(31), t);
      assert false;
    }
    TwoToAdd(32, s - 32);
    AtLeast(TwoTo(s), t);
    AtLeast(TwoTo(32), TwoTo(s - 32));
  }

  lemma TwoTo32()
    ensures TwoTo(32) == 0x1_0000_0000
  {
    assert TwoTo(8) == 256;
    TwoToAdd(8, 8);
    TwoToAdd(16, 16);
  }

  lemma OddDivisor(q: int)
    requires q > 0 && P % q == 0
    ensures q != 2
  {
    assert P % 2 == 1;
  }

  lemma CongDivisor(a: int, b: int, p: int, q: int)
    requires q > 0 && p > 0 && p % q == 0 && a % p == b % p
    ensures a % q == b % q
  {
    var k := CongElim(a, b, p);
    var c := p / q;
    assert p == c * q;
    assert k * (c * q) == (k * c) * q;
    CongIntro(a, b, q, k * c);
  }

  /** Every prime divisor of P exceeds 2^32, so P has no two of them. */
  lemma PrimeDivisorIsLarge(q: int)
    requires IsPrime(q) && P % q == 0
    ensures q > 0x1_0000_0000
  {
    OddDivisor(q);
    IteratedSquare(31);
    assert (P - 1) % P == (-1) % P;
    CongDivisor(Pow(Squares()[0], TwoTo(31)), -1, P, q);
    TwoPowerDividesOrder(Squares()[0], q);
    TwoTo32();
  }

  lemma ProductOfLarge(d: int, e: int)
    requires d > 0x1_0000_0000 && e > 0x1_0000_0000
    ensures d * e > P
  {
    assert (d - 0x1_0000_0000) * e > 0;
  }

  lemma PIsPrime()
    ensures IsPrime(P)
  {
    forall d | 1 < d < P ensures P % d != 0 {
      if P % d == 0 {
        var e := P / d;
        assert P == d * e;
        assert e > 1;
        ModUnique(P, e, d, 0);
        var q := PrimeDivisor(d);
        var r := PrimeDivisor(e);
        DividesTrans(q, d, P);
        DividesTrans(r, e, P);
        PrimeDivisorIsLarge(q);
        PrimeDivisorIsLarge(r);
        ProductOfLarge(d, e);
        assert false;
      }
    }
  }
}
