/** Congruences, primes, inverses and Fermat's little theorem: the arithmetic that
    makes GF(p) a field. */
module Modular {
  import opened Sequences


  // ----- congruences

  lemma ModUnique(a: int, p: int, k: int, r: int)
    requires p > 0 && a == k * p + r && 0 <= r < p
    ensures a % p == r && a / p == k
  {
    var d := a / p - k;
    assert d * p == r - a % p;
  }

  lemma CongIntro(a: int, b: int, p: int, k: int)
    requires p > 0 && a == b + k * p
    ensures a % p == b % p
  {
    var r := b % p;
    var q := b / p;
    assert a == (q + k) * p + r;
    ModUnique(a, p, q + k, r);
  }

  lemma CongElim(a: int, b: int, p: int) returns (k: int)
    requires p > 0 && a % p == b % p
    ensures a == b + k * p
  {
    k := a / p - b / p;
    assert a == (a / p) * p + a % p;
    assert b == (b / p) * p + b % p;
  }

  lemma CongAdd(a: int, b: int, c: int, d: int, p: int)
    requires p > 0 && a % p == b % p && c % p == d % p
    ensures (a + c) % p == (b + d) % p
  {
    var k := CongElim(a, b, p);
    var l := CongElim(c, d, p);
    assert a + c == (b + d) + (k + l) * p;
    CongIntro(a + c, b + d, p, k + l);
  }

  lemma CongNeg(a: int, b: int, p: int)
    requires p > 0 && a % p == b % p
    ensures (-a) % p == (-b) % p
  {
    var k := CongElim(a, b, p);
    assert -a == -b + (-k) * p;
    CongIntro(-a, -b, p, -k);
  }

  lemma CongMul(a: int, b: int, c: int, d: int, p: int)
    requires p > 0 && a % p == b % p && c % p == d % p
    ensures (a * c) % p == (b * d) % p
  {
    var k := CongElim(a, b, p);
    var l := CongElim(c, d, p);
    calc {
      a * c;
      (b + k * p) * (d + l * p);
      b * d + (b * l + k * d + k * l * p) * p;
    }
    CongIntro(a * c, b * d, p, b * l + k * d + k * l * p);
  }

  lemma ModIdem(a: int, p: int)
    requires p > 0
    ensures (a % p) % p == a % p
  {
    ModUnique(a % p, p, 0, a % p);
  }

  /** `(a - b) % p == 0` is the same statement as `a % p == b % p`. */
  lemma CongDifference(a: int, b: int, p: int)
    requires p > 0
    ensures (a - b) % p == 0 <==> a % p == b % p
  {
    ModUnique(0, p, 0, 0);
    if (a - b) % p == 0 {
      var k := CongElim(a - b, 0, p);
      CongIntro(a, b, p, k);
    }
    if a % p == b % p {
      var k := CongElim(a, b, p);
      CongIntro(a - b, 0, p, k);
    }
  }

  // ----- powers

  function Pow(a: int, n: nat): (r: int)
    ensures a >= 0 ==> r >= 0
  {
    if n == 0 then 1 else a * Pow(a, n - 1)
  }

  lemma {:induction false} PowAdd(a: int, m: nat, n: nat)
    ensures Pow(a, m + n) == Pow(a, m) * Pow(a, n)
  {
    if m == 0 {
    } else {
      PowAdd(a, m - 1, n);
      assert Pow(a, m + n) == a * (Pow(a, m - 1) * Pow(a, n));
      assert a * (Pow(a, m - 1) * Pow(a, n)) == (a * Pow(a, m - 1)) * Pow(a, n);
    }
  }

  lemma {:induction false} PowMul(a: int, m: nat, n: nat)
    ensures m * n >= 0
    ensures Pow(Pow(a, m), n) == Pow(a, m * n)
  {
    if n == 0 {
    } else {
      PowMul(a, m, n - 1);
      assert m * n == m + m * (n - 1);
      PowAdd(a, m, m * (n - 1));
    }
  }

  lemma {:induction false} PowCong(a: int, b: int, n: nat, p: int)
    requires p > 0 && a % p == b % p
    ensures Pow(a, n) % p == Pow(b, n) % p
  {
    if n == 0 {
    } else {
      PowCong(a, b, n - 1, p);
      CongMul(a, b, Pow(a, n - 1), Pow(b, n - 1), p);
    }
  }

  lemma {:induction false} PowOne(n: nat)
    ensures Pow(1, n) == 1
  {
    if n == 0 {
    } else {
      PowOne(n - 1);
    }
  }

  // ----- primes

  ghost predicate IsPrime(p: int) {
    p >= 2 && forall d :: 1 < d < p ==> p % d != 0
  }

  /** Bezout's identity, by the subtraction-free Euclidean algorithm. */
  lemma {:induction false} Bezout(a: nat, b: nat) returns (x: int, y: int, g: nat, u: int, v: int)
    requires a > 0 || b > 0
    ensures a * x + b * y == g && g > 0 && a == g * u && b == g * v
    decreases b
  {
    if b == 0 {
      x, y, g, u, v := 1, 0, a, 1, 0;
    } else {
      var x', y', u', v';
      x', y', g, u', v' := Bezout(b, a % b);
      var q := a / b;
      x, y := y', x' - q * y';
      u, v := q * u' + v', u';
      assert a == q * b + a % b;
      calc {
        a * x + b * y;
        a * y' + b * x' - b * (q * y');
        { assert b * (q * y') == (q * b) * y'; }
        (a - q * b) * y' + b * x';
        (a % b) * y' + b * x';
        g;
      }
      calc {
        g * u;
        g * (q * u' + v');
        q * (g * u') + g * v';
        q * b + a % b;
        a;
      }
    }
  }

  /** Every non-zero residue modulo a prime has a multiplicative inverse. */
  lemma Inverse(a: int, p: int) returns (b: int)
    requires IsPrime(p) && a % p != 0
    ensures 0 < b < p && (a * b) % p == 1
  {
    var r := a % p;
    var x, y, g, u, v := Bezout(r, p);
    if g > 1 {
      assert g <= r;
      ModUnique(p, g, v, 0);
      assert false;
    }
    assert r * x == 1 + (-y) * p;
    CongIntro(r * x, 1, p, -y);
    ModUnique(1, p, 0, 1);
    b := x % p;
    ModIdem(x, p); ModIdem(a, p);
    CongMul(a, r, b, x, p);
    if b == 0 { ModUnique(0, p, 0, 0); }
  }

  /** Euclid's lemma: a product vanishes modulo a prime only if a factor does. */
  lemma Euclid(a: int, b: int, p: int)
    requires IsPrime(p) && (a * b) % p == 0
    ensures a % p == 0 || b % p == 0
  {
    if a % p != 0 {
      var c := Inverse(a, p);
      ModUnique(0, p, 0, 0);
      ModUnique(1, p, 0, 1);
      CongMul(a * b, 0, c, c, p);
      CongMul(a * c, 1, b, b, p);
      assert (a * b) * c == (a * c) * b;
    }
  }

  /** Cancellation of a non-zero factor modulo a prime. */
  lemma Cancel(a: int, b: int, c: int, p: int)
    requires IsPrime(p) && c % p != 0 && (a * c) % p == (b * c) % p
    ensures a % p == b % p
  {
    CongDifference(a * c, b * c, p);
    assert a * c - b * c == (a - b) * c;
    Euclid(a - b, c, p);
    CongDifference(a, b, p);
  }

  // ----- Fermat's little theorem

  function Product(s: seq<int>): int {
    if s == [] then 1 else s[0] * Product(s[1..])
  }

  function Factorial(n: nat): int {
    if n == 0 then 1 else n * Factorial(n - 1)
  }

  ghost predicate Within(s: seq<int>, n: int) {
    forall i :: 0 <= i < |s| ==> 1 <= s[i] <= n
  }

  lemma {:induction false} ProductRemove(s: seq<int>, i: nat)
    requires i < |s|
    ensures Product(s) == s[i] * Product(s[..i] + s[i + 1..])
  {
    var rest := s[..i] + s[i + 1..];
    if i == 0 {
      assert rest == s[1..];
    } else {
      ProductRemove(s[1..], i - 1);
      assert rest[1..] == s[1..][..i - 1] + s[1..][i..];
      assert rest[0] == s[0];
      var inner := Product(rest[1..]);
      assert s[0] * (s[i] * inner) == s[i] * (s[0] * inner);
    }
  }

  /** Distinct values drawn from 1..n: at most n of them, and n of them only by
      using every value, so their product is n!. */
  lemma {:induction false} Pigeonhole(s: seq<int>, n: nat)
    requires Distinct(s) && Within(s, n)
    ensures |s| <= n
    ensures |s| == n ==> Product(s) == Factorial(n)
    decreases n
  {
    if n == 0 {
    } else if i :| 0 <= i < |s| && s[i] == n {
      var rest := s[..i] + s[i + 1..];
      forall j | 0 <= j < |rest| ensures 1 <= rest[j] <= n - 1 {
        assert rest[j] == if j < i then s[j] else s[j + 1];
      }
      forall j, k | 0 <= j < k < |rest| ensures rest[j] != rest[k] {
        assert rest[j] == if j < i then s[j] else s[j + 1];
        assert rest[k] == if k < i then s[k] else s[k + 1];
      }
      Pigeonhole(rest, n - 1);
      ProductRemove(s, i);
    } else {
      Pigeonhole(s, n - 1);
    }
  }

  function Multiples(a: int, p: int, n: nat): (s: seq<int>)
    requires p > 0
    ensures |s| == n && forall i :: 0 <= i < n ==> s[i] == (a * (i + 1)) % p
  {
    seq(n, i requires 0 <= i < n => (a * (i + 1)) % p)
  }

  lemma {:induction false} ProductAppend(s: seq<int>, x: int)
    ensures Product(s + [x]) == Product(s) * x
  {
    if s == [] {
      assert s + [x] == [x];
      assert [x][1..] == [];
    } else {
      ProductAppend(s[1..], x);
      assert (s + [x])[1..] == s[1..] + [x];
      assert s[0] * (Product(s[1..]) * x) == (s[0] * Product(s[1..])) * x;
    }
  }

  lemma RegroupFour(u: int, v: int, a: int, n: int)
    ensures (u * v) * (a * n) == (a * u) * (n * v)
  {
  }

  lemma {:induction false} ProductMultiples(a: int, p: int, n: nat)
    requires p > 0
    ensures Product(Multiples(a, p, n)) % p == (Pow(a, n) * Factorial(n)) % p
  {
    if n == 0 {
      assert Multiples(a, p, 0) == [];
    } else {
      var s := Multiples(a, p, n - 1);
      var x := (a * n) % p;
      assert Multiples(a, p, n) == s + [x];
      ProductAppend(s, x);
      ProductMultiples(a, p, n - 1);
      ModIdem(a * n, p);
      CongMul(Product(s), Pow(a, n - 1) * Factorial(n - 1), x, a * n, p);
      RegroupFour(Pow(a, n - 1), Factorial(n - 1), a, n);
    }
  }

  lemma {:induction false} FactorialNonZero(n: nat, p: int)
    requires IsPrime(p) && n < p
    ensures Factorial(n) % p != 0
  {
    if n == 0 {
      ModUnique(1, p, 0, 1);
    } else {
      FactorialNonZero(n - 1, p);
      ModUnique(n, p, 0, n);
      if Factorial(n) % p == 0 { Euclid(n, Factorial(n - 1), p); }
    }
  }

  lemma Fermat(a: int, p: int)
    requires IsPrime(p) && a % p != 0
    ensures Pow(a, p - 1) % p == 1
  {
    var n := p - 1;
    var s := Multiples(a, p, n);
    forall i | 0 <= i < n ensures 1 <= s[i] <= n {
      if s[i] == 0 {
        Euclid(a, i + 1, p);
        ModUnique(i + 1, p, 0, i + 1);
      }
    }
    forall i, j | 0 <= i < j < n ensures s[i] != s[j] {
      if s[i] == s[j] {
        assert a * (i + 1) == (i + 1) * a && a * (j + 1) == (j + 1) * a;
        Cancel(i + 1, j + 1, a, p);
        ModUnique(i + 1, p, 0, i + 1);
        ModUnique(j + 1, p, 0, j + 1);
      }
    }
    Pigeonhole(s, n);
    ProductMultiples(a, p, n);
    FactorialNonZero(n, p);
    Cancel(Pow(a, n), 1, Factorial(n), p);
    ModUnique(1, p, 0, 1);
  }

  lemma DividesTrans(a: int, b: int, c: int)
    requires a > 0 && b > 0 && b % a == 0 && c % b == 0
    ensures c % a == 0
  {
    var k, l := b / a, c / b;
    assert b == k * a && c == l * b;
    assert l * (k * a) == (l * k) * a;
    ModUnique(c, a, l * k, 0);
  }

  /** A number with no divisor among the primes is itself prime: every n >= 2 has a
      prime divisor. */
  lemma {:induction false} PrimeDivisor(n: int) returns (q: int)
    requires n >= 2
    ensures IsPrime(q) && n % q == 0 && q <= n
    decreases n
  {
    if IsPrime(n) {
      q := n;
      ModUnique(n, n, 1, 0);
    } else {
      var d :| 1 < d < n && n % d == 0;
      q := PrimeDivisor(d);
      DividesTrans(q, d, n);
    }
  }
}
