/** `row_major_indices`: a flat array offset as a multi-index, last index fastest. */
module MixedRadix {

  ghost predicate Positive(lengths: seq<int>) {
    forall i :: 0 <= i < |lengths| ==> lengths[i] > 0
  }

  function Product(lengths: seq<int>): int {
    if lengths == [] then 1 else Product(lengths[..|lengths| - 1]) * lengths[|lengths| - 1]
  }

  /** A multi-index inside the box of the lengths. */
  ghost predicate InBox(indices: seq<int>, lengths: seq<int>) {
    |indices| == |lengths| && forall i :: 0 <= i < |lengths| ==> 0 <= indices[i] < lengths[i]
  }

  /** The offset a multi-index addresses. */
  ghost function Offset(indices: seq<int>, lengths: seq<int>): int
    requires |indices| == |lengths|
  {
    if lengths == [] then 0
    else Offset(indices[..|lengths| - 1], lengths[..|lengths| - 1]) * lengths[|lengths| - 1] + indices[|lengths| - 1]
  }

  /** The digits of an offset, by the same recursion on the last length. */
  ghost function Digits(flat: int, lengths: seq<int>): (r: seq<int>)
    requires Positive(lengths)
    ensures |r| == |lengths|
    decreases |lengths|
  {
    if lengths == [] then []
    else
      var init, last := lengths[..|lengths| - 1], lengths[|lengths| - 1];
      Digits(flat / last, init) + [flat % last]
  }

  lemma Scaled(a: int, b: int)
    requires a > 0 && b > 0
    ensures a * b > 0
  {
  }

  lemma {:induction false} ProductPositive(lengths: seq<int>)
    requires Positive(lengths)
    ensures Product(lengths) > 0
  {
    if lengths == [] {
    } else {
      ProductPositive(lengths[..|lengths| - 1]);
      Scaled(Product(lengths[..|lengths| - 1]), lengths[|lengths| - 1]);
    }
  }

  lemma Monotone(k: int, b: int)
    requires b > 0
    ensures k >= 0 ==> k * b >= 0
    ensures k >= 1 ==> k * b >= b
    ensures k <= -1 ==> k * b <= -b
  {
  }

  lemma QuotientBound(flat: int, a: int, b: int)
    requires 0 <= flat < a * b && b > 0
    ensures 0 <= flat / b < a
  {
    var q := flat / b;
    assert flat == q * b + flat % b;
    Monotone(q - a, b);
    assert (q - a) * b == q * b - a * b;
  }

  lemma DigitAndRest(q: int, d: int, b: int)
    requires b > 0 && 0 <= d < b
    ensures (q * b + d) / b == q && (q * b + d) % b == d
  {
    var n := q * b + d;
    assert n == (n / b) * b + n % b;
    var k := n / b - q;
    assert k * b == d - n % b;
    Monotone(k, b);
  }

  lemma OffsetBound(q: int, a: int, d: int, b: int)
    requires 0 <= q < a && 0 <= d < b
    ensures 0 <= q * b + d < a * b
  {
    assert (q + 1) * b <= a * b;
    assert (q + 1) * b == q * b + b;
    assert q * b >= 0;
  }

  lemma Division(a: int, b: int)
    requires b > 0
    ensures a == (a / b) * b + a % b && 0 <= a % b < b
  {
  }

  /** The last length splits off the last digit, and puts it back. */
  lemma LastDigit(digits: seq<int>, last: int, lengths: seq<int>)
    requires lengths != [] && |digits| == |lengths| - 1
    ensures Offset(digits + [last], lengths)
         == Offset(digits, lengths[..|lengths| - 1]) * lengths[|lengths| - 1] + last
  {
    assert (digits + [last])[..|lengths| - 1] == digits;
  }

  lemma LastLength(flat: int, lengths: seq<int>)
    requires Positive(lengths) && lengths != []
    ensures var n := |lengths| - 1;
            && Product(lengths) == Product(lengths[..n]) * lengths[n]
            && Digits(flat, lengths) == Digits(flat / lengths[n], lengths[..n]) + [flat % lengths[n]]
  {
  }

  lemma BoxGrows(digits: seq<int>, last: int, lengths: seq<int>)
    requires lengths != [] && InBox(digits, lengths[..|lengths| - 1]) && 0 <= last < lengths[|lengths| - 1]
    ensures InBox(digits + [last], lengths)
  {
    forall i | 0 <= i < |lengths| ensures 0 <= (digits + [last])[i] < lengths[i] {
      if i < |digits| { assert lengths[..|lengths| - 1][i] == lengths[i]; }
    }
  }

  /** Decomposing and recomposing an offset is the identity. */
  lemma {:induction false} OffsetOfDigits(flat: int, lengths: seq<int>)
    requires Positive(lengths) && 0 <= flat < Product(lengths)
    ensures InBox(Digits(flat, lengths), lengths)
    ensures Offset(Digits(flat, lengths), lengths) == flat
    decreases |lengths|
  {
    if lengths == [] {
    } else {
      hide Offset, Digits, Product, InBox;
      var n := |lengths| - 1;
      var b := lengths[n];
      LastLength(flat, lengths);
      QuotientBound(flat, Product(lengths[..n]), b);
      OffsetOfDigits(flat / b, lengths[..n]);
      var rest := Digits(flat / b, lengths[..n]);
      LastDigit(rest, flat % b, lengths);
      Division(flat, b);
      BoxGrows(rest, flat % b, lengths);
    }
  }

  /** Recomposing and decomposing a multi-index of the box is the identity, so the
      elements of an array and their offsets are in bijection. */
  lemma {:induction false} DigitsOfOffset(indices: seq<int>, lengths: seq<int>)
    requires Positive(lengths) && InBox(indices, lengths)
    ensures 0 <= Offset(indices, lengths) < Product(lengths)
    ensures Digits(Offset(indices, lengths), lengths) == indices
    decreases |lengths|
  {
    if lengths == [] {
    } else {
      var n := |lengths| - 1;
      var b := lengths[n];
      DigitsOfOffset(indices[..n], lengths[..n]);
      var q := Offset(indices[..n], lengths[..n]);
      OffsetBound(q, Product(lengths[..n]), indices[n], b);
      DigitAndRest(q, indices[n], b);
      assert indices == indices[..n] + [indices[n]];
    }
  }

  method RowMajorIndices(flat: int, lengths: seq<int>) returns (r: seq<int>)
    requires Positive(lengths)
    ensures r == Digits(flat, lengths)
  {
    var rest := flat;
    r := [];
    var n := |lengths|;
    assert lengths[..n] == lengths;
    while n > 0
      invariant 0 <= n <= |lengths|
      invariant Digits(flat, lengths) == Digits(rest, lengths[..n]) + r
    {
      assert lengths[..n][..n - 1] == lengths[..n - 1];
      r := [rest % lengths[n - 1]] + r;
      rest := rest / lengths[n - 1];
      n := n - 1;
    }
  }
}
