/** Finding a list of tokens at a position of a longer list. */
module Slices {

  ghost predicate Sees<T>(ts: seq<T>, i: nat, part: seq<T>) {
    i + |part| <= |ts| && ts[i..i + |part|] == part
  }

  lemma SeesFits<T>(ts: seq<T>, i: nat, part: seq<T>)
    requires Sees(ts, i, part)
    ensures i + |part| <= |ts|
  {
  }

  lemma SeesParts<T>(ts: seq<T>, i: nat, a: seq<T>, b: seq<T>)
    requires Sees(ts, i, a + b)
    ensures Sees(ts, i, a) && Sees(ts, i + |a|, b)
  {
    assert ts[i..i + |a + b|][..|a|] == a;
    assert ts[i..i + |a + b|][|a|..] == b;
  }

  lemma SeesToken<T>(ts: seq<T>, i: nat, t: T)
    requires Sees(ts, i, [t])
    ensures i < |ts| && ts[i] == t
  {
    assert ts[i..i + 1][0] == ts[i];
  }

  lemma SeesAll<T>(ts: seq<T>, i: nat, part: seq<T>)
    requires Sees(ts, i, part)
    ensures forall k :: 0 <= k < |part| ==> ts[i + k] == part[k]
  {
    forall k | 0 <= k < |part| ensures ts[i + k] == part[k] {
      assert ts[i..i + |part|][k] == ts[i + k];
    }
  }

  /** A stretch that is a, then b. */
  lemma Cut<T>(ts: seq<T>, i: nat, j: nat, a: seq<T>, b: seq<T>)
    requires i <= j <= |ts| && ts[i..j] == a + b
    ensures i + |a| <= j && ts[i..i + |a|] == a && ts[i + |a|..j] == b
  {
    assert |a + b| == j - i;
    assert ts[i..i + |a|] == (a + b)[..|a|];
    assert ts[i + |a|..j] == (a + b)[|a|..];
  }

  lemma Glue<T>(ts: seq<T>, i: nat, m: nat, j: nat)
    requires i <= m <= j <= |ts|
    ensures ts[i..j] == ts[i..m] + ts[m..j]
  {
  }

  lemma One<T>(ts: seq<T>, i: nat)
    requires i < |ts|
    ensures ts[i..i + 1] == [ts[i]]
  {
  }
}
