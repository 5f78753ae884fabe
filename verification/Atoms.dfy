/** The variables a constraint may mention, with the order their tuples have. */
module Atoms {
  import opened Ordering

  /** One constructor per tuple head: the accessor vocabulary of the emitted Lean, the
      erased vocabulary of the lane-kind screen, and the marker of a projection for
      which the AIR has no lane. */
  datatype Atom =
    | Main(stage: int, column: int, delta: int)
    | Pre(column: int, delta: int)
    | Chal(index: int)
    | Exposed(index: int)
    | Slot(column: int, delta: int)
    | Aux(index: int)
    | Unresolved(carrier: string, path: string, delta: int)

  /** The vocabulary of the emitted Lean. */
  predicate IsAccessor(a: Atom) {
    a.Main? || a.Pre? || a.Chal? || a.Exposed?
  }

  /** The head's place in string order: aux, chal, exposed, main, pre, slot, unresolved. */
  function HeadRank(a: Atom): int {
    match a
    case Aux(_) => 0
    case Chal(_) => 1
    case Exposed(_) => 2
    case Main(_, _, _) => 3
    case Pre(_, _) => 4
    case Slot(_, _) => 5
    case Unresolved(_, _, _) => 6
  }

  /** Character codes closed by a terminator below every code, so that comparing
      two encodings compares the strings first and then whatever follows them. */
  function StringKey(s: string): seq<int> {
    if s == "" then [-1] else [s[0] as int] + StringKey(s[1..])
  }

  function Key(a: Atom): (k: seq<int>)
    ensures k != [] && k[0] == HeadRank(a)
  {
    [HeadRank(a)] +
    match a
    case Aux(i) => [i]
    case Chal(i) => [i]
    case Exposed(i) => [i]
    case Main(s, c, d) => [s, c, d]
    case Pre(c, d) => [c, d]
    case Slot(c, d) => [c, d]
    case Unresolved(c, p, d) => StringKey(c) + StringKey(p) + [d]
  }

  lemma {:induction false} StringKeyInjective(s: string, t: string, u: seq<int>, v: seq<int>)
    requires StringKey(s) + u == StringKey(t) + v
    ensures s == t && u == v
  {
    assert (StringKey(s) + u)[0] == (StringKey(t) + v)[0];
    if s == "" || t == "" {
      assert s == t;
      assert u == (StringKey(s) + u)[1..] && v == (StringKey(t) + v)[1..];
    } else {
      assert (StringKey(s) + u)[1..] == StringKey(s[1..]) + u;
      assert (StringKey(t) + v)[1..] == StringKey(t[1..]) + v;
      StringKeyInjective(s[1..], t[1..], u, v);
      assert s == [s[0]] + s[1..] && t == [t[0]] + t[1..];
    }
  }

  lemma KeyInjective(a: Atom, b: Atom)
    requires Key(a) == Key(b)
    ensures a == b
  {
    var k, l := Key(a), Key(b);
    assert HeadRank(a) == HeadRank(b);
    if a.Unresolved? {
      assert k[1..] == StringKey(a.carrier) + (StringKey(a.path) + [a.delta]);
      assert l[1..] == StringKey(b.carrier) + (StringKey(b.path) + [b.delta]);
      StringKeyInjective(a.carrier, b.carrier, StringKey(a.path) + [a.delta], StringKey(b.path) + [b.delta]);
      StringKeyInjective(a.path, b.path, [a.delta], [b.delta]);
    } else {
      assert k[1] == l[1];
      assert |k| > 2 ==> k[2] == l[2];
      assert |k| > 3 ==> k[3] == l[3];
    }
  }

  predicate AtomLess(a: Atom, b: Atom) {
    LexLess(IntLess, Key(a), Key(b))
  }

  lemma AtomLessStrictTotal()
    ensures StrictTotal(AtomLess)
  {
    IntLessStrictTotal();
    forall x ensures !AtomLess(x, x) {
      LexIrreflexive(IntLess, Key(x));
    }
    forall x, y ensures x == y || AtomLess(x, y) || AtomLess(y, x) {
      LexTrichotomy(IntLess, Key(x), Key(y));
      if Key(x) == Key(y) { KeyInjective(x, y); }
    }
    forall x, y, z | AtomLess(x, y) && AtomLess(y, z) ensures AtomLess(x, z) {
      LexTransitive(IntLess, Key(x), Key(y), Key(z));
    }
  }
}
