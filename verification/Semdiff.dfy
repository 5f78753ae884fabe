/** The semantic comparison of two decoded constraint sets: the memoised fold over shared
    expressions, the per-constraint decision, and the report. */
module Semdiff {
  import opened Results
  import opened Ordering
  import opened Sequences
  import opened Atoms
  import opened Polynomials
  import opened Expressions
  import opened FunctionEquality

  // ----- shared expressions

  /** A node of a shared expression; operands are earlier positions of the same table. */
  datatype Node =
    | ConstNode(n: int)
    | AtomNode(atom: Atom)
    | NegNode(arg: nat)
    | AddNode(left: nat, right: nat)
    | SubNode(left: nat, right: nat)
    | MulNode(left: nat, right: nat)

  predicate Operands(n: Node, k: nat) {
    match n
    case ConstNode(_) => true
    case AtomNode(_) => true
    case NegNode(i) => i < k
    case AddNode(i, j) => i < k && j < k
    case SubNode(i, j) => i < k && j < k
    case MulNode(i, j) => i < k && j < k
  }

  ghost predicate Shared(nodes: seq<Node>) {
    forall k :: 0 <= k < |nodes| ==> Operands(nodes[k], k)
  }

  /** The expression a node stands for, with the sharing undone. */
  function Tree(nodes: seq<Node>, i: nat): Expr
    requires Shared(nodes) && i < |nodes|
    decreases i
  {
    assert Operands(nodes[i], i);
    match nodes[i]
    case ConstNode(n) => Const(n)
    case AtomNode(a) => Var(a)
    case NegNode(a) => Neg(Tree(nodes, a))
    case AddNode(a, b) => Add(Tree(nodes, a), Tree(nodes, b))
    case SubNode(a, b) => Sub(Tree(nodes, a), Tree(nodes, b))
    case MulNode(a, b) => Mul(Tree(nodes, a), Tree(nodes, b))
  }

  /** `to_poly_cached` and the dictionary it fills. */
  class Folder {
    const nodes: seq<Node>
    var memo: map<nat, Poly>

    constructor (table: seq<Node>)
      requires Shared(table)
      ensures Valid() && nodes == table && memo == map[]
    {
      nodes, memo := table, map[];
    }

    /** Every remembered polynomial is the one the plain fold of its node gives. */
    ghost predicate Valid()
      reads this
    {
      Shared(nodes) && forall k :: k in memo ==> k < |nodes| && WellFormed(memo[k]) && memo[k] == PolyOf(Tree(nodes, k))
    }

    /** The result is that of the plain fold; what was remembered stays, and the node is
        remembered too. */
    method Fold(i: nat) returns (p: Poly)
      requires Valid() && i < |nodes|
      modifies this
      ensures Valid() && WellFormed(p) && p == PolyOf(Tree(nodes, i))
      ensures old(memo.Keys) + {i} <= memo.Keys && forall k :: k in old(memo) ==> memo[k] == old(memo[k])
      decreases i
    {
      hide PolyOf, WellFormed;
      if i in memo { return memo[i]; }
      assert Operands(nodes[i], i);
      match nodes[i] {
        case ConstNode(n) =>
          p := ToPoly(Const(n));
        case AtomNode(a) =>
          p := ToPoly(Var(a));
        case NegNode(a) =>
          var q := Fold(a);
          p := NegateFold(q, Tree(nodes, a));
        case AddNode(a, b) =>
          var q, r := FoldBoth(a, b, i);
          p := AddFold(q, r, Tree(nodes, a), Tree(nodes, b));
        case SubNode(a, b) =>
          var q, r := FoldBoth(a, b, i);
          p := SubtractFold(q, r, Tree(nodes, a), Tree(nodes, b));
        case MulNode(a, b) =>
          var q, r := FoldBoth(a, b, i);
          p := MultiplyFold(q, r, Tree(nodes, a), Tree(nodes, b));
      }
      memo := memo[i := p];
    }

    /** Two operands of a later node, left first. */
    method FoldBoth(a: nat, b: nat, ghost i: nat) returns (q: Poly, r: Poly)
      requires Valid() && a < i && b < i && i < |nodes|
      modifies this
      ensures Valid() && WellFormed(q) && q == PolyOf(Tree(nodes, a)) && WellFormed(r) && r == PolyOf(Tree(nodes, b))
      ensures old(memo.Keys) <= memo.Keys && forall k :: k in old(memo) ==> memo[k] == old(memo[k])
      decreases i, 0
    {
      hide PolyOf, WellFormed, Tree;
      q := Fold(a);
      r := Fold(b);
    }
  }

  // ----- one constraint on both sides

  /** A decoded constraint: its kind, why it has no expression, or its expression. */
  datatype Item = Item(kind: string, unrepresentable: Option<string>, nodes: seq<Node>, root: Option<nat>)

  ghost predicate Decoded(x: Item) {
    Shared(x.nodes) && (x.root.Some? ==> x.root.value < |x.nodes|)
  }

  function ExprOf(x: Item): Option<Expr>
    requires Decoded(x)
  {
    if x.root.None? then None else Some(Tree(x.nodes, x.root.value))
  }

  /** The structural shortcut. */
  predicate SameStructure(x: Item, y: Item)
    requires Decoded(x) && Decoded(y)
  {
    x.kind == y.kind && x.unrepresentable == y.unrepresentable && ExprOf(x) == ExprOf(y)
  }

  /** What the comparison decides: one kind, and one polynomial or one reason for having none. */
  ghost predicate Equivalent(x: Item, y: Item)
    requires Decoded(x) && Decoded(y)
  {
    && x.kind == y.kind
    && (if ExprOf(x).Some? && ExprOf(y).Some? then PolyOf(ExprOf(x).value) == PolyOf(ExprOf(y).value)
        else ExprOf(x) == ExprOf(y) && x.unrepresentable == y.unrepresentable)
  }

  /** Where both sides have an expression of low degree, the decision is equality of kind and
      of the functions. */
  lemma EquivalentIffSameFunction(x: Item, y: Item)
    requires Decoded(x) && Decoded(y) && ExprOf(x).Some? && ExprOf(y).Some?
    requires LowDegree(ExprOf(x).value) && LowDegree(ExprOf(y).value)
    ensures Equivalent(x, y) <==> x.kind == y.kind && SameFunction(ExprOf(x).value, ExprOf(y).value)
  {
    hide SameFunction, LowDegree, PolyOf, CanonicalOf;
    LowFunctionEquality(ExprOf(x).value, ExprOf(y).value);
    CanonicalDecides(ExprOf(x).value, ExprOf(y).value);
  }

  datatype Status = Unchanged | Rewritten | Changed | Added | Removed

  /** The part of the loop after the structural shortcut has failed. */
  method Decide(x: Item, y: Item) returns (s: Status)
    requires Decoded(x) && Decoded(y) && !SameStructure(x, y)
    ensures s == if Equivalent(x, y) then Rewritten else Changed
  {
    if x.root.None? || y.root.None? || x.kind != y.kind { return Changed; }
    var left := new Folder(x.nodes);
    var p := left.Fold(x.root.value);
    var right := new Folder(y.nodes);
    var q := right.Fold(y.root.value);
    var lhs := ComputeCanonical(p);
    var rhs := ComputeCanonical(q);
    CanonicalDecides(ExprOf(x).value, ExprOf(y).value);
    s := if lhs == rhs then Rewritten else Changed;
  }

  /** The decision is an equivalence relation, and the structural shortcut is part of it. */
  lemma EquivalentIsEquivalence(x: Item, y: Item, z: Item)
    requires Decoded(x) && Decoded(y) && Decoded(z)
    ensures Equivalent(x, x)
    ensures Equivalent(x, y) ==> Equivalent(y, x)
    ensures Equivalent(x, y) && Equivalent(y, z) ==> Equivalent(x, z)
    ensures SameStructure(x, y) ==> Equivalent(x, y)
  {
    hide PolyOf;
  }

  // ----- the report

  datatype Key = Key(air: string, index: int)
  type Constraints = map<Key, Item>

  predicate KeyLess(a: Key, b: Key) {
    LexLess(IntLess, StringKey(a.air) + [a.index], StringKey(b.air) + [b.index])
  }

  lemma KeyLessStrictTotal()
    ensures StrictTotal(KeyLess)
  {
    IntLessStrictTotal();
    forall x ensures !KeyLess(x, x) { LexIrreflexive(IntLess, StringKey(x.air) + [x.index]); }
    forall x, y ensures x == y || KeyLess(x, y) || KeyLess(y, x) {
      LexTrichotomy(IntLess, StringKey(x.air) + [x.index], StringKey(y.air) + [y.index]);
      if StringKey(x.air) + [x.index] == StringKey(y.air) + [y.index] {
        StringKeyInjective(x.air, y.air, [x.index], [y.index]);
      }
    }
    forall x, y, z | KeyLess(x, y) && KeyLess(y, z) ensures KeyLess(x, z) {
      LexTransitive(IntLess, StringKey(x.air) + [x.index], StringKey(y.air) + [y.index], StringKey(z.air) + [z.index]);
    }
  }

  ghost predicate AllDecoded(c: Constraints) {
    forall k :: k in c ==> Decoded(c[k])
  }

  ghost function StatusOf(base: Constraints, mutant: Constraints, k: Key): Status
    requires AllDecoded(base) && AllDecoded(mutant)
  {
    if k !in base then (if k in mutant then Added else Unchanged)
    else if k !in mutant then Removed
    else if SameStructure(base[k], mutant[k]) then Unchanged
    else if Equivalent(base[k], mutant[k]) then Rewritten
    else Changed
  }

  /** A constraint without an expression on one side is never rewritten: it is the same only
      if neither side has one, for one reason and of one kind. */
  lemma WithoutExpression(x: Item, y: Item)
    requires Decoded(x) && Decoded(y) && (x.root.None? || y.root.None?)
    ensures Equivalent(x, y)
       <==> x.root.None? && y.root.None? && x.kind == y.kind && x.unrepresentable == y.unrepresentable
  {
  }

  /** Both sides spell the same: the kind, the reason for having no expression, the tree. */
  ghost predicate SpelledAlike(x: Item, y: Item)
    requires Decoded(x) && Decoded(y)
  {
    && x.kind == y.kind && x.unrepresentable == y.unrepresentable && x.root.Some? == y.root.Some?
    && (x.root.Some? && y.root.Some? ==> Tree(x.nodes, x.root.value) == Tree(y.nodes, y.root.value))
  }

  /** The status of a constraint, by which sides have it, how they spell it, and what it
      folds to. */
  lemma StatusMeans(base: Constraints, mutant: Constraints, k: Key)
    requires AllDecoded(base) && AllDecoded(mutant)
    ensures StatusOf(base, mutant, k) == Added <==> k !in base && k in mutant
    ensures StatusOf(base, mutant, k) == Removed <==> k in base && k !in mutant
    ensures k in base && k in mutant ==>
              var x, y := base[k], mutant[k];
              && (StatusOf(base, mutant, k) == Unchanged <==> SpelledAlike(x, y))
              && (StatusOf(base, mutant, k) == Rewritten <==>
                   !SpelledAlike(x, y) && x.kind == y.kind && x.root.Some? && y.root.Some?
                   && CanonicalOf(Tree(x.nodes, x.root.value)) == CanonicalOf(Tree(y.nodes, y.root.value)))
  {
    hide PolyOf, CanonicalOf, Tree;
    if k in base && k in mutant {
      var x, y := base[k], mutant[k];
      if x.root.Some? && y.root.Some? {
        CanonicalDecides(Tree(x.nodes, x.root.value), Tree(y.nodes, y.root.value));
      } else {
        WithoutExpression(x, y);
      }
    }
  }

  datatype Change = Change(key: Key, status: Status)

  /** The keys of one status, or of the three that count as changes, in order. */
  ghost function Reported(base: Constraints, mutant: Constraints, keys: seq<Key>): seq<Change>
    requires AllDecoded(base) && AllDecoded(mutant)
  {
    if keys == [] then []
    else
      var n := |keys| - 1;
      var s := StatusOf(base, mutant, keys[n]);
      Reported(base, mutant, keys[..n]) + (if s == Unchanged || s == Rewritten then [] else [Change(keys[n], s)])
  }

  ghost function RewrittenKeys(base: Constraints, mutant: Constraints, keys: seq<Key>): seq<Key>
    requires AllDecoded(base) && AllDecoded(mutant)
  {
    if keys == [] then []
    else
      var n := |keys| - 1;
      RewrittenKeys(base, mutant, keys[..n]) + (if StatusOf(base, mutant, keys[n]) == Rewritten then [keys[n]] else [])
  }

  /** Each key once, in order. */
  ghost predicate Listing(r: seq<Key>, s: set<Key>) {
    && (forall k :: k in r <==> k in s)
    && Distinct(r)
    && Sorted(KeyLess, r)
  }

  /** `sorted(set(base) | set(mutant))` */
  method SortedKeys(s: set<Key>) returns (r: seq<Key>)
    ensures Listing(r, s)
  {
    var items: seq<Key> := [];
    var rest := s;
    while rest != {}
      invariant rest <= s && forall k :: k in items <==> k in s && k !in rest
      invariant Distinct(items)
    {
      var k :| k in rest;
      items := items + [k];
      rest := rest - {k};
    }
    r := Sort(KeyLess, items);
    KeyLessStrictTotal();
    SortSorted(KeyLess, items);
    SameMultiset(items, r);
  }

  /** One round of the loop. */
  method Classify(base: Constraints, mutant: Constraints, k: Key) returns (s: Status)
    requires AllDecoded(base) && AllDecoded(mutant) && (k in base || k in mutant)
    ensures s == StatusOf(base, mutant, k)
  {
    hide Equivalent;
    if k !in base || k !in mutant { return if k in mutant then Added else Removed; }
    if SameStructure(base[k], mutant[k]) { return Unchanged; }
    s := Decide(base[k], mutant[k]);
  }

  lemma ListingMembers(keys: seq<Key>, s: set<Key>)
    requires Listing(keys, s)
    ensures forall k :: k in keys ==> k in s
  {
  }

  lemma NothingReported(base: Constraints, mutant: Constraints)
    requires AllDecoded(base) && AllDecoded(mutant)
    ensures Reported(base, mutant, []) == [] && RewrittenKeys(base, mutant, []) == []
  {
  }

  lemma ReportStep(base: Constraints, mutant: Constraints, done: seq<Key>, k: Key)
    requires AllDecoded(base) && AllDecoded(mutant)
    ensures var s := StatusOf(base, mutant, k);
      && Reported(base, mutant, done + [k]) == (if s == Unchanged || s == Rewritten then Reported(base, mutant, done)
                                                 else Reported(base, mutant, done) + [Change(k, s)])
      && RewrittenKeys(base, mutant, done + [k]) == (if s == Rewritten then RewrittenKeys(base, mutant, done) + [k]
                                                      else RewrittenKeys(base, mutant, done))
  {
    hide StatusOf;
    assert (done + [k])[..|done|] == done;
  }

  /** The loop over the sorted keys. */
  method Sweep(base: Constraints, mutant: Constraints, keys: seq<Key>)
    returns (changed: seq<Change>, equivalent: seq<Key>)
    requires AllDecoded(base) && AllDecoded(mutant) && forall k :: k in keys ==> k in base.Keys + mutant.Keys
    ensures changed == Reported(base, mutant, keys) && equivalent == RewrittenKeys(base, mutant, keys)
  {
    hide *;
    changed, equivalent := [], [];
    NothingReported(base, mutant);
    assert keys[..0] == [];
    for i := 0 to |keys|
      invariant changed == Reported(base, mutant, keys[..i]) && equivalent == RewrittenKeys(base, mutant, keys[..i])
    {
      var k := keys[i];
      assert keys[..i + 1] == keys[..i] + [k];
      assert k in keys;
      var s := Classify(base, mutant, k);
      ReportStep(base, mutant, keys[..i], k);
      if s == Rewritten {
        equivalent := equivalent + [k];
      } else if s != Unchanged {
        changed := changed + [Change(k, s)];
      }
    }
    assert keys[..|keys|] == keys;
  }

  lemma {:induction false} ReportedContents(base: Constraints, mutant: Constraints, keys: seq<Key>, c: Change)
    requires AllDecoded(base) && AllDecoded(mutant)
    ensures c in Reported(base, mutant, keys) <==>
              c.key in keys && c.status == StatusOf(base, mutant, c.key) && c.status != Unchanged &&
                  c.status != Rewritten
  {
    hide StatusOf;
    if keys == [] {
    } else {
      var n := |keys| - 1;
      ReportedContents(base, mutant, keys[..n], c);
      assert keys == keys[..n] + [keys[n]];
    }
  }

  /** Two constraint sets are reported equal exactly when they have the same constraints and
      each is equivalent to its counterpart. */
  ghost predicate SameConstraints(base: Constraints, mutant: Constraints)
    requires AllDecoded(base) && AllDecoded(mutant)
  {
    base.Keys == mutant.Keys && forall k :: k in base ==> k in mutant && Equivalent(base[k], mutant[k])
  }

  lemma EqualIffSame(base: Constraints, mutant: Constraints, keys: seq<Key>)
    requires AllDecoded(base) && AllDecoded(mutant) && Listing(keys, base.Keys + mutant.Keys)
    ensures Reported(base, mutant, keys) == [] <==> SameConstraints(base, mutant)
  {
    hide Equivalent, SameStructure, Reported;
    forall k | k in base || k in mutant
      ensures StatusOf(base, mutant, k) == Unchanged || StatusOf(base, mutant, k) == Rewritten <==>
              k in base && k in mutant && Equivalent(base[k], mutant[k])
    {
      if k in base && k in mutant { EquivalentIsEquivalence(base[k], mutant[k], base[k]); }
    }
    hide StatusOf;
    if Reported(base, mutant, keys) != [] {
      ReportedContents(base, mutant, keys, Reported(base, mutant, keys)[0]);
    } else {
      forall k | k in base || k in mutant ensures k in base && k in mutant && Equivalent(base[k], mutant[k]) {
        ReportedContents(base, mutant, keys, Change(k, StatusOf(base, mutant, k)));
      }
      assert base.Keys == mutant.Keys;
    }
  }

  method Compare(base: Constraints, mutant: Constraints)
    returns (equal: bool, changed: seq<Change>, equivalent: seq<Key>)
    requires AllDecoded(base) && AllDecoded(mutant)
    ensures exists keys :: Listing(keys, base.Keys + mutant.Keys) &&
                           changed == Reported(base, mutant, keys) && equivalent == RewrittenKeys(base, mutant, keys)
    ensures equal <==> SameConstraints(base, mutant)
  {
    hide *;
    var keys := SortedKeys(base.Keys + mutant.Keys);
    ListingMembers(keys, base.Keys + mutant.Keys);
    changed, equivalent := Sweep(base, mutant, keys);
    equal := changed == [];
    EqualIffSame(base, mutant, keys);
  }

  /** Being reported the same is an equivalence of constraint sets; in particular comparing a file
      with itself, which the byte-equality shortcut answers, reports nothing. */
  lemma SameIsEquivalence(a: Constraints, b: Constraints, c: Constraints)
    requires AllDecoded(a) && AllDecoded(b) && AllDecoded(c)
    ensures SameConstraints(a, a)
    ensures SameConstraints(a, b) ==> SameConstraints(b, a)
    ensures SameConstraints(a, b) && SameConstraints(b, c) ==> SameConstraints(a, c)
  {
    hide Equivalent;
    forall k | k in a ensures Equivalent(a[k], a[k]) { EquivalentIsEquivalence(a[k], a[k], a[k]); }
    if SameConstraints(a, b) {
      forall k | k in b ensures Equivalent(b[k], a[k]) { EquivalentIsEquivalence(a[k], b[k], b[k]); }
    }
    if SameConstraints(a, b) && SameConstraints(b, c) {
      forall k | k in a ensures Equivalent(a[k], c[k]) { EquivalentIsEquivalence(a[k], b[k], c[k]); }
    }
  }
}
