/** The language of definition bodies: which token sequences are a clause or a conjunction of
    clauses, and what they state. The parser accepts exactly these. */
module ClauseLanguage {
  import opened Results
  import opened Expressions
  import opened MirrorGrammar
  import opened MirrorSyntax
  import opened MirrorSound
  import opened MirrorComplete
  import opened MirrorClauses

  // ----- one side of a relation

  ghost predicate SideTree(c: Context, s: Cursor, x: Syntax, p: Parsed) {
    && c.depth <= MAX_INLINE_DEPTH && Formed(c, x) && Written(x) == c.tokens
    && Means(c, x, Still(s)) == Ok(Parsed(p.node, Still(p.at)))
  }

  /** The tokens are written with a tree of the language, which means the node. */
  ghost predicate IsSide(scope: Scope, tokens: seq<Token>, s: Cursor, p: Parsed) {
    p.at.i == |tokens| && exists x :: SideTree(Context(tokens, scope, map[], 0), s, x, p)
  }

  /** A lost row relation stays lost. */
  lemma {:induction false} MeansLoses(c: Context, x: Syntax, s: Cursor)
    requires Formed(c, x) && c.depth <= MAX_INLINE_DEPTH && Means(c, x, s).Ok?
    ensures Means(c, x, s).value.at.rowOk ==> s.rowOk
    decreases x, 1
  {
    hide ParseBody, FieldFormed, MeansArgs, IsArgument;
    match x {
      case SNum(_) =>
      case SField(_, _, _) =>
      case SLocal(_) =>
      case SCoerced(_, arg) => MeansLoses(c, arg, s);
      case SCall(_, _) => ArgsLose(c, x, 0, s);
      case SCarrier(_, _) =>
      case SParen(inner, _) => MeansLoses(c, inner, s);
      case SPow(base, exponent) => MeansLoses(c, base, s); MeansLoses(c, exponent, Means(c, base, s).value.at);
      case SNeg(arg) => MeansLoses(c, arg, s);
      case SMul(left, right) => MeansLoses(c, left, s); MeansLoses(c, right, Means(c, left, s).value.at);
      case SAdd(left, right) => MeansLoses(c, left, s); MeansLoses(c, right, Means(c, left, s).value.at);
      case SSub(left, right) => MeansLoses(c, left, s); MeansLoses(c, right, Means(c, left, s).value.at);
    }
  }

  lemma {:induction false} ArgsLose(c: Context, x: Syntax, k: nat, s: Cursor)
    requires x.SCall? && Formed(c, x) && k <= |x.args| && c.depth <= MAX_INLINE_DEPTH && MeansArgs(c, x, k, s).Ok?
    ensures MeansArgs(c, x, k, s).value.1.rowOk ==> s.rowOk
    decreases x, 0, |x.args| - k
  {
    hide Means, IsArgument;
    if k < |x.args| {
      MeansLoses(c, x.args[k], s);
      ArgsLose(c, x, k + 1, Means(c, x.args[k], s).value.at);
    }
  }

  lemma SideSound(scope: Scope, tokens: seq<Token>, s: Cursor)
    requires ParseSide(scope, tokens, s).Ok?
    ensures IsSide(scope, tokens, s, ParseSide(scope, tokens, s).value)
  {
    hide ParseExpr, Formed, Means, Written;
    var c := Context(tokens, scope, map[], 0);
    var x := ExprReading(c, Still(s));
    var p, q := ParseSide(scope, tokens, s).value, ParseExpr(c, Still(s)).value;
    assert tokens[0..|tokens|] == tokens && Still(Still(s)) == Still(s);
    MeansLoses(c, x, Still(s));
    assert p.at == q.at;
    assert SideTree(c, s, x, p);
  }

  lemma SideComplete(scope: Scope, tokens: seq<Token>, s: Cursor, p: Parsed)
    requires IsSide(scope, tokens, s, p)
    ensures ParseSide(scope, tokens, s) == Ok(p)
  {
    hide ParseExpr, Formed, Means, Written;
    var c := Context(tokens, scope, map[], 0);
    var x :| SideTree(c, s, x, p);
    LanguageRead(c, s, x, Parsed(p.node, Still(p.at)));
    MeansLoses(c, x, Still(s));
    assert Still(p.at).(i := |tokens|) == p.at;
  }

  /** A side is accepted exactly when it is written in the language, and read as what it means. */
  lemma SideExactly(scope: Scope, tokens: seq<Token>, s: Cursor, p: Parsed)
    ensures ParseSide(scope, tokens, s) == Ok(p) <==> IsSide(scope, tokens, s, p)
  {
    hide ParseSide, IsSide;
    if ParseSide(scope, tokens, s) == Ok(p) { SideSound(scope, tokens, s); }
    if IsSide(scope, tokens, s, p) { SideComplete(scope, tokens, s, p); }
  }

  // ----- what stands outside all parentheses

  /** Opening parentheses less closing ones. */
  function Balance(ts: seq<Token>): int {
    var opening: int, closing: int := multiset(ts)[Op("(")], multiset(ts)[Op(")")];
    opening - closing
  }

  lemma {:induction false} DepthIsBalance(ts: seq<Token>)
    ensures Depth(ts) == Balance(ts)
  {
    if ts == [] {
    } else {
      var n := |ts| - 1;
      assert ts == ts[..n] + [ts[n]];
      DepthIsBalance(ts[..n]);
      assert Op("(") != Op(")");
    }
  }

  /** A relation outside all parentheses. */
  predicate RelationAt(ts: seq<Token>, i: int) {
    && 0 <= i < |ts| && Balance(ts[..i]) == 0
    && (ts[i] == Op("=") || ts[i] == Op("<") || ts[i] == Op("\U{2264}"))
  }

  lemma RelationIsFound(ts: seq<Token>)
    requires ts != []
    ensures var n := |ts| - 1;
            RelationAt(ts, n) <==> Nesting(ts[n]) == 0 && Depth(ts[..n]) == 0 && IsOp(ts[n], RELATIONS)
  {
    hide Depth, Balance;
    DepthIsBalance(ts[..|ts| - 1]);
  }

  lemma RelationOfPrefix(ts: seq<Token>, n: nat, i: int)
    requires i < n <= |ts|
    ensures RelationAt(ts, i) <==> RelationAt(ts[..n], i)
  {
    hide Balance;
    if i >= 0 { assert ts[..n][..i] == ts[..i]; }
  }

  lemma {:induction false} FindContents(ts: seq<Token>)
    ensures forall i :: i in Find(ts, RELATIONS) <==> RelationAt(ts, i)
    ensures forall j, k :: 0 <= j < k < |Find(ts, RELATIONS)| ==> Find(ts, RELATIONS)[j] < Find(ts, RELATIONS)[k]
  {
    if ts == [] {
    } else {
      hide Depth, Nesting, IsOp, Find;
      var n := |ts| - 1;
      assert ts == ts[..n] + [ts[n]];
      FindStep(ts[..n], ts[n], RELATIONS);
      FindContents(ts[..n]);
      RelationIsFound(ts);
      forall i | i < n ensures RelationAt(ts, i) <==> RelationAt(ts[..n], i) { RelationOfPrefix(ts, n, i); }
      hide Balance;
    }
  }

  ghost predicate OnlyRelationAt(ts: seq<Token>, i: int) {
    RelationAt(ts, i) && forall j :: RelationAt(ts, j) ==> j == i
  }

  ghost predicate TwoRelations(ts: seq<Token>) {
    exists i, j :: i < j && RelationAt(ts, i) && RelationAt(ts, j)
  }

  /** None, one, or several. */
  lemma RelationsFound(ts: seq<Token>)
    ensures var found := Find(ts, RELATIONS);
            && (found == [] <==> forall i :: !RelationAt(ts, i))
            && (|found| == 1 ==> OnlyRelationAt(ts, found[0]))
            && (|found| > 1 <==> TwoRelations(ts))
            && forall i :: OnlyRelationAt(ts, i) ==> found == [i]
  {
    hide Find, RelationAt;
    FindContents(ts);
    var found := Find(ts, RELATIONS);
    if found != [] { assert found[0] in found; }
    if |found| > 1 { assert found[1] in found; }
  }

  // ----- one clause

  /** The row a bound's subject is read at: that of a row record with a known row, else the
      current one. */
  function SubjectRow(scope: Scope, b: Binder): int {
    if b.kind == Row && b.name in scope.rowDeltas then scope.rowDeltas[b.name] else 0
  }

  ghost function SubjectAt(scope: Scope, s: Cursor, head: string, path: seq<string>): Outcome
    requires head in scope.binders && path != []
  {
    ResolveField(scope, s, scope.binders[head], path, SubjectRow(scope, scope.binders[head]))
  }

  /** A field's value on the left, an expression on the right. */
  ghost predicate IsBound(scope: Scope, lhs: seq<Token>, rhs: seq<Token>, s: Cursor, subject: Expr, limit: Expr,
                          t: Cursor) {
    exists name, path, m :: IsSubject(scope, lhs, name, path)
      && SubjectAt(scope, s, name.head, path) == Ok(Parsed(subject, m))
      && IsSide(scope, rhs, m, Parsed(limit, t))
  }

  /** Two sides, of which a literal zero on the right is dropped. */
  ghost predicate IsEquation(scope: Scope, lhs: seq<Token>, rhs: seq<Token>, s: Cursor, e: Expr, t: Cursor) {
    exists l, r, m :: IsSide(scope, lhs, s, Parsed(l, m)) && IsSide(scope, rhs, m, Parsed(r, t))
                   && e == if r == Const(0) then l else Sub(l, r)
  }

  /** The tokens are the clause, and reading it takes the flag and the collectors from s to t.
      Without a relation they are handed on as a delegation. */
  ghost predicate IsClause(scope: Scope, ts: seq<Token>, s: Cursor, clause: Clause, t: Cursor) {
    match clause
    case Delegated(tokens) => (forall i :: !RelationAt(ts, i)) && tokens == ts && t == s
    case Equation(e) =>
      exists i :: OnlyRelationAt(ts, i) && ts[i] == Op("=") && IsEquation(scope, ts[..i], ts[i + 1..], s, e, t)
    case Bounded(subject, relation, limit) =>
      exists i :: OnlyRelationAt(ts, i) && ts[i] != Op("=") && ts[i] == Op(relation)
               && IsBound(scope, ts[..i], ts[i + 1..], s, subject, limit, t)
  }

  lemma BoundExactly(scope: Scope, lhs: seq<Token>, relation: string, rhs: seq<Token>, s: Cursor,
                     clause: Clause, t: Cursor)
    ensures ParseBound(scope, lhs, relation, rhs, s) == Ok((clause, t))
       <==> clause.Bounded? && clause.relation == relation
            && IsBound(scope, lhs, rhs, s, clause.subject, clause.limit, t)
  {
    hide ParseSide, IsSide, ResolveField;
    SubjectIff(scope, lhs);
    forall m: Cursor, p: Parsed ensures ParseSide(scope, rhs, m) == Ok(p) <==> IsSide(scope, rhs, m, p) {
      SideExactly(scope, rhs, m, p);
    }
    if ParseBound(scope, lhs, relation, rhs, s) == Ok((clause, t)) {
      var name, path :| IsSubject(scope, lhs, name, path);
      assert name.path[..|name.path| - 1] == path;
      var b := scope.binders[name.head];
      var m := ResolveField(scope, s, b, path, SubjectRow(scope, b)).value.at;
      assert SubjectAt(scope, s, name.head, path) == Ok(Parsed(clause.subject, m));
      assert IsSide(scope, rhs, m, Parsed(clause.limit, t));
    }
    if clause.Bounded? && clause.relation == relation && IsBound(scope, lhs, rhs, s, clause.subject, clause.limit, t) {
      var name, path, m :| IsSubject(scope, lhs, name, path)
        && SubjectAt(scope, s, name.head, path) == Ok(Parsed(clause.subject, m))
        && IsSide(scope, rhs, m, Parsed(clause.limit, t));
      assert name.path[..|name.path| - 1] == path;
    }
  }

  lemma EquationExactly(scope: Scope, lhs: seq<Token>, rhs: seq<Token>, s: Cursor, clause: Clause, t: Cursor)
    ensures ParseEquation(scope, lhs, rhs, s) == Ok((clause, t))
       <==> clause.Equation? && IsEquation(scope, lhs, rhs, s, clause.expr, t)
  {
    hide ParseSide, IsSide;
    forall m: Cursor, p: Parsed
      ensures ParseSide(scope, lhs, m) == Ok(p) <==> IsSide(scope, lhs, m, p)
      ensures ParseSide(scope, rhs, m) == Ok(p) <==> IsSide(scope, rhs, m, p)
    {
      SideExactly(scope, lhs, m, p);
      SideExactly(scope, rhs, m, p);
    }
    if ParseEquation(scope, lhs, rhs, s) == Ok((clause, t)) {
      var l := ParseSide(scope, lhs, s).value;
      var r := ParseSide(scope, rhs, l.at).value;
      assert IsSide(scope, lhs, s, Parsed(l.node, l.at)) && IsSide(scope, rhs, l.at, Parsed(r.node, t));
    }
    if clause.Equation? && IsEquation(scope, lhs, rhs, s, clause.expr, t) {
      var l, r, m :| IsSide(scope, lhs, s, Parsed(l, m)) && IsSide(scope, rhs, m, Parsed(r, t))
                     && clause.expr == if r == Const(0) then l else Sub(l, r);
      assert ParseSide(scope, lhs, s) == Ok(Parsed(l, m)) && ParseSide(scope, rhs, m) == Ok(Parsed(r, t));
    }
  }

  lemma OnlyIsRelation(ts: seq<Token>, i: int)
    requires OnlyRelationAt(ts, i)
    ensures 0 <= i < |ts| && ts[i].Op? && (ts[i].text == "=" <==> ts[i] == Op("="))
    ensures forall j :: OnlyRelationAt(ts, j) ==> j == i
  {
  }

  /** Where there is one relation, the clause is an equation or a bound. */
  lemma OneRelation(scope: Scope, ts: seq<Token>, s: Cursor, i: int)
    requires OnlyRelationAt(ts, i)
    ensures ParseClause(scope, ts, s)
         == if ts[i] == Op("=") then ParseEquation(scope, ts[..i], ts[i + 1..], s)
            else ParseBound(scope, ts[..i], ts[i].text, ts[i + 1..], s)
  {
    hide ParseSide, ParseBound, Find, OnlyRelationAt;
    RelationsFound(ts);
    OnlyIsRelation(ts, i);
  }

  lemma NotMany(scope: Scope, ts: seq<Token>, s: Cursor, i: nat)
    requires i < |ts| && ts[i].Op?
    ensures ParseEquation(scope, ts[..i], ts[i + 1..], s) != Err(ManyRelations)
    ensures ParseBound(scope, ts[..i], ts[i].text, ts[i + 1..], s) != Err(ManyRelations)
  {
    hide ParseSide, ResolveField;
  }

  /** More than one relation is refused; otherwise the parser accepts exactly the clauses. */
  lemma ClauseExactly(scope: Scope, ts: seq<Token>, s: Cursor, clause: Clause, t: Cursor)
    ensures ParseClause(scope, ts, s) == Ok((clause, t)) <==> IsClause(scope, ts, s, clause, t)
    ensures TwoRelations(ts) <==> ParseClause(scope, ts, s) == Err(ManyRelations)
  {
    hide ParseSide, ParseBound, IsBound, IsEquation, ParseEquation, Find, OnlyRelationAt, TwoRelations;
    RelationsFound(ts);
    var found := Find(ts, RELATIONS);
    if |found| == 1 {
      var i := found[0];
      OnlyIsRelation(ts, i);
      OneRelation(scope, ts, s, i);
      NotMany(scope, ts, s, i);
      EquationExactly(scope, ts[..i], ts[i + 1..], s, clause, t);
      BoundExactly(scope, ts[..i], ts[i].text, ts[i + 1..], s, clause, t);
    }
  }

  // ----- a whole body

  /** A conjunction outside all parentheses. */
  predicate AndAt(ts: seq<Token>, i: int) {
    0 <= i < |ts| && Balance(ts[..i]) == 0 && (ts[i] == Op("\U{2227}") || ts[i] == Op("/\\"))
  }

  /** The positions of the conjunctions, in order. */
  ghost predicate AreAnds(ts: seq<Token>, at: seq<int>) {
    && (forall j, k :: 0 <= j < k < |at| ==> at[j] < at[k])
    && (forall i :: i in at <==> AndAt(ts, i))
  }

  /** The k-th part lies between two conjunctions. */
  ghost predicate PartAt(ts: seq<Token>, at: seq<int>, k: int, part: seq<Token>) {
    && 0 <= k <= |at|
    && var start, end := if k == 0 then 0 else at[k - 1] + 1, if k < |at| then at[k] else |ts|;
       0 <= start <= end <= |ts| && part == ts[start..end]
  }

  /** The tokens are cut at every conjunction outside all parentheses. */
  ghost predicate CutInto(ts: seq<Token>, at: seq<int>, parts: seq<seq<Token>>) {
    && AreAnds(ts, at) && |parts| == |at| + 1
    && forall k :: 0 <= k < |parts| ==> PartAt(ts, at, k, parts[k])
  }

  lemma AndsOfPrefix(ts: seq<Token>, at: seq<int>)
    requires ts != [] && AreAnds(ts[..|ts| - 1], at)
    ensures var n := |ts| - 1; AreAnds(ts, if AndAt(ts, n) then at + [n] else at)
  {
    hide Balance;
    var n := |ts| - 1;
    forall i | 0 <= i < n ensures AndAt(ts, i) <==> AndAt(ts[..n], i) { assert ts[..n][..i] == ts[..i]; }
    forall k | 0 <= k < |at| ensures at[k] < n { assert at[k] in at; }
  }

  lemma NoAnds()
    ensures AreAnds([], [])
  {
  }

  lemma AndIsCut(ts: seq<Token>)
    requires ts != []
    ensures var n := |ts| - 1; AndAt(ts, n) <==> Depth(ts) == 0 && IsOp(ts[n], AND_TOKENS)
  {
    var n := |ts| - 1;
    hide Depth, Balance;
    assert ts == ts[..n] + [ts[n]];
    DepthStep(ts[..n], ts[n]);
    DepthIsBalance(ts[..n]);
  }

  /** One more token leaves a part as it is, unless it extends the last one. */
  lemma PartExtends(ts: seq<Token>, at: seq<int>, k: int, part: seq<Token>)
    requires ts != [] && PartAt(ts[..|ts| - 1], at, k, part)
    ensures var n := |ts| - 1;
            && PartAt(ts, at + [n], k, part)
            && PartAt(ts, at, k, if k < |at| then part else part + [ts[n]])
  {
  }

  lemma LastPart(ts: seq<Token>, at: seq<int>)
    requires ts != []
    ensures PartAt(ts, at + [|ts| - 1], |at| + 1, [])
  {
  }

  /** One more token either closes the last part or extends it. */
  lemma CutsExtend(ts: seq<Token>, at: seq<int>, parts: seq<seq<Token>>, cut: bool)
    requires ts != [] && |parts| == |at| + 1
    requires forall k :: 0 <= k < |parts| ==> PartAt(ts[..|ts| - 1], at, k, parts[k])
    ensures var n := |ts| - 1;
            var more, longer := if cut then at + [n] else at, if cut then parts + [[]] else Extend(parts, ts[n]);
            |longer| == |more| + 1 && forall k :: 0 <= k < |longer| ==> PartAt(ts, more, k, longer[k])
  {
    hide PartAt;
    var n := |ts| - 1;
    LastPart(ts, at);
    forall k | 0 <= k < |parts|
      ensures PartAt(ts, at + [n], k, parts[k])
      ensures PartAt(ts, at, k, if k < |at| then parts[k] else parts[k] + [ts[n]])
    {
      PartExtends(ts, at, k, parts[k]);
    }
  }

  /** The split cuts at the conjunctions. */
  lemma {:induction false} SplitCuts(ts: seq<Token>) returns (at: seq<int>)
    ensures CutInto(ts, at, Split(ts, AND_TOKENS))
  {
    hide Depth, Balance, AreAnds, AndAt;
    if ts == [] {
      at := [];
      NoAnds();
    } else {
      var n := |ts| - 1;
      var before := SplitCuts(ts[..n]);
      AndsOfPrefix(ts, before);
      at := if AndAt(ts, n) then before + [n] else before;
      AndIsCut(ts);
      CutsExtend(ts, before, Split(ts[..n], AND_TOKENS), AndAt(ts, n));
    }
  }

  lemma {:induction false} SameIncreasing(a: seq<int>, b: seq<int>)
    requires forall j, k :: 0 <= j < k < |a| ==> a[j] < a[k]
    requires forall j, k :: 0 <= j < k < |b| ==> b[j] < b[k]
    requires forall i :: i in a <==> i in b
    ensures a == b
  {
    assert (a != [] ==> a[0] in a) && (b != [] ==> b[0] in b);
    if a == [] || b == [] {
    } else {
      var m, n := |a| - 1, |b| - 1;
      assert a[m] in b && b[n] in a;
      assert a[m] == b[n];
      forall i ensures i in a[..m] <==> i in b[..n] {
        assert i in a[..m] <==> i in a && i < a[m];
        assert i in b[..n] <==> i in b && i < b[n];
      }
      SameIncreasing(a[..m], b[..n]);
    }
  }

  lemma SameAnds(ts: seq<Token>, at: seq<int>, other: seq<int>)
    requires AreAnds(ts, at) && AreAnds(ts, other)
    ensures at == other
  {
    hide AndAt;
    SameIncreasing(at, other);
  }

  lemma CutsAreSplit(ts: seq<Token>, at: seq<int>, parts: seq<seq<Token>>)
    requires CutInto(ts, at, parts)
    ensures parts == Split(ts, AND_TOKENS)
  {
    hide Split, AreAnds;
    var other := SplitCuts(ts);
    SameAnds(ts, at, other);
    var split := Split(ts, AND_TOKENS);
    forall k | 0 <= k < |parts| ensures parts[k] == split[k] {
      assert PartAt(ts, at, k, parts[k]) && PartAt(ts, at, k, split[k]);
    }
  }

  /** The conjuncts are clauses, read in turn. */
  ghost predicate InTurn(scope: Scope, parts: seq<seq<Token>>, s: Cursor, clauses: seq<Clause>, t: Cursor,
                         states: seq<Cursor>) {
    && |clauses| == |parts| && |states| == |parts| + 1 && states[0] == s && states[|parts|] == t
    && forall k :: 0 <= k < |parts| ==> IsClause(scope, parts[k], states[k], clauses[k], states[k + 1])
  }

  /** The tokens are clauses between conjunctions, none of them empty. */
  ghost predicate IsBody(scope: Scope, ts: seq<Token>, s: Cursor, clauses: seq<Clause>, t: Cursor) {
    exists at, parts, states :: CutInto(ts, at, parts) && [] !in parts && InTurn(scope, parts, s, clauses, t, states)
  }

  lemma {:induction false} AllSound(scope: Scope, parts: seq<seq<Token>>, s: Cursor) returns (states: seq<Cursor>)
    requires ParseAll(scope, parts, s).Ok?
    ensures InTurn(scope, parts, s, ParseAll(scope, parts, s).value.0, ParseAll(scope, parts, s).value.1, states)
    decreases |parts|
  {
    hide ParseClause, IsClause;
    if parts == [] {
      states := [s];
    } else {
      var n := |parts| - 1;
      var before := AllSound(scope, parts[..n], s);
      var (clauses, t) := ParseAll(scope, parts[..n], s).value;
      var (clause, u) := ParseClause(scope, parts[n], t).value;
      ClauseExactly(scope, parts[n], t, clause, u);
      states := before + [u];
    }
  }

  lemma {:induction false} AllComplete(scope: Scope, parts: seq<seq<Token>>, s: Cursor, clauses: seq<Clause>, t: Cursor,
                                       states: seq<Cursor>)
    requires InTurn(scope, parts, s, clauses, t, states)
    ensures ParseAll(scope, parts, s) == Ok((clauses, t))
    decreases |parts|
  {
    hide ParseClause, IsClause;
    if parts == [] {
    } else {
      var n := |parts| - 1;
      AllComplete(scope, parts[..n], s, clauses[..n], states[n], states[..n + 1]);
      ClauseExactly(scope, parts[n], states[n], clauses[n], t);
      assert clauses == clauses[..n] + [clauses[n]];
    }
  }

  /** The parser accepts exactly the bodies, and reads them as what they state. */
  lemma BodyExactly(scope: Scope, ts: seq<Token>, s: Cursor, clauses: seq<Clause>, t: Cursor)
    ensures ParseConjuncts(scope, ts, s) == Ok((clauses, t)) <==> IsBody(scope, ts, s, clauses, t)
  {
    hide Split, ParseAll, CutInto, InTurn;
    if ParseConjuncts(scope, ts, s) == Ok((clauses, t)) {
      var at := SplitCuts(ts);
      var states := AllSound(scope, Split(ts, AND_TOKENS), s);
      assert CutInto(ts, at, Split(ts, AND_TOKENS)) && InTurn(scope, Split(ts, AND_TOKENS), s, clauses, t, states);
    }
    if IsBody(scope, ts, s, clauses, t) {
      var at, parts, states :| CutInto(ts, at, parts) && [] !in parts && InTurn(scope, parts, s, clauses, t, states);
      CutsAreSplit(ts, at, parts);
      AllComplete(scope, parts, s, clauses, t, states);
    }
  }
}
