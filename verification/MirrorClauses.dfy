/** From a definition body to clauses: the depth-0 split into conjuncts, the search for the
    relation, and the normalisation of an equation to one expression. */
module MirrorClauses {
  import opened Results
  import opened Atoms
  import opened Goldilocks
  import opened FormalSums
  import opened Expressions
  import opened Evaluation
  import opened MirrorGrammar
  import opened MirrorFields
  import opened MirrorParser
  import opened MirrorPrinter

  /** `AND_TOKENS` and `RELATIONS` */
  const AND_TOKENS: set<string> := {"\U{2227}", "/\\"}
  const RELATIONS: set<string> := {"=", "<", "\U{2264}"}

  function Nesting(t: Token): int {
    if t == Op("(") then 1 else if t == Op(")") then -1 else 0
  }

  function Depth(ts: seq<Token>): int {
    if ts == [] then 0 else Depth(ts[..|ts| - 1]) + Nesting(ts[|ts| - 1])
  }

  predicate IsOp(t: Token, texts: set<string>) {
    t.Op? && t.text in texts
  }

  // ----- `_split_top_level`

  function Split(ts: seq<Token>, seps: set<string>): (r: seq<seq<Token>>)
    ensures r != []
  {
    if ts == [] then [[]]
    else
      var n := |ts| - 1;
      var before := Split(ts[..n], seps);
      if Depth(ts) == 0 && IsOp(ts[n], seps) then before + [[]]
      else before[..|before| - 1] + [before[|before| - 1] + [ts[n]]]
  }

  method SplitTopLevel(ts: seq<Token>, seps: set<string>) returns (parts: seq<seq<Token>>)
    ensures parts == Split(ts, seps)
  {
    parts := [[]];
    var depth := 0;
    for i := 0 to |ts|
      invariant parts == Split(ts[..i], seps) && depth == Depth(ts[..i])
    {
      assert ts[..i + 1][..i] == ts[..i];
      if ts[i] == Op("(") {
        depth := depth + 1;
      } else if ts[i] == Op(")") {
        depth := depth - 1;
      }
      if depth == 0 && IsOp(ts[i], seps) {
        parts := parts + [[]];
      } else {
        parts := parts[|parts| - 1 := parts[|parts| - 1] + [ts[i]]];
      }
    }
    assert ts[..|ts|] == ts;
  }

  function Extend(parts: seq<seq<Token>>, t: Token): seq<seq<Token>>
    requires parts != []
  {
    parts[..|parts| - 1] + [parts[|parts| - 1] + [t]]
  }

  lemma DepthStep(init: seq<Token>, t: Token)
    ensures Depth(init + [t]) == Depth(init) + Nesting(t)
  {
    assert (init + [t])[..|init|] == init;
  }

  lemma SplitStep(init: seq<Token>, t: Token, seps: set<string>)
    ensures Split(init + [t], seps) ==
              if Depth(init) + Nesting(t) == 0 && IsOp(t, seps) then Split(init, seps) + [[]]
                  else Extend(Split(init, seps), t)
  {
    DepthStep(init, t);
    assert (init + [t])[..|init|] == init;
  }

  /** The separators the split cuts at, in order. */
  ghost function Cuts(ts: seq<Token>, seps: set<string>): seq<Token> {
    if ts == [] then []
    else
      var n := |ts| - 1;
      Cuts(ts[..n], seps) + (if Depth(ts) == 0 && IsOp(ts[n], seps) then [ts[n]] else [])
  }

  ghost function Interleave(parts: seq<seq<Token>>, cuts: seq<Token>): seq<Token>
    requires |parts| == |cuts| + 1
  {
    if cuts == [] then parts[0]
    else Interleave(parts[..|parts| - 1], cuts[..|cuts| - 1]) + [cuts[|cuts| - 1]] + parts[|parts| - 1]
  }

  lemma InterleaveGrows(parts: seq<seq<Token>>, cuts: seq<Token>, t: Token)
    requires |parts| == |cuts| + 1
    ensures Interleave(parts + [[]], cuts + [t]) == Interleave(parts, cuts) + [t]
    ensures Interleave(Extend(parts, t), cuts) == Interleave(parts, cuts) + [t]
  {
    assert (parts + [[]])[..|parts|] == parts && (cuts + [t])[..|cuts|] == cuts;
    var more := Extend(parts, t);
    if cuts != [] { assert more[..|more| - 1] == parts[..|parts| - 1]; }
  }

  lemma EmptyInterleave(seps: set<string>)
    ensures Split([], seps) == [[]] && Cuts([], seps) == [] && Interleave([[]], []) == []
  {
  }

  lemma ExtendLength(parts: seq<seq<Token>>, t: Token)
    requires parts != []
    ensures |Extend(parts, t)| == |parts|
  {
  }

  lemma CutsStep(init: seq<Token>, t: Token, seps: set<string>)
    ensures Cuts(init + [t], seps)
         == Cuts(init, seps) + (if Depth(init) + Nesting(t) == 0 && IsOp(t, seps) then [t] else [])
  {
    DepthStep(init, t);
    assert (init + [t])[..|init|] == init;
  }

  /** Splitting loses and reorders nothing: the parts and the cuts rebuild the tokens. */
  lemma {:induction false} SplitRebuilds(ts: seq<Token>, seps: set<string>)
    ensures |Split(ts, seps)| == |Cuts(ts, seps)| + 1
    ensures Interleave(Split(ts, seps), Cuts(ts, seps)) == ts
  {
    hide Split, Depth, Interleave, Extend, Cuts;
    EmptyInterleave(seps);
    if ts == [] {
    } else {
      var n := |ts| - 1;
      assert ts == ts[..n] + [ts[n]];
      SplitRebuilds(ts[..n], seps);
      SplitStep(ts[..n], ts[n], seps);
      CutsStep(ts[..n], ts[n], seps);
      InterleaveGrows(Split(ts[..n], seps), Cuts(ts[..n], seps), ts[n]);
      ExtendLength(Split(ts[..n], seps), ts[n]);
      assert Cuts(ts[..n], seps) + [] == Cuts(ts[..n], seps);
    }
  }

  ghost function Join(parts: seq<seq<Token>>, sep: Token): seq<Token>
    requires parts != []
  {
    if |parts| == 1 then parts[0] else Join(parts[..|parts| - 1], sep) + [sep] + parts[|parts| - 1]
  }

  /** Balanced, and no separator at depth 0. */
  ghost predicate Solid(ts: seq<Token>, seps: set<string>) {
    Depth(ts) == 0 && forall k :: 0 <= k < |ts| && IsOp(ts[k], seps) ==> Depth(ts[..k + 1]) != 0
  }

  lemma {:induction false} DepthAppend(a: seq<Token>, b: seq<Token>)
    ensures Depth(a + b) == Depth(a) + Depth(b)
  {
    if b == [] {
      assert a + b == a;
    } else {
      var n := |b| - 1;
      assert (a + b)[..|a + b| - 1] == a + b[..n];
      DepthAppend(a, b[..n]);
    }
  }

  /** A solid part read after a closed prefix lands whole in the last conjunct. */
  lemma {:induction false} SplitAppends(a: seq<Token>, b: seq<Token>, k: nat, seps: set<string>)
    requires Depth(a) == 0 && Solid(b, seps) && k <= |b|
    ensures var before := Split(a, seps);
            Split(a + b[..k], seps) == before[..|before| - 1] + [before[|before| - 1] + b[..k]]
  {
    hide Split, Depth, Nesting;
    if k == 0 {
      assert a + b[..0] == a;
      assert Split(a, seps)[|Split(a, seps)| - 1] + b[..0] == Split(a, seps)[|Split(a, seps)| - 1];
    } else {
      SplitAppends(a, b, k - 1, seps);
      assert b[..k] == b[..k - 1] + [b[k - 1]];
      assert a + b[..k] == a + b[..k - 1] + [b[k - 1]];
      SplitStep(a + b[..k - 1], b[k - 1], seps);
      DepthAppend(a, b[..k - 1]);
      DepthStep(b[..k - 1], b[k - 1]);
      assert b[..k - 1 + 1] == b[..k];
      var last := Split(a, seps)[|Split(a, seps)| - 1];
      assert last + b[..k] == (last + b[..k - 1]) + [b[k - 1]];
    }
  }

  lemma EmptySplit(seps: set<string>)
    ensures Split([], seps) == [[]] && Depth([]) == 0
  {
  }

  /** Conjuncts joined by a separator are split apart again. */
  lemma {:induction false} SplitOfJoin(parts: seq<seq<Token>>, sep: Token, seps: set<string>)
    requires parts != [] && IsOp(sep, seps) && Nesting(sep) == 0
    requires forall i :: 0 <= i < |parts| ==> Solid(parts[i], seps)
    ensures Split(Join(parts, sep), seps) == parts && Depth(Join(parts, sep)) == 0
    decreases |parts|
  {
    hide Depth, Split;
    EmptySplit(seps);
    if |parts| == 1 {
      SplitAppends([], parts[0], |parts[0]|, seps);
      assert [] + parts[0][..|parts[0]|] == parts[0];
    } else {
      var n := |parts| - 1;
      var init := Join(parts[..n], sep);
      SplitOfJoin(parts[..n], sep, seps);
      var cut := init + [sep];
      SplitStep(init, sep, seps);
      DepthStep(init, sep);
      DepthAppend(cut, parts[n]);
      SplitAppends(cut, parts[n], |parts[n]|, seps);
      assert parts[n][..|parts[n]|] == parts[n];
      assert Split(cut, seps) == parts[..n] + [[]];
      assert [] + parts[n] == parts[n];
      assert parts == parts[..n] + [parts[n]];
    }
  }

  // ----- `_find_top_level`

  function Find(ts: seq<Token>, wanted: set<string>): (r: seq<nat>)
    ensures forall k :: 0 <= k < |r| ==> r[k] < |ts|
  {
    if ts == [] then []
    else
      var n := |ts| - 1;
      Find(ts[..n], wanted) + (if Nesting(ts[n]) == 0 && Depth(ts[..n]) == 0 && IsOp(ts[n], wanted) then [n] else [])
  }

  method FindTopLevel(ts: seq<Token>, wanted: set<string>) returns (found: seq<nat>)
    ensures found == Find(ts, wanted)
  {
    found := [];
    var depth := 0;
    for i := 0 to |ts|
      invariant found == Find(ts[..i], wanted) && depth == Depth(ts[..i])
    {
      assert ts[..i + 1][..i] == ts[..i];
      if ts[i] == Op("(") {
        depth := depth + 1;
      } else if ts[i] == Op(")") {
        depth := depth - 1;
      } else if depth == 0 && IsOp(ts[i], wanted) {
        found := found + [i];
      }
    }
    assert ts[..|ts|] == ts;
  }

  /** The tokens of a printed expression. */
  ghost predicate Plain(ts: seq<Token>) {
    forall k :: 0 <= k < |ts| && ts[k].Op? ==> ts[k].text in {"+", "-", "*", "(", ")", ":"}
  }

  lemma FindStep(init: seq<Token>, t: Token, wanted: set<string>)
    ensures Find(init + [t], wanted)
         == Find(init, wanted) + (if Nesting(t) == 0 && Depth(init) == 0 && IsOp(t, wanted) then [|init|] else [])
    ensures Find([], wanted) == []
  {
    assert (init + [t])[..|init|] == init;
  }

  lemma {:induction false} FindSkipsPlain(a: seq<Token>, b: seq<Token>, wanted: set<string>)
    requires Plain(b) && wanted !! {"+", "-", "*", "(", ")", ":"}
    ensures Find(a + b, wanted) == Find(a, wanted)
    decreases |b|
  {
    hide Find, Depth;
    if b == [] {
      assert a + b == a;
    } else {
      var n := |b| - 1;
      assert a + b == a + b[..n] + [b[n]];
      FindSkipsPlain(a, b[..n], wanted);
      FindStep(a + b[..n], b[n], wanted);
    }
  }

  /** Between two printed expressions the relation is found, and it alone. */
  lemma FindsTheRelation(a: seq<Token>, relation: Token, b: seq<Token>)
    requires Plain(a) && Depth(a) == 0 && Plain(b) && IsOp(relation, RELATIONS)
    ensures Find(a + [relation] + b, RELATIONS) == [|a|]
  {
    hide Find, Depth, Plain;
    FindSkipsPlain([], a, RELATIONS);
    assert [] + a == a;
    assert Nesting(relation) == 0;
    FindStep(a, relation, RELATIONS);
    FindSkipsPlain(a + [relation], b, RELATIONS);
  }

  lemma PlainAppend(a: seq<Token>, b: seq<Token>)
    requires Plain(a) && Plain(b)
    ensures Plain(a + b)
  {
  }

  lemma Singleton(t: Token)
    ensures Depth([t]) == Nesting(t)
  {
    assert [t][..0] == [];
  }

  lemma DepthOfFive(a: Token, b: Token, c: Token, d: Token, e: Token)
    ensures Depth([a, b, c, d, e]) == Nesting(a) + Nesting(b) + Nesting(c) + Nesting(d) + Nesting(e)
  {
    hide Depth, Nesting;
    Singleton(a);
    DepthAppend([a], [b]);
    DepthAppend([a, b], [c]);
    DepthAppend([a, b, c], [d]);
    DepthAppend([a, b, c, d], [e]);
    Singleton(b);
    Singleton(c);
    Singleton(d);
    Singleton(e);
    assert [a] + [b] == [a, b] && [a, b] + [c] == [a, b, c] && [a, b, c] + [d] == [a, b, c, d];
    assert [a, b, c, d] + [e] == [a, b, c, d, e];
  }

  lemma RowTokensPlain(index: Name, delta: int)
    ensures Plain(RowTokens(index, delta)) && Depth(RowTokens(index, delta)) == 0
  {
    var ts := RowTokens(index, delta);
    if delta == 0 {
      Singleton(ts[0]);
    } else {
      hide Depth;
      DepthOfFive(ts[0], ts[1], ts[2], ts[3], ts[4]);
    }
  }

  lemma SpellingPlain(scope: Scope, ts: seq<Token>, a: Atom)
    requires Spells(scope, ts, a)
    ensures Plain(ts) && Depth(ts) == 0
  {
    hide ResolvesTo;
    var head, rest := [ts[0]], ts[1..];
    assert ts == head + rest && head[..0] == [];
    DepthAppend(head, rest);
    var b, path := scope.binders[ts[0].name.head], ts[0].name.path;
    if b.kind == Validator || (b.kind == Segcols && path[0] in b.indexed) {
      var delta :| rest == RowTokens(scope.index.value, delta) && ResolvesTo(scope, b, path, delta, a);
      RowTokensPlain(scope.index.value, delta);
    }
    PlainAppend(head, rest);
  }

  lemma PlainParts(a: seq<Token>, t: Token, b: seq<Token>)
    requires Plain(a) && Plain(b) && Depth(a) == 0 && Depth(b) == 0
    requires t == Op("+") || t == Op("-") || t == Op("*")
    ensures Plain(a + [t] + b) && Depth(a + [t] + b) == 0
  {
    Singleton(t);
    DepthAppend(a, [t]);
    DepthAppend(a + [t], b);
  }

  lemma PlainParenthesised(a: seq<Token>)
    requires Plain(a) && Depth(a) == 0
    ensures Plain([Op("(")] + a + [Op(")")]) && Depth([Op("(")] + a + [Op(")")]) == 0
  {
    Singleton(Op("("));
    Singleton(Op(")"));
    DepthAppend([Op("(")], a);
    DepthAppend([Op("(")] + a, [Op(")")]);
  }

  lemma PlainAscribed(a: seq<Token>, ty: Name)
    requires Plain(a) && Depth(a) == 0
    ensures Plain([Op("(")] + a + Ascription(ty)) && Depth([Op("(")] + a + Ascription(ty)) == 0
  {
    hide Depth;
    var close := Ascription(ty);
    assert close == [close[0]] + [close[1]] + [close[2]];
    Singleton(Op("("));
    forall k | 0 <= k < 3 ensures Depth([close[k]]) == Nesting(close[k]) { Singleton(close[k]); }
    DepthAppend([close[0]], [close[1]]);
    DepthAppend([close[0]] + [close[1]], [close[2]]);
    DepthAppend([Op("(")], a);
    DepthAppend([Op("(")] + a, close);
  }

  lemma OneToken(t: Token)
    requires t.Num?
    ensures Plain([t]) && Nesting(t) == 0
  {
  }

  lemma EmptyPlain()
    ensures Plain([]) && Depth([]) == 0
  {
  }

  /** Printed expressions are balanced and contain neither relations nor separators. */
  lemma {:induction false} PrintedPlain(e: Expr, level: nat, scope: Scope, names: Naming)
    requires Printable(e, scope, names)
    ensures Plain(Print(e, level, names)) && Depth(Print(e, level, names)) == 0
    decreases e
  {
    hide Plain, Depth, Spells;
    match e {
      case Const(n) => Singleton(Num(n)); OneToken(Num(n));
      case Var(a) => SpellingPlain(scope, names.spell[a], a);
      case Neg(a) =>
        PrintedPlain(a, 2, scope, names);
        EmptyPlain();
        PlainParts([], Op("-"), Print(a, 2, names));
        assert [] + [Op("-")] + Print(a, 2, names) == [Op("-")] + Print(a, 2, names);
      case Add(a, b) =>
        PrintedPlain(a, 0, scope, names);
        PrintedPlain(b, 1, scope, names);
        PlainParts(Print(a, 0, names), Op("+"), Print(b, 1, names));
      case Sub(a, b) =>
        PrintedPlain(a, 0, scope, names);
        PrintedPlain(b, 1, scope, names);
        PlainParts(Print(a, 0, names), Op("-"), Print(b, 1, names));
      case Mul(a, b) =>
        PrintedPlain(a, 1, scope, names);
        PrintedPlain(b, 2, scope, names);
        PlainParts(Print(a, 1, names), Op("*"), Print(b, 2, names));
    }
    PlainParenthesised(Body(e, names));
    if e in names.ascribed { PlainAscribed(Body(e, names), names.ascribed[e]); }
  }

  // ----- `_parse_clause`

  datatype Clause =
    | Equation(expr: Expr)
    | Bounded(subject: Expr, relation: string, limit: Expr)
    | Delegated(tokens: seq<Token>)

  datatype ClauseError = EmptyConjunct | ManyRelations | BadBoundSubject | InExpression(error: ParseError)

  /** `lhs` alone when the right side is the numeral 0, else their difference. */
  function Normalised(lhs: Expr, rhs: Expr): Expr {
    if rhs == Const(0) then lhs else Sub(lhs, rhs)
  }

  /** `_parse_expression`: one side, read to its end with the clause's collectors; a row
      relation lost in it stays lost. */
  ghost function ParseSide(scope: Scope, tokens: seq<Token>, s: Cursor): Outcome {
    var p :- ParseExpr(Context(tokens, scope, map[], 0), s.(i := 0));
    if p.at.i < |tokens| then Err(BodyLeft) else Ok(Parsed(p.node, p.at.(rowOk := s.rowOk && p.at.rowOk)))
  }

  lemma {:induction false} FoundIsOp(ts: seq<Token>, wanted: set<string>, k: nat)
    requires k < |Find(ts, wanted)|
    ensures IsOp(ts[Find(ts, wanted)[k]], wanted)
  {
    if ts == [] {
    } else {
      var init := ts[..|ts| - 1];
      if k < |Find(init, wanted)| { FoundIsOp(init, wanted, k); }
    }
  }

  /** The subject of a bound: one `<projection>.val` token off a known binder. */
  ghost predicate BoundSubject(scope: Scope, lhs: seq<Token>) {
    && |lhs| == 1 && lhs[0].Ident? && |lhs[0].name.path| >= 2
    && lhs[0].name.path[|lhs[0].name.path| - 1] == "val" && lhs[0].name.head in scope.binders
  }

  ghost function ParseBound(scope: Scope, lhs: seq<Token>, relation: string, rhs: seq<Token>, s: Cursor)
    : Result<(Clause, Cursor), ClauseError>
  {
    if !BoundSubject(scope, lhs) then Err(BadBoundSubject)
    else
      var name := lhs[0].name;
      var b := scope.binders[name.head];
      var delta := if b.kind == Row && b.name in scope.rowDeltas then scope.rowDeltas[b.name] else 0;
      match ResolveField(scope, s, b, name.path[..|name.path| - 1], delta)
      case Err(e) => Err(InExpression(e))
      case Ok(subject) =>
        match ParseSide(scope, rhs, subject.at)
        case Err(e) => Err(InExpression(e))
        case Ok(limit) => Ok((Bounded(subject.node, relation, limit.node), limit.at))
  }

  ghost function ParseEquation(scope: Scope, lhs: seq<Token>, rhs: seq<Token>, s: Cursor)
    : Result<(Clause, Cursor), ClauseError>
  {
    match ParseSide(scope, lhs, s)
    case Err(e) => Err(InExpression(e))
    case Ok(l) =>
      match ParseSide(scope, rhs, l.at)
      case Err(e) => Err(InExpression(e))
      case Ok(r) => Ok((Equation(Normalised(l.node, r.node)), r.at))
  }

  ghost function ParseClause(scope: Scope, tokens: seq<Token>, s: Cursor): Result<(Clause, Cursor), ClauseError> {
    var found := Find(tokens, RELATIONS);
    if |found| > 1 then Err(ManyRelations)
    else if found == [] then Ok((Delegated(tokens), s))
    else
      var at := found[0];
      FoundIsOp(tokens, RELATIONS, 0);
      if tokens[at].text == "=" then
        ParseEquation(scope, tokens[..at], tokens[at + 1..], s)
      else
        ParseBound(scope, tokens[..at], tokens[at].text, tokens[at + 1..], s)
  }

  /** The conjuncts in turn, up to the first that is refused. */
  ghost function ParseAll(scope: Scope, parts: seq<seq<Token>>, s: Cursor)
    : (r: Result<(seq<Clause>, Cursor), ClauseError>)
    ensures r.Ok? ==> |r.value.0| == |parts|
  {
    if parts == [] then Ok(([], s))
    else
      var n := |parts| - 1;
      match ParseAll(scope, parts[..n], s)
      case Err(e) => Err(e)
      case Ok((clauses, t)) =>
        match ParseClause(scope, parts[n], t)
        case Err(e) => Err(e)
        case Ok((clause, u)) => Ok((clauses + [clause], u))
  }

  /** A whole body: split at the conjunctions, no empty conjunct, every conjunct a clause. */
  ghost function ParseConjuncts(scope: Scope, tokens: seq<Token>, s: Cursor)
    : Result<(seq<Clause>, Cursor), ClauseError> {
    var parts := Split(tokens, AND_TOKENS);
    if [] in parts then Err(EmptyConjunct) else ParseAll(scope, parts, s)
  }

  /** Resolution looks at the collectors and the flag, not at the position. */
  lemma SameField(scope: Scope, s: Cursor, b: Binder, path: seq<string>, delta: int)
    requires path != []
    ensures var r, r0 := ResolveField(scope, s, b, path, delta), ResolveField(scope, s.(i := 0), b, path, delta);
            match r
            case Ok(p) => r0 == Ok(Parsed(p.node, p.at.(i := 0))) && p.at.rowOk == s.rowOk
            case Err(e) => r0 == r
  {
  }

  /** What `_parse_clause` reads and changes: the definition's scope, its collectors and the
      row-relation flag. */
  class ClauseParser {
    const scope: Scope
    const out: Collectors
    var rowOk: bool

    constructor (s: Scope, collectors: Collectors, ok: bool)
      ensures scope == s && out == collectors && rowOk == ok
    {
      scope, out, rowOk := s, collectors, ok;
    }

    /** The collectors and the flag; the position is the parser's own. */
    ghost predicate At(s: Cursor)
      reads this, out
    {
      rowOk == s.rowOk && out.atoms == s.atoms && out.unresolved == s.unresolved
    }

    method Side(tokens: seq<Token>, ghost s: Cursor) returns (r: Result<Expr, ParseError>)
      requires At(s)
      modifies this, out
      ensures match ParseSide(scope, tokens, s)
              case Ok(p) => r == Ok(p.node) && At(p.at)
              case Err(e) => r == Err(e)
    {
      var parser := new ExprParser(Context(tokens, scope, map[], 0), out, rowOk);
      assert parser.At() == s.(i := 0);
      var node :- parser.Expression();
      if parser.i < |tokens| { return Err(BodyLeft); }
      rowOk := rowOk && parser.rowOk;
      r := Ok(node);
    }

    method Clause(tokens: seq<Token>, ghost s: Cursor) returns (r: Result<Clause, ClauseError>)
      requires At(s)
      modifies this, out
      ensures match ParseClause(scope, tokens, s)
              case Ok((clause, t)) => r == Ok(clause) && At(t)
              case Err(e) => r == Err(e)
    {
      hide ParseSide, ParseBound, Find;
      var found := FindTopLevel(tokens, RELATIONS);
      if |found| > 1 { return Err(ManyRelations); }
      if found == [] { return Ok(Delegated(tokens)); }
      var at := found[0];
      FoundIsOp(tokens, RELATIONS, 0);
      if tokens[at].text != "=" {
        r := Bound(tokens[..at], tokens[at].text, tokens[at + 1..], s);
        return;
      }
      var lhs := Side(tokens[..at], s);
      if lhs.Err? { return Err(InExpression(lhs.error)); }
      ghost var middle := ParseSide(scope, tokens[..at], s).value.at;
      var rhs := Side(tokens[at + 1..], middle);
      if rhs.Err? { return Err(InExpression(rhs.error)); }
      r := Ok(Equation(if rhs.value == Const(0) then lhs.value else Sub(lhs.value, rhs.value)));
    }

    method Bound(lhs: seq<Token>, relation: string, rhs: seq<Token>, ghost s: Cursor)
      returns (r: Result<Clause, ClauseError>)
      requires At(s)
      modifies this, out
      ensures match ParseBound(scope, lhs, relation, rhs, s)
              case Ok((clause, t)) => r == Ok(clause) && At(t)
              case Err(e) => r == Err(e)
    {
      hide ParseSide;
      if !(|lhs| == 1 && lhs[0].Ident?) { return Err(BadBoundSubject); }
      var name := lhs[0].name;
      var n := |name.path| - 1;
      if !(n >= 1 && name.path[n] == "val" && name.head in scope.binders) { return Err(BadBoundSubject); }
      var b := scope.binders[name.head];
      var delta := if b.kind == Row && b.name in scope.rowDeltas then scope.rowDeltas[b.name] else 0;
      var parser := new ExprParser(Context([], scope, map[], 0), out, rowOk);
      var subject := parser.Field(b, name.path[..n], delta);
      SameField(scope, s, b, name.path[..n], delta);
      if subject.Err? { return Err(InExpression(subject.error)); }
      ghost var middle := ResolveField(scope, s, b, name.path[..n], delta).value.at;
      var limit := Side(rhs, middle);
      if limit.Err? { return Err(InExpression(limit.error)); }
      r := Ok(Bounded(subject.value, relation, limit.value));
    }

    /** The body of a definition. A refused conjunct is set down and the next one read, so
        that every conjunct is either a clause or an error; an empty conjunct refuses the
        body. */
    method Conjuncts(tokens: seq<Token>, ghost s: Cursor) returns (clauses: seq<Clause>, unparsed: seq<ClauseError>)
      requires At(s)
      modifies this, out
      ensures [] in Split(tokens, AND_TOKENS) ==> clauses == [] && unparsed == [EmptyConjunct]
      ensures [] !in Split(tokens, AND_TOKENS) ==> |clauses| + |unparsed| == |Split(tokens, AND_TOKENS)|
      ensures match ParseConjuncts(scope, tokens, s)
              case Ok((read, t)) => clauses == read && unparsed == [] && At(t)
              case Err(e) => unparsed != [] && unparsed[0] == e
    {
      hide ParseClause, Split;
      var parts := SplitTopLevel(tokens, AND_TOKENS);
      clauses, unparsed := [], [];
      for n := 0 to |parts|
        invariant forall k :: 0 <= k < n ==> parts[k] != []
      {
        if parts[n] == [] {
          assert parts[n] in parts;
          return [], [EmptyConjunct];
        }
      }
      ghost var t := s;
      for n := 0 to |parts|
        invariant |clauses| + |unparsed| == n
        invariant unparsed == [] ==> ParseAll(scope, parts[..n], s) == Ok((clauses, t)) && At(t)
        invariant unparsed != [] ==> ParseAll(scope, parts[..n], s) == Err(unparsed[0])
      {
        assert parts[..n + 1][..n] == parts[..n];
        ghost var here := if unparsed == [] then t else Cursor(0, rowOk, out.atoms, out.unresolved);
        var clause := Clause(parts[n], here);
        if clause.Ok? {
          if unparsed == [] { t := ParseClause(scope, parts[n], t).value.1; }
          clauses := clauses + [clause.value];
        } else {
          unparsed := unparsed + [clause.error];
        }
      }
      assert parts[..|parts|] == parts;
    }
  }

  // ----- what an equation clause means

  lemma CongSubZero(a: int, b: int)
    ensures (a - b) % P == 0 <==> a % P == b % P
  {
  }

  /** The normalised expression vanishes exactly where the two sides agree. */
  lemma EquationMeans(lhs: Expr, rhs: Expr, env: Env)
    ensures ExprValue(Normalised(lhs, rhs), env) % P == 0 <==> ExprValue(lhs, env) % P == ExprValue(rhs, env) % P
  {
    CongSubZero(ExprValue(lhs, env), ExprValue(rhs, env));
  }

  /** Dropping a literal zero on the right does not change the canonical form. */
  lemma ZeroSideImmaterial(lhs: Expr, rhs: Expr)
    ensures CanonicalOf(Normalised(lhs, rhs)) == CanonicalOf(Sub(lhs, rhs))
  {
    if rhs == Const(0) {
      var zero := Scale(-1, SumOf(Const(0)));
      assert SumOf(Const(0)) == [Term(multiset{}, 0)];
      assert zero == [Term(multiset{}, 0)] + Scale(-1, []);
      forall m ensures Coeff(SumOf(Sub(lhs, rhs)), m) == Coeff(SumOf(lhs), m) {
        CoeffAppend(SumOf(lhs), zero, m);
        assert zero[1..] == [];
      }
      CanonicalDecides(lhs, Sub(lhs, rhs));
    }
  }

  function EquationTokens(lhs: Expr, rhs: Expr, names: Naming): seq<Token> {
    Print(lhs, 0, names) + [Op("=")] + Print(rhs, 0, names)
  }

  lemma SideReadsBack(scope: Scope, e: Expr, names: Naming, s: Cursor)
    requires Printable(e, scope, names) && s.rowOk
    ensures ParseSide(scope, Print(e, 0, names), s)
            == Ok(Parsed(e, Cursor(|Print(e, 0, names)|, true, s.atoms + Leaves(e), s.unresolved)))
  {
    hide Printable, Print, ParseExpr;
    PrintThenParse(scope, map[], 0, e, names, s);
    assert s.(i := 0) == Fresh(s);
  }

  lemma EquationClause(scope: Scope, a: seq<Token>, b: seq<Token>, s: Cursor, lhs: Parsed, rhs: Parsed)
    requires Find(a + [Op("=")] + b, RELATIONS) == [|a|]
    requires ParseSide(scope, a, s) == Ok(lhs) && ParseSide(scope, b, lhs.at) == Ok(rhs)
    ensures ParseClause(scope, a + [Op("=")] + b, s) == Ok((Equation(Normalised(lhs.node, rhs.node)), rhs.at))
  {
    hide ParseSide, ParseBound, Find;
    var tokens := a + [Op("=")] + b;
    assert tokens[..|a|] == a && tokens[|a| + 1..] == b;
  }

  /** A printed equation is read back as its normalisation, with the atoms of both sides
      collected and nothing reported unresolved. */
  lemma EquationReadsBack(scope: Scope, lhs: Expr, rhs: Expr, names: Naming, s: Cursor)
    requires Printable(lhs, scope, names) && Printable(rhs, scope, names) && s.rowOk
    ensures ParseClause(scope, EquationTokens(lhs, rhs, names), s)
         == Ok((Equation(Normalised(lhs, rhs)),
                Cursor(|Print(rhs, 0, names)|, true, s.atoms + (Leaves(lhs) + Leaves(rhs)), s.unresolved)))
  {
    hide Printable, Print, ParseSide, ParseClause, Find, Plain, Depth;
    var a, b := Print(lhs, 0, names), Print(rhs, 0, names);
    PrintedPlain(lhs, 0, scope, names);
    PrintedPlain(rhs, 0, scope, names);
    FindsTheRelation(a, Op("="), b);
    SideReadsBack(scope, lhs, names, s);
    var middle := Cursor(|a|, true, s.atoms + Leaves(lhs), s.unresolved);
    SideReadsBack(scope, rhs, names, middle);
    EquationClause(scope, a, b, s, ParseSide(scope, a, s).value, ParseSide(scope, b, middle).value);
    assert s.atoms + Leaves(lhs) + Leaves(rhs) == s.atoms + (Leaves(lhs) + Leaves(rhs));
  }

  /** The atoms of a body of equations, in reading order. */
  function AllLeaves(sides: seq<(Expr, Expr)>): seq<Atom> {
    if sides == [] then []
    else
      var n := |sides| - 1;
      AllLeaves(sides[..n]) + (Leaves(sides[n].0) + Leaves(sides[n].1))
  }

  function PrintedParts(sides: seq<(Expr, Expr)>, names: Naming): (r: seq<seq<Token>>)
    ensures |r| == |sides|
  {
    seq(|sides|, i requires 0 <= i < |sides| => EquationTokens(sides[i].0, sides[i].1, names))
  }

  function Equations(sides: seq<(Expr, Expr)>): (r: seq<Clause>)
    ensures |r| == |sides|
  {
    seq(|sides|, i requires 0 <= i < |sides| => Equation(Normalised(sides[i].0, sides[i].1)))
  }

  lemma {:induction false} PartsReadBack(scope: Scope, sides: seq<(Expr, Expr)>, names: Naming, s: Cursor)
    requires s.rowOk
    requires forall i :: 0 <= i < |sides| ==> Printable(sides[i].0, scope, names) && Printable(sides[i].1, scope, names)
    ensures var r := ParseAll(scope, PrintedParts(sides, names), s);
            && r.Ok? && r.value.0 == Equations(sides) && r.value.1.rowOk
            && r.value.1.atoms == s.atoms + AllLeaves(sides) && r.value.1.unresolved == s.unresolved
    decreases |sides|
  {
    hide Printable, ParseClause, EquationTokens, Print;
    if sides == [] {
      assert s.atoms + [] == s.atoms;
    } else {
      var n := |sides| - 1;
      var parts := PrintedParts(sides, names);
      PartsReadBack(scope, sides[..n], names, s);
      assert parts[..n] == PrintedParts(sides[..n], names);
      var t := ParseAll(scope, parts[..n], s).value.1;
      EquationReadsBack(scope, sides[n].0, sides[n].1, names, t);
      assert Equations(sides) == Equations(sides[..n]) + [Equation(Normalised(sides[n].0, sides[n].1))];
      var more := Leaves(sides[n].0) + Leaves(sides[n].1);
      assert s.atoms + AllLeaves(sides[..n]) + more == s.atoms + (AllLeaves(sides[..n]) + more);
    }
  }

  lemma EquationSolid(a: seq<Token>, b: seq<Token>)
    requires Plain(a) && Plain(b) && Depth(a) == 0 && Depth(b) == 0
    ensures Solid(a + [Op("=")] + b, AND_TOKENS)
  {
    hide Depth;
    var all := a + [Op("=")] + b;
    forall k | 0 <= k < |all| ensures !IsOp(all[k], AND_TOKENS) {
      assert all[k] == if k < |a| then a[k] else if k == |a| then Op("=") else b[k - |a| - 1];
    }
    Singleton(Op("="));
    DepthAppend(a, [Op("=")]);
    DepthAppend(a + [Op("=")], b);
  }

  /** A body of printed equations is read back as exactly those equations, with the atoms of
      all of them in reading order and nothing reported unresolved. */
  lemma BodyReadsBack(scope: Scope, sides: seq<(Expr, Expr)>, names: Naming, sep: string, s: Cursor)
    requires sides != [] && sep in AND_TOKENS && s.rowOk
    requires forall i :: 0 <= i < |sides| ==> Printable(sides[i].0, scope, names) && Printable(sides[i].1, scope, names)
    ensures var r := ParseConjuncts(scope, Join(PrintedParts(sides, names), Op(sep)), s);
            && r.Ok? && r.value.0 == Equations(sides)
            && r.value.1.atoms == s.atoms + AllLeaves(sides) && r.value.1.unresolved == s.unresolved
  {
    hide Print, Printable, Depth, ParseAll, Join, Split;
    var parts := PrintedParts(sides, names);
    forall i | 0 <= i < |parts| ensures Solid(parts[i], AND_TOKENS) && parts[i] != [] {
      PrintedPlain(sides[i].0, 0, scope, names);
      PrintedPlain(sides[i].1, 0, scope, names);
      EquationSolid(Print(sides[i].0, 0, names), Print(sides[i].1, 0, names));
    }
    SplitOfJoin(parts, Op(sep), AND_TOKENS);
    PartsReadBack(scope, sides, names, s);
  }

  // ----- bounds

  /** A bound's left side: the value of a field, `<binder>.<field path>.val`. */
  ghost predicate IsSubject(scope: Scope, lhs: seq<Token>, name: Name, path: seq<string>) {
    lhs == [Ident(name)] && name.head in scope.binders && path != [] && name.path == path + ["val"]
  }

  lemma SubjectIff(scope: Scope, lhs: seq<Token>)
    ensures BoundSubject(scope, lhs) <==> exists name, path :: IsSubject(scope, lhs, name, path)
  {
    if BoundSubject(scope, lhs) {
      var name := lhs[0].name;
      var path := name.path[..|name.path| - 1];
      assert lhs == [Ident(name)] && name.path == path + ["val"];
      assert IsSubject(scope, lhs, name, path);
    }
  }

  lemma BoundIsParsed(scope: Scope, lhs: seq<Token>, relation: string, rhs: seq<Token>, s: Cursor)
    requires Find(lhs + [Op(relation)] + rhs, RELATIONS) == [|lhs|] && relation != "="
    ensures ParseClause(scope, lhs + [Op(relation)] + rhs, s) == ParseBound(scope, lhs, relation, rhs, s)
  {
    hide ParseSide, ParseBound, Find;
    var tokens := lhs + [Op(relation)] + rhs;
    assert tokens[..|lhs|] == lhs && tokens[|lhs| + 1..] == rhs;
  }

  lemma OnePlain(name: Name)
    ensures Plain([Ident(name)]) && Depth([Ident(name)]) == 0
  {
    Singleton(Ident(name));
  }

  /** A printed bound is read back: its subject is the atom the field stands for, at the known
      row of a row record and at the current row otherwise, collected before the limit's. */
  lemma BoundReadsBack(scope: Scope, name: Name, path: seq<string>, delta: int, a: Atom, relation: string,
                       limit: Expr, names: Naming, s: Cursor)
    requires (relation == "<" || relation == "\U{2264}") && s.rowOk && Printable(limit, scope, names)
    requires IsSubject(scope, [Ident(name)], name, path)
    requires var b := scope.binders[name.head];
             && delta == (if b.kind == Row && b.name in scope.rowDeltas then scope.rowDeltas[b.name] else 0)
             && ResolvesTo(scope, b, path, delta, a)
    ensures ParseClause(scope, [Ident(name)] + [Op(relation)] + Print(limit, 0, names), s)
         == Ok((Bounded(Var(a), relation, limit),
                Cursor(|Print(limit, 0, names)|, true, s.atoms + [a] + Leaves(limit), s.unresolved)))
  {
    hide Printable, Print, ParseSide, ParseClause, Find, Plain, Depth, ResolveField, ResolvesTo;
    var lhs, rhs := [Ident(name)], Print(limit, 0, names);
    OnePlain(name);
    PrintedPlain(limit, 0, scope, names);
    FindsTheRelation(lhs, Op(relation), rhs);
    BoundIsParsed(scope, lhs, relation, rhs, s);
    SubjectIff(scope, lhs);
    assert name.path[..|name.path| - 1] == path;
    FieldReads(scope, s, scope.binders[name.head], path, delta, a);
    SideReadsBack(scope, limit, names, s.(atoms := s.atoms + [a]));
  }

  /** Any other left side is refused. */
  lemma BoundRefused(scope: Scope, lhs: seq<Token>, relation: string, rhs: seq<Token>, s: Cursor)
    requires Find(lhs + [Op(relation)] + rhs, RELATIONS) == [|lhs|] && relation != "="
    requires forall name, path :: !IsSubject(scope, lhs, name, path)
    ensures ParseClause(scope, lhs + [Op(relation)] + rhs, s) == Err(BadBoundSubject)
  {
    hide ParseSide, ParseClause, Find;
    BoundIsParsed(scope, lhs, relation, rhs, s);
    SubjectIff(scope, lhs);
  }
}
