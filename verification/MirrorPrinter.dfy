/** A printer with minimal parentheses and optional type ascriptions, and the proof that the
    clause grammar reads it back. */
module MirrorPrinter {
  import opened Results
  import Modular
  import opened Atoms
  import opened Expressions
  import opened Slices
  import opened MirrorGrammar
  import opened MirrorFields

  /** How each atom is spelled, and which expressions are printed with which type. */
  datatype Naming = Naming(spell: map<Atom, seq<Token>>, ascribed: map<Expr, Name>)

  /** 0 sums and differences, 1 products, 2 negations, 3 everything self-delimiting. */
  function Level(e: Expr): nat {
    match e
    case Add(_, _) => 0
    case Sub(_, _) => 0
    case Mul(_, _) => 1
    case Neg(_) => 2
    case _ => 3
  }

  function Ascription(ty: Name): seq<Token> {
    [Op(":"), Ident(ty), Op(")")]
  }

  function Body(e: Expr, names: Naming): seq<Token>
    decreases e, 0
  {
    match e
    case Const(n) => if n >= 0 then [Num(n)] else []
    case Var(a) => if a in names.spell then names.spell[a] else []
    case Neg(a) => [Op("-")] + Print(a, 2, names)
    case Add(a, b) => Print(a, 0, names) + [Op("+")] + Print(b, 1, names)
    case Sub(a, b) => Print(a, 0, names) + [Op("-")] + Print(b, 1, names)
    case Mul(a, b) => Print(a, 1, names) + [Op("*")] + Print(b, 2, names)
  }

  /** An expression with a type is printed in parentheses, `( e : T )`; otherwise there are
      parentheses only where the level asks for them. */
  function Print(e: Expr, level: nat, names: Naming): seq<Token>
    decreases e, 1
  {
    if e in names.ascribed then [Op("(")] + Body(e, names) + Ascription(names.ascribed[e])
    else if Level(e) >= level then Body(e, names)
    else [Op("(")] + Body(e, names) + [Op(")")]
  }

  // ----- which expressions can be printed

  function RowTokens(index: Name, delta: int): seq<Token> {
    if delta == 0 then [Ident(index)]
    else [Op("("), Ident(index), Op(if delta > 0 then "+" else "-"), Num(if delta > 0 then delta else -delta), Op(")")]
  }

  /** The tokens are a projection that resolves to the atom: of a row record with a known
      row, of an accessor record at a row, or of a per-segment field. */
  ghost predicate Spells(scope: Scope, ts: seq<Token>, a: Atom) {
    && ts != [] && ts[0].Ident? && ts[0].name.path != [] && ts[0].name.head in scope.binders
    && var b, path := scope.binders[ts[0].name.head], ts[0].name.path;
       if b.kind == Validator || (b.kind == Segcols && path[0] in b.indexed) then
         && scope.index.Some?
         && exists delta :: ts[1..] == RowTokens(scope.index.value, delta) && ResolvesTo(scope, b, path, delta, a)
       else if b.kind == Row then
         ts[1..] == [] && b.name in scope.rowDeltas && ResolvesTo(scope, b, path, scope.rowDeltas[b.name], a)
       else
         ts[1..] == [] && ResolvesTo(scope, b, path, 0, a)
  }

  /** Numerals are not negative, every atom has a spelling, and the types are declared ones. */
  ghost predicate Printable(e: Expr, scope: Scope, names: Naming) {
    && (e in names.ascribed ==> names.ascribed[e] in ASCRIPTION_TYPES)
    && match e
       case Const(n) => n >= 0
       case Var(a) => a in names.spell && Spells(scope, names.spell[a], a)
       case Neg(a) => Printable(a, scope, names)
       case Add(a, b) => Printable(a, scope, names) && Printable(b, scope, names)
       case Sub(a, b) => Printable(a, scope, names) && Printable(b, scope, names)
       case Mul(a, b) => Printable(a, scope, names) && Printable(b, scope, names)
  }

  // ----- reading at a position

  predicate NextIs(c: Context, i: nat, text: string) {
    i < |c.tokens| && c.tokens[i] == Op(text)
  }

  /** What may follow an expression printed at a level, so that it is read no further. */
  ghost predicate Follows(c: Context, i: nat, level: nat) {
    (level <= 2 ==> !NextIs(c, i, "^")) && (level == 0 ==> !NextIs(c, i, "*"))
  }

  function After(s: Cursor, n: nat, e: Expr): Cursor {
    Cursor(s.i + n, s.rowOk, s.atoms + Leaves(e), s.unresolved)
  }

  /** The grammar at this level reads exactly e, leaving the loops of the level open. */
  ghost predicate Reads(c: Context, s: Cursor, e: Expr, level: nat, t: Cursor)
    requires Ready(c, s) && Ready(c, t)
  {
    if level == 0 then ParseExpr(c, s) == ExprTail(c, e, t)
    else if level == 1 then ParseTerm(c, s) == TermTail(c, e, t)
    else if level == 2 then ParseUnary(c, s) == Ok(Parsed(e, t))
    else ParsePrimary(c, s) == Ok(Parsed(e, t))
  }

  /** From a tighter level to a looser one. */
  lemma Loosen(c: Context, s: Cursor, e: Expr, level: nat, looser: nat, t: Cursor)
    requires Ready(c, s) && Ready(c, t) && Reads(c, s, e, level, t)
    requires looser <= level <= 3 && Follows(c, t.i, looser)
    ensures Reads(c, s, e, looser, t)
    decreases level
  {
    if looser < level {
      if level == 3 {
        assert ParsePower(c, s) == Ok(Parsed(e, t));
        assert ParseUnary(c, s) == ParsePower(c, s);
      }
      assert Reads(c, s, e, level - 1, t);
      Loosen(c, s, e, level - 1, looser, t);
    }
  }

  lemma Parenthesised(c: Context, s: Cursor, e: Expr, t: Cursor)
    requires Ready(c, s) && NextIs(c, s.i, "(") && Ready(c, t)
    requires Reads(c, Skip(s), e, 0, t) && NextIs(c, t.i, ")")
    ensures Reads(c, s, e, 3, Skip(t))
  {
    hide ParseExpr, ParseTerm;
  }

  lemma AscriptionTokens(tokens: seq<Token>, i: nat, ty: Name)
    requires Sees(tokens, i, Ascription(ty))
    ensures i + 3 <= |tokens| && tokens[i] == Op(":") && tokens[i + 1] == Ident(ty) && tokens[i + 2] == Op(")")
  {
    var ts := Ascription(ty);
    SeesAll(tokens, i, ts);
    assert tokens[i + 0] == ts[0] && tokens[i + 1] == ts[1] && tokens[i + 2] == ts[2];
  }

  /** A declared type ascription changes nothing but the position. */
  lemma Ascribed(c: Context, s: Cursor, e: Expr, t: Cursor, ty: Name)
    requires Ready(c, s) && NextIs(c, s.i, "(") && Ready(c, t) && Reads(c, Skip(s), e, 0, t)
    requires Sees(c.tokens, t.i, Ascription(ty)) && ty in ASCRIPTION_TYPES
    ensures t.i + 3 <= |c.tokens| && Reads(c, s, e, 3, t.(i := t.i + 3))
  {
    hide ParseExpr, ParseTerm;
    AscriptionTokens(c.tokens, t.i, ty);
  }

  lemma FollowsClose(c: Context, i: nat)
    requires NextIs(c, i, ")") || NextIs(c, i, ":")
    ensures forall level :: Follows(c, i, level)
  {
  }

  // ----- leaves

  lemma ResolvesAnywhere(scope: Scope, s: Cursor, b: Binder, path: seq<string>, delta: int, a: Atom)
    requires ResolvesTo(scope, b, path, delta, a) && s.rowOk
    ensures ResolveField(scope, s, b, path, delta) == Ok(Parsed(Var(a), s.(atoms := s.atoms + [a])))
  {
    hide ResolveField, ResolvesTo;
    FieldReads(scope, s, b, path, delta, a);
  }

  lemma RowIndexReads(c: Context, i: nat, index: Name, delta: int)
    requires c.scope.index == Some(index) && Sees(c.tokens, i, RowTokens(index, delta))
    ensures ParseRowIndex(c, i) == Ok((delta, i + |RowTokens(index, delta)|))
  {
    var ts := RowTokens(index, delta);
    SeesAll(c.tokens, i, ts);
    if delta == 0 { assert c.tokens[i + 0] == ts[0]; }
  }

  lemma LeafIsProjection(c: Context, s: Cursor)
    requires Ready(c, s) && s.i < |c.tokens| && c.tokens[s.i].Ident?
    requires c.tokens[s.i].name.path != [] && c.tokens[s.i].name.head in c.scope.binders
    ensures ParsePrimary(c, s)
            == ParseProjection(c, Skip(s), c.scope.binders[c.tokens[s.i].name.head], c.tokens[s.i].name.path)
  {
    hide ParseProjection;
  }

  lemma NotVal(scope: Scope, b: Binder, path: seq<string>, a: Atom)
    ensures forall delta :: ResolvesTo(scope, b, path, delta, a) ==> path != [] && path[|path| - 1] != "val"
  {
  }

  lemma LeafReads(c: Context, s: Cursor, ts: seq<Token>, a: Atom)
    requires Ready(c, s) && s.rowOk && Spells(c.scope, ts, a) && Sees(c.tokens, s.i, ts)
    ensures ParsePrimary(c, s) == Ok(Parsed(Var(a), Cursor(s.i + |ts|, true, s.atoms + [a], s.unresolved)))
  {
    hide Sees, ResolvesTo, ResolveField, RowTokens, ParseRowIndex;
    assert ts == [ts[0]] + ts[1..];
    SeesParts(c.tokens, s.i, [ts[0]], ts[1..]);
    SeesToken(c.tokens, s.i, ts[0]);
    var b, path := c.scope.binders[ts[0].name.head], ts[0].name.path;
    LeafIsProjection(c, s);
    hide ParsePrimary;
    NotVal(c.scope, b, path, a);
    if b.kind == Validator || (b.kind == Segcols && path[0] in b.indexed) {
      var delta :| ts[1..] == RowTokens(c.scope.index.value, delta) && ResolvesTo(c.scope, b, path, delta, a);
      RowIndexReads(c, s.i + 1, c.scope.index.value, delta);
      ResolvesAnywhere(c.scope, s.(i := s.i + |ts|), b, path, delta, a);
    } else {
      ResolvesAnywhere(c.scope, Skip(s), b, path, if b.kind == Row then c.scope.rowDeltas[b.name] else 0, a);
    }
  }

  // ----- the round trip

  lemma DeclaredType(e: Expr, scope: Scope, names: Naming)
    requires Printable(e, scope, names) && e in names.ascribed
    ensures names.ascribed[e] in ASCRIPTION_TYPES
  {
  }

  lemma WrappedTokens(c: Context, i: nat, body: seq<Token>, close: seq<Token>, first: string)
    requires close != [] && close[0] == Op(first) && (first == ")" || first == ":")
    requires Sees(c.tokens, i, [Op("(")] + body + close)
    ensures NextIs(c, i, "(") && Sees(c.tokens, i + 1, body) && Sees(c.tokens, i + 1 + |body|, close)
    ensures NextIs(c, i + 1 + |body|, first) && Follows(c, i + 1 + |body|, 0)
  {
    hide Sees, Follows;
    var open := [Op("(")];
    assert open + body + close == open + (body + close);
    SeesParts(c.tokens, i, open, body + close);
    SeesParts(c.tokens, i + 1, body, close);
    SeesToken(c.tokens, i, Op("("));
    assert close == [close[0]] + close[1..];
    SeesParts(c.tokens, i + 1 + |body|, [close[0]], close[1..]);
    SeesToken(c.tokens, i + 1 + |body|, Op(first));
    FollowsClose(c, i + 1 + |body|);
  }

  lemma FollowsTighter(c: Context, i: nat, level: nat, tighter: nat)
    requires Follows(c, i, level) && level <= tighter
    ensures Follows(c, i, tighter)
  {
  }

  lemma AsPrimary(c: Context, s: Cursor, e: Expr, t: Cursor)
    requires Ready(c, s) && ParsePrimary(c, s) == Ok(Parsed(e, t)) && t.i <= |c.tokens|
    ensures Reads(c, s, e, 3, t)
  {
  }

  lemma NumeralReads(c: Context, s: Cursor, n: nat)
    requires Ready(c, s) && Sees(c.tokens, s.i, [Num(n)])
    ensures s.i + 1 <= |c.tokens| && Reads(c, s, Const(n), 3, After(s, 1, Const(n)))
  {
    SeesToken(c.tokens, s.i, Num(n));
    assert s.atoms + [] == s.atoms;
  }

  lemma SameLeaves(a: Expr)
    ensures Leaves(Neg(a)) == Leaves(a)
  {
  }

  lemma NegationStep(c: Context, s: Cursor, a: Expr, t: Cursor)
    requires Ready(c, s) && NextIs(c, s.i, "-") && Ready(c, t) && Reads(c, Skip(s), a, 2, t)
    ensures Reads(c, s, Neg(a), 2, t)
  {
  }

  function Summed(text: string, a: Expr, b: Expr): Expr {
    if text == "+" then Add(a, b) else Sub(a, b)
  }

  /** An operator between two printed operands. */
  lemma Separated(c: Context, i: nat, left: seq<Token>, text: string, right: seq<Token>, level: nat)
    requires Sees(c.tokens, i, left + [Op(text)] + right) && (text == "+" || text == "-" || (text == "*" && level == 1))
    ensures Sees(c.tokens, i, left) && Sees(c.tokens, i + |left| + 1, right)
    ensures NextIs(c, i + |left|, text) && Follows(c, i + |left|, level) && i + |left| < |c.tokens|
  {
    assert left + [Op(text)] + right == left + ([Op(text)] + right);
    SeesParts(c.tokens, i, left, [Op(text)] + right);
    SeesParts(c.tokens, i + |left|, [Op(text)], right);
    SeesToken(c.tokens, i + |left|, Op(text));
  }

  lemma LeavesOfSum(s: Cursor, a: Expr, b: Expr, text: string, m: nat, n: nat)
    ensures After(Skip(After(s, m, a)), n, b) == After(s, m + 1 + n, Summed(text, a, b))
    ensures After(Skip(After(s, m, a)), n, b) == After(s, m + 1 + n, Mul(a, b))
  {
    assert s.atoms + Leaves(a) + Leaves(b) == s.atoms + (Leaves(a) + Leaves(b));
  }

  lemma TailStep(c: Context, s: Cursor, a: Expr, b: Expr, text: string, middle: Cursor, end: Cursor)
    requires text == "+" || text == "-"
    requires Ready(c, s) && Ready(c, middle) && Ready(c, end) && NextIs(c, middle.i, text) && Follows(c, end.i, 0)
    requires Reads(c, s, a, 0, middle) && Reads(c, Skip(middle), b, 1, end)
    ensures Reads(c, s, Summed(text, a, b), 0, end)
  {
  }

  lemma FactorStep(c: Context, s: Cursor, a: Expr, b: Expr, middle: Cursor, end: Cursor)
    requires Ready(c, s) && Ready(c, middle) && Ready(c, end) && NextIs(c, middle.i, "*")
    requires Reads(c, s, a, 1, middle) && Reads(c, Skip(middle), b, 2, end)
    ensures Reads(c, s, Mul(a, b), 1, end)
  {
  }

  lemma {:induction false} PrintReads(c: Context, s: Cursor, e: Expr, level: nat, names: Naming)
    requires Ready(c, s) && s.rowOk && Printable(e, c.scope, names) && level <= 3
    requires Sees(c.tokens, s.i, Print(e, level, names)) && Follows(c, s.i + |Print(e, level, names)|, level)
    ensures Reads(c, s, e, level, After(s, |Print(e, level, names)|, e))
    decreases e, 1
  {
    hide Reads, Follows, Sees, Printable, Leaves, Body;
    var body := Body(e, names);
    if e in names.ascribed {
      WrappedReads(c, s, e, Ascription(names.ascribed[e]), ":", names);
      var t := After(Skip(s), |body|, e);
      DeclaredType(e, c.scope, names);
      Ascribed(c, s, e, t, names.ascribed[e]);
      assert t.(i := t.i + 3) == After(s, |Print(e, level, names)|, e);
      Loosen(c, s, e, 3, level, t.(i := t.i + 3));
    } else if Level(e) >= level {
      SeesFits(c.tokens, s.i, body);
      FollowsTighter(c, s.i + |body|, level, Level(e));
      BodyReads(c, s, e, names);
      Loosen(c, s, e, Level(e), level, After(s, |body|, e));
    } else {
      WrappedReads(c, s, e, [Op(")")], ")", names);
      var t := After(Skip(s), |body|, e);
      Parenthesised(c, s, e, t);
      assert Skip(t) == After(s, |Print(e, level, names)|, e);
      Loosen(c, s, e, 3, level, Skip(t));
    }
  }

  /** What stands between an opening parenthesis and the tokens that close it. */
  lemma WrappedReads(c: Context, s: Cursor, e: Expr, close: seq<Token>, first: string, names: Naming)
    requires Ready(c, s) && s.rowOk && Printable(e, c.scope, names)
    requires close != [] && close[0] == Op(first) && (first == ")" || first == ":")
    requires Sees(c.tokens, s.i, [Op("(")] + Body(e, names) + close)
    ensures var t := After(Skip(s), |Body(e, names)|, e);
            && NextIs(c, s.i, "(") && Ready(c, Skip(s)) && Ready(c, t)
            && Reads(c, Skip(s), e, 0, t)
            && Sees(c.tokens, t.i, close) && NextIs(c, t.i, first)
    decreases e, 1, 0
  {
    hide Reads, Follows, Sees, Printable, Leaves, Body;
    WrappedTokens(c, s.i, Body(e, names), close, first);
    FollowsTighter(c, Skip(s).i + |Body(e, names)|, 0, Level(e));
    BodyReads(c, Skip(s), e, names);
    Loosen(c, Skip(s), e, Level(e), 0, After(Skip(s), |Body(e, names)|, e));
  }

  lemma {:induction false} BodyReads(c: Context, s: Cursor, e: Expr, names: Naming)
    requires Ready(c, s) && s.rowOk && Printable(e, c.scope, names)
    requires Sees(c.tokens, s.i, Body(e, names)) && Follows(c, s.i + |Body(e, names)|, Level(e))
    ensures Reads(c, s, e, Level(e), After(s, |Body(e, names)|, e))
    decreases e, 0
  {
    hide Spells, Print, Reads, Follows, Sees;
    match e {
      case Const(n) =>
        NumeralReads(c, s, n);
      case Var(a) =>
        LeafReads(c, s, names.spell[a], a);
        AsPrimary(c, s, e, After(s, |names.spell[a]|, e));
      case Neg(a) =>
        NegationReads(c, s, a, names);
      case Add(a, b) =>
        SumReads(c, s, a, b, "+", names);
      case Sub(a, b) =>
        SumReads(c, s, a, b, "-", names);
      case Mul(a, b) =>
        ProductReads(c, s, a, b, names);
    }
  }

  lemma NegationReads(c: Context, s: Cursor, a: Expr, names: Naming)
    requires Ready(c, s) && s.rowOk && Printable(a, c.scope, names)
    requires Sees(c.tokens, s.i, [Op("-")] + Print(a, 2, names)) && Follows(c, s.i + 1 + |Print(a, 2, names)|, 2)
    ensures s.i + 1 + |Print(a, 2, names)| <= |c.tokens|
    ensures Reads(c, s, Neg(a), 2, After(s, 1 + |Print(a, 2, names)|, Neg(a)))
    decreases Neg(a), 0, 0
  {
    hide Printable, Print, Leaves, Reads, Follows, Sees;
    SeesParts(c.tokens, s.i, [Op("-")], Print(a, 2, names));
    SeesToken(c.tokens, s.i, Op("-"));
    SeesFits(c.tokens, s.i + 1, Print(a, 2, names));
    PrintReads(c, Skip(s), a, 2, names);
    NegationStep(c, s, a, After(Skip(s), |Print(a, 2, names)|, a));
    SameLeaves(a);
  }

  lemma SumReads(c: Context, s: Cursor, a: Expr, b: Expr, text: string, names: Naming)
    requires text == "+" || text == "-"
    requires Ready(c, s) && s.rowOk && Printable(a, c.scope, names) && Printable(b, c.scope, names)
    requires Sees(c.tokens, s.i, Print(a, 0, names) + [Op(text)] + Print(b, 1, names))
    requires Follows(c, s.i + |Print(a, 0, names)| + 1 + |Print(b, 1, names)|, 0)
    ensures Reads(c, s, Summed(text, a, b), 0,
            After(s, |Print(a, 0, names)| + 1 + |Print(b, 1, names)|, Summed(text, a, b)))
    decreases Summed(text, a, b), 0, 0
  {
    hide Printable, Print, Leaves, Reads, Follows, Sees, NextIs;
    var left, right := Print(a, 0, names), Print(b, 1, names);
    Separated(c, s.i, left, text, right, 0);
    PrintReads(c, s, a, 0, names);
    var middle := After(s, |left|, a);
    FollowsTighter(c, middle.i + 1 + |right|, 0, 1);
    PrintReads(c, Skip(middle), b, 1, names);
    var end := After(Skip(middle), |right|, b);
    LeavesOfSum(s, a, b, text, |left|, |right|);
    TailStep(c, s, a, b, text, middle, end);
  }

  lemma ProductReads(c: Context, s: Cursor, a: Expr, b: Expr, names: Naming)
    requires Ready(c, s) && s.rowOk && Printable(a, c.scope, names) && Printable(b, c.scope, names)
    requires Sees(c.tokens, s.i, Print(a, 1, names) + [Op("*")] + Print(b, 2, names))
    requires Follows(c, s.i + |Print(a, 1, names)| + 1 + |Print(b, 2, names)|, 1)
    ensures Reads(c, s, Mul(a, b), 1, After(s, |Print(a, 1, names)| + 1 + |Print(b, 2, names)|, Mul(a, b)))
    decreases Mul(a, b), 0, 0
  {
    hide Printable, Print, Leaves, Reads, Follows, Sees, NextIs;
    var left, right := Print(a, 1, names), Print(b, 2, names);
    Separated(c, s.i, left, "*", right, 1);
    PrintReads(c, s, a, 1, names);
    var middle := After(s, |left|, a);
    FollowsTighter(c, middle.i + 1 + |right|, 1, 2);
    PrintReads(c, Skip(middle), b, 2, names);
    var end := After(Skip(middle), |right|, b);
    LeavesOfSum(s, a, b, "+", |left|, |right|);
    FactorStep(c, s, a, b, middle, end);
  }

  /** Reading a printed expression to the end gives it back, with its atoms collected in
      reading order and nothing reported unresolved. */
  lemma PrintThenParse(scope: Scope, locals: map<Name, Expr>, depth: nat, e: Expr, names: Naming, s: Cursor)
    requires Printable(e, scope, names) && depth <= MAX_INLINE_DEPTH
    ensures ParseBody(Context(Print(e, 0, names), scope, locals, depth), s)
         == Ok(Parsed(e, Cursor(|Print(e, 0, names)|, true, s.atoms + Leaves(e), s.unresolved)))
  {
    var ts := Print(e, 0, names);
    var c := Context(ts, scope, locals, depth);
    assert ts[0..0 + |ts|] == ts;
    PrintReads(c, Fresh(s), e, 0, names);
  }

  /** Two printable expressions never share a spelling. */
  lemma PrintInjective(scope: Scope, d: Expr, e: Expr, names: Naming)
    requires Printable(d, scope, names) && Printable(e, scope, names) && Print(d, 0, names) == Print(e, 0, names)
    ensures d == e
  {
    var s := Cursor(0, true, [], []);
    PrintThenParse(scope, map[], 0, d, names, s);
    PrintThenParse(scope, map[], 0, e, names, s);
  }

  // ----- constant powers

  /** A chain of powers groups to the right. */
  function Tower(ns: seq<nat>): nat
    requires ns != []
  {
    if |ns| == 1 then ns[0] else Modular.Pow(ns[0], Tower(ns[1..]))
  }

  function PrintTower(ns: seq<nat>): seq<Token>
    requires ns != []
  {
    if |ns| == 1 then [Num(ns[0])] else [Num(ns[0]), Op("^")] + PrintTower(ns[1..])
  }

  lemma {:induction false} TowerFolds(c: Context, s: Cursor, ns: seq<nat>)
    requires ns != [] && Ready(c, s)
    requires Sees(c.tokens, s.i, PrintTower(ns)) && !NextIs(c, s.i + |PrintTower(ns)|, "^")
    ensures ParsePower(c, s) == Ok(Parsed(Const(Tower(ns)), s.(i := s.i + |PrintTower(ns)|)))
    decreases |ns|
  {
    if |ns| == 1 {
      SeesToken(c.tokens, s.i, Num(ns[0]));
    } else {
      var rest := PrintTower(ns[1..]);
      SeesParts(c.tokens, s.i, [Num(ns[0]), Op("^")], rest);
      assert [Num(ns[0]), Op("^")] == [Num(ns[0])] + [Op("^")];
      SeesParts(c.tokens, s.i, [Num(ns[0])], [Op("^")]);
      SeesToken(c.tokens, s.i, Num(ns[0]));
      SeesToken(c.tokens, s.i + 1, Op("^"));
      TowerFolds(c, Skip(Skip(s)), ns[1..]);
      assert ParsePrimary(c, s) == Ok(Parsed(Const(ns[0]), Skip(s)));
    }
  }
}
