/** Whatever is written in the language of the grammar the clause parser accepts, with the
    meaning it has; with `MirrorSound`, the parser accepts exactly the language. */
module MirrorComplete {
  import opened Results
  import opened Expressions
  import opened Slices
  import opened MirrorGrammar
  import opened MirrorInlining
  import opened MirrorSyntax
  import opened MirrorSound

  // ----- what may follow

  /** What follows a tree read at a level does not continue it. */
  ghost predicate Ends(c: Context, i: nat, level: nat) {
    && (level <= 3 ==> !(i < |c.tokens| && c.tokens[i] == Op("^")))
    && (level == 0 ==> !(i < |c.tokens| && c.tokens[i] == Op("*")))
  }

  /** The grammar at the level has read the node, the loops of the level still open. */
  ghost predicate Reads(c: Context, s: Cursor, level: nat, node: Expr, t: Cursor)
    requires Ready(c, s) && Ready(c, t)
  {
    if level == 0 then ParseExpr(c, s) == ExprTail(c, node, t)
    else if level == 1 then ParseTerm(c, s) == TermTail(c, node, t)
    else if level == 2 then ParseUnary(c, s) == Ok(Parsed(node, t))
    else if level == 3 then ParsePower(c, s) == Ok(Parsed(node, t))
    else ParsePrimary(c, s) == Ok(Parsed(node, t))
  }

  lemma Loosen(c: Context, s: Cursor, level: nat, looser: nat, node: Expr, t: Cursor)
    requires Ready(c, s) && Ready(c, t) && Reads(c, s, level, node, t) && looser <= level <= 4 && Ends(c, t.i, looser)
    requires level >= 3 ==> !AtOp(c, s, "-")
    ensures Reads(c, s, looser, node, t)
    decreases level
  {
    if looser < level {
      hide ParsePrimary;
      assert Reads(c, s, level - 1, node, t);
      Loosen(c, s, level - 1, looser, node, t);
    }
  }

  /** Between the positions stands the tree, and its meaning takes the one cursor to the other. */
  ghost predicate Stands(c: Context, s: Cursor, x: Syntax, node: Expr, t: Cursor) {
    && c.depth <= MAX_INLINE_DEPTH && Formed(c, x)
    && s.i <= t.i <= |c.tokens| && c.tokens[s.i..t.i] == Written(x)
    && Means(c, x, Still(s)) == Ok(Parsed(node, Still(t)))
  }

  /** A tree begins with neither a closing token nor, above a negation, with a minus. */
  lemma {:induction false} Begins(c: Context, x: Syntax)
    requires Formed(c, x)
    ensures Written(x) != []
    ensures Tightness(x) >= 3 ==> Written(x)[0] != Op("-")
  {
    hide FieldFormed, Fits, Idents, WrittenArgs;
    match x {
      case SPow(base, _) => Begins(c, base);
      case SMul(left, _) => Begins(c, left);
      case SAdd(left, _) => Begins(c, left);
      case SSub(left, _) => Begins(c, left);
      case _ =>
    }
  }

  lemma StandsHere(c: Context, s: Cursor, x: Syntax, node: Expr, t: Cursor)
    requires Stands(c, s, x, node, t)
    ensures Ready(c, s) && Ready(c, t) && s.i < t.i && c.tokens[s.i] == Written(x)[0]
    ensures Tightness(x) >= 3 ==> !AtOp(c, s, "-")
  {
    hide Means, Formed, Written;
    Begins(c, x);
    assert c.tokens[s.i..t.i][0] == c.tokens[s.i];
  }

  // ----- cutting a part in two

  lemma CutAround(ts: seq<Token>, i: nat, j: nat, a: seq<Token>, t: Token, b: seq<Token>)
    requires i <= j <= |ts| && ts[i..j] == a + [t] + b
    ensures var m := i + |a|; m < j && ts[i..m] == a && ts[m] == t && ts[m + 1..j] == b
  {
    assert a + [t] + b == a + ([t] + b);
    Cut(ts, i, j, a, [t] + b);
    Cut(ts, i + |a|, j, [t], b);
    assert ts[i + |a|] == ts[i + |a|..i + |a| + 1][0];
  }

  /** The cursor in between, with the position of the second part and the collectors of the
      first one's meaning. */
  function Between(p: Parsed, i: nat): Cursor {
    p.at.(i := i)
  }

  // ----- expressions

  lemma EndsTighter(c: Context, i: nat, level: nat, tighter: nat)
    requires Ends(c, i, level) && level <= tighter
    ensures Ends(c, i, tighter)
  {
  }

  lemma NumberReads(c: Context, s: Cursor, n: nat, node: Expr, t: Cursor)
    requires Stands(c, s, SNum(n), node, t)
    ensures Ready(c, s) && Ready(c, t) && Reads(c, s, 4, node, t)
  {
    StandsHere(c, s, SNum(n), node, t);
  }

  lemma LocalReads(c: Context, s: Cursor, name: Name, node: Expr, t: Cursor)
    requires Stands(c, s, SLocal(name), node, t)
    ensures Ready(c, s) && Ready(c, t) && Reads(c, s, 4, node, t)
    ensures s.i < |c.tokens| && c.tokens[s.i].Ident? && ParseApplication(c, s) == Ok(Parsed(node, t))
  {
    hide ParseProjection, ParseArgument, Inline, InlineCarrier, Reads;
    StandsHere(c, s, SLocal(name), node, t);
    AsPrimary(c, s, node, t);
  }

  lemma {:induction false} TreeReadsTight(c: Context, s: Cursor, x: Syntax, node: Expr, t: Cursor)
    requires Stands(c, s, x, node, t) && Ends(c, t.i, Tightness(x))
    ensures Ready(c, s) && Ready(c, t) && Reads(c, s, Tightness(x), node, t)
    decreases x, 1
  {
    hide Reads, Ends, Stands, Formed, Means, Written;
    match x {
      case SNum(n) => NumberReads(c, s, n, node, t);
      case SField(name, row, delta) => FieldReads(c, s, name, row, delta, node, t);
      case SLocal(name) => LocalReads(c, s, name, node, t);
      case SCoerced(name, arg) => CoercedReads(c, s, name, arg, node, t);
      case SCall(name, args) => CallReads(c, s, name, args, node, t);
      case SCarrier(name, binders) => CarrierReads(c, s, name, binders, node, t);
      case SParen(inner, ty) => ParenReads(c, s, inner, ty, node, t);
      case SPow(base, exponent) => PowerReads(c, s, base, exponent, node, t);
      case SNeg(arg) => NegationReads(c, s, arg, node, t);
      case SMul(left, right) => ProductReads(c, s, left, right, node, t);
      case SAdd(left, right) => SumReads(c, s, x, left, right, "+", node, t);
      case SSub(left, right) => SumReads(c, s, x, left, right, "-", node, t);
    }
  }

  lemma {:induction false} TreeReads(c: Context, s: Cursor, x: Syntax, level: nat, node: Expr, t: Cursor)
    requires Stands(c, s, x, node, t) && level <= Tightness(x) && Ends(c, t.i, level)
    ensures Ready(c, s) && Ready(c, t) && Reads(c, s, level, node, t)
    decreases x, 2
  {
    hide Reads, Ends, Stands, Formed, Means, Written, ParseExpr, ParseTerm;
    StandsHere(c, s, x, node, t);
    EndsTighter(c, t.i, level, Tightness(x));
    TreeReadsTight(c, s, x, node, t);
    Loosen(c, s, Tightness(x), level, node, t);
  }

  // ----- binary operators

  /** The two operands of an operator, and the state between them. */
  lemma Operands(c: Context, s: Cursor, x: Syntax, text: string, left: Syntax, right: Syntax, a: Parsed, b: Parsed,
                 node: Expr, t: Cursor)
    requires Stands(c, s, x, node, t) && Written(x) == Written(left) + [Op(text)] + Written(right)
    requires Formed(c, left) && Formed(c, right) && Means(c, left, Still(s)) == Ok(a)
    requires Means(c, right, a.at) == Ok(b) && b.at == Still(t)
    ensures var m := Between(a, s.i + |Written(left)|);
            && m.i < |c.tokens| && c.tokens[m.i] == Op(text)
            && Stands(c, s, left, a.node, m) && Stands(c, Skip(m), right, b.node, t)
  {
    hide Means, Formed, Written;
    CutAround(c.tokens, s.i, t.i, Written(left), Op(text), Written(right));
    var m := Between(a, s.i + |Written(left)|);
    assert Still(m) == a.at && Still(Skip(m)) == a.at;
  }

  lemma SumParts(c: Context, x: Syntax, s: Cursor, node: Expr, t: Cursor) returns (a: Parsed, b: Parsed)
    requires Stands(c, s, x, node, t) && (x.SAdd? || x.SSub? || x.SMul?)
    ensures Formed(c, x.left) && Formed(c, x.right)
    ensures Means(c, x.left, Still(s)) == Ok(a) && Means(c, x.right, a.at) == Ok(b) && b.at == Still(t)
    ensures x.SAdd? ==> node == Add(a.node, b.node) && Written(x) == Written(x.left) + [Op("+")] + Written(x.right)
    ensures x.SSub? ==> node == Sub(a.node, b.node) && Written(x) == Written(x.left) + [Op("-")] + Written(x.right)
    ensures x.SMul? ==> node == Mul(a.node, b.node) && Written(x) == Written(x.left) + [Op("*")] + Written(x.right)
    ensures Tightness(x.right) >= if x.SMul? then 2 else 1
    ensures x.SMul? ==> Tightness(x.left) >= 1
  {
    a := Means(c, x.left, Still(s)).value;
    b := Means(c, x.right, a.at).value;
  }

  lemma EndsBefore(c: Context, i: nat, text: string)
    requires i < |c.tokens| && c.tokens[i] == Op(text)
    ensures text == "+" || text == "-" ==> Ends(c, i, 0)
    ensures text == "*" ==> Ends(c, i, 1)
    ensures text == "^" ==> Ends(c, i, 4)
    ensures text == ")" || text == ":" ==> Ends(c, i, 0)
  {
  }

  lemma SumStep(c: Context, s: Cursor, a: Expr, text: string, b: Expr, m: Cursor, t: Cursor)
    requires Ready(c, s) && Ready(c, m) && Ready(c, t) && AtOp(c, m, text) && Ends(c, t.i, 0)
    requires Reads(c, s, 0, a, m) && Reads(c, Skip(m), 1, b, t)
    ensures text == "+" ==> Reads(c, s, 0, Add(a, b), t)
    ensures text == "-" ==> Reads(c, s, 0, Sub(a, b), t)
  {
  }

  lemma {:induction false} SumReads(c: Context, s: Cursor, x: Syntax, left: Syntax, right: Syntax, text: string,
                                    node: Expr, 
                                    t: Cursor)
    requires Stands(c, s, x, node, t) && Ends(c, t.i, 0)
    requires (x == SAdd(left, right) && text == "+") || (x == SSub(left, right) && text == "-")
    ensures Ready(c, s) && Ready(c, t) && Reads(c, s, 0, node, t)
    decreases x, 0
  {
    hide Reads, Ends, Stands, Formed, Means, Written, Tightness;
    var a, b := SumParts(c, x, s, node, t);
    Operands(c, s, x, text, left, right, a, b, node, t);
    var m := Between(a, s.i + |Written(left)|);
    EndsBefore(c, m.i, text);
    EndsTighter(c, t.i, 0, 1);
    TreeReads(c, s, left, 0, a.node, m);
    TreeReads(c, Skip(m), right, 1, b.node, t);
    SumStep(c, s, a.node, text, b.node, m, t);
  }

  lemma ProductStep(c: Context, s: Cursor, a: Expr, b: Expr, m: Cursor, t: Cursor)
    requires Ready(c, s) && Ready(c, m) && Ready(c, t) && AtOp(c, m, "*")
    requires Reads(c, s, 1, a, m) && Reads(c, Skip(m), 2, b, t)
    ensures Reads(c, s, 1, Mul(a, b), t)
  {
  }

  lemma {:induction false} ProductReads(c: Context, s: Cursor, left: Syntax, right: Syntax, node: Expr, t: Cursor)
    requires Stands(c, s, SMul(left, right), node, t) && Ends(c, t.i, 1)
    ensures Ready(c, s) && Ready(c, t) && Reads(c, s, 1, node, t)
    decreases SMul(left, right), 0
  {
    hide Reads, Ends, Stands, Formed, Means, Written, Tightness;
    var x := SMul(left, right);
    var a, b := SumParts(c, x, s, node, t);
    Operands(c, s, x, "*", left, right, a, b, node, t);
    var m := Between(a, s.i + |Written(left)|);
    EndsBefore(c, m.i, "*");
    EndsTighter(c, t.i, 1, 2);
    TreeReads(c, s, left, 1, a.node, m);
    TreeReads(c, Skip(m), right, 2, b.node, t);
    ProductStep(c, s, a.node, b.node, m, t);
  }

  // ----- negations and powers

  lemma NegationParts(c: Context, s: Cursor, arg: Syntax, node: Expr, t: Cursor) returns (a: Parsed)
    requires Stands(c, s, SNeg(arg), node, t)
    ensures s.i < |c.tokens| && AtOp(c, s, "-") && node == Neg(a.node) && Tightness(arg) >= 2
    ensures Stands(c, Skip(s), arg, a.node, t)
  {
    a := Means(c, arg, Still(s)).value;
    CutAround(c.tokens, s.i, t.i, [], Op("-"), Written(arg));
    assert [] + [Op("-")] + Written(arg) == [Op("-")] + Written(arg);
    assert Still(Skip(s)) == Still(s);
  }

  lemma {:induction false} NegationReads(c: Context, s: Cursor, arg: Syntax, node: Expr, t: Cursor)
    requires Stands(c, s, SNeg(arg), node, t) && Ends(c, t.i, 2)
    ensures Ready(c, s) && Ready(c, t) && Reads(c, s, 2, node, t)
    decreases SNeg(arg), 0
  {
    hide Ends, Stands, Formed, Means, Written, Tightness, ParsePower;
    StandsHere(c, s, SNeg(arg), node, t);
    var a := NegationParts(c, s, arg, node, t);
    TreeReads(c, Skip(s), arg, 2, a.node, t);
  }

  lemma PowerParts(c: Context, s: Cursor, base: Syntax, exponent: Syntax, node: Expr, t: Cursor)
    returns (a: Parsed, b: Parsed)
    requires Stands(c, s, SPow(base, exponent), node, t)
    ensures Formed(c, base) && Formed(c, exponent) && Tightness(base) == 4 && Tightness(exponent) >= 3
    ensures Means(c, base, Still(s)) == Ok(a) && Means(c, exponent, a.at) == Ok(b) && b.at == Still(t)
    ensures PowerMeans(a.node, b) == Ok(Parsed(node, Still(t)))
    ensures Written(SPow(base, exponent)) == Written(base) + [Op("^")] + Written(exponent)
  {
    a := Means(c, base, Still(s)).value;
    b := Means(c, exponent, a.at).value;
  }

  lemma PowerStep(c: Context, s: Cursor, a: Expr, b: Parsed, node: Expr, m: Cursor, t: Cursor)
    requires Ready(c, s) && Ready(c, m) && Ready(c, t) && AtOp(c, m, "^")
    requires Reads(c, s, 4, a, m) && Reads(c, Skip(m), 3, b.node, t)
    requires PowerMeans(a, b) == Ok(Parsed(node, Still(t)))
    ensures Reads(c, s, 3, node, t)
  {
    hide ParsePrimary;
  }

  lemma {:induction false} PowerReads(c: Context, s: Cursor, base: Syntax, exponent: Syntax, node: Expr, t: Cursor)
    requires Stands(c, s, SPow(base, exponent), node, t) && Ends(c, t.i, 3)
    ensures Ready(c, s) && Ready(c, t) && Reads(c, s, 3, node, t)
    decreases SPow(base, exponent), 0
  {
    hide Reads, Ends, Stands, Formed, Means, Written, Tightness, PowerMeans;
    var x := SPow(base, exponent);
    var a, b := PowerParts(c, s, base, exponent, node, t);
    Operands(c, s, x, "^", base, exponent, a, b, node, t);
    var m := Between(a, s.i + |Written(base)|);
    EndsBefore(c, m.i, "^");
    TreeReads(c, s, base, 4, a.node, m);
    TreeReads(c, Skip(m), exponent, 3, b.node, t);
    PowerStep(c, s, a.node, b, node, m, t);
  }

  // ----- parentheses

  lemma InnerEnds(c: Context, s: Cursor, node: Expr, m: Cursor)
    requires Ready(c, Skip(s)) && Ready(c, m) && Reads(c, Skip(s), 0, node, m)
    requires m.i < |c.tokens| && (c.tokens[m.i] == Op(")") || c.tokens[m.i] == Op(":"))
    ensures ParseExpr(c, Skip(s)) == Ok(Parsed(node, m))
  {
    hide ParseExpr, ParseTerm;
  }

  lemma ClosingReads(c: Context, m: Cursor, ty: Option<Name>, t: Cursor)
    requires Ready(c, m) && m.i <= t.i <= |c.tokens| && c.tokens[m.i..t.i] == Closing(ty) && Still(m) == Still(t)
    requires ty.Some? ==> IsType(ty.value)
    ensures m.i < |c.tokens| && c.tokens[m.i] == Op(if ty.None? then ")" else ":")
    ensures var at := ParseAscription(c, m);
            at.Ok? && at.value.i < |c.tokens| && c.tokens[at.value.i] == Op(")") && Skip(at.value) == t
  {
    var part := c.tokens[m.i..t.i];
    assert c.tokens[m.i] == part[0];
    if ty.Some? {
      assert c.tokens[m.i + 1] == part[1] && c.tokens[m.i + 2] == part[2];
      assert ty.value in ASCRIPTION_TYPES;
    }
  }

  /** The inner expression, and how the parenthesis closes behind it. */
  lemma ParenParts(c: Context, s: Cursor, inner: Syntax, ty: Option<Name>, node: Expr, t: Cursor) returns (m: Cursor)
    requires Stands(c, s, SParen(inner, ty), node, t)
    ensures s.i < |c.tokens| && AtOp(c, s, "(") && Stands(c, Skip(s), inner, node, m) && Ready(c, m) && Ready(c, t)
    ensures m.i < |c.tokens| && (c.tokens[m.i] == Op(")") || c.tokens[m.i] == Op(":")) && Ends(c, m.i, 0)
    ensures var at := ParseAscription(c, m);
            at.Ok? && at.value.i < |c.tokens| && c.tokens[at.value.i] == Op(")") && Skip(at.value) == t
  {
    hide Means, Written, Closing, ParseAscription, Ends;
    ParenWritten(inner, ty);
    var w, ts := Written(inner), c.tokens;
    assert [Op("(")] + w + Closing(ty) == [Op("(")] + (w + Closing(ty));
    Cut(ts, s.i, t.i, [Op("(")], w + Closing(ty));
    Cut(ts, s.i + 1, t.i, w, Closing(ty));
    assert ts[s.i] == ts[s.i..s.i + 1][0];
    m := t.(i := s.i + 1 + |w|);
    ParenMeans(c, inner, ty, Still(s));
    assert Still(Skip(s)) == Still(s) && Still(m) == Still(t);
    ClosingReads(c, m, ty, t);
    EndsBefore(c, m.i, if ty.None? then ")" else ":");
  }

  lemma {:induction false} ParenReads(c: Context, s: Cursor, inner: Syntax, ty: Option<Name>, node: Expr, t: Cursor)
    requires Stands(c, s, SParen(inner, ty), node, t)
    ensures Ready(c, s) && Ready(c, t) && Reads(c, s, 4, node, t) && AtOp(c, s, "(")
    decreases SParen(inner, ty), 0
  {
    hide Ends, Stands, Formed, Means, Written, Closing, ParseAscription, ParseExpr;
    var m := ParenParts(c, s, inner, ty, node, t);
    TreeReads(c, Skip(s), inner, 0, node, m);
    InnerEnds(c, s, node, m);
  }

  // ----- applications

  lemma AsPrimary(c: Context, s: Cursor, node: Expr, t: Cursor)
    requires Ready(c, s) && Ready(c, t) && s.i < |c.tokens| && c.tokens[s.i].Ident?
    requires ParseApplication(c, s) == Ok(Parsed(node, t))
    ensures Reads(c, s, 4, node, t)
  {
    hide ParseApplication;
  }

  lemma RowReads(c: Context, i: nat, j: nat, delta: int)
    requires i <= j <= |c.tokens| && RowWritten(c.scope, c.tokens[i..j], delta)
    ensures ParseRowIndex(c, i) == Ok((delta, j))
  {
    var part := c.tokens[i..j];
    assert c.tokens[i] == part[0];
    if |part| == 5 {
      assert c.tokens[i + 1] == part[1] && c.tokens[i + 2] == part[2] && c.tokens[i + 3] == part[3];
      assert c.tokens[i + 4] == part[4];
    }
  }

  lemma FieldAnywhere(scope: Scope, s: Cursor, b: Binder, path: seq<string>, delta: int, node: Expr, t: Cursor)
    requires path != [] && ResolveField(scope, Still(s), b, path, delta) == Ok(Parsed(node, Still(t)))
    ensures ResolveField(scope, s, b, path, delta) == Ok(Parsed(node, t.(i := s.i)))
  {
    hide Hits;
  }

  lemma FieldReads(c: Context, s: Cursor, name: Name, row: seq<Token>, delta: int, node: Expr, t: Cursor)
    requires Stands(c, s, SField(name, row, delta), node, t)
    ensures Ready(c, s) && Ready(c, t) && Reads(c, s, 4, node, t)
    ensures s.i < |c.tokens| && c.tokens[s.i].Ident? && ParseApplication(c, s) == Ok(Parsed(node, t))
  {
    hide ResolveField, ParseRowIndex, RowWritten, Reads, ParseArgument, Inline, InlineCarrier;
    StandsHere(c, s, SField(name, row, delta), node, t);
    var b, path := c.scope.binders[name.head], name.path;
    Cut(c.tokens, s.i, t.i, [Ident(name)], row);
    if TakesRow(b, path[0]) {
      RowReads(c, s.i + 1, t.i, delta);
      FieldAnywhere(c.scope, s.(i := t.i), b, path, delta, node, t);
    } else {
      var from := if b.kind == Row && b.name !in c.scope.rowDeltas then Skip(s).(rowOk := false) else Skip(s);
      FieldAnywhere(c.scope, from, b, path, delta, node, t);
    }
    AsPrimary(c, s, node, t);
  }

  lemma CoercionIsPlain(c: Context, s: Cursor, x: Syntax, node: Expr, t: Cursor)
    requires Stands(c, s, x, node, t) && x.SCoerced?
    ensures !IsArgument(c, x)
  {
  }

  lemma NumberArgument(c: Context, s: Cursor, n: nat, node: Expr, t: Cursor)
    requires Stands(c, s, SNum(n), node, t)
    ensures Ready(c, s) && ParseArgument(c, s) == Ok(Parsed(node, t))
  {
    StandsHere(c, s, SNum(n), node, t);
  }

  /** The name at the start of an application that is an argument. */
  lemma Named(c: Context, s: Cursor, x: Syntax, node: Expr, t: Cursor)
    requires Stands(c, s, x, node, t) && IsArgument(c, x) && (x.SField? || x.SLocal? || x.SCall? || x.SCarrier?)
    ensures s.i < |c.tokens| && c.tokens[s.i].Ident?
    ensures c.tokens[s.i].name.path != [] || c.tokens[s.i].name in c.locals
  {
    StandsHere(c, s, x, node, t);
  }

  /** A tree that may stand as an argument is read as one. */
  lemma {:induction false} ArgumentReads(c: Context, s: Cursor, x: Syntax, node: Expr, t: Cursor)
    requires Stands(c, s, x, node, t) && IsArgument(c, x)
    ensures Ready(c, s) && Ready(c, t) && ParseArgument(c, s) == Ok(Parsed(node, t))
    decreases x, 1
  {
    hide ParsePrimary, ParseApplication, Stands, Means, Formed, Written;
    StandsHere(c, s, x, node, t);
    match x {
      case SNum(n) => NumberArgument(c, s, n, node, t);
      case SParen(inner, ty) => ParenReads(c, s, inner, ty, node, t);
      case SField(name, row, delta) => FieldReads(c, s, name, row, delta, node, t); Named(c, s, x, node, t);
      case SLocal(name) => LocalReads(c, s, name, node, t); Named(c, s, x, node, t);
      case SCall(name, args) => CallReads(c, s, name, args, node, t); Named(c, s, x, node, t);
      case SCarrier(name, binders) => CarrierReads(c, s, name, binders, node, t); Named(c, s, x, node, t);
      case SCoerced(name, arg) => CoercionIsPlain(c, s, x, node, t);
    }
  }

  lemma CoercedParts(c: Context, s: Cursor, name: Name, arg: Syntax, node: Expr, t: Cursor)
    requires Stands(c, s, SCoerced(name, arg), node, t)
    ensures s.i < |c.tokens| && c.tokens[s.i] == Ident(name) && IsOuter(c, name) && name in BOOL_COERCIONS
    ensures IsArgument(c, arg) && Stands(c, Skip(s), arg, node, t)
  {
    Cut(c.tokens, s.i, t.i, [Ident(name)], Written(arg));
    assert c.tokens[s.i] == c.tokens[s.i..s.i + 1][0];
    assert Still(Skip(s)) == Still(s);
  }

  lemma {:induction false} CoercedReads(c: Context, s: Cursor, name: Name, arg: Syntax, node: Expr, t: Cursor)
    requires Stands(c, s, SCoerced(name, arg), node, t)
    ensures Ready(c, s) && Ready(c, t) && Reads(c, s, 4, node, t)
    decreases SCoerced(name, arg), 0
  {
    hide Stands, Means, Formed, Written, ParseArgument, ParseProjection, Inline, InlineCarrier, Reads;
    StandsHere(c, s, SCoerced(name, arg), node, t);
    CoercedParts(c, s, name, arg, node, t);
    ArgumentReads(c, Skip(s), arg, node, t);
    AsPrimary(c, s, node, t);
  }

  // ----- helpers

  lemma ArgFormed(c: Context, x: Syntax, k: nat)
    requires x.SCall? && Formed(c, x) && k < |x.args|
    ensures IsArgument(c, x.args[k]) && Formed(c, x.args[k])
  {
  }

  lemma {:induction false} ArgumentsRead(c: Context, s: Cursor, x: Syntax, k: nat, nodes: seq<Expr>, t: Cursor)
    requires x.SCall? && Formed(c, x) && k <= |x.args| && c.depth <= MAX_INLINE_DEPTH
    requires s.i <= t.i <= |c.tokens| && c.tokens[s.i..t.i] == WrittenArgs(x, k)
    requires MeansArgs(c, x, k, Still(s)) == Ok((nodes, Still(t)))
    ensures ParseArguments(c, s, |x.args| - k) == Ok((nodes, t))
    decreases x, 0, |x.args| - k
  {
    hide ParseArgument, Means, Written, Formed, IsArgument;
    if k == |x.args| {
      assert Still(s) == Still(t) && s.i == t.i;
      assert s == t;
    } else {
      ArgFormed(c, x, k);
      var a := Means(c, x.args[k], Still(s)).value;
      Cut(c.tokens, s.i, t.i, Written(x.args[k]), WrittenArgs(x, k + 1));
      var m := Between(a, s.i + |Written(x.args[k])|);
      assert Still(m) == a.at;
      assert Stands(c, s, x.args[k], a.node, m);
      ArgumentReads(c, s, x.args[k], a.node, m);
      ArgumentsRead(c, m, x, k + 1, nodes[1..], t);
      assert nodes == [nodes[0]] + nodes[1..];
    }
  }

  /** The parts of a call: its arguments read one after another, then its body. */
  lemma CallParts(c: Context, s: Cursor, name: Name, args: seq<Syntax>, node: Expr, t: Cursor)
    returns (nodes: seq<Expr>, m: Cursor)
    requires Stands(c, s, SCall(name, args), node, t)
    ensures s.i < |c.tokens| && c.tokens[s.i] == Ident(name) && c.depth < MAX_INLINE_DEPTH
    ensures IsOuter(c, name) && name !in BOOL_COERCIONS && name in c.scope.helpers
    ensures var h := c.scope.helpers[name];
            && |h.params| == |args| == |nodes|
            && m.i == t.i && c.tokens[s.i + 1..t.i] == WrittenArgs(SCall(name, args), 0)
            && MeansArgs(c, SCall(name, args), 0, Still(s)) == Ok((nodes, Still(m)))
            && var body := ParseBody(InnerContext(c, h, nodes), m);
               body.Ok? && body.value.node == node
               && t == Cursor(t.i, m.rowOk && body.value.at.rowOk, body.value.at.atoms, body.value.at.unresolved)
  {
    hide MeansArgs, WrittenArgs, ParseBody;
    var x := SCall(name, args);
    var h := c.scope.helpers[name];
    StandsHere(c, s, x, node, t);
    Cut(c.tokens, s.i, t.i, [Ident(name)], WrittenArgs(x, 0));
    nodes := MeansArgs(c, x, 0, Still(s)).value.0;
    m := MeansArgs(c, x, 0, Still(s)).value.1.(i := t.i);
    BodyStill(InnerContext(c, h, nodes), m);
  }

  lemma {:induction false} CallReads(c: Context, s: Cursor, name: Name, args: seq<Syntax>, node: Expr, t: Cursor)
    requires Stands(c, s, SCall(name, args), node, t)
    ensures Ready(c, s) && Ready(c, t) && Reads(c, s, 4, node, t)
    ensures s.i < |c.tokens| && c.tokens[s.i].Ident? && ParseApplication(c, s) == Ok(Parsed(node, t))
    decreases SCall(name, args), 0
  {
    hide Means, Formed, Written, MeansArgs, WrittenArgs, ParseArguments, ParseBody, ParseProjection, ParseArgument,
         InlineCarrier, Reads;
    var x := SCall(name, args);
    StandsHere(c, s, x, node, t);
    var nodes, m := CallParts(c, s, name, args, node, t);
    assert Still(Skip(s)) == Still(s);
    ArgumentsRead(c, Skip(s), x, 0, nodes, m);
    assert Inline(c, Skip(s), c.scope.helpers[name]) == Ok(Parsed(node, t));
    hide Inline;
    AsPrimary(c, s, node, t);
  }

  lemma CarrierReads(c: Context, s: Cursor, name: Name, binders: seq<Name>, node: Expr, t: Cursor)
    requires Stands(c, s, SCarrier(name, binders), node, t)
    ensures Ready(c, s) && Ready(c, t) && Reads(c, s, 4, node, t)
    ensures s.i < |c.tokens| && c.tokens[s.i].Ident? && ParseApplication(c, s) == Ok(Parsed(node, t))
  {
    hide ParseBody, BindCarriers, OwnBinders, OwnIndex, Fits, Reads, ParseProjection, ParseArgument, Inline;
    var h := c.scope.carrierHelpers[name];
    var ts, i := c.tokens, s.i + 1;
    StandsHere(c, s, SCarrier(name, binders), node, t);
    Cut(ts, s.i, t.i, [Ident(name)], Idents(binders));
    forall k | 0 <= k < |h.binders| ensures Fits(c, ts[i + k], h.binders[k]) {
      assert ts[i + k] == ts[i..t.i][k];
    }
    CarriersBoundIff(c, i, h.binders, map[], None);
    BodyStill(CarrierContext(c, h, BindCarriers(c, i, h.binders, map[], None).value), s);
    BodyStill(CarrierContext(c, h, BindCarriers(c, i, h.binders, map[], None).value), Skip(s));
    assert Still(Skip(s)) == Still(s);
    assert InlineCarrier(c, Skip(s), h) == Ok(Parsed(node, t));
    hide InlineCarrier;
    AsPrimary(c, s, node, t);
  }

  // ----- the theorem

  lemma AtEnd(c: Context, i: nat)
    requires i >= |c.tokens|
    ensures Ends(c, i, 0)
  {
  }

  lemma EndOfTail(c: Context, s: Cursor, node: Expr, t: Cursor)
    requires Ready(c, s) && Ready(c, t) && Reads(c, s, 0, node, t) && t.i == |c.tokens|
    ensures ParseExpr(c, s) == Ok(Parsed(node, t))
  {
    hide ParseExpr, ParseTerm;
  }

  /** Tokens that are written with a tree of the language are read to their end. */
  lemma LanguageRead(c: Context, s: Cursor, x: Syntax, p: Parsed)
    requires c.depth <= MAX_INLINE_DEPTH && Formed(c, x) && Written(x) == c.tokens
    requires Means(c, x, Still(s)) == Ok(p)
    ensures ParseExpr(c, Still(s)) == Ok(Parsed(p.node, p.at.(i := |c.tokens|)))
  {
    hide ParseExpr, ExprTail, Formed, Means, Written, Reads, Ends;
    var t := p.at.(i := |c.tokens|);
    assert Still(Still(s)) == Still(s) && Still(t) == p.at;
    assert c.tokens[0..|c.tokens|] == c.tokens;
    AtEnd(c, |c.tokens|);
    TreeReads(c, Still(s), x, 0, p.node, t);
    EndOfTail(c, Still(s), p.node, t);
  }

  lemma ReadToEnd(c: Context, s: Cursor, p: Parsed)
    requires c.depth <= MAX_INLINE_DEPTH && ParseExpr(c, Still(Fresh(s))) == Ok(p) && p.at.i == |c.tokens|
    ensures ParseBody(c, s) == Ok(p)
  {
    hide ParseExpr;
    assert Still(Fresh(s)) == Fresh(s);
  }

  lemma BodyEnds(c: Context, s: Cursor)
    requires c.depth <= MAX_INLINE_DEPTH && ParseBody(c, s).Ok?
    ensures ParseBody(c, s).value.at.i == |c.tokens|
  {
    hide ParseExpr;
  }

  /** The parser accepts a token sequence exactly when some tree of the language is written
      with it, and returns what that tree means. */
  lemma AcceptsExactly(c: Context, s: Cursor, p: Parsed)
    requires c.depth <= MAX_INLINE_DEPTH
    ensures ParseBody(c, s) == Ok(p)
       <==> p.at.i == |c.tokens|
            && exists x :: Formed(c, x) && Written(x) == c.tokens
                        && Means(c, x, Fresh(s)) == Ok(Parsed(p.node, Still(p.at)))
  {
    hide ParseBody, Formed, Means, Written;
    if ParseBody(c, s) == Ok(p) {
      var x := BodyInLanguage(c, s);
      BodyEnds(c, s);
    }
    if p.at.i == |c.tokens| {
      forall x | Formed(c, x) && Written(x) == c.tokens && Means(c, x, Fresh(s)) == Ok(Parsed(p.node, Still(p.at)))
        ensures ParseBody(c, s) == Ok(p)
      {
        LanguageRead(c, Fresh(s), x, Parsed(p.node, Still(p.at)));
        ReadToEnd(c, s, p);
      }
    }
  }
}
