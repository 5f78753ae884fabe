/** Whatever the clause parser accepts is written in the language of the grammar, and means
    what the parser returned. */
module MirrorSound {
  import opened Results
  import opened Slices
  import opened Expressions
  import opened MirrorGrammar
  import opened MirrorInlining
  import opened MirrorSyntax

  // ----- parts of the tokens

  /** Two parts with one token between them. */
  lemma AroundToken(ts: seq<Token>, i: nat, j: nat, k: nat)
    requires i <= j < k <= |ts|
    ensures ts[i..j] + [ts[j]] + ts[j + 1..k] == ts[i..k]
  {
  }

  // ----- one step per production

  lemma SumReading(c: Context, s: Cursor, x: Syntax, a: Expr, m: Cursor, y: Syntax, b: Expr, t: Cursor)
    requires Reading(c, s, x, 0, a, m) && m.i < |c.tokens| && Reading(c, Skip(m), y, 1, b, t)
    ensures c.tokens[m.i] == Op("+") ==> Reading(c, s, SAdd(x, y), 0, Add(a, b), t)
    ensures c.tokens[m.i] == Op("-") ==> Reading(c, s, SSub(x, y), 0, Sub(a, b), t)
  {
    AroundToken(c.tokens, s.i, m.i, t.i);
    assert Still(Skip(m)) == Still(m);
  }

  lemma ProductReading(c: Context, s: Cursor, x: Syntax, a: Expr, m: Cursor, y: Syntax, b: Expr, t: Cursor)
    requires Reading(c, s, x, 1, a, m) && m.i < |c.tokens| && Reading(c, Skip(m), y, 2, b, t)
    requires c.tokens[m.i] == Op("*")
    ensures Reading(c, s, SMul(x, y), 1, Mul(a, b), t)
  {
    AroundToken(c.tokens, s.i, m.i, t.i);
    assert Still(Skip(m)) == Still(m);
  }

  lemma NegationReading(c: Context, s: Cursor, x: Syntax, a: Expr, t: Cursor)
    requires s.i < |c.tokens| && c.tokens[s.i] == Op("-") && Reading(c, Skip(s), x, 2, a, t)
    ensures Reading(c, s, SNeg(x), 2, Neg(a), t)
  {
    One(c.tokens, s.i);
    Glue(c.tokens, s.i, s.i + 1, t.i);
    assert Still(Skip(s)) == Still(s);
  }

  lemma PowerReading(c: Context, s: Cursor, x: Syntax, a: Expr, m: Cursor, y: Syntax, b: Expr, t: Cursor)
    requires Reading(c, s, x, 4, a, m) && m.i < |c.tokens| && Reading(c, Skip(m), y, 3, b, t)
    requires c.tokens[m.i] == Op("^") && Raised(Parsed(a, m), Parsed(b, t)).Ok?
    ensures Reading(c, s, SPow(x, y), 3, Raised(Parsed(a, m), Parsed(b, t)).value.node, t)
  {
    AroundToken(c.tokens, s.i, m.i, t.i);
    assert Still(Skip(m)) == Still(m);
  }

  lemma Looser(c: Context, s: Cursor, x: Syntax, level: nat, looser: nat, node: Expr, t: Cursor)
    requires Reading(c, s, x, level, node, t) && looser <= level
    ensures Reading(c, s, x, looser, node, t)
  {
  }

  lemma NumberReading(c: Context, s: Cursor)
    requires Ready(c, s) && s.i < |c.tokens| && c.tokens[s.i].Num?
    ensures Reading(c, s, SNum(c.tokens[s.i].value), 4, Const(c.tokens[s.i].value), Skip(s))
  {
    One(c.tokens, s.i);
  }

  lemma AroundInner(ts: seq<Token>, i: nat, m: nat, end: nat)
    requires i + 1 <= m < end <= |ts|
    ensures ts[i..end] == [ts[i]] + ts[i + 1..m] + ts[m..end]
  {
  }

  lemma ParenMeans(c: Context, x: Syntax, ty: Option<Name>, s: Cursor)
    requires Formed(c, x) && c.depth <= MAX_INLINE_DEPTH && (ty.Some? ==> IsType(ty.value))
    ensures Formed(c, SParen(x, ty)) && Means(c, SParen(x, ty), s) == Means(c, x, s)
    ensures Tightness(SParen(x, ty)) == 4
  {
  }

  /** The tokens that close a parenthesis. */
  function Closing(ty: Option<Name>): seq<Token> {
    match ty
    case None => [Op(")")]
    case Some(name) => [Op(":"), Ident(name), Op(")")]
  }

  lemma ParenWritten(x: Syntax, ty: Option<Name>)
    ensures Written(SParen(x, ty)) == [Op("(")] + Written(x) + Closing(ty)
  {
    hide Idents;
  }

  lemma ClosingRead(c: Context, m: Cursor) returns (ty: Option<Name>)
    requires Ready(c, m)
    requires var at := ParseAscription(c, m);
             at.Ok? && at.value.i < |c.tokens| && c.tokens[at.value.i] == Op(")")
    ensures var at := ParseAscription(c, m).value;
            && m.i <= at.i < |c.tokens| && Still(at) == Still(m)
            && c.tokens[m.i..at.i + 1] == Closing(ty) && (ty.Some? ==> IsType(ty.value))
  {
    var at := ParseAscription(c, m).value;
    if at.i == m.i {
      ty := None;
      One(c.tokens, m.i);
    } else {
      ty := Some(c.tokens[m.i + 1].name);
      assert c.tokens[m.i..m.i + 3] == [c.tokens[m.i], c.tokens[m.i + 1], c.tokens[m.i + 2]];
    }
  }

  /** A parenthesised expression, with or without a declared type. */
  lemma ParenReading(c: Context, s: Cursor, x: Syntax, a: Expr, m: Cursor) returns (y: Syntax)
    requires s.i < |c.tokens| && c.tokens[s.i] == Op("(") && Reading(c, Skip(s), x, 0, a, m)
    requires var at := ParseAscription(c, m); at.Ok? && at.value.i < |c.tokens| && c.tokens[at.value.i] == Op(")")
    ensures Reading(c, s, y, 4, a, Skip(ParseAscription(c, m).value)) && y.SParen?
  {
    hide Means, Formed, Written, ParseAscription, Closing, IsType, Tightness;
    var at := ParseAscription(c, m).value;
    var ty := ClosingRead(c, m);
    y := SParen(x, ty);
    ParenWritten(x, ty);
    AroundInner(c.tokens, s.i, m.i, at.i + 1);
    ParenMeans(c, x, ty, Still(s));
    assert Still(Skip(s)) == Still(s) && Still(Skip(at)) == Still(at);
  }

  // ----- expressions

  lemma {:induction false} ExprReading(c: Context, s: Cursor) returns (x: Syntax)
    requires Ready(c, s) && ParseExpr(c, s).Ok?
    ensures Reading(c, s, x, 0, ParseExpr(c, s).value.node, ParseExpr(c, s).value.at)
    decreases MAX_INLINE_DEPTH - c.depth, |c.tokens| - s.i, 6
  {
    hide ParseTerm, ExprTail, Reading;
    var p := ParseTerm(c, s).value;
    x := TermReading(c, s);
    Looser(c, s, x, 1, 0, p.node, p.at);
    x := ExprTailReading(c, s, x, p.node, p.at);
  }

  lemma {:induction false} ExprTailReading(c: Context, s: Cursor, x: Syntax, node: Expr, m: Cursor) returns (y: Syntax)
    requires Ready(c, m) && Reading(c, s, x, 0, node, m) && ExprTail(c, node, m).Ok?
    ensures Reading(c, s, y, 0, ExprTail(c, node, m).value.node, ExprTail(c, node, m).value.at)
    decreases MAX_INLINE_DEPTH - c.depth, |c.tokens| - m.i, 6
  {
    hide ParseTerm, Reading;
    if AtOp(c, m, "+") || AtOp(c, m, "-") {
      var right := TermReading(c, Skip(m));
      var q := ParseTerm(c, Skip(m)).value;
      SumReading(c, s, x, node, m, right, q.node, q.at);
      if AtOp(c, m, "+") {
        y := ExprTailReading(c, s, SAdd(x, right), Add(node, q.node), q.at);
      } else {
        y := ExprTailReading(c, s, SSub(x, right), Sub(node, q.node), q.at);
      }
    } else {
      y := x;
    }
  }

  lemma {:induction false} TermReading(c: Context, s: Cursor) returns (x: Syntax)
    requires Ready(c, s) && ParseTerm(c, s).Ok?
    ensures Reading(c, s, x, 1, ParseTerm(c, s).value.node, ParseTerm(c, s).value.at)
    decreases MAX_INLINE_DEPTH - c.depth, |c.tokens| - s.i, 5
  {
    hide ParseUnary, TermTail, Reading;
    var p := ParseUnary(c, s).value;
    x := UnaryReading(c, s);
    Looser(c, s, x, 2, 1, p.node, p.at);
    x := TermTailReading(c, s, x, p.node, p.at);
  }

  lemma {:induction false} TermTailReading(c: Context, s: Cursor, x: Syntax, node: Expr, m: Cursor) returns (y: Syntax)
    requires Ready(c, m) && Reading(c, s, x, 1, node, m) && TermTail(c, node, m).Ok?
    ensures Reading(c, s, y, 1, TermTail(c, node, m).value.node, TermTail(c, node, m).value.at)
    decreases MAX_INLINE_DEPTH - c.depth, |c.tokens| - m.i, 5
  {
    hide ParseUnary, Reading;
    if AtOp(c, m, "*") {
      var right := UnaryReading(c, Skip(m));
      var q := ParseUnary(c, Skip(m)).value;
      ProductReading(c, s, x, node, m, right, q.node, q.at);
      y := TermTailReading(c, s, SMul(x, right), Mul(node, q.node), q.at);
    } else {
      y := x;
    }
  }

  lemma {:induction false} UnaryReading(c: Context, s: Cursor) returns (x: Syntax)
    requires Ready(c, s) && ParseUnary(c, s).Ok?
    ensures Reading(c, s, x, 2, ParseUnary(c, s).value.node, ParseUnary(c, s).value.at)
    decreases MAX_INLINE_DEPTH - c.depth, |c.tokens| - s.i, 4
  {
    hide ParsePower, Reading;
    if AtOp(c, s, "-") {
      var p := ParseUnary(c, Skip(s)).value;
      x := UnaryReading(c, Skip(s));
      NegationReading(c, s, x, p.node, p.at);
      x := SNeg(x);
    } else {
      var p := ParsePower(c, s).value;
      x := PowersReading(c, s);
      Looser(c, s, x, 3, 2, p.node, p.at);
    }
  }

  lemma {:induction false} PowersReading(c: Context, s: Cursor) returns (x: Syntax)
    requires Ready(c, s) && ParsePower(c, s).Ok?
    ensures Reading(c, s, x, 3, ParsePower(c, s).value.node, ParsePower(c, s).value.at)
    decreases MAX_INLINE_DEPTH - c.depth, |c.tokens| - s.i, 3
  {
    hide ParsePrimary, Reading, Raised;
    var base := ParsePrimary(c, s).value;
    x := PrimaryReading(c, s);
    if AtOp(c, base.at, "^") {
      var exponent := ParsePower(c, Skip(base.at)).value;
      var y := PowersReading(c, Skip(base.at));
      PowerReading(c, s, x, base.node, base.at, y, exponent.node, exponent.at);
      x := SPow(x, y);
    } else {
      Looser(c, s, x, 4, 3, base.node, base.at);
    }
  }

  lemma {:induction false} PrimaryReading(c: Context, s: Cursor) returns (x: Syntax)
    requires Ready(c, s) && ParsePrimary(c, s).Ok?
    ensures Reading(c, s, x, 4, ParsePrimary(c, s).value.node, ParsePrimary(c, s).value.at)
    ensures AtOp(c, s, "(") ==> x.SParen?
    decreases MAX_INLINE_DEPTH - c.depth, |c.tokens| - s.i, 2
  {
    hide ParseExpr, ParseApplication, Reading;
    match c.tokens[s.i] {
      case Num(n) =>
        x := SNum(n);
        NumberReading(c, s);
      case Ident(_) =>
        x := ApplicationReading(c, s);
      case Op(text) =>
        var inner := ParseExpr(c, Skip(s)).value;
        x := ExprReading(c, Skip(s));
        x := ParenReading(c, s, x, inner.node, inner.at);
    }
  }

  lemma {:induction false} ArgumentReading(c: Context, s: Cursor) returns (x: Syntax)
    requires Ready(c, s) && ParseArgument(c, s).Ok?
    ensures Reading(c, s, x, 4, ParseArgument(c, s).value.node, ParseArgument(c, s).value.at) && IsArgument(c, x)
    decreases MAX_INLINE_DEPTH - c.depth, |c.tokens| - s.i, 3
  {
    hide ParsePrimary, ParseApplication, Reading;
    match c.tokens[s.i] {
      case Num(n) =>
        x := SNum(n);
        NumberReading(c, s);
      case Ident(name) =>
        x := ApplicationReading(c, s);
      case Op(text) =>
        x := PrimaryReading(c, s);
    }
  }

  // ----- applications

  lemma RowReading(c: Context, i: nat)
    requires i <= |c.tokens| && ParseRowIndex(c, i).Ok?
    ensures var (delta, j) := ParseRowIndex(c, i).value;
            i <= j <= |c.tokens| && RowWritten(c.scope, c.tokens[i..j], delta)
  {
    var (delta, j) := ParseRowIndex(c, i).value;
    var ts := c.tokens;
    if ts[i].Ident? {
      One(ts, i);
    } else {
      assert ts[i..j] == [ts[i], ts[i + 1], ts[i + 2], ts[i + 3], ts[i + 4]];
    }
  }

  /** Resolving a field moves no position and looks at none. */
  lemma FieldStill(scope: Scope, s: Cursor, b: Binder, path: seq<string>, delta: int)
    requires path != [] && ResolveField(scope, s, b, path, delta).Ok?
    ensures var p := ResolveField(scope, s, b, path, delta).value;
            p.at.i == s.i && ResolveField(scope, Still(s), b, path, delta) == Ok(Parsed(p.node, Still(p.at)))
  {
    hide Hits;
  }

  lemma ProjectionReading(c: Context, s: Cursor) returns (x: Syntax)
    requires Ready(c, s) && s.i < |c.tokens| && c.tokens[s.i].Ident? && IsField(c, c.tokens[s.i].name)
    requires var name := c.tokens[s.i].name; ParseProjection(c, Skip(s), c.scope.binders[name.head], name.path).Ok?
    ensures var name := c.tokens[s.i].name;
            var p := ParseProjection(c, Skip(s), c.scope.binders[name.head], name.path).value;
            Reading(c, s, x, 4, p.node, p.at) && x.SField?
  {
    hide ResolveField, ParseRowIndex, RowWritten;
    var name := c.tokens[s.i].name;
    var b, path := c.scope.binders[name.head], name.path;
    var p := ParseProjection(c, Skip(s), b, path).value;
    One(c.tokens, s.i);
    if TakesRow(b, path[0]) {
      var (delta, j) := ParseRowIndex(c, s.i + 1).value;
      RowReading(c, s.i + 1);
      FieldStill(c.scope, s.(i := j), b, path, delta);
      x := SField(name, c.tokens[s.i + 1..j], delta);
      Glue(c.tokens, s.i, s.i + 1, j);
      assert Still(s.(i := j)) == Still(s);
    } else {
      var known := b.kind == Row && b.name in c.scope.rowDeltas;
      var delta := if known then c.scope.rowDeltas[b.name] else 0;
      var from := if b.kind == Row && !known then Skip(s).(rowOk := false) else Skip(s);
      FieldStill(c.scope, from, b, path, delta);
      x := SField(name, [], delta);
      assert [Ident(name)] + [] == [Ident(name)];
      assert Still(from) == if b.kind == Row && !known then Still(s).(rowOk := false) else Still(s);
    }
  }

  lemma LocalReading(c: Context, s: Cursor)
    requires Ready(c, s) && s.i < |c.tokens| && c.tokens[s.i].Ident?
    requires var name := c.tokens[s.i].name; !IsField(c, name) && name in c.locals
    ensures var name := c.tokens[s.i].name; Reading(c, s, SLocal(name), 4, c.locals[name], Skip(s))
  {
    One(c.tokens, s.i);
  }

  lemma CoercedReading(c: Context, s: Cursor, x: Syntax, a: Expr, t: Cursor)
    requires s.i < |c.tokens| && c.tokens[s.i].Ident?
    requires var name := c.tokens[s.i].name; IsOuter(c, name) && IsBoolF(name)
    requires Reading(c, Skip(s), x, 4, a, t) && IsArgument(c, x)
    ensures Reading(c, s, SCoerced(c.tokens[s.i].name, x), 4, a, t)
  {
    One(c.tokens, s.i);
    Glue(c.tokens, s.i, s.i + 1, t.i);
    assert Still(Skip(s)) == Still(s);
  }

  lemma BoolFIsCoercion(name: Name)
    ensures name in BOOL_COERCIONS <==> IsBoolF(name)
  {
  }

  lemma {:induction false} ApplicationReading(c: Context, s: Cursor) returns (x: Syntax)
    requires Ready(c, s) && s.i < |c.tokens| && c.tokens[s.i].Ident? && ParseApplication(c, s).Ok?
    ensures Reading(c, s, x, 4, ParseApplication(c, s).value.node, ParseApplication(c, s).value.at)
    ensures var name := c.tokens[s.i].name; name.path != [] || name in c.locals ==> IsArgument(c, x)
    decreases MAX_INLINE_DEPTH - c.depth, |c.tokens| - s.i, 1
  {
    hide ParseProjection, ParseArgument, Inline, InlineCarrier, Reading;
    var name := c.tokens[s.i].name;
    BoolFIsCoercion(name);
    if IsField(c, name) {
      x := ProjectionReading(c, s);
    } else if name in c.locals {
      x := SLocal(name);
      LocalReading(c, s);
    } else if name in BOOL_COERCIONS {
      var p := ParseArgument(c, Skip(s)).value;
      x := ArgumentReading(c, Skip(s));
      CoercedReading(c, s, x, p.node, p.at);
      x := SCoerced(name, x);
    } else if name in c.scope.helpers {
      x := CallReading(c, s);
    } else {
      x := CarrierReading(c, s);
    }
  }

  // ----- helpers

  /** The arguments read one after another. */
  ghost predicate ArgsReading(c: Context, s: Cursor, xs: seq<Syntax>, nodes: seq<Expr>, t: Cursor)
    decreases |xs|
  {
    if xs == [] then nodes == [] && t == s && s.i <= |c.tokens|
    else
      && nodes != [] && IsArgument(c, xs[0])
      && exists m :: Reading(c, s, xs[0], 4, nodes[0], m) && ArgsReading(c, m, xs[1..], nodes[1..], t)
  }

  lemma {:induction false} ArgumentsReading(c: Context, s: Cursor, n: nat) returns (xs: seq<Syntax>)
    requires Ready(c, s) && ParseArguments(c, s, n).Ok?
    ensures |xs| == n && ArgsReading(c, s, xs, ParseArguments(c, s, n).value.0, ParseArguments(c, s, n).value.1)
    decreases MAX_INLINE_DEPTH - c.depth, |c.tokens| - s.i, 4, n
  {
    hide ParseArgument, Reading;
    if n == 0 {
      xs := [];
    } else {
      var p := ParseArgument(c, s).value;
      var x := ArgumentReading(c, s);
      var rest := ArgumentsReading(c, p.at, n - 1);
      xs := [x] + rest;
      var nodes := ParseArguments(c, s, n).value.0;
      assert xs[1..] == rest && nodes[1..] == ParseArguments(c, p.at, n - 1).value.0;
    }
  }

  /** The arguments as those of a call, from the k-th on. */
  lemma {:induction false} CallArgs(c: Context, name: Name, args: seq<Syntax>, k: nat, s: Cursor,
                                    nodes: seq<Expr>, t: Cursor)
    requires k <= |args| && ArgsReading(c, s, args[k..], nodes, t) && c.depth <= MAX_INLINE_DEPTH
    requires Formed(c, SCall(name, args))
    ensures s.i <= t.i <= |c.tokens| && WrittenArgs(SCall(name, args), k) == c.tokens[s.i..t.i]
    ensures MeansArgs(c, SCall(name, args), k, Still(s)) == Ok((nodes, Still(t)))
    decreases |args| - k
  {
    hide Written, Means, Formed;
    var x := SCall(name, args);
    if k == |args| {
    } else {
      var m :| Reading(c, s, args[k..][0], 4, nodes[0], m) && ArgsReading(c, m, args[k..][1..], nodes[1..], t);
      assert args[k..][0] == args[k] && args[k..][1..] == args[k + 1..];
      CallArgs(c, name, args, k + 1, m, nodes[1..], t);
      Glue(c.tokens, s.i, m.i, t.i);
      assert nodes == [nodes[0]] + nodes[1..];
    }
  }

  lemma {:induction false} ArgsFormed(c: Context, s: Cursor, xs: seq<Syntax>, nodes: seq<Expr>, t: Cursor)
    requires ArgsReading(c, s, xs, nodes, t)
    ensures forall k :: 0 <= k < |xs| ==> IsArgument(c, xs[k]) && Formed(c, xs[k])
    decreases |xs|
  {
    hide Formed, Means, Written;
    if xs == [] {
    } else {
      var m :| Reading(c, s, xs[0], 4, nodes[0], m) && ArgsReading(c, m, xs[1..], nodes[1..], t);
      ArgsFormed(c, m, xs[1..], nodes[1..], t);
      assert forall k :: 1 <= k < |xs| ==> xs[k] == xs[1..][k - 1];
    }
  }

  lemma CallFormed(c: Context, name: Name, args: seq<Syntax>)
    requires IsOuter(c, name) && !IsBoolF(name) && name in c.scope.helpers && c.depth < MAX_INLINE_DEPTH
    requires |args| == |c.scope.helpers[name].params|
    requires forall k :: 0 <= k < |args| ==> IsArgument(c, args[k]) && Formed(c, args[k])
    ensures Formed(c, SCall(name, args)) && Tightness(SCall(name, args)) == 4
  {
  }

  /** A body is read from its own start: the caller's position plays no part. */
  lemma BodyStill(c: Context, s: Cursor)
    requires c.depth <= MAX_INLINE_DEPTH
    ensures ParseBody(c, Still(s)) == ParseBody(c, s)
  {
    assert Fresh(Still(s)) == Fresh(s);
  }

  lemma {:induction false} CallReading(c: Context, s: Cursor) returns (x: Syntax)
    requires Ready(c, s) && s.i < |c.tokens| && c.tokens[s.i].Ident?
    requires var name := c.tokens[s.i].name; IsOuter(c, name) && !IsBoolF(name) && name in c.scope.helpers
    requires Inline(c, Skip(s), c.scope.helpers[c.tokens[s.i].name]).Ok?
    ensures var p := Inline(c, Skip(s), c.scope.helpers[c.tokens[s.i].name]).value; Reading(c, s, x, 4, p.node, p.at)
    ensures x.SCall? && x.name == c.tokens[s.i].name
    decreases MAX_INLINE_DEPTH - c.depth, |c.tokens| - s.i, 0
  {
    hide ParseArguments, ParseBody, ArgsReading, Formed, WrittenArgs, MeansArgs;
    var name := c.tokens[s.i].name;
    var h := c.scope.helpers[name];
    var (nodes, t) := ParseArguments(c, Skip(s), |h.params|).value;
    var xs := ArgumentsReading(c, Skip(s), |h.params|);
    ArgsFormed(c, Skip(s), xs, nodes, t);
    CallFormed(c, name, xs);
    x := SCall(name, xs);
    assert xs[0..] == xs;
    CallArgs(c, name, xs, 0, Skip(s), nodes, t);
    One(c.tokens, s.i);
    Glue(c.tokens, s.i, s.i + 1, t.i);
    assert Still(Skip(s)) == Still(s);
    BodyStill(InnerContext(c, h, nodes), t);
  }

  function NameOf(t: Token): Name {
    if t.Ident? then t.name else Name("", [])
  }

  function NamesOf(ts: seq<Token>, i: nat, n: nat): (r: seq<Name>)
    requires i + n <= |ts|
    ensures |r| == n && forall k :: 0 <= k < n ==> r[k] == NameOf(ts[i + k])
  {
    seq(n, k requires 0 <= k < n => NameOf(ts[i + k]))
  }

  lemma IdentsListed(names: seq<Name>, ts: seq<Token>, i: nat)
    requires i + |names| <= |ts|
    requires forall k :: 0 <= k < |names| ==> ts[i + k] == Ident(names[k])
    ensures Idents(names) == ts[i..i + |names|]
  {
  }

  lemma FitsIdent(c: Context, t: Token, param: Binder)
    ensures Fits(c, t, param) ==> t.Ident? && t == Ident(NameOf(t))
  {
  }

  lemma CarrierReading(c: Context, s: Cursor) returns (x: Syntax)
    requires Ready(c, s) && s.i < |c.tokens| && c.tokens[s.i].Ident?
    requires var name := c.tokens[s.i].name;
             IsOuter(c, name) && !IsBoolF(name) && name !in c.scope.helpers && name in c.scope.carrierHelpers
    requires InlineCarrier(c, Skip(s), c.scope.carrierHelpers[c.tokens[s.i].name]).Ok?
    ensures var p := InlineCarrier(c, Skip(s), c.scope.carrierHelpers[c.tokens[s.i].name]).value;
            Reading(c, s, x, 4, p.node, p.at)
    ensures x.SCarrier? && x.name == c.tokens[s.i].name
  {
    hide ParseBody, BindCarriers, OwnBinders, OwnIndex, Fits;
    var ts, name := c.tokens, c.tokens[s.i].name;
    var h := c.scope.carrierHelpers[name];
    var n := |h.binders|;
    CarriersBoundIff(c, s.i + 1, h.binders, map[], None);
    var i := s.i + 1;
    var names := NamesOf(ts, i, n);
    forall k | 0 <= k < n ensures ts[i + k] == Ident(names[k]) && Fits(c, Ident(names[k]), h.binders[k]) {
      assert Fits(c, ts[i + k], h.binders[k]);
      FitsIdent(c, ts[i + k], h.binders[k]);
    }
    x := SCarrier(name, names);
    IdentsListed(names, ts, i);
    One(ts, s.i);
    Glue(ts, s.i, s.i + 1, s.i + 1 + n);
    BodyStill(CarrierContext(c, h, BindCarriers(c, s.i + 1, h.binders, map[], None).value), s);
    BodyStill(CarrierContext(c, h, BindCarriers(c, s.i + 1, h.binders, map[], None).value), Skip(s));
    assert Still(Skip(s)) == Still(s);
  }

  /** What is accepted as a whole body is written in the language and means what was returned. */
  lemma BodyInLanguage(c: Context, s: Cursor) returns (x: Syntax)
    requires c.depth <= MAX_INLINE_DEPTH && ParseBody(c, s).Ok?
    ensures Formed(c, x) && Written(x) == c.tokens
    ensures var p := ParseBody(c, s).value; Means(c, x, Fresh(s)) == Ok(Parsed(p.node, Still(p.at)))
  {
    hide ParseExpr, Formed, Means, Written;
    x := ExprReading(c, Fresh(s));
    assert Still(Fresh(s)) == Fresh(s);
    assert c.tokens[0..|c.tokens|] == c.tokens;
  }
}
