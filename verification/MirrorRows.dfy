/** What becomes of a clause whose row relation is unknown: once it is lost no projection is
    resolved to a lane, and where no row binder has a known row none ever is. */
module MirrorRows {
  import opened Results
  import opened Expressions
  import opened Lanes
  import opened MirrorGrammar
  import opened MirrorClauses

  /** No token names a helper. */
  ghost predicate CallsNoHelper(c: Context) {
    forall k :: 0 <= k < |c.tokens| && c.tokens[k].Ident? ==>
      c.tokens[k].name !in c.scope.helpers && c.tokens[k].name !in c.scope.carrierHelpers
  }

  /** Every binder is a row record, and none has a known row. */
  ghost predicate RowsUnknown(binders: map<string, Binder>, rowDeltas: map<string, int>) {
    rowDeltas == map[] && forall n :: n in binders ==> binders[n].kind == Row
  }

  /** No accessor atom was collected, and a lost row relation stays lost. */
  ghost predicate Unresolving(s: Cursor, t: Cursor) {
    t.atoms == s.atoms && (!s.rowOk ==> !t.rowOk)
  }

  ghost predicate Nothing(s: Cursor, r: Outcome) {
    r.Ok? ==> Unresolving(s, r.value.at)
  }

  /** Nothing read from here on can be resolved. A helper body starts with a fresh flag, so
      either none is called or no row is known in any of them. */
  ghost predicate Blind(c: Context, s: Cursor) {
    (!s.rowOk && CallsNoHelper(c)) || RowsUnknown(c.scope.binders, c.scope.rowDeltas)
  }

  lemma ProjectionBlind(c: Context, s: Cursor, b: Binder, path: seq<string>)
    requires Ready(c, s) && path != []
    requires !s.rowOk || (b.kind == Row && c.scope.rowDeltas == map[])
    ensures Nothing(s, ParseProjection(c, s, b, path))
  {
    hide Hits, AccessorAtom, ParseRowIndex;
  }

  lemma {:induction false} CarriersAreRows(c: Context, i: nat, params: seq<Binder>, binders: map<string, Binder>,
                                           index: Option<Name>)
    requires i <= |c.tokens| && RowsUnknown(c.scope.binders, map[]) && RowsUnknown(binders, map[])
    ensures var r := BindCarriers(c, i, params, binders, index); r.Ok? ==> RowsUnknown(r.value.binders, map[])
    decreases |params|
  {
    if params == [] {
    } else if i < |c.tokens| && c.tokens[i].Ident? {
      var param := params[0];
      if param.kind == Index {
        CarriersAreRows(c, i + 1, params[1..], binders, Some(Name(param.name, [])));
      } else if c.tokens[i].name.head in c.scope.binders && c.scope.binders[c.tokens[i].name.head].kind == param.kind {
        CarriersAreRows(c, i + 1, params[1..], binders[param.name := param], index);
      }
    }
  }

  lemma NoBinders(c: Context)
    requires RowsUnknown(c.scope.binders, c.scope.rowDeltas)
    ensures RowsUnknown(map[], map[]) && c.scope.rowDeltas == map[]
  {
  }

  lemma {:induction false} ExprBlind(c: Context, s: Cursor)
    requires Ready(c, s) && Blind(c, s)
    ensures Nothing(s, ParseExpr(c, s))
    decreases MAX_INLINE_DEPTH - c.depth, |c.tokens| - s.i, 6
  {
    hide ParseTerm, ExprTail, CallsNoHelper, RowsUnknown;
    TermBlind(c, s);
    var t := ParseTerm(c, s);
    if t.Ok? { ExprTailBlind(c, t.value.node, t.value.at); }
  }

  lemma {:induction false} ExprTailBlind(c: Context, node: Expr, s: Cursor)
    requires Ready(c, s) && Blind(c, s)
    ensures Nothing(s, ExprTail(c, node, s))
    decreases MAX_INLINE_DEPTH - c.depth, |c.tokens| - s.i, 6
  {
    hide ParseTerm, CallsNoHelper, RowsUnknown;
    if AtOp(c, s, "+") || AtOp(c, s, "-") {
      TermBlind(c, Skip(s));
      var t := ParseTerm(c, Skip(s));
      if t.Ok? {
        ExprTailBlind(c, if AtOp(c, s, "+") then Add(node, t.value.node) else Sub(node, t.value.node), t.value.at);
      }
    }
  }

  lemma {:induction false} TermBlind(c: Context, s: Cursor)
    requires Ready(c, s) && Blind(c, s)
    ensures Nothing(s, ParseTerm(c, s))
    decreases MAX_INLINE_DEPTH - c.depth, |c.tokens| - s.i, 5
  {
    hide ParseUnary, TermTail, CallsNoHelper, RowsUnknown;
    UnaryBlind(c, s);
    var t := ParseUnary(c, s);
    if t.Ok? { TermTailBlind(c, t.value.node, t.value.at); }
  }

  lemma {:induction false} TermTailBlind(c: Context, node: Expr, s: Cursor)
    requires Ready(c, s) && Blind(c, s)
    ensures Nothing(s, TermTail(c, node, s))
    decreases MAX_INLINE_DEPTH - c.depth, |c.tokens| - s.i, 5
  {
    hide ParseUnary, CallsNoHelper, RowsUnknown;
    if AtOp(c, s, "*") {
      UnaryBlind(c, Skip(s));
      var t := ParseUnary(c, Skip(s));
      if t.Ok? { TermTailBlind(c, Mul(node, t.value.node), t.value.at); }
    }
  }

  lemma {:induction false} UnaryBlind(c: Context, s: Cursor)
    requires Ready(c, s) && Blind(c, s)
    ensures Nothing(s, ParseUnary(c, s))
    decreases MAX_INLINE_DEPTH - c.depth, |c.tokens| - s.i, 4
  {
    hide ParsePower, CallsNoHelper, RowsUnknown;
    if AtOp(c, s, "-") { UnaryBlind(c, Skip(s)); } else { PowerBlind(c, s); }
  }

  lemma {:induction false} PowerBlind(c: Context, s: Cursor)
    requires Ready(c, s) && Blind(c, s)
    ensures Nothing(s, ParsePower(c, s))
    decreases MAX_INLINE_DEPTH - c.depth, |c.tokens| - s.i, 3
  {
    hide ParsePrimary, CallsNoHelper, RowsUnknown;
    PrimaryBlind(c, s);
    var base := ParsePrimary(c, s);
    if base.Ok? && AtOp(c, base.value.at, "^") { PowerBlind(c, Skip(base.value.at)); }
  }

  lemma {:induction false} PrimaryBlind(c: Context, s: Cursor)
    requires Ready(c, s) && Blind(c, s)
    ensures Nothing(s, ParsePrimary(c, s))
    decreases MAX_INLINE_DEPTH - c.depth, |c.tokens| - s.i, 2
  {
    hide ParseExpr, ParseApplication, CallsNoHelper, RowsUnknown;
    if s.i < |c.tokens| {
      match c.tokens[s.i] {
        case Num(_) =>
        case Ident(_) => ApplicationBlind(c, s);
        case Op(text) => if text == "(" { ExprBlind(c, Skip(s)); }
      }
    }
  }

  lemma {:induction false} ArgumentBlind(c: Context, s: Cursor)
    requires Ready(c, s) && Blind(c, s)
    ensures Nothing(s, ParseArgument(c, s))
    decreases MAX_INLINE_DEPTH - c.depth, |c.tokens| - s.i, 3
  {
    hide ParsePrimary, ParseApplication, CallsNoHelper, RowsUnknown;
    if s.i < |c.tokens| {
      match c.tokens[s.i] {
        case Num(_) =>
        case Ident(name) => if name.path != [] || name in c.locals { ApplicationBlind(c, s); }
        case Op(text) => if text == "(" { PrimaryBlind(c, s); }
      }
    }
  }

  lemma {:induction false} ApplicationBlind(c: Context, s: Cursor)
    requires Ready(c, s) && s.i < |c.tokens| && c.tokens[s.i].Ident? && Blind(c, s)
    ensures Nothing(s, ParseApplication(c, s))
    decreases MAX_INLINE_DEPTH - c.depth, |c.tokens| - s.i, 1
  {
    hide ParseProjection, ParseArgument, Inline, InlineCarrier;
    var name := c.tokens[s.i].name;
    if name.head in c.scope.binders && name.path != [] {
      ProjectionBlind(c, Skip(s), c.scope.binders[name.head], name.path);
    } else if name in c.locals {
    } else if name in BOOL_COERCIONS {
      ArgumentBlind(c, Skip(s));
    } else if name in c.scope.helpers {
      InlineBlind(c, Skip(s), c.scope.helpers[name]);
    } else if name in c.scope.carrierHelpers {
      CarrierBlind(c, Skip(s), c.scope.carrierHelpers[name]);
    }
  }

  lemma {:induction false} ArgumentsBlind(c: Context, s: Cursor, n: nat)
    requires Ready(c, s) && RowsUnknown(c.scope.binders, c.scope.rowDeltas)
    ensures ParseArguments(c, s, n).Ok? ==> Unresolving(s, ParseArguments(c, s, n).value.1)
    decreases MAX_INLINE_DEPTH - c.depth, |c.tokens| - s.i, 4, n
  {
    hide ParseArgument, RowsUnknown;
    if n == 0 {
    } else {
      ArgumentBlind(c, s);
      var p := ParseArgument(c, s);
      if p.Ok? { ArgumentsBlind(c, p.value.at, n - 1); }
    }
  }

  lemma {:induction false} BodyBlind(c: Context, s: Cursor)
    requires c.depth <= MAX_INLINE_DEPTH && RowsUnknown(c.scope.binders, c.scope.rowDeltas)
    ensures ParseBody(c, s).Ok? ==> ParseBody(c, s).value.at.atoms == s.atoms
    decreases MAX_INLINE_DEPTH - c.depth, |c.tokens|, 7
  {
    hide ParseExpr, RowsUnknown;
    ExprBlind(c, Fresh(s));
  }

  lemma {:induction false} InlineBlind(c: Context, s: Cursor, h: Helper)
    requires Ready(c, s) && RowsUnknown(c.scope.binders, c.scope.rowDeltas)
    ensures Nothing(s, Inline(c, s, h))
    decreases MAX_INLINE_DEPTH - c.depth, |c.tokens| - s.i, 5
  {
    hide ParseArguments, ParseBody, RowsUnknown;
    if c.depth < MAX_INLINE_DEPTH {
      ArgumentsBlind(c, s, |h.params|);
      var args := ParseArguments(c, s, |h.params|);
      if args.Ok? { BodyBlind(InnerContext(c, h, args.value.0), args.value.1); }
    }
  }

  lemma {:induction false} CarrierBlind(c: Context, s: Cursor, h: CarrierHelper)
    requires Ready(c, s) && RowsUnknown(c.scope.binders, c.scope.rowDeltas)
    ensures Nothing(s, InlineCarrier(c, s, h))
    decreases MAX_INLINE_DEPTH - c.depth, |c.tokens| - s.i, 5
  {
    hide ParseBody, BindCarriers, RowsUnknown;
    if c.depth < MAX_INLINE_DEPTH {
      assert c.scope.rowDeltas == map[] && RowsUnknown(map[], map[]) by { NoBinders(c); }
      CarriersAreRows(c, s.i, h.binders, map[], None);
      var b := BindCarriers(c, s.i, h.binders, map[], None);
      if b.Ok? { BodyBlind(CarrierContext(c, h, b.value), s); }
    }
  }

  // ----- the theorems

  /** With the row relation lost and no helper called, reading an expression collects no
      accessor atom and does not recover the relation. */
  lemma LostRowResolvesNothing(c: Context, s: Cursor)
    requires Ready(c, s) && !s.rowOk && CallsNoHelper(c)
    ensures var r := ParseExpr(c, s); r.Ok? ==> r.value.at.atoms == s.atoms && !r.value.at.rowOk
  {
    ExprBlind(c, s);
  }

  /** Where every binder is a row record of unknown row no accessor atom is ever collected,
      from any state, through helpers and carrier helpers too. */
  lemma UnknownRowsResolveNothing(c: Context, s: Cursor)
    requires Ready(c, s) && c.scope.rowDeltas == map[]
    requires forall n :: n in c.scope.binders ==> c.scope.binders[n].kind == Row
    ensures var r := ParseExpr(c, s); r.Ok? ==> r.value.at.atoms == s.atoms
  {
    ExprBlind(c, s);
  }

  // ----- clauses and bodies

  lemma SideLost(scope: Scope, tokens: seq<Token>, s: Cursor)
    requires !s.rowOk && CallsNoHelper(Context(tokens, scope, map[], 0))
    ensures Nothing(s, ParseSide(scope, tokens, s))
  {
    hide ParseExpr, CallsNoHelper;
    LostRowResolvesNothing(Context(tokens, scope, map[], 0), s.(i := 0));
  }

  lemma FieldLost(scope: Scope, s: Cursor, b: Binder, path: seq<string>, delta: int)
    requires path != [] && !s.rowOk
    ensures Nothing(s, ResolveField(scope, s, b, path, delta))
  {
  }

  lemma PartCallsNoHelper(scope: Scope, tokens: seq<Token>, i: nat, j: nat)
    requires i <= j <= |tokens| && CallsNoHelper(Context(tokens, scope, map[], 0))
    ensures CallsNoHelper(Context(tokens[i..j], scope, map[], 0))
  {
    forall k | 0 <= k < j - i && tokens[i..j][k].Ident?
      ensures tokens[i..j][k].name !in scope.helpers && tokens[i..j][k].name !in scope.carrierHelpers
    {
      assert tokens[i..j][k] == tokens[i + k];
    }
  }

  lemma BoundLost(scope: Scope, lhs: seq<Token>, relation: string, rhs: seq<Token>, s: Cursor)
    requires !s.rowOk && CallsNoHelper(Context(rhs, scope, map[], 0))
    ensures var r := ParseBound(scope, lhs, relation, rhs, s); r.Ok? ==> Unresolving(s, r.value.1)
  {
    hide ParseSide, ResolveField, CallsNoHelper;
    forall t: Cursor | !t.rowOk ensures Nothing(t, ParseSide(scope, rhs, t)) { SideLost(scope, rhs, t); }
    forall b, path, delta | path != [] ensures Nothing(s, ResolveField(scope, s, b, path, delta)) {
      FieldLost(scope, s, b, path, delta);
    }
  }

  /** A clause read after the row relation was lost resolves nothing either. */
  lemma ClauseLost(scope: Scope, tokens: seq<Token>, s: Cursor)
    requires !s.rowOk && CallsNoHelper(Context(tokens, scope, map[], 0))
    ensures var r := ParseClause(scope, tokens, s); r.Ok? ==> Unresolving(s, r.value.1)
  {
    hide ParseSide, ParseBound, Find, CallsNoHelper;
    var found := Find(tokens, RELATIONS);
    if |found| == 1 {
      var at := found[0];
      assert tokens[..at] == tokens[0..at] && tokens[at + 1..] == tokens[at + 1..|tokens|];
      PartCallsNoHelper(scope, tokens, 0, at);
      PartCallsNoHelper(scope, tokens, at + 1, |tokens|);
      FoundIsOp(tokens, RELATIONS, 0);
      SideLost(scope, tokens[..at], s);
      var lhs := ParseSide(scope, tokens[..at], s);
      if lhs.Ok? { SideLost(scope, tokens[at + 1..], lhs.value.at); }
      BoundLost(scope, tokens[..at], tokens[at].text, tokens[at + 1..], s);
    }
  }

  /** Nor does anything in the rest of the body. */
  lemma {:induction false} BodyLost(scope: Scope, parts: seq<seq<Token>>, s: Cursor)
    requires !s.rowOk && forall k :: 0 <= k < |parts| ==> CallsNoHelper(Context(parts[k], scope, map[], 0))
    ensures var r := ParseAll(scope, parts, s); r.Ok? ==> r.value.1.atoms == s.atoms && !r.value.1.rowOk
    decreases |parts|
  {
    hide ParseClause, CallsNoHelper;
    if parts == [] {
    } else {
      var n := |parts| - 1;
      BodyLost(scope, parts[..n], s);
      var before := ParseAll(scope, parts[..n], s);
      if before.Ok? { ClauseLost(scope, parts[n], before.value.1); }
    }
  }
}
