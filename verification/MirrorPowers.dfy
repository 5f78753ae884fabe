/** Where no `^` is written, none is refused: a condition on the text alone under which
    helper inlining is substitution without exception. */
module MirrorPowers {
  import opened Results
  import opened Expressions
  import opened Lanes
  import opened MirrorGrammar
  import opened MirrorInlining

  ghost predicate NoCaret(ts: seq<Token>) {
    forall k :: 0 <= k < |ts| ==> ts[k] != Op("^")
  }

  /** Neither the tokens read nor any helper body contains a power. */
  ghost predicate PowerFree(c: Context) {
    && NoCaret(c.tokens)
    && (forall n :: n in c.scope.helpers ==> NoCaret(c.scope.helpers[n].tokens))
    && (forall n :: n in c.scope.carrierHelpers ==> NoCaret(c.scope.carrierHelpers[n].tokens))
  }

  ghost predicate NotRefused(r: Outcome) {
    r.Err? ==> r.error != NonConstantPower
  }

  lemma ProjectionNotRefused(c: Context, s: Cursor, b: Binder, path: seq<string>)
    requires Ready(c, s) && path != []
    ensures NotRefused(ParseProjection(c, s, b, path))
  {
    hide Hits, Resolve, AccessorAtom;
  }

  lemma {:induction false} CarriersNotRefused(c: Context, i: nat, params: seq<Binder>,
                                              binders: map<string, Binder>, index: Option<Name>)
    requires i <= |c.tokens|
    ensures BindCarriers(c, i, params, binders, index).Err? ==>
            BindCarriers(c, i, params, binders, index).error != NonConstantPower
    decreases |params|
  {
    if params != [] && i < |c.tokens| {
      CarriersNotRefused(c, i + 1, params[1..], binders, Some(Name(params[0].name, [])));
      CarriersNotRefused(c, i + 1, params[1..], binders[params[0].name := params[0]], index);
    }
  }

  lemma {:induction false} ExprNotRefused(c: Context, s: Cursor)
    requires Ready(c, s) && PowerFree(c)
    ensures NotRefused(ParseExpr(c, s))
    decreases MAX_INLINE_DEPTH - c.depth, |c.tokens| - s.i, 6
  {
    hide PowerFree, ParseTerm, ExprTail;
    TermNotRefused(c, s);
    var t := ParseTerm(c, s);
    if t.Ok? { ExprTailNotRefused(c, t.value.node, t.value.at); }
  }

  lemma {:induction false} ExprTailNotRefused(c: Context, node: Expr, s: Cursor)
    requires Ready(c, s) && PowerFree(c)
    ensures NotRefused(ExprTail(c, node, s))
    decreases MAX_INLINE_DEPTH - c.depth, |c.tokens| - s.i, 6
  {
    hide PowerFree, ParseTerm;
    if AtOp(c, s, "+") || AtOp(c, s, "-") {
      TermNotRefused(c, Skip(s));
      var t := ParseTerm(c, Skip(s));
      if t.Ok? {
        ExprTailNotRefused(c, if AtOp(c, s, "+") then Add(node, t.value.node) else Sub(node, t.value.node), t.value.at);
      }
    }
  }

  lemma {:induction false} TermNotRefused(c: Context, s: Cursor)
    requires Ready(c, s) && PowerFree(c)
    ensures NotRefused(ParseTerm(c, s))
    decreases MAX_INLINE_DEPTH - c.depth, |c.tokens| - s.i, 5
  {
    hide PowerFree, ParseUnary, TermTail;
    UnaryNotRefused(c, s);
    var t := ParseUnary(c, s);
    if t.Ok? { TermTailNotRefused(c, t.value.node, t.value.at); }
  }

  lemma {:induction false} TermTailNotRefused(c: Context, node: Expr, s: Cursor)
    requires Ready(c, s) && PowerFree(c)
    ensures NotRefused(TermTail(c, node, s))
    decreases MAX_INLINE_DEPTH - c.depth, |c.tokens| - s.i, 5
  {
    hide PowerFree, ParseUnary;
    if AtOp(c, s, "*") {
      UnaryNotRefused(c, Skip(s));
      var t := ParseUnary(c, Skip(s));
      if t.Ok? { TermTailNotRefused(c, Mul(node, t.value.node), t.value.at); }
    }
  }

  lemma {:induction false} UnaryNotRefused(c: Context, s: Cursor)
    requires Ready(c, s) && PowerFree(c)
    ensures NotRefused(ParseUnary(c, s))
    decreases MAX_INLINE_DEPTH - c.depth, |c.tokens| - s.i, 4
  {
    hide PowerFree, ParsePower;
    if AtOp(c, s, "-") { UnaryNotRefused(c, Skip(s)); } else { PowerNotRefused(c, s); }
  }

  lemma {:induction false} PowerNotRefused(c: Context, s: Cursor)
    requires Ready(c, s) && PowerFree(c)
    ensures NotRefused(ParsePower(c, s))
    decreases MAX_INLINE_DEPTH - c.depth, |c.tokens| - s.i, 3
  {
    hide ParsePrimary;
    PrimaryNotRefused(c, s);
    var base := ParsePrimary(c, s);
    if base.Ok? { assert !AtOp(c, base.value.at, "^"); }
  }

  lemma {:induction false} PrimaryNotRefused(c: Context, s: Cursor)
    requires Ready(c, s) && PowerFree(c)
    ensures NotRefused(ParsePrimary(c, s))
    decreases MAX_INLINE_DEPTH - c.depth, |c.tokens| - s.i, 2
  {
    hide PowerFree, ParseExpr, ParseApplication;
    if s.i < |c.tokens| {
      match c.tokens[s.i] {
        case Num(_) =>
        case Ident(_) => ApplicationNotRefused(c, s);
        case Op(text) => if text == "(" { ExprNotRefused(c, Skip(s)); }
      }
    }
  }

  lemma {:induction false} ArgumentNotRefused(c: Context, s: Cursor)
    requires Ready(c, s) && PowerFree(c)
    ensures NotRefused(ParseArgument(c, s))
    decreases MAX_INLINE_DEPTH - c.depth, |c.tokens| - s.i, 3
  {
    hide PowerFree, ParsePrimary, ParseApplication;
    if s.i < |c.tokens| {
      match c.tokens[s.i] {
        case Num(_) =>
        case Ident(name) => if name.path != [] || name in c.locals { ApplicationNotRefused(c, s); }
        case Op(text) => if text == "(" { PrimaryNotRefused(c, s); }
      }
    }
  }

  lemma {:induction false} ApplicationNotRefused(c: Context, s: Cursor)
    requires Ready(c, s) && s.i < |c.tokens| && c.tokens[s.i].Ident? && PowerFree(c)
    ensures NotRefused(ParseApplication(c, s))
    decreases MAX_INLINE_DEPTH - c.depth, |c.tokens| - s.i, 1
  {
    hide ParseProjection, ParseArgument, Inline, InlineCarrier, NoCaret;
    var name := c.tokens[s.i].name;
    if name.head in c.scope.binders && name.path != [] {
      ProjectionNotRefused(c, Skip(s), c.scope.binders[name.head], name.path);
    } else if name in c.locals {
    } else if name in BOOL_COERCIONS {
      ArgumentNotRefused(c, Skip(s));
    } else if name in c.scope.helpers {
      InlineNotRefused(c, Skip(s), c.scope.helpers[name]);
    } else if name in c.scope.carrierHelpers {
      CarrierNotRefused(c, Skip(s), c.scope.carrierHelpers[name]);
    }
  }

  lemma {:induction false} ArgumentsNotRefused(c: Context, s: Cursor, n: nat)
    requires Ready(c, s) && PowerFree(c)
    ensures ParseArguments(c, s, n).Err? ==> ParseArguments(c, s, n).error != NonConstantPower
    decreases MAX_INLINE_DEPTH - c.depth, |c.tokens| - s.i, 4, n
  {
    hide PowerFree, ParseArgument;
    if n == 0 {
    } else {
      ArgumentNotRefused(c, s);
      var p := ParseArgument(c, s);
      if p.Ok? { ArgumentsNotRefused(c, p.value.at, n - 1); }
    }
  }

  lemma {:induction false} BodyNotRefused(c: Context, s: Cursor)
    requires c.depth <= MAX_INLINE_DEPTH && PowerFree(c)
    ensures NotRefused(ParseBody(c, s))
    decreases MAX_INLINE_DEPTH - c.depth, |c.tokens|, 7
  {
    hide PowerFree, ParseExpr;
    ExprNotRefused(c, Fresh(s));
  }

  lemma {:induction false} InlineNotRefused(c: Context, s: Cursor, h: Helper)
    requires Ready(c, s) && PowerFree(c) && NoCaret(h.tokens)
    ensures NotRefused(Inline(c, s, h))
    decreases MAX_INLINE_DEPTH - c.depth, |c.tokens| - s.i, 5
  {
    hide ParseArguments, ParseBody, NoCaret;
    if c.depth < MAX_INLINE_DEPTH {
      ArgumentsNotRefused(c, s, |h.params|);
      var args := ParseArguments(c, s, |h.params|);
      if args.Ok? { BodyNotRefused(InnerContext(c, h, args.value.0), args.value.1); }
    }
  }

  lemma {:induction false} CarrierNotRefused(c: Context, s: Cursor, h: CarrierHelper)
    requires Ready(c, s) && PowerFree(c) && NoCaret(h.tokens)
    ensures NotRefused(InlineCarrier(c, s, h))
    decreases MAX_INLINE_DEPTH - c.depth, |c.tokens| - s.i, 5
  {
    hide ParseBody, NoCaret;
    if c.depth < MAX_INLINE_DEPTH {
      CarriersNotRefused(c, s.i, h.binders, map[], None);
      var b := BindCarriers(c, s.i, h.binders, map[], None);
      if b.Ok? { BodyNotRefused(CarrierContext(c, h, b.value), s); }
    }
  }

  /** With no power written anywhere, inlining and substitution agree in every case, results
      and errors alike. */
  lemma PowerFreeInliningIsSubstitution(c: Context, s: Cursor, h: Helper)
    requires Ready(c, s) && c.depth < MAX_INLINE_DEPTH && PowerFree(c) && NoCaret(h.tokens)
    requires ParseArguments(c, s, |h.params|).Ok?
    ensures var (args, at) := ParseArguments(c, s, |h.params|).value;
            Inline(c, s, h) == SubstitutedBody(Symbolic(c, at, h), args, at)
  {
    hide ParseArguments, ParseBody, NoCaret, Inline;
    var (args, at) := ParseArguments(c, s, |h.params|).value;
    InliningIsSubstitution(c, s, h);
    BodyNotRefused(InnerContext(c, h, SymbolNodes(|h.params|)), at);
  }
}
