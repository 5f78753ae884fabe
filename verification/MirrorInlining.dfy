/** Helper inlining is simultaneous substitution of the arguments into the body followed by
    the folding of the powers: it succeeds exactly when every power met folds. */
module MirrorInlining {
  import opened Results
  import Modular
  import opened Atoms
  import opened Expressions
  import opened Substitution
  import opened Lanes
  import opened MirrorGrammar
  import opened MirrorTrees

  /** A replacement that leaves every atom a projection can produce alone. */
  ghost predicate KeepsLeaves(f: Atom -> Expr) {
    forall a: Atom :: !a.Aux? && !a.Slot? ==> f(a) == Var(a)
  }

  /** The second context without its locals is the first, and the locals are the folded
      trees. */
  ghost predicate Instance(c0: Context, ls: map<Name, Tree>, c1: Context, f: Atom -> Expr) {
    && KeepsLeaves(f)
    && c0 == c1.(locals := map[])
    && ls.Keys == c1.locals.Keys
    && forall n :: n in ls ==> Fold(ls[n], f) == Some(c1.locals[n])
  }

  /** The parse is the reading folded: refused for a power exactly when some power met does
      not fold, and otherwise the same position, result or error. */
  ghost predicate Tracks(q: Reading<TreeAt>, r: Outcome, f: Atom -> Expr) {
    if !AllFold(q.powers, f) then r == Err(NonConstantPower)
    else
      match q.result
      case Ok(p) => Fold(p.node, f).Some? && r == Ok(Parsed(Fold(p.node, f).value, p.at))
      case Err(e) => r == Err(e)
  }

  lemma AllFoldAppend(a: seq<Tree>, b: seq<Tree>, f: Atom -> Expr)
    ensures AllFold(a + b, f) <==> AllFold(a, f) && AllFold(b, f)
  {
    hide Fold;
    if AllFold(a + b, f) {
      forall k | 0 <= k < |a| ensures Fold(a[k], f).Some? { assert (a + b)[k] == a[k]; }
      forall k | 0 <= k < |b| ensures Fold(b[k], f).Some? { assert (a + b)[|a| + k] == b[k]; }
    }
  }

  /** What is tracked stays tracked behind powers that fold; behind others the parse has
      stopped. */
  lemma BehindTracks(powers: seq<Tree>, q: Reading<TreeAt>, r: Outcome, f: Atom -> Expr)
    ensures AllFold(powers, f) && Tracks(q, r, f) ==> Tracks(Behind(powers, q), r, f)
    ensures !AllFold(powers, f) && r == Err(NonConstantPower) ==> Tracks(Behind(powers, q), r, f)
  {
    hide Fold, AllFold;
    AllFoldAppend(powers, q.powers, f);
  }

  lemma NothingMet(f: Atom -> Expr)
    ensures AllFold([], f)
  {
  }

  lemma PowerMet(a: seq<Tree>, b: seq<Tree>, x: Tree, y: Tree, f: Atom -> Expr)
    ensures AllFold(a + b + [TPow(x, y)], f) <==> AllFold(a, f) && AllFold(b, f) && Fold(TPow(x, y), f).Some?
    ensures Fold(x, f).Some? && Fold(y, f).Some? ==>
            Fold(TPow(x, y), f) == FoldPower(Fold(x, f).value, Fold(y, f).value)
  {
    AllFoldAppend(a, b, f);
    AllFoldAppend(a + b, [TPow(x, y)], f);
    assert [TPow(x, y)][0] == TPow(x, y);
  }

  lemma SameRow(c0: Context, c1: Context, i: nat)
    requires i <= |c0.tokens| && c1.scope == c0.scope && c1.tokens == c0.tokens
    ensures ParseRowIndex(c0, i) == ParseRowIndex(c1, i)
  {
  }

  /** An atom the replacement leaves alone, or an error. */
  ghost predicate FoundHere(r: Outcome, f: Atom -> Expr) {
    r.Ok? ==> r.value.node.Var? && f(r.value.node.atom) == r.value.node
  }

  lemma FieldFound(scope: Scope, s: Cursor, b: Binder, path: seq<string>, delta: int, f: Atom -> Expr)
    requires KeepsLeaves(f) && path != []
    ensures FoundHere(ResolveField(scope, s, b, path, delta), f)
  {
    hide Hits, Resolve;
  }

  lemma ProjectionTracks(c0: Context, ls: map<Name, Tree>, c1: Context, s: Cursor, b: Binder, path: seq<string>,
                         f: Atom -> Expr)
    requires Ready(c0, s) && Instance(c0, ls, c1, f) && path != []
    ensures var r := ParseProjection(c0, s, b, path); r.Ok? ==> r.value.node.Var?
    ensures Tracks(Found(ParseProjection(c0, s, b, path)), ParseProjection(c1, s, b, path), f)
  {
    hide ResolveField, ParseRowIndex;
    NothingMet(f);
    SameRow(c0, c1, s.i);
    forall t: Cursor, delta ensures FoundHere(ResolveField(c0.scope, t, b, path, delta), f) {
      FieldFound(c0.scope, t, b, path, delta, f);
    }
  }

  lemma {:induction false} ExprTracks(c0: Context, ls: map<Name, Tree>, c1: Context, s: Cursor, f: Atom -> Expr)
    requires Ready(c0, s) && Instance(c0, ls, c1, f)
    ensures Tracks(ReadExpr(c0, ls, s), ParseExpr(c1, s), f)
    decreases MAX_INLINE_DEPTH - c0.depth, |c0.tokens| - s.i, 6
  {
    hide KeepsLeaves, ParseTerm, ExprTail, ReadTerm, ReadExprTail, Fold, AllFold, Behind;
    TermTracks(c0, ls, c1, s, f);
    var q := ReadTerm(c0, ls, s);
    if q.result.Ok? {
      var p := q.result.value;
      if AllFold(q.powers, f) { ExprTailTracks(c0, ls, c1, p.node, Fold(p.node, f).value, p.at, f); }
      BehindTracks(q.powers, ReadExprTail(c0, ls, p.node, p.at), ParseExpr(c1, s), f);
    }
  }

  lemma {:induction false} ExprTailTracks(c0: Context, ls: map<Name, Tree>, c1: Context, tree: Tree, node: Expr,
                                          s: Cursor, f: Atom -> Expr)
    requires Ready(c0, s) && Instance(c0, ls, c1, f) && Fold(tree, f) == Some(node)
    ensures Tracks(ReadExprTail(c0, ls, tree, s), ExprTail(c1, node, s), f)
    decreases MAX_INLINE_DEPTH - c0.depth, |c0.tokens| - s.i, 6
  {
    hide KeepsLeaves, ParseTerm, ReadTerm, AllFold, Behind;
    if AtOp(c0, s, "+") || AtOp(c0, s, "-") {
      TermTracks(c0, ls, c1, Skip(s), f);
      var q := ReadTerm(c0, ls, Skip(s));
      if q.result.Ok? {
        var p := q.result.value;
        var next := if AtOp(c0, s, "+") then TAdd(tree, p.node) else TSub(tree, p.node);
        if AllFold(q.powers, f) {
          var rhs := Fold(p.node, f).value;
          ExprTailTracks(c0, ls, c1, next, if AtOp(c0, s, "+") then Add(node, rhs) else Sub(node, rhs), p.at, f);
        }
        BehindTracks(q.powers, ReadExprTail(c0, ls, next, p.at), ExprTail(c1, node, s), f);
      }
    } else {
      NothingMet(f);
    }
  }

  lemma {:induction false} TermTracks(c0: Context, ls: map<Name, Tree>, c1: Context, s: Cursor, f: Atom -> Expr)
    requires Ready(c0, s) && Instance(c0, ls, c1, f)
    ensures Tracks(ReadTerm(c0, ls, s), ParseTerm(c1, s), f)
    decreases MAX_INLINE_DEPTH - c0.depth, |c0.tokens| - s.i, 5
  {
    hide KeepsLeaves, ParseUnary, TermTail, ReadUnary, ReadTermTail, Fold, AllFold, Behind;
    UnaryTracks(c0, ls, c1, s, f);
    var q := ReadUnary(c0, ls, s);
    if q.result.Ok? {
      var p := q.result.value;
      if AllFold(q.powers, f) { TermTailTracks(c0, ls, c1, p.node, Fold(p.node, f).value, p.at, f); }
      BehindTracks(q.powers, ReadTermTail(c0, ls, p.node, p.at), ParseTerm(c1, s), f);
    }
  }

  lemma {:induction false} TermTailTracks(c0: Context, ls: map<Name, Tree>, c1: Context, tree: Tree, node: Expr,
                                          s: Cursor, f: Atom -> Expr)
    requires Ready(c0, s) && Instance(c0, ls, c1, f) && Fold(tree, f) == Some(node)
    ensures Tracks(ReadTermTail(c0, ls, tree, s), TermTail(c1, node, s), f)
    decreases MAX_INLINE_DEPTH - c0.depth, |c0.tokens| - s.i, 5
  {
    hide KeepsLeaves, ParseUnary, ReadUnary, AllFold, Behind;
    if AtOp(c0, s, "*") {
      UnaryTracks(c0, ls, c1, Skip(s), f);
      var q := ReadUnary(c0, ls, Skip(s));
      if q.result.Ok? {
        var p := q.result.value;
        if AllFold(q.powers, f) {
          TermTailTracks(c0, ls, c1, TMul(tree, p.node), Mul(node, Fold(p.node, f).value), p.at, f);
        }
        BehindTracks(q.powers, ReadTermTail(c0, ls, TMul(tree, p.node), p.at), TermTail(c1, node, s), f);
      }
    } else {
      NothingMet(f);
    }
  }

  lemma {:induction false} UnaryTracks(c0: Context, ls: map<Name, Tree>, c1: Context, s: Cursor, f: Atom -> Expr)
    requires Ready(c0, s) && Instance(c0, ls, c1, f)
    ensures Tracks(ReadUnary(c0, ls, s), ParseUnary(c1, s), f)
    decreases MAX_INLINE_DEPTH - c0.depth, |c0.tokens| - s.i, 4
  {
    hide KeepsLeaves, ParsePower, ReadPower, AllFold;
    if AtOp(c0, s, "-") {
      UnaryTracks(c0, ls, c1, Skip(s), f);
    } else {
      PowerTracks(c0, ls, c1, s, f);
    }
  }

  lemma {:induction false} PowerTracks(c0: Context, ls: map<Name, Tree>, c1: Context, s: Cursor, f: Atom -> Expr)
    requires Ready(c0, s) && Instance(c0, ls, c1, f)
    ensures Tracks(ReadPower(c0, ls, s), ParsePower(c1, s), f)
    decreases MAX_INLINE_DEPTH - c0.depth, |c0.tokens| - s.i, 3
  {
    hide KeepsLeaves, ParsePrimary, ReadPrimary, Fold, AllFold, Behind;
    PrimaryTracks(c0, ls, c1, s, f);
    var base := ReadPrimary(c0, ls, s);
    if base.result.Ok? && AtOp(c0, base.result.value.at, "^") {
      PowerTracks(c0, ls, c1, Skip(base.result.value.at), f);
      var exponent := ReadPower(c0, ls, Skip(base.result.value.at));
      if exponent.result.Err? {
        BehindTracks(base.powers, exponent, ParsePower(c1, s), f);
      } else {
        PowerMet(base.powers, exponent.powers, base.result.value.node, exponent.result.value.node, f);
      }
    }
  }

  lemma {:induction false} PrimaryTracks(c0: Context, ls: map<Name, Tree>, c1: Context, s: Cursor, f: Atom -> Expr)
    requires Ready(c0, s) && Instance(c0, ls, c1, f)
    ensures Tracks(ReadPrimary(c0, ls, s), ParsePrimary(c1, s), f)
    decreases MAX_INLINE_DEPTH - c0.depth, |c0.tokens| - s.i, 2
  {
    hide KeepsLeaves, ParseExpr, ParseApplication, ReadExpr, ReadApplication, AllFold;
    NothingMet(f);
    if s.i < |c0.tokens| {
      match c0.tokens[s.i] {
        case Num(n) =>
        case Ident(_) => ApplicationTracks(c0, ls, c1, s, f);
        case Op(text) => if text == "(" { ExprTracks(c0, ls, c1, Skip(s), f); }
      }
    }
  }

  lemma {:induction false} ArgumentTracks(c0: Context, ls: map<Name, Tree>, c1: Context, s: Cursor, f: Atom -> Expr)
    requires Ready(c0, s) && Instance(c0, ls, c1, f)
    ensures Tracks(ReadArgument(c0, ls, s), ParseArgument(c1, s), f)
    decreases MAX_INLINE_DEPTH - c0.depth, |c0.tokens| - s.i, 3
  {
    hide KeepsLeaves, ParsePrimary, ParseApplication, ReadPrimary, ReadApplication, AllFold;
    NothingMet(f);
    if s.i < |c0.tokens| {
      match c0.tokens[s.i] {
        case Num(n) =>
        case Ident(name) => if name.path != [] || name in ls { ApplicationTracks(c0, ls, c1, s, f); }
        case Op(text) => if text == "(" { PrimaryTracks(c0, ls, c1, s, f); }
      }
    }
  }

  lemma {:induction false} ApplicationTracks(c0: Context, ls: map<Name, Tree>, c1: Context, s: Cursor, f: Atom -> Expr)
    requires Ready(c0, s) && s.i < |c0.tokens| && c0.tokens[s.i].Ident? && Instance(c0, ls, c1, f)
    ensures Tracks(ReadApplication(c0, ls, s), ParseApplication(c1, s), f)
    decreases MAX_INLINE_DEPTH - c0.depth, |c0.tokens| - s.i, 1
  {
    hide KeepsLeaves, ParseProjection, ParseArgument, Inline, InlineCarrier;
    hide ReadArgument, ReadInline, ReadInlineCarrier, AllFold, Found, Fold;
    NothingMet(f);
    var name := c0.tokens[s.i].name;
    if name.head in c0.scope.binders && name.path != [] {
      ProjectionTracks(c0, ls, c1, Skip(s), c0.scope.binders[name.head], name.path, f);
    } else if name in ls {
    } else if name in BOOL_COERCIONS {
      ArgumentTracks(c0, ls, c1, Skip(s), f);
    } else if name in c0.scope.helpers {
      InlineTracks(c0, ls, c1, Skip(s), c0.scope.helpers[name], f);
    } else if name in c0.scope.carrierHelpers {
      CarrierTracks(c0, ls, c1, Skip(s), c0.scope.carrierHelpers[name], f);
    }
  }

  // ----- inlining

  ghost predicate Instances(ts: seq<Tree>, es: seq<Expr>, f: Atom -> Expr) {
    |es| == |ts| && forall k :: 0 <= k < |ts| ==> Fold(ts[k], f) == Some(es[k])
  }

  /** Argument lists track argument by argument. */
  ghost predicate ArgumentsTrack(q: Reading<(seq<Tree>, Cursor)>, r: Result<(seq<Expr>, Cursor), ParseError>,
                                 f: Atom -> Expr) {
    if !AllFold(q.powers, f) then r == Err(NonConstantPower)
    else
      match q.result
      case Ok(p) => r.Ok? && r.value.1 == p.1 && Instances(p.0, r.value.0, f)
      case Err(e) => r == Err(e)
  }

  lemma {:induction false} ArgumentListTracks(c0: Context, ls: map<Name, Tree>, c1: Context, s: Cursor, n: nat,
                                              f: Atom -> Expr)
    requires Ready(c0, s) && Instance(c0, ls, c1, f)
    ensures ArgumentsTrack(ReadArguments(c0, ls, s, n), ParseArguments(c1, s, n), f)
    decreases MAX_INLINE_DEPTH - c0.depth, |c0.tokens| - s.i, 4, n
  {
    hide KeepsLeaves, ParseArgument, ReadArgument, AllFold, Fold;
    NothingMet(f);
    if n == 0 {
    } else {
      ArgumentTracks(c0, ls, c1, s, f);
      var p := ReadArgument(c0, ls, s);
      if p.result.Ok? {
        ArgumentListTracks(c0, ls, c1, p.result.value.at, n - 1, f);
        AllFoldAppend(p.powers, ReadArguments(c0, ls, p.result.value.at, n - 1).powers, f);
      }
    }
  }

  lemma {:induction false} BindTracks(params: seq<Name>, ts: seq<Tree>, es: seq<Expr>, f: Atom -> Expr)
    requires |params| == |ts| && Instances(ts, es, f)
    ensures BindTrees(params, ts).Keys == Bind(params, es).Keys
    ensures forall n :: n in Bind(params, es) ==> Fold(BindTrees(params, ts)[n], f) == Some(Bind(params, es)[n])
  {
    hide Fold;
    if params == [] {
    } else {
      var m := |params| - 1;
      BindTracks(params[..m], ts[..m], es[..m], f);
    }
  }

  lemma {:induction false} BodyTracks(c0: Context, ls: map<Name, Tree>, c1: Context, s: Cursor, f: Atom -> Expr)
    requires c0.depth <= MAX_INLINE_DEPTH && Instance(c0, ls, c1, f)
    ensures Tracks(ReadBody(c0, ls, s), ParseBody(c1, s), f)
    decreases MAX_INLINE_DEPTH - c0.depth, |c0.tokens|, 7
  {
    hide KeepsLeaves, ParseExpr, ReadExpr, AllFold, Fold;
    ExprTracks(c0, ls, c1, Fresh(s), f);
  }

  lemma {:induction false} InlineTracks(c0: Context, ls: map<Name, Tree>, c1: Context, s: Cursor, h: Helper,
                                        f: Atom -> Expr)
    requires Ready(c0, s) && Instance(c0, ls, c1, f)
    ensures Tracks(ReadInline(c0, ls, s, h), Inline(c1, s, h), f)
    decreases MAX_INLINE_DEPTH - c0.depth, |c0.tokens| - s.i, 5
  {
    hide KeepsLeaves, ParseArguments, ParseBody, ReadArguments, ReadBody, AllFold, Fold, Behind;
    NothingMet(f);
    if c0.depth < MAX_INLINE_DEPTH {
      var n := |h.params|;
      ArgumentListTracks(c0, ls, c1, s, n, f);
      var ts, es := ReadArguments(c0, ls, s, n), ParseArguments(c1, s, n);
      if ts.result.Ok? {
        var at := ts.result.value.1;
        var inner := BindTrees(h.params, ts.result.value.0);
        var body := ReadBody(HelperContext(c0, h), inner, at);
        if AllFold(ts.powers, f) {
          BindTracks(h.params, ts.result.value.0, es.value.0, f);
          BodyTracks(HelperContext(c0, h), inner, InnerContext(c1, h, es.value.0), at, f);
        }
        BehindTracks(ts.powers, Returned(body, at.i, at.rowOk), Inline(c1, s, h), f);
      }
    }
  }

  lemma {:induction false} SameCarriers(c0: Context, c1: Context, i: nat, params: seq<Binder>,
                                        binders: map<string, Binder>, index: Option<Name>)
    requires i <= |c0.tokens| && c1.tokens == c0.tokens && c1.scope == c0.scope
    ensures BindCarriers(c0, i, params, binders, index) == BindCarriers(c1, i, params, binders, index)
    decreases |params|
  {
    if params != [] && i < |c0.tokens| {
      SameCarriers(c0, c1, i + 1, params[1..], binders, Some(Name(params[0].name, [])));
      SameCarriers(c0, c1, i + 1, params[1..], binders[params[0].name := params[0]], index);
    }
  }

  lemma {:induction false} CarrierTracks(c0: Context, ls: map<Name, Tree>, c1: Context, s: Cursor,
                                         h: CarrierHelper, f: Atom -> Expr)
    requires Ready(c0, s) && Instance(c0, ls, c1, f)
    ensures Tracks(ReadInlineCarrier(c0, s, h), InlineCarrier(c1, s, h), f)
    decreases MAX_INLINE_DEPTH - c0.depth, |c0.tokens| - s.i, 5
  {
    hide KeepsLeaves, ParseBody, ReadBody, AllFold, Fold;
    NothingMet(f);
    if c0.depth < MAX_INLINE_DEPTH {
      SameCarriers(c0, c1, s.i, h.binders, map[], None);
      var b := BindCarriers(c0, s.i, h.binders, map[], None);
      if b.Ok? {
        var inner := CarrierContext(c0, h, b.value);
        assert inner == CarrierContext(c1, h, b.value);
        BodyTracks(inner, map[], inner, s, f);
      }
    }
  }

  /** The binder a parameter of a carrier helper may be given, and the name it then has. */
  ghost predicate Fits(c: Context, t: Token, param: Binder) {
    && t.Ident?
    && if param.kind == Index then Some(t.name) == c.scope.index
       else t.name.path == [] && t.name.head in c.scope.binders && c.scope.binders[t.name.head].kind == param.kind
  }

  ghost predicate AllFit(c: Context, i: nat, params: seq<Binder>) {
    i + |params| <= |c.tokens| && forall k :: 0 <= k < |params| ==> Fits(c, c.tokens[i + k], params[k])
  }

  lemma AllFitStep(c: Context, i: nat, params: seq<Binder>)
    requires params != []
    ensures AllFit(c, i, params) <==> i < |c.tokens| && Fits(c, c.tokens[i], params[0]) && AllFit(c, i + 1, params[1..])
  {
    hide Fits;
    if AllFit(c, i, params) {
      assert Fits(c, c.tokens[i + 0], params[0]);
      forall k | 0 <= k < |params[1..]| ensures Fits(c, c.tokens[i + 1 + k], params[1..][k]) {
        assert Fits(c, c.tokens[i + (k + 1)], params[k + 1]);
      }
    }
    if i < |c.tokens| && Fits(c, c.tokens[i], params[0]) && AllFit(c, i + 1, params[1..]) {
      forall k | 0 <= k < |params| ensures Fits(c, c.tokens[i + k], params[k]) {
        if k > 0 { assert Fits(c, c.tokens[i + 1 + (k - 1)], params[1..][k - 1]); }
      }
    }
  }

  /** The helper's carriers under their own names, the last of two equal names winning. */
  ghost function OwnBinders(params: seq<Binder>, binders: map<string, Binder>): map<string, Binder>
    decreases |params|
  {
    if params == [] then binders
    else OwnBinders(params[1..], if params[0].kind == Index then binders else binders[params[0].name := params[0]])
  }

  ghost function OwnIndex(params: seq<Binder>, index: Option<Name>): Option<Name>
    decreases |params|
  {
    if params == [] then index
    else OwnIndex(params[1..], if params[0].kind == Index then Some(Name(params[0].name, [])) else index)
  }

  /** Carrier arguments are bound exactly when each is a bare binder of its parameter's
      kind, or the row index for an index parameter; the body then knows the helper's own
      parameters and nothing of the caller's. */
  lemma {:induction false} CarriersBoundIff(c: Context, i: nat, params: seq<Binder>,
                                            binders: map<string, Binder>, index: Option<Name>)
    requires i <= |c.tokens|
    ensures BindCarriers(c, i, params, binders, index).Ok? <==> AllFit(c, i, params)
    ensures BindCarriers(c, i, params, binders, index).Ok? ==>
              BindCarriers(c, i, params, binders, index).value ==
                Bound(OwnBinders(params, binders), OwnIndex(params, index), i + |params|)
    decreases |params|
  {
    if params == [] {
    } else {
      AllFitStep(c, i, params);
      hide AllFit;
      if i < |c.tokens| {
        CarriersBoundIff(c, i + 1, params[1..], binders, Some(Name(params[0].name, [])));
        CarriersBoundIff(c, i + 1, params[1..], binders[params[0].name := params[0]], index);
      }
    }
  }

  // ----- the theorem

  /** The k-th parameter, as an atom no projection produces. */
  function Symbols(n: nat): (r: seq<Tree>)
    ensures |r| == n
  {
    seq(n, k => TVar(Aux(k)))
  }

  /** The body with its parameters left symbolic and its powers left standing. */
  ghost function SymbolicTree(c: Context, s: Cursor, h: Helper): Reading<TreeAt>
    requires c.depth < MAX_INLINE_DEPTH
  {
    ReadBody(HelperContext(c, h), BindTrees(h.params, Symbols(|h.params|)), s)
  }

  ghost function ArgumentFor(args: seq<Expr>): Atom -> Expr {
    (a: Atom) => if a.Aux? && 0 <= a.index < |args| then args[a.index] else Var(a)
  }

  lemma SymbolsFold(args: seq<Expr>)
    ensures Instances(Symbols(|args|), args, ArgumentFor(args)) && KeepsLeaves(ArgumentFor(args))
  {
  }

  /** Inlining a helper is replacing, all at once, the parameters of its symbolically read
      body by the argument expressions and folding the powers. It is refused for a power
      exactly when some power met does not fold; otherwise results and errors carry over. */
  lemma InliningIsSubstituteThenFold(c: Context, s: Cursor, h: Helper)
    requires Ready(c, s) && c.depth < MAX_INLINE_DEPTH && ParseArguments(c, s, |h.params|).Ok?
    ensures var (args, at) := ParseArguments(c, s, |h.params|).value;
            Tracks(Returned(SymbolicTree(c, at, h), at.i, at.rowOk), Inline(c, s, h), ArgumentFor(args))
  {
    hide ParseArguments, ParseBody, ReadBody, Fold, AllFold, KeepsLeaves, ArgumentFor;
    var (args, at) := ParseArguments(c, s, |h.params|).value;
    var n, f := |h.params|, ArgumentFor(args);
    SymbolsFold(args);
    BindTracks(h.params, Symbols(n), args, f);
    BodyTracks(HelperContext(c, h), BindTrees(h.params, Symbols(n)), InnerContext(c, h, args), at, f);
  }

  // ----- against the ordinary parse of the body

  function SymbolNodes(n: nat): (r: seq<Expr>)
    ensures |r| == n
  {
    seq(n, k => Var(Aux(k)))
  }

  /** The body parsed with its parameters left symbolic: a power of one is refused. */
  ghost function Symbolic(c: Context, s: Cursor, h: Helper): Outcome
    requires c.depth < MAX_INLINE_DEPTH
  {
    ParseBody(InnerContext(c, h, SymbolNodes(|h.params|)), s)
  }

  function Same(): Atom -> Expr {
    (a: Atom) => Var(a)
  }

  lemma SymbolicTracks(c: Context, s: Cursor, h: Helper)
    requires c.depth < MAX_INLINE_DEPTH
    ensures Tracks(SymbolicTree(c, s, h), Symbolic(c, s, h), Same())
  {
    hide ParseBody, ReadBody, AllFold;
    var n := |h.params|;
    assert Instances(Symbols(n), SymbolNodes(n), Same());
    BindTracks(h.params, Symbols(n), SymbolNodes(n), Same());
    BodyTracks(HelperContext(c, h), BindTrees(h.params, Symbols(n)), InnerContext(c, h, SymbolNodes(n)), s, Same());
  }

  /** What folds symbolically folds for every argument, to the instance. */
  lemma {:induction false} FoldInstance(t: Tree, f: Atom -> Expr)
    ensures Fold(t, Same()).Some? ==> Fold(t, f) == Some(Subst(Fold(t, Same()).value, f))
  {
    match t {
      case TConst(_) =>
      case TVar(_) =>
      case TNeg(a) => FoldInstance(a, f);
      case TAdd(a, b) => FoldInstance(a, f); FoldInstance(b, f);
      case TSub(a, b) => FoldInstance(a, f); FoldInstance(b, f);
      case TMul(a, b) => FoldInstance(a, f); FoldInstance(b, f);
      case TPow(a, b) => FoldInstance(a, f); FoldInstance(b, f);
    }
  }

  /** Arguments that are not numerals make no power fold that did not fold before. */
  lemma {:induction false} FoldBack(t: Tree, f: Atom -> Expr)
    requires forall a: Atom :: !f(a).Const?
    ensures Fold(t, f).Some? ==> Fold(t, Same()).Some?
  {
    FoldInstance(t, f);
    match t {
      case TConst(_) =>
      case TVar(_) =>
      case TNeg(a) => FoldBack(a, f);
      case TAdd(a, b) => FoldBack(a, f); FoldBack(b, f);
      case TSub(a, b) => FoldBack(a, f); FoldBack(b, f);
      case TMul(a, b) => FoldBack(a, f); FoldBack(b, f);
      case TPow(a, b) =>
        FoldBack(a, f); FoldBack(b, f);
        FoldInstance(a, f); FoldInstance(b, f);
    }
  }

  /** The call's outcome when the body's parameters are replaced after an ordinary parse. */
  ghost function SubstitutedBody(body: Outcome, args: seq<Expr>, at: Cursor): Outcome {
    match body
    case Err(e) => Err(e)
    case Ok(p) => Ok(Parsed(Subst(p.node, ArgumentFor(args)),
                            Cursor(at.i, at.rowOk && p.at.rowOk, p.at.atoms, p.at.unresolved)))
  }

  /** A helper whose symbolic body is not refused for a power is inlined by substitution
      alone, whatever the arguments. */
  lemma InliningIsSubstitution(c: Context, s: Cursor, h: Helper)
    requires Ready(c, s) && c.depth < MAX_INLINE_DEPTH && ParseArguments(c, s, |h.params|).Ok?
    ensures var (args, at) := ParseArguments(c, s, |h.params|).value;
            Symbolic(c, at, h) != Err(NonConstantPower) ==>
                Inline(c, s, h) == SubstitutedBody(Symbolic(c, at, h), args, at)
  {
    hide ParseArguments, Symbolic, SymbolicTree, Inline, Fold;
    var (args, at) := ParseArguments(c, s, |h.params|).value;
    var q, f := SymbolicTree(c, at, h), ArgumentFor(args);
    InliningIsSubstituteThenFold(c, s, h);
    SymbolicTracks(c, at, h);
    forall k | 0 <= k < |q.powers| ensures Fold(q.powers[k], Same()).Some? ==> Fold(q.powers[k], f).Some? {
      FoldInstance(q.powers[k], f);
    }
    if q.result.Ok? { FoldInstance(q.result.value.node, f); }
  }

  /** With no numeral among the arguments inlining and substitution agree in every case,
      results and errors alike, powers included. */
  lemma NoNumeralArgument(c: Context, s: Cursor, h: Helper)
    requires Ready(c, s) && c.depth < MAX_INLINE_DEPTH && ParseArguments(c, s, |h.params|).Ok?
    requires forall k :: 0 <= k < |h.params| ==> !ParseArguments(c, s, |h.params|).value.0[k].Const?
    ensures var (args, at) := ParseArguments(c, s, |h.params|).value;
            Inline(c, s, h) == SubstitutedBody(Symbolic(c, at, h), args, at)
  {
    hide ParseArguments, Symbolic, SymbolicTree, Inline, Fold;
    var (args, at) := ParseArguments(c, s, |h.params|).value;
    var q, f := SymbolicTree(c, at, h), ArgumentFor(args);
    InliningIsSubstitution(c, s, h);
    InliningIsSubstituteThenFold(c, s, h);
    SymbolicTracks(c, at, h);
    forall k | 0 <= k < |q.powers| ensures Fold(q.powers[k], f).Some? ==> Fold(q.powers[k], Same()).Some? {
      FoldBack(q.powers[k], f);
    }
  }

  /** `sq x := x ^ 2` */
  const SQUARE: Helper := Helper([Name("x", [])], [Ident(Name("x", [])), Op("^"), Num(2)])

  lemma SquareContext(c: Context, x: Expr)
    requires c.depth == 0
    ensures InnerContext(c, SQUARE, [x]) == Context(SQUARE.tokens, c.scope, map[Name("x", []) := x], 1)
  {
    assert Bind([Name("x", [])], [x]) == map[Name("x", []) := x];
  }

  lemma ThreeIsTheArgument(c: Context)
    requires c.tokens == [Num(3)] && c.depth <= MAX_INLINE_DEPTH
    ensures ParseArguments(c, Cursor(0, true, [], []), 1) == Ok(([Const(3)], Cursor(1, true, [], [])))
  {
    assert ParseArgument(c, Cursor(0, true, [], [])) == Ok(Parsed(Const(3), Cursor(1, true, [], [])));
    assert ParseArguments(c, Cursor(1, true, [], []), 0) == Ok(([], Cursor(1, true, [], [])));
    assert [Const(3)] + [] == [Const(3)];
  }

  lemma SquareBody(scope: Scope, x: Expr, s: Cursor)
    requires scope.binders == map[]
    ensures ParseBody(Context([Ident(Name("x", [])), Op("^"), Num(2)], scope, map[Name("x", []) := x], 1), s)
         == if x.Const? && x.n >= 0 then Ok(Parsed(Const(Modular.Pow(x.n, 2)), Fresh(s).(i := 3)))
            else Err(NonConstantPower)
  {
    var name := Name("x", []);
    var c := Context([Ident(name), Op("^"), Num(2)], scope, map[name := x], 1);
    var t := Fresh(s);
    var r: Outcome := if x.Const? && x.n >= 0 then Ok(Parsed(Const(Modular.Pow(x.n, 2)), t.(i := 3)))
        else Err(NonConstantPower);
    assert Skip(t) == t.(i := 1) && Skip(t.(i := 1)) == t.(i := 2) && Skip(t.(i := 2)) == t.(i := 3);
    assert ParsePrimary(c, t) == Ok(Parsed(x, t.(i := 1)));
    assert ParsePrimary(c, t.(i := 2)) == Ok(Parsed(Const(2), t.(i := 3)));
    assert ParsePower(c, t.(i := 2)) == Ok(Parsed(Const(2), t.(i := 3)));
    assert ParsePower(c, t) == r;
    assert ParseUnary(c, t) == r;
    assert ParseTerm(c, t) == r;
    assert ParseExpr(c, t) == r;
  }

  /** What substitution alone would not give: `sq` has no polynomial reading, yet applied to
      the numeral 3 the parser folds it to 9. */
  lemma PowerOfAnArgument(c: Context)
    requires c.tokens == [Num(3)] && c.depth == 0 && c.scope.binders == map[]
    ensures Symbolic(c, Cursor(1, true, [], []), SQUARE) == Err(NonConstantPower)
    ensures Inline(c, Cursor(0, true, [], []), SQUARE) == Ok(Parsed(Const(9), Cursor(1, true, [], [])))
  {
    hide ParseArguments, ParseBody;
    var at := Cursor(1, true, [], []);
    ThreeIsTheArgument(c);
    SquareContext(c, Var(Aux(0)));
    SquareContext(c, Const(3));
    SquareBody(c.scope, Var(Aux(0)), at);
    SquareBody(c.scope, Const(3), at);
    assert SymbolNodes(1) == [Var(Aux(0))];
    assert Modular.Pow(3, 2) == 9;
  }
}
