/** Nothing a clause mentions escapes the collectors: every atom of a parsed expression was
    recorded, as a resolved accessor atom or as a reported marker. */
module MirrorLeaves {
  import opened Results
  import opened Atoms
  import opened Expressions
  import opened Lanes
  import opened MirrorGrammar

  ghost function Seen(s: Cursor): set<Atom> {
    (set a | a in s.atoms) + (set a | a in s.unresolved)
  }

  /** Resolved atoms and markers are kept apart. */
  ghost predicate Apart(s: Cursor) {
    (forall a :: a in s.atoms ==> IsAccessor(a)) && (forall a :: a in s.unresolved ==> a.Unresolved?)
  }

  ghost predicate LocalsIn(c: Context, known: set<Atom>) {
    forall n :: n in c.locals ==> AtomSet(c.locals[n]) <= known
  }

  /** The collectors have grown to hold every atom of the node that is not from a local. */
  ghost predicate Recorded(s: Cursor, r: Outcome, known: set<Atom>) {
    r.Ok? ==> Seen(s) <= Seen(r.value.at) && Apart(r.value.at) && AtomSet(r.value.node) <= known + Seen(r.value.at)
  }

  lemma SeenSkip(s: Cursor)
    ensures Seen(Skip(s)) == Seen(s) && Apart(Skip(s)) == Apart(s)
  {
  }

  lemma SameCollectors(s: Cursor, t: Cursor)
    requires t.atoms == s.atoms && t.unresolved == s.unresolved
    ensures Seen(t) == Seen(s) && Apart(t) == Apart(s)
  {
  }

  lemma FieldRecorded(scope: Scope, s: Cursor, b: Binder, path: seq<string>, delta: int, known: set<Atom>)
    requires path != [] && Apart(s)
    ensures Recorded(s, ResolveField(scope, s, b, path, delta), known)
  {
    hide Hits, Resolve, FlattenChallenge;
    var r := ResolveField(scope, s, b, path, delta);
    if r.Ok? {
      var a := r.value.node.atom;
      if r.value == Marker(s, b, path, delta) {
        assert r.value.at.unresolved == s.unresolved + [a] && a.Unresolved?;
      } else {
        assert r.value.at.atoms == s.atoms + [a] && IsAccessor(a);
      }
    }
  }

  lemma ProjectionRecorded(c: Context, s: Cursor, b: Binder, path: seq<string>, known: set<Atom>)
    requires Ready(c, s) && path != [] && Apart(s)
    ensures Recorded(s, ParseProjection(c, s, b, path), known)
  {
    hide ResolveField, Seen, Apart;
    forall t: Cursor, delta | t.atoms == s.atoms && t.unresolved == s.unresolved
      ensures Recorded(s, ResolveField(c.scope, t, b, path, delta), known)
    {
      SameCollectors(s, t);
      FieldRecorded(c.scope, t, b, path, delta, known);
    }
  }

  lemma {:induction false} ExprRecorded(c: Context, s: Cursor, known: set<Atom>)
    requires Ready(c, s) && Apart(s) && LocalsIn(c, known)
    ensures Recorded(s, ParseExpr(c, s), known)
    decreases MAX_INLINE_DEPTH - c.depth, |c.tokens| - s.i, 6
  {
    hide ParseTerm, ExprTail, LocalsIn, Apart, Seen;
    TermRecorded(c, s, known);
    var t := ParseTerm(c, s);
    if t.Ok? { ExprTailRecorded(c, t.value.node, t.value.at, known); }
  }

  lemma {:induction false} ExprTailRecorded(c: Context, node: Expr, s: Cursor, known: set<Atom>)
    requires Ready(c, s) && Apart(s) && LocalsIn(c, known) && AtomSet(node) <= known + Seen(s)
    ensures Recorded(s, ExprTail(c, node, s), known)
    decreases MAX_INLINE_DEPTH - c.depth, |c.tokens| - s.i, 6
  {
    hide ParseTerm, LocalsIn;
    if AtOp(c, s, "+") || AtOp(c, s, "-") {
      SeenSkip(s);
      TermRecorded(c, Skip(s), known);
      var t := ParseTerm(c, Skip(s));
      if t.Ok? {
        var next := if AtOp(c, s, "+") then Add(node, t.value.node) else Sub(node, t.value.node);
        ExprTailRecorded(c, next, t.value.at, known);
      }
    }
  }

  lemma {:induction false} TermRecorded(c: Context, s: Cursor, known: set<Atom>)
    requires Ready(c, s) && Apart(s) && LocalsIn(c, known)
    ensures Recorded(s, ParseTerm(c, s), known)
    decreases MAX_INLINE_DEPTH - c.depth, |c.tokens| - s.i, 5
  {
    hide ParseUnary, TermTail, LocalsIn, Apart, Seen;
    UnaryRecorded(c, s, known);
    var t := ParseUnary(c, s);
    if t.Ok? { TermTailRecorded(c, t.value.node, t.value.at, known); }
  }

  lemma {:induction false} TermTailRecorded(c: Context, node: Expr, s: Cursor, known: set<Atom>)
    requires Ready(c, s) && Apart(s) && LocalsIn(c, known) && AtomSet(node) <= known + Seen(s)
    ensures Recorded(s, TermTail(c, node, s), known)
    decreases MAX_INLINE_DEPTH - c.depth, |c.tokens| - s.i, 5
  {
    hide ParseUnary, LocalsIn;
    if AtOp(c, s, "*") {
      SeenSkip(s);
      UnaryRecorded(c, Skip(s), known);
      var t := ParseUnary(c, Skip(s));
      if t.Ok? { TermTailRecorded(c, Mul(node, t.value.node), t.value.at, known); }
    }
  }

  lemma {:induction false} UnaryRecorded(c: Context, s: Cursor, known: set<Atom>)
    requires Ready(c, s) && Apart(s) && LocalsIn(c, known)
    ensures Recorded(s, ParseUnary(c, s), known)
    decreases MAX_INLINE_DEPTH - c.depth, |c.tokens| - s.i, 4
  {
    hide ParsePower, LocalsIn, Apart, Seen;
    if AtOp(c, s, "-") {
      SeenSkip(s);
      UnaryRecorded(c, Skip(s), known);
    } else {
      PowerRecorded(c, s, known);
    }
  }

  lemma {:induction false} PowerRecorded(c: Context, s: Cursor, known: set<Atom>)
    requires Ready(c, s) && Apart(s) && LocalsIn(c, known)
    ensures Recorded(s, ParsePower(c, s), known)
    decreases MAX_INLINE_DEPTH - c.depth, |c.tokens| - s.i, 3
  {
    hide ParsePrimary, LocalsIn, Apart, Seen;
    PrimaryRecorded(c, s, known);
    var base := ParsePrimary(c, s);
    if base.Ok? && AtOp(c, base.value.at, "^") {
      SeenSkip(base.value.at);
      PowerRecorded(c, Skip(base.value.at), known);
    }
  }

  lemma {:induction false} PrimaryRecorded(c: Context, s: Cursor, known: set<Atom>)
    requires Ready(c, s) && Apart(s) && LocalsIn(c, known)
    ensures Recorded(s, ParsePrimary(c, s), known)
    decreases MAX_INLINE_DEPTH - c.depth, |c.tokens| - s.i, 2
  {
    hide ParseExpr, ParseApplication, LocalsIn, Seen, Apart;
    if s.i < |c.tokens| {
      SeenSkip(s);
      match c.tokens[s.i] {
        case Num(n) =>
        case Ident(_) => ApplicationRecorded(c, s, known);
        case Op(text) =>
          if text == "(" {
            ExprRecorded(c, Skip(s), known);
            var inner := ParseExpr(c, Skip(s));
            if inner.Ok? {
              var at := ParseAscription(c, inner.value.at);
              if at.Ok? { SameCollectors(inner.value.at, Skip(at.value)); }
            }
          }
      }
    }
  }

  lemma {:induction false} ArgumentRecorded(c: Context, s: Cursor, known: set<Atom>)
    requires Ready(c, s) && Apart(s) && LocalsIn(c, known)
    ensures Recorded(s, ParseArgument(c, s), known)
    decreases MAX_INLINE_DEPTH - c.depth, |c.tokens| - s.i, 3
  {
    hide ParsePrimary, ParseApplication, LocalsIn, Seen, Apart;
    if s.i < |c.tokens| {
      SeenSkip(s);
      match c.tokens[s.i] {
        case Num(n) =>
        case Ident(name) => if name.path != [] || name in c.locals { ApplicationRecorded(c, s, known); }
        case Op(text) => if text == "(" { PrimaryRecorded(c, s, known); }
      }
    }
  }

  lemma {:induction false} ApplicationRecorded(c: Context, s: Cursor, known: set<Atom>)
    requires Ready(c, s) && s.i < |c.tokens| && c.tokens[s.i].Ident? && Apart(s) && LocalsIn(c, known)
    ensures Recorded(s, ParseApplication(c, s), known)
    decreases MAX_INLINE_DEPTH - c.depth, |c.tokens| - s.i, 1
  {
    hide ParseProjection, ParseArgument, Inline, InlineCarrier, Seen, Apart;
    var name := c.tokens[s.i].name;
    SeenSkip(s);
    if name.head in c.scope.binders && name.path != [] {
      ProjectionRecorded(c, Skip(s), c.scope.binders[name.head], name.path, known);
    } else if name in c.locals {
    } else if name in BOOL_COERCIONS {
      ArgumentRecorded(c, Skip(s), known);
    } else if name in c.scope.helpers {
      InlineRecorded(c, Skip(s), c.scope.helpers[name], known);
    } else if name in c.scope.carrierHelpers {
      CarrierRecorded(c, Skip(s), c.scope.carrierHelpers[name], known);
    }
  }

  // ----- inlining

  lemma {:induction false} ArgumentsRecorded(c: Context, s: Cursor, n: nat, known: set<Atom>)
    requires Ready(c, s) && Apart(s) && LocalsIn(c, known)
    ensures ParseArguments(c, s, n).Ok? ==>
              var (args, at) := ParseArguments(c, s, n).value;
              && Seen(s) <= Seen(at) && Apart(at)
              && forall k :: 0 <= k < |args| ==> AtomSet(args[k]) <= known + Seen(at)
    decreases MAX_INLINE_DEPTH - c.depth, |c.tokens| - s.i, 4, n
  {
    hide ParseArgument, LocalsIn, Seen, Apart;
    if n == 0 {
    } else {
      ArgumentRecorded(c, s, known);
      var p := ParseArgument(c, s);
      if p.Ok? { ArgumentsRecorded(c, p.value.at, n - 1, known); }
    }
  }

  lemma {:induction false} BindIn(params: seq<Name>, args: seq<Expr>, known: set<Atom>)
    requires |params| == |args| && forall k :: 0 <= k < |args| ==> AtomSet(args[k]) <= known
    ensures forall n :: n in Bind(params, args) ==> AtomSet(Bind(params, args)[n]) <= known
  {
    if params == [] {
    } else {
      BindIn(params[..|params| - 1], args[..|args| - 1], known);
    }
  }

  lemma {:induction false} BodyRecorded(c: Context, s: Cursor, known: set<Atom>)
    requires c.depth <= MAX_INLINE_DEPTH && Apart(s) && LocalsIn(c, known)
    ensures Recorded(s, ParseBody(c, s), known)
    decreases MAX_INLINE_DEPTH - c.depth, |c.tokens|, 7
  {
    hide ParseExpr, LocalsIn, Seen, Apart;
    SameCollectors(s, Fresh(s));
    ExprRecorded(c, Fresh(s), known);
  }

  lemma Combine(a: set<Atom>, b: set<Atom>, c: set<Atom>, e: set<Atom>, known: set<Atom>)
    requires a <= b <= c && e <= (known + b) + c
    ensures a <= c && e <= known + c
  {
  }

  lemma {:induction false} InlineRecorded(c: Context, s: Cursor, h: Helper, known: set<Atom>)
    requires Ready(c, s) && Apart(s) && LocalsIn(c, known)
    ensures Recorded(s, Inline(c, s, h), known)
    decreases MAX_INLINE_DEPTH - c.depth, |c.tokens| - s.i, 5
  {
    hide ParseArguments, ParseBody, Seen, Apart;
    if c.depth < MAX_INLINE_DEPTH {
      ArgumentsRecorded(c, s, |h.params|, known);
      var parsed := ParseArguments(c, s, |h.params|);
      if parsed.Ok? {
        var (args, at) := parsed.value;
        BindIn(h.params, args, known + Seen(at));
        var inner := InnerContext(c, h, args);
        BodyRecorded(inner, at, known + Seen(at));
        var body := ParseBody(inner, at);
        if body.Ok? {
          SameCollectors(body.value.at, Inline(c, s, h).value.at);
          Combine(Seen(s), Seen(at), Seen(body.value.at), AtomSet(body.value.node), known);
        }
      }
    }
  }

  lemma {:induction false} CarrierRecorded(c: Context, s: Cursor, h: CarrierHelper, known: set<Atom>)
    requires Ready(c, s) && Apart(s)
    ensures Recorded(s, InlineCarrier(c, s, h), known)
    decreases MAX_INLINE_DEPTH - c.depth, |c.tokens| - s.i, 5
  {
    hide ParseBody, BindCarriers, Seen, Apart;
    if c.depth < MAX_INLINE_DEPTH {
      var b := BindCarriers(c, s.i, h.binders, map[], None);
      if b.Ok? {
        BodyRecorded(CarrierContext(c, h, b.value), s, known);
        var body := ParseBody(CarrierContext(c, h, b.value), s);
        if body.Ok? { SameCollectors(body.value.at, InlineCarrier(c, s, h).value.at); }
      }
    }
  }

  // ----- the theorem

  /** A clause that reports nothing unresolved mentions accessor atoms only, each of them
      collected: this is what makes it comparable with a constraint. */
  lemma NothingUnresolvedMeansComparable(scope: Scope, tokens: seq<Token>, rowOk: bool)
    ensures var r := ParseExpr(Context(tokens, scope, map[], 0), Cursor(0, rowOk, [], []));
            r.Ok? && r.value.at.unresolved == [] ==>
              forall a :: a in AtomSet(r.value.node) ==> a in r.value.at.atoms && IsAccessor(a)
  {
    ExprRecorded(Context(tokens, scope, map[], 0), Cursor(0, rowOk, [], []), {});
  }
}
