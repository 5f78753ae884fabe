/** The clause grammar read without folding: powers stay in the tree, and a reading also
    lists, in order, every power it met, including those an inlined body then drops. */
module MirrorTrees {
  import opened Results
  import Modular
  import opened Atoms
  import opened Expressions
  import opened MirrorGrammar

  /** An expression with powers not yet folded. */
  datatype Tree =
    | TConst(n: int)
    | TVar(atom: Atom)
    | TNeg(arg: Tree)
    | TAdd(left: Tree, right: Tree)
    | TSub(left: Tree, right: Tree)
    | TMul(left: Tree, right: Tree)
    | TPow(base: Tree, exponent: Tree)

  function FoldPower(x: Expr, y: Expr): Option<Expr> {
    if x.Const? && y.Const? && x.n >= 0 && y.n >= 0 then Some(Const(Modular.Pow(x.n, y.n))) else None
  }

  /** Replacing the atoms and folding the powers, which only two constants allow. */
  ghost function Fold(t: Tree, f: Atom -> Expr): Option<Expr> {
    match t
    case TConst(n) => Some(Const(n))
    case TVar(a) => Some(f(a))
    case TNeg(a) => (match Fold(a, f) case None => None case Some(x) => Some(Neg(x)))
    case TAdd(a, b) =>
      (match (Fold(a, f), Fold(b, f)) case (Some(x), Some(y)) => Some(Add(x, y)) case _ => None)
    case TSub(a, b) =>
      (match (Fold(a, f), Fold(b, f)) case (Some(x), Some(y)) => Some(Sub(x, y)) case _ => None)
    case TMul(a, b) =>
      (match (Fold(a, f), Fold(b, f)) case (Some(x), Some(y)) => Some(Mul(x, y)) case _ => None)
    case TPow(a, b) =>
      (match (Fold(a, f), Fold(b, f)) case (Some(x), Some(y)) => FoldPower(x, y) case _ => None)
  }

  ghost predicate AllFold(powers: seq<Tree>, f: Atom -> Expr) {
    forall k :: 0 <= k < |powers| ==> Fold(powers[k], f).Some?
  }

  /** The powers met, and what was read or why the reading stopped. */
  datatype Reading<T> = Reading(powers: seq<Tree>, result: Result<T, ParseError>)

  datatype TreeAt = TreeAt(node: Tree, at: Cursor)

  function Stopped<T>(powers: seq<Tree>, e: ParseError): Reading<T> {
    Reading(powers, Err(e))
  }

  /** A reading that follows another. */
  function Behind<T>(powers: seq<Tree>, r: Reading<T>): (q: Reading<T>)
    ensures q.result == r.result
  {
    Reading(powers + r.powers, r.result)
  }

  function Found(r: Outcome): Reading<TreeAt>
    requires r.Ok? ==> r.value.node.Var?
  {
    match r
    case Err(e) => Stopped([], e)
    case Ok(p) => Reading([], Ok(TreeAt(TVar(p.node.atom), p.at)))
  }

  // ----- expressions

  /** A projection reads as an atom, whatever the context's locals. */
  lemma ProjectionIsVar(c: Context, s: Cursor, b: Binder, path: seq<string>)
    requires Ready(c, s) && path != []
    ensures var r := ParseProjection(c, s, b, path); r.Ok? ==> r.value.node.Var?
  {
    hide Hits;
  }

  ghost function ReadExpr(c: Context, ls: map<Name, Tree>, s: Cursor): (r: Reading<TreeAt>)
    requires Ready(c, s)
    ensures r.result.Ok? ==> Past(c, s, r.result.value.at)
    decreases MAX_INLINE_DEPTH - c.depth, |c.tokens| - s.i, 6
  {
    var p := ReadTerm(c, ls, s);
    if p.result.Err? then p
    else Behind(p.powers, ReadExprTail(c, ls, p.result.value.node, p.result.value.at))
  }

  ghost function ReadExprTail(c: Context, ls: map<Name, Tree>, node: Tree, s: Cursor): (r: Reading<TreeAt>)
    requires Ready(c, s)
    ensures r.result.Ok? ==> s.i <= r.result.value.at.i <= |c.tokens|
    decreases MAX_INLINE_DEPTH - c.depth, |c.tokens| - s.i, 6
  {
    if AtOp(c, s, "+") || AtOp(c, s, "-") then
      var p := ReadTerm(c, ls, Skip(s));
      if p.result.Err? then p
      else
        var rhs := p.result.value;
        var next := if AtOp(c, s, "+") then TAdd(node, rhs.node) else TSub(node, rhs.node);
        Behind(p.powers, ReadExprTail(c, ls, next, rhs.at))
    else
      Reading([], Ok(TreeAt(node, s)))
  }

  ghost function ReadTerm(c: Context, ls: map<Name, Tree>, s: Cursor): (r: Reading<TreeAt>)
    requires Ready(c, s)
    ensures r.result.Ok? ==> Past(c, s, r.result.value.at)
    decreases MAX_INLINE_DEPTH - c.depth, |c.tokens| - s.i, 5
  {
    var p := ReadUnary(c, ls, s);
    if p.result.Err? then p
    else Behind(p.powers, ReadTermTail(c, ls, p.result.value.node, p.result.value.at))
  }

  ghost function ReadTermTail(c: Context, ls: map<Name, Tree>, node: Tree, s: Cursor): (r: Reading<TreeAt>)
    requires Ready(c, s)
    ensures r.result.Ok? ==> s.i <= r.result.value.at.i <= |c.tokens|
    decreases MAX_INLINE_DEPTH - c.depth, |c.tokens| - s.i, 5
  {
    if AtOp(c, s, "*") then
      var p := ReadUnary(c, ls, Skip(s));
      if p.result.Err? then p
      else Behind(p.powers, ReadTermTail(c, ls, TMul(node, p.result.value.node), p.result.value.at))
    else
      Reading([], Ok(TreeAt(node, s)))
  }

  ghost function ReadUnary(c: Context, ls: map<Name, Tree>, s: Cursor): (r: Reading<TreeAt>)
    requires Ready(c, s)
    ensures r.result.Ok? ==> Past(c, s, r.result.value.at)
    decreases MAX_INLINE_DEPTH - c.depth, |c.tokens| - s.i, 4
  {
    if AtOp(c, s, "-") then
      var p := ReadUnary(c, ls, Skip(s));
      if p.result.Err? then p
      else Reading(p.powers, Ok(TreeAt(TNeg(p.result.value.node), p.result.value.at)))
    else
      ReadPower(c, ls, s)
  }

  ghost function ReadPower(c: Context, ls: map<Name, Tree>, s: Cursor): (r: Reading<TreeAt>)
    requires Ready(c, s)
    ensures r.result.Ok? ==> Past(c, s, r.result.value.at)
    decreases MAX_INLINE_DEPTH - c.depth, |c.tokens| - s.i, 3
  {
    var base := ReadPrimary(c, ls, s);
    if base.result.Err? || !AtOp(c, base.result.value.at, "^") then base
    else
      var exponent := ReadPower(c, ls, Skip(base.result.value.at));
      if exponent.result.Err? then Behind(base.powers, exponent)
      else
        var node := TPow(base.result.value.node, exponent.result.value.node);
        Reading(base.powers + exponent.powers + [node], Ok(TreeAt(node, exponent.result.value.at)))
  }

  ghost function ReadPrimary(c: Context, ls: map<Name, Tree>, s: Cursor): (r: Reading<TreeAt>)
    requires Ready(c, s)
    ensures r.result.Ok? ==> Past(c, s, r.result.value.at)
    decreases MAX_INLINE_DEPTH - c.depth, |c.tokens| - s.i, 2
  {
    if s.i == |c.tokens| then Stopped([], EndedEarly)
    else
      match c.tokens[s.i]
      case Num(n) => Reading([], Ok(TreeAt(TConst(n), Skip(s))))
      case Ident(_) => ReadApplication(c, ls, s)
      case Op(text) =>
        if text != "(" then Stopped([], UnexpectedToken)
        else
          var inner := ReadExpr(c, ls, Skip(s));
          if inner.result.Err? then inner
          else
            match ParseAscription(c, inner.result.value.at)
            case Err(e) => Stopped(inner.powers, e)
            case Ok(at) =>
              if at.i == |c.tokens| then Stopped(inner.powers, EndedEarly)
              else if c.tokens[at.i] != Op(")") then Stopped(inner.powers, ExpectedOp)
              else Reading(inner.powers, Ok(TreeAt(inner.result.value.node, Skip(at))))
  }

  ghost function ReadArgument(c: Context, ls: map<Name, Tree>, s: Cursor): (r: Reading<TreeAt>)
    requires Ready(c, s)
    ensures r.result.Ok? ==> Past(c, s, r.result.value.at)
    decreases MAX_INLINE_DEPTH - c.depth, |c.tokens| - s.i, 3
  {
    if s.i == |c.tokens| then Stopped([], ArgumentMissing)
    else
      match c.tokens[s.i]
      case Num(n) => Reading([], Ok(TreeAt(TConst(n), Skip(s))))
      case Op(text) => if text == "(" then ReadPrimary(c, ls, s) else Stopped([], UnexpectedArgument)
      case Ident(name) =>
        if name.path != [] || name in ls then ReadApplication(c, ls, s) else Stopped([], BareArgument)
  }

  ghost function ReadApplication(c: Context, ls: map<Name, Tree>, s: Cursor): (r: Reading<TreeAt>)
    requires Ready(c, s) && s.i < |c.tokens| && c.tokens[s.i].Ident?
    ensures r.result.Ok? ==> Past(c, s, r.result.value.at)
    decreases MAX_INLINE_DEPTH - c.depth, |c.tokens| - s.i, 1
  {
    var name := c.tokens[s.i].name;
    if name.head in c.scope.binders && name.path != [] then
      ProjectionIsVar(c, Skip(s), c.scope.binders[name.head], name.path);
      Found(ParseProjection(c, Skip(s), c.scope.binders[name.head], name.path))
    else if name in ls then
      Reading([], Ok(TreeAt(ls[name], Skip(s))))
    else if name in BOOL_COERCIONS then
      ReadArgument(c, ls, Skip(s))
    else if name in c.scope.helpers then
      ReadInline(c, ls, Skip(s), c.scope.helpers[name])
    else if name in c.scope.carrierHelpers then
      ReadInlineCarrier(c, Skip(s), c.scope.carrierHelpers[name])
    else if name.head in c.scope.binders then
      Stopped([], BareBinder)
    else
      Stopped([], UnknownIdentifier)
  }

  // ----- inlining

  ghost function ReadArguments(c: Context, ls: map<Name, Tree>, s: Cursor, n: nat): (r: Reading<(seq<Tree>, Cursor)>)
    requires Ready(c, s)
    ensures r.result.Ok? ==> |r.result.value.0| == n && s.i <= r.result.value.1.i <= |c.tokens|
    decreases MAX_INLINE_DEPTH - c.depth, |c.tokens| - s.i, 4, n
  {
    if n == 0 then Reading([], Ok(([], s)))
    else
      var p := ReadArgument(c, ls, s);
      if p.result.Err? then Stopped(p.powers, p.result.error)
      else
        var rest := ReadArguments(c, ls, p.result.value.at, n - 1);
        if rest.result.Err? then Behind(p.powers, rest)
        else Reading(p.powers + rest.powers, Ok(([p.result.value.node] + rest.result.value.0, rest.result.value.1)))
  }

  function BindTrees(params: seq<Name>, args: seq<Tree>): map<Name, Tree>
    requires |params| == |args|
  {
    if params == [] then map[]
    else BindTrees(params[..|params| - 1], args[..|args| - 1])[params[|params| - 1] := args[|args| - 1]]
  }

  function HelperContext(c: Context, h: Helper): Context {
    Context(h.tokens, c.scope, map[], c.depth + 1)
  }

  ghost function ReadBody(c: Context, ls: map<Name, Tree>, s: Cursor): (r: Reading<TreeAt>)
    requires c.depth <= MAX_INLINE_DEPTH
    decreases MAX_INLINE_DEPTH - c.depth, |c.tokens|, 7
  {
    var p := ReadExpr(c, ls, Fresh(s));
    if p.result.Ok? && p.result.value.at.i < |c.tokens| then Stopped(p.powers, BodyLeft) else p
  }

  /** Back at the call: the caller's position, the flag, the body's collectors. */
  function Returned(body: Reading<TreeAt>, i: nat, rowOk: bool): Reading<TreeAt> {
    if body.result.Err? then body
    else
      var t := body.result.value.at;
      Reading(body.powers,
              Ok(TreeAt(body.result.value.node, Cursor(i, rowOk && t.rowOk, t.atoms, t.unresolved))))
  }

  ghost function ReadInline(c: Context, ls: map<Name, Tree>, s: Cursor, h: Helper): (r: Reading<TreeAt>)
    requires Ready(c, s)
    ensures r.result.Ok? ==> s.i <= r.result.value.at.i <= |c.tokens|
    decreases MAX_INLINE_DEPTH - c.depth, |c.tokens| - s.i, 5
  {
    if c.depth >= MAX_INLINE_DEPTH then Stopped([], TooDeep)
    else
      var args := ReadArguments(c, ls, s, |h.params|);
      if args.result.Err? then Stopped(args.powers, args.result.error)
      else
        var at := args.result.value.1;
        var body := ReadBody(HelperContext(c, h), BindTrees(h.params, args.result.value.0), at);
        Behind(args.powers, Returned(body, at.i, at.rowOk))
  }

  ghost function ReadInlineCarrier(c: Context, s: Cursor, h: CarrierHelper): (r: Reading<TreeAt>)
    requires Ready(c, s)
    ensures r.result.Ok? ==> s.i <= r.result.value.at.i <= |c.tokens|
    decreases MAX_INLINE_DEPTH - c.depth, |c.tokens| - s.i, 5
  {
    if c.depth >= MAX_INLINE_DEPTH then Stopped([], TooDeep)
    else
      match BindCarriers(c, s.i, h.binders, map[], None)
      case Err(e) => Stopped([], e)
      case Ok(b) =>
        var body := ReadBody(CarrierContext(c, h, b), map[], s);
        if body.result.Err? then body
        else
          var t := body.result.value.at;
          Reading(body.powers, Ok(TreeAt(body.result.value.node, Cursor(b.i, s.rowOk, t.atoms, t.unresolved))))
  }
}
