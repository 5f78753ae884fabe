/** The clause grammar: what the recursive descent computes, as functions of the read-only
    context and a cursor. Every function terminates on every token list and every helper
    table, by remaining inline depth, then unread tokens, then grammar level. */
module MirrorGrammar {
  import opened Results
  import Modular
  import opened Atoms
  import opened Expressions
  import opened Lanes

  const MAX_INLINE_DEPTH: nat := 8

  // ----- tokens and names

  /** A dotted identifier, split at its dots. */
  datatype Name = Name(head: string, path: seq<string>)

  datatype Token = Op(text: string) | Num(value: nat) | Ident(name: Name)

  /** `BOOL_COERCIONS` */
  const BOOL_COERCIONS: set<Name> := {Name("boolF", [])}

  /** `ASCRIPTION_TYPES` */
  const ASCRIPTION_TYPES: set<Name> := {Name("FGL", []), Name("F", []), Name("\U{2115}", []), Name("Nat", [])}

  function Dotted(path: seq<string>): string {
    if path == [] then "" else if |path| == 1 then path[0] else path[0] + "." + Dotted(path[1..])
  }

  // ----- context

  datatype Kind = Row | Validator | Segcols | Index | OtherCarrier

  /** A binder; `indexed` lists the fields of a mixed-arity schema that take a row. */
  datatype Binder = Binder(name: string, kind: Kind, indexed: set<string>)

  datatype Helper = Helper(params: seq<Name>, tokens: seq<Token>)
  datatype CarrierHelper = CarrierHelper(binders: seq<Binder>, tokens: seq<Token>)

  /** What stays fixed while one clause is parsed. `spellings` gives the lane names a field
      leaf may spell, in the declared order, per binder kind (schema or not). */
  datatype Scope = Scope(binders: map<string, Binder>, rowDeltas: map<string, int>, index: Option<Name>,
                         helpers: map<Name, Helper>, carrierHelpers: map<Name, CarrierHelper>,
                         lanes: Option<LaneMap>, challenges: seq<nat>, spellings: map<(bool, string), seq<string>>)

  datatype Context = Context(tokens: seq<Token>, scope: Scope, locals: map<Name, Expr>, depth: nat)

  /** What a parser changes: its position, the row-relation flag, and the collectors. */
  datatype Cursor = Cursor(i: nat, rowOk: bool, atoms: seq<Atom>, unresolved: seq<Atom>)

  datatype ParseError =
    | EndedEarly
    | ExpectedOp
    | NonConstantPower
    | BadAscription
    | UnexpectedToken
    | ArgumentMissing
    | BareArgument
    | UnexpectedArgument
    | ValProjection
    | BadRowArgument
    | BadRowOffset
    | TooDeep
    | BodyLeft
    | BareBinder
    | UnknownIdentifier
    | AmbiguousField
    | NotABareBinder
    | WrongBinder
    | NotALane

  datatype Parsed = Parsed(node: Expr, at: Cursor)
  type Outcome = Result<Parsed, ParseError>

  ghost predicate Ready(c: Context, s: Cursor) {
    s.i <= |c.tokens| && c.depth <= MAX_INLINE_DEPTH
  }

  ghost predicate Past(c: Context, s: Cursor, t: Cursor) {
    s.i < t.i <= |c.tokens|
  }

  predicate AtOp(c: Context, s: Cursor, text: string) {
    s.i < |c.tokens| && c.tokens[s.i] == Op(text)
  }

  function Skip(s: Cursor): Cursor {
    s.(i := s.i + 1)
  }

  // ----- expressions

  /** `^` folds two constants and refuses anything else. A constant node is never negative:
      numerals are not, and a unary minus makes a negation node. */
  ghost function Raised(base: Parsed, exponent: Parsed): (r: Outcome)
    ensures r.Ok? ==> r.value.at == exponent.at
  {
    if base.node.Const? && exponent.node.Const? && base.node.n >= 0 && exponent.node.n >= 0
    then Ok(Parsed(Const(Modular.Pow(base.node.n, exponent.node.n)), exponent.at))
    else Err(NonConstantPower)
  }

  /** An optional `: type`, dropped when the type is one of the declared ones. */
  ghost function ParseAscription(c: Context, s: Cursor): (r: Result<Cursor, ParseError>)
    requires Ready(c, s)
    ensures r.Ok? ==> s.i <= r.value.i <= |c.tokens|
  {
    if !AtOp(c, s, ":") then Ok(s)
    else if s.i + 1 == |c.tokens| then Err(EndedEarly)
    else if !(c.tokens[s.i + 1].Ident? && c.tokens[s.i + 1].name in ASCRIPTION_TYPES) then Err(BadAscription)
    else Ok(Skip(Skip(s)))
  }

  ghost function ParseExpr(c: Context, s: Cursor): (r: Outcome)
    requires Ready(c, s)
    ensures r.Ok? ==> Past(c, s, r.value.at)
    decreases MAX_INLINE_DEPTH - c.depth, |c.tokens| - s.i, 6
  {
    var p :- ParseTerm(c, s);
    ExprTail(c, p.node, p.at)
  }

  ghost function ExprTail(c: Context, node: Expr, s: Cursor): (r: Outcome)
    requires Ready(c, s)
    ensures r.Ok? ==> s.i <= r.value.at.i <= |c.tokens|
    decreases MAX_INLINE_DEPTH - c.depth, |c.tokens| - s.i, 6
  {
    if AtOp(c, s, "+") then
      var p :- ParseTerm(c, Skip(s));
      ExprTail(c, Add(node, p.node), p.at)
    else if AtOp(c, s, "-") then
      var p :- ParseTerm(c, Skip(s));
      ExprTail(c, Sub(node, p.node), p.at)
    else
      Ok(Parsed(node, s))
  }

  ghost function ParseTerm(c: Context, s: Cursor): (r: Outcome)
    requires Ready(c, s)
    ensures r.Ok? ==> Past(c, s, r.value.at)
    decreases MAX_INLINE_DEPTH - c.depth, |c.tokens| - s.i, 5
  {
    var p :- ParseUnary(c, s);
    TermTail(c, p.node, p.at)
  }

  ghost function TermTail(c: Context, node: Expr, s: Cursor): (r: Outcome)
    requires Ready(c, s)
    ensures r.Ok? ==> s.i <= r.value.at.i <= |c.tokens|
    decreases MAX_INLINE_DEPTH - c.depth, |c.tokens| - s.i, 5
  {
    if AtOp(c, s, "*") then
      var p :- ParseUnary(c, Skip(s));
      TermTail(c, Mul(node, p.node), p.at)
    else
      Ok(Parsed(node, s))
  }

  ghost function ParseUnary(c: Context, s: Cursor): (r: Outcome)
    requires Ready(c, s)
    ensures r.Ok? ==> Past(c, s, r.value.at)
    decreases MAX_INLINE_DEPTH - c.depth, |c.tokens| - s.i, 4
  {
    if AtOp(c, s, "-") then
      var p :- ParseUnary(c, Skip(s));
      Ok(Parsed(Neg(p.node), p.at))
    else
      ParsePower(c, s)
  }

  ghost function ParsePower(c: Context, s: Cursor): (r: Outcome)
    requires Ready(c, s)
    ensures r.Ok? ==> Past(c, s, r.value.at)
    decreases MAX_INLINE_DEPTH - c.depth, |c.tokens| - s.i, 3
  {
    var base :- ParsePrimary(c, s);
    if !AtOp(c, base.at, "^") then Ok(base)
    else
      var exponent :- ParsePower(c, Skip(base.at));
      Raised(base, exponent)
  }

  ghost function ParsePrimary(c: Context, s: Cursor): (r: Outcome)
    requires Ready(c, s)
    ensures r.Ok? ==> Past(c, s, r.value.at)
    decreases MAX_INLINE_DEPTH - c.depth, |c.tokens| - s.i, 2
  {
    if s.i == |c.tokens| then Err(EndedEarly)
    else
      match c.tokens[s.i]
      case Num(n) => Ok(Parsed(Const(n), Skip(s)))
      case Ident(_) => ParseApplication(c, s)
      case Op(text) =>
        if text == "(" then
          var inner :- ParseExpr(c, Skip(s));
          var at :- ParseAscription(c, inner.at);
          if at.i == |c.tokens| then Err(EndedEarly)
          else if c.tokens[at.i] != Op(")") then Err(ExpectedOp)
          else Ok(Parsed(inner.node, Skip(at)))
        else Err(UnexpectedToken)
  }

  /** One application argument: parenthesised, a numeral, or a leaf without arguments. */
  ghost function ParseArgument(c: Context, s: Cursor): (r: Outcome)
    requires Ready(c, s)
    ensures r.Ok? ==> Past(c, s, r.value.at)
    decreases MAX_INLINE_DEPTH - c.depth, |c.tokens| - s.i, 3
  {
    if s.i == |c.tokens| then Err(ArgumentMissing)
    else
      match c.tokens[s.i]
      case Num(n) => Ok(Parsed(Const(n), Skip(s)))
      case Op(text) => if text == "(" then ParsePrimary(c, s) else Err(UnexpectedArgument)
      case Ident(name) =>
        if name.path != [] || name in c.locals then ParseApplication(c, s) else Err(BareArgument)
  }

  ghost function ParseApplication(c: Context, s: Cursor): (r: Outcome)
    requires Ready(c, s) && s.i < |c.tokens| && c.tokens[s.i].Ident?
    ensures r.Ok? ==> Past(c, s, r.value.at)
    decreases MAX_INLINE_DEPTH - c.depth, |c.tokens| - s.i, 1
  {
    var name := c.tokens[s.i].name;
    if name.head in c.scope.binders && name.path != [] then
      ParseProjection(c, Skip(s), c.scope.binders[name.head], name.path)
    else if name in c.locals then
      Ok(Parsed(c.locals[name], Skip(s)))
    else if name in BOOL_COERCIONS then
      ParseArgument(c, Skip(s))
    else if name in c.scope.helpers then
      Inline(c, Skip(s), c.scope.helpers[name])
    else if name in c.scope.carrierHelpers then
      InlineCarrier(c, Skip(s), c.scope.carrierHelpers[name])
    else if name.head in c.scope.binders then
      Err(BareBinder)
    else
      Err(UnknownIdentifier)
  }

  // ----- inlining

  /** The arguments of a helper, one per parameter. */
  ghost function ParseArguments(c: Context, s: Cursor, n: nat): (r: Result<(seq<Expr>, Cursor), ParseError>)
    requires Ready(c, s)
    ensures r.Ok? ==> |r.value.0| == n && s.i <= r.value.1.i <= |c.tokens|
    decreases MAX_INLINE_DEPTH - c.depth, |c.tokens| - s.i, 4, n
  {
    if n == 0 then Ok(([], s))
    else
      var p :- ParseArgument(c, s);
      var rest :- ParseArguments(c, p.at, n - 1);
      Ok(([p.node] + rest.0, rest.1))
  }

  /** `dict(zip(params, args))`: of two equal names the later one wins. */
  function Bind(params: seq<Name>, args: seq<Expr>): map<Name, Expr>
    requires |params| == |args|
  {
    if params == [] then map[]
    else Bind(params[..|params| - 1], args[..|args| - 1])[params[|params| - 1] := args[|args| - 1]]
  }

  function InnerContext(c: Context, h: Helper, args: seq<Expr>): Context
    requires |h.params| == |args|
  {
    Context(h.tokens, c.scope, Bind(h.params, args), c.depth + 1)
  }

  /** The body is read from its start with a fresh row-relation flag and the shared
      collectors. */
  function Fresh(s: Cursor): Cursor {
    Cursor(0, true, s.atoms, s.unresolved)
  }

  /** The body must be read to its end. */
  ghost function ParseBody(c: Context, s: Cursor): (r: Outcome)
    requires c.depth <= MAX_INLINE_DEPTH
    decreases MAX_INLINE_DEPTH - c.depth, |c.tokens|, 7
  {
    var p :- ParseExpr(c, Fresh(s));
    if p.at.i < |c.tokens| then Err(BodyLeft) else Ok(p)
  }

  ghost function Inline(c: Context, s: Cursor, h: Helper): (r: Outcome)
    requires Ready(c, s)
    ensures r.Ok? ==> s.i <= r.value.at.i <= |c.tokens|
    decreases MAX_INLINE_DEPTH - c.depth, |c.tokens| - s.i, 5
  {
    if c.depth >= MAX_INLINE_DEPTH then Err(TooDeep)
    else
      var args :- ParseArguments(c, s, |h.params|);
      var body :- ParseBody(InnerContext(c, h, args.0), args.1);
      Ok(Parsed(body.node, Cursor(args.1.i, args.1.rowOk && body.at.rowOk, body.at.atoms, body.at.unresolved)))
  }

  datatype Bound = Bound(binders: map<string, Binder>, index: Option<Name>, i: nat)

  /** A carrier helper's arguments: bare binders of the parameters' kinds. */
  ghost function BindCarriers(c: Context, i: nat, params: seq<Binder>, binders: map<string, Binder>,
                              index: Option<Name>)
    : (r: Result<Bound, ParseError>)
    requires i <= |c.tokens|
    ensures r.Ok? ==> i <= r.value.i <= |c.tokens|
    decreases |params|
  {
    if params == [] then Ok(Bound(binders, index, i))
    else if i == |c.tokens| then Err(EndedEarly)
    else if !c.tokens[i].Ident? then Err(NotABareBinder)
    else
      var name, param := c.tokens[i].name, params[0];
      if param.kind == Index then
        if Some(name) != c.scope.index then Err(BadRowArgument)
        else BindCarriers(c, i + 1, params[1..], binders, Some(Name(param.name, [])))
      else if !(name.path == [] && name.head in c.scope.binders && c.scope.binders[name.head].kind == param.kind) then
        Err(WrongBinder)
      else
        BindCarriers(c, i + 1, params[1..], binders[param.name := param], index)
  }

  function CarrierContext(c: Context, h: CarrierHelper, b: Bound): Context {
    Context(h.tokens, c.scope.(binders := b.binders, rowDeltas := map[], index := b.index), map[], c.depth + 1)
  }

  ghost function InlineCarrier(c: Context, s: Cursor, h: CarrierHelper): (r: Outcome)
    requires Ready(c, s)
    ensures r.Ok? ==> s.i <= r.value.at.i <= |c.tokens|
    decreases MAX_INLINE_DEPTH - c.depth, |c.tokens| - s.i, 5
  {
    if c.depth >= MAX_INLINE_DEPTH then Err(TooDeep)
    else
      var b :- BindCarriers(c, s.i, h.binders, map[], None);
      var body :- ParseBody(CarrierContext(c, h, b), s);
      Ok(Parsed(body.node, Cursor(b.i, s.rowOk, body.at.atoms, body.at.unresolved)))
  }

  // ----- projections

  /** The row argument of an accessor, as a signed delta. */
  ghost function ParseRowIndex(c: Context, i: nat): (r: Result<(int, nat), ParseError>)
    requires i <= |c.tokens|
    ensures r.Ok? ==> i <= r.value.1 <= |c.tokens|
  {
    if i == |c.tokens| then Err(EndedEarly)
    else
      match c.tokens[i]
      case Ident(name) => if Some(name) != c.scope.index then Err(BadRowArgument) else Ok((0, i + 1))
      case Num(_) => Err(BadRowArgument)
      case Op(text) =>
        if text != "(" then Err(BadRowArgument)
        else if i + 1 >= |c.tokens| then Err(EndedEarly)
        else if !(c.tokens[i + 1].Ident? && Some(c.tokens[i + 1].name) == c.scope.index) then Err(BadRowArgument)
        else if i + 2 >= |c.tokens| then Err(EndedEarly)
        else if !(c.tokens[i + 2] == Op("+") || c.tokens[i + 2] == Op("-")) then Err(BadRowOffset)
        else if i + 3 >= |c.tokens| then Err(EndedEarly)
        else if !c.tokens[i + 3].Num? then Err(BadRowOffset)
        else if i + 4 >= |c.tokens| then Err(EndedEarly)
        else if c.tokens[i + 4] != Op(")") then Err(ExpectedOp)
        else
          var offset: int := c.tokens[i + 3].value;
          Ok((if c.tokens[i + 2] == Op("+") then offset else -offset, i + 5))
  }

  function Spellings(scope: Scope, b: Binder, leaf: string): seq<string> {
    var key := (b.kind == Segcols, leaf);
    if key in scope.spellings then scope.spellings[key] else [leaf]
  }

  /** The lanes the spellings resolve to, in order. */
  function Hits(m: LaneMap, spellings: seq<string>): seq<Lane> {
    if spellings == [] then []
    else
      Hits(m, spellings[..|spellings| - 1]) +
      (match Resolve(m, spellings[|spellings| - 1]) case Ok(lane) => [lane] case Err(_) => [])
  }

  function Marker(s: Cursor, b: Binder, path: seq<string>, delta: int): Parsed {
    var atom := Unresolved(b.name, Dotted(path), delta);
    Parsed(Var(atom), s.(unresolved := s.unresolved + [atom]))
  }

  /** `_resolve`: one projection as a lane atom, or as a reported marker. */
  function ResolveField(scope: Scope, s: Cursor, b: Binder, path: seq<string>, delta: int): (r: Outcome)
    requires path != []
    ensures r.Ok? ==> r.value.at.i == s.i
  {
    if !(b.kind == Row || b.kind == Validator || b.kind == Segcols) || !s.rowOk || scope.lanes.None? then
      Ok(Marker(s, b, path, delta))
    else
      var hits := Hits(scope.lanes.value, Spellings(scope, b, path[|path| - 1]));
      if |hits| > 1 then Err(AmbiguousField)
      else if hits == [] then Ok(Marker(s, b, path, delta))
      else
        match AccessorAtom(scope.challenges, hits[0], delta)
        case Err(_) => Err(NotALane)
        case Ok(atom) => Ok(Parsed(Var(atom), s.(atoms := s.atoms + [atom])))
  }

  ghost function ParseProjection(c: Context, s: Cursor, b: Binder, path: seq<string>): (r: Outcome)
    requires Ready(c, s) && path != []
    ensures r.Ok? ==> s.i <= r.value.at.i <= |c.tokens|
  {
    if path[|path| - 1] == "val" then Err(ValProjection)
    else if b.kind == Validator || (b.kind == Segcols && path[0] in b.indexed) then
      var row :- ParseRowIndex(c, s.i);
      ResolveField(c.scope, s.(i := row.1), b, path, row.0)
    else if b.kind == Row then
      if b.name in c.scope.rowDeltas then ResolveField(c.scope, s, b, path, c.scope.rowDeltas[b.name])
      else ResolveField(c.scope, s.(rowOk := false), b, path, 0)
    else
      ResolveField(c.scope, s, b, path, 0)
  }
}
