/** `_ExprParser`: the recursive descent that moves a cursor over the tokens and appends to
    collectors shared with every helper body it inlines. */
module MirrorParser {
  import opened Results
  import Modular
  import opened Atoms
  import opened Expressions
  import opened Lanes
  import opened MirrorGrammar

  /** The lists the contexts of one clause share. */
  class Collectors {
    var atoms: seq<Atom>
    var unresolved: seq<Atom>

    constructor ()
      ensures atoms == [] && unresolved == []
    {
      atoms, unresolved := [], [];
    }
  }

  class ExprParser {
    const c: Context
    const out: Collectors
    var i: nat
    var rowOk: bool

    constructor (context: Context, collectors: Collectors, ok: bool)
      ensures c == context && out == collectors && i == 0 && rowOk == ok
    {
      c, out, i, rowOk := context, collectors, 0, ok;
    }

    ghost function At(): Cursor
      reads this, out
    {
      Cursor(i, rowOk, out.atoms, out.unresolved)
    }

    /** The method did what the grammar says; after an error the state is of no account. */
    ghost predicate Agrees(r: Result<Expr, ParseError>, spec: Outcome)
      reads this, out
    {
      match spec
      case Ok(p) => r == Ok(p.node) && At() == p.at
      case Err(e) => r == Err(e)
    }

    predicate SeesOp(text: string)
      reads this
    {
      i < |c.tokens| && c.tokens[i] == Op(text)
    }

    method Expression() returns (r: Result<Expr, ParseError>)
      requires Ready(c, At())
      modifies this, out
      ensures Agrees(r, ParseExpr(c, old(At())))
      decreases MAX_INLINE_DEPTH - c.depth, |c.tokens| - i, 6
    {
      ghost var start := At();
      var node :- Term();
      while SeesOp("+") || SeesOp("-")
        invariant Ready(c, At()) && i > start.i
        invariant ParseExpr(c, start) == ExprTail(c, node, At())
        decreases |c.tokens| - i
      {
        var plus := SeesOp("+");
        i := i + 1;
        var rhs :- Term();
        node := if plus then Add(node, rhs) else Sub(node, rhs);
      }
      r := Ok(node);
    }

    method Term() returns (r: Result<Expr, ParseError>)
      requires Ready(c, At())
      modifies this, out
      ensures Agrees(r, ParseTerm(c, old(At())))
      decreases MAX_INLINE_DEPTH - c.depth, |c.tokens| - i, 5
    {
      ghost var start := At();
      var node :- Unary();
      while SeesOp("*")
        invariant Ready(c, At()) && i > start.i
        invariant ParseTerm(c, start) == TermTail(c, node, At())
        decreases |c.tokens| - i
      {
        i := i + 1;
        var rhs :- Unary();
        node := Mul(node, rhs);
      }
      r := Ok(node);
    }

    method Unary() returns (r: Result<Expr, ParseError>)
      requires Ready(c, At())
      modifies this, out
      ensures Agrees(r, ParseUnary(c, old(At())))
      decreases MAX_INLINE_DEPTH - c.depth, |c.tokens| - i, 4
    {
      if SeesOp("-") {
        i := i + 1;
        var node :- Unary();
        return Ok(Neg(node));
      }
      r := Powers();
    }

    method Powers() returns (r: Result<Expr, ParseError>)
      requires Ready(c, At())
      modifies this, out
      ensures Agrees(r, ParsePower(c, old(At())))
      decreases MAX_INLINE_DEPTH - c.depth, |c.tokens| - i, 3
    {
      var base :- Primary();
      if !SeesOp("^") { return Ok(base); }
      i := i + 1;
      var exponent :- Powers();
      if !(base.Const? && exponent.Const? && base.n >= 0 && exponent.n >= 0) { return Err(NonConstantPower); }
      r := Ok(Const(Modular.Pow(base.n, exponent.n)));
    }

    method Primary() returns (r: Result<Expr, ParseError>)
      requires Ready(c, At())
      modifies this, out
      ensures Agrees(r, ParsePrimary(c, old(At())))
      decreases MAX_INLINE_DEPTH - c.depth, |c.tokens| - i, 2
    {
      if i == |c.tokens| { return Err(EndedEarly); }
      match c.tokens[i] {
        case Num(n) =>
          i := i + 1;
          r := Ok(Const(n));
        case Ident(_) =>
          r := Application();
        case Op(text) =>
          if text != "(" { return Err(UnexpectedToken); }
          i := i + 1;
          var inner :- Expression();
          if SeesOp(":") {
            i := i + 1;
            if i == |c.tokens| { return Err(EndedEarly); }
            if !(c.tokens[i].Ident? && c.tokens[i].name in ASCRIPTION_TYPES) { return Err(BadAscription); }
            i := i + 1;
          }
          if i == |c.tokens| { return Err(EndedEarly); }
          if c.tokens[i] != Op(")") { return Err(ExpectedOp); }
          i := i + 1;
          r := Ok(inner);
      }
    }

    method Argument() returns (r: Result<Expr, ParseError>)
      requires Ready(c, At())
      modifies this, out
      ensures Agrees(r, ParseArgument(c, old(At())))
      decreases MAX_INLINE_DEPTH - c.depth, |c.tokens| - i, 3
    {
      if i == |c.tokens| { return Err(ArgumentMissing); }
      match c.tokens[i] {
        case Num(n) =>
          i := i + 1;
          r := Ok(Const(n));
        case Op(text) =>
          if text != "(" { return Err(UnexpectedArgument); }
          r := Primary();
        case Ident(name) =>
          if !(name.path != [] || name in c.locals) { return Err(BareArgument); }
          r := Application();
      }
    }

    method Application() returns (r: Result<Expr, ParseError>)
      requires Ready(c, At()) && i < |c.tokens| && c.tokens[i].Ident?
      modifies this, out
      ensures Agrees(r, ParseApplication(c, old(At())))
      decreases MAX_INLINE_DEPTH - c.depth, |c.tokens| - i, 1
    {
      var name := c.tokens[i].name;
      i := i + 1;
      if name.head in c.scope.binders && name.path != [] {
        r := Projection(c.scope.binders[name.head], name.path);
      } else if name in c.locals {
        r := Ok(c.locals[name]);
      } else if name in BOOL_COERCIONS {
        r := Argument();
      } else if name in c.scope.helpers {
        r := InlineHelper(c.scope.helpers[name]);
      } else if name in c.scope.carrierHelpers {
        r := InlineCarrierHelper(c.scope.carrierHelpers[name]);
      } else if name.head in c.scope.binders {
        r := Err(BareBinder);
      } else {
        r := Err(UnknownIdentifier);
      }
    }

    /** `[self.argument() for _ in helper.params]` */
    method Arguments(n: nat) returns (r: Result<seq<Expr>, ParseError>)
      requires Ready(c, At())
      modifies this, out
      ensures match ParseArguments(c, old(At()), n)
              case Ok(p) => r == Ok(p.0) && At() == p.1
              case Err(e) => r == Err(e)
      decreases MAX_INLINE_DEPTH - c.depth, |c.tokens| - i, 4, n
    {
      if n == 0 { return Ok([]); }
      var first :- Argument();
      var rest :- Arguments(n - 1);
      r := Ok([first] + rest);
    }

    /** Reads a helper body to its end with a parser of its own. */
    method Body(context: Context) returns (r: Result<Expr, ParseError>, ok: bool)
      requires context.depth == c.depth + 1 <= MAX_INLINE_DEPTH
      modifies out
      ensures match ParseBody(context, old(At()))
              case Ok(p) => r == Ok(p.node) && ok == p.at.rowOk && out.atoms == p.at.atoms &&
                  out.unresolved == p.at.unresolved
              case Err(e) => r == Err(e)
      decreases MAX_INLINE_DEPTH - c.depth, 0, 0
    {
      var parser := new ExprParser(context, out, true);
      assert parser.At() == Fresh(At());
      r := parser.Expression();
      ok := parser.rowOk;
      if r.Ok? && parser.i < |context.tokens| { r := Err(BodyLeft); }
    }

    method InlineHelper(h: Helper) returns (r: Result<Expr, ParseError>)
      requires Ready(c, At())
      modifies this, out
      ensures Agrees(r, Inline(c, old(At()), h))
      decreases MAX_INLINE_DEPTH - c.depth, |c.tokens| - i, 5
    {
      if c.depth >= MAX_INLINE_DEPTH { return Err(TooDeep); }
      var args :- Arguments(|h.params|);
      var node, ok := Body(InnerContext(c, h, args));
      if node.Ok? { rowOk := rowOk && ok; }
      r := node;
    }

    method InlineCarrierHelper(h: CarrierHelper) returns (r: Result<Expr, ParseError>)
      requires Ready(c, At())
      modifies this, out
      ensures Agrees(r, InlineCarrier(c, old(At()), h))
      decreases MAX_INLINE_DEPTH - c.depth, |c.tokens| - i, 5
    {
      if c.depth >= MAX_INLINE_DEPTH { return Err(TooDeep); }
      var binders: map<string, Binder>, index: Option<Name> := map[], None;
      ghost var start := At();
      for k := 0 to |h.binders|
        invariant i <= |c.tokens| && At() == start.(i := i)
        invariant BindCarriers(c, start.i, h.binders, map[], None) == BindCarriers(c, i, h.binders[k..], binders, index)
      {
        var param := h.binders[k];
        if i == |c.tokens| { return Err(EndedEarly); }
        if !c.tokens[i].Ident? { return Err(NotABareBinder); }
        var name := c.tokens[i].name;
        assert h.binders[k..][1..] == h.binders[k + 1..];
        i := i + 1;
        if param.kind == Index {
          if Some(name) != c.scope.index { return Err(BadRowArgument); }
          index := Some(Name(param.name, []));
        } else {
          if !(name.path == [] && name.head in c.scope.binders && c.scope.binders[name.head].kind == param.kind) {
            return Err(WrongBinder);
          }
          binders := binders[param.name := param];
        }
      }
      var node, ok := Body(CarrierContext(c, h, Bound(binders, index, i)));
      r := node;
    }

    method RowIndex() returns (r: Result<int, ParseError>)
      requires Ready(c, At())
      modifies this
      ensures match ParseRowIndex(c, old(i))
              case Ok(p) => r == Ok(p.0) && At() == old(At()).(i := p.1)
              case Err(e) => r == Err(e)
    {
      if i == |c.tokens| { return Err(EndedEarly); }
      var token := c.tokens[i];
      i := i + 1;
      if token.Ident? {
        return if Some(token.name) == c.scope.index then Ok(0) else Err(BadRowArgument);
      }
      if token != Op("(") { return Err(BadRowArgument); }
      if i == |c.tokens| { return Err(EndedEarly); }
      if !(c.tokens[i].Ident? && Some(c.tokens[i].name) == c.scope.index) { return Err(BadRowArgument); }
      i := i + 1;
      if i == |c.tokens| { return Err(EndedEarly); }
      var sign := c.tokens[i];
      if !(sign == Op("+") || sign == Op("-")) { return Err(BadRowOffset); }
      i := i + 1;
      if i == |c.tokens| { return Err(EndedEarly); }
      if !c.tokens[i].Num? { return Err(BadRowOffset); }
      var offset: int := c.tokens[i].value;
      i := i + 1;
      if i == |c.tokens| { return Err(EndedEarly); }
      if c.tokens[i] != Op(")") { return Err(ExpectedOp); }
      i := i + 1;
      r := Ok(if sign == Op("+") then offset else -offset);
    }

    method Projection(b: Binder, path: seq<string>) returns (r: Result<Expr, ParseError>)
      requires Ready(c, At()) && path != []
      modifies this, out
      ensures Agrees(r, ParseProjection(c, old(At()), b, path))
    {
      if path[|path| - 1] == "val" { return Err(ValProjection); }
      var delta := 0;
      if b.kind == Validator || (b.kind == Segcols && path[0] in b.indexed) {
        delta :- RowIndex();
      } else if b.kind == Row {
        if b.name in c.scope.rowDeltas {
          delta := c.scope.rowDeltas[b.name];
        } else {
          rowOk := false;
        }
      }
      r := Field(b, path, delta);
    }

    /** `_resolve`, appending to the collectors. */
    method Field(b: Binder, path: seq<string>, delta: int) returns (r: Result<Expr, ParseError>)
      requires path != []
      modifies out
      ensures Agrees(r, ResolveField(c.scope, old(At()), b, path, delta))
    {
      var marker := Unresolved(b.name, Dotted(path), delta);
      if !(b.kind == Row || b.kind == Validator || b.kind == Segcols) || !rowOk || c.scope.lanes.None? {
        out.unresolved := out.unresolved + [marker];
        return Ok(Var(marker));
      }
      var spellings := Spellings(c.scope, b, path[|path| - 1]);
      var hits: seq<Lane> := [];
      for k := 0 to |spellings|
        invariant hits == Hits(c.scope.lanes.value, spellings[..k])
      {
        assert spellings[..k + 1][..k] == spellings[..k];
        var found := Resolve(c.scope.lanes.value, spellings[k]);
        if found.Ok? { hits := hits + [found.value]; }
      }
      assert spellings[..|spellings|] == spellings;
      if |hits| > 1 { return Err(AmbiguousField); }
      if hits == [] {
        out.unresolved := out.unresolved + [marker];
        return Ok(Var(marker));
      }
      var atom := AccessorAtom(c.scope.challenges, hits[0], delta);
      if atom.Err? { return Err(NotALane); }
      out.atoms := out.atoms + [atom.value];
      r := Ok(Var(atom.value));
    }
  }
}
