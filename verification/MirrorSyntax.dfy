/** The language of the clause grammar: syntax trees, the tokens they are written with, and
    what they mean. The parser accepts exactly this language and computes that meaning; the
    two directions are in `MirrorSound` and `MirrorComplete`. */
module MirrorSyntax {
  import opened Results
  import Modular
  import opened Expressions
  import opened MirrorGrammar
  import opened MirrorInlining
  import opened MirrorCarriers

  /** A way of writing an expression. A field has its row argument, if any, and its row. */
  datatype Syntax =
    | SNum(n: nat)
    | SField(name: Name, row: seq<Token>, delta: int)
    | SLocal(name: Name)
    | SCoerced(name: Name, arg: Syntax)
    | SCall(name: Name, args: seq<Syntax>)
    | SCarrier(name: Name, binders: seq<Name>)
    | SParen(inner: Syntax, ty: Option<Name>)
    | SPow(base: Syntax, exponent: Syntax)
    | SNeg(arg: Syntax)
    | SMul(left: Syntax, right: Syntax)
    | SAdd(left: Syntax, right: Syntax)
    | SSub(left: Syntax, right: Syntax)

  /** How tightly a tree binds: sums, products, negations, powers, everything else. */
  function Tightness(x: Syntax): nat {
    match x
    case SAdd(_, _) => 0
    case SSub(_, _) => 0
    case SMul(_, _) => 1
    case SNeg(_) => 2
    case SPow(_, _) => 3
    case _ => 4
  }

  // ----- how a tree is written

  function Idents(names: seq<Name>): (r: seq<Token>)
    ensures |r| == |names| && forall k :: 0 <= k < |r| ==> r[k] == Ident(names[k])
  {
    seq(|names|, k requires 0 <= k < |names| => Ident(names[k]))
  }

  function Written(x: Syntax): (r: seq<Token>)
    decreases x, 1
  {
    match x
    case SNum(n) => [Num(n)]
    case SField(name, row, _) => [Ident(name)] + row
    case SLocal(name) => [Ident(name)]
    case SCoerced(name, arg) => [Ident(name)] + Written(arg)
    case SCall(name, args) => [Ident(name)] + WrittenArgs(x, 0)
    case SCarrier(name, binders) => [Ident(name)] + Idents(binders)
    case SParen(inner, None) => [Op("(")] + Written(inner) + [Op(")")]
    case SParen(inner, Some(ty)) => [Op("(")] + Written(inner) + [Op(":"), Ident(ty), Op(")")]
    case SPow(base, exponent) => Written(base) + [Op("^")] + Written(exponent)
    case SNeg(arg) => [Op("-")] + Written(arg)
    case SMul(left, right) => Written(left) + [Op("*")] + Written(right)
    case SAdd(left, right) => Written(left) + [Op("+")] + Written(right)
    case SSub(left, right) => Written(left) + [Op("-")] + Written(right)
  }

  /** The arguments of a call from the k-th on. */
  function WrittenArgs(x: Syntax, k: nat): seq<Token>
    requires x.SCall? && k <= |x.args|
    decreases x, 0, |x.args| - k
  {
    if k == |x.args| then [] else Written(x.args[k]) + WrittenArgs(x, k + 1)
  }

  // ----- which trees there are

  /** The row argument of a field: the index, or the index with an offset in parentheses. */
  ghost predicate RowWritten(scope: Scope, row: seq<Token>, delta: int) {
    && scope.index.Some?
    && var index := Ident(scope.index.value);
       || (row == [index] && delta == 0)
       || (delta >= 0 && row == [Op("("), index, Op("+"), Num(delta), Op(")")])
       || (delta <= 0 && row == [Op("("), index, Op("-"), Num(-delta), Op(")")])
  }

  /** Fields of accessor records, and indexed fields of schemas, take a row argument. */
  predicate TakesRow(b: Binder, field: string) {
    b.kind == Validator || (b.kind == Segcols && field in b.indexed)
  }

  predicate IsField(c: Context, name: Name) {
    name.head in c.scope.binders && name.path != []
  }

  /** A field of a binder, other than its `.val`, read at the row it states or, for a row
      record, at the record's. */
  ghost predicate FieldFormed(c: Context, name: Name, row: seq<Token>, delta: int) {
    && IsField(c, name) && name.path[|name.path| - 1] != "val"
    && var b := c.scope.binders[name.head];
       if TakesRow(b, name.path[0]) then RowWritten(c.scope, row, delta)
       else row == [] && delta == if b.kind == Row && b.name in c.scope.rowDeltas then c.scope.rowDeltas[b.name] else 0
  }

  /** A name that is neither a field nor a parameter of the helper being read. */
  predicate IsOuter(c: Context, name: Name) {
    !IsField(c, name) && name !in c.locals
  }

  predicate IsBoolF(name: Name) {
    name == Name("boolF", [])
  }

  /** What may stand as an argument without parentheses: a numeral, or an application of a
      dotted name or of a parameter. */
  predicate IsArgument(c: Context, x: Syntax) {
    match x
    case SNum(_) => true
    case SParen(_, _) => true
    case SField(name, _, _) => true
    case SLocal(name) => true
    case SCoerced(name, _) => name.path != []
    case SCall(name, _) => name.path != []
    case SCarrier(name, _) => name.path != []
    case _ => false
  }

  predicate IsType(ty: Name) {
    ty.path == [] && (ty.head == "FGL" || ty.head == "F" || ty.head == "\U{2115}" || ty.head == "Nat")
  }

  ghost predicate Formed(c: Context, x: Syntax) {
    match x
    case SNum(_) => true
    case SField(name, row, delta) => FieldFormed(c, name, row, delta)
    case SLocal(name) => !IsField(c, name) && name in c.locals
    case SCoerced(name, arg) => IsOuter(c, name) && IsBoolF(name) && IsArgument(c, arg) && Formed(c, arg)
    case SCall(name, args) =>
      && IsOuter(c, name) && !IsBoolF(name) && name in c.scope.helpers && c.depth < 8
      && |args| == |c.scope.helpers[name].params|
      && forall k :: 0 <= k < |args| ==> IsArgument(c, args[k]) && Formed(c, args[k])
    case SCarrier(name, binders) =>
      && IsOuter(c, name) && !IsBoolF(name) && name !in c.scope.helpers && name in c.scope.carrierHelpers && c.depth < 8
      && |binders| == |c.scope.carrierHelpers[name].binders|
      && forall k :: 0 <= k < |binders| ==> Fits(c, Ident(binders[k]), c.scope.carrierHelpers[name].binders[k])
    case SParen(inner, ty) => Formed(c, inner) && (ty.Some? ==> IsType(ty.value))
    case SPow(base, exponent) =>
      Formed(c, base) && Formed(c, exponent) && Tightness(base) == 4 && Tightness(exponent) >= 3
    case SNeg(arg) => Formed(c, arg) && Tightness(arg) >= 2
    case SMul(left, right) => Formed(c, left) && Formed(c, right) && Tightness(left) >= 1 && Tightness(right) >= 2
    case SAdd(left, right) => Formed(c, left) && Formed(c, right) && Tightness(right) >= 1
    case SSub(left, right) => Formed(c, left) && Formed(c, right) && Tightness(right) >= 1
  }

  // ----- what a tree means

  ghost function FieldMeans(c: Context, name: Name, delta: int, s: Cursor): (r: Outcome)
    requires IsField(c, name)
    ensures r.Ok? ==> r.value.at.i == s.i
  {
    var b := c.scope.binders[name.head];
    var unknown := b.kind == Row && b.name !in c.scope.rowDeltas;
    ResolveField(c.scope, if unknown then s.(rowOk := false) else s, b, name.path, delta)
  }

  /** A power of two numerals is the numeral it comes to; any other is refused. */
  ghost function PowerMeans(base: Expr, exponent: Parsed): (r: Outcome)
    ensures r.Ok? ==> r.value.at == exponent.at
  {
    if base.Const? && exponent.node.Const? && base.n >= 0 && exponent.node.n >= 0
    then Ok(Parsed(Const(Modular.Pow(base.n, exponent.node.n)), exponent.at))
    else Err(NonConstantPower)
  }

  /** The node, and what reading the tree does to the flag and the collectors, left to right.
      The position plays no part. A helper's body is read with its parameters bound to the
      meanings of the arguments, and a fresh flag. */
  ghost function Means(c: Context, x: Syntax, s: Cursor): (r: Outcome)
    requires Formed(c, x) && c.depth <= MAX_INLINE_DEPTH
    ensures r.Ok? ==> r.value.at.i == s.i
    decreases x, 1
  {
    match x
    case SNum(n) => Ok(Parsed(Const(n), s))
    case SField(name, _, delta) => FieldMeans(c, name, delta, s)
    case SLocal(name) => Ok(Parsed(c.locals[name], s))
    case SCoerced(_, arg) => Means(c, arg, s)
    case SCall(name, args) =>
      var h := c.scope.helpers[name];
      var read :- MeansArgs(c, x, 0, s);
      var body :- ParseBody(Context(h.tokens, c.scope, Bind(h.params, read.0), c.depth + 1), read.1);
      Ok(Parsed(body.node, Cursor(s.i, read.1.rowOk && body.at.rowOk, body.at.atoms, body.at.unresolved)))
    case SCarrier(name, _) =>
      var h := c.scope.carrierHelpers[name];
      var body :- ParseBody(Context(h.tokens, BodyScope(c.scope, h), map[], c.depth + 1), s);
      Ok(Parsed(body.node, Cursor(s.i, s.rowOk, body.at.atoms, body.at.unresolved)))
    case SParen(inner, _) => Means(c, inner, s)
    case SPow(base, exponent) =>
      var b :- Means(c, base, s);
      var e :- Means(c, exponent, b.at);
      PowerMeans(b.node, e)
    case SNeg(arg) =>
      var a :- Means(c, arg, s);
      Ok(Parsed(Neg(a.node), a.at))
    case SMul(left, right) =>
      var a :- Means(c, left, s);
      var b :- Means(c, right, a.at);
      Ok(Parsed(Mul(a.node, b.node), b.at))
    case SAdd(left, right) =>
      var a :- Means(c, left, s);
      var b :- Means(c, right, a.at);
      Ok(Parsed(Add(a.node, b.node), b.at))
    case SSub(left, right) =>
      var a :- Means(c, left, s);
      var b :- Means(c, right, a.at);
      Ok(Parsed(Sub(a.node, b.node), b.at))
  }

  ghost function MeansArgs(c: Context, x: Syntax, k: nat, s: Cursor): (r: Result<(seq<Expr>, Cursor), ParseError>)
    requires x.SCall? && Formed(c, x) && k <= |x.args| && c.depth <= MAX_INLINE_DEPTH
    ensures r.Ok? ==> |r.value.0| == |x.args| - k && r.value.1.i == s.i
    decreases x, 0, |x.args| - k
  {
    if k == |x.args| then Ok(([], s))
    else
      var p :- Means(c, x.args[k], s);
      var rest :- MeansArgs(c, x, k + 1, p.at);
      Ok(([p.node] + rest.0, rest.1))
  }

  // ----- the reading of a part of the tokens

  function Still(s: Cursor): Cursor {
    s.(i := 0)
  }

  /** Between the positions of s and t stands the tree, and reading it gives the node and
      takes the flag and the collectors from s to t. */
  ghost predicate Reading(c: Context, s: Cursor, x: Syntax, level: nat, node: Expr, t: Cursor) {
    && c.depth <= MAX_INLINE_DEPTH && Formed(c, x) && Tightness(x) >= level
    && s.i <= t.i <= |c.tokens| && Written(x) == c.tokens[s.i..t.i]
    && Means(c, x, Still(s)) == Ok(Parsed(node, Still(t)))
  }
}
