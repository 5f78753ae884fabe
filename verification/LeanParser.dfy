/** The fully parenthesised Lean rendering of a constraint: its parser, its printer, and the
    parenthesis accounting that fixes the grammar. */
module LeanParser {
  import opened Results
  import opened Slices
  import opened Atoms
  import opened Expressions

  datatype Token = Punct(mark: char) | Assign | Word(text: string) | Numeral(value: nat)

  datatype LeanError =
    | ExpectedToken
    | ExpectedExpression
    | ExpectedNumberOrParenthesis
    | UnknownAccessor
    | ExpectedOperator
    | NonZeroRotation
    | NotComparedToZero
    | TrailingTokens

  const MAIN := "Extraction.Circuit.main"
  const PRE := "Extraction.Circuit.preprocessed"
  const CHAL := "Extraction.Circuit.challenge"
  const EXPOSED := "Extraction.Circuit.exposed"

  predicate IsAccessorName(name: string) {
    name == MAIN || name == PRE || name == CHAL || name == EXPOSED
  }

  predicate IsOperator(t: Token) {
    t == Punct('+') || t == Punct('-') || t == Punct('*')
  }

  function Binary(op: Token, a: Expr, b: Expr): Expr {
    if op == Punct('+') then Add(a, b) else if op == Punct('-') then Sub(a, b) else Mul(a, b)
  }

  // ----- the grammar

  type Step<T> = Result<(T, nat), LeanError>

  function Take(ts: seq<Token>, i: nat, t: Token): Result<nat, LeanError> {
    if i < |ts| && ts[i] == t then Ok(i + 1) else Err(ExpectedToken)
  }

  function TakeNumber(ts: seq<Token>, i: nat): Step<nat> {
    if i < |ts| && ts[i].Numeral? then Ok((ts[i].value, i + 1)) else Err(ExpectedToken)
  }

  /** `(name := NUMBER)` */
  function NamedNumber(ts: seq<Token>, i: nat, name: string): (r: Step<nat>)
    ensures r.Ok? ==> i < r.value.1
  {
    var a :- Take(ts, i, Punct('('));
    var b :- Take(ts, a, Word(name));
    var c :- Take(ts, b, Assign);
    var n :- TakeNumber(ts, c);
    var e :- Take(ts, n.1, Punct(')'));
    Ok((n.0, e))
  }

  function RowOffset(ts: seq<Token>, i: nat): Step<int> {
    if i < |ts| && (ts[i] == Punct('+') || ts[i] == Punct('-')) then
      var n :- TakeNumber(ts, i + 1);
      var magnitude: int := n.0;
      Ok((if ts[i] == Punct('+') then magnitude else -magnitude, n.1))
    else
      Ok((0, i))
  }

  /** `(row := row)`, `(row := row + NUMBER)` or `(row := row - NUMBER)` */
  function NamedRow(ts: seq<Token>, i: nat): (r: Step<int>)
    ensures r.Ok? ==> i < r.value.1
  {
    var a :- Take(ts, i, Punct('('));
    var b :- Take(ts, a, Word("row"));
    var c :- Take(ts, b, Assign);
    var d :- Take(ts, c, Word("row"));
    var offset :- RowOffset(ts, d);
    var e :- Take(ts, offset.1, Punct(')'));
    Ok((offset.0, e))
  }

  function ZeroRotation(ts: seq<Token>, i: nat): (r: Result<nat, LeanError>)
    ensures r.Ok? ==> i < r.value
  {
    var n :- NamedNumber(ts, i, "rotation");
    if n.0 != 0 then Err(NonZeroRotation) else Ok(n.1)
  }

  function ParseAccessor(ts: seq<Token>, i: nat): (r: Step<Atom>)
    ensures r.Ok? ==> i < r.value.1
  {
    if !(i < |ts| && ts[i].Word?) then Err(ExpectedToken)
    else
      var at :- Take(ts, i + 1, Word("c"));
      if ts[i].text == MAIN then
        var stage :- NamedNumber(ts, at, "id");
        var column :- NamedNumber(ts, stage.1, "column");
        var row :- NamedRow(ts, column.1);
        var end :- ZeroRotation(ts, row.1);
        Ok((Main(stage.0, column.0, row.0), end))
      else if ts[i].text == PRE then
        var column :- NamedNumber(ts, at, "column");
        var row :- NamedRow(ts, column.1);
        var end :- ZeroRotation(ts, row.1);
        Ok((Pre(column.0, row.0), end))
      else if ts[i].text == CHAL then
        var index :- NamedNumber(ts, at, "index");
        Ok((Chal(index.0), index.1))
      else if ts[i].text == EXPOSED then
        var index :- NamedNumber(ts, at, "index");
        Ok((Exposed(index.0), index.1))
      else
        Err(UnknownAccessor)
  }

  function ParseExpr(ts: seq<Token>, i: nat): (r: Step<Expr>)
    ensures r.Ok? ==> i < r.value.1
    decreases |ts| - i, 1
  {
    if i >= |ts| then Err(ExpectedExpression)
    else if ts[i].Numeral? then Ok((Const(ts[i].value), i + 1))
    else if ts[i] != Punct('(') then Err(ExpectedNumberOrParenthesis)
    else
      var inner :- ParseInner(ts, i + 1);
      var end :- Take(ts, inner.1, Punct(')'));
      Ok((inner.0, end))
  }

  /** What stands between the parentheses. */
  function ParseInner(ts: seq<Token>, i: nat): (r: Step<Expr>)
    ensures r.Ok? ==> i < r.value.1
    decreases |ts| - i, 2
  {
    if i >= |ts| then Err(ExpectedExpression)
    else if ts[i].Word? then
      if !IsAccessorName(ts[i].text) then Err(UnknownAccessor)
      else
        var atom :- ParseAccessor(ts, i);
        Ok((Var(atom.0), atom.1))
    else if ts[i] == Punct('-') then
      var arg :- ParseExpr(ts, i + 1);
      Ok((Neg(arg.0), arg.1))
    else
      var left :- ParseExpr(ts, i);
      if !(left.1 < |ts| && IsOperator(ts[left.1])) then Err(ExpectedOperator)
      else
        var right :- ParseExpr(ts, left.1 + 1);
        Ok((Binary(ts[left.1], left.0, right.0), right.1))
  }

  /** `(expr) = 0`, to the end of the line. */
  function ParseBody(ts: seq<Token>): Result<Expr, LeanError> {
    var a :- Take(ts, 0, Punct('('));
    var e :- ParseExpr(ts, a);
    var b :- Take(ts, e.1, Punct(')'));
    var c :- Take(ts, b, Punct('='));
    var n :- TakeNumber(ts, c);
    if n.0 != 0 then Err(NotComparedToZero)
    else if n.1 != |ts| then Err(TrailingTokens)
    else Ok(e.0)
  }

  // ----- the parser object

  class Parser {
    const tokens: seq<Token>
    var pos: nat

    constructor (ts: seq<Token>)
      ensures tokens == ts && pos == 0
    {
      tokens, pos := ts, 0;
    }

    ghost predicate Agrees<T>(r: Result<T, LeanError>, spec: Step<T>)
      reads this
    {
      match spec
      case Ok((x, end)) => r == Ok(x) && pos == end
      case Err(e) => r == Err(e)
    }

    method Eat(t: Token) returns (r: Result<(), LeanError>)
      modifies this
      ensures match Take(tokens, old(pos), t) case Ok(end) => r.Ok? && pos == end case Err(e) => r == Err(e)
    {
      if !(pos < |tokens| && tokens[pos] == t) { return Err(ExpectedToken); }
      pos := pos + 1;
      r := Ok(());
    }

    method Number() returns (r: Result<nat, LeanError>)
      modifies this
      ensures Agrees(r, TakeNumber(tokens, old(pos)))
    {
      if !(pos < |tokens| && tokens[pos].Numeral?) { return Err(ExpectedToken); }
      r := Ok(tokens[pos].value);
      pos := pos + 1;
    }

    method NumberNamed(name: string) returns (r: Result<nat, LeanError>)
      modifies this
      ensures Agrees(r, NamedNumber(tokens, old(pos), name))
    {
      var _ :- Eat(Punct('('));
      var _ :- Eat(Word(name));
      var _ :- Eat(Assign);
      var value :- Number();
      var _ :- Eat(Punct(')'));
      r := Ok(value);
    }

    method RowNamed() returns (r: Result<int, LeanError>)
      modifies this
      ensures Agrees(r, NamedRow(tokens, old(pos)))
    {
      var _ :- Eat(Punct('('));
      var _ :- Eat(Word("row"));
      var _ :- Eat(Assign);
      var _ :- Eat(Word("row"));
      var delta: int := 0;
      if pos < |tokens| && (tokens[pos] == Punct('+') || tokens[pos] == Punct('-')) {
        var plus := tokens[pos] == Punct('+');
        pos := pos + 1;
        var magnitude: int :- Number();
        delta := if plus then magnitude else -magnitude;
      }
      var _ :- Eat(Punct(')'));
      r := Ok(delta);
    }

    method NoRotation() returns (r: Result<(), LeanError>)
      modifies this
      ensures match ZeroRotation(tokens, old(pos)) case Ok(end) => r.Ok? && pos == end case Err(e) => r == Err(e)
    {
      var rotation :- NumberNamed("rotation");
      if rotation != 0 { return Err(NonZeroRotation); }
      r := Ok(());
    }

    method Accessor() returns (r: Result<Atom, LeanError>)
      modifies this
      ensures Agrees(r, ParseAccessor(tokens, old(pos)))
    {
      hide NamedNumber, NamedRow, ZeroRotation;
      if !(pos < |tokens| && tokens[pos].Word?) { return Err(ExpectedToken); }
      var name := tokens[pos].text;
      pos := pos + 1;
      var _ :- Eat(Word("c"));
      if name == MAIN {
        var stage :- NumberNamed("id");
        var column :- NumberNamed("column");
        var delta :- RowNamed();
        var _ :- NoRotation();
        return Ok(Main(stage, column, delta));
      }
      if name == PRE {
        var column :- NumberNamed("column");
        var delta :- RowNamed();
        var _ :- NoRotation();
        return Ok(Pre(column, delta));
      }
      if name == CHAL {
        var index :- NumberNamed("index");
        return Ok(Chal(index));
      }
      if name == EXPOSED {
        var index :- NumberNamed("index");
        return Ok(Exposed(index));
      }
      r := Err(UnknownAccessor);
    }

    method Expression() returns (r: Result<Expr, LeanError>)
      modifies this
      ensures Agrees(r, ParseExpr(tokens, old(pos)))
      decreases |tokens| - pos, 1
    {
      hide ParseAccessor;
      if pos >= |tokens| { return Err(ExpectedExpression); }
      if tokens[pos].Numeral? {
        r := Ok(Const(tokens[pos].value));
        pos := pos + 1;
        return;
      }
      if tokens[pos] != Punct('(') { return Err(ExpectedNumberOrParenthesis); }
      pos := pos + 1;
      var node :- Inner();
      var _ :- Eat(Punct(')'));
      r := Ok(node);
    }

    method Inner() returns (r: Result<Expr, LeanError>)
      modifies this
      ensures Agrees(r, ParseInner(tokens, old(pos)))
      decreases |tokens| - pos, 2
    {
      hide ParseAccessor, ParseExpr;
      if pos >= |tokens| { return Err(ExpectedExpression); }
      if tokens[pos].Word? {
        if !IsAccessorName(tokens[pos].text) { return Err(UnknownAccessor); }
        var atom :- Accessor();
        return Ok(Var(atom));
      }
      if tokens[pos] == Punct('-') {
        pos := pos + 1;
        var arg :- Expression();
        return Ok(Neg(arg));
      }
      var left :- Expression();
      if !(pos < |tokens| && IsOperator(tokens[pos])) { return Err(ExpectedOperator); }
      var op := tokens[pos];
      pos := pos + 1;
      var right :- Expression();
      r := Ok(Binary(op, left, right));
    }

    method Body() returns (r: Result<Expr, LeanError>)
      requires pos == 0
      modifies this
      ensures r == ParseBody(tokens)
    {
      hide ParseExpr;
      var _ :- Eat(Punct('('));
      var e :- Expression();
      var _ :- Eat(Punct(')'));
      var _ :- Eat(Punct('='));
      var n :- Number();
      if n != 0 { return Err(NotComparedToZero); }
      if pos != |tokens| { return Err(TrailingTokens); }
      r := Ok(e);
    }
  }

  // ----- the printer

  /** The expressions the accessor rendering can spell. */
  ghost predicate Renderable(e: Expr) {
    match e
    case Const(n) => n >= 0
    case Var(Main(s, c, _)) => s >= 0 && c >= 0
    case Var(Pre(c, _)) => c >= 0
    case Var(Chal(i)) => i >= 0
    case Var(Exposed(i)) => i >= 0
    case Var(_) => false
    case Neg(a) => Renderable(a)
    case Add(a, b) => Renderable(a) && Renderable(b)
    case Sub(a, b) => Renderable(a) && Renderable(b)
    case Mul(a, b) => Renderable(a) && Renderable(b)
  }

  function PrintNamed(name: string, value: int): seq<Token> {
    [Punct('('), Word(name), Assign, Numeral(if value >= 0 then value else 0), Punct(')')]
  }

  function PrintRow(delta: int): seq<Token> {
    [Punct('('), Word("row"), Assign, Word("row")]
    + (if delta == 0 then [] else [Punct(if delta > 0 then '+' else '-'), Numeral(if delta > 0 then delta else -delta)])
    + [Punct(')')]
  }

  function PrintAccessor(a: Atom): seq<Token> {
    match a
    case Main(s, c, d) => [Word(MAIN), Word("c")]
        + (PrintNamed("id", s) + (PrintNamed("column", c) + (PrintRow(d) + PrintNamed("rotation", 0))))
    case Pre(c, d) => [Word(PRE), Word("c")] + (PrintNamed("column", c) + (PrintRow(d) + PrintNamed("rotation", 0)))
    case Chal(i) => [Word(CHAL), Word("c")] + PrintNamed("index", i)
    case Exposed(i) => [Word(EXPOSED), Word("c")] + PrintNamed("index", i)
    case _ => []
  }

  function Print(e: Expr): seq<Token>
    decreases e, 1
  {
    match e
    case Const(n) => [Numeral(if n >= 0 then n else 0)]
    case _ => [Punct('(')] + (PrintInner(e) + [Punct(')')])
  }

  function PrintInner(e: Expr): seq<Token>
    decreases e, 0
  {
    match e
    case Const(_) => []
    case Var(a) => PrintAccessor(a)
    case Neg(a) => [Punct('-')] + Print(a)
    case Add(a, b) => Print(a) + ([Punct('+')] + Print(b))
    case Sub(a, b) => Print(a) + ([Punct('-')] + Print(b))
    case Mul(a, b) => Print(a) + ([Punct('*')] + Print(b))
  }

  function PrintBody(e: Expr): seq<Token> {
    [Punct('(')] + (Print(e) + [Punct(')'), Punct('='), Numeral(0)])
  }

  lemma NamedReads(ts: seq<Token>, i: nat, name: string, value: nat)
    requires Sees(ts, i, PrintNamed(name, value))
    ensures NamedNumber(ts, i, name) == Ok((value, i + |PrintNamed(name, value)|))
  {
    var part := PrintNamed(name, value);
    SeesAll(ts, i, part);
    assert ts[i + 0] == part[0];
  }

  lemma RowReads(ts: seq<Token>, i: nat, delta: int)
    requires Sees(ts, i, PrintRow(delta))
    ensures NamedRow(ts, i) == Ok((delta, i + |PrintRow(delta)|))
  {
    var part := PrintRow(delta);
    SeesAll(ts, i, part);
    assert ts[i + 0] == part[0] && ts[i + 1] == part[1] && ts[i + 2] == part[2] && ts[i + 3] == part[3] &&
        ts[i + 4] == part[4];
    if delta != 0 { assert ts[i + 5] == part[5] && ts[i + 6] == part[6]; }
  }

  lemma RotationReads(ts: seq<Token>, i: nat)
    requires Sees(ts, i, PrintNamed("rotation", 0))
    ensures ZeroRotation(ts, i) == Ok(i + |PrintNamed("rotation", 0)|)
  {
    NamedReads(ts, i, "rotation", 0);
  }

  lemma MainReads(ts: seq<Token>, i: nat, s: int, c: int, d: int)
    requires s >= 0 && c >= 0
    requires Sees(ts, i, PrintNamed("id", s) + (PrintNamed("column", c) + (PrintRow(d) + PrintNamed("rotation", 0))))
    ensures NamedNumber(ts, i, "id") == Ok((s as nat, i + |PrintNamed("id", s)|))
    ensures var j := i + |PrintNamed("id", s)|; Sees(ts, j,
            PrintNamed("column", c) + (PrintRow(d) + PrintNamed("rotation", 0)))
  {
    hide PrintNamed, PrintRow, NamedNumber;
    SeesParts(ts, i, PrintNamed("id", s), PrintNamed("column", c) + (PrintRow(d) + PrintNamed("rotation", 0)));
    NamedReads(ts, i, "id", s);
  }

  lemma ColumnReads(ts: seq<Token>, i: nat, c: int, d: int)
    requires c >= 0 && Sees(ts, i, PrintNamed("column", c) + (PrintRow(d) + PrintNamed("rotation", 0)))
    ensures var j := i + |PrintNamed("column", c)|;
            var k := j + |PrintRow(d)|;
            && NamedNumber(ts, i, "column") == Ok((c as nat, j))
            && NamedRow(ts, j) == Ok((d, k))
            && ZeroRotation(ts, k) == Ok(k + |PrintNamed("rotation", 0)|)
  {
    hide PrintNamed, PrintRow, NamedNumber, NamedRow, ZeroRotation;
    var pc, pr, pz := PrintNamed("column", c), PrintRow(d), PrintNamed("rotation", 0);
    SeesParts(ts, i, pc, pr + pz);
    SeesParts(ts, i + |pc|, pr, pz);
    NamedReads(ts, i, "column", c);
    RowReads(ts, i + |pc|, d);
    RotationReads(ts, i + |pc| + |pr|);
  }

  lemma HeadReads(ts: seq<Token>, i: nat, name: string, rest: seq<Token>)
    requires Sees(ts, i, [Word(name), Word("c")] + rest)
    ensures i + 1 < |ts| && ts[i] == Word(name) && ts[i + 1] == Word("c") && Sees(ts, i + 2, rest)
  {
    var head := [Word(name), Word("c")];
    SeesParts(ts, i, head, rest);
    SeesAll(ts, i, head);
    assert ts[i + 0] == head[0] && ts[i + 1] == head[1];
  }

  lemma AccessorReads(ts: seq<Token>, i: nat, a: Atom)
    requires Renderable(Var(a)) && Sees(ts, i, PrintAccessor(a))
    ensures ParseAccessor(ts, i) == Ok((a, i + |PrintAccessor(a)|)) && i < |ts| && ts[i].Word? &&
            IsAccessorName(ts[i].text)
  {
    hide NamedNumber, NamedRow, ZeroRotation, PrintNamed, PrintRow, Sees;
    match a {
      case Main(s, c, d) =>
        HeadReads(ts, i, MAIN,
            PrintNamed("id", s) + (PrintNamed("column", c) + (PrintRow(d) + PrintNamed("rotation", 0))));
        MainReads(ts, i + 2, s, c, d);
        ColumnReads(ts, i + 2 + |PrintNamed("id", s)|, c, d);
      case Pre(c, d) =>
        HeadReads(ts, i, PRE, PrintNamed("column", c) + (PrintRow(d) + PrintNamed("rotation", 0)));
        ColumnReads(ts, i + 2, c, d);
      case Chal(k) =>
        HeadReads(ts, i, CHAL, PrintNamed("index", k));
        NamedReads(ts, i + 2, "index", k);
      case Exposed(k) =>
        HeadReads(ts, i, EXPOSED, PrintNamed("index", k));
        NamedReads(ts, i + 2, "index", k);
    }
  }

  lemma BinaryReads(ts: seq<Token>, i: nat, a: Expr, at: nat, b: Expr, end: nat)
    requires i < |ts| && !ts[i].Word? && ts[i] != Punct('-') && ParseExpr(ts, i) == Ok((a, at))
    requires at < |ts| && IsOperator(ts[at]) && ParseExpr(ts, at + 1) == Ok((b, end))
    ensures ParseInner(ts, i) == Ok((Binary(ts[at], a, b), end))
  {
    hide ParseExpr;
  }

  /** The parser reads a printed expression wherever it stands. */
  lemma {:induction false} PrintReads(ts: seq<Token>, i: nat, e: Expr)
    requires Renderable(e) && Sees(ts, i, Print(e))
    ensures ParseExpr(ts, i) == Ok((e, i + |Print(e)|)) && i < |ts| && !ts[i].Word? && ts[i] != Punct('-')
    decreases e, 1
  {
    hide ParseInner, PrintInner;
    if e.Const? {
      SeesToken(ts, i, Numeral(e.n));
    } else {
      var open, inner, close := [Punct('(')], PrintInner(e), [Punct(')')];
      SeesParts(ts, i, open, inner + close);
      SeesParts(ts, i + 1, inner, close);
      SeesToken(ts, i, Punct('('));
      SeesToken(ts, i + 1 + |inner|, Punct(')'));
      InnerReads(ts, i + 1, e);
    }
  }

  lemma {:induction false} InnerReads(ts: seq<Token>, i: nat, e: Expr)
    requires Renderable(e) && !e.Const? && Sees(ts, i, PrintInner(e))
    ensures ParseInner(ts, i) == Ok((e, i + |PrintInner(e)|))
    decreases e, 0
  {
    hide ParseExpr, Print, ParseAccessor, PrintAccessor;
    match e {
      case Var(a) =>
        AccessorReads(ts, i, a);
      case Neg(a) =>
        SeesParts(ts, i, [Punct('-')], Print(a));
        SeesToken(ts, i, Punct('-'));
        PrintReads(ts, i + 1, a);
      case Add(a, b) => OperatorReads(ts, i, a, Punct('+'), b);
      case Sub(a, b) => OperatorReads(ts, i, a, Punct('-'), b);
      case Mul(a, b) => OperatorReads(ts, i, a, Punct('*'), b);
    }
  }

  lemma OperatorReads(ts: seq<Token>, i: nat, a: Expr, op: Token, b: Expr)
    requires IsOperator(op) && Renderable(a) && Renderable(b) && Sees(ts, i, Print(a) + ([op] + Print(b)))
    ensures ParseInner(ts, i) == Ok((Binary(op, a, b), i + |Print(a) + ([op] + Print(b))|))
    decreases Binary(op, a, b), 0, 0
  {
    hide ParseInner, ParseExpr, Print, Renderable, Sees;
    var left, right := Print(a), Print(b);
    SeesParts(ts, i, left, [op] + right);
    SeesParts(ts, i + |left|, [op], right);
    SeesToken(ts, i + |left|, op);
    PrintReads(ts, i, a);
    PrintReads(ts, i + |left| + 1, b);
    BinaryReads(ts, i, a, i + |left|, b, i + |left| + 1 + |right|);
  }

  lemma WholeSeen(ts: seq<Token>)
    ensures Sees(ts, 0, ts)
  {
    assert ts[0..0 + |ts|] == ts;
  }

  lemma OpenReads(ts: seq<Token>)
    requires Sees(ts, 0, [Punct('(')])
    ensures Take(ts, 0, Punct('(')) == Ok(1)
  {
    SeesToken(ts, 0, Punct('('));
  }

  lemma CloseReads(ts: seq<Token>, i: nat)
    requires Sees(ts, i, [Punct(')'), Punct('='), Numeral(0)])
    ensures Take(ts, i, Punct(')')) == Ok(i + 1) && Take(ts, i + 1, Punct('=')) == Ok(i + 2) &&
            TakeNumber(ts, i + 2) == Ok((0, i + 3))
  {
    var close := [Punct(')'), Punct('='), Numeral(0)];
    SeesAll(ts, i, close);
    assert ts[i + 0] == close[0] && ts[i + 1] == close[1] && ts[i + 2] == close[2];
  }

  /** The parser inverts the printer on every renderable expression. */
  lemma PrintThenParse(e: Expr)
    requires Renderable(e)
    ensures ParseBody(PrintBody(e)) == Ok(e)
  {
    hide ParseExpr, Print, Sees, Take, TakeNumber;
    var ts, open, close := PrintBody(e), [Punct('(')], [Punct(')'), Punct('='), Numeral(0)];
    WholeSeen(ts);
    SeesParts(ts, 0, open, Print(e) + close);
    SeesParts(ts, 1, Print(e), close);
    PrintReads(ts, 1, e);
    OpenReads(ts);
    CloseReads(ts, 1 + |Print(e)|);
  }

  // ----- the parenthesis count

  function Count(ts: seq<Token>, t: Token): nat {
    if ts == [] then 0 else Count(ts[..|ts| - 1], t) + (if ts[|ts| - 1] == t then 1 else 0)
  }

  predicate Parenthesis(t: Token) {
    t == Punct('(') || t == Punct(')')
  }

  /** Occurrences of a token from one position up to another. */
  function Occurs(t: Token, ts: seq<Token>, i: nat, j: nat): int
    requires i <= |ts| && j <= |ts|
  {
    Count(ts[..j], t) - Count(ts[..i], t)
  }

  function NamedArguments(a: Atom): nat {
    match a
    case Main(_, _, _) => 4
    case Pre(_, _) => 3
    case Chal(_) => 1
    case Exposed(_) => 1
    case _ => 0
  }

  /** One pair per operator and per accessor, and one per named argument of an accessor:
      `id`, `column`, `row`, `rotation`, or `index`. */
  function Pairs(e: Expr): nat {
    match e
    case Const(_) => 0
    case Var(a) => 1 + NamedArguments(a)
    case Neg(a) => 1 + Pairs(a)
    case Add(a, b) => 1 + Pairs(a) + Pairs(b)
    case Sub(a, b) => 1 + Pairs(a) + Pairs(b)
    case Mul(a, b) => 1 + Pairs(a) + Pairs(b)
  }

  lemma OneMore(t: Token, ts: seq<Token>, i: nat)
    requires i < |ts|
    ensures Occurs(t, ts, i, i + 1) == if ts[i] == t then 1 else 0
  {
    assert ts[..i + 1][..i] == ts[..i];
  }

  lemma NamedNumberPairs(t: Token, ts: seq<Token>, i: nat, name: string)
    requires i <= |ts| && Parenthesis(t)
    ensures NamedNumber(ts, i, name).Ok? ==>
              var end := NamedNumber(ts, i, name).value.1; i <= end <= |ts| && Occurs(t, ts, i, end) == 1
  {
    if NamedNumber(ts, i, name).Ok? {
      OneMore(t, ts, i);
      OneMore(t, ts, i + 1);
      OneMore(t, ts, i + 2);
      OneMore(t, ts, i + 3);
      OneMore(t, ts, i + 4);
    }
  }

  lemma NamedRowPairs(t: Token, ts: seq<Token>, i: nat)
    requires i <= |ts| && Parenthesis(t)
    ensures NamedRow(ts, i).Ok? ==>
            i <= NamedRow(ts, i).value.1 <= |ts| && Occurs(t, ts, i, NamedRow(ts, i).value.1) == 1
  {
    if NamedRow(ts, i).Ok? {
      OneMore(t, ts, i);
      OneMore(t, ts, i + 1);
      OneMore(t, ts, i + 2);
      OneMore(t, ts, i + 3);
      OneMore(t, ts, i + 4);
      if NamedRow(ts, i).value.1 > i + 5 {
        OneMore(t, ts, i + 5);
        OneMore(t, ts, i + 6);
      }
    }
  }

  lemma RotationPairs(t: Token, ts: seq<Token>, i: nat)
    requires i <= |ts| && Parenthesis(t)
    ensures ZeroRotation(ts, i).Ok? ==>
            i <= ZeroRotation(ts, i).value <= |ts| && Occurs(t, ts, i, ZeroRotation(ts, i).value) == 1
  {
    NamedNumberPairs(t, ts, i, "rotation");
  }

  lemma AccessorPairs(t: Token, ts: seq<Token>, i: nat)
    requires i <= |ts| && Parenthesis(t)
    ensures ParseAccessor(ts, i).Ok? ==>
              i <= ParseAccessor(ts, i).value.1 <= |ts| &&
                  Occurs(t, ts, i, ParseAccessor(ts, i).value.1) == NamedArguments(ParseAccessor(ts, i).value.0)
  {
    hide NamedNumber, NamedRow, ZeroRotation, Count;
    if ParseAccessor(ts, i).Ok? {
      OneMore(t, ts, i);
      OneMore(t, ts, i + 1);
      var at := i + 2;
      if ts[i].text == MAIN {
        NamedNumberPairs(t, ts, at, "id");
        var s := NamedNumber(ts, at, "id").value.1;
        NamedNumberPairs(t, ts, s, "column");
        var c := NamedNumber(ts, s, "column").value.1;
        NamedRowPairs(t, ts, c);
        RotationPairs(t, ts, NamedRow(ts, c).value.1);
      } else if ts[i].text == PRE {
        NamedNumberPairs(t, ts, at, "column");
        var c := NamedNumber(ts, at, "column").value.1;
        NamedRowPairs(t, ts, c);
        RotationPairs(t, ts, NamedRow(ts, c).value.1);
      } else {
        NamedNumberPairs(t, ts, at, "index");
      }
    }
  }

  /** However it is spelled, an accepted expression has exactly these parentheses. */
  lemma {:induction false} ExprPairs(t: Token, ts: seq<Token>, i: nat)
    requires i <= |ts| && Parenthesis(t)
    ensures ParseExpr(ts, i).Ok? ==>
              i <= ParseExpr(ts, i).value.1 <= |ts| &&
                  Occurs(t, ts, i, ParseExpr(ts, i).value.1) == Pairs(ParseExpr(ts, i).value.0)
    decreases |ts| - i, 1
  {
    hide ParseInner, Count;
    if ParseExpr(ts, i).Ok? {
      OneMore(t, ts, i);
      if !ts[i].Numeral? {
        InnerPairs(t, ts, i + 1);
        OneMore(t, ts, ParseInner(ts, i + 1).value.1);
      }
    }
  }

  lemma {:induction false} InnerPairs(t: Token, ts: seq<Token>, i: nat)
    requires i <= |ts| && Parenthesis(t)
    ensures ParseInner(ts, i).Ok? ==>
              i <= ParseInner(ts, i).value.1 <= |ts| &&
                  Occurs(t, ts, i, ParseInner(ts, i).value.1) == Pairs(ParseInner(ts, i).value.0) - 1
    decreases |ts| - i, 2
  {
    hide ParseAccessor, ParseExpr, Count;
    if ParseInner(ts, i).Ok? {
      if ts[i].Word? {
        AccessorPairs(t, ts, i);
      } else if ts[i] == Punct('-') {
        OneMore(t, ts, i);
        ExprPairs(t, ts, i + 1);
      } else {
        ExprPairs(t, ts, i);
        var at := ParseExpr(ts, i).value.1;
        OneMore(t, ts, at);
        ExprPairs(t, ts, at + 1);
      }
    }
  }

  lemma EmptyCount(t: Token, ts: seq<Token>)
    ensures Count(ts[..0], t) == 0
  {
  }

  lemma BodyPairs(t: Token, ts: seq<Token>)
    requires ParseBody(ts).Ok? && Parenthesis(t)
    ensures Count(ts, t) == 1 + Pairs(ParseBody(ts).value)
  {
    hide ParseExpr, Count;
    OneMore(t, ts, 0);
    ExprPairs(t, ts, 1);
    var end := ParseExpr(ts, 1).value.1;
    OneMore(t, ts, end);
    OneMore(t, ts, end + 1);
    OneMore(t, ts, end + 2);
    assert ts[..|ts|] == ts;
    EmptyCount(t, ts);
  }

  /** Every accepted body has one pair for the wrapper and those of its expression: as many
      opening parentheses as that, and as many closing ones. */
  lemma ParenthesisCount(ts: seq<Token>)
    requires ParseBody(ts).Ok?
    ensures Count(ts, Punct('(')) == 1 + Pairs(ParseBody(ts).value)
    ensures Count(ts, Punct(')')) == 1 + Pairs(ParseBody(ts).value)
  {
    hide Count, ParseBody;
    BodyPairs(Punct('('), ts);
    BodyPairs(Punct(')'), ts);
  }
}
