/** The prefix rendering of a constraint over the pilout vocabulary, driven by a table of
    constructor arities, and its agreement with the parenthesised accessor rendering. */
module LeanWiring {
  import opened Results
  import opened Slices
  import opened Atoms
  import opened Expressions
  import opened Decimals
  import opened Lanes
  import Accessors = LeanParser

  datatype Token = Ident(name: string) | Str(text: string) | Number(value: int) | Open | Close

  datatype WiringError =
    | ExpectedToken
    | UnknownConstructor
    | NegativeIndex
    | BadConstant
    | NoNode
    | TrailingTokens

  /** A leaf of the pilout vocabulary. */
  datatype Operand =
    | Witness(stage: int, column: int, delta: int)
    | Fixed(column: int, delta: int)
    | ChallengeOf(stage: int, index: int)
    | AirValueOf(index: int)
    | AirGroupValueOf(index: int)

  datatype Term =
    | Constant(n: int)
    | Leaf(operand: Operand)
    | Minus(arg: Term)
    | Plus(left: Term, right: Term)
    | Less(left: Term, right: Term)
    | Times(left: Term, right: Term)

  datatype ArgKind = NatKind | IntKind | StrKind | ExprKind
  datatype Arg = NatArg(n: nat) | IntArg(i: int) | StrArg(s: string) | TermArg(t: Term)

  /** `_CTORS` */
  const CTORS: map<string, seq<ArgKind>> := map[
    "Expr.constant" := [StrKind],
    "Expr.witness" := [NatKind, NatKind, IntKind],
    "Expr.fixed" := [NatKind, IntKind],
    "Expr.challenge" := [NatKind, NatKind],
    "Expr.airValue" := [NatKind],
    "Expr.airGroupValue" := [NatKind],
    "Expr.opaque" := [StrKind, StrKind],
    "Expr.add" := [ExprKind, ExprKind],
    "Expr.sub" := [ExprKind, ExprKind],
    "Expr.mul" := [ExprKind, ExprKind],
    "Expr.neg" := [ExprKind]
  ]

  // ----- the grammar

  predicate MatchesKind(a: Arg, k: ArgKind) {
    match k
    case NatKind => a.NatArg?
    case IntKind => a.IntArg?
    case StrKind => a.StrArg?
    case ExprKind => a.TermArg?
  }

  ghost predicate Matches(args: seq<Arg>, kinds: seq<ArgKind>) {
    |args| == |kinds| && forall k :: 0 <= k < |kinds| ==> MatchesKind(args[k], kinds[k])
  }

  /** `_build` */
  function Build(name: string, args: seq<Arg>): Result<Term, WiringError>
    requires name in CTORS && Matches(args, CTORS[name])
  {
    if name == "Expr.constant" then
      if args[0].s != [] && AllDigits(args[0].s) then Ok(Constant(DecimalValue(args[0].s))) else Err(BadConstant)
    else if name == "Expr.witness" then Ok(Leaf(Witness(args[0].n, args[1].n, args[2].i)))
    else if name == "Expr.fixed" then Ok(Leaf(Fixed(args[0].n, args[1].i)))
    else if name == "Expr.challenge" then Ok(Leaf(ChallengeOf(args[0].n, args[1].n)))
    else if name == "Expr.airValue" then Ok(Leaf(AirValueOf(args[0].n)))
    else if name == "Expr.airGroupValue" then Ok(Leaf(AirGroupValueOf(args[0].n)))
    else if name == "Expr.neg" then Ok(Minus(args[0].t))
    else if name == "Expr.add" then Ok(Plus(args[0].t, args[1].t))
    else if name == "Expr.sub" then Ok(Less(args[0].t, args[1].t))
    else if name == "Expr.mul" then Ok(Times(args[0].t, args[1].t))
    else Err(NoNode)
  }

  type Step<T> = Result<(T, nat), WiringError>

  function Application(ts: seq<Token>, i: nat): (r: Step<Term>)
    ensures r.Ok? ==> i < r.value.1
    decreases |ts| - i, 1
  {
    if !(i < |ts| && ts[i].Ident?) then Err(ExpectedToken)
    else if ts[i].name !in CTORS then Err(UnknownConstructor)
    else
      var args :- ReadArgs(ts, i + 1, CTORS[ts[i].name]);
      var term :- Build(ts[i].name, args.0);
      Ok((term, args.1))
  }

  function ReadArgs(ts: seq<Token>, i: nat, kinds: seq<ArgKind>): (r: Step<seq<Arg>>)
    ensures r.Ok? ==> i <= r.value.1 && Matches(r.value.0, kinds)
    decreases |ts| - i, 3, |kinds|
  {
    if kinds == [] then Ok(([], i))
    else
      var first :- ReadArg(ts, i, kinds[0]);
      var rest :- ReadArgs(ts, first.1, kinds[1..]);
      Ok(([first.0] + rest.0, rest.1))
  }

  function ReadArg(ts: seq<Token>, i: nat, kind: ArgKind): (r: Step<Arg>)
    ensures r.Ok? ==> i < r.value.1 && MatchesKind(r.value.0, kind)
    decreases |ts| - i, 2
  {
    if i >= |ts| then Err(ExpectedToken)
    else
      match kind
      case NatKind =>
        if !ts[i].Number? then Err(ExpectedToken)
        else if ts[i].value < 0 then Err(NegativeIndex)
        else Ok((NatArg(ts[i].value), i + 1))
      case IntKind =>
        if !(i + 2 < |ts| && ts[i].Open? && ts[i + 1].Number? && ts[i + 2].Close?) then Err(ExpectedToken)
        else Ok((IntArg(ts[i + 1].value), i + 3))
      case StrKind =>
        if !ts[i].Str? then Err(ExpectedToken) else Ok((StrArg(ts[i].text), i + 1))
      case ExprKind =>
        if !ts[i].Open? then Err(ExpectedToken)
        else
          var inner :- Application(ts, i + 1);
          if !(inner.1 < |ts| && ts[inner.1].Close?) then Err(ExpectedToken)
          else Ok((TermArg(inner.0), inner.1 + 1))
  }

  function ParseTop(ts: seq<Token>): Result<Term, WiringError> {
    var t :- Application(ts, 0);
    if t.1 != |ts| then Err(TrailingTokens) else Ok(t.0)
  }

  // ----- the parser object

  /** Arguments read already, in front of those still to be read. */
  ghost function Prepend(args: seq<Arg>, rest: Step<seq<Arg>>): Step<seq<Arg>> {
    match rest
    case Ok((more, end)) => Ok((args + more, end))
    case Err(e) => Err(e)
  }

  lemma PrependNone(rest: Step<seq<Arg>>)
    ensures Prepend([], rest) == rest
  {
    if rest.Ok? { assert [] + rest.value.0 == rest.value.0; }
  }

  lemma PrependStep(ts: seq<Token>, i: nat, kinds: seq<ArgKind>, args: seq<Arg>)
    requires kinds != []
    ensures Prepend(args, ReadArgs(ts, i, kinds)) ==
              match ReadArg(ts, i, kinds[0])
              case Ok((a, j)) => Prepend(args + [a], ReadArgs(ts, j, kinds[1..]))
              case Err(e) => Err(e)
  {
    hide ReadArg;
    var first := ReadArg(ts, i, kinds[0]);
    if first.Ok? {
      var rest := ReadArgs(ts, first.value.1, kinds[1..]);
      if rest.Ok? { assert args + ([first.value.0] + rest.value.0) == (args + [first.value.0]) + rest.value.0; }
    }
  }

  lemma MatchesMore(args: seq<Arg>, kinds: seq<ArgKind>, k: nat, a: Arg)
    requires k < |kinds| && Matches(args, kinds[..k]) && MatchesKind(a, kinds[k])
    ensures Matches(args + [a], kinds[..k + 1])
  {
  }

  class Parser {
    const tokens: seq<Token>
    var pos: nat

    constructor (ts: seq<Token>)
      ensures tokens == ts && pos == 0
    {
      tokens, pos := ts, 0;
    }

    ghost predicate Agrees<T>(r: Result<T, WiringError>, spec: Step<T>)
      reads this
    {
      match spec
      case Ok((x, end)) => r == Ok(x) && pos == end
      case Err(e) => r == Err(e)
    }

    method Apply() returns (r: Result<Term, WiringError>)
      modifies this
      ensures Agrees(r, Application(tokens, old(pos)))
      decreases |tokens| - pos, 1
    {
      hide ReadArg, Build;
      if !(pos < |tokens| && tokens[pos].Ident?) { return Err(ExpectedToken); }
      var name := tokens[pos].name;
      ghost var start := pos;
      pos := pos + 1;
      if name !in CTORS { return Err(UnknownConstructor); }
      var kinds := CTORS[name];
      var args: seq<Arg> := [];
      assert kinds[0..] == kinds;
      PrependNone(ReadArgs(tokens, pos, kinds));
      for k := 0 to |kinds|
        invariant pos > start && Matches(args, kinds[..k])
        invariant ReadArgs(tokens, start + 1, kinds) == Prepend(args, ReadArgs(tokens, pos, kinds[k..]))
      {
        assert kinds[k..][0] == kinds[k] && kinds[k..][1..] == kinds[k + 1..];
        ghost var here := pos;
        var arg := Argument(kinds[k]);
        PrependStep(tokens, here, kinds[k..], args);
        if arg.Err? { return Err(arg.error); }
        MatchesMore(args, kinds, k, arg.value);
        args := args + [arg.value];
      }
      assert kinds[..|kinds|] == kinds && kinds[|kinds|..] == [];
      assert args + [] == args;
      r := Build(name, args);
    }

    method Argument(kind: ArgKind) returns (r: Result<Arg, WiringError>)
      modifies this
      ensures Agrees(r, ReadArg(tokens, old(pos), kind))
      decreases |tokens| - pos, 2
    {
      hide Application;
      if pos >= |tokens| { return Err(ExpectedToken); }
      match kind {
        case NatKind =>
          if !tokens[pos].Number? { return Err(ExpectedToken); }
          var value := tokens[pos].value;
          if value < 0 { return Err(NegativeIndex); }
          pos := pos + 1;
          r := Ok(NatArg(value));
        case IntKind =>
          if !tokens[pos].Open? { return Err(ExpectedToken); }
          if !(pos + 1 < |tokens| && tokens[pos + 1].Number?) { return Err(ExpectedToken); }
          if !(pos + 2 < |tokens| && tokens[pos + 2].Close?) { return Err(ExpectedToken); }
          r := Ok(IntArg(tokens[pos + 1].value));
          pos := pos + 3;
        case StrKind =>
          if !tokens[pos].Str? { return Err(ExpectedToken); }
          r := Ok(StrArg(tokens[pos].text));
          pos := pos + 1;
        case ExprKind =>
          if !tokens[pos].Open? { return Err(ExpectedToken); }
          pos := pos + 1;
          var inner :- Apply();
          if !(pos < |tokens| && tokens[pos].Close?) { return Err(ExpectedToken); }
          pos := pos + 1;
          r := Ok(TermArg(inner));
      }
    }

    method Top() returns (r: Result<Term, WiringError>)
      requires pos == 0
      modifies this
      ensures r == ParseTop(tokens)
    {
      hide Application;
      var term :- Apply();
      if pos != |tokens| { return Err(TrailingTokens); }
      r := Ok(term);
    }
  }

  // ----- the printer

  /** Indices and constants are not negative; row offsets may be. */
  ghost predicate Printable(t: Term) {
    match t
    case Constant(n) => n >= 0
    case Leaf(Witness(s, c, _)) => s >= 0 && c >= 0
    case Leaf(Fixed(c, _)) => c >= 0
    case Leaf(ChallengeOf(s, i)) => s >= 0 && i >= 0
    case Leaf(AirValueOf(i)) => i >= 0
    case Leaf(AirGroupValueOf(i)) => i >= 0
    case Minus(a) => Printable(a)
    case Plus(a, b) => Printable(a) && Printable(b)
    case Less(a, b) => Printable(a) && Printable(b)
    case Times(a, b) => Printable(a) && Printable(b)
  }

  function AsNat(n: int): nat {
    if n >= 0 then n else 0
  }

  /** The constructor and the arguments a term is spelled with. */
  function Spelling(t: Term): (string, seq<Arg>) {
    match t
    case Constant(n) => ("Expr.constant", [StrArg(Decimal(AsNat(n)))])
    case Leaf(Witness(s, c, d)) => ("Expr.witness", [NatArg(AsNat(s)), NatArg(AsNat(c)), IntArg(d)])
    case Leaf(Fixed(c, d)) => ("Expr.fixed", [NatArg(AsNat(c)), IntArg(d)])
    case Leaf(ChallengeOf(s, i)) => ("Expr.challenge", [NatArg(AsNat(s)), NatArg(AsNat(i))])
    case Leaf(AirValueOf(i)) => ("Expr.airValue", [NatArg(AsNat(i))])
    case Leaf(AirGroupValueOf(i)) => ("Expr.airGroupValue", [NatArg(AsNat(i))])
    case Minus(a) => ("Expr.neg", [TermArg(a)])
    case Plus(a, b) => ("Expr.add", [TermArg(a), TermArg(b)])
    case Less(a, b) => ("Expr.sub", [TermArg(a), TermArg(b)])
    case Times(a, b) => ("Expr.mul", [TermArg(a), TermArg(b)])
  }

  /** The spelling is one the table and the builder take back to the term. */
  lemma SpellingBuilds(t: Term)
    requires Printable(t)
    ensures var (name, args) := Spelling(t); name in CTORS && Matches(args, CTORS[name]) && Build(name, args) == Ok(t)
  {
    if t.Constant? { DecimalReads(AsNat(t.n)); }
  }

  function Size(t: Term): nat {
    match t
    case Constant(_) => 1
    case Leaf(_) => 1
    case Minus(a) => 1 + Size(a)
    case Plus(a, b) => 1 + Size(a) + Size(b)
    case Less(a, b) => 1 + Size(a) + Size(b)
    case Times(a, b) => 1 + Size(a) + Size(b)
  }

  function ArgSize(a: Arg): nat {
    if a.TermArg? then Size(a.t) else 0
  }

  function ArgsSize(args: seq<Arg>): nat {
    if args == [] then 0 else ArgSize(args[0]) + ArgsSize(args[1..])
  }

  lemma SpellingSmaller(t: Term)
    ensures ArgsSize(Spelling(t).1) < Size(t)
  {
    var args := Spelling(t).1;
    if |args| == 1 {
      assert args[1..] == [];
    } else if |args| == 2 {
      assert args[1..] == [args[1]] && [args[1]][1..] == [];
      assert ArgsSize([args[1]]) == ArgSize(args[1]);
    } else {
      assert args[1..] == [args[1], args[2]] && [args[1], args[2]][1..] == [args[2]] && [args[2]][1..] == [];
      assert ArgsSize([args[2]]) == 0;
    }
  }

  function Print(t: Term): seq<Token>
    decreases Size(t), 0, 0
  {
    SpellingSmaller(t);
    [Ident(Spelling(t).0)] + PrintArgs(Spelling(t).1)
  }

  function PrintArgs(args: seq<Arg>): seq<Token>
    decreases ArgsSize(args), 2, |args|
  {
    if args == [] then [] else PrintArg(args[0]) + PrintArgs(args[1..])
  }

  function PrintArg(a: Arg): seq<Token>
    decreases ArgSize(a), 1, 0
  {
    match a
    case NatArg(n) => [Number(n)]
    case IntArg(i) => [Open, Number(i), Close]
    case StrArg(s) => [Str(s)]
    case TermArg(t) => [Open] + (Print(t) + [Close])
  }

  ghost predicate PrintableArgs(args: seq<Arg>) {
    forall k :: 0 <= k < |args| && args[k].TermArg? ==> Printable(args[k].t)
  }

  lemma SpellingPrintable(t: Term)
    requires Printable(t)
    ensures PrintableArgs(Spelling(t).1)
  {
  }

  lemma {:induction false} PrintReads(ts: seq<Token>, i: nat, t: Term)
    requires Printable(t) && Sees(ts, i, Print(t))
    ensures Application(ts, i) == Ok((t, i + |Print(t)|))
    decreases Size(t), 0, 0
  {
    hide Spelling, Build, PrintArgs, ReadArgs, Printable, Size;
    var (name, args) := Spelling(t);
    SpellingBuilds(t);
    SpellingSmaller(t);
    SpellingPrintable(t);
    SeesParts(ts, i, [Ident(name)], PrintArgs(args));
    SeesToken(ts, i, Ident(name));
    ArgsRead(ts, i + 1, args, CTORS[name]);
  }

  lemma {:induction false} ArgsRead(ts: seq<Token>, i: nat, args: seq<Arg>, kinds: seq<ArgKind>)
    requires PrintableArgs(args) && Matches(args, kinds) && Sees(ts, i, PrintArgs(args))
    ensures ReadArgs(ts, i, kinds) == Ok((args, i + |PrintArgs(args)|))
    decreases ArgsSize(args), 2, |args|
  {
    hide ReadArg, PrintArg, Printable;
    if args == [] {
    } else {
      SeesParts(ts, i, PrintArg(args[0]), PrintArgs(args[1..]));
      ArgRead(ts, i, args[0], kinds[0]);
      ArgsRead(ts, i + |PrintArg(args[0])|, args[1..], kinds[1..]);
      assert args == [args[0]] + args[1..];
    }
  }

  lemma {:induction false} ArgRead(ts: seq<Token>, i: nat, a: Arg, kind: ArgKind)
    requires (a.TermArg? ==> Printable(a.t)) && MatchesKind(a, kind) && Sees(ts, i, PrintArg(a))
    ensures ReadArg(ts, i, kind) == Ok((a, i + |PrintArg(a)|))
    decreases ArgSize(a), 1, 0
  {
    hide Application, Print, Printable;
    match a {
      case NatArg(n) => SeesToken(ts, i, Number(n));
      case StrArg(s) => SeesToken(ts, i, Str(s));
      case IntArg(n) =>
        SeesAll(ts, i, [Open, Number(n), Close]);
        assert ts[i + 0] == Open && ts[i + 1] == Number(n) && ts[i + 2] == Close;
      case TermArg(t) =>
        SeesParts(ts, i, [Open], Print(t) + [Close]);
        SeesParts(ts, i + 1, Print(t), [Close]);
        SeesToken(ts, i, Open);
        SeesToken(ts, i + 1 + |Print(t)|, Close);
        PrintReads(ts, i + 1, t);
    }
  }

  /** The parser inverts the printer on every printable term. */
  lemma PrintThenParse(t: Term)
    requires Printable(t)
    ensures ParseTop(Print(t)) == Ok(t)
  {
    hide Application, Print;
    var ts := Print(t);
    assert ts[0..0 + |ts|] == ts;
    PrintReads(ts, 0, t);
  }

  // ----- the two renderings of one constraint

  /** An operand as the atom the accessor rendering shows. */
  function AccessorOf(challenges: seq<nat>, o: Operand): Result<Atom, LaneError> {
    match o
    case Witness(s, c, d) => AccessorAtom(challenges, MainLane(s, c), d)
    case Fixed(c, d) => AccessorAtom(challenges, PreLane(c), d)
    case ChallengeOf(s, i) => AccessorAtom(challenges, ChalLane(s, i), 0)
    case AirValueOf(i) => AccessorAtom(challenges, ExposedLane(AirValue, i), 0)
    case AirGroupValueOf(i) => AccessorAtom(challenges, ExposedLane(AirGroupValue, i), 0)
  }

  /** The accessor collapse of a term, leaf by leaf. */
  function Collapse(challenges: seq<nat>, t: Term): Result<Expr, LaneError> {
    match t
    case Constant(n) => Ok(Const(n))
    case Leaf(o) =>
      var a :- AccessorOf(challenges, o);
      Ok(Var(a))
    case Minus(a) =>
      var x :- Collapse(challenges, a);
      Ok(Neg(x))
    case Plus(a, b) =>
      var x :- Collapse(challenges, a);
      var y :- Collapse(challenges, b);
      Ok(Add(x, y))
    case Less(a, b) =>
      var x :- Collapse(challenges, a);
      var y :- Collapse(challenges, b);
      Ok(Sub(x, y))
    case Times(a, b) =>
      var x :- Collapse(challenges, a);
      var y :- Collapse(challenges, b);
      Ok(Mul(x, y))
  }

  lemma {:induction false} CollapseRenderable(challenges: seq<nat>, t: Term)
    requires Printable(t) && Collapse(challenges, t).Ok?
    ensures Accessors.Renderable(Collapse(challenges, t).value)
  {
    match t {
      case Constant(n) =>
      case Leaf(o) =>
        if o.ChallengeOf? { hide Sum; }
      case Minus(a) => CollapseRenderable(challenges, a);
      case Plus(a, b) => CollapseRenderable(challenges, a); CollapseRenderable(challenges, b);
      case Less(a, b) => CollapseRenderable(challenges, a); CollapseRenderable(challenges, b);
      case Times(a, b) => CollapseRenderable(challenges, a); CollapseRenderable(challenges, b);
    }
  }

  /** Reading the prefix rendering and collapsing it, and reading the parenthesised
      rendering, give one and the same expression. */
  lemma RenderingsAgree(challenges: seq<nat>, t: Term)
    requires Printable(t) && Collapse(challenges, t).Ok?
    ensures ParseTop(Print(t)) == Ok(t)
    ensures Accessors.ParseBody(Accessors.PrintBody(Collapse(challenges, t).value))
            == Ok(Collapse(challenges, ParseTop(Print(t)).value).value)
  {
    PrintThenParse(t);
    CollapseRenderable(challenges, t);
    Accessors.PrintThenParse(Collapse(challenges, t).value);
  }

  predicate IsExposed(o: Operand) {
    o.AirValueOf? || o.AirGroupValueOf?
  }

  /** Terms whose renderings collapse to one expression differ at most in which of the two
      exposed kinds a leaf names. */
  ghost predicate SameUpToSource(s: Term, t: Term) {
    match (s, t)
    case (Constant(m), Constant(n)) => m == n
    case (Leaf(o), Leaf(p)) => o == p || (IsExposed(o) && IsExposed(p) && o.index == p.index)
    case (Minus(a), Minus(b)) => SameUpToSource(a, b)
    case (Plus(a, b), Plus(c, d)) => SameUpToSource(a, c) && SameUpToSource(b, d)
    case (Less(a, b), Less(c, d)) => SameUpToSource(a, c) && SameUpToSource(b, d)
    case (Times(a, b), Times(c, d)) => SameUpToSource(a, c) && SameUpToSource(b, d)
    case _ => false
  }

  lemma {:induction false} CollapseInjective(challenges: seq<nat>, s: Term, t: Term)
    requires Collapse(challenges, s).Ok? && Collapse(challenges, t).Ok?
    ensures Collapse(challenges, s) == Collapse(challenges, t) <==> SameUpToSource(s, t)
  {
    match (s, t) {
      case (Leaf(o), Leaf(p)) =>
        if o.ChallengeOf? && p.ChallengeOf? && AccessorOf(challenges, o) == AccessorOf(challenges, p) {
          FlattenInjective(challenges, o.stage, o.index, p.stage, p.index);
        }
      case (Minus(a), Minus(b)) => CollapseInjective(challenges, a, b);
      case (Plus(a, b), Plus(c, d)) => CollapseInjective(challenges, a, c); CollapseInjective(challenges, b, d);
      case (Less(a, b), Less(c, d)) => CollapseInjective(challenges, a, c); CollapseInjective(challenges, b, d);
      case (Times(a, b), Times(c, d)) => CollapseInjective(challenges, a, c); CollapseInjective(challenges, b, d);
      case _ =>
    }
  }
}
