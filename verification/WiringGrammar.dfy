/** The language of the prefix rendering, as the token sequences that spell a term, and the
    proof that the parser accepts exactly those. */
module WiringGrammar {
  import opened Results
  import opened Slices
  import opened Decimals
  import opened LeanWiring

  // ----- spellings

  ghost predicate SpellsConstant(part: seq<Token>, n: int, digits: string) {
    digits != [] && AllDigits(digits) && DecimalValue(digits) == n && part == [Ident("Expr.constant"), Str(digits)]
  }

  /** A constructor and its arguments: indices are not negative, row offsets stand in
      parentheses, operands too. */
  ghost predicate SpellsTerm(part: seq<Token>, t: Term)
    decreases t, 0
  {
    match t
    case Constant(n) => exists digits :: SpellsConstant(part, n, digits)
    case Leaf(Witness(s, c, d)) =>
      s >= 0 && c >= 0 && part == [Ident("Expr.witness"), Number(s), Number(c), Open, Number(d), Close]
    case Leaf(Fixed(c, d)) => c >= 0 && part == [Ident("Expr.fixed"), Number(c), Open, Number(d), Close]
    case Leaf(ChallengeOf(s, i)) => s >= 0 && i >= 0 && part == [Ident("Expr.challenge"), Number(s), Number(i)]
    case Leaf(AirValueOf(i)) => i >= 0 && part == [Ident("Expr.airValue"), Number(i)]
    case Leaf(AirGroupValueOf(i)) => i >= 0 && part == [Ident("Expr.airGroupValue"), Number(i)]
    case Minus(a) => exists x :: SpellsOperand(x, a) && part == [Ident("Expr.neg")] + x
    case Plus(a, b) => exists x, y :: SpellsOperand(x, a) && SpellsOperand(y, b) && part == [Ident("Expr.add")] + x + y
    case Less(a, b) => exists x, y :: SpellsOperand(x, a) && SpellsOperand(y, b) && part == [Ident("Expr.sub")] + x + y
    case Times(a, b) => exists x, y :: SpellsOperand(x, a) && SpellsOperand(y, b) && part == [Ident("Expr.mul")] + x + y
  }

  ghost predicate SpellsOperand(part: seq<Token>, t: Term)
    decreases t, 1
  {
    exists x :: SpellsTerm(x, t) && part == [Open] + x + [Close]
  }

  // ----- the arguments of a constructor, written out

  lemma ArgsStep(ts: seq<Token>, i: nat, kinds: seq<ArgKind>)
    ensures ReadArgs(ts, i, []) == Ok(([], i))
    ensures kinds != [] ==>
              var a := ReadArg(ts, i, kinds[0]);
              ReadArgs(ts, i, kinds) == if a.Err? then Err(a.error)
                                        else Prepend([a.value.0], ReadArgs(ts, a.value.1, kinds[1..]))
  {
    hide ReadArg;
  }

  lemma OneArg(ts: seq<Token>, i: nat, k: ArgKind)
    ensures var a := ReadArg(ts, i, k);
            ReadArgs(ts, i, [k]) == if a.Err? then Err(a.error) else Ok(([a.value.0], a.value.1))
  {
    hide ReadArg, ReadArgs;
    ArgsStep(ts, i, [k]);
    assert [k][1..] == [];
    var a := ReadArg(ts, i, k);
    if a.Ok? {
      ArgsStep(ts, a.value.1, []);
      assert [a.value.0] + [] == [a.value.0];
    }
  }

  lemma TwoArgs(ts: seq<Token>, i: nat, k: ArgKind, l: ArgKind)
    ensures var a := ReadArg(ts, i, k);
            var b := if a.Err? then a else ReadArg(ts, a.value.1, l);
            ReadArgs(ts, i, [k, l]) == if b.Err? then Err(b.error) else Ok(([a.value.0, b.value.0], b.value.1))
  {
    hide ReadArg, ReadArgs;
    ArgsStep(ts, i, [k, l]);
    assert [k, l][1..] == [l];
    var a := ReadArg(ts, i, k);
    if a.Ok? {
      OneArg(ts, a.value.1, l);
      forall b: Arg ensures [a.value.0] + [b] == [a.value.0, b] {}
    }
  }

  lemma ThreeArgs(ts: seq<Token>, i: nat, k: ArgKind, l: ArgKind, m: ArgKind)
    ensures var a := ReadArg(ts, i, k);
            var b := if a.Err? then a else ReadArg(ts, a.value.1, l);
            var c := if b.Err? then b else ReadArg(ts, b.value.1, m);
            ReadArgs(ts, i, [k, l, m]) == if c.Err? then Err(c.error)
                                          else Ok(([a.value.0, b.value.0, c.value.0], c.value.1))
  {
    hide ReadArg, ReadArgs;
    ArgsStep(ts, i, [k, l, m]);
    assert [k, l, m][1..] == [l, m];
    var a := ReadArg(ts, i, k);
    if a.Ok? {
      TwoArgs(ts, a.value.1, l, m);
      forall b: Arg, c: Arg ensures [a.value.0] + [b, c] == [a.value.0, b, c] {}
    }
  }

  // ----- single arguments

  lemma Around(ts: seq<Token>, i: nat, j: nat)
    requires i + 2 <= j <= |ts| && ts[i].Open? && ts[j - 1].Close?
    ensures ts[i..j] == [Open] + ts[i + 1..j - 1] + [Close]
  {
  }

  lemma Joined(ts: seq<Token>, i: nat, j: nat, k: nat)
    requires i < j <= k <= |ts|
    ensures ts[i..k] == [ts[i]] + ts[i + 1..j] + ts[j..k]
  {
  }

  // ----- what is accepted is spelled

  lemma MinusSpelled(ts: seq<Token>, i: nat, j: nat, a: Term)
    requires i + 1 <= j <= |ts| && ts[i] == Ident("Expr.neg") && SpellsOperand(ts[i + 1..j], a)
    ensures SpellsTerm(ts[i..j], Minus(a))
  {
    hide SpellsOperand;
    assert ts[i..j] == [ts[i]] + ts[i + 1..j];
  }

  lemma BinarySpelled(ts: seq<Token>, i: nat, m: nat, j: nat, name: string, a: Term, b: Term)
    requires i + 1 <= m <= j <= |ts| && ts[i] == Ident(name)
    requires SpellsOperand(ts[i + 1..m], a) && SpellsOperand(ts[m..j], b)
    ensures name == "Expr.add" ==> SpellsTerm(ts[i..j], Plus(a, b))
    ensures name == "Expr.sub" ==> SpellsTerm(ts[i..j], Less(a, b))
    ensures name == "Expr.mul" ==> SpellsTerm(ts[i..j], Times(a, b))
  {
    hide SpellsOperand;
    Joined(ts, i, m, j);
  }

  lemma Witnessed(ts: seq<Token>, i: nat, j: nat, s: nat, c: nat, d: int)
    requires i + 3 <= j <= |ts| && ts[i] == Ident("Expr.witness") && ts[i + 1] == Number(s) && ts[i + 2] == Number(c)
    requires ts[i + 3..j] == [Open, Number(d), Close]
    ensures SpellsTerm(ts[i..j], Leaf(Witness(s, c, d)))
  {
    assert ts[i..j] == [ts[i], ts[i + 1], ts[i + 2]] + ts[i + 3..j];
  }

  lemma FixedSpelled(ts: seq<Token>, i: nat, j: nat, c: nat, d: int)
    requires i + 2 <= j <= |ts| && ts[i] == Ident("Expr.fixed") && ts[i + 1] == Number(c)
    requires ts[i + 2..j] == [Open, Number(d), Close]
    ensures SpellsTerm(ts[i..j], Leaf(Fixed(c, d)))
  {
    assert ts[i..j] == [ts[i], ts[i + 1]] + ts[i + 2..j];
  }

  lemma OffsetRead(ts: seq<Token>, i: nat)
    ensures ReadArg(ts, i, IntKind).Ok? ==>
              var (a, j) := ReadArg(ts, i, IntKind).value;
              a.IntArg? && j <= |ts| && ts[i..j] == [Open, Number(a.i), Close]
  {
    if i + 2 < |ts| { assert ts[i..i + 3] == [ts[i], ts[i + 1], ts[i + 2]]; }
  }

  lemma ConstantSound(ts: seq<Token>, i: nat)
    requires Application(ts, i).Ok? && Application(ts, i).value.0.Constant?
    ensures var (t, j) := Application(ts, i).value; i < j <= |ts| && SpellsTerm(ts[i..j], t)
  {
    hide ReadArgs, SpellsOperand;
    var (t, j) := Application(ts, i).value;
    OneArg(ts, i + 1, StrKind);
    assert ts[i..j] == [ts[i], ts[i + 1]];
    assert SpellsConstant(ts[i..j], t.n, ts[i + 1].text);
  }

  lemma ShiftedSound(ts: seq<Token>, i: nat)
    requires Application(ts, i).Ok? && Application(ts, i).value.0.Leaf?
    requires var o := Application(ts, i).value.0.operand; o.Witness? || o.Fixed?
    ensures var (t, j) := Application(ts, i).value; i < j <= |ts| && SpellsTerm(ts[i..j], t)
  {
    hide ReadArgs, SpellsTerm;
    var (t, j) := Application(ts, i).value;
    var k := i + 1;
    if t.operand.Witness? {
      ThreeArgs(ts, k, NatKind, NatKind, IntKind);
      OffsetRead(ts, k + 2);
      Witnessed(ts, i, j, t.operand.stage, t.operand.column, t.operand.delta);
    } else {
      TwoArgs(ts, k, NatKind, IntKind);
      OffsetRead(ts, k + 1);
      FixedSpelled(ts, i, j, t.operand.column, t.operand.delta);
    }
  }

  lemma LeafSound(ts: seq<Token>, i: nat)
    requires Application(ts, i).Ok? && Application(ts, i).value.0.Leaf?
    ensures var (t, j) := Application(ts, i).value; i < j <= |ts| && SpellsTerm(ts[i..j], t)
  {
    hide ReadArgs, SpellsOperand;
    var (t, j) := Application(ts, i).value;
    var k := i + 1;
    if t.operand.Witness? || t.operand.Fixed? {
      ShiftedSound(ts, i);
    } else if t.operand.ChallengeOf? {
      TwoArgs(ts, k, NatKind, NatKind);
      assert ts[i..j] == [ts[i], ts[k], ts[k + 1]];
    } else {
      OneArg(ts, k, NatKind);
      assert ts[i..j] == [ts[i], ts[k]];
    }
  }

  lemma {:induction false} ApplicationSound(ts: seq<Token>, i: nat)
    ensures Application(ts, i).Ok? ==>
              var (t, j) := Application(ts, i).value; i < j <= |ts| && SpellsTerm(ts[i..j], t)
    decreases |ts| - i, 1
  {
    hide ReadArg, ReadArgs, SpellsTerm, SpellsOperand;
    if Application(ts, i).Ok? {
      var (t, j) := Application(ts, i).value;
      match t {
        case Minus(a) =>
          OneArg(ts, i + 1, ExprKind);
          OperandSound(ts, i + 1);
          MinusSpelled(ts, i, j, a);
        case Plus(a, b) => BinarySound(ts, i);
        case Less(a, b) => BinarySound(ts, i);
        case Times(a, b) => BinarySound(ts, i);
        case Constant(_) => ConstantSound(ts, i);
        case Leaf(_) => LeafSound(ts, i);
      }
    }
  }

  lemma {:induction false} OperandSound(ts: seq<Token>, i: nat)
    ensures ReadArg(ts, i, ExprKind).Ok? ==>
              var (a, j) := ReadArg(ts, i, ExprKind).value; i < j <= |ts| && a.TermArg? && SpellsOperand(ts[i..j], a.t)
    decreases |ts| - i, 2
  {
    hide Application, SpellsTerm;
    if ReadArg(ts, i, ExprKind).Ok? {
      var (a, j) := ReadArg(ts, i, ExprKind).value;
      ApplicationSound(ts, i + 1);
      Around(ts, i, j);
    }
  }

  lemma {:induction false} BinarySound(ts: seq<Token>, i: nat)
    requires Application(ts, i).Ok?
    requires var t := Application(ts, i).value.0; t.Plus? || t.Less? || t.Times?
    ensures var (t, j) := Application(ts, i).value; i < j <= |ts| && SpellsTerm(ts[i..j], t)
    decreases |ts| - i, 0
  {
    hide ReadArg, ReadArgs, SpellsTerm, SpellsOperand;
    var (t, j) := Application(ts, i).value;
    TwoArgs(ts, i + 1, ExprKind, ExprKind);
    OperandSound(ts, i + 1);
    var m := ReadArg(ts, i + 1, ExprKind).value.1;
    OperandSound(ts, m);
    BinarySpelled(ts, i, m, j, ts[i].name, t.left, t.right);
  }

  // ----- what is spelled is accepted

  lemma OperandParts(ts: seq<Token>, i: nat, j: nat, t: Term)
    requires i <= j <= |ts| && SpellsOperand(ts[i..j], t)
    ensures i + 2 <= j && ts[i].Open? && ts[j - 1].Close? && SpellsTerm(ts[i + 1..j - 1], t)
  {
    hide SpellsTerm;
    var x :| SpellsTerm(x, t) && ts[i..j] == [Open] + x + [Close];
    assert [Open] + x + [Close] == [Open] + (x + [Close]);
    Cut(ts, i, j, [Open], x + [Close]);
    Cut(ts, i + 1, j, x, [Close]);
    One(ts, i);
    One(ts, j - 1);
  }

  lemma OneOperand(ts: seq<Token>, i: nat, j: nat, x: seq<Token>)
    requires i <= j <= |ts| && ts[i..j] == [Ident("Expr.neg")] + x
    ensures i < j && ts[i] == Ident("Expr.neg") && ts[i + 1..j] == x
  {
    Cut(ts, i, j, [Ident("Expr.neg")], x);
    One(ts, i);
  }

  lemma TwoOperands(ts: seq<Token>, i: nat, j: nat, name: string, x: seq<Token>, y: seq<Token>)
    requires i <= j <= |ts| && ts[i..j] == [Ident(name)] + x + y
    ensures i + 1 + |x| <= j && ts[i] == Ident(name)
    ensures ts[i + 1..i + 1 + |x|] == x && ts[i + 1 + |x|..j] == y
  {
    assert [Ident(name)] + x + y == [Ident(name)] + (x + y);
    Cut(ts, i, j, [Ident(name)], x + y);
    Cut(ts, i + 1, j, x, y);
    One(ts, i);
  }

  lemma MinusRead(ts: seq<Token>, i: nat, j: nat, a: Term)
    requires i < |ts| && ts[i] == Ident("Expr.neg") && ReadArg(ts, i + 1, ExprKind) == Ok((TermArg(a), j))
    ensures Application(ts, i) == Ok((Minus(a), j))
  {
    hide ReadArgs, ReadArg;
    OneArg(ts, i + 1, ExprKind);
  }

  lemma ConstantComplete(ts: seq<Token>, i: nat, j: nat, n: int)
    requires i <= j <= |ts| && SpellsTerm(ts[i..j], Constant(n))
    ensures Application(ts, i) == Ok((Constant(n), j))
  {
    hide ReadArgs;
    var part := ts[i..j];
    var digits :| SpellsConstant(part, n, digits);
    assert part[0] == ts[i] && part[1] == ts[i + 1];
    OneArg(ts, i + 1, StrKind);
  }

  /** A part of three tokens or more, token by token. */
  lemma TokensOf(ts: seq<Token>, i: nat, j: nat, part: seq<Token>)
    requires i <= j <= |ts| && ts[i..j] == part
    ensures j == i + |part| && forall k :: 0 <= k < |part| ==> ts[i + k] == part[k]
  {
  }

  lemma WitnessRead(ts: seq<Token>, i: nat, j: nat, s: nat, c: nat, d: int)
    requires i <= j <= |ts| && ts[i..j] == [Ident("Expr.witness"), Number(s), Number(c), Open, Number(d), Close]
    ensures Application(ts, i) == Ok((Leaf(Witness(s, c, d)), j))
  {
    hide ReadArgs;
    TokensOf(ts, i, j, [Ident("Expr.witness"), Number(s), Number(c), Open, Number(d), Close]);
    assert ts[i + 0].Ident? && ts[i + 1].Number? && ts[i + 2].Number? && ts[i + 3].Open? && ts[i + 5].Close?;
    ThreeArgs(ts, i + 1, NatKind, NatKind, IntKind);
  }

  lemma FixedRead(ts: seq<Token>, i: nat, j: nat, c: nat, d: int)
    requires i <= j <= |ts| && ts[i..j] == [Ident("Expr.fixed"), Number(c), Open, Number(d), Close]
    ensures Application(ts, i) == Ok((Leaf(Fixed(c, d)), j))
  {
    hide ReadArgs;
    TokensOf(ts, i, j, [Ident("Expr.fixed"), Number(c), Open, Number(d), Close]);
    assert ts[i + 0].Ident? && ts[i + 1].Number? && ts[i + 2].Open? && ts[i + 4].Close?;
    TwoArgs(ts, i + 1, NatKind, IntKind);
  }

  lemma LeafComplete(ts: seq<Token>, i: nat, j: nat, o: Operand)
    requires i <= j <= |ts| && SpellsTerm(ts[i..j], Leaf(o))
    ensures Application(ts, i) == Ok((Leaf(o), j))
  {
    hide ReadArgs, SpellsOperand;
    TokensOf(ts, i, j, ts[i..j]);
    assert ts[i + 0].Ident? && ts[i + 1].Number?;
    match o {
      case Witness(s, c, d) => WitnessRead(ts, i, j, s, c, d);
      case Fixed(c, d) => FixedRead(ts, i, j, c, d);
      case ChallengeOf(s, n) =>
        assert ts[i + 2].Number?;
        TwoArgs(ts, i + 1, NatKind, NatKind);
      case _ => OneArg(ts, i + 1, NatKind);
    }
  }

  lemma {:induction false} OperandComplete(ts: seq<Token>, i: nat, j: nat, t: Term)
    requires i <= j <= |ts| && SpellsOperand(ts[i..j], t)
    ensures ReadArg(ts, i, ExprKind) == Ok((TermArg(t), j)) && i < j
    decreases t, 1
  {
    hide SpellsOperand, SpellsTerm, Application;
    OperandParts(ts, i, j, t);
    TermComplete(ts, i + 1, j - 1, t);
  }

  lemma {:induction false} BinaryComplete(ts: seq<Token>, i: nat, j: nat, name: string, x: seq<Token>, y: seq<Token>,
                                          a: Term, b: Term, t: Term)
    requires i <= j <= |ts| && ts[i..j] == [Ident(name)] + x + y && SpellsOperand(x, a) && SpellsOperand(y, b)
    requires (name == "Expr.add" && t == Plus(a, b)) || (name == "Expr.sub" && t == Less(a, b))
          || (name == "Expr.mul" && t == Times(a, b))
    ensures Application(ts, i) == Ok((t, j))
    decreases t, 0, 0
  {
    hide SpellsOperand, ReadArgs, ReadArg;
    TwoOperands(ts, i, j, name, x, y);
    var m := i + 1 + |x|;
    OperandComplete(ts, i + 1, m, a);
    OperandComplete(ts, m, j, b);
    TwoArgs(ts, i + 1, ExprKind, ExprKind);
  }

  lemma {:induction false} TermComplete(ts: seq<Token>, i: nat, j: nat, t: Term)
    requires i <= j <= |ts| && SpellsTerm(ts[i..j], t)
    ensures Application(ts, i) == Ok((t, j))
    decreases t, 0, 1
  {
    hide SpellsOperand, ReadArgs, ReadArg, Application;
    match t {
      case Minus(a) =>
        var x :| SpellsOperand(x, a) && ts[i..j] == [Ident("Expr.neg")] + x;
        OneOperand(ts, i, j, x);
        OperandComplete(ts, i + 1, j, a);
        MinusRead(ts, i, j, a);
      case Plus(a, b) =>
        var x, y :| SpellsOperand(x, a) && SpellsOperand(y, b) && ts[i..j] == [Ident("Expr.add")] + x + y;
        BinaryComplete(ts, i, j, "Expr.add", x, y, a, b, t);
      case Less(a, b) =>
        var x, y :| SpellsOperand(x, a) && SpellsOperand(y, b) && ts[i..j] == [Ident("Expr.sub")] + x + y;
        BinaryComplete(ts, i, j, "Expr.sub", x, y, a, b, t);
      case Times(a, b) =>
        var x, y :| SpellsOperand(x, a) && SpellsOperand(y, b) && ts[i..j] == [Ident("Expr.mul")] + x + y;
        BinaryComplete(ts, i, j, "Expr.mul", x, y, a, b, t);
      case Constant(n) => ConstantComplete(ts, i, j, n);
      case Leaf(o) => LeafComplete(ts, i, j, o);
    }
  }

  /** The parser accepts exactly the token sequences that spell a term, and reads that one. */
  lemma AcceptsExactly(ts: seq<Token>, t: Term)
    ensures ParseTop(ts) == Ok(t) <==> SpellsTerm(ts, t)
  {
    hide Application, SpellsTerm;
    assert ts[0..|ts|] == ts;
    if ParseTop(ts) == Ok(t) { ApplicationSound(ts, 0); }
    if SpellsTerm(ts, t) { TermComplete(ts, 0, |ts|, t); }
  }
}
