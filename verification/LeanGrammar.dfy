/** The language of the parenthesised rendering, as the token sequences that spell an
    expression, and the proof that the parser accepts exactly those. */
module LeanGrammar {
  import opened Results
  import opened Slices
  import opened Atoms
  import opened Expressions
  import opened LeanParser

  // ----- spellings

  /** `(name := value)` */
  ghost predicate SpellsNamed(part: seq<Token>, name: string, value: int) {
    value >= 0 && part == [Punct('('), Word(name), Assign, Numeral(value), Punct(')')]
  }

  /** Nothing, `+ n` or `- n`. */
  ghost predicate SpellsOffset(part: seq<Token>, delta: int) {
    || (part == [] && delta == 0)
    || (delta >= 0 && part == [Punct('+'), Numeral(delta)])
    || (delta <= 0 && part == [Punct('-'), Numeral(-delta)])
  }

  /** `(row := row)` with an offset. */
  ghost predicate SpellsRow(part: seq<Token>, delta: int) {
    exists offset :: SpellsOffset(offset, delta)
                  && part == [Punct('('), Word("row"), Assign, Word("row")] + offset + [Punct(')')]
  }

  /** A row, then the rotation, which is always zero. */
  ghost predicate SpellsPlace(part: seq<Token>, column: int, delta: int) {
    exists c, r, z :: SpellsNamed(c, "column", column) && SpellsRow(r, delta) && SpellsNamed(z, "rotation", 0)
                   && part == c + r + z
  }

  ghost predicate SpellsAtom(part: seq<Token>, a: Atom) {
    match a
    case Main(stage, column, delta) =>
      exists s, rest :: SpellsNamed(s, "id", stage) && SpellsPlace(rest, column, delta)
                     && part == [Word("Extraction.Circuit.main"), Word("c")] + s + rest
    case Pre(column, delta) =>
      exists rest :: SpellsPlace(rest, column, delta)
                  && part == [Word("Extraction.Circuit.preprocessed"), Word("c")] + rest
    case Chal(index) =>
      exists n :: SpellsNamed(n, "index", index) && part == [Word("Extraction.Circuit.challenge"), Word("c")] + n
    case Exposed(index) =>
      exists n :: SpellsNamed(n, "index", index) && part == [Word("Extraction.Circuit.exposed"), Word("c")] + n
    case _ => false
  }

  /** A numeral, or anything else in parentheses of its own. */
  ghost predicate Spells(part: seq<Token>, e: Expr)
    decreases e, 1
  {
    match e
    case Const(n) => n >= 0 && part == [Numeral(n)]
    case _ => exists inner :: SpellsInner(inner, e) && part == [Punct('(')] + inner + [Punct(')')]
  }

  ghost predicate SpellsInner(part: seq<Token>, e: Expr)
    decreases e, 0
  {
    match e
    case Const(_) => false
    case Var(a) => SpellsAtom(part, a)
    case Neg(a) => exists x :: Spells(x, a) && part == [Punct('-')] + x
    case Add(a, b) => exists x, y :: Spells(x, a) && Spells(y, b) && part == x + [Punct('+')] + y
    case Sub(a, b) => exists x, y :: Spells(x, a) && Spells(y, b) && part == x + [Punct('-')] + y
    case Mul(a, b) => exists x, y :: Spells(x, a) && Spells(y, b) && part == x + [Punct('*')] + y
  }

  /** `(expr) = 0` */
  ghost predicate SpellsBody(ts: seq<Token>, e: Expr) {
    exists x :: Spells(x, e) && ts == [Punct('(')] + x + [Punct(')'), Punct('='), Numeral(0)]
  }

  // ----- the pieces of an accessor

  lemma NamedExactly(ts: seq<Token>, i: nat, name: string, value: nat, j: nat)
    ensures NamedNumber(ts, i, name) == Ok((value, j)) <==> i <= j <= |ts| && SpellsNamed(ts[i..j], name, value)
  {
    if i <= j <= |ts| && SpellsNamed(ts[i..j], name, value) {
      var part := ts[i..j];
      assert |part| == 5 && part[0] == ts[i] && part[1] == ts[i + 1] && part[2] == ts[i + 2];
      assert part[3] == ts[i + 3] && part[4] == ts[i + 4];
    }
    if NamedNumber(ts, i, name) == Ok((value, j)) {
      assert ts[i..j] == [ts[i], ts[i + 1], ts[i + 2], ts[i + 3], ts[i + 4]];
    }
  }

  lemma RowSound(ts: seq<Token>, i: nat)
    ensures NamedRow(ts, i).Ok? ==>
              var (delta, j) := NamedRow(ts, i).value; i <= j <= |ts| && SpellsRow(ts[i..j], delta)
  {
    if NamedRow(ts, i).Ok? {
      var (delta, j) := NamedRow(ts, i).value;
      var head := [Punct('('), Word("row"), Assign, Word("row")];
      assert ts[i..i + 4] == head;
      assert ts[j - 1..j] == [Punct(')')];
      Glue(ts, i, i + 4, j - 1);
      Glue(ts, i, j - 1, j);
      if j - 1 > i + 4 { assert ts[i + 4..j - 1] == [ts[i + 4], ts[i + 5]]; }
      assert SpellsOffset(ts[i + 4..j - 1], delta);
    }
  }

  lemma RowComplete(ts: seq<Token>, i: nat, j: nat, delta: int)
    requires i <= j <= |ts| && SpellsRow(ts[i..j], delta)
    ensures NamedRow(ts, i) == Ok((delta, j))
  {
    var head := [Punct('('), Word("row"), Assign, Word("row")];
    var offset :| SpellsOffset(offset, delta) && ts[i..j] == head + offset + [Punct(')')];
    assert head + offset + [Punct(')')] == head + (offset + [Punct(')')]);
    Cut(ts, i, j, head, offset + [Punct(')')]);
    assert ts[i] == ts[i..i + 4][0] && ts[i + 1] == ts[i..i + 4][1];
    assert ts[i + 2] == ts[i..i + 4][2] && ts[i + 3] == ts[i..i + 4][3];
    Cut(ts, i + 4, j, offset, [Punct(')')]);
    assert ts[j - 1] == ts[i + 4 + |offset|..j][0];
    if offset != [] { assert ts[i + 4] == ts[i + 4..i + 6][0] && ts[i + 5] == ts[i + 4..i + 6][1]; }
  }

  lemma PlaceSound(ts: seq<Token>, i: nat)
    ensures var column := NamedNumber(ts, i, "column");
            column.Ok? ==>
              var row := NamedRow(ts, column.value.1);
              row.Ok? && ZeroRotation(ts, row.value.1).Ok? ==>
                var j := ZeroRotation(ts, row.value.1).value;
                i <= j <= |ts| && SpellsPlace(ts[i..j], column.value.0, row.value.0)
  {
    hide NamedNumber, NamedRow, SpellsNamed, SpellsRow;
    var column := NamedNumber(ts, i, "column");
    if column.Ok? {
      var k := column.value.1;
      NamedExactly(ts, i, "column", column.value.0, k);
      var row := NamedRow(ts, k);
      RowSound(ts, k);
      if row.Ok? && ZeroRotation(ts, row.value.1).Ok? {
        var m, j := row.value.1, ZeroRotation(ts, row.value.1).value;
        NamedExactly(ts, m, "rotation", 0, j);
        Glue(ts, i, k, m);
        Glue(ts, i, m, j);
        assert SpellsPlace(ts[i..j], column.value.0, row.value.0);
      }
    }
  }

  lemma PlaceComplete(ts: seq<Token>, i: nat, j: nat, column: int, delta: int)
    requires i <= j <= |ts| && SpellsPlace(ts[i..j], column, delta)
    ensures var n := NamedNumber(ts, i, "column");
            && n.Ok? && n.value.0 == column
            && var row := NamedRow(ts, n.value.1);
               row.Ok? && row.value.0 == delta && ZeroRotation(ts, row.value.1) == Ok(j)
  {
    hide NamedNumber, NamedRow, SpellsRow;
    var c, r, z :| SpellsNamed(c, "column", column) && SpellsRow(r, delta) && SpellsNamed(z, "rotation", 0)
                   && ts[i..j] == c + r + z;
    assert c + r + z == c + (r + z);
    Cut(ts, i, j, c, r + z);
    Cut(ts, i + |c|, j, r, z);
    NamedExactly(ts, i, "column", column, i + |c|);
    RowComplete(ts, i + |c|, i + |c| + |r|, delta);
    NamedExactly(ts, i + |c| + |r|, "rotation", 0, j);
  }

  lemma AccessorSound(ts: seq<Token>, i: nat)
    ensures ParseAccessor(ts, i).Ok? ==>
              var (a, j) := ParseAccessor(ts, i).value; i + 2 <= j <= |ts| && ts[i].Word? && SpellsAtom(ts[i..j], a)
  {
    hide NamedNumber, NamedRow, ZeroRotation, SpellsNamed, SpellsPlace;
    if ParseAccessor(ts, i).Ok? {
      var (a, j) := ParseAccessor(ts, i).value;
      var k := i + 2;
      assert ts[i..k] == [ts[i], ts[i + 1]];
      match a {
        case Main(stage, column, delta) =>
          var s := NamedNumber(ts, k, "id");
          NamedExactly(ts, k, "id", s.value.0, s.value.1);
          PlaceSound(ts, s.value.1);
          Glue(ts, i, k, s.value.1);
          Glue(ts, i, s.value.1, j);
        case Pre(column, delta) =>
          PlaceSound(ts, k);
          Glue(ts, i, k, j);
        case Chal(index) =>
          NamedExactly(ts, k, "index", index, j);
          Glue(ts, i, k, j);
        case Exposed(index) =>
          NamedExactly(ts, k, "index", index, j);
          Glue(ts, i, k, j);
        case _ =>
      }
    }
  }

  lemma HeadAndRest(ts: seq<Token>, i: nat, j: nat, name: string, rest: seq<Token>)
    requires i <= j <= |ts| && ts[i..j] == [Word(name), Word("c")] + rest
    ensures i + 2 <= j && ts[i] == Word(name) && ts[i + 1] == Word("c") && ts[i + 2..j] == rest
  {
    Cut(ts, i, j, [Word(name), Word("c")], rest);
    assert ts[i] == ts[i..i + 2][0] && ts[i + 1] == ts[i..i + 2][1];
  }

  lemma AccessorComplete(ts: seq<Token>, i: nat, j: nat, a: Atom)
    requires i <= j <= |ts| && SpellsAtom(ts[i..j], a)
    ensures ParseAccessor(ts, i) == Ok((a, j)) && i < |ts| && ts[i].Word? && IsAccessorName(ts[i].text)
  {
    hide NamedNumber, NamedRow, ZeroRotation, SpellsPlace;
    match a {
      case Main(stage, column, delta) =>
        var name := "Extraction.Circuit.main";
        var s, rest :| SpellsNamed(s, "id", stage) && SpellsPlace(rest, column, delta)
                       && ts[i..j] == [Word(name), Word("c")] + s + rest;
        assert [Word(name), Word("c")] + s + rest == [Word(name), Word("c")] + (s + rest);
        HeadAndRest(ts, i, j, name, s + rest);
        Cut(ts, i + 2, j, s, rest);
        NamedExactly(ts, i + 2, "id", stage, i + 2 + |s|);
        PlaceComplete(ts, i + 2 + |s|, j, column, delta);
      case Pre(column, delta) =>
        var name := "Extraction.Circuit.preprocessed";
        var rest :| SpellsPlace(rest, column, delta) && ts[i..j] == [Word(name), Word("c")] + rest;
        HeadAndRest(ts, i, j, name, rest);
        PlaceComplete(ts, i + 2, j, column, delta);
      case Chal(index) =>
        var name := "Extraction.Circuit.challenge";
        var n :| SpellsNamed(n, "index", index) && ts[i..j] == [Word(name), Word("c")] + n;
        HeadAndRest(ts, i, j, name, n);
        NamedExactly(ts, i + 2, "index", index, j);
      case Exposed(index) =>
        var name := "Extraction.Circuit.exposed";
        var n :| SpellsNamed(n, "index", index) && ts[i..j] == [Word(name), Word("c")] + n;
        HeadAndRest(ts, i, j, name, n);
        NamedExactly(ts, i + 2, "index", index, j);
    }
  }

  // ----- expressions

  lemma Enclose(ts: seq<Token>, i: nat, j: nat, e: Expr)
    requires i + 2 <= j <= |ts| && ts[i] == Punct('(') && ts[j - 1] == Punct(')') && !e.Const?
    requires SpellsInner(ts[i + 1..j - 1], e)
    ensures Spells(ts[i..j], e)
  {
    hide SpellsInner;
    assert ts[i..j] == [Punct('(')] + ts[i + 1..j - 1] + [Punct(')')];
  }

  lemma Disclose(ts: seq<Token>, i: nat, j: nat, e: Expr)
    requires i <= j <= |ts| && !e.Const? && Spells(ts[i..j], e)
    ensures i + 2 <= j && ts[i] == Punct('(') && ts[j - 1] == Punct(')') && SpellsInner(ts[i + 1..j - 1], e)
  {
    hide SpellsInner;
    var inner :| SpellsInner(inner, e) && ts[i..j] == [Punct('(')] + inner + [Punct(')')];
    assert [Punct('(')] + inner + [Punct(')')] == [Punct('(')] + (inner + [Punct(')')]);
    Cut(ts, i, j, [Punct('(')], inner + [Punct(')')]);
    Cut(ts, i + 1, j, inner, [Punct(')')]);
    One(ts, i);
    One(ts, j - 1);
  }

  lemma {:induction false} ExprSound(ts: seq<Token>, i: nat)
    ensures ParseExpr(ts, i).Ok? ==> var (e, j) := ParseExpr(ts, i).value; i < j <= |ts| && Spells(ts[i..j], e)
    decreases |ts| - i, 1
  {
    hide ParseInner, SpellsInner;
    if ParseExpr(ts, i).Ok? {
      var (e, j) := ParseExpr(ts, i).value;
      if ts[i].Numeral? {
        One(ts, i);
      } else {
        hide Spells;
        InnerSound(ts, i + 1);
        Enclose(ts, i, j, e);
      }
    }
  }

  lemma {:induction false} InnerSound(ts: seq<Token>, i: nat)
    ensures ParseInner(ts, i).Ok? ==>
              var (e, j) := ParseInner(ts, i).value; i < j <= |ts| && !e.Const? && SpellsInner(ts[i..j], e)
    decreases |ts| - i, 2
  {
    hide ParseExpr, ParseAccessor, Spells;
    if ParseInner(ts, i).Ok? {
      var (e, j) := ParseInner(ts, i).value;
      One(ts, i);
      if ts[i].Word? {
        AccessorSound(ts, i);
      } else if ts[i] == Punct('-') {
        ExprSound(ts, i + 1);
        Glue(ts, i, i + 1, j);
      } else {
        ExprSound(ts, i);
        var k := ParseExpr(ts, i).value.1;
        ExprSound(ts, k + 1);
        One(ts, k);
        Glue(ts, i, k, k + 1);
        Glue(ts, i, k + 1, j);
        assert ts[i..j] == ts[i..k] + [ts[k]] + ts[k + 1..j];
      }
    }
  }

  lemma StartsExpr(ts: seq<Token>, i: nat, j: nat, e: Expr)
    requires i <= j <= |ts| && Spells(ts[i..j], e)
    ensures i < |ts| && !ts[i].Word? && ts[i] != Punct('-')
  {
    hide SpellsInner;
    assert ts[i..j] != [];
    assert ts[i] == ts[i..j][0];
  }

  lemma {:induction false} ExprComplete(ts: seq<Token>, i: nat, j: nat, e: Expr)
    requires i <= j <= |ts| && Spells(ts[i..j], e)
    ensures ParseExpr(ts, i) == Ok((e, j)) && i < j
    decreases e, 1
  {
    hide ParseInner, SpellsInner;
    if e.Const? {
      assert ts[i] == ts[i..j][0];
    } else {
      hide Spells;
      Disclose(ts, i, j, e);
      InnerComplete(ts, i + 1, j - 1, e);
    }
  }

  lemma BinaryComplete(ts: seq<Token>, i: nat, j: nat, mark: char, e: Expr, a: Expr, b: Expr, x: seq<Token>,
                       y: seq<Token>)
    requires i <= j <= |ts| && ts[i..j] == x + [Punct(mark)] + y && Spells(x, a) && Spells(y, b)
    requires (mark == '+' && e == Add(a, b)) || (mark == '-' && e == Sub(a, b)) || (mark == '*' && e == Mul(a, b))
    ensures ParseInner(ts, i) == Ok((e, j))
    decreases e, 0, 0
  {
    hide Spells, ParseExpr;
    assert x + [Punct(mark)] + y == x + ([Punct(mark)] + y);
    Cut(ts, i, j, x, [Punct(mark)] + y);
    var k := i + |x|;
    Cut(ts, k, j, [Punct(mark)], y);
    assert ts[k] == ts[k..k + 1][0];
    StartsExpr(ts, i, k, a);
    ExprComplete(ts, i, k, a);
    ExprComplete(ts, k + 1, j, b);
  }

  lemma {:induction false} InnerComplete(ts: seq<Token>, i: nat, j: nat, e: Expr)
    requires i <= j <= |ts| && !e.Const? && SpellsInner(ts[i..j], e)
    ensures ParseInner(ts, i) == Ok((e, j))
    decreases e, 0
  {
    hide ParseExpr, ParseAccessor, Spells, SpellsAtom;
    match e {
      case Var(a) =>
        AccessorComplete(ts, i, j, a);
      case Neg(a) =>
        var x :| Spells(x, a) && ts[i..j] == [Punct('-')] + x;
        Cut(ts, i, j, [Punct('-')], x);
        assert ts[i] == ts[i..i + 1][0];
        ExprComplete(ts, i + 1, j, a);
      case Add(a, b) =>
        var x, y :| Spells(x, a) && Spells(y, b) && ts[i..j] == x + [Punct('+')] + y;
        BinaryComplete(ts, i, j, '+', e, a, b, x, y);
      case Sub(a, b) =>
        var x, y :| Spells(x, a) && Spells(y, b) && ts[i..j] == x + [Punct('-')] + y;
        BinaryComplete(ts, i, j, '-', e, a, b, x, y);
      case Mul(a, b) =>
        var x, y :| Spells(x, a) && Spells(y, b) && ts[i..j] == x + [Punct('*')] + y;
        BinaryComplete(ts, i, j, '*', e, a, b, x, y);
    }
  }

  lemma BodySound(ts: seq<Token>, e: Expr)
    requires ParseBody(ts) == Ok(e)
    ensures SpellsBody(ts, e)
  {
    hide ParseExpr, Spells;
    ExprSound(ts, 1);
    var j := ParseExpr(ts, 1).value.1;
    var tail := [Punct(')'), Punct('='), Numeral(0)];
    assert ts[j..] == tail;
    assert ts == [Punct('(')] + ts[1..j] + tail;
  }

  lemma BodyComplete(ts: seq<Token>, e: Expr)
    requires SpellsBody(ts, e)
    ensures ParseBody(ts) == Ok(e)
  {
    hide ParseExpr, Spells;
    var tail := [Punct(')'), Punct('='), Numeral(0)];
    var x :| Spells(x, e) && ts == [Punct('(')] + x + tail;
    var j := 1 + |x|;
    assert ts[1..j] == x;
    assert ts[0] == Punct('(') && ts[j] == tail[0] && ts[j + 1] == tail[1] && ts[j + 2] == tail[2];
    ExprComplete(ts, 1, j, e);
  }

  /** The parser accepts exactly the bodies that spell an expression, and reads that one. */
  lemma AcceptsExactly(ts: seq<Token>, e: Expr)
    ensures ParseBody(ts) == Ok(e) <==> SpellsBody(ts, e)
  {
    hide ParseBody, SpellsBody;
    if ParseBody(ts) == Ok(e) { BodySound(ts, e); }
    if SpellsBody(ts, e) { BodyComplete(ts, e); }
  }
}
