/** What the body of a carrier helper is read with: the helper's own parameters under their own
    names, its own row index, no known row records, and nothing of the caller's. */
module MirrorCarriers {
  import opened Results
  import opened Expressions
  import opened MirrorGrammar
  import opened MirrorInlining
  import opened MirrorPrinter

  /** The scope of the body. */
  ghost function BodyScope(scope: Scope, h: CarrierHelper): Scope {
    Scope(OwnBinders(h.binders, map[]), map[], OwnIndex(h.binders, None),
          scope.helpers, scope.carrierHelpers, scope.lanes, scope.challenges, scope.spellings)
  }

  /** The two steps of the inlining: the arguments, then the body. */
  lemma CarrierSteps(c: Context, s: Cursor, h: CarrierHelper, b: Bound, body: Parsed)
    requires Ready(c, s) && c.depth < MAX_INLINE_DEPTH && BindCarriers(c, s.i, h.binders, map[], None) == Ok(b)
    requires ParseBody(CarrierContext(c, h, b), s) == Ok(body)
    ensures InlineCarrier(c, s, h) == Ok(Parsed(body.node, Cursor(b.i, s.rowOk, body.at.atoms, body.at.unresolved)))
  {
    hide ParseBody, BindCarriers, CarrierContext;
  }

  lemma BodyReadsBack(c: Context, s: Cursor, h: CarrierHelper, b: Bound, e: Expr, names: Naming)
    requires c.depth < MAX_INLINE_DEPTH
    requires b.binders == OwnBinders(h.binders, map[]) && b.index == OwnIndex(h.binders, None)
    requires Printable(e, BodyScope(c.scope, h), names) && h.tokens == Print(e, 0, names)
    ensures ParseBody(CarrierContext(c, h, b), s)
         == Ok(Parsed(e, Cursor(|h.tokens|, true, s.atoms + Leaves(e), s.unresolved)))
  {
    hide Printable, Print, ParseBody, Leaves, OwnBinders, OwnIndex;
    assert CarrierContext(c, h, b) == Context(h.tokens, BodyScope(c.scope, h), map[], c.depth + 1);
    PrintThenParse(BodyScope(c.scope, h), map[], c.depth + 1, e, names, s);
  }

  /** A carrier helper whose body is printed in its own scope is read as that body: the
      arguments are consumed, the atoms are collected, and the caller keeps its row relation. */
  lemma CarrierReadsBack(c: Context, s: Cursor, h: CarrierHelper, e: Expr, names: Naming)
    requires Ready(c, s) && c.depth < MAX_INLINE_DEPTH && AllFit(c, s.i, h.binders)
    requires Printable(e, BodyScope(c.scope, h), names) && h.tokens == Print(e, 0, names)
    ensures InlineCarrier(c, s, h)
         == Ok(Parsed(e, Cursor(s.i + |h.binders|, s.rowOk, s.atoms + Leaves(e), s.unresolved)))
  {
    hide Printable, Print, BodyScope, CarrierContext, ParseBody, BindCarriers, AllFit, OwnBinders, OwnIndex,
         InlineCarrier, Leaves;
    CarriersBoundIff(c, s.i, h.binders, map[], None);
    var b := BindCarriers(c, s.i, h.binders, map[], None).value;
    BodyReadsBack(c, s, h, b, e, names);
    CarrierSteps(c, s, h, b, Parsed(e, Cursor(|h.tokens|, true, s.atoms + Leaves(e), s.unresolved)));
  }

  // ----- the helper's own names

  /** The k-th parameter is the last record of the name. */
  ghost predicate LastRecord(params: seq<Binder>, name: string, k: int) {
    && 0 <= k < |params| && params[k].kind != Index && params[k].name == name
    && forall j :: k < j < |params| && params[j].name == name ==> params[j].kind == Index
  }

  ghost predicate LastIndex(params: seq<Binder>, k: int) {
    0 <= k < |params| && params[k].kind == Index && forall j :: k < j < |params| ==> params[j].kind != Index
  }

  lemma RecordTail(params: seq<Binder>, name: string, k: int)
    requires params != []
    ensures k >= 0 ==> (LastRecord(params[1..], name, k) <==> LastRecord(params, name, k + 1))
    ensures LastRecord(params, name, 0) ==> !LastRecord(params[1..], name, k)
  {
    assert forall j :: 0 <= j < |params[1..]| ==> params[1..][j] == params[j + 1];
    if k >= 0 && LastRecord(params[1..], name, k) {
      forall j | k + 1 < j < |params| && params[j].name == name ensures params[j].kind == Index {
        assert params[1..][j - 1] == params[j];
      }
    }
  }

  /** If the first record of the name is not the last, a later one is. */
  lemma {:induction false} LastExists(params: seq<Binder>, name: string, i: nat) returns (k: nat)
    requires i < |params| && params[i].kind != Index && params[i].name == name
    ensures i <= k && LastRecord(params, name, k)
    decreases |params| - i
  {
    if j :| i < j < |params| && params[j].name == name && params[j].kind != Index {
      k := LastExists(params, name, j);
    } else {
      k := i;
    }
  }

  lemma NoLater(params: seq<Binder>, name: string)
    requires params != [] && params[0].kind != Index && params[0].name == name
    ensures exists k :: LastRecord(params, name, k)
  {
    var k := LastExists(params, name, 0);
  }

  lemma {:induction false} OwnBindersFrom(params: seq<Binder>, binders: map<string, Binder>, name: string)
    ensures var own := OwnBinders(params, binders);
            && (forall k :: LastRecord(params, name, k) ==> name in own && own[name] == params[k])
            && ((forall k :: !LastRecord(params, name, k)) ==>
                 (name in own <==> name in binders) && (name in binders ==> own[name] == binders[name]))
    decreases |params|
  {
    if params == [] {
    } else {
      var rest := params[1..];
      var next := if params[0].kind == Index then binders else binders[params[0].name := params[0]];
      OwnBindersFrom(rest, next, name);
      assert forall k :: 0 <= k < |rest| ==> rest[k] == params[k + 1];
      forall k ensures LastRecord(rest, name, k) ==> LastRecord(params, name, k + 1) { RecordTail(params, name, k); }
      forall k ensures LastRecord(params, name, k) ==> k == 0 || LastRecord(rest, name, k - 1) {
        RecordTail(params, name, k - 1);
      }
      if LastRecord(params, name, 0) {
        forall k ensures !LastRecord(rest, name, k) { RecordTail(params, name, k); }
      }
      if (forall k :: !LastRecord(params, name, k)) && params[0].kind != Index && params[0].name == name {
        NoLater(params, name);
      }
    }
  }

  /** The body knows exactly the parameters that are records, under their own names, and of
      two with one name the later. */
  lemma OwnBindersMeans(params: seq<Binder>, name: string)
    ensures name in OwnBinders(params, map[]) <==> exists k :: LastRecord(params, name, k)
    ensures forall k :: LastRecord(params, name, k) ==> OwnBinders(params, map[])[name] == params[k]
  {
    OwnBindersFrom(params, map[], name);
  }

  lemma {:induction false} OwnIndexFrom(params: seq<Binder>, index: Option<Name>)
    ensures forall k :: LastIndex(params, k) ==> OwnIndex(params, index) == Some(Name(params[k].name, []))
    ensures (forall k :: 0 <= k < |params| ==> params[k].kind != Index) ==> OwnIndex(params, index) == index
    decreases |params|
  {
    if params == [] {
    } else {
      var rest := params[1..];
      OwnIndexFrom(rest, if params[0].kind == Index then Some(Name(params[0].name, [])) else index);
      assert forall k :: 0 <= k < |rest| ==> rest[k] == params[k + 1];
      forall k | LastIndex(params, k) ensures OwnIndex(params, index) == Some(Name(params[k].name, [])) {
        if k > 0 {
          assert LastIndex(rest, k - 1) by {
            forall j | k - 1 < j < |rest| ensures rest[j].kind != Index { assert rest[j] == params[j + 1]; }
          }
        }
      }
    }
  }

  /** The row index of the body is the last index parameter, if there is one. */
  lemma OwnIndexMeans(params: seq<Binder>)
    ensures forall k :: LastIndex(params, k) ==> OwnIndex(params, None) == Some(Name(params[k].name, []))
    ensures (forall k :: 0 <= k < |params| ==> params[k].kind != Index) ==> OwnIndex(params, None) == None
  {
    OwnIndexFrom(params, None);
  }

  // ----- the parameters of an expression helper

  /** The k-th parameter is the last of the name. */
  ghost predicate LastNamed(params: seq<Name>, n: Name, k: int) {
    0 <= k < |params| && params[k] == n && forall j :: k < j < |params| ==> params[j] != n
  }

  lemma LastOfPrefix(params: seq<Name>, n: Name, k: int)
    requires params != [] && params[|params| - 1] != n
    ensures LastNamed(params, n, k) ==> LastNamed(params[..|params| - 1], n, k)
  {
  }

  /** The body of an expression helper knows its parameters, each under its own name and with
      its own argument; of two with one name the later. */
  lemma {:induction false} BindMeans(params: seq<Name>, args: seq<Expr>, n: Name)
    requires |params| == |args|
    ensures n in Bind(params, args) <==> n in params
    ensures forall k :: LastNamed(params, n, k) ==> n in Bind(params, args) && Bind(params, args)[n] == args[k]
  {
    if params == [] {
    } else {
      var m := |params| - 1;
      BindMeans(params[..m], args[..m], n);
      assert params == params[..m] + [params[m]];
      if params[m] == n {
        assert forall k :: LastNamed(params, n, k) ==> k == m;
      } else {
        forall k | LastNamed(params, n, k) ensures Bind(params, args)[n] == args[k] { LastOfPrefix(params, n, k); }
      }
    }
  }
}
