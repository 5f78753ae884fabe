/** What one projection becomes, read off the lane names: the atom of a lane, a refusal, or a
    reported marker. */
module MirrorFields {
  import opened Results
  import opened Atoms
  import opened Expressions
  import opened Lanes
  import opened MirrorGrammar

  /** The k-th spelling of the field's leaf: a declared one of the binder's kind, or the leaf. */
  ghost predicate SpelledAs(scope: Scope, b: Binder, leaf: string, k: int, name: string) {
    var key := (b.kind == Segcols, leaf);
    if key in scope.spellings then 0 <= k < |scope.spellings[key]| && scope.spellings[key][k] == name
    else k == 0 && name == leaf
  }

  /** The lane is the only one of the name. */
  ghost predicate OnlyLane(m: LaneMap, name: string, l: Lane) {
    name in m.byName && m.byName[name] == [l]
  }

  /** The k-th spelling names one lane, this one. */
  ghost predicate HitAt(scope: Scope, b: Binder, leaf: string, k: int, l: Lane) {
    && scope.lanes.Some?
    && exists name :: SpelledAs(scope, b, leaf, k, name) && OnlyLane(scope.lanes.value, name, l)
  }

  /** Exactly one spelling names a lane. */
  ghost predicate OneHit(scope: Scope, b: Binder, leaf: string, l: Lane) {
    exists k :: HitAt(scope, b, leaf, k, l) && forall j, other :: HitAt(scope, b, leaf, j, other) ==> j == k
  }

  ghost predicate TwoHits(scope: Scope, b: Binder, leaf: string) {
    exists j, k, l, other :: j < k && HitAt(scope, b, leaf, j, l) && HitAt(scope, b, leaf, k, other)
  }

  /** A binder whose fields stand for lanes. */
  predicate HasLanes(b: Binder) {
    b.kind == Row || b.kind == Validator || b.kind == Segcols
  }

  /** The projection stands for the atom: its leaf names one lane, and the atom is that lane's
      at the row. */
  ghost predicate ResolvesTo(scope: Scope, b: Binder, path: seq<string>, delta: int, a: Atom) {
    && path != [] && path[|path| - 1] != "val" && HasLanes(b)
    && exists l :: OneHit(scope, b, path[|path| - 1], l) && IsAtomOf(a, l, delta, scope.challenges)
  }

  // ----- against the parser

  lemma SpellingsListed(scope: Scope, b: Binder, leaf: string, k: int, name: string)
    ensures SpelledAs(scope, b, leaf, k, name)
       <==> 0 <= k < |Spellings(scope, b, leaf)| && Spellings(scope, b, leaf)[k] == name
  {
  }

  /** The k-th spelling resolves to the lane. */
  ghost predicate ResolvesAt(m: LaneMap, spellings: seq<string>, k: int, l: Lane) {
    0 <= k < |spellings| && Resolve(m, spellings[k]) == Ok(l)
  }

  lemma ResolvedIsOnly(m: LaneMap, name: string, l: Lane)
    ensures Resolve(m, name) == Ok(l) <==> OnlyLane(m, name, l)
  {
    if Resolve(m, name) == Ok(l) { assert m.byName[name] == [m.byName[name][0]]; }
  }

  lemma HitIsResolved(scope: Scope, b: Binder, leaf: string, k: int, l: Lane)
    requires scope.lanes.Some?
    ensures HitAt(scope, b, leaf, k, l) <==> ResolvesAt(scope.lanes.value, Spellings(scope, b, leaf), k, l)
  {
    hide SpelledAs, Spellings, Resolve, OnlyLane;
    var spellings := Spellings(scope, b, leaf);
    forall name ensures Resolve(scope.lanes.value, name) == Ok(l) <==> OnlyLane(scope.lanes.value, name, l) {
      ResolvedIsOnly(scope.lanes.value, name, l);
    }
    forall name ensures SpelledAs(scope, b, leaf, k, name) <==> 0 <= k < |spellings| && spellings[k] == name {
      SpellingsListed(scope, b, leaf, k, name);
    }
  }

  lemma {:induction false} HitsCount(m: LaneMap, spellings: seq<string>)
    ensures var hits := Hits(m, spellings);
            && (hits == [] <==> forall k, l :: !ResolvesAt(m, spellings, k, l))
            && (|hits| == 1 ==> exists k :: ResolvesAt(m, spellings, k, hits[0])
                                  && forall j, l :: ResolvesAt(m, spellings, j, l) ==> j == k)
            && (|hits| > 1 ==>
                 exists j, k, l, other :: j < k && ResolvesAt(m, spellings, j, l) && ResolvesAt(m, spellings, k, other))
  {
    if spellings == [] {
    } else {
      var n := |spellings| - 1;
      var init := spellings[..n];
      HitsCount(m, init);
      forall k, l
        ensures ResolvesAt(m, spellings, k, l)
           <==> ResolvesAt(m, init, k, l) || (k == n && Resolve(m, spellings[n]) == Ok(l))
      {
      }
      hide Resolve;
      var before := Hits(m, init);
      match Resolve(m, spellings[n]) {
        case Err(_) =>
          assert Hits(m, spellings) == before + [];
          assert before + [] == before;
          if |before| == 1 {
            var k :| ResolvesAt(m, init, k, before[0]);
            assert ResolvesAt(m, spellings, k, before[0]);
          }
        case Ok(lane) =>
          assert Hits(m, spellings) == before + [lane];
          assert ResolvesAt(m, spellings, n, lane);
          if before == [] {
            assert Hits(m, spellings)[0] == lane;
          } else {
            var k, l :| ResolvesAt(m, init, k, l);
            assert k < n && ResolvesAt(m, spellings, k, l);
          }
      }
    }
  }

  lemma LongerAtoms(s: Cursor, a: Atom, b: Binder, path: seq<string>, delta: int)
    ensures s.(atoms := s.atoms + [a]) != Marker(s, b, path, delta).at
  {
    assert |s.atoms + [a]| == |s.atoms| + 1;
  }

  lemma OneLane(scope: Scope, b: Binder, leaf: string, l: Lane)
    requires OneHit(scope, b, leaf, l)
    ensures !TwoHits(scope, b, leaf) && forall other :: OneHit(scope, b, leaf, other) ==> other == l
    ensures exists k :: HitAt(scope, b, leaf, k, l)
  {
  }

  /** What becomes of a projection, in every case. With the row relation lost, without lanes,
      or where no spelling names a lane, a marker is reported; two spellings naming lanes are
      refused; otherwise the atom is collected. */
  lemma FieldCases(scope: Scope, s: Cursor, b: Binder, path: seq<string>, delta: int)
    requires path != []
    ensures var r := ResolveField(scope, s, b, path, delta);
            var leaf := path[|path| - 1];
            var open := HasLanes(b) && s.rowOk && scope.lanes.Some?;
            var marker := Unresolved(b.name, Dotted(path), delta);
            && (r == Err(AmbiguousField) <==> open && TwoHits(scope, b, leaf))
            && (r == Ok(Parsed(Var(marker), s.(unresolved := s.unresolved + [marker]))) <==>
                  !open || forall k, l :: !HitAt(scope, b, leaf, k, l))
            && (forall a :: r == Ok(Parsed(Var(a), s.(atoms := s.atoms + [a])))
                  <==> open && exists l :: OneHit(scope, b, leaf, l) && IsAtomOf(a, l, delta, scope.challenges))
  {
    hide Hits, Spellings, HitAt, Resolve, IsAtomOf, AccessorAtom;
    var leaf := path[|path| - 1];
    var r := ResolveField(scope, s, b, path, delta);
    forall a ensures s.(atoms := s.atoms + [a]) != Marker(s, b, path, delta).at { LongerAtoms(s, a, b, path, delta); }
    if scope.lanes.Some? {
      var m, spellings := scope.lanes.value, Spellings(scope, b, leaf);
      forall k, l ensures HitAt(scope, b, leaf, k, l) <==> ResolvesAt(m, spellings, k, l) {
        HitIsResolved(scope, b, leaf, k, l);
      }
      HitsCount(m, spellings);
      var hits := Hits(m, spellings);
      if HasLanes(b) && s.rowOk && |hits| == 1 {
        assert OneHit(scope, b, leaf, hits[0]);
        OneLane(scope, b, leaf, hits[0]);
        forall a
          ensures AccessorAtom(scope.challenges, hits[0], delta) == Ok(a)
             <==> IsAtomOf(a, hits[0], delta, scope.challenges)
        {
          AtomOfLane(scope.challenges, hits[0], delta, a);
        }
      }
    }
  }

  lemma HitHasLanes(scope: Scope, b: Binder, leaf: string)
    ensures forall k, l :: HitAt(scope, b, leaf, k, l) ==> scope.lanes.Some?
  {
  }

  /** A projection that stands for an atom is read as it. */
  lemma FieldReads(scope: Scope, s: Cursor, b: Binder, path: seq<string>, delta: int, a: Atom)
    requires ResolvesTo(scope, b, path, delta, a) && s.rowOk
    ensures ResolveField(scope, s, b, path, delta) == Ok(Parsed(Var(a), s.(atoms := s.atoms + [a])))
  {
    hide ResolveField, HitAt, IsAtomOf;
    FieldCases(scope, s, b, path, delta);
    var l :| OneHit(scope, b, path[|path| - 1], l) && IsAtomOf(a, l, delta, scope.challenges);
    assert scope.lanes.Some? by { OneLane(scope, b, path[|path| - 1], l); HitHasLanes(scope, b, path[|path| - 1]); }
  }

  // ----- the marker's name

  /** The path in the marker is the segments with dots between them. */
  lemma {:induction false} DottedJoins(path: seq<string>, last: string)
    ensures Dotted([last]) == last
    ensures path != [] ==> Dotted(path + [last]) == Dotted(path) + "." + last
  {
    if |path| <= 1 {
      if path != [] { assert (path + [last])[1..] == [last]; }
    } else {
      DottedJoins(path[1..], last);
      assert (path + [last])[1..] == path[1..] + [last];
      var a, b, c := path[0] + ".", Dotted(path[1..]), "." + last;
      assert a + (b + c) == (a + b) + c;
    }
  }
}
