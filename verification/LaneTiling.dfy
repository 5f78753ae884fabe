/** When the symbol table names an AIR's lanes exactly: no symbol is refused, and for each kind
    and stage the intervals the symbols occupy tile the declared width. Everything here is said
    of the symbols and the declared widths; lanes and claims appear in the proofs only. */
module LaneTiling {
  import opened Results
  import opened Decimals
  import opened MixedRadix
  import opened Lanes

  /** A kind of lane, with its stage where the kind has stages. */
  datatype Bank = WitnessBank(stage: int) | FixedBank | ValueBank(source: Source) | ChallengeBank(stage: int)

  /** How many lanes the AIR declares there. */
  function Width(g: Geometry, bank: Bank): nat {
    match bank
    case WitnessBank(stage) => if 1 <= stage <= |g.stageWidths| then g.stageWidths[stage - 1] else 0
    case FixedBank => g.fixedCols
    case ValueBank(AirValue) => |g.airValueStages|
    case ValueBank(AirGroupValue) => |g.groupValueStages|
    case ChallengeBank(stage) => if 1 <= stage <= |g.challenges| then g.challenges[stage - 1] else 0
  }

  /** The symbol belongs to this very AIR. */
  predicate Own(s: Symbol, g: Geometry) {
    s.group == Some(g.group) && s.air == Some(g.air)
  }

  /** The symbol names lanes of the bank: the type says so and the scope is the bank's. */
  predicate InBank(s: Symbol, g: Geometry, bank: Bank) {
    match bank
    case WitnessBank(stage) => s.typ == WitnessCol && Own(s, g) && s.stage == Some(stage)
    case FixedBank => s.typ == FixedCol && Own(s, g)
    case ValueBank(AirValue) => s.typ == ExposedValue(AirValue) && Own(s, g)
    case ValueBank(AirGroupValue) =>
      s.typ == ExposedValue(AirGroupValue) && s.group == Some(g.group) && s.air == None
    case ChallengeBank(stage) => s.typ == Challenge && s.group == None && s.air == None && s.stage == Some(stage)
  }

  /** The k-th slot of the bank is in the symbol's interval. */
  predicate Covers(s: Symbol, g: Geometry, bank: Bank, x: int) {
    InBank(s, g, bank) && s.id <= x < s.id + Product(s.lengths)
  }

  /** The symbol is global, of this group, or of this AIR. */
  predicate Concerns(s: Symbol, g: Geometry) {
    || (s.group == None && s.air == None)
    || (s.group == Some(g.group) && (s.air == None || s.air == Some(g.air)))
  }

  /** The stage the symbol states is the one declared for its lanes. */
  ghost predicate WellStaged(s: Symbol, g: Geometry, bank: Bank) {
    match bank
    case WitnessBank(stage) => 1 <= stage <= |g.stageWidths|
    case FixedBank => s.stage == Some(0)
    case ValueBank(AirValue) =>
      forall x :: Covers(s, g, bank, x) && 0 <= x < |g.airValueStages| ==> s.stage == Some(g.airValueStages[x])
    case ValueBank(AirGroupValue) =>
      forall x :: Covers(s, g, bank, x) && 0 <= x < |g.groupValueStages| ==> s.stage == Some(g.groupValueStages[x])
    case ChallengeBank(stage) => stage >= 1
  }

  /** A symbol that is not refused: it is of no concern here, or it belongs to a bank with the
      right stage and a proper shape. */
  ghost predicate Acceptable(s: Symbol, g: Geometry) {
    Concerns(s, g) && !s.typ.NonLane? ==>
      && (exists bank :: InBank(s, g, bank) && WellStaged(s, g, bank))
      && s.dim == |s.lengths| && forall i :: 0 <= i < |s.lengths| ==> s.lengths[i] > 0
  }

  ghost predicate Filled(symbols: seq<Symbol>, g: Geometry, bank: Bank, x: int) {
    exists i :: 0 <= i < |symbols| && Covers(symbols[i], g, bank, x)
  }

  /** The intervals of the symbols tile the bank: they lie in it, do not overlap, and leave no
      slot out. */
  ghost predicate Tiled(symbols: seq<Symbol>, g: Geometry, bank: Bank) {
    && (forall i, x :: 0 <= i < |symbols| && Covers(symbols[i], g, bank, x) ==> 0 <= x < Width(g, bank))
    && (forall i, j, x :: 0 <= i < j < |symbols| && Covers(symbols[i], g, bank, x) ==> !Covers(symbols[j], g, bank, x))
    && (forall x :: 0 <= x < Width(g, bank) ==> Filled(symbols, g, bank, x))
  }

  /** The lane at a slot. */
  function LaneIn(bank: Bank, x: int): Lane {
    match bank
    case WitnessBank(stage) => MainLane(stage, x)
    case FixedBank => PreLane(x)
    case ValueBank(source) => ExposedLane(source, x)
    case ChallengeBank(stage) => ChalLane(stage, x)
  }

  function SlotOf(l: Lane): int {
    match l
    case MainLane(_, column) => column
    case PreLane(column) => column
    case ExposedLane(_, index) => index
    case ChalLane(_, index) => index
  }

  function BankOf(l: Lane): (bank: Bank)
    ensures LaneIn(bank, SlotOf(l)) == l
  {
    match l
    case MainLane(stage, _) => WitnessBank(stage)
    case PreLane(_) => FixedBank
    case ExposedLane(source, _) => ValueBank(source)
    case ChalLane(stage, _) => ChallengeBank(stage)
  }

  lemma DeclaredIffInside(g: Geometry, l: Lane)
    ensures Declared(g, l) <==> 0 <= SlotOf(l) < Width(g, BankOf(l))
  {
  }

  ghost predicate CoversLane(s: Symbol, g: Geometry, l: Lane) {
    Covers(s, g, BankOf(l), SlotOf(l))
  }

  /** What is recorded of the k-th element of a symbol. */
  ghost predicate Describes(info: LaneInfo, s: Symbol, k: nat) {
    && info.base == s.name && info.stage == s.stage && info.typ == s.typ
    && (s.lengths == [] ==> info.name == s.name && info.flat == None && info.indices == [])
    && (s.lengths != [] ==>
         && info.name == s.name + "[" + Decimal(k) + "]" && info.flat == Some(k)
         && InBox(info.indices, s.lengths) && Offset(info.indices, s.lengths) == k)
  }

  // ----- one symbol

  function HomeBank(s: Symbol): Bank
    requires s.typ.WitnessCol? || s.typ.Challenge? ==> s.stage.Some?
  {
    match s.typ
    case WitnessCol => WitnessBank(s.stage.value)
    case FixedCol => FixedBank
    case ExposedValue(source) => ValueBank(source)
    case Challenge => ChallengeBank(s.stage.value)
    case _ => FixedBank
  }

  lemma OneBank(s: Symbol, g: Geometry, bank: Bank)
    requires InBank(s, g, bank)
    ensures Concerns(s, g) && !s.typ.NonLane? && !s.typ.OtherType?
    ensures (s.typ.WitnessCol? || s.typ.Challenge? ==> s.stage.Some?) && bank == HomeBank(s)
    ensures ScopeOf(s, g) == Some(LaneScope(s.typ))
  {
  }

  lemma HomeIsBank(s: Symbol, g: Geometry)
    requires ScopeOf(s, g) == Some(LaneScope(s.typ)) && !s.typ.NonLane? && !s.typ.OtherType?
    requires s.typ.WitnessCol? || s.typ.Challenge? ==> s.stage.Some?
    ensures InBank(s, g, HomeBank(s))
  {
  }

  lemma ElementCount(s: Symbol)
    requires Elements(s).Ok?
    ensures |Elements(s).value| == Product(s.lengths)
    ensures forall k :: 0 <= k < |Elements(s).value| ==> Elements(s).value[k].flat == k
  {
    FlatsAreOffsets(s);
    if s.lengths != [] { ProductPositive(s.lengths); }
  }

  lemma StagedIffAgrees(s: Symbol, g: Geometry)
    requires Elements(s).Ok? && !s.typ.NonLane? && !s.typ.OtherType?
    requires s.typ.WitnessCol? || s.typ.Challenge? ==> s.stage.Some?
    requires InBank(s, g, HomeBank(s))
    ensures StageAgrees(s, g, Elements(s).value) <==> WellStaged(s, g, HomeBank(s))
  {
    hide Elements, Product;
    ElementCount(s);
    var es := Elements(s).value;
    if s.typ.ExposedValue? {
      var stages := if s.typ.source == AirValue then g.airValueStages else g.groupValueStages;
      var bank := HomeBank(s);
      if StageAgrees(s, g, es) {
        forall x | Covers(s, g, bank, x) && 0 <= x < |stages| ensures s.stage == Some(stages[x]) {
          assert es[x - s.id].flat == x - s.id;
        }
      }
      if WellStaged(s, g, bank) {
        forall k | 0 <= k < |es| && 0 <= s.id + es[k].flat < |stages|
          ensures Some(stages[s.id + es[k].flat]) == s.stage
        {
          assert Covers(s, g, bank, s.id + k);
        }
      }
    }
  }

  lemma ScopeConcerns(s: Symbol, g: Geometry)
    ensures ScopeOf(s, g).Some? <==> Concerns(s, g)
  {
  }

  /** A stage that is missing is refused before anything else is looked at. */
  lemma StagesFirst(s: Symbol, g: Geometry)
    ensures (s.typ.WitnessCol? || s.typ.Challenge?) && s.stage.None? ==> forall es :: !StageAgrees(s, g, es)
    ensures !s.typ.ExposedValue? ==> forall es :: StageAgrees(s, g, es) == StageAgrees(s, g, [])
  {
  }

  lemma ShapeIff(s: Symbol)
    ensures Elements(s).Ok? <==> s.dim == |s.lengths| && Positive(s.lengths)
  {
  }

  /** A symbol is refused exactly when it is not acceptable. */
  lemma AcceptableIff(s: Symbol, g: Geometry)
    ensures Claims(s, g).Ok? <==> Acceptable(s, g)
  {
    hide Elements, Covers, WellStaged, StageAgrees;
    ShapeIff(s);
    ScopeConcerns(s, g);
    if Concerns(s, g) && !s.typ.NonLane? {
      forall bank | InBank(s, g, bank) ensures bank == HomeBank(s) { OneBank(s, g, bank); }
      if bank :| InBank(s, g, bank) { OneBank(s, g, bank); }
      StagesFirst(s, g);
      var staged := s.typ.WitnessCol? || s.typ.Challenge? ==> s.stage.Some?;
      if !s.typ.OtherType? && ScopeOf(s, g).value == LaneScope(s.typ) && staged {
        HomeIsBank(s, g);
        if Elements(s).Ok? { StagedIffAgrees(s, g); }
      }
    }
  }

  /** What an accepted symbol of a bank claims: its interval, in order, described. */
  lemma ClaimsInterval(s: Symbol, g: Geometry, bank: Bank)
    requires Claims(s, g).Ok? && InBank(s, g, bank)
    ensures var cs := Claims(s, g).value;
            && |cs| == Product(s.lengths)
            && forall k :: 0 <= k < |cs| ==> cs[k].lane == LaneIn(bank, s.id + k) && Describes(cs[k].info, s, k)
  {
    hide StageAgrees, Decimal;
    OneBank(s, g, bank);
    ElementCount(s);
    var es, cs := Elements(s).value, Claims(s, g).value;
    forall k | 0 <= k < |cs| ensures cs[k].lane == LaneIn(bank, s.id + k) && Describes(cs[k].info, s, k) {
      assert cs[k] == ClaimOf(s, es[k]);
      if s.lengths != [] {
        ProductPositive(s.lengths);
        assert es[k] == ElementAt(s, k);
        OffsetOfDigits(k, s.lengths);
      }
    }
  }

  /** Outside the banks nothing is claimed. */
  lemma ClaimsNothing(s: Symbol, g: Geometry)
    requires Claims(s, g).Ok? && forall bank :: !InBank(s, g, bank)
    ensures Claims(s, g).value == []
  {
    hide Elements, StageAgrees;
    StagesFirst(s, g);
    if ScopeOf(s, g).Some? && !s.typ.NonLane? { HomeIsBank(s, g); }
  }

  lemma ClaimedIffCovered(s: Symbol, g: Geometry, l: Lane)
    requires Claims(s, g).Ok?
    ensures var cs := Claims(s, g).value;
            && ((exists k :: 0 <= k < |cs| && cs[k].lane == l) <==> CoversLane(s, g, l))
            && (forall j, k :: 0 <= j < k < |cs| ==> cs[j].lane != cs[k].lane)
  {
    hide Claims;
    var cs := Claims(s, g).value;
    if bank :| InBank(s, g, bank) {
      ClaimsInterval(s, g, bank);
      OneBank(s, g, bank);
      if CoversLane(s, g, l) {
        OneBank(s, g, BankOf(l));
        assert cs[SlotOf(l) - s.id].lane == l;
      }
    } else {
      ClaimsNothing(s, g);
    }
  }

  // ----- the table

  lemma {:induction false} TableAccepted(symbols: seq<Symbol>, g: Geometry)
    ensures AllClaims(symbols, g).Ok? <==> forall i :: 0 <= i < |symbols| ==> Acceptable(symbols[i], g)
    decreases |symbols|
  {
    hide Claims, Acceptable;
    if symbols == [] {
    } else {
      var n := |symbols| - 1;
      TableAccepted(symbols[..n], g);
      AcceptableIff(symbols[n], g);
      assert forall i :: 0 <= i < n ==> symbols[..n][i] == symbols[i];
    }
  }

  ghost predicate ClaimedAt(claims: seq<Claim>, p: int, l: Lane) {
    0 <= p < |claims| && claims[p].lane == l
  }

  ghost predicate CoveredBy(symbols: seq<Symbol>, g: Geometry, i: int, l: Lane) {
    0 <= i < |symbols| && CoversLane(symbols[i], g, l)
  }

  ghost predicate Claimed(claims: seq<Claim>, l: Lane) {
    exists p :: ClaimedAt(claims, p, l)
  }

  ghost predicate ClaimedTwice(claims: seq<Claim>, l: Lane) {
    exists p, q :: p < q && ClaimedAt(claims, p, l) && ClaimedAt(claims, q, l)
  }

  ghost predicate Covered(symbols: seq<Symbol>, g: Geometry, l: Lane) {
    exists i :: CoveredBy(symbols, g, i, l)
  }

  ghost predicate CoveredTwice(symbols: seq<Symbol>, g: Geometry, l: Lane) {
    exists i, j :: i < j && CoveredBy(symbols, g, i, l) && CoveredBy(symbols, g, j, l)
  }

  lemma ClaimedAppend(a: seq<Claim>, b: seq<Claim>, l: Lane)
    ensures Claimed(a + b, l) <==> Claimed(a, l) || Claimed(b, l)
    ensures ClaimedTwice(a + b, l) <==> ClaimedTwice(a, l) || ClaimedTwice(b, l) || (Claimed(a, l) && Claimed(b, l))
  {
    forall p ensures ClaimedAt(a + b, p, l) <==> ClaimedAt(a, p, l) || ClaimedAt(b, p - |a|, l) {}
    forall p ensures ClaimedAt(b, p, l) ==> ClaimedAt(a + b, p + |a|, l) {}
    if p, q :| p < q && ClaimedAt(b, p, l) && ClaimedAt(b, q, l) {
      assert ClaimedAt(a + b, p + |a|, l) && ClaimedAt(a + b, q + |a|, l);
    }
    if p, q :| ClaimedAt(a, p, l) && ClaimedAt(b, q, l) {
      assert p < q + |a| && ClaimedAt(a + b, p, l) && ClaimedAt(a + b, q + |a|, l);
    }
  }

  lemma CoveredAppend(symbols: seq<Symbol>, s: Symbol, g: Geometry, l: Lane)
    ensures Covered(symbols + [s], g, l) <==> Covered(symbols, g, l) || CoversLane(s, g, l)
    ensures CoveredTwice(symbols + [s], g, l)
       <==> CoveredTwice(symbols, g, l) || (Covered(symbols, g, l) && CoversLane(s, g, l))
  {
    hide CoversLane;
    var n := |symbols|;
    forall i
      ensures CoveredBy(symbols + [s], g, i, l) <==> CoveredBy(symbols, g, i, l) || (i == n && CoversLane(s, g, l))
    {
    }
    assert CoversLane(s, g, l) ==> CoveredBy(symbols + [s], g, n, l);
    forall i ensures CoveredBy(symbols, g, i, l) ==> i < n {}
  }

  lemma OnceEach(cs: seq<Claim>, l: Lane)
    requires forall j, k :: 0 <= j < k < |cs| ==> cs[j].lane != cs[k].lane
    ensures !ClaimedTwice(cs, l)
    ensures Claimed(cs, l) <==> exists k :: 0 <= k < |cs| && cs[k].lane == l
  {
    if k :| 0 <= k < |cs| && cs[k].lane == l { assert ClaimedAt(cs, k, l); }
  }

  /** Claimed means covered, and claimed twice means covered by two symbols. */
  lemma {:induction false} TableClaims(symbols: seq<Symbol>, g: Geometry, l: Lane)
    requires AllClaims(symbols, g).Ok?
    ensures Claimed(AllClaims(symbols, g).value, l) <==> Covered(symbols, g, l)
    ensures ClaimedTwice(AllClaims(symbols, g).value, l) <==> CoveredTwice(symbols, g, l)
    decreases |symbols|
  {
    hide Claims, CoversLane;
    if symbols == [] {
    } else {
      var n := |symbols| - 1;
      var before, last := symbols[..n], symbols[n];
      TableClaims(before, g, l);
      ClaimedAppend(AllClaims(before, g).value, Claims(last, g).value, l);
      ClaimedIffCovered(last, g, l);
      assert symbols == before + [last];
      CoveredAppend(before, last, g, l);
      OnceEach(Claims(last, g).value, l);
    }
  }

  // ----- the theorem

  lemma TiledLane(symbols: seq<Symbol>, g: Geometry, l: Lane)
    requires Tiled(symbols, g, BankOf(l))
    ensures (Declared(g, l) <==> Covered(symbols, g, l)) && !CoveredTwice(symbols, g, l)
  {
    hide Covers, Width, Declared;
    DeclaredIffInside(g, l);
    var bank, x := BankOf(l), SlotOf(l);
    if Declared(g, l) {
      assert Filled(symbols, g, bank, x);
      var i :| 0 <= i < |symbols| && Covers(symbols[i], g, bank, x);
      assert CoveredBy(symbols, g, i, l);
    }
    if i :| CoveredBy(symbols, g, i, l) { assert Covers(symbols[i], g, bank, x); }
  }

  lemma LanesTile(symbols: seq<Symbol>, g: Geometry, bank: Bank)
    requires (forall l :: Declared(g, l) <==> Covered(symbols, g, l)) && forall l :: !CoveredTwice(symbols, g, l)
    ensures Tiled(symbols, g, bank)
  {
    hide Covers, Width, Declared;
    forall i, x | 0 <= i < |symbols| && Covers(symbols[i], g, bank, x) ensures 0 <= x < Width(g, bank) {
      DeclaredIffInside(g, LaneIn(bank, x));
      assert CoveredBy(symbols, g, i, LaneIn(bank, x));
    }
    forall i, j, x | 0 <= i < j < |symbols| && Covers(symbols[i], g, bank, x) ensures !Covers(symbols[j], g, bank, x) {
      var l := LaneIn(bank, x);
      assert CoveredBy(symbols, g, i, l) && !CoveredTwice(symbols, g, l);
      assert Covers(symbols[j], g, bank, x) <==> CoveredBy(symbols, g, j, l);
    }
    forall x | 0 <= x < Width(g, bank) ensures Filled(symbols, g, bank, x) {
      var l := LaneIn(bank, x);
      DeclaredIffInside(g, l);
      var i :| CoveredBy(symbols, g, i, l);
      assert Covers(symbols[i], g, bank, x);
    }
  }

  /** Tiling, lane by lane. */
  lemma TiledByLanes(symbols: seq<Symbol>, g: Geometry)
    ensures (forall bank :: Tiled(symbols, g, bank))
       <==> (forall l :: Declared(g, l) <==> Covered(symbols, g, l)) && forall l :: !CoveredTwice(symbols, g, l)
  {
    hide Covers, Width, Declared;
    forall l ensures Declared(g, l) <==> 0 <= SlotOf(l) < Width(g, BankOf(l)) { DeclaredIffInside(g, l); }
    forall bank, x ensures BankOf(LaneIn(bank, x)) == bank && SlotOf(LaneIn(bank, x)) == x {}
    if forall bank :: Tiled(symbols, g, bank) {
      forall l ensures (Declared(g, l) <==> Covered(symbols, g, l)) && !CoveredTwice(symbols, g, l) {
        TiledLane(symbols, g, l);
      }
    }
    if (forall l :: Declared(g, l) <==> Covered(symbols, g, l)) && forall l :: !CoveredTwice(symbols, g, l) {
      forall bank ensures Tiled(symbols, g, bank) { LanesTile(symbols, g, bank); }
    }
  }

  lemma MapHolds(m: LaneMap, claims: seq<Claim>, expected: set<Lane>)
    requires MapOf(m, claims, expected)
    ensures Holds(m.lanes, claims, expected)
  {
  }

  lemma HeldIffClaimed(lanes: map<Lane, LaneInfo>, claims: seq<Claim>, expected: set<Lane>, l: Lane)
    requires Holds(lanes, claims, expected)
    ensures l in lanes <==> l in expected && Claimed(claims, l)
  {
    if l in lanes {
      var i :| 0 <= i < |claims| && claims[i].lane == l;
      assert ClaimedAt(claims, i, l);
    }
  }

  lemma HeldOnce(lanes: map<Lane, LaneInfo>, claims: seq<Claim>, expected: set<Lane>, l: Lane)
    requires Holds(lanes, claims, expected)
    ensures l in expected ==> !ClaimedTwice(claims, l)
  {
  }

  lemma ClosedByLanes(m: LaneMap, claims: seq<Claim>, g: Geometry, expected: set<Lane>)
    requires IsExpected(g, expected) && MapOf(m, claims, expected)
    ensures IsClosed(m)
       <==> (forall l :: Declared(g, l) <==> Claimed(claims, l)) && forall l :: !ClaimedTwice(claims, l)
  {
    hide Declared, Indexed;
    ClosedIffExact(m, claims, expected);
    hide MapOf, IsClosed;
    assert Holds(m.lanes, claims, expected) by { MapHolds(m, claims, expected); }
    forall l ensures l in m.lanes <==> l in expected && Claimed(claims, l) {
      HeldIffClaimed(m.lanes, claims, expected, l);
    }
    forall l ensures l in expected ==> !ClaimedTwice(claims, l) { HeldOnce(m.lanes, claims, expected, l); }
    if IsClosed(m) {
      forall l ensures Declared(g, l) <==> Claimed(claims, l) {
        if p :| ClaimedAt(claims, p, l) { assert claims[p].lane in m.lanes; }
      }
      forall l ensures !ClaimedTwice(claims, l) {
        assert forall p :: ClaimedAt(claims, p, l) ==> claims[p].lane in m.lanes;
      }
    }
    if (forall l :: Declared(g, l) <==> Claimed(claims, l)) && forall l :: !ClaimedTwice(claims, l) {
      forall i | 0 <= i < |claims| ensures claims[i].lane in m.lanes { assert ClaimedAt(claims, i, claims[i].lane); }
      forall l | l in expected ensures l in m.lanes {}
    }
  }

  lemma ClashLane(claims: seq<Claim>, rest: seq<Claim>, expected: set<Lane>) returns (l: Lane)
    requires Clash(claims, expected)
    ensures ClaimedTwice(claims + rest, l)
  {
    var p, q :| 0 <= p < q < |claims| && claims[p].lane in expected && claims[p].lane == claims[q].lane;
    l := claims[p].lane;
    assert ClaimedAt(claims + rest, p, l) && ClaimedAt(claims + rest, q, l);
  }

  /** After an error some symbol is refused or two of them overlap. */
  lemma RefusedNotTiled(symbols: seq<Symbol>, g: Geometry, expected: set<Lane>, e: LaneError)
    requires IsExpected(g, expected) && Refused(symbols, g, expected, e)
    ensures AllClaims(symbols, g).Err? || exists l :: CoveredTwice(symbols, g, l)
  {
    hide Claims, Declared, Clash, ClaimedTwice, CoveredTwice;
    var i: nat :| i < |symbols| && AllClaims(symbols[..i], g).Ok? && RefusedAt(symbols, g, expected, e, i);
    if Claims(symbols[i], g).Err? {
      AllClaimsFail(symbols, g, i);
    } else if AllClaims(symbols, g).Ok? {
      assert symbols[..i + 1][..i] == symbols[..i];
      var rest := AllClaimsPrefix(symbols, g, i + 1);
      var claims := AllClaims(symbols[..i], g).value + Claims(symbols[i], g).value;
      var l := ClashLane(claims, rest, expected);
      TableClaims(symbols, g, l);
    }
  }

  /** The map is built and closed exactly when no symbol is refused and every bank is tiled. */
  lemma ClosedIffTiled(symbols: seq<Symbol>, g: Geometry, r: Result<LaneMap, LaneError>)
    requires Built(symbols, g, r)
    ensures r.Ok? && IsClosed(r.value)
       <==> (forall i :: 0 <= i < |symbols| ==> Acceptable(symbols[i], g)) && forall bank :: Tiled(symbols, g, bank)
  {
    hide Acceptable, Tiled, Declared, Holds, Indexed, Clash, RefusedAt, Claims;
    TableAccepted(symbols, g);
    TiledByLanes(symbols, g);
    var expected :| IsExpected(g, expected) && BuiltOver(symbols, g, expected, r);
    match r {
      case Ok(m) =>
        forall l
          ensures Claimed(AllClaims(symbols, g).value, l) <==> Covered(symbols, g, l)
          ensures ClaimedTwice(AllClaims(symbols, g).value, l) <==> CoveredTwice(symbols, g, l)
        {
          TableClaims(symbols, g, l);
        }
        ClosedByLanes(m, AllClaims(symbols, g).value, g, expected);
      case Err(e) =>
        RefusedNotTiled(symbols, g, expected, e);
    }
  }

  // ----- which symbol names a lane

  lemma {:induction false} ClaimAt(symbols: seq<Symbol>, g: Geometry, i: nat, k: nat) returns (p: nat)
    requires AllClaims(symbols, g).Ok? && i < |symbols|
    requires Claims(symbols[i], g).Ok? && k < |Claims(symbols[i], g).value|
    ensures p < |AllClaims(symbols, g).value| && AllClaims(symbols, g).value[p] == Claims(symbols[i], g).value[k]
    decreases |symbols|
  {
    hide Claims;
    var n := |symbols| - 1;
    if i == n {
      p := |AllClaims(symbols[..n], g).value| + k;
    } else {
      p := ClaimAt(symbols[..n], g, i, k);
    }
  }

  lemma SymbolClaims(symbols: seq<Symbol>, g: Geometry, i: nat)
    requires AllClaims(symbols, g).Ok? && i < |symbols|
    ensures Claims(symbols[i], g).Ok?
  {
    hide Claims, Acceptable;
    TableAccepted(symbols, g);
    AcceptableIff(symbols[i], g);
  }

  /** In a map that is built, the k-th element of a symbol is what is stored k slots behind the
      symbol's identifier in its bank, as far as the bank is declared. */
  lemma ElementStored(symbols: seq<Symbol>, g: Geometry, r: Result<LaneMap, LaneError>, i: nat, bank: Bank, k: nat)
    requires Built(symbols, g, r) && r.Ok?
    requires i < |symbols| && InBank(symbols[i], g, bank) && k < Product(symbols[i].lengths)
    requires symbols[i].id + k < Width(g, bank)
    ensures var l := LaneIn(bank, symbols[i].id + k);
            l in r.value.lanes && Describes(r.value.lanes[l], symbols[i], k)
  {
    hide Claims, Indexed, Describes, InBank, Declared, Width;
    var expected :| IsExpected(g, expected) && BuiltOver(symbols, g, expected, r);
    SymbolClaims(symbols, g, i);
    ClaimsInterval(symbols[i], g, bank);
    var p := ClaimAt(symbols, g, i, k);
    DeclaredIffInside(g, LaneIn(bank, symbols[i].id + k));
  }

  /** Every stored lane is such an element. */
  lemma StoredIsElement(symbols: seq<Symbol>, g: Geometry, r: Result<LaneMap, LaneError>, l: Lane)
    returns (i: nat, k: nat)
    requires Built(symbols, g, r) && r.Ok? && l in r.value.lanes
    ensures i < |symbols| && InBank(symbols[i], g, BankOf(l)) && k < Product(symbols[i].lengths)
    ensures SlotOf(l) == symbols[i].id + k && SlotOf(l) < Width(g, BankOf(l))
    ensures Describes(r.value.lanes[l], symbols[i], k)
  {
    hide Claims, Indexed, Describes, InBank, Declared, Width;
    var expected :| IsExpected(g, expected) && BuiltOver(symbols, g, expected, r);
    HeldIffClaimed(r.value.lanes, AllClaims(symbols, g).value, expected, l);
    TableClaims(symbols, g, l);
    DeclaredIffInside(g, l);
    i :| CoveredBy(symbols, g, i, l);
    k := SlotOf(l) - symbols[i].id;
    ElementStored(symbols, g, r, i, BankOf(l), k);
  }
}
