/** The lane map of one AIR: which symbol names which slot, and what the accessor
    vocabulary can no longer tell apart. */
module Lanes {
  import opened Results
  import opened Sequences
  import opened Atoms
  import opened Decimals
  import opened MixedRadix

  datatype Source = AirValue | AirGroupValue

  /** One constructor per lane head. */
  datatype Lane =
    | MainLane(stage: int, column: int)
    | PreLane(column: int)
    | ExposedLane(source: Source, index: int)
    | ChalLane(stage: int, index: int)

  datatype SymbolType =
    | WitnessCol
    | FixedCol
    | ExposedValue(source: Source)
    | Challenge
    | NonLane(typeName: string)
    | OtherType(typeName: string)

  datatype Symbol = Symbol(name: string, group: Option<int>, air: Option<int>, typ: SymbolType,
                           id: nat, stage: Option<int>, dim: int, lengths: seq<int>)

  /** What the AIR and its group declare about themselves, with no names involved. */
  datatype Geometry = Geometry(group: int, air: int, stageWidths: seq<nat>, fixedCols: nat,
                               airValueStages: seq<int>, groupValueStages: seq<int>, challenges: seq<nat>)

  datatype LaneError =
    | BadDim
    | BadLength
    | UnknownType
    | WrongScope
    | BadStage
    | TwoSymbols
    | NoName
    | AmbiguousName
    | BadChallenge

  // ----- one symbol to its elements

  datatype Element = Element(flat: int, indices: seq<int>, name: string)

  ghost function ElementAt(s: Symbol, k: nat): Element
    requires Positive(s.lengths)
  {
    Element(k, Digits(k, s.lengths), s.name + "[" + Decimal(k) + "]")
  }

  ghost function Listing(s: Symbol, n: nat): (r: seq<Element>)
    requires Positive(s.lengths)
    ensures |r| == n && forall k :: 0 <= k < n ==> r[k] == ElementAt(s, k)
  {
    seq(n, k requires 0 <= k < n => ElementAt(s, k))
  }

  /** `array_elements`: a scalar is itself; an array is spelled element by element. */
  ghost function Elements(s: Symbol): Result<seq<Element>, LaneError> {
    if s.dim != |s.lengths| then Err(BadDim)
    else if s.lengths == [] then Ok([Element(0, [], s.name)])
    else if !Positive(s.lengths) then Err(BadLength)
    else
      ProductPositive(s.lengths);
      Ok(Listing(s, Product(s.lengths)))
  }

  /** The product of the lengths, unless one of them is not positive. */
  method Total(lengths: seq<int>) returns (r: Option<int>)
    ensures r == if Positive(lengths) then Some(Product(lengths)) else None
  {
    var total := 1;
    for i := 0 to |lengths|
      invariant Positive(lengths[..i]) && total == Product(lengths[..i])
    {
      if lengths[i] <= 0 { return None; }
      assert lengths[..i + 1][..i] == lengths[..i];
      total := total * lengths[i];
    }
    assert lengths[..|lengths|] == lengths;
    r := Some(total);
  }

  /** The listing of the first `total` elements. */
  method Expand(s: Symbol, total: int) returns (out: seq<Element>)
    requires Positive(s.lengths)
    ensures total >= 0 ==> out == Listing(s, total)
  {
    hide Digits, Decimal, Positive;
    out := [];
    var k := 0;
    while k < total
      invariant 0 <= k && (total >= 0 ==> k <= total)
      invariant |out| == k && forall j :: 0 <= j < k ==> out[j] == ElementAt(s, j)
    {
      var indices := RowMajorIndices(k, s.lengths);
      out := out + [Element(k, indices, s.name + "[" + Decimal(k) + "]")];
      k := k + 1;
    }
  }

  method ArrayElements(s: Symbol) returns (r: Result<seq<Element>, LaneError>)
    ensures r == Elements(s)
  {
    if s.dim != |s.lengths| { return Err(BadDim); }
    if s.lengths == [] { return Ok([Element(0, [], s.name)]); }
    var total := Total(s.lengths);
    if total.None? { return Err(BadLength); }
    ProductPositive(s.lengths);
    var out := Expand(s, total.value);
    r := Ok(out);
  }

  /** The elements of an array are exactly the cells of its box, each once, at the flat
      position that the row-major order gives it. */
  lemma ElementsAreTheBox(s: Symbol, indices: seq<int>, k: int)
    requires s.lengths != [] && Elements(s).Ok?
    ensures var es := Elements(s).value;
            0 <= k < |es| && es[k].indices == indices <==> InBox(indices, s.lengths) && k == Offset(indices, s.lengths)
  {
    ProductPositive(s.lengths);
    var es := Elements(s).value;
    if 0 <= k < |es| && es[k].indices == indices {
      assert es[k] == ElementAt(s, k);
      OffsetOfDigits(k, s.lengths);
    }
    if InBox(indices, s.lengths) && k == Offset(indices, s.lengths) {
      DigitsOfOffset(indices, s.lengths);
      assert es[k] == ElementAt(s, k);
    }
  }

  // ----- the lanes the geometry declares

  ghost predicate Declared(g: Geometry, l: Lane) {
    match l
    case MainLane(s, c) => 1 <= s <= |g.stageWidths| && 0 <= c < g.stageWidths[s - 1]
    case PreLane(c) => 0 <= c < g.fixedCols
    case ExposedLane(AirValue, i) => 0 <= i < |g.airValueStages|
    case ExposedLane(AirGroupValue, i) => 0 <= i < |g.groupValueStages|
    case ChalLane(s, i) => 1 <= s <= |g.challenges| && 0 <= i < g.challenges[s - 1]
  }

  function Columns(stage: int, width: nat): set<Lane> {
    set c | 0 <= c < width :: MainLane(stage, c)
  }

  function Challenges(stage: int, count: nat): set<Lane> {
    set i | 0 <= i < count :: ChalLane(stage, i)
  }

  method DeclaredLanes(g: Geometry) returns (lanes: set<Lane>)
    ensures forall l :: l in lanes <==> Declared(g, l)
  {
    lanes := {};
    for i := 0 to |g.stageWidths|
      invariant forall l :: l in lanes <==> l.MainLane? && l.stage <= i && Declared(g, l)
    {
      lanes := lanes + Columns(i + 1, g.stageWidths[i]);
    }
    lanes := lanes + (set c | 0 <= c < g.fixedCols :: PreLane(c));
    lanes := lanes + (set i | 0 <= i < |g.airValueStages| :: ExposedLane(AirValue, i));
    lanes := lanes + (set i | 0 <= i < |g.groupValueStages| :: ExposedLane(AirGroupValue, i));
    ghost var others := lanes;
    for i := 0 to |g.challenges|
      invariant forall l :: l in lanes <==> l in others || (l.ChalLane? && l.stage <= i && Declared(g, l))
    {
      lanes := lanes + Challenges(i + 1, g.challenges[i]);
    }
  }

  // ----- what one symbol claims

  datatype Namespace = Global | AirGroup | Air

  /** `_scope_of`: the namespace the symbol is in for this AIR, if any. */
  function ScopeOf(s: Symbol, g: Geometry): Option<Namespace> {
    if s.group == None && s.air == None then Some(Global)
    else if s.group == Some(g.group) && s.air == None then Some(AirGroup)
    else if s.group == Some(g.group) && s.air == Some(g.air) then Some(Air)
    else None
  }

  /** The scope column of `LANE_SOURCES`. */
  function LaneScope(t: SymbolType): Namespace {
    match t
    case ExposedValue(AirGroupValue) => AirGroup
    case Challenge => Global
    case _ => Air
  }

  datatype LaneInfo = LaneInfo(name: string, base: string, indices: seq<int>, flat: Option<int>, stage: Option<int>,
      typ: SymbolType)
  datatype Claim = Claim(lane: Lane, info: LaneInfo)

  /** `_check_symbol_stage`; the symbol's elements have been expanded already. */
  ghost predicate StageAgrees(s: Symbol, g: Geometry, elements: seq<Element>) {
    match s.typ
    case FixedCol => s.stage == Some(0)
    case WitnessCol => s.stage.Some? && 1 <= s.stage.value <= |g.stageWidths|
    case Challenge => s.stage.Some? && s.stage.value >= 1
    case ExposedValue(src) =>
      var stages := if src == AirValue then g.airValueStages else g.groupValueStages;
      forall k :: 0 <= k < |elements| && 0 <= s.id + elements[k].flat < |stages| ==>
          Some(stages[s.id + elements[k].flat]) == s.stage
    case _ => true
  }

  /** `_lane_of` */
  function LaneOf(s: Symbol, flat: int): Lane
    requires s.typ.WitnessCol? || s.typ.Challenge? ==> s.stage.Some?
    requires !s.typ.NonLane? && !s.typ.OtherType?
  {
    match s.typ
    case WitnessCol => MainLane(s.stage.value, s.id + flat)
    case FixedCol => PreLane(s.id + flat)
    case Challenge => ChalLane(s.stage.value, s.id + flat)
    case ExposedValue(src) => ExposedLane(src, s.id + flat)
  }

  function ClaimOf(s: Symbol, e: Element): Claim
    requires s.typ.WitnessCol? || s.typ.Challenge? ==> s.stage.Some?
    requires !s.typ.NonLane? && !s.typ.OtherType?
  {
    Claim(LaneOf(s, e.flat),
        LaneInfo(e.name, s.name, e.indices, if s.lengths == [] then None else Some(e.flat), s.stage, s.typ))
  }

  /** Everything one symbol of the table claims for this AIR, or why it cannot. The stage
      of a column or challenge is checked before its shape, that of an exposed value after. */
  ghost function Claims(s: Symbol, g: Geometry): Result<seq<Claim>, LaneError> {
    if ScopeOf(s, g).None? || s.typ.NonLane? then Ok([])
    else if s.typ.OtherType? then Err(UnknownType)
    else if ScopeOf(s, g).value != LaneScope(s.typ) then Err(WrongScope)
    else if !s.typ.ExposedValue? && !StageAgrees(s, g, []) then Err(BadStage)
    else
      match Elements(s)
      case Err(e) => Err(e)
      case Ok(es) =>
        if !StageAgrees(s, g, es) then Err(BadStage)
        else Ok(seq(|es|, k requires 0 <= k < |es| => ClaimOf(s, es[k])))
  }

  method CheckStage(s: Symbol, g: Geometry, elements: seq<Element>) returns (ok: bool)
    requires s.typ.ExposedValue? ==> forall k :: 0 <= k < |elements| ==> elements[k].flat >= 0
    ensures ok <==> StageAgrees(s, g, elements)
  {
    match s.typ {
      case FixedCol => ok := s.stage == Some(0);
      case WitnessCol => ok := s.stage.Some? && 1 <= s.stage.value <= |g.stageWidths|;
      case Challenge => ok := s.stage.Some? && s.stage.value >= 1;
      case ExposedValue(src) =>
        var stages := if src == AirValue then g.airValueStages else g.groupValueStages;
        for k := 0 to |elements|
          invariant forall j :: 0 <= j < k && 0 <= s.id + elements[j].flat < |stages| ==>
                    Some(stages[s.id + elements[j].flat]) == s.stage
        {
          var index := s.id + elements[k].flat;
          if index < |stages| && Some(stages[index]) != s.stage { return false; }
        }
        ok := true;
      case _ => ok := true;
    }
  }

  lemma FlatsAreOffsets(s: Symbol)
    requires Elements(s).Ok?
    ensures forall k :: 0 <= k < |Elements(s).value| ==> Elements(s).value[k].flat == k
  {
    if s.lengths != [] { ProductPositive(s.lengths); }
  }

  method ClaimsOf(s: Symbol, g: Geometry) returns (r: Result<seq<Claim>, LaneError>)
    ensures r == Claims(s, g)
  {
    if ScopeOf(s, g).None? || s.typ.NonLane? { return Ok([]); }
    if s.typ.OtherType? { return Err(UnknownType); }
    if ScopeOf(s, g).value != LaneScope(s.typ) { return Err(WrongScope); }
    if !s.typ.ExposedValue? {
      var early := CheckStage(s, g, []);
      if !early { return Err(BadStage); }
    }
    var elements := ArrayElements(s);
    if elements.Err? { return Err(elements.error); }
    var es := elements.value;
    FlatsAreOffsets(s);
    var ok := CheckStage(s, g, es);
    if !ok { return Err(BadStage); }
    r := Ok(seq(|es|, k requires 0 <= k < |es| => ClaimOf(s, es[k])));
  }

  // ----- the map

  datatype LaneMap = LaneMap(lanes: map<Lane, LaneInfo>, byName: map<string, seq<Lane>>, unnamed: set<Lane>,
      orphans: seq<Claim>)

  /** The claims that land outside the declared lanes, in order. */
  function Outside(claims: seq<Claim>, expected: set<Lane>): seq<Claim> {
    if claims == [] then [] else
      Outside(claims[..|claims| - 1], expected)
          + (if claims[|claims| - 1].lane in expected then [] else [claims[|claims| - 1]])
  }

  /** The declared lanes claimed under one name, in order. */
  function Named(claims: seq<Claim>, expected: set<Lane>, name: string): seq<Lane> {
    if claims == [] then [] else
      var c := claims[|claims| - 1];
      Named(claims[..|claims| - 1], expected, name)
          + (if c.lane in expected && c.info.name == name then [c.lane] else [])
  }

  /** The map holds every claim on a declared lane, once, under its name. */
  ghost predicate Holds(lanes: map<Lane, LaneInfo>, claims: seq<Claim>, expected: set<Lane>) {
    && (forall l :: l in lanes ==> l in expected && exists i :: 0 <= i < |claims| && claims[i].lane == l)
    && (forall i :: 0 <= i < |claims| && claims[i].lane in expected ==>
         claims[i].lane in lanes && lanes[claims[i].lane] == claims[i].info)
    && (forall i, j :: 0 <= i < j < |claims| && claims[i].lane in expected ==> claims[i].lane != claims[j].lane)
  }

  ghost predicate Indexed(byName: map<string, seq<Lane>>, claims: seq<Claim>, expected: set<Lane>) {
    forall n :: (n in byName <==> Named(claims, expected, n) != []) &&
        (n in byName ==> byName[n] == Named(claims, expected, n))
  }

  lemma HoldsMore(lanes: map<Lane, LaneInfo>, claims: seq<Claim>, expected: set<Lane>, c: Claim)
    requires Holds(lanes, claims, expected)
    ensures c.lane !in expected ==> Holds(lanes, claims + [c], expected)
    ensures c.lane in expected && c.lane !in lanes ==> Holds(lanes[c.lane := c.info], claims + [c], expected)
  {
    var more := claims + [c];
    forall l | l in lanes ensures exists i :: 0 <= i < |more| && more[i].lane == l {
      var i :| 0 <= i < |claims| && claims[i].lane == l;
      assert more[i].lane == l;
    }
    assert more[|claims|] == c;
  }

  lemma IndexedMore(byName: map<string, seq<Lane>>, claims: seq<Claim>, expected: set<Lane>, c: Claim)
    requires Indexed(byName, claims, expected)
    ensures c.lane !in expected ==> Indexed(byName, claims + [c], expected)
    ensures c.lane in expected ==>
              Indexed(byName[c.info.name := (if c.info.name in byName then byName[c.info.name] else []) + [c.lane]],
                  claims + [c], expected)
  {
    assert (claims + [c])[..|claims|] == claims;
  }

  /** One claim on a lane that is taken already: the error case. */
  ghost predicate Clash(claims: seq<Claim>, expected: set<Lane>) {
    exists i, j :: 0 <= i < j < |claims| && claims[i].lane in expected && claims[i].lane == claims[j].lane
  }

  lemma ClashFound(lanes: map<Lane, LaneInfo>, claims: seq<Claim>, expected: set<Lane>, c: Claim, rest: seq<Claim>)
    requires Holds(lanes, claims, expected) && c.lane in expected && c.lane in lanes
    ensures Clash(claims + [c] + rest, expected)
  {
    var all := claims + [c] + rest;
    var i :| 0 <= i < |claims| && claims[i].lane == c.lane;
    assert all[i].lane == all[|claims|].lane;
  }

  /** The claims of a prefix of the symbol table, when none of its symbols is refused. */
  ghost function AllClaims(symbols: seq<Symbol>, g: Geometry): Result<seq<Claim>, LaneError> {
    if symbols == [] then Ok([])
    else
      match AllClaims(symbols[..|symbols| - 1], g)
      case Err(e) => Err(e)
      case Ok(before) =>
        match Claims(symbols[|symbols| - 1], g)
        case Err(e) => Err(e)
        case Ok(cs) => Ok(before + cs)
  }

  lemma {:induction false} AllClaimsFail(symbols: seq<Symbol>, g: Geometry, i: nat)
    requires i < |symbols| && Claims(symbols[i], g).Err? && AllClaims(symbols[..i], g).Ok?
    ensures AllClaims(symbols, g) == Err(Claims(symbols[i], g).error)
    decreases |symbols|
  {
    if i == |symbols| - 1 {
    } else {
      var init := symbols[..|symbols| - 1];
      assert init[..i] == symbols[..i] && init[i] == symbols[i];
      AllClaimsFail(init, g, i);
    }
  }

  lemma {:induction false} AllClaimsPrefix(symbols: seq<Symbol>, g: Geometry, i: nat) returns (rest: seq<Claim>)
    requires i <= |symbols| && AllClaims(symbols, g).Ok?
    ensures AllClaims(symbols[..i], g).Ok?
    ensures AllClaims(symbols, g).value == AllClaims(symbols[..i], g).value + rest
    decreases |symbols|
  {
    if i == |symbols| {
      assert symbols[..i] == symbols;
      rest := [];
    } else {
      var init := symbols[..|symbols| - 1];
      assert init[..i] == symbols[..i];
      var r := AllClaimsPrefix(init, g, i);
      rest := r + Claims(symbols[|symbols| - 1], g).value;
    }
  }

  /** `lane_map` of a symbol table. */
  ghost predicate MapOf(m: LaneMap, claims: seq<Claim>, expected: set<Lane>) {
    && Holds(m.lanes, claims, expected)
    && Indexed(m.byName, claims, expected)
    && m.unnamed == expected - m.lanes.Keys
    && m.orphans == Outside(claims, expected)
  }

  ghost predicate RefusedAt(symbols: seq<Symbol>, g: Geometry, expected: set<Lane>, e: LaneError, i: nat)
    requires i < |symbols| && AllClaims(symbols[..i], g).Ok?
  {
    match Claims(symbols[i], g)
    case Err(error) => e == error
    case Ok(cs) => e == TwoSymbols && Clash(AllClaims(symbols[..i], g).value + cs, expected)
  }

  /** Why no map exists: a refused symbol, or two claims on one lane before the first one. */
  ghost predicate Refused(symbols: seq<Symbol>, g: Geometry, expected: set<Lane>, e: LaneError) {
    exists i :: 0 <= i < |symbols| && AllClaims(symbols[..i], g).Ok? &&
      RefusedAt(symbols, g, expected, e, i)
  }

  ghost predicate IsExpected(g: Geometry, expected: set<Lane>) {
    forall l :: l in expected <==> Declared(g, l)
  }

  lemma Empty(expected: set<Lane>)
    ensures Holds(map[], [], expected) && Indexed(map[], [], expected)
  {
  }

  /** The inner loop: one symbol's claims placed one by one. */
  method PlaceAll(lanes0: map<Lane, LaneInfo>, byName0: map<string, seq<Lane>>, orphans0: seq<Claim>,
                  expected: set<Lane>,
                  claims: seq<Claim>, ghost done: seq<Claim>)
    returns (ok: bool, lanes: map<Lane, LaneInfo>, byName: map<string, seq<Lane>>, orphans: seq<Claim>)
    requires Holds(lanes0, done, expected) && Indexed(byName0, done, expected) && orphans0 == Outside(done, expected)
    ensures ok ==> Holds(lanes, done + claims, expected) && Indexed(byName, done + claims, expected)
    ensures ok ==> orphans == Outside(done + claims, expected)
    ensures !ok ==> Clash(done + claims, expected)
  {
    hide Holds, Indexed, Clash;
    lanes, byName, orphans := lanes0, byName0, orphans0;
    assert done + claims[..0] == done;
    for k := 0 to |claims|
      invariant Holds(lanes, done + claims[..k], expected) && Indexed(byName, done + claims[..k], expected)
      invariant orphans == Outside(done + claims[..k], expected)
    {
      var c := claims[k];
      ghost var before := done + claims[..k];
      assert done + claims[..k + 1] == before + [c];
      assert (before + [c])[..|before|] == before;
      HoldsMore(lanes, before, expected, c);
      IndexedMore(byName, before, expected, c);
      if c.lane !in expected {
        orphans := orphans + [c];
      } else if c.lane in lanes {
        ClashFound(lanes, before, expected, c, claims[k + 1..]);
        assert done + claims == before + [c] + claims[k + 1..];
        return false, lanes, byName, orphans;
      } else {
        lanes := lanes[c.lane := c.info];
        byName := byName[c.info.name := (if c.info.name in byName then byName[c.info.name] else []) + [c.lane]];
      }
    }
    assert done + claims[..|claims|] == done + claims;
    ok := true;
  }

  ghost predicate BuiltOver(symbols: seq<Symbol>, g: Geometry, expected: set<Lane>, r: Result<LaneMap, LaneError>) {
    match r
    case Ok(m) => AllClaims(symbols, g).Ok? && MapOf(m, AllClaims(symbols, g).value, expected)
    case Err(e) => Refused(symbols, g, expected, e)
  }

  /** The map of the table, or why there is none. */
  ghost predicate Built(symbols: seq<Symbol>, g: Geometry, r: Result<LaneMap, LaneError>) {
    exists expected :: IsExpected(g, expected) && BuiltOver(symbols, g, expected, r)
  }

  method BuildLaneMap(symbols: seq<Symbol>, g: Geometry) returns (r: Result<LaneMap, LaneError>)
    ensures Built(symbols, g, r)
  {
    hide Holds, Indexed, Declared, Claims, Clash;
    var declared := DeclaredLanes(g);
    assert IsExpected(g, declared);
    var lanes: map<Lane, LaneInfo> := map[];
    var byName: map<string, seq<Lane>> := map[];
    var orphans: seq<Claim> := [];
    Empty(declared);
    for i := 0 to |symbols|
      invariant AllClaims(symbols[..i], g).Ok?
      invariant var done := AllClaims(symbols[..i], g).value;
        Holds(lanes, done, declared) && Indexed(byName, done, declared) && orphans == Outside(done, declared)
    {
      ghost var done := AllClaims(symbols[..i], g).value;
      assert symbols[..i + 1][..i] == symbols[..i];
      var claims := ClaimsOf(symbols[i], g);
      if claims.Err? {
        assert RefusedAt(symbols, g, declared, claims.error, i);
        r := Err(claims.error);
        assert BuiltOver(symbols, g, declared, r);
        return;
      }
      var placed;
      placed, lanes, byName, orphans := PlaceAll(lanes, byName, orphans, declared, claims.value, done);
      if !placed {
        assert RefusedAt(symbols, g, declared, TwoSymbols, i);
        r := Err(TwoSymbols);
        assert BuiltOver(symbols, g, declared, r);
        return;
      }
    }
    assert symbols[..|symbols|] == symbols;
    r := Ok(LaneMap(lanes, byName, declared - lanes.Keys, orphans));
    assert BuiltOver(symbols, g, declared, r);
  }

  lemma ClashExcludes(lanes: map<Lane, LaneInfo>, claims: seq<Claim>, rest: seq<Claim>, expected: set<Lane>)
    requires Clash(claims, expected)
    ensures !Holds(lanes, claims + rest, expected)
  {
    var i, j :| 0 <= i < j < |claims| && claims[i].lane in expected && claims[i].lane == claims[j].lane;
    var all := claims + rest;
    assert all[i] == claims[i] && all[j] == claims[j];
  }

  /** The error is raised only when there is no map: a refused symbol leaves no list of
      claims, and two claims on one lane fit no function from lanes. */
  lemma RefusedHasNoMap(symbols: seq<Symbol>, g: Geometry, expected: set<Lane>, e: LaneError, m: LaneMap)
    requires Refused(symbols, g, expected, e)
    ensures AllClaims(symbols, g).Err? || !MapOf(m, AllClaims(symbols, g).value, expected)
  {
    hide Claims, Holds, Clash, Indexed;
    var i: nat :| i < |symbols| && AllClaims(symbols[..i], g).Ok? && RefusedAt(symbols, g, expected, e, i);
    if Claims(symbols[i], g).Err? {
      AllClaimsFail(symbols, g, i);
    } else if AllClaims(symbols, g).Ok? {
      assert symbols[..i + 1][..i] == symbols[..i];
      var rest := AllClaimsPrefix(symbols, g, i + 1);
      ClashExcludes(m.lanes, AllClaims(symbols[..i], g).value + Claims(symbols[i], g).value, rest, expected);
    }
  }

  /** One symbol never claims a lane twice, so the error really names two symbols. */
  lemma OneSymbolClaimsOnce(s: Symbol, g: Geometry)
    requires Claims(s, g).Ok?
    ensures var cs := Claims(s, g).value; forall i, j :: 0 <= i < j < |cs| ==> cs[i].lane != cs[j].lane
  {
    if Elements(s).Ok? {
      FlatsAreOffsets(s);
      hide Elements;
    }
  }

  // ----- looking up by name and by lane

  /** `resolve`: an answer only when there is exactly one. */
  function Resolve(m: LaneMap, name: string): Result<Lane, LaneError> {
    if name !in m.byName || m.byName[name] == [] then Err(NoName)
    else if |m.byName[name]| > 1 then Err(AmbiguousName)
    else Ok(m.byName[name][0])
  }

  ghost predicate ClaimsName(c: Claim, expected: set<Lane>, name: string, l: Lane) {
    c.lane == l && l in expected && c.info.name == name
  }

  lemma {:induction false} NamedContents(claims: seq<Claim>, expected: set<Lane>, name: string, l: Lane)
    ensures l in Named(claims, expected, name) <==>
            exists i :: 0 <= i < |claims| && ClaimsName(claims[i], expected, name, l)
  {
    if claims == [] {
    } else {
      var n := |claims| - 1;
      NamedContents(claims[..n], expected, name, l);
      assert l in Named(claims, expected, name) <==>
          l in Named(claims[..n], expected, name) || ClaimsName(claims[n], expected, name, l);
      hide ClaimsName, Named;
      if i :| 0 <= i < |claims| && ClaimsName(claims[i], expected, name, l) {
        if i < n { assert claims[..n][i] == claims[i]; }
      }
    }
  }

  /** `by_name` is the exact inverse of the name of a lane. */
  lemma ByNameInverts(m: LaneMap, claims: seq<Claim>, expected: set<Lane>, name: string, l: Lane)
    requires MapOf(m, claims, expected)
    ensures name in m.byName && l in m.byName[name] <==> l in m.lanes && m.lanes[l].name == name
  {
    NamedContents(claims, expected, name, l);
    if l in m.lanes {
      var i :| 0 <= i < |claims| && claims[i].lane == l;
      assert ClaimsName(claims[i], expected, m.lanes[l].name, l);
    }
  }

  lemma {:induction false} NamedDistinct(claims: seq<Claim>, expected: set<Lane>, name: string)
    requires forall i, j :: 0 <= i < j < |claims| && claims[i].lane in expected ==> claims[i].lane != claims[j].lane
    ensures Distinct(Named(claims, expected, name))
  {
    if claims == [] {
    } else {
      var n := |claims| - 1;
      NamedDistinct(claims[..n], expected, name);
      var init := Named(claims[..n], expected, name);
      forall i | 0 <= i < |init| ensures init[i] != claims[n].lane {
        NamedContents(claims[..n], expected, name, init[i]);
      }
    }
  }

  ghost predicate OnlyLaneNamed(m: LaneMap, name: string, l: Lane) {
    && l in m.lanes && m.lanes[l].name == name
    && forall k :: k in m.lanes && m.lanes[k].name == name ==> k == l
  }

  /** A name resolves exactly when one lane carries it, and then to that lane; a name no
      lane carries and a name two lanes carry are told apart. */
  lemma ResolveIffUnique(m: LaneMap, claims: seq<Claim>, expected: set<Lane>, name: string)
    requires MapOf(m, claims, expected)
    ensures forall l :: Resolve(m, name) == Ok(l) <==> OnlyLaneNamed(m, name, l)
    ensures Resolve(m, name) == Err(NoName) <==> forall l :: l in m.lanes ==> m.lanes[l].name != name
  {
    forall l ensures name in m.byName && l in m.byName[name] <==> l in m.lanes && m.lanes[l].name == name {
      ByNameInverts(m, claims, expected, name, l);
    }
    NamedDistinct(claims, expected, name);
    if name in m.byName && |m.byName[name]| > 1 {
      var ls := m.byName[name];
      assert ls == Named(claims, expected, name);
      assert ls[0] != ls[1] && ls[0] in ls && ls[1] in ls;
    } else if name in m.byName {
      assert m.byName[name][0] in m.byName[name];
    }
  }

  /** `closed`: nothing declared is unnamed and nothing named is undeclared. */
  predicate IsClosed(m: LaneMap) {
    m.unnamed == {} && m.orphans == []
  }

  lemma {:induction false} OutsideEmpty(claims: seq<Claim>, expected: set<Lane>)
    ensures Outside(claims, expected) == [] <==> forall i :: 0 <= i < |claims| ==> claims[i].lane in expected
  {
    if claims == [] {
    } else {
      var n := |claims| - 1;
      OutsideEmpty(claims[..n], expected);
      if forall i :: 0 <= i < n ==> claims[..n][i].lane in expected {
        assert forall i :: 0 <= i < n ==> claims[i].lane in expected;
      } else {
        var i :| 0 <= i < n && claims[..n][i].lane !in expected;
        assert claims[i].lane !in expected;
      }
    }
  }

  /** The orphans are the claims on no declared lane, as often as they are made. */
  lemma {:induction false} OutsideContents(claims: seq<Claim>, expected: set<Lane>, c: Claim)
    ensures multiset(Outside(claims, expected))[c] == if c.lane in expected then 0 else multiset(claims)[c]
  {
    if claims == [] {
    } else {
      var n := |claims| - 1;
      OutsideContents(claims[..n], expected, c);
      assert claims == claims[..n] + [claims[n]];
    }
  }

  /** A closed map has exactly the declared lanes as its domain, and every claim of the
      symbol table is one of its entries. */
  lemma ClosedIffExact(m: LaneMap, claims: seq<Claim>, expected: set<Lane>)
    requires MapOf(m, claims, expected)
    ensures IsClosed(m) <==> m.lanes.Keys == expected && forall i :: 0 <= i < |claims| ==> claims[i].lane in m.lanes
  {
    OutsideEmpty(claims, expected);
    assert m.lanes.Keys <= expected;
    assert forall l :: l in expected <==> l in m.unnamed || l in m.lanes.Keys;
  }

  // ----- the accessor vocabulary

  function Sum(s: seq<nat>): nat {
    if s == [] then 0 else Sum(s[..|s| - 1]) + s[|s| - 1]
  }

  /** `flatten_challenge`: the challenges of earlier stages come first. */
  function FlattenChallenge(challenges: seq<nat>, stage: int, index: int): Result<int, LaneError> {
    if stage < 1 || stage > |challenges| then Err(BadChallenge)
    else if !(0 <= index < challenges[stage - 1]) then Err(BadChallenge)
    else Ok(Sum(challenges[..stage - 1]) + index)
  }

  lemma {:induction false} SumGrows(s: seq<nat>, i: nat, j: nat)
    requires i <= j <= |s|
    ensures Sum(s[..i]) <= Sum(s[..j])
    decreases j
  {
    if i < j {
      assert s[..j][..j - 1] == s[..j - 1];
      SumGrows(s, i, j - 1);
    }
  }

  lemma StageRange(challenges: seq<nat>, stage: int, index: int)
    requires FlattenChallenge(challenges, stage, index).Ok?
    ensures Sum(challenges[..stage - 1]) <= FlattenChallenge(challenges, stage, index).value < Sum(challenges[..stage])
  {
    assert challenges[..stage][..stage - 1] == challenges[..stage - 1];
  }

  /** Flattening confuses no two challenges. */
  lemma FlattenInjective(challenges: seq<nat>, s1: int, i1: int, s2: int, i2: int)
    requires FlattenChallenge(challenges, s1, i1).Ok?
    requires FlattenChallenge(challenges, s1, i1) == FlattenChallenge(challenges, s2, i2)
    ensures s1 == s2 && i1 == i2
  {
    StageRange(challenges, s1, i1);
    StageRange(challenges, s2, i2);
    if s1 < s2 { SumGrows(challenges, s1, s2 - 1); }
    if s2 < s1 { SumGrows(challenges, s2, s1 - 1); }
  }

  /** The flat numbers follow the stages, and the indices within a stage. */
  lemma FlattenOrdered(challenges: seq<nat>, s1: int, i1: int, s2: int, i2: int)
    requires FlattenChallenge(challenges, s1, i1).Ok? && FlattenChallenge(challenges, s2, i2).Ok?
    ensures 0 <= FlattenChallenge(challenges, s1, i1).value < Sum(challenges)
    ensures FlattenChallenge(challenges, s1, i1).value < FlattenChallenge(challenges, s2, i2).value
       <==> s1 < s2 || (s1 == s2 && i1 < i2)
  {
    StageRange(challenges, s1, i1);
    StageRange(challenges, s2, i2);
    SumGrows(challenges, s1, |challenges|);
    assert challenges[..|challenges|] == challenges;
    if s1 < s2 { SumGrows(challenges, s1, s2 - 1); }
    if s2 < s1 { SumGrows(challenges, s2, s1 - 1); }
  }

  /** The numbering leaves no index unused. */
  lemma {:induction false} FlattenOnto(challenges: seq<nat>, flat: int) returns (stage: int, index: int)
    requires 0 <= flat < Sum(challenges)
    ensures FlattenChallenge(challenges, stage, index) == Ok(flat)
    decreases |challenges|
  {
    var n := |challenges| - 1;
    if flat >= Sum(challenges[..n]) {
      stage, index := n + 1, flat - Sum(challenges[..n]);
    } else {
      stage, index := FlattenOnto(challenges[..n], flat);
      assert challenges[..n][..stage - 1] == challenges[..stage - 1];
    }
  }

  /** `accessor_atom` */
  function AccessorAtom(challenges: seq<nat>, lane: Lane, delta: int): Result<Atom, LaneError> {
    match lane
    case MainLane(s, c) => Ok(Main(s, c, delta))
    case PreLane(c) => Ok(Pre(c, delta))
    case ChalLane(s, i) =>
      (match FlattenChallenge(challenges, s, i)
       case Ok(flat) => Ok(Chal(flat))
       case Err(e) => Err(e))
    case ExposedLane(_, i) => Ok(Exposed(i))
  }

  /** The atom shows the lane: its column, stage and row offset, its flat challenge number, or
      its exposed index. */
  ghost predicate IsAtomOf(a: Atom, l: Lane, delta: int, challenges: seq<nat>) {
    match a
    case Main(stage, column, row) => l == MainLane(stage, column) && row == delta
    case Pre(column, row) => l == PreLane(column) && row == delta
    case Chal(number) => l.ChalLane? && FlattenChallenge(challenges, l.stage, l.index) == Ok(number)
    case Exposed(index) => l.ExposedLane? && l.index == index
    case _ => false
  }

  lemma AtomOfLane(challenges: seq<nat>, l: Lane, delta: int, a: Atom)
    ensures AccessorAtom(challenges, l, delta) == Ok(a) <==> IsAtomOf(a, l, delta, challenges)
  {
    hide FlattenChallenge;
  }

  /** `collapsed_indices`: exposed indices live under both kinds. */
  function CollapsedIndices(m: LaneMap): set<int> {
    (set l | l in m.lanes && l.ExposedLane? && l.source == AirValue :: l.index) *
    (set l | l in m.lanes && l.ExposedLane? && l.source == AirGroupValue :: l.index)
  }

  /** The accessor vocabulary is total on the lanes of the map and identifies two of them
      exactly when both are exposed at one of the listed indices. */
  lemma AccessorCollapse(m: LaneMap, g: Geometry, a: Lane, b: Lane, delta: int)
    requires a in m.lanes && b in m.lanes && Declared(g, a) && Declared(g, b)
    ensures AccessorAtom(g.challenges, a, delta).Ok?
    ensures AccessorAtom(g.challenges, a, delta) == AccessorAtom(g.challenges, b, delta)
       <==> a == b || (a.ExposedLane? && b.ExposedLane? && a.index == b.index && a.index in CollapsedIndices(m))
  {
    if a.ChalLane? && b.ChalLane? && AccessorAtom(g.challenges, a, delta) == AccessorAtom(g.challenges, b, delta) {
      FlattenInjective(g.challenges, a.stage, a.index, b.stage, b.index);
    }
  }

  /** Every listed index does collapse two lanes. */
  lemma CollapsedIsAmbiguous(m: LaneMap, g: Geometry, i: int, delta: int) returns (a: Lane, b: Lane)
    requires i in CollapsedIndices(m)
    ensures a in m.lanes && b in m.lanes && a != b
    ensures AccessorAtom(g.challenges, a, delta) == AccessorAtom(g.challenges, b, delta) == Ok(Exposed(i))
  {
    a, b := ExposedLane(AirValue, i), ExposedLane(AirGroupValue, i);
  }
}
