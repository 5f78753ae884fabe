/** The reviewed exclusions: which findings a declared rule tags, and what a tag rests on. */
module Exclusions {
  import opened Atoms
  import opened Results
  import opened Goldilocks
  import opened Expressions
  import opened Evaluation
  import opened Implications
  import opened Verdicts
  import opened Pairing
  import Factoring
  import Modular
  import Lanes

  /** What the rules look at beside the finding: the AIR, the cited fields without a lane, the
      AIR's lane map, and whether the two fixed-column schemas are still in the sources. */
  datatype Review = Review(air: string, expectedUnresolved: set<(string, string)>, lanes: Lanes.LaneMap,
                           mainPinned: bool, memAlignPinned: bool)

  predicate OccursAt(text: string, part: string, i: nat) {
    i + |part| <= |text| && text[i..i + |part|] == part
  }

  predicate Contains(text: string, part: string) {
    exists i :: 0 <= i <= |text| && OccursAt(text, part, i)
  }

  // ----- `_declare_main_source_c_boundary`

  predicate SourceCBoundary(f: Finding, generated: seq<Generated>, air: string) {
    && air == "Main" && |f.clauses| == 1 && f.clauses[0].definition == "sourceCCopyBetween"
    && f.implied.Some? && f.implied.value.cofactor.Complement?
    && f.implied.value.index < |generated|
    && Contains(generated[f.implied.value.index].provenance, "main.pil:386")
  }

  // ----- `_declare_reclassification_alias`

  function AliasNames(clauses: seq<Clause>): set<string> {
    set c, n | c in clauses && n in c.aliases :: n
  }

  function AliasTag(f: Finding, review: Review): Option<string> {
    var names := AliasNames(f.clauses);
    if names == {} then None
    else if review.air == "Main" && names <= {"Main.SEGMENT_L1", "Main.SEGMENT_STEP"} && review.mainPinned then
      Some("main_fixed_lane_alias")
    else if review.air == "MemAlign" && names == {"MemAlign.L1"} && review.memAlignPinned then
      Some("memalign_fixed_lane_alias")
    else None
  }

  // ----- `_declare_unbacked_uncommitted`

  /** `path.rsplit(".", 1)[-1]` */
  function AfterLastDot(path: string): string {
    if '.' in path then AfterLastDot(path[1..]) else path
  }

  function Leaf(l: Laneless): string {
    AfterLastDot(l.path)
  }

  /** The leaf is the part behind the last dot, or the whole path. */
  ghost predicate EndsIn(path: string, leaf: string) {
    '.' !in leaf && (path == leaf || exists front :: path == front + "." + leaf)
  }

  lemma {:induction false} LeafEnds(path: string)
    ensures EndsIn(path, AfterLastDot(path))
  {
    if '.' !in path {
    } else {
      var leaf := AfterLastDot(path);
      LeafEnds(path[1..]);
      if path[1..] == leaf {
        assert path[0] == '.';
        assert path == "" + "." + leaf;
      } else {
        var front :| path[1..] == front + "." + leaf;
        assert path == [path[0]] + front + "." + leaf;
      }
    }
  }

  lemma LeafShape(path: string, leaf: string)
    requires EndsIn(path, leaf)
    ensures |leaf| <= |path| && leaf == path[|path| - |leaf|..]
    ensures forall k :: |path| - |leaf| <= k < |path| ==> path[k] != '.'
    ensures |leaf| < |path| ==> path[|path| - |leaf| - 1] == '.'
  {
    if path != leaf {
      var front :| path == front + "." + leaf;
    }
    forall k | |path| - |leaf| <= k < |path| ensures path[k] != '.' {
      assert path[k] == leaf[k - (|path| - |leaf|)];
    }
  }

  /** There is one leaf. */
  lemma LeafUnique(path: string, leaf: string)
    ensures EndsIn(path, leaf) <==> leaf == AfterLastDot(path)
  {
    LeafEnds(path);
    hide EndsIn;
    LeafShape(path, AfterLastDot(path));
    if EndsIn(path, leaf) { LeafShape(path, leaf); }
  }

  predicate Cited(l: Laneless, review: Review) {
    l.reason == "no_lane" && l.citation != "" && (review.air, Leaf(l)) in review.expectedUnresolved
  }

  /** Every projection without a lane is a cited one whose name the lane map does not resolve,
      and there is one. */
  ghost predicate Uncommitted(c: Clause, review: Review) {
    && c.laneless != []
    && (forall l :: l in c.laneless ==> Cited(l, review))
    && (forall l :: l in c.laneless ==> Lanes.Resolve(review.lanes, Leaf(l)).Err?)
  }

  ghost predicate UncommittedPin(c: Clause, review: Review) {
    Uncommitted(c, review) && PinShape(PolyOf(c.expr))
  }

  method IsUncommittedPin(c: Clause, review: Review) returns (b: bool)
    ensures b <==> UncommittedPin(c, review)
  {
    hide PinShape, PolyOf, Lanes.Resolve;
    var leaves: seq<string> := [];
    for i := 0 to |c.laneless|
      invariant |leaves| == i
      invariant forall k :: 0 <= k < i ==> Cited(c.laneless[k], review) && leaves[k] == Leaf(c.laneless[k])
    {
      if !Cited(c.laneless[i], review) { return false; }
      leaves := leaves + [Leaf(c.laneless[i])];
    }
    if leaves == [] { return false; }
    for i := 0 to |leaves|
      invariant forall k :: 0 <= k < i ==> Lanes.Resolve(review.lanes, leaves[k]).Err?
    {
      if Lanes.Resolve(review.lanes, leaves[i]).Ok? {
        assert c.laneless[i] in c.laneless;
        return false;
      }
    }
    b := IsDefinitionalPin(c.expr);
  }

  // ----- `apply_declared_mirror_exclusions`

  /** An unbacked finding has its clause. */
  predicate Taggable(f: Finding) {
    f.kind == Unbacked ==> f.clauses != []
  }

  /** The rule that excludes a finding, if any: one per kind, for three kinds. */
  ghost function TagOf(f: Finding, generated: seq<Generated>, review: Review): Option<string> {
    match f.kind
    case Strengthening =>
      if SourceCBoundary(f, generated, review.air) then Some("main_source_c_within_segment") else None
    case Reclassification => AliasTag(f, review)
    case Unbacked =>
      if f.clauses != [] && UncommittedPin(f.clauses[0], review) then Some("mirror_unbacked_field_uncommitted")
      else None
    case _ => None
  }

  /** A tag is set and nothing else is changed. */
  ghost function TaggedOf(f: Finding, generated: seq<Generated>, review: Review): Finding {
    if TagOf(f, generated, review).Some? then f.(excludedBy := TagOf(f, generated, review)) else f
  }

  method Tag(f: Finding, generated: seq<Generated>, review: Review) returns (r: Option<string>)
    requires Taggable(f)
    ensures r == TagOf(f, generated, review)
  {
    hide UncommittedPin, SourceCBoundary, AliasTag;
    match f.kind {
      case Strengthening =>
        r := if SourceCBoundary(f, generated, review.air) then Some("main_source_c_within_segment") else None;
      case Reclassification =>
        r := AliasTag(f, review);
      case Unbacked =>
        var pinned := IsUncommittedPin(f.clauses[0], review);
        r := if pinned then Some("mirror_unbacked_field_uncommitted") else None;
      case _ =>
        r := None;
    }
  }

  /** The findings are tagged where they stand. */
  method ApplyExclusions(findings: array<Finding>, generated: seq<Generated>, review: Review)
    requires forall i :: 0 <= i < findings.Length ==> Taggable(findings[i])
    modifies findings
    ensures forall i :: 0 <= i < findings.Length ==> findings[i] == TaggedOf(old(findings[i]), generated, review)
  {
    hide TagOf;
    for i := 0 to findings.Length
      invariant forall k :: 0 <= k < i ==> findings[k] == TaggedOf(old(findings[k]), generated, review)
      invariant forall k :: i <= k < findings.Length ==> findings[k] == old(findings[k])
    {
      var tag := Tag(findings[i], generated, review);
      if tag.Some? { findings[i] := findings[i].(excludedBy := tag); }
    }
  }

  lemma TagIgnoresTag(f: Finding, g: Finding, generated: seq<Generated>, review: Review)
    requires g == f.(excludedBy := g.excludedBy)
    ensures TagOf(f, generated, review) == TagOf(g, generated, review)
  {
    hide UncommittedPin;
  }

  // ----- the rules, read off the finding and the inputs

  /** The lanes whose fixed-column schema is still in the sources. */
  predicate PinnedLane(name: string, review: Review) {
    || (review.air == "Main" && review.mainPinned && (name == "Main.SEGMENT_L1" || name == "Main.SEGMENT_STEP"))
    || (review.air == "MemAlign" && review.memAlignPinned && name == "MemAlign.L1")
  }

  /** Some clause has an alias, and every alias is of a pinned lane. */
  ghost predicate PinnedAliases(clauses: seq<Clause>, review: Review) {
    && (exists c :: c in clauses && c.aliases != [])
    && (forall c, n :: c in clauses && n in c.aliases ==> PinnedLane(n, review))
  }

  /** The one clause of the finding is `sourceCCopyBetween`, implied with a cofactor 1 - a by a
      constraint from that line of the program. */
  ghost predicate WithinSegment(f: Finding, generated: seq<Generated>, review: Review) {
    && review.air == "Main"
    && (exists c :: f.clauses == [c] && c.definition == "sourceCCopyBetween")
    && (exists i: Implication, p, q :: f.implied == Some(i) && i.cofactor.Complement? && i.index < |generated|
         && generated[i.index].provenance == p + "main.pil:386" + q)
  }

  /** Exactly one lane carries the name. */
  predicate NamesOneLane(name: string, review: Review) {
    name in review.lanes.byName && |review.lanes.byName[name]| == 1
  }

  /** The clause pins uncommitted fields: its projections without a lane are cited, expected,
      and name no lane or several. */
  ghost predicate PinsUncommitted(c: Clause, review: Review) {
    && c.laneless != []
    && (forall l, leaf :: l in c.laneless && EndsIn(l.path, leaf) ==>
         l.reason == "no_lane" && l.citation != "" && (review.air, leaf) in review.expectedUnresolved
         && !NamesOneLane(leaf, review))
    && PinShape(PolyOf(c.expr))
  }

  /** What each rule asks of a finding of its kind, and that no other kind has a rule. */
  ghost predicate Excusable(f: Finding, generated: seq<Generated>, review: Review) {
    || (f.kind == Reclassification && PinnedAliases(f.clauses, review))
    || (f.kind == Strengthening && WithinSegment(f, generated, review))
    || (f.kind == Unbacked && exists c :: f.clauses != [] && c == f.clauses[0] && PinsUncommitted(c, review))
  }

  /** The name of the rule. */
  function RuleName(kind: Kind, air: string): string {
    match kind
    case Strengthening => "main_source_c_within_segment"
    case Unbacked => "mirror_unbacked_field_uncommitted"
    case _ => if air == "Main" then "main_fixed_lane_alias" else "memalign_fixed_lane_alias"
  }

  lemma AliasesPinned(f: Finding, review: Review)
    ensures AliasTag(f, review)
         == if PinnedAliases(f.clauses, review) then Some(RuleName(Reclassification, review.air)) else None
  {
    var names := AliasNames(f.clauses);
    assert names != {} <==> exists n :: n in names;
    if c :| c in f.clauses && c.aliases != [] {
      assert c.aliases[0] in c.aliases;
      assert c.aliases[0] in names;
    }
    if n :| n in names {
      var c :| c in f.clauses && n in c.aliases;
    }
    assert (forall c, n :: c in f.clauses && n in c.aliases ==> PinnedLane(n, review)) <==>
           forall n :: n in names ==> PinnedLane(n, review);
    if review.air == "MemAlign" && PinnedAliases(f.clauses, review) {
      assert forall n :: n in names ==> n == "MemAlign.L1";
      assert names == {"MemAlign.L1"};
    }
  }

  lemma ContainsIff(text: string, part: string)
    ensures Contains(text, part) <==> exists p, q :: text == p + part + q
  {
    if k :| 0 <= k <= |text| && OccursAt(text, part, k) {
      assert text == text[..k] + part + text[k + |part|..];
    }
    if p, q :| text == p + part + q {
      assert OccursAt(text, part, |p|);
    }
  }

  lemma BoundaryIsWithin(f: Finding, generated: seq<Generated>, review: Review)
    ensures SourceCBoundary(f, generated, review.air) <==> WithinSegment(f, generated, review)
  {
    hide Contains, OccursAt;
    assert |f.clauses| == 1 ==> f.clauses == [f.clauses[0]];
    if f.implied.Some? && f.implied.value.index < |generated| {
      ContainsIff(generated[f.implied.value.index].provenance, "main.pil:386");
    }
  }

  lemma UncommittedPins(c: Clause, review: Review)
    ensures UncommittedPin(c, review) <==> PinsUncommitted(c, review)
  {
    hide PinShape, PolyOf, AfterLastDot, EndsIn;
    forall l: Laneless, leaf ensures EndsIn(l.path, leaf) <==> leaf == Leaf(l) { LeafUnique(l.path, leaf); }
    forall l: Laneless ensures EndsIn(l.path, Leaf(l)) { LeafUnique(l.path, Leaf(l)); }
    hide Leaf;
    assert (forall l :: l in c.laneless ==> Cited(l, review) && !NamesOneLane(Leaf(l), review)) ==>
           forall l, leaf :: l in c.laneless && EndsIn(l.path, leaf) ==>
             Cited(l, review) && !NamesOneLane(leaf, review);
  }

  /** A finding gets the tag of the rule for its kind exactly when it meets the rule. */
  lemma TagIffExcusable(f: Finding, generated: seq<Generated>, review: Review)
    ensures TagOf(f, generated, review)
         == if Excusable(f, generated, review) then Some(RuleName(f.kind, review.air)) else None
  {
    hide SourceCBoundary, WithinSegment, UncommittedPin, PinsUncommitted, AliasTag, PinnedAliases;
    AliasesPinned(f, review);
    BoundaryIsWithin(f, generated, review);
    if f.clauses != [] { UncommittedPins(f.clauses[0], review); }
  }

  // ----- what the exclusions rest on

  /** An excluded unbacked clause constrains nothing: whatever the committed values, some
      value of an uncommitted atom makes it vanish. */
  lemma ExcludedUnbackedFree(f: Finding, generated: seq<Generated>, review: Review, env: Env) returns (u: Atom, v: int)
    requires f.kind == Unbacked && TagOf(f, generated, review).Some?
    ensures f.clauses != [] && u.Unresolved? && ExprValue(f.clauses[0].expr, Update(env, u, v)) % P == 0
  {
    u, v := PinConstrainsNothing(f.clauses[0].expr, env);
  }

  lemma TaggedStrengthening(f: Finding, generated: seq<Generated>, clauses: seq<Clause>, review: Review)
    requires StrengtheningOk(f, generated, clauses) && TagOf(f, generated, review).Some?
    ensures |f.clauses| == 1 && f.implied.Some? && f.implied.value.cofactor.Complement?
    ensures f.implied.value.index < |generated|
    ensures IsImplication(f.clauses[0].expr, Exprs(generated), f.implied.value)
  {
    hide IsImplication, NoneExplains, WholeStrengthening, Contains;
  }

  lemma OnlyClause(f: Finding, c: Clause)
    requires |f.clauses| == 1 && c in f.clauses
    ensures f.clauses[0] == c
  {
  }

  lemma Matching(clause: Expr, generated: seq<Expr>, i: Implication)
    requires IsImplication(clause, generated, i)
    ensures i.index < |generated|
    ensures Matches(PolyOf(clause), PolyOf(generated[i.index]), i.boolean, i.cofactor, i.scalar)
  {
    hide Matches, InFamily, Preferred, PolyOf;
  }

  lemma ComplementValue(c: Cofactor, env: Env)
    requires c.Complement?
    ensures ExprValue(CofactorExpr(c), env) == 1 - env(c.a)
  {
  }

  lemma ComplementTimes(a: int, s: int, g: int, c: int)
    requires c == 1 - a
    ensures a % P == 1 ==> (s * (c * g)) % P == 0
    ensures g % P == 0 ==> (s * (c * g)) % P == 0
  {
    Modular.ModUnique(1, P, 0, 1);
    Modular.CongDifference(1, a, P);
    if a % P == 1 || g % P == 0 {
      Factoring.ZeroTimes(c, g);
      Factoring.ZeroTimes(s, c * g);
    }
  }

  /** An excluded strengthening is the named constraint times 1 - a: where that constraint
      vanishes so does the clause, and where a is 1 the clause says nothing. */
  lemma ExcludedStrengtheningPartial(f: Finding, generated: seq<Generated>, clauses: seq<Clause>, review: Review,
                                     c: Clause, env: Env)
    requires AllFormed(generated, clauses) && StrengtheningOk(f, generated, clauses)
    requires TagOf(f, generated, review).Some?
    requires c in f.clauses && BooleanOn(env, f.implied.value.boolean)
    ensures f.implied.value.cofactor.Complement? && f.implied.value.index < |generated|
    ensures env(f.implied.value.cofactor.a) % P == 1 ==> ExprValue(c.expr, env) % P == 0
    ensures ExprValue(generated[f.implied.value.index].expr, env) % P == 0 ==> ExprValue(c.expr, env) % P == 0
  {
    hide *;
    TaggedStrengthening(f, generated, clauses, review);
    var i := f.implied.value;
    var gen := generated[i.index].expr;
    assert f.clauses[0] == c by { OnlyClause(f, c); }
    Matching(c.expr, Exprs(generated), i);
    MatchValue(c.expr, gen, i.boolean, i.cofactor, i.scalar, env);
    ComplementTimes(env(i.cofactor.a), i.scalar, ExprValue(gen, env), ExprValue(CofactorExpr(i.cofactor), env)) by {
      ComplementValue(i.cofactor, env);
    }
  }

  /** A leaf the rule accepts is documented to have no lane anywhere. It has none exactly when
      its name is not ambiguous. */
  lemma NoLaneUnlessAmbiguous(f: Finding, generated: seq<Generated>, review: Review, claims: seq<Lanes.Claim>,
                              expected: set<Lanes.Lane>, l: Laneless)
    requires f.kind == Unbacked && TagOf(f, generated, review).Some? && l in f.clauses[0].laneless
    requires Lanes.MapOf(review.lanes, claims, expected)
    ensures (forall lane :: lane in review.lanes.lanes ==> review.lanes.lanes[lane].name != Leaf(l))
       <==> Lanes.Resolve(review.lanes, Leaf(l)) != Err(Lanes.AmbiguousName)
  {
    hide PinShape, Lanes.MapOf;
    Lanes.ResolveIffUnique(review.lanes, claims, expected, Leaf(l));
  }

  // ----- a field with two lanes, excluded as one with none

  const TWIN: Lanes.LaneInfo := Lanes.LaneInfo("x", "x", [], None, Some(1), Lanes.WitnessCol)

  const TWIN_CLAIMS: seq<Lanes.Claim> :=
    [Lanes.Claim(Lanes.MainLane(1, 0), TWIN), Lanes.Claim(Lanes.MainLane(1, 1), TWIN)]

  const TWINS: set<Lanes.Lane> := {Lanes.MainLane(1, 0), Lanes.MainLane(1, 1)}

  const TWIN_MAP: Lanes.LaneMap :=
    Lanes.LaneMap(map[Lanes.MainLane(1, 0) := TWIN, Lanes.MainLane(1, 1) := TWIN],
                  map["x" := [Lanes.MainLane(1, 0), Lanes.MainLane(1, 1)]], {}, [])

  const PIN: Clause := Clause(0, "pin", Var(Unresolved("row", "x", 0)), [], [], [],
                              [Laneless("row.x", "no_lane", "cited")])

  lemma TwinsNamed(n: string)
    ensures Lanes.Named(TWIN_CLAIMS, TWINS, n) == if n == "x" then [Lanes.MainLane(1, 0), Lanes.MainLane(1, 1)] else []
    ensures Lanes.Outside(TWIN_CLAIMS, TWINS) == []
  {
    var c := TWIN_CLAIMS;
    assert c[..1] == [c[0]] && c[..1][..0] == [] && c[..|c| - 1] == c[..1];
    assert Lanes.Named(c[..1], TWINS, n) == if n == "x" then [c[0].lane] else [];
    assert Lanes.Outside(c[..1], TWINS) == [];
  }

  lemma TwinsIndexed()
    ensures Lanes.Indexed(TWIN_MAP.byName, TWIN_CLAIMS, TWINS)
  {
    hide Lanes.Named, Lanes.Outside;
    forall n
      ensures n in TWIN_MAP.byName <==> Lanes.Named(TWIN_CLAIMS, TWINS, n) != []
      ensures n in TWIN_MAP.byName ==> TWIN_MAP.byName[n] == Lanes.Named(TWIN_CLAIMS, TWINS, n)
    {
      TwinsNamed(n);
    }
  }

  lemma TwinsHeld()
    ensures Lanes.Holds(TWIN_MAP.lanes, TWIN_CLAIMS, TWINS)
  {
    assert TWIN_CLAIMS[0].lane == Lanes.MainLane(1, 0) && TWIN_CLAIMS[1].lane == Lanes.MainLane(1, 1);
  }

  lemma TwinMap()
    ensures Lanes.MapOf(TWIN_MAP, TWIN_CLAIMS, TWINS)
  {
    hide Lanes.Holds, Lanes.Indexed, Lanes.Outside;
    TwinsHeld();
    TwinsIndexed();
    TwinsNamed("x");
    assert TWINS - TWIN_MAP.lanes.Keys == {};
  }

  lemma TwinUnresolved()
    ensures Lanes.Resolve(TWIN_MAP, "x") == Err(Lanes.AmbiguousName)
    ensures Lanes.MainLane(1, 0) in TWIN_MAP.lanes && TWIN_MAP.lanes[Lanes.MainLane(1, 0)].name == "x"
  {
  }

  lemma PinLeaf()
    ensures Leaf(PIN.laneless[0]) == "x"
  {
  }

  lemma PinUncommitted(review: Review)
    requires Lanes.Resolve(review.lanes, "x").Err? && ("A", "x") in review.expectedUnresolved && review.air == "A"
    ensures Uncommitted(PIN, review)
  {
    hide Lanes.Resolve, Leaf, AfterLastDot;
    PinLeaf();
    assert PIN.laneless[0] in PIN.laneless;
  }

  lemma PinTagged(review: Review, generated: seq<Generated>)
    requires Uncommitted(PIN, review) && PinShape(PolyOf(Var(Unresolved("row", "x", 0))))
    ensures TagOf(Plain(Unbacked, [], [PIN], NoRoute), generated, review).Some?
  {
    hide Uncommitted, PinShape, PolyOf;
  }

  /** Two lanes are named x; the unbacked clause x = 0 is excluded for having none. */
  lemma AmbiguousLeafExcluded(generated: seq<Generated>)
    ensures var review := Review("A", {("A", "x")}, TWIN_MAP, false, false);
            && Lanes.MapOf(review.lanes, TWIN_CLAIMS, TWINS)
            && TagOf(Plain(Unbacked, [], [PIN], NoRoute), generated, review).Some?
            && Lanes.MainLane(1, 0) in review.lanes.lanes && review.lanes.lanes[Lanes.MainLane(1, 0)].name == "x"
  {
    hide *;
    var review := Review("A", {("A", "x")}, TWIN_MAP, false, false);
    TwinMap();
    TwinUnresolved();
    PinUncommitted(review);
    AtomIsPin(Unresolved("row", "x", 0));
    PinTagged(review, generated);
  }
}
