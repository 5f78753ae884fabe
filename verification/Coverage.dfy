/** The rewrites after `pair_air` and the partition checks of `run_check`: no rewrite loses
    a constraint, each relabelling is backed by what it cites, and the partition errors
    cannot fire. */
module Coverage {
  import opened Atoms
  import opened Results
  import opened Goldilocks
  import opened Expressions
  import opened Evaluation
  import opened Verdicts
  import opened Grouping
  import opened Pairing
  import opened Exclusions

  // ----- reclassify_covered

  /** The typing facts of one AIR: bounded columns and Bool-typed fields. */
  datatype Typing = Typing(bounds: map<Atom, int>, fields: set<Atom>)

  ghost predicate TypedColumn(t: Typing, a: Atom) {
    TypedByBound(t.bounds, a) || a in t.fields
  }

  ghost predicate Typed(g: Generated, t: Typing) {
    exists a :: BooleanShape(g.expr, a) && TypedColumn(t, a)
  }

  /** The clauses are all the declared out-of-root ones with the form of the constraints. */
  ghost predicate Restated(f: Finding, outOfRoot: seq<Clause>, clauses: seq<Clause>) {
    && clauses != []
    && exists k :: clauses == Select(outOfRoot, MirCanon, k) && forall g :: g in f.generated ==> g.canon == k
  }

  ghost predicate Uniform(f: Finding) {
    f.generated != [] && forall g :: g in f.generated ==> g.canon == f.generated[0].canon
  }

  /** What becomes of a finding: a gap whose every constraint is typed, then a gap a
      declared out-of-root mirror restates, and nothing else, is relabelled. */
  ghost function CoveredOf(f: Finding, t: Typing, outOfRoot: seq<Clause>): Finding {
    if f.kind != Gap || f.generated == [] then f
    else if forall g :: g in f.generated ==> Typed(g, t) then Plain(BoolTyped, f.generated, [], NoRoute)
    else if Uniform(f) && Select(outOfRoot, MirCanon, f.generated[0].canon) != [] then
      Plain(OutOfRoot, f.generated, Select(outOfRoot, MirCanon, f.generated[0].canon), NoRoute)
    else f
  }

  method IsTyped(g: Generated, t: Typing) returns (b: bool)
    ensures b <==> Typed(g, t)
  {
    hide CanonicalOf;
    var atom := BooleanAtom(g.expr);
    b := atom.Some? && ((atom.value in t.bounds && t.bounds[atom.value] <= 2) || atom.value in t.fields);
    if atom.Some? {
      forall a | BooleanShape(g.expr, a) ensures a == atom.value { assert a in {atom.value}; }
      assert BooleanShape(g.expr, atom.value);
    }
  }

  method AllTyped(generated: seq<Generated>, t: Typing) returns (b: bool)
    ensures b <==> forall g :: g in generated ==> Typed(g, t)
  {
    hide Typed;
    for i := 0 to |generated|
      invariant forall k :: 0 <= k < i ==> Typed(generated[k], t)
    {
      var typed := IsTyped(generated[i], t);
      if !typed { return false; }
    }
    b := true;
  }

  method AllOfForm(generated: seq<Generated>, canon: Canon) returns (b: bool)
    ensures b <==> forall g :: g in generated ==> g.canon == canon
  {
    for i := 0 to |generated|
      invariant forall k :: 0 <= k < i ==> generated[k].canon == canon
    {
      if generated[i].canon != canon { return false; }
    }
    b := true;
  }

  method CoverFinding(f: Finding, t: Typing, byCanon: map<Canon, seq<Clause>>, ghost outOfRoot: seq<Clause>)
    returns (r: Finding)
    requires forall k :: k in byCanon ==> byCanon[k] == Select(outOfRoot, MirCanon, k) && byCanon[k] != []
    requires forall k :: k !in byCanon ==> Select(outOfRoot, MirCanon, k) == []
    ensures r == CoveredOf(f, t, outOfRoot)
  {
    hide Typed, Select;
    if f.kind != Gap || f.generated == [] { return f; }
    var typed := AllTyped(f.generated, t);
    if typed { return Plain(BoolTyped, f.generated, [], NoRoute); }
    var canon := f.generated[0].canon;
    var uniform := AllOfForm(f.generated, canon);
    r := if canon in byCanon && uniform then Plain(OutOfRoot, f.generated, byCanon[canon], NoRoute) else f;
  }

  /** `reclassify_covered` */
  method ReclassifyCovered(fs: seq<Finding>, t: Typing, outOfRoot: seq<Clause>) returns (rs: seq<Finding>)
    ensures |rs| == |fs| && forall i :: 0 <= i < |fs| ==> rs[i] == CoveredOf(fs[i], t, outOfRoot)
  {
    hide CoveredOf;
    var byCanon := GroupBy(outOfRoot, MirCanon);
    forall k | k !in byCanon ensures Select(outOfRoot, MirCanon, k) == [] {
      NoneSelected(outOfRoot, MirCanon, k);
    }
    rs := [];
    for i := 0 to |fs|
      invariant |rs| == i && forall k :: 0 <= k < i ==> rs[k] == CoveredOf(fs[k], t, outOfRoot)
    {
      var r := CoverFinding(fs[i], t, byCanon, outOfRoot);
      rs := rs + [r];
    }
  }

  // ----- reclassify_weld_covered

  /** A residual gap whose every constraint a weld binds. */
  ghost function WeldedOf(f: Finding, covered: set<int>): Finding {
    if f.kind == Gap && f.generated != [] && forall g :: g in f.generated ==> g.index in covered
    then Plain(WeldCovered, f.generated, [], NoRoute) else f
  }

  method AllCovered(generated: seq<Generated>, covered: set<int>) returns (b: bool)
    ensures b <==> forall g :: g in generated ==> g.index in covered
  {
    for i := 0 to |generated|
      invariant forall k :: 0 <= k < i ==> generated[k].index in covered
    {
      if generated[i].index !in covered { return false; }
    }
    b := true;
  }

  /** `reclassify_weld_covered`, over the indices the AIR's welds bind. */
  method ReclassifyWeldCovered(fs: seq<Finding>, covered: set<int>) returns (rs: seq<Finding>)
    ensures |rs| == |fs| && forall i :: 0 <= i < |fs| ==> rs[i] == WeldedOf(fs[i], covered)
  {
    if covered == {} {
      forall f: Finding | f.generated != [] ensures exists g :: g in f.generated && g.index !in covered {
        assert f.generated[0] in f.generated;
      }
      return fs;
    }
    rs := [];
    for i := 0 to |fs|
      invariant |rs| == i && forall k :: 0 <= k < i ==> rs[k] == WeldedOf(fs[k], covered)
    {
      var f := fs[i];
      var welded := AllCovered(f.generated, covered);
      var r := if f.kind == Gap && f.generated != [] && welded then Plain(WeldCovered, f.generated, [], NoRoute) else f;
      rs := rs + [r];
    }
  }

  // ----- the partition checks of run_check

  function GenOfKind(kind: Kind): Finding -> seq<Generated> {
    (f: Finding) => if f.kind == kind then f.generated else []
  }

  function MirOfKind(kind: Kind): Finding -> seq<Clause> {
    (f: Finding) => if f.kind == kind then f.clauses else []
  }

  function GenCount(fs: seq<Finding>, kind: Kind): nat {
    |Flat(fs, GenOfKind(kind))|
  }

  function MirCount(fs: seq<Finding>, kind: Kind): nat {
    |Flat(fs, MirOfKind(kind))|
  }

  /** Strengthenings and unbacked findings carry no generated constraint. */
  ghost predicate NoStrayConstraints(fs: seq<Finding>) {
    forall f :: f in fs && (f.kind == Strengthening || f.kind == Unbacked) ==> f.generated == []
  }

  lemma {:induction false} CountsAdd(fs: seq<Finding>)
    requires NoStrayConstraints(fs)
    ensures GenCount(fs, Matched) + GenCount(fs, Reclassification) + GenCount(fs, Gap) + GenCount(fs, OutOfRoot)
          + GenCount(fs, BoolTyped) + GenCount(fs, WeldCovered) == |Flat(fs, GenPart)|
  {
    if fs == [] {
    } else {
      assert fs[|fs| - 1] in fs;
      CountsAdd(fs[..|fs| - 1]);
    }
  }

  lemma {:induction false} MirrorCountsAdd(fs: seq<Finding>)
    ensures MirCount(fs, Matched) + MirCount(fs, Reclassification) + MirCount(fs, Strengthening) == |Flat(fs, MirPart)|
    ensures MirCount(fs, Unbacked) == |Flat(fs, UnbackedPart)|
  {
    if fs == [] {
    } else {
      MirrorCountsAdd(fs[..|fs| - 1]);
    }
  }

  /** A rewrite that keeps the constraints of every finding and the sides its kind is
      counted on. */
  ghost predicate Conserves(f: Finding, r: Finding) {
    GenPart(f) == GenPart(r) && MirPart(f) == MirPart(r) && UnbackedPart(f) == UnbackedPart(r)
  }

  lemma ConservesAll(fs: seq<Finding>, rs: seq<Finding>, gens: multiset<Generated>, mirs: multiset<Clause>,
                     unbacked: seq<Clause>)
    requires |fs| == |rs| && forall i :: 0 <= i < |fs| ==> Conserves(fs[i], rs[i])
    requires Accounts(fs, gens, mirs, unbacked)
    ensures Accounts(rs, gens, mirs, unbacked)
  {
    FlatSame(fs, rs, GenPart);
    FlatSame(fs, rs, MirPart);
    FlatSame(fs, rs, UnbackedPart);
  }

  ghost predicate Strayless(f: Finding) {
    f.kind == Strengthening || f.kind == Unbacked ==> f.generated == []
  }

  /** The gap a covered finding was before it was relabelled. */
  function AsGap(f: Finding): Finding {
    Plain(Gap, f.generated, [], NoRoute)
  }

  ghost predicate WholeTyped(f: Finding, t: Typing) {
    forall g :: g in f.generated ==> Typed(g, t)
  }

  ghost predicate WholeWelded(f: Finding, covered: set<int>) {
    forall g :: g in f.generated ==> g.index in covered
  }

  /** No declared out-of-root clause has the form of a constraint of the finding. */
  ghost predicate NotRestated(f: Finding, outOfRoot: seq<Clause>) {
    forall g, c :: g in f.generated && c in outOfRoot ==> g.canon != c.canon
  }

  /** What a finding of the finished run rests on. The relabelled ones are whole gaps, and a
      finding is left a gap only when nothing covers it. */
  ghost predicate Final(f: Finding, generated: seq<Generated>, clauses: seq<Clause>, unbacked: seq<Clause>,
                        t: Typing, outOfRoot: seq<Clause>, covered: set<int>) {
    match f.kind
    case BoolTyped => GapOk(AsGap(f), generated, clauses) && WholeTyped(f, t)
    case OutOfRoot =>
      GapOk(AsGap(f), generated, clauses) && !WholeTyped(f, t) && Restated(f, outOfRoot, f.clauses)
    case WeldCovered =>
      GapOk(AsGap(f), generated, clauses) && !WholeTyped(f, t) && NotRestated(f, outOfRoot) && WholeWelded(f, covered)
    case Gap =>
      GapOk(f, generated, clauses) && !WholeTyped(f, t) && NotRestated(f, outOfRoot) && !WholeWelded(f, covered)
    case _ => Classified(f, generated, clauses, unbacked)
  }

  lemma RestatedHolds(a: Finding, b: Finding, t: Typing, outOfRoot: seq<Clause>)
    requires a.kind == Gap && b == CoveredOf(a, t, outOfRoot)
    ensures b.kind == OutOfRoot ==> Restated(b, outOfRoot, b.clauses)
    ensures b.kind == Gap && Uniform(a) ==> NotRestated(b, outOfRoot)
  {
    hide Typed;
    if a.generated != [] {
      var k := a.generated[0].canon;
      forall c: Clause ensures c in Select(outOfRoot, MirCanon, k) <==> c in outOfRoot && c.canon == k {
        SelectContents(outOfRoot, MirCanon, k, c);
      }
    }
  }

  lemma SameGapForm(a: Finding, generated: seq<Generated>, clauses: seq<Clause>, g: Generated, h: Generated)
    requires WholeGap(a, generated, clauses, g.canon) && h in a.generated
    ensures h.canon == g.canon
  {
    hide Unpaired;
    assert h in multiset(a.generated);
    assert multiset(a.generated)[h] > 0;
  }

  /** The constraints of a gap have one canonical form. */
  lemma GapUniform(a: Finding, generated: seq<Generated>, clauses: seq<Clause>)
    requires GapOk(a, generated, clauses)
    ensures Uniform(a)
  {
    hide WholeGap;
    forall g | g in a.generated ensures g.canon == a.generated[0].canon {
      assert a.generated[0] in a.generated;
      GapMember(a, generated, clauses, g);
      GapMember(a, generated, clauses, a.generated[0]);
      SameGapForm(a, generated, clauses, g, a.generated[0]);
    }
  }

  lemma KindOf(a: Finding, generated: seq<Generated>, clauses: seq<Clause>, unbacked: seq<Clause>)
    requires Classified(a, generated, clauses, unbacked)
    ensures a.kind in {Matched, Reclassification, Gap, Strengthening, Unbacked}
    ensures a.kind == Gap ==> GapOk(a, generated, clauses) && a.clauses == []
    ensures a.kind == Unbacked ==> a.clauses != []
    ensures Strayless(a)
  {
  }

  /** Whether a finding is a gap depends on its constraints alone. */
  lemma SameGap(a: Finding, b: Finding, generated: seq<Generated>, clauses: seq<Clause>)
    requires GapOk(a, generated, clauses) && b.kind == Gap && b.generated == a.generated && b.clauses == []
    ensures GapOk(b, generated, clauses)
  {
    hide Unpaired;
    var k :| WholeGap(a, generated, clauses, k);
    assert WholeGap(b, generated, clauses, k);
  }

  lemma PartsIgnoreTag(a: Finding, d: Finding, generated: seq<Generated>, clauses: seq<Clause>)
    requires d == a.(excludedBy := d.excludedBy)
    ensures forall k :: WholeClass(a, generated, clauses, k) ==> WholeClass(d, generated, clauses, k)
    ensures forall k :: WholeErasure(a, generated, clauses, k) ==> WholeErasure(d, generated, clauses, k)
    ensures forall k :: WholeGap(a, generated, clauses, k) ==> WholeGap(d, generated, clauses, k)
    ensures forall k :: WholeStrengthening(a, generated, clauses, k) ==> WholeStrengthening(d, generated, clauses, k)
  {
    hide GenMatched, MirMatched, Unpaired, UnpairedClause;
  }

  /** A tag does not disturb the classification. */
  lemma TagFree(a: Finding, d: Finding, generated: seq<Generated>, clauses: seq<Clause>, unbacked: seq<Clause>)
    requires Classified(a, generated, clauses, unbacked) && d == a.(excludedBy := d.excludedBy)
    ensures Classified(d, generated, clauses, unbacked)
  {
    PartsIgnoreTag(a, d, generated, clauses);
    hide WholeClass, WholeErasure, WholeGap, WholeStrengthening, ImpliedOk;
  }

  /** A finding is excluded exactly when it meets the rule for its kind, and under the name of
      that rule. */
  ghost predicate Judged(f: Finding, generated: seq<Generated>, review: Review) {
    f.excludedBy == if Excusable(f, generated, review) then Some(RuleName(f.kind, review.air)) else None
  }

  lemma Chain(a: Finding, review: Review, generated: seq<Generated>, clauses: seq<Clause>,
              unbacked: seq<Clause>, t: Typing, outOfRoot: seq<Clause>, covered: set<int>)
    requires Classified(a, generated, clauses, unbacked) && Unadorned(a)
    ensures var d := TaggedOf(WeldedOf(CoveredOf(a, t, outOfRoot), covered), generated, review);
            && Conserves(a, d) && Strayless(d) && Final(d, generated, clauses, unbacked, t, outOfRoot, covered)
            && Judged(d, generated, review)
  {
    hide Typed, Classified, GapOk, TagOf, Select, Excusable;
    var b := CoveredOf(a, t, outOfRoot);
    var c := WeldedOf(b, covered);
    var d := TaggedOf(c, generated, review);
    KindOf(a, generated, clauses, unbacked);
    if a.kind == Gap {
      GapUniform(a, generated, clauses);
      RestatedHolds(a, b, t, outOfRoot);
      SameGap(a, AsGap(d), generated, clauses);
      if d.kind == Gap { SameGap(a, d, generated, clauses); }
    }
    TagIgnoresTag(c, d, generated, review);
    TagIffExcusable(d, generated, review);
    if c == a { TagFree(a, d, generated, clauses, unbacked); }
  }

  /** After every rewrite, too, a finding with one constraint of a class holds the class. */
  lemma FinalClassWhole(f: Finding, generated: seq<Generated>, clauses: seq<Clause>, unbacked: seq<Clause>,
                        t: Typing, outOfRoot: seq<Clause>, covered: set<int>, g: Generated, h: Generated)
    requires AllFormed(generated, clauses) && Final(f, generated, clauses, unbacked, t, outOfRoot, covered)
    requires g in f.generated && h in generated && g.canon == h.canon
    ensures multiset(f.generated)[h] == multiset(generated)[h]
  {
    hide AllFormed, MatchedOk, ErasureOk, GapOk, StrengtheningOk, UnbackedOk;
    if f.kind in {BoolTyped, OutOfRoot, WeldCovered} {
      ClassWhole(generated, clauses, unbacked, AsGap(f), g, h);
    } else {
      ClassWhole(generated, clauses, unbacked, f, g, h);
    }
  }

  lemma Contained(fs: seq<Finding>, j: nat, h: Generated)
    requires j < |fs| && h in fs[j].generated
    ensures h in multiset(Flat(fs, GenPart))
  {
    FlatHolds(fs, GenPart, j, h);
    assert h in multiset(GenPart(fs[j]));
  }

  /** The finished run puts each canonical class of constraints into one finding. */
  lemma RunNeverSplits(fs: seq<Finding>, generated: seq<Generated>, clauses: seq<Clause>, unbacked: seq<Clause>,
                       t: Typing, outOfRoot: seq<Clause>, covered: set<int>, i: nat, j: nat, g: Generated, h: Generated)
    requires AllFormed(generated, clauses) && Accounts(fs, multiset(generated), multiset(clauses), unbacked)
    requires forall f :: f in fs ==> Final(f, generated, clauses, unbacked, t, outOfRoot, covered)
    requires i < |fs| && j < |fs| && g in fs[i].generated && h in fs[j].generated && g.canon == h.canon
    ensures i == j
  {
    hide AllFormed, Final;
    Contained(fs, j, h);
    assert h in multiset(generated);
    FinalClassWhole(fs[i], generated, clauses, unbacked, t, outOfRoot, covered, g, h);
    FinalClassWhole(fs[j], generated, clauses, unbacked, t, outOfRoot, covered, h, h);
    if i < j { FlatHoldsBoth(fs, GenPart, i, j, h); }
    if j < i { FlatHoldsBoth(fs, GenPart, j, i, h); }
  }

  lemma Partition(fs: seq<Finding>, generated: seq<Generated>, clauses: seq<Clause>, unbacked: seq<Clause>)
    requires Accounts(fs, multiset(generated), multiset(clauses), unbacked)
    requires forall i :: 0 <= i < |fs| ==> Strayless(fs[i])
    ensures GenCount(fs, Matched) + GenCount(fs, Reclassification) + GenCount(fs, Gap) + GenCount(fs, OutOfRoot)
            + GenCount(fs, BoolTyped) + GenCount(fs, WeldCovered) == |generated|
    ensures MirCount(fs, Matched) + MirCount(fs, Reclassification) + MirCount(fs, Strengthening) == |clauses|
    ensures MirCount(fs, Unbacked) == |unbacked|
  {
    CountsAdd(fs);
    MirrorCountsAdd(fs);
    assert |multiset(Flat(fs, GenPart))| == |multiset(generated)|;
    assert |multiset(Flat(fs, MirPart))| == |multiset(clauses)|;
  }

  lemma UnbackedStays(a: Finding, generated: seq<Generated>, clauses: seq<Clause>, unbacked: seq<Clause>,
                      t: Typing, outOfRoot: seq<Clause>, covered: set<int>)
    requires Classified(a, generated, clauses, unbacked)
    ensures Taggable(WeldedOf(CoveredOf(a, t, outOfRoot), covered))
  {
    hide Typed, Classified;
    KindOf(a, generated, clauses, unbacked);
  }

  /** One AIR of a run, up to the point where the partition is checked. */
  method RunAir(generated: seq<Generated>, clauses: seq<Clause>, unbacked: seq<Clause>,
                t: Typing, outOfRoot: seq<Clause>, covered: set<int>, review: Review)
    returns (fs: seq<Finding>)
    ensures Accounts(fs, multiset(generated), multiset(clauses), unbacked)
    ensures GenCount(fs, Matched) + GenCount(fs, Reclassification) + GenCount(fs, Gap) + GenCount(fs, OutOfRoot)
            + GenCount(fs, BoolTyped) + GenCount(fs, WeldCovered) == |generated|
    ensures MirCount(fs, Matched) + MirCount(fs, Reclassification) + MirCount(fs, Strengthening) == |clauses|
    ensures MirCount(fs, Unbacked) == |unbacked|
    ensures forall f :: f in fs ==> Final(f, generated, clauses, unbacked, t, outOfRoot, covered)
    ensures forall f :: f in fs ==> Judged(f, generated, review)
  {
    hide *;
    var paired := PairAir(generated, clauses, unbacked);
    var typed := ReclassifyCovered(paired, t, outOfRoot);
    var welded := ReclassifyWeldCovered(typed, covered);
    var findings := new Finding[|welded|](i requires 0 <= i < |welded| => welded[i]);
    forall i | 0 <= i < findings.Length ensures Taggable(findings[i]) {
      UnbackedStays(paired[i], generated, clauses, unbacked, t, outOfRoot, covered);
    }
    ApplyExclusions(findings, generated, review);
    fs := findings[..];
    forall i | 0 <= i < |fs|
      ensures Conserves(paired[i], fs[i]) && Final(fs[i], generated, clauses, unbacked, t, outOfRoot, covered)
      ensures Strayless(fs[i]) && Judged(fs[i], generated, review)
    {
      Chain(paired[i], review, generated, clauses, unbacked, t, outOfRoot, covered);
    }
    ConservesAll(paired, fs, multiset(generated), multiset(clauses), unbacked);
    Partition(fs, generated, clauses, unbacked);
  }

  /** A kind erasure none of whose clauses has an alias is never excluded. */
  lemma PlainErasureNeverExcused(f: Finding, generated: seq<Generated>, review: Review)
    requires f.kind == Reclassification && Judged(f, generated, review)
    requires forall c :: c in f.clauses ==> c.aliases == []
    ensures f.excludedBy == None
  {
  }

  // ----- what the coverage verdicts mean

  /** OUT_OF_ROOT: the declared clause and the constraint agree at every assignment. */
  lemma OutOfRootSameValue(f: Finding, generated: seq<Generated>, outOfRoot: seq<Clause>, g: Generated,
                           c: Clause, env: Env)
    requires AllFormed(generated, outOfRoot) && Restated(f, outOfRoot, f.clauses)
    requires g in f.generated && g in generated && c in f.clauses
    ensures ExprValue(g.expr, env) % P == ExprValue(c.expr, env) % P
  {
    hide CanonicalOf, Select;
    var k :| f.clauses == Select(outOfRoot, MirCanon, k) && forall h :: h in f.generated ==> h.canon == k;
    SelectContents(outOfRoot, MirCanon, k, c);
    CanonicalImpliesSameValue(g.expr, c.expr, env);
  }

  /** BOOL_TYPED: the constraint vanishes exactly when some typed column holds 0 or 1. */
  lemma BoolTypedMeans(g: Generated, t: Typing, env: Env) returns (a: Atom)
    requires Typed(g, t)
    ensures TypedColumn(t, a) && AtomSet(g.expr) == {a}
    ensures ExprValue(g.expr, env) % P == 0 <==> env(a) % P == 0 || env(a) % P == 1
  {
    hide CanonicalOf;
    a :| BooleanShape(g.expr, a) && TypedColumn(t, a);
    BooleanShapeMeans(g.expr, a, env);
  }
}
