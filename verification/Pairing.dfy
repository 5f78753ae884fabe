/** `pair_air`: every constraint and clause lands in exactly one finding, every canonical class
    in one, and each verdict means what it says. */
module Pairing {
  import opened Results
  import opened Goldilocks
  import opened Polynomials
  import opened Expressions
  import opened Evaluation
  import opened FunctionEquality
  import opened Substitution
  import opened Erasure
  import opened Implications
  import opened Grouping

  type Canon = seq<Entry>

  datatype Generated = Generated(index: int, expr: Expr, canon: Canon, erased: Canon, provenance: string)

  /** A projection without a lane: its dotted path, why it has none, and the citation for that. */
  datatype Laneless = Laneless(path: string, reason: string, citation: string)

  /** `aliases` names the lanes of another kind the clause reaches through declared aliases,
      `laneless` the projections of an unbacked clause. */
  datatype Clause = Clause(index: int, definition: string, expr: Expr, canon: Canon, erased: Canon,
                           aliases: seq<string>, laneless: seq<Laneless>)

  datatype Kind = Matched | Reclassification | Gap | Strengthening | Unbacked | BoolTyped | OutOfRoot | WeldCovered

  datatype Route = NoRoute | DeclaredAlias | KindErasure

  datatype Finding = Finding(
    kind: Kind,
    generated: seq<Generated>,
    clauses: seq<Clause>,
    route: Route,
    implied: Option<Implication>,
    excludedBy: Option<string>)

  /** The precomputed forms are the forms of the expression. */
  ghost predicate Formed(e: Expr, canon: Canon, erased: Canon) {
    canon == CanonicalOf(e) && Erase(e).Ok? && erased == CanonicalOf(Erase(e).value)
  }

  ghost predicate AllFormed(generated: seq<Generated>, clauses: seq<Clause>) {
    && (forall g :: g in generated ==> Formed(g.expr, g.canon, g.erased))
    && (forall c :: c in clauses ==> Formed(c.expr, c.canon, c.erased))
  }

  function GenCanon(g: Generated): Canon { g.canon }
  function GenErased(g: Generated): Canon { g.erased }
  function MirCanon(c: Clause): Canon { c.canon }
  function MirErased(c: Clause): Canon { c.erased }

  // ----- where an entry belongs, independently of how the findings are built

  ghost predicate GenMatched(g: Generated, clauses: seq<Clause>) {
    exists c :: c in clauses && c.canon == g.canon
  }

  ghost predicate MirMatched(c: Clause, generated: seq<Generated>) {
    exists g :: g in generated && g.canon == c.canon
  }

  /** Unmatched, and some unmatched clause has the same erased form. */
  ghost predicate GenErasable(g: Generated, generated: seq<Generated>, clauses: seq<Clause>) {
    && !GenMatched(g, clauses)
    && exists c :: c in clauses && !MirMatched(c, generated) && c.erased == g.erased
  }

  ghost predicate MirErasable(c: Clause, generated: seq<Generated>, clauses: seq<Clause>) {
    && !MirMatched(c, generated)
    && exists g :: g in generated && !GenMatched(g, clauses) && g.erased == c.erased
  }

  /** One canonical class and everything on both sides of it. */
  ghost predicate WholeClass(f: Finding, generated: seq<Generated>, clauses: seq<Clause>, k: Canon) {
    && f.generated == Select(generated, GenCanon, k) && f.generated != []
    && f.clauses == Select(clauses, MirCanon, k) && f.clauses != []
  }

  ghost predicate MatchedOk(f: Finding, generated: seq<Generated>, clauses: seq<Clause>) {
    && (exists k :: WholeClass(f, generated, clauses, k))
    && (f.kind == Reclassification <==> exists c :: c in f.clauses && c.aliases != [])
    && (f.kind == Reclassification ==> f.route == DeclaredAlias)
    && (f.kind == Matched || f.kind == Reclassification)
  }

  /** All the unmatched constraints, and all the unmatched clauses, with one erased form. */
  ghost predicate WholeErasure(f: Finding, generated: seq<Generated>, clauses: seq<Clause>, k: Canon) {
    && (forall g :: multiset(f.generated)[g] ==
         if g.erased == k && !GenMatched(g, clauses) then multiset(generated)[g] else 0)
    && (forall c :: multiset(f.clauses)[c] ==
         if c.erased == k && !MirMatched(c, generated) then multiset(clauses)[c] else 0)
  }

  ghost predicate ErasureOk(f: Finding, generated: seq<Generated>, clauses: seq<Clause>) {
    && f.kind == Reclassification && f.route == KindErasure
    && f.generated != [] && f.clauses != []
    && exists k :: WholeErasure(f, generated, clauses, k)
  }

  ghost predicate Unpaired(g: Generated, generated: seq<Generated>, clauses: seq<Clause>) {
    !GenMatched(g, clauses) && !GenErasable(g, generated, clauses)
  }

  /** All the constraints of one canonical form that neither phase could pair. */
  ghost predicate WholeGap(f: Finding, generated: seq<Generated>, clauses: seq<Clause>, k: Canon) {
    forall g :: multiset(f.generated)[g] ==
      if g.canon == k && Unpaired(g, generated, clauses) then multiset(generated)[g] else 0
  }

  ghost predicate GapOk(f: Finding, generated: seq<Generated>, clauses: seq<Clause>) {
    && f.kind == Gap && f.generated != [] && f.clauses == []
    && exists k :: WholeGap(f, generated, clauses, k)
  }

  ghost predicate UnpairedClause(c: Clause, generated: seq<Generated>, clauses: seq<Clause>) {
    !MirMatched(c, generated) && !MirErasable(c, generated, clauses)
  }

  ghost predicate WholeStrengthening(f: Finding, generated: seq<Generated>, clauses: seq<Clause>, k: Canon) {
    forall c :: multiset(f.clauses)[c] ==
      if c.canon == k && UnpairedClause(c, generated, clauses) then multiset(clauses)[c] else 0
  }

  /** The implication reported is the first there is, and none is reported only when there
      is none, for a clause that asserts anything. */
  ghost predicate ImpliedOk(clause: Expr, generated: seq<Expr>, implied: Option<Implication>) {
    && (implied.Some? ==> IsImplication(clause, generated, implied.value))
    && (implied.Some? ==> NoneExplains(clause, generated, implied.value.index))
    && (implied.None? ==> PolyOf(clause).terms == map[] || NoneExplains(clause, generated, |generated|))
  }

  ghost predicate UnbackedOk(f: Finding, unbacked: seq<Clause>) {
    f.kind == Unbacked && f.generated == [] && |f.clauses| == 1 && f.clauses[0] in unbacked
  }

  function Exprs(generated: seq<Generated>): (es: seq<Expr>)
    ensures |es| == |generated| && forall i :: 0 <= i < |es| ==> es[i] == generated[i].expr
  {
    seq(|generated|, i requires 0 <= i < |generated| => generated[i].expr)
  }

  ghost predicate StrengtheningOk(f: Finding, generated: seq<Generated>, clauses: seq<Clause>) {
    && f.kind == Strengthening && f.generated == [] && f.clauses != []
    && (exists k :: WholeStrengthening(f, generated, clauses, k))
    && ImpliedOk(f.clauses[0].expr, Exprs(generated), f.implied)
  }

  ghost predicate Classified(f: Finding, generated: seq<Generated>, clauses: seq<Clause>, unbacked: seq<Clause>) {
    || MatchedOk(f, generated, clauses)
    || ErasureOk(f, generated, clauses)
    || GapOk(f, generated, clauses)
    || StrengtheningOk(f, generated, clauses)
    || UnbackedOk(f, unbacked)
  }

  // ----- the three sides that must partition

  function GenPart(f: Finding): seq<Generated> { f.generated }

  function MirPart(f: Finding): seq<Clause> {
    if f.kind in {Matched, Reclassification, Strengthening} then f.clauses else []
  }

  function UnbackedPart(f: Finding): seq<Clause> {
    if f.kind == Unbacked then f.clauses else []
  }

  /** What a batch of findings accounts for. */
  ghost predicate Accounts(fs: seq<Finding>, gens: multiset<Generated>, mirs: multiset<Clause>, unbacked: seq<Clause>) {
    && multiset(Flat(fs, GenPart)) == gens
    && multiset(Flat(fs, MirPart)) == mirs
    && Flat(fs, UnbackedPart) == unbacked
  }

  lemma AccountsAppend(fs: seq<Finding>, f: Finding, gens: multiset<Generated>, mirs: multiset<Clause>,
                       unbacked: seq<Clause>)
    requires Accounts(fs, gens, mirs, unbacked)
    ensures Accounts(fs + [f], gens + multiset(GenPart(f)), mirs + multiset(MirPart(f)), unbacked + UnbackedPart(f))
  {
    FlatAppend(fs, f, GenPart);
    FlatAppend(fs, f, MirPart);
    FlatAppend(fs, f, UnbackedPart);
  }

  lemma AccountsConcat(fs: seq<Finding>, gs: seq<Finding>, g1: multiset<Generated>, m1: multiset<Clause>,
                       u1: seq<Clause>, 
                       g2: multiset<Generated>, m2: multiset<Clause>, u2: seq<Clause>)
    requires Accounts(fs, g1, m1, u1) && Accounts(gs, g2, m2, u2)
    ensures Accounts(fs + gs, g1 + g2, m1 + m2, u1 + u2)
  {
    FlatConcat(fs, gs, GenPart);
    FlatConcat(fs, gs, MirPart);
    FlatConcat(fs, gs, UnbackedPart);
  }

  function Plain(kind: Kind, generated: seq<Generated>, clauses: seq<Clause>, route: Route): Finding {
    Finding(kind, generated, clauses, route, None, None)
  }

  /** Only a strengthening names an implication, only a reclassification a route, and
      nothing is excluded yet. */
  ghost predicate Unadorned(f: Finding) {
    && f.excludedBy.None?
    && (f.kind != Strengthening ==> f.implied.None?)
    && (f.kind != Reclassification ==> f.route == NoRoute)
  }

  // ----- phase 1: shared canonical forms

  method AnyAliased(clauses: seq<Clause>) returns (b: bool)
    ensures b <==> exists c :: c in clauses && c.aliases != []
  {
    for i := 0 to |clauses|
      invariant forall k :: 0 <= k < i ==> clauses[k].aliases == []
    {
      if clauses[i].aliases != [] { return true; }
    }
    b := false;
  }

  /** Before the loop over the keys, and one round of it: one key's group, one finding. */
  lemma StartAccounts(generated: seq<Generated>, gkey: Generated -> Canon, clauses: seq<Clause>, mkey: Clause -> Canon)
    ensures Accounts([], multiset(Pick(generated, gkey, {})), multiset(Pick(clauses, mkey, {})), [])
  {
    PickNothing(generated, gkey);
    PickNothing(clauses, mkey);
  }

  lemma StepAccounts(fs: seq<Finding>, f: Finding, generated: seq<Generated>, gkey: Generated -> Canon,
                     clauses: seq<Clause>, mkey: Clause -> Canon, done: set<Canon>, k: Canon)
    requires Accounts(fs, multiset(Pick(generated, gkey, done)), multiset(Pick(clauses, mkey, done)), [])
    requires k !in done && UnbackedPart(f) == []
    requires GenPart(f) == Select(generated, gkey, k) && MirPart(f) == Select(clauses, mkey, k)
    ensures Accounts(fs + [f], multiset(Pick(generated, gkey, done + {k})),
                     multiset(Pick(clauses, mkey, done + {k})), [])
  {
    hide *;
    assert done + {k} - {k} == done;
    PickSplit(generated, gkey, done + {k}, k);
    PickSplit(clauses, mkey, done + {k}, k);
    AccountsAppend(fs, f, multiset(Pick(generated, gkey, done)), multiset(Pick(clauses, mkey, done)), []);
    assert multiset(Pick(generated, gkey, done)) + multiset(GenPart(f)) == multiset(Pick(generated, gkey, done + {k}));
    assert multiset(Pick(clauses, mkey, done)) + multiset(MirPart(f)) == multiset(Pick(clauses, mkey, done + {k}));
    assert [] + UnbackedPart(f) == [];
  }

  lemma SharedFinding(gens: seq<Generated>, mirs: seq<Clause>, aliased: bool, f: Finding,
                      generated: seq<Generated>, clauses: seq<Clause>, k: Canon)
    requires gens == Select(generated, GenCanon, k) && gens != [] && mirs == Select(clauses, MirCanon, k) && mirs != []
    requires aliased <==> exists c :: c in mirs && c.aliases != []
    requires f == if aliased then Plain(Reclassification, gens, mirs, DeclaredAlias)
            else Plain(Matched, gens, mirs, NoRoute)
    ensures MatchedOk(f, generated, clauses) && Unadorned(f)
    ensures GenPart(f) == gens && MirPart(f) == mirs && UnbackedPart(f) == []
  {
    hide Select;
    assert WholeClass(f, generated, clauses, k);
  }

  method PairShared(byGen: map<Canon, seq<Generated>>, byMir: map<Canon, seq<Clause>>,
                    ghost generated: seq<Generated>, ghost clauses: seq<Clause>) returns (fs: seq<Finding>)
    requires forall k :: k in byGen ==> byGen[k] == Select(generated, GenCanon, k) && byGen[k] != []
    requires forall k :: k in byMir ==> byMir[k] == Select(clauses, MirCanon, k) && byMir[k] != []
    ensures forall f :: f in fs ==> MatchedOk(f, generated, clauses) && Unadorned(f)
    ensures Accounts(fs, multiset(Pick(generated, GenCanon, byGen.Keys * byMir.Keys)),
                         multiset(Pick(clauses, MirCanon, byGen.Keys * byMir.Keys)), [])
  {
    hide *;
    fs := [];
    var rest := byGen.Keys * byMir.Keys;
    ghost var done: set<Canon> := {};
    StartAccounts(generated, GenCanon, clauses, MirCanon);
    while rest != {}
      invariant done + rest == byGen.Keys * byMir.Keys && done !! rest
      invariant Accounts(fs, multiset(Pick(generated, GenCanon, done)), multiset(Pick(clauses, MirCanon, done)), [])
      invariant forall f :: f in fs ==> MatchedOk(f, generated, clauses) && Unadorned(f)
    {
      var k :| k in rest;
      var aliased := AnyAliased(byMir[k]);
      var f := if aliased then Plain(Reclassification, byGen[k], byMir[k], DeclaredAlias)
                          else Plain(Matched, byGen[k], byMir[k], NoRoute);
      SharedFinding(byGen[k], byMir[k], aliased, f, generated, clauses, k);
      StepAccounts(fs, f, generated, GenCanon, clauses, MirCanon, done, k);
      fs := fs + [f];
      rest, done := rest - {k}, done + {k};
    }
    assert done == byGen.Keys * byMir.Keys;
  }

  // ----- phase 2: equal after erasing the lane kind

  ghost predicate ErasedPair(f: Finding, genLeft: seq<Generated>, mirLeft: seq<Clause>) {
    && f.kind == Reclassification && f.route == KindErasure
    && exists k :: f.generated == Select(genLeft, GenErased, k) && f.generated != []
                && f.clauses == Select(mirLeft, MirErased, k) && f.clauses != []
  }

  lemma ErasedFinding(gens: seq<Generated>, mirs: seq<Clause>, f: Finding, genLeft: seq<Generated>,
                      mirLeft: seq<Clause>, k: Canon)
    requires gens == Select(genLeft, GenErased, k) && gens != [] && mirs == Select(mirLeft, MirErased, k) && mirs != []
    requires f == Plain(Reclassification, gens, mirs, KindErasure)
    ensures ErasedPair(f, genLeft, mirLeft) && Unadorned(f)
    ensures GenPart(f) == gens && MirPart(f) == mirs && UnbackedPart(f) == []
  {
  }

  /** The erased forms common to both leftovers leave; the others stay. */
  ghost predicate ErasedSplit(ks: set<Canon>, fs: seq<Finding>, genLeft: seq<Generated>, mirLeft: seq<Clause>,
                              genRest: seq<Generated>, mirRest: seq<Clause>) {
    && ks == Keys(genLeft, GenErased) * Keys(mirLeft, MirErased)
    && Accounts(fs, multiset(Pick(genLeft, GenErased, ks)), multiset(Pick(mirLeft, MirErased, ks)), [])
    && multiset(genRest) == multiset(Pick(genLeft, GenErased, Keys(genLeft, GenErased) - ks))
    && multiset(mirRest) == multiset(Pick(mirLeft, MirErased, Keys(mirLeft, MirErased) - ks))
  }

  lemma SplitHolds(ks: set<Canon>, fs: seq<Finding>, genLeft: seq<Generated>, mirLeft: seq<Clause>,
                   genRest: seq<Generated>, mirRest: seq<Clause>)
    requires ks == Keys(genLeft, GenErased) * Keys(mirLeft, MirErased)
    requires Accounts(fs, multiset(Pick(genLeft, GenErased, ks)), multiset(Pick(mirLeft, MirErased, ks)), [])
    requires multiset(genRest) == multiset(Pick(genLeft, GenErased, Keys(genLeft, GenErased) - ks))
    requires multiset(mirRest) == multiset(Pick(mirLeft, MirErased, Keys(mirLeft, MirErased) - ks))
    ensures ErasedSplit(ks, fs, genLeft, mirLeft, genRest, mirRest)
  {
  }

  method PairErased(genLeft: seq<Generated>, mirLeft: seq<Clause>)
    returns (fs: seq<Finding>, genRest: seq<Generated>, mirRest: seq<Clause>)
    ensures forall f :: f in fs ==> ErasedPair(f, genLeft, mirLeft) && Unadorned(f)
    ensures exists ks :: ErasedSplit(ks, fs, genLeft, mirLeft, genRest, mirRest)
  {
    hide *;
    var byGen := GroupBy(genLeft, GenErased);
    var byMir := GroupBy(mirLeft, MirErased);
    var shared := byGen.Keys * byMir.Keys;
    fs := [];
    var rest := shared;
    ghost var done: set<Canon> := {};
    StartAccounts(genLeft, GenErased, mirLeft, MirErased);
    while rest != {}
      invariant done + rest == shared && done !! rest
      invariant Accounts(fs, multiset(Pick(genLeft, GenErased, done)), multiset(Pick(mirLeft, MirErased, done)), [])
      invariant forall f :: f in fs ==> ErasedPair(f, genLeft, mirLeft) && Unadorned(f)
    {
      var k :| k in rest;
      var f := Plain(Reclassification, byGen[k], byMir[k], KindErasure);
      ErasedFinding(byGen[k], byMir[k], f, genLeft, mirLeft, k);
      StepAccounts(fs, f, genLeft, GenErased, mirLeft, MirErased, done, k);
      fs := fs + [f];
      rest, done := rest - {k}, done + {k};
    }
    assert done == shared;
    genRest := Gather(byGen, byGen.Keys - shared, genLeft, GenErased);
    mirRest := Gather(byMir, byMir.Keys - shared, mirLeft, MirErased);
    SplitHolds(shared, fs, genLeft, mirLeft, genRest, mirRest);
  }

  // ----- phase 3: gaps, strengthenings, unbacked clauses

  lemma PickEmpty<T, K>(key: T -> K, ks: set<K>)
    ensures Pick([], key, ks) == []
  {
  }

  ghost predicate GapShape(f: Finding, genRest: seq<Generated>) {
    && f.kind == Gap && f.generated != [] && f.clauses == []
    && exists k :: f.generated == Select(genRest, GenCanon, k)
  }

  lemma GapFinding(gens: seq<Generated>, f: Finding, genRest: seq<Generated>, k: Canon)
    requires gens != [] && gens == Select(genRest, GenCanon, k) && f == Plain(Gap, gens, [], NoRoute)
    ensures GapShape(f, genRest) && Unadorned(f)
    ensures GenPart(f) == gens && MirPart(f) == Select([], MirCanon, k) && UnbackedPart(f) == []
  {
  }

  method Gaps(genRest: seq<Generated>) returns (fs: seq<Finding>)
    ensures Accounts(fs, multiset(genRest), multiset{}, [])
    ensures forall f :: f in fs ==> GapShape(f, genRest) && Unadorned(f)
  {
    hide *;
    var groups := GroupBy(genRest, GenCanon);
    fs := [];
    var rest := groups.Keys;
    ghost var done: set<Canon> := {};
    StartAccounts(genRest, GenCanon, [], MirCanon);
    while rest != {}
      invariant done + rest == groups.Keys && done !! rest
      invariant Accounts(fs, multiset(Pick(genRest, GenCanon, done)), multiset(Pick([], MirCanon, done)), [])
      invariant forall f :: f in fs ==> GapShape(f, genRest) && Unadorned(f)
    {
      var k :| k in rest;
      var f := Plain(Gap, groups[k], [], NoRoute);
      GapFinding(groups[k], f, genRest, k);
      StepAccounts(fs, f, genRest, GenCanon, [], MirCanon, done, k);
      fs := fs + [f];
      rest, done := rest - {k}, done + {k};
    }
    assert done == groups.Keys;
    PickAll(genRest, GenCanon, done);
    PickEmpty<Clause, Canon>(MirCanon, done);
  }

  ghost predicate StrengtheningShape(f: Finding, mirRest: seq<Clause>, generated: seq<Generated>) {
    && f.kind == Strengthening && f.generated == [] && f.clauses != []
    && (exists k :: f.clauses == Select(mirRest, MirCanon, k))
    && ImpliedOk(f.clauses[0].expr, Exprs(generated), f.implied)
  }

  method StrengtheningOf(group: seq<Clause>, generated: seq<Generated>, ghost mirRest: seq<Clause>,
                         ghost k: Canon) returns (f: Finding)
    requires group != [] && group == Select(mirRest, MirCanon, k)
    ensures StrengtheningShape(f, mirRest, generated) && Unadorned(f) && f.clauses == group
    ensures GenPart(f) == Select([], GenCanon, k) && MirPart(f) == group && UnbackedPart(f) == []
  {
    hide IsImplication, NoneExplains, PolyOf;
    var implied := ImpliedBy(group[0].expr, Exprs(generated));
    f := Finding(Strengthening, [], group, NoRoute, implied, None);
  }

  method Strengthenings(mirRest: seq<Clause>, generated: seq<Generated>) returns (fs: seq<Finding>)
    ensures Accounts(fs, multiset{}, multiset(mirRest), [])
    ensures forall f :: f in fs ==> StrengtheningShape(f, mirRest, generated) && Unadorned(f)
  {
    hide *;
    var groups := GroupBy(mirRest, MirCanon);
    fs := [];
    var rest := groups.Keys;
    ghost var done: set<Canon> := {};
    StartAccounts([], GenCanon, mirRest, MirCanon);
    while rest != {}
      invariant done + rest == groups.Keys && done !! rest
      invariant Accounts(fs, multiset(Pick([], GenCanon, done)), multiset(Pick(mirRest, MirCanon, done)), [])
      invariant forall f :: f in fs ==> StrengtheningShape(f, mirRest, generated) && Unadorned(f)
    {
      var k :| k in rest;
      var f := StrengtheningOf(groups[k], generated, mirRest, k);
      StepAccounts(fs, f, [], GenCanon, mirRest, MirCanon, done, k);
      fs := fs + [f];
      rest, done := rest - {k}, done + {k};
    }
    assert done == groups.Keys;
    PickAll(mirRest, MirCanon, done);
    PickEmpty<Generated, Canon>(GenCanon, done);
  }

  method UnbackedFindings(unbacked: seq<Clause>) returns (fs: seq<Finding>)
    ensures Accounts(fs, multiset{}, multiset{}, unbacked)
    ensures forall f :: f in fs ==> UnbackedOk(f, unbacked) && Unadorned(f)
  {
    fs := [];
    for i := 0 to |unbacked|
      invariant Accounts(fs, multiset{}, multiset{}, unbacked[..i])
      invariant forall f :: f in fs ==> UnbackedOk(f, unbacked) && Unadorned(f)
    {
      var f := Plain(Unbacked, [], [unbacked[i]], NoRoute);
      AccountsAppend(fs, f, multiset{}, multiset{}, unbacked[..i]);
      fs := fs + [f];
      assert unbacked[..i + 1] == unbacked[..i] + [unbacked[i]];
    }
    assert unbacked[..|unbacked|] == unbacked;
  }

  // ----- pair_air

  lemma SplitBySide<T, K>(items: seq<T>, key: T -> K, ks: set<K>, ls: set<K>)
    requires ks + ls == Keys(items, key) && ks !! ls
    ensures multiset(items) == multiset(Pick(items, key, ks)) + multiset(Pick(items, key, ls))
  {
    PickDisjoint(items, key, ks, ls);
    PickAll(items, key, ks + ls);
  }

  lemma Assemble(fs1: seq<Finding>, fs2: seq<Finding>, fs3: seq<Finding>, fs4: seq<Finding>, fs5: seq<Finding>,
                 g1: multiset<Generated>, g2: multiset<Generated>, g3: multiset<Generated>,
                 m1: multiset<Clause>, m2: multiset<Clause>, m4: multiset<Clause>, unbacked: seq<Clause>,
                 gl: multiset<Generated>, ml: multiset<Clause>, g: multiset<Generated>, m: multiset<Clause>)
    requires Accounts(fs1, g1, m1, []) && Accounts(fs2, g2, m2, []) && Accounts(fs3, g3, multiset{}, [])
    requires Accounts(fs4, multiset{}, m4, []) && Accounts(fs5, multiset{}, multiset{}, unbacked)
    requires gl == g2 + g3 && ml == m2 + m4 && g == g1 + gl && m == m1 + ml
    ensures Accounts(fs1 + fs2 + fs3 + fs4 + fs5, g, m, unbacked)
  {
    hide Accounts;
    AccountsConcat(fs1, fs2, g1, m1, [], g2, m2, []);
    AccountsConcat(fs1 + fs2, fs3, g1 + g2, m1 + m2, [], g3, multiset{}, []);
    AccountsConcat(fs1 + fs2 + fs3, fs4, g1 + g2 + g3, m1 + m2 + multiset{}, [], multiset{}, m4, []);
    assert g1 + g2 + g3 + multiset{} == g && m1 + m2 + multiset{} + m4 == m;
    AccountsConcat(fs1 + fs2 + fs3 + fs4, fs5, g, m, [], multiset{}, multiset{}, unbacked);
    assert g + multiset{} == g && m + multiset{} == m && [] + unbacked == unbacked;
  }

  lemma FromShared(f: Finding, generated: seq<Generated>, clauses: seq<Clause>, unbacked: seq<Clause>)
    requires MatchedOk(f, generated, clauses)
    ensures Classified(f, generated, clauses, unbacked)
  {
  }

  lemma FromUnbacked(f: Finding, generated: seq<Generated>, clauses: seq<Clause>, unbacked: seq<Clause>)
    requires UnbackedOk(f, unbacked)
    ensures Classified(f, generated, clauses, unbacked)
  {
  }

  /** The leftovers of phase 1 are exactly the unmatched entries. */
  lemma LeftGenerated(generated: seq<Generated>, clauses: seq<Clause>, genLeft: seq<Generated>, g: Generated)
    requires multiset(genLeft)
            == multiset(Pick(generated, GenCanon, Keys(generated, GenCanon) - Keys(clauses, MirCanon)))
    ensures multiset(genLeft)[g] == if GenMatched(g, clauses) then 0 else multiset(generated)[g]
    ensures g in genLeft <==> g in generated && !GenMatched(g, clauses)
  {
    PickCount(generated, GenCanon, Keys(generated, GenCanon) - Keys(clauses, MirCanon), g);
    assert g in genLeft <==> g in multiset(genLeft);
    assert g in generated <==> g in multiset(generated);
    if g in generated { KeyOf(generated, g, GenCanon); }
    if g.canon in Keys(clauses, MirCanon) { var c := OfKey(clauses, g.canon, MirCanon); }
    forall c | c in clauses && c.canon == g.canon ensures g.canon in Keys(clauses, MirCanon) {
      KeyOf(clauses, c, MirCanon);
    }
  }

  lemma LeftClauses(generated: seq<Generated>, clauses: seq<Clause>, mirLeft: seq<Clause>, c: Clause)
    requires multiset(mirLeft) == multiset(Pick(clauses, MirCanon, Keys(clauses, MirCanon) - Keys(generated, GenCanon)))
    ensures multiset(mirLeft)[c] == if MirMatched(c, generated) then 0 else multiset(clauses)[c]
    ensures c in mirLeft <==> c in clauses && !MirMatched(c, generated)
  {
    PickCount(clauses, MirCanon, Keys(clauses, MirCanon) - Keys(generated, GenCanon), c);
    assert c in mirLeft <==> c in multiset(mirLeft);
    assert c in clauses <==> c in multiset(clauses);
    if c in clauses { KeyOf(clauses, c, MirCanon); }
    if c.canon in Keys(generated, GenCanon) { var g := OfKey(generated, c.canon, GenCanon); }
    forall g | g in generated && g.canon == c.canon ensures c.canon in Keys(generated, GenCanon) {
      KeyOf(generated, g, GenCanon);
    }
  }

  ghost predicate Leftovers(generated: seq<Generated>, clauses: seq<Clause>, genLeft: seq<Generated>,
                            mirLeft: seq<Clause>) {
    && multiset(genLeft) == multiset(Pick(generated, GenCanon, Keys(generated, GenCanon) - Keys(clauses, MirCanon)))
    && multiset(mirLeft) == multiset(Pick(clauses, MirCanon, Keys(clauses, MirCanon) - Keys(generated, GenCanon)))
  }

  lemma Conserved(generated: seq<Generated>, clauses: seq<Clause>, unbacked: seq<Clause>,
                  shared: seq<Finding>, genLeft: seq<Generated>, mirLeft: seq<Clause>,
                  erased: seq<Finding>, genRest: seq<Generated>, mirRest: seq<Clause>,
                  gaps: seq<Finding>, strengthenings: seq<Finding>, others: seq<Finding>, ks: set<Canon>)
    requires var common := Keys(generated, GenCanon) * Keys(clauses, MirCanon);
             Accounts(shared, multiset(Pick(generated, GenCanon, common)),
                      multiset(Pick(clauses, MirCanon, common)), [])
    requires Leftovers(generated, clauses, genLeft, mirLeft)
    requires ErasedSplit(ks, erased, genLeft, mirLeft, genRest, mirRest)
    requires Accounts(gaps, multiset(genRest), multiset{}, [])
    requires Accounts(strengthenings, multiset{}, multiset(mirRest), [])
    requires Accounts(others, multiset{}, multiset{}, unbacked)
    ensures Accounts(shared + erased + gaps + strengthenings + others, multiset(generated), multiset(clauses), unbacked)
  {
    hide Accounts, Pick, Keys;
    var gk, mk := Keys(generated, GenCanon), Keys(clauses, MirCanon);
    SplitBySide(generated, GenCanon, gk * mk, gk - mk);
    SplitBySide(clauses, MirCanon, gk * mk, mk - gk);
    SplitBySide(genLeft, GenErased, ks, Keys(genLeft, GenErased) - ks);
    SplitBySide(mirLeft, MirErased, ks, Keys(mirLeft, MirErased) - ks);
    Assemble(shared, erased, gaps, strengthenings, others,
             multiset(Pick(generated, GenCanon, gk * mk)), multiset(Pick(genLeft, GenErased, ks)), multiset(genRest),
             multiset(Pick(clauses, MirCanon, gk * mk)), multiset(Pick(mirLeft, MirErased, ks)), multiset(mirRest),
             unbacked,
             multiset(genLeft), multiset(mirLeft), multiset(generated), multiset(clauses));
  }

  lemma LeftoversHold(generated: seq<Generated>, clauses: seq<Clause>, genLeft: seq<Generated>, mirLeft: seq<Clause>)
    requires multiset(genLeft)
            == multiset(Pick(generated, GenCanon, Keys(generated, GenCanon) - Keys(clauses, MirCanon)))
    requires multiset(mirLeft) == multiset(Pick(clauses, MirCanon, Keys(clauses, MirCanon) - Keys(generated, GenCanon)))
    ensures Leftovers(generated, clauses, genLeft, mirLeft)
  {
  }

  lemma FromErased(f: Finding, generated: seq<Generated>, clauses: seq<Clause>, unbacked: seq<Clause>,
                   genLeft: seq<Generated>, mirLeft: seq<Clause>)
    requires Leftovers(generated, clauses, genLeft, mirLeft) && ErasedPair(f, genLeft, mirLeft)
    ensures Classified(f, generated, clauses, unbacked)
  {
    hide GenMatched, MirMatched, Pick, Keys, Select, MatchedOk, GapOk, StrengtheningOk;
    var k :| f.generated == Select(genLeft, GenErased, k) && f.clauses == Select(mirLeft, MirErased, k);
    forall g: Generated
      ensures multiset(f.generated)[g] ==
                if g.erased == k && !GenMatched(g, clauses) then multiset(generated)[g] else 0
    {
      SelectCount(genLeft, GenErased, k, g);
      LeftGenerated(generated, clauses, genLeft, g);
    }
    forall c: Clause
      ensures multiset(f.clauses)[c] == if c.erased == k && !MirMatched(c, generated) then multiset(clauses)[c] else 0
    {
      SelectCount(mirLeft, MirErased, k, c);
      LeftClauses(generated, clauses, mirLeft, c);
    }
    assert WholeErasure(f, generated, clauses, k);
  }

  /** What phase 2 leaves is exactly what erasure could not pair. */
  lemma RestGenerated(generated: seq<Generated>, clauses: seq<Clause>, genLeft: seq<Generated>, mirLeft: seq<Clause>,
                      genRest: seq<Generated>, mirRest: seq<Clause>, fs: seq<Finding>, ks: set<Canon>, g: Generated)
    requires Leftovers(generated, clauses, genLeft, mirLeft)
    requires ErasedSplit(ks, fs, genLeft, mirLeft, genRest, mirRest)
    ensures multiset(genRest)[g] == if Unpaired(g, generated, clauses) then multiset(generated)[g] else 0
  {
    hide GenMatched, MirMatched, Accounts, Pick, Keys;
    PickCount(genLeft, GenErased, Keys(genLeft, GenErased) - ks, g);
    LeftGenerated(generated, clauses, genLeft, g);
    if g in genLeft { KeyOf(genLeft, g, GenErased); }
    assert g in genLeft <==> g in multiset(genLeft);
    if g.erased in Keys(mirLeft, MirErased) {
      var c := OfKey(mirLeft, g.erased, MirErased);
      LeftClauses(generated, clauses, mirLeft, c);
    }
    forall c | c in clauses && !MirMatched(c, generated) && c.erased == g.erased
      ensures g.erased in Keys(mirLeft, MirErased)
    {
      LeftClauses(generated, clauses, mirLeft, c);
      KeyOf(mirLeft, c, MirErased);
    }
  }

  lemma RestClauses(generated: seq<Generated>, clauses: seq<Clause>, genLeft: seq<Generated>, mirLeft: seq<Clause>,
                    genRest: seq<Generated>, mirRest: seq<Clause>, fs: seq<Finding>, ks: set<Canon>, c: Clause)
    requires Leftovers(generated, clauses, genLeft, mirLeft)
    requires ErasedSplit(ks, fs, genLeft, mirLeft, genRest, mirRest)
    ensures multiset(mirRest)[c] == if UnpairedClause(c, generated, clauses) then multiset(clauses)[c] else 0
  {
    hide GenMatched, MirMatched, Accounts, Pick, Keys;
    PickCount(mirLeft, MirErased, Keys(mirLeft, MirErased) - ks, c);
    LeftClauses(generated, clauses, mirLeft, c);
    if c in mirLeft { KeyOf(mirLeft, c, MirErased); }
    assert c in mirLeft <==> c in multiset(mirLeft);
    if c.erased in Keys(genLeft, GenErased) {
      var g := OfKey(genLeft, c.erased, GenErased);
      LeftGenerated(generated, clauses, genLeft, g);
    }
    forall g | g in generated && !GenMatched(g, clauses) && g.erased == c.erased
      ensures c.erased in Keys(genLeft, GenErased)
    {
      LeftGenerated(generated, clauses, genLeft, g);
      KeyOf(genLeft, g, GenErased);
    }
  }

  lemma FromGap(f: Finding, generated: seq<Generated>, clauses: seq<Clause>, unbacked: seq<Clause>,
                genLeft: seq<Generated>, mirLeft: seq<Clause>, genRest: seq<Generated>, mirRest: seq<Clause>,
                fs: seq<Finding>, ks: set<Canon>)
    requires Leftovers(generated, clauses, genLeft, mirLeft)
    requires ErasedSplit(ks, fs, genLeft, mirLeft, genRest, mirRest) && GapShape(f, genRest)
    ensures Classified(f, generated, clauses, unbacked)
  {
    hide Unpaired, ErasedSplit, Leftovers, Select, MatchedOk, ErasureOk, StrengtheningOk;
    var k :| f.generated == Select(genRest, GenCanon, k);
    forall g: Generated
      ensures multiset(f.generated)[g] ==
                if g.canon == k && Unpaired(g, generated, clauses) then multiset(generated)[g] else 0
    {
      SelectCount(genRest, GenCanon, k, g);
      RestGenerated(generated, clauses, genLeft, mirLeft, genRest, mirRest, fs, ks, g);
    }
    assert WholeGap(f, generated, clauses, k);
  }

  lemma FromStrengthening(f: Finding, generated: seq<Generated>, clauses: seq<Clause>, unbacked: seq<Clause>,
                          genLeft: seq<Generated>, mirLeft: seq<Clause>, genRest: seq<Generated>, mirRest: seq<Clause>,
                          fs: seq<Finding>, ks: set<Canon>)
    requires Leftovers(generated, clauses, genLeft, mirLeft)
    requires ErasedSplit(ks, fs, genLeft, mirLeft, genRest, mirRest) && StrengtheningShape(f, mirRest, generated)
    ensures Classified(f, generated, clauses, unbacked)
  {
    hide UnpairedClause, ErasedSplit, Leftovers, Select, ImpliedOk, MatchedOk, ErasureOk, GapOk;
    var k :| f.clauses == Select(mirRest, MirCanon, k);
    forall c: Clause
      ensures multiset(f.clauses)[c] ==
                if c.canon == k && UnpairedClause(c, generated, clauses) then multiset(clauses)[c] else 0
    {
      SelectCount(mirRest, MirCanon, k, c);
      RestClauses(generated, clauses, genLeft, mirLeft, genRest, mirRest, fs, ks, c);
    }
    assert WholeStrengthening(f, generated, clauses, k);
  }

  /** Set-to-set pairing of one AIR. Conservation on all three sides, and every finding
      classified by conditions that do not mention how it was built. */
  method PairAir(generated: seq<Generated>, clauses: seq<Clause>, unbacked: seq<Clause>) returns (fs: seq<Finding>)
    ensures Accounts(fs, multiset(generated), multiset(clauses), unbacked)
    ensures forall f :: f in fs ==> Classified(f, generated, clauses, unbacked) && Unadorned(f)
  {
    hide *;
    var byGen := GroupBy(generated, GenCanon);
    var byMir := GroupBy(clauses, MirCanon);
    var shared := PairShared(byGen, byMir, generated, clauses);
    var genLeft := Gather(byGen, byGen.Keys - byMir.Keys, generated, GenCanon);
    var mirLeft := Gather(byMir, byMir.Keys - byGen.Keys, clauses, MirCanon);
    var erased, genRest, mirRest := PairErased(genLeft, mirLeft);
    var gaps := Gaps(genRest);
    var strengthenings := Strengthenings(mirRest, generated);
    var others := UnbackedFindings(unbacked);
    ghost var ks :| ErasedSplit(ks, erased, genLeft, mirLeft, genRest, mirRest);
    LeftoversHold(generated, clauses, genLeft, mirLeft);
    Conserved(generated, clauses, unbacked, shared, genLeft, mirLeft, erased, genRest, mirRest, gaps, strengthenings,
        others, ks);
    fs := shared + erased + gaps + strengthenings + others;
    forall f | f in fs ensures Classified(f, generated, clauses, unbacked) {
      if f in shared {
        FromShared(f, generated, clauses, unbacked);
      } else if f in erased {
        FromErased(f, generated, clauses, unbacked, genLeft, mirLeft);
      } else if f in gaps {
        FromGap(f, generated, clauses, unbacked, genLeft, mirLeft, genRest, mirRest, erased, ks);
      } else if f in strengthenings {
        FromStrengthening(f, generated, clauses, unbacked, genLeft, mirLeft, genRest, mirRest, erased, ks);
      } else {
        FromUnbacked(f, generated, clauses, unbacked);
      }
    }
  }

  // ----- the verdicts, read off the inputs

  /** Equal canonical forms have equal erased forms, so they are erasable together. */
  lemma ErasableTogether(generated: seq<Generated>, clauses: seq<Clause>, g: Generated, h: Generated)
    requires AllFormed(generated, clauses) && g in generated && h in generated && g.canon == h.canon
    ensures GenErasable(g, generated, clauses) <==> GenErasable(h, generated, clauses)
  {
    hide CanonicalOf, Erase;
    ErasureCongruence(g.expr, h.expr);
  }

  lemma ClausesErasableTogether(generated: seq<Generated>, clauses: seq<Clause>, c: Clause, d: Clause)
    requires AllFormed(generated, clauses) && c in clauses && d in clauses && c.canon == d.canon
    ensures MirErasable(c, generated, clauses) <==> MirErasable(d, generated, clauses)
  {
    hide CanonicalOf, Erase;
    ErasureCongruence(c.expr, d.expr);
  }

  /** A matched finding holds the whole class of each of its members. */
  lemma MatchedMember(f: Finding, generated: seq<Generated>, clauses: seq<Clause>, g: Generated)
    requires MatchedOk(f, generated, clauses) && g in f.generated
    ensures g in generated && GenMatched(g, clauses)
    ensures f.generated == Select(generated, GenCanon, g.canon) && f.clauses == Select(clauses, MirCanon, g.canon)
  {
    var k :| WholeClass(f, generated, clauses, k);
    SelectContents(generated, GenCanon, k, g);
    SelectContents(clauses, MirCanon, k, f.clauses[0]);
  }

  lemma MatchedClause(f: Finding, generated: seq<Generated>, clauses: seq<Clause>, c: Clause)
    requires MatchedOk(f, generated, clauses) && c in f.clauses
    ensures c in clauses && MirMatched(c, generated)
    ensures f.generated == Select(generated, GenCanon, c.canon) && f.clauses == Select(clauses, MirCanon, c.canon)
  {
    var k :| WholeClass(f, generated, clauses, k);
    SelectContents(clauses, MirCanon, k, c);
    SelectContents(generated, GenCanon, k, f.generated[0]);
  }

  lemma ErasureMember(f: Finding, generated: seq<Generated>, clauses: seq<Clause>, g: Generated, c: Clause)
    requires ErasureOk(f, generated, clauses) && g in f.generated && c in f.clauses
    ensures g in generated && c in clauses && g.erased == c.erased
    ensures GenErasable(g, generated, clauses) && MirErasable(c, generated, clauses)
    ensures WholeErasure(f, generated, clauses, g.erased)
  {
    var k :| WholeErasure(f, generated, clauses, k);
    assert g in multiset(f.generated) && c in multiset(f.clauses);
    assert multiset(f.generated)[g] > 0 && multiset(f.clauses)[c] > 0;
    assert g in multiset(generated) && c in multiset(clauses);
  }

  lemma GapMember(f: Finding, generated: seq<Generated>, clauses: seq<Clause>, g: Generated)
    requires GapOk(f, generated, clauses) && g in f.generated
    ensures g in generated && Unpaired(g, generated, clauses) && WholeGap(f, generated, clauses, g.canon)
  {
    hide Unpaired;
    var k :| WholeGap(f, generated, clauses, k);
    assert g in multiset(f.generated);
    assert multiset(f.generated)[g] > 0;
    assert g in multiset(generated);
  }

  lemma StrengtheningMember(f: Finding, generated: seq<Generated>, clauses: seq<Clause>, c: Clause)
    requires StrengtheningOk(f, generated, clauses) && c in f.clauses
    ensures c in clauses && UnpairedClause(c, generated, clauses)
    ensures WholeStrengthening(f, generated, clauses, c.canon)
  {
    hide UnpairedClause, ImpliedOk;
    var k :| WholeStrengthening(f, generated, clauses, k);
    assert c in multiset(f.clauses);
    assert multiset(f.clauses)[c] > 0;
    assert c in multiset(clauses);
  }

  lemma ErasureHasClause(f: Finding, generated: seq<Generated>, clauses: seq<Clause>)
    requires ErasureOk(f, generated, clauses)
    ensures f.clauses != [] && f.clauses[0] in f.clauses && f.generated != [] && f.generated[0] in f.generated
  {
  }

  lemma NoConstraints(f: Finding, generated: seq<Generated>, clauses: seq<Clause>, unbacked: seq<Clause>)
    requires StrengtheningOk(f, generated, clauses) || UnbackedOk(f, unbacked)
    ensures f.generated == []
  {
  }

  lemma OneVerdict(f: Finding, generated: seq<Generated>, clauses: seq<Clause>)
    ensures ErasureOk(f, generated, clauses) || MatchedOk(f, generated, clauses) ==> !GapOk(f, generated, clauses)
    ensures MatchedOk(f, generated, clauses) ==> !ErasureOk(f, generated, clauses)
  {
  }

  /** The kind of the finding a constraint is in, read off the two inputs. */
  lemma VerdictOf(generated: seq<Generated>, clauses: seq<Clause>, unbacked: seq<Clause>, f: Finding, g: Generated)
    requires Classified(f, generated, clauses, unbacked) && g in f.generated
    ensures g in generated
    ensures GenMatched(g, clauses) <==> MatchedOk(f, generated, clauses)
    ensures GenErasable(g, generated, clauses) <==> ErasureOk(f, generated, clauses)
    ensures Unpaired(g, generated, clauses) <==> GapOk(f, generated, clauses)
  {
    hide MatchedOk, ErasureOk, GapOk, StrengtheningOk, GenMatched;
    if MatchedOk(f, generated, clauses) {
      MatchedMember(f, generated, clauses, g);
    } else if ErasureOk(f, generated, clauses) {
      ErasureHasClause(f, generated, clauses);
      ErasureMember(f, generated, clauses, g, f.clauses[0]);
    } else if GapOk(f, generated, clauses) {
      GapMember(f, generated, clauses, g);
    } else {
      NoConstraints(f, generated, clauses, unbacked);
    }
    OneVerdict(f, generated, clauses);
  }

  lemma NoClauses(f: Finding, generated: seq<Generated>, clauses: seq<Clause>, unbacked: seq<Clause>)
    requires GapOk(f, generated, clauses) || (UnbackedOk(f, unbacked) && f.kind != Unbacked)
    ensures f.clauses == []
  {
  }

  lemma OneClauseVerdict(f: Finding, generated: seq<Generated>, clauses: seq<Clause>)
    ensures ErasureOk(f, generated, clauses) || MatchedOk(f, generated, clauses) ==>
            !StrengtheningOk(f, generated, clauses)
    ensures MatchedOk(f, generated, clauses) ==> !ErasureOk(f, generated, clauses)
  {
  }

  /** The kind of the finding a comparable clause is in. */
  lemma ClauseVerdictOf(generated: seq<Generated>, clauses: seq<Clause>, unbacked: seq<Clause>, f: Finding, c: Clause)
    requires Classified(f, generated, clauses, unbacked) && c in f.clauses && f.kind != Unbacked
    ensures c in clauses
    ensures MirMatched(c, generated) <==> MatchedOk(f, generated, clauses)
    ensures MirErasable(c, generated, clauses) <==> ErasureOk(f, generated, clauses)
    ensures UnpairedClause(c, generated, clauses) <==> StrengtheningOk(f, generated, clauses)
  {
    hide MatchedOk, ErasureOk, GapOk, StrengtheningOk, MirMatched;
    if MatchedOk(f, generated, clauses) {
      MatchedClause(f, generated, clauses, c);
    } else if ErasureOk(f, generated, clauses) {
      ErasureHasClause(f, generated, clauses);
      ErasureMember(f, generated, clauses, f.generated[0], c);
    } else if StrengtheningOk(f, generated, clauses) {
      StrengtheningMember(f, generated, clauses, c);
    } else {
      NoClauses(f, generated, clauses, unbacked);
    }
    OneClauseVerdict(f, generated, clauses);
  }

  // ----- one canonical class, one finding

  lemma MatchedTogether(clauses: seq<Clause>, g: Generated, h: Generated)
    requires g.canon == h.canon
    ensures GenMatched(g, clauses) <==> GenMatched(h, clauses)
  {
  }

  lemma ErasedTogether(generated: seq<Generated>, clauses: seq<Clause>, g: Generated, h: Generated)
    requires AllFormed(generated, clauses) && g in generated && h in generated && g.canon == h.canon
    ensures g.erased == h.erased
  {
    hide CanonicalOf, Erase;
    ErasureCongruence(g.expr, h.expr);
  }

  /** A finding with one constraint of a canonical class holds the class, with its
      multiplicities. */
  lemma ClassWhole(generated: seq<Generated>, clauses: seq<Clause>, unbacked: seq<Clause>, f: Finding,
                   g: Generated, h: Generated)
    requires AllFormed(generated, clauses) && Classified(f, generated, clauses, unbacked)
    requires g in f.generated && h in generated && h.canon == g.canon
    ensures multiset(f.generated)[h] == multiset(generated)[h]
  {
    hide MatchedOk, ErasureOk, GapOk, AllFormed, GenErasable, Classified, GenMatched;
    VerdictOf(generated, clauses, unbacked, f, g);
    ErasableTogether(generated, clauses, g, h);
    MatchedTogether(clauses, g, h);
    if MatchedOk(f, generated, clauses) {
      MatchedMember(f, generated, clauses, g);
      SelectCount(generated, GenCanon, g.canon, h);
    } else if ErasureOk(f, generated, clauses) {
      ErasureHasClause(f, generated, clauses);
      ErasureMember(f, generated, clauses, g, f.clauses[0]);
      ErasedTogether(generated, clauses, g, h);
    } else {
      assert GapOk(f, generated, clauses);
      GapMember(f, generated, clauses, g);
    }
  }

  lemma ClausesMatchedTogether(generated: seq<Generated>, c: Clause, d: Clause)
    requires c.canon == d.canon
    ensures MirMatched(c, generated) <==> MirMatched(d, generated)
  {
  }

  lemma ClausesErasedTogether(generated: seq<Generated>, clauses: seq<Clause>, c: Clause, d: Clause)
    requires AllFormed(generated, clauses) && c in clauses && d in clauses && c.canon == d.canon
    ensures c.erased == d.erased
  {
    hide CanonicalOf, Erase;
    ErasureCongruence(c.expr, d.expr);
  }

  lemma ClauseClassWhole(generated: seq<Generated>, clauses: seq<Clause>, unbacked: seq<Clause>, f: Finding,
                         c: Clause, d: Clause)
    requires AllFormed(generated, clauses) && Classified(f, generated, clauses, unbacked)
    requires c in MirPart(f) && d in clauses && d.canon == c.canon
    ensures multiset(MirPart(f))[d] == multiset(clauses)[d]
  {
    hide MatchedOk, ErasureOk, StrengtheningOk, AllFormed, MirErasable, Classified, MirMatched;
    ClauseVerdictOf(generated, clauses, unbacked, f, c);
    ClausesErasableTogether(generated, clauses, c, d);
    ClausesMatchedTogether(generated, c, d);
    if MatchedOk(f, generated, clauses) {
      MatchedClause(f, generated, clauses, c);
      SelectCount(clauses, MirCanon, c.canon, d);
    } else if ErasureOk(f, generated, clauses) {
      ErasureHasClause(f, generated, clauses);
      ErasureMember(f, generated, clauses, f.generated[0], c);
      ClausesErasedTogether(generated, clauses, c, d);
    } else {
      assert StrengtheningOk(f, generated, clauses);
      StrengtheningMember(f, generated, clauses, c);
    }
  }

  /** What `PairAir` promises of its findings. */
  ghost predicate Paired(fs: seq<Finding>, generated: seq<Generated>, clauses: seq<Clause>, unbacked: seq<Clause>) {
    && Accounts(fs, multiset(generated), multiset(clauses), unbacked)
    && forall f :: f in fs ==> Classified(f, generated, clauses, unbacked)
  }

  /** One canonical class is never split: two constraints with one canonical form are in
      one finding. */
  lemma ClassNeverSplit(generated: seq<Generated>, clauses: seq<Clause>, unbacked: seq<Clause>, fs: seq<Finding>,
                        i: nat, j: nat, g: Generated, h: Generated)
    requires AllFormed(generated, clauses) && Paired(fs, generated, clauses, unbacked)
    requires i < |fs| && j < |fs| && g in fs[i].generated && h in fs[j].generated && g.canon == h.canon
    ensures i == j
  {
    hide AllFormed, Classified;
    VerdictOf(generated, clauses, unbacked, fs[j], h);
    ClassWhole(generated, clauses, unbacked, fs[i], g, h);
    ClassWhole(generated, clauses, unbacked, fs[j], h, h);
    assert h in multiset(generated);
    if i < j { FlatHoldsBoth(fs, GenPart, i, j, h); }
    if j < i { FlatHoldsBoth(fs, GenPart, j, i, h); }
  }

  /** The same for the clauses, which is what keeps a class out of STRENGTHENING and
      RECLASSIFICATION at once. */
  lemma ClauseClassNeverSplit(generated: seq<Generated>, clauses: seq<Clause>, unbacked: seq<Clause>, fs: seq<Finding>,
                              i: nat, j: nat, c: Clause, d: Clause)
    requires AllFormed(generated, clauses) && Paired(fs, generated, clauses, unbacked)
    requires i < |fs| && j < |fs| && c in MirPart(fs[i]) && d in MirPart(fs[j]) && c.canon == d.canon
    ensures i == j
  {
    hide AllFormed, Classified;
    ClauseVerdictOf(generated, clauses, unbacked, fs[j], d);
    ClauseClassWhole(generated, clauses, unbacked, fs[i], c, d);
    ClauseClassWhole(generated, clauses, unbacked, fs[j], d, d);
    assert d in multiset(clauses);
    if i < j { FlatHoldsBoth(fs, MirPart, i, j, d); }
    if j < i { FlatHoldsBoth(fs, MirPart, j, i, d); }
  }

  /** Constraints in two findings are told apart by some assignment. */
  lemma FindingsSeparated(generated: seq<Generated>, clauses: seq<Clause>, unbacked: seq<Clause>, fs: seq<Finding>,
                          i: nat, j: nat, g: Generated, h: Generated) returns (env: Env)
    requires AllFormed(generated, clauses) && Paired(fs, generated, clauses, unbacked)
    requires i < |fs| && j < |fs| && i != j && g in fs[i].generated && h in fs[j].generated
    requires LowDegree(g.expr) && LowDegree(h.expr)
    ensures ExprValue(g.expr, env) % P != ExprValue(h.expr, env) % P
  {
    hide LowDegree, Classified, ExprValue, CanonicalOf, Erase;
    VerdictOf(generated, clauses, unbacked, fs[i], g);
    VerdictOf(generated, clauses, unbacked, fs[j], h);
    if g.canon == h.canon { ClassNeverSplit(generated, clauses, unbacked, fs, i, j, g, h); }
    env := Separated(g.expr, h.expr);
  }

  /** A constraint is in a matched finding exactly when it is the same function as some
      clause; a gap is told apart from every clause. */
  lemma MatchedIffSameFunction(generated: seq<Generated>, clauses: seq<Clause>, unbacked: seq<Clause>,
                               f: Finding, g: Generated)
    requires AllFormed(generated, clauses) && Classified(f, generated, clauses, unbacked) && g in f.generated
    requires LowDegree(g.expr) && forall c :: c in clauses ==> LowDegree(c.expr)
    ensures MatchedOk(f, generated, clauses) <==> exists c :: c in clauses && SameFunction(g.expr, c.expr)
  {
    hide LowDegree, Classified, MatchedOk, SameFunction, CanonicalOf, Erase;
    VerdictOf(generated, clauses, unbacked, f, g);
    forall c | c in clauses ensures SameFunction(g.expr, c.expr) <==> g.canon == c.canon {
      LowFunctionEquality(g.expr, c.expr);
    }
  }

  /** The same for a clause: a strengthening is told apart from every constraint. */
  lemma ClauseMatchedIffSameFunction(generated: seq<Generated>, clauses: seq<Clause>, unbacked: seq<Clause>,
                                     f: Finding, c: Clause)
    requires AllFormed(generated, clauses) && Classified(f, generated, clauses, unbacked) && c in MirPart(f)
    requires LowDegree(c.expr) && forall g :: g in generated ==> LowDegree(g.expr)
    ensures MatchedOk(f, generated, clauses) <==> exists g :: g in generated && SameFunction(g.expr, c.expr)
  {
    hide LowDegree, Classified, MatchedOk, SameFunction, CanonicalOf, Erase;
    ClauseVerdictOf(generated, clauses, unbacked, f, c);
    forall g | g in generated ensures SameFunction(g.expr, c.expr) <==> g.canon == c.canon {
      LowFunctionEquality(g.expr, c.expr);
    }
  }

  // ----- the kind-erasure route, without mentioning erased forms

  /** No exponent reaches P, in the canonical forms and in the erased ones. */
  ghost predicate AllLow(generated: seq<Generated>, clauses: seq<Clause>) {
    && (forall g :: g in generated ==> LowDegree(g.expr) && LowErased(g.expr))
    && (forall c :: c in clauses ==> LowDegree(c.expr) && LowErased(c.expr))
  }

  /** Some clause is the same function as the constraint. */
  ghost predicate HasTwin(g: Generated, clauses: seq<Clause>) {
    exists c :: c in clauses && SameFunction(g.expr, c.expr)
  }

  ghost predicate ClauseHasTwin(c: Clause, generated: seq<Generated>) {
    exists g :: g in generated && SameFunction(g.expr, c.expr)
  }

  lemma MatchedIffTwin(generated: seq<Generated>, clauses: seq<Clause>, g: Generated)
    requires AllFormed(generated, clauses) && AllLow(generated, clauses) && g in generated
    ensures GenMatched(g, clauses) <==> HasTwin(g, clauses)
  {
    hide LowDegree, LowErased, SameFunction, CanonicalOf, Erase;
    forall d | d in clauses ensures g.canon == d.canon <==> SameFunction(g.expr, d.expr) {
      LowFunctionEquality(g.expr, d.expr);
    }
  }

  lemma ClauseMatchedIffTwin(generated: seq<Generated>, clauses: seq<Clause>, c: Clause)
    requires AllFormed(generated, clauses) && AllLow(generated, clauses) && c in clauses
    ensures MirMatched(c, generated) <==> ClauseHasTwin(c, generated)
  {
    hide LowDegree, LowErased, SameFunction, CanonicalOf, Erase;
    forall h | h in generated ensures h.canon == c.canon <==> SameFunction(h.expr, c.expr) {
      LowFunctionEquality(h.expr, c.expr);
    }
  }

  lemma ErasedIffAgree(generated: seq<Generated>, clauses: seq<Clause>, g: Generated, c: Clause)
    requires AllFormed(generated, clauses) && AllLow(generated, clauses) && g in generated && c in clauses
    ensures g.erased == c.erased <==> AgreeBySlot(g.expr, c.expr)
  {
    hide LowDegree, LowErased, AgreeBySlot, CanonicalOf, Erase;
    ErasedFormsDecide(g.expr, c.expr);
  }

  /** A clause without a twin agrees with the constraint wherever lanes at one slot have one
      value. */
  ghost predicate HasErasedTwin(g: Generated, generated: seq<Generated>, clauses: seq<Clause>) {
    exists c :: c in clauses && !ClauseHasTwin(c, generated) && AgreeBySlot(g.expr, c.expr)
  }

  ghost predicate ClauseHasErasedTwin(c: Clause, generated: seq<Generated>, clauses: seq<Clause>) {
    exists g :: g in generated && !HasTwin(g, clauses) && AgreeBySlot(g.expr, c.expr)
  }

  /** A constraint is reclassified by kind erasure exactly when it has an erased twin and no
      twin; it is a gap exactly when it has neither. */
  lemma KindErasureMeans(generated: seq<Generated>, clauses: seq<Clause>, unbacked: seq<Clause>, f: Finding,
                         g: Generated)
    requires AllFormed(generated, clauses) && AllLow(generated, clauses)
    requires Classified(f, generated, clauses, unbacked) && g in f.generated
    ensures ErasureOk(f, generated, clauses) <==> !HasTwin(g, clauses) && HasErasedTwin(g, generated, clauses)
    ensures GapOk(f, generated, clauses) <==> !HasTwin(g, clauses) && !HasErasedTwin(g, generated, clauses)
  {
    hide AllFormed, AllLow, Classified, ErasureOk, GapOk, HasTwin, ClauseHasTwin, AgreeBySlot, GenMatched, MirMatched;
    VerdictOf(generated, clauses, unbacked, f, g);
    MatchedIffTwin(generated, clauses, g);
    forall c | c in clauses
      ensures MirMatched(c, generated) <==> ClauseHasTwin(c, generated)
      ensures g.erased == c.erased <==> AgreeBySlot(g.expr, c.expr)
    {
      ClauseMatchedIffTwin(generated, clauses, c);
      ErasedIffAgree(generated, clauses, g, c);
    }
    assert HasErasedTwin(g, generated, clauses) && !GenMatched(g, clauses) ==> GenErasable(g, generated, clauses);
  }

  /** The same for a clause and the strengthenings. */
  lemma ClauseKindErasureMeans(generated: seq<Generated>, clauses: seq<Clause>, unbacked: seq<Clause>, f: Finding,
                               c: Clause)
    requires AllFormed(generated, clauses) && AllLow(generated, clauses)
    requires Classified(f, generated, clauses, unbacked) && c in MirPart(f)
    ensures ErasureOk(f, generated, clauses)
       <==> !ClauseHasTwin(c, generated) && ClauseHasErasedTwin(c, generated, clauses)
    ensures StrengtheningOk(f, generated, clauses)
       <==> !ClauseHasTwin(c, generated) && !ClauseHasErasedTwin(c, generated, clauses)
  {
    hide AllFormed, AllLow, Classified, ErasureOk, StrengtheningOk, HasTwin, ClauseHasTwin, AgreeBySlot, GenMatched,
         MirMatched;
    ClauseVerdictOf(generated, clauses, unbacked, f, c);
    ClauseMatchedIffTwin(generated, clauses, c);
    forall g | g in generated
      ensures GenMatched(g, clauses) <==> HasTwin(g, clauses)
      ensures g.erased == c.erased <==> AgreeBySlot(g.expr, c.expr)
    {
      MatchedIffTwin(generated, clauses, g);
      ErasedIffAgree(generated, clauses, g, c);
    }
    assert ClauseHasErasedTwin(c, generated, clauses) && !MirMatched(c, generated) ==>
        MirErasable(c, generated, clauses);
  }

  /** Whatever the exponents, the two sides of a kind-erasure finding agree wherever lanes at
      one slot have one value. */
  lemma KindErasureAgrees(f: Finding, generated: seq<Generated>, clauses: seq<Clause>, g: Generated, c: Clause)
    requires AllFormed(generated, clauses) && ErasureOk(f, generated, clauses) && g in f.generated && c in f.clauses
    ensures AgreeBySlot(g.expr, c.expr)
  {
    hide Erase, CanonicalOf, AgreeBySlot, WholeErasure, GenErasable, MirErasable;
    ErasureMember(f, generated, clauses, g, c);
    ErasedAgreement(g.expr, c.expr);
  }

  // ----- what the verdicts mean

  /** MATCHED, and the declared-alias route to RECLASSIFICATION, pair a clause only with
      constraints that have the same value at every assignment. */
  lemma MatchedSameValue(f: Finding, generated: seq<Generated>, clauses: seq<Clause>, g: Generated, c: Clause, env: Env)
    requires AllFormed(generated, clauses) && MatchedOk(f, generated, clauses)
    requires g in f.generated && c in f.clauses
    ensures ExprValue(g.expr, env) % P == ExprValue(c.expr, env) % P
  {
    hide CanonicalOf, Erase;
    MatchedMember(f, generated, clauses, g);
    SelectContents(clauses, MirCanon, g.canon, c);
    CanonicalImpliesSameValue(g.expr, c.expr, env);
  }

  /** A strengthening reported as implied asserts nothing beyond the constraint named:
      where that constraint vanishes, every clause of the finding does. */
  lemma ImpliedStrengtheningHolds(f: Finding, generated: seq<Generated>, clauses: seq<Clause>, c: Clause, env: Env)
    requires AllFormed(generated, clauses) && StrengtheningOk(f, generated, clauses) && f.implied.Some?
    requires c in f.clauses && BooleanOn(env, f.implied.value.boolean)
    requires ExprValue(generated[f.implied.value.index].expr, env) % P == 0
    ensures ExprValue(c.expr, env) % P == 0
  {
    hide CanonicalOf, Erase, Explains;
    var i := f.implied.value;
    assert f.clauses[0] in f.clauses;
    ImplicationSound(f.clauses[0].expr, generated[i.index].expr, i.boolean, i.cofactor, i.scalar, env);
    CanonicalImpliesSameValue(f.clauses[0].expr, c.expr, env);
  }
}
