# Verified model of the round-trip gates

The gates decide whether two descriptions of the same zero-knowledge constraints agree.
Expressions over witness, fixed, challenge and exposed columns are folded into polynomials
over GF(P), P = 2^64 - 2^32 + 1; the canonical listing of a polynomial's terms is the sole
decider, and everything the gates report is built on comparing those listings. This project
models that decision procedure, the verdict engine on top of it, the parsers that feed it
and the graph and lane algorithms that fix its scope, and proves what each of them is
trusted for.

How the pieces fit together:

* `Modular`, `Goldilocks` - congruences, Bezout, Euclid, Fermat, and the primality of P,
  proved rather than assumed (an element of order 2^32 forces every prime divisor above
  the square root).
* `Ordering`, `Sequences`, `Atoms`, `Monomials`, `FormalSums`, `Polynomials` - the dictionary of sorted
  monomials and its loops, each proved to compute an operation on formal sums modulo P.
* `Expressions`, `RingTheory`, `Evaluation`, `RootBound`, `FunctionEquality`, `Substitution`,
  `Erasure` - the fold. Two expressions have one canonical form exactly when the commutative-ring axioms
  modulo P prove them equal, and, where no exponent reaches P, exactly when they agree at
  every assignment; values are kept; replacing atoms never separates what was equal. Forms
  with the lane kinds erased are equal exactly when the expressions agree wherever lanes at
  one slot have one value.
* `Factoring`, `Implications`, `Cofactors`, `Verdicts`, `Grouping`, `Pairing`, `Exclusions`,
  `Coverage` - scalar factors, the cofactor search and what it misses, Boolean recognition,
  definitional pins, the pairing of constraints with clauses, the relabelling passes, the
  reviewed exclusions and the partition check.
* `MirrorGrammar`, `MirrorParser`, `MirrorFields`, `MirrorRows`, `MirrorPrinter`,
  `MirrorTrees`, `MirrorInlining`, `MirrorCarriers`, `MirrorPowers`, `MirrorLeaves`,
  `MirrorClauses`, `Comments` - the clause parser as functions and as the object that moves a
  cursor, what a projection stands for, its printer, helper inlining, the collectors, clause
  and body assembly, comment removal.
* `MirrorSyntax`, `MirrorSound`, `MirrorComplete`, `ClauseLanguage` - the language of
  expressions, clauses and bodies, defined apart from the parser, and the proof that the
  parser accepts exactly that language and computes what it means.
* `LeanParser`, `LeanGrammar`, `LeanWiring`, `WiringGrammar`, `Slices` - the two Lean
  renderings, the languages their parsers accept, and their agreement.
* `MixedRadix`, `Decimals`, `Lanes`, `LaneTiling` - array offsets, the lane map, when it is
  closed, the accessor vocabulary.
* `Graphs`, `TopoOrder`, `Cycles`, `SimpleCycles`, `Reachability`, `Semdiff`,
  `SemdiffSummary` - Kahn ordering, the depth-first cycle search, the consumption worklist,
  the memoised comparison and its per-AIR summary.

Where the code and its prose differ, the model follows the code:

* `canonical()` decides equality of formal polynomials, not of functions: x and x^P agree
  at every assignment and have different canonical forms (`FunctionEqualityIsWeaker`).
  `CanonicalIffProvable` says what it decides. As functions two expressions agree exactly
  when their polynomials coincide after x^P has been replaced by x
  (`FunctionEqualityExactly`), so the listing decides that too wherever no exponent reaches P
  (`LowFunctionEquality`).
* `boolean_atom` is documented for stage-1 columns and accepts a main-trace column of any
  stage (`BooleanAtomStages`).
* `_boolean_bound_atoms` keeps the limit of a bound and forgets whether it is `<` or `<=`, so
  a single `a.val <= 2` is accepted (`InclusiveBoundAccepted`). A list of bounds confines a
  column to 0 and 1 exactly when one of them does with its relation taken into account
  (`BoundsConfine`), and exactly then a booleanity constraint follows from them
  (`BoundCoverageSound`).
* `_cyclic_bundle_names` reports nodes on cycles, and something whenever there is a cycle,
  but not every node of a cycle (`NotEveryNodeReported`); where no bundle has two targets
  that lead back to it, it reports them all (`SimpleCyclesComplete`).
* `_cofactor_family` is documented to try the atoms of either side and is given those of both
  sides only. A clause a*y is a times the constraint y, and the search finds nothing
  (`MissedImplication`). A one-atom cofactor that matches always has its atom in the clause,
  so a match is missed exactly when its atom does not occur in the constraint (`TriedIff`).
* The exclusion of unbacked clauses is documented to confirm that a field has no lane
  anywhere. It confirms that the lane map does not resolve the name, which also happens when
  two lanes carry it (`AmbiguousLeafExcluded`); the field has no lane exactly when the name is
  not ambiguous (`NoLaneUnlessAmbiguous`).
* Helper inlining is not substitution into the parsed body: a body that raises a parameter to
  a power is refused when parsed symbolically, and folded for a numeral argument
  (`PowerOfAnArgument`). It is substitution followed by folding, refused exactly when some
  power met does not fold (`InliningIsSubstituteThenFold`); with no numeral among the
  arguments it is plain substitution, powers included (`NoNumeralArgument`).
* Stripping comments is not idempotent, blanking them is. A stripped text is its own stripped
  text exactly when on no line the gap left by a comment closes up to a new mark
  (`StripIdempotentIff`).

## Model

| member | source | states |
|---|---|---|
| Goldilocks.PIsPrime | tools/pilout-roundtrip/poly.py:26 | the modulus is prime, so the scalar and pin arguments may divide |
| Monomials.MulMono | tools/pilout-roundtrip/poly.py:33-42 | the product tuple is sorted with positive exponents and has the factors of both sides, with multiplicity |
| Monomials.CanonMono | tools/pilout-roundtrip/poly.py:45-66 | a key is refused exactly when some exponent is below 1; otherwise it becomes the sorted tuple with the same factors, and sorted keys are returned unchanged |
| Monomials.CanonUnique | tools/pilout-roundtrip/poly.py:45-66 | two normal keys with the same factors are the same tuple |
| Polynomials.Init | tools/pilout-roundtrip/poly.py:90-102 | construction fails exactly on a bad key with a coefficient that survives reduction; otherwise the stored terms are normal, lie in 1..P-1 and denote the given sum modulo P |
| Polynomials.Const | tools/pilout-roundtrip/poly.py:107-109 | a constant denotes itself modulo P, and zero stores no term |
| Polynomials.Variable | tools/pilout-roundtrip/poly.py:112-114 | one atom denotes itself |
| Polynomials.Add | tools/pilout-roundtrip/poly.py:118-124 | the loop over the dictionary computes the sum of the two polynomials, normal form kept |
| Polynomials.Negate | tools/pilout-roundtrip/poly.py:126-127 | negation multiplies by -1 |
| Polynomials.Subtract | tools/pilout-roundtrip/poly.py:129-133 | the difference of the two polynomials |
| Polynomials.Multiply | tools/pilout-roundtrip/poly.py:135-143 | the nested loops compute the product of the two formal sums, collisions merged and zeros dropped |
| Polynomials.ComputeCanonical | tools/pilout-roundtrip/poly.py:150-156 | sorting the items in any iteration order gives the one canonical listing |
| Polynomials.CanonicalInjective | tools/pilout-roundtrip/poly.py:150-156 | equal listings belong to equal polynomials |
| Polynomials.CanonicalContents | tools/pilout-roundtrip/poly.py:150-156 | the listing holds exactly the stored terms |
| Polynomials.NormalFormUnique | tools/pilout-roundtrip/poly.py:90-156 | two normal polynomials with congruent coefficients are identical |
| FormalSums.TimesCommutes | tools/pilout-roundtrip/poly.py:135-143 | multiplication commutes, coefficient by coefficient |
| FormalSums.TimesAssociates | tools/pilout-roundtrip/poly.py:135-143 | multiplication associates |
| FormalSums.LinCong | tools/pilout-roundtrip/poly.py:170-180 | anything computed linearly from the coefficients depends on them only modulo P |
| Expressions.ToPoly | tools/pilout-roundtrip/check.py:178-199 | the fold of an AST is the normal form of the sum it denotes |
| Expressions.LeavesAreAtoms | tools/pilout-roundtrip/lean_parse.py:444-453 | the atoms yielded in reading order are exactly the atoms of the tree |
| Expressions.CanonicalDecides | tools/pilout-roundtrip/poly.py:150-156 | canonical forms agree exactly when all coefficients agree modulo P |
| RingTheory.Sound | tools/pilout-roundtrip/poly.py:118-143 | every equality derivable from the commutative-ring axioms modulo P is respected by the fold |
| RingTheory.CanonicalIffProvable | tools/pilout-roundtrip/poly.py:150-156 | two ASTs have one canonical form exactly when the ring axioms prove them equal |
| Evaluation.Evaluate | tools/pilout-roundtrip/poly.py:170-180 | fails exactly when an atom of the polynomial has no value, naming one; otherwise returns the polynomial's value in GF(P) |
| Evaluation.FoldKeepsValue | tools/pilout-roundtrip/check.py:178-199 | the folded polynomial and the AST have the same value at every assignment |
| Evaluation.CanonicalImpliesSameValue | tools/pilout-roundtrip/poly.py:153-155 | equal canonical forms have equal values at every assignment |
| Evaluation.FunctionEqualityIsWeaker | tools/pilout-roundtrip/poly.py:153-155 | the converse fails: x and x^P agree everywhere and differ canonically |
| FunctionEquality.FunctionEqualityExactly | tools/pilout-roundtrip/poly.py:153-155 | two expressions agree at every assignment exactly when their canonical polynomials coincide after x^P has been replaced by x |
| FunctionEquality.LowFunctionEquality | tools/pilout-roundtrip/poly.py:153-155 | where no exponent in the two canonical forms reaches P, the expressions agree at every assignment exactly when the canonical forms are equal |
| FunctionEquality.Separated | tools/pilout-roundtrip/poly.py:153-155 | two different canonical forms without such exponents are told apart by some assignment |
| Evaluation.AtomsOfExact | tools/pilout-roundtrip/poly.py:167-168 | `atoms` lists exactly the atoms some monomial mentions |
| Evaluation.RandomScreen | tools/pilout-roundtrip/poly.py:212-229 | the screen never meets a missing atom, answers `False` exactly when a drawn assignment separates the two, and then the canonical forms differ |
| Substitution.MapAtomsIsSubst | tools/mirror-roundtrip/check_mirrors.py:393-410 | a mapped tree is the substitution instance |
| Substitution.MapAtomsDefined | tools/mirror-roundtrip/check_mirrors.py:393-410 | the mapping fails exactly when the mapper fails on some atom of the tree |
| Substitution.SubstKeepsCanonical | tools/mirror-roundtrip/check_mirrors.py:393-418 | no replacement of atoms separates canonically equal expressions, even one that merges atoms |
| Substitution.ErasureCongruence | tools/mirror-roundtrip/check_mirrors.py:370-418 | equal canonical forms imply equal erased canonical forms |
| Erasure.ErasedAtoms | tools/mirror-roundtrip/check_mirrors.py:370-390 | two accessor atoms are erased to one atom exactly when both are columns at one index and row, of whatever stage and kind, or both are a challenge or exposed value at one index; erasure fails exactly off the accessor vocabulary |
| Erasure.ErasedWhenAccessors | tools/mirror-roundtrip/check_mirrors.py:393-418 | an expression is erasable exactly when all its atoms are accessors |
| Erasure.ErasedAgreement | tools/mirror-roundtrip/check_mirrors.py:370-418 | equal erased forms mean agreement at every assignment that gives lanes at one slot one value, whatever the exponents |
| Erasure.ErasedFormsDecide | tools/mirror-roundtrip/check_mirrors.py:370-418 | where the erased exponents stay below P, the erased forms are equal exactly when the expressions agree at every such assignment |
| Factoring.ScalarFactor | tools/mirror-roundtrip/check_mirrors.py:879-897 | returns s only if s is non-zero and left = s * right, and finds it whenever one exists for non-zero polynomials |
| Implications.SquareFree | tools/mirror-roundtrip/check_mirrors.py:900-908 | the loop computes the reduction by x*x = x on the given atoms, in normal form |
| Implications.ReducedValue | tools/mirror-roundtrip/check_mirrors.py:900-908 | the reduction keeps the value wherever those atoms are 0 or 1 |
| Implications.ReducedIsSquareFree | tools/mirror-roundtrip/check_mirrors.py:900-908 | no reduced atom keeps an exponent above 1 |
| Implications.TestCofactor | tools/mirror-roundtrip/check_mirrors.py:950-988 | one cofactor is accepted exactly when some scalar makes the reduced polynomials equal |
| Implications.ImpliedBy | tools/mirror-roundtrip/check_mirrors.py:950-988 | returns the first generated constraint of which the clause is a scaled cofactor multiple, with the first cofactor of the family that matches, under no licence where some cofactor needs none; the licence is exactly the fixed lanes either side mentions; returns nothing only when no cofactor tried explains it |
| Implications.ImplicationSound | tools/mirror-roundtrip/check_mirrors.py:950-988 | where the licensed atoms are 0/1, clause = scalar * cofactor * constraint, so the constraint vanishing forces the clause; with no licence this holds everywhere |
| Cofactors.CofactorAtomInClause | tools/mirror-roundtrip/check_mirrors.py:911-988 | under either licence a one-atom cofactor that matches has its atom in the clause |
| Cofactors.TriedIff | tools/mirror-roundtrip/check_mirrors.py:911-988 | of the documented family, a match is tried exactly when its atom occurs in the constraint |
| Cofactors.MissedImplication | tools/mirror-roundtrip/check_mirrors.py:911-988 | the clause a*y is a times the constraint y and no search explains it |
| Verdicts.BooleanAtom | tools/mirror-roundtrip/check_mirrors.py:1049-1067 | recognises exactly the expressions over one main column whose canonical form is x*(1-x) or its negation |
| Verdicts.BooleanAtomStages | tools/mirror-roundtrip/check_mirrors.py:1049-1067 | both shapes are recognised for a main column of any stage and for no other atom |
| Verdicts.BooleanShapeMeans | tools/mirror-roundtrip/check_mirrors.py:1049-1067 | such a constraint vanishes exactly when the column is 0 or 1 |
| Verdicts.BoundAtoms | tools/mirror-roundtrip/check_mirrors.py:1070-1108 | the least recorded limit per witness column, whatever the relation |
| Verdicts.BoundsConfine | tools/mirror-roundtrip/check_mirrors.py:1070-1108 | a list of bounds confines a column to 0/1 exactly when one of them, relation included, does |
| Verdicts.BoundTestExact | tools/mirror-roundtrip/check_mirrors.py:1070-1191 | the test accepts every confined witness column; an accepted one that is not confined has a recorded `<= 2` |
| Verdicts.InclusiveBoundAccepted | tools/mirror-roundtrip/check_mirrors.py:1070-1191 | on the single bound `<= 2` the table is {column: 2}, the test accepts it, and the value 2 meets the bound |
| Verdicts.BoundCoverageSound | tools/mirror-roundtrip/check_mirrors.py:1140-1191 | a booleanity constraint holds on every row that meets the bounds on its column exactly when one of those bounds is confining |
| Verdicts.IsDefinitionalPin | tools/mirror-roundtrip/check_mirrors.py:1354-1398 | accepts exactly the canonical forms that keep an uncommitted atom and mention each only as a bare unit-power monomial |
| Verdicts.PinConstrainsNothing | tools/mirror-roundtrip/check_mirrors.py:1354-1398 | for every value of the committed atoms some value of an uncommitted one makes an accepted pin vanish |
| Verdicts.CancelledIsNoPin | tools/mirror-roundtrip/check_mirrors.py:1354-1398 | a clause whose uncommitted atoms all cancel is rejected, and its value does not depend on them |
| Grouping.GroupBy | tools/mirror-roundtrip/check_mirrors.py:750-776 | the dictionary of lists holds, per key, exactly the items with that key in their order |
| Pairing.PairAir | tools/mirror-roundtrip/check_mirrors.py:750-840 | every constraint, comparable clause and unbacked clause is in exactly one finding of its side; each finding holds the whole class its kind speaks of, and a strengthening names the first explaining constraint or there is none |
| Pairing.VerdictOf | tools/mirror-roundtrip/check_mirrors.py:750-840 | the kind a constraint gets, read off the inputs alone, in both directions: matched, else erasable, else a gap |
| Pairing.ClauseVerdictOf | tools/mirror-roundtrip/check_mirrors.py:750-840 | the kind a clause gets, read off the inputs alone: matched, else erasable, else a strengthening |
| Pairing.ErasableTogether | tools/mirror-roundtrip/check_mirrors.py:785-830 | constraints of one canonical class are all erasable or none is |
| Pairing.ClausesErasableTogether | tools/mirror-roundtrip/check_mirrors.py:785-830 | the same for clauses |
| Pairing.ClassWhole | tools/mirror-roundtrip/check_mirrors.py:750-830 | a finding with one constraint of a canonical class holds all of them, with their multiplicities |
| Pairing.ClauseClassWhole | tools/mirror-roundtrip/check_mirrors.py:750-830 | the same for clauses |
| Pairing.ClassNeverSplit | tools/mirror-roundtrip/check_mirrors.py:750-830 | two constraints with one canonical form are in one and the same finding |
| Pairing.ClauseClassNeverSplit | tools/mirror-roundtrip/check_mirrors.py:750-830 | two clauses with one canonical form are in one and the same finding, so no class is both a strengthening and a reclassification |
| Pairing.FindingsSeparated | tools/mirror-roundtrip/check_mirrors.py:750-830 | constraints of two different findings, exponents below P, are told apart by some assignment |
| Pairing.MatchedIffSameFunction | tools/mirror-roundtrip/check_mirrors.py:761-814 | with exponents below P, a constraint is matched exactly when some clause agrees with it at every assignment; a gap is told apart from every clause |
| Pairing.ClauseMatchedIffSameFunction | tools/mirror-roundtrip/check_mirrors.py:761-830 | the same for a clause: a strengthening is told apart from every constraint |
| Pairing.KindErasureMeans | tools/mirror-roundtrip/check_mirrors.py:785-830 | with exponents below P, a constraint is reclassified by kind erasure exactly when no clause is the same function and some unmatched clause agrees with it wherever lanes at one slot have one value; it is a gap exactly when there is neither |
| Pairing.ClauseKindErasureMeans | tools/mirror-roundtrip/check_mirrors.py:785-830 | the same for a clause and the strengthenings |
| Pairing.KindErasureAgrees | tools/mirror-roundtrip/check_mirrors.py:785-830 | whatever the exponents, the two sides of a kind erasure agree wherever lanes at one slot have one value |
| Pairing.MatchedSameValue | tools/mirror-roundtrip/check_mirrors.py:761-778 | matched and alias-reclassified clauses have the constraint's value at every assignment |
| Pairing.ImpliedStrengtheningHolds | tools/mirror-roundtrip/check_mirrors.py:750-840 | every clause of a strengthening reported as implied vanishes wherever the named constraint does, under its licence |
| Coverage.ReclassifyCovered | tools/mirror-roundtrip/check_mirrors.py:1140-1191 | relabels exactly the gaps whose every constraint is typed, then those a declared out-of-root clause restates, keeping all else |
| Coverage.ReclassifyWeldCovered | tools/mirror-roundtrip/check_mirrors.py:1194-1222 | relabels exactly the gaps whose every constraint index is welded |
| Exclusions.IsUncommittedPin | tools/mirror-roundtrip/check_mirrors.py:1402-1445 | the loops accept exactly the definitional pins whose laneless projections are all cited and expected and whose names the lane map does not resolve |
| Exclusions.ApplyExclusions | tools/mirror-roundtrip/check_mirrors.py:1475-1512 | tagging in place gives each finding the tag of the one rule for its kind and changes nothing else |
| Exclusions.TagIffExcusable | tools/mirror-roundtrip/check_mirrors.py:1228-1512 | the rules by quantifiers: a reclassification is excluded exactly when its clauses have an alias and every alias is a lane pinned for this AIR, a strengthening exactly for the one definition, cofactor and source line, an unbacked clause exactly when it pins uncommitted fields; no other finding ever |
| Exclusions.ExcludedUnbackedFree | tools/mirror-roundtrip/check_mirrors.py:1402-1473 | whatever the committed values, some value of an uncommitted atom makes an excluded unbacked clause vanish |
| Exclusions.ExcludedStrengtheningPartial | tools/mirror-roundtrip/check_mirrors.py:1228-1263 | an excluded strengthening vanishes with the named constraint, and also wherever the atom of its cofactor is 1 |
| Exclusions.NoLaneUnlessAmbiguous | tools/mirror-roundtrip/check_mirrors.py:1402-1445 | a name the rule accepts belongs to no lane exactly when it is not ambiguous |
| Exclusions.AmbiguousLeafExcluded | tools/mirror-roundtrip/check_mirrors.py:1402-1445 | a clause over a name that two lanes carry is excluded |
| Coverage.RunAir | tools/mirror-roundtrip/check_mirrors.py:2048-2076 | after pairing and all rewrites the three partition sums hold, every finding rests on what its kind claims, a gap is left only where no relabelling applies, and a finding is excluded exactly when it meets the rule for its kind, under the name of that rule |
| Coverage.PlainErasureNeverExcused | tools/mirror-roundtrip/check_mirrors.py:1299-1350 | a kind erasure none of whose clauses has an alias is never excluded |
| Coverage.FinalClassWhole | tools/mirror-roundtrip/check_mirrors.py:2048-2076 | after every rewrite a finding with one constraint of a canonical class holds the class |
| Coverage.RunNeverSplits | tools/mirror-roundtrip/check_mirrors.py:2048-2076 | the finished run puts each canonical class of constraints into one finding |
| Coverage.Partition | tools/mirror-roundtrip/check_mirrors.py:2062-2076 | conservation makes the three partition errors unreachable |
| Coverage.OutOfRootSameValue | tools/mirror-roundtrip/check_mirrors.py:1158-1191 | an out-of-root clause has the constraint's value at every assignment |
| Coverage.BoolTypedMeans | tools/mirror-roundtrip/check_mirrors.py:1049-1191 | a bool-typed constraint vanishes exactly when its one typed column is 0 or 1 |
| TopoOrder.DependencyEdges | scripts/update_issue_deps_graph.py:220-233 | the sorted listing, each edge once, of exactly the pairs whose issues are both included and of which either issue records it |
| TopoOrder.CountEdges | scripts/update_issue_deps_graph.py:244-253 | successor sets and indegrees are those of the induced graph, duplicates and self-loops ignored |
| TopoOrder.Release | scripts/update_issue_deps_graph.py:260-263 | each successor loses one and exactly those reaching zero join the ready list |
| TopoOrder.Order | scripts/update_issue_deps_graph.py:243-267 | a permutation of the items: a greedy prefix, each item the least available one, then the leftovers in order, nothing available being left |
| TopoOrder.LeftoversBlocked | scripts/update_issue_deps_graph.py:266-267 | every leftover has a predecessor among the leftovers |
| TopoOrder.CompleteIffAcyclic | scripts/update_issue_deps_graph.py:243-267 | there are no leftovers exactly when the induced graph has no cycle |
| TopoOrder.LexicographicallyLeast | scripts/update_issue_deps_graph.py:243-267 | on an acyclic graph the result puts blocked before blocker and is the lexicographically least order that does |
| TopoOrder.AxisOrder | scripts/update_issue_deps_graph.py:270-310 | the same ordering of the axes under the edges their issues induce |
| TopoOrder.AxesRespectEdges | scripts/update_issue_deps_graph.py:270-310 | when the axes do not block each other in a circle, the axis of a blocked issue precedes that of its blocker |
| Cycles.Search.VisitNode | tools/mirror-roundtrip/survey.py:1083-1096 | the nested function updates the shared sets as specified and restores `visiting` and the stack |
| Cycles.VisitSound | tools/mirror-roundtrip/survey.py:1083-1096 | from a state whose `visiting` is the set of a genuine path on the stack, everything added to `cyclic` lies on a cycle |
| Cycles.PushPath | tools/mirror-roundtrip/survey.py:1091-1092 | entering a node keeps the stack a duplicate-free path listing exactly the visiting nodes |
| Cycles.CyclicNames | tools/mirror-roundtrip/survey.py:1077-1100 | every reported bundle lies on a cycle, and something is reported exactly when the graph has one |
| Cycles.NotEveryNodeReported | tools/mirror-roundtrip/survey.py:1077-1100 | a graph on which a node of a cycle is not reported |
| SimpleCycles.SimpleCyclesComplete | tools/mirror-roundtrip/survey.py:1077-1100 | when no bundle has two targets that lead back to it, exactly the bundles on cycles are reported, however they branch otherwise |
| Reachability.Build | tools/mirror-roundtrip/consumed_check.py:307-315 | each of the three dictionaries lists, per key, exactly the declarations carrying it, in table order |
| Reachability.Resolve | tools/mirror-roundtrip/consumed_check.py:320-372 | the exact name; else the longest enclosing namespace that declares the token; else the aliases; else the first opened namespace that declares it; else, in loose mode only, everything with that last segment; each time exactly the declarations of that name |
| Reachability.Reachable | tools/mirror-roundtrip/consumed_check.py:390-400 | the worklist ends with the least set that holds the roots and is closed under resolved references |
| Reachability.ClosureIffWalk | tools/mirror-roundtrip/consumed_check.py:390-400 | a declaration is in it exactly when a chain of references leads there from a root |
| Reachability.StrictWithinLoose | tools/mirror-roundtrip/consumed_check.py:320-400 | the strict result is contained in the loose one |
| Reachability.ClassifyAt | tools/mirror-roundtrip/consumed_check.py:405-428 | the declarations looked up by file and name get the verdict of the two reachable sets |
| Reachability.VerdictMeans | tools/mirror-roundtrip/consumed_check.py:405-428 | each verdict in terms of chains of references that lead to a declaration of that name in that file: `loose only` means there is one but none whose every step is in scope |
| Semdiff.Folder.Fold | tools/adversarial-mutations/semdiff.py:25-52 | the memoised fold of a shared node equals the plain fold of its tree, and every remembered entry stays right |
| Semdiff.Decide | tools/adversarial-mutations/semdiff.py:115-125 | past the structural shortcut, `equivalent` is chosen exactly for one kind and one polynomial |
| Semdiff.StatusMeans | tools/adversarial-mutations/semdiff.py:105-125 | the status of a constraint, read off which sides have it, how they spell it and what it folds to |
| Semdiff.EquivalentIsEquivalence | tools/adversarial-mutations/semdiff.py:111-125 | the per-constraint decision is reflexive, symmetric and transitive, and contains the structural shortcut |
| Semdiff.EquivalentIffSameFunction | tools/adversarial-mutations/semdiff.py:111-125 | for two expressions with exponents below P, the decision is one kind and equal values at every assignment |
| Semdiff.Compare | tools/adversarial-mutations/semdiff.py:94-133 | the two lists hold, in key order, exactly the changed and the rewritten constraints; `equal` holds exactly when both sides have the same constraints up to equivalence |
| Semdiff.SameIsEquivalence | tools/adversarial-mutations/semdiff.py:94-133 | being reported equal is an equivalence of constraint sets, so the byte-equality shortcut agrees with the full comparison |
| SemdiffSummary.PerAirSummary | tools/adversarial-mutations/semdiff.py:66-91 | per AIR, the lists `changed`, `dropped` and `added` hold exactly the constraints of that status in order, and the changed ones are split by whether both sides have an expression |
| SemdiffSummary.SummaryBalances | tools/adversarial-mutations/semdiff.py:66-91 | base count plus added equals mutant count plus dropped; changed is representable plus unrepresentable |
| MixedRadix.RowMajorIndices | tools/mirror-roundtrip/lanes.py:294-300 | the loop computes the mixed-radix digits, last index fastest |
| MixedRadix.OffsetOfDigits | tools/mirror-roundtrip/lanes.py:294-300 | the digits of an offset lie in the box and address that offset |
| MixedRadix.DigitsOfOffset | tools/mirror-roundtrip/lanes.py:294-300 | every multi-index of the box is the digits of its offset |
| Lanes.ArrayElements | tools/mirror-roundtrip/lanes.py:303-322 | the element listing, with the dim and length errors |
| Decimals.DecimalReads | tools/mirror-roundtrip/lanes.py:322 | the index in an element name is decimal, reads back and has no leading zero |
| Lanes.ElementsAreTheBox | tools/mirror-roundtrip/lanes.py:303-322 | the elements are exactly the cells of the box, each once, at its row-major offset |
| Lanes.DeclaredLanes | tools/mirror-roundtrip/lanes.py:505-523 | the set holds exactly the lanes the geometry declares |
| Lanes.CheckStage | tools/mirror-roundtrip/lanes.py:611-661 | accepts exactly the symbols whose stage agrees with what the AIR declares |
| Lanes.ClaimsOf | tools/mirror-roundtrip/lanes.py:550-575 | what one symbol claims, or which refusal stops it |
| Lanes.BuildLaneMap | tools/mirror-roundtrip/lanes.py:526-597 | the map holds every claim on a declared lane once under its name, with the unnamed lanes and the orphans; an error means a refused symbol or two claims on one lane |
| Lanes.OneSymbolClaimsOnce | tools/mirror-roundtrip/lanes.py:346-357 | the elements of one symbol claim different lanes, so a clash names two symbols |
| Lanes.RefusedHasNoMap | tools/mirror-roundtrip/lanes.py:526-597 | where the error is raised no map exists |
| Lanes.ByNameInverts | tools/mirror-roundtrip/lanes.py:590-595 | `by_name` is the exact inverse multimap of the lane names |
| Lanes.ResolveIffUnique | tools/mirror-roundtrip/lanes.py:404-414 | a name resolves exactly when one lane carries it, and to that lane |
| Lanes.ClosedIffExact | tools/mirror-roundtrip/lanes.py:463-464 | a map is closed exactly when its domain is the declared lanes and no claim falls outside |
| Lanes.OutsideContents | tools/mirror-roundtrip/lanes.py:576-588 | the orphans are the claims on no declared lane, as often as they are made |
| LaneTiling.AcceptableIff | tools/mirror-roundtrip/lanes.py:550-661 | a symbol is refused exactly when it concerns this AIR and has a foreign type or scope, a wrong stage, or a bad shape |
| LaneTiling.ClosedIffTiled | tools/mirror-roundtrip/lanes.py:526-597 | the map is built and closed exactly when no symbol is refused and, for each kind and stage, the intervals of the symbols tile the declared width |
| LaneTiling.ElementStored | tools/mirror-roundtrip/lanes.py:346-357 | in a map that is built, the k-th element of a symbol is stored k slots behind its identifier, in the kind and stage of the symbol, with its name, indices and offset |
| LaneTiling.StoredIsElement | tools/mirror-roundtrip/lanes.py:526-597 | and every stored lane is such an element |
| Lanes.FlattenInjective | tools/pilout-roundtrip/pilout_atoms.py:215-259 | flattening confuses no two challenges |
| Lanes.FlattenOnto | tools/pilout-roundtrip/pilout_atoms.py:215-259 | every index of the flat numbering is some challenge |
| Lanes.FlattenOrdered | tools/pilout-roundtrip/pilout_atoms.py:215-259 | the flat numbers follow the stages, and the indices within a stage |
| Lanes.AtomOfLane | tools/mirror-roundtrip/lanes.py:468-486 | the accessor atom of a lane: a column keeps stage, index and row, a challenge gets its flat number, an exposed value keeps its index only |
| Lanes.AccessorCollapse | tools/mirror-roundtrip/lanes.py:468-492 | two lanes share an accessor atom exactly when they are one lane or both exposed at a listed index |
| Lanes.CollapsedIsAmbiguous | tools/mirror-roundtrip/lanes.py:488-492 | every listed index does collapse two lanes |
| MirrorParser.ExprParser.Expression | tools/mirror-roundtrip/mirror_parse.py:1363-1369 | the loop of sums and differences does what the grammar says, cursor and collectors included |
| MirrorParser.ExprParser.Term | tools/mirror-roundtrip/mirror_parse.py:1371-1376 | the same for products |
| MirrorParser.ExprParser.Unary | tools/mirror-roundtrip/mirror_parse.py:1378-1382 | unary minus binds tighter than a product |
| MirrorParser.ExprParser.Powers | tools/mirror-roundtrip/mirror_parse.py:1384-1395 | powers of constants are folded, any other power is refused |
| MirrorParser.ExprParser.Primary | tools/mirror-roundtrip/mirror_parse.py:1397-1417 | numerals, parentheses with an optional ascription, applications |
| MirrorParser.ExprParser.Argument | tools/mirror-roundtrip/mirror_parse.py:1419-1436 | the restricted form of an application argument |
| MirrorParser.ExprParser.Application | tools/mirror-roundtrip/mirror_parse.py:1438-1471 | the order in which a name is tried as projection, local, coercion, helper and carrier helper |
| MirrorParser.ExprParser.Projection | tools/mirror-roundtrip/mirror_parse.py:1473-1497 | the row a projection is read at, per binder kind, and the loss of the row relation |
| MirrorParser.ExprParser.RowIndex | tools/mirror-roundtrip/mirror_parse.py:1499-1525 | the row argument as a signed delta |
| MirrorParser.ExprParser.InlineHelper | tools/mirror-roundtrip/mirror_parse.py:1527-1560 | arguments first, then the body with its own cursor, fresh row flag and shared collectors, depth bounded by 8 |
| MirrorParser.ExprParser.InlineCarrierHelper | tools/mirror-roundtrip/mirror_parse.py:1562-1626 | bare binders of the right kinds are rebound and the body read with them |
| MirrorParser.ExprParser.Field | tools/mirror-roundtrip/mirror_parse.py:1250-1324 | one projection becomes the atom of the only lane its spellings name, or a reported marker |
| MirrorFields.FieldCases | tools/mirror-roundtrip/mirror_parse.py:1250-1324 | read off the lane names: a projection is a marker exactly when the row relation is lost, there are no lanes or no spelling names one lane; refused exactly when two spellings do; otherwise the atom of that lane at the row |
| MirrorFields.DottedJoins | tools/mirror-roundtrip/mirror_parse.py:1250-1324 | the path in a marker is the segments with dots between them |
| MirrorRows.LostRowResolvesNothing | tools/mirror-roundtrip/mirror_parse.py:1250-1324 | with the row relation lost and no helper called, reading an expression collects no accessor atom and does not recover the relation |
| MirrorRows.UnknownRowsResolveNothing | tools/mirror-roundtrip/mirror_parse.py:1473-1626 | where every binder is a row record of unknown row no accessor atom is ever collected, through helpers and carrier helpers too |
| MirrorRows.BodyLost | tools/mirror-roundtrip/mirror_parse.py:1837-1851 | nor does anything in the rest of the body |
| MirrorGrammar.ParseExpr | tools/mirror-roundtrip/mirror_parse.py:1363-1560 | defined on every token list and helper table, mutual recursion included, and consumes at least one token on success |
| MirrorSound.BodyInLanguage | tools/mirror-roundtrip/mirror_parse.py:1363-1626 | whatever is accepted is written in the language of the grammar, given as syntax trees, and read as what its tree means |
| MirrorComplete.AcceptsExactly | tools/mirror-roundtrip/mirror_parse.py:1363-1626 | a token sequence is accepted exactly when some tree of the language is written with it, and read as what the tree means, helpers, flag and collectors included |
| MirrorPrinter.PrintThenParse | tools/mirror-roundtrip/mirror_parse.py:1363-1436 | the grammar reads a minimal-parenthesis print, with declared types ascribed to any of its parts, back to the same AST, its atoms collected in reading order |
| MirrorPrinter.PrintInjective | tools/mirror-roundtrip/mirror_parse.py:1363-1436 | two ASTs never share a print |
| MirrorPrinter.TowerFolds | tools/mirror-roundtrip/mirror_parse.py:1384-1395 | a chain of constant powers is folded from the right |
| MirrorInlining.InliningIsSubstituteThenFold | tools/mirror-roundtrip/mirror_parse.py:1384-1560 | inlining is the simultaneous substitution of the arguments into the body read without folding, then the folding of its powers: refused for a power exactly when some power met does not fold, otherwise results and errors carry over |
| MirrorInlining.InliningIsSubstitution | tools/mirror-roundtrip/mirror_parse.py:1527-1560 | whatever the arguments, a body not refused for a power when parsed symbolically is inlined by substitution alone, errors included |
| MirrorInlining.NoNumeralArgument | tools/mirror-roundtrip/mirror_parse.py:1384-1560 | with no numeral among the arguments, inlining is substitution in results and errors alike, refused powers included |
| MirrorInlining.CarriersBoundIff | tools/mirror-roundtrip/mirror_parse.py:1579-1602 | carrier arguments are accepted exactly when each is a bare binder of its parameter's kind or the row index; the body then knows only the helper's own parameters |
| MirrorCarriers.CarrierReadsBack | tools/mirror-roundtrip/mirror_parse.py:1562-1626 | a carrier helper whose body is printed in its own scope is read as that body; the caller keeps its row relation |
| MirrorCarriers.OwnBindersMeans | tools/mirror-roundtrip/mirror_parse.py:1579-1602 | the body knows exactly the parameters that are records, of two with one name the later |
| MirrorCarriers.OwnIndexMeans | tools/mirror-roundtrip/mirror_parse.py:1579-1602 | the row index of the body is the last index parameter |
| MirrorCarriers.BindMeans | tools/mirror-roundtrip/mirror_parse.py:1527-1560 | the body of an expression helper knows its parameters, each with its own argument |
| MirrorInlining.PowerOfAnArgument | tools/mirror-roundtrip/mirror_parse.py:1384-1395 | where they part: a body `x ^ 2` is refused symbolically and folded for a numeral |
| MirrorPowers.PowerFreeInliningIsSubstitution | tools/mirror-roundtrip/mirror_parse.py:1527-1560 | when neither the tokens nor any helper body contains `^`, inlining is substitution in results and errors alike |
| MirrorLeaves.NothingUnresolvedMeansComparable | tools/mirror-roundtrip/mirror_parse.py:1250-1324 | a clause that reports nothing unresolved mentions only accessor atoms, all of them collected |
| MirrorClauses.SplitTopLevel | tools/mirror-roundtrip/mirror_parse.py:828-841 | the loop computes the depth-0 split |
| MirrorClauses.SplitRebuilds | tools/mirror-roundtrip/mirror_parse.py:828-841 | parts and separators interleave to the original tokens |
| MirrorClauses.SplitOfJoin | tools/mirror-roundtrip/mirror_parse.py:828-841 | joined conjuncts are split apart again |
| MirrorClauses.FindTopLevel | tools/mirror-roundtrip/mirror_parse.py:844-855 | the positions of the depth-0 relations |
| MirrorClauses.ClauseParser.Side | tools/mirror-roundtrip/mirror_parse.py:1837-1851 | one side is read to its end and a row relation lost in it stays lost |
| MirrorClauses.ClauseParser.Clause | tools/mirror-roundtrip/mirror_parse.py:1773-1801 | one relation at most; an equation becomes one normalised expression |
| MirrorClauses.ClauseParser.Bound | tools/mirror-roundtrip/mirror_parse.py:1804-1834 | a bound's subject is one `.val` projection, resolved before its limit is read |
| MirrorClauses.ClauseParser.Conjuncts | tools/mirror-roundtrip/mirror_parse.py:1928-1941 | an empty conjunct refuses the body; otherwise every conjunct becomes a clause or an error, and without errors the clauses and collectors are those of reading the conjuncts in turn |
| MirrorClauses.EquationMeans | tools/mirror-roundtrip/mirror_parse.py:1794-1796 | the normalised expression vanishes exactly where the two sides agree |
| MirrorClauses.ZeroSideImmaterial | tools/mirror-roundtrip/mirror_parse.py:1796 | dropping a literal zero does not change the canonical form |
| MirrorClauses.EquationReadsBack | tools/mirror-roundtrip/mirror_parse.py:1773-1801 | a printed equation is read as its normalisation, with the atoms of both sides and nothing unresolved |
| MirrorClauses.BoundReadsBack | tools/mirror-roundtrip/mirror_parse.py:1804-1834 | a printed bound is read as the atom its field stands for, its relation and its limit |
| MirrorClauses.BoundRefused | tools/mirror-roundtrip/mirror_parse.py:1804-1834 | any other left side is refused |
| MirrorClauses.BodyReadsBack | tools/mirror-roundtrip/mirror_parse.py:1773-1941 | a body of printed equations is read as exactly those equations, with the atoms of all of them in reading order and nothing unresolved |
| ClauseLanguage.SideExactly | tools/mirror-roundtrip/mirror_parse.py:1837-1851 | a side is accepted exactly when a tree of the language is written with it, and read as what the tree means |
| ClauseLanguage.ClauseExactly | tools/mirror-roundtrip/mirror_parse.py:1773-1834 | tokens are read as a clause exactly when they are it: two sides around the only relation outside all parentheses, a field value and a limit, or, without a relation, a delegation; two relations are refused |
| ClauseLanguage.BodyExactly | tools/mirror-roundtrip/mirror_parse.py:1773-1941 | a body is accepted exactly when, cut at every conjunction outside all parentheses, its parts are not empty and are clauses, read in turn |
| Comments.StripComments | tools/mirror-roundtrip/survey.py:466-492 | keeps exactly the characters the nesting classifies as code |
| Comments.SnapshotStrip | scripts/chansnap.py:48-77 | the other loop computes the same function |
| Comments.BlankLine | tools/mirror-roundtrip/mirror_parse.py:611-634 | the buffer is overwritten exactly at the characters that are not code |
| Comments.BlankComments | tools/mirror-roundtrip/mirror_parse.py:601-634 | the same classification, every position kept |
| Comments.BlankLinesIdempotent | tools/mirror-roundtrip/mirror_parse.py:601-634 | blanking a blanked text changes nothing |
| Comments.StripAgain | tools/mirror-roundtrip/survey.py:466-492 | stripping a stripped line changes nothing exactly when no kept slash or dash is followed, with nothing kept between, by a kept dash |
| Comments.StripIdempotentIff | tools/mirror-roundtrip/survey.py:466-492 | stripping a stripped text changes nothing exactly when none of its lines does that |
| Comments.StripNotIdempotent | tools/mirror-roundtrip/survey.py:466-492 | the line `//--/-` is stripped to `/-`, and that to nothing |
| LeanParser.Parser.Body | tools/pilout-roundtrip/lean_parse.py:351-361 | the object reads a body as the grammar does, to its last token |
| LeanParser.Parser.Expression | tools/pilout-roundtrip/lean_parse.py:363-392 | the same for a parenthesised expression |
| LeanParser.Parser.Accessor | tools/pilout-roundtrip/lean_parse.py:394-436 | the same for an accessor and its named arguments; a non-zero rotation is refused |
| LeanParser.PrintThenParse | tools/pilout-roundtrip/lean_parse.py:351-436 | a printed body is read back to the same AST |
| LeanGrammar.AcceptsExactly | tools/pilout-roundtrip/lean_parse.py:351-436 | a body is accepted exactly when it spells an expression, and read as that one |
| LeanParser.ParenthesisCount | tools/pilout-roundtrip/lean_parse.py:58-62 | every accepted body has as many opening and as many closing parentheses: one of each for the wrapper, per operator and accessor, and per named argument |
| LeanWiring.Parser.Top | tools/pilout-roundtrip/lean_wiring.py:302-306 | the object reads a term as the grammar does, to its last token |
| LeanWiring.Parser.Apply | tools/pilout-roundtrip/lean_wiring.py:308-313 | the table-driven loop over a constructor's arguments |
| LeanWiring.Parser.Argument | tools/pilout-roundtrip/lean_wiring.py:315-333 | one argument of each kind |
| LeanWiring.SpellingBuilds | tools/pilout-roundtrip/lean_wiring.py:122-134 | table and builder take a term's spelling back to the term |
| LeanWiring.PrintThenParse | tools/pilout-roundtrip/lean_wiring.py:302-355 | a printed term is read back to the same term |
| WiringGrammar.AcceptsExactly | tools/pilout-roundtrip/lean_wiring.py:302-355 | a term is accepted exactly when its tokens spell it, and read as that one |
| LeanWiring.RenderingsAgree | tools/pilout-roundtrip/lean_wiring.py:302-355 | reading the prefix rendering and collapsing it, and reading the parenthesised rendering, give one AST |
| LeanWiring.CollapseInjective | tools/mirror-roundtrip/lanes.py:468-486 | two terms collapse to one AST exactly when they differ at most in the source of exposed leaves |

## Left out

- Exclusions.ApplyExclusions: the reasons and site lists are text; whether the two fixed-column schemas are still in the sources is an input.
- Cycles.CyclicNames: does not say which nodes are reported where some node has two targets that lead back to it, because that depends on the order in which targets are taken.
- Evaluation.RandomScreen: the pseudo-random draws are a parameter.
- MirrorGrammar.ParseExpr: the counters of inlined helpers, the list of kind changes and the table from paths to lanes are not collected; error texts are error kinds.
- MirrorClauses.ClauseParser.Clause: a conjunct without a relation is returned as tokens; delegation targets are not modelled.
- LeanParser.ParenthesisCount: tokens, not characters; the tokenizers, file scanning and regular expressions of all three parsers are not modelled.
- TopoOrder.AxisOrder: the axis loop is modelled as the item ordering applied to the induced edges, not as a second copy of the loops.
- Lanes.BuildLaneMap: counts of symbols that are not lanes, and the order of the unnamed and orphan reports, are not modelled.
- Semdiff.Compare: file digests and decoding; the digest shortcut is covered by reflexivity. Object identity in the memo is a position in a table of nodes.
- Finding order, nearest-clause and kind-pair hints, difference printing, JSON and table output: presentation.
- Alias, citation and classification tables, provenance texts, welded index sets, Bool-typed field sets: inputs.
- Pilout wire decoding, Lean declaration scanning, `let` chains and binder classification: inputs.
- GitHub calls, Mermaid rendering, mutation running, `acceptance.py`, self-tests, Nix files: no algorithm of their own.
