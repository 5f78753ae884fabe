/** Which declarations the roots consume: scoped name resolution and the worklist over it. */
module Reachability {
  import opened Graphs

  /** A dotted name, split at its dots; the empty list is the top level. */
  type Name = seq<string>

  /** A declaration, identified by its position in the table. `rel` is its file, `refs` are the identifiers
      of its body, `openBare` the `open X (name)` aliases and `openNs` the opened namespaces. */
  datatype Decl = Decl(rel: string, fqn: Name, name: Name, refs: seq<Name>,
                       openBare: map<Name, seq<Name>>, openNs: seq<Name>)

  function Members(s: seq<nat>): (r: set<nat>)
    ensures forall i :: i in r <==> i in s
  {
    set i | i in s
  }

  ghost function Below(n: nat): (r: set<nat>)
    ensures forall i: nat :: i in r <==> i < n
  {
    if n == 0 then {} else Below(n - 1) + {n - 1}
  }

  // ----- the index

  /** The declarations carrying a key, in table order. */
  function Carrying<K(==)>(decls: seq<Decl>, key: Decl -> K, k: K): (r: seq<nat>)
    ensures forall i :: i in r ==> i < |decls| && key(decls[i]) == k
  {
    if decls == [] then []
    else
      var n := |decls| - 1;
      Carrying(decls[..n], key, k) + (if key(decls[n]) == k then [n] else [])
  }

  function Fqn(): Decl -> Name {
    (d: Decl) => d.fqn
  }

  function Last(n: Name): Name {
    if n == [] then [] else [n[|n| - 1]]
  }

  /** The last segment of the name as written. */
  function Bare(): Decl -> Name {
    (d: Decl) => Last(d.name)
  }

  /** The file and the name as written. */
  function Where(): Decl -> (string, Name) {
    (d: Decl) => (d.rel, d.name)
  }

  datatype Table = Table(fqnMap: map<Name, seq<nat>>, bareMap: map<Name, seq<nat>>,
                         pathNameMap: map<(string, Name), seq<nat>>)

  /** `dict.get(k, [])` */
  function Get<K, V>(m: map<K, seq<V>>, k: K): seq<V> {
    if k in m then m[k] else []
  }

  ghost predicate IndexOf<K(!new)>(m: map<K, seq<nat>>, decls: seq<Decl>, key: Decl -> K) {
    forall k :: Get(m, k) == Carrying(decls, key, k)
  }

  lemma EmptyIndex<K(!new)>(key: Decl -> K)
    ensures IndexOf(map[], [], key)
  {
  }

  lemma IndexMore<K(!new)>(m: map<K, seq<nat>>, decls: seq<Decl>, key: Decl -> K, d: Decl)
    requires IndexOf(m, decls, key)
    ensures IndexOf(m[key(d) := Get(m, key(d)) + [|decls|]], decls + [d], key)
  {
    assert (decls + [d])[..|decls|] == decls;
    forall k ensures Get(m[key(d) := Get(m, key(d)) + [|decls|]], k) == Carrying(decls + [d], key, k) {
      assert Carrying(decls, key, k) + [] == Carrying(decls, key, k);
    }
  }

  /** `Index.build`, whose maps list the declarations by full name, by last segment, and by
      file and name. */
  method Build(decls: seq<Decl>) returns (t: Table)
    ensures IndexOf(t.fqnMap, decls, Fqn()) && IndexOf(t.bareMap, decls, Bare())
    ensures IndexOf(t.pathNameMap, decls, Where())
  {
    hide IndexOf;
    var fqnMap: map<Name, seq<nat>>, bareMap: map<Name, seq<nat>> := map[], map[];
    var pathNameMap: map<(string, Name), seq<nat>> := map[];
    EmptyIndex(Where());
    EmptyIndex(Fqn());
    EmptyIndex(Bare());
    assert decls[..0] == [];
    for i := 0 to |decls|
      invariant IndexOf(fqnMap, decls[..i], Fqn()) && IndexOf(bareMap, decls[..i], Bare())
      invariant IndexOf(pathNameMap, decls[..i], Where())
    {
      var d := decls[i];
      assert decls[..i + 1] == decls[..i] + [d];
      IndexMore(fqnMap, decls[..i], Fqn(), d);
      IndexMore(bareMap, decls[..i], Bare(), d);
      IndexMore(pathNameMap, decls[..i], Where(), d);
      fqnMap := fqnMap[d.fqn := Get(fqnMap, d.fqn) + [i]];
      bareMap := bareMap[Last(d.name) := Get(bareMap, Last(d.name)) + [i]];
      pathNameMap := pathNameMap[(d.rel, d.name) := Get(pathNameMap, (d.rel, d.name)) + [i]];
    }
    assert decls[..|decls|] == decls;
    t := Table(fqnMap, bareMap, pathNameMap);
  }

  // ----- resolution

  /** Step 2: the candidate under each enclosing namespace, innermost first. */
  ghost function UnderAncestors(decls: seq<Decl>, token: Name, prefix: Name): seq<nat>
    decreases |prefix|
  {
    var hit := Carrying(decls, Fqn(), prefix + token);
    if hit != [] || prefix == [] then hit else UnderAncestors(decls, token, prefix[..|prefix| - 1])
  }

  /** Step 3: everything the aliases of the token name. */
  ghost function ThroughAliases(decls: seq<Decl>, names: seq<Name>): seq<nat> {
    if names == [] then []
    else ThroughAliases(decls, names[..|names| - 1]) + Carrying(decls, Fqn(), names[|names| - 1])
  }

  /** Step 4: the first opened namespace that has it. */
  ghost function ThroughOpens(decls: seq<Decl>, token: Name, spaces: seq<Name>): seq<nat> {
    if spaces == [] then []
    else
      var hit := Carrying(decls, Fqn(), spaces[0] + token);
      if hit != [] then hit else ThroughOpens(decls, token, spaces[1..])
  }

  function Prefix(n: Name): Name {
    if n == [] then [] else n[..|n| - 1]
  }

  /** What the scoping rules alone find. */
  ghost function InScope(decls: seq<Decl>, token: Name, d: Decl): seq<nat> {
    var exact := Carrying(decls, Fqn(), token);
    if exact != [] then exact
    else
      var enclosing := UnderAncestors(decls, token, Prefix(d.fqn));
      if enclosing != [] then enclosing
      else
        var aliased := ThroughAliases(decls, Get(d.openBare, token));
        if aliased != [] then aliased else ThroughOpens(decls, token, d.openNs)
  }

  /** The loose mode falls back to the last segment only where scoping finds nothing. */
  ghost function Resolved(decls: seq<Decl>, token: Name, d: Decl, loose: bool): seq<nat> {
    var hit := InScope(decls, token, d);
    if hit != [] || !loose then hit else Carrying(decls, Bare(), Last(token))
  }

  lemma {:induction false} AncestorsInside(decls: seq<Decl>, token: Name, prefix: Name)
    ensures forall i :: i in UnderAncestors(decls, token, prefix) ==> i < |decls|
    decreases |prefix|
  {
    if prefix == [] {
    } else {
      AncestorsInside(decls, token, prefix[..|prefix| - 1]);
    }
  }

  lemma {:induction false} AliasesInside(decls: seq<Decl>, names: seq<Name>)
    ensures forall i :: i in ThroughAliases(decls, names) ==> i < |decls|
  {
    if names == [] {
    } else {
      AliasesInside(decls, names[..|names| - 1]);
    }
  }

  lemma {:induction false} OpensInside(decls: seq<Decl>, token: Name, spaces: seq<Name>)
    ensures forall i :: i in ThroughOpens(decls, token, spaces) ==> i < |decls|
  {
    if spaces == [] {
    } else {
      OpensInside(decls, token, spaces[1..]);
    }
  }

  lemma {:induction false} CarryingInside(decls: seq<Decl>, token: Name, d: Decl, loose: bool)
    ensures forall i :: i in Resolved(decls, token, d, loose) ==> i < |decls|
  {
    AncestorsInside(decls, token, Prefix(d.fqn));
    AliasesInside(decls, Get(d.openBare, token));
    OpensInside(decls, token, d.openNs);
  }

  method Enclosing(t: Table, ghost decls: seq<Decl>, token: Name, start: Name) returns (r: seq<nat>)
    requires IndexOf(t.fqnMap, decls, Fqn())
    ensures r == UnderAncestors(decls, token, start)
  {
    var prefix := start;
    r := Get(t.fqnMap, prefix + token);
    while r == [] && prefix != []
      invariant r == Carrying(decls, Fqn(), prefix + token)
      invariant UnderAncestors(decls, token, start) == UnderAncestors(decls, token, prefix)
      decreases |prefix|
    {
      hide Carrying;
      prefix := prefix[..|prefix| - 1];
      r := Get(t.fqnMap, prefix + token);
    }
  }

  method Aliased(t: Table, ghost decls: seq<Decl>, names: seq<Name>) returns (r: seq<nat>)
    requires IndexOf(t.fqnMap, decls, Fqn())
    ensures r == ThroughAliases(decls, names)
  {
    hide Carrying;
    r := [];
    for i := 0 to |names|
      invariant r == ThroughAliases(decls, names[..i])
    {
      assert names[..i + 1][..i] == names[..i];
      r := r + Get(t.fqnMap, names[i]);
    }
    assert names[..|names|] == names;
  }

  method Opened(t: Table, ghost decls: seq<Decl>, token: Name, spaces: seq<Name>) returns (r: seq<nat>)
    requires IndexOf(t.fqnMap, decls, Fqn())
    ensures r == ThroughOpens(decls, token, spaces)
  {
    hide Carrying;
    for i := 0 to |spaces|
      invariant ThroughOpens(decls, token, spaces) == ThroughOpens(decls, token, spaces[i..])
    {
      assert spaces[i..][1..] == spaces[i + 1..];
      r := Get(t.fqnMap, spaces[i] + token);
      if r != [] { return; }
    }
    r := [];
  }

  // ----- what resolution finds, rule by rule

  /** The positions listed are exactly those of the declarations of a name, in table order. */
  ghost predicate ListsNamed(r: seq<nat>, decls: seq<Decl>, name: Name) {
    && (forall i :: i in r <==> 0 <= i < |decls| && decls[i].fqn == name)
    && (forall j, k :: 0 <= j < k < |r| ==> r[j] < r[k])
  }

  ghost predicate Declares(decls: seq<Decl>, name: Name) {
    exists i :: 0 <= i < |decls| && decls[i].fqn == name
  }

  /** The token is declared in the namespace of the first m segments of the reader's name. */
  ghost predicate EnclosedAt(decls: seq<Decl>, token: Name, d: Decl, m: int) {
    0 <= m < |d.fqn| && Declares(decls, d.fqn[..m] + token)
  }

  /** Some alias of the token names a declaration. */
  ghost predicate AliasNames(decls: seq<Decl>, token: Name, d: Decl, i: int) {
    0 <= i < |decls| && token in d.openBare && decls[i].fqn in d.openBare[token]
  }

  ghost predicate OpenedAt(decls: seq<Decl>, token: Name, d: Decl, k: int) {
    0 <= k < |d.openNs| && Declares(decls, d.openNs[k] + token)
  }

  ghost predicate SameLast(a: Name, b: Name) {
    if a == [] || b == [] then a == b else a[|a| - 1] == b[|b| - 1]
  }

  /** The rule that applies, and what it finds. */
  ghost predicate ResolvesTo(r: seq<nat>, decls: seq<Decl>, token: Name, d: Decl, loose: bool) {
    if Declares(decls, token) then ListsNamed(r, decls, token)
    else if exists m :: EnclosedAt(decls, token, d, m) then
      exists m :: EnclosedAt(decls, token, d, m) && (forall n :: m < n ==> !EnclosedAt(decls, token, d, n))
               && ListsNamed(r, decls, d.fqn[..m] + token)
    else if exists i :: AliasNames(decls, token, d, i) then
      forall i :: i in r <==> AliasNames(decls, token, d, i)
    else if exists k :: OpenedAt(decls, token, d, k) then
      exists k :: OpenedAt(decls, token, d, k) && (forall j :: j < k ==> !OpenedAt(decls, token, d, j))
               && ListsNamed(r, decls, d.openNs[k] + token)
    else if loose then
      && (forall i :: i in r <==> 0 <= i < |decls| && SameLast(decls[i].name, token))
      && (forall j, k :: 0 <= j < k < |r| ==> r[j] < r[k])
    else r == []
  }

  lemma CarryingStep<K>(decls: seq<Decl>, key: Decl -> K, k: K)
    requires decls != []
    ensures var n := |decls| - 1;
            Carrying(decls, key, k) == Carrying(decls[..n], key, k) + if key(decls[n]) == k then [n] else []
    ensures forall i: nat :: i < |decls| - 1 ==> decls[..|decls| - 1][i] == decls[i]
  {
  }

  lemma {:induction false} CarryingContents<K>(decls: seq<Decl>, key: Decl -> K, k: K)
    ensures forall i :: i in Carrying(decls, key, k) <==> 0 <= i < |decls| && key(decls[i]) == k
    ensures forall a, b :: 0 <= a < b < |Carrying(decls, key, k)| ==>
              Carrying(decls, key, k)[a] < Carrying(decls, key, k)[b]
  {
    if decls == [] {
    } else {
      var n := |decls| - 1;
      var earlier := Carrying(decls[..n], key, k);
      CarryingContents(decls[..n], key, k);
      CarryingStep(decls, key, k);
      hide Carrying;
      forall a | 0 <= a < |earlier| ensures earlier[a] < n { assert earlier[a] in earlier; }
    }
  }

  lemma NamedIsListed(decls: seq<Decl>, name: Name)
    ensures ListsNamed(Carrying(decls, Fqn(), name), decls, name)
    ensures Carrying(decls, Fqn(), name) != [] <==> Declares(decls, name)
  {
    CarryingContents(decls, Fqn(), name);
    var r := Carrying(decls, Fqn(), name);
    if r != [] { assert r[0] in r; }
    if i :| 0 <= i < |decls| && decls[i].fqn == name { assert i in r; }
  }

  lemma {:induction false} AncestorsLongest(decls: seq<Decl>, token: Name, d: Decl, m: nat)
    requires m < |d.fqn|
    ensures var r := UnderAncestors(decls, token, d.fqn[..m]);
            if r == [] then forall n :: n <= m ==> !EnclosedAt(decls, token, d, n)
            else exists n :: n <= m && EnclosedAt(decls, token, d, n)
                          && (forall k :: n < k <= m ==> !EnclosedAt(decls, token, d, k))
                          && ListsNamed(r, decls, d.fqn[..n] + token)
    decreases m
  {
    hide Carrying, Declares, ListsNamed;
    NamedIsListed(decls, d.fqn[..m] + token);
    if Declares(decls, d.fqn[..m] + token) {
      assert EnclosedAt(decls, token, d, m);
    } else if m == 0 {
    } else {
      assert d.fqn[..m][..m - 1] == d.fqn[..m - 1];
      AncestorsLongest(decls, token, d, m - 1);
    }
  }

  lemma {:induction false} AliasesContents(decls: seq<Decl>, names: seq<Name>)
    ensures forall i :: i in ThroughAliases(decls, names) <==> 0 <= i < |decls| && decls[i].fqn in names
  {
    hide Carrying;
    if names == [] {
    } else {
      var n := |names| - 1;
      AliasesContents(decls, names[..n]);
      CarryingContents(decls, Fqn(), names[n]);
      assert names == names[..n] + [names[n]];
    }
  }

  lemma {:induction false} OpensFirst(decls: seq<Decl>, token: Name, d: Decl, k: nat)
    requires k <= |d.openNs| && forall j :: j < k ==> !OpenedAt(decls, token, d, j)
    ensures var r := ThroughOpens(decls, token, d.openNs[k..]);
            if r == [] then forall j :: !OpenedAt(decls, token, d, j)
            else exists n :: OpenedAt(decls, token, d, n) && (forall j :: j < n ==> !OpenedAt(decls, token, d, j))
                          && ListsNamed(r, decls, d.openNs[n] + token)
    decreases |d.openNs| - k
  {
    hide Carrying, Declares, ListsNamed;
    if k == |d.openNs| {
    } else {
      NamedIsListed(decls, d.openNs[k] + token);
      assert d.openNs[k..][1..] == d.openNs[k + 1..];
      if Declares(decls, d.openNs[k] + token) {
        assert OpenedAt(decls, token, d, k);
      } else {
        OpensFirst(decls, token, d, k + 1);
      }
    }
  }

  lemma EnclosingFound(decls: seq<Decl>, token: Name, d: Decl)
    requires !Declares(decls, token)
    ensures var r := UnderAncestors(decls, token, Prefix(d.fqn));
            if r == [] then forall n :: !EnclosedAt(decls, token, d, n)
            else exists m :: EnclosedAt(decls, token, d, m) && (forall n :: m < n ==> !EnclosedAt(decls, token, d, n))
                          && ListsNamed(r, decls, d.fqn[..m] + token)
  {
    hide Carrying, Declares, ListsNamed;
    if d.fqn == [] {
      NamedIsListed(decls, token);
      assert [] + token == token;
    } else {
      AncestorsLongest(decls, token, d, |d.fqn| - 1);
    }
  }

  lemma AliasesFound(decls: seq<Decl>, token: Name, d: Decl)
    ensures forall i :: i in ThroughAliases(decls, Get(d.openBare, token)) <==> AliasNames(decls, token, d, i)
  {
    AliasesContents(decls, Get(d.openBare, token));
  }

  lemma NonEmptyHasMember(r: seq<nat>)
    ensures r != [] <==> exists i :: i in r
  {
    if r != [] { assert r[0] in r; }
  }

  lemma NothingBefore(decls: seq<Decl>, token: Name, d: Decl)
    ensures forall j :: j < 0 ==> !OpenedAt(decls, token, d, j)
  {
  }

  lemma LastSegment(a: Name, b: Name)
    ensures Last(a) == Last(b) <==> SameLast(a, b)
  {
  }

  /** The resolution order, as the rules that apply in turn. */
  lemma ResolvedByRules(decls: seq<Decl>, token: Name, d: Decl, loose: bool)
    ensures ResolvesTo(Resolved(decls, token, d, loose), decls, token, d, loose)
  {
    hide Carrying, Declares, ListsNamed, EnclosedAt, AliasNames, OpenedAt, UnderAncestors, ThroughAliases, ThroughOpens,
         Prefix, SameLast;
    NamedIsListed(decls, token);
    if !Declares(decls, token) {
      EnclosingFound(decls, token, d);
      AliasesFound(decls, token, d);
      NonEmptyHasMember(ThroughAliases(decls, Get(d.openBare, token)));
      assert d.openNs[0..] == d.openNs;
      NothingBefore(decls, token, d);
      OpensFirst(decls, token, d, 0);
      CarryingContents(decls, Bare(), Last(token));
      forall i | 0 <= i < |decls| ensures Bare()(decls[i]) == Last(token) <==> SameLast(decls[i].name, token) {
        LastSegment(decls[i].name, token);
      }
    }
  }

  /** `resolve` over the two dictionaries. */
  method Resolve(t: Table, ghost decls: seq<Decl>, token: Name, d: Decl, loose: bool) returns (r: seq<nat>)
    requires IndexOf(t.fqnMap, decls, Fqn()) && IndexOf(t.bareMap, decls, Bare())
    ensures r == Resolved(decls, token, d, loose)
    ensures ResolvesTo(r, decls, token, d, loose)
  {
    ResolvedByRules(decls, token, d, loose);
    hide ResolvesTo;
    hide Carrying, UnderAncestors, ThroughAliases, ThroughOpens;
    r := Get(t.fqnMap, token);
    if r != [] { return; }
    r := Enclosing(t, decls, token, Prefix(d.fqn));
    if r != [] { return; }
    r := Aliased(t, decls, Get(d.openBare, token));
    if r != [] { return; }
    r := Opened(t, decls, token, d.openNs);
    if r != [] || !loose { return; }
    r := Get(t.bareMap, Last(token));
  }

  // ----- the worklist

  /** Everything the first k identifiers of a body resolve to. */
  ghost function References(decls: seq<Decl>, i: nat, k: nat, loose: bool): (r: set<nat>)
    requires i < |decls| && k <= |decls[i].refs|
    ensures forall j :: j in r <==> exists m :: 0 <= m < k && j in Resolved(decls, decls[i].refs[m], decls[i], loose)
  {
    if k == 0 then {}
    else References(decls, i, k - 1, loose) + Members(Resolved(decls, decls[i].refs[k - 1], decls[i], loose))
  }

  /** The references of a declaration, as a graph over table positions. */
  ghost function Uses(decls: seq<Decl>, loose: bool): Graph<nat> {
    map i: nat | i < |decls| :: References(decls, i, |decls[i].refs|, loose)
  }

  ghost predicate ClosedUnder(g: Graph<nat>, s: set<nat>) {
    forall i, j :: i in s && j in Targets(g, i) ==> j in s
  }

  /** The least set that holds the roots and what its members use. */
  ghost predicate IsClosure(g: Graph<nat>, roots: set<nat>, r: set<nat>) {
    && roots <= r && ClosedUnder(g, r)
    && forall s :: roots <= s && ClosedUnder(g, s) ==> r <= s
  }

  /** Between two rounds: whatever was taken off the worklist has its uses visited, and
      nothing is visited without need. */
  ghost predicate Exploring(g: Graph<nat>, roots: set<nat>, visited: set<nat>, work: seq<nat>) {
    && roots <= visited
    && (forall i :: i in work ==> i in visited)
    && (forall i, j :: i in visited && i !in work && j in Targets(g, i) ==> j in visited)
    && (forall s :: roots <= s && ClosedUnder(g, s) ==> visited <= s)
  }

  lemma Started(g: Graph<nat>, start: set<nat>, roots: seq<nat>)
    requires start == Members(roots)
    ensures Exploring(g, start, start, roots)
  {
  }

  /** Between two additions: the worklist is the old one with what is newly visited. */
  ghost predicate Pushing(all: set<nat>, seen: set<nat>, before: seq<nat>, visited: set<nat>, work: seq<nat>) {
    && seen <= visited <= all
    && before <= work && |work| - |before| <= |visited| - |seen|
    && forall i :: i in work <==> i in before || (i in visited && i !in seen)
  }

  lemma PushOne(all: set<nat>, seen: set<nat>, before: seq<nat>, visited: set<nat>, work: seq<nat>, i: nat)
    requires Pushing(all, seen, before, visited, work) && i in all && i !in visited
    ensures Pushing(all, seen, before, visited + {i}, work + [i])
  {
  }

  /** Adds the candidates that are new, to the set and to the worklist. */
  method Push(visited0: set<nat>, work0: seq<nat>, hits: seq<nat>, ghost all: set<nat>, ghost seen: set<nat>,
              ghost before: seq<nat>)
    returns (visited: set<nat>, work: seq<nat>)
    requires Pushing(all, seen, before, visited0, work0) && forall i :: i in hits ==> i in all
    ensures visited == visited0 + Members(hits) && Pushing(all, seen, before, visited, work)
  {
    hide Pushing;
    visited, work := visited0, work0;
    for k := 0 to |hits|
      invariant visited == visited0 + Members(hits[..k]) && Pushing(all, seen, before, visited, work)
    {
      assert hits[..k + 1] == hits[..k] + [hits[k]];
      assert hits[k] in hits;
      if hits[k] !in visited {
        PushOne(all, seen, before, visited, work, hits[k]);
        visited := visited + {hits[k]};
        work := work + [hits[k]];
      }
    }
    assert hits[..|hits|] == hits;
  }

  lemma NoReferences(decls: seq<Decl>, d: nat, loose: bool)
    requires d < |decls|
    ensures References(decls, d, 0, loose) == {}
  {
  }

  lemma OneMoreReference(decls: seq<Decl>, d: nat, m: nat, loose: bool)
    requires d < |decls| && m < |decls[d].refs|
    ensures References(decls, d, m + 1, loose)
         == References(decls, d, m, loose) + Members(Resolved(decls, decls[d].refs[m], decls[d], loose))
  {
  }

  lemma StartPushing(all: set<nat>, seen: set<nat>, before: seq<nat>)
    requires seen <= all
    ensures Pushing(all, seen, before, seen, before)
  {
  }

  lemma HitsBelow(decls: seq<Decl>, hits: seq<nat>)
    requires forall i :: i in hits ==> i < |decls|
    ensures forall i :: i in hits ==> i in Below(|decls|)
  {
  }

  /** One declaration taken off the worklist: everything its identifiers name is visited. */
  method Round(t: Table, decls: seq<Decl>, d: nat, loose: bool, seen: set<nat>, before: seq<nat>, ghost all: set<nat>)
    returns (visited: set<nat>, work: seq<nat>)
    requires IndexOf(t.fqnMap, decls, Fqn()) && IndexOf(t.bareMap, decls, Bare())
    requires d < |decls| && all == Below(|decls|) && seen <= all
    ensures visited == seen + References(decls, d, |decls[d].refs|, loose) && Pushing(all, seen, before, visited, work)
  {
    visited, work := seen, before;
    hide *;
    NoReferences(decls, d, loose);
    StartPushing(all, seen, before);
    for m := 0 to |decls[d].refs|
      invariant visited == seen + References(decls, d, m, loose) && Pushing(all, seen, before, visited, work)
    {
      var hits := Resolve(t, decls, decls[d].refs[m], decls[d], loose);
      CarryingInside(decls, decls[d].refs[m], decls[d], loose);
      HitsBelow(decls, hits);
      OneMoreReference(decls, d, m, loose);
      visited, work := Push(visited, work, hits, all, seen, before);
    }
  }

  lemma TopVisited(g: Graph<nat>, roots: set<nat>, visited: set<nat>, work: seq<nat>)
    requires Exploring(g, roots, visited, work) && work != []
    ensures work[|work| - 1] in visited
  {
  }

  lemma Explored(decls: seq<Decl>, loose: bool, roots: set<nat>, seen: set<nat>, stack: seq<nat>,
                 visited: set<nat>, work: seq<nat>)
    requires stack != [] && stack[|stack| - 1] < |decls|
    requires Exploring(Uses(decls, loose), roots, seen, stack)
    requires visited == seen + References(decls, stack[|stack| - 1], |decls[stack[|stack| - 1]].refs|, loose)
    requires forall i :: i in work <==> i in stack[..|stack| - 1] || (i in visited && i !in seen)
    ensures Exploring(Uses(decls, loose), roots, visited, work)
  {
    hide References;
    var g, d := Uses(decls, loose), stack[|stack| - 1];
    assert Targets(g, d) == References(decls, d, |decls[d].refs|, loose);
    assert stack == stack[..|stack| - 1] + [d];
    forall i, j | i in visited && i !in work && j in Targets(g, i) ensures j in visited {
      assert i in seen && i !in stack[..|stack| - 1];
      if i != d { assert i !in stack; }
    }
    forall s | roots <= s && ClosedUnder(g, s) ensures visited <= s {
      assert d in seen && seen <= s;
      forall j | j in visited ensures j in s {
        if j !in seen { assert j in Targets(g, d); }
      }
    }
  }

  lemma PushedParts(all: set<nat>, seen: set<nat>, before: seq<nat>, visited: set<nat>, work: seq<nat>)
    requires Pushing(all, seen, before, visited, work)
    ensures seen <= visited <= all && |work| - |before| <= |visited| - |seen|
    ensures forall i :: i in work <==> i in before || (i in visited && i !in seen)
  {
  }

  /** A round visits something new or leaves a shorter worklist. */
  lemma Progress(all: set<nat>, seen: set<nat>, visited: set<nat>)
    requires seen <= visited <= all
    ensures visited == seen || |all - visited| < |all - seen|
    ensures |all - visited| <= |all - seen|
    ensures visited == seen <==> |visited| == |seen|
  {
    assert all - seen == (all - visited) + (visited - seen);
    assert visited == seen + (visited - seen);
  }

  lemma Finished(g: Graph<nat>, roots: set<nat>, visited: set<nat>)
    requires Exploring(g, roots, visited, [])
    ensures IsClosure(g, roots, visited)
  {
  }

  method Reachable(t: Table, decls: seq<Decl>, roots: seq<nat>, loose: bool) returns (visited: set<nat>)
    requires IndexOf(t.fqnMap, decls, Fqn()) && IndexOf(t.bareMap, decls, Bare())
    requires forall i :: i in roots ==> i < |decls|
    ensures IsClosure(Uses(decls, loose), Members(roots), visited)
  {
    ghost var g, start := Uses(decls, loose), Members(roots);
    ghost var all := Below(|decls|);
    visited := Members(roots);
    var work := roots;
    Started(g, start, roots);
    while work != []
      invariant Exploring(g, start, visited, work) && visited <= all
      decreases |all - visited|, |work|
    {
      hide *;
      var d := work[|work| - 1];
      ghost var seen, stack := visited, work;
      TopVisited(g, start, visited, work);
      visited, work := Round(t, decls, d, loose, visited, work[..|work| - 1], all);
      PushedParts(all, seen, stack[..|stack| - 1], visited, work);
      Explored(decls, loose, start, seen, stack, visited, work);
      Progress(all, seen, visited);
    }
    Finished(g, start, visited);
  }

  // ----- what the closure is

  ghost predicate WalkTo(g: Graph<nat>, roots: set<nat>, w: seq<nat>, n: nat) {
    Walk(g, w) && w[0] in roots && w[|w| - 1] == n
  }

  lemma {:induction false} WalkStays(g: Graph<nat>, roots: set<nat>, r: set<nat>, w: seq<nat>, k: nat)
    requires roots <= r && ClosedUnder(g, r) && Walk(g, w) && w[0] in roots && k < |w|
    ensures w[k] in r
  {
    if k == 0 {
    } else {
      WalkStays(g, roots, r, w, k - 1);
      assert w[k - 1 + 1] in Targets(g, w[k - 1]);
    }
  }

  lemma ExtendWalk(g: Graph<nat>, roots: set<nat>, w: seq<nat>, i: nat, j: nat)
    requires WalkTo(g, roots, w, i) && j in Targets(g, i)
    ensures WalkTo(g, roots, w + [j], j)
  {
    var v := w + [j];
    forall k | 0 <= k < |v| - 1 ensures v[k + 1] in Targets(g, v[k]) {
      if k < |w| - 1 { assert w[k + 1] in Targets(g, w[k]); }
    }
  }

  /** A declaration is in the closure exactly when a chain of uses leads to it from a root. */
  lemma ClosureIffWalk(g: Graph<nat>, roots: set<nat>, r: set<nat>, n: nat)
    requires IsClosure(g, roots, r)
    ensures n in r <==> exists w :: WalkTo(g, roots, w, n)
  {
    if w :| WalkTo(g, roots, w, n) { WalkStays(g, roots, r, w, |w| - 1); }
    if n in r {
      var reached := set m | m in r && exists w :: WalkTo(g, roots, w, m);
      forall m | m in roots ensures m in reached { assert WalkTo(g, roots, [m], m); }
      forall i, j | i in reached && j in Targets(g, i) ensures j in reached {
        var w :| WalkTo(g, roots, w, i);
        ExtendWalk(g, roots, w, i, j);
      }
      assert r <= reached;
    }
  }

  // ----- strict and loose

  /** Loose resolution adds hits only where strict resolution finds none. */
  lemma LooseExtendsStrict(decls: seq<Decl>, token: Name, d: Decl)
    ensures Resolved(decls, token, d, false) != [] ==>
            Resolved(decls, token, d, true) == Resolved(decls, token, d, false)
  {
  }

  lemma {:induction false} UsesGrow(decls: seq<Decl>, i: nat, k: nat)
    requires i < |decls| && k <= |decls[i].refs|
    ensures References(decls, i, k, false) <= References(decls, i, k, true)
  {
    if k == 0 {
    } else {
      UsesGrow(decls, i, k - 1);
      LooseExtendsStrict(decls, decls[i].refs[k - 1], decls[i]);
    }
  }

  /** Whatever strict resolution reaches, loose resolution reaches. */
  lemma StrictWithinLoose(decls: seq<Decl>, roots: set<nat>, strict: set<nat>, loose: set<nat>)
    requires IsClosure(Uses(decls, false), roots, strict) && IsClosure(Uses(decls, true), roots, loose)
    ensures strict <= loose
  {
    var g, h := Uses(decls, false), Uses(decls, true);
    forall i, j | i in loose && j in Targets(g, i) ensures j in loose {
      UsesGrow(decls, i, |decls[i].refs|);
      assert j in Targets(h, i);
    }
    assert ClosedUnder(g, loose);
  }

  // ----- `classify`

  datatype Consumption = NotFound | Consumed | LooseOnly | Unconsumed

  function Classify(found: seq<nat>, strict: set<nat>, loose: set<nat>): Consumption {
    if found == [] then NotFound
    else if exists i :: i in found && i in strict then Consumed
    else if exists i :: i in found && i in loose then LooseOnly
    else Unconsumed
  }

  /** `classify`: the declarations of that name in that file, looked up in the third map. */
  method ClassifyAt(t: Table, ghost decls: seq<Decl>, strict: set<nat>, loose: set<nat>, rel: string, name: Name)
    returns (verdict: Consumption)
    requires IndexOf(t.pathNameMap, decls, Where())
    ensures verdict == Classify(Carrying(decls, Where(), (rel, name)), strict, loose)
  {
    var found := Get(t.pathNameMap, (rel, name));
    if found == [] { return NotFound; }
    for i := 0 to |found|
      invariant forall k :: 0 <= k < i ==> found[k] !in strict
    {
      if found[i] in strict { return Consumed; }
    }
    for i := 0 to |found|
      invariant forall k :: 0 <= k < i ==> found[k] !in loose
    {
      if found[i] in loose { return LooseOnly; }
    }
    verdict := Unconsumed;
  }

  /** The declaration has that name in that file. */
  ghost predicate StandsAt(decls: seq<Decl>, rel: string, name: Name, i: int) {
    0 <= i < |decls| && decls[i].rel == rel && decls[i].name == name
  }

  /** A chain of uses leads from a root to a declaration of that name in that file. */
  ghost predicate Used(decls: seq<Decl>, roots: set<nat>, rel: string, name: Name, loose: bool) {
    exists n: nat, w :: StandsAt(decls, rel, name, n) && WalkTo(Uses(decls, loose), roots, w, n)
  }

  lemma UsedIffReached(decls: seq<Decl>, roots: set<nat>, reached: set<nat>, rel: string, name: Name, loose: bool)
    requires IsClosure(Uses(decls, loose), roots, reached)
    ensures Used(decls, roots, rel, name, loose)
       <==> exists i :: i in Carrying(decls, Where(), (rel, name)) && i in reached
  {
    hide Uses, IsClosure, Carrying, WalkTo;
    var found := Carrying(decls, Where(), (rel, name));
    CarryingContents(decls, Where(), (rel, name));
    assert forall i :: i in found <==> StandsAt(decls, rel, name, i);
    if n: nat, w :| StandsAt(decls, rel, name, n) && WalkTo(Uses(decls, loose), roots, w, n) {
      ClosureIffWalk(Uses(decls, loose), roots, reached, n);
      assert n in found && n in reached;
    }
    if i :| i in found && i in reached {
      ClosureIffWalk(Uses(decls, loose), roots, reached, i);
      assert StandsAt(decls, rel, name, i);
    }
  }

  /** Each verdict is about the chains of uses that lead to a declaration of the name: `loose
      only` means that there are some, but none whose every step the scoping rules support. */
  lemma VerdictMeans(decls: seq<Decl>, roots: set<nat>, strict: set<nat>, loose: set<nat>, rel: string, name: Name)
    requires IsClosure(Uses(decls, false), roots, strict) && IsClosure(Uses(decls, true), roots, loose)
    ensures var v := Classify(Carrying(decls, Where(), (rel, name)), strict, loose);
            && (v == NotFound <==> forall i :: !StandsAt(decls, rel, name, i))
            && (v == Consumed <==> Used(decls, roots, rel, name, false))
            && (v == LooseOnly <==> Used(decls, roots, rel, name, true) && !Used(decls, roots, rel, name, false))
            && (v == Unconsumed <==>
                 (exists i :: StandsAt(decls, rel, name, i)) && !Used(decls, roots, rel, name, true))
  {
    hide Uses, IsClosure, Carrying, Used;
    UsedIffReached(decls, roots, strict, rel, name, false);
    UsedIffReached(decls, roots, loose, rel, name, true);
    StrictWithinLoose(decls, roots, strict, loose);
    CarryingContents(decls, Where(), (rel, name));
    NonEmptyHasMember(Carrying(decls, Where(), (rel, name)));
    assert forall i :: i in Carrying(decls, Where(), (rel, name)) <==> StandsAt(decls, rel, name, i);
  }
}
