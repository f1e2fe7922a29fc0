/** `ResolveProject`: the nearest registered ancestor of a candidate, over live
    paths and aliases (src/read.rs). */
module Resolution {
  import opened Declaration
  import opened Like
  import opened Operations
  import opened Outcome
  import opened Paths
  import opened Registry
  import opened Syncs
  import opened Text

  /** What `ancestor_rows` selects. */
  datatype Found = Found(matched: string, resolved: string, status: Status, viaAlias: bool, sourceRepo: Option<string>)

  datatype Resolved = Resolved(resolvedPath: string, exact: bool, viaAlias: bool, status: Status, sourceRepo: string)

  /** The reserved segment is an ancestor of nothing. */
  function Climb(chain: seq<string>): seq<string> {
    if chain == [] then []
    else (if IsReservedRoot(chain[0]) then [] else [chain[0]]) + Climb(chain[1..])
  }

  function WalkChain(candidate: string): seq<string> {
    Climb(AncestorChain(candidate))
  }

  predicate Descending(chain: seq<string>) {
    forall i, j :: 0 <= i < j < |chain| ==> |chain[i]| > |chain[j]|
  }

  lemma ConsDescends(head: string, rest: seq<string>)
    requires Descending(rest) && forall q :: q in rest ==> |q| < |head|
    ensures Descending([head] + rest)
  {
  }

  lemma {:induction false} ClimbIs(chain: seq<string>)
    requires Descending(chain)
    ensures forall q :: q in Climb(chain) <==> q in chain && !IsReservedRoot(q)
    ensures Descending(Climb(chain))
  {
    if chain != [] {
      var rest := Climb(chain[1..]);
      ClimbIs(chain[1..]);
      assert forall q :: q in chain <==> q == chain[0] || q in chain[1..];
      assert forall q :: q in rest ==> |q| < |chain[0]|;
      ConsDescends(chain[0], rest);
      assert Climb(chain) == if IsReservedRoot(chain[0]) then rest else [chain[0]] + rest;
    }
  }

  /** The walk visits exactly the ancestors that are not the reserved root,
      deepest first, and always has somewhere to look. */
  lemma WalkIs(candidate: string)
    requires !IsReservedRoot(candidate)
    ensures forall q :: q in WalkChain(candidate) <==> IsAncestorOrSelf(q, candidate) && !IsReservedRoot(q)
    ensures Descending(WalkChain(candidate)) && WalkChain(candidate) != [] && WalkChain(candidate)[0] == candidate
  {
    ChainIsTheAncestors(candidate);
    ClimbIs(AncestorChain(candidate));
  }

  // ---- What a key names ----

  ghost predicate AliasNames(s: Store, key: string) {
    exists a :: a in s.aliases && Fold(a) == key && s.aliases[a] in s.projects
  }

  /** A live path, or a former path of a project that stands. */
  ghost predicate Registered(s: Store, key: string) {
    LiveAt(s, key) || AliasNames(s, key)
  }

  /** The project a key names: live before former. */
  ghost function TargetAt(s: Store, key: string): (id: Id)
    requires Registered(s, key)
    ensures id in s.projects
    ensures LiveAt(s, key) ==> Fold(s.projects[id].path) == key
    ensures !LiveAt(s, key) ==> exists a :: a in s.aliases && Fold(a) == key && s.aliases[a] == id
  {
    if LiveAt(s, key) then
      var id :| id in s.projects && Fold(s.projects[id].path) == key; id
    else
      var a :| a in s.aliases && Fold(a) == key && s.aliases[a] in s.projects; s.aliases[a]
  }

  /** The first entry of a chain that is registered. */
  ghost function Nearest(s: Store, chain: seq<string>): (q: Option<string>)
    ensures q.Some? ==> Registered(s, Fold(q.value))
  {
    if chain == [] then None
    else if Registered(s, Fold(chain[0])) then Some(chain[0])
    else Nearest(s, chain[1..])
  }

  lemma {:induction false} NearestIs(s: Store, chain: seq<string>)
    requires Descending(chain)
    ensures Nearest(s, chain).None? ==> forall p :: p in chain ==> !Registered(s, Fold(p))
    ensures Nearest(s, chain).Some? ==>
      var q := Nearest(s, chain).value;
      q in chain && Registered(s, Fold(q)) && forall p :: p in chain && |p| > |q| ==> !Registered(s, Fold(p))
  {
    if chain != [] && !Registered(s, Fold(chain[0])) {
      NearestIs(s, chain[1..]);
      assert forall p :: p in chain <==> p == chain[0] || p in chain[1..];
    }
  }

  function AnswerFrom(row: Row, exact: bool, viaAlias: bool): Resolved {
    Resolved(row.path, exact, exact && viaAlias, row.status, if row.sourceRepo.Some? then row.sourceRepo.value else "")
  }

  /** `ResolveProject` as a function of the registry. */
  ghost function Resolve(s: Store, candidate: string): Result<Resolved> {
    if !ValidPath(candidate) || IsReservedRoot(candidate) then Err(InvalidArgument)
    else
      match Nearest(s, WalkChain(candidate))
      case None => Err(NotFound)
      case Some(q) =>
        var key := Fold(q);
        Ok(AnswerFrom(s.projects[TargetAt(s, key)], key == Fold(candidate), !LiveAt(s, key)))
  }

  /** `q` is the deepest registered ancestor of the candidate, the reserved root
      never among them. */
  ghost predicate NearestAncestor(s: Store, candidate: string, q: string) {
    && IsAncestorOrSelf(q, candidate) && !IsReservedRoot(q) && Registered(s, Fold(q))
    && forall p :: IsAncestorOrSelf(p, candidate) && !IsReservedRoot(p) && |p| > |q| ==> !Registered(s, Fold(p))
  }

  /** The answer for a candidate matched by `q`: every column is that of the row
      `q` names, an absent repository the empty string, and only the candidate
      itself is matched exactly or through an alias. */
  ghost predicate AnswersFor(s: Store, candidate: string, q: string, a: Resolved)
    requires Registered(s, Fold(q))
  {
    var row := s.projects[TargetAt(s, Fold(q))];
    && a.resolvedPath == row.path
    && a.status == row.status
    && (row.sourceRepo.Some? ==> a.sourceRepo == row.sourceRepo.value)
    && (row.sourceRepo.None? ==> a.sourceRepo == "")
    && a.exact == (q == candidate) == Registered(s, Fold(candidate))
    && a.viaAlias == (q == candidate && !LiveAt(s, Fold(candidate)))
  }

  /** Nearest registered ancestor: the answer is the row named by the deepest
      registered ancestor, `exact` exactly when the candidate itself is
      registered; not found exactly when no ancestor is. */
  lemma ResolveIsNearestAncestor(s: Store, candidate: string)
    requires ValidPath(candidate) && !IsReservedRoot(candidate)
    ensures Resolve(s, candidate).Err? ==> Resolve(s, candidate).code == NotFound
    ensures Resolve(s, candidate).Err? ==> forall p :: IsAncestorOrSelf(p, candidate) && !IsReservedRoot(p) ==> !Registered(s, Fold(p))
    ensures Resolve(s, candidate).Ok? ==>
      exists q :: NearestAncestor(s, candidate, q) && AnswersFor(s, candidate, q, Resolve(s, candidate).value)
  {
    WalkIs(candidate);
    NearestIs(s, WalkChain(candidate));
    var near := Nearest(s, WalkChain(candidate));
    if near.Some? {
      var q := near.value;
      assert q in WalkChain(candidate);
      assert Fold(q) == Fold(candidate) ==> |q| == |candidate|;
      assert |candidate| > |q| ==> !Registered(s, Fold(candidate)) by {
        assert candidate in WalkChain(candidate);
      }
      assert NearestAncestor(s, candidate, q) && AnswersFor(s, candidate, q, Resolve(s, candidate).value);
    }
  }

  // ---- The query and the fold over its rows ----

  ghost predicate LiveFound(s: Store, id: Id, f: Found) {
    id in s.projects && var row := s.projects[id]; f == Found(row.path, row.path, row.status, false, row.sourceRepo)
  }

  ghost predicate AliasFound(s: Store, a: string, f: Found) {
    a in s.aliases && s.aliases[a] in s.projects &&
    var row := s.projects[s.aliases[a]]; f == Found(a, row.path, row.status, true, row.sourceRepo)
  }

  predicate InChain(chain: seq<string>, path: string) {
    exists q :: q in chain && Fold(q) == Fold(path)
  }

  /** A row of the two-armed query over this chain. */
  ghost predicate IsFound(s: Store, chain: seq<string>, f: Found) {
    InChain(chain, f.matched) && ((exists id :: LiveFound(s, id, f)) || exists a :: AliasFound(s, a, f))
  }

  /** The query's rows, in whatever order the engine returns them. */
  ghost predicate AncestorRows(s: Store, chain: seq<string>, found: seq<Found>) {
    forall f :: f in found <==> IsFound(s, chain, f)
  }

  /** The order `max_by_key` takes the maximum under. */
  predicate AtMost(f: Found, g: Found) {
    |f.matched| < |g.matched| || (|f.matched| == |g.matched| && (f.viaAlias || !g.viaAlias))
  }

  /** The last of the greatest rows. */
  method Best(found: seq<Found>) returns (best: Option<Found>)
    ensures best.None? <==> found == []
    ensures best.Some? ==> best.value in found && forall f :: f in found ==> AtMost(f, best.value)
  {
    best := None;
    for i := 0 to |found|
      invariant best.None? <==> i == 0
      invariant best.Some? ==> best.value in found[..i] && forall k :: 0 <= k < i ==> AtMost(found[k], best.value)
    {
      if best.None? || AtMost(best.value, found[i]) {
        best := Some(found[i]);
      }
    }
  }

  function AnswerOf(f: Found, candidate: string): Resolved {
    var exact := Fold(f.matched) == Fold(candidate);
    Resolved(f.resolved, exact, exact && f.viaAlias, f.status, if f.sourceRepo.Some? then f.sourceRepo.value else "")
  }

  lemma FoundIsRegistered(s: Store, chain: seq<string>, f: Found)
    requires IsFound(s, chain, f)
    ensures Registered(s, Fold(f.matched)) && InChain(chain, f.matched)
    ensures !f.viaAlias ==> LiveAt(s, Fold(f.matched))
  {
  }

  /** Rows at one key say one thing, once live paths are preferred. */
  lemma FoundIsTarget(s: Store, chain: seq<string>, f: Found)
    requires Schema(s) && IsFound(s, chain, f) && (f.viaAlias ==> !LiveAt(s, Fold(f.matched)))
    ensures Registered(s, Fold(f.matched))
    ensures var row := s.projects[TargetAt(s, Fold(f.matched))];
      f.resolved == row.path && f.status == row.status && f.sourceRepo == row.sourceRepo
    ensures f.viaAlias == !LiveAt(s, Fold(f.matched))
  {
  }

  lemma TargetIsFound(s: Store, chain: seq<string>, q: string) returns (f: Found)
    requires q in chain && Registered(s, Fold(q))
    ensures IsFound(s, chain, f) && Fold(f.matched) == Fold(q) && f.viaAlias == !LiveAt(s, Fold(q))
  {
    if LiveAt(s, Fold(q)) {
      var id := TargetAt(s, Fold(q));
      var row := s.projects[id];
      f := Found(row.path, row.path, row.status, false, row.sourceRepo);
      assert LiveFound(s, id, f);
    } else {
      var a :| a in s.aliases && Fold(a) == Fold(q) && s.aliases[a] in s.projects;
      var row := s.projects[s.aliases[a]];
      f := Found(a, row.path, row.status, true, row.sourceRepo);
      assert AliasFound(s, a, f);
    }
  }

  lemma BestIsDeepest(s: Store, chain: seq<string>, found: seq<Found>, best: Found)
    requires Descending(chain) && AncestorRows(s, chain, found)
    requires best in found && forall f :: f in found ==> AtMost(f, best)
    ensures Nearest(s, chain).Some? && Fold(best.matched) == Fold(Nearest(s, chain).value)
    ensures best.viaAlias ==> !LiveAt(s, Fold(best.matched))
  {
    FoundIsRegistered(s, chain, best);
    NearestIs(s, chain);
    var p :| p in chain && Fold(p) == Fold(best.matched);
    var q := Nearest(s, chain).value;
    var f := TargetIsFound(s, chain, q);
    assert |f.matched| == |q| && |best.matched| == |p|;
    assert AtMost(f, best);
    assert |p| == |q|;
    assert p == q;
  }

  /** The longest match, live before former, is the nearest registered ancestor,
      whatever order the rows come in. */
  lemma BestIsNearest(s: Store, chain: seq<string>, found: seq<Found>, best: Found)
    requires Schema(s) && Descending(chain) && AncestorRows(s, chain, found)
    requires best in found && forall f :: f in found ==> AtMost(f, best)
    ensures Nearest(s, chain).Some?
    ensures var key := Fold(Nearest(s, chain).value);
      && Fold(best.matched) == key && Registered(s, key) && best.viaAlias == !LiveAt(s, key)
      && var row := s.projects[TargetAt(s, key)];
         best.resolved == row.path && best.status == row.status && best.sourceRepo == row.sourceRepo
  {
    BestIsDeepest(s, chain, found, best);
    FoundIsTarget(s, chain, best);
  }

  lemma NothingFound(s: Store, chain: seq<string>)
    requires Descending(chain) && AncestorRows(s, chain, [])
    ensures Nearest(s, chain).None?
  {
    NearestIs(s, chain);
    if Nearest(s, chain).Some? {
      var f := TargetIsFound(s, chain, Nearest(s, chain).value);
    }
  }

  /** The rest of `resolve`, once the rows are in hand. */
  method ResolveFrom(ghost s: Store, candidate: string, found: seq<Found>) returns (r: Result<Resolved>)
    requires Schema(s) && ValidPath(candidate) && !IsReservedRoot(candidate)
    requires AncestorRows(s, WalkChain(candidate), found)
    ensures r == Resolve(s, candidate)
  {
    WalkIs(candidate);
    var best := Best(found);
    if best.None? {
      NothingFound(s, WalkChain(candidate));
      return Err(NotFound);
    }
    BestIsNearest(s, WalkChain(candidate), found, best.value);
    return Ok(AnswerOf(best.value, candidate));
  }

  // ---- Letter case ----

  function FoldAll(segments: seq<string>): (r: seq<string>)
    ensures |r| == |segments|
    ensures forall i :: 0 <= i < |segments| ==> r[i] == Fold(segments[i])
  {
    seq(|segments|, i requires 0 <= i < |segments| => Fold(segments[i]))
  }

  lemma NoSlashFolds(s: string)
    requires '/' !in s
    ensures '/' !in Fold(s)
  {
  }

  lemma FoldJoined(head: string, rest: string)
    ensures Fold(head + "/" + rest) == Fold(head) + "/" + Fold(rest)
  {
  }

  lemma SplitFoldsStep(head: string, rest: string)
    requires '/' !in head && Split(Fold(rest)) == FoldAll(Split(rest))
    ensures Split(Fold(head + "/" + rest)) == FoldAll(Split(head + "/" + rest))
  {
    NoSlashFolds(head);
    FoldJoined(head, rest);
    SplitCons(head, rest);
    SplitCons(Fold(head), Fold(rest));
    FoldAllCons(head, Split(rest));
  }

  lemma {:induction false} SplitFolds(s: string)
    ensures Split(Fold(s)) == FoldAll(Split(s))
    decreases |s|
  {
    var i := FirstSlash(s);
    if i < |s| {
      var head, rest := s[..i], s[i + 1..];
      assert s == head + "/" + rest && '/' !in head;
      SplitFolds(rest);
      SplitFoldsStep(head, rest);
    } else {
      NoSlashFolds(s);
      assert Split(s) == [s] && Split(Fold(s)) == [Fold(s)];
    }
  }

  lemma FoldAllCons(head: string, rest: seq<string>)
    ensures FoldAll([head] + rest) == [Fold(head)] + FoldAll(rest)
  {
  }

  lemma SegmentFolds(segment: string)
    ensures SegmentIsLegal(segment) <==> SegmentIsLegal(Fold(segment))
  {
  }

  lemma ValidFolds(path: string)
    ensures ValidPath(path) <==> ValidPath(Fold(path))
  {
    SplitFolds(path);
    forall i | 0 <= i < |Split(path)|
      ensures SegmentIsLegal(Split(path)[i]) <==> SegmentIsLegal(Split(Fold(path))[i])
    {
      SegmentFolds(Split(path)[i]);
    }
  }

  ghost predicate SameKeys(x: seq<string>, y: seq<string>) {
    |x| == |y| && forall i :: 0 <= i < |x| ==> Fold(x[i]) == Fold(y[i])
  }

  lemma {:induction false} ClimbFolds(x: seq<string>, y: seq<string>)
    requires SameKeys(x, y)
    ensures SameKeys(Climb(x), Climb(y))
  {
    if x != [] {
      ClimbFolds(x[1..], y[1..]);
    }
  }

  lemma {:induction false} NearestFolds(s: Store, x: seq<string>, y: seq<string>)
    requires SameKeys(x, y)
    ensures Nearest(s, x).Some? <==> Nearest(s, y).Some?
    ensures Nearest(s, x).Some? ==> Fold(Nearest(s, x).value) == Fold(Nearest(s, y).value)
  {
    if x != [] {
      NearestFolds(s, x[1..], y[1..]);
    }
  }

  /** Two spellings of one candidate get one answer. */
  lemma SpellingIsImmaterial(s: Store, a: string, b: string)
    requires Fold(a) == Fold(b)
    ensures Resolve(s, a) == Resolve(s, b)
  {
    ValidFolds(a);
    ValidFolds(b);
    ChainFolds(a);
    ChainFolds(b);
    assert forall i :: 0 <= i < |AncestorChain(a)| ==> AncestorChain(Fold(a))[i] == Fold(AncestorChain(a)[i]);
    assert SameKeys(AncestorChain(a), AncestorChain(b));
    ClimbFolds(AncestorChain(a), AncestorChain(b));
    NearestFolds(s, WalkChain(a), WalkChain(b));
  }

  // ---- Stability ----

  /** A registered key stays registered, to the same project, in the same way. */
  lemma RegisteredStays(s: Store, t: Store, key: string)
    requires Valid(s) && Valid(t) && Grows(s, t) && Registered(s, key)
    ensures Registered(t, key) && TargetAt(t, key) == TargetAt(s, key)
    ensures LiveAt(t, key) == LiveAt(s, key)
    ensures t.projects[TargetAt(t, key)].path == s.projects[TargetAt(s, key)].path
  {
  }

  /** Stable over whole runs: a candidate that resolves exactly goes on resolving
      exactly, to the same project under the same spelling and by the same kind
      of path; any other that resolves goes on resolving, and the ancestor it is
      matched by never gets shallower. */
  lemma ResolutionIsStable(s: Store, t: Store, candidate: string)
    requires Valid(s) && Valid(t) && Grows(s, t) && Resolve(s, candidate).Ok?
    ensures Resolve(t, candidate).Ok?
    ensures var before, after := Resolve(s, candidate).value, Resolve(t, candidate).value;
      before.exact ==> after.exact && after.resolvedPath == before.resolvedPath && after.viaAlias == before.viaAlias
    ensures Nearest(s, WalkChain(candidate)).Some? && Nearest(t, WalkChain(candidate)).Some?
    ensures |Nearest(t, WalkChain(candidate)).value| >= |Nearest(s, WalkChain(candidate)).value|
  {
    var chain := WalkChain(candidate);
    WalkIs(candidate);
    NearestIs(s, chain);
    NearestIs(t, chain);
    var q := Nearest(s, chain).value;
    RegisteredStays(s, t, Fold(q));
    var p := Nearest(t, chain).value;
    assert |q| <= |p|;
    if Fold(q) == Fold(candidate) {
      assert |q| == |candidate|;
      assert p in chain && |p| <= |candidate|;
      assert p == q;
    }
  }

  // ---- What a sync makes resolvable ----

  lemma ShownIsLive(s: Store, decl: seq<Declared>, i: nat)
    requires Shows(s, decl) && i < |decl|
    ensures LiveAt(s, decl[i].Key())
  {
    var x := (decl[i].Key(), decl[i].displayName, Some(decl[i].sourceRepo));
    assert x in DeclaredView(decl);
    assert x in ActiveView(s);
  }

  /** While the registry shows a declaration, every path at or beneath a declared
      one resolves, to a project at least as deep. */
  lemma DeclaredSubtreesResolve(s: Store, decl: seq<Declared>, i: nat, candidate: string)
    requires Shows(s, decl) && i < |decl| && OrgPath(decl[i].path)
    requires ValidPath(candidate) && !IsReservedRoot(candidate) && InSubtree(candidate, decl[i].path)
    ensures Resolve(s, candidate).Ok?
    ensures Nearest(s, WalkChain(candidate)).Some? && |Nearest(s, WalkChain(candidate)).value| >= |decl[i].path|
  {
    ShownIsLive(s, decl, i);
    SubtreeAgreesWithAncestors(candidate, decl[i].path);
    var q :| q in AncestorChain(candidate) && Fold(q) == decl[i].Key();
    ChainIsTheAncestors(candidate);
    WalkIs(candidate);
    assert q in WalkChain(candidate);
    NearestIs(s, WalkChain(candidate));
    assert |q| == |decl[i].path|;
  }
}
