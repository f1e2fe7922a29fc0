/** A sync's declaration: what is sent, what is refused before anything is
    opened, and the rows and grants it declares (src/write/sync.rs,
    src/write/grants.rs). */
module Declaration {
  import opened Outcome
  import opened Paths
  import opened Registry
  import opened Text

  const MAX_CHARS := 255
  const MAX_PRINCIPAL_CHARS := 64

  // ---- As sent ----

  datatype DeclaredGrant = DeclaredGrant(teamId: string, level: int)

  datatype DeclaredProject = DeclaredProject(
    path: string, displayName: string, sourceRepo: string, grants: seq<DeclaredGrant>)

  datatype SyncRequest = SyncRequest(
    userId: string, roots: seq<DeclaredProject>, projects: seq<DeclaredProject>,
    allowMassArchive: bool, allowMassRevoke: bool)

  // ---- As declared, after validation ----

  datatype Grant = Grant(team: string, level: Level)

  datatype Declared = Declared(path: string, displayName: string, sourceRepo: string, grants: seq<Grant>) {
    /** The case-folded key. */
    function Key(): string { Fold(path) }
  }

  /** `GrantLevel::try_from`, with the unspecified level refused. */
  function LevelOf(level: int): Option<Level> {
    if level == 1 then Some(Read) else if level == 2 then Some(ReadWrite) else None
  }

  predicate GrantOk(g: DeclaredGrant) {
    LevelOf(g.level).Some? && IsTeamId(g.teamId)
  }

  predicate GrantsOk(gs: seq<DeclaredGrant>) {
    && (forall i :: 0 <= i < |gs| ==> GrantOk(gs[i]))
    && (forall i, j :: 0 <= i < j < |gs| ==> gs[i].teamId != gs[j].teamId)
  }

  function GrantsOf(gs: seq<DeclaredGrant>): seq<Grant>
    requires GrantsOk(gs)
  {
    seq(|gs|, i requires 0 <= i < |gs| => Grant(gs[i].teamId, LevelOf(gs[i].level).value))
  }

  /** The grants keep what was sent: each team, and 1 as read, 2 as read-write. */
  predicate KeepsGrants(gs: seq<DeclaredGrant>, out: seq<Grant>) {
    && |out| == |gs|
    && forall i :: 0 <= i < |gs| ==>
         out[i].team == gs[i].teamId && ((gs[i].level == 1 && out[i].level == Read) || (gs[i].level == 2 && out[i].level == ReadWrite))
  }

  /** The row keeps what was sent, column by column. */
  predicate KeepsRow(d: DeclaredProject, out: Declared) {
    out.path == d.path && out.displayName == d.displayName && out.sourceRepo == d.sourceRepo && KeepsGrants(d.grants, out.grants)
  }

  /** `grants::validate`. */
  method ValidateGrants(gs: seq<DeclaredGrant>) returns (r: Result<seq<Grant>>)
    ensures r.Ok? <==> GrantsOk(gs)
    ensures r.Ok? ==> r.value == GrantsOf(gs) && KeepsGrants(gs, r.value)
    ensures r.Err? ==> r.code == InvalidArgument
  {
    var seen: set<string> := {};
    var out: seq<Grant> := [];
    for i := 0 to |gs|
      invariant GrantsOk(gs[..i])
      invariant seen == set k | 0 <= k < i :: gs[k].teamId
      invariant |out| == i && forall k :: 0 <= k < i ==> out[k] == Grant(gs[k].teamId, LevelOf(gs[k].level).value)
    {
      var g := gs[i];
      var level := LevelOf(g.level);
      if level.None? {
        return Err(InvalidArgument);
      }
      if !IsTeamId(g.teamId) {
        return Err(InvalidArgument);
      }
      if g.teamId in seen {
        return Err(InvalidArgument);
      }
      seen := seen + {g.teamId};
      out := out + [Grant(g.teamId, level.value)];
    }
    assert gs[..|gs|] == gs;
    return Ok(out);
  }

  /** One declared row's own checks: grammar, class, the column widths, the grants. */
  predicate RowOk(d: DeclaredProject) {
    && ValidPath(d.path) && !IsReservedRoot(d.path) && !IsPrivateClass(d.path)
    && 0 < |d.sourceRepo| <= MAX_CHARS
    && |d.displayName| <= MAX_CHARS
    && GrantsOk(d.grants)
  }

  function RowOf(d: DeclaredProject): Declared
    requires RowOk(d)
  {
    Declared(d.path, d.displayName, d.sourceRepo, GrantsOf(d.grants))
  }

  /** `row`. */
  method ValidateRow(d: DeclaredProject) returns (r: Result<Declared>)
    ensures r.Ok? <==> RowOk(d)
    ensures r.Ok? ==> r.value == RowOf(d)
    ensures r.Err? ==> r.code == InvalidArgument
  {
    var valid := Validate(d.path);
    if valid.Err? {
      return Err(valid.code);
    }
    if IsReservedRoot(d.path) || IsPrivateClass(d.path) || d.sourceRepo == "" {
      return Err(InvalidArgument);
    }
    if |d.sourceRepo| > MAX_CHARS || |d.displayName| > MAX_CHARS {
      return Err(InvalidArgument);
    }
    var grants := ValidateGrants(d.grants);
    if grants.Err? {
      return Err(grants.code);
    }
    return Ok(Declared(d.path, d.displayName, d.sourceRepo, grants.value));
  }

  predicate Distinct(paths: seq<string>) {
    forall i, j :: 0 <= i < j < |paths| ==> Fold(paths[i]) != Fold(paths[j])
  }

  function PathsOf(ds: seq<DeclaredProject>): seq<string> {
    seq(|ds|, i requires 0 <= i < |ds| => ds[i].path)
  }

  /** A declaration the store will look at: at least one root, every row well
      formed, every root one segment, every project beneath a root, and no path
      declared twice in any spelling. */
  predicate DeclarationOk(req: SyncRequest) {
    && 0 < |req.userId| <= MAX_PRINCIPAL_CHARS
    && req.roots != []
    && (forall i :: 0 <= i < |req.roots| ==> RowOk(req.roots[i]) && '/' !in req.roots[i].path)
    && (forall i :: 0 <= i < |req.projects| ==> ProjectOk(req.projects[i], req.roots))
    && Distinct(PathsOf(req.roots + req.projects))
  }

  predicate UnderARoot(path: string, roots: seq<DeclaredProject>) {
    '/' in path && exists r :: 0 <= r < |roots| && Fold(roots[r].path) == Root(Fold(path))
  }

  predicate ProjectOk(d: DeclaredProject, roots: seq<DeclaredProject>) {
    RowOk(d) && UnderARoot(d.path, roots)
  }

  function DeclaredOf(req: SyncRequest): seq<Declared>
    requires DeclarationOk(req)
  {
    var all := req.roots + req.projects;
    seq(|all|, i requires 0 <= i < |all| => RowOf(all[i]))
  }

  /** Every row is kept as it was sent, the roots before the projects. */
  lemma DeclaredKeepsRows(req: SyncRequest)
    requires DeclarationOk(req)
    ensures |DeclaredOf(req)| == |req.roots + req.projects|
    ensures forall i :: 0 <= i < |DeclaredOf(req)| ==> KeepsRow((req.roots + req.projects)[i], DeclaredOf(req)[i])
  {
  }

  /** What one row may hold. */
  lemma RowOkIff(d: DeclaredProject)
    ensures RowOk(d) <==>
      && ValidPath(d.path) && !IsReservedRoot(d.path) && !IsPrivateClass(d.path)
      && 1 <= |d.sourceRepo| <= 255 && |d.displayName| <= 255
      && (forall g :: g in d.grants ==> (g.level == 1 || g.level == 2) && IsTeamId(g.teamId))
      && (forall i, j :: 0 <= i < j < |d.grants| ==> d.grants[i].teamId != d.grants[j].teamId)
  {
    assert forall i :: 0 <= i < |d.grants| ==> d.grants[i] in d.grants;
  }

  /** What a declaration may hold. */
  lemma DeclarationOkIff(req: SyncRequest)
    ensures var all := req.roots + req.projects;
      DeclarationOk(req) <==>
        && 1 <= |req.userId| <= 64 && req.roots != []
        && (forall d :: d in all ==> RowOk(d))
        && (forall d :: d in req.roots ==> '/' !in d.path)
        && (forall d :: d in req.projects ==> '/' in d.path && exists r :: r in req.roots && Fold(r.path) == Root(Fold(d.path)))
        && (forall i, j :: 0 <= i < j < |all| ==> Fold(all[i].path) != Fold(all[j].path))
  {
    var all := req.roots + req.projects;
    assert forall d :: d in all <==> d in req.roots || d in req.projects;
    assert forall i :: 0 <= i < |req.roots| ==> req.roots[i] in req.roots;
    assert forall i :: 0 <= i < |req.projects| ==> req.projects[i] in req.projects;
    assert forall i :: 0 <= i < |all| ==> PathsOf(all)[i] == all[i].path;
  }

  predicate KeyUnderARoot(key: string, roots: set<string>) {
    '/' in key && Split(key)[0] in roots
  }

  /** The root set the loop collects answers whether a path is under a root. */
  lemma RootSetDecides(path: string, roots: seq<DeclaredProject>, keys: set<string>)
    requires keys == set k | 0 <= k < |roots| :: Fold(roots[k].path)
    ensures UnderARoot(path, roots) <==> KeyUnderARoot(Fold(path), keys)
  {
  }

  lemma DuplicatesDecide(req: SyncRequest, out: seq<Declared>)
    requires |out| == |req.roots| + |req.projects|
    requires forall k :: 0 <= k < |out| ==> out[k].path == (req.roots + req.projects)[k].path
    ensures seq(|out|, i requires 0 <= i < |out| => out[i].path) == PathsOf(req.roots + req.projects)
  {
  }

  lemma Assembled(req: SyncRequest, roots: seq<Declared>, projects: seq<Declared>)
    requires forall i :: 0 <= i < |req.roots| ==> RowOk(req.roots[i])
    requires forall i :: 0 <= i < |req.projects| ==> RowOk(req.projects[i])
    requires |roots| == |req.roots| && forall i :: 0 <= i < |roots| ==> roots[i] == RowOf(req.roots[i])
    requires |projects| == |req.projects| && forall i :: 0 <= i < |projects| ==> projects[i] == RowOf(req.projects[i])
    ensures forall k :: 0 <= k < |roots + projects| ==> (roots + projects)[k].path == (req.roots + req.projects)[k].path
    ensures DeclarationOk(req) ==> roots + projects == DeclaredOf(req)
  {
  }

  /** The part of `validate` that reads the roots. */
  method ValidateRoots(roots: seq<DeclaredProject>) returns (r: Result<seq<Declared>>, keys: set<string>)
    ensures r.Ok? <==> forall i :: 0 <= i < |roots| ==> RowOk(roots[i]) && '/' !in roots[i].path
    ensures r.Ok? ==> |r.value| == |roots| && forall i :: 0 <= i < |roots| ==> r.value[i] == RowOf(roots[i])
    ensures r.Ok? ==> keys == set k | 0 <= k < |roots| :: Fold(roots[k].path)
    ensures r.Err? ==> r.code == InvalidArgument
  {
    var out: seq<Declared> := [];
    keys := {};
    for i := 0 to |roots|
      invariant forall k :: 0 <= k < i ==> RowOk(roots[k]) && '/' !in roots[k].path
      invariant |out| == i && forall k :: 0 <= k < i ==> out[k] == RowOf(roots[k])
      invariant keys == set k | 0 <= k < i :: Fold(roots[k].path)
    {
      var row := ValidateRow(roots[i]);
      if row.Err? {
        r := Err(row.code);
        return;
      }
      if '/' in roots[i].path {
        r := Err(InvalidArgument);
        return;
      }
      keys := keys + {row.value.Key()};
      out := out + [row.value];
    }
    r := Ok(out);
  }

  method ValidateProject(roots: seq<DeclaredProject>, keys: set<string>, d: DeclaredProject) returns (r: Result<Declared>)
    requires keys == set k | 0 <= k < |roots| :: Fold(roots[k].path)
    ensures r.Ok? <==> ProjectOk(d, roots)
    ensures r.Ok? ==> r.value == RowOf(d)
    ensures r.Err? ==> r.code == InvalidArgument
  {
    r := ValidateRow(d);
    RootSetDecides(d.path, roots, keys);
    if r.Ok? && !KeyUnderARoot(r.value.Key(), keys) {
      return Err(InvalidArgument);
    }
  }

  /** The part of `validate` that reads the projects. */
  method ValidateProjects(roots: seq<DeclaredProject>, keys: set<string>, projects: seq<DeclaredProject>)
    returns (r: Result<seq<Declared>>)
    requires keys == set k | 0 <= k < |roots| :: Fold(roots[k].path)
    ensures r.Ok? <==> forall i :: 0 <= i < |projects| ==> ProjectOk(projects[i], roots)
    ensures r.Ok? ==> |r.value| == |projects| && forall i :: 0 <= i < |projects| ==> r.value[i] == RowOf(projects[i])
    ensures r.Err? ==> r.code == InvalidArgument
  {
    var out: seq<Declared> := [];
    for i := 0 to |projects|
      invariant forall k :: 0 <= k < i ==> ProjectOk(projects[k], roots)
      invariant |out| == i && forall k :: 0 <= k < i ==> out[k] == RowOf(projects[k])
    {
      var row := ValidateProject(roots, keys, projects[i]);
      if row.Err? {
        return Err(row.code);
      }
      out := out + [row.value];
    }
    return Ok(out);
  }

  /** `validate`: the whole request, or nothing. */
  method ValidateDeclaration(req: SyncRequest) returns (r: Result<seq<Declared>>)
    ensures r.Ok? <==> DeclarationOk(req)
    ensures r.Ok? ==> r.value == DeclaredOf(req)
    ensures r.Ok? ==> |r.value| == |req.roots + req.projects|
    ensures r.Ok? ==> forall i :: 0 <= i < |r.value| ==> KeepsRow((req.roots + req.projects)[i], r.value[i])
    ensures r.Err? ==> r.code == InvalidArgument
  {
    if req.userId == "" || |req.userId| > MAX_PRINCIPAL_CHARS || req.roots == [] {
      return Err(InvalidArgument);
    }
    var roots, keys := ValidateRoots(req.roots);
    if roots.Err? {
      return roots;
    }
    var projects := ValidateProjects(req.roots, keys, req.projects);
    if projects.Err? {
      return projects;
    }
    var out := roots.value + projects.value;
    var distinct := RefuseDuplicates(out);
    Assembled(req, roots.value, projects.value);
    DuplicatesDecide(req, out);
    if !distinct {
      return Err(InvalidArgument);
    }
    DeclaredKeepsRows(req);
    return Ok(out);
  }

  /** `refuse_duplicates`. */
  method RefuseDuplicates(rows: seq<Declared>) returns (distinct: bool)
    ensures distinct <==> Distinct(seq(|rows|, i requires 0 <= i < |rows| => rows[i].path))
  {
    var seen: set<string> := {};
    for i := 0 to |rows|
      invariant seen == set k | 0 <= k < i :: rows[k].Key()
      invariant forall j, k :: 0 <= j < k < i ==> rows[j].Key() != rows[k].Key()
    {
      if rows[i].Key() in seen {
        ghost var j :| 0 <= j < i && rows[j].Key() == rows[i].Key();
        ghost var paths := seq(|rows|, i requires 0 <= i < |rows| => rows[i].path);
        assert Fold(paths[j]) == Fold(paths[i]);
        return false;
      }
      seen := seen + {rows[i].Key()};
    }
    return true;
  }

  // ---- What the rest of the sync relies on ----

  ghost predicate Teamed(grants: seq<Grant>) {
    forall i, j :: 0 <= i < j < |grants| ==> grants[i].team != grants[j].team
  }

  ghost predicate TeamIds(grants: seq<Grant>) {
    forall g :: g in grants ==> IsTeamId(g.team)
  }

  /** Entry `i` sits at or beneath a declared row one segment long. */
  ghost predicate Rooted(decl: seq<Declared>, i: nat)
    requires i < |decl|
  {
    exists r :: 0 <= r < |decl| && '/' !in decl[r].path && decl[r].Key() == Root(decl[i].Key())
  }

  ghost predicate OrgPath(path: string) {
    ValidPath(path) && !IsReservedRoot(path) && !IsPrivateClass(path)
  }

  /** No two entries share a key. */
  ghost predicate Keyed(decl: seq<Declared>) {
    forall i, j {:trigger decl[i].Key(), decl[j].Key()} :: 0 <= i < j < |decl| ==> decl[i].Key() != decl[j].Key()
  }

  /** A validated declaration. */
  ghost predicate WellFormed(decl: seq<Declared>) {
    && decl != []
    && Keyed(decl)
    && (forall i {:trigger OrgPath(decl[i].path)} :: 0 <= i < |decl| ==> OrgPath(decl[i].path) && decl[i].sourceRepo != "")
    && (forall i {:trigger Teamed(decl[i].grants)} :: 0 <= i < |decl| ==> Teamed(decl[i].grants))
    && (forall i {:trigger TeamIds(decl[i].grants)} :: 0 <= i < |decl| ==> TeamIds(decl[i].grants))
    && (forall i {:trigger Rooted(decl, i)} :: 0 <= i < |decl| ==> Rooted(decl, i))
  }

  lemma ValidatedIsWellFormed(req: SyncRequest)
    requires DeclarationOk(req)
    ensures WellFormed(DeclaredOf(req))
  {
    var all := req.roots + req.projects;
    var decl := DeclaredOf(req);
    var n := |req.roots|;
    forall i, j | 0 <= i < j < |decl|
      ensures decl[i].Key() != decl[j].Key()
    {
      var paths := PathsOf(all);
      assert Fold(paths[i]) != Fold(paths[j]);
    }
    forall i | 0 <= i < |decl|
      ensures Rooted(decl, i)
    {
      FirstSlashFolds(decl[i].path);
      if i < n {
        assert all[i] == req.roots[i];
        assert Root(decl[i].Key()) == decl[i].Key();
        assert '/' !in decl[i].path;
      } else {
        assert all[i] == req.projects[i - n];
        var r :| 0 <= r < n && Fold(req.roots[r].path) == Root(Fold(decl[i].path));
        assert decl[r].path == req.roots[r].path;
      }
    }
  }

  ghost predicate FirstAt(decl: seq<Declared>, key: string, i: nat) {
    && i <= |decl|
    && (i < |decl| ==> decl[i].Key() == key)
    && (forall j :: 0 <= j < i ==> decl[j].Key() != key)
  }

  lemma {:induction false} FirstExists(decl: seq<Declared>, key: string)
    ensures exists i: nat :: FirstAt(decl, key, i)
  {
    if decl == [] || decl[0].Key() == key {
      assert FirstAt(decl, key, 0);
    } else {
      FirstExists(decl[1..], key);
      var i: nat :| FirstAt(decl[1..], key, i);
      assert forall j :: 1 <= j < |decl| ==> decl[j] == decl[1..][j - 1];
      assert FirstAt(decl, key, i + 1);
    }
  }

  /** Where a key is declared, or the length of the declaration. */
  ghost function IndexOf(decl: seq<Declared>, key: string): (i: nat)
    ensures FirstAt(decl, key, i)
  {
    FirstExists(decl, key);
    var i: nat :| FirstAt(decl, key, i);
    i
  }

  ghost predicate Declares(decl: seq<Declared>, key: string) {
    IndexOf(decl, key) < |decl|
  }

  lemma IndexOfDeclared(decl: seq<Declared>, i: nat)
    requires Keyed(decl) && i < |decl|
    ensures IndexOf(decl, decl[i].Key()) == i
  {
  }

  /** The level a declaration wants for a team on the row at `key`. */
  ghost function Wanted(decl: seq<Declared>, key: string, team: string): Option<Level> {
    var i := IndexOf(decl, key);
    if i < |decl| then LevelIn(decl[i].grants, team) else None
  }

  function LevelIn(grants: seq<Grant>, team: string): (l: Option<Level>)
    ensures l.Some? ==> Grant(team, l.value) in grants
    ensures l.None? ==> forall g :: g in grants ==> g.team != team
  {
    if grants == [] then None
    else if grants[0].team == team then Some(grants[0].level)
    else LevelIn(grants[1..], team)
  }

  lemma LevelInIsTheGrant(grants: seq<Grant>, g: Grant)
    requires Teamed(grants) && g in grants
    ensures LevelIn(grants, g.team) == Some(g.level)
  {
  }
}
