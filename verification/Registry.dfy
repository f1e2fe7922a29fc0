/** The tables of the registry, the constraints the engine keeps on them
    (src/schema.rs), and the statements the verbs send. */
module Registry {
  import opened Like
  import opened Outcome
  import opened Paths
  import opened Text

  /** A row's URN. Minted fresh; nothing reads inside it. */
  type Id = nat

  datatype Status = Active | Archived
  datatype Visibility = Private | Org
  datatype Level = Read | ReadWrite

  /** One row of `project`. `last_seen_at` is held in `Store.seen`. */
  datatype Row = Row(
    path: string,
    displayName: string,
    status: Status,
    sourceRepo: Option<string>,
    owner: Option<string>,
    visibility: Visibility,
    version: nat,
    createdBy: string,
    updatedBy: string)

  /** The primary key of `project_write`. */
  datatype LedgerKey = LedgerKey(projectId: string, userId: string, idemKey: string)

  /** What a claim's fingerprint is taken over: the whole request but its scope
      and its key. SHA-256 is taken to be injective, so the payload stands for
      its own digest. */
  datatype Payload = Payload(path: string, displayName: string, sourceRepo: string)

  /** What a response says of a row beside its content. */
  datatype Meta = Meta(
    id: Id, version: nat, projectId: string, ownerUserId: string, createdBy: string, updatedBy: string)

  /** One row of `project_write`. `None` is the empty response a claim starts
      with, which decodes as a response carrying no `Meta`. */
  datatype Claim = Claim(rpc: string, fingerprint: Payload, response: Option<Meta>)

  datatype Store = Store(
    projects: map<Id, Row>,
    aliases: map<string, Id>,
    grants: map<(Id, string), Level>,
    ledger: map<LedgerKey, Claim>,
    seen: map<Id, int>)

  const EmptyStore := Store(map[], map[], map[], map[], map[])

  predicate IsOrg(row: Row) {
    row.owner.None?
  }

  /** A live row at this folded path. */
  predicate LiveAt(s: Store, key: string) {
    exists id :: id in s.projects && Fold(s.projects[id].path) == key
  }

  predicate AliasAt(s: Store, key: string) {
    exists a :: a in s.aliases && Fold(a) == key
  }

  // ---- What the schema keeps ----

  /** `ck_project_class` and `ck_project_class_path`. */
  predicate RowChecks(row: Row) {
    && (row.sourceRepo.Some? <==> row.owner.None?)
    && (row.owner.Some? <==> Matches(row.path, "local/%"))
  }

  /** `uq_project_path`. */
  ghost predicate PathsUnique(projects: map<Id, Row>) {
    forall i, j {:trigger Fold(projects[i].path), Fold(projects[j].path)} ::
      i in projects && j in projects && Fold(projects[i].path) == Fold(projects[j].path) ==> i == j
  }

  /** The alias primary key, under the column's collation. */
  ghost predicate AliasesUnique(aliases: map<string, Id>) {
    forall a, b {:trigger Fold(a), Fold(b)} :: a in aliases && b in aliases && Fold(a) == Fold(b) ==> a == b
  }

  ghost predicate Schema(s: Store) {
    && PathsUnique(s.projects)
    && (forall id {:trigger RowChecks(s.projects[id])} :: id in s.projects ==> RowChecks(s.projects[id]))
    && AliasesUnique(s.aliases)
    && (forall g :: g in s.grants ==> g.0 in s.projects)
    && s.seen.Keys <= s.projects.Keys
  }

  /** The schema reads a row's class off its path, as the Rust side does: private
      rows have an owner and no repository, all others a repository and no owner. */
  lemma ClassIsThePath(s: Store, id: Id)
    requires Schema(s) && id in s.projects
    ensures var row := s.projects[id];
      if IsPrivateClass(row.path) then row.owner.Some? && row.sourceRepo.None? else row.owner.None? && row.sourceRepo.Some?
  {
    assert RowChecks(s.projects[id]);
    ClassCheckAgrees(s.projects[id].path);
  }

  // ---- What only the Rust side keeps ----

  /** No single constraint can say that a path is never both live and an alias. */
  ghost predicate NamespacesDisjoint(s: Store) {
    forall a, id {:trigger Fold(a), Fold(s.projects[id].path)} ::
      a in s.aliases && id in s.projects ==> Fold(a) != Fold(s.projects[id].path)
  }

  predicate LegalPath(path: string) {
    ValidPath(path) && !IsReservedRoot(path)
  }

  ghost predicate PathsLegal(s: Store) {
    forall id {:trigger LegalPath(s.projects[id].path)} :: id in s.projects ==> LegalPath(s.projects[id].path)
  }

  ghost predicate GrantsOnOrgRows(s: Store) {
    forall g :: g in s.grants ==> g.0 in s.projects && IsOrg(s.projects[g.0])
  }

  const TEAM_PREFIX := "yadgar:team:"
  const MAX_TEAM_NAME_CHARS := 63

  /** `is_team_id`: the prefix, a lower-case letter, then up to 62 more. */
  predicate IsTeamId(id: string) {
    && TEAM_PREFIX <= id
    && var name := id[|TEAM_PREFIX|..];
    && 0 < |name| <= MAX_TEAM_NAME_CHARS
    && 'a' <= name[0] <= 'z'
    && forall i :: 1 <= i < |name| ==> 'a' <= name[i] <= 'z' || '0' <= name[i] <= '9' || name[i] == '-'
  }

  predicate TeamNameCharacter(c: char) {
    'a' <= c <= 'z' || '0' <= c <= '9' || c == '-'
  }

  /** The prefix, a lower-case letter and up to 62 characters more. */
  predicate SpellsTeam(id: string, first: char, rest: string) {
    && id == "yadgar:team:" + [first] + rest && 'a' <= first <= 'z' && |rest| <= 62
    && forall i :: 0 <= i < |rest| ==> TeamNameCharacter(rest[i])
  }

  lemma SpelledIsTeamId(id: string, first: char, rest: string)
    requires SpellsTeam(id, first, rest)
    ensures IsTeamId(id)
  {
    assert id[|TEAM_PREFIX|..] == [first] + rest;
    assert id[..|TEAM_PREFIX|] == TEAM_PREFIX;
  }

  lemma TeamIdIsSpelled(id: string) returns (first: char, rest: string)
    requires IsTeamId(id)
    ensures SpellsTeam(id, first, rest)
  {
    var name := id[|TEAM_PREFIX|..];
    first, rest := name[0], name[1..];
    assert id == TEAM_PREFIX + ([first] + rest);
  }

  /** A team id is exactly what is spelled so. */
  lemma TeamIdIff(id: string)
    ensures IsTeamId(id) <==> exists first, rest :: SpellsTeam(id, first, rest)
  {
    if IsTeamId(id) {
      var first, rest := TeamIdIsSpelled(id);
    }
    if first, rest :| SpellsTeam(id, first, rest) {
      SpelledIsTeamId(id, first, rest);
    }
  }

  ghost predicate GrantsNameTeams(s: Store) {
    forall g :: g in s.grants ==> IsTeamId(g.1)
  }

  /** Every private row is marked so and lies under the account segment of its
      owner. */
  ghost predicate OwnersOwn(s: Store) {
    forall id {:trigger OwnedRow(s.projects[id])} :: id in s.projects ==> OwnedRow(s.projects[id])
  }

  predicate OwnedRow(row: Row) {
    && (row.visibility.Private? <==> row.owner.Some?)
    && (row.owner.Some? ==> OwnsPath(row.owner.value, row.path))
  }

  predicate ActiveOrg(row: Row) {
    IsOrg(row) && row.status.Active?
  }

  /** An active org row at the root of this folded path. */
  ghost predicate AnchorOf(s: Store, key: string) {
    exists root :: root in s.projects && ActiveOrg(s.projects[root]) && Fold(s.projects[root].path) == Root(key)
  }

  /** Every active org row lies at or beneath an active row one segment long. */
  ghost predicate Anchored(s: Store) {
    forall id {:trigger AnchorOf(s, Fold(s.projects[id].path))} ::
      id in s.projects && ActiveOrg(s.projects[id]) ==> AnchorOf(s, Fold(s.projects[id].path))
  }

  ghost predicate Rules(s: Store) {
    NamespacesDisjoint(s) && PathsLegal(s) && GrantsOnOrgRows(s) && GrantsNameTeams(s) && OwnersOwn(s) && Anchored(s)
  }

  ghost predicate Valid(s: Store) {
    Schema(s) && Rules(s)
  }

  // ---- Statements ----

  /** The statements that change a table. */
  datatype Write =
    | InsertRow(id: Id, row: Row)
    | UpdateRow(id: Id, displayName: string, sourceRepo: string, actor: string)
    | ArchiveRows(ids: set<Id>, actor: string)
    | DeleteGrant(id: Id, team: string)
    | SetLevel(id: Id, team: string, level: Level)
    | InsertGrant(id: Id, team: string, level: Level)
    | InsertClaim(key: LedgerKey, claim: Claim)
    | RecordResponse(key: LedgerKey, meta: Meta)
    | SeeRows(ids: set<Id>, at: int)

  function Updated(row: Row, displayName: string, sourceRepo: string, actor: string): Row {
    row.(displayName := displayName, sourceRepo := Some(sourceRepo), status := Active,
         version := row.version + 1, updatedBy := actor)
  }

  function ArchivedRow(row: Row, actor: string): Row {
    row.(status := Archived, version := row.version + 1, updatedBy := actor)
  }

  function ArchivedAmong(projects: map<Id, Row>, ids: set<Id>, actor: string): map<Id, Row> {
    map id | id in projects :: if id in ids then ArchivedRow(projects[id], actor) else projects[id]
  }

  function SeenAt(ids: set<Id>, at: int): map<Id, int> {
    map id | id in ids :: at
  }

  /** One statement: the tables it leaves, or `None` when the engine refuses it
      on a unique index, a CHECK or a foreign key. */
  function Exec(s: Store, w: Write): Option<Store> {
    match w
    case InsertRow(id, row) =>
      if id in s.projects || LiveAt(s, Fold(row.path)) || !RowChecks(row) then None
      else Some(s.(projects := s.projects[id := row]))
    case UpdateRow(id, name, repo, actor) =>
      if id !in s.projects then Some(s)
      else if !RowChecks(Updated(s.projects[id], name, repo, actor)) then None
      else Some(s.(projects := s.projects[id := Updated(s.projects[id], name, repo, actor)]))
    case ArchiveRows(ids, actor) =>
      Some(s.(projects := ArchivedAmong(s.projects, ids, actor)))
    case DeleteGrant(id, team) =>
      Some(s.(grants := s.grants - {(id, team)}))
    case SetLevel(id, team, level) =>
      Some(if (id, team) in s.grants then s.(grants := s.grants[(id, team) := level]) else s)
    case InsertGrant(id, team, level) =>
      if (id, team) in s.grants || id !in s.projects then None
      else Some(s.(grants := s.grants[(id, team) := level]))
    case InsertClaim(key, claim) =>
      if key in s.ledger then None else Some(s.(ledger := s.ledger[key := claim]))
    case RecordResponse(key, meta) =>
      Some(if key in s.ledger then s.(ledger := s.ledger[key := s.ledger[key].(response := Some(meta))]) else s)
    case SeeRows(ids, at) =>
      Some(s.(seen := s.seen + SeenAt(ids * s.projects.Keys, at)))
  }

  /** An accepted statement breaks no constraint of the schema, and an accepted
      insert replaces nothing. */
  lemma ExecKeepsSchema(s: Store, w: Write)
    requires Schema(s) && Exec(s, w).Some?
    ensures Schema(Exec(s, w).value)
    ensures w.InsertRow? ==> w.id !in s.projects
    ensures w.InsertGrant? ==> (w.id, w.team) !in s.grants
    ensures w.InsertClaim? ==> w.key !in s.ledger
  {
    var t := Exec(s, w).value;
    forall id | id in t.projects
      ensures RowChecks(t.projects[id])
    {
      assert id in s.projects ==> RowChecks(s.projects[id]);
    }
  }

  /** The states a run of statements passes through, none of them refused. */
  ghost predicate Runs(s: Store, ws: seq<Write>, states: seq<Store>) {
    && |states| == |ws| + 1
    && states[0] == s
    && forall i :: 0 <= i < |ws| ==> Exec(states[i], ws[i]) == Some(states[i + 1])
  }

  /** Executed in order, the statements take `s` to `t` and none is refused. */
  ghost predicate Reaches(s: Store, ws: seq<Write>, t: Store) {
    exists states :: Runs(s, ws, states) && states[|ws|] == t
  }

  lemma ReachesNone(s: Store)
    ensures Reaches(s, [], s)
  {
    assert Runs(s, [], [s]);
  }

  lemma ReachesOne(s: Store, w: Write, t: Store)
    ensures Reaches(s, [w], t) <==> Exec(s, w) == Some(t)
  {
    if Exec(s, w) == Some(t) {
      assert Runs(s, [w], [s, t]);
    }
    if Reaches(s, [w], t) {
      var states :| Runs(s, [w], states) && states[1] == t;
      assert Exec(states[0], [w][0]) == Some(states[0 + 1]);
    }
  }

  lemma ReachesThree(s: Store, a: Write, t: Store, b: Write, u: Store, c: Write, v: Store)
    requires Exec(s, a) == Some(t) && Exec(t, b) == Some(u) && Exec(u, c) == Some(v)
    ensures Reaches(s, [a, b, c], v)
  {
    ReachesOne(s, a, t);
    ReachesOne(t, b, u);
    ReachesOne(u, c, v);
    ReachesConcat(s, [a], t, [b], u);
    ReachesConcat(s, [a] + [b], u, [c], v);
    assert [a] + [b] + [c] == [a, b, c];
  }

  lemma ReachesConcat(s: Store, a: seq<Write>, t: Store, b: seq<Write>, u: Store)
    requires Reaches(s, a, t) && Reaches(t, b, u)
    ensures Reaches(s, a + b, u)
  {
    var x :| Runs(s, a, x) && x[|a|] == t;
    var y :| Runs(t, b, y) && y[|b|] == u;
    var z := x + y[1..];
    forall i | 0 <= i < |a + b|
      ensures Exec(z[i], (a + b)[i]) == Some(z[i + 1])
    {
      if i < |a| {
        assert Exec(x[i], a[i]) == Some(x[i + 1]);
      } else {
        assert z[i] == y[i - |a|];
        assert Exec(y[i - |a|], b[i - |a|]) == Some(y[i - |a| + 1]);
      }
    }
    assert Runs(s, a + b, z);
  }

  lemma {:induction false} RunsUnique(s: Store, ws: seq<Write>, x: seq<Store>, y: seq<Store>, k: nat)
    requires Runs(s, ws, x) && Runs(s, ws, y) && k <= |ws|
    ensures x[k] == y[k]
  {
    if k > 0 {
      RunsUnique(s, ws, x, y, k - 1);
      assert Exec(x[k - 1], ws[k - 1]) == Some(x[k - 1 + 1]);
      assert Exec(y[k - 1], ws[k - 1]) == Some(y[k - 1 + 1]);
    }
  }

  lemma ReachesUnique(s: Store, ws: seq<Write>, t: Store, u: Store)
    requires Reaches(s, ws, t) && Reaches(s, ws, u)
    ensures t == u
  {
    var x :| Runs(s, ws, x) && x[|ws|] == t;
    var y :| Runs(s, ws, y) && y[|ws|] == u;
    RunsUnique(s, ws, x, y, |ws|);
  }

  /** Every prefix of an accepted run is accepted, and what follows it runs on. */
  lemma ReachesPrefix(s: Store, ws: seq<Write>, t: Store, k: nat) returns (mid: Store)
    requires Reaches(s, ws, t) && k <= |ws|
    ensures Reaches(s, ws[..k], mid) && Reaches(mid, ws[k..], t)
  {
    var x :| Runs(s, ws, x) && x[|ws|] == t;
    mid := x[k];
    forall i | 0 <= i < k
      ensures Exec(x[..k + 1][i], ws[..k][i]) == Some(x[..k + 1][i + 1])
    {
      assert Exec(x[i], ws[i]) == Some(x[i + 1]);
    }
    assert Runs(s, ws[..k], x[..k + 1]);
    forall i | 0 <= i < |ws| - k
      ensures Exec(x[k..][i], ws[k..][i]) == Some(x[k..][i + 1])
    {
      assert Exec(x[k + i], ws[k + i]) == Some(x[k + i + 1]);
    }
    assert Runs(mid, ws[k..], x[k..]);
  }
}
