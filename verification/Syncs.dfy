/** One sync as a step of the registry, and what it guarantees: convergence,
    idempotence, accounting, and the invariants (src/write/sync.rs). */
module Syncs {
  import opened Declaration
  import opened GrantPlans
  import opened Like
  import opened Outcome
  import opened Paths
  import opened Reconcile
  import opened Registry
  import opened Text

  datatype Guards = Guards(allowMassArchive: bool, allowMassRevoke: bool)

  datatype SyncResponse = SyncResponse(
    inserted: nat, updated: nat, reactivated: nat, kept: nat, archived: nat,
    grantsDeclared: nat, grantsInserted: nat, grantsDeleted: nat, grantsKept: nat)

  /** How many of the first `k` declared rows meet this fate. */
  ghost function CountFate(s: Store, decl: seq<Declared>, f: Fate, k: nat): nat {
    if k == 0 || k > |decl| then 0
    else CountFate(s, decl, f, k - 1) + if FateOf(s, decl[k - 1]) == f then 1 else 0
  }

  function DeclaredGrants(decl: seq<Declared>, k: nat): nat {
    if k == 0 || k > |decl| then 0 else DeclaredGrants(decl, k - 1) + |decl[k - 1].grants|
  }

  ghost predicate OnAlias(s: Store, decl: seq<Declared>) {
    exists i :: 0 <= i < |decl| && AliasAt(s, decl[i].Key())
  }

  /** The refusals the transaction can meet, in the order it meets them. */
  ghost function Refusal(s: Store, decl: seq<Declared>, guards: Guards): Option<Code> {
    if OnAlias(s, decl) then Some(AlreadyExists)
    else if !guards.allowMassArchive && |ToArchive(s, decl)| * 2 > |ActiveRows(s)| then Some(FailedPrecondition)
    else if !guards.allowMassRevoke && |RevokedPairs(s, decl)| * 2 > |OrgGrants(s)| then Some(FailedPrecondition)
    else None
  }

  ghost function Response(s: Store, decl: seq<Declared>): SyncResponse {
    var n := |decl|;
    SyncResponse(
      CountFate(s, decl, Insert, n), CountFate(s, decl, Update, n), CountFate(s, decl, Reactivate, n),
      CountFate(s, decl, Keep, n), |ToArchive(s, decl)|,
      DeclaredGrants(decl, n), |AddedPairs(s, decl)|, |RevokedPairs(s, decl)|, |KeptPairs(s, decl)|)
  }

  /** A validated sync, run alone: its answer and the registry it leaves. */
  ghost function Sync(s: Store, decl: seq<Declared>, actor: string, guards: Guards, mint: seq<Id>): (Result<SyncResponse>, Store) {
    match Refusal(s, decl, guards)
    case Some(code) => (Err(code), s)
    case None => (Ok(Response(s, decl)), Converged(s, decl, actor, mint))
  }

  // ---- Every settled row ----

  /** A stored row after a sync: private rows as they were, a declared row
      active with its declared content, any other org row archived; the version
      moves by one, and the actor is stamped, exactly when the row changed. */
  lemma SettledRowIs(s: Store, decl: seq<Declared>, actor: string, mint: seq<Id>, id: Id)
    requires Fresh(s, decl, mint) && id in s.projects
    ensures var row, row' := s.projects[id], SettledRows(s, decl, actor, mint)[id];
      var i := IndexOf(decl, Fold(row.path));
      && row'.path == row.path && row'.owner == row.owner && row'.createdBy == row.createdBy && row'.visibility == row.visibility
      && (!IsOrg(row) ==> row' == row)
      && (IsOrg(row) && i < |decl| ==> row'.status.Active? && SameContent(row', decl[i]))
      && (IsOrg(row) && i == |decl| ==> row'.status.Archived? && row'.displayName == row.displayName && row'.sourceRepo == row.sourceRepo)
      && row'.version == (if row' == row then row.version else row.version + 1)
      && row'.updatedBy == (if row' == row then row.updatedBy else actor)
  {
    MintedIs(s, decl, actor, mint, |decl|);
  }

  /** Every declared path ends as one active org row with the declared content. */
  lemma DeclaredRowIs(s: Store, decl: seq<Declared>, actor: string, mint: seq<Id>, i: nat)
    requires Schema(s) && WellFormed(decl) && Fresh(s, decl, mint) && i < |decl|
    ensures var rows := SettledRows(s, decl, actor, mint);
      var id := RowIdAt(rows, decl[i].Key());
      id in rows && ActiveOrg(rows[id]) && Fold(rows[id].path) == decl[i].Key() && SameContent(rows[id], decl[i])
  {
    var rows := SettledRows(s, decl, actor, mint);
    var id := RowIdAt(rows, decl[i].Key());
    DeclaredRowExists(s, decl, actor, mint, i);
    IndexOfDeclared(decl, i);
    if HasOrg(s, decl[i].Key()) {
      SettledRowIs(s, decl, actor, mint, id);
    } else {
      MintedHasRow(s, decl, actor, mint, i);
    }
  }

  lemma MintedHasRow(s: Store, decl: seq<Declared>, actor: string, mint: seq<Id>, i: nat)
    requires WellFormed(decl) && Fresh(s, decl, mint) && i < |decl| && !HasOrg(s, decl[i].Key())
    ensures mint[i] in SettledRows(s, decl, actor, mint)
    ensures SettledRows(s, decl, actor, mint)[mint[i]] == NewRow(decl[i], actor)
  {
    MintedIs(s, decl, actor, mint, |decl|);
    var j :| 0 <= j < |decl| && mint[j] == mint[i] && Minted(s, decl, actor, mint, |decl|)[mint[i]] == NewRow(decl[j], actor);
  }

  /** An active org row after a sync is a declared one. */
  lemma ActiveIsDeclared(s: Store, decl: seq<Declared>, actor: string, mint: seq<Id>, id: Id)
    requires WellFormed(decl) && Fresh(s, decl, mint)
    requires id in SettledRows(s, decl, actor, mint) && ActiveOrg(SettledRows(s, decl, actor, mint)[id])
    ensures var row := SettledRows(s, decl, actor, mint)[id];
      var i := IndexOf(decl, Fold(row.path));
      i < |decl| && SameContent(row, decl[i])
  {
    SettledRowsKeepPaths(s, decl, actor, mint);
    if id in s.projects {
      SettledRowIs(s, decl, actor, mint, id);
    } else {
      var i :| 0 <= i < |decl| && mint[i] == id && SettledRows(s, decl, actor, mint)[id] == NewRow(decl[i], actor);
      IndexOfDeclared(decl, i);
    }
  }

  // ---- Convergence ----

  /** What the registry says is active: folded path, name and repository. */
  ghost function ActiveView(s: Store): set<(string, string, Option<string>)> {
    set id | id in s.projects && ActiveOrg(s.projects[id]) ::
      (Fold(s.projects[id].path), s.projects[id].displayName, s.projects[id].sourceRepo)
  }

  /** Some org row at this folded path grants this team this level. */
  ghost predicate Grants(s: Store, key: string, team: string, level: Level) {
    exists id :: (id, team) in OrgGrants(s) && Fold(s.projects[id].path) == key && s.grants[(id, team)] == level
  }

  ghost function DeclaredView(decl: seq<Declared>): set<(string, string, Option<string>)> {
    set i | 0 <= i < |decl| :: (decl[i].Key(), decl[i].displayName, Some(decl[i].sourceRepo))
  }

  /** After a sync the active paths, with their names and repositories, are the
      declaration's: a function of it alone, whatever was stored before. */
  lemma ConvergesToDeclaration(s: Store, decl: seq<Declared>, actor: string, mint: seq<Id>)
    requires Schema(s) && WellFormed(decl) && Fresh(s, decl, mint)
    ensures ActiveView(Converged(s, decl, actor, mint)) == DeclaredView(decl)
  {
    var t := Converged(s, decl, actor, mint);
    forall x | x in ActiveView(t)
      ensures x in DeclaredView(decl)
    {
      var id :| id in t.projects && ActiveOrg(t.projects[id])
        && x == (Fold(t.projects[id].path), t.projects[id].displayName, t.projects[id].sourceRepo);
      ActiveIsDeclared(s, decl, actor, mint, id);
    }
    forall x | x in DeclaredView(decl)
      ensures x in ActiveView(t)
    {
      var i :| 0 <= i < |decl| && x == (decl[i].Key(), decl[i].displayName, Some(decl[i].sourceRepo));
      DeclaredRowIs(s, decl, actor, mint, i);
    }
  }

  /** And so are the grants on org rows: those of archived rows are gone. */
  lemma GrantsConvergeToDeclaration(s: Store, decl: seq<Declared>, actor: string, mint: seq<Id>, key: string, team: string, level: Level)
    requires Schema(s) && WellFormed(decl) && Fresh(s, decl, mint)
    ensures Grants(Converged(s, decl, actor, mint), key, team, level) <==> Wanted(decl, key, team) == Some(level)
  {
    var t := Converged(s, decl, actor, mint);
    if Grants(t, key, team, level) {
      var id :| (id, team) in OrgGrants(t) && Fold(t.projects[id].path) == key && t.grants[(id, team)] == level;
      StoredGrantIsWanted(s, decl, actor, mint, (id, team));
    }
    if Wanted(decl, key, team) == Some(level) {
      WantedGrantIsStored(s, decl, actor, mint, IndexOf(decl, key), team);
    }
  }

  lemma StoredGrantIsWanted(s: Store, decl: seq<Declared>, actor: string, mint: seq<Id>, g: Pair)
    requires Schema(s) && Keyed(decl) && Fresh(s, decl, mint) && g in OrgGrants(Converged(s, decl, actor, mint))
    ensures var t := Converged(s, decl, actor, mint);
      Wanted(decl, Fold(t.projects[g.0].path), g.1) == Some(t.grants[g])
  {
    var t := Converged(s, decl, actor, mint);
    SettledRowsKeepPaths(s, decl, actor, mint);
    assert g in s.grants ==> g.0 in s.projects;
    WantedIsDeclared(decl, Fold(t.projects[g.0].path), g.1);
  }

  lemma WantedGrantIsStored(s: Store, decl: seq<Declared>, actor: string, mint: seq<Id>, i: nat, team: string)
    requires Schema(s) && WellFormed(decl) && Fresh(s, decl, mint) && i < |decl| && Wanted(decl, decl[i].Key(), team).Some?
    ensures var t := Converged(s, decl, actor, mint);
      var id := RowIdAt(t.projects, decl[i].Key());
      && (id, team) in OrgGrants(t) && Fold(t.projects[id].path) == decl[i].Key()
      && Some(t.grants[(id, team)]) == Wanted(decl, decl[i].Key(), team)
  {
    DeclaredRowExists(s, decl, actor, mint, i);
    WantedIsDeclared(decl, decl[i].Key(), team);
  }

  // ---- The invariants are kept ----

  /** A row that was not there before is its entry's: active, without an owner, at
      version one, and stamped with the actor. */
  lemma InsertedBy(s: Store, decl: seq<Declared>, actor: string, mint: seq<Id>, id: Id) returns (i: nat)
    requires Fresh(s, decl, mint) && id in SettledRows(s, decl, actor, mint) && id !in s.projects
    ensures i < |decl| && mint[i] == id && !HasOrg(s, decl[i].Key())
    ensures var d := decl[i];
      SettledRows(s, decl, actor, mint)[id] == Row(d.path, d.displayName, Active, Some(d.sourceRepo), None, Org, 1, actor, actor)
  {
    MintedIs(s, decl, actor, mint, |decl|);
    i :| 0 <= i < |decl| && mint[i] == id && !HasOrg(s, decl[i].Key()) && SettledRows(s, decl, actor, mint)[id] == NewRow(decl[i], actor);
  }

  lemma NewRowIsSound(d: Declared, actor: string)
    requires OrgPath(d.path)
    ensures RowChecks(NewRow(d, actor)) && LegalPath(d.path) && OwnedRow(NewRow(d, actor))
  {
    ClassCheckAgrees(d.path);
  }

  lemma SettledRowChecked(s: Store, decl: seq<Declared>, actor: string, mint: seq<Id>, id: Id)
    requires Schema(s) && WellFormed(decl) && Fresh(s, decl, mint) && id in SettledRows(s, decl, actor, mint)
    ensures RowChecks(SettledRows(s, decl, actor, mint)[id])
  {
    if id in s.projects {
      assert RowChecks(s.projects[id]);
      SettledRowIs(s, decl, actor, mint, id);
    } else {
      var i := InsertedBy(s, decl, actor, mint, id);
      assert OrgPath(decl[i].path);
      NewRowIsSound(decl[i], actor);
    }
  }

  lemma ConvergedKeepsSchema(s: Store, decl: seq<Declared>, actor: string, mint: seq<Id>)
    requires Schema(s) && WellFormed(decl) && Fresh(s, decl, mint)
    ensures Schema(Converged(s, decl, actor, mint))
  {
    var t := Converged(s, decl, actor, mint);
    SettledRowsUnique(s, decl, actor, mint);
    forall id | id in t.projects
      ensures RowChecks(t.projects[id])
    {
      SettledRowChecked(s, decl, actor, mint, id);
    }
    forall g | g in t.grants
      ensures g.0 in t.projects
    {
      assert g in s.grants ==> g.0 in s.projects;
    }
  }

  lemma ConvergedIsAnchored(s: Store, decl: seq<Declared>, actor: string, mint: seq<Id>)
    requires Schema(s) && WellFormed(decl) && Fresh(s, decl, mint)
    ensures Anchored(Converged(s, decl, actor, mint))
  {
    var t := Converged(s, decl, actor, mint);
    forall id | id in t.projects && ActiveOrg(t.projects[id])
      ensures AnchorOf(t, Fold(t.projects[id].path))
    {
      ActiveIsDeclared(s, decl, actor, mint, id);
      var i := IndexOf(decl, Fold(t.projects[id].path));
      assert Rooted(decl, i);
      var r :| 0 <= r < |decl| && '/' !in decl[r].path && decl[r].Key() == Root(decl[i].Key());
      DeclaredRowIs(s, decl, actor, mint, r);
    }
  }

  lemma SettledRowRuled(s: Store, decl: seq<Declared>, actor: string, mint: seq<Id>, id: Id)
    requires Valid(s) && WellFormed(decl) && Fresh(s, decl, mint) && !OnAlias(s, decl)
    requires id in SettledRows(s, decl, actor, mint)
    ensures var row := SettledRows(s, decl, actor, mint)[id];
      LegalPath(row.path) && OwnedRow(row) && !AliasAt(s, Fold(row.path))
  {
    if id in s.projects {
      assert LegalPath(s.projects[id].path) && OwnedRow(s.projects[id]);
      SettledRowIs(s, decl, actor, mint, id);
    } else {
      var i := InsertedBy(s, decl, actor, mint, id);
      assert OrgPath(decl[i].path);
      NewRowIsSound(decl[i], actor);
    }
  }

  lemma SettledGrantRuled(s: Store, decl: seq<Declared>, actor: string, mint: seq<Id>, g: Pair)
    requires Valid(s) && WellFormed(decl) && Fresh(s, decl, mint) && g in Converged(s, decl, actor, mint).grants
    ensures var t := Converged(s, decl, actor, mint);
      g.0 in t.projects && IsOrg(t.projects[g.0]) && IsTeamId(g.1)
  {
    assert g in s.grants ==> g.0 in s.projects && IsOrg(s.projects[g.0]) && IsTeamId(g.1);
    if g !in s.grants {
      var rows := SettledRows(s, decl, actor, mint);
      var i := IndexOf(decl, Fold(rows[g.0].path));
      assert TeamIds(decl[i].grants);
    }
  }

  lemma ConvergedKeepsRules(s: Store, decl: seq<Declared>, actor: string, mint: seq<Id>)
    requires Valid(s) && WellFormed(decl) && Fresh(s, decl, mint) && !OnAlias(s, decl)
    ensures Rules(Converged(s, decl, actor, mint))
  {
    var t := Converged(s, decl, actor, mint);
    ConvergedIsAnchored(s, decl, actor, mint);
    forall id | id in t.projects
      ensures LegalPath(t.projects[id].path) && OwnedRow(t.projects[id]) && !AliasAt(s, Fold(t.projects[id].path))
    {
      SettledRowRuled(s, decl, actor, mint, id);
    }
    forall g | g in t.grants
      ensures g.0 in t.projects && IsOrg(t.projects[g.0]) && IsTeamId(g.1)
    {
      SettledGrantRuled(s, decl, actor, mint, g);
    }
  }
}
