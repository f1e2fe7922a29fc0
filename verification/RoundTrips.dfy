/** What a write says is what a read then answers, in the terms of the request
    (src/write/sync.rs, src/write/register.rs, src/read.rs). */
module RoundTrips {
  import opened Declaration
  import opened GrantPlans
  import opened Lookups
  import opened Outcome
  import opened Paths
  import opened Reconcile
  import opened Registration
  import opened Registry
  import opened Resolution
  import opened Syncs
  import opened Text

  /** A live path that is no reserved root resolves to its own row. */
  lemma LiveResolves(s: Store, candidate: string, id: Id)
    requires PathsUnique(s.projects) && id in s.projects && Fold(s.projects[id].path) == Fold(candidate)
    requires ValidPath(candidate) && !IsReservedRoot(candidate)
    ensures var row := s.projects[id];
      var repo := if row.sourceRepo.Some? then row.sourceRepo.value else "";
      Resolve(s, candidate) == Ok(Resolved(row.path, true, false, row.status, repo))
    ensures Registered(s, Fold(candidate)) && TargetAt(s, Fold(candidate)) == id
  {
    WalkIs(candidate);
    assert LiveAt(s, Fold(candidate));
    assert Fold(s.projects[TargetAt(s, Fold(candidate))].path) == Fold(s.projects[id].path);
  }

  // ---- Registrations ----

  /** A registered project resolves exactly, in any letter case, as active and
      with no repository, and its path is taken from then on. */
  lemma RegisteredResolves(s: Store, req: RegisterRequest, id: Id, again: RegisterRequest, id': Id)
    requires Valid(s) && id !in s.projects && Register(s, req, id).1 != s
    requires Fold(again.path) == Fold(req.path) && Registrable(again)
    ensures var t := Register(s, req, id).1;
      && LeavesRow(s, req, id, t)
      && Resolve(t, again.path) == Ok(Resolved(req.path, true, false, Active, ""))
      && (!KeyUsed(t, again) ==> Register(t, again, id') == (Err(AlreadyExists), t))
  {
    var t := Register(s, req, id).1;
    RegisterOutcome(s, req, id);
    OthersAreDecidedOn(req);
    LegalIsAccepted(s, req, id);
    RegisterKeepsValid(s, req, id);
    assert Fold(t.projects[id].path) == Fold(again.path);
    LiveResolves(t, again.path, id);
    if !KeyUsed(t, again) {
      LegalIsAccepted(t, again, id');
    }
  }

  lemma NewRowIsRead(s: Store, req: RegisterRequest, id: Id, t: Store, p: Project)
    requires Schema(s) && id !in s.projects && LeavesRow(s, req, id, t) && Filled(t, id, p)
    ensures var user := req.scope.userId;
      p.meta == Meta(id, 1, req.path, user, user, user)
    ensures p.path == req.path && p.displayName == req.displayName && p.status == Active && p.lastSeen.None? && forall g :: g !in p.grants
  {
  }

  /** What is read of it is what was answered: the same meta, the name sent, no
      grant, never seen. */
  lemma RegisteredIsRead(s: Store, req: RegisterRequest, id: Id, p: Project)
    requires Valid(s) && id !in s.projects && Register(s, req, id).1 != s
    requires var t := Register(s, req, id).1;
      Registered(t, Fold(req.path)) && Filled(t, TargetAt(t, Fold(req.path)), p)
    ensures Register(s, req, id).0 == Ok(Some(p.meta))
    ensures p.path == req.path && p.displayName == req.displayName && p.status == Active && p.lastSeen.None? && forall g :: g !in p.grants
  {
    var t := Register(s, req, id).1;
    RegisterOutcome(s, req, id);
    OthersAreDecidedOn(req);
    LegalIsAccepted(s, req, id);
    RegisterKeepsValid(s, req, id);
    LiveResolves(t, req.path, id);
    NewRowIsRead(s, req, id, t, p);
  }

  // ---- Syncs ----

  /** After a sync every declared path resolves exactly, in any letter case, as
      active and with the declared repository. */
  lemma DeclaredResolves(s: Store, decl: seq<Declared>, actor: string, mint: seq<Id>, i: nat, candidate: string)
    requires Schema(s) && WellFormed(decl) && Fresh(s, decl, mint) && i < |decl|
    requires Fold(candidate) == decl[i].Key()
    ensures var t := Converged(s, decl, actor, mint);
      var id, r := RowIdAt(t.projects, decl[i].Key()), Resolve(t, candidate);
      && r.Ok? && r.value.exact && !r.value.viaAlias && Fold(r.value.resolvedPath) == decl[i].Key()
      && r.value.status == Active && r.value.sourceRepo == decl[i].sourceRepo
      && Registered(t, Fold(candidate)) && TargetAt(t, Fold(candidate)) == id
  {
    var t := Converged(s, decl, actor, mint);
    assert OrgPath(decl[i].path);
    ValidFolds(candidate);
    ValidFolds(decl[i].path);
    DeclaredRowIs(s, decl, actor, mint, i);
    SettledRowsUnique(s, decl, actor, mint);
    LiveResolves(t, candidate, RowIdAt(t.projects, decl[i].Key()));
  }

  /** An org project the declaration drops is archived and never forgotten: its
      path goes on resolving exactly, as archived, to the same spelling and
      repository. A private one is not touched. */
  lemma DroppedStillResolves(s: Store, decl: seq<Declared>, actor: string, mint: seq<Id>, id: Id)
    requires Valid(s) && WellFormed(decl) && Fresh(s, decl, mint) && id in s.projects
    requires !Declares(decl, Fold(s.projects[id].path))
    ensures var row, r := s.projects[id], Resolve(Converged(s, decl, actor, mint), s.projects[id].path);
      && (row.owner.None? && row.sourceRepo.Some? ==> r == Ok(Resolved(row.path, true, false, Archived, row.sourceRepo.value)))
      && (row.owner.Some? ==> r == Ok(Resolved(row.path, true, false, row.status, "")))
  {
    assert LegalPath(s.projects[id].path) && RowChecks(s.projects[id]);
    SettledRowIs(s, decl, actor, mint, id);
    SettledRowsUnique(s, decl, actor, mint);
    LiveResolves(Converged(s, decl, actor, mint), s.projects[id].path, id);
  }

  // ---- Syncs, as they are sent ----

  /** The active org rows at whose path nothing is sent. */
  ghost function Dropped(s: Store, sent: seq<DeclaredProject>): set<Id> {
    set id | id in s.projects && ActiveOrg(s.projects[id]) && forall d :: d in sent ==> Fold(d.path) != Fold(s.projects[id].path)
  }

  /** The grants on org rows to teams not sent at the row's path. */
  ghost function Unsent(s: Store, sent: seq<DeclaredProject>): set<(Id, string)> {
    set g | g in s.grants && g.0 in s.projects && IsOrg(s.projects[g.0])
      && forall d, e :: d in sent && e in d.grants && Fold(d.path) == Fold(s.projects[g.0].path) ==> e.teamId != g.1
  }

  lemma DroppedAreArchived(s: Store, req: SyncRequest)
    requires DeclarationOk(req)
    ensures ToArchive(s, DeclaredOf(req)) == Dropped(s, req.roots + req.projects)
  {
    var decl, sent := DeclaredOf(req), req.roots + req.projects;
    forall id | id in s.projects
      ensures Declares(decl, Fold(s.projects[id].path)) <==> exists d :: d in sent && Fold(d.path) == Fold(s.projects[id].path)
    {
      SentAt(req, Fold(s.projects[id].path));
    }
  }

  /** A key is declared exactly when something was sent at it. */
  lemma SentAt(req: SyncRequest, key: string)
    requires DeclarationOk(req)
    ensures Declares(DeclaredOf(req), key) <==> exists d :: d in req.roots + req.projects && Fold(d.path) == key
  {
    var decl, sent := DeclaredOf(req), req.roots + req.projects;
    DeclaredKeepsRows(req);
    if Declares(decl, key) {
      assert sent[IndexOf(decl, key)] in sent;
    }
    if d :| d in sent && Fold(d.path) == key {
      var i :| 0 <= i < |sent| && sent[i] == d;
      assert decl[i].Key() == key;
    }
  }

  lemma SentIsWanted(req: SyncRequest, key: string, team: string, d: DeclaredProject, e: DeclaredGrant)
    requires DeclarationOk(req)
    requires d in req.roots + req.projects && e in d.grants && Fold(d.path) == key && e.teamId == team
    ensures Wanted(DeclaredOf(req), key, team).Some?
  {
    var decl, sent := DeclaredOf(req), req.roots + req.projects;
    DeclaredKeepsRows(req);
    ValidatedIsWellFormed(req);
    var k :| 0 <= k < |sent| && sent[k] == d;
    var j :| 0 <= j < |d.grants| && d.grants[j] == e;
    IndexOfDeclared(decl, k);
    assert decl[k].grants[j] in decl[k].grants;
  }

  /** A team is wanted at a key exactly when a grant to it was sent there. */
  lemma WantedIsSent(req: SyncRequest, key: string, team: string)
    requires DeclarationOk(req)
    ensures Wanted(DeclaredOf(req), key, team).Some? <==>
      exists d, e :: d in req.roots + req.projects && e in d.grants && Fold(d.path) == key && e.teamId == team
  {
    var decl, sent := DeclaredOf(req), req.roots + req.projects;
    if Wanted(decl, key, team).Some? {
      DeclaredKeepsRows(req);
      var i := IndexOf(decl, key);
      var j :| 0 <= j < |decl[i].grants| && decl[i].grants[j] == Grant(team, Wanted(decl, key, team).value);
      assert sent[i] in sent && sent[i].grants[j] in sent[i].grants;
    }
    if d, e :| d in sent && e in d.grants && Fold(d.path) == key && e.teamId == team {
      SentIsWanted(req, key, team, d, e);
    }
  }

  lemma UnsentAreRevoked(s: Store, req: SyncRequest)
    requires DeclarationOk(req)
    ensures RevokedPairs(s, DeclaredOf(req)) == Unsent(s, req.roots + req.projects)
  {
    forall g | g in OrgGrants(s)
      ensures g in RevokedPairs(s, DeclaredOf(req)) <==> g in Unsent(s, req.roots + req.projects)
    {
      WantedIsSent(req, Fold(s.projects[g.0].path), g.1);
    }
  }

  ghost predicate ArchivesTooMuch(s: Store, req: SyncRequest) {
    !req.allowMassArchive && |Dropped(s, req.roots + req.projects)| * 2 > |ActiveRows(s)|
  }

  ghost predicate RevokesTooMuch(s: Store, req: SyncRequest) {
    !req.allowMassRevoke && |Unsent(s, req.roots + req.projects)| * 2 > |OrgGrants(s)|
  }

  /** What refuses a well-formed sync, and nothing else does: something sent at a
      former path; or, unless the caller allows it, more than half of the active
      org rows to archive, or of the grants on org rows to take away. */
  lemma RefusedIff(s: Store, req: SyncRequest)
    requires DeclarationOk(req)
    ensures Refusal(s, DeclaredOf(req), Guards(req.allowMassArchive, req.allowMassRevoke)) ==
      if exists d :: d in req.roots + req.projects && AliasAt(s, Fold(d.path)) then Some(AlreadyExists)
      else if ArchivesTooMuch(s, req) || RevokesTooMuch(s, req) then Some(FailedPrecondition)
      else None
  {
    var decl, sent := DeclaredOf(req), req.roots + req.projects;
    DeclaredKeepsRows(req);
    DroppedAreArchived(s, req);
    UnsentAreRevoked(s, req);
    assert OnAlias(s, decl) <==> exists d :: d in sent && AliasAt(s, Fold(d.path)) by {
      assert forall i :: 0 <= i < |sent| ==> sent[i] in sent && decl[i].Key() == Fold(sent[i].path);
    }
  }

  /** A project as it is read is the one that was sent: its name, its grants at
      the levels sent, active and nobody's. */
  ghost predicate ReadsAsSent(p: Project, d: DeclaredProject) {
    && Fold(p.path) == Fold(d.path) && p.displayName == d.displayName && p.status == Active && p.meta.ownerUserId == ""
    && forall team ::
         && ((team, Read) in p.grants <==> DeclaredGrant(team, 1) in d.grants)
         && ((team, ReadWrite) in p.grants <==> DeclaredGrant(team, 2) in d.grants)
  }

  /** A resolution answers for what was sent: exactly, active, under the
      repository sent. */
  ghost predicate ResolvesAsSent(r: Result<Resolved>, d: DeclaredProject) {
    && r.Ok? && r.value.exact && !r.value.viaAlias && Fold(r.value.resolvedPath) == Fold(d.path)
    && r.value.status == Active && r.value.sourceRepo == d.sourceRepo
  }

  /** The registry answers for what was sent, whichever way it is read. */
  ghost predicate AnswersAsSent(t: Store, d: DeclaredProject) {
    && ResolvesAsSent(Resolve(t, d.path), d)
    && Registered(t, Fold(d.path))
    && forall p :: Filled(t, TargetAt(t, Fold(d.path)), p) ==> ReadsAsSent(p, d)
  }

  lemma GrantsReadAsDeclared(s: Store, decl: seq<Declared>, actor: string, mint: seq<Id>, i: nat, p: Project, team: string, level: Level)
    requires Schema(s) && WellFormed(decl) && Fresh(s, decl, mint) && i < |decl|
    requires var t := Converged(s, decl, actor, mint);
      GrantLookup(t, RowIdAt(t.projects, decl[i].Key()), p.grants)
    ensures (team, level) in p.grants <==> Grant(team, level) in decl[i].grants
  {
    var t, key := Converged(s, decl, actor, mint), decl[i].Key();
    var id := RowIdAt(t.projects, key);
    DeclaredRowIs(s, decl, actor, mint, i);
    SettledRowsUnique(s, decl, actor, mint);
    GrantsConvergeToDeclaration(s, decl, actor, mint, key, team, level);
    IndexOfDeclared(decl, i);
    assert Teamed(decl[i].grants);
    if Grant(team, level) in decl[i].grants {
      LevelInIsTheGrant(decl[i].grants, Grant(team, level));
    }
    assert (team, level) in p.grants <==> Granted(t, {id}, (id, team, level));
    assert Granted(t, {id}, (id, team, level)) <==> Grants(t, key, team, level);
  }

  lemma GrantIsKept(gs: seq<DeclaredGrant>, out: seq<Grant>, team: string)
    requires KeepsGrants(gs, out)
    ensures Grant(team, Read) in out <==> DeclaredGrant(team, 1) in gs
    ensures Grant(team, ReadWrite) in out <==> DeclaredGrant(team, 2) in gs
  {
  }

  /** After an accepted sync every root and project sent is answered for as it
      was sent. */
  lemma SentIsAnswered(s: Store, req: SyncRequest, actor: string, mint: seq<Id>, i: nat)
    requires Schema(s) && DeclarationOk(req) && Fresh(s, DeclaredOf(req), mint) && i < |req.roots + req.projects|
    ensures AnswersAsSent(Converged(s, DeclaredOf(req), actor, mint), (req.roots + req.projects)[i])
  {
    var decl, d := DeclaredOf(req), (req.roots + req.projects)[i];
    var t := Converged(s, decl, actor, mint);
    ValidatedIsWellFormed(req);
    DeclaredKeepsRows(req);
    DeclaredResolves(s, decl, actor, mint, i, d.path);
    DeclaredRowIs(s, decl, actor, mint, i);
    forall p | Filled(t, TargetAt(t, Fold(d.path)), p)
      ensures ReadsAsSent(p, d)
    {
      forall team
        ensures (team, Read) in p.grants <==> DeclaredGrant(team, 1) in d.grants
        ensures (team, ReadWrite) in p.grants <==> DeclaredGrant(team, 2) in d.grants
      {
        GrantsReadAsDeclared(s, decl, actor, mint, i, p, team, Read);
        GrantsReadAsDeclared(s, decl, actor, mint, i, p, team, ReadWrite);
        GrantIsKept(d.grants, decl[i].grants, team);
      }
    }
  }

  /** And whatever is then active of an organisation was sent. */
  lemma AcceptedIsAnswered(s: Store, req: SyncRequest, mint: seq<Id>)
    requires Schema(s) && DeclarationOk(req) && Fresh(s, DeclaredOf(req), mint)
    ensures var t := Converged(s, DeclaredOf(req), req.userId, mint);
      forall d :: d in req.roots + req.projects ==> AnswersAsSent(t, d)
    ensures var t := Converged(s, DeclaredOf(req), req.userId, mint);
      forall id :: id in t.projects && ActiveOrg(t.projects[id]) ==>
        exists d :: d in req.roots + req.projects && Fold(d.path) == Fold(t.projects[id].path)
  {
    var decl, sent := DeclaredOf(req), req.roots + req.projects;
    var t := Converged(s, decl, req.userId, mint);
    forall d | d in sent
      ensures AnswersAsSent(t, d)
    {
      var i :| 0 <= i < |sent| && sent[i] == d;
      SentIsAnswered(s, req, req.userId, mint, i);
    }
    ValidatedIsWellFormed(req);
    forall id | id in t.projects && ActiveOrg(t.projects[id])
      ensures exists d :: d in sent && Fold(d.path) == Fold(t.projects[id].path)
    {
      ActiveIsDeclared(s, decl, req.userId, mint, id);
      SentAt(req, Fold(t.projects[id].path));
    }
  }
}
