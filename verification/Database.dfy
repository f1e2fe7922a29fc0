/** The store and its verbs, as the source runs them: one transaction at a time,
    statement by statement, over tables that change in place (src/write/sync.rs,
    src/write/grants.rs, src/write/register.rs, src/write/touch.rs, src/idem.rs,
    src/read.rs). */
module Database {
  import opened Declaration
  import opened Dedup
  import opened Diff
  import opened GrantPlans
  import opened Lookups
  import opened Outcome
  import opened Pages
  import opened Paths
  import opened Reconcile
  import opened Reconciler
  import opened Registration
  import opened Registry
  import opened Resolution
  import opened RoundTrips
  import SyncLaws
  import opened Syncs
  import opened Text
  import opened Touches

  /** A page as the caller sees it. */
  ghost predicate Shown(s: Store, page: Page, projects: seq<Project>, next: string) {
    && next == page.next && |projects| == |page.rows|
    && forall i :: 0 <= i < |projects| ==> Filled(s, page.rows[i], projects[i])
  }

  /** Every project listed is one asked for, as it is stored. */
  ghost predicate ListsAskedFor(s: Store, req: ListRequest, projects: seq<Project>) {
    && (forall p :: p in projects ==> Filled(s, p.meta.id, p))
    && (req.underPath != "" ==> forall p :: p in projects ==> Fold(req.underPath) in AncestorChain(Fold(p.path)))
    && (req.status == Some(1) ==> forall p :: p in projects ==> p.status == Active)
    && (req.status == Some(2) ==> forall p :: p in projects ==> p.status == Archived)
    && (req.pageToken != "" ==> forall p :: p in projects ==> Before(req.pageToken, p.path))
  }

  /** They come in the order of their paths, no more than the caller asked for, 50
      when it does not say and never more than 500; and a token only when there are
      so many, the last one's path. */
  ghost predicate ListsInPages(req: ListRequest, projects: seq<Project>, next: string) {
    && (forall i, j :: 0 <= i < j < |projects| ==> Before(projects[i].path, projects[j].path))
    && var size := if req.pageSize <= 0 then 50 else if req.pageSize > 500 then 500 else req.pageSize;
       |projects| <= size && (next != "" ==> |projects| == size && next == projects[size - 1].path)
  }

  /** Nothing asked for is missing, but what the next page has. */
  ghost predicate ListsAll(s: Store, req: ListRequest, projects: seq<Project>, next: string) {
    forall id :: AskedFor(s, req, id) ==>
      (exists p :: p in projects && p.meta.id == id) || (next != "" && Before(next, s.projects[id].path))
  }

  lemma ShownAreAskedFor(s: Store, req: ListRequest, page: Page, projects: seq<Project>)
    requires ListOk(req) && Shown(s, page, projects, page.next)
    requires IsPage(s, FilterOf(req), req.pageToken, PageSize(req.pageSize), page)
    ensures ListsAskedFor(s, req, projects) && ListsInPages(req, projects, page.next)
  {
    PageAnswersRequest(s, req, page);
    forall i | 0 <= i < |projects|
      ensures Filled(s, projects[i].meta.id, projects[i]) && AskedFor(s, req, projects[i].meta.id)
    {
      assert page.rows[i] in page.rows;
    }
    forall i, j | 0 <= i < j < |projects|
      ensures Before(projects[i].path, projects[j].path)
    {
      assert Before(PathOf(s)(page.rows[i]), PathOf(s)(page.rows[j]));
    }
  }

  lemma ShownAreAll(s: Store, req: ListRequest, page: Page, projects: seq<Project>)
    requires PathsLegal(s) && ListOk(req) && Shown(s, page, projects, page.next)
    requires IsPage(s, FilterOf(req), req.pageToken, PageSize(req.pageSize), page)
    ensures ListsAll(s, req, projects, page.next)
  {
    forall id | AskedFor(s, req, id)
      ensures (exists p :: p in projects && p.meta.id == id) || (page.next != "" && Before(page.next, s.projects[id].path))
    {
      PageLeavesTheRest(s, req, page, id);
      if id in page.rows {
        var i :| 0 <= i < |page.rows| && page.rows[i] == id;
        assert projects[i].meta.id == id;
      }
    }
  }

  /** A row some path names was last seen at this moment or later, and not before
      the last; any other is as it was. */
  ghost predicate SeenAfter(s: Store, t: Store, paths: seq<string>, at: int, id: Id)
    requires id in s.projects
  {
    if exists i :: 0 <= i < |paths| && Names(s, paths[i], id) then
      id in t.seen && t.seen[id] == if id in s.seen && s.seen[id] > at then s.seen[id] else at
    else
      (id in t.seen <==> id in s.seen) && (id in t.seen ==> t.seen[id] == s.seen[id])
  }

  /** The counts so far. */
  ghost predicate Counts(r: SyncResponse, s: Store, decl: seq<Declared>, k: nat) {
    && r.inserted == CountFate(s, decl, Insert, k) && r.updated == CountFate(s, decl, Update, k)
    && r.reactivated == CountFate(s, decl, Reactivate, k) && r.kept == CountFate(s, decl, Keep, k)
  }

  /** Where each of the first `k` declared rows was written. */
  ghost predicate WrittenAt(ids: map<string, Id>, s: Store, decl: seq<Declared>, mint: seq<Id>, k: nat) {
    && |mint| == |decl|
    && forall i :: 0 <= i < k && i < |decl| ==>
         decl[i].Key() in ids && ids[decl[i].Key()] == if HasOrg(s, decl[i].Key()) then OrgAt(s, decl[i].Key()) else mint[i]
  }

  /** What `write_one` leaves in the tables is what the next entry finds. */
  lemma WriteIsNext(s: Store, decl: seq<Declared>, actor: string, mint: seq<Id>, k: nat)
    requires Schema(s) && WellFormed(decl) && Fresh(s, decl, mint) && k < |decl|
    ensures FateOf(s, decl[k]).Insert? ==>
      Exec(AfterRows(s, decl, actor, mint, k), InsertRow(mint[k], NewRow(decl[k], actor))) == Some(AfterRows(s, decl, actor, mint, k + 1))
    ensures FateOf(s, decl[k]).Keep? ==> AfterRows(s, decl, actor, mint, k + 1) == AfterRows(s, decl, actor, mint, k)
    ensures FateOf(s, decl[k]).Update? || FateOf(s, decl[k]).Reactivate? ==>
      HasOrg(s, decl[k].Key()) &&
      Exec(AfterRows(s, decl, actor, mint, k), UpdateRow(OrgAt(s, decl[k].Key()), decl[k].displayName, decl[k].sourceRepo, actor))
        == Some(AfterRows(s, decl, actor, mint, k + 1))
  {
    var t, t' := AfterRows(s, decl, actor, mint, k), AfterRows(s, decl, actor, mint, k + 1);
    RowStep(s, decl, actor, mint, k);
    WriteIs(t, RowWrite(s, decl, actor, mint, k), t');
  }

  lemma WriteIs(t: Store, ws: seq<Write>, t': Store)
    requires Reaches(t, ws, t') && |ws| <= 1
    ensures ws == [] ==> t' == t
    ensures ws != [] ==> Exec(t, ws[0]) == Some(t')
  {
  }

  /** The id every insert of a plan is looked up under, and its row's. */
  lemma InsertHasId(s: Store, decl: seq<Declared>, actor: string, mint: seq<Id>, plan: GrantPlan, ids: map<string, Id>, i: nat)
    requires Schema(s) && WellFormed(decl) && Fresh(s, decl, mint) && IsPlan(plan, s, decl)
    requires WrittenAt(ids, s, decl, mint, |decl|) && i < |plan.inserts|
    ensures plan.inserts[i].0 in ids && ids[plan.inserts[i].0] == RowIdAt(SettledRows(s, decl, actor, mint), plan.inserts[i].0)
  {
    var n := plan.inserts[i];
    assert n in plan.inserts;
    assert (n.0, n.1) in AddedPairs(s, decl);
    var j, g :| 0 <= j < |decl| && g in decl[j].grants && (decl[j].Key(), g.team) == (n.0, n.1);
    DeclaredRowExists(s, decl, actor, mint, j);
  }

  /** The grants between the stages of `write`. */
  ghost function AfterDeletes(t: Store, plan: GrantPlan, k: nat): Store {
    t.(grants := Deleted(t.grants, plan.deletes, k))
  }

  ghost function AfterUpdates(t: Store, plan: GrantPlan, k: nat): Store {
    t.(grants := Rewritten(Deleted(t.grants, plan.deletes, |plan.deletes|), plan.updates, k))
  }

  ghost function AfterInserts(t: Store, plan: GrantPlan, k: nat): Store {
    t.(grants := Inserted(Rewritten(Deleted(t.grants, plan.deletes, |plan.deletes|), plan.updates, |plan.updates|),
      plan.inserts, t.projects, k))
  }

  lemma UpdateIsNext(s: Store, decl: seq<Declared>, t: Store, plan: GrantPlan, k: nat)
    requires IsPlan(plan, s, decl) && t.grants == s.grants && k < |plan.updates|
    ensures Exec(AfterUpdates(t, plan, k), SetLevel(plan.updates[k].0, plan.updates[k].1, plan.updates[k].2))
      == Some(AfterUpdates(t, plan, k + 1))
  {
    UpdatesSurvive(s, decl, plan);
    RewrittenAt(Deleted(t.grants, plan.deletes, |plan.deletes|), plan.updates, k, (plan.updates[k].0, plan.updates[k].1));
  }

  lemma InsertIsNext(s: Store, decl: seq<Declared>, actor: string, mint: seq<Id>, plan: GrantPlan, k: nat)
    requires Schema(s) && WellFormed(decl) && Fresh(s, decl, mint) && IsPlan(plan, s, decl) && k < |plan.inserts|
    ensures var t := s.(projects := SettledRows(s, decl, actor, mint));
      Exec(AfterInserts(t, plan, k), InsertGrant(RowIdAt(t.projects, plan.inserts[k].0), plan.inserts[k].1, plan.inserts[k].2))
        == Some(AfterInserts(t, plan, k + 1))
  {
    var t := s.(projects := SettledRows(s, decl, actor, mint));
    InsertsStayNew(s, decl, actor, mint, plan);
    InsertedAt(Rewritten(Deleted(t.grants, plan.deletes, |plan.deletes|), plan.updates, |plan.updates|),
      plan.inserts, t.projects, k, InsertPair(t.projects, plan.inserts[k]));
  }

  lemma NoneWritten(s: Store, decl: seq<Declared>, actor: string, mint: seq<Id>)
    ensures AfterRows(s, decl, actor, mint, 0) == s
  {
  }

  lemma ArchiveListed(s: Store, decl: seq<Declared>, actor: string, mint: seq<Id>, ids: seq<Id>)
    requires Fresh(s, decl, mint) && forall id :: id in ids <==> id in ToArchive(s, decl)
    ensures var t, settled := AfterRows(s, decl, actor, mint, |decl|), s.(projects := SettledRows(s, decl, actor, mint));
      && (ids == [] ==> t == settled)
      && (ids != [] ==> t.(projects := ArchivedAmong(t.projects, (set id | id in ids), actor)) == settled)
  {
    ListedSet(ids, ToArchive(s, decl));
    ArchiveIs(s, decl, actor, mint);
  }

  lemma ListedSet(ids: seq<Id>, members: set<Id>)
    requires forall id :: id in ids <==> id in members
    ensures (set id | id in ids) == members
    ensures ids == [] <==> members == {}
  {
    if ids != [] {
      assert ids[0] in ids;
    }
  }

  lemma ArchiveIs(s: Store, decl: seq<Declared>, actor: string, mint: seq<Id>)
    requires Fresh(s, decl, mint)
    ensures ArchivedAmong(RowsAfter(s, decl, actor, mint, |decl|), ToArchive(s, decl), actor) == SettledRows(s, decl, actor, mint)
    ensures ToArchive(s, decl) == {} ==> RowsAfter(s, decl, actor, mint, |decl|) == SettledRows(s, decl, actor, mint)
  {
    ArchivedRowsAreSettled(s, decl, actor, mint);
  }

  class ProjectDb {
    /** What is committed. */
    var tables: Store
    /** What the open transaction sees. */
    var tx: Store

    constructor (tables: Store)
      ensures this.tables == tables == tx
    {
      this.tables := tables;
      tx := tables;
    }

    method Begin()
      modifies `tx
      ensures tx == tables
    {
      tx := tables;
    }

    method Execute(w: Write) returns (ok: bool)
      modifies `tx
      ensures ok <==> Exec(old(tx), w).Some?
      ensures tx == if ok then Exec(old(tx), w).value else old(tx)
    {
      var next := Exec(tx, w);
      ok := next.Some?;
      if ok {
        tx := next.value;
      }
    }

    method Commit()
      modifies `tables
      ensures tables == tx
    {
      tables := tx;
    }

    method Rollback()
      modifies `tx
      ensures tx == tables
    {
      tx := tables;
    }

    // ---- What a sync reads ----

    method OrgRows() returns (stored: seq<Stored>)
      ensures ReadsRows(tx, stored)
    {
      stored := [];
      var left := tx.projects.Keys;
      while left != {}
        invariant left <= tx.projects.Keys
        invariant forall i :: 0 <= i < |stored| ==> ReadsRow(tx, stored[i]) && stored[i].id !in left
        invariant forall i, j :: 0 <= i < j < |stored| ==> stored[i].id != stored[j].id
        invariant forall id :: id in tx.projects && IsOrg(tx.projects[id]) && id !in left ==> RowAmong(stored, |stored|, id)
        decreases |left|
      {
        var id :| id in left;
        left := left - {id};
        if IsOrg(tx.projects[id]) {
          ghost var before := stored;
          stored := stored + [StoredOf(id, tx.projects[id])];
          RowsExtend(before, stored);
        }
      }
    }

    method OrgGrantRows() returns (stored: seq<StoredGrant>)
      ensures ReadsGrants(tx, stored)
    {
      stored := [];
      var left := tx.grants.Keys;
      while left != {}
        invariant left <= tx.grants.Keys
        invariant forall i :: 0 <= i < |stored| ==> ReadsGrant(tx, stored[i]) && stored[i].Pair() !in left
        invariant forall i, j :: 0 <= i < j < |stored| ==> stored[i].Pair() != stored[j].Pair()
        invariant forall x :: x in OrgGrants(tx) && x !in left ==> PairAmong(stored, |stored|, x)
        decreases |left|
      {
        var x :| x in left;
        left := left - {x};
        if x.0 in tx.projects && IsOrg(tx.projects[x.0]) {
          ghost var before := stored;
          stored := stored + [StoredGrant(x.0, tx.projects[x.0].path, x.1, tx.grants[x])];
          PairsExtend(before, stored);
        }
      }
    }

    // ---- Sync ----

    /** `refuse_aliases`. */
    method RefuseAliases(decl: seq<Declared>) returns (refused: bool)
      ensures refused <==> OnAlias(tx, decl)
    {
      for i := 0 to |decl|
        invariant forall k :: 0 <= k < i ==> !AliasAt(tx, decl[k].Key())
      {
        if AliasAt(tx, decl[i].Key()) {
          return true;
        }
      }
      return false;
    }

    /** `write_one`: the engine never refuses it. */
    method WriteOne(ghost s: Store, ghost decl: seq<Declared>, ghost mint: seq<Id>, ghost k: nat,
                    d: Declared, stored: Option<Stored>, actor: string, minted: Id, response: SyncResponse)
      returns (id: Id, counted: SyncResponse)
      requires Schema(s) && WellFormed(decl) && Fresh(s, decl, mint) && k < |decl| && d == decl[k] && minted == mint[k]
      requires stored.Some? <==> HasOrg(s, d.Key())
      requires stored.Some? ==> stored.value.id == OrgAt(s, d.Key()) && ReadsRow(s, stored.value)
      requires tx == AfterRows(s, decl, actor, mint, k) && Counts(response, s, decl, k)
      modifies `tx
      ensures tx == AfterRows(s, decl, actor, mint, k + 1)
      ensures id == if HasOrg(s, d.Key()) then OrgAt(s, d.Key()) else mint[k]
      ensures Counts(counted, s, decl, k + 1)
    {
      WriteIsNext(s, decl, actor, mint, k);
      if stored.None? {
        var ok := Execute(InsertRow(minted, NewRow(d, actor)));
        return minted, response.(inserted := response.inserted + 1);
      }
      var differs := stored.value.displayName != d.displayName || stored.value.sourceRepo != Some(d.sourceRepo);
      var reactivating := stored.value.status != Active;
      if !differs && !reactivating {
        return stored.value.id, response.(kept := response.kept + 1);
      }
      var ok := Execute(UpdateRow(stored.value.id, d.displayName, d.sourceRepo, actor));
      id := stored.value.id;
      counted := if reactivating then response.(reactivated := response.reactivated + 1)
                 else response.(updated := response.updated + 1);
    }

    /** One turn of the loop over the declared rows. */
    method WriteNext(ghost s: Store, decl: seq<Declared>, byKey: map<string, Stored>, actor: string, mint: seq<Id>, k: nat,
                     ids: map<string, Id>, response: SyncResponse)
      returns (ids': map<string, Id>, response': SyncResponse)
      requires Schema(s) && WellFormed(decl) && Fresh(s, decl, mint) && k < |decl|
      requires MapsKey(byKey, s, decl[k].Key())
      requires tx == AfterRows(s, decl, actor, mint, k)
      requires WrittenAt(ids, s, decl, mint, k) && Counts(response, s, decl, k)
      modifies `tx
      ensures tx == AfterRows(s, decl, actor, mint, k + 1)
      ensures WrittenAt(ids', s, decl, mint, k + 1) && Counts(response', s, decl, k + 1)
    {
      var d := decl[k];
      var stored := if d.Key() in byKey then Some(byKey[d.Key()]) else None;
      var id, counted := WriteOne(s, decl, mint, k, d, stored, actor, mint[k], response);
      IdsExtend(ids, s, decl, mint, k, id);
      ids', response' := ids[d.Key() := id], counted;
    }

    /** The loop over the declared rows. */
    method WriteRows(ghost s: Store, decl: seq<Declared>, byKey: map<string, Stored>, actor: string, mint: seq<Id>)
      returns (ids: map<string, Id>, response: SyncResponse)
      requires Schema(s) && WellFormed(decl) && Fresh(s, decl, mint) && tx == s
      requires forall key {:trigger MapsKey(byKey, s, key)} :: MapsKey(byKey, s, key)
      modifies `tx
      ensures tx == AfterRows(s, decl, actor, mint, |decl|)
      ensures WrittenAt(ids, s, decl, mint, |decl|) && Counts(response, s, decl, |decl|)
    {
      response := SyncResponse(0, 0, 0, 0, 0, 0, 0, 0, 0);
      ids := map[];
      NoneWritten(s, decl, actor, mint);
      for k := 0 to |decl|
        invariant tx == AfterRows(s, decl, actor, mint, k)
        invariant WrittenAt(ids, s, decl, mint, k) && Counts(response, s, decl, k)
      {
        assert MapsKey(byKey, s, decl[k].Key());
        ids, response := WriteNext(s, decl, byKey, actor, mint, k, ids, response);
      }
    }

    /** `archive`. */
    method Archive(ids: seq<Id>, actor: string)
      modifies `tx
      ensures ids == [] ==> tx == old(tx)
      ensures ids != [] ==> tx == old(tx).(projects := ArchivedAmong(old(tx).projects, (set id | id in ids), actor))
    {
      if ids == [] {
        return;
      }
      var ok := Execute(ArchiveRows((set id | id in ids), actor));
    }

    method DeleteRevoked(ghost t: Store, plan: GrantPlan)
      requires tx == t
      modifies `tx
      ensures tx == AfterUpdates(t, plan, 0)
    {
      for k := 0 to |plan.deletes|
        invariant tx == AfterDeletes(t, plan, k)
      {
        var ok := Execute(DeleteGrant(plan.deletes[k].0, plan.deletes[k].1));
      }
    }

    method UpdateLevels(ghost s: Store, ghost decl: seq<Declared>, ghost t: Store, plan: GrantPlan)
      requires IsPlan(plan, s, decl) && t.grants == s.grants && tx == AfterUpdates(t, plan, 0)
      modifies `tx
      ensures tx == AfterUpdates(t, plan, |plan.updates|)
    {
      for k := 0 to |plan.updates|
        invariant tx == AfterUpdates(t, plan, k)
      {
        UpdateIsNext(s, decl, t, plan, k);
        var ok := Execute(SetLevel(plan.updates[k].0, plan.updates[k].1, plan.updates[k].2));
      }
    }

    method InsertAdded(ghost s: Store, ghost decl: seq<Declared>, ghost actor: string, ghost mint: seq<Id>,
                       plan: GrantPlan, ids: map<string, Id>)
      requires Schema(s) && WellFormed(decl) && Fresh(s, decl, mint) && IsPlan(plan, s, decl)
      requires WrittenAt(ids, s, decl, mint, |decl|)
      requires tx == AfterInserts(s.(projects := SettledRows(s, decl, actor, mint)), plan, 0)
      modifies `tx
      ensures tx == AfterInserts(s.(projects := SettledRows(s, decl, actor, mint)), plan, |plan.inserts|)
    {
      for k := 0 to |plan.inserts|
        invariant tx == AfterInserts(s.(projects := SettledRows(s, decl, actor, mint)), plan, k)
      {
        InsertIsNext(s, decl, actor, mint, plan, k);
        InsertHasId(s, decl, actor, mint, plan, ids, k);
        var ok := Execute(InsertGrant(ids[plan.inserts[k].0], plan.inserts[k].1, plan.inserts[k].2));
      }
    }

    /** `grants::write`: no statement is refused, no id is missing, and every
        grant on an org row ends as declared. */
    method WriteGrants(ghost s: Store, ghost decl: seq<Declared>, ghost actor: string, ghost mint: seq<Id>,
                       plan: GrantPlan, ids: map<string, Id>)
      requires Schema(s) && WellFormed(decl) && Fresh(s, decl, mint) && IsPlan(plan, s, decl)
      requires WrittenAt(ids, s, decl, mint, |decl|)
      requires tx == s.(projects := SettledRows(s, decl, actor, mint))
      modifies `tx
      ensures tx == Converged(s, decl, actor, mint)
    {
      ghost var t := tx;
      DeleteRevoked(t, plan);
      UpdateLevels(s, decl, t, plan);
      InsertAdded(s, decl, actor, mint, plan, ids);
      PlanSettles(s, decl, actor, mint, plan);
    }

    /** Everything `apply` writes, once nothing refuses it. */
    method WriteAll(ghost s: Store, decl: seq<Declared>, byKey: map<string, Stored>, toArchive: seq<Id>, plan: GrantPlan,
                    actor: string, mint: seq<Id>)
      returns (response: SyncResponse)
      requires Schema(s) && WellFormed(decl) && Fresh(s, decl, mint) && tx == s && IsPlan(plan, s, decl)
      requires forall key {:trigger MapsKey(byKey, s, key)} :: MapsKey(byKey, s, key)
      requires (forall id :: id in toArchive <==> id in ToArchive(s, decl)) && |toArchive| == |ToArchive(s, decl)|
      requires |plan.deletes| == |RevokedPairs(s, decl)| && |plan.inserts| == |AddedPairs(s, decl)|
      modifies `tx
      ensures response == Response(s, decl) && tx == Converged(s, decl, actor, mint)
    {
      var ids, counted := WriteRows(s, decl, byKey, actor, mint);
      Archive(toArchive, actor);
      ArchiveListed(s, decl, actor, mint, toArchive);
      WriteGrants(s, decl, actor, mint, plan, ids);
      var declared := CountGrants(decl);
      response := counted.(archived := |toArchive|, grantsDeclared := declared, grantsInserted := |plan.inserts|,
        grantsDeleted := |plan.deletes|, grantsKept := plan.kept);
    }

    /** `apply`, inside the caller's transaction. */
    method Apply(decl: seq<Declared>, actor: string, guards: Guards, mint: seq<Id>) returns (r: Result<SyncResponse>)
      requires Schema(tx) && WellFormed(decl) && Fresh(tx, decl, mint)
      modifies `tx
      ensures r == Sync(old(tx), decl, actor, guards, mint).0
      ensures r.Ok? ==> tx == Sync(old(tx), decl, actor, guards, mint).1
    {
      ghost var s := tx;
      var stored := OrgRows();
      var refused := RefuseAliases(decl);
      if refused {
        return Err(AlreadyExists);
      }
      var byKey := ByKey(s, stored);
      var keys := KeysOf(decl);
      var toArchive, active := ArchiveList(s, decl, stored, keys);
      if !guards.allowMassArchive && |toArchive| * 2 > active {
        return Err(FailedPrecondition);
      }
      var storedGrants := OrgGrantRows();
      var plan := Plan(s, decl, storedGrants);
      PlanSizes(s, decl, plan, storedGrants);
      if !guards.allowMassRevoke && |plan.deletes| * 2 > |storedGrants| {
        return Err(FailedPrecondition);
      }
      var response := WriteAll(s, decl, byKey, toArchive, plan, actor, mint);
      return Ok(response);
    }

    /** `sync_as`, once the caller is admitted and the declaration validated. */
    method SyncAs(decl: seq<Declared>, actor: string, guards: Guards, mint: seq<Id>) returns (r: Result<SyncResponse>)
      requires Schema(tables) && WellFormed(decl) && Fresh(tables, decl, mint)
      modifies this
      ensures (r, tables) == Sync(old(tables), decl, actor, guards, mint)
    {
      Begin();
      r := Apply(decl, actor, guards, mint);
      if r.Ok? {
        Commit();
      } else {
        Rollback();
      }
    }

    /** `SyncProjects`: refused on the request alone, refused by what is stored,
        or converged, and then every root and project sent is answered for as it
        was sent, and nothing else of an organisation is active. */
    method SyncProjects(req: SyncRequest, mint: seq<Id>) returns (r: Result<SyncResponse>)
      requires Schema(tables)
      requires DeclarationOk(req) ==> Fresh(tables, DeclaredOf(req), mint)
      modifies this
      ensures !DeclarationOk(req) ==> r == Err(InvalidArgument)
      ensures DeclarationOk(req) ==> WellFormed(DeclaredOf(req))
      ensures DeclarationOk(req) ==>
        (r, tables) == Sync(old(tables), DeclaredOf(req), req.userId, Guards(req.allowMassArchive, req.allowMassRevoke), mint)
      ensures r.Err? ==> tables == old(tables)
      ensures r == Err(AlreadyExists) <==>
        DeclarationOk(req) && exists d :: d in req.roots + req.projects && AliasAt(old(tables), Fold(d.path))
      ensures r == Err(FailedPrecondition) <==>
        && DeclarationOk(req) && (forall d :: d in req.roots + req.projects ==> !AliasAt(old(tables), Fold(d.path)))
        && (ArchivesTooMuch(old(tables), req) || RevokesTooMuch(old(tables), req))
      ensures r.Ok? ==> forall d :: d in req.roots + req.projects ==> AnswersAsSent(tables, d)
      ensures r.Ok? ==> forall id :: id in tables.projects && ActiveOrg(tables.projects[id]) ==>
        exists d :: d in req.roots + req.projects && Fold(d.path) == Fold(tables.projects[id].path)
      ensures r.Ok? ==> SyncLaws.CountsChanges(r.value, old(tables), tables)
    {
      ghost var s := tables;
      var decl := ValidateDeclaration(req);
      if decl.Err? {
        return Err(decl.code);
      }
      ValidatedIsWellFormed(req);
      RefusedIff(s, req);
      r := SyncAs(decl.value, req.userId, Guards(req.allowMassArchive, req.allowMassRevoke), mint);
      if r.Ok? {
        AcceptedIsAnswered(s, req, mint);
        SyncLaws.ResponseCountsChanges(s, decl.value, req.userId, mint);
      }
    }

    // ---- Register ----

    /** Every check `register` makes before it opens a transaction. */
    method CheckRegistration(req: RegisterRequest) returns (r: Result<()>)
      ensures r == Precheck(req)
    {
      var valid := Validate(req.path);
      if valid.Err? {
        return Err(valid.code);
      }
      if IsReservedRoot(req.path) || |req.displayName| > MAX_DISPLAY_NAME_CHARS {
        return Err(InvalidArgument);
      }
      r := ClassOf(req.path, req.scope.userId, req.sourceRepo);
    }

    /** `claim`: the insert decides, not a read before it. */
    method TakeKey(req: RegisterRequest) returns (claimed: bool)
      modifies `tx
      ensures claimed <==> !KeyUsed(old(tx), req)
      ensures tx == if claimed then ClaimedStore(old(tx), req) else old(tx)
    {
      var key := LedgerKeyOf(req);
      if key.None? {
        return true;
      }
      claimed := Execute(InsertClaim(key.value, Claim(RPC, PayloadOf(req), None)));
    }

    /** The insert and the record. */
    method InsertAndRecord(ghost s: Store, req: RegisterRequest, id: Id) returns (inserted: bool)
      requires Precheck(req).Ok? && !KeyUsed(s, req) && id !in s.projects && tx == ClaimedStore(s, req)
      modifies `tx
      ensures inserted <==> !LiveAt(s, Fold(req.path))
      ensures inserted ==> tx == RegisteredStore(s, req, id)
    {
      InsertDecides(s, req, id);
      inserted := Execute(InsertRow(id, PrivateRow(req)));
      if inserted && LedgerKeyOf(req).Some? {
        RecordFinishes(s, req, id);
        var recorded := Execute(RecordResponse(LedgerKeyOf(req).value, MetaOf(req, id)));
      }
    }

    /** `register`, and the claim, replay and record it is wrapped in: refused on
        the request alone, answered by a key already claimed, refused at a path
        already taken, or else stored. */
    method RegisterProject(req: RegisterRequest, id: Id) returns (r: Result<Option<Meta>>)
      requires id !in tables.projects
      modifies this
      ensures (r, tables) == Register(old(tables), req, id)
      ensures !Registrable(req) ==> tables == old(tables)
      ensures !ValidPath(req.path) || IsReservedRoot(req.path) || |req.displayName| > 255 ==> r == Err(InvalidArgument)
      ensures ValidPath(req.path) && !IsReservedRoot(req.path) && |req.displayName| <= 255 ==>
        var segment := AccountSegment(req.scope.userId);
        && (!IsPrivateClass(req.path) ==> r == Err(FailedPrecondition))
        && (IsPrivateClass(req.path) && segment.None? ==> r == Err(InvalidArgument))
        && (IsPrivateClass(req.path) && segment.Some? && !IsUnderOwnRoot(req.path, segment.value) ==> r == Err(PermissionDenied))
        && (OwnsPath(req.scope.userId, req.path) && req.sourceRepo != "" ==> r == Err(InvalidArgument))
      ensures Registrable(req) ==> forall key :: SentUnder(req, key) && key in old(tables).ledger ==>
        var claim := old(tables).ledger[key];
        tables == old(tables) && r == if ClaimedFor(claim, req) then Ok(claim.response) else Err(InvalidArgument)
      ensures Registrable(req) && !KeyUsed(old(tables), req) ==>
        var user := req.scope.userId;
        if AliasAt(old(tables), Fold(req.path)) || LiveAt(old(tables), Fold(req.path)) then
          r == Err(AlreadyExists) && tables == old(tables)
        else
          r == Ok(Some(Meta(id, 1, req.path, user, user, user))) && LeavesRow(old(tables), req, id, tables)
    {
      ghost var s := tables;
      OthersAreDecidedOn(req);
      if Registrable(req) {
        forall key | SentUnder(req, key) && key in s.ledger
          ensures Register(s, req, id) ==
            (if ClaimedFor(s.ledger[key], req) then Ok(s.ledger[key].response) else Err(InvalidArgument), s)
        {
          SpentKeyDecides(s, req, id, key);
        }
        if !KeyUsed(s, req) {
          LegalIsAccepted(s, req, id);
        }
      }
      var checked := CheckRegistration(req);
      if checked.Err? {
        return Err(checked.code);
      }
      Begin();
      var claimed := TakeKey(req);
      if !claimed {
        r := ReplayOf(tx.ledger[LedgerKeyOf(req).value], RPC, PayloadOf(req));
        Rollback();
        return;
      }
      if AliasAt(tx, Fold(req.path)) {
        Rollback();
        return Err(AlreadyExists);
      }
      var inserted := InsertAndRecord(tables, req, id);
      if !inserted {
        Rollback();
        return Err(AlreadyExists);
      }
      Commit();
      return Ok(Some(MetaOf(req, id)));
    }

    // ---- Touch ----

    method CheckFlush(paths: seq<string>, at: int) returns (ok: bool)
      ensures ok <==> TouchOk(paths, at)
    {
      if at < MIN_TIMESTAMP_SECONDS || at > MAX_TIMESTAMP_SECONDS || paths == [] || |paths| > MAX_TOUCH {
        return false;
      }
      for i := 0 to |paths|
        invariant forall k :: 0 <= k < i ==> ValidPath(paths[k])
      {
        var valid := Validate(paths[i]);
        if valid.Err? {
          return false;
        }
      }
      return true;
    }

    /** The UPDATE and the COUNT. */
    method UpdateAndCount(out: seq<string>, at: int) returns (matched: nat)
      modifies `tx
      ensures tx == TouchedStore(old(tx), Named(old(tx), out), at)
      ensures matched == |Named(old(tx), out)|
    {
      ghost var s := tx;
      var moved := Advanced(tx, Named(tx, out), at);
      var ok := Execute(SeeRows(moved, at));
      assert moved * s.projects.Keys == moved;
      NamedReadsPaths(s, tx, out);
      matched := |Named(tx, out)|;
    }

    /** `touch`: the rows the paths name advance, and the caller is warned by
        comparing the engine's count with the paths left after deduplication. */
    method TouchProjects(paths: seq<string>, at: int) returns (r: Result<()>, warned: bool)
      modifies this
      ensures r.Ok? <==> 1 <= at <= 2_147_483_647 && 1 <= |paths| <= 500 && forall i :: 0 <= i < |paths| ==> ValidPath(paths[i])
      ensures r.Err? ==> r.code == InvalidArgument && tables == old(tables)
      ensures r.Ok? ==> tables == TouchedStore(old(tables), Named(old(tables), paths), at)
      ensures r.Ok? ==> tables == old(tables).(seen := tables.seen)
      ensures r.Ok? ==> forall id :: id in old(tables).projects ==> SeenAfter(old(tables), tables, paths, at, id)
      ensures TouchOk(paths, at) ==>
        exists out :: KeysAscend(out) && FirstSpellings(out, paths) && (warned <==> Warns(old(tables), paths, out))
    {
      warned := false;
      var ok := CheckFlush(paths, at);
      if !ok {
        r := Err(InvalidArgument);
        return;
      }
      var out := Deduplicated(paths);
      SameRowsNamed(tables, paths, out);
      Begin();
      var matched := UpdateAndCount(out, at);
      Commit();
      warned := matched < |out|;
      assert Warns(old(tables), paths, out) <==> warned;
      r := Ok(());
    }

    // ---- Resolve and Get ----

    /** The two arms of `ancestor_rows`. */
    method FindAncestors(chain: seq<string>) returns (found: seq<Found>)
      ensures AncestorRows(tables, chain, found)
    {
      found := [];
      var ids := tables.projects.Keys;
      while ids != {}
        invariant ids <= tables.projects.Keys
        invariant forall f :: f in found <==> InChain(chain, f.matched) && exists id :: id !in ids && LiveFound(tables, id, f)
        decreases |ids|
      {
        var id :| id in ids;
        ids := ids - {id};
        var row := tables.projects[id];
        if InChain(chain, row.path) {
          found := found + [Found(row.path, row.path, row.status, false, row.sourceRepo)];
        }
      }
      ghost var live := found;
      var names := tables.aliases.Keys;
      while names != {}
        invariant names <= tables.aliases.Keys
        invariant forall f :: f in found <==>
          f in live || (InChain(chain, f.matched) && exists a :: a !in names && AliasFound(tables, a, f))
        decreases |names|
      {
        var a :| a in names;
        names := names - {a};
        if tables.aliases[a] in tables.projects && InChain(chain, a) {
          var row := tables.projects[tables.aliases[a]];
          found := found + [Found(a, row.path, row.status, true, row.sourceRepo)];
        }
      }
    }

    /** `resolve`: the row the nearest registered ancestor names. */
    method ResolveProject(candidate: string) returns (r: Result<Resolved>)
      requires Schema(tables)
      ensures r == Resolve(tables, candidate)
      ensures !ValidPath(candidate) || IsReservedRoot(candidate) ==> r == Err(InvalidArgument)
      ensures ValidPath(candidate) && !IsReservedRoot(candidate) && r.Err? ==>
        r.code == NotFound && forall q :: !NearestAncestor(tables, candidate, q)
      ensures r.Ok? ==> exists q :: NearestAncestor(tables, candidate, q) && AnswersFor(tables, candidate, q, r.value)
    {
      var valid := Validate(candidate);
      if valid.Err? {
        return Err(valid.code);
      }
      if IsReservedRoot(candidate) {
        return Err(InvalidArgument);
      }
      var ancestors := Ancestors(candidate);
      var chain := Climb(ancestors);
      ResolveIsNearestAncestor(tables, candidate);
      var found := FindAncestors(chain);
      r := ResolveFrom(tables, candidate, found);
    }

    /** The query of `get`: the live row when there is one, else the one a former
        path names. */
    method GetQuery(path: string) returns (row: Option<Id>)
      ensures GetRow(tables, path, row)
    {
      row := None;
      var ids := tables.projects.Keys;
      while ids != {}
        invariant ids <= tables.projects.Keys
        invariant row.None? ==> forall id :: id !in ids ==> !Names(tables, path, id)
        invariant row.Some? ==> Names(tables, path, row.value)
        invariant row.Some? && Fold(tables.projects[row.value].path) != Fold(path) ==>
          forall id :: id !in ids && Names(tables, path, id) ==> Fold(tables.projects[id].path) != Fold(path)
        decreases |ids|
      {
        var id :| id in ids;
        ids := ids - {id};
        if Names(tables, path, id) && (row.None? || Fold(tables.projects[id].path) == Fold(path)) {
          row := Some(id);
        }
      }
    }

    /** `get`: the project a path or a former path names, with its aliases and its
        grants. */
    method GetProject(path: string) returns (r: Result<Project>)
      requires Schema(tables) && GrantsNameTeams(tables)
      ensures !ValidPath(path) ==> r == Err(InvalidArgument)
      ensures ValidPath(path) && !Registered(tables, Fold(path)) ==> r == Err(NotFound)
      ensures ValidPath(path) && Registered(tables, Fold(path)) ==>
        r.Ok? && Filled(tables, TargetAt(tables, Fold(path)), r.value)
    {
      var valid := Validate(path);
      if valid.Err? {
        return Err(valid.code);
      }
      var row := GetQuery(path);
      GetRowIsTarget(tables, path, row);
      var found := Get(path, row);
      if found.Err? {
        return Err(found.code);
      }
      var filled := FillPage(tables, [found.value]);
      r := Ok(filled[0]);
    }

    // ---- List ----

    /** `list`: a page of the selection, each project with its aliases and its
        grants, and the token of the next page. */
    method ListProjects(req: ListRequest) returns (r: Result<(seq<Project>, string)>)
      requires Schema(tables) && GrantsNameTeams(tables)
      ensures r.Ok? <==>
        (req.status.None? || req.status.value in {1, 2}) && (req.underPath == "" || ValidPath(req.underPath))
      ensures r.Err? ==> r.code == InvalidArgument
      ensures r.Ok? ==> exists page :: (
        IsPage(tables, FilterOf(req), req.pageToken, PageSize(req.pageSize), page) && Shown(tables, page, r.value.0, r.value.1))
      ensures r.Ok? ==> ListsAskedFor(tables, req, r.value.0) && ListsInPages(req, r.value.0, r.value.1)
      ensures r.Ok? && PathsLegal(tables) ==> ListsAll(tables, req, r.value.0, r.value.1)
    {
      if req.status.Some? && StatusOf(req.status.value).None? {
        return Err(InvalidArgument);
      }
      if req.underPath != "" {
        var valid := Validate(req.underPath);
        if valid.Err? {
          return Err(valid.code);
        }
      }
      var rows := PageQuery(tables, FilterOf(req), req.pageToken, PageSize(req.pageSize));
      var page := List(tables, FilterOf(req), req.pageToken, req.pageSize, rows);
      PageAnswersRequest(tables, req, page);
      var projects := FillPage(tables, page.rows);
      ShownAreAskedFor(tables, req, page, projects);
      if PathsLegal(tables) {
        ShownAreAll(tables, req, page, projects);
      }
      r := Ok((projects, page.next));
    }
  }

  method CountGrants(decl: seq<Declared>) returns (n: nat)
    ensures n == DeclaredGrants(decl, |decl|)
  {
    n := 0;
    for i := 0 to |decl|
      invariant n == DeclaredGrants(decl, i)
    {
      n := n + |decl[i].grants|;
    }
  }

  lemma IdsExtend(ids: map<string, Id>, s: Store, decl: seq<Declared>, mint: seq<Id>, k: nat, id: Id)
    requires WrittenAt(ids, s, decl, mint, k) && k < |decl| && Keyed(decl)
    requires id == if HasOrg(s, decl[k].Key()) then OrgAt(s, decl[k].Key()) else mint[k]
    ensures WrittenAt(ids[decl[k].Key() := id], s, decl, mint, k + 1)
  {
  }

  lemma PlanSizes(s: Store, decl: seq<Declared>, plan: GrantPlan, stored: seq<StoredGrant>)
    requires Keyed(decl) && IsPlan(plan, s, decl) && ReadsGrants(s, stored)
    ensures |plan.deletes| == |RevokedPairs(s, decl)| && |plan.inserts| == |AddedPairs(s, decl)|
    ensures |stored| == |OrgGrants(s)|
  {
    SyncLaws.PlanCounts(s, decl, plan);
    AllPairs(s, stored);
    var pairs := seq(|stored|, i requires 0 <= i < |stored| => stored[i].Pair());
    forall x
      ensures x in pairs <==> x in OrgGrants(s)
    {
      if x in OrgGrants(s) {
        assert PairAmong(stored, |stored|, x);
        var i :| 0 <= i < |stored| && stored[i].Pair() == x;
        assert pairs[i] == x;
      }
      if x in pairs {
        var i :| 0 <= i < |pairs| && pairs[i] == x;
        assert PairAmong(stored, |stored|, x);
      }
    }
    SyncLaws.DistinctCount(pairs, OrgGrants(s));
  }

  lemma RowsExtend(before: seq<Stored>, after: seq<Stored>)
    requires |after| == |before| + 1 && after[..|before|] == before
    ensures forall id :: RowAmong(before, |before|, id) ==> RowAmong(after, |after|, id)
    ensures RowAmong(after, |after|, after[|before|].id)
  {
    forall id | RowAmong(before, |before|, id)
      ensures RowAmong(after, |after|, id)
    {
      var i :| 0 <= i < |before| && before[i].id == id;
      assert after[i].id == id;
    }
  }

  lemma PairsExtend(before: seq<StoredGrant>, after: seq<StoredGrant>)
    requires |after| == |before| + 1 && after[..|before|] == before
    ensures forall x :: PairAmong(before, |before|, x) ==> PairAmong(after, |after|, x)
    ensures PairAmong(after, |after|, after[|before|].Pair())
  {
    forall x | PairAmong(before, |before|, x)
      ensures PairAmong(after, |after|, x)
    {
      var i :| 0 <= i < |before| && before[i].Pair() == x;
      assert after[i].Pair() == x;
    }
  }
}
