/** Which stored rows a sync locks: those it changes, and those it grants a new
    team on, a grant's foreign key locking its row (src/write/sync.rs,
    src/write/grants.rs, src/schema.rs). */
module LockedRows {
  import opened Declaration
  import opened GrantPlans
  import opened Interleaving
  import opened Reconcile
  import opened Registry
  import opened RowLocks
  import opened SyncLaws
  import opened Text

  /** Some statement locks the row. */
  ghost predicate SomeLocks(ws: seq<Write>, scan: seq<Id>, id: Id) {
    exists w {:trigger LocksOf(w, scan)} :: w in ws && id in LocksOf(w, scan)
  }

  lemma SomeLocksConcat(a: seq<Write>, b: seq<Write>, scan: seq<Id>, id: Id)
    ensures SomeLocks(a + b, scan, id) <==> SomeLocks(a, scan, id) || SomeLocks(b, scan, id)
  {
    if w {:trigger LocksOf(w, scan)} :| w in a && id in LocksOf(w, scan) {
      assert w in a + b;
    } else if w {:trigger LocksOf(w, scan)} :| w in b && id in LocksOf(w, scan) {
      assert w in a + b;
    }
  }

  lemma SomeLocksOne(w: Write, scan: seq<Id>, id: Id)
    ensures SomeLocks([w], scan, id) <==> id in LocksOf(w, scan)
  {
    assert w in [w];
  }

  lemma {:induction false} LockListIs(ws: seq<Write>, scan: seq<Id>, k: nat, id: Id)
    requires k <= |ws|
    ensures id in LockList(ws, scan, k) <==> SomeLocks(ws[..k], scan, id)
  {
    if k > 0 {
      LockListIs(ws, scan, k - 1, id);
      assert ws[..k] == ws[..k - 1] + [ws[k - 1]];
      SomeLocksConcat(ws[..k - 1], [ws[k - 1]], scan, id);
      SomeLocksOne(ws[k - 1], scan, id);
    }
  }

  ghost predicate Overwrites(s: Store, d: Declared, id: Id) {
    HasOrg(s, d.Key()) && OrgAt(s, d.Key()) == id && !FateOf(s, d).Keep?
  }

  lemma RowWriteLocks(s: Store, decl: seq<Declared>, actor: string, mint: seq<Id>, i: nat, scan: seq<Id>, id: Id)
    requires i < |decl| && i < |mint|
    ensures SomeLocks(RowWrite(s, decl, actor, mint, i), scan, id) <==> Overwrites(s, decl[i], id)
  {
    var ws := RowWrite(s, decl, actor, mint, i);
    if ws != [] {
      assert ws == [ws[0]];
      SomeLocksOne(ws[0], scan, id);
    }
  }

  lemma {:induction false} RowWritesLock(s: Store, decl: seq<Declared>, actor: string, mint: seq<Id>, k: nat, scan: seq<Id>, id: Id)
    requires |mint| == |decl| && k <= |decl|
    ensures SomeLocks(RowWrites(s, decl, actor, mint, k), scan, id) <==> exists i :: 0 <= i < k && Overwrites(s, decl[i], id)
  {
    if k > 0 {
      RowWritesLock(s, decl, actor, mint, k - 1, scan, id);
      RowWriteLocks(s, decl, actor, mint, k - 1, scan, id);
      SomeLocksConcat(RowWrites(s, decl, actor, mint, k - 1), RowWrite(s, decl, actor, mint, k - 1), scan, id);
    }
  }

  lemma ArchiveLocks(s: Store, decl: seq<Declared>, actor: string, scan: seq<Id>, id: Id)
    requires Lists(scan, ToArchive(s, decl))
    ensures SomeLocks(ArchiveWrites(s, decl, actor), scan, id) <==> id in ToArchive(s, decl)
  {
    SomeLocksOne(ArchiveRows(ToArchive(s, decl), actor), scan, id);
  }

  lemma {:induction false} DeletesLock(deletes: seq<Pair>, k: nat, scan: seq<Id>, id: Id)
    ensures !SomeLocks(DeleteWrites(deletes, k), scan, id)
  {
    if 0 < k <= |deletes| {
      var w := DeleteGrant(deletes[k - 1].0, deletes[k - 1].1);
      DeletesLock(deletes, k - 1, scan, id);
      SomeLocksConcat(DeleteWrites(deletes, k - 1), [w], scan, id);
      SomeLocksOne(w, scan, id);
    }
  }

  lemma {:induction false} UpdatesLock(updates: seq<(Id, string, Level)>, k: nat, scan: seq<Id>, id: Id)
    ensures !SomeLocks(UpdateWrites(updates, k), scan, id)
  {
    if 0 < k <= |updates| {
      var w := SetLevel(updates[k - 1].0, updates[k - 1].1, updates[k - 1].2);
      UpdatesLock(updates, k - 1, scan, id);
      SomeLocksConcat(UpdateWrites(updates, k - 1), [w], scan, id);
      SomeLocksOne(w, scan, id);
    }
  }

  lemma {:induction false} InsertsLock(inserts: seq<(string, string, Level)>, rows: map<Id, Row>, k: nat, scan: seq<Id>, id: Id)
    requires k <= |inserts|
    ensures SomeLocks(InsertWrites(inserts, rows, k), scan, id) <==> exists i :: 0 <= i < k && InsertPair(rows, inserts[i]).0 == id
  {
    if k > 0 {
      var w := InsertGrant(RowIdAt(rows, inserts[k - 1].0), inserts[k - 1].1, inserts[k - 1].2);
      InsertsLock(inserts, rows, k - 1, scan, id);
      SomeLocksConcat(InsertWrites(inserts, rows, k - 1), [w], scan, id);
      SomeLocksOne(w, scan, id);
    }
  }

  ghost predicate Inserts(plan: GrantPlan, rows: map<Id, Row>, id: Id) {
    exists i :: 0 <= i < |plan.inserts| && InsertPair(rows, plan.inserts[i]).0 == id
  }

  lemma GrantsLock(plan: GrantPlan, rows: map<Id, Row>, scan: seq<Id>, id: Id)
    ensures SomeLocks(GrantWrites(plan, rows), scan, id) <==> Inserts(plan, rows, id)
  {
    var d, u, n := DeleteWrites(plan.deletes, |plan.deletes|), UpdateWrites(plan.updates, |plan.updates|),
      InsertWrites(plan.inserts, rows, |plan.inserts|);
    DeletesLock(plan.deletes, |plan.deletes|, scan, id);
    UpdatesLock(plan.updates, |plan.updates|, scan, id);
    InsertsLock(plan.inserts, rows, |plan.inserts|, scan, id);
    SomeLocksConcat(u, n, scan, id);
    SomeLocksConcat(d, u + n, scan, id);
  }

  // ---- In terms of what the sync leaves ----

  /** The sync leaves this stored row changed, or with a team it had no grant for. */
  ghost predicate Alters(s: Store, decl: seq<Declared>, actor: string, mint: seq<Id>, id: Id) {
    var t := Converged(s, decl, actor, mint);
    && id in s.projects && id in t.projects
    && (t.projects[id] != s.projects[id] || exists team {:trigger (id, team) in t.grants} :: (id, team) in t.grants && (id, team) !in s.grants)
  }

  /** A row is written exactly when it changes. */
  lemma WrittenIsChanged(s: Store, decl: seq<Declared>, actor: string, mint: seq<Id>, id: Id)
    requires Schema(s) && WellFormed(decl) && Fresh(s, decl, mint) && id in s.projects
    ensures (exists i :: 0 <= i < |decl| && Overwrites(s, decl[i], id)) || id in ToArchive(s, decl)
      <==> SettledRow(s.projects[id], decl, actor) != s.projects[id]
  {
    var row := s.projects[id];
    var i := IndexOf(decl, Fold(row.path));
    if IsOrg(row) {
      OrgAtUnique(s, id);
    }
    forall j | 0 <= j < |decl| && Overwrites(s, decl[j], id)
      ensures j == i && IsOrg(row)
    {
      IndexOfDeclared(decl, j);
    }
    if IsOrg(row) && i < |decl| {
      assert decl[i].Key() == Fold(row.path);
      assert Overwrites(s, decl[i], id) <==> !FateOfRow(row, decl[i]).Keep?;
    }
  }

  lemma SettledStored(s: Store, decl: seq<Declared>, actor: string, mint: seq<Id>, id: Id)
    requires Fresh(s, decl, mint) && id in s.projects
    ensures id in SettledRows(s, decl, actor, mint) && SettledRows(s, decl, actor, mint)[id] == SettledRow(s.projects[id], decl, actor)
  {
    MintedAreNew(s, decl, actor, mint, |decl|, id);
  }

  /** A grant is inserted on a row exactly when it ends with a team it lacked. */
  lemma InsertedIsGranted(s: Store, decl: seq<Declared>, actor: string, mint: seq<Id>, plan: GrantPlan, id: Id)
    requires Schema(s) && WellFormed(decl) && Fresh(s, decl, mint) && IsPlan(plan, s, decl)
    ensures var rows := SettledRows(s, decl, actor, mint);
      Inserts(plan, rows, id) <==>
        exists team {:trigger (id, team) in SettledGrants(s, decl, rows)} :: (id, team) in SettledGrants(s, decl, rows) && (id, team) !in s.grants
  {
    var rows := SettledRows(s, decl, actor, mint);
    var t := SettledGrants(s, decl, rows);
    InsertsAreNew(s, decl, actor, mint, plan);
    if Inserts(plan, rows, id) {
      var i :| 0 <= i < |plan.inserts| && InsertPair(rows, plan.inserts[i]).0 == id;
      var x := InsertPair(rows, plan.inserts[i]);
      assert InsertNames(plan.inserts, rows, |plan.inserts|, x);
      NewPairSettles(s, decl, actor, mint, plan, x);
      assert (id, x.1) in t;
    }
    if team {:trigger (id, team) in t} :| (id, team) in t && (id, team) !in s.grants {
      NewPairSettles(s, decl, actor, mint, plan, (id, team));
    }
  }

  /** The stored rows a sync locks are those it changes and those it grants a new
      team on. */
  lemma SyncLocksItsRows(s: Store, decl: seq<Declared>, actor: string, mint: seq<Id>, plan: GrantPlan, scan: seq<Id>, id: Id)
    requires Schema(s) && WellFormed(decl) && Fresh(s, decl, mint) && IsPlan(plan, s, decl) && Lists(scan, ToArchive(s, decl))
    requires id in s.projects
    ensures var ws := SyncWrites(s, decl, actor, mint, plan);
      id in LockList(ws, scan, |ws|) <==> Alters(s, decl, actor, mint, id)
  {
    var ws, rows := SyncWrites(s, decl, actor, mint, plan), SettledRows(s, decl, actor, mint);
    LockListIs(ws, scan, |ws|, id);
    assert ws[..|ws|] == ws;
    SomeLocksConcat(ArchiveWrites(s, decl, actor), GrantWrites(plan, rows), scan, id);
    SomeLocksConcat(RowWrites(s, decl, actor, mint, |decl|), ArchiveWrites(s, decl, actor) + GrantWrites(plan, rows), scan, id);
    RowWritesLock(s, decl, actor, mint, |decl|, scan, id);
    ArchiveLocks(s, decl, actor, scan, id);
    GrantsLock(plan, rows, scan, id);
    WrittenIsChanged(s, decl, actor, mint, id);
    SettledStored(s, decl, actor, mint, id);
    InsertedIsGranted(s, decl, actor, mint, plan, id);
  }

  // ---- The locks taken to change a row ----

  lemma {:induction false} DeletesRewriteNothing(deletes: seq<Pair>, k: nat)
    ensures forall w :: w in DeleteWrites(deletes, k) ==> !Rewrites(w)
  {
    if 0 < k <= |deletes| {
      DeletesRewriteNothing(deletes, k - 1);
    }
  }

  lemma {:induction false} UpdatesRewriteNothing(updates: seq<(Id, string, Level)>, k: nat)
    ensures forall w :: w in UpdateWrites(updates, k) ==> !Rewrites(w)
  {
    if 0 < k <= |updates| {
      UpdatesRewriteNothing(updates, k - 1);
    }
  }

  lemma {:induction false} InsertsRewriteNothing(inserts: seq<(string, string, Level)>, rows: map<Id, Row>, k: nat)
    ensures forall w :: w in InsertWrites(inserts, rows, k) ==> !Rewrites(w)
  {
    if 0 < k <= |inserts| {
      InsertsRewriteNothing(inserts, rows, k - 1);
    }
  }

  lemma GrantsRewriteNothing(plan: GrantPlan, rows: map<Id, Row>)
    ensures forall w :: w in GrantWrites(plan, rows) ==> !Rewrites(w)
  {
    DeletesRewriteNothing(plan.deletes, |plan.deletes|);
    UpdatesRewriteNothing(plan.updates, |plan.updates|);
    InsertsRewriteNothing(plan.inserts, rows, |plan.inserts|);
  }

  /** Some statement locks the row to change it. */
  ghost predicate SomeRewrites(ws: seq<Write>, scan: seq<Id>, id: Id) {
    exists w {:trigger LocksOf(w, scan)} :: w in ws && Rewrites(w) && id in LocksOf(w, scan)
  }

  lemma RowsAndArchiveRewrite(s: Store, decl: seq<Declared>, actor: string, mint: seq<Id>, scan: seq<Id>, id: Id)
    requires |mint| == |decl|
    ensures var ws := RowWrites(s, decl, actor, mint, |decl|) + ArchiveWrites(s, decl, actor);
      SomeRewrites(ws, scan, id) <==> SomeLocks(ws, scan, id)
  {
    RowsLockToRewrite(s, decl, actor, mint, |decl|, scan);
  }

  lemma {:induction false} RowsLockToRewrite(s: Store, decl: seq<Declared>, actor: string, mint: seq<Id>, k: nat, scan: seq<Id>)
    requires |mint| == |decl| && k <= |decl|
    ensures forall w {:trigger LocksOf(w, scan)} :: w in RowWrites(s, decl, actor, mint, k) && LocksOf(w, scan) != [] ==> Rewrites(w)
  {
    if k > 0 {
      RowsLockToRewrite(s, decl, actor, mint, k - 1, scan);
    }
  }

  /** The stored rows a sync locks to change are exactly those it changes. */
  lemma SyncRewritesItsRows(s: Store, decl: seq<Declared>, actor: string, mint: seq<Id>, plan: GrantPlan, scan: seq<Id>, id: Id)
    requires Schema(s) && WellFormed(decl) && Fresh(s, decl, mint) && Lists(scan, ToArchive(s, decl))
    ensures SomeRewrites(SyncWrites(s, decl, actor, mint, plan), scan, id) <==>
      id in s.projects && SettledRow(s.projects[id], decl, actor) != s.projects[id]
  {
    var rows, archive := RowWrites(s, decl, actor, mint, |decl|), ArchiveWrites(s, decl, actor);
    var grants := GrantWrites(plan, SettledRows(s, decl, actor, mint));
    GrantsRewriteNothing(plan, SettledRows(s, decl, actor, mint));
    assert SyncWrites(s, decl, actor, mint, plan) == rows + archive + grants;
    assert SomeRewrites(rows + archive + grants, scan, id) <==> SomeRewrites(rows + archive, scan, id) by {
      SomeRewritesConcat(rows + archive, grants, scan, id);
    }
    RowsAndArchiveRewrite(s, decl, actor, mint, scan, id);
    SomeLocksConcat(rows, archive, scan, id);
    RowWritesLock(s, decl, actor, mint, |decl|, scan, id);
    ArchiveLocks(s, decl, actor, scan, id);
    if id in s.projects {
      WrittenIsChanged(s, decl, actor, mint, id);
    }
  }

  lemma SomeRewritesConcat(a: seq<Write>, b: seq<Write>, scan: seq<Id>, id: Id)
    requires forall w :: w in b ==> !Rewrites(w)
    ensures SomeRewrites(a + b, scan, id) <==> SomeRewrites(a, scan, id)
  {
    if w {:trigger LocksOf(w, scan)} :| w in a && Rewrites(w) && id in LocksOf(w, scan) {
      assert w in a + b;
    }
  }

  lemma CheckedAt(ws: seq<Write>, scan: seq<Id>, j: nat, m: nat)
    requires j < |ws| && m < |LocksOf(ws[j], scan)| && Rewrites(ws[j])
    ensures var i := |LockList(ws, scan, j)| + m;
      && i < |LockList(ws, scan, |ws|)| && i < |Checks(ws, scan, |ws|)|
      && LockList(ws, scan, |ws|)[i] == LocksOf(ws[j], scan)[m] && Checks(ws, scan, |ws|)[i]
  {
    CheckHere(ws, scan, j, m);
    HereIsNext(ws, scan, j, LocksOf(ws[j], scan));
    SegmentAt(LockList(ws, scan, j), LocksOf(ws[j], scan), m, LockList(ws, scan, |ws|));
  }

  lemma SegmentAt(a: seq<Id>, h: seq<Id>, m: nat, whole: seq<Id>)
    requires a + h <= whole && m < |h|
    ensures |a| + m < |whole| && whole[|a| + m] == h[m]
  {
    assert (a + h)[|a| + m] == h[m];
  }

  /** A row some statement locks to change is one of the locks taken to change. */
  lemma CheckedSomewhere(ws: seq<Write>, scan: seq<Id>, id: Id) returns (i: nat)
    requires SomeRewrites(ws, scan, id)
    ensures i < |LockList(ws, scan, |ws|)| && i < |Checks(ws, scan, |ws|)|
    ensures LockList(ws, scan, |ws|)[i] == id && Checks(ws, scan, |ws|)[i]
  {
    var w {:trigger LocksOf(w, scan)} :| w in ws && Rewrites(w) && id in LocksOf(w, scan);
    var j :| 0 <= j < |ws| && ws[j] == w;
    var m :| 0 <= m < |LocksOf(w, scan)| && LocksOf(w, scan)[m] == id;
    i := |LockList(ws, scan, j)| + m;
    CheckedAt(ws, scan, j, m);
  }
}
