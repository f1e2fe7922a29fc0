/** What a sync's snapshot is worth to it: the rows it has read, a flush may move
    under it until it locks them, and then the engine refuses its UPDATE and the
    caller is answered INTERNAL (src/write/sync.rs, src/write/touch.rs,
    src/sql.rs). */
module Snapshots {
  import opened Congruence
  import opened History
  import opened Interleaving
  import opened Linearization
  import opened LockedRows
  import opened Operations
  import opened Outcome
  import opened Reconcile
  import opened Registry
  import opened RowLocks
  import opened Serializability
  import opened Syncs
  import opened Touches

  // ---- Flushes that move a row ----

  /** The `i`th answered call is a flush that moves this row. */
  ghost predicate FlushMoves(init: Store, log: seq<Event>, i: nat, row: Id)
    requires i < |log|
  {
    log[i].op.TouchOp? && row in Advanced(Run(init, OpsOf(log[..i])), log[i].op.ids, log[i].op.at)
  }

  /** Some call answered at `from` or later is. */
  ghost predicate MovedSince(init: Store, log: seq<Event>, from: nat, row: Id) {
    exists i {:trigger FlushMoves(init, log, i, row)} :: from <= i < |log| && FlushMoves(init, log, i, row)
  }

  /** What one call does to when a row was last seen. */
  lemma SeenOfCall(s: Store, op: Op, row: Id)
    ensures op.TouchOp? && row in Advanced(s, op.ids, op.at) ==>
      row in Apply(s, op).1.seen && (row in s.seen ==> s.seen[row] < Apply(s, op).1.seen[row])
    ensures !(op.TouchOp? && row in Advanced(s, op.ids, op.at)) ==> SeenAlike(s, Apply(s, op).1, row)
  {
  }

  lemma MovesStands(init: Store, log: seq<Event>, more: seq<Event>, i: nat, row: Id)
    requires i < |log| && log <= more
    ensures FlushMoves(init, more, i, row) <==> FlushMoves(init, log, i, row)
  {
    assert more[..i] == log[..i];
  }

  lemma MovedSinceNext(init: Store, log: seq<Event>, from: nat, row: Id)
    requires from < |log|
    ensures var n := |log| - 1;
      MovedSince(init, log, from, row) <==> MovedSince(init, log[..n], from, row) || FlushMoves(init, log, n, row)
  {
    var n := |log| - 1;
    forall i | 0 <= i < n
      ensures FlushMoves(init, log, i, row) <==> FlushMoves(init, log[..n], i, row)
    {
      MovesStands(init, log[..n], log, i, row);
    }
  }

  /** A row was last seen later than it was if some flush moved it, and as it was
      if none did. */
  lemma {:induction false} SeenSince(init: Store, log: seq<Event>, from: nat, row: Id)
    requires Runnable(init, OpsOf(log)) && from <= |log|
    ensures var a, z := Run(init, OpsOf(log[..from])), Run(init, OpsOf(log));
      && (MovedSince(init, log, from, row) ==> row in z.seen && (row in a.seen ==> a.seen[row] < z.seen[row]))
      && (!MovedSince(init, log, from, row) ==> SeenAlike(a, z, row))
  {
    var n := |log| - 1;
    if from == |log| {
      assert log[..from] == log;
    } else {
      LastOfLog(init, log);
      assert log[..n][..from] == log[..from];
      SeenSince(init, log[..n], from, row);
      MovedSinceNext(init, log, from, row);
      SeenOfCall(Run(init, OpsOf(log[..n])), log[n].op, row);
    }
  }

  lemma LastOfLog(init: Store, log: seq<Event>)
    requires Runnable(init, OpsOf(log)) && log != []
    ensures var n := |log| - 1;
      Runnable(init, OpsOf(log[..n])) && Run(init, OpsOf(log)) == Apply(Run(init, OpsOf(log[..n])), log[n].op).1
  {
    var n := |log| - 1;
    PrefixRunnable(init, OpsOf(log), n);
    OpsNext(log, n);
    assert OpsOf(log)[..n] == OpsOf(log[..n]) && OpsOf(log)[..n + 1] == OpsOf(log);
    RunSnoc(init, OpsOf(log[..n]), log[n].op);
  }

  // ---- What a sync read, and when ----

  predicate Reading(txn: Txn) {
    txn.SyncTxn? && (txn.sync.RowsRead? || txn.sync.AliasesRead? || txn.sync.Writing?)
  }

  /** What it read is what was committed then. */
  ghost predicate ReadOk(init: Store, log: seq<Event>, txn: Txn) {
    Reading(txn) ==> txn.sync.read <= |log| && txn.sync.base == Run(init, OpsOf(log[..txn.sync.read]))
  }

  /** No row it has locked to change has changed since. */
  ghost predicate LockedAlike(c: Store, txn: Txn) {
    forall i {:trigger StaleAt(c, txn, i)} :: 0 <= i < |Held(txn)| ==> !StaleAt(c, txn, i)
  }

  /** This call is a sync nothing refuses, and it changes the row. */
  ghost predicate Changed(c: Store, op: Op, row: Id) {
    && op.SyncOp? && Refusal(c, op.decl, op.guards).None? && row in c.projects
    && SettledRow(c.projects[row], op.decl, op.actor) != c.projects[row]
  }

  /** A failure: a sync answered INTERNAL for a row it was to change, which a flush
      answered since the sync read its rows has moved. */
  ghost predicate FailedOk(init: Store, log: seq<Event>, f: Failure) {
    && f.answer == Synced(Err(Internal)) && f.read <= f.ended <= |log|
    && MovedSince(init, log[..f.ended], f.read, f.row) && Changed(Run(init, OpsOf(log[..f.ended])), f.op, f.row)
  }

  ghost predicate SnapshotsOk(init: Store, s: State) {
    && (forall t {:trigger s.live[t]} :: t in s.live ==> ReadOk(init, s.log, s.live[t]) && LockedAlike(s.committed, s.live[t]))
    && (forall j {:trigger s.failed[j]} :: 0 <= j < |s.failed| ==> FailedOk(init, s.log, s.failed[j]))
  }

  // ---- The committed tables under a step ----

  lemma SameLogSameTables(init: Store, s: State, s': State)
    requires Inv(init, s) && Inv(init, s') && s'.log == s.log
    ensures s'.committed == s.committed
  {
  }

  lemma AnsweredTables(init: Store, s: State, s': State, e: Event)
    requires Inv(init, s) && Inv(init, s') && s'.log == s.log + [e]
    ensures s'.committed == Apply(s.committed, e.op).1
  {
    LastOfLog(init, s'.log);
    assert s'.log[..|s.log|] == s.log;
  }

  /** A flush that ends has locked every row it names. */
  lemma EndedHoldsNamed(init: Store, s: State, s': State, t: TxId)
    requires Inv(init, s) && Steps(s, s', t) && t !in s'.live && s.live[t].TouchTxn?
    ensures Scans(s.live[t]) && forall x :: x in s.live[t].touch.named ==> x in Held(s.live[t])
  {
    TouchOkOf(init, s, t);
    assert s.live[t].touch.held == s.live[t].touch.order;
  }

  /** A step changes when a row was last seen only if its transaction has it
      locked. */
  lemma OthersRowsAlike(init: Store, s: State, s': State, t: TxId, row: Id)
    requires Inv(init, s) && Inv(init, s') && Acts(s, s', t) && (t in s.live ==> row !in Held(s.live[t]))
    ensures SeenAlike(s.committed, s'.committed, row)
  {
    StepShape(s, s', t);
    if Answers(s, s', t) {
      assert !Aborts(s, s', t);
      var answer :| s'.log == s.log + [EventOf(s, t, s.live[t], answer)];
      AnsweredTables(init, s, s', EventOf(s, t, s.live[t], answer));
      SeenOfCall(s.committed, OpOf(s.live[t]), row);
      if s.live[t].TouchTxn? {
        EndedHoldsNamed(init, s, s', t);
      }
    } else {
      SameLogSameTables(init, s, s');
    }
  }

  // ---- What a sync has locked stays as it was ----

  lemma OthersStayAlike(init: Store, s: State, s': State, t: TxId, u: TxId)
    requires Inv(init, s) && Inv(init, s') && Acts(s, s', t) && u in s.live && u != t
    requires LocksOk(s.live[u]) && LockedAlike(s.committed, s.live[u])
    ensures LockedAlike(s'.committed, s.live[u])
  {
    var txn := s.live[u];
    HeldIsPrefix(txn);
    forall i {:trigger StaleAt(s'.committed, txn, i)} | 0 <= i < |Held(txn)|
      ensures !StaleAt(s'.committed, txn, i)
    {
      var row := Held(txn)[i];
      assert row == Script(txn)[i];
      if t in s.live {
        assert Apart(s.live[u], s.live[t]);
        assert row in HeldRows(txn);
      }
      OthersRowsAlike(init, s, s', t, row);
      assert !StaleAt(s.committed, txn, i);
    }
  }

  lemma TookAlike(c: Store, txn: Txn)
    requires txn.SyncTxn? && LocksOk(txn) && txn.sync.Writing? && Wants(txn).Some?
    requires LockedAlike(c, txn) && !Stale(c, txn, Wants(txn).value)
    ensures LockedAlike(c, txn.(sync := Took(txn.sync, Wants(txn).value)))
  {
    StaleIsNext(c, txn);
    var txn' := txn.(sync := Took(txn.sync, Wants(txn).value));
    forall i {:trigger StaleAt(c, txn', i)} | 0 <= i < |Held(txn')|
      ensures !StaleAt(c, txn', i)
    {
      assert !StaleAt(c, txn, i);
    }
  }

  lemma WroteAlike(c: Store, txn: Txn)
    requires txn.SyncTxn? && txn.sync.Writing? && LockedAlike(c, txn)
    ensures LockedAlike(c, txn.(sync := txn.sync.(done := txn.sync.done + 1, taken := 0)))
  {
    var txn' := txn.(sync := txn.sync.(done := txn.sync.done + 1, taken := 0));
    forall i {:trigger StaleAt(c, txn', i)} | 0 <= i < |Held(txn')|
      ensures !StaleAt(c, txn', i)
    {
      assert !StaleAt(c, txn, i);
    }
  }

  lemma TakingStays(init: Store, s: State, s': State, t: TxId)
    requires t in s.live && Wants(s.live[t]).Some? && s.live[t].SyncTxn? && SyncTakes(s, s', t, s.live[t]) && t in s'.live
    requires LocksOk(s.live[t]) && ReadOk(init, s.log, s.live[t]) && LockedAlike(s.committed, s.live[t])
    ensures ReadOk(init, s.log, s'.live[t]) && LockedAlike(s.committed, s'.live[t])
  {
    TookAlike(s.committed, s.live[t]);
  }

  lemma WritesStay(init: Store, s: State, s': State, t: TxId)
    requires t in s.live && s.live[t].SyncTxn? && s.live[t].sync.Writing? && Wants(s.live[t]).None?
    requires SyncSteps(s, s', t, s.live[t]) && t in s'.live
    requires ReadOk(init, s.log, s.live[t]) && LockedAlike(s.committed, s.live[t])
    ensures ReadOk(init, s.log, s'.live[t]) && LockedAlike(s.committed, s'.live[t])
  {
    WroteAlike(s.committed, s.live[t]);
  }

  lemma ReadingStays(init: Store, s: State, s': State, t: TxId)
    requires Inv(init, s) && t in s.live && s.live[t].SyncTxn? && !s.live[t].sync.Writing?
    requires SyncSteps(s, s', t, s.live[t]) && t in s'.live && ReadOk(init, s.log, s.live[t])
    ensures ReadOk(init, s.log, s'.live[t]) && Held(s'.live[t]) == []
  {
    assert s.log[..|s.log|] == s.log;
  }

  lemma SyncStepStays(init: Store, s: State, s': State, t: TxId)
    requires Inv(init, s) && t in s.live && s.live[t].SyncTxn? && SyncSteps(s, s', t, s.live[t]) && t in s'.live
    requires LocksOk(s.live[t]) && ReadOk(init, s.log, s.live[t]) && LockedAlike(s.committed, s.live[t])
    ensures ReadOk(init, s'.log, s'.live[t]) && LockedAlike(s'.committed, s'.live[t])
  {
    if !s.live[t].sync.Writing? {
      ReadingStays(init, s, s', t);
    } else if Wants(s.live[t]).Some? {
      TakingStays(init, s, s', t);
    } else {
      WritesStay(init, s, s', t);
    }
  }

  lemma ReadStands(init: Store, log: seq<Event>, more: seq<Event>, txn: Txn)
    requires log <= more && ReadOk(init, log, txn)
    ensures ReadOk(init, more, txn)
  {
    if Reading(txn) {
      assert more[..txn.sync.read] == log[..txn.sync.read];
    }
  }

  lemma NoSyncReads(init: Store, log: seq<Event>, c: Store, txn: Txn)
    requires !txn.SyncTxn? || txn.sync.Locking?
    ensures ReadOk(init, log, txn) && LockedAlike(c, txn)
  {
  }

  // ---- Failures ----

  /** What a sync under way is to change is what it changes alone. */
  lemma RewritesAreChanges(c: Store, txn: Txn, row: Id)
    requires Valid(c) && txn.SyncTxn? && txn.sync.Writing? && SyncOk(c, true, txn) && LocksOk(txn)
    ensures SomeRewrites(txn.sync.ws, txn.sync.scan, row) <==>
      row in c.projects && SettledRow(c.projects[row], txn.decl, txn.actor) != c.projects[row]
  {
    OrgSameSymmetric(txn.sync.base, c);
    SameWrites(c, txn.sync.base, txn.decl, txn.actor, txn.mint, txn.sync.plan);
    SameArchive(txn.sync.base, c, txn.decl);
    SyncRewritesItsRows(c, txn.decl, txn.actor, txn.mint, txn.sync.plan, txn.sync.scan, row);
  }

  /** The row a statement is to change is one the sync changes. */
  lemma StaleIsChanged(c: Store, txn: Txn, row: Id)
    requires Valid(c) && txn.SyncTxn? && txn.sync.Writing? && SyncOk(c, true, txn) && LocksOk(txn)
    requires Wants(txn) == Some(row) && Stale(c, txn, row)
    ensures Changed(c, OpOf(txn), row)
  {
    var w := txn.sync.ws[txn.sync.done];
    assert w in txn.sync.ws && Rewrites(w) && row in LocksOf(w, txn.sync.scan);
    RewritesAreChanges(c, txn, row);
  }

  /** Which rows are stale is what flushes have moved. */
  lemma StaleIffMoved(init: Store, s: State, t: TxId, row: Id)
    requires Inv(init, s) && t in s.live && Reading(s.live[t]) && ReadOk(init, s.log, s.live[t])
    ensures !SeenAlike(s.live[t].sync.base, s.committed, row) <==> MovedSince(init, s.log, s.live[t].sync.read, row)
  {
    SeenSince(init, s.log, s.live[t].sync.read, row);
  }

  lemma RefusedFails(init: Store, s: State, t: TxId, row: Id)
    requires Inv(init, s) && t in s.live && s.live[t].SyncTxn? && s.live[t].sync.Writing? && LocksOk(s.live[t])
    requires ReadOk(init, s.log, s.live[t]) && Wants(s.live[t]) == Some(row) && Stale(s.committed, s.live[t], row)
    ensures FailedOk(init, s.log, Failure(OpOf(s.live[t]), Synced(Err(Internal)), row, s.live[t].sync.read, |s.log|))
  {
    SyncOkOf(init, s, t);
    StaleIffMoved(init, s, t, row);
    StaleIsChanged(s.committed, s.live[t], row);
    assert s.log[..|s.log|] == s.log;
  }

  lemma FailureStands(init: Store, log: seq<Event>, more: seq<Event>, f: Failure)
    requires log <= more && FailedOk(init, log, f)
    ensures FailedOk(init, more, f)
  {
    assert more[..f.ended] == log[..f.ended];
  }

  /** A step adds no failure, or that of the sync it refuses. */
  ghost predicate Fails(s: State, s': State, t: TxId) {
    && t in s.live && s.live[t].SyncTxn? && s.live[t].sync.Writing? && Wants(s.live[t]).Some?
    && RowFree(s, t, Wants(s.live[t]).value) && Stale(s.committed, s.live[t], Wants(s.live[t]).value)
    && s' == Refused(s, t, s.live[t], Wants(s.live[t]).value)
  }

  lemma SyncStepFails(s: State, s': State, t: TxId)
    requires t in s.live && s.live[t].SyncTxn? && SyncSteps(s, s', t, s.live[t])
    ensures s'.failed == s.failed || Fails(s, s', t)
  {
  }

  lemma StepFails(s: State, s': State, t: TxId)
    requires Acts(s, s', t)
    ensures s'.failed == s.failed || Fails(s, s', t)
  {
    if Steps(s, s', t) && s.live[t].SyncTxn? {
      SyncStepFails(s, s', t);
    }
  }

  // ---- Kept by every step ----

  lemma NextKeepsFailures(init: Store, s: State, s': State, t: TxId)
    requires Inv(init, s) && AllLocksOk(s) && SnapshotsOk(init, s) && Acts(s, s', t) && s.log <= s'.log
    ensures forall j {:trigger s'.failed[j]} :: 0 <= j < |s'.failed| ==> FailedOk(init, s'.log, s'.failed[j])
  {
    StepFails(s, s', t);
    if Fails(s, s', t) {
      assert LocksOk(s.live[t]);
      RefusedFails(init, s, t, Wants(s.live[t]).value);
    }
    forall j {:trigger s'.failed[j]} | 0 <= j < |s'.failed|
      ensures FailedOk(init, s'.log, s'.failed[j])
    {
      if j < |s.failed| {
        FailureStands(init, s.log, s'.log, s.failed[j]);
      }
    }
  }

  lemma OthersStepsKeepKind(s: State, s': State, t: TxId)
    requires Steps(s, s', t) && !s.live[t].SyncTxn? && t in s'.live
    ensures !s'.live[t].SyncTxn?
  {
  }

  lemma NewlyOpen(s: State, s': State, t: TxId)
    requires Acts(s, s', t) && !Steps(s, s', t) && t in s'.live
    ensures !s'.live[t].SyncTxn? || s'.live[t].sync.Locking?
  {
  }

  lemma OwnSnapshotStays(init: Store, s: State, s': State, t: TxId)
    requires Inv(init, s) && AllLocksOk(s) && SnapshotsOk(init, s) && Acts(s, s', t) && t in s'.live
    ensures ReadOk(init, s'.log, s'.live[t]) && LockedAlike(s'.committed, s'.live[t])
  {
    if Steps(s, s', t) {
      if s.live[t].SyncTxn? {
        assert LocksOk(s.live[t]);
        SyncStepStays(init, s, s', t);
      } else {
        OthersStepsKeepKind(s, s', t);
        NoSyncReads(init, s'.log, s'.committed, s'.live[t]);
      }
    } else {
      NewlyOpen(s, s', t);
      NoSyncReads(init, s'.log, s'.committed, s'.live[t]);
    }
  }

  lemma NextKeepsSnapshots(init: Store, s: State, s': State)
    requires Inv(init, s) && Inv(init, s') && AllLocksOk(s) && SnapshotsOk(init, s) && Next(s, s')
    ensures SnapshotsOk(init, s')
  {
    var t :| Acts(s, s', t);
    StepShape(s, s', t);
    NextKeepsFailures(init, s, s', t);
    forall u {:trigger s'.live[u]} | u in s'.live
      ensures ReadOk(init, s'.log, s'.live[u]) && LockedAlike(s'.committed, s'.live[u])
    {
      if u == t {
        OwnSnapshotStays(init, s, s', t);
      } else {
        assert LocksOk(s.live[u]);
        OthersStayAlike(init, s, s', t, u);
        ReadStands(init, s.log, s'.log, s.live[u]);
      }
    }
  }
}
