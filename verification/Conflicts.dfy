/** Which flush can have a sync answered INTERNAL: the race that counting after the
    update took out of a flush, and that a sync, which reads before it writes,
    still runs (src/write/sync.rs, src/write/touch.rs, src/sql.rs). */
module Conflicts {
  import opened Behaviours
  import opened Congruence
  import opened Contention
  import opened Deadlocks
  import opened Declaration
  import opened History
  import opened Interleaving
  import opened LockedRows
  import opened Operations
  import opened Outcome
  import opened Progress
  import opened Reconcile
  import opened Registry
  import opened RowLocks
  import opened Serializability
  import opened Snapshots
  import opened Syncs
  import opened Touches

  /** A sync and a flush that find this registry. */
  ghost predicate Sends(init: Store, p: Txn, q: Txn) {
    && Valid(init) && NewTxn(p) && p.SyncTxn? && NewTxn(q) && q.TouchTxn? && Mints(p) !! init.projects.Keys
  }

  /** The flush has been answered, nothing else has, and the sync has failed. */
  ghost predicate SyncFails(init: Store, p: Txn, q: Txn, b: seq<State>, e: Event, f: Failure) {
    && Behaviour(init, b) && Now(b).log == [e] && Now(b).failed == [f]
    && f.op == OpOf(p) && q.TouchTxn? && e.op.TouchOp? && e.op.paths == q.paths && e.op.at == q.at
  }

  ghost predicate CanFail(init: Store, p: Txn, q: Txn) {
    exists b, e, f :: SyncFails(init, p, q, b, e, f)
  }

  /** The sync changes the row, and the flush moves it. */
  ghost predicate Clash(s: Store, p: Txn, q: Txn, row: Id)
    requires p.SyncTxn? && q.TouchTxn?
  {
    && row in Advanced(s, Named(s, q.paths), q.at)
    && SettledRow(s.projects[row], p.decl, p.actor) != s.projects[row]
  }

  // ---- Only if it moves a row the sync changes ----

  lemma RefusalIgnoresSeen(s: Store, t: Store, decl: seq<Declared>, guards: Guards)
    requires Schema(s) && Schema(t) && Keyed(decl) && t == s.(seen := t.seen)
    ensures Refusal(t, decl, guards) == Refusal(s, decl, guards)
  {
    SameAnswer(s, t, decl, guards);
  }

  /** The one answered call is the flush, as it is alone on the registry. */
  lemma OnlyFlush(init: Store, b: seq<State>, e: Event)
    requires Behaviour(init, b) && Now(b).log == [e] && e.op.TouchOp?
    ensures e.op.ids == Named(init, e.op.paths) && Run(init, OpsOf([e])) == TouchedStore(init, e.op.ids, e.op.at)
    ensures Valid(Run(init, OpsOf([e])))
  {
    BehaviourKeeps(init, b, |b| - 1);
    assert Placed(init, Now(b).log, 0);
    assert OpsOf(Now(b).log[..0]) == [];
    LastOfLog(init, [e]);
  }

  lemma FailureClashes(init: Store, p: Txn, q: Txn, b: seq<State>, e: Event, f: Failure)
    requires Sends(init, p, q) && SyncFails(init, p, q, b, e, f)
    ensures Refusal(init, p.decl, p.guards).None? && Clash(init, p, q, f.row)
  {
    FailuresAreMoves(init, b, |b| - 1, 0);
    OnlyFlush(init, b, e);
    assert FlushMoves(init, Now(b).log, 0, f.row);
    assert OpsOf(Now(b).log[..0]) == [] && Now(b).log[..1] == [e];
    RefusalIgnoresSeen(init, Run(init, OpsOf([e])), p.decl, p.guards);
  }

  // ---- And then it can ----

  /** A flush scans on to its end. */
  lemma {:induction false} ScansOn(init: Store, b: seq<State>, t: TxId) returns (b': seq<State>)
    requires Behaviour(init, b) && t in Now(b).live && Scans(Now(b).live[t])
    requires forall row :: RowFree(Now(b), t, row)
    ensures Goes(init, b, b', t) && Wants(Now(b').live[t]).None?
    decreases |Now(b).live[t].touch.order| - |Now(b).live[t].touch.held|
  {
    b' := b;
    if Wants(Now(b).live[t]).Some? {
      var taken := Takes(init, b, t);
      assert forall row :: RowFree(Now(b), t, row) ==> RowFree(Now(taken), t, row);
      b' := ScansOn(init, taken, t);
      GoesOnward(init, b, taken, b', t);
    }
  }

  lemma FlushWrites(c: Store, txn: Txn)
    requires Scans(txn) && TouchOkay(c, txn) && Wants(txn).None?
    ensures Reaches(c, [SeeRows(txn.touch.moved, txn.at)], TouchedStore(c, txn.touch.named, txn.at))
  {
    var store := Exec(c, SeeRows(txn.touch.moved, txn.at)).value;
    ReachesOne(c, SeeRows(txn.touch.moved, txn.at), store);
    ScannedIsTouched(c, txn, store);
  }

  lemma FlushCommits(init: Store, s: State, t: TxId)
    requires Inv(init, s) && t in s.live && Scans(s.live[t]) && Wants(s.live[t]).None?
    ensures var txn := s.live[t];
      Steps(s, Answered(s, t, txn, Touched).(committed := TouchedStore(s.committed, txn.touch.named, txn.at)), t)
  {
    TouchOkOf(init, s, t);
    FlushWrites(s.committed, s.live[t]);
  }

  lemma FlushCanEnd(init: Store, b: seq<State>, t: TxId)
    requires Behaviour(init, b) && t in Now(b).live && Scans(Now(b).live[t]) && Wants(Now(b).live[t]).None?
    ensures var s, txn := Now(b), Now(b).live[t];
      Steps(s, Answered(s, t, txn, Touched).(committed := TouchedStore(s.committed, txn.touch.named, txn.at)), t)
  {
    BehaviourKeeps(init, b, |b| - 1);
    FlushCommits(init, Now(b), t);
  }

  /** And is answered. */
  lemma FlushEnds(init: Store, b: seq<State>, t: TxId) returns (b': seq<State>)
    requires Behaviour(init, b) && t in Now(b).live && Scans(Now(b).live[t]) && Wants(Now(b).live[t]).None?
    ensures var s, txn := Now(b), Now(b).live[t];
      && Continues(init, b, b')
      && Now(b') == Answered(s, t, txn, Touched).(committed := TouchedStore(s.committed, txn.touch.named, txn.at))
  {
    var s, txn := Now(b), Now(b).live[t];
    var end := Answered(s, t, txn, Touched).(committed := TouchedStore(s.committed, txn.touch.named, txn.at));
    FlushCanEnd(init, b, t);
    StepTo(init, b, end, t);
    b' := b + [end];
  }

  lemma {:induction false} FirstStale(c: Store, txn: Txn, n: nat) returns (m: nat)
    requires StaleAt(c, txn, n)
    ensures m <= n && StaleAt(c, txn, m) && forall i {:trigger StaleAt(c, txn, i)} :: 0 <= i < m ==> !StaleAt(c, txn, i)
  {
    if j: nat :| j < n && StaleAt(c, txn, j) {
      m := FirstStale(c, txn, j);
    } else {
      m := n;
    }
  }

  /** A sync with a stale row ahead and nobody in its way is refused. */
  lemma RunsToRefusal(init: Store, b: seq<State>, t: TxId, n: nat) returns (b': seq<State>, row: Id)
    requires Behaviour(init, b) && t in Now(b).live && Now(b).live[t].SyncTxn? && Locks(Now(b).live[t])
    requires Held(Now(b).live[t]) == [] && (forall row :: RowFree(Now(b), t, row)) && StaleAt(Now(b).committed, Now(b).live[t], n)
    ensures Continues(init, b, b') && Now(b').log == Now(b).log && |Now(b').failed| == |Now(b).failed| + 1
    ensures Now(b').failed[..|Now(b).failed|] == Now(b).failed && Now(b').failed[|Now(b).failed|].op == OpOf(Now(b).live[t])
  {
    var m := FirstStale(Now(b).committed, Now(b).live[t], n);
    var c := Advances(init, b, t, m);
    row := Wants(Now(c).live[t]).value;
    AllLocksAre(init, c, t);
    StaleIsNext(Now(c).committed, Now(c).live[t]);
    assert RowFree(Now(b), t, row) && RowFree(Now(c), t, row);
    var s' := Refused(Now(c), t, Now(c).live[t], row);
    StepTo(init, c, s', t);
    b' := c + [s'];
  }

  lemma AllLocksAre(init: Store, b: seq<State>, t: TxId)
    requires Behaviour(init, b) && t in Now(b).live
    ensures LocksOk(Now(b).live[t])
  {
    BehaviourLocks(init, b, |b| - 1);
  }

  lemma FlushNames(init: Store, b: seq<State>, q: Txn) returns (b': seq<State>)
    requires Behaviour(init, b) && Now(b).live.Keys == {0} && Now(b).log == [] && NewTxn(q) && q.TouchTxn?
    ensures Behaviour(init, b') && Now(b').live.Keys == {0, 1} && Now(b').live[0] == Now(b).live[0]
    ensures Now(b').log == [] && Now(b').failed == Now(b).failed && Now(b').committed == Now(b).committed
    ensures Scans(Now(b').live[1]) && Held(Now(b').live[1]) == []
    ensures OpOf(Now(b').live[1]) == TouchOp(q.paths, Named(Now(b).committed, q.paths), q.at)
  {
    BeginsWith(init, b, 1, q);
    b' := b + [Begun(Now(b), 1, q)];
    var order := Listing(Named(Now(b).committed, q.paths));
    b' := NamesItsRows(init, b', 1, order);
  }

  /** A flush comes and scans its rows to the end, beside a sync that has locked
      nothing yet. */
  lemma FlushComes(init: Store, b: seq<State>, q: Txn) returns (b': seq<State>)
    requires Behaviour(init, b) && Now(b).live.Keys == {0} && Now(b).log == [] && NewTxn(q) && q.TouchTxn?
    requires Locks(Now(b).live[0]) && Held(Now(b).live[0]) == []
    ensures Behaviour(init, b') && Now(b').live.Keys == {0, 1} && Now(b').live[0] == Now(b).live[0]
    ensures Now(b').log == [] && Now(b').failed == Now(b).failed && Now(b').committed == Now(b).committed
    ensures var txn := Now(b').live[1];
      && Scans(txn) && Wants(txn).None? && txn.paths == q.paths && txn.at == q.at
      && txn.touch.named == Named(Now(b).committed, q.paths)
  {
    var named := FlushNames(init, b, q);
    b' := ScansOn(init, named, 1);
    assert OpOf(Now(b').live[1]) == OpOf(Now(named).live[1]);
  }

  /** And is answered. */
  lemma FlushPasses(init: Store, b: seq<State>, q: Txn) returns (b': seq<State>, e: Event)
    requires Behaviour(init, b) && Now(b).live.Keys == {0} && Now(b).log == [] && NewTxn(q) && q.TouchTxn?
    requires Locks(Now(b).live[0]) && Held(Now(b).live[0]) == []
    ensures Behaviour(init, b') && Now(b').live == Now(b).live && Now(b').log == [e] && Now(b').failed == Now(b).failed
    ensures e.op.TouchOp? && e.op.paths == q.paths && e.op.at == q.at
    ensures Now(b').committed == TouchedStore(Now(b).committed, Named(Now(b).committed, q.paths), q.at)
  {
    var scanned := FlushComes(init, b, q);
    e := EventOf(Now(scanned), 1, Now(scanned).live[1], Touched);
    b' := FlushEnds(init, scanned, 1);
  }

  /** Before anything is answered a sync under way is as it is alone. */
  lemma SyncStands(init: Store, b: seq<State>, t: TxId)
    requires Behaviour(init, b) && Now(b).log == [] && t in Now(b).live && Now(b).live[t].SyncTxn? && Locks(Now(b).live[t])
    ensures Valid(init) && SyncOk(init, true, Now(b).live[t]) && LocksOk(Now(b).live[t]) && SnapshotOf(Now(b).live[t]) == Some(init)
  {
    BehaviourKeepsWhole(init, b, |b| - 1);
    NothingCommitted(init, Now(b));
    ReadFromStart(init, Now(b).log, Now(b).live[t]);
    SyncOkOf(init, Now(b), t);
    AllLocksAre(init, b, t);
  }

  /** A row the sync changes is one of the rows it locks to change. */
  lemma ClashIsChecked(init: Store, b: seq<State>, p: Txn, q: Txn, row: Id) returns (n: nat)
    requires Sends(init, p, q) && Clash(init, p, q, row) && Behaviour(init, b) && Now(b).log == [] && 0 in Now(b).live
    requires IsCall(Now(b).live[0], Sent(p, {})) && Locks(Now(b).live[0])
    ensures n < |ChecksOf(Now(b).live[0])| && ChecksOf(Now(b).live[0])[n]
    ensures n < |Script(Now(b).live[0])| && Script(Now(b).live[0])[n] == row
    ensures SnapshotOf(Now(b).live[0]) == Some(init)
  {
    SyncStands(init, b, 0);
    RewritesAreChanges(init, Now(b).live[0], row);
    n := CheckedSomewhere(Now(b).live[0].sync.ws, Now(b).live[0].sync.scan, row);
  }

  lemma ClashIsStale(init: Store, p: Txn, q: Txn, row: Id)
    requires Sends(init, p, q) && Clash(init, p, q, row)
    ensures row in init.projects && !SeenAlike(init, TouchedStore(init, Named(init, q.paths), q.at), row)
  {
    SeenOfCall(init, TouchOp(q.paths, Named(init, q.paths), q.at), row);
  }

  lemma ClashFails(init: Store, p: Txn, q: Txn, row: Id)
    requires Sends(init, p, q) && Refusal(init, p.decl, p.guards).None? && Clash(init, p, q, row)
    ensures CanFail(init, p, q)
  {
    var b := SyncComes(init, Sent(p, {}));
    var n := ClashIsChecked(init, b, p, q, row);
    var c, e := FlushPasses(init, b, q);
    ClashIsStale(init, p, q, row);
    assert StaleAt(Now(c).committed, Now(c).live[0], n);
    var d, refused := RunsToRefusal(init, c, 0, n);
    assert SyncFails(init, p, q, d, e, Now(d).failed[0]);
  }

  /** A sync sent to the registry a flush is sent to can be answered INTERNAL, the
      flush answered first and nothing else, if and only if nothing refuses the sync
      and the flush moves a row the sync changes. */
  lemma FailsIffClash(init: Store, p: Txn, q: Txn)
    requires Sends(init, p, q)
    ensures CanFail(init, p, q) <==> Refusal(init, p.decl, p.guards).None? && exists row :: Clash(init, p, q, row)
  {
    if b, e, f :| SyncFails(init, p, q, b, e, f) {
      FailureClashes(init, p, q, b, e, f);
    }
    if row :| Refusal(init, p.decl, p.guards).None? && Clash(init, p, q, row) {
      ClashFails(init, p, q, row);
    }
  }

  // ---- For instance ----

  /** The sync that renames two roots and the flush that names both: the flush moves
      the rows between the sync's reading and its writing, and the sync fails. */
  lemma RenamingCanFail()
    ensures CanFail(TWO_ROOTS, RENAMING_SYNC.call, NAMING_FLUSH.call)
  {
    RenamingMeetsNaming();
    RenamingAccepted();
    RootNames();
    RenamingKeys();
    FlushNamesBoth(NAMING_FLUSH.call.paths);
    RenamedClashes(TWO_ROOTS, RENAMING_SYNC.call, NAMING_FLUSH.call, 0, 1);
    ClashFails(TWO_ROOTS, RENAMING_SYNC.call, NAMING_FLUSH.call, 1);
  }

  /** A flush clashes with a sync over a row it names that was not seen since and the
      sync renames. */
  lemma RenamedClashes(s: Store, p: Txn, q: Txn, i: nat, row: Id)
    requires p.SyncTxn? && q.TouchTxn? && Keyed(p.decl) && Renames(s, p.decl, i, row)
    requires row in Named(s, q.paths) && (row in s.seen ==> s.seen[row] < q.at)
    ensures Clash(s, p, q, row)
  {
    IndexOfDeclared(p.decl, i);
  }
}
