/** What waiting can come to. Waits on the sentinel row, a ledger key and a path
    always end; waits on row locks may close a circle, and then nobody in it ever
    goes on: exactly those are the deadlocks (src/write/sync.rs,
    src/write/touch.rs). */
module Progress {
  import opened Declaration
  import opened GrantPlans
  import opened History
  import opened Interleaving
  import opened Operations
  import opened Outcome
  import opened Reconcile
  import opened Registration
  import opened Registry
  import opened RowLocks
  import opened Serializability
  import opened Syncs
  import opened Text
  import opened Touches

  lemma {:induction false} Listing<T>(xs: set<T>) returns (ys: seq<T>)
    ensures NoRepeats(ys) && forall x :: x in ys <==> x in xs
  {
    ys := [];
    if xs != {} {
      var x :| x in xs;
      var rest := Listing(xs - {x});
      ys := [x] + rest;
    }
  }

  /** Some plan diffs any stored grants against any declaration. */
  lemma PlanExists(s: Store, decl: seq<Declared>) returns (plan: GrantPlan)
    requires Keyed(decl)
    ensures IsPlan(plan, s, decl)
  {
    var deletes := Listing(RevokedPairs(s, decl));
    var updates := UpdatesExist(s, decl);
    var inserts := InsertsExist(s, decl);
    plan := GrantPlan(inserts, updates, deletes, |KeptPairs(s, decl)|);
  }

  lemma UpdatesExist(s: Store, decl: seq<Declared>) returns (updates: seq<(Id, string, Level)>)
    ensures UpdatesDistinct(updates)
    ensures forall u :: u in updates <==> (u.0, u.1) in RewrittenPairs(s, decl) && WantedFor(s, decl, (u.0, u.1)) == Some(u.2)
  {
    var pairs := Listing(RewrittenPairs(s, decl));
    assert forall i :: 0 <= i < |pairs| ==> pairs[i] in RewrittenPairs(s, decl);
    updates := seq(|pairs|, i requires 0 <= i < |pairs| => (pairs[i].0, pairs[i].1, WantedFor(s, decl, pairs[i]).value));
    forall u: (Id, string, Level) | (u.0, u.1) in RewrittenPairs(s, decl) && WantedFor(s, decl, (u.0, u.1)) == Some(u.2)
      ensures u in updates
    {
      var i :| 0 <= i < |pairs| && pairs[i] == (u.0, u.1);
      assert updates[i] == u;
    }
  }

  lemma InsertsExist(s: Store, decl: seq<Declared>) returns (inserts: seq<(string, string, Level)>)
    requires Keyed(decl)
    ensures forall i, j :: 0 <= i < j < |inserts| ==> (inserts[i].0, inserts[i].1) != (inserts[j].0, inserts[j].1)
    ensures forall n :: n in inserts <==> (n.0, n.1) in AddedPairs(s, decl) && Wanted(decl, n.0, n.1) == Some(n.2)
  {
    var pairs := Listing(AddedPairs(s, decl));
    forall i | 0 <= i < |pairs|
      ensures pairs[i] in AddedPairs(s, decl) && Wanted(decl, pairs[i].0, pairs[i].1).Some?
    {
      WantedIsDeclared(decl, pairs[i].0, pairs[i].1);
    }
    inserts := seq(|pairs|, i requires 0 <= i < |pairs| => (pairs[i].0, pairs[i].1, Wanted(decl, pairs[i].0, pairs[i].1).value));
    forall n: (string, string, Level) | (n.0, n.1) in AddedPairs(s, decl) && Wanted(decl, n.0, n.1) == Some(n.2)
      ensures n in inserts
    {
      var i :| 0 <= i < |pairs| && pairs[i] == (n.0, n.1);
      assert inserts[i] == n;
    }
  }

  ghost predicate CanStep(s: State, t: TxId) {
    exists s' :: Steps(s, s', t)
  }

  /** `t` needs a row that `u` has locked. */
  ghost predicate WaitsFor(s: State, t: TxId, u: TxId) {
    t in s.live && u in s.live && t != u && Wants(s.live[t]).Some? && Wants(s.live[t]).value in Held(s.live[u])
  }

  ghost predicate Waits(s: State, t: TxId) {
    exists u :: WaitsFor(s, t, u)
  }

  lemma WaitsOrFree(s: State, t: TxId)
    requires t in s.live && Wants(s.live[t]).Some?
    ensures Waits(s, t) <==> !RowFree(s, t, Wants(s.live[t]).value)
  {
    if !RowFree(s, t, Wants(s.live[t]).value) {
      var u :| u in s.live && u != t && Wants(s.live[t]).value in Held(s.live[u]);
      assert WaitsFor(s, t, u);
    }
  }

  lemma SyncReadCanStep(init: Store, s: State, t: TxId)
    requires Inv(init, s) && t in s.live && s.live[t].SyncTxn? && !s.live[t].sync.Writing?
    requires s.live[t].sync.Locking? ==> s.sentinel.None?
    ensures CanStep(s, t)
  {
    var txn := s.live[t];
    match txn.sync
    case Locking =>
      assert Steps(s, To(s, t, txn.(sync := Locked)).(sentinel := Some(t)), t);
    case Locked =>
      assert Steps(s, To(s, t, txn.(sync := RowsRead(s.committed, |s.log|))), t);
    case RowsRead(base, read) =>
      var s' := if OnAlias(base, txn.decl) then Answered(s, t, txn, Synced(Err(AlreadyExists)))
                else if !txn.guards.allowMassArchive && |ToArchive(base, txn.decl)| * 2 > |ActiveRows(base)| then
                  Answered(s, t, txn, Synced(Err(FailedPrecondition)))
                else To(s, t, txn.(sync := AliasesRead(base, read)));
      assert Steps(s, s', t);
    case AliasesRead(base, _) =>
      PlanCanStep(init, s, t);
  }

  lemma PlanCanStep(init: Store, s: State, t: TxId)
    requires Inv(init, s) && t in s.live && s.live[t].SyncTxn? && s.live[t].sync.AliasesRead?
    ensures CanStep(s, t)
  {
    var txn := s.live[t];
    var base := txn.sync.base;
    SyncOkOf(init, s, t);
    var plan := PlanExists(base, txn.decl);
    var scan := Listing(ToArchive(base, txn.decl));
    var s' := if !txn.guards.allowMassRevoke && |plan.deletes| * 2 > |OrgGrants(base)| then
                Answered(s, t, txn, Synced(Err(FailedPrecondition)))
              else To(s, t, txn.(sync := Planned(txn, plan, scan)));
    assert SyncPlans(s, s', t, txn, base, plan, scan);
    assert Steps(s, s', t);
  }

  function Wrote(txn: Txn): Txn
    requires txn.SyncTxn? && txn.sync.Writing?
  {
    txn.(sync := txn.sync.(done := txn.sync.done + 1, taken := 0))
  }

  /** Its rows locked, the next statement of a sync is executed. */
  lemma WriteSteps(init: Store, s: State, t: TxId)
    requires Inv(init, s) && t in s.live && s.live[t].SyncTxn? && s.live[t].sync.Writing? && Wants(s.live[t]).None?
    requires s.live[t].sync.done < |s.live[t].sync.ws|
    ensures Steps(s, To(s, t, Wrote(s.live[t])), t)
  {
    var txn := s.live[t];
    SyncOkOf(init, s, t);
    WritesConverge(s.committed, txn);
    var view := ReachesPrefix(s.committed, txn.sync.ws, Converged(s.committed, txn.decl, txn.actor, txn.mint), txn.sync.done);
    NextWriteAccepted(s.committed, txn, view);
    assert SyncWriteStep(s, To(s, t, Wrote(txn)), t, txn);
  }

  lemma CommitSteps(init: Store, s: State, t: TxId)
    requires Inv(init, s) && t in s.live && s.live[t].SyncTxn? && s.live[t].sync.Writing? && Wants(s.live[t]).None?
    requires s.live[t].sync.done == |s.live[t].sync.ws|
    ensures CanStep(s, t)
  {
    var txn := s.live[t];
    var c' := Converged(s.committed, txn.decl, txn.actor, txn.mint);
    SyncOkOf(init, s, t);
    WritesConverge(s.committed, txn);
    var s' := Answered(s, t, txn, Synced(Ok(ReadResponse(txn)))).(committed := c');
    assert SyncCommits(s, s', t, txn);
    assert Steps(s, s', t);
  }

  lemma WriteCanStep(init: Store, s: State, t: TxId)
    requires Inv(init, s) && t in s.live && s.live[t].SyncTxn? && s.live[t].sync.Writing? && Wants(s.live[t]).None?
    ensures CanStep(s, t)
  {
    SyncOkOf(init, s, t);
    if s.live[t].sync.done < |s.live[t].sync.ws| {
      WriteSteps(init, s, t);
    } else {
      CommitSteps(init, s, t);
    }
  }

  /** A sync that holds the sentinel row waits for nothing but a row. */
  lemma SyncCanStep(init: Store, s: State, t: TxId)
    requires Inv(init, s) && t in s.live && s.live[t].SyncTxn? && !Waits(s, t)
    requires s.live[t].sync.Locking? ==> s.sentinel.None?
    ensures CanStep(s, t)
  {
    var txn := s.live[t];
    if Wants(txn).Some? {
      WaitsOrFree(s, t);
      var row := Wants(txn).value;
      var s' := if Stale(s.committed, txn, row) then Refused(s, t, txn, row) else To(s, t, txn.(sync := Took(txn.sync, row)));
      assert Steps(s, s', t);
    } else if txn.sync.Writing? {
      WriteCanStep(init, s, t);
    } else {
      SyncReadCanStep(init, s, t);
    }
  }

  /** What a registration waits for: its key, then its path. */
  ghost predicate RegisterFree(s: State, t: TxId)
    requires t in s.live && s.live[t].RegisterTxn?
  {
    var txn := s.live[t];
    && (txn.register.Claiming? && LedgerKeyOf(txn.req).Some? ==>
          forall u :: u in s.live && u != t ==> LedgerKeyOf(txn.req).value !in HeldKeys(s.live[u]))
    && (txn.register.Inserting? ==> forall u :: u in s.live && u != t ==> Fold(txn.req.path) !in HeldPaths(s.live[u]))
  }

  lemma RegisterCanStep(init: Store, s: State, t: TxId)
    requires Inv(init, s) && t in s.live && s.live[t].RegisterTxn? && RegisterFree(s, t)
    ensures CanStep(s, t)
  {
    var txn := s.live[t];
    var key := LedgerKeyOf(txn.req);
    RegisterOkOf(init, s, t);
    match txn.register
    case Claiming =>
      var next := if key.Some? && key.value in s.committed.ledger then Replaying else CheckingAlias;
      assert Steps(s, To(s, t, txn.(register := next)), t);
    case Replaying =>
      assert Steps(s, Answered(s, t, txn, Registered(ReplayOf(s.committed.ledger[key.value], RPC, PayloadOf(txn.req)))), t);
    case CheckingAlias =>
      var s' := if AliasAt(s.committed, Fold(txn.req.path)) then Answered(s, t, txn, Registered(Err(AlreadyExists)))
                else To(s, t, txn.(register := Inserting));
      assert Steps(s, s', t);
    case Inserting =>
      var s' := if Exec(s.committed, InsertRow(txn.id, PrivateRow(txn.req))).Some? then To(s, t, txn.(register := Recording))
                else if LiveAt(s.committed, Fold(txn.req.path)) then Answered(s, t, txn, Registered(Err(AlreadyExists)))
                else Answered(s, t, txn, Registered(Err(Internal)));
      assert Steps(s, s', t);
    case Recording =>
      assert Steps(s, To(s, t, txn.(register := Recorded)), t);
    case Recorded =>
      RegisterWritesApply(s.committed, txn.req, txn.id);
      var c' := RegisteredStore(s.committed, txn.req, txn.id);
      assert Steps(s, Answered(s, t, txn, Registered(Ok(Some(MetaOf(txn.req, txn.id))))).(committed := c'), t);
  }

  /** A flush waits for nothing but a row. */
  lemma TouchCanStep(s: State, t: TxId)
    requires t in s.live && s.live[t].TouchTxn? && !Waits(s, t)
    ensures CanStep(s, t)
  {
    var txn := s.live[t];
    match txn.touch
    case Updating =>
      var named := Named(s.committed, txn.paths);
      var order := Listing(named);
      assert Covers(s.committed, order, named);
      assert Steps(s, To(s, t, txn.(touch := Scanning(|s.log|, named, order, [], {}))), t);
    case Scanning(_, _, _, _, moved) =>
      if Wants(txn).Some? {
        WaitsOrFree(s, t);
        assert Steps(s, To(s, t, txn.(touch := Scanned(txn.touch, Wants(txn).value, s.committed, txn.at))), t);
      } else {
        var c' := Exec(s.committed, SeeRows(moved, txn.at)).value;
        ReachesOne(s.committed, SeeRows(moved, txn.at), c');
        assert Steps(s, Answered(s, t, txn, Touched).(committed := c'), t);
      }
  }

  /** Whoever holds a key is past every wait but the one for a path, and whoever
      holds a path is past that too. */
  lemma HolderCanStep(init: Store, s: State, u: TxId)
    requires Inv(init, s) && u in s.live && (HeldKeys(s.live[u]) != {} || HeldPaths(s.live[u]) != {})
    ensures exists v :: v in s.live && CanStep(s, v)
  {
    if RegisterFree(s, u) {
      RegisterCanStep(init, s, u);
    } else {
      var v :| v in s.live && v != u && Fold(s.live[u].req.path) in HeldPaths(s.live[v]);
      RegisterCanStep(init, s, v);
    }
  }

  // ---- Deadlock ----

  ghost predicate WaitsAmong(s: State, among: set<TxId>, t: TxId) {
    exists u :: u in among && WaitsFor(s, t, u)
  }

  /** Each of these needs a row another of them has locked. */
  ghost predicate Deadlocked(s: State, among: set<TxId>) {
    among != {} && forall t {:trigger WaitsAmong(s, among, t)} :: t in among ==> WaitsAmong(s, among, t)
  }

  ghost predicate Stuck(s: State) {
    s.live != map[] && forall t :: t in s.live ==> !CanStep(s, t)
  }

  /** In a stuck state, whoever locks rows waits for one. */
  lemma StuckLockersWait(init: Store, s: State, t: TxId)
    requires Inv(init, s) && Stuck(s) && t in s.live && !s.live[t].RegisterTxn?
    requires !(s.live[t].SyncTxn? && s.live[t].sync.Locking?)
    ensures Waits(s, t)
  {
    if !Waits(s, t) {
      if s.live[t].SyncTxn? {
        SyncCanStep(init, s, t);
      } else {
        TouchCanStep(s, t);
      }
    }
  }

  /** Some transaction of a stuck state waits for a row: no other wait is stuck. */
  lemma StuckWaits(init: Store, s: State) returns (t: TxId)
    requires Inv(init, s) && Stuck(s)
    ensures Waits(s, t)
  {
    t :| t in s.live;
    if s.live[t].RegisterTxn? {
      assert !RegisterFree(s, t) by {
        if RegisterFree(s, t) {
          RegisterCanStep(init, s, t);
        }
      }
      var u :| u in s.live && (HeldKeys(s.live[u]) != {} || HeldPaths(s.live[u]) != {});
      HolderCanStep(init, s, u);
    } else if s.live[t].SyncTxn? && s.live[t].sync.Locking? {
      if s.sentinel.None? {
        SyncReadCanStep(init, s, t);
      } else {
        t := s.sentinel.value;
        SyncOkOf(init, s, t);
        StuckLockersWait(init, s, t);
      }
    } else {
      StuckLockersWait(init, s, t);
    }
  }

  /** Whoever is waited for waits too. */
  lemma WaitedForWaits(init: Store, s: State, t: TxId, u: TxId)
    requires Inv(init, s) && Stuck(s) && WaitsFor(s, t, u)
    ensures Waits(s, u)
  {
    StuckLockersWait(init, s, u);
  }

  /** Nobody can go on only when some transactions wait in a circle for each
      other's rows: the sentinel, the ledger and the path index are no part of it. */
  lemma StuckIsDeadlocked(init: Store, s: State) returns (among: set<TxId>)
    requires Inv(init, s) && Stuck(s)
    ensures Deadlocked(s, among)
  {
    among := set t | t in s.live && Waits(s, t);
    var first := StuckWaits(init, s);
    assert first in among;
    forall t {:trigger WaitsAmong(s, among, t)} | t in among
      ensures WaitsAmong(s, among, t)
    {
      var u :| WaitsFor(s, t, u);
      WaitedForWaits(init, s, t, u);
      assert u in among;
    }
  }

  // ---- The other waits ----

  /** `t` waits for the sentinel row, the ledger key or the path that `u` holds. */
  ghost predicate WaitsElse(s: State, t: TxId, u: TxId) {
    && t in s.live && u in s.live && t != u
    && match s.live[t]
       case SyncTxn(_, _, _, _, stage) => stage.Locking? && s.sentinel == Some(u)
       case RegisterTxn(req, _, stage) =>
         || (stage.Claiming? && LedgerKeyOf(req).Some? && LedgerKeyOf(req).value in HeldKeys(s.live[u]))
         || (stage.Inserting? && Fold(req.path) in HeldPaths(s.live[u]))
       case TouchTxn(_, _, _) => false
  }

  ghost predicate BlockedAmong(s: State, among: set<TxId>, t: TxId) {
    exists u :: u in among && (WaitsFor(s, t, u) || WaitsElse(s, t, u))
  }

  /** Each of these waits for another of them, for whatever reason. */
  ghost predicate Circular(s: State, among: set<TxId>) {
    among != {} && forall t {:trigger BlockedAmong(s, among, t)} :: t in among ==> BlockedAmong(s, among, t)
  }

  /** Whoever holds a path waits for nothing. */
  lemma NoPathHolderInCircle(s: State, among: set<TxId>, t: TxId)
    requires Circular(s, among) && t in among
    ensures t in s.live && HeldPaths(s.live[t]) == {}
  {
    assert BlockedAmong(s, among, t);
  }

  /** And whoever holds a key waits for nothing but a path. */
  lemma NoRegistrationInCircle(s: State, among: set<TxId>, t: TxId)
    requires Circular(s, among) && t in among
    ensures t in s.live && !s.live[t].RegisterTxn?
  {
    assert BlockedAmong(s, among, t);
    if s.live[t].RegisterTxn? {
      var u :| u in among && WaitsElse(s, t, u);
      NoPathHolderInCircle(s, among, u);
      assert BlockedAmong(s, among, u);
      var v :| v in among && WaitsElse(s, u, v);
      NoPathHolderInCircle(s, among, v);
    }
  }

  /** In a circle, whoever holds rows or the sentinel row waits for a row. */
  lemma HolderWaitsForRow(init: Store, s: State, among: set<TxId>, t: TxId, u: TxId)
    requires Inv(init, s) && Circular(s, among) && u in among && (WaitsFor(s, t, u) || WaitsElse(s, t, u))
    requires !s.live[t].RegisterTxn?
    ensures WaitsAmong(s, among, u)
  {
    assert BlockedAmong(s, among, u);
    if s.live[u].SyncTxn? {
      SyncOkOf(init, s, u);
    }
    NoRegistrationInCircle(s, among, u);
    var v :| v in among && (WaitsFor(s, u, v) || WaitsElse(s, u, v));
    assert !WaitsElse(s, u, v);
  }

  lemma SomeWaitsForRow(init: Store, s: State, among: set<TxId>) returns (u: TxId)
    requires Inv(init, s) && Circular(s, among)
    ensures u in among && WaitsAmong(s, among, u)
  {
    var t :| t in among;
    NoRegistrationInCircle(s, among, t);
    assert BlockedAmong(s, among, t);
    u :| u in among && (WaitsFor(s, t, u) || WaitsElse(s, t, u));
    HolderWaitsForRow(init, s, among, t, u);
  }

  /** Every circle of waits has a circle of waits for rows in it: the sentinel, the
      ledger and the path index never close one. */
  lemma CirclesAreOfRows(init: Store, s: State, among: set<TxId>) returns (core: set<TxId>)
    requires Inv(init, s) && Circular(s, among)
    ensures core <= among && Deadlocked(s, core)
  {
    core := set t | t in among && WaitsAmong(s, among, t);
    var first := SomeWaitsForRow(init, s, among);
    assert first in core;
    forall t {:trigger WaitsAmong(s, core, t)} | t in core
      ensures WaitsAmong(s, core, t)
    {
      var u :| u in among && WaitsFor(s, t, u);
      HolderWaitsForRow(init, s, among, t, u);
      assert u in core;
    }
  }

  // ---- A deadlock stays ----

  /** A transaction that waits has no step of its own. */
  lemma WaiterCannotStep(s: State, s': State, t: TxId)
    requires Waits(s, t)
    ensures !Steps(s, s', t)
  {
    WaitsOrFree(s, t);
  }

  lemma WaiterAborts(s: State, s': State, t: TxId)
    requires Waits(s, t) && Acts(s, s', t)
    ensures Aborts(s, s', t)
  {
    WaiterCannotStep(s, s', t);
  }

  lemma OthersLeaveDeadlock(s: State, s': State, a: TxId, among: set<TxId>)
    requires Deadlocked(s, among) && OnlyActs(s, s', a) && a !in among
    ensures Deadlocked(s', among)
  {
    forall t {:trigger WaitsAmong(s', among, t)} | t in among
      ensures WaitsAmong(s', among, t)
    {
      assert WaitsAmong(s, among, t);
      var u :| u in among && WaitsFor(s, t, u);
      assert WaitsFor(s', t, u);
    }
  }

  /** And a deadlock stays, whatever the others do, until one in it aborts: nobody
      in it is ever answered. */
  lemma DeadlockStays(s: State, s': State, among: set<TxId>)
    requires Deadlocked(s, among) && Next(s, s')
    ensures Deadlocked(s', among) || exists t :: t in among && Aborts(s, s', t)
  {
    var a :| Acts(s, s', a);
    if a in among {
      assert WaitsAmong(s, among, a);
      WaiterAborts(s, s', a);
    } else {
      StepShape(s, s', a);
      OthersLeaveDeadlock(s, s', a, among);
    }
  }

  // ---- One order for all ----

  /** Every transaction takes its rows in ascending rank. */
  ghost predicate InOrder(s: State, rank: Id -> int) {
    forall t {:trigger Script(s.live[t])} :: t in s.live ==>
      forall i, j :: 0 <= i < j < |Script(s.live[t])| ==> rank(Script(s.live[t])[i]) < rank(Script(s.live[t])[j])
  }

  lemma {:induction false} Highest(among: set<TxId>, height: TxId -> int) returns (t: TxId)
    requires among != {}
    ensures t in among && forall u :: u in among ==> height(u) <= height(t)
  {
    t :| t in among;
    if among != {t} {
      var u := Highest(among - {t}, height);
      if height(u) > height(t) {
        t := u;
      }
    }
  }

  ghost function Height(s: State, rank: Id -> int, t: TxId): int {
    if t in s.live && Wants(s.live[t]).Some? then rank(Wants(s.live[t]).value) else 0
  }

  lemma WantedIsHigher(s: State, rank: Id -> int, u: TxId, row: Id)
    requires u in s.live && LocksOk(s.live[u]) && InOrder(s, rank) && row in Held(s.live[u]) && Wants(s.live[u]).Some?
    ensures rank(row) < rank(Wants(s.live[u]).value)
  {
    HeldIsPrefix(s.live[u]);
    var i :| 0 <= i < |Held(s.live[u])| && Held(s.live[u])[i] == row;
    assert Script(s.live[u])[i] == row;
  }

  lemma WaitedForIsHigher(s: State, rank: Id -> int, t: TxId, u: TxId)
    requires AllLocksOk(s) && InOrder(s, rank) && WaitsFor(s, t, u) && Waits(s, u)
    ensures Height(s, rank, t) < Height(s, rank, u)
  {
    assert LocksOk(s.live[u]);
    WantedIsHigher(s, rank, u, Wants(s.live[t]).value);
  }

  /** While all open transactions take their rows in one order, none deadlock. */
  lemma OrderedNeverDeadlock(s: State, rank: Id -> int, among: set<TxId>)
    requires AllLocksOk(s) && InOrder(s, rank)
    ensures !Deadlocked(s, among)
  {
    if Deadlocked(s, among) {
      var t := Highest(among, (t: TxId) => Height(s, rank, t));
      assert WaitsAmong(s, among, t);
      var u :| u in among && WaitsFor(s, t, u);
      assert WaitsAmong(s, among, u);
      WaitedForIsHigher(s, rank, t, u);
    }
  }
}
