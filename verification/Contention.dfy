/** Which calls can deadlock when they meet on the same registry: a condition on
    the calls alone (src/write/sync.rs, src/write/touch.rs). */
module Contention {
  import opened Behaviours
  import opened Congruence
  import opened Deadlocks
  import opened Declaration
  import opened Dedup
  import opened History
  import opened Interleaving
  import opened Like
  import opened LockedRows
  import opened Outcome
  import opened Paths
  import opened Progress
  import opened Reconcile
  import opened Registry
  import opened RowLocks
  import opened Serializability
  import opened Snapshots
  import SyncLaws
  import opened Syncs
  import opened Text
  import opened Touches

  /** A call, and the rows the engine scans for its UPDATE when it is a flush. */
  datatype Sent = Sent(call: Txn, scanned: set<Id>)

  /** This call under way, whatever it has done so far. */
  ghost predicate IsCall(txn: Txn, sent: Sent) {
    match sent.call
    case SyncTxn(_, _, _, _, _) => txn.SyncTxn? && OpOf(txn) == OpOf(sent.call)
    case RegisterTxn(_, _, _) => txn.RegisterTxn? && OpOf(txn) == OpOf(sent.call)
    case TouchTxn(paths, at, _) =>
      txn.TouchTxn? && txn.paths == paths && txn.at == at && (Scans(txn) ==> forall x :: x in txn.touch.order <==> x in sent.scanned)
  }

  /** An engine scans the rows it is to find, and may scan any others. */
  ghost predicate CanScan(s: Store, sent: Sent) {
    sent.call.TouchTxn? ==> Named(s, sent.call.paths) <= sent.scanned <= s.projects.Keys
  }

  /** The rows a call locks: those a sync the guards let through changes or grants
      a new team on, and those a flush scans. */
  ghost function RowsOf(s: Store, sent: Sent): set<Id> {
    match sent.call
    case SyncTxn(decl, actor, guards, mint, _) =>
      if Refusal(s, decl, guards).None? then set id | id in s.projects && Alters(s, decl, actor, mint, id) else {}
    case RegisterTxn(_, _, _) => {}
    case TouchTxn(_, _, _) => sent.scanned
  }

  /** Two calls that find this registry: new, with ids of their own. */
  ghost predicate Meet(init: Store, p: Sent, q: Sent) {
    && Valid(init) && NewTxn(p.call) && NewTxn(q.call) && CanScan(init, p) && CanScan(init, q)
    && Mints(p.call) !! Mints(q.call) && Mints(p.call) !! init.projects.Keys && Mints(q.call) !! init.projects.Keys
  }

  /** The two deadlocked, before any call has been answered. */
  ghost predicate Entangled(init: Store, p: Sent, q: Sent, b: seq<State>, t: TxId, u: TxId) {
    && Behaviour(init, b) && Now(b).log == [] && t in Now(b).live && u in Now(b).live
    && t != u && Deadlocked(Now(b), {t, u})
    && IsCall(Now(b).live[t], p) && IsCall(Now(b).live[u], q)
  }

  ghost predicate CanDeadlock(init: Store, p: Sent, q: Sent) {
    exists b, t, u :: Entangled(init, p, q, b, t, u)
  }

  ghost predicate TwoShared(s: Store, p: Sent, q: Sent) {
    exists x, y :: x != y && x in RowsOf(s, p) && y in RowsOf(s, p) && x in RowsOf(s, q) && y in RowsOf(s, q)
  }

  // ---- Only if they share two rows ----

  lemma NothingCommitted(init: Store, s: State)
    requires Inv(init, s) && s.log == []
    ensures s.committed == init
  {
    assert OpsOf(s.log) == [];
  }

  lemma FlushLocksStored(init: Store, s: State, t: TxId, id: Id)
    requires Inv(init, s) && s.log == [] && t in s.live && s.live[t].TouchTxn? && id in Script(s.live[t])
    ensures id in init.projects
  {
    NothingCommitted(init, s);
    TouchOkOf(init, s, t);
  }

  lemma SyncLocksAltered(c: Store, txn: Txn, id: Id)
    requires Valid(c) && txn.SyncTxn? && txn.sync.Writing? && SyncOk(c, true, txn) && LocksOk(txn)
    requires id in c.projects
    ensures id in Script(txn) <==> Alters(c, txn.decl, txn.actor, txn.mint, id)
  {
    OrgSameSymmetric(txn.sync.base, c);
    SameWrites(c, txn.sync.base, txn.decl, txn.actor, txn.mint, txn.sync.plan);
    SameArchive(txn.sync.base, c, txn.decl);
    SyncLocksItsRows(c, txn.decl, txn.actor, txn.mint, txn.sync.plan, txn.sync.scan, id);
  }

  lemma LockedIsItsOwn(init: Store, s: State, sent: Sent, t: TxId, id: Id)
    requires Kept(init, s) && AllLocksOk(s) && s.log == [] && t in s.live && IsCall(s.live[t], sent)
    requires id in Script(s.live[t]) && id in init.projects
    ensures id in RowsOf(init, sent)
  {
    NothingCommitted(init, s);
    if !s.live[t].TouchTxn? {
      assert LocksOk(s.live[t]);
      SyncOkOf(init, s, t);
      SyncLocksAltered(init, s.live[t], id);
    }
  }

  /** Only one sync at a time locks rows: the sentinel row is its own. */
  lemma OneSyncLocks(init: Store, s: State, t: TxId, u: TxId)
    requires Inv(init, s) && t in s.live && u in s.live && Wants(s.live[t]).Some? && Wants(s.live[u]).Some? && t != u
    ensures !(s.live[t].SyncTxn? && s.live[u].SyncTxn?)
  {
    if s.live[t].SyncTxn? {
      SyncOkOf(init, s, t);
    }
    if s.live[u].SyncTxn? {
      SyncOkOf(init, s, u);
    }
  }

  lemma SharedIsStored(init: Store, s: State, t: TxId, u: TxId, id: Id)
    requires Kept(init, s) && s.log == [] && t in s.live && u in s.live && (s.live[t].TouchTxn? || s.live[u].TouchTxn?)
    requires id in Script(s.live[t]) && id in Script(s.live[u])
    ensures id in init.projects
  {
    if s.live[t].TouchTxn? {
      FlushLocksStored(init, s, t, id);
    } else {
      FlushLocksStored(init, s, u, id);
    }
  }

  lemma SharedIsTheirs(init: Store, p: Sent, q: Sent, b: seq<State>, t: TxId, u: TxId, id: Id)
    requires Entangled(init, p, q, b, t, u) && id in Script(Now(b).live[t]) && id in Script(Now(b).live[u])
    ensures id in RowsOf(init, p) && id in RowsOf(init, q) && !(p.call.SyncTxn? && q.call.SyncTxn?)
  {
    BehaviourKeeps(init, b, |b| - 1);
    BehaviourLocks(init, b, |b| - 1);
    BothWaitIsDeadlock(Now(b), t, u);
    OneSyncLocks(init, Now(b), t, u);
    SharedIsStored(init, Now(b), t, u, id);
    LockedIsItsOwn(init, Now(b), p, t, id);
    LockedIsItsOwn(init, Now(b), q, u, id);
  }

  lemma EntangledShareTwo(init: Store, p: Sent, q: Sent, b: seq<State>, t: TxId, u: TxId)
    requires Entangled(init, p, q, b, t, u)
    ensures TwoShared(init, p, q) && !(p.call.SyncTxn? && q.call.SyncTxn?)
  {
    var x, y := Script(Now(b).live[t]), Script(Now(b).live[u]);
    BothWaitIsDeadlock(Now(b), t, u);
    CircleNeedsTwoOrders(init, b, |b| - 1, t, u);
    SharedIsTheirs(init, p, q, b, t, u, FirstShared(x, y).value);
    SharedIsTheirs(init, p, q, b, t, u, FirstShared(y, x).value);
  }

  // ---- And then they can ----

  ghost function Start(init: Store): State {
    State(init, None, map[], init.projects.Keys, map[], [], [])
  }

  lemma StartBehaves(init: Store)
    requires Valid(init)
    ensures Behaviour(init, [Start(init)])
  {
  }

  lemma StepTo(init: Store, b: seq<State>, s': State, t: TxId)
    requires Behaviour(init, b) && Steps(Now(b), s', t)
    ensures Continues(init, b, b + [s']) && Now(b + [s']) == s'
  {
    assert Acts(Now(b), s', t);
    Then(init, b, s');
  }

  ghost function Begun(s: State, t: TxId, call: Txn): State {
    To(s, t, call).(minted := s.minted + Mints(call), began := s.began[t := |s.log|])
  }

  lemma BeginsWith(init: Store, b: seq<State>, t: TxId, call: Txn)
    requires Behaviour(init, b) && t !in Now(b).live && NewTxn(call) && Mints(call) !! Now(b).minted
    ensures Continues(init, b, b + [Begun(Now(b), t, call)]) && Now(b + [Begun(Now(b), t, call)]) == Begun(Now(b), t, call)
  {
    assert Begins(Now(b), Begun(Now(b), t, call), t, call);
    assert Acts(Now(b), Begun(Now(b), t, call), t);
    Then(init, b, Begun(Now(b), t, call));
  }

  /** A flush names its rows and scans them in this order. */
  lemma NamesItsRows(init: Store, b: seq<State>, t: TxId, order: seq<Id>) returns (b': seq<State>)
    requires Behaviour(init, b) && t in Now(b).live && Now(b).live[t].TouchTxn? && Now(b).live[t].touch.Updating?
    requires Covers(Now(b).committed, order, Named(Now(b).committed, Now(b).live[t].paths))
    ensures var s, txn := Now(b), Now(b).live[t];
      && Continues(init, b, b')
      && Now(b') == To(s, t, txn.(touch := Scanning(|s.log|, Named(s.committed, txn.paths), order, [], {})))
  {
    var s, txn := Now(b), Now(b).live[t];
    var s' := To(s, t, txn.(touch := Scanning(|s.log|, Named(s.committed, txn.paths), order, [], {})));
    StepTo(init, b, s', t);
    b' := b + [s'];
  }

  /** A sync takes the sentinel and reads the rows. */
  lemma ReadsItsRows(init: Store, b: seq<State>, t: TxId) returns (b': seq<State>)
    requires Behaviour(init, b) && t in Now(b).live && Now(b).live[t].SyncTxn? && Now(b).live[t].sync.Locking?
    requires Now(b).sentinel.None?
    ensures var s, txn := Now(b), Now(b).live[t];
      Continues(init, b, b') && Now(b') == To(s, t, txn.(sync := RowsRead(s.committed, |s.log|))).(sentinel := Some(t))
  {
    var s, txn := Now(b), Now(b).live[t];
    var locked := To(s, t, txn.(sync := Locked)).(sentinel := Some(t));
    StepTo(init, b, locked, t);
    var read := To(locked, t, txn.(sync := RowsRead(s.committed, |s.log|)));
    StepTo(init, b + [locked], read, t);
    b' := b + [locked] + [read];
    assert read == To(s, t, txn.(sync := RowsRead(s.committed, |s.log|))).(sentinel := Some(t));
  }

  lemma ReadOnSteps(s: State, t: TxId, c: Store)
    requires t in s.live && s.live[t].SyncTxn? && s.live[t].sync == RowsRead(c, |s.log|)
    requires Refusal(c, s.live[t].decl, s.live[t].guards).None?
    ensures Steps(s, To(s, t, s.live[t].(sync := AliasesRead(c, |s.log|))), t)
  {
  }

  lemma NoMassRevoke(s: Store, decl: seq<Declared>, guards: Guards, plan: GrantPlan)
    requires Keyed(decl) && IsPlan(plan, s, decl) && Refusal(s, decl, guards).None?
    ensures guards.allowMassRevoke || |plan.deletes| * 2 <= |OrgGrants(s)|
  {
    SyncLaws.PlanCounts(s, decl, plan);
  }

  lemma PlanIsStep(s: State, s': State, t: TxId, plan: GrantPlan, scan: seq<Id>)
    requires t in s.live && s.live[t].SyncTxn? && s.live[t].sync == AliasesRead(s.committed, |s.log|)
    requires SyncPlans(s, s', t, s.live[t], s.committed, plan, scan)
    ensures Steps(s, s', t)
  {
  }

  lemma PlanSteps(s: State, t: TxId, plan: GrantPlan, scan: seq<Id>)
    requires t in s.live && s.live[t].SyncTxn? && s.live[t].sync == AliasesRead(s.committed, |s.log|)
    requires Refusal(s.committed, s.live[t].decl, s.live[t].guards).None?
    requires Keyed(s.live[t].decl) && IsPlan(plan, s.committed, s.live[t].decl) && Lists(scan, ToArchive(s.committed, s.live[t].decl))
    ensures Steps(s, To(s, t, s.live[t].(sync := Planned(s.live[t], plan, scan))), t)
  {
    NoMassRevoke(s.committed, s.live[t].decl, s.live[t].guards, plan);
    PlanIsStep(s, To(s, t, s.live[t].(sync := Planned(s.live[t], plan, scan))), t, plan, scan);
  }

  /** A sync nothing refuses reads on. */
  lemma ReadsOn(init: Store, b: seq<State>, t: TxId) returns (b': seq<State>)
    requires Behaviour(init, b) && t in Now(b).live && Now(b).live[t].SyncTxn?
    requires Now(b).live[t].sync == RowsRead(Now(b).committed, |Now(b).log|)
    requires Refusal(Now(b).committed, Now(b).live[t].decl, Now(b).live[t].guards).None?
    ensures Continues(init, b, b') && Now(b') == To(Now(b), t, Now(b).live[t].(sync := AliasesRead(Now(b).committed, |Now(b).log|)))
  {
    var read := To(Now(b), t, Now(b).live[t].(sync := AliasesRead(Now(b).committed, |Now(b).log|)));
    ReadOnSteps(Now(b), t, Now(b).committed);
    StepTo(init, b, read, t);
    b' := b + [read];
  }

  lemma PlanFor(init: Store, b: seq<State>, t: TxId) returns (plan: GrantPlan, scan: seq<Id>)
    requires Behaviour(init, b) && t in Now(b).live && Now(b).live[t].SyncTxn?
    ensures Keyed(Now(b).live[t].decl)
    ensures IsPlan(plan, Now(b).committed, Now(b).live[t].decl) && Lists(scan, ToArchive(Now(b).committed, Now(b).live[t].decl))
  {
    BehaviourKeeps(init, b, |b| - 1);
    SyncOkOf(init, Now(b), t);
    plan := PlanExists(Now(b).committed, Now(b).live[t].decl);
    scan := Listing(ToArchive(Now(b).committed, Now(b).live[t].decl));
  }

  /** And plans its statements. */
  lemma PlansItsRows(init: Store, b: seq<State>, t: TxId) returns (b': seq<State>)
    requires Behaviour(init, b) && t in Now(b).live && Now(b).live[t].SyncTxn?
    requires Now(b).live[t].sync == AliasesRead(Now(b).committed, |Now(b).log|)
    requires Refusal(Now(b).committed, Now(b).live[t].decl, Now(b).live[t].guards).None?
    ensures Continues(init, b, b')
    ensures exists plan, scan :: Now(b') == To(Now(b), t, Now(b).live[t].(sync := Planned(Now(b).live[t], plan, scan)))
  {
    var plan, scan := PlanFor(init, b, t);
    var planned := To(Now(b), t, Now(b).live[t].(sync := Planned(Now(b).live[t], plan, scan)));
    PlanSteps(Now(b), t, plan, scan);
    StepTo(init, b, planned, t);
    b' := b + [planned];
  }

  /** A sync that finds the registry as it is comes to lock its rows, if nothing
      refuses it. */
  lemma SyncReaches(init: Store, b: seq<State>, t: TxId) returns (b': seq<State>)
    requires Behaviour(init, b) && t in Now(b).live && Now(b).live[t].SyncTxn? && Now(b).live[t].sync.Locking?
    requires Now(b).sentinel.None? && Refusal(Now(b).committed, Now(b).live[t].decl, Now(b).live[t].guards).None?
    ensures Continues(init, b, b')
    ensures exists stage: SyncStage :: (
      stage.Writing? && stage.held == [] &&
      Now(b') == To(Now(b), t, Now(b).live[t].(sync := stage)).(sentinel := Some(t)))
  {
    b' := ReadsItsRows(init, b, t);
    b' := ReadsOn(init, b', t);
    b' := PlansItsRows(init, b', t);
    var stage := Now(b').live[t].sync;
    assert Now(b') == To(Now(b), t, Now(b).live[t].(sync := stage)).(sentinel := Some(t));
  }

  lemma OrderFrom(rows: set<Id>, first: Id) returns (order: seq<Id>)
    requires first in rows
    ensures Lists(order, rows) && order[0] == first
  {
    var rest := Listing(rows - {first});
    order := [first] + rest;
  }

  lemma FlushIsReady(order: seq<Id>, sent: Sent, from: nat, named: set<Id>)
    requires sent.call.TouchTxn? && Lists(order, sent.scanned)
    ensures var scanning := sent.call.(touch := Scanning(from, named, order, [], {}));
      Locks(scanning) && Held(scanning) == [] && Script(scanning) == order && IsCall(scanning, sent)
  {
  }

  /** Two flushes that scan the same two rows, each scanning another of them first. */
  lemma FlushesMeet(init: Store, p: Sent, q: Sent, x: Id, y: Id) returns (b: seq<State>)
    requires Meet(init, p, q) && p.call.TouchTxn? && q.call.TouchTxn? && x != y
    requires x in RowsOf(init, p) && y in RowsOf(init, p) && x in RowsOf(init, q) && y in RowsOf(init, q)
    ensures Behaviour(init, b) && Now(b).log == [] && AboutToLock(Now(b), 0, 1) && TwoOrders(Now(b), 0, 1)
    ensures IsCall(Now(b).live[0], p) && IsCall(Now(b).live[1], q)
  {
    StartBehaves(init);
    b := [Start(init)];
    BeginsWith(init, b, 0, p.call);
    b := b + [Begun(Now(b), 0, p.call)];
    BeginsWith(init, b, 1, q.call);
    b := b + [Begun(Now(b), 1, q.call)];
    var a := OrderFrom(RowsOf(init, p), x);
    var c := OrderFrom(RowsOf(init, q), y);
    b := NamesItsRows(init, b, 0, a);
    b := NamesItsRows(init, b, 1, c);
    FlushIsReady(a, p, 0, Named(init, p.call.paths));
    FlushIsReady(c, q, 0, Named(init, q.call.paths));
    assert FirstIn(a, c) == 0 && FirstIn(c, a) == 0;
  }

  /** A sync about to lock its rows, alone on the registry it found. */
  lemma SyncComes(init: Store, p: Sent) returns (b: seq<State>)
    requires Valid(init) && NewTxn(p.call) && p.call.SyncTxn? && Mints(p.call) !! init.projects.Keys && Refusal(init, p.call.decl, p.call.guards).None?
    ensures Behaviour(init, b) && Now(b).log == [] && Now(b).failed == [] && Now(b).committed == init
    ensures Now(b).live.Keys == {0} && Now(b).minted == init.projects.Keys + Mints(p.call)
    ensures IsCall(Now(b).live[0], p) && Locks(Now(b).live[0]) && Held(Now(b).live[0]) == []
  {
    StartBehaves(init);
    b := [Start(init)];
    BeginsWith(init, b, 0, p.call);
    b := b + [Begun(Now(b), 0, p.call)];
    b := SyncReaches(init, b, 0);
  }

  lemma SyncWillLock(init: Store, b: seq<State>, t: TxId, id: Id)
    requires Behaviour(init, b) && Now(b).log == [] && t in Now(b).live && Now(b).live[t].SyncTxn? && Locks(Now(b).live[t])
    requires id in init.projects
    ensures id in Script(Now(b).live[t]) <==> Alters(init, Now(b).live[t].decl, Now(b).live[t].actor, Now(b).live[t].mint, id)
  {
    BehaviourKeeps(init, b, |b| - 1);
    BehaviourLocks(init, b, |b| - 1);
    NothingCommitted(init, Now(b));
    SyncOkOf(init, Now(b), t);
    assert LocksOk(Now(b).live[t]);
    SyncLocksAltered(init, Now(b).live[t], id);
  }

  /** Where a list first meets another depends only on what the other holds. */
  lemma FirstInMembers(a: seq<Id>, b: seq<Id>, c: seq<Id>)
    requires forall x :: x in b <==> x in c
    ensures FirstIn(a, b) == FirstIn(a, c)
  {
    assert FirstPlace(a, c, FirstIn(a, b));
  }

  /** Some scan of the flush comes first to another shared row than the sync. */
  lemma OtherWayRound(script: seq<Id>, rows: set<Id>, x: Id, y: Id) returns (order: seq<Id>)
    requires x != y && x in script && y in script && x in rows && y in rows
    ensures Lists(order, rows) && Crossed(script, order)
  {
    var any := Listing(rows);
    var z := if FirstShared(script, any) == Some(x) then y else x;
    order := OrderFrom(rows, z);
    FirstInMembers(script, any, order);
    assert FirstIn(order, script) == 0;
  }

  /** A flush comes to lock its rows, in this order, beside one other. */
  lemma FlushJoins(init: Store, b: seq<State>, q: Sent, order: seq<Id>) returns (b': seq<State>)
    requires Behaviour(init, b) && Now(b).log == [] && Now(b).live.Keys == {0} && Locks(Now(b).live[0]) && Held(Now(b).live[0]) == []
    requires NewTxn(q.call) && q.call.TouchTxn? && CanScan(Now(b).committed, q) && Lists(order, q.scanned)
    ensures Behaviour(init, b') && Now(b').log == [] && AboutToLock(Now(b'), 0, 1)
    ensures Now(b').live[0] == Now(b).live[0] && IsCall(Now(b').live[1], q) && Script(Now(b').live[1]) == order
  {
    BeginsWith(init, b, 1, q.call);
    b' := b + [Begun(Now(b), 1, q.call)];
    b' := NamesItsRows(init, b', 1, order);
    FlushIsReady(order, q, 0, Named(Now(b).committed, q.call.paths));
  }

  lemma SyncAndFlushMeet(init: Store, p: Sent, q: Sent, x: Id, y: Id) returns (b: seq<State>)
    requires Meet(init, p, q) && p.call.SyncTxn? && q.call.TouchTxn? && x != y
    requires x in RowsOf(init, p) && y in RowsOf(init, p) && x in RowsOf(init, q) && y in RowsOf(init, q)
    ensures Behaviour(init, b) && Now(b).log == [] && AboutToLock(Now(b), 0, 1) && TwoOrders(Now(b), 0, 1)
    ensures IsCall(Now(b).live[0], p) && IsCall(Now(b).live[1], q)
  {
    var alone := SyncComes(init, p);
    SyncWillLock(init, alone, 0, x);
    SyncWillLock(init, alone, 0, y);
    var order := OtherWayRound(Script(Now(alone).live[0]), RowsOf(init, q), x, y);
    b := FlushJoins(init, alone, q, order);
  }

  /** Two calls about to lock their rows, each coming first to another of those
      they share, come to a deadlock. */
  lemma MeetingDeadlocks(init: Store, p: Sent, q: Sent, b: seq<State>)
    requires Behaviour(init, b) && Now(b).log == [] && AboutToLock(Now(b), 0, 1) && TwoOrders(Now(b), 0, 1)
    requires IsCall(Now(b).live[0], p) && IsCall(Now(b).live[1], q)
    ensures CanDeadlock(init, p, q)
  {
    NothingStale(init, b, 0, Meeting(Script(Now(b).live[0]), Script(Now(b).live[1])));
    NothingStale(init, b, 1, Meeting(Script(Now(b).live[1]), Script(Now(b).live[0])));
    CircleCan(init, b, 0, 1);
    var b' :| Continues(init, b, b') && Circle(Now(b), Now(b'), 0, 1);
    CircleEntangles(init, p, q, Now(b), b');
  }

  lemma CircleEntangles(init: Store, p: Sent, q: Sent, s: State, b: seq<State>)
    requires Behaviour(init, b) && s.log == [] && AboutToLock(s, 0, 1) && Circle(s, Now(b), 0, 1)
    requires IsCall(s.live[0], p) && IsCall(s.live[1], q)
    ensures CanDeadlock(init, p, q)
  {
    SameCall(s.live[0], Now(b).live[0], p);
    SameCall(s.live[1], Now(b).live[1], q);
    BothWaitIsDeadlock(Now(b), 0, 1);
    assert Entangled(init, p, q, b, 0, 1);
  }

  /** Before anything is answered no row has changed since it was read. */
  lemma NothingStale(init: Store, b: seq<State>, t: TxId, n: nat)
    requires Behaviour(init, b) && Now(b).log == [] && t in Now(b).live
    ensures Current(Now(b), t, n)
  {
    BehaviourKeepsWhole(init, b, |b| - 1);
    NothingCommitted(init, Now(b));
    ReadFromStart(init, Now(b).log, Now(b).live[t]);
  }

  lemma ReadFromStart(init: Store, log: seq<Event>, txn: Txn)
    requires log == [] && ReadOk(init, log, txn)
    ensures SnapshotOf(txn).Some? ==> SnapshotOf(txn).value == init
  {
    if Reading(txn) {
      assert OpsOf(log[..txn.sync.read]) == [];
    }
  }

  lemma SameCall(a: Txn, b: Txn, sent: Sent)
    requires IsCall(a, sent) && OpOf(b) == OpOf(a) && Locks(a) && Locks(b) && Script(b) == Script(a)
    ensures IsCall(b, sent)
  {
  }

  lemma EitherWay(init: Store, p: Sent, q: Sent)
    requires CanDeadlock(init, q, p)
    ensures CanDeadlock(init, p, q)
  {
    var b, t, u :| Entangled(init, q, p, b, t, u);
    assert {t, u} == {u, t};
    assert Entangled(init, p, q, b, u, t);
  }

  /** Whichever rows the engine scans for a flush: two calls sent to the same
      registry can deadlock, before anything is answered and in some order of the
      scans, if and only if they are not both syncs and share two rows, rows a flush
      scans and a sync changes or grants a new team on. */
  lemma DeadlockIffTwoShared(init: Store, p: Sent, q: Sent)
    requires Meet(init, p, q)
    ensures CanDeadlock(init, p, q) <==> TwoShared(init, p, q) && !(p.call.SyncTxn? && q.call.SyncTxn?)
  {
    if CanDeadlock(init, p, q) {
      var b, t, u :| Entangled(init, p, q, b, t, u);
      EntangledShareTwo(init, p, q, b, t, u);
    } else if TwoShared(init, p, q) && !(p.call.SyncTxn? && q.call.SyncTxn?) {
      SharersDeadlock(init, p, q);
    }
  }

  lemma SharersDeadlock(init: Store, p: Sent, q: Sent)
    requires Meet(init, p, q) && TwoShared(init, p, q) && !(p.call.SyncTxn? && q.call.SyncTxn?)
    ensures CanDeadlock(init, p, q)
  {
    var x, y :| x != y && x in RowsOf(init, p) && y in RowsOf(init, p) && x in RowsOf(init, q) && y in RowsOf(init, q);
    if p.call.TouchTxn? && q.call.TouchTxn? {
      var b := FlushesMeet(init, p, q, x, y);
      MeetingDeadlocks(init, p, q, b);
    } else if p.call.SyncTxn? {
      var b := SyncAndFlushMeet(init, p, q, x, y);
      MeetingDeadlocks(init, p, q, b);
    } else {
      var b := SyncAndFlushMeet(init, q, p, x, y);
      MeetingDeadlocks(init, q, p, b);
      EitherWay(init, p, q);
    }
  }

  // ---- For instance ----

  function RootRow(path: string): Row {
    Row(path, path, Active, Some("git"), None, Org, 1, "", "")
  }

  const TWO_ROOTS := Store(map[1 := RootRow("acme"), 2 := RootRow("beta")], map[], map[], map[], map[])
  const RENAMING := [Declared("acme", "Acme", "git", []), Declared("beta", "Beta", "git", [])]

  lemma RootNames()
    ensures Fold("acme") == "acme" && Fold("beta") == "beta"
    ensures OrgPath("acme") && OrgPath("beta")
  {
    OneSegment("acme");
    OneSegment("beta");
  }

  lemma RootRowOk(path: string)
    requires OrgPath(path) && '/' !in path && Fold(path) == path
    ensures RowChecks(RootRow(path)) && LegalPath(path) && OwnedRow(RootRow(path)) && Root(path) == path
  {
    ClassCheckAgrees(path);
    NoSlash(path);
  }

  lemma {:induction false} NoSlash(path: string)
    requires '/' !in path
    ensures FirstSlash(path) == |path|
  {
    if path != "" {
      NoSlash(path[1..]);
    }
  }

  lemma TwoRootsSchema()
    requires RowChecks(RootRow("acme")) && RowChecks(RootRow("beta"))
    ensures Schema(TWO_ROOTS)
  {
    RootNames();
  }

  lemma TwoRootsAnchored()
    requires Root("acme") == "acme" && Root("beta") == "beta"
    ensures Anchored(TWO_ROOTS)
  {
    RootNames();
    assert Fold(TWO_ROOTS.projects[1].path) == Root("acme") && Fold(TWO_ROOTS.projects[2].path) == Root("beta");
    assert AnchorOf(TWO_ROOTS, "acme") && AnchorOf(TWO_ROOTS, "beta");
  }

  lemma TwoRootsValid()
    ensures Valid(TWO_ROOTS)
  {
    RootNames();
    RootRowOk("acme");
    RootRowOk("beta");
    TwoRootsSchema();
    TwoRootsAnchored();
  }

  lemma RenamingKeys()
    ensures RENAMING[0].Key() == "acme" && RENAMING[1].Key() == "beta" && Keyed(RENAMING)
  {
    RootNames();
  }

  lemma RenamingRooted()
    ensures Rooted(RENAMING, 0) && Rooted(RENAMING, 1)
  {
    RenamingKeys();
    RootNames();
    RootRowOk("acme");
    RootRowOk("beta");
  }

  lemma RenamingWellFormed()
    ensures WellFormed(RENAMING)
  {
    RenamingKeys();
    RenamingRooted();
    RootNames();
  }

  lemma RenamingAccepted()
    ensures Refusal(TWO_ROOTS, RENAMING, Guards(false, false)).None?
  {
    RootNames();
    RenamingKeys();
    IndexOfDeclared(RENAMING, 0);
    IndexOfDeclared(RENAMING, 1);
    assert ToArchive(TWO_ROOTS, RENAMING) == {};
    assert RevokedPairs(TWO_ROOTS, RENAMING) == {};
  }

  lemma FlushNamesBoth(paths: seq<string>)
    requires paths == ["acme", "beta"]
    ensures 1 in Named(TWO_ROOTS, paths) && 2 in Named(TWO_ROOTS, paths)
  {
    assert Names(TWO_ROOTS, paths[0], 1) && Names(TWO_ROOTS, paths[1], 2);
  }

  /** The `i`th entry of the declaration renames this row. */
  ghost predicate Renames(s: Store, decl: seq<Declared>, i: nat, id: Id) {
    && i < |decl| && id in s.projects && ActiveOrg(s.projects[id])
    && decl[i].Key() == Fold(s.projects[id].path) && decl[i].displayName != s.projects[id].displayName
  }

  lemma RenamedIsLocked(s: Store, p: Sent, i: nat, id: Id)
    requires p.call.SyncTxn? && Keyed(p.call.decl) && Fresh(s, p.call.decl, p.call.mint) && Refusal(s, p.call.decl, p.call.guards).None?
    requires Renames(s, p.call.decl, i, id)
    ensures id in RowsOf(s, p)
  {
    IndexOfDeclared(p.call.decl, i);
    SettledStored(s, p.call.decl, p.call.actor, p.call.mint, id);
  }

  lemma FreshFor(s: Store, p: Sent)
    requires NewTxn(p.call) && p.call.SyncTxn? && Mints(p.call) !! s.projects.Keys
    ensures Keyed(p.call.decl) && Fresh(s, p.call.decl, p.call.mint)
  {
    forall i | 0 <= i < |p.call.mint|
      ensures p.call.mint[i] !in s.projects
    {
      assert p.call.mint[i] in Mints(p.call);
    }
  }

  lemma RenamesShare(init: Store, p: Sent, q: Sent, i: nat, x: Id, j: nat, y: Id)
    requires Meet(init, p, q) && p.call.SyncTxn? && q.call.TouchTxn? && Refusal(init, p.call.decl, p.call.guards).None? && x != y
    requires Renames(init, p.call.decl, i, x) && Renames(init, p.call.decl, j, y)
    requires x in Named(init, q.call.paths) && y in Named(init, q.call.paths)
    ensures TwoShared(init, p, q)
  {
    FreshFor(init, p);
    RenamedIsLocked(init, p, i, x);
    RenamedIsLocked(init, p, j, y);
  }

  /** A sync that renames two rows and a flush that names both can deadlock. */
  lemma RenamesCanDeadlock(init: Store, p: Sent, q: Sent, i: nat, x: Id, j: nat, y: Id)
    requires Meet(init, p, q) && p.call.SyncTxn? && q.call.TouchTxn? && Refusal(init, p.call.decl, p.call.guards).None? && x != y
    requires Renames(init, p.call.decl, i, x) && Renames(init, p.call.decl, j, y)
    requires x in Named(init, q.call.paths) && y in Named(init, q.call.paths)
    ensures CanDeadlock(init, p, q)
  {
    RenamesShare(init, p, q, i, x, j, y);
    SharersDeadlock(init, p, q);
  }

  const RENAMING_SYNC := Sent(SyncTxn(RENAMING, "", Guards(false, false), [3, 4], Locking), {})
  const NAMING_FLUSH := Sent(TouchTxn(["acme", "beta"], MIN_TIMESTAMP_SECONDS, Updating), {1, 2})

  lemma RenamingMeetsNaming()
    ensures Meet(TWO_ROOTS, RENAMING_SYNC, NAMING_FLUSH)
  {
    TwoRootsValid();
    RenamingWellFormed();
    RootNames();
  }

  /** These two, for instance, on a registry of two roots. */
  lemma RenamingCanDeadlock()
    ensures CanDeadlock(TWO_ROOTS, RENAMING_SYNC, NAMING_FLUSH)
  {
    RenamingMeetsNaming();
    RootNames();
    RenamingKeys();
    RenamingAccepted();
    FlushNamesBoth(NAMING_FLUSH.call.paths);
    RenamesCanDeadlock(TWO_ROOTS, RENAMING_SYNC, NAMING_FLUSH, 0, 1, 1, 2);
  }
}
