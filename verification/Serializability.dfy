/** The interleaved machine refines the serial one: whatever the interleaving and
    whatever aborts, every answer and the whole committed registry are those of
    the answered calls run one at a time in the order of the log. */
module Serializability {
  import opened Congruence
  import opened Declaration
  import opened GrantPlans
  import opened Interleaving
  import opened Operations
  import opened Outcome
  import opened Reconcile
  import opened Registration
  import opened Registry
  import opened Survival
  import SyncLaws
  import opened Syncs
  import opened Text
  import opened Touches

  lemma InitHolds(init: Store, s: State)
    requires Init(init, s)
    ensures Inv(init, s)
  {
  }

  /** One more call at the end of a serial run. */
  lemma SerialExtends(init: Store, log: seq<Event>, c: Store, e: Event, c': Store)
    requires Serial(init, log, c) && Ready(c, e.op) && Apply(c, e.op) == (e.answer, c')
    ensures Serial(init, log + [e], c')
  {
    var log' := log + [e];
    OpsExtend(log, e);
    assert OpsOf(log') != [] && OpsOf(log')[..|log|] == OpsOf(log) && OpsOf(log')[|log|] == e.op;
    forall i | 0 <= i < |log'|
      ensures AnswerHolds(init, log', i)
    {
      if i < |log| {
        assert AnswerHolds(init, log, i);
        assert log'[..i] == log[..i];
      } else {
        assert log'[..i] == log;
      }
    }
  }

  lemma OpsExtend(log: seq<Event>, e: Event)
    ensures OpsOf(log + [e]) == OpsOf(log) + [e.op]
  {
  }

  // ---- Steps that commit nothing ----

  /** A step that changes no table keeps the invariant when its own transaction
      still does. */
  lemma LocalKeeps(init: Store, s: State, s': State, t: TxId)
    requires Inv(init, s)
    requires s'.committed == s.committed && s.minted <= s'.minted && Serial(init, s'.log, s.committed)
    requires s'.live - {t} == s.live - {t}
    requires forall u :: u in s.live && u != t ==> (s'.sentinel == Some(u) <==> s.sentinel == Some(u))
    requires t in s'.live ==> LiveOk(s', t) && ApartFromOthers(s', t, s'.live[t])
    requires s'.sentinel.Some? ==> s'.sentinel.value in s'.live && s'.live[s'.sentinel.value].SyncTxn?
    ensures Inv(init, s')
  {
    forall u | u in s'.live
      ensures LiveOk(s', u)
    {
      if u != t {
        Unmoved(s, s', t, u);
        assert LiveOk(s, u);
      }
    }
    forall u, v | u in s'.live && v in s'.live && u != v
      ensures Apart(s'.live[u], s'.live[v])
    {
      if u != t {
        Unmoved(s, s', t, u);
      }
      if v != t {
        Unmoved(s, s', t, v);
      }
      if v == t {
        assert Apart(s'.live[v], s'.live[u]);
      } else if u != t {
        assert Apart(s.live[u], s.live[v]);
      }
    }
  }

  lemma Unmoved(s: State, s': State, t: TxId, u: TxId)
    requires s'.live - {t} == s.live - {t} && u != t
    ensures u in s'.live <==> u in s.live
    ensures u in s.live ==> s'.live[u] == s.live[u]
  {
    assert u in s'.live - {t} <==> u in s.live - {t};
    if u in s.live {
      assert (s'.live - {t})[u] == (s.live - {t})[u];
    }
  }

  lemma OnlyMoves(s: State, t: TxId, txn: Txn)
    ensures To(s, t, txn).live - {t} == s.live - {t}
    ensures To(s, t, txn).live[t] == txn
  {
  }

  /** Moving on within a transaction. */
  lemma MoveKeeps(init: Store, s: State, t: TxId, txn: Txn)
    requires Inv(init, s) && t in s.live && Mints(txn) == Mints(s.live[t]) && (s.live[t].SyncTxn? ==> txn.SyncTxn?)
    requires TxnOk(s.committed, s.sentinel == Some(t), txn) && ApartFromOthers(s, t, txn)
    ensures Inv(init, To(s, t, txn))
  {
    assert LiveOk(s, t);
    OnlyMoves(s, t, txn);
    LocalKeeps(init, s, To(s, t, txn), t);
  }

  lemma HoldingNoMore(init: Store, s: State, t: TxId, txn: Txn)
    requires Inv(init, s) && t in s.live && Mints(txn) == Mints(s.live[t])
    requires HeldKeys(txn) <= HeldKeys(s.live[t]) && HeldPaths(txn) <= HeldPaths(s.live[t]) && HeldRows(txn) <= HeldRows(s.live[t])
    ensures ApartFromOthers(s, t, txn)
  {
    forall u | u in s.live && u != t
      ensures Apart(txn, s.live[u])
    {
      assert Apart(s.live[t], s.live[u]);
    }
  }

  /** A refusal: the answer the call has alone, and nothing written. */
  lemma RefusalKeeps(init: Store, s: State, t: TxId, answer: Answer)
    requires Inv(init, s) && t in s.live
    requires Ready(s.committed, OpOf(s.live[t])) && Apply(s.committed, OpOf(s.live[t])) == (answer, s.committed)
    ensures Inv(init, Answered(s, t, s.live[t], answer))
  {
    SerialExtends(init, s.log, s.committed, EventOf(s, t, s.live[t], answer), s.committed);
    LocalKeeps(init, s, Answered(s, t, s.live[t], answer), t);
  }

  lemma AbortKeeps(init: Store, s: State, s': State, t: TxId)
    requires Inv(init, s) && Aborts(s, s', t)
    ensures Inv(init, s')
  {
    LocalKeeps(init, s, s', t);
  }

  lemma BeginApart(init: Store, s: State, s': State, t: TxId, txn: Txn)
    requires Inv(init, s) && Begins(s, s', t, txn)
    ensures ApartFromOthers(s', t, txn)
  {
    forall u | u in s'.live && u != t
      ensures Apart(txn, s'.live[u])
    {
      assert LiveOk(s, u);
    }
  }

  /** Fresh ids are ids of no row. */
  lemma BeginOk(init: Store, s: State, t: TxId, txn: Txn)
    requires Inv(init, s) && NewTxn(txn) && Mints(txn) !! s.minted && t !in s.live
    ensures TxnOk(s.committed, s.sentinel == Some(t), txn)
  {
    match txn
    case SyncTxn(_, _, _, mint, _) =>
      forall i | 0 <= i < |mint|
        ensures mint[i] !in s.committed.projects
      {
        assert mint[i] in Mints(txn);
      }
    case RegisterTxn(_, id, _) =>
      assert id in Mints(txn);
    case TouchTxn(_, _, _) =>
  }

  lemma BeginKeeps(init: Store, s: State, s': State, t: TxId, txn: Txn)
    requires Inv(init, s) && Begins(s, s', t, txn)
    ensures Inv(init, s')
  {
    BeginApart(init, s, s', t, txn);
    BeginOk(init, s, t, txn);
    OnlyMoves(s, t, txn);
    LocalKeeps(init, s, s', t);
  }

  // ---- Steps that commit ----

  /** The one step of a transaction that changes the tables. */
  lemma CommitKeeps(init: Store, s: State, t: TxId, answer: Answer, c': Store)
    requires Inv(init, s) && t in s.live
    requires Ready(s.committed, OpOf(s.live[t])) && Apply(s.committed, OpOf(s.live[t])) == (answer, c')
    requires c'.projects.Keys <= s.minted
    requires forall u {:trigger s.live[u]} :: u in s.live && u != t ==> TxnOk(c', s.sentinel == Some(u), s.live[u])
    ensures Inv(init, Answered(s, t, s.live[t], answer).(committed := c'))
  {
    var s' := Answered(s, t, s.live[t], answer).(committed := c');
    SerialExtends(init, s.log, s.committed, EventOf(s, t, s.live[t], answer), c');
    ApplyKeeps(s.committed, OpOf(s.live[t]));
    forall u | u in s'.live
      ensures LiveOk(s', u)
    {
      assert LiveOk(s, u);
      assert s'.live[u] == s.live[u];
    }
    forall u, v | u in s'.live && v in s'.live && u != v
      ensures Apart(s'.live[u], s'.live[v])
    {
      assert Apart(s.live[u], s.live[v]);
    }
  }

  // ---- The sync's statements ----

  /** A live sync moves on without locking a row. */
  lemma SyncMoveKeeps(init: Store, s: State, t: TxId, stage: SyncStage)
    requires Inv(init, s) && t in s.live && s.live[t].SyncTxn?
    requires SyncOk(s.committed, s.sentinel == Some(t), s.live[t].(sync := stage))
    requires Held(s.live[t].(sync := stage)) == [] || Held(s.live[t].(sync := stage)) == Held(s.live[t])
    ensures Inv(init, To(s, t, s.live[t].(sync := stage)))
  {
    HoldingNoMore(init, s, t, s.live[t].(sync := stage));
    MoveKeeps(init, s, t, s.live[t].(sync := stage));
  }

  lemma SyncOkOf(init: Store, s: State, t: TxId)
    requires Inv(init, s) && t in s.live && s.live[t].SyncTxn?
    ensures SyncOk(s.committed, s.sentinel == Some(t), s.live[t])
  {
    assert LiveOk(s, t);
  }

  lemma LockKeeps(init: Store, s: State, s': State, t: TxId)
    requires Inv(init, s) && t in s.live && s.live[t].SyncTxn? && s.live[t].sync.Locking? && SyncSteps(s, s', t, s.live[t])
    ensures Inv(init, s')
  {
    SyncOkOf(init, s, t);
    assert LiveOk(s, t);
    HoldingNoMore(init, s, t, s.live[t].(sync := Locked));
    LocalKeeps(init, s, s', t);
  }

  lemma ReadRowsKeeps(init: Store, s: State, s': State, t: TxId)
    requires Inv(init, s) && t in s.live && s.live[t].SyncTxn? && s.live[t].sync.Locked? && SyncSteps(s, s', t, s.live[t])
    ensures Inv(init, s')
  {
    SyncOkOf(init, s, t);
    assert OrgSame(s.committed, s.committed);
    SyncMoveKeeps(init, s, t, RowsRead(s.committed, |s.log|));
  }

  /** What a sync reads under the lock, from the snapshot or afresh, is what is
      committed. */
  lemma ReadsAgree(c: Store, from: Store, base: Store, decl: seq<Declared>, guards: Guards)
    requires OrgSame(base, c) && Schema(base) && Schema(c) && (from == base || from == c)
    ensures OrgSame(from, c) && OrgSame(c, from) && Schema(from)
    ensures OnAlias(from, decl) <==> OnAlias(c, decl)
    ensures ToArchive(base, decl) == ToArchive(c, decl) && ActiveRows(base) == ActiveRows(c) && OrgGrants(from) == OrgGrants(c)
    ensures Response(base, decl) == Response(c, decl)
  {
    SameAnswer(base, c, decl, guards);
    SameArchive(base, c, decl);
    OrgSameSymmetric(base, c);
  }

  lemma PlansAgree(c: Store, from: Store, decl: seq<Declared>, plan: GrantPlan)
    requires OrgSame(from, c) && Keyed(decl) && IsPlan(plan, from, decl)
    ensures IsPlan(plan, c, decl) && |plan.deletes| == |RevokedPairs(c, decl)| && |OrgGrants(from)| == |OrgGrants(c)|
  {
    SamePlan(from, c, decl, plan);
    SyncLaws.PlanCounts(c, decl, plan);
  }

  lemma SyncRefusalKeeps(init: Store, s: State, t: TxId, code: Code)
    requires Inv(init, s) && t in s.live && s.live[t].SyncTxn?
    requires Refusal(s.committed, s.live[t].decl, s.live[t].guards) == Some(code)
    ensures Inv(init, Answered(s, t, s.live[t], Synced(Err(code))))
  {
    SyncOkOf(init, s, t);
    RefusalKeeps(init, s, t, Synced(Err(code)));
  }

  /** The alias check and the archive guard decide as they would alone. */
  lemma AliasesDecide(c: Store, from: Store, txn: Txn)
    requires txn.SyncTxn? && txn.sync.RowsRead? && SyncOk(c, true, txn) && Schema(c) && (from == txn.sync.base || from == c)
    ensures OnAlias(from, txn.decl) ==> Refusal(c, txn.decl, txn.guards) == Some(AlreadyExists)
    ensures !OnAlias(from, txn.decl) ==>
      var base := txn.sync.base;
      if !txn.guards.allowMassArchive && |ToArchive(base, txn.decl)| * 2 > |ActiveRows(base)| then
        Refusal(c, txn.decl, txn.guards) == Some(FailedPrecondition)
      else SyncOk(c, true, txn.(sync := AliasesRead(base, txn.sync.read)))
  {
    ReadsAgree(c, from, txn.sync.base, txn.decl, txn.guards);
  }

  lemma ReadAliasesKeeps(init: Store, s: State, s': State, t: TxId)
    requires Inv(init, s) && t in s.live && s.live[t].SyncTxn? && s.live[t].sync.RowsRead? && SyncSteps(s, s', t, s.live[t])
    ensures Inv(init, s')
  {
    var txn := s.live[t];
    var c, base := s.committed, txn.sync.base;
    SyncOkOf(init, s, t);
    var from :| (from == base || from == c) &&
      s' == if OnAlias(from, txn.decl) then Answered(s, t, txn, Synced(Err(AlreadyExists)))
            else if !txn.guards.allowMassArchive && |ToArchive(base, txn.decl)| * 2 > |ActiveRows(base)| then
              Answered(s, t, txn, Synced(Err(FailedPrecondition)))
            else To(s, t, txn.(sync := AliasesRead(base, txn.sync.read)));
    AliasesDecide(c, from, txn);
    if OnAlias(from, txn.decl) {
      SyncRefusalKeeps(init, s, t, AlreadyExists);
    } else if !txn.guards.allowMassArchive && |ToArchive(base, txn.decl)| * 2 > |ActiveRows(base)| {
      SyncRefusalKeeps(init, s, t, FailedPrecondition);
    } else {
      SyncMoveKeeps(init, s, t, AliasesRead(base, txn.sync.read));
    }
  }

  predicate Revokes(txn: Txn, from: set<(Id, string)>, plan: GrantPlan)
    requires txn.SyncTxn?
  {
    !txn.guards.allowMassRevoke && |plan.deletes| * 2 > |from|
  }

  /** The revoke guard decides as it would alone, and the plan is a plan for what
      is committed. */
  lemma PlanDecides(c: Store, from: Store, txn: Txn, plan: GrantPlan)
    requires txn.SyncTxn? && txn.sync.AliasesRead? && SyncOk(c, true, txn) && Schema(c) && (from == txn.sync.base || from == c)
    requires IsPlan(plan, from, txn.decl)
    ensures IsPlan(plan, c, txn.decl)
    ensures Refusal(c, txn.decl, txn.guards) == if Revokes(txn, OrgGrants(from), plan) then Some(FailedPrecondition) else None
  {
    ReadsAgree(c, from, txn.sync.base, txn.decl, txn.guards);
    PlansAgree(c, from, txn.decl, plan);
  }

  lemma PlannedOk(c: Store, txn: Txn, plan: GrantPlan, scan: seq<Id>)
    requires txn.SyncTxn? && txn.sync.AliasesRead? && SyncOk(c, true, txn)
    requires IsPlan(plan, c, txn.decl) && Refusal(c, txn.decl, txn.guards).None?
    ensures SyncOk(c, true, txn.(sync := Planned(txn, plan, scan)))
  {
  }

  lemma PlanRefused(init: Store, s: State, s': State, t: TxId, from: Store, plan: GrantPlan, scan: seq<Id>)
    requires Inv(init, s) && t in s.live && s.live[t].SyncTxn? && s.live[t].sync.AliasesRead?
    requires from == s.live[t].sync.base || from == s.committed
    requires SyncPlans(s, s', t, s.live[t], from, plan, scan) && Revokes(s.live[t], OrgGrants(from), plan)
    ensures Inv(init, s')
  {
    SyncOkOf(init, s, t);
    PlanDecides(s.committed, from, s.live[t], plan);
    SyncRefusalKeeps(init, s, t, FailedPrecondition);
  }

  lemma AcceptedOk(init: Store, s: State, t: TxId, from: Store, plan: GrantPlan, scan: seq<Id>)
    requires Inv(init, s) && t in s.live && s.live[t].SyncTxn? && s.live[t].sync.AliasesRead?
    requires (from == s.live[t].sync.base || from == s.committed) && IsPlan(plan, from, s.live[t].decl)
    requires !Revokes(s.live[t], OrgGrants(from), plan)
    ensures SyncOk(s.committed, s.sentinel == Some(t), s.live[t].(sync := Planned(s.live[t], plan, scan)))
  {
    SyncOkOf(init, s, t);
    PlanDecides(s.committed, from, s.live[t], plan);
    PlannedOk(s.committed, s.live[t], plan, scan);
  }

  lemma PlanAccepted(init: Store, s: State, s': State, t: TxId, from: Store, plan: GrantPlan, scan: seq<Id>)
    requires Inv(init, s) && t in s.live && s.live[t].SyncTxn? && s.live[t].sync.AliasesRead?
    requires from == s.live[t].sync.base || from == s.committed
    requires SyncPlans(s, s', t, s.live[t], from, plan, scan) && !Revokes(s.live[t], OrgGrants(from), plan)
    ensures Inv(init, s')
  {
    AcceptedOk(init, s, t, from, plan, scan);
    SyncMoveKeeps(init, s, t, Planned(s.live[t], plan, scan));
  }

  lemma PlanKeepsWith(init: Store, s: State, s': State, t: TxId, from: Store, plan: GrantPlan, scan: seq<Id>)
    requires Inv(init, s) && t in s.live && s.live[t].SyncTxn? && s.live[t].sync.AliasesRead?
    requires from == s.live[t].sync.base || from == s.committed
    requires SyncPlans(s, s', t, s.live[t], from, plan, scan)
    ensures Inv(init, s')
  {
    if Revokes(s.live[t], OrgGrants(from), plan) {
      PlanRefused(init, s, s', t, from, plan, scan);
    } else {
      PlanAccepted(init, s, s', t, from, plan, scan);
    }
  }

  lemma PlanKeeps(init: Store, s: State, s': State, t: TxId)
    requires Inv(init, s) && t in s.live && s.live[t].SyncTxn? && s.live[t].sync.AliasesRead? && SyncSteps(s, s', t, s.live[t])
    ensures Inv(init, s')
  {
    var from, plan, scan :|
      (from == s.live[t].sync.base || from == s.committed) && SyncPlans(s, s', t, s.live[t], from, plan, scan);
    PlanKeepsWith(init, s, s', t, from, plan, scan);
  }

  /** Computed from what was read, a sync's statements are those of a sync run
      alone on the committed tables: none is refused and together they converge. */
  lemma WritesConverge(c: Store, txn: Txn)
    requires Valid(c) && txn.SyncTxn? && txn.sync.Writing? && SyncOk(c, true, txn)
    ensures Reaches(c, txn.sync.ws, Converged(c, txn.decl, txn.actor, txn.mint))
  {
    OrgSameSymmetric(txn.sync.base, c);
    SameWrites(c, txn.sync.base, txn.decl, txn.actor, txn.mint, txn.sync.plan);
    SyncWritesConverge(c, txn.decl, txn.actor, txn.mint, txn.sync.plan);
  }

  /** The next statement of an accepted run is accepted. */
  lemma NextAccepted(c: Store, ws: seq<Write>, t: Store, k: nat, view: Store)
    requires Reaches(c, ws, t) && k < |ws| && Reaches(c, ws[..k], view)
    ensures Exec(view, ws[k]).Some?
  {
    var mid := ReachesPrefix(c, ws, t, k);
    ReachesUnique(c, ws[..k], view, mid);
    var rest := ws[k..];
    var last := ReachesPrefix(view, rest, t, 1);
    assert rest[..1] == [ws[k]];
    ReachesOne(view, ws[k], last);
  }

  /** Locking a row nobody else has locked. */
  lemma TakeKeeps(init: Store, s: State, t: TxId, txn: Txn, row: Id)
    requires Inv(init, s) && t in s.live && RowFree(s, t, row) && Held(txn) == Held(s.live[t]) + [row]
    requires Mints(txn) == Mints(s.live[t]) && (s.live[t].SyncTxn? ==> txn.SyncTxn?)
    requires !txn.RegisterTxn?
    requires TxnOk(s.committed, s.sentinel == Some(t), txn)
    ensures Inv(init, To(s, t, txn))
  {
    forall u | u in s.live && u != t
      ensures Apart(txn, s.live[u])
    {
      assert Apart(s.live[t], s.live[u]);
    }
    MoveKeeps(init, s, t, txn);
  }

  lemma RefusedKeeps(init: Store, s: State, t: TxId, txn: Txn, row: Id)
    requires Inv(init, s) && t in s.live && txn.SyncTxn? && txn.sync.Writing?
    ensures Inv(init, Refused(s, t, txn, row))
  {
    LocalKeeps(init, s, Refused(s, t, txn, row), t);
  }

  lemma SyncTakeKeeps(init: Store, s: State, s': State, t: TxId)
    requires Inv(init, s) && t in s.live && s.live[t].SyncTxn? && Wants(s.live[t]).Some? && SyncTakes(s, s', t, s.live[t])
    ensures Inv(init, s')
  {
    var txn := s.live[t];
    SyncOkOf(init, s, t);
    if Stale(s.committed, txn, Wants(txn).value) {
      RefusedKeeps(init, s, t, txn, Wants(txn).value);
    } else {
      TakeKeeps(init, s, t, txn.(sync := Took(txn.sync, Wants(txn).value)), Wants(txn).value);
    }
  }

  lemma NextWriteAccepted(c: Store, txn: Txn, view: Store)
    requires Valid(c) && txn.SyncTxn? && txn.sync.Writing? && SyncOk(c, true, txn) && txn.sync.done < |txn.sync.ws|
    requires Reaches(c, txn.sync.ws[..txn.sync.done], view)
    ensures Exec(view, txn.sync.ws[txn.sync.done]).Some?
    ensures SyncOk(c, true, txn.(sync := txn.sync.(done := txn.sync.done + 1, taken := 0)))
  {
    WritesConverge(c, txn);
    NextAccepted(c, txn.sync.ws, Converged(c, txn.decl, txn.actor, txn.mint), txn.sync.done, view);
  }

  lemma WroteKeeps(init: Store, s: State, t: TxId)
    requires Inv(init, s) && t in s.live && s.live[t].SyncTxn? && s.live[t].sync.Writing?
    requires SyncOk(s.committed, s.sentinel == Some(t), s.live[t].(sync := s.live[t].sync.(done := s.live[t].sync.done + 1, taken := 0)))
    ensures Inv(init, To(s, t, s.live[t].(sync := s.live[t].sync.(done := s.live[t].sync.done + 1, taken := 0))))
  {
    SyncMoveKeeps(init, s, t, s.live[t].sync.(done := s.live[t].sync.done + 1, taken := 0));
  }

  lemma WriteKeeps(init: Store, s: State, s': State, t: TxId)
    requires Inv(init, s) && t in s.live && s.live[t].SyncTxn? && s.live[t].sync.Writing?
    requires s.live[t].sync.done < |s.live[t].sync.ws| && SyncWriteStep(s, s', t, s.live[t])
    ensures Inv(init, s')
  {
    var txn := s.live[t];
    var ws, done := txn.sync.ws, txn.sync.done;
    SyncOkOf(init, s, t);
    var view :| Reaches(s.committed, ws[..done], view) &&
      s' == if Exec(view, ws[done]).Some? then To(s, t, txn.(sync := txn.sync.(done := done + 1, taken := 0)))
            else Answered(s, t, txn, Synced(Err(Internal)));
    NextWriteAccepted(s.committed, txn, view);
    WroteKeeps(init, s, t);
  }

  lemma SyncKeepsOthers(init: Store, s: State, t: TxId)
    requires Inv(init, s) && t in s.live && s.live[t].SyncTxn? && !s.live[t].sync.Locking?
    ensures var txn := s.live[t];
      var c' := Converged(s.committed, txn.decl, txn.actor, txn.mint);
      && c'.projects.Keys <= s.minted
      && forall u {:trigger s.live[u]} :: u in s.live && u != t ==> TxnOk(c', s.sentinel == Some(u), s.live[u])
  {
    var txn := s.live[t];
    var c' := Converged(s.committed, txn.decl, txn.actor, txn.mint);
    SyncOkOf(init, s, t);
    forall u | u in s.live && u != t
      ensures TxnOk(c', s.sentinel == Some(u), s.live[u])
    {
      assert LiveOk(s, u);
      assert Apart(s.live[t], s.live[u]);
      SurvivesSync(s.committed, txn, s.live[u]);
    }
    forall id | id in c'.projects && id !in s.committed.projects
      ensures id in s.minted
    {
      var i := InsertedBy(s.committed, txn.decl, txn.actor, txn.mint, id);
      assert LiveOk(s, t);
      assert txn.mint[i] in Mints(txn);
    }
  }

  lemma SyncCommitKeeps(init: Store, s: State, s': State, t: TxId)
    requires Inv(init, s) && t in s.live && s.live[t].SyncTxn? && s.live[t].sync.Writing?
    requires SyncCommits(s, s', t, s.live[t])
    ensures Inv(init, s')
  {
    var txn := s.live[t];
    var c := s.committed;
    var c' := Converged(c, txn.decl, txn.actor, txn.mint);
    SyncOkOf(init, s, t);
    WritesConverge(c, txn);
    var store :| Reaches(c, txn.sync.ws, store) &&
      s' == Answered(s, t, txn, Synced(Ok(ReadResponse(txn)))).(committed := store);
    ReachesUnique(c, txn.sync.ws, store, c');
    ReadsAgree(c, c, txn.sync.base, txn.decl, txn.guards);
    SyncLaws.PlanCounts(c, txn.decl, txn.sync.plan);
    assert ReadResponse(txn) == Response(c, txn.decl);
    SyncKeepsOthers(init, s, t);
    CommitKeeps(init, s, t, Synced(Ok(ReadResponse(txn))), c');
  }

  lemma SyncStepKeeps(init: Store, s: State, s': State, t: TxId)
    requires Inv(init, s) && t in s.live && s.live[t].SyncTxn? && SyncSteps(s, s', t, s.live[t])
    ensures Inv(init, s')
  {
    match s.live[t].sync
    case Locking => LockKeeps(init, s, s', t);
    case Locked => ReadRowsKeeps(init, s, s', t);
    case RowsRead(_, _) => ReadAliasesKeeps(init, s, s', t);
    case AliasesRead(_, _) => PlanKeeps(init, s, s', t);
    case Writing(_, _, _, ws, _, done, _, _) =>
      if Wants(s.live[t]).Some? {
        SyncTakeKeeps(init, s, s', t);
      } else if done < |ws| {
        WriteKeeps(init, s, s', t);
      } else {
        SyncCommitKeeps(init, s, s', t);
      }
  }

  // ---- The registration's statements ----

  lemma RegisterOkOf(init: Store, s: State, t: TxId)
    requires Inv(init, s) && t in s.live && s.live[t].RegisterTxn?
    ensures RegisterOk(s.committed, s.live[t])
    ensures Ready(s.committed, OpOf(s.live[t]))
  {
    assert LiveOk(s, t);
  }

  /** Taking a slot nobody else holds. */
  lemma RegisterMoveKeeps(init: Store, s: State, t: TxId, stage: RegisterStage)
    requires Inv(init, s) && t in s.live && s.live[t].RegisterTxn?
    requires var txn := s.live[t].(register := stage);
      && RegisterOk(s.committed, txn)
      && forall u :: u in s.live && u != t ==>
           (HeldKeys(txn) <= HeldKeys(s.live[t]) || HeldKeys(txn) !! HeldKeys(s.live[u]))
           && (HeldPaths(txn) <= HeldPaths(s.live[t]) || HeldPaths(txn) !! HeldPaths(s.live[u]))
    ensures Inv(init, To(s, t, s.live[t].(register := stage)))
  {
    var txn := s.live[t].(register := stage);
    forall u | u in s.live && u != t
      ensures Apart(txn, s.live[u])
    {
      assert Apart(s.live[t], s.live[u]);
    }
    MoveKeeps(init, s, t, txn);
  }

  lemma ClaimKeeps(init: Store, s: State, s': State, t: TxId)
    requires Inv(init, s) && t in s.live && s.live[t].RegisterTxn? && s.live[t].register.Claiming?
    requires RegisterSteps(s, s', t, s.live[t])
    ensures Inv(init, s')
  {
    var txn := s.live[t];
    RegisterOkOf(init, s, t);
    var key := LedgerKeyOf(txn.req);
    if key.Some? && key.value in s.committed.ledger {
      RegisterMoveKeeps(init, s, t, Replaying);
    } else {
      RegisterMoveKeeps(init, s, t, CheckingAlias);
    }
  }

  lemma CheckAliasKeeps(init: Store, s: State, s': State, t: TxId)
    requires Inv(init, s) && t in s.live && s.live[t].RegisterTxn?
    requires s.live[t].register.Replaying? || s.live[t].register.CheckingAlias?
    requires RegisterSteps(s, s', t, s.live[t])
    ensures Inv(init, s')
  {
    var txn := s.live[t];
    RegisterOkOf(init, s, t);
    if txn.register.Replaying? {
      RefusalKeeps(init, s, t,
        Registered(ReplayOf(s.committed.ledger[LedgerKeyOf(txn.req).value], RPC, PayloadOf(txn.req))));
    } else if AliasAt(s.committed, Fold(txn.req.path)) {
      RefusalKeeps(init, s, t, Registered(Err(AlreadyExists)));
    } else {
      RegisterMoveKeeps(init, s, t, Inserting);
    }
  }

  lemma InsertKeeps(init: Store, s: State, s': State, t: TxId)
    requires Inv(init, s) && t in s.live && s.live[t].RegisterTxn? && s.live[t].register.Inserting?
    requires RegisterSteps(s, s', t, s.live[t])
    ensures Inv(init, s')
  {
    var txn := s.live[t];
    RegisterOkOf(init, s, t);
    PrecheckedRowIsSound(txn.req);
    if LiveAt(s.committed, Fold(txn.req.path)) {
      RefusalKeeps(init, s, t, Registered(Err(AlreadyExists)));
    } else {
      RegisterMoveKeeps(init, s, t, Recording);
    }
  }

  lemma RegisterKeepsOthers(init: Store, s: State, t: TxId)
    requires Inv(init, s) && t in s.live && s.live[t].RegisterTxn? && s.live[t].register.Recorded?
    ensures var txn := s.live[t];
      var c' := RegisteredStore(s.committed, txn.req, txn.id);
      && c'.projects.Keys <= s.minted
      && forall u {:trigger s.live[u]} :: u in s.live && u != t ==> TxnOk(c', s.sentinel == Some(u), s.live[u])
  {
    var txn := s.live[t];
    var c' := RegisteredStore(s.committed, txn.req, txn.id);
    RegisterOkOf(init, s, t);
    forall u | u in s.live && u != t
      ensures TxnOk(c', s.sentinel == Some(u), s.live[u])
    {
      assert LiveOk(s, u);
      assert Apart(s.live[t], s.live[u]);
      SurvivesRegister(s.committed, txn, s.sentinel == Some(u), s.live[u]);
    }
    assert LiveOk(s, t);
    assert txn.id in Mints(txn);
  }

  lemma RegisterCommitKeeps(init: Store, s: State, s': State, t: TxId)
    requires Inv(init, s) && t in s.live && s.live[t].RegisterTxn? && s.live[t].register.Recorded?
    requires RegisterSteps(s, s', t, s.live[t])
    ensures Inv(init, s')
  {
    var txn := s.live[t];
    var c := s.committed;
    RegisterOkOf(init, s, t);
    var store :| Reaches(c, RegisterWrites(txn.req, txn.id), store) &&
      s' == Answered(s, t, txn, Registered(Ok(Some(MetaOf(txn.req, txn.id))))).(committed := store);
    RegisterWritesApply(c, txn.req, txn.id);
    ReachesUnique(c, RegisterWrites(txn.req, txn.id), store, RegisteredStore(c, txn.req, txn.id));
    RegisterKeepsOthers(init, s, t);
    CommitKeeps(init, s, t, Registered(Ok(Some(MetaOf(txn.req, txn.id)))), store);
  }

  lemma RegisterStepKeeps(init: Store, s: State, s': State, t: TxId)
    requires Inv(init, s) && t in s.live && s.live[t].RegisterTxn? && RegisterSteps(s, s', t, s.live[t])
    ensures Inv(init, s')
  {
    match s.live[t].register
    case Claiming => ClaimKeeps(init, s, s', t);
    case Replaying => CheckAliasKeeps(init, s, s', t);
    case CheckingAlias => CheckAliasKeeps(init, s, s', t);
    case Inserting => InsertKeeps(init, s, s', t);
    case Recording =>
      RegisterOkOf(init, s, t);
      RegisterMoveKeeps(init, s, t, Recorded);
    case Recorded => RegisterCommitKeeps(init, s, s', t);
  }

  // ---- The flush's statements ----

  lemma TouchOkOf(init: Store, s: State, t: TxId)
    requires Inv(init, s) && t in s.live && s.live[t].TouchTxn?
    ensures TouchOkay(s.committed, s.live[t])
  {
    assert LiveOk(s, t);
  }

  lemma UpdateKeeps(init: Store, s: State, s': State, t: TxId)
    requires Inv(init, s) && t in s.live && s.live[t].TouchTxn? && s.live[t].touch.Updating?
    requires TouchSteps(s, s', t, s.live[t])
    ensures Inv(init, s')
  {
    var txn := s.live[t];
    var named := Named(s.committed, txn.paths);
    var order :| Covers(s.committed, order, named) && s' == To(s, t, txn.(touch := Scanning(|s.log|, named, order, [], {})));
    var txn' := txn.(touch := Scanning(|s.log|, named, order, [], {}));
    TouchOkOf(init, s, t);
    HoldingNoMore(init, s, t, txn');
    assert Advanced(s.committed, HeldRows(txn') * named, txn.at) == {};
    MoveKeeps(init, s, t, txn');
  }

  lemma ScannedOk(c: Store, txn: Txn, row: Id)
    requires txn.TouchTxn? && txn.touch.Scanning? && TouchOkay(c, txn) && Wants(txn) == Some(row)
    ensures TouchOkay(c, txn.(touch := Scanned(txn.touch, row, c, txn.at)))
    ensures Held(txn.(touch := Scanned(txn.touch, row, c, txn.at))) == Held(txn) + [row]
  {
    var held, order := txn.touch.held, txn.touch.order;
    assert held + [row] == order[..|held| + 1];
    var held', named := HeldRows(txn.(touch := Scanned(txn.touch, row, c, txn.at))), txn.touch.named;
    assert held' == HeldRows(txn) + {row};
    assert held' * named == HeldRows(txn) * named + {row} * named;
  }

  lemma ScanKeeps(init: Store, s: State, s': State, t: TxId)
    requires Inv(init, s) && t in s.live && s.live[t].TouchTxn? && s.live[t].touch.Scanning? && Wants(s.live[t]).Some?
    requires TouchSteps(s, s', t, s.live[t])
    ensures Inv(init, s')
  {
    var txn, row := s.live[t], Wants(s.live[t]).value;
    TouchOkOf(init, s, t);
    ScannedOk(s.committed, txn, row);
    TakeKeeps(init, s, t, txn.(touch := Scanned(txn.touch, row, s.committed, txn.at)), row);
  }

  lemma FlushKeepsOthers(init: Store, s: State, t: TxId)
    requires Inv(init, s) && t in s.live && s.live[t].TouchTxn? && s.live[t].touch.Scanning? && Wants(s.live[t]).None?
    ensures forall u {:trigger s.live[u]} :: u in s.live && u != t ==>
      TxnOk(TouchedStore(s.committed, s.live[t].touch.named, s.live[t].at), s.sentinel == Some(u), s.live[u])
  {
    TouchOkOf(init, s, t);
    forall u | u in s.live && u != t
      ensures TxnOk(TouchedStore(s.committed, s.live[t].touch.named, s.live[t].at), s.sentinel == Some(u), s.live[u])
    {
      assert LiveOk(s, u);
      assert Apart(s.live[t], s.live[u]);
      SurvivesTouch(s.committed, s.live[t], s.sentinel == Some(u), s.live[u]);
    }
  }

  /** Scanned to its end, a flush moves exactly the rows it would move alone. */
  lemma ScannedIsTouched(c: Store, txn: Txn, store: Store)
    requires txn.TouchTxn? && txn.touch.Scanning? && TouchOkay(c, txn) && Wants(txn).None?
    requires Reaches(c, [SeeRows(txn.touch.moved, txn.at)], store)
    ensures store == TouchedStore(c, txn.touch.named, txn.at)
  {
    assert txn.touch.held == txn.touch.order;
    assert HeldRows(txn) * txn.touch.named == txn.touch.named;
    var moved := Advanced(c, txn.touch.named, txn.at);
    ReachesOne(c, SeeRows(moved, txn.at), store);
    assert moved * c.projects.Keys == moved;
  }

  lemma FlushCommitKeeps(init: Store, s: State, s': State, t: TxId)
    requires Inv(init, s) && t in s.live && s.live[t].TouchTxn? && s.live[t].touch.Scanning? && Wants(s.live[t]).None?
    requires TouchSteps(s, s', t, s.live[t])
    ensures Inv(init, s')
  {
    var txn := s.live[t];
    var c := s.committed;
    TouchOkOf(init, s, t);
    var store :| Reaches(c, [SeeRows(txn.touch.moved, txn.at)], store) && s' == Answered(s, t, txn, Touched).(committed := store);
    ScannedIsTouched(c, txn, store);
    FlushKeepsOthers(init, s, t);
    CommitKeeps(init, s, t, Touched, TouchedStore(c, txn.touch.named, txn.at));
  }

  // ---- Every step ----

  /** Whatever step is taken, by whichever transaction. */
  lemma NextKeeps(init: Store, s: State, s': State)
    requires Inv(init, s) && Next(s, s')
    ensures Inv(init, s')
  {
    var t :| Acts(s, s', t);
    if Aborts(s, s', t) {
      AbortKeeps(init, s, s', t);
    } else if Steps(s, s', t) {
      match s.live[t]
      case SyncTxn(_, _, _, _, _) => SyncStepKeeps(init, s, s', t);
      case RegisterTxn(_, _, _) => RegisterStepKeeps(init, s, s', t);
      case TouchTxn(_, _, touch) =>
        if touch.Updating? {
          UpdateKeeps(init, s, s', t);
        } else if Wants(s.live[t]).Some? {
          ScanKeeps(init, s, s', t);
        } else {
          FlushCommitKeeps(init, s, s', t);
        }
    } else {
      var txn :| Begins(s, s', t, txn);
      BeginKeeps(init, s, s', t, txn);
    }
  }
}
