/** Any number of syncs, registrations and flushes at once, one statement at a
    time and one row lock at a time, each free to fail at any step. A
    transaction's writes are its own until it commits. The sentinel row is a lock
    held to commit or rollback; a unique index makes a second inserter wait for
    the first; an UPDATE locks the rows it scans one after another and keeps them
    locked, and at the stock isolation level it is refused when it comes to a row
    changed since the transaction's first plain read. Locks on gaps and on rows
    not yet committed are left out, so the machine allows more interleavings than
    the engine does (src/write/sync.rs, src/write/register.rs, src/idem.rs,
    src/write/touch.rs, src/sql.rs). */
module Interleaving {
  import opened Congruence
  import opened Declaration
  import opened GrantPlans
  import opened Operations
  import opened Outcome
  import opened Reconcile
  import opened Registration
  import opened Registry
  import opened Syncs
  import opened Text
  import opened Touches

  type TxId = nat

  datatype SyncStage =
    | Locking
    | Locked
    // The tables when the rows were read, and how many calls had been answered.
    | RowsRead(base: Store, read: nat)
    | AliasesRead(base: Store, read: nat)
    // The statements, how many are done, the order the archiving one scans its
    // rows in, the rows of the next one locked so far, and every row locked.
    | Writing(base: Store, read: nat, plan: GrantPlan, ws: seq<Write>, scan: seq<Id>, done: nat, taken: nat, held: seq<Id>)

  datatype RegisterStage = Claiming | Replaying | CheckingAlias | Inserting | Recording | Recorded

  datatype TouchStage =
    | Updating
    // How many calls had been answered when the UPDATE found its rows, those
    // rows, all it scans and in which order, those locked, and those it moves.
    | Scanning(from: nat, named: set<Id>, order: seq<Id>, held: seq<Id>, moved: set<Id>)

  datatype Txn =
    | SyncTxn(decl: seq<Declared>, actor: string, guards: Guards, mint: seq<Id>, sync: SyncStage)
    | RegisterTxn(req: RegisterRequest, id: Id, register: RegisterStage)
    | TouchTxn(paths: seq<string>, at: int, touch: TouchStage)

  /** A call that was answered, its answer, and how many calls had been answered
      when it began, when it found what it names, and when it ended. */
  datatype Event = Event(op: Op, answer: Answer, began: nat, from: nat, ended: nat)

  /** A call whose UPDATE was refused for a row changed since its snapshot, its
      answer, that row, and how many calls had been answered when it read and when
      it failed. */
  datatype Failure = Failure(op: Op, answer: Answer, row: Id, read: nat, ended: nat)

  datatype State = State(
    committed: Store, sentinel: Option<TxId>, live: map<TxId, Txn>, minted: set<Id>,
    began: map<TxId, nat>, log: seq<Event>, failed: seq<Failure>)

  ghost predicate Init(init: Store, s: State) {
    Valid(init) && s == State(init, None, map[], init.projects.Keys, map[], [], [])
  }

  // ---- What a transaction holds until it ends ----

  function Mints(txn: Txn): set<Id> {
    match txn
    case SyncTxn(_, _, _, mint, _) => set i | 0 <= i < |mint| :: mint[i]
    case RegisterTxn(_, id, _) => {id}
    case TouchTxn(_, _, _) => {}
  }

  /** The ledger slot a pending claim occupies. */
  function HeldKeys(txn: Txn): set<LedgerKey> {
    if txn.RegisterTxn? && !txn.register.Claiming? && !txn.register.Replaying? && LedgerKeyOf(txn.req).Some? then
      {LedgerKeyOf(txn.req).value}
    else {}
  }

  /** The path slot a pending row occupies. */
  function HeldPaths(txn: Txn): set<string> {
    if txn.RegisterTxn? && (txn.register.Recording? || txn.register.Recorded?) then {Fold(txn.req.path)} else {}
  }

  /** The rows a transaction has locked, in the order it locked them. */
  function Held(txn: Txn): seq<Id> {
    if txn.SyncTxn? && txn.sync.Writing? then txn.sync.held
    else if txn.TouchTxn? && txn.touch.Scanning? then txn.touch.held
    else []
  }

  function HeldRows(txn: Txn): set<Id> {
    set row | row in Held(txn)
  }

  /** The rows a statement locks, in the order it scans them: a grant's foreign
      key locks the row it names. */
  function LocksOf(w: Write, scan: seq<Id>): seq<Id> {
    match w
    case UpdateRow(id, _, _, _) => [id]
    case ArchiveRows(_, _) => scan
    case InsertGrant(id, _, _) => [id]
    case _ => []
  }

  /** The row a transaction cannot go on without. */
  function Wants(txn: Txn): Option<Id> {
    if txn.SyncTxn? && txn.sync.Writing? && txn.sync.done < |txn.sync.ws|
      && txn.sync.taken < |LocksOf(txn.sync.ws[txn.sync.done], txn.sync.scan)|
    then Some(LocksOf(txn.sync.ws[txn.sync.done], txn.sync.scan)[txn.sync.taken])
    else if txn.TouchTxn? && txn.touch.Scanning? && |txn.touch.held| < |txn.touch.order|
    then Some(txn.touch.order[|txn.touch.held|])
    else None
  }

  /** No other transaction has the row locked. */
  ghost predicate RowFree(s: State, t: TxId, row: Id) {
    forall u :: u in s.live && u != t ==> row !in Held(s.live[u])
  }

  ghost predicate Lists(xs: seq<Id>, members: set<Id>) {
    NoRepeats(xs) && forall x :: x in xs <==> x in members
  }

  /** Rows an UPDATE can scan: those it matches, and any others stored. */
  ghost predicate Covers(c: Store, order: seq<Id>, named: set<Id>) {
    NoRepeats(order) && (forall x :: x in named ==> x in order) && forall x :: x in order ==> x in c.projects
  }

  // ---- The snapshot ----

  /** The row was last seen alike in both. */
  predicate SeenAlike(a: Store, b: Store, row: Id) {
    (row in a.seen <==> row in b.seen) && (row in a.seen && row in b.seen ==> a.seen[row] == b.seen[row])
  }

  /** A statement that changes the rows it locks. */
  predicate Rewrites(w: Write) {
    w.UpdateRow? || w.ArchiveRows?
  }

  /** The statement under way is to change this row, which has changed since the
      transaction read it. Nobody but a flush changes a row a sync may change, and
      a flush changes only when it was last seen. */
  predicate Stale(c: Store, txn: Txn, row: Id) {
    && txn.SyncTxn? && txn.sync.Writing? && txn.sync.done < |txn.sync.ws|
    && Rewrites(txn.sync.ws[txn.sync.done]) && !SeenAlike(txn.sync.base, c, row)
  }

  ghost predicate Apart(a: Txn, b: Txn) {
    Mints(a) !! Mints(b) && HeldKeys(a) !! HeldKeys(b) && HeldPaths(a) !! HeldPaths(b) && HeldRows(a) !! HeldRows(b)
  }

  ghost predicate ApartFromOthers(s: State, t: TxId, txn: Txn) {
    forall u :: u in s.live && u != t ==> Apart(txn, s.live[u])
  }

  // ---- Steps ----

  /** Commit or rollback releases everything the transaction holds. */
  function End(s: State, t: TxId): State {
    s.(live := s.live - {t}, began := s.began - {t}, sentinel := if s.sentinel == Some(t) then None else s.sentinel)
  }

  function EventOf(s: State, t: TxId, txn: Txn, answer: Answer): Event {
    Event(OpOf(txn), answer, if t in s.began then s.began[t] else 0,
      if txn.TouchTxn? && txn.touch.Scanning? then txn.touch.from else |s.log|, |s.log|)
  }

  function Answered(s: State, t: TxId, txn: Txn, answer: Answer): State {
    End(s, t).(log := s.log + [EventOf(s, t, txn, answer)])
  }

  function To(s: State, t: TxId, txn: Txn): State {
    s.(live := s.live[t := txn])
  }

  function OpOf(txn: Txn): Op {
    match txn
    case SyncTxn(decl, actor, guards, mint, _) => SyncOp(decl, actor, guards, mint)
    case RegisterTxn(req, id, _) => RegisterOp(req, id)
    case TouchTxn(paths, at, touch) => TouchOp(paths, if touch.Scanning? then touch.named else {}, at)
  }

  ghost predicate NewTxn(txn: Txn) {
    match txn
    case SyncTxn(decl, _, _, mint, stage) =>
      stage.Locking? && WellFormed(decl) && |mint| == |decl| && NoRepeats(mint)
    case RegisterTxn(req, _, stage) => stage.Claiming? && Precheck(req).Ok?
    case TouchTxn(paths, at, stage) => stage.Updating? && TouchOk(paths, at)
  }

  /** A call whose request passed every check opens a transaction, its ids
      minted fresh. A call refused before that is no step. */
  ghost predicate Begins(s: State, s': State, t: TxId, txn: Txn) {
    && t !in s.live && NewTxn(txn) && Mints(txn) !! s.minted
    && s' == To(s, t, txn).(minted := s.minted + Mints(txn), began := s.began[t := |s.log|])
  }

  /** A deadlock, a lock timeout, a lost connection, a dropped call. */
  ghost predicate Aborts(s: State, s': State, t: TxId) {
    t in s.live && s' == End(s, t)
  }

  /** The sync's statements. What it reads after the rows is read either in the
      snapshot the rows came from or afresh, whichever the isolation level gives. */
  ghost predicate SyncSteps(s: State, s': State, t: TxId, txn: Txn)
    requires txn.SyncTxn?
  {
    match txn.sync
    case Locking =>
      s.sentinel.None? && s' == To(s, t, txn.(sync := Locked)).(sentinel := Some(t))
    case Locked =>
      s' == To(s, t, txn.(sync := RowsRead(s.committed, |s.log|)))
    case RowsRead(base, read) =>
      exists from :: (from == base || from == s.committed) &&
        s' == if OnAlias(from, txn.decl) then Answered(s, t, txn, Synced(Err(AlreadyExists)))
              else if !txn.guards.allowMassArchive && |ToArchive(base, txn.decl)| * 2 > |ActiveRows(base)| then
                Answered(s, t, txn, Synced(Err(FailedPrecondition)))
              else To(s, t, txn.(sync := AliasesRead(base, read)))
    case AliasesRead(base, _) =>
      exists from, plan, scan :: (from == base || from == s.committed) && SyncPlans(s, s', t, txn, from, plan, scan)
    case Writing(_, _, _, ws, _, done, _, _) =>
      if Wants(txn).Some? then SyncTakes(s, s', t, txn)
      else if done < |ws| then SyncWriteStep(s, s', t, txn)
      else SyncCommits(s, s', t, txn)
  }

  /** The grants are read and diffed, and the revoke guard passes or refuses. */
  ghost predicate SyncPlans(s: State, s': State, t: TxId, txn: Txn, from: Store, plan: GrantPlan, scan: seq<Id>)
    requires txn.SyncTxn? && txn.sync.AliasesRead?
  {
    && IsPlan(plan, from, txn.decl) && Lists(scan, ToArchive(txn.sync.base, txn.decl))
    && s' == if !txn.guards.allowMassRevoke && |plan.deletes| * 2 > |OrgGrants(from)| then
               Answered(s, t, txn, Synced(Err(FailedPrecondition)))
             else To(s, t, txn.(sync := Planned(txn, plan, scan)))
  }

  /** The statements the plan and the rows read come to, none of them sent. */
  ghost function Planned(txn: Txn, plan: GrantPlan, scan: seq<Id>): SyncStage
    requires txn.SyncTxn? && txn.sync.AliasesRead?
  {
    Writing(txn.sync.base, txn.sync.read, plan, SyncWrites(txn.sync.base, txn.decl, txn.actor, txn.mint, plan), scan, 0, 0, [])
  }

  /** The next statement waits for its next row and locks it, unless the row has
      changed: then the engine refuses the statement, the caller is answered
      INTERNAL and nothing is written. */
  ghost predicate SyncTakes(s: State, s': State, t: TxId, txn: Txn)
    requires Wants(txn).Some? && txn.SyncTxn?
  {
    var row := Wants(txn).value;
    && RowFree(s, t, row)
    && s' == if Stale(s.committed, txn, row) then Refused(s, t, txn, row) else To(s, t, txn.(sync := Took(txn.sync, row)))
  }

  function Refused(s: State, t: TxId, txn: Txn, row: Id): State
    requires txn.SyncTxn? && txn.sync.Writing?
  {
    End(s, t).(failed := s.failed + [Failure(OpOf(txn), Synced(Err(Internal)), row, txn.sync.read, |s.log|)])
  }

  function Took(stage: SyncStage, row: Id): SyncStage
    requires stage.Writing?
  {
    stage.(taken := stage.taken + 1, held := stage.held + [row])
  }

  /** The next statement, its rows all locked, executed on what the transaction
      sees: the committed tables with its own writes over them. */
  ghost predicate SyncWriteStep(s: State, s': State, t: TxId, txn: Txn)
    requires txn.SyncTxn? && txn.sync.Writing? && txn.sync.done < |txn.sync.ws|
  {
    var done := txn.sync.done;
    exists view :: Reaches(s.committed, txn.sync.ws[..done], view) &&
      s' == if Exec(view, txn.sync.ws[done]).Some? then To(s, t, txn.(sync := txn.sync.(done := done + 1, taken := 0)))
            else Answered(s, t, txn, Synced(Err(Internal)))
  }

  /** The counts the response reports, from what was read and planned. */
  ghost function ReadResponse(txn: Txn): SyncResponse
    requires txn.SyncTxn? && txn.sync.Writing?
  {
    var plan := txn.sync.plan;
    Response(txn.sync.base, txn.decl).(
      grantsInserted := |plan.inserts|, grantsDeleted := |plan.deletes|, grantsKept := plan.kept)
  }

  ghost predicate SyncCommits(s: State, s': State, t: TxId, txn: Txn)
    requires txn.SyncTxn? && txn.sync.Writing?
  {
    exists store :: Reaches(s.committed, txn.sync.ws, store) &&
      s' == Answered(s, t, txn, Synced(Ok(ReadResponse(txn)))).(committed := store)
  }

  /** The registration's statements. */
  ghost predicate RegisterSteps(s: State, s': State, t: TxId, txn: Txn)
    requires txn.RegisterTxn?
  {
    var key := LedgerKeyOf(txn.req);
    match txn.register
    case Claiming =>
      if key.None? then s' == To(s, t, txn.(register := CheckingAlias))
      else
        // A second inserter of the key waits for the first to end.
        && (forall u :: u in s.live && u != t ==> key.value !in HeldKeys(s.live[u]))
        && s' == To(s, t, txn.(register := if key.value in s.committed.ledger then Replaying else CheckingAlias))
    case Replaying =>
      && key.Some? && key.value in s.committed.ledger
      && s' == Answered(s, t, txn, Registered(ReplayOf(s.committed.ledger[key.value], RPC, PayloadOf(txn.req))))
    case CheckingAlias =>
      s' == if AliasAt(s.committed, Fold(txn.req.path)) then Answered(s, t, txn, Registered(Err(AlreadyExists)))
            else To(s, t, txn.(register := Inserting))
    case Inserting =>
      && (forall u :: u in s.live && u != t ==> Fold(txn.req.path) !in HeldPaths(s.live[u]))
      && s' == if Exec(s.committed, InsertRow(txn.id, PrivateRow(txn.req))).Some? then To(s, t, txn.(register := Recording))
               else if LiveAt(s.committed, Fold(txn.req.path)) then Answered(s, t, txn, Registered(Err(AlreadyExists)))
               else Answered(s, t, txn, Registered(Err(Internal)))
    case Recording =>
      s' == To(s, t, txn.(register := Recorded))
    case Recorded =>
      exists store :: Reaches(s.committed, RegisterWrites(txn.req, txn.id), store) &&
        s' == Answered(s, t, txn, Registered(Ok(Some(MetaOf(txn.req, txn.id))))).(committed := store)
  }

  /** The flush's statements: the UPDATE locks the rows it scans one by one, and
      moves those it matches and finds less recent. The COUNT that follows changes
      nothing, and its read view comes after the write. */
  ghost predicate TouchSteps(s: State, s': State, t: TxId, txn: Txn)
    requires txn.TouchTxn?
  {
    match txn.touch
    case Updating =>
      var named := Named(s.committed, txn.paths);
      exists order :: Covers(s.committed, order, named) && s' == To(s, t, txn.(touch := Scanning(|s.log|, named, order, [], {})))
    case Scanning(_, _, order, held, moved) =>
      if Wants(txn).Some? then
        var row := Wants(txn).value;
        RowFree(s, t, row) && s' == To(s, t, txn.(touch := Scanned(txn.touch, row, s.committed, txn.at)))
      else
        exists store :: Reaches(s.committed, [SeeRows(moved, txn.at)], store) &&
          s' == Answered(s, t, txn, Touched).(committed := store)
  }

  function Scanned(stage: TouchStage, row: Id, c: Store, at: int): TouchStage
    requires stage.Scanning?
  {
    stage.(held := stage.held + [row], moved := stage.moved + Advanced(c, {row} * stage.named, at))
  }

  ghost predicate Steps(s: State, s': State, t: TxId) {
    && t in s.live
    && match s.live[t]
       case SyncTxn(_, _, _, _, _) => SyncSteps(s, s', t, s.live[t])
       case RegisterTxn(_, _, _) => RegisterSteps(s, s', t, s.live[t])
       case TouchTxn(_, _, _) => TouchSteps(s, s', t, s.live[t])
  }

  ghost predicate Acts(s: State, s': State, t: TxId) {
    Aborts(s, s', t) || Steps(s, s', t) || exists txn :: Begins(s, s', t, txn)
  }

  ghost predicate Next(s: State, s': State) {
    exists t :: Acts(s, s', t)
  }

  // ---- The invariant ----

  ghost function OpsOf(log: seq<Event>): seq<Op> {
    seq(|log|, i requires 0 <= i < |log| => log[i].op)
  }

  /** The answer the call would have had alone, at its place in the log. */
  ghost predicate AnswerHolds(init: Store, log: seq<Event>, i: nat)
    requires i < |log|
  {
    log[i].answer == Apply(Run(init, OpsOf(log[..i])), log[i].op).0
  }

  ghost predicate AnswersHold(init: Store, log: seq<Event>) {
    forall i {:trigger AnswerHolds(init, log, i)} :: 0 <= i < |log| ==> AnswerHolds(init, log, i)
  }

  /** The log is a run of the calls one at a time: every answer is the one that
      run gives, and the committed registry is the one it leaves. */
  ghost predicate Serial(init: Store, log: seq<Event>, committed: Store) {
    Runnable(init, OpsOf(log)) && AnswersHold(init, log) && committed == Run(init, OpsOf(log))
  }

  /** What a live sync may rely on: nobody changes what it read. */
  ghost predicate SyncOk(c: Store, holds: bool, txn: Txn)
    requires txn.SyncTxn?
  {
    && WellFormed(txn.decl) && Fresh(c, txn.decl, txn.mint)
    && (holds <==> !txn.sync.Locking?)
    && (txn.sync.RowsRead? || txn.sync.AliasesRead? || txn.sync.Writing? ==>
          OrgSame(txn.sync.base, c) && Schema(txn.sync.base) && Fresh(txn.sync.base, txn.decl, txn.mint))
    && (txn.sync.AliasesRead? ==>
          && !OnAlias(c, txn.decl)
          && (txn.guards.allowMassArchive || |ToArchive(c, txn.decl)| * 2 <= |ActiveRows(c)|))
    && (txn.sync.Writing? ==>
          && IsPlan(txn.sync.plan, c, txn.decl) && Refusal(c, txn.decl, txn.guards).None?
          && txn.sync.ws == SyncWrites(txn.sync.base, txn.decl, txn.actor, txn.mint, txn.sync.plan)
          && txn.sync.done <= |txn.sync.ws|)
  }

  ghost predicate RegisterOk(c: Store, txn: Txn)
    requires txn.RegisterTxn?
  {
    && Precheck(txn.req).Ok? && txn.id !in c.projects
    && (txn.register.Replaying? ==> KeyUsed(c, txn.req))
    && (!txn.register.Claiming? && !txn.register.Replaying? ==> !KeyUsed(c, txn.req))
    && (txn.register.Inserting? || txn.register.Recording? || txn.register.Recorded? ==> !AliasAt(c, Fold(txn.req.path)))
    && (txn.register.Recording? || txn.register.Recorded? ==> !LiveAt(c, Fold(txn.req.path)))
  }

  ghost predicate TouchOkay(c: Store, txn: Txn)
    requires txn.TouchTxn?
  {
    && TouchOk(txn.paths, txn.at)
    && (txn.touch.Scanning? ==>
          && txn.touch.named <= Named(c, txn.paths) && Covers(c, txn.touch.order, txn.touch.named)
          && txn.touch.held <= txn.touch.order && txn.touch.moved == Advanced(c, HeldRows(txn) * txn.touch.named, txn.at))
  }

  ghost predicate TxnOk(c: Store, holds: bool, txn: Txn) {
    match txn
    case SyncTxn(_, _, _, _, _) => SyncOk(c, holds, txn)
    case RegisterTxn(_, _, _) => RegisterOk(c, txn)
    case TouchTxn(_, _, _) => TouchOkay(c, txn)
  }

  ghost predicate LiveOk(s: State, t: TxId)
    requires t in s.live
  {
    TxnOk(s.committed, s.sentinel == Some(t), s.live[t]) && Mints(s.live[t]) <= s.minted
  }

  ghost predicate Inv(init: Store, s: State) {
    && Valid(init) && Valid(s.committed) && s.committed.projects.Keys <= s.minted
    && (s.sentinel.Some? ==> s.sentinel.value in s.live && s.live[s.sentinel.value].SyncTxn?)
    && Serial(init, s.log, s.committed)
    && (forall t {:trigger LiveOk(s, t)} :: t in s.live ==> LiveOk(s, t))
    && (forall t, u {:trigger Apart(s.live[t], s.live[u])} :: t in s.live && u in s.live && t != u ==> Apart(s.live[t], s.live[u]))
  }
}
