/** What holds over every behaviour of the interleaved machine, carried over from
    the serial runs it refines. */
module Behaviours {
  import opened Declaration
  import opened Like
  import opened Linearization
  import opened History
  import opened Interleaving
  import opened Operations
  import opened Outcome
  import opened Pages
  import opened Paths
  import opened Registration
  import opened Registry
  import opened Resolution
  import opened RowLocks
  import opened Serializability
  import opened Snapshots
  import opened Survival
  import opened Text
  import opened Touches

  /** Any states the machine can pass through, from a sound registry. */
  ghost predicate Behaviour(init: Store, b: seq<State>) {
    && b != [] && Init(init, b[0])
    && forall i {:trigger StepAt(b, i)} :: 0 <= i < |b| - 1 ==> StepAt(b, i)
  }

  ghost predicate StepAt(b: seq<State>, i: nat)
    requires i < |b| - 1
  {
    Next(b[i], b[i + 1])
  }

  /** The invariant, and where every call found what it names. */
  ghost predicate Kept(init: Store, s: State) {
    Inv(init, s) && HistoryOk(init, s)
  }

  lemma StepKeeps(init: Store, b: seq<State>, k: nat)
    requires k < |b| - 1 && StepAt(b, k) && Kept(init, b[k])
    ensures Kept(init, b[k + 1])
  {
    NextKeeps(init, b[k], b[k + 1]);
    NextKeepsHistory(init, b[k], b[k + 1]);
  }

  lemma BehaviourStarts(init: Store, b: seq<State>)
    requires Behaviour(init, b)
    ensures Kept(init, b[0])
  {
    InitHolds(init, b[0]);
  }

  /** What the first state has and every step keeps, every state has. */
  lemma {:induction false} Invariance<S>(b: seq<S>, p: S -> bool, k: nat)
    requires k < |b| && p(b[0]) && forall i {:trigger b[i]} :: 0 < i < |b| && p(b[i - 1]) ==> p(b[i])
    ensures p(b[k])
  {
    if k > 0 {
      Invariance(b, p, k - 1);
    }
  }

  lemma BehaviourKeeps(init: Store, b: seq<State>, k: nat)
    requires Behaviour(init, b) && k < |b|
    ensures Kept(init, b[k])
  {
    var p := (s: State) => Kept(init, s);
    BehaviourStarts(init, b);
    forall i {:trigger b[i]} | 0 < i < |b| && p(b[i - 1])
      ensures p(b[i])
    {
      StepKeeps(init, b, i - 1);
    }
    Invariance(b, p, k);
  }

  /** And the row locks and snapshots. */
  ghost predicate KeptWhole(init: Store, s: State) {
    Kept(init, s) && AllLocksOk(s) && SnapshotsOk(init, s)
  }

  lemma StepKeepsSnapshots(init: Store, b: seq<State>, k: nat)
    requires k < |b| - 1 && StepAt(b, k) && KeptWhole(init, b[k]) && Kept(init, b[k + 1])
    ensures SnapshotsOk(init, b[k + 1])
  {
    NextKeepsSnapshots(init, b[k], b[k + 1]);
  }

  lemma StepKeepsWhole(init: Store, b: seq<State>, k: nat)
    requires k < |b| - 1 && StepAt(b, k) && KeptWhole(init, b[k])
    ensures KeptWhole(init, b[k + 1])
  {
    StepKeeps(init, b, k);
    NextKeepsLocks(b[k], b[k + 1]);
    StepKeepsSnapshots(init, b, k);
  }

  lemma StartsWhole(init: Store, b: seq<State>)
    requires Behaviour(init, b)
    ensures KeptWhole(init, b[0])
  {
    BehaviourStarts(init, b);
  }

  lemma BehaviourKeepsWhole(init: Store, b: seq<State>, k: nat)
    requires Behaviour(init, b) && k < |b|
    ensures KeptWhole(init, b[k])
  {
    var p := (s: State) => KeptWhole(init, s);
    StartsWhole(init, b);
    forall i {:trigger b[i]} | 0 < i < |b| && p(b[i - 1])
      ensures p(b[i])
    {
      StepKeepsWhole(init, b, i - 1);
    }
    Invariance(b, p, k);
  }

  lemma BehaviourLocks(init: Store, b: seq<State>, k: nat)
    requires Behaviour(init, b) && k < |b|
    ensures AllLocksOk(b[k])
  {
    BehaviourKeepsWhole(init, b, k);
  }

  lemma BehaviourSnapshots(init: Store, b: seq<State>, k: nat)
    requires Behaviour(init, b) && k < |b|
    ensures SnapshotsOk(init, b[k])
  {
    BehaviourKeepsWhole(init, b, k);
  }

  /** In every state of every behaviour the committed registry and every answer
      are those of a run of the calls in the order they were answered, a flush
      taking the rows it found; and the registry is sound. */
  lemma EveryBehaviourIsSerial(init: Store, b: seq<State>, k: nat)
    requires Behaviour(init, b) && k < |b|
    ensures Serial(init, b[k].log, b[k].committed) && Valid(b[k].committed)
  {
    BehaviourKeeps(init, b, k);
  }

  /** Serialisable: in every state of every behaviour there is one order of the
      calls answered so far in which, run one at a time, each finds what it names
      where it stands and has the answer it had, and together they leave the whole
      committed registry. No call comes before one answered before it began. A sync
      the engine refuses for a row moved under it is kept apart, among the failed:
      it leaves nothing. */
  lemma EveryBehaviourIsLinear(init: Store, b: seq<State>, k: nat) returns (order: seq<Event>)
    requires Behaviour(init, b) && k < |b|
    ensures Linear(init, b[k].log, order, b[k].committed)
  {
    BehaviourKeeps(init, b, k);
    order := Linearizes(init, b[k].log, b[k].committed);
  }

  // ---- The log is append-only ----

  lemma NextLogs(s: State, s': State)
    requires Next(s, s')
    ensures s.log <= s'.log
  {
    var t :| Acts(s, s', t);
    StepShape(s, s', t);
  }

  lemma {:induction false} LogGrows(init: Store, b: seq<State>, j: nat, k: nat)
    requires Behaviour(init, b) && j <= k < |b|
    ensures b[j].log <= b[k].log
  {
    if j < k {
      LogGrows(init, b, j, k - 1);
      assert StepAt(b, k - 1);
      NextLogs(b[k - 1], b[k]);
    }
  }

  /** Between any two states of a behaviour the committed registry only grows. */
  lemma CommittedGrows(init: Store, b: seq<State>, j: nat, k: nat)
    requires Behaviour(init, b) && j <= k < |b|
    ensures Grows(b[j].committed, b[k].committed)
  {
    BehaviourKeeps(init, b, j);
    BehaviourKeeps(init, b, k);
    LogGrows(init, b, j, k);
    assert OpsOf(b[k].log)[..|b[j].log|] == OpsOf(b[j].log);
    RunGrows(init, OpsOf(b[k].log), |b[j].log|);
  }

  // ---- The verbs' promises, under any interleaving ----

  /** Whatever else ran, and however it interleaved, the registry shows the
      declaration of the last sync to commit. */
  lemma LastCommittedSyncShows(init: Store, b: seq<State>, k: nat)
    requires Behaviour(init, b) && k < |b| && LastSync(init, OpsOf(b[k].log)).Some?
    ensures Shows(b[k].committed, LastSync(init, OpsOf(b[k].log)).value)
  {
    BehaviourKeeps(init, b, k);
    LastSyncDecides(init, OpsOf(b[k].log));
  }

  /** Each key is spent by exactly one committed insert, and by none when it is
      free; every spent key answers with a row standing where it says. */
  lemma RegisteredExactlyOnce(init: Store, b: seq<State>, k: nat, key: LedgerKey)
    requires Behaviour(init, b) && k < |b| && init.ledger == map[]
    ensures Performed(init, OpsOf(b[k].log), key, |b[k].log|) == (if key in b[k].committed.ledger then 1 else 0)
    ensures key in b[k].committed.ledger ==> ClaimNamesItsRow(b[k].committed, key)
  {
    BehaviourKeeps(init, b, k);
    var ops := OpsOf(b[k].log);
    ExactlyOnce(init, ops, key, |ops|);
    assert ops[..|ops|] == ops;
    assert LedgerSound(init);
    RunKeepsLedgerSound(init, ops);
  }

  /** The `i`th answered call is a registration that went through. */
  ghost predicate WentThrough(init: Store, log: seq<Event>, i: nat) {
    && i < |log| && log[i].op.RegisterOp?
    && Apply(Run(init, OpsOf(log[..i])), log[i].op).1 != Run(init, OpsOf(log[..i]))
  }

  lemma RetryApplied(init: Store, ops: seq<Op>, i: nat, retry: Op)
    requires Valid(init) && Runnable(init, ops) && i < |ops| && ops[i].RegisterOp? && retry.RegisterOp?
    requires Apply(Run(init, ops[..i]), ops[i]).1 != Run(init, ops[..i]) && SameKey(ops[i].req, retry.req)
    ensures Apply(Run(init, ops), retry).1 == Run(init, ops)
    ensures AnsweredAgain(ops[i].req, retry.req, Apply(Run(init, ops[..i]), ops[i]).0, Apply(Run(init, ops), retry).0)
  {
    RetriesAreSafe(init, ops, i, retry.req, retry.id);
  }

  lemma SerialRetry(init: Store, ops: seq<Op>, i: nat, j: nat)
    requires Valid(init) && Runnable(init, ops) && i < j < |ops| && ops[i].RegisterOp? && ops[j].RegisterOp?
    requires Apply(Run(init, ops[..i]), ops[i]).1 != Run(init, ops[..i]) && SameKey(ops[i].req, ops[j].req)
    ensures Apply(Run(init, ops[..j]), ops[j]).1 == Run(init, ops[..j])
    ensures AnsweredAgain(ops[i].req, ops[j].req, Apply(Run(init, ops[..i]), ops[i]).0, Apply(Run(init, ops[..j]), ops[j]).0)
  {
    PrefixRunnable(init, ops, j);
    assert ops[..j][..i] == ops[..i] && ops[..j][i] == ops[i];
    RetryApplied(init, ops[..j], i, ops[j]);
  }

  lemma SerialLogRetry(init: Store, log: seq<Event>, c: Store, i: nat, j: nat)
    requires Valid(init) && Serial(init, log, c) && i < j < |log| && WentThrough(init, log, i)
    requires log[j].op.RegisterOp? && SameKey(log[i].op.req, log[j].op.req)
    ensures !WentThrough(init, log, j)
    ensures AnsweredAgain(log[i].op.req, log[j].op.req, log[i].answer, log[j].answer)
  {
    var ops := OpsOf(log);
    assert AnswerHolds(init, log, i) && AnswerHolds(init, log, j);
    assert OpsOf(log[..i]) == ops[..i] && OpsOf(log[..j]) == ops[..j];
    SerialRetry(init, ops, i, j);
  }

  /** A retry answered anywhere in a behaviour, once a registration has gone
      through under its key: with the same path, name and repository it gets the
      same answer, whatever else its scope says; differing in any of the three it
      is refused; and it inserts nothing. */
  lemma RetriesAgree(init: Store, b: seq<State>, k: nat, i: nat, j: nat)
    requires Behaviour(init, b) && k < |b| && i < j < |b[k].log| && WentThrough(init, b[k].log, i)
    requires b[k].log[j].op.RegisterOp? && SameKey(b[k].log[i].op.req, b[k].log[j].op.req)
    ensures !WentThrough(init, b[k].log, j)
    ensures AnsweredAgain(b[k].log[i].op.req, b[k].log[j].op.req, b[k].log[i].answer, b[k].log[j].answer)
  {
    EveryBehaviourIsSerial(init, b, k);
    SerialLogRetry(init, b[k].log, b[k].committed, i, j);
  }

  lemma SerialReuseIsRefused(init: Store, ops: seq<Op>, n: nat, req: RegisterRequest, id: Id, key: LedgerKey)
    requires Valid(init) && Runnable(init, ops) && n <= |ops| && SentUnder(req, key) && key in Run(init, ops[..n]).ledger
    requires !ClaimedFor(Run(init, ops[..n]).ledger[key], req)
    ensures Register(Run(init, ops), req, id).0.Err?
  {
    RunGrows(init, ops, n);
    KeyReuseIsRefused(Run(init, ops), req, id, key);
  }

  /** A key some state showed claimed by another verb, or for another path, name or
      repository, is refused ever after. */
  lemma SpentElsewhereIsRefused(init: Store, b: seq<State>, j: nat, k: nat, i: nat, key: LedgerKey)
    requires Behaviour(init, b) && j <= k < |b| && |b[j].log| <= i < |b[k].log| && b[k].log[i].op.RegisterOp?
    requires SentUnder(b[k].log[i].op.req, key) && key in b[j].committed.ledger
    requires !ClaimedFor(b[j].committed.ledger[key], b[k].log[i].op.req)
    ensures b[k].log[i].answer.Registered? && b[k].log[i].answer.registration.Err?
  {
    BehaviourKeeps(init, b, j);
    BehaviourKeeps(init, b, k);
    LogGrows(init, b, j, k);
    assert AnswerHolds(init, b[k].log, i);
    var ops, n := OpsOf(b[k].log), |b[j].log|;
    assert OpsOf(b[k].log[..i]) == ops[..i] && OpsOf(b[j].log) == ops[..i][..n];
    PrefixRunnable(init, ops, i);
    SerialReuseIsRefused(init, ops[..i], n, b[k].log[i].op.req, b[k].log[i].op.id, key);
  }

  lemma NoSerialAnswerIsInternal(s: Store, op: Op)
    ensures Apply(s, op).0 != Synced(Err(Internal)) && Apply(s, op).0 != Registered(Err(Internal))
  {
  }

  /** No unique index, CHECK or foreign key refuses a statement of a sync, nor one
      of a registration but for a key or a path already taken: no call that went on
      to its answer has an internal error for it. */
  lemma NoConstraintRefuses(init: Store, b: seq<State>, k: nat, i: nat)
    requires Behaviour(init, b) && k < |b| && i < |b[k].log|
    ensures b[k].log[i].answer != Synced(Err(Internal)) && b[k].log[i].answer != Registered(Err(Internal))
  {
    BehaviourKeeps(init, b, k);
    assert AnswerHolds(init, b[k].log, i);
    NoSerialAnswerIsInternal(Run(init, OpsOf(b[k].log[..i])), b[k].log[i].op);
  }

  // ---- The one refusal left ----

  /** In any state of any behaviour a sync that comes to lock a row it is to change,
      nobody else having it locked, is answered INTERNAL if and only if a flush
      answered since the sync read its rows has moved that row; else it locks it. */
  lemma RefusedIffMoved(init: Store, b: seq<State>, k: nat, t: TxId)
    requires Behaviour(init, b) && k < |b| && t in b[k].live && b[k].live[t].SyncTxn?
    requires Wants(b[k].live[t]).Some? && Rewrites(b[k].live[t].sync.ws[b[k].live[t].sync.done])
    requires RowFree(b[k], t, Wants(b[k].live[t]).value)
    ensures var txn, row := b[k].live[t], Wants(b[k].live[t]).value;
      forall s' :: Steps(b[k], s', t) <==>
        s' == if MovedSince(init, b[k].log, txn.sync.read, row) then Refused(b[k], t, txn, row)
              else To(b[k], t, txn.(sync := Took(txn.sync, row)))
  {
    BehaviourKeepsWhole(init, b, k);
    StaleIffMoved(init, b[k], t, Wants(b[k].live[t]).value);
  }

  /** Every sync answered INTERNAL in a behaviour was to change a row, and a flush
      answered between its reading its rows and its failing moved that row. */
  lemma FailuresAreMoves(init: Store, b: seq<State>, k: nat, j: nat)
    requires Behaviour(init, b) && k < |b| && j < |b[k].failed|
    ensures var f := b[k].failed[j];
      && f.op.SyncOp? && f.answer == Synced(Err(Internal)) && f.read <= f.ended <= |b[k].log|
      && (exists i {:trigger FlushMoves(init, b[k].log, i, f.row)} :: f.read <= i < f.ended && FlushMoves(init, b[k].log, i, f.row))
      && Changed(Run(init, OpsOf(b[k].log[..f.ended])), f.op, f.row)
  {
    BehaviourSnapshots(init, b, k);
    var f := b[k].failed[j];
    var i :| f.read <= i < f.ended && FlushMoves(init, b[k].log[..f.ended], i, f.row);
    MovesStands(init, b[k].log[..f.ended], b[k].log, i, f.row);
  }

  /** And no flush answered since a sync read its rows has moved one the sync has
      locked to change: one that gets as far as its commit had none moved. */
  lemma LockedRowsAreUnmoved(init: Store, b: seq<State>, k: nat, t: TxId, i: nat)
    requires Behaviour(init, b) && k < |b| && t in b[k].live && b[k].live[t].SyncTxn? && b[k].live[t].sync.Writing?
    requires i < |Held(b[k].live[t])| && i < |ChecksOf(b[k].live[t])| && ChecksOf(b[k].live[t])[i]
    ensures !MovedSince(init, b[k].log, b[k].live[t].sync.read, Held(b[k].live[t])[i])
  {
    BehaviourKeepsWhole(init, b, k);
    assert LocksOk(b[k].live[t]);
    HeldIsPrefix(b[k].live[t]);
    assert !StaleAt(b[k].committed, b[k].live[t], i);
    StaleIffMoved(init, b[k], t, Held(b[k].live[t])[i]);
  }

  /** From an empty registry, a row's version is one plus the committed calls
      that changed it. */
  lemma VersionsCountCommits(b: seq<State>, k: nat, id: Id)
    requires Behaviour(EmptyStore, b) && k < |b| && id in b[k].committed.projects
    ensures b[k].committed.projects[id].version == 1 + Changes(EmptyStore, OpsOf(b[k].log), id, |b[k].log|)
  {
    BehaviourKeeps(EmptyStore, b, k);
    var ops := OpsOf(b[k].log);
    assert ops[..|ops|] == ops;
    VersionCountsChanges(ops, id, |ops|);
  }

  /** However flushes interleave with everything else, a row was last seen at the
      latest of its first value and the flushes that found it, and was seen exactly
      when there is one. */
  lemma LastSeenIsTheLatestFlush(init: Store, b: seq<State>, k: nat, id: Id)
    requires Behaviour(init, b) && k < |b| && id in b[k].committed.projects
    ensures SeenLatest(init.seen, b[k].committed.seen, OpsOf(b[k].log), Finders(OpsOf(b[k].log), id), id)
  {
    BehaviourKeeps(init, b, k);
    RunSeesFound(init, OpsOf(b[k].log), id);
  }

  /** In the order the calls are serial in, those are exactly the flushes whose
      paths named the row, live or through an alias. */
  lemma LastSeenIsTheLatestNaming(init: Store, b: seq<State>, k: nat, id: Id) returns (order: seq<Event>)
    requires Behaviour(init, b) && k < |b| && id in b[k].committed.projects
    ensures Linear(init, b[k].log, order, b[k].committed)
    ensures SeenLatest(init.seen, b[k].committed.seen, OpsOf(order), Namers(init, OpsOf(order), id), id)
  {
    BehaviourKeeps(init, b, k);
    order := EveryBehaviourIsLinear(init, b, k);
    OneByOneIsExact(init, order);
    RunSeesNamed(init, OpsOf(order), id);
  }

  lemma FoundFrom(init: Store, b: seq<State>, j: nat, k: nat, i: nat, id: Id)
    requires Behaviour(init, b) && j <= k < |b| && i < |b[k].log|
    requires var e := b[k].log[i];
      e.op.TouchOp? && |b[j].log| <= e.began && id in Named(b[j].committed, e.op.paths)
    ensures id in b[k].log[i].op.ids
  {
    BehaviourKeeps(init, b, j);
    BehaviourKeeps(init, b, k);
    LogGrows(init, b, j, k);
    assert Placed(init, b[k].log, i);
    var ops, m, n := OpsOf(b[k].log), b[k].log[i].from, |b[j].log|;
    assert OpsOf(b[k].log[..m]) == ops[..m] && OpsOf(b[j].log) == ops[..m][..n];
    PrefixRunnable(init, ops, m);
    RunGrows(init, ops[..m], n);
    NamedGrows(b[j].committed, Run(init, ops[..m]), b[k].log[i].op.paths);
  }

  /** Every row a flush named when it began has advanced to its moment once it is
      answered: whichever state before its beginning the caller saw the row in. */
  lemma AnsweredFlushAdvances(init: Store, b: seq<State>, j: nat, k: nat, i: nat, id: Id)
    requires Behaviour(init, b) && j <= k < |b| && i < |b[k].log|
    requires var e := b[k].log[i];
      e.op.TouchOp? && |b[j].log| <= e.began && id in Named(b[j].committed, e.op.paths)
    ensures id in b[k].committed.seen && b[k].committed.seen[id] >= b[k].log[i].op.at
  {
    FoundFrom(init, b, j, k, i, id);
    CommittedGrows(init, b, j, k);
    LastSeenIsTheLatestFlush(init, b, k, id);
    assert i in Finders(OpsOf(b[k].log), id);
  }

  // ---- What a reader sees while the writers run ----

  /** Between any two states of a behaviour: an exact answer stays exact, for the
      same project under the same spelling; any other stays an answer, and the
      ancestor that gives it gets no shallower. */
  lemma ResolutionStaysPut(init: Store, b: seq<State>, j: nat, k: nat, candidate: string)
    requires Behaviour(init, b) && j <= k < |b| && Resolve(b[j].committed, candidate).Ok?
    ensures Resolve(b[k].committed, candidate).Ok?
    ensures var before, after := Resolve(b[j].committed, candidate).value, Resolve(b[k].committed, candidate).value;
      before.exact ==> after.exact && after.resolvedPath == before.resolvedPath && after.viaAlias == before.viaAlias
    ensures var before, after := Nearest(b[j].committed, WalkChain(candidate)), Nearest(b[k].committed, WalkChain(candidate));
      before.Some? && after.Some? && |after.value| >= |before.value|
  {
    EveryBehaviourIsSerial(init, b, j);
    EveryBehaviourIsSerial(init, b, k);
    CommittedGrows(init, b, j, k);
    ResolutionIsStable(b[j].committed, b[k].committed, candidate);
  }

  /** An answer carries the empty repository exactly when the row it names is
      private: no row of an organisation is ever stored without one. */
  lemma EmptyRepositoryIsPrivate(init: Store, b: seq<State>, k: nat, candidate: string)
    returns (q: string)
    requires Behaviour(init, b) && k < |b| && ReposNamed(init) && Resolve(b[k].committed, candidate).Ok?
    ensures NearestAncestor(b[k].committed, candidate, q)
    ensures var row := b[k].committed.projects[TargetAt(b[k].committed, Fold(q))];
      Resolve(b[k].committed, candidate).value.sourceRepo == "" <==> row.owner.Some?
  {
    EveryBehaviourIsSerial(init, b, k);
    RunKeepsReposNamed(init, OpsOf(b[k].log));
    var s := b[k].committed;
    ResolveIsNearestAncestor(s, candidate);
    q :| NearestAncestor(s, candidate, q) && AnswersFor(s, candidate, q, Resolve(s, candidate).value);
    assert RowChecks(s.projects[TargetAt(s, Fold(q))]);
  }

  lemma {:induction false} LastSyncIsWellFormed(s: Store, ops: seq<Op>)
    requires Runnable(s, ops) && LastSync(s, ops).Some?
    ensures WellFormed(LastSync(s, ops).value)
  {
    var op := ops[|ops| - 1];
    if !AcceptedSync(Run(s, ops[..|ops| - 1]), op) {
      LastSyncIsWellFormed(s, ops[..|ops| - 1]);
    }
  }

  /** Once a sync has committed, every path at or beneath a path the last one
      declared resolves, to a project at least that deep. */
  lemma LastDeclaredSubtreesResolve(init: Store, b: seq<State>, k: nat, i: nat, candidate: string)
    requires Behaviour(init, b) && k < |b| && LastSync(init, OpsOf(b[k].log)).Some?
    requires i < |LastSync(init, OpsOf(b[k].log)).value| && ValidPath(candidate) && !IsReservedRoot(candidate)
    requires InSubtree(candidate, LastSync(init, OpsOf(b[k].log)).value[i].path)
    ensures Resolve(b[k].committed, candidate).Ok?
    ensures var near := Nearest(b[k].committed, WalkChain(candidate));
      near.Some? && |near.value| >= |LastSync(init, OpsOf(b[k].log)).value[i].path|
  {
    var decl := LastSync(init, OpsOf(b[k].log)).value;
    LastCommittedSyncShows(init, b, k);
    EveryBehaviourIsSerial(init, b, k);
    LastSyncIsWellFormed(init, OpsOf(b[k].log));
    assert OrgPath(decl[i].path);
    DeclaredSubtreesResolve(b[k].committed, decl, i, candidate);
  }

  /** Pages asked for one after another, each at some state of a behaviour, make
      a walk: what is proved of walks holds while the writers run. */
  lemma PagingWhileWriting(init: Store, b: seq<State>, at: seq<nat>, walk: seq<Turn>, f: Filter, limit: nat)
    requires Behaviour(init, b) && walk != [] && |at| == |walk| && limit > 0
    requires forall i :: 0 <= i < |walk| ==> at[i] < |b| && walk[i].s == b[at[i]].committed
    requires forall i, j :: 0 <= i <= j < |at| ==> at[i] <= at[j]
    requires forall i :: 0 <= i < |walk| - 1 ==> walk[i].page.next != ""
    requires forall i :: 0 <= i < |walk| ==> IsPage(walk[i].s, f, TokenAt(walk, i), limit, walk[i].page)
    ensures Walk(walk, f, limit)
  {
    forall i | 0 <= i < |walk|
      ensures TurnOk(walk, f, limit, i)
    {
      EveryBehaviourIsSerial(init, b, at[i]);
      if i > 0 {
        CommittedGrows(init, b, at[i - 1], at[i]);
      }
    }
  }
}
