/** The three verbs that write, run one at a time, and what every run of them
    keeps. The interleaved machine refines these runs. */
module Operations {
  import opened Congruence
  import opened Declaration
  import opened Outcome
  import opened Reconcile
  import opened Registration
  import opened Registry
  import opened Syncs
  import opened Text
  import opened Touches

  /** A call with what it was minted or found: a flush carries the rows its
      UPDATE matched, which a registration committed since may have outgrown. */
  datatype Op =
    | SyncOp(decl: seq<Declared>, actor: string, guards: Guards, mint: seq<Id>)
    | RegisterOp(req: RegisterRequest, id: Id)
    | TouchOp(paths: seq<string>, ids: set<Id>, at: int)

  datatype Answer =
    | Synced(sync: Result<SyncResponse>)
    | Registered(registration: Result<Option<Meta>>)
    | Touched

  /** What a verb demands: a validated declaration or batch, and fresh ids. */
  ghost predicate Ready(s: Store, op: Op) {
    match op
    case SyncOp(decl, _, _, mint) => WellFormed(decl) && Fresh(s, decl, mint)
    case RegisterOp(_, id) => id !in s.projects
    case TouchOp(paths, ids, at) => TouchOk(paths, at) && ids <= Named(s, paths)
  }

  /** A flush run alone: it finds every row its paths name. */
  ghost predicate Exact(s: Store, op: Op) {
    op.TouchOp? ==> op.ids == Named(s, op.paths)
  }

  ghost function Apply(s: Store, op: Op): (Answer, Store) {
    match op
    case SyncOp(decl, actor, guards, mint) =>
      var r := Sync(s, decl, actor, guards, mint);
      (Synced(r.0), r.1)
    case RegisterOp(req, id) =>
      var r := Register(s, req, id);
      (Registered(r.0), r.1)
    case TouchOp(_, ids, at) => (Touched, TouchedStore(s, ids, at))
  }

  ghost function Run(s: Store, ops: seq<Op>): Store {
    if ops == [] then s else Apply(Run(s, ops[..|ops| - 1]), ops[|ops| - 1]).1
  }

  /** Every call met what it demands. */
  ghost predicate Runnable(s: Store, ops: seq<Op>) {
    ops == [] || (Runnable(s, ops[..|ops| - 1]) && Ready(Run(s, ops[..|ops| - 1]), ops[|ops| - 1]))
  }

  // ---- What one call keeps ----

  /** A row's life between two moments: never gone, never re-spelled, never
      another class or owner; private rows never change at all. */
  predicate RowLives(before: Row, after: Row) {
    && after.path == before.path && after.owner == before.owner
    && after.visibility == before.visibility && after.createdBy == before.createdBy
    && before.version <= after.version
    && (!IsOrg(before) ==> after == before)
  }

  /** How a registry may change over time. */
  ghost predicate Grows(s: Store, t: Store) {
    && (forall id :: id in s.projects ==> id in t.projects && RowLives(s.projects[id], t.projects[id]))
    && t.aliases == s.aliases
    && (forall key :: key in s.ledger ==> key in t.ledger && t.ledger[key] == s.ledger[key])
    && (forall id :: id in s.seen ==> id in t.seen && s.seen[id] <= t.seen[id])
    && (forall g :: g in s.grants && g.0 in s.projects && !IsOrg(s.projects[g.0]) ==> g in t.grants && t.grants[g] == s.grants[g])
  }

  lemma GrowsReflexive(s: Store)
    ensures Grows(s, s)
  {
  }

  lemma GrowsTransitive(s: Store, t: Store, u: Store)
    requires Grows(s, t) && Grows(t, u)
    ensures Grows(s, u)
  {
  }

  lemma SyncGrows(s: Store, decl: seq<Declared>, actor: string, mint: seq<Id>)
    requires WellFormed(decl) && Fresh(s, decl, mint)
    ensures Grows(s, Converged(s, decl, actor, mint))
  {
    forall id | id in s.projects
      ensures id in Converged(s, decl, actor, mint).projects
      ensures RowLives(s.projects[id], Converged(s, decl, actor, mint).projects[id])
    {
      SettledRowIs(s, decl, actor, mint, id);
    }
  }

  lemma SyncKeeps(s: Store, decl: seq<Declared>, actor: string, guards: Guards, mint: seq<Id>)
    requires Valid(s) && WellFormed(decl) && Fresh(s, decl, mint)
    ensures Valid(Sync(s, decl, actor, guards, mint).1) && Grows(s, Sync(s, decl, actor, guards, mint).1)
  {
    if Refusal(s, decl, guards).None? {
      ConvergedKeepsSchema(s, decl, actor, mint);
      ConvergedKeepsRules(s, decl, actor, mint);
      SyncGrows(s, decl, actor, mint);
    }
  }

  lemma RegisterKeeps(s: Store, req: RegisterRequest, id: Id)
    requires Valid(s) && id !in s.projects
    ensures Valid(Register(s, req, id).1) && Grows(s, Register(s, req, id).1)
  {
    RegisterKeepsValid(s, req, id);
    RegisterGrows(s, req, id);
  }

  lemma RegisterGrows(s: Store, req: RegisterRequest, id: Id)
    requires id !in s.projects
    ensures Grows(s, Register(s, req, id).1)
  {
    RegisterOutcome(s, req, id);
    if Register(s, req, id).1 == s {
      GrowsReflexive(s);
    } else {
      RegisteredGrows(s, req, id);
    }
  }

  lemma RegisteredGrows(s: Store, req: RegisterRequest, id: Id)
    requires id !in s.projects && !KeyUsed(s, req)
    ensures Grows(s, RegisteredStore(s, req, id))
  {
  }

  /** One call: the schema and the rules hold, and the registry only grows. */
  lemma ApplyKeeps(s: Store, op: Op)
    requires Valid(s) && Ready(s, op)
    ensures Valid(Apply(s, op).1) && Grows(s, Apply(s, op).1)
  {
    match op
    case SyncOp(decl, actor, guards, mint) => SyncKeeps(s, decl, actor, guards, mint);
    case RegisterOp(req, id) => RegisterKeeps(s, req, id);
    case TouchOp(_, ids, at) => TouchKeepsValid(s, ids, at);
  }

  lemma TouchKeepsSchema(s: Store, ids: set<Id>, at: int)
    requires Schema(s)
    ensures Schema(TouchedStore(s, ids, at)) && Grows(s, TouchedStore(s, ids, at))
  {
  }

  lemma TouchKeepsRules(s: Store, ids: set<Id>, at: int)
    requires Rules(s)
    ensures Rules(TouchedStore(s, ids, at))
  {
    var t := TouchedStore(s, ids, at);
    forall id | id in t.projects && ActiveOrg(t.projects[id])
      ensures AnchorOf(t, Fold(t.projects[id].path))
    {
      assert AnchorOf(s, Fold(s.projects[id].path));
    }
    forall id | id in t.projects
      ensures LegalPath(t.projects[id].path) && OwnedRow(t.projects[id])
    {
      assert LegalPath(s.projects[id].path) && OwnedRow(s.projects[id]);
    }
  }

  lemma TouchKeepsValid(s: Store, ids: set<Id>, at: int)
    requires Valid(s)
    ensures Valid(TouchedStore(s, ids, at)) && Grows(s, TouchedStore(s, ids, at))
  {
    TouchKeepsSchema(s, ids, at);
    TouchKeepsRules(s, ids, at);
  }

  /** Only an accepted sync changes what a sync reads: a registration adds a
      private row, a flush moves `last_seen_at`. */
  lemma OthersKeepOrg(s: Store, op: Op)
    requires op.SyncOp? ==> Refusal(s, op.decl, op.guards).Some?
    requires Ready(s, op) && Schema(s)
    ensures OrgSame(s, Apply(s, op).1)
  {
    if op.RegisterOp? && Apply(s, op).1 != s {
      RegisterKeepsOrg(s, op.req, op.id);
    }
  }

  lemma RegisterKeepsOrg(s: Store, req: RegisterRequest, id: Id)
    requires id !in s.projects && Schema(s)
    ensures OrgSame(s, RegisteredStore(s, req, id))
  {
  }

  // ---- What every run keeps ----

  lemma {:induction false} RunKeepsValid(s: Store, ops: seq<Op>)
    requires Valid(s) && Runnable(s, ops)
    ensures Valid(Run(s, ops))
  {
    if ops != [] {
      RunKeepsValid(s, ops[..|ops| - 1]);
      ApplyKeeps(Run(s, ops[..|ops| - 1]), ops[|ops| - 1]);
    }
  }

  /** No row stores the empty repository, which a caller could not tell from none. */
  ghost predicate ReposNamed(s: Store) {
    forall id :: id in s.projects ==> s.projects[id].sourceRepo != Some("")
  }

  lemma SyncKeepsReposNamed(s: Store, decl: seq<Declared>, actor: string, mint: seq<Id>)
    requires ReposNamed(s) && WellFormed(decl) && Fresh(s, decl, mint)
    ensures ReposNamed(Converged(s, decl, actor, mint))
  {
    var t := Converged(s, decl, actor, mint);
    forall id | id in t.projects
      ensures t.projects[id].sourceRepo != Some("")
    {
      if id in s.projects {
        SettledRowIs(s, decl, actor, mint, id);
        var i := IndexOf(decl, Fold(s.projects[id].path));
        assert i < |decl| ==> OrgPath(decl[i].path);
      } else {
        var i := InsertedBy(s, decl, actor, mint, id);
        assert OrgPath(decl[i].path);
      }
    }
  }

  lemma ApplyKeepsReposNamed(s: Store, op: Op)
    requires ReposNamed(s) && Ready(s, op)
    ensures ReposNamed(Apply(s, op).1)
  {
    if AcceptedSync(s, op) {
      SyncKeepsReposNamed(s, op.decl, op.actor, op.mint);
    }
  }

  lemma {:induction false} RunKeepsReposNamed(s: Store, ops: seq<Op>)
    requires ReposNamed(s) && Runnable(s, ops)
    ensures ReposNamed(Run(s, ops))
  {
    if ops != [] {
      RunKeepsReposNamed(s, ops[..|ops| - 1]);
      ApplyKeepsReposNamed(Run(s, ops[..|ops| - 1]), ops[|ops| - 1]);
    }
  }

  lemma {:induction false} PrefixRunnable(s: Store, ops: seq<Op>, k: nat)
    requires Runnable(s, ops) && k <= |ops|
    ensures Runnable(s, ops[..k])
    decreases |ops|
  {
    if k == |ops| {
      assert ops[..k] == ops;
    } else {
      PrefixRunnable(s, ops[..|ops| - 1], k);
      assert ops[..|ops| - 1][..k] == ops[..k];
    }
  }

  /** From any moment of a run to any later one, the registry only grows. */
  lemma {:induction false} RunGrows(s: Store, ops: seq<Op>, k: nat)
    requires Valid(s) && Runnable(s, ops) && k <= |ops|
    ensures Grows(Run(s, ops[..k]), Run(s, ops))
    decreases |ops|
  {
    if k == |ops| {
      assert ops[..k] == ops;
    } else {
      var before := ops[..|ops| - 1];
      RunGrows(s, before, k);
      assert before[..k] == ops[..k];
      RunKeepsValid(s, before);
      ApplyKeeps(Run(s, before), ops[|ops| - 1]);
      GrowsTransitive(Run(s, ops[..k]), Run(s, before), Run(s, ops));
    }
  }

  /** The registry shows exactly this declaration: its paths active with its
      names and repositories, its grants granted, and nothing else. */
  ghost predicate Shows(s: Store, decl: seq<Declared>) {
    && ActiveView(s) == DeclaredView(decl)
    && forall key, team, level {:trigger Grants(s, key, team, level)} ::
         Grants(s, key, team, level) <==> Wanted(decl, key, team) == Some(level)
  }

  lemma ConvergedShows(s: Store, decl: seq<Declared>, actor: string, mint: seq<Id>)
    requires Schema(s) && WellFormed(decl) && Fresh(s, decl, mint)
    ensures Shows(Converged(s, decl, actor, mint), decl)
  {
    ConvergesToDeclaration(s, decl, actor, mint);
    forall key, team, level
      ensures Grants(Converged(s, decl, actor, mint), key, team, level) <==> Wanted(decl, key, team) == Some(level)
    {
      GrantsConvergeToDeclaration(s, decl, actor, mint, key, team, level);
    }
  }

  lemma SameShows(a: Store, b: Store, decl: seq<Declared>)
    requires OrgSame(a, b) && Shows(a, decl)
    ensures Shows(b, decl)
  {
    SameView(a, b);
    forall key, team, level
      ensures Grants(b, key, team, level) <==> Wanted(decl, key, team) == Some(level)
    {
      SameGrants(a, b, key, team, level);
    }
  }

  ghost predicate AcceptedSync(s: Store, op: Op) {
    op.SyncOp? && Refusal(s, op.decl, op.guards).None?
  }

  /** The declaration of the last sync a run accepted. */
  ghost function LastSync(s: Store, ops: seq<Op>): Option<seq<Declared>> {
    if ops == [] then None
    else
      var op := ops[|ops| - 1];
      if AcceptedSync(Run(s, ops[..|ops| - 1]), op) then Some(op.decl) else LastSync(s, ops[..|ops| - 1])
  }

  /** History independence: after any run the registry shows the declaration of
      the last accepted sync, whatever came before it and whatever other verbs
      came after. */
  lemma {:induction false} LastSyncDecides(s: Store, ops: seq<Op>)
    requires Valid(s) && Runnable(s, ops) && LastSync(s, ops).Some?
    ensures Shows(Run(s, ops), LastSync(s, ops).value)
  {
    var op := ops[|ops| - 1];
    var earlier := ops[..|ops| - 1];
    RunKeepsValid(s, earlier);
    if AcceptedSync(Run(s, earlier), op) {
      ConvergedShows(Run(s, earlier), op.decl, op.actor, op.mint);
    } else {
      LastSyncDecides(s, earlier);
      UnsyncedShows(Run(s, earlier), op, LastSync(s, ops).value);
    }
  }

  lemma UnsyncedShows(s: Store, op: Op, decl: seq<Declared>)
    requires Schema(s) && Ready(s, op) && !AcceptedSync(s, op) && Shows(s, decl)
    ensures Shows(Apply(s, op).1, decl)
  {
    OthersKeepOrg(s, op);
    SameShows(s, Apply(s, op).1, decl);
  }

  // ---- Versions ----

  /** How many of the first `k` calls changed this row. */
  ghost function Changes(s: Store, ops: seq<Op>, id: Id, k: nat): nat {
    if k == 0 || k > |ops| then 0
    else
      var before, after := Run(s, ops[..k - 1]), Run(s, ops[..k]);
      Changes(s, ops, id, k - 1) +
        if id in before.projects && id in after.projects && before.projects[id] != after.projects[id] then 1 else 0
  }

  lemma SyncCountsVersions(s: Store, decl: seq<Declared>, actor: string, mint: seq<Id>, id: Id)
    requires Fresh(s, decl, mint) && id in Converged(s, decl, actor, mint).projects
    ensures var row' := Converged(s, decl, actor, mint).projects[id];
      row'.version ==
        if id !in s.projects then 1 else if row' == s.projects[id] then s.projects[id].version else s.projects[id].version + 1
  {
    if id in s.projects {
      SettledRowIs(s, decl, actor, mint, id);
    } else {
      var i := InsertedBy(s, decl, actor, mint, id);
    }
  }

  /** One call moves a row's version by one exactly when it changes the row, and
      a row starts at version one. */
  lemma ApplyCountsVersions(s: Store, op: Op, id: Id)
    requires Ready(s, op) && id in Apply(s, op).1.projects
    ensures id in s.projects ==>
      var row, row' := s.projects[id], Apply(s, op).1.projects[id];
      row'.version == (if row' == row then row.version else row.version + 1)
    ensures id !in s.projects ==> Apply(s, op).1.projects[id].version == 1
  {
    if op.SyncOp? && Refusal(s, op.decl, op.guards).None? {
      SyncCountsVersions(s, op.decl, op.actor, op.mint, id);
    }
  }

  lemma CallCountsVersions(s: Store, op: Op, id: Id)
    requires Valid(s) && Ready(s, op)
    ensures id in s.projects ==> id in Apply(s, op).1.projects
    ensures id in Apply(s, op).1.projects ==>
      Apply(s, op).1.projects[id].version ==
        (if id in s.projects then s.projects[id].version + (if Apply(s, op).1.projects[id] != s.projects[id] then 1 else 0) else 1)
  {
    ApplyKeeps(s, op);
    if id in Apply(s, op).1.projects {
      ApplyCountsVersions(s, op, id);
    }
  }

  lemma LastCall(s: Store, ops: seq<Op>, k: nat)
    requires Runnable(s, ops) && 0 < k <= |ops|
    ensures Ready(Run(s, ops[..k - 1]), ops[k - 1]) && Run(s, ops[..k]) == Apply(Run(s, ops[..k - 1]), ops[k - 1]).1
  {
    PrefixRunnable(s, ops, k);
    assert ops[..k][..k - 1] == ops[..k - 1] && ops[..k][k - 1] == ops[k - 1];
  }

  /** From an empty registry, a row's version is one plus the number of calls
      that changed it; flushes and grant changes are none of them. */
  lemma {:induction false} VersionCountsChanges(ops: seq<Op>, id: Id, k: nat)
    requires Runnable(EmptyStore, ops) && k <= |ops|
    ensures id !in Run(EmptyStore, ops[..k]).projects ==> Changes(EmptyStore, ops, id, k) == 0
    ensures id in Run(EmptyStore, ops[..k]).projects ==>
      Run(EmptyStore, ops[..k]).projects[id].version == 1 + Changes(EmptyStore, ops, id, k)
  {
    if k > 0 {
      VersionCountsChanges(ops, id, k - 1);
      LastCall(EmptyStore, ops, k);
      PrefixRunnable(EmptyStore, ops, k - 1);
      RunKeepsValid(EmptyStore, ops[..k - 1]);
      CallCountsVersions(Run(EmptyStore, ops[..k - 1]), ops[k - 1], id);
    }
  }

  // ---- Last seen ----

  /** The flushes of a run. */
  ghost function FlushesOf(ops: seq<Op>): seq<Flush> {
    if ops == [] then []
    else
      var op := ops[|ops| - 1];
      FlushesOf(ops[..|ops| - 1]) + FlushOf(op)
  }

  lemma OnlyFlushesSee(s: Store, op: Op)
    requires !op.TouchOp?
    ensures Apply(s, op).1.seen == s.seen
  {
  }

  /** The rows the flushes found stand, and what was seen is what they make of
      the first values. */
  ghost predicate SeenBy(seen: map<Id, int>, s: Store, flushes: seq<Flush>) {
    && (forall f :: f in flushes ==> f.ids <= s.projects.Keys)
    && s.seen == FlushAll(s.(seen := seen), flushes).seen
  }

  function FlushOf(op: Op): seq<Flush> {
    if op.TouchOp? then [Flush(op.ids, op.at)] else []
  }

  lemma SeenByStep(seen: map<Id, int>, e: Store, op: Op, t: Store, flushes: seq<Flush>)
    requires SeenBy(seen, e, flushes) && e.projects.Keys <= t.projects.Keys
    requires op.TouchOp? ==> t == TouchedStore(e, op.ids, op.at) && op.ids <= e.projects.Keys
    requires !op.TouchOp? ==> t.seen == e.seen
    ensures SeenBy(seen, t, flushes + FlushOf(op))
  {
    FlushesReadTheirRows(e.(seen := seen), t.(seen := seen), flushes);
    if op.TouchOp? {
      OneMoreFlush(e, t.(seen := seen), op, flushes);
    } else {
      assert flushes + FlushOf(op) == flushes;
    }
  }

  lemma {:induction false} RunFlushes(s: Store, ops: seq<Op>)
    requires Valid(s) && Runnable(s, ops)
    ensures SeenBy(s.seen, Run(s, ops), FlushesOf(ops))
  {
    if ops != [] {
      var earlier, op := ops[..|ops| - 1], ops[|ops| - 1];
      RunFlushes(s, earlier);
      RunKeepsValid(s, earlier);
      FlushStep(Run(s, earlier), op);
      SeenByStep(s.seen, Run(s, earlier), op, Apply(Run(s, earlier), op).1, FlushesOf(earlier));
    }
  }

  lemma FlushStep(e: Store, op: Op)
    requires Valid(e) && Ready(e, op)
    ensures e.projects.Keys <= Apply(e, op).1.projects.Keys
    ensures op.TouchOp? ==> Apply(e, op).1 == TouchedStore(e, op.ids, op.at) && op.ids <= e.projects.Keys
    ensures !op.TouchOp? ==> Apply(e, op).1.seen == e.seen
  {
    ApplyKeeps(e, op);
    if !op.TouchOp? {
      OnlyFlushesSee(e, op);
    }
  }

  lemma OneMoreFlush(e: Store, base: Store, op: Op, flushes: seq<Flush>)
    requires op.TouchOp? && base.projects == e.projects
    requires FlushAll(base, flushes).seen == e.seen && FlushAll(base, flushes).projects == base.projects
    ensures FlushAll(base, flushes + [Flush(op.ids, op.at)]).seen == TouchedStore(e, op.ids, op.at).seen
  {
  }

  /** After any run a row's `last_seen_at` is the latest of its first value and
      the moments of the flushes that found it. */
  lemma RunSeesLatest(s: Store, ops: seq<Op>, id: Id)
    requires Valid(s) && Runnable(s, ops) && id in Run(s, ops).projects
    ensures id in Run(s, ops).seen <==> EverSeen(s, FlushesOf(ops), id)
    ensures id in Run(s, ops).seen ==> IsLatest(s, FlushesOf(ops), id, Run(s, ops).seen[id])
  {
    RunFlushes(s, ops);
    var base := Run(s, ops).(seen := s.seen);
    LastSeenIsLatest(base, FlushesOf(ops), id);
    assert EverSeen(base, FlushesOf(ops), id) <==> EverSeen(s, FlushesOf(ops), id);
    if id in Run(s, ops).seen {
      assert IsLatest(base, FlushesOf(ops), id, Run(s, ops).seen[id]);
    }
  }

  lemma {:induction false} FlushListed(ops: seq<Op>, i: nat)
    requires i < |ops| && ops[i].TouchOp?
    ensures Flush(ops[i].ids, ops[i].at) in FlushesOf(ops)
  {
    var n := |ops| - 1;
    if i < n {
      FlushListed(ops[..n], i);
    } else {
      assert FlushesOf(ops) == FlushesOf(ops[..n]) + [Flush(ops[i].ids, ops[i].at)];
    }
  }

  lemma {:induction false} ListedFlush(ops: seq<Op>, f: Flush) returns (i: nat)
    requires f in FlushesOf(ops)
    ensures i < |ops| && ops[i].TouchOp? && f == Flush(ops[i].ids, ops[i].at)
  {
    i := |ops| - 1;
    if f in FlushesOf(ops[..i]) {
      i := ListedFlush(ops[..i], f);
    }
  }

  /** The row was last seen at the latest of its first value and these flushes. */
  ghost predicate SeenLatest(first: map<Id, int>, seen: map<Id, int>, ops: seq<Op>, flushes: set<nat>, id: Id) {
    && (id in seen <==> id in first || flushes != {})
    && (id in seen ==>
          && (id in first ==> first[id] <= seen[id])
          && (forall i :: i in flushes && i < |ops| && ops[i].TouchOp? ==> ops[i].at <= seen[id])
          && ((id in first && first[id] == seen[id]) ||
              exists i :: i in flushes && i < |ops| && ops[i].TouchOp? && ops[i].at == seen[id]))
  }

  /** The flushes that found this row. */
  ghost function Finders(ops: seq<Op>, id: Id): set<nat> {
    set i | 0 <= i < |ops| && ops[i].TouchOp? && id in ops[i].ids
  }

  lemma LatestFound(s: Store, seen: map<Id, int>, ops: seq<Op>, id: Id)
    requires id in seen <==> EverSeen(s, FlushesOf(ops), id)
    requires id in seen ==> IsLatest(s, FlushesOf(ops), id, seen[id])
    ensures SeenLatest(s.seen, seen, ops, Finders(ops, id), id)
  {
    var flushes := FlushesOf(ops);
    forall i | i in Finders(ops, id)
      ensures exists k :: 0 <= k < |flushes| && id in flushes[k].ids && flushes[k].at == ops[i].at
    {
      FlushListed(ops, i);
    }
    forall k | 0 <= k < |flushes| && id in flushes[k].ids
      ensures exists i :: i in Finders(ops, id) && ops[i].at == flushes[k].at
    {
      var i := ListedFlush(ops, flushes[k]);
      assert i in Finders(ops, id);
    }
  }

  lemma RunSeesFound(s: Store, ops: seq<Op>, id: Id)
    requires Valid(s) && Runnable(s, ops) && id in Run(s, ops).projects
    ensures SeenLatest(s.seen, Run(s, ops).seen, ops, Finders(ops, id), id)
  {
    RunSeesLatest(s, ops, id);
    LatestFound(s, Run(s, ops).seen, ops, id);
  }

  /** The `i`th call is a flush whose paths name this row where it stands, live or
      through an alias. */
  ghost predicate FlushNames(s: Store, ops: seq<Op>, i: nat, id: Id)
    requires i < |ops|
  {
    ops[i].TouchOp? && id in Named(Run(s, ops[..i]), ops[i].paths)
  }

  ghost function Namers(s: Store, ops: seq<Op>, id: Id): set<nat> {
    set i | 0 <= i < |ops| && FlushNames(s, ops, i, id)
  }

  ghost predicate ExactOp(s: Store, ops: seq<Op>, i: nat)
    requires i < |ops|
  {
    Exact(Run(s, ops[..i]), ops[i])
  }

  /** Every flush of the run found exactly the rows its paths named. */
  ghost predicate AllExact(s: Store, ops: seq<Op>) {
    forall i {:trigger ExactOp(s, ops, i)} :: 0 <= i < |ops| ==> ExactOp(s, ops, i)
  }

  lemma NamesAreFound(s: Store, ops: seq<Op>, i: nat, id: Id)
    requires i < |ops| && ExactOp(s, ops, i)
    ensures FlushNames(s, ops, i, id) <==> i in Finders(ops, id)
  {
  }

  lemma NamersAreFinders(s: Store, ops: seq<Op>, id: Id)
    requires AllExact(s, ops)
    ensures Namers(s, ops, id) == Finders(ops, id)
  {
    forall i | 0 <= i < |ops|
      ensures FlushNames(s, ops, i, id) <==> i in Finders(ops, id)
    {
      assert ExactOp(s, ops, i);
      NamesAreFound(s, ops, i, id);
    }
  }

  /** After any run of calls one at a time, a row's `last_seen_at` is the latest of
      its first value and the moments of the flushes whose paths named it, and
      there is one exactly when there was a first value or such a flush. */
  lemma RunSeesNamed(s: Store, ops: seq<Op>, id: Id)
    requires Valid(s) && Runnable(s, ops) && AllExact(s, ops) && id in Run(s, ops).projects
    ensures SeenLatest(s.seen, Run(s, ops).seen, ops, Namers(s, ops, id), id)
  {
    RunSeesFound(s, ops, id);
    NamersAreFinders(s, ops, id);
  }

  // ---- Exactly once ----

  /** The call went through under this key: a row was inserted. */
  ghost predicate Performs(s: Store, op: Op, key: LedgerKey) {
    op.RegisterOp? && SentUnder(op.req, key) && Apply(s, op).1 != s
  }

  /** How many of the first `k` calls went through under this key. */
  ghost function Performed(s: Store, ops: seq<Op>, key: LedgerKey, k: nat): nat {
    if k == 0 || k > |ops| then 0
    else Performed(s, ops, key, k - 1) + if Performs(Run(s, ops[..k - 1]), ops[k - 1], key) then 1 else 0
  }

  /** A key is claimed by the call that goes through under it and by no other,
      and is never claimed twice. */
  lemma ClaimedByPerforming(s: Store, op: Op, key: LedgerKey)
    requires Ready(s, op)
    ensures key in Apply(s, op).1.ledger <==> key in s.ledger || Performs(s, op, key)
    ensures Performs(s, op, key) ==> key !in s.ledger
  {
    if op.RegisterOp? && Apply(s, op).1 != s {
      assert op.id in Apply(s, op).1.projects;
    }
  }

  /** Over any run from an empty ledger, with any retries: at most one insert
      per key, and exactly one when the key is spent. */
  lemma {:induction false} ExactlyOnce(s: Store, ops: seq<Op>, key: LedgerKey, k: nat)
    requires s.ledger == map[] && Runnable(s, ops) && k <= |ops|
    ensures Performed(s, ops, key, k) == if key in Run(s, ops[..k]).ledger then 1 else 0
  {
    if k > 0 {
      ExactlyOnce(s, ops, key, k - 1);
      PrefixRunnable(s, ops, k);
      assert ops[..k][..k - 1] == ops[..k - 1] && ops[..k][k - 1] == ops[k - 1];
      ClaimedByPerforming(Run(s, ops[..k - 1]), ops[k - 1], key);
    }
  }

  lemma ApplyKeepsLedgerSound(s: Store, op: Op)
    requires Valid(s) && LedgerSound(s) && Ready(s, op)
    ensures LedgerSound(Apply(s, op).1)
  {
    if op.RegisterOp? {
      RegisterKeepsLedgerSound(s, op.req, op.id);
    } else {
      var t := Apply(s, op).1;
      ApplyKeeps(s, op);
      forall key | key in t.ledger
        ensures ClaimNamesItsRow(t, key)
      {
        assert ClaimNamesItsRow(s, key);
      }
    }
  }

  lemma {:induction false} RunKeepsLedgerSound(s: Store, ops: seq<Op>)
    requires Valid(s) && LedgerSound(s) && Runnable(s, ops)
    ensures LedgerSound(Run(s, ops))
  {
    if ops != [] {
      RunKeepsLedgerSound(s, ops[..|ops| - 1]);
      RunKeepsValid(s, ops[..|ops| - 1]);
      ApplyKeepsLedgerSound(Run(s, ops[..|ops| - 1]), ops[|ops| - 1]);
    }
  }

  lemma ClaimsPersist(s: Store, ops: seq<Op>, k: nat, key: LedgerKey)
    requires Valid(s) && Runnable(s, ops) && k < |ops|
    requires key in Apply(Run(s, ops[..k]), ops[k]).1.ledger
    ensures key in Run(s, ops).ledger && Run(s, ops).ledger[key] == Apply(Run(s, ops[..k]), ops[k]).1.ledger[key]
  {
    assert ops[..k + 1][..k] == ops[..k] && ops[..k + 1][k] == ops[k];
    assert Run(s, ops[..k + 1]) == Apply(Run(s, ops[..k]), ops[k]).1;
    RunGrows(s, ops, k + 1);
  }

  /** A retry gets the first answer when it agrees with the first in path, name and
      repository, and is refused when it differs in any of the three. */
  predicate AnsweredAgain(first: RegisterRequest, retry: RegisterRequest, before: Answer, after: Answer) {
    if retry.path == first.path && retry.displayName == first.displayName && retry.sourceRepo == first.sourceRepo then
      after == before
    else
      after.Registered? && after.registration.Err?
  }

  lemma PerformedClaimsStand(s: Store, ops: seq<Op>, k: nat, key: LedgerKey)
    requires Valid(s) && Runnable(s, ops) && k < |ops| && Performs(Run(s, ops[..k]), ops[k], key)
    ensures key in Apply(Run(s, ops[..k]), ops[k]).1.ledger
    ensures key in Run(s, ops).ledger && Run(s, ops).ledger[key] == Apply(Run(s, ops[..k]), ops[k]).1.ledger[key]
  {
    LastCall(s, ops, k + 1);
    ClaimedByPerforming(Run(s, ops[..k]), ops[k], key);
    ClaimsPersist(s, ops, k, key);
  }

  /** A retry at any later moment of any run, under a key a registration went
      through under, is answered as the two agree, whatever else its scope says,
      and changes nothing. */
  lemma RetriesAreSafe(s: Store, ops: seq<Op>, k: nat, retry: RegisterRequest, id: Id)
    requires Valid(s) && Runnable(s, ops) && k < |ops| && ops[k].RegisterOp?
    requires Apply(Run(s, ops[..k]), ops[k]).1 != Run(s, ops[..k]) && SameKey(ops[k].req, retry)
    ensures Register(Run(s, ops), retry, id).1 == Run(s, ops)
    ensures AnsweredAgain(ops[k].req, retry, Apply(Run(s, ops[..k]), ops[k]).0, Registered(Register(Run(s, ops), retry, id).0))
  {
    forall key | SentUnder(ops[k].req, key)
      ensures key in Register(Run(s, ops[..k]), ops[k].req, ops[k].id).1.ledger && key in Run(s, ops).ledger
      ensures Run(s, ops).ledger[key] == Register(Run(s, ops[..k]), ops[k].req, ops[k].id).1.ledger[key]
    {
      PerformedClaimsStand(s, ops, k, key);
    }
    RetryAfter(Run(s, ops[..k]), ops[k].req, ops[k].id, Run(s, ops), retry, id);
  }
}
