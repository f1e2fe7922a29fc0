/** The answered calls as one serial run in which every flush names its rows at
    its own place, like any other call: a flush may be moved back to the moment
    its UPDATE found them, since nothing but a flush reads or writes
    `last_seen_at` (src/write/touch.rs). */
module Linearization {
  import opened Congruence
  import opened Declaration
  import opened GrantPlans
  import opened History
  import opened Interleaving
  import opened Operations
  import opened Reconcile
  import opened Registration
  import opened Registry
  import opened Serializability
  import opened Syncs
  import opened Text
  import opened Touches

  // ---- No other call sees what a flush writes ----

  lemma SyncIgnoresSeen(s: Store, seen: map<Id, int>, decl: seq<Declared>, actor: string, guards: Guards, mint: seq<Id>)
    requires PathsUnique(s.projects)
    ensures var t := s.(seen := seen);
      && Refusal(t, decl, guards) == Refusal(s, decl, guards) && Response(t, decl) == Response(s, decl)
      && Converged(t, decl, actor, mint) == Converged(s, decl, actor, mint).(seen := seen)
  {
    var t := s.(seen := seen);
    assert OrgSame(s, t);
    SameAnswer(s, t, decl, guards);
    SameRowWrites(s, t, decl, actor, mint, |decl|);
    SettledIgnoresSeen(s, t, decl, actor, mint);
  }

  lemma SettledIgnoresSeen(s: Store, t: Store, decl: seq<Declared>, actor: string, mint: seq<Id>)
    requires t == s.(seen := t.seen) && Minted(t, decl, actor, mint, |decl|) == Minted(s, decl, actor, mint, |decl|)
    ensures SettledRows(t, decl, actor, mint) == SettledRows(s, decl, actor, mint)
    ensures forall rows :: SettledGrants(t, decl, rows) == SettledGrants(s, decl, rows)
  {
    assert OrgGrants(t) == OrgGrants(s);
  }

  lemma PathsIgnoreSeen(s: Store, seen: map<Id, int>, key: string)
    ensures LiveAt(s.(seen := seen), key) == LiveAt(s, key) && AliasAt(s.(seen := seen), key) == AliasAt(s, key)
  {
  }

  lemma RegisteredIgnoresSeen(s: Store, seen: map<Id, int>, req: RegisterRequest, id: Id)
    ensures RegisteredStore(s.(seen := seen), req, id) == RegisteredStore(s, req, id).(seen := seen)
  {
  }

  lemma RegisterIgnoresSeen(s: Store, seen: map<Id, int>, req: RegisterRequest, id: Id)
    ensures Register(s.(seen := seen), req, id) == (Register(s, req, id).0, Register(s, req, id).1.(seen := seen))
  {
    PathsIgnoreSeen(s, seen, Fold(req.path));
    RegisteredIgnoresSeen(s, seen, req, id);
  }

  /** A sync or a registration answers alike and leaves alike whatever was seen. */
  lemma IgnoresSeen(s: Store, seen: map<Id, int>, op: Op)
    requires Valid(s) && !op.TouchOp?
    ensures Apply(s.(seen := seen), op) == (Apply(s, op).0, Apply(s, op).1.(seen := seen))
    ensures Ready(s.(seen := seen), op) <==> Ready(s, op)
  {
    match op
    case SyncOp(decl, actor, guards, mint) => SyncIgnoresSeen(s, seen, decl, actor, guards, mint);
    case RegisterOp(req, id) => RegisterIgnoresSeen(s, seen, req, id);
  }

  /** What a flush makes of one row: the later of what it was and the flush. */
  lemma SeenAfter(s: Store, ids: set<Id>, at: int, id: Id)
    ensures var t := TouchedStore(s, ids, at);
      && (id in t.seen <==> id in s.seen || (id in ids && id in s.projects))
      && (id in t.seen && (id !in ids || id !in s.projects) ==> t.seen[id] == s.seen[id])
      && (id in ids && id in s.projects ==> t.seen[id] == if id in s.seen && s.seen[id] >= at then s.seen[id] else at)
  {
  }

  /** Two flushes leave the same whichever comes first. */
  lemma FlushesCommute(s: Store, a: set<Id>, x: int, b: set<Id>, y: int)
    ensures TouchedStore(TouchedStore(s, a, x), b, y) == TouchedStore(TouchedStore(s, b, y), a, x)
  {
    var u, v := TouchedStore(TouchedStore(s, a, x), b, y), TouchedStore(TouchedStore(s, b, y), a, x);
    forall id {:trigger AgreeAt(u.seen, v.seen, id)}
      ensures AgreeAt(u.seen, v.seen, id)
    {
      SeenAfter(s, a, x, id);
      SeenAfter(s, b, y, id);
      SeenAfter(TouchedStore(s, a, x), b, y, id);
      SeenAfter(TouchedStore(s, b, y), a, x, id);
    }
    SameMap(u.seen, v.seen);
  }

  /** A flush moved ahead of a call changes neither its answer nor what both leave. */
  lemma FlushAhead(s: Store, ids: set<Id>, at: int, op: Op)
    requires Valid(s) && Ready(s, op) && ids <= s.projects.Keys
    ensures var t := TouchedStore(s, ids, at);
      && Ready(t, op) && (Exact(s, op) ==> Exact(t, op))
      && Apply(t, op) == (Apply(s, op).0, TouchedStore(Apply(s, op).1, ids, at))
  {
    var t := TouchedStore(s, ids, at);
    if op.TouchOp? {
      NamedReadsPaths(s, t, op.paths);
      FlushesCommute(s, ids, at, op.ids, op.at);
    } else {
      IgnoresSeen(s, t.seen, op);
      FlushStep(s, op);
      assert Advanced(Apply(s, op).1, ids, at) == Advanced(s, ids, at);
    }
  }

  // ---- A flush put into a run where it found its rows ----

  lemma RunSnoc(s: Store, ops: seq<Op>, op: Op)
    ensures Run(s, ops + [op]) == Apply(Run(s, ops), op).1
    ensures Runnable(s, ops + [op]) <==> Runnable(s, ops) && Ready(Run(s, ops), op)
  {
    assert (ops + [op])[..|ops|] == ops;
  }

  /** A run of any state machine, and that each of its steps was allowed. */
  ghost function Folds<S, O>(apply: (S, O) -> S, s: S, ops: seq<O>): S {
    if ops == [] then s else apply(Folds(apply, s, ops[..|ops| - 1]), ops[|ops| - 1])
  }

  ghost predicate Accepts<S, O>(ready: (S, O) -> bool, apply: (S, O) -> S, s: S, ops: seq<O>) {
    ops == [] ||
    (Accepts(ready, apply, s, ops[..|ops| - 1]) && ready(Folds(apply, s, ops[..|ops| - 1]), ops[|ops| - 1]))
  }

  /** A change that commutes with every step may be made before any of them. */
  lemma {:induction false} ChangeCommutes<S(!new), O(!new)>(
      ready: (S, O) -> bool, apply: (S, O) -> S, good: S -> bool, change: S -> S, s: S, u: seq<O>, v: seq<O>, r: seq<O>)
    requires forall x, o :: good(x) && ready(x, o) ==>
      good(apply(x, o)) && ready(change(x), o) && apply(change(x), o) == change(apply(x, o))
    requires Accepts(ready, apply, s, u + r) && Accepts(ready, apply, s, v)
    requires good(Folds(apply, s, u)) && Folds(apply, s, v) == change(Folds(apply, s, u))
    ensures Accepts(ready, apply, s, v + r) && good(Folds(apply, s, u + r))
    ensures Folds(apply, s, v + r) == change(Folds(apply, s, u + r))
    decreases |r|
  {
    if r == [] {
      assert u + r == u && v + r == v;
    } else {
      var n := |r| - 1;
      assert (u + r)[..|u + r| - 1] == u + r[..n] && (v + r)[..|v + r| - 1] == v + r[..n];
      ChangeCommutes(ready, apply, good, change, s, u, v, r[..n]);
    }
  }

  // ---- Calls one at a time ----

  /** The answer this call has alone, on this registry, a flush naming its rows
      here. */
  ghost predicate Alone(s: Store, e: Event) {
    Ready(s, e.op) && e.answer == Apply(s, e.op).0 && Exact(s, e.op)
  }

  ghost function LeftBy(init: Store, order: seq<Event>): Store {
    if order == [] then init else Apply(LeftBy(init, order[..|order| - 1]), order[|order| - 1].op).1
  }

  /** Every call has the answer it has alone, where it stands. */
  ghost predicate OneByOne(init: Store, order: seq<Event>) {
    order == [] ||
    (OneByOne(init, order[..|order| - 1]) && Alone(LeftBy(init, order[..|order| - 1]), order[|order| - 1]))
  }

  lemma {:induction false} OneByOneFolds(init: Store, order: seq<Event>)
    ensures LeftBy(init, order) == Folds((s, e: Event) => Apply(s, e.op).1, init, order)
    ensures OneByOne(init, order) <==> Accepts((s, e) => Alone(s, e), (s, e: Event) => Apply(s, e.op).1, init, order)
  {
    if order != [] {
      OneByOneFolds(init, order[..|order| - 1]);
    }
  }

  lemma OneByOneSnoc(init: Store, order: seq<Event>, e: Event)
    ensures LeftBy(init, order + [e]) == Apply(LeftBy(init, order), e.op).1
    ensures OneByOne(init, order + [e]) <==> OneByOne(init, order) && Alone(LeftBy(init, order), e)
  {
    assert (order + [e])[..|order|] == order;
  }

  ghost predicate RunsAs(init: Store, order: seq<Event>) {
    Runnable(init, OpsOf(order)) && Run(init, OpsOf(order)) == LeftBy(init, order) && Valid(LeftBy(init, order))
  }

  lemma RunsAsNext(init: Store, order: seq<Event>, e: Event)
    requires RunsAs(init, order) && Ready(LeftBy(init, order), e.op)
    ensures RunsAs(init, order + [e])
  {
    OneByOneSnoc(init, order, e);
    OpsExtend(order, e);
    RunSnoc(init, OpsOf(order), e.op);
    ApplyKeeps(LeftBy(init, order), e.op);
  }

  lemma RunsAsNone(init: Store)
    requires Valid(init)
    ensures RunsAs(init, [])
  {
    assert OpsOf([]) == [];
  }

  lemma LastReady(init: Store, order: seq<Event>, n: nat)
    requires OneByOne(init, order) && |order| == n + 1
    ensures OneByOne(init, order[..n]) && Ready(LeftBy(init, order[..n]), order[n].op)
    ensures order == order[..n] + [order[n]]
  {
  }

  lemma {:induction false} WholeRuns(init: Store, order: seq<Event>)
    requires Valid(init) && OneByOne(init, order)
    ensures RunsAs(init, order)
  {
    if order == [] {
      RunsAsNone(init);
    } else {
      var n := |order| - 1;
      LastReady(init, order, n);
      WholeRuns(init, order[..n]);
      RunsAsNext(init, order[..n], order[n]);
    }
  }

  lemma {:induction false} AcceptedAt<S, O>(ready: (S, O) -> bool, apply: (S, O) -> S, s: S, ops: seq<O>, i: nat)
    requires Accepts(ready, apply, s, ops) && i < |ops|
    ensures Accepts(ready, apply, s, ops[..i]) && ready(Folds(apply, s, ops[..i]), ops[i])
  {
    if i < |ops| - 1 {
      AcceptedAt(ready, apply, s, ops[..|ops| - 1], i);
      assert ops[..|ops| - 1][..i] == ops[..i];
    }
  }

  lemma AloneThere(init: Store, order: seq<Event>, i: nat)
    requires OneByOne(init, order) && i < |order|
    ensures OneByOne(init, order[..i]) && Alone(LeftBy(init, order[..i]), order[i])
  {
    var ok := (s: Store, x: Event) => Alone(s, x);
    var apply := (s: Store, x: Event) => Apply(s, x.op).1;
    OneByOneFolds(init, order);
    OneByOneFolds(init, order[..i]);
    AcceptedAt(ok, apply, init, order, i);
    assert ok(LeftBy(init, order[..i]), order[i]);
  }

  lemma OneByOneRuns(init: Store, order: seq<Event>, p: nat)
    requires Valid(init) && OneByOne(init, order) && p <= |order|
    ensures OneByOne(init, order[..p]) && RunsAs(init, order[..p])
  {
    if p < |order| {
      AloneThere(init, order, p);
    } else {
      assert order[..p] == order;
    }
    WholeRuns(init, order[..p]);
  }

  lemma ExactThere(init: Store, order: seq<Event>, i: nat)
    requires Valid(init) && OneByOne(init, order) && i < |order|
    ensures ExactOp(init, OpsOf(order), i)
  {
    AloneThere(init, order, i);
    OneByOneRuns(init, order, i);
    OpsSplit(order, i);
  }

  /** Calls one at a time are a run in which every flush is exact. */
  lemma OneByOneIsExact(init: Store, order: seq<Event>)
    requires Valid(init) && OneByOne(init, order)
    ensures RunsAs(init, order) && AllExact(init, OpsOf(order))
  {
    WholeRuns(init, order);
    forall i {:trigger ExactOp(init, OpsOf(order), i)} | 0 <= i < |order|
      ensures ExactOp(init, OpsOf(order), i)
    {
      ExactThere(init, order, i);
    }
  }

  function Put(order: seq<Event>, p: nat, e: Event): seq<Event>
    requires p <= |order|
  {
    order[..p] + [e] + order[p..]
  }

  lemma AloneFlushed(s: Store, ids: set<Id>, at: int, e: Event)
    requires Valid(s) && ids <= s.projects.Keys && Alone(s, e)
    ensures Valid(Apply(s, e.op).1) && ids <= Apply(s, e.op).1.projects.Keys
    ensures Alone(TouchedStore(s, ids, at), e)
    ensures Apply(TouchedStore(s, ids, at), e.op).1 == TouchedStore(Apply(s, e.op).1, ids, at)
  {
    ApplyKeeps(s, e.op);
    FlushAhead(s, ids, at, e.op);
  }

  /** The calls after a flush are answered as without it, and all that changes is
      what the flush writes. */
  lemma FlushCommutes(init: Store, u: seq<Event>, v: seq<Event>, r: seq<Event>, ids: set<Id>, at: int)
    requires OneByOne(init, u + r) && OneByOne(init, v) && LeftBy(init, v) == TouchedStore(LeftBy(init, u), ids, at)
    requires Valid(LeftBy(init, u)) && ids <= LeftBy(init, u).projects.Keys
    ensures OneByOne(init, v + r) && LeftBy(init, v + r) == TouchedStore(LeftBy(init, u + r), ids, at)
  {
    var ok := (s: Store, x: Event) => Alone(s, x);
    var apply := (s: Store, x: Event) => Apply(s, x.op).1;
    var good := (s: Store) => Valid(s) && ids <= s.projects.Keys;
    var change := (s: Store) => TouchedStore(s, ids, at);
    forall s, x | good(s) && ok(s, x)
      ensures good(apply(s, x)) && ok(change(s), x) && apply(change(s), x) == change(apply(s, x))
    {
      AloneFlushed(s, ids, at, x);
    }
    OneByOneFolds(init, u);
    OneByOneFolds(init, v);
    OneByOneFolds(init, u + r);
    OneByOneFolds(init, v + r);
    ChangeCommutes(ok, apply, good, change, init, u, v, r);
  }

  lemma FlushFirst(init: Store, a: seq<Event>, e: Event)
    requires Valid(init) && OneByOne(init, a) && e.op.TouchOp? && Alone(LeftBy(init, a), e)
    ensures OneByOne(init, a + [e]) && LeftBy(init, a + [e]) == TouchedStore(LeftBy(init, a), e.op.ids, e.op.at)
    ensures Valid(LeftBy(init, a)) && e.op.ids <= LeftBy(init, a).projects.Keys
  {
    WholeRuns(init, a);
    OneByOneSnoc(init, a, e);
  }

  lemma FirstPart(init: Store, a: seq<Event>, r: seq<Event>)
    requires Valid(init) && OneByOne(init, a + r)
    ensures OneByOne(init, a)
  {
    OneByOneRuns(init, a + r, |a|);
    assert (a + r)[..|a|] == a;
  }

  /** A flush put where it has its answer. */
  lemma FlushPut(init: Store, a: seq<Event>, e: Event, r: seq<Event>)
    requires Valid(init) && OneByOne(init, a + r) && e.op.TouchOp? && Alone(LeftBy(init, a), e)
    ensures OneByOne(init, a + [e] + r)
    ensures LeftBy(init, a + [e] + r) == TouchedStore(LeftBy(init, a + r), e.op.ids, e.op.at)
  {
    FirstPart(init, a, r);
    FlushFirst(init, a, e);
    FlushCommutes(init, a, a + [e], r, e.op.ids, e.op.at);
  }

  lemma Cut(log: seq<Event>, p: nat)
    requires p <= |log|
    ensures log[..p] + log[p..] == log
  {
  }

  lemma FlushPutAt(init: Store, order: seq<Event>, p: nat, e: Event)
    requires Valid(init) && OneByOne(init, order) && p <= |order| && e.op.TouchOp? && Alone(LeftBy(init, order[..p]), e)
    ensures OneByOne(init, Put(order, p, e))
    ensures LeftBy(init, Put(order, p, e)) == TouchedStore(LeftBy(init, order), e.op.ids, e.op.at)
  {
    Cut(order, p);
    FlushPut(init, order[..p], e, order[p..]);
  }

  // ---- Every log has such a run ----

  /** Where a call belongs: at the moment it found what it names, flushes first. */
  function Rank(e: Event): nat {
    2 * e.from + if e.op.TouchOp? then 0 else 1
  }

  predicate InPlace(order: seq<Event>) {
    forall i, j :: 0 <= i < j < |order| ==> Rank(order[i]) <= Rank(order[j])
  }

  /** No call comes before one that was answered before it began. */
  predicate RealTime(order: seq<Event>) {
    forall i, j :: 0 <= i < j < |order| ==> order[i].began <= order[j].ended
  }

  predicate Timely(e: Event) {
    e.began <= e.from <= e.ended && (!e.op.TouchOp? ==> e.from == e.ended)
  }

  /** The calls that are no flush. */
  function Calls(log: seq<Event>): seq<Event> {
    if log == [] then []
    else Calls(log[..|log| - 1]) + if log[|log| - 1].op.TouchOp? then [] else [log[|log| - 1]]
  }

  lemma {:induction false} CallsConcat(a: seq<Event>, b: seq<Event>)
    ensures Calls(a + b) == Calls(a) + Calls(b)
  {
    if b == [] {
      assert a + b == a;
    } else {
      var n := |b| - 1;
      CallsConcat(a, b[..n]);
      assert (a + b)[..|a + b| - 1] == a + b[..n];
    }
  }

  lemma {:induction false} CallsAre(log: seq<Event>, e: Event)
    ensures e in Calls(log) <==> e in log && !e.op.TouchOp?
  {
    if log != [] {
      CallsAre(log[..|log| - 1], e);
      assert log == log[..|log| - 1] + [log[|log| - 1]];
    }
  }

  lemma OpsSplit(order: seq<Event>, p: nat)
    requires p <= |order|
    ensures OpsOf(order)[..p] == OpsOf(order[..p])
  {
  }

  lemma OpsNext(order: seq<Event>, k: nat)
    requires k < |order|
    ensures OpsOf(order)[..k + 1] == OpsOf(order[..k]) + [order[k].op]
  {
  }

  lemma ReadyAt(init: Store, order: seq<Event>, k: nat)
    requires Runnable(init, OpsOf(order)) && k < |order|
    ensures Ready(Run(init, OpsOf(order[..k])), order[k].op)
  {
    PrefixRunnable(init, OpsOf(order), k + 1);
    OpsNext(order, k);
    RunSnoc(init, OpsOf(order[..k]), order[k].op);
  }

  ghost predicate SameButSeen(s: Store, t: Store) {
    s == t.(seen := s.seen)
  }

  /** `v` leaves all that `u` leaves but what was seen. */
  ghost predicate Decides(init: Store, u: seq<Op>, v: seq<Op>) {
    Runnable(init, v) && SameButSeen(Run(init, u), Run(init, v)) && Valid(Run(init, v))
  }

  lemma CallNext(s: Store, t: Store, op: Op)
    requires SameButSeen(s, t) && Valid(t) && Ready(s, op)
    ensures op.TouchOp? ==> SameButSeen(Apply(s, op).1, t)
    ensures !op.TouchOp? ==> Ready(t, op) && SameButSeen(Apply(s, op).1, Apply(t, op).1) && Valid(Apply(t, op).1)
  {
    if !op.TouchOp? {
      IgnoresSeen(t, s.seen, op);
      ApplyKeeps(t, op);
    }
  }

  lemma DecidesNext(init: Store, u: seq<Op>, v: seq<Op>, op: Op)
    requires Decides(init, u, v) && Ready(Run(init, u), op)
    ensures Decides(init, u + [op], if op.TouchOp? then v else v + [op])
  {
    RunSnoc(init, u, op);
    RunSnoc(init, v, op);
    CallNext(Run(init, u), Run(init, v), op);
  }

  lemma CallsSnoc(log: seq<Event>, e: Event)
    ensures OpsOf(Calls(log + [e])) == if e.op.TouchOp? then OpsOf(Calls(log)) else OpsOf(Calls(log)) + [e.op]
  {
    assert (log + [e])[..|log|] == log;
  }

  lemma CallsDecideNext(init: Store, log: seq<Event>, e: Event)
    requires Decides(init, OpsOf(log), OpsOf(Calls(log))) && Ready(Run(init, OpsOf(log)), e.op)
    ensures Decides(init, OpsOf(log + [e]), OpsOf(Calls(log + [e])))
  {
    OpsExtend(log, e);
    CallsSnoc(log, e);
    DecidesNext(init, OpsOf(log), OpsOf(Calls(log)), e.op);
  }

  /** What a flush names depends on the other calls alone. */
  lemma {:induction false} CallsDecide(init: Store, log: seq<Event>)
    requires Valid(init) && Runnable(init, OpsOf(log))
    ensures Decides(init, OpsOf(log), OpsOf(Calls(log)))
  {
    if log == [] {
      assert OpsOf(log) == [];
    } else {
      var n := |log| - 1;
      assert log == log[..n] + [log[n]];
      PrefixRunnable(init, OpsOf(log), n);
      OpsSplit(log, n);
      ReadyAt(init, log, n);
      CallsDecide(init, log[..n]);
      CallsDecideNext(init, log[..n], log[n]);
    }
  }

  lemma CallsName(init: Store, a: seq<Event>, b: seq<Event>, paths: seq<string>)
    requires Valid(init) && Runnable(init, OpsOf(a)) && Runnable(init, OpsOf(b)) && Calls(a) == Calls(b)
    ensures Named(Run(init, OpsOf(a)), paths) == Named(Run(init, OpsOf(b)), paths)
  {
    CallsDecide(init, a);
    CallsDecide(init, b);
    NamedReadsPaths(Run(init, OpsOf(a)), Run(init, OpsOf(b)), paths);
  }

  lemma {:induction false} Boundary(order: seq<Event>, r: nat) returns (p: nat)
    requires InPlace(order)
    ensures p <= |order| && RanksCut(order, p, r)
  {
    p := |order|;
    if order != [] && Rank(order[|order| - 1]) > r {
      p := Boundary(order[..|order| - 1], r);
    }
  }

  lemma OneCut(x: seq<Event>, n: nat, k: nat, m: nat)
    requires n <= |x| && k <= |x|
    requires forall i :: 0 <= i < |x| ==> (x[i].ended < m <==> i < n)
    requires forall i :: 0 <= i < |x| ==> (x[i].ended < m <==> i < k)
    ensures n == k
  {
    assert n < |x| ==> x[n].ended >= m;
    assert k < |x| ==> x[k].ended >= m;
  }

  predicate AllBefore(log: seq<Event>, m: nat) {
    forall i :: 0 <= i < |log| ==> log[i].ended < m
  }

  predicate NoneBefore(log: seq<Event>, m: nat) {
    forall i :: 0 <= i < |log| ==> log[i].ended >= m
  }

  /** A sequence splits in one place where its entries pass `m`. */
  lemma SplitOnce(a: seq<Event>, b: seq<Event>, u: seq<Event>, v: seq<Event>, m: nat)
    requires a + b == u + v && AllBefore(a, m) && AllBefore(u, m) && NoneBefore(b, m) && NoneBefore(v, m)
    ensures a == u
  {
    OneCut(a + b, |a|, |u|, m);
    assert (a + b)[..|a|] == a && (u + v)[..|u|] == u;
  }

  ghost predicate AllTimely(log: seq<Event>) {
    forall e :: e in log ==> Timely(e)
  }

  lemma CallsBefore(log: seq<Event>, m: nat)
    requires AllTimely(log)
    ensures (forall i :: 0 <= i < |log| ==> Rank(log[i]) <= 2 * m) ==> AllBefore(Calls(log), m)
    ensures (forall i :: 0 <= i < |log| ==> Rank(log[i]) > 2 * m) ==> NoneBefore(Calls(log), m)
    ensures AllBefore(log, m) ==> AllBefore(Calls(log), m)
    ensures NoneBefore(log, m) ==> NoneBefore(Calls(log), m)
  {
    forall i | 0 <= i < |Calls(log)|
      ensures Calls(log)[i] in log && !Calls(log)[i].op.TouchOp? && Timely(Calls(log)[i])
    {
      CallsAre(log, Calls(log)[i]);
    }
  }

  lemma CallsCut(log: seq<Event>, p: nat)
    requires p <= |log|
    ensures Calls(log) == Calls(log[..p]) + Calls(log[p..])
  {
    CallsConcat(log[..p], log[p..]);
    Cut(log, p);
  }

  predicate RanksCut(order: seq<Event>, p: nat, r: nat)
    requires p <= |order|
  {
    (forall i :: 0 <= i < p ==> Rank(order[i]) <= r) && forall i :: p <= i < |order| ==> Rank(order[i]) > r
  }

  lemma RanksCutCalls(order: seq<Event>, p: nat, m: nat)
    requires AllTimely(order) && p <= |order| && RanksCut(order, p, 2 * m)
    ensures AllBefore(Calls(order[..p]), m) && NoneBefore(Calls(order[p..]), m)
  {
    CallsBefore(order[..p], m);
    CallsBefore(order[p..], m);
  }

  lemma LogCutCalls(log: seq<Event>, m: nat)
    requires AllTimely(log) && m <= |log| && forall i :: 0 <= i < |log| ==> log[i].ended == i
    ensures AllBefore(Calls(log[..m]), m) && NoneBefore(Calls(log[m..]), m)
  {
    CallsBefore(log[..m], m);
    CallsBefore(log[m..], m);
  }

  /** Cut where the flush found its rows, both hold the same other calls. */
  lemma SameCalls(order: seq<Event>, log: seq<Event>, p: nat, m: nat)
    requires Calls(order) == Calls(log) && AllTimely(order) && AllTimely(log) && p <= |order| && m <= |log|
    requires (forall i :: 0 <= i < |log| ==> log[i].ended == i) && RanksCut(order, p, 2 * m)
    ensures Calls(order[..p]) == Calls(log[..m])
  {
    CallsCut(order, p);
    CallsCut(log, m);
    RanksCutCalls(order, p, m);
    LogCutCalls(log, m);
    SplitOnce(Calls(order[..p]), Calls(order[p..]), Calls(log[..m]), Calls(log[m..]), m);
  }

  /** One serial run of exactly these calls, each answered as it was and every
      flush naming its rows where it stands, that leaves this registry and puts
      no call before one answered before it began. */
  ghost predicate Linear(init: Store, log: seq<Event>, order: seq<Event>, c: Store) {
    multiset(order) == multiset(log) && OneByOne(init, order) && c == LeftBy(init, order) && RealTime(order)
  }

  /** What the construction keeps besides. */
  ghost predicate Arranged(log: seq<Event>, order: seq<Event>) {
    InPlace(order) && Calls(order) == Calls(log) && AllTimely(order)
  }

  ghost predicate AllPlaced(init: Store, log: seq<Event>) {
    forall i {:trigger Placed(init, log, i)} :: 0 <= i < |log| ==> Placed(init, log, i)
  }

  lemma PlacedAreTimely(init: Store, log: seq<Event>)
    requires AllPlaced(init, log)
    ensures AllTimely(log) && forall i :: 0 <= i < |log| ==> log[i].ended == i
  {
    forall i | 0 <= i < |log|
      ensures Timely(log[i]) && log[i].ended == i
    {
      assert Placed(init, log, i);
    }
  }

  lemma PlacedPrefix(init: Store, log: seq<Event>, n: nat)
    requires AllPlaced(init, log) && n <= |log|
    ensures AllPlaced(init, log[..n])
  {
    forall i {:trigger Placed(init, log[..n], i)} | 0 <= i < n
      ensures Placed(init, log[..n], i)
    {
      assert Placed(init, log, i);
      assert log[..n][..log[i].from] == log[..log[i].from];
    }
  }

  /** The call that ends now ends after every other, and begins before it ends. */
  lemma LastIsTimely(order: seq<Event>, e: Event, n: nat)
    requires AllTimely(order) && e.ended == n && forall x :: x in order ==> x.ended < n
    ensures forall i :: 0 <= i < |order| ==> order[i].began <= e.ended && Rank(order[i]) < 2 * n
  {
    forall i | 0 <= i < |order|
      ensures order[i].began <= e.ended && Rank(order[i]) < 2 * n
    {
      assert order[i] in order;
      assert Timely(order[i]);
    }
  }

  lemma CallLast(log: seq<Event>, order: seq<Event>, e: Event)
    requires multiset(order) == multiset(log) && Arranged(log, order) && RealTime(order)
    requires Timely(e) && e.ended == |log| && !e.op.TouchOp? && forall x :: x in order ==> x.ended < |log|
    ensures multiset(order + [e]) == multiset(log + [e]) && Arranged(log + [e], order + [e]) && RealTime(order + [e])
  {
    LastIsTimely(order, e, |log|);
    CallsConcat(log, [e]);
    CallsConcat(order, [e]);
  }

  lemma PutKeepsPlace(order: seq<Event>, e: Event, p: nat)
    requires InPlace(order) && p <= |order|
    requires RanksCut(order, p, Rank(e))
    ensures InPlace(Put(order, p, e))
  {
  }

  /** Nothing put after the flush ended before it began. */
  lemma PutRealTime(order: seq<Event>, e: Event, p: nat)
    requires RealTime(order) && AllTimely(order) && Timely(e) && p <= |order|
    requires forall i :: 0 <= i < |order| ==> order[i].began <= e.ended
    requires e.op.TouchOp? && forall i :: p <= i < |order| ==> Rank(order[i]) > Rank(e)
    ensures RealTime(Put(order, p, e))
  {
    forall i | p <= i < |order|
      ensures e.began <= order[i].ended
    {
      assert order[i] in order;
      assert Timely(order[i]);
    }
  }

  lemma FlushIsNoCall(log: seq<Event>, e: Event)
    requires e.op.TouchOp?
    ensures Calls(log + [e]) == Calls(log)
  {
    assert (log + [e])[..|log|] == log;
  }

  lemma PutCalls(order: seq<Event>, e: Event, p: nat)
    requires p <= |order| && e.op.TouchOp?
    ensures Calls(Put(order, p, e)) == Calls(order)
  {
    CallsCut(order, p);
    FlushIsNoCall(order[..p], e);
    CallsConcat(order[..p] + [e], order[p..]);
  }

  lemma PutMembers(order: seq<Event>, e: Event, p: nat)
    requires p <= |order|
    ensures multiset(Put(order, p, e)) == multiset(order) + multiset{e}
  {
    assert order == order[..p] + order[p..];
  }

  lemma FlushInPlace(log: seq<Event>, order: seq<Event>, e: Event, p: nat)
    requires multiset(order) == multiset(log) && Arranged(log, order) && RealTime(order) && p <= |order|
    requires Timely(e) && e.ended == |log| && e.op.TouchOp? && forall x :: x in order ==> x.ended < |log|
    requires RanksCut(order, p, Rank(e))
    ensures multiset(Put(order, p, e)) == multiset(log + [e]) && Arranged(log + [e], Put(order, p, e)) && RealTime(Put(order, p, e))
  {
    LastIsTimely(order, e, |log|);
    PutKeepsPlace(order, e, p);
    PutRealTime(order, e, p);
    PutCalls(order, e, p);
    PutMembers(order, e, p);
    CallsConcat(log, [e]);
    assert forall x :: x in Put(order, p, e) <==> x == e || x in order;
  }

  /** A prefix of the run and one of the log that hold the same other calls name
      the same rows. */
  lemma NamedAtCut(init: Store, log: seq<Event>, order: seq<Event>, m: nat, p: nat, paths: seq<string>)
    requires Valid(init) && Runnable(init, OpsOf(log)) && OneByOne(init, order) && m <= |log| && p <= |order|
    requires Calls(order[..p]) == Calls(log[..m])
    ensures Named(LeftBy(init, order[..p]), paths) == Named(Run(init, OpsOf(log[..m])), paths)
  {
    PrefixRunnable(init, OpsOf(log), m);
    OpsSplit(log, m);
    OneByOneRuns(init, order, p);
    CallsName(init, order[..p], log[..m], paths);
  }

  /** A flush has its answer where it found its rows. */
  lemma FlushFits(init: Store, log: seq<Event>, order: seq<Event>, e: Event, p: nat)
    requires Valid(init) && Runnable(init, OpsOf(log)) && OneByOne(init, order) && Arranged(log, order) && AllPlaced(init, log)
    requires e.op.TouchOp? && e.answer == Touched && TouchOk(e.op.paths, e.op.at) && e.from <= |log|
    requires e.op.ids == Named(Run(init, OpsOf(log[..e.from])), e.op.paths) && p <= |order| && RanksCut(order, p, Rank(e))
    ensures Alone(LeftBy(init, order[..p]), e)
  {
    PlacedAreTimely(init, log);
    SameCalls(order, log, p, e.from);
    NamedAtCut(init, log, order, e.from, p, e.op.paths);
  }

  lemma FlushRuns(init: Store, log: seq<Event>, order: seq<Event>, e: Event, p: nat)
    requires Valid(init) && Runnable(init, OpsOf(log)) && OneByOne(init, order) && Arranged(log, order) && AllPlaced(init, log)
    requires e.op.TouchOp? && e.answer == Touched && TouchOk(e.op.paths, e.op.at) && e.from <= |log|
    requires e.op.ids == Named(Run(init, OpsOf(log[..e.from])), e.op.paths) && p <= |order| && RanksCut(order, p, Rank(e))
    ensures OneByOne(init, Put(order, p, e))
    ensures LeftBy(init, Put(order, p, e)) == TouchedStore(LeftBy(init, order), e.op.ids, e.op.at)
  {
    assert Alone(LeftBy(init, order[..p]), e) by {
      FlushFits(init, log, order, e, p);
    }
    FlushPutAt(init, order, p, e);
  }

  lemma LogSnoc(init: Store, log: seq<Event>, c: Store)
    requires Serial(init, log, c) && log != []
    ensures var n := |log| - 1;
      var before := Run(init, OpsOf(log[..n]));
      && log == log[..n] + [log[n]] && Serial(init, log[..n], before)
      && Ready(before, log[n].op) && Apply(before, log[n].op) == (log[n].answer, c)
  {
    var n := |log| - 1;
    assert log == log[..n] + [log[n]];
    PrefixRunnable(init, OpsOf(log), n);
    OpsSplit(log, n);
    ReadyAt(init, log, n);
    OpsExtend(log[..n], log[n]);
    RunSnoc(init, OpsOf(log[..n]), log[n].op);
    assert AnswerHolds(init, log, n);
    forall i | 0 <= i < n
      ensures AnswerHolds(init, log[..n], i)
    {
      assert AnswerHolds(init, log, i);
      assert log[..n][..i] == log[..i];
    }
  }

  lemma EndedBefore(init: Store, log: seq<Event>, order: seq<Event>)
    requires multiset(order) == multiset(log) && AllPlaced(init, log)
    ensures forall x :: x in order ==> x.ended < |log|
  {
    PlacedAreTimely(init, log);
    forall x | x in order
      ensures x.ended < |log|
    {
      assert x in multiset(order);
      assert x in log;
    }
  }

  /** Every log of a behaviour has such a run. */
  lemma {:induction false} Linearizes(init: Store, log: seq<Event>, c: Store) returns (order: seq<Event>)
    requires Valid(init) && Serial(init, log, c) && AllPlaced(init, log)
    ensures Linear(init, log, order, c) && Arranged(log, order)
  {
    if log == [] {
      order := [];
    } else {
      var n := |log| - 1;
      var e := log[n];
      var before := Run(init, OpsOf(log[..n]));
      LogSnoc(init, log, c);
      PlacedPrefix(init, log, n);
      order := Linearizes(init, log[..n], before);
      order := LinearizesNext(init, log, c, order);
    }
  }

  lemma IsLinear(init: Store, log: seq<Event>, order: seq<Event>, c: Store)
    requires multiset(order) == multiset(log) && OneByOne(init, order) && c == LeftBy(init, order) && RealTime(order)
    ensures Linear(init, log, order, c)
  {
  }

  lemma LinearizesFlush(init: Store, log: seq<Event>, order: seq<Event>, c: Store, e: Event, c': Store)
      returns (order': seq<Event>)
    requires Valid(init) && Runnable(init, OpsOf(log)) && AllPlaced(init, log) && Linear(init, log, order, c) && Arranged(log, order)
    requires e.op.TouchOp? && Timely(e) && e.ended == |log| && TouchOk(e.op.paths, e.op.at)
    requires e.op.ids == Named(Run(init, OpsOf(log[..e.from])), e.op.paths)
    requires e.answer == Touched && c' == TouchedStore(c, e.op.ids, e.op.at)
    ensures Linear(init, log + [e], order', c') && Arranged(log + [e], order')
  {
    EndedBefore(init, log, order);
    var p := Boundary(order, Rank(e));
    FlushRuns(init, log, order, e, p);
    FlushInPlace(log, order, e, p);
    IsLinear(init, log + [e], Put(order, p, e), c');
    order' := Put(order, p, e);
  }

  lemma LinearizesCall(init: Store, log: seq<Event>, order: seq<Event>, c: Store, e: Event, c': Store)
    requires AllPlaced(init, log) && Linear(init, log, order, c) && Arranged(log, order)
    requires !e.op.TouchOp? && Timely(e) && e.ended == |log| && Ready(c, e.op) && Apply(c, e.op) == (e.answer, c')
    ensures Linear(init, log + [e], order + [e], c') && Arranged(log + [e], order + [e])
  {
    EndedBefore(init, log, order);
    CallLast(log, order, e);
    OneByOneSnoc(init, order, e);
  }

  lemma LinearizesNext(init: Store, log: seq<Event>, c: Store, order: seq<Event>) returns (order': seq<Event>)
    requires Valid(init) && Serial(init, log, c) && AllPlaced(init, log) && log != []
    requires var n := |log| - 1; Linear(init, log[..n], order, Run(init, OpsOf(log[..n]))) && Arranged(log[..n], order)
    ensures Linear(init, log, order', c) && Arranged(log, order')
  {
    var n := |log| - 1;
    var e := log[n];
    var before := Run(init, OpsOf(log[..n]));
    LogSnoc(init, log, c);
    PlacedPrefix(init, log, n);
    assert Placed(init, log, n);
    if e.op.TouchOp? {
      assert log[..n][..e.from] == log[..e.from];
      order' := LinearizesFlush(init, log[..n], order, before, e, c);
    } else {
      LinearizesCall(init, log[..n], order, before, e, c);
      order' := order + [e];
    }
  }
}
