/** When two transactions can come to wait for each other's rows, in terms of the
    orders they lock them in: a sync locks its changed rows as declared, then the
    rows it archives as the engine scans them; a flush locks the rows it names as
    the engine scans them (src/write/sync.rs, src/write/touch.rs). */
module Deadlocks {
  import opened Behaviours
  import opened History
  import opened Interleaving
  import opened Operations
  import opened Outcome
  import opened Progress
  import opened Registry
  import opened RowLocks
  import opened Serializability
  import opened Snapshots

  ghost predicate FirstPlace(a: seq<Id>, b: seq<Id>, i: nat) {
    i <= |a| && (forall k :: 0 <= k < i ==> a[k] !in b) && (i < |a| ==> a[i] in b)
  }

  lemma {:induction false} FirstPlaceExists(a: seq<Id>, b: seq<Id>)
    ensures exists i: nat :: FirstPlace(a, b, i)
  {
    if a == [] || a[0] in b {
      assert FirstPlace(a, b, 0);
    } else {
      FirstPlaceExists(a[1..], b);
      var i: nat :| FirstPlace(a[1..], b, i);
      assert forall k :: 1 <= k < |a| ==> a[k] == a[1..][k - 1];
      assert FirstPlace(a, b, i + 1);
    }
  }

  /** Where `a` first meets `b`: the place of its first element that `b` has, or its
      length. */
  ghost function FirstIn(a: seq<Id>, b: seq<Id>): (i: nat)
    ensures FirstPlace(a, b, i)
  {
    FirstPlaceExists(a, b);
    var i: nat :| FirstPlace(a, b, i);
    i
  }

  /** The first row of `a` that `b` has too. */
  ghost function FirstShared(a: seq<Id>, b: seq<Id>): Option<Id> {
    if FirstIn(a, b) < |a| then Some(a[FirstIn(a, b)]) else None
  }

  ghost predicate BothWait(s: State, t: TxId, u: TxId) {
    WaitsFor(s, t, u) && WaitsFor(s, u, t)
  }

  lemma BothWaitIsDeadlock(s: State, t: TxId, u: TxId)
    requires t != u
    ensures Deadlocked(s, {t, u}) <==> BothWait(s, t, u)
  {
    assert WaitsFor(s, t, u) <==> WaitsAmong(s, {t, u}, t);
    assert WaitsFor(s, u, t) <==> WaitsAmong(s, {t, u}, u);
    assert t in {t, u} && u in {t, u};
  }

  // ---- Only if the orders differ ----

  /** A shared row locked already lies no later than the first row shared. */
  lemma SharedAndHeld(held: seq<Id>, a: seq<Id>, b: seq<Id>, row: Id)
    requires held <= a && row in held && row in b
    ensures FirstShared(a, b).Some? && FirstShared(a, b).value in held
  {
    var i :| 0 <= i < |held| && held[i] == row;
    assert FirstIn(a, b) <= i;
    assert held[FirstIn(a, b)] == a[FirstIn(a, b)];
  }

  lemma WaitedForIsShared(s: State, t: TxId, u: TxId)
    requires AllLocksOk(s) && WaitsFor(s, t, u)
    ensures var a, b := Script(s.live[u]), Script(s.live[t]);
      FirstShared(a, b).Some? && FirstShared(a, b).value in Held(s.live[u])
  {
    assert LocksOk(s.live[t]) && LocksOk(s.live[u]);
    HeldIsPrefix(s.live[t]);
    HeldIsPrefix(s.live[u]);
    SharedAndHeld(Held(s.live[u]), Script(s.live[u]), Script(s.live[t]), Wants(s.live[t]).value);
  }

  lemma ApartHold(a: Txn, b: Txn, row: Id)
    requires Apart(a, b) && row in Held(a)
    ensures row !in Held(b)
  {
    assert row in HeldRows(a);
  }

  /** In any state of any behaviour, two transactions wait for each other only if
      each comes first to another of the rows they share. */
  lemma CircleNeedsTwoOrders(init: Store, b: seq<State>, k: nat, t: TxId, u: TxId)
    requires Behaviour(init, b) && k < |b| && BothWait(b[k], t, u)
    ensures var x, y := Script(b[k].live[t]), Script(b[k].live[u]);
      FirstShared(x, y).Some? && FirstShared(y, x).Some? && FirstShared(x, y) != FirstShared(y, x)
  {
    BehaviourKeeps(init, b, k);
    BehaviourLocks(init, b, k);
    WaitedForIsShared(b[k], t, u);
    WaitedForIsShared(b[k], u, t);
    ApartHold(b[k].live[t], b[k].live[u], FirstShared(Script(b[k].live[t]), Script(b[k].live[u])).value);
  }

  /** In any state of any behaviour where nobody can go on, some wait in a circle
      for each other's rows. */
  lemma StuckOnRows(init: Store, b: seq<State>, k: nat) returns (among: set<TxId>)
    requires Behaviour(init, b) && k < |b| && Stuck(b[k])
    ensures Deadlocked(b[k], among)
  {
    BehaviourKeeps(init, b, k);
    among := StuckIsDeadlocked(init, b[k]);
  }

  /** And in any state, so do some of those who wait in a circle for anything. */
  lemma OnlyRowsDeadlock(init: Store, b: seq<State>, k: nat, among: set<TxId>) returns (core: set<TxId>)
    requires Behaviour(init, b) && k < |b| && Circular(b[k], among)
    ensures core <= among && Deadlocked(b[k], core)
  {
    BehaviourKeeps(init, b, k);
    core := CirclesAreOfRows(init, b[k], among);
  }

  /** Which never happens while all take their rows in one order. */
  lemma OneOrderNeverDeadlocks(init: Store, b: seq<State>, k: nat, rank: Id -> int, among: set<TxId>)
    requires Behaviour(init, b) && k < |b| && InOrder(b[k], rank)
    ensures !Circular(b[k], among)
  {
    if Circular(b[k], among) {
      BehaviourLocks(init, b, k);
      var core := OnlyRowsDeadlock(init, b, k, among);
      OrderedNeverDeadlock(b[k], rank, core);
    }
  }

  // ---- And then it can happen ----

  ghost function Now(b: seq<State>): State
    requires b != []
  {
    b[|b| - 1]
  }

  /** `b'` goes on from `b`. */
  ghost predicate Continues(init: Store, b: seq<State>, b': seq<State>) {
    Behaviour(init, b) && Behaviour(init, b') && b <= b'
  }

  lemma StepOf(b: seq<State>, s': State, i: nat)
    requires b != [] && i < |b| && (i < |b| - 1 ==> StepAt(b, i)) && Next(Now(b), s')
    ensures StepAt(b + [s'], i)
  {
    var b' := b + [s'];
    assert b'[i] == b[i] && b'[i + 1] == if i < |b| - 1 then b[i + 1] else s';
  }

  ghost predicate AllSteps(b: seq<State>) {
    forall i {:trigger StepAt(b, i)} :: 0 <= i < |b| - 1 ==> StepAt(b, i)
  }

  lemma MovesOn(b: seq<State>, s': State)
    requires b != [] && AllSteps(b) && Next(Now(b), s')
    ensures AllSteps(b + [s'])
  {
    forall i: nat {:trigger StepAt(b + [s'], i)} | i < |b|
      ensures StepAt(b + [s'], i)
    {
      StepOf(b, s', i);
    }
  }

  lemma StillBehaviour(init: Store, b: seq<State>, b': seq<State>)
    requires Behaviour(init, b) && b <= b' && AllSteps(b')
    ensures Behaviour(init, b')
  {
    assert b'[0] == b[0];
  }

  lemma Then(init: Store, b: seq<State>, s': State)
    requires Behaviour(init, b) && Next(Now(b), s')
    ensures Continues(init, b, b + [s']) && Now(b + [s']) == s'
  {
    MovesOn(b, s');
    StillBehaviour(init, b, b + [s']);
  }

  /** The same call, with the same snapshot and the same rows to lock. */
  ghost predicate SameScript(a: Txn, b: Txn) {
    OpOf(a) == OpOf(b) && Script(a) == Script(b) && ChecksOf(a) == ChecksOf(b) && SnapshotOf(a) == SnapshotOf(b)
  }

  /** No row it is to change, among its first `n` locks, has changed since it read
      its rows. */
  ghost predicate Current(s: State, t: TxId, n: nat)
    requires t in s.live
  {
    forall i {:trigger StaleAt(s.committed, s.live[t], i)} :: 0 <= i < n ==> !StaleAt(s.committed, s.live[t], i)
  }

  /** Between the two states only `t` acted, and it ended nothing. */
  ghost predicate OnlyLocks(s: State, s': State, t: TxId) {
    && OnlyActs(s, s', t) && t in s.live && t in s'.live && s'.log == s.log && s'.committed == s.committed
    && s'.failed == s.failed && Locks(s.live[t]) && Locks(s'.live[t]) && SameScript(s'.live[t], s.live[t])
  }

  lemma StaysCurrent(s: State, s': State, t: TxId, n: nat)
    requires t in s.live && t in s'.live && SameScript(s'.live[t], s.live[t]) && s'.committed == s.committed && Current(s, t, n)
    ensures Current(s', t, n)
  {
    forall i {:trigger StaleAt(s'.committed, s'.live[t], i)} | 0 <= i < n
      ensures !StaleAt(s'.committed, s'.live[t], i)
    {
      assert !StaleAt(s.committed, s.live[t], i);
    }
  }

  ghost predicate Goes(init: Store, b: seq<State>, b': seq<State>, t: TxId) {
    Continues(init, b, b') && OnlyLocks(Now(b), Now(b'), t)
  }

  lemma GoesOnward(init: Store, b: seq<State>, c: seq<State>, d: seq<State>, t: TxId)
    requires Goes(init, b, c, t) && Goes(init, c, d, t)
    ensures Goes(init, b, d, t)
  {
  }

  lemma Stepped(init: Store, b: seq<State>, t: TxId, txn: Txn)
    requires Behaviour(init, b) && t in Now(b).live && Steps(Now(b), To(Now(b), t, txn), t)
    requires Locks(Now(b).live[t]) && Locks(txn) && SameScript(txn, Now(b).live[t])
    ensures Goes(init, b, b + [To(Now(b), t, txn)], t)
  {
    assert Acts(Now(b), To(Now(b), t, txn), t);
    Then(init, b, To(Now(b), t, txn));
  }

  lemma NotAllWritten(txn: Txn)
    requires Locks(txn) && LocksOk(txn) && Wants(txn).None? && |Held(txn)| < |Script(txn)|
    ensures txn.SyncTxn? && txn.sync.done < |txn.sync.ws| && SameScript(Wrote(txn), txn)
  {
    WroteOk(txn);
  }

  lemma WriteComesNext(init: Store, b: seq<State>, t: TxId)
    requires Behaviour(init, b) && t in Now(b).live && Locks(Now(b).live[t])
    requires |Held(Now(b).live[t])| < |Script(Now(b).live[t])| && Wants(Now(b).live[t]).None?
    ensures var txn := Now(b).live[t];
      && txn.SyncTxn? && txn.sync.done < |txn.sync.ws| && SameScript(Wrote(txn), txn)
      && Steps(Now(b), To(Now(b), t, Wrote(txn)), t)
  {
    BehaviourKeeps(init, b, |b| - 1);
    BehaviourLocks(init, b, |b| - 1);
    assert LocksOk(Now(b).live[t]);
    NotAllWritten(Now(b).live[t]);
    WriteSteps(init, Now(b), t);
  }

  /** A sync whose statement has its rows locked executes it. */
  lemma Writes(init: Store, b: seq<State>, t: TxId) returns (b': seq<State>)
    requires Behaviour(init, b) && t in Now(b).live && Locks(Now(b).live[t])
    requires |Held(Now(b).live[t])| < |Script(Now(b).live[t])| && Wants(Now(b).live[t]).None?
    ensures Goes(init, b, b', t) && Now(b).live[t].SyncTxn? && Now(b').live[t] == Wrote(Now(b).live[t])
    ensures Now(b).live[t].sync.done < |Now(b).live[t].sync.ws|
  {
    WriteComesNext(init, b, t);
    Stepped(init, b, t, Wrote(Now(b).live[t]));
    b' := b + [To(Now(b), t, Wrote(Now(b).live[t]))];
  }

  /** A transaction with rows left to lock comes to the next of them, executing the
      statements that lock none on the way. */
  lemma {:induction false} Settles(init: Store, b: seq<State>, t: TxId) returns (b': seq<State>)
    requires Behaviour(init, b) && t in Now(b).live && Locks(Now(b).live[t])
    requires |Held(Now(b).live[t])| < |Script(Now(b).live[t])|
    ensures Goes(init, b, b', t)
    ensures Held(Now(b').live[t]) == Held(Now(b).live[t]) && Wants(Now(b').live[t]).Some?
    decreases if Now(b).live[t].SyncTxn? then |Now(b).live[t].sync.ws| - Now(b).live[t].sync.done else 0
  {
    b' := b;
    if Wants(Now(b).live[t]).None? {
      var written := Writes(init, b, t);
      b' := Settles(init, written, t);
      GoesOnward(init, b, written, b', t);
    }
  }

  /** The next row, nobody else having it locked and none having changed it, is
      locked. */
  lemma Takes(init: Store, b: seq<State>, t: TxId) returns (b': seq<State>)
    requires Behaviour(init, b) && t in Now(b).live && Locks(Now(b).live[t])
    requires Wants(Now(b).live[t]).Some? && RowFree(Now(b), t, Wants(Now(b).live[t]).value)
    requires !Stale(Now(b).committed, Now(b).live[t], Wants(Now(b).live[t]).value)
    ensures Goes(init, b, b', t)
    ensures Held(Now(b').live[t]) == Held(Now(b).live[t]) + [Wants(Now(b).live[t]).value]
  {
    var txn, row := Now(b).live[t], Wants(Now(b).live[t]).value;
    var next := if txn.SyncTxn? then txn.(sync := Took(txn.sync, row))
                else txn.(touch := Scanned(txn.touch, row, Now(b).committed, txn.at));
    Stepped(init, b, t, next);
    b' := b + [To(Now(b), t, next)];
  }

  lemma StaysFree(s: State, s': State, t: TxId, row: Id)
    requires OnlyLocks(s, s', t) && RowFree(s, t, row)
    ensures RowFree(s', t, row)
  {
  }

  lemma SettlesAt(init: Store, b: seq<State>, t: TxId) returns (b': seq<State>)
    requires Behaviour(init, b) && t in Now(b).live && Locks(Now(b).live[t])
    requires |Held(Now(b).live[t])| < |Script(Now(b).live[t])|
    ensures Goes(init, b, b', t) && Held(Now(b').live[t]) == Held(Now(b).live[t])
    ensures var txn := Now(b).live[t];
      Held(txn) == Script(txn)[..|Held(txn)|] && Wants(Now(b').live[t]) == Some(Script(txn)[|Held(txn)|])
    ensures var txn := Now(b').live[t];
      Stale(Now(b').committed, txn, Wants(txn).value) <==> StaleAt(Now(b').committed, txn, |Held(txn)|)
  {
    b' := Settles(init, b, t);
    Settled(init, b', t);
  }

  lemma Settled(init: Store, b: seq<State>, t: TxId)
    requires Behaviour(init, b) && t in Now(b).live && Wants(Now(b).live[t]).Some?
    ensures var txn := Now(b).live[t];
      |Held(txn)| < |Script(txn)| && Held(txn) == Script(txn)[..|Held(txn)|] && Wants(txn).value == Script(txn)[|Held(txn)|]
      && (Stale(Now(b).committed, txn, Wants(txn).value) <==> StaleAt(Now(b).committed, txn, |Held(txn)|))
  {
    BehaviourLocks(init, b, |b| - 1);
    assert LocksOk(Now(b).live[t]);
    HeldIsPrefix(Now(b).live[t]);
    StaleIsNext(Now(b).committed, Now(b).live[t]);
  }

  /** A transaction can go on to any row it will lock, if nobody else has locked
      those before it and none it is to change has changed. */
  lemma {:induction false} Advances(init: Store, b: seq<State>, t: TxId, n: nat) returns (b': seq<State>)
    requires Behaviour(init, b) && t in Now(b).live && Locks(Now(b).live[t])
    requires |Held(Now(b).live[t])| <= n < |Script(Now(b).live[t])|
    requires forall i :: |Held(Now(b).live[t])| <= i < n ==> RowFree(Now(b), t, Script(Now(b).live[t])[i])
    requires Current(Now(b), t, n)
    ensures Goes(init, b, b', t)
    ensures Held(Now(b').live[t]) == Script(Now(b).live[t])[..n]
    ensures Wants(Now(b').live[t]) == Some(Script(Now(b).live[t])[n])
    decreases n - |Held(Now(b).live[t])|
  {
    b' := SettlesAt(init, b, t);
    if |Held(Now(b).live[t])| < n {
      StaysFree(Now(b), Now(b'), t, Script(Now(b).live[t])[|Held(Now(b).live[t])|]);
      StaysCurrent(Now(b), Now(b'), t, n);
      assert !StaleAt(Now(b').committed, Now(b').live[t], |Held(Now(b').live[t])|);
      var taken := Takes(init, b', t);
      GoesOnward(init, b, b', taken, t);
      StaysCurrent(Now(b), Now(taken), t, n);
      b' := Advances(init, taken, t, n);
      GoesOnward(init, b, taken, b', t);
    }
  }

  /** Nobody but these two has locked a row either of them will. */
  ghost predicate RowsOpen(s: State, t: TxId, u: TxId)
    requires t in s.live && u in s.live
  {
    forall v, row :: v in s.live && v != t && v != u && row in Held(s.live[v]) ==>
      row !in Script(s.live[t]) && row !in Script(s.live[u])
  }

  lemma OpenRow(s: State, t: TxId, u: TxId, row: Id)
    requires t in s.live && u in s.live && RowsOpen(s, t, u) && row in Script(s.live[t]) && row !in Held(s.live[u])
    ensures RowFree(s, t, row)
  {
  }

  lemma StaysOpen(s: State, s': State, t: TxId, u: TxId)
    requires t != u && t in s.live && u in s.live && OnlyLocks(s, s', t) && RowsOpen(s, t, u)
    ensures u in s'.live && s'.live[u] == s.live[u] && RowsOpen(s', t, u) && RowsOpen(s', u, t)
  {
  }

  /** What a transaction has locked comes before the first of its rows that
      another has. */
  lemma NotYetThere(s: State, t: TxId, u: TxId)
    requires t in s.live && u in s.live && LocksOk(s.live[t]) && Apart(s.live[t], s.live[u])
    ensures |Held(s.live[t])| <= FirstIn(Script(s.live[t]), Held(s.live[u]))
  {
    var m := FirstIn(Script(s.live[t]), Held(s.live[u]));
    HeldIsPrefix(s.live[t]);
    if m < |Held(s.live[t])| {
      assert Held(s.live[t])[m] == Script(s.live[t])[m];
      ApartHold(s.live[t], s.live[u], Held(s.live[t])[m]);
    }
  }

  /** Up to the first of its rows that the other has, nothing is in its way. */
  lemma WayIsClear(init: Store, b: seq<State>, t: TxId, u: TxId)
    requires Behaviour(init, b) && t != u && t in Now(b).live && u in Now(b).live && RowsOpen(Now(b), t, u)
    ensures var a, m := Script(Now(b).live[t]), FirstIn(Script(Now(b).live[t]), Held(Now(b).live[u]));
      && |Held(Now(b).live[t])| <= m && Held(Now(b).live[t]) <= a[..m]
      && forall i :: |Held(Now(b).live[t])| <= i < m ==> RowFree(Now(b), t, a[i])
  {
    var a, m := Script(Now(b).live[t]), FirstIn(Script(Now(b).live[t]), Held(Now(b).live[u]));
    AllApart(init, b, t, u);
    NotYetThere(Now(b), t, u);
    HeldIsPrefix(Now(b).live[t]);
    forall i | |Held(Now(b).live[t])| <= i < m
      ensures RowFree(Now(b), t, a[i])
    {
      OpenRow(Now(b), t, u, a[i]);
    }
  }

  lemma AllApart(init: Store, b: seq<State>, t: TxId, u: TxId)
    requires Behaviour(init, b) && t != u && t in Now(b).live && u in Now(b).live
    ensures LocksOk(Now(b).live[t]) && Apart(Now(b).live[t], Now(b).live[u])
  {
    BehaviourKeeps(init, b, |b| - 1);
    BehaviourLocks(init, b, |b| - 1);
  }

  /** Who will need a row that another has locked goes on until it waits for it. */
  lemma RunsInto(init: Store, b: seq<State>, t: TxId, u: TxId, row: Id) returns (b': seq<State>)
    requires Behaviour(init, b) && t != u && t in Now(b).live && u in Now(b).live && Locks(Now(b).live[t])
    requires RowsOpen(Now(b), t, u) && row in Script(Now(b).live[t]) && row in Held(Now(b).live[u])
    requires Current(Now(b), t, FirstIn(Script(Now(b).live[t]), Held(Now(b).live[u])))
    ensures Goes(init, b, b', t) && WaitsFor(Now(b'), t, u)
    ensures Held(Now(b').live[t]) == Script(Now(b).live[t])[..FirstIn(Script(Now(b).live[t]), Held(Now(b).live[u]))]
    ensures Held(Now(b).live[t]) <= Held(Now(b').live[t])
  {
    WayIsClear(init, b, t, u);
    b' := Advances(init, b, t, FirstIn(Script(Now(b).live[t]), Held(Now(b).live[u])));
  }

  /** Two transactions with their rows still to lock. */
  ghost predicate AboutToLock(s: State, t: TxId, u: TxId) {
    && t != u && t in s.live && u in s.live && Locks(s.live[t]) && Locks(s.live[u])
    && Held(s.live[t]) == [] && Held(s.live[u]) == [] && RowsOpen(s, t, u)
  }

  /** Those two in a circle, nothing answered since. */
  ghost predicate Circle(s: State, s': State, t: TxId, u: TxId)
    requires t in s.live && u in s.live
  {
    BothWait(s', t, u) && s'.log == s.log && SameScript(s'.live[t], s.live[t]) && SameScript(s'.live[u], s.live[u])
  }

  /** Each list comes first to another of the elements they share. */
  ghost predicate Crossed(x: seq<Id>, y: seq<Id>) {
    FirstShared(x, y) != FirstShared(y, x)
  }

  /** How far along `x` the two first meet: at an element of `y` that comes before
      the first of `x` that `y` has. */
  ghost function Meeting(x: seq<Id>, y: seq<Id>): nat {
    if FirstIn(x, y) == |x| then |x| else FirstIn(x, y[..FirstIn(y, [x[FirstIn(x, y)]])])
  }

  lemma SharedBothWays(x: seq<Id>, y: seq<Id>)
    ensures FirstShared(x, y).Some? <==> FirstShared(y, x).Some?
  {
    if FirstIn(x, y) < |x| {
      assert x[FirstIn(x, y)] in x;
    }
    if FirstIn(y, x) < |y| {
      assert y[FirstIn(y, x)] in y;
    }
  }

  lemma FirstBeforeMeeting(x: seq<Id>, y: seq<Id>)
    requires Crossed(x, y)
    ensures FirstShared(x, y).Some? && FirstShared(y, x).Some? && FirstIn(x, y) + 1 <= Meeting(x, y) && FirstIn(x, y) + 1 < |x|
  {
    SharedBothWays(x, y);
    MoreToCome(x, y);
    var i := FirstIn(x, y);
    assert forall k :: 0 <= k <= i ==> x[k] !in y[..FirstIn(y, [x[i]])];
  }

  lemma MoreToCome(x: seq<Id>, y: seq<Id>)
    requires Crossed(x, y) && FirstShared(x, y).Some? && FirstShared(y, x).Some?
    ensures FirstIn(x, y) + 1 < |x|
  {
    var k :| 0 <= k < |x| && x[k] == FirstShared(y, x).value;
    assert FirstIn(x, y) < k;
  }

  lemma RowsAreFree(s: State, t: TxId, u: TxId, n: nat)
    requires AboutToLock(s, t, u) && n <= |Script(s.live[t])|
    ensures forall i :: 0 <= i < n ==> RowFree(s, t, Script(s.live[t])[i])
  {
    forall i | 0 <= i < n
      ensures RowFree(s, t, Script(s.live[t])[i])
    {
      OpenRow(s, t, u, Script(s.live[t])[i]);
    }
  }

  /** Each of these comes first to another of the rows they share. */
  ghost predicate TwoOrders(s: State, t: TxId, u: TxId)
    requires t in s.live && u in s.live
  {
    Crossed(Script(s.live[t]), Script(s.live[u]))
  }

  /** No row `t` is to change before it meets `u` has changed since it read. */
  ghost predicate ClearTo(s: State, t: TxId, u: TxId)
    requires t in s.live && u in s.live
  {
    Current(s, t, Meeting(Script(s.live[t]), Script(s.live[u])))
  }

  /** One locks its rows as far as the first they share. */
  lemma LocksFirst(init: Store, b: seq<State>, t: TxId, u: TxId) returns (b': seq<State>)
    requires Behaviour(init, b) && AboutToLock(Now(b), t, u) && TwoOrders(Now(b), t, u) && ClearTo(Now(b), t, u)
    ensures Goes(init, b, b', t)
    ensures Held(Now(b').live[t]) == Script(Now(b).live[t])[..FirstIn(Script(Now(b).live[t]), Script(Now(b).live[u])) + 1]
  {
    var x, y := Script(Now(b).live[t]), Script(Now(b).live[u]);
    FirstBeforeMeeting(x, y);
    RowsAreFree(Now(b), t, u, FirstIn(x, y) + 1);
    b' := Advances(init, b, t, FirstIn(x, y) + 1);
  }

  lemma LockedUpTo(x: seq<Id>, i: nat)
    requires i < |x|
    ensures x[i] in x[..i + 1]
  {
    assert x[..i + 1][i] == x[i];
  }

  /** Of a list that comes first to another row than the other, what precedes the
      other's first shared row has its own, and that is as far as it gets. */
  lemma OwnFirstIsBefore(x: seq<Id>, y: seq<Id>, m: nat)
    requires Crossed(x, y) && FirstShared(x, y).Some? && FirstShared(y, x).Some?
    requires m == FirstIn(y, x[..FirstIn(x, y) + 1])
    ensures FirstIn(x, y) + 1 <= |x| && m <= |y| && FirstShared(y, x).value in y[..m]
    ensures FirstIn(x, y[..m]) == Meeting(x, y)
  {
    var i, j := FirstIn(x, y), FirstIn(y, x);
    assert y[j] in y && y[j] !in x[..i + 1];
    assert forall k :: 0 <= k < j ==> y[k] !in x[..i + 1];
    assert y[..m][j] == y[j];
    assert forall k :: 0 <= k < |y| ==> (y[k] in x[..i + 1] <==> y[k] == x[i]);
    assert m == FirstIn(y, [x[i]]);
  }

  /** The more it locks, the more it is waited for. */
  lemma StaysWaiting(s: State, s': State, t: TxId, u: TxId)
    requires OnlyLocks(s, s', t) && WaitsFor(s, u, t) && Held(s.live[t]) <= Held(s'.live[t])
    ensures WaitsFor(s', u, t)
  {
  }

  /** One of the two waits for the other, which has only to go on to where they
      meet. */
  ghost predicate Halfway(s: State, t: TxId, u: TxId) {
    && t != u && t in s.live && u in s.live && Locks(s.live[t]) && RowsOpen(s, t, u) && WaitsFor(s, u, t)
    && var x, y := Script(s.live[t]), Script(s.live[u]);
       && FirstShared(y, x).Some? && FirstShared(y, x).value in Held(s.live[u])
       && FirstIn(x, Held(s.live[u])) == Meeting(x, y)
  }

  /** One of the two has locked its rows as far as the first they share, and the
      other, a flush, has yet to lock any they share. */
  ghost predicate AtFirst(s: State, t: TxId, u: TxId) {
    && t != u && t in s.live && u in s.live && Locks(s.live[t]) && Locks(s.live[u]) && !s.live[u].SyncTxn?
    && RowsOpen(s, u, t) && TwoOrders(s, t, u)
    && Held(s.live[t]) == Script(s.live[t])[..FirstIn(Script(s.live[t]), Script(s.live[u])) + 1]
  }

  lemma IsHalfway(s: State, s': State, t: TxId, u: TxId)
    requires AtFirst(s, t, u) && OnlyLocks(s, s', u) && WaitsFor(s', u, t)
    requires Held(s'.live[u]) == Script(s.live[u])[..FirstIn(Script(s.live[u]), Held(s.live[t]))]
    ensures Halfway(s', t, u)
  {
    var x, y := Script(s.live[t]), Script(s.live[u]);
    FirstBeforeMeeting(x, y);
    OwnFirstIsBefore(x, y, FirstIn(y, Held(s.live[t])));
    StaysOpen(s, s', u, t);
  }

  lemma FirstIsHeld(s: State, t: TxId, u: TxId)
    requires AtFirst(s, t, u)
    ensures var x, y := Script(s.live[t]), Script(s.live[u]);
      FirstIn(x, y) < |x| && x[FirstIn(x, y)] in y && x[FirstIn(x, y)] in Held(s.live[t])
  {
    FirstBeforeMeeting(Script(s.live[t]), Script(s.live[u]));
    LockedUpTo(Script(s.live[t]), FirstIn(Script(s.live[t]), Script(s.live[u])));
  }

  /** The other then runs into that row, its own first shared row locked before. */
  lemma OtherRunsInto(init: Store, b: seq<State>, t: TxId, u: TxId) returns (b': seq<State>)
    requires Behaviour(init, b) && AtFirst(Now(b), t, u)
    ensures Goes(init, b, b', u) && Halfway(Now(b'), t, u)
  {
    FirstIsHeld(Now(b), t, u);
    b' := RunsInto(init, b, u, t, Script(Now(b).live[t])[FirstIn(Script(Now(b).live[t]), Script(Now(b).live[u]))]);
    IsHalfway(Now(b), Now(b'), t, u);
  }

  lemma ClosesCircle(init: Store, b: seq<State>, t: TxId, u: TxId, row: Id) returns (b': seq<State>)
    requires Behaviour(init, b) && t != u && t in Now(b).live && u in Now(b).live && Locks(Now(b).live[t])
    requires RowsOpen(Now(b), t, u) && row in Script(Now(b).live[t]) && row in Held(Now(b).live[u])
    requires WaitsFor(Now(b), u, t) && Current(Now(b), t, FirstIn(Script(Now(b).live[t]), Held(Now(b).live[u])))
    ensures Goes(init, b, b', t) && BothWait(Now(b'), t, u)
  {
    b' := RunsInto(init, b, t, u, row);
    StaysWaiting(Now(b), Now(b'), t, u);
  }

  lemma IsAtFirst(s: State, s': State, t: TxId, u: TxId)
    requires AboutToLock(s, t, u) && TwoOrders(s, t, u) && !s.live[u].SyncTxn? && OnlyLocks(s, s', t)
    requires Held(s'.live[t]) == Script(s.live[t])[..FirstIn(Script(s.live[t]), Script(s.live[u])) + 1]
    ensures AtFirst(s', t, u)
  {
    StaysOpen(s, s', t, u);
  }

  lemma LocksFirstBeside(init: Store, b: seq<State>, t: TxId, u: TxId) returns (b': seq<State>)
    requires Behaviour(init, b) && AboutToLock(Now(b), t, u) && TwoOrders(Now(b), t, u) && ClearTo(Now(b), t, u)
    requires !Now(b).live[u].SyncTxn?
    ensures Goes(init, b, b', t) && AtFirst(Now(b'), t, u)
  {
    FirstBeforeMeeting(Script(Now(b).live[t]), Script(Now(b).live[u]));
    b' := LocksFirst(init, b, t, u);
    IsAtFirst(Now(b), Now(b'), t, u);
  }

  /** Both are still the calls they were, and nothing has been answered. */
  ghost predicate Unanswered(s: State, s': State, t: TxId, u: TxId) {
    && t in s.live && u in s.live && t in s'.live && u in s'.live && Locks(s'.live[t])
    && SameScript(s'.live[t], s.live[t]) && SameScript(s'.live[u], s.live[u])
    && s'.log == s.log && s'.committed == s.committed
  }

  lemma BothWent(init: Store, b: seq<State>, c: seq<State>, d: seq<State>, t: TxId, u: TxId)
    requires Goes(init, b, c, t) && Goes(init, c, d, u) && t != u && u in Now(b).live
    ensures Continues(init, b, d) && Unanswered(Now(b), Now(d), t, u)
  {
  }

  /** Up to where only the first of the two is still on its way. */
  lemma HalfCircle(init: Store, b: seq<State>, t: TxId, u: TxId) returns (b': seq<State>)
    requires Behaviour(init, b) && AboutToLock(Now(b), t, u) && TwoOrders(Now(b), t, u) && ClearTo(Now(b), t, u)
    requires !Now(b).live[u].SyncTxn?
    ensures Continues(init, b, b') && Unanswered(Now(b), Now(b'), t, u) && Halfway(Now(b'), t, u)
  {
    var c := LocksFirstBeside(init, b, t, u);
    b' := OtherRunsInto(init, c, t, u);
    BothWent(init, b, c, b', t, u);
  }

  lemma CircleForms(init: Store, b: seq<State>, t: TxId, u: TxId) returns (b': seq<State>)
    requires Behaviour(init, b) && AboutToLock(Now(b), t, u) && TwoOrders(Now(b), t, u) && ClearTo(Now(b), t, u)
    requires !Now(b).live[u].SyncTxn?
    ensures Continues(init, b, b') && Circle(Now(b), Now(b'), t, u)
  {
    var d := HalfCircle(init, b, t, u);
    StaysCurrent(Now(b), Now(d), t, Meeting(Script(Now(b).live[t]), Script(Now(b).live[u])));
    b' := ClosesCircle(init, d, t, u, FirstShared(Script(Now(d).live[u]), Script(Now(d).live[t])).value);
  }

  ghost predicate CanCircle(init: Store, b: seq<State>, t: TxId, u: TxId)
    requires b != [] && t in Now(b).live && u in Now(b).live
  {
    exists b' :: Continues(init, b, b') && Circle(Now(b), Now(b'), t, u)
  }

  /** Only one sync at a time writes: the sentinel row is its own. */
  lemma OneSyncWrites(init: Store, b: seq<State>, t: TxId, u: TxId)
    requires Behaviour(init, b) && AboutToLock(Now(b), t, u)
    ensures !(Now(b).live[t].SyncTxn? && Now(b).live[u].SyncTxn?)
  {
    BehaviourKeeps(init, b, |b| - 1);
    if Now(b).live[t].SyncTxn? && Now(b).live[u].SyncTxn? {
      SyncOkOf(init, Now(b), t);
      SyncOkOf(init, Now(b), u);
    }
  }

  lemma EitherOrder(s: State, t: TxId, u: TxId)
    requires AboutToLock(s, t, u)
    ensures AboutToLock(s, u, t) && (TwoOrders(s, t, u) <==> TwoOrders(s, u, t))
    ensures forall s' :: Circle(s, s', t, u) <==> Circle(s, s', u, t)
  {
  }

  lemma CircleCan(init: Store, b: seq<State>, t: TxId, u: TxId)
    requires Behaviour(init, b) && AboutToLock(Now(b), t, u) && TwoOrders(Now(b), t, u)
    requires ClearTo(Now(b), t, u) && ClearTo(Now(b), u, t)
    ensures CanCircle(init, b, t, u)
  {
    OneSyncWrites(init, b, t, u);
    EitherOrder(Now(b), t, u);
    if Now(b).live[u].SyncTxn? {
      var b' := CircleForms(init, b, u, t);
      assert Circle(Now(b), Now(b'), t, u);
    } else {
      var b' := CircleForms(init, b, t, u);
    }
  }

  lemma CircleHadTwoOrders(init: Store, s: State, b: seq<State>, t: TxId, u: TxId)
    requires Behaviour(init, b) && t in s.live && u in s.live && Circle(s, Now(b), t, u)
    ensures TwoOrders(s, t, u)
  {
    CircleNeedsTwoOrders(init, b, |b| - 1, t, u);
  }

  /** Two that wait for each other have both got as far as they first meet. */
  lemma PastMeeting(x: seq<Id>, y: seq<Id>, a: nat, c: nat)
    requires a < |x| && c < |y| && x[a] in y[..c] && y[c] in x[..a] && forall r :: r in x[..a] ==> r !in y[..c]
    ensures Meeting(x, y) <= a
  {
    SharedAndHeld(x[..a], x, y, y[c]);
    var f := x[FirstIn(x, y)];
    assert f in x[..a];
    forall k | 0 <= k < c
      ensures y[k] != f
    {
      assert y[..c][k] == y[k];
    }
    assert y[..c] <= y[..FirstIn(y, [f])];
    var k :| 0 <= k < c && y[k] == x[a];
    assert y[..FirstIn(y, [f])][k] == x[a];
  }

  lemma WaitersArePast(s: State, t: TxId, u: TxId)
    requires BothWait(s, t, u) && LocksOk(s.live[t]) && LocksOk(s.live[u]) && Apart(s.live[t], s.live[u])
    ensures Meeting(Script(s.live[t]), Script(s.live[u])) <= |Held(s.live[t])|
  {
    var txn, other := s.live[t], s.live[u];
    HeldIsPrefix(txn);
    HeldIsPrefix(other);
    assert Script(txn)[..|Held(txn)|] == Held(txn) && Script(other)[..|Held(other)|] == Held(other);
    forall r | r in Held(txn)
      ensures r !in Held(other)
    {
      ApartHold(txn, other, r);
    }
    PastMeeting(Script(txn), Script(other), |Held(txn)|, |Held(other)|);
  }

  lemma HeldIsCurrent(init: Store, b: seq<State>, t: TxId, n: nat)
    requires Behaviour(init, b) && t in Now(b).live && n <= |Held(Now(b).live[t])|
    ensures Current(Now(b), t, n)
  {
    BehaviourSnapshots(init, b, |b| - 1);
    assert LockedAlike(Now(b).committed, Now(b).live[t]);
  }

  lemma CircleWasClear(init: Store, b: seq<State>, t: TxId, u: TxId)
    requires Behaviour(init, b) && BothWait(Now(b), t, u)
    ensures ClearTo(Now(b), t, u)
  {
    AllApart(init, b, t, u);
    AllApart(init, b, u, t);
    WaitersArePast(Now(b), t, u);
    HeldIsCurrent(init, b, t, Meeting(Script(Now(b).live[t]), Script(Now(b).live[u])));
  }

  lemma TablesAre(init: Store, b: seq<State>)
    requires Behaviour(init, b)
    ensures Now(b).committed == Run(init, OpsOf(Now(b).log))
  {
    EveryBehaviourIsSerial(init, b, |b| - 1);
  }

  lemma SameTables(init: Store, b: seq<State>, b': seq<State>)
    requires Continues(init, b, b') && Now(b').log == Now(b).log
    ensures Now(b').committed == Now(b).committed
  {
    TablesAre(init, b);
    TablesAre(init, b');
  }

  lemma WasClear(init: Store, b: seq<State>, b': seq<State>, t: TxId, u: TxId)
    requires Continues(init, b, b') && AboutToLock(Now(b), t, u) && Circle(Now(b), Now(b'), t, u)
    ensures ClearTo(Now(b), t, u)
  {
    SameTables(init, b, b');
    CircleWasClear(init, b', t, u);
    StaysCurrent(Now(b'), Now(b), t, Meeting(Script(Now(b).live[t]), Script(Now(b).live[u])));
  }

  lemma CircleCannot(init: Store, b: seq<State>, t: TxId, u: TxId)
    requires Behaviour(init, b) && AboutToLock(Now(b), t, u) && CanCircle(init, b, t, u)
    ensures TwoOrders(Now(b), t, u) && ClearTo(Now(b), t, u) && ClearTo(Now(b), u, t)
  {
    var b' :| Continues(init, b, b') && Circle(Now(b), Now(b'), t, u);
    EitherOrder(Now(b), t, u);
    CircleHadTwoOrders(init, Now(b), b', t, u);
    WasClear(init, b, b', t, u);
    WasClear(init, b, b', u, t);
  }

  /** Of two transactions about to lock their rows, nobody else having locked any, a
      circle can form before anything more is answered if and only if each comes
      first to another of the rows they share, and no row a sync is to change before
      the two meet has changed since it read it. */
  lemma CircleIffTwoOrders(init: Store, b: seq<State>, t: TxId, u: TxId)
    requires Behaviour(init, b) && AboutToLock(Now(b), t, u)
    ensures CanCircle(init, b, t, u) <==> TwoOrders(Now(b), t, u) && ClearTo(Now(b), t, u) && ClearTo(Now(b), u, t)
  {
    if CanCircle(init, b, t, u) {
      CircleCannot(init, b, t, u);
    } else if TwoOrders(Now(b), t, u) && ClearTo(Now(b), t, u) && ClearTo(Now(b), u, t) {
      CircleCan(init, b, t, u);
    }
  }
}
