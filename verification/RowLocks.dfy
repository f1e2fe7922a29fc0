/** The row locks of an UPDATE, taken one row after another and kept to the end:
    what a transaction has locked is a prefix of the rows it will lock
    (src/write/sync.rs, src/write/touch.rs). */
module RowLocks {
  import opened History
  import opened Interleaving
  import opened Outcome
  import opened Reconcile
  import opened Registry

  /** The rows the first `k` statements lock, in the order they lock them. */
  function LockList(ws: seq<Write>, scan: seq<Id>, k: nat): seq<Id> {
    if k == 0 || k > |ws| then [] else LockList(ws, scan, k - 1) + LocksOf(ws[k - 1], scan)
  }

  /** A transaction that locks rows. */
  predicate Locks(txn: Txn) {
    (txn.SyncTxn? && txn.sync.Writing?) || Scans(txn)
  }

  /** Every row it will lock, in the order it will. */
  function Script(txn: Txn): seq<Id> {
    if txn.SyncTxn? && txn.sync.Writing? then LockList(txn.sync.ws, txn.sync.scan, |txn.sync.ws|)
    else if Scans(txn) then txn.touch.order
    else []
  }

  function LocksHere(txn: Txn): seq<Id> {
    if txn.SyncTxn? && txn.sync.Writing? && txn.sync.done < |txn.sync.ws| then
      LocksOf(txn.sync.ws[txn.sync.done], txn.sync.scan)
    else []
  }

  /** What it has locked is what its statements so far lock, and so many rows of
      the next. */
  ghost predicate LocksOk(txn: Txn) {
    && (txn.SyncTxn? && txn.sync.Writing? ==>
          && Lists(txn.sync.scan, ToArchive(txn.sync.base, txn.decl))
          && txn.sync.done <= |txn.sync.ws| && txn.sync.taken <= |LocksHere(txn)|
          && txn.sync.held == LockList(txn.sync.ws, txn.sync.scan, txn.sync.done) + LocksHere(txn)[..txn.sync.taken])
    && (Scans(txn) ==> txn.touch.held <= txn.touch.order)
  }

  lemma {:induction false} LockListGrows(ws: seq<Write>, scan: seq<Id>, j: nat, k: nat)
    requires j <= k <= |ws|
    ensures LockList(ws, scan, j) <= LockList(ws, scan, k)
  {
    if j < k {
      LockListGrows(ws, scan, j, k - 1);
    }
  }

  lemma Segment(a: seq<Id>, h: seq<Id>, k: nat, whole: seq<Id>)
    requires a + h <= whole && k <= |h|
    ensures a + h[..k] <= whole
    ensures k < |h| ==> |a + h[..k]| < |whole| && whole[|a + h[..k]|] == h[k]
  {
    assert whole[..|a + h|] == a + h;
    assert k < |h| ==> (a + h)[|a| + k] == h[k];
  }

  lemma HereIsNext(ws: seq<Write>, scan: seq<Id>, done: nat, here: seq<Id>)
    requires done <= |ws| && here == if done < |ws| then LocksOf(ws[done], scan) else []
    ensures LockList(ws, scan, done) + here <= LockList(ws, scan, |ws|)
  {
    if done < |ws| {
      LockListGrows(ws, scan, done + 1, |ws|);
    } else {
      assert LockList(ws, scan, done) + here == LockList(ws, scan, |ws|);
    }
  }

  lemma HeldIsPrefix(txn: Txn)
    requires LocksOk(txn)
    ensures Held(txn) <= Script(txn)
    ensures Wants(txn).Some? ==> |Held(txn)| < |Script(txn)| && Wants(txn).value == Script(txn)[|Held(txn)|]
  {
    if txn.SyncTxn? && txn.sync.Writing? {
      var ws, scan, done := txn.sync.ws, txn.sync.scan, txn.sync.done;
      HereIsNext(ws, scan, done, LocksHere(txn));
      Segment(LockList(ws, scan, done), LocksHere(txn), txn.sync.taken, Script(txn));
    }
  }

  // ---- The locks taken to change a row ----

  /** Of each lock the first `k` statements take, whether it is to change the row. */
  function Checks(ws: seq<Write>, scan: seq<Id>, k: nat): seq<bool> {
    if k == 0 || k > |ws| then []
    else Checks(ws, scan, k - 1) + seq(|LocksOf(ws[k - 1], scan)|, _ => Rewrites(ws[k - 1]))
  }

  lemma {:induction false} ChecksGrow(ws: seq<Write>, scan: seq<Id>, j: nat, k: nat)
    requires j <= k <= |ws|
    ensures |Checks(ws, scan, k)| == |LockList(ws, scan, k)| && Checks(ws, scan, j) <= Checks(ws, scan, k)
  {
    if k > 0 {
      ChecksGrow(ws, scan, if j < k then j else k - 1, k - 1);
    }
  }

  function ChecksOf(txn: Txn): seq<bool> {
    if txn.SyncTxn? && txn.sync.Writing? then Checks(txn.sync.ws, txn.sync.scan, |txn.sync.ws|) else []
  }

  function SnapshotOf(txn: Txn): Option<Store> {
    if txn.SyncTxn? && txn.sync.Writing? then Some(txn.sync.base) else None
  }

  /** The `i`th lock of the transaction is to change the row, and the row has
      changed since the transaction read it. */
  predicate StaleAt(c: Store, txn: Txn, i: nat) {
    && i < |ChecksOf(txn)| && ChecksOf(txn)[i] && i < |Script(txn)|
    && SnapshotOf(txn).Some? && !SeenAlike(SnapshotOf(txn).value, c, Script(txn)[i])
  }

  lemma CheckHere(ws: seq<Write>, scan: seq<Id>, done: nat, taken: nat)
    requires done < |ws| && taken < |LocksOf(ws[done], scan)|
    ensures var i := |LockList(ws, scan, done)| + taken;
      i < |Checks(ws, scan, |ws|)| && Checks(ws, scan, |ws|)[i] == Rewrites(ws[done])
  {
    ChecksGrow(ws, scan, done, done + 1);
    ChecksGrow(ws, scan, done, done);
    ChecksGrow(ws, scan, done + 1, |ws|);
    assert Checks(ws, scan, done + 1)[|LockList(ws, scan, done)| + taken] == Rewrites(ws[done]);
  }

  /** The row wanted is stale exactly when the lock that comes next is. */
  lemma StaleIsNext(c: Store, txn: Txn)
    requires LocksOk(txn) && Wants(txn).Some?
    ensures Stale(c, txn, Wants(txn).value) <==> StaleAt(c, txn, |Held(txn)|)
  {
    HeldIsPrefix(txn);
    if txn.SyncTxn? {
      CheckHere(txn.sync.ws, txn.sync.scan, txn.sync.done, txn.sync.taken);
    }
  }

  // ---- Kept by every step ----

  ghost predicate AllLocksOk(s: State) {
    forall t {:trigger LocksOk(s.live[t])} :: t in s.live ==> LocksOk(s.live[t])
  }

  lemma TookOk(txn: Txn)
    requires txn.SyncTxn? && LocksOk(txn) && txn.sync.Writing? && Wants(txn).Some?
    ensures LocksOk(txn.(sync := Took(txn.sync, Wants(txn).value)))
  {
    var here, taken := LocksHere(txn), txn.sync.taken;
    assert here[..taken + 1] == here[..taken] + [here[taken]];
  }

  lemma WroteOk(txn: Txn)
    requires txn.SyncTxn? && LocksOk(txn) && txn.sync.Writing? && Wants(txn).None? && txn.sync.done < |txn.sync.ws|
    ensures LocksOk(txn.(sync := txn.sync.(done := txn.sync.done + 1, taken := 0)))
    ensures Script(txn.(sync := txn.sync.(done := txn.sync.done + 1, taken := 0))) == Script(txn)
  {
    var here := LocksHere(txn);
    assert here[..txn.sync.taken] == here;
  }

  lemma SyncWriteLocks(s: State, s': State, t: TxId)
    requires t in s.live && s.live[t].SyncTxn? && LocksOk(s.live[t]) && SyncSteps(s, s', t, s.live[t]) && t in s'.live
    requires s.live[t].sync.Writing?
    ensures LocksOk(s'.live[t])
  {
    if Wants(s.live[t]).Some? {
      TookOk(s.live[t]);
    } else {
      WroteOk(s.live[t]);
    }
  }

  lemma SyncStepLocks(s: State, s': State, t: TxId)
    requires t in s.live && s.live[t].SyncTxn? && LocksOk(s.live[t]) && SyncSteps(s, s', t, s.live[t]) && t in s'.live
    ensures LocksOk(s'.live[t])
  {
    if s.live[t].sync.Writing? {
      SyncWriteLocks(s, s', t);
    }
  }

  lemma TouchStepLocks(s: State, s': State, t: TxId)
    requires t in s.live && s.live[t].TouchTxn? && LocksOk(s.live[t]) && TouchSteps(s, s', t, s.live[t]) && t in s'.live
    ensures LocksOk(s'.live[t])
  {
    if Scans(s.live[t]) {
      var held, order := s.live[t].touch.held, s.live[t].touch.order;
      assert |held| < |order| ==> held + [order[|held|]] == order[..|held| + 1];
    }
  }

  lemma RegisterStepLocks(s: State, s': State, t: TxId)
    requires t in s.live && s.live[t].RegisterTxn? && RegisterSteps(s, s', t, s.live[t]) && t in s'.live
    ensures s'.live[t].RegisterTxn?
  {
  }

  lemma StepLocks(s: State, s': State, t: TxId)
    requires t in s.live && LocksOk(s.live[t]) && Steps(s, s', t) && t in s'.live
    ensures LocksOk(s'.live[t])
  {
    match s.live[t]
    case SyncTxn(_, _, _, _, _) => SyncStepLocks(s, s', t);
    case RegisterTxn(_, _, _) => RegisterStepLocks(s, s', t);
    case TouchTxn(_, _, _) => TouchStepLocks(s, s', t);
  }

  lemma NextKeepsLocks(s: State, s': State)
    requires AllLocksOk(s) && Next(s, s')
    ensures AllLocksOk(s')
  {
    var t :| Acts(s, s', t);
    StepShape(s, s', t);
    forall u {:trigger LocksOk(s'.live[u])} | u in s'.live
      ensures LocksOk(s'.live[u])
    {
      if u != t {
        assert LocksOk(s.live[u]);
      } else if Steps(s, s', t) {
        assert LocksOk(s.live[t]);
        StepLocks(s, s', t);
      }
    }
  }
}
