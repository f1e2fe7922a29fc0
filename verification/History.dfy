/** When each call began, found what it names and was answered: a flush names
    its rows once, in the committed registry of some moment between its beginning
    and its answer (src/write/touch.rs). */
module History {
  import opened Interleaving
  import opened Operations
  import opened Registry
  import opened Touches

  /** An answered call found its rows after it began and before it was answered:
      exactly those its paths named then. */
  ghost predicate Placed(init: Store, log: seq<Event>, i: nat)
    requires i < |log|
  {
    var e := log[i];
    && e.ended == i && e.began <= e.from <= i
    && (e.op.TouchOp? ==> e.op.ids == Named(Run(init, OpsOf(log[..e.from])), e.op.paths))
    && (!e.op.TouchOp? ==> e.from == i)
  }

  predicate Scans(txn: Txn) {
    txn.TouchTxn? && txn.touch.Scanning?
  }

  /** The same of a call still open. */
  ghost predicate Opened(init: Store, s: State, t: TxId)
    requires t in s.live
  {
    && t in s.began && s.began[t] <= |s.log|
    && (Scans(s.live[t]) ==>
          && s.began[t] <= s.live[t].touch.from <= |s.log|
          && s.live[t].touch.named == Named(Run(init, OpsOf(s.log[..s.live[t].touch.from])), s.live[t].paths))
  }

  ghost predicate HistoryOk(init: Store, s: State) {
    && (forall i {:trigger Placed(init, s.log, i)} :: 0 <= i < |s.log| ==> Placed(init, s.log, i))
    && (forall t {:trigger Opened(init, s, t)} :: t in s.live ==> Opened(init, s, t))
  }

  // ---- What a step can do to the calls ----

  ghost predicate OnlyActs(s: State, s': State, t: TxId) {
    forall u :: u != t ==>
      && (u in s'.live <==> u in s.live) && (u in s.live && u in s'.live ==> s'.live[u] == s.live[u])
      && (u in s'.began <==> u in s.began) && (u in s.began && u in s'.began ==> s'.began[u] == s.began[u])
  }

  ghost predicate Ends(s: State, s': State, t: TxId) {
    t !in s'.live && s'.log == s.log
  }

  ghost predicate Answers(s: State, s': State, t: TxId) {
    && t in s.live && t !in s'.live && (s.live[t].TouchTxn? ==> Scans(s.live[t]))
    && exists answer :: s'.log == s.log + [EventOf(s, t, s.live[t], answer)]
  }

  /** A call goes on: it names its rows now, or has named them and keeps to them. */
  ghost predicate GoesOn(s: State, s': State, t: TxId) {
    && t in s.live && t in s'.live && s'.log == s.log
    && (t in s.began ==> t in s'.began && s'.began[t] == s.began[t])
    && (Scans(s'.live[t]) ==>
          && s.live[t].TouchTxn? && s'.live[t].paths == s.live[t].paths
          && var stage := s'.live[t].touch;
             if Scans(s.live[t]) then stage.from == s.live[t].touch.from && stage.named == s.live[t].touch.named
             else stage.from == |s.log| && stage.named == Named(s.committed, s'.live[t].paths))
  }

  ghost predicate Starts(s: State, s': State, t: TxId) {
    && t in s'.live && !Scans(s'.live[t]) && s'.log == s.log
    && t in s'.began && s'.began[t] == |s.log|
  }

  ghost predicate Shape(s: State, s': State, t: TxId) {
    OnlyActs(s, s', t) && (Ends(s, s', t) || Answers(s, s', t) || GoesOn(s, s', t) || Starts(s, s', t))
  }

  lemma AnsweredShape(s: State, s': State, t: TxId, answer: Answer)
    requires t in s.live && (s.live[t].TouchTxn? ==> Scans(s.live[t]))
    requires s' == Answered(s, t, s.live[t], answer).(committed := s'.committed)
    ensures Shape(s, s', t)
  {
    assert s'.log == s.log + [EventOf(s, t, s.live[t], answer)];
  }

  lemma MovedShape(s: State, s': State, t: TxId, txn: Txn)
    requires t in s.live && !Scans(txn) && s' == To(s, t, txn).(sentinel := s'.sentinel)
    ensures Shape(s, s', t)
  {
    assert GoesOn(s, s', t);
  }

  lemma SyncReadShape(s: State, s': State, t: TxId)
    requires t in s.live && s.live[t].SyncTxn? && !s.live[t].sync.Writing? && SyncSteps(s, s', t, s.live[t])
    ensures Shape(s, s', t)
  {
    if t in s'.live {
      MovedShape(s, s', t, s'.live[t]);
    } else {
      AnsweredShape(s, s', t, s'.log[|s.log|].answer);
    }
  }

  lemma SyncWriteShape(s: State, s': State, t: TxId)
    requires t in s.live && s.live[t].SyncTxn? && s.live[t].sync.Writing? && SyncSteps(s, s', t, s.live[t])
    ensures Shape(s, s', t)
  {
    if t in s'.live {
      MovedShape(s, s', t, s'.live[t]);
    } else if Wants(s.live[t]).Some? {
      assert Ends(s, s', t);
    } else {
      AnsweredShape(s, s', t, s'.log[|s.log|].answer);
    }
  }

  lemma RegisterShape(s: State, s': State, t: TxId)
    requires t in s.live && s.live[t].RegisterTxn? && RegisterSteps(s, s', t, s.live[t])
    ensures Shape(s, s', t)
  {
    if t in s'.live {
      MovedShape(s, s', t, s'.live[t]);
    } else {
      AnsweredShape(s, s', t, s'.log[|s.log|].answer);
    }
  }

  lemma TouchShape(s: State, s': State, t: TxId)
    requires t in s.live && s.live[t].TouchTxn? && TouchSteps(s, s', t, s.live[t])
    ensures Shape(s, s', t)
  {
    if t in s'.live {
      assert GoesOn(s, s', t);
    } else {
      assert s'.log == s.log + [EventOf(s, t, s.live[t], Touched)];
    }
  }

  lemma StepShape(s: State, s': State, t: TxId)
    requires Acts(s, s', t)
    ensures Shape(s, s', t)
  {
    if Steps(s, s', t) {
      match s.live[t]
      case SyncTxn(_, _, _, _, stage) =>
        if stage.Writing? {
          SyncWriteShape(s, s', t);
        } else {
          SyncReadShape(s, s', t);
        }
      case RegisterTxn(_, _, _) => RegisterShape(s, s', t);
      case TouchTxn(_, _, _) => TouchShape(s, s', t);
    }
  }

  // ---- Every step keeps the history ----

  lemma PrefixesStand(init: Store, log: seq<Event>, more: seq<Event>, m: nat)
    requires log <= more && m <= |log|
    ensures OpsOf(more[..m]) == OpsOf(log[..m])
  {
    assert more[..m] == log[..m];
  }

  lemma PlacesStand(init: Store, log: seq<Event>, more: seq<Event>)
    requires log <= more && forall i {:trigger Placed(init, log, i)} :: 0 <= i < |log| ==> Placed(init, log, i)
    ensures forall i {:trigger Placed(init, more, i)} :: 0 <= i < |log| ==> Placed(init, more, i)
  {
    forall i {:trigger Placed(init, more, i)} | 0 <= i < |log|
      ensures Placed(init, more, i)
    {
      assert Placed(init, log, i);
      PrefixesStand(init, log, more, log[i].from);
    }
  }

  lemma OpenStands(init: Store, s: State, s': State, t: TxId, u: TxId)
    requires OnlyActs(s, s', t) && s.log <= s'.log && u != t && u in s.live && Opened(init, s, u)
    ensures u in s'.live && Opened(init, s', u)
  {
    if Scans(s.live[u]) {
      PrefixesStand(init, s.log, s'.log, s.live[u].touch.from);
    }
  }

  /** A call whose rows are named now names them in the committed registry. */
  lemma GoesOnOpened(init: Store, s: State, s': State, t: TxId)
    requires Inv(init, s) && GoesOn(s, s', t) && Opened(init, s, t)
    ensures Opened(init, s', t)
  {
    if Scans(s'.live[t]) && !Scans(s.live[t]) {
      assert s.log[..|s.log|] == s.log;
    }
  }

  lemma AnsweredPlaced(init: Store, s: State, s': State, t: TxId)
    requires Answers(s, s', t) && Opened(init, s, t)
    ensures |s'.log| == |s.log| + 1 && Placed(init, s'.log, |s.log|)
  {
    var answer :| s'.log == s.log + [EventOf(s, t, s.live[t], answer)];
    if Scans(s.live[t]) {
      PrefixesStand(init, s.log, s'.log, s.live[t].touch.from);
    }
  }

  lemma NextKeepsHistory(init: Store, s: State, s': State)
    requires Inv(init, s) && HistoryOk(init, s) && Next(s, s')
    ensures HistoryOk(init, s')
  {
    var t :| Acts(s, s', t);
    StepShape(s, s', t);
    ShapeKeepsHistory(init, s, s', t);
  }

  lemma ShapeKeepsHistory(init: Store, s: State, s': State, t: TxId)
    requires Inv(init, s) && HistoryOk(init, s) && Shape(s, s', t)
    ensures HistoryOk(init, s')
  {
    PlacesStand(init, s.log, s'.log);
    if Answers(s, s', t) {
      assert Opened(init, s, t);
      AnsweredPlaced(init, s, s', t);
    }
    forall u {:trigger Opened(init, s', u)} | u in s'.live
      ensures Opened(init, s', u)
    {
      if u != t {
        assert Opened(init, s, u);
        OpenStands(init, s, s', t, u);
      } else if GoesOn(s, s', t) {
        assert Opened(init, s, t);
        GoesOnOpened(init, s, s', t);
      }
    }
  }
}
