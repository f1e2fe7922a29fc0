/** What one transaction's commit leaves alone of everything another live
    transaction relies on: the locks and the disjoint classes at work. */
module Survival {
  import opened Congruence
  import opened Declaration
  import opened Interleaving
  import opened Operations
  import opened Paths
  import opened Reconcile
  import opened Registration
  import opened Registry
  import opened Syncs
  import opened Text
  import opened Touches

  // ---- What another transaction's commit leaves alone ----

  lemma OrgSameTransitive(a: Store, b: Store, c: Store)
    requires OrgSame(a, b) && OrgSame(b, c)
    ensures OrgSame(a, c)
  {
  }

  /** A live sync keeps everything it relies on while what it reads stands. */
  lemma SyncSurvives(c: Store, c': Store, holds: bool, txn: Txn)
    requires txn.SyncTxn? && SyncOk(c, holds, txn) && Schema(c) && Schema(c')
    requires OrgSame(c, c') && Fresh(c', txn.decl, txn.mint)
    ensures SyncOk(c', holds, txn)
  {
    SameAnswer(c, c', txn.decl, txn.guards);
    SameArchive(c, c', txn.decl);
    if txn.sync.RowsRead? || txn.sync.AliasesRead? || txn.sync.Writing? {
      OrgSameTransitive(txn.sync.base, c, c');
    }
    if txn.sync.Writing? {
      SamePlan(c, c', txn.decl, txn.sync.plan);
    }
  }

  /** A sync that has not taken the lock has read nothing. */
  lemma LockingSurvives(c: Store, c': Store, txn: Txn)
    requires txn.SyncTxn? && SyncOk(c, false, txn) && Fresh(c', txn.decl, txn.mint)
    ensures SyncOk(c', false, txn)
  {
  }

  lemma RegisterSurvives(c: Store, c': Store, txn: Txn)
    requires txn.RegisterTxn? && RegisterOk(c, txn)
    requires c'.aliases == c.aliases && txn.id !in c'.projects
    requires KeyUsed(c, txn.req) ==> KeyUsed(c', txn.req)
    requires HeldKeys(txn) != {} && KeyUsed(c', txn.req) ==> KeyUsed(c, txn.req)
    requires HeldPaths(txn) != {} && LiveAt(c', Fold(txn.req.path)) ==> LiveAt(c, Fold(txn.req.path))
    ensures RegisterOk(c', txn)
  {
  }

  lemma NamedGrows(c: Store, c': Store, paths: seq<string>)
    requires Grows(c, c')
    ensures Named(c, paths) <= Named(c', paths)
  {
  }

  lemma TouchSurvives(c: Store, c': Store, txn: Txn)
    requires txn.TouchTxn? && TouchOkay(c, txn) && Grows(c, c')
    requires txn.touch.Scanning? ==> Advanced(c', HeldRows(txn) * txn.touch.named, txn.at) == Advanced(c, HeldRows(txn) * txn.touch.named, txn.at)
    ensures TouchOkay(c', txn)
  {
    NamedGrows(c, c', txn.paths);
  }

  lemma SeenStands(c: Store, c': Store, txn: Txn)
    requires txn.TouchTxn? && TouchOkay(c, txn) && Grows(c, c') && c'.seen == c.seen
    ensures TouchOkay(c', txn)
  {
    if txn.touch.Scanning? {
      forall id | id in HeldRows(txn)
        ensures id in c.projects && id in c'.projects
      {
        assert id in txn.touch.order;
      }
    }
    TouchSurvives(c, c', txn);
  }

  // ---- A sync commits ----

  /** No row a sync inserts stands at a private path. */
  lemma SyncLeavesPrivatePaths(c: Store, decl: seq<Declared>, actor: string, mint: seq<Id>, path: string)
    requires WellFormed(decl) && Fresh(c, decl, mint) && IsPrivateClass(path)
    requires LiveAt(Converged(c, decl, actor, mint), Fold(path))
    ensures LiveAt(c, Fold(path))
  {
    var t := Converged(c, decl, actor, mint);
    var id :| id in t.projects && Fold(t.projects[id].path) == Fold(path);
    if id in c.projects {
      SettledRowIs(c, decl, actor, mint, id);
      assert Fold(c.projects[id].path) == Fold(path);
    } else {
      var i := InsertedBy(c, decl, actor, mint, id);
      assert OrgPath(decl[i].path);
      PrivateClassFolds(decl[i].path);
      PrivateClassFolds(path);
    }
  }

  lemma SyncAddsMinted(c: Store, decl: seq<Declared>, actor: string, mint: seq<Id>, id: Id)
    requires Fresh(c, decl, mint) && id !in c.projects && id !in mint
    ensures id !in Converged(c, decl, actor, mint).projects
  {
    if id in Converged(c, decl, actor, mint).projects {
      var i := InsertedBy(c, decl, actor, mint, id);
    }
  }

  lemma SurvivesSync(c: Store, ended: Txn, txn: Txn)
    requires ended.SyncTxn? && WellFormed(ended.decl) && Fresh(c, ended.decl, ended.mint) && Valid(c)
    requires TxnOk(c, false, txn) && Apart(ended, txn)
    ensures TxnOk(Converged(c, ended.decl, ended.actor, ended.mint), false, txn)
  {
    var c' := Converged(c, ended.decl, ended.actor, ended.mint);
    forall id | id in Mints(txn)
      ensures id !in ended.mint
    {
    }
    match txn
    case SyncTxn(decl, _, _, mint, _) =>
      forall i | 0 <= i < |mint|
        ensures mint[i] !in c'.projects
      {
        assert mint[i] in Mints(txn);
        SyncAddsMinted(c, ended.decl, ended.actor, ended.mint, mint[i]);
      }
      LockingSurvives(c, c', txn);
    case RegisterTxn(req, id, _) =>
      assert id in Mints(txn);
      SyncAddsMinted(c, ended.decl, ended.actor, ended.mint, id);
      if LiveAt(c', Fold(req.path)) {
        SyncLeavesPrivatePaths(c, ended.decl, ended.actor, ended.mint, req.path);
      }
      RegisterSurvives(c, c', txn);
    case TouchTxn(_, _, _) =>
      SyncGrows(c, ended.decl, ended.actor, ended.mint);
      SeenStands(c, c', txn);
  }

  // ---- A registration commits ----

  lemma SurvivesRegister(c: Store, ended: Txn, holds: bool, txn: Txn)
    requires ended.RegisterTxn? && ended.register.Recorded? && RegisterOk(c, ended) && Valid(c)
    requires TxnOk(c, holds, txn) && Apart(ended, txn)
    ensures TxnOk(RegisteredStore(c, ended.req, ended.id), holds, txn)
  {
    var c' := RegisteredStore(c, ended.req, ended.id);
    PrecheckedRowIsSound(ended.req);
    RegisteredKeepsSchema(c, ended.req, ended.id);
    assert ended.id in Mints(ended);
    match txn
    case SyncTxn(decl, _, _, mint, _) =>
      RegisterKeepsOrg(c, ended.req, ended.id);
      forall i | 0 <= i < |mint|
        ensures mint[i] !in c'.projects
      {
        assert mint[i] in Mints(txn);
      }
      SyncSurvives(c, c', holds, txn);
    case RegisterTxn(req, id, _) =>
      RegistrationsApart(c, ended, txn);
      RegisterSurvives(c, c', txn);
    case TouchTxn(_, _, _) =>
      RegisteredGrows(c, ended.req, ended.id);
      SeenStands(c, c', txn);
  }

  lemma RegistrationsApart(c: Store, ended: Txn, txn: Txn)
    requires ended.RegisterTxn? && ended.register.Recorded? && txn.RegisterTxn? && Apart(ended, txn)
    ensures var c' := RegisteredStore(c, ended.req, ended.id);
      && ended.id != txn.id
      && (HeldKeys(txn) != {} && KeyUsed(c', txn.req) ==> KeyUsed(c, txn.req))
      && (HeldPaths(txn) != {} && LiveAt(c', Fold(txn.req.path)) ==> LiveAt(c, Fold(txn.req.path)))
  {
  }

  // ---- A flush commits ----

  /** A flush that has scanned all its rows holds every row it moves, and another
      holds none of them. */
  lemma FlushesApart(c: Store, ended: Txn, txn: Txn)
    requires ended.TouchTxn? && ended.touch.Scanning? && TouchOkay(c, ended) && Wants(ended).None?
    requires txn.TouchTxn? && txn.touch.Scanning? && TouchOkay(c, txn) && Apart(ended, txn)
    ensures Advanced(TouchedStore(c, ended.touch.named, ended.at), HeldRows(txn) * txn.touch.named, txn.at)
      == Advanced(c, HeldRows(txn) * txn.touch.named, txn.at)
  {
    assert ended.touch.held == ended.touch.order;
    forall id | id in HeldRows(txn)
      ensures id !in ended.touch.named
    {
      assert id in ended.touch.named ==> id in HeldRows(ended);
    }
  }

  lemma TouchKeepsOrg(c: Store, ids: set<Id>, at: int)
    ensures OrgSame(c, TouchedStore(c, ids, at))
    ensures forall key :: LiveAt(TouchedStore(c, ids, at), key) == LiveAt(c, key)
  {
  }

  lemma SurvivesTouch(c: Store, ended: Txn, holds: bool, txn: Txn)
    requires ended.TouchTxn? && ended.touch.Scanning? && TouchOkay(c, ended) && Wants(ended).None? && Valid(c)
    requires TxnOk(c, holds, txn) && Apart(ended, txn)
    ensures TxnOk(TouchedStore(c, ended.touch.named, ended.at), holds, txn)
  {
    var c' := TouchedStore(c, ended.touch.named, ended.at);
    TouchKeepsValid(c, ended.touch.named, ended.at);
    match txn
    case SyncTxn(_, _, _, _, _) =>
      TouchKeepsOrg(c, ended.touch.named, ended.at);
      SyncSurvives(c, c', holds, txn);
    case RegisterTxn(req, _, _) =>
      TouchKeepsOrg(c, ended.touch.named, ended.at);
      RegisterSurvives(c, c', txn);
    case TouchTxn(_, _, _) =>
      if txn.touch.Scanning? {
        FlushesApart(c, ended, txn);
      }
      TouchSurvives(c, c', txn);
  }
}
