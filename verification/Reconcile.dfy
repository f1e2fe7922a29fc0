/** What one sync does to the tables: the state it leaves, the statements that
    take it there, and the guards (src/write/sync.rs, src/write/grants.rs). */
module Reconcile {
  import opened Declaration
  import opened Like
  import opened Outcome
  import opened Paths
  import opened Registry
  import opened Text

  // ---- Rows ----

  /** An org row at this folded path. */
  ghost predicate HasOrg(s: Store, key: string) {
    exists id :: id in s.projects && IsOrg(s.projects[id]) && Fold(s.projects[id].path) == key
  }

  ghost function OrgAt(s: Store, key: string): (id: Id)
    requires HasOrg(s, key)
    ensures id in s.projects && IsOrg(s.projects[id]) && Fold(s.projects[id].path) == key
  {
    var id :| id in s.projects && IsOrg(s.projects[id]) && Fold(s.projects[id].path) == key;
    id
  }

  predicate SameContent(row: Row, d: Declared) {
    row.displayName == d.displayName && row.sourceRepo == Some(d.sourceRepo)
  }

  /** What `write_one` does with a declared row, and counts it as. */
  datatype Fate = Insert | Update | Reactivate | Keep

  function FateOfRow(row: Row, d: Declared): Fate {
    if row.status.Archived? then Reactivate else if SameContent(row, d) then Keep else Update
  }

  ghost function FateOf(s: Store, d: Declared): Fate {
    if HasOrg(s, d.Key()) then FateOfRow(s.projects[OrgAt(s, d.Key())], d) else Insert
  }

  function NewRow(d: Declared, actor: string): Row {
    Row(d.path, d.displayName, Active, Some(d.sourceRepo), None, Org, 1, actor, actor)
  }

  /** A stored row once its declaration has been written over it. */
  function Overwritten(row: Row, d: Declared, actor: string): Row {
    if FateOfRow(row, d).Keep? then row else Updated(row, d.displayName, d.sourceRepo, actor)
  }

  /** Ids minted for this declaration, one held ready for each entry. */
  ghost predicate Fresh(s: Store, decl: seq<Declared>, mint: seq<Id>) {
    && |mint| == |decl|
    && (forall i :: 0 <= i < |mint| ==> mint[i] !in s.projects)
    && (forall i, j :: 0 <= i < j < |mint| ==> mint[i] != mint[j])
  }

  ghost function RowAfter(row: Row, decl: seq<Declared>, actor: string, k: nat): Row {
    var i := IndexOf(decl, Fold(row.path));
    if IsOrg(row) && i < k && i < |decl| then Overwritten(row, decl[i], actor) else row
  }

  /** The rows the first `k` declared entries insert. */
  ghost function Minted(s: Store, decl: seq<Declared>, actor: string, mint: seq<Id>, k: nat): map<Id, Row>
  {
    if k == 0 || k > |decl| || k > |mint| then map[]
    else if HasOrg(s, decl[k - 1].Key()) then Minted(s, decl, actor, mint, k - 1)
    else Minted(s, decl, actor, mint, k - 1)[mint[k - 1] := NewRow(decl[k - 1], actor)]
  }

  lemma {:induction false} MintedIs(s: Store, decl: seq<Declared>, actor: string, mint: seq<Id>, k: nat)
    requires Fresh(s, decl, mint) && k <= |decl|
    ensures forall id :: id in Minted(s, decl, actor, mint, k) ==>
      exists i :: 0 <= i < k && mint[i] == id && !HasOrg(s, decl[i].Key()) && Minted(s, decl, actor, mint, k)[id] == NewRow(decl[i], actor)
    ensures forall i :: 0 <= i < |decl| ==>
      (mint[i] in Minted(s, decl, actor, mint, k) <==> i < k && !HasOrg(s, decl[i].Key()))
  {
    if k > 0 {
      MintedIs(s, decl, actor, mint, k - 1);
    }
  }

  ghost function StoredAfter(s: Store, decl: seq<Declared>, actor: string, k: nat): map<Id, Row> {
    map id | id in s.projects :: RowAfter(s.projects[id], decl, actor, k)
  }

  /** The rows once the first `k` declared rows are written. */
  ghost function RowsAfter(s: Store, decl: seq<Declared>, actor: string, mint: seq<Id>, k: nat): map<Id, Row>
  {
    StoredAfter(s, decl, actor, k) + Minted(s, decl, actor, mint, k)
  }

  /** `to_archive`. */
  ghost function ToArchive(s: Store, decl: seq<Declared>): set<Id> {
    set id | id in s.projects && ActiveOrg(s.projects[id]) && !Declares(decl, Fold(s.projects[id].path))
  }

  ghost function ActiveRows(s: Store): set<Id> {
    set id | id in s.projects && ActiveOrg(s.projects[id])
  }

  ghost function SettledRow(row: Row, decl: seq<Declared>, actor: string): Row {
    if ActiveOrg(row) && IndexOf(decl, Fold(row.path)) == |decl| then ArchivedRow(row, actor)
    else RowAfter(row, decl, actor, |decl|)
  }

  /** The rows a sync leaves. */
  ghost function SettledRows(s: Store, decl: seq<Declared>, actor: string, mint: seq<Id>): map<Id, Row>
  {
    (map id | id in s.projects :: SettledRow(s.projects[id], decl, actor)) + Minted(s, decl, actor, mint, |decl|)
  }

  // ---- Grants ----

  /** The stored grants a sync reads: those on org rows. */
  ghost function OrgGrants(s: Store): set<(Id, string)> {
    set g | g in s.grants && g.0 in s.projects && IsOrg(s.projects[g.0])
  }

  /** The level the declaration wants for a stored pair. */
  ghost function WantedFor(s: Store, decl: seq<Declared>, g: (Id, string)): Option<Level>
    requires g.0 in s.projects
  {
    Wanted(decl, Fold(s.projects[g.0].path), g.1)
  }

  ghost function TeamsAt(decl: seq<Declared>, key: string): set<string> {
    var i := IndexOf(decl, key);
    if i < |decl| then set g | g in decl[i].grants :: g.team else {}
  }

  /** The grants a sync leaves, on these rows: exactly the declared ones on org
      rows, and whatever was already there on private rows. */
  ghost function SettledGrants(s: Store, decl: seq<Declared>, rows: map<Id, Row>): map<(Id, string), Level> {
    (map g | g in s.grants && g !in OrgGrants(s) :: s.grants[g]) +
    (map id, team | id in rows && IsOrg(rows[id]) && team in TeamsAt(decl, Fold(rows[id].path))
       :: (id, team) := Wanted(decl, Fold(rows[id].path), team).value)
  }

  /** The registry after a sync. */
  ghost function Converged(s: Store, decl: seq<Declared>, actor: string, mint: seq<Id>): Store
  {
    var rows := SettledRows(s, decl, actor, mint);
    s.(projects := rows, grants := SettledGrants(s, decl, rows))
  }

  /** What the grant half of a sync will write. An insert names its row by key:
      the row may not exist yet. */
  datatype GrantPlan = GrantPlan(
    inserts: seq<(string, string, Level)>,
    updates: seq<(Id, string, Level)>,
    deletes: seq<(Id, string)>,
    kept: nat)

  ghost predicate PairHasRow(s: Store, key: string, team: string) {
    exists g :: g in OrgGrants(s) && g.1 == team && Fold(s.projects[g.0].path) == key
  }

  /** The stored pairs the declaration does not name. */
  ghost function RevokedPairs(s: Store, decl: seq<Declared>): set<(Id, string)> {
    set g | g in OrgGrants(s) && WantedFor(s, decl, g).None?
  }

  ghost function RewrittenPairs(s: Store, decl: seq<Declared>): set<(Id, string)> {
    set g | g in OrgGrants(s) && WantedFor(s, decl, g).Some? && WantedFor(s, decl, g).value != s.grants[g]
  }

  ghost function KeptPairs(s: Store, decl: seq<Declared>): set<(Id, string)> {
    set g | g in OrgGrants(s) && WantedFor(s, decl, g) == Some(s.grants[g])
  }

  /** The declared pairs no stored grant names. */
  ghost function AddedPairs(s: Store, decl: seq<Declared>): set<(string, string)> {
    set p | p in DeclaredPairs(decl) && !PairHasRow(s, p.0, p.1)
  }

  ghost function DeclaredPairs(decl: seq<Declared>): set<(string, string)> {
    set i, g | 0 <= i < |decl| && g in decl[i].grants :: (decl[i].Key(), g.team)
  }

  ghost predicate NoRepeats<T>(xs: seq<T>) {
    forall i, j :: 0 <= i < j < |xs| ==> xs[i] != xs[j]
  }

  /** A plan says what to do with every pair once, and nothing else. */
  ghost predicate IsPlan(plan: GrantPlan, s: Store, decl: seq<Declared>) {
    && NoRepeats(plan.deletes)
    && (forall g :: g in plan.deletes <==> g in RevokedPairs(s, decl))
    && (forall i, j :: 0 <= i < j < |plan.updates| ==> (plan.updates[i].0, plan.updates[i].1) != (plan.updates[j].0, plan.updates[j].1))
    && (forall u :: u in plan.updates <==> (u.0, u.1) in RewrittenPairs(s, decl) && WantedFor(s, decl, (u.0, u.1)) == Some(u.2))
    && (forall i, j :: 0 <= i < j < |plan.inserts| ==> (plan.inserts[i].0, plan.inserts[i].1) != (plan.inserts[j].0, plan.inserts[j].1))
    && (forall n :: n in plan.inserts <==> (n.0, n.1) in AddedPairs(s, decl) && Wanted(decl, n.0, n.1) == Some(n.2))
    && plan.kept == |KeptPairs(s, decl)|
  }

  // ---- The statements ----

  ghost function RowWrite(s: Store, decl: seq<Declared>, actor: string, mint: seq<Id>, i: nat): seq<Write>
    requires i < |decl| && i < |mint|
  {
    var d := decl[i];
    match FateOf(s, d)
    case Insert => [InsertRow(mint[i], NewRow(d, actor))]
    case Keep => []
    case _ => [UpdateRow(OrgAt(s, d.Key()), d.displayName, d.sourceRepo, actor)]
  }

  ghost function RowWrites(s: Store, decl: seq<Declared>, actor: string, mint: seq<Id>, k: nat): seq<Write>
  {
    if k == 0 || k > |decl| || k > |mint| then [] else RowWrites(s, decl, actor, mint, k - 1) + RowWrite(s, decl, actor, mint, k - 1)
  }

  ghost function ArchiveWrites(s: Store, decl: seq<Declared>, actor: string): seq<Write> {
    if ToArchive(s, decl) == {} then [] else [ArchiveRows(ToArchive(s, decl), actor)]
  }

  /** The row a grant is inserted against, among the rows as they now stand. */
  ghost function RowIdAt(rows: map<Id, Row>, key: string): Id {
    if id :| id in rows && IsOrg(rows[id]) && Fold(rows[id].path) == key then id else 0
  }

  // ---- The rows are written as the specification says ----

  /** No private row can stand at a declared path: the class is read off the
      folded path. */
  lemma DeclaredPathsAreOrg(s: Store, d: Declared, id: Id)
    requires Schema(s) && !IsPrivateClass(d.path)
    requires id in s.projects && Fold(s.projects[id].path) == d.Key()
    ensures IsOrg(s.projects[id])
  {
    assert RowChecks(s.projects[id]);
    ClassCheckAgrees(s.projects[id].path);
    PrivateClassFolds(s.projects[id].path);
    PrivateClassFolds(d.path);
  }

  lemma NoRowAtNewKey(s: Store, decl: seq<Declared>, actor: string, mint: seq<Id>, k: nat, id: Id)
    requires Schema(s) && WellFormed(decl) && Fresh(s, decl, mint)
    requires k < |decl| && !HasOrg(s, decl[k].Key()) && id in RowsAfter(s, decl, actor, mint, k)
    ensures Fold(RowsAfter(s, decl, actor, mint, k)[id].path) != decl[k].Key()
  {
    var rows := RowsAfter(s, decl, actor, mint, k);
    assert OrgPath(decl[k].path);
    MintedIs(s, decl, actor, mint, k);
    if id in Minted(s, decl, actor, mint, k) {
      var i :| 0 <= i < k && mint[i] == id && rows[id] == NewRow(decl[i], actor);
    } else if Fold(s.projects[id].path) == decl[k].Key() {
      DeclaredPathsAreOrg(s, decl[k], id);
    }
  }

  /** A sync's insert can hit neither the unique index nor a CHECK. */
  lemma InsertNeverRefused(s: Store, decl: seq<Declared>, actor: string, mint: seq<Id>, k: nat)
    requires Schema(s) && WellFormed(decl) && Fresh(s, decl, mint)
    requires k < |decl| && !HasOrg(s, decl[k].Key())
    ensures var t := s.(projects := RowsAfter(s, decl, actor, mint, k));
      Exec(t, InsertRow(mint[k], NewRow(decl[k], actor))) ==
        Some(t.(projects := t.projects[mint[k] := NewRow(decl[k], actor)]))
  {
    var rows := RowsAfter(s, decl, actor, mint, k);
    var d := decl[k];
    assert OrgPath(d.path);
    ClassCheckAgrees(d.path);
    MintedIs(s, decl, actor, mint, k);
    forall id | id in rows
      ensures Fold(rows[id].path) != d.Key()
    {
      NoRowAtNewKey(s, decl, actor, mint, k, id);
    }
  }

  lemma OthersStay(s: Store, decl: seq<Declared>, actor: string, k: nat)
    requires PathsUnique(s.projects) && Keyed(decl) && k < |decl|
    ensures !HasOrg(s, decl[k].Key()) ==> StoredAfter(s, decl, actor, k + 1) == StoredAfter(s, decl, actor, k)
    ensures HasOrg(s, decl[k].Key()) ==>
      var id := OrgAt(s, decl[k].Key());
      && RowAfter(s.projects[id], decl, actor, k) == s.projects[id]
      && StoredAfter(s, decl, actor, k + 1) ==
           StoredAfter(s, decl, actor, k)[id := Overwritten(s.projects[id], decl[k], actor)]
  {
  }

  lemma OverlayUpdate<K, V>(a: map<K, V>, m: map<K, V>, k: K, v: V)
    requires k !in m
    ensures (a + m)[k := v] == a[k := v] + m
  {
  }

  lemma InsertedRowIsNext(s: Store, decl: seq<Declared>, actor: string, mint: seq<Id>, k: nat)
    requires PathsUnique(s.projects) && Keyed(decl) && Fresh(s, decl, mint) && k < |decl| && !HasOrg(s, decl[k].Key())
    ensures RowsAfter(s, decl, actor, mint, k)[mint[k] := NewRow(decl[k], actor)] == RowsAfter(s, decl, actor, mint, k + 1)
  {
    OthersStay(s, decl, actor, k);
  }

  lemma OverwrittenRowIsNext(s: Store, decl: seq<Declared>, actor: string, mint: seq<Id>, k: nat)
    requires PathsUnique(s.projects) && Keyed(decl) && Fresh(s, decl, mint) && k < |decl| && HasOrg(s, decl[k].Key())
    ensures var id := OrgAt(s, decl[k].Key());
      var before := RowsAfter(s, decl, actor, mint, k);
      id in before && before[id] == s.projects[id] &&
      before[id := Overwritten(s.projects[id], decl[k], actor)] == RowsAfter(s, decl, actor, mint, k + 1)
  {
    var id := OrgAt(s, decl[k].Key());
    OthersStay(s, decl, actor, k);
    MintedAreNew(s, decl, actor, mint, k, id);
    OverlayUpdate(StoredAfter(s, decl, actor, k), Minted(s, decl, actor, mint, k), id, Overwritten(s.projects[id], decl[k], actor));
  }

  lemma MintedAreNew(s: Store, decl: seq<Declared>, actor: string, mint: seq<Id>, k: nat, id: Id)
    requires Fresh(s, decl, mint) && k <= |decl| && id in s.projects
    ensures id !in Minted(s, decl, actor, mint, k)
  {
  }

  ghost function AfterRows(s: Store, decl: seq<Declared>, actor: string, mint: seq<Id>, k: nat): Store {
    s.(projects := RowsAfter(s, decl, actor, mint, k))
  }

  lemma UpdateAccepted(s: Store, id: Id, d: Declared, actor: string)
    requires Schema(s) && id in s.projects && IsOrg(s.projects[id])
    ensures RowChecks(Updated(s.projects[id], d.displayName, d.sourceRepo, actor))
  {
    assert RowChecks(s.projects[id]);
  }

  lemma KeepStep(s: Store, decl: seq<Declared>, actor: string, mint: seq<Id>, k: nat)
    requires Schema(s) && Keyed(decl) && Fresh(s, decl, mint) && k < |decl| && FateOf(s, decl[k]).Keep?
    ensures AfterRows(s, decl, actor, mint, k + 1) == AfterRows(s, decl, actor, mint, k)
  {
    var t, id := AfterRows(s, decl, actor, mint, k), OrgAt(s, decl[k].Key());
    OverwrittenRowIsNext(s, decl, actor, mint, k);
    assert t.projects[id := t.projects[id]] == t.projects;
  }

  lemma UpdateStep(s: Store, decl: seq<Declared>, actor: string, mint: seq<Id>, k: nat)
    requires Schema(s) && Keyed(decl) && Fresh(s, decl, mint) && k < |decl| && HasOrg(s, decl[k].Key()) && !FateOf(s, decl[k]).Keep?
    ensures Exec(AfterRows(s, decl, actor, mint, k), UpdateRow(OrgAt(s, decl[k].Key()), decl[k].displayName, decl[k].sourceRepo, actor))
      == Some(AfterRows(s, decl, actor, mint, k + 1))
  {
    OverwrittenRowIsNext(s, decl, actor, mint, k);
    UpdateAccepted(s, OrgAt(s, decl[k].Key()), decl[k], actor);
  }

  lemma OverwriteStep(s: Store, decl: seq<Declared>, actor: string, mint: seq<Id>, k: nat)
    requires Schema(s) && Keyed(decl) && Fresh(s, decl, mint) && k < |decl| && HasOrg(s, decl[k].Key())
    ensures Reaches(AfterRows(s, decl, actor, mint, k), RowWrite(s, decl, actor, mint, k), AfterRows(s, decl, actor, mint, k + 1))
  {
    var t, d := AfterRows(s, decl, actor, mint, k), decl[k];
    if FateOf(s, d).Keep? {
      KeepStep(s, decl, actor, mint, k);
      ReachesNone(t);
    } else {
      UpdateStep(s, decl, actor, mint, k);
      ReachesOne(t, UpdateRow(OrgAt(s, d.Key()), d.displayName, d.sourceRepo, actor), AfterRows(s, decl, actor, mint, k + 1));
    }
  }

  /** One turn of the row loop. */
  lemma RowStep(s: Store, decl: seq<Declared>, actor: string, mint: seq<Id>, k: nat)
    requires Schema(s) && WellFormed(decl) && Fresh(s, decl, mint) && k < |decl|
    ensures Reaches(AfterRows(s, decl, actor, mint, k), RowWrite(s, decl, actor, mint, k), AfterRows(s, decl, actor, mint, k + 1))
  {
    if HasOrg(s, decl[k].Key()) {
      OverwriteStep(s, decl, actor, mint, k);
    } else {
      InsertNeverRefused(s, decl, actor, mint, k);
      InsertedRowIsNext(s, decl, actor, mint, k);
      ReachesOne(AfterRows(s, decl, actor, mint, k), InsertRow(mint[k], NewRow(decl[k], actor)), AfterRows(s, decl, actor, mint, k + 1));
    }
  }

  lemma NothingWritten(s: Store, decl: seq<Declared>, actor: string, mint: seq<Id>)
    ensures Reaches(s, RowWrites(s, decl, actor, mint, 0), AfterRows(s, decl, actor, mint, 0))
  {
    assert RowsAfter(s, decl, actor, mint, 0) == s.projects;
    ReachesNone(s);
  }

  lemma {:induction false} RowWritesApply(s: Store, decl: seq<Declared>, actor: string, mint: seq<Id>, k: nat)
    requires Schema(s) && WellFormed(decl) && Fresh(s, decl, mint) && k <= |decl|
    ensures Reaches(s, RowWrites(s, decl, actor, mint, k), AfterRows(s, decl, actor, mint, k))
  {
    if k == 0 {
      NothingWritten(s, decl, actor, mint);
    } else {
      var j := k - 1;
      RowWritesApply(s, decl, actor, mint, j);
      RowStep(s, decl, actor, mint, j);
      RowWritesGlue(s, decl, actor, mint, j);
    }
  }

  lemma RowWritesGlue(s: Store, decl: seq<Declared>, actor: string, mint: seq<Id>, k: nat)
    requires k < |decl| == |mint|
    requires Reaches(s, RowWrites(s, decl, actor, mint, k), AfterRows(s, decl, actor, mint, k))
    requires Reaches(AfterRows(s, decl, actor, mint, k), RowWrite(s, decl, actor, mint, k), AfterRows(s, decl, actor, mint, k + 1))
    ensures Reaches(s, RowWrites(s, decl, actor, mint, k + 1), AfterRows(s, decl, actor, mint, k + 1))
  {
    var ws, w := RowWrites(s, decl, actor, mint, k), RowWrite(s, decl, actor, mint, k);
    assert RowWrites(s, decl, actor, mint, k + 1) == ws + w;
    ReachesConcat(s, ws, AfterRows(s, decl, actor, mint, k), w, AfterRows(s, decl, actor, mint, k + 1));
  }

  lemma ArchivedRowsAreSettled(s: Store, decl: seq<Declared>, actor: string, mint: seq<Id>)
    requires Fresh(s, decl, mint)
    ensures ArchivedAmong(RowsAfter(s, decl, actor, mint, |decl|), ToArchive(s, decl), actor) == SettledRows(s, decl, actor, mint)
  {
    MintedIs(s, decl, actor, mint, |decl|);
  }

  lemma ArchiveApplies(s: Store, decl: seq<Declared>, actor: string, mint: seq<Id>)
    requires Fresh(s, decl, mint)
    ensures Reaches(AfterRows(s, decl, actor, mint, |decl|), ArchiveWrites(s, decl, actor),
      s.(projects := SettledRows(s, decl, actor, mint)))
  {
    var t := AfterRows(s, decl, actor, mint, |decl|);
    var ids := ToArchive(s, decl);
    ArchivedRowsAreSettled(s, decl, actor, mint);
    if ids == {} {
      assert ArchivedAmong(t.projects, {}, actor) == t.projects;
      ReachesNone(t);
    } else {
      ReachesOne(t, ArchiveRows(ids, actor), s.(projects := SettledRows(s, decl, actor, mint)));
    }
  }
}
