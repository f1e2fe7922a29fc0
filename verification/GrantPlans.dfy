/** The grant half of a sync: a plan's deletes, updates and inserts, executed in
    that order, leave exactly the settled grants (src/write/grants.rs). */
module GrantPlans {
  import opened Declaration
  import opened Outcome
  import opened Reconcile
  import opened Registry
  import opened Text

  type Pair = (Id, string)

  // ---- The rows the grants are written against ----

  lemma SettledRowKeepsPath(s: Store, decl: seq<Declared>, actor: string, mint: seq<Id>, id: Id)
    requires Fresh(s, decl, mint) && id in s.projects
    ensures var rows := SettledRows(s, decl, actor, mint);
      id in rows && rows[id].path == s.projects[id].path && rows[id].owner == s.projects[id].owner
  {
    MintedAreNew(s, decl, actor, mint, |decl|, id);
  }

  lemma AddedRowIsNew(s: Store, decl: seq<Declared>, actor: string, mint: seq<Id>, id: Id)
    requires Fresh(s, decl, mint) && id in SettledRows(s, decl, actor, mint) && id !in s.projects
    ensures exists i :: 0 <= i < |decl| && mint[i] == id && !HasOrg(s, decl[i].Key()) && SettledRows(s, decl, actor, mint)[id] == NewRow(decl[i], actor)
  {
    MintedIs(s, decl, actor, mint, |decl|);
    assert id in Minted(s, decl, actor, mint, |decl|);
  }

  /** A sync re-spells no path, moves no row between the classes, and leaves
      every declared key exactly one org row. */
  lemma SettledRowsKeepPaths(s: Store, decl: seq<Declared>, actor: string, mint: seq<Id>)
    requires Fresh(s, decl, mint)
    ensures forall id :: id in s.projects ==>
      var rows := SettledRows(s, decl, actor, mint);
      id in rows && rows[id].path == s.projects[id].path && rows[id].owner == s.projects[id].owner
    ensures forall id :: id in SettledRows(s, decl, actor, mint) && id !in s.projects ==>
      exists i :: 0 <= i < |decl| && mint[i] == id && !HasOrg(s, decl[i].Key()) && SettledRows(s, decl, actor, mint)[id] == NewRow(decl[i], actor)
  {
    var rows := SettledRows(s, decl, actor, mint);
    forall id | id in s.projects
      ensures id in rows && rows[id].path == s.projects[id].path && rows[id].owner == s.projects[id].owner
    {
      SettledRowKeepsPath(s, decl, actor, mint, id);
    }
    forall id | id in rows && id !in s.projects
      ensures exists i :: 0 <= i < |decl| && mint[i] == id && !HasOrg(s, decl[i].Key()) && rows[id] == NewRow(decl[i], actor)
    {
      AddedRowIsNew(s, decl, actor, mint, id);
    }
  }

  lemma SettledRowsUnique(s: Store, decl: seq<Declared>, actor: string, mint: seq<Id>)
    requires Schema(s) && WellFormed(decl) && Fresh(s, decl, mint)
    ensures PathsUnique(SettledRows(s, decl, actor, mint))
  {
    var rows := SettledRows(s, decl, actor, mint);
    SettledRowsKeepPaths(s, decl, actor, mint);
    forall a, b | a in rows && b in rows && Fold(rows[a].path) == Fold(rows[b].path)
      ensures a == b
    {
      if a in s.projects && b in s.projects {
        assert Fold(s.projects[a].path) == Fold(s.projects[b].path);
      } else if a in s.projects {
        NoOrgAtInserted(s, decl, actor, mint, a, b);
      } else if b in s.projects {
        NoOrgAtInserted(s, decl, actor, mint, b, a);
      }
    }
  }

  lemma NoOrgAtInserted(s: Store, decl: seq<Declared>, actor: string, mint: seq<Id>, stored: Id, added: Id)
    requires Schema(s) && WellFormed(decl) && Fresh(s, decl, mint)
    requires stored in s.projects && added !in s.projects && added in SettledRows(s, decl, actor, mint)
    ensures Fold(s.projects[stored].path) != Fold(SettledRows(s, decl, actor, mint)[added].path)
  {
    SettledRowsKeepPaths(s, decl, actor, mint);
    var i :| 0 <= i < |decl| && mint[i] == added && !HasOrg(s, decl[i].Key()) && SettledRows(s, decl, actor, mint)[added] == NewRow(decl[i], actor);
    if Fold(s.projects[stored].path) == decl[i].Key() {
      assert OrgPath(decl[i].path);
      DeclaredPathsAreOrg(s, decl[i], stored);
    }
  }

  /** Every declared key names one org row: the one it had, or the one minted. */
  lemma DeclaredRowStands(s: Store, decl: seq<Declared>, actor: string, mint: seq<Id>, i: nat, id: Id)
    requires Schema(s) && WellFormed(decl) && Fresh(s, decl, mint) && i < |decl|
    requires id == if HasOrg(s, decl[i].Key()) then OrgAt(s, decl[i].Key()) else mint[i]
    ensures var rows := SettledRows(s, decl, actor, mint);
      id in rows && IsOrg(rows[id]) && Fold(rows[id].path) == decl[i].Key()
  {
    if HasOrg(s, decl[i].Key()) {
      SettledRowKeepsPath(s, decl, actor, mint, id);
    } else {
      MintedIs(s, decl, actor, mint, |decl|);
    }
  }

  lemma DeclaredRowExists(s: Store, decl: seq<Declared>, actor: string, mint: seq<Id>, i: nat)
    requires Schema(s) && WellFormed(decl) && Fresh(s, decl, mint) && i < |decl|
    ensures var rows := SettledRows(s, decl, actor, mint);
      var id := RowIdAt(rows, decl[i].Key());
      && id in rows && IsOrg(rows[id]) && Fold(rows[id].path) == decl[i].Key()
      && (HasOrg(s, decl[i].Key()) ==> id == OrgAt(s, decl[i].Key()))
      && (!HasOrg(s, decl[i].Key()) ==> id == mint[i])
  {
    SettledRowsUnique(s, decl, actor, mint);
    DeclaredRowStands(s, decl, actor, mint, i, if HasOrg(s, decl[i].Key()) then OrgAt(s, decl[i].Key()) else mint[i]);
  }

  // ---- The three stages, statement by statement ----

  ghost function Deleted(g: map<Pair, Level>, deletes: seq<Pair>, k: nat): map<Pair, Level> {
    if k == 0 || k > |deletes| then g else Deleted(g, deletes, k - 1) - {deletes[k - 1]}
  }

  ghost function Rewritten(g: map<Pair, Level>, updates: seq<(Id, string, Level)>, k: nat): map<Pair, Level> {
    if k == 0 || k > |updates| then g
    else Rewritten(g, updates, k - 1)[(updates[k - 1].0, updates[k - 1].1) := updates[k - 1].2]
  }

  ghost function InsertPair(rows: map<Id, Row>, n: (string, string, Level)): Pair {
    (RowIdAt(rows, n.0), n.1)
  }

  ghost function Inserted(g: map<Pair, Level>, inserts: seq<(string, string, Level)>, rows: map<Id, Row>, k: nat): map<Pair, Level> {
    if k == 0 || k > |inserts| then g
    else Inserted(g, inserts, rows, k - 1)[InsertPair(rows, inserts[k - 1]) := inserts[k - 1].2]
  }

  lemma {:induction false} DeletedAt(g: map<Pair, Level>, deletes: seq<Pair>, k: nat, x: Pair)
    requires k <= |deletes|
    ensures x in Deleted(g, deletes, k) <==> x in g && x !in deletes[..k]
    ensures x in Deleted(g, deletes, k) ==> Deleted(g, deletes, k)[x] == g[x]
  {
    if k > 0 {
      DeletedAt(g, deletes, k - 1, x);
      assert deletes[..k] == deletes[..k - 1] + [deletes[k - 1]];
    }
  }

  ghost predicate UpdatesDistinct(updates: seq<(Id, string, Level)>) {
    forall i, j :: 0 <= i < j < |updates| ==> (updates[i].0, updates[i].1) != (updates[j].0, updates[j].1)
  }

  ghost predicate UpdateNames(updates: seq<(Id, string, Level)>, k: nat, x: Pair) {
    exists i :: 0 <= i < k && i < |updates| && (updates[i].0, updates[i].1) == x
  }

  lemma {:induction false} RewrittenAt(g: map<Pair, Level>, updates: seq<(Id, string, Level)>, k: nat, x: Pair)
    requires k <= |updates| && UpdatesDistinct(updates)
    ensures x in Rewritten(g, updates, k) <==> x in g || UpdateNames(updates, k, x)
    ensures forall i :: 0 <= i < k && (updates[i].0, updates[i].1) == x ==> Rewritten(g, updates, k)[x] == updates[i].2
    ensures x in g && !UpdateNames(updates, k, x) ==> Rewritten(g, updates, k)[x] == g[x]
  {
    if k > 0 {
      RewrittenAt(g, updates, k - 1, x);
      assert UpdateNames(updates, k, x) <==> UpdateNames(updates, k - 1, x) || (updates[k - 1].0, updates[k - 1].1) == x;
    }
  }

  ghost predicate InsertNames(inserts: seq<(string, string, Level)>, rows: map<Id, Row>, k: nat, x: Pair) {
    exists i :: 0 <= i < k && i < |inserts| && InsertPair(rows, inserts[i]) == x
  }

  ghost predicate InsertsDistinct(inserts: seq<(string, string, Level)>, rows: map<Id, Row>) {
    forall i, j :: 0 <= i < j < |inserts| ==> InsertPair(rows, inserts[i]) != InsertPair(rows, inserts[j])
  }

  lemma {:induction false} InsertedAt(g: map<Pair, Level>, inserts: seq<(string, string, Level)>, rows: map<Id, Row>, k: nat, x: Pair)
    requires k <= |inserts| && InsertsDistinct(inserts, rows)
    ensures x in Inserted(g, inserts, rows, k) <==> x in g || InsertNames(inserts, rows, k, x)
    ensures forall i :: 0 <= i < k && InsertPair(rows, inserts[i]) == x ==> Inserted(g, inserts, rows, k)[x] == inserts[i].2
    ensures x in g && !InsertNames(inserts, rows, k, x) ==> Inserted(g, inserts, rows, k)[x] == g[x]
  {
    if k > 0 {
      InsertedAt(g, inserts, rows, k - 1, x);
      assert InsertNames(inserts, rows, k, x) <==> InsertNames(inserts, rows, k - 1, x) || InsertPair(rows, inserts[k - 1]) == x;
    }
  }

  ghost function PlanApplied(g: map<Pair, Level>, plan: GrantPlan, rows: map<Id, Row>): map<Pair, Level> {
    Inserted(
      Rewritten(Deleted(g, plan.deletes, |plan.deletes|), plan.updates, |plan.updates|),
      plan.inserts, rows, |plan.inserts|)
  }

  // ---- The stages leave the settled grants ----

  lemma WantedIsDeclared(decl: seq<Declared>, key: string, team: string)
    requires Keyed(decl)
    ensures Wanted(decl, key, team).Some? <==> team in TeamsAt(decl, key)
    ensures Wanted(decl, key, team).Some? <==> (key, team) in DeclaredPairs(decl)
  {
  }

  /** An insert's row is the one org row at its key, and holds no grant for its
      team: the primary key is never broken and a row is always found. */
  lemma InsertIsNew(s: Store, decl: seq<Declared>, actor: string, mint: seq<Id>, plan: GrantPlan, n: (string, string, Level))
    requires Schema(s) && WellFormed(decl) && Fresh(s, decl, mint) && IsPlan(plan, s, decl) && n in plan.inserts
    ensures var rows := SettledRows(s, decl, actor, mint);
      var id := RowIdAt(rows, n.0);
      id in rows && IsOrg(rows[id]) && Fold(rows[id].path) == n.0 && (id, n.1) !in s.grants
  {
    assert (n.0, n.1) in AddedPairs(s, decl);
    var i, g :| 0 <= i < |decl| && g in decl[i].grants && (decl[i].Key(), g.team) == (n.0, n.1);
    DeclaredRowExists(s, decl, actor, mint, i);
    if HasOrg(s, n.0) {
      assert (OrgAt(s, n.0), n.1) !in OrgGrants(s);
    }
  }

  lemma InsertsAreNew(s: Store, decl: seq<Declared>, actor: string, mint: seq<Id>, plan: GrantPlan)
    requires Schema(s) && WellFormed(decl) && Fresh(s, decl, mint) && IsPlan(plan, s, decl)
    ensures var rows := SettledRows(s, decl, actor, mint);
      && InsertsDistinct(plan.inserts, rows)
      && forall i :: 0 <= i < |plan.inserts| ==> InsertPair(rows, plan.inserts[i]) !in s.grants
  {
    var rows := SettledRows(s, decl, actor, mint);
    forall i | 0 <= i < |plan.inserts|
      ensures InsertPair(rows, plan.inserts[i]) !in s.grants
      ensures KeyOf(rows, InsertPair(rows, plan.inserts[i]).0) == plan.inserts[i].0
    {
      InsertIsNew(s, decl, actor, mint, plan, plan.inserts[i]);
    }
  }

  ghost function KeyOf(rows: map<Id, Row>, id: Id): string {
    if id in rows then Fold(rows[id].path) else ""
  }

  /** What the three stages do to one pair. */
  lemma StagesAt(g: map<Pair, Level>, plan: GrantPlan, rows: map<Id, Row>, x: Pair)
    requires UpdatesDistinct(plan.updates) && InsertsDistinct(plan.inserts, rows)
    ensures x in PlanApplied(g, plan, rows) <==>
      (x in g && x !in plan.deletes) || UpdateNames(plan.updates, |plan.updates|, x) || InsertNames(plan.inserts, rows, |plan.inserts|, x)
    ensures x in PlanApplied(g, plan, rows) && !InsertNames(plan.inserts, rows, |plan.inserts|, x) ==>
      && (UpdateNames(plan.updates, |plan.updates|, x) ==> (x.0, x.1, PlanApplied(g, plan, rows)[x]) in plan.updates)
      && (!UpdateNames(plan.updates, |plan.updates|, x) ==> PlanApplied(g, plan, rows)[x] == g[x])
    ensures forall i :: 0 <= i < |plan.inserts| && InsertPair(rows, plan.inserts[i]) == x ==>
      PlanApplied(g, plan, rows)[x] == plan.inserts[i].2
  {
    var d := Deleted(g, plan.deletes, |plan.deletes|);
    var u := Rewritten(d, plan.updates, |plan.updates|);
    DeletedAt(g, plan.deletes, |plan.deletes|, x);
    assert plan.deletes[..|plan.deletes|] == plan.deletes;
    RewrittenAt(d, plan.updates, |plan.updates|, x);
    InsertedAt(u, plan.inserts, rows, |plan.inserts|, x);
    if UpdateNames(plan.updates, |plan.updates|, x) {
      var i :| 0 <= i < |plan.updates| && (plan.updates[i].0, plan.updates[i].1) == x;
      assert plan.updates[i] == (x.0, x.1, u[x]);
    }
  }

  lemma AddedPairIsInserted(s: Store, decl: seq<Declared>, actor: string, mint: seq<Id>, plan: GrantPlan, x: Pair)
    requires Schema(s) && WellFormed(decl) && Fresh(s, decl, mint) && IsPlan(plan, s, decl)
    requires x !in s.grants
    requires var rows := SettledRows(s, decl, actor, mint);
      x.0 in rows && IsOrg(rows[x.0]) && Wanted(decl, Fold(rows[x.0].path), x.1).Some?
    ensures var rows := SettledRows(s, decl, actor, mint);
      var n := (Fold(rows[x.0].path), x.1, Wanted(decl, Fold(rows[x.0].path), x.1).value);
      n in plan.inserts && InsertPair(rows, n) == x
  {
    var rows := SettledRows(s, decl, actor, mint);
    var key := Fold(rows[x.0].path);
    WantedIsDeclared(decl, key, x.1);
    SettledRowsKeepPaths(s, decl, actor, mint);
    SettledRowsUnique(s, decl, actor, mint);
    assert forall g :: g in OrgGrants(s) && g.1 == x.1 ==> Fold(rows[g.0].path) != key;
    assert (key, x.1) in AddedPairs(s, decl);
    var n := (key, x.1, Wanted(decl, key, x.1).value);
    assert n in plan.inserts;
    InsertIsNew(s, decl, actor, mint, plan, n);
  }

  ghost predicate AgreeAt<K(!new), V>(a: map<K, V>, b: map<K, V>, x: K) {
    (x in a <==> x in b) && (x in a && x in b ==> a[x] == b[x])
  }

  lemma SameMap<K(!new), V>(a: map<K, V>, b: map<K, V>)
    requires forall x {:trigger AgreeAt(a, b, x)} :: AgreeAt(a, b, x)
    ensures a == b
  {
    forall x
      ensures x in a <==> x in b
      ensures x in a && x in b ==> a[x] == b[x]
    {
      assert AgreeAt(a, b, x);
    }
  }

  /** The plan is a correct diff: applied to the stored grants it leaves the
      declared ones on org rows, archived rows included, and every grant on a
      private row as it was. */
  lemma PlanSettles(s: Store, decl: seq<Declared>, actor: string, mint: seq<Id>, plan: GrantPlan)
    requires Schema(s) && WellFormed(decl) && Fresh(s, decl, mint) && IsPlan(plan, s, decl)
    ensures var rows := SettledRows(s, decl, actor, mint);
      PlanApplied(s.grants, plan, rows) == SettledGrants(s, decl, rows)
  {
    var rows := SettledRows(s, decl, actor, mint);
    var g, t := PlanApplied(s.grants, plan, rows), SettledGrants(s, decl, rows);
    forall x {:trigger AgreeAt(g, t, x)}
      ensures AgreeAt(g, t, x)
    {
      PlanSettlesAt(s, decl, actor, mint, plan, x);
    }
    SameMap(g, t);
  }

  lemma PlanSettlesAt(s: Store, decl: seq<Declared>, actor: string, mint: seq<Id>, plan: GrantPlan, x: Pair)
    requires Schema(s) && WellFormed(decl) && Fresh(s, decl, mint) && IsPlan(plan, s, decl)
    ensures var rows := SettledRows(s, decl, actor, mint);
      AgreeAt(PlanApplied(s.grants, plan, rows), SettledGrants(s, decl, rows), x)
  {
    InsertsAreNew(s, decl, actor, mint, plan);
    StagesAt(s.grants, plan, SettledRows(s, decl, actor, mint), x);
    if x in s.grants {
      StoredPairSettles(s, decl, actor, mint, plan, x);
    } else {
      NewPairSettles(s, decl, actor, mint, plan, x);
    }
  }

  lemma UpdatesAre(s: Store, decl: seq<Declared>, plan: GrantPlan, x: Pair)
    requires IsPlan(plan, s, decl)
    ensures UpdateNames(plan.updates, |plan.updates|, x) <==> x in RewrittenPairs(s, decl)
  {
    if UpdateNames(plan.updates, |plan.updates|, x) {
      var i :| 0 <= i < |plan.updates| && (plan.updates[i].0, plan.updates[i].1) == x;
      assert plan.updates[i] in plan.updates;
    }
    if x in RewrittenPairs(s, decl) {
      assert (x.0, x.1, WantedFor(s, decl, x).value) in plan.updates;
    }
  }

  lemma StoredPairIsNotInserted(s: Store, decl: seq<Declared>, actor: string, mint: seq<Id>, plan: GrantPlan, x: Pair)
    requires Schema(s) && WellFormed(decl) && Fresh(s, decl, mint) && IsPlan(plan, s, decl) && x in s.grants
    ensures !InsertNames(plan.inserts, SettledRows(s, decl, actor, mint), |plan.inserts|, x)
  {
    InsertsAreNew(s, decl, actor, mint, plan);
  }

  lemma StoredPairSettles(s: Store, decl: seq<Declared>, actor: string, mint: seq<Id>, plan: GrantPlan, x: Pair)
    requires Schema(s) && WellFormed(decl) && Fresh(s, decl, mint) && IsPlan(plan, s, decl) && x in s.grants
    ensures var rows := SettledRows(s, decl, actor, mint);
      var t := SettledGrants(s, decl, rows);
      && !InsertNames(plan.inserts, rows, |plan.inserts|, x)
      && (x in t <==> x !in plan.deletes || UpdateNames(plan.updates, |plan.updates|, x))
      && (x in t && UpdateNames(plan.updates, |plan.updates|, x) ==> (x.0, x.1, t[x]) in plan.updates)
      && (forall l :: (x.0, x.1, l) in plan.updates ==> WantedFor(s, decl, x) == Some(l))
      && (x in t && !UpdateNames(plan.updates, |plan.updates|, x) ==> t[x] == s.grants[x])
  {
    var rows := SettledRows(s, decl, actor, mint);
    StoredPairIsNotInserted(s, decl, actor, mint, plan, x);
    SettledRowKeepsPath(s, decl, actor, mint, x.0);
    UpdatesAre(s, decl, plan, x);
    WantedIsDeclared(decl, Fold(rows[x.0].path), x.1);
  }

  lemma NewPairSettles(s: Store, decl: seq<Declared>, actor: string, mint: seq<Id>, plan: GrantPlan, x: Pair)
    requires Schema(s) && WellFormed(decl) && Fresh(s, decl, mint) && IsPlan(plan, s, decl) && x !in s.grants
    ensures var rows := SettledRows(s, decl, actor, mint);
      var t := SettledGrants(s, decl, rows);
      && !UpdateNames(plan.updates, |plan.updates|, x)
      && (x in t <==> InsertNames(plan.inserts, rows, |plan.inserts|, x))
      && (x in t ==> exists i :: 0 <= i < |plan.inserts| && InsertPair(rows, plan.inserts[i]) == x && plan.inserts[i].2 == t[x])
  {
    var rows := SettledRows(s, decl, actor, mint);
    var t := SettledGrants(s, decl, rows);
    UpdatesAre(s, decl, plan, x);
    if x in t {
      WantedIsDeclared(decl, Fold(rows[x.0].path), x.1);
      AddedPairIsInserted(s, decl, actor, mint, plan, x);
    }
    if InsertNames(plan.inserts, rows, |plan.inserts|, x) {
      var i :| 0 <= i < |plan.inserts| && InsertPair(rows, plan.inserts[i]) == x;
      InsertIsNew(s, decl, actor, mint, plan, plan.inserts[i]);
      WantedIsDeclared(decl, Fold(rows[x.0].path), x.1);
    }
  }

  // ---- Statement by statement ----

  function DeleteWrites(deletes: seq<Pair>, k: nat): seq<Write> {
    if k == 0 || k > |deletes| then [] else DeleteWrites(deletes, k - 1) + [DeleteGrant(deletes[k - 1].0, deletes[k - 1].1)]
  }

  lemma {:induction false} DeletesApply(s: Store, deletes: seq<Pair>, k: nat)
    requires k <= |deletes|
    ensures Reaches(s, DeleteWrites(deletes, k), s.(grants := Deleted(s.grants, deletes, k)))
  {
    if k == 0 {
      ReachesNone(s);
    } else {
      DeletesApply(s, deletes, k - 1);
      var t, u := s.(grants := Deleted(s.grants, deletes, k - 1)), s.(grants := Deleted(s.grants, deletes, k));
      var w := DeleteGrant(deletes[k - 1].0, deletes[k - 1].1);
      ReachesOne(t, w, u);
      ReachesConcat(s, DeleteWrites(deletes, k - 1), t, [w], u);
    }
  }

  function UpdateWrites(updates: seq<(Id, string, Level)>, k: nat): seq<Write> {
    if k == 0 || k > |updates| then []
    else UpdateWrites(updates, k - 1) + [SetLevel(updates[k - 1].0, updates[k - 1].1, updates[k - 1].2)]
  }

  lemma {:induction false} UpdatesApply(s: Store, updates: seq<(Id, string, Level)>, k: nat)
    requires k <= |updates| && UpdatesDistinct(updates)
    requires forall i :: 0 <= i < |updates| ==> (updates[i].0, updates[i].1) in s.grants
    ensures Reaches(s, UpdateWrites(updates, k), s.(grants := Rewritten(s.grants, updates, k)))
  {
    if k == 0 {
      ReachesNone(s);
    } else {
      UpdatesApply(s, updates, k - 1);
      var t, u := s.(grants := Rewritten(s.grants, updates, k - 1)), s.(grants := Rewritten(s.grants, updates, k));
      RewrittenAt(s.grants, updates, k - 1, (updates[k - 1].0, updates[k - 1].1));
      var w := SetLevel(updates[k - 1].0, updates[k - 1].1, updates[k - 1].2);
      ReachesOne(t, w, u);
      ReachesConcat(s, UpdateWrites(updates, k - 1), t, [w], u);
    }
  }

  ghost function InsertWrites(inserts: seq<(string, string, Level)>, rows: map<Id, Row>, k: nat): seq<Write> {
    if k == 0 || k > |inserts| then []
    else InsertWrites(inserts, rows, k - 1) + [InsertGrant(RowIdAt(rows, inserts[k - 1].0), inserts[k - 1].1, inserts[k - 1].2)]
  }

  lemma {:induction false} InsertsApply(s: Store, inserts: seq<(string, string, Level)>, k: nat)
    requires k <= |inserts| && InsertsDistinct(inserts, s.projects)
    requires forall i :: 0 <= i < |inserts| ==>
      InsertPair(s.projects, inserts[i]) !in s.grants && RowIdAt(s.projects, inserts[i].0) in s.projects
    ensures Reaches(s, InsertWrites(inserts, s.projects, k), s.(grants := Inserted(s.grants, inserts, s.projects, k)))
  {
    if k == 0 {
      ReachesNone(s);
    } else {
      InsertsApply(s, inserts, k - 1);
      var t, u := s.(grants := Inserted(s.grants, inserts, s.projects, k - 1)), s.(grants := Inserted(s.grants, inserts, s.projects, k));
      InsertedAt(s.grants, inserts, s.projects, k - 1, InsertPair(s.projects, inserts[k - 1]));
      var w := InsertGrant(RowIdAt(s.projects, inserts[k - 1].0), inserts[k - 1].1, inserts[k - 1].2);
      ReachesOne(t, w, u);
      ReachesConcat(s, InsertWrites(inserts, s.projects, k - 1), t, [w], u);
    }
  }

  ghost function GrantWrites(plan: GrantPlan, rows: map<Id, Row>): seq<Write> {
    DeleteWrites(plan.deletes, |plan.deletes|) +
    (UpdateWrites(plan.updates, |plan.updates|) + InsertWrites(plan.inserts, rows, |plan.inserts|))
  }

  /** No grant statement of a plan is refused, and together they settle. */
  lemma GrantWritesApply(s: Store, decl: seq<Declared>, actor: string, mint: seq<Id>, plan: GrantPlan)
    requires Schema(s) && WellFormed(decl) && Fresh(s, decl, mint) && IsPlan(plan, s, decl)
    ensures var rows := SettledRows(s, decl, actor, mint);
      Reaches(s.(projects := rows), GrantWrites(plan, rows), Converged(s, decl, actor, mint))
  {
    var rows := SettledRows(s, decl, actor, mint);
    var t := s.(projects := rows);
    var d := t.(grants := Deleted(s.grants, plan.deletes, |plan.deletes|));
    var u := d.(grants := Rewritten(d.grants, plan.updates, |plan.updates|));
    DeletesApply(t, plan.deletes, |plan.deletes|);
    UpdatesSurvive(s, decl, plan);
    UpdatesApply(d, plan.updates, |plan.updates|);
    InsertsStayNew(s, decl, actor, mint, plan);
    InsertsApply(u, plan.inserts, |plan.inserts|);
    PlanSettles(s, decl, actor, mint, plan);
    ReachesConcat(d, UpdateWrites(plan.updates, |plan.updates|), u,
      InsertWrites(plan.inserts, rows, |plan.inserts|), Converged(s, decl, actor, mint));
    ReachesConcat(t, DeleteWrites(plan.deletes, |plan.deletes|), d,
      UpdateWrites(plan.updates, |plan.updates|) + InsertWrites(plan.inserts, rows, |plan.inserts|), Converged(s, decl, actor, mint));
  }

  lemma UpdatesSurvive(s: Store, decl: seq<Declared>, plan: GrantPlan)
    requires IsPlan(plan, s, decl)
    ensures forall i :: 0 <= i < |plan.updates| ==>
      (plan.updates[i].0, plan.updates[i].1) in Deleted(s.grants, plan.deletes, |plan.deletes|)
  {
    forall i | 0 <= i < |plan.updates|
      ensures (plan.updates[i].0, plan.updates[i].1) in Deleted(s.grants, plan.deletes, |plan.deletes|)
    {
      var x := (plan.updates[i].0, plan.updates[i].1);
      assert plan.updates[i] in plan.updates;
      assert x in RewrittenPairs(s, decl);
      DeletedAt(s.grants, plan.deletes, |plan.deletes|, x);
      assert plan.deletes[..|plan.deletes|] == plan.deletes;
    }
  }

  lemma InsertsStayNew(s: Store, decl: seq<Declared>, actor: string, mint: seq<Id>, plan: GrantPlan)
    requires Schema(s) && WellFormed(decl) && Fresh(s, decl, mint) && IsPlan(plan, s, decl)
    ensures var rows := SettledRows(s, decl, actor, mint);
      && InsertsDistinct(plan.inserts, rows)
      && forall i :: 0 <= i < |plan.inserts| ==>
        && RowIdAt(rows, plan.inserts[i].0) in rows
        && InsertPair(rows, plan.inserts[i]) !in
             Rewritten(Deleted(s.grants, plan.deletes, |plan.deletes|), plan.updates, |plan.updates|)
  {
    var rows := SettledRows(s, decl, actor, mint);
    var d := Deleted(s.grants, plan.deletes, |plan.deletes|);
    InsertsAreNew(s, decl, actor, mint, plan);
    forall i | 0 <= i < |plan.inserts|
      ensures RowIdAt(rows, plan.inserts[i].0) in rows
      ensures InsertPair(rows, plan.inserts[i]) !in Rewritten(d, plan.updates, |plan.updates|)
    {
      var x := InsertPair(rows, plan.inserts[i]);
      InsertIsNew(s, decl, actor, mint, plan, plan.inserts[i]);
      DeletedAt(s.grants, plan.deletes, |plan.deletes|, x);
      RewrittenAt(d, plan.updates, |plan.updates|, x);
      UpdatesAre(s, decl, plan, x);
    }
  }

  // ---- The whole sync ----

  /** Every write of a sync, in order. */
  ghost function SyncWrites(s: Store, decl: seq<Declared>, actor: string, mint: seq<Id>, plan: GrantPlan): seq<Write> {
    RowWrites(s, decl, actor, mint, |decl|) +
    (ArchiveWrites(s, decl, actor) + GrantWrites(plan, SettledRows(s, decl, actor, mint)))
  }

  /** No statement of a sync is refused by the engine, and together they take
      the registry to the converged one. */
  lemma SyncWritesConverge(s: Store, decl: seq<Declared>, actor: string, mint: seq<Id>, plan: GrantPlan)
    requires Schema(s) && WellFormed(decl) && Fresh(s, decl, mint) && IsPlan(plan, s, decl)
    ensures Reaches(s, SyncWrites(s, decl, actor, mint, plan), Converged(s, decl, actor, mint))
  {
    var rows := SettledRows(s, decl, actor, mint);
    var grantWrites := GrantWrites(plan, rows);
    RowWritesApply(s, decl, actor, mint, |decl|);
    ArchiveApplies(s, decl, actor, mint);
    GrantWritesApply(s, decl, actor, mint, plan);
    ReachesConcat(AfterRows(s, decl, actor, mint, |decl|), ArchiveWrites(s, decl, actor), s.(projects := rows),
      grantWrites, Converged(s, decl, actor, mint));
    ReachesConcat(s, RowWrites(s, decl, actor, mint, |decl|), AfterRows(s, decl, actor, mint, |decl|),
      ArchiveWrites(s, decl, actor) + grantWrites, Converged(s, decl, actor, mint));
  }
}
