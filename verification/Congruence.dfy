/** A sync reads the org rows, their grants and the aliases, and nothing else:
    two registries that agree on those are one registry to it. */
module Congruence {
  import opened Declaration
  import opened GrantPlans
  import opened Reconcile
  import opened Registry
  import opened Syncs
  import opened Text

  ghost predicate OrgIn(s: Store, id: Id) {
    id in s.projects && IsOrg(s.projects[id])
  }

  /** Agreement on everything a sync reads. */
  ghost predicate OrgSame(a: Store, b: Store) {
    && (forall id {:trigger OrgIn(a, id)} {:trigger OrgIn(b, id)} :: OrgIn(a, id) <==> OrgIn(b, id))
    && (forall id {:trigger OrgIn(a, id)} {:trigger OrgIn(b, id)} :: OrgIn(a, id) && OrgIn(b, id) ==> a.projects[id] == b.projects[id])
    && OrgGrants(a) == OrgGrants(b)
    && (forall g :: g in OrgGrants(a) && g in OrgGrants(b) ==> a.grants[g] == b.grants[g])
    && a.aliases == b.aliases
  }

  lemma SameHasOrg(a: Store, b: Store, key: string)
    requires OrgSame(a, b)
    ensures HasOrg(a, key) <==> HasOrg(b, key)
    ensures HasOrg(a, key) && PathsUnique(a.projects) && PathsUnique(b.projects) ==>
      OrgAt(a, key) == OrgAt(b, key) && a.projects[OrgAt(a, key)] == b.projects[OrgAt(b, key)]
  {
    if HasOrg(a, key) {
      var id := OrgAt(a, key);
      assert OrgIn(a, id) && OrgIn(b, id);
      assert Fold(b.projects[id].path) == key;
      if PathsUnique(b.projects) && HasOrg(b, key) {
        assert Fold(b.projects[OrgAt(b, key)].path) == Fold(b.projects[id].path);
      }
    }
    if HasOrg(b, key) {
      assert OrgIn(b, OrgAt(b, key)) && OrgIn(a, OrgAt(b, key));
    }
  }

  lemma SameFate(a: Store, b: Store, d: Declared)
    requires OrgSame(a, b) && PathsUnique(a.projects) && PathsUnique(b.projects)
    ensures FateOf(a, d) == FateOf(b, d)
  {
    SameHasOrg(a, b, d.Key());
  }

  lemma {:induction false} SameCount(a: Store, b: Store, decl: seq<Declared>, f: Fate, k: nat)
    requires OrgSame(a, b) && PathsUnique(a.projects) && PathsUnique(b.projects)
    ensures CountFate(a, decl, f, k) == CountFate(b, decl, f, k)
  {
    if 0 < k <= |decl| {
      SameCount(a, b, decl, f, k - 1);
      SameFate(a, b, decl[k - 1]);
    }
  }

  lemma SameArchive(a: Store, b: Store, decl: seq<Declared>)
    requires OrgSame(a, b)
    ensures ToArchive(a, decl) == ToArchive(b, decl) && ActiveRows(a) == ActiveRows(b)
  {
    forall id
      ensures id in ActiveRows(a) <==> id in ActiveRows(b)
      ensures id in ToArchive(a, decl) <==> id in ToArchive(b, decl)
    {
      assert OrgIn(a, id) <==> OrgIn(b, id);
    }
  }

  lemma SameWanted(a: Store, b: Store, decl: seq<Declared>, g: Pair)
    requires OrgSame(a, b) && g in OrgGrants(a)
    ensures g in OrgGrants(b) && WantedFor(a, decl, g) == WantedFor(b, decl, g) && a.grants[g] == b.grants[g]
    ensures Fold(a.projects[g.0].path) == Fold(b.projects[g.0].path)
  {
    assert OrgIn(a, g.0) && OrgIn(b, g.0);
  }

  lemma OrgSameSymmetric(a: Store, b: Store)
    requires OrgSame(a, b)
    ensures OrgSame(b, a)
  {
  }

  lemma SamePairsOneWay(a: Store, b: Store, decl: seq<Declared>)
    requires OrgSame(a, b)
    ensures RevokedPairs(a, decl) <= RevokedPairs(b, decl)
    ensures RewrittenPairs(a, decl) <= RewrittenPairs(b, decl)
    ensures KeptPairs(a, decl) <= KeptPairs(b, decl)
    ensures AddedPairs(b, decl) <= AddedPairs(a, decl)
  {
    forall g | g in OrgGrants(a)
      ensures g in OrgGrants(b) && WantedFor(a, decl, g) == WantedFor(b, decl, g) && a.grants[g] == b.grants[g]
    {
      SameWanted(a, b, decl, g);
    }
    forall p | p in DeclaredPairs(decl) && PairHasRow(a, p.0, p.1)
      ensures PairHasRow(b, p.0, p.1)
    {
      var g :| g in OrgGrants(a) && g.1 == p.1 && Fold(a.projects[g.0].path) == p.0;
      SameWanted(a, b, decl, g);
    }
  }

  lemma SamePairs(a: Store, b: Store, decl: seq<Declared>)
    requires OrgSame(a, b)
    ensures RevokedPairs(a, decl) == RevokedPairs(b, decl)
    ensures RewrittenPairs(a, decl) == RewrittenPairs(b, decl)
    ensures KeptPairs(a, decl) == KeptPairs(b, decl)
    ensures AddedPairs(b, decl) == AddedPairs(a, decl)
  {
    OrgSameSymmetric(a, b);
    SamePairsOneWay(a, b, decl);
    SamePairsOneWay(b, a, decl);
  }

  /** The same refusals and the same answer. */
  lemma SameAnswer(a: Store, b: Store, decl: seq<Declared>, guards: Guards)
    requires OrgSame(a, b) && PathsUnique(a.projects) && PathsUnique(b.projects)
    ensures OnAlias(a, decl) <==> OnAlias(b, decl)
    ensures Refusal(a, decl, guards) == Refusal(b, decl, guards)
    ensures Response(a, decl) == Response(b, decl)
  {
    forall key: string
      ensures AliasAt(a, key) <==> AliasAt(b, key)
    {
    }
    SameArchive(a, b, decl);
    SamePairs(a, b, decl);
    SameCount(a, b, decl, Insert, |decl|);
    SameCount(a, b, decl, Update, |decl|);
    SameCount(a, b, decl, Reactivate, |decl|);
    SameCount(a, b, decl, Keep, |decl|);
  }

  /** A plan for one is a plan for the other. */
  lemma SamePlan(a: Store, b: Store, decl: seq<Declared>, plan: GrantPlan)
    requires OrgSame(a, b) && IsPlan(plan, a, decl)
    ensures IsPlan(plan, b, decl)
  {
    SamePairs(a, b, decl);
    forall g | g in RewrittenPairs(a, decl)
      ensures WantedFor(a, decl, g) == WantedFor(b, decl, g)
    {
      SameWanted(a, b, decl, g);
    }
  }

  lemma {:induction false} SameRowWrites(a: Store, b: Store, decl: seq<Declared>, actor: string, mint: seq<Id>, k: nat)
    requires OrgSame(a, b) && PathsUnique(a.projects) && PathsUnique(b.projects)
    ensures RowWrites(a, decl, actor, mint, k) == RowWrites(b, decl, actor, mint, k)
    ensures Minted(a, decl, actor, mint, k) == Minted(b, decl, actor, mint, k)
  {
    if 0 < k <= |decl| && k <= |mint| {
      SameRowWrites(a, b, decl, actor, mint, k - 1);
      SameHasOrg(a, b, decl[k - 1].Key());
      SameFate(a, b, decl[k - 1]);
    }
  }

  lemma SameInsertRow(a: Store, b: Store, decl: seq<Declared>, actor: string, mint: seq<Id>, plan: GrantPlan, n: (string, string, Level))
    requires OrgSame(a, b) && Schema(a) && Schema(b) && WellFormed(decl) && Fresh(a, decl, mint) && Fresh(b, decl, mint)
    requires IsPlan(plan, a, decl) && n in plan.inserts
    ensures RowIdAt(SettledRows(a, decl, actor, mint), n.0) == RowIdAt(SettledRows(b, decl, actor, mint), n.0)
  {
    assert (n.0, n.1) in AddedPairs(a, decl);
    var i, g :| 0 <= i < |decl| && g in decl[i].grants && (decl[i].Key(), g.team) == (n.0, n.1);
    DeclaredRowExists(a, decl, actor, mint, i);
    DeclaredRowExists(b, decl, actor, mint, i);
    SameHasOrg(a, b, n.0);
  }

  lemma {:induction false} SameInsertWrites(inserts: seq<(string, string, Level)>, x: map<Id, Row>, y: map<Id, Row>, k: nat)
    requires forall n :: n in inserts ==> RowIdAt(x, n.0) == RowIdAt(y, n.0)
    ensures InsertWrites(inserts, x, k) == InsertWrites(inserts, y, k)
  {
    if 0 < k <= |inserts| {
      SameInsertWrites(inserts, x, y, k - 1);
      assert inserts[k - 1] in inserts;
    }
  }

  /** The same statements. */
  lemma SameWrites(a: Store, b: Store, decl: seq<Declared>, actor: string, mint: seq<Id>, plan: GrantPlan)
    requires OrgSame(a, b) && Schema(a) && Schema(b) && WellFormed(decl) && Fresh(a, decl, mint) && Fresh(b, decl, mint)
    requires IsPlan(plan, a, decl)
    ensures SyncWrites(a, decl, actor, mint, plan) == SyncWrites(b, decl, actor, mint, plan)
  {
    SameRowWrites(a, b, decl, actor, mint, |decl|);
    SameArchive(a, b, decl);
    forall n | n in plan.inserts
      ensures RowIdAt(SettledRows(a, decl, actor, mint), n.0) == RowIdAt(SettledRows(b, decl, actor, mint), n.0)
    {
      SameInsertRow(a, b, decl, actor, mint, plan, n);
    }
    SameInsertWrites(plan.inserts, SettledRows(a, decl, actor, mint), SettledRows(b, decl, actor, mint), |plan.inserts|);
  }

  /** And the same active rows and grants to show for it. */
  lemma SameView(a: Store, b: Store)
    requires OrgSame(a, b)
    ensures ActiveView(a) == ActiveView(b)
  {
    forall id
      ensures OrgIn(a, id) <==> OrgIn(b, id)
      ensures OrgIn(a, id) ==> a.projects[id] == b.projects[id]
    {
    }
    forall x
      ensures x in ActiveView(a) <==> x in ActiveView(b)
    {
      if x in ActiveView(a) {
        var id :| id in a.projects && ActiveOrg(a.projects[id]) && x == (Fold(a.projects[id].path), a.projects[id].displayName, a.projects[id].sourceRepo);
        assert OrgIn(a, id) && OrgIn(b, id);
      }
      if x in ActiveView(b) {
        var id :| id in b.projects && ActiveOrg(b.projects[id]) && x == (Fold(b.projects[id].path), b.projects[id].displayName, b.projects[id].sourceRepo);
        assert OrgIn(a, id) && OrgIn(b, id);
      }
    }
  }

  lemma SameGrants(a: Store, b: Store, key: string, team: string, level: Level)
    requires OrgSame(a, b)
    ensures Grants(a, key, team, level) <==> Grants(b, key, team, level)
  {
    OrgSameSymmetric(a, b);
    if Grants(a, key, team, level) {
      var id :| (id, team) in OrgGrants(a) && Fold(a.projects[id].path) == key && a.grants[(id, team)] == level;
      SameWanted(a, b, [], (id, team));
    }
    if Grants(b, key, team, level) {
      var id :| (id, team) in OrgGrants(b) && Fold(b.projects[id].path) == key && b.grants[(id, team)] == level;
      SameWanted(b, a, [], (id, team));
    }
  }
}
