/** `grants::plan`: the loops that diff the declared grants against the stored
    ones, proved to make a plan (src/write/grants.rs). */
module Diff {
  import opened Declaration
  import opened GrantPlans
  import opened Outcome
  import opened Reconcile
  import opened Registry
  import opened SyncLaws
  import opened Text

  /** A stored grant on an org row, under its row's stored spelling. */
  datatype StoredGrant = StoredGrant(id: Id, path: string, team: string, level: Level) {
    function Pair(): (Id, string) { (id, team) }

    function Key(): (string, string) { (Fold(path), team) }
  }

  ghost predicate ReadsGrant(s: Store, g: StoredGrant) {
    g.Pair() in OrgGrants(s) && s.projects[g.id].path == g.path && s.grants[g.Pair()] == g.level
  }

  /** The rows of the query, each once, in any order. */
  ghost predicate ReadsGrants(s: Store, stored: seq<StoredGrant>) {
    && (forall i {:trigger ReadsGrant(s, stored[i])} :: 0 <= i < |stored| ==> ReadsGrant(s, stored[i]))
    && (forall i, j :: 0 <= i < j < |stored| ==> stored[i].Pair() != stored[j].Pair())
    && (forall x :: x in OrgGrants(s) ==> PairAmong(stored, |stored|, x))
  }

  ghost predicate PairAmong(stored: seq<StoredGrant>, k: nat, x: Pair) {
    exists i :: 0 <= i < k && i < |stored| && stored[i].Pair() == x
  }

  // ---- The declared levels, as a map ----

  ghost predicate TeamAmong(grants: seq<Grant>, k: nat, team: string) {
    exists i :: 0 <= i < k && i < |grants| && grants[i].team == team
  }

  method AddWanted(wanted: map<(string, string), Level>, d: Declared) returns (out: map<(string, string), Level>)
    requires Teamed(d.grants)
    ensures forall p :: p in out <==> p in wanted || (p.0 == d.Key() && LevelIn(d.grants, p.1).Some?)
    ensures forall p :: p in out ==>
      out[p] == if p.0 == d.Key() && LevelIn(d.grants, p.1).Some? then LevelIn(d.grants, p.1).value else wanted[p]
  {
    out := wanted;
    for j := 0 to |d.grants|
      invariant forall p :: p in out <==> p in wanted || (p.0 == d.Key() && TeamAmong(d.grants, j, p.1))
      invariant forall p :: p in out && p.0 == d.Key() && TeamAmong(d.grants, j, p.1) ==> Grant(p.1, out[p]) in d.grants
      invariant forall p :: p in wanted && !(p.0 == d.Key() && TeamAmong(d.grants, j, p.1)) ==> out[p] == wanted[p]
    {
      var g := d.grants[j];
      assert forall team :: TeamAmong(d.grants, j + 1, team) <==> TeamAmong(d.grants, j, team) || team == g.team;
      out := out[(d.Key(), g.team) := g.level];
    }
    forall p | p in out && p.0 == d.Key()
      ensures TeamAmong(d.grants, |d.grants|, p.1) <==> LevelIn(d.grants, p.1).Some?
      ensures TeamAmong(d.grants, |d.grants|, p.1) ==> LevelIn(d.grants, p.1) == Some(out[p])
    {
      LevelAmong(d.grants, p.1);
      if TeamAmong(d.grants, |d.grants|, p.1) {
        LevelInIsTheGrant(d.grants, Grant(p.1, out[p]));
      }
    }
    forall p: (string, string) | p.0 == d.Key() && LevelIn(d.grants, p.1).Some?
      ensures TeamAmong(d.grants, |d.grants|, p.1)
    {
      LevelAmong(d.grants, p.1);
    }
  }

  lemma LevelAmong(grants: seq<Grant>, team: string)
    ensures LevelIn(grants, team).Some? <==> TeamAmong(grants, |grants|, team)
  {
  }

  ghost predicate WantedIs(wanted: map<(string, string), Level>, decl: seq<Declared>, k: nat, p: (string, string)) {
    && (p in wanted <==> IndexOf(decl, p.0) < k && Wanted(decl, p.0, p.1).Some?)
    && (p in wanted ==> Wanted(decl, p.0, p.1) == Some(wanted[p]))
  }

  method WantedLevels(decl: seq<Declared>) returns (wanted: map<(string, string), Level>)
    requires Keyed(decl) && AllTeamed(decl)
    ensures forall p {:trigger WantedIs(wanted, decl, |decl|, p)} :: WantedIs(wanted, decl, |decl|, p)
  {
    wanted := map[];
    for i := 0 to |decl|
      invariant forall p {:trigger WantedIs(wanted, decl, i, p)} :: WantedIs(wanted, decl, i, p)
    {
      assert Teamed(decl[i].grants);
      var next := AddWanted(wanted, decl[i]);
      forall p {:trigger WantedIs(next, decl, i + 1, p)}
        ensures WantedIs(next, decl, i + 1, p)
      {
        assert WantedIs(wanted, decl, i, p);
        IndexOfDeclared(decl, i);
      }
      wanted := next;
    }
  }

  // ---- The stored grants: unchanged, rewritten or deleted ----

  /** The plan so far, over the first `k` stored grants. */
  ghost predicate DiffUpTo(plan: GrantPlan, s: Store, decl: seq<Declared>, stored: seq<StoredGrant>, k: nat) {
    && NoRepeats(plan.deletes)
    && (forall x :: x in plan.deletes <==> PairAmong(stored, k, x) && x in RevokedPairs(s, decl))
    && UpdatesDistinct(plan.updates)
    && (forall u :: u in plan.updates <==>
          PairAmong(stored, k, (u.0, u.1)) && (u.0, u.1) in RewrittenPairs(s, decl) && WantedFor(s, decl, (u.0, u.1)) == Some(u.2))
  }

  lemma PairsOnce(s: Store, stored: seq<StoredGrant>, k: nat)
    requires ReadsGrants(s, stored) && k < |stored|
    ensures !PairAmong(stored, k, stored[k].Pair()) && ReadsGrant(s, stored[k])
    ensures forall x :: PairAmong(stored, k + 1, x) <==> PairAmong(stored, k, x) || x == stored[k].Pair()
  {
  }

  lemma DeleteNext(plan: GrantPlan, s: Store, decl: seq<Declared>, stored: seq<StoredGrant>, k: nat)
    requires ReadsGrants(s, stored) && k < |stored| && DiffUpTo(plan, s, decl, stored, k) && ReadsGrant(s, stored[k])
    requires WantedFor(s, decl, stored[k].Pair()).None?
    ensures DiffUpTo(plan.(deletes := plan.deletes + [stored[k].Pair()]), s, decl, stored, k + 1)
  {
    PairsOnce(s, stored, k);
  }

  lemma UpdateNext(plan: GrantPlan, s: Store, decl: seq<Declared>, stored: seq<StoredGrant>, k: nat, level: Level)
    requires ReadsGrants(s, stored) && k < |stored| && DiffUpTo(plan, s, decl, stored, k) && ReadsGrant(s, stored[k])
    requires WantedFor(s, decl, stored[k].Pair()) == Some(level) && level != stored[k].level
    ensures DiffUpTo(plan.(updates := plan.updates + [(stored[k].id, stored[k].team, level)]), s, decl, stored, k + 1)
  {
  }

  lemma KeepNext(plan: GrantPlan, s: Store, decl: seq<Declared>, stored: seq<StoredGrant>, k: nat)
    requires ReadsGrants(s, stored) && k < |stored| && DiffUpTo(plan, s, decl, stored, k) && ReadsGrant(s, stored[k])
    requires WantedFor(s, decl, stored[k].Pair()) == Some(stored[k].level)
    ensures DiffUpTo(plan.(kept := plan.kept + 1), s, decl, stored, k + 1)
  {
  }

  ghost predicate KeptUpTo(kept: seq<Pair>, s: Store, decl: seq<Declared>, stored: seq<StoredGrant>, k: nat) {
    NoRepeats(kept) && forall x :: x in kept <==> PairAmong(stored, k, x) && x in KeptPairs(s, decl)
  }

  method DiffStored(ghost s: Store, decl: seq<Declared>, stored: seq<StoredGrant>, wanted: map<(string, string), Level>)
    returns (plan: GrantPlan, kept: set<(string, string)>)
    requires ReadsGrants(s, stored)
    requires forall p {:trigger WantedIs(wanted, decl, |decl|, p)} :: WantedIs(wanted, decl, |decl|, p)
    ensures DiffUpTo(plan, s, decl, stored, |stored|) && plan.inserts == [] && plan.kept == |KeptPairs(s, decl)|
    ensures kept == set g | g in stored :: g.Key()
  {
    plan := GrantPlan([], [], [], 0);
    kept := {};
    ghost var same: seq<Pair> := [];
    for k := 0 to |stored|
      invariant DiffUpTo(plan, s, decl, stored, k) && plan.inserts == []
      invariant KeptUpTo(same, s, decl, stored, k) && plan.kept == |same|
      invariant kept == set g | g in stored[..k] :: g.Key()
    {
      var g := stored[k];
      PairsOnce(s, stored, k);
      assert WantedIs(wanted, decl, |decl|, g.Key());
      if g.Key() in wanted && wanted[g.Key()] == g.level {
        KeepNext(plan, s, decl, stored, k);
        plan := plan.(kept := plan.kept + 1);
        same := same + [g.Pair()];
      } else if g.Key() in wanted {
        UpdateNext(plan, s, decl, stored, k, wanted[g.Key()]);
        plan := plan.(updates := plan.updates + [(g.id, g.team, wanted[g.Key()])]);
      } else {
        DeleteNext(plan, s, decl, stored, k);
        plan := plan.(deletes := plan.deletes + [g.Pair()]);
      }
      assert stored[..k + 1] == stored[..k] + [g];
      kept := kept + {g.Key()};
    }
    assert stored[..|stored|] == stored;
    AllPairs(s, stored);
    DistinctCount(same, KeptPairs(s, decl));
  }

  lemma AllPairs(s: Store, stored: seq<StoredGrant>)
    requires ReadsGrants(s, stored)
    ensures forall x :: PairAmong(stored, |stored|, x) <==> x in OrgGrants(s)
  {
    forall x | PairAmong(stored, |stored|, x)
      ensures x in OrgGrants(s)
    {
      var i :| 0 <= i < |stored| && stored[i].Pair() == x;
      assert ReadsGrant(s, stored[i]);
    }
  }

  lemma KeysAreKept(s: Store, stored: seq<StoredGrant>, p: (string, string))
    requires ReadsGrants(s, stored)
    ensures p in (set g | g in stored :: g.Key()) <==> PairHasRow(s, p.0, p.1)
  {
    if p in (set g | g in stored :: g.Key()) {
      var g :| g in stored && g.Key() == p;
      var i :| 0 <= i < |stored| && stored[i] == g;
      assert ReadsGrant(s, stored[i]);
      assert g.Pair() in OrgGrants(s);
    }
    if PairHasRow(s, p.0, p.1) {
      var x :| x in OrgGrants(s) && x.1 == p.1 && Fold(s.projects[x.0].path) == p.0;
      assert PairAmong(stored, |stored|, x);
      var i :| 0 <= i < |stored| && stored[i].Pair() == x;
      assert ReadsGrant(s, stored[i]);
      assert stored[i].Key() == p;
    }
  }

  // ---- The declared grants no stored one names ----

  type NewGrant = (string, string, Level)

  ghost predicate PairsDiffer(inserts: seq<NewGrant>) {
    forall i, j :: 0 <= i < j < |inserts| ==> (inserts[i].0, inserts[i].1) != (inserts[j].0, inserts[j].1)
  }

  method MissingGrants(d: Declared, kept: set<(string, string)>) returns (out: seq<NewGrant>)
    requires Teamed(d.grants)
    ensures PairsDiffer(out)
    ensures forall n :: n in out <==> n.0 == d.Key() && Grant(n.1, n.2) in d.grants && (n.0, n.1) !in kept
  {
    out := [];
    for j := 0 to |d.grants|
      invariant PairsDiffer(out)
      invariant forall n :: n in out <==> n.0 == d.Key() && Grant(n.1, n.2) in d.grants[..j] && (n.0, n.1) !in kept
    {
      var g := d.grants[j];
      assert d.grants[..j + 1] == d.grants[..j] + [g];
      if (d.Key(), g.team) !in kept {
        forall i | 0 <= i < |out|
          ensures out[i].1 != g.team
        {
          assert out[i] in out;
          var k :| 0 <= k < j && d.grants[k] == Grant(out[i].1, out[i].2);
        }
        out := out + [(d.Key(), g.team, g.level)];
      }
    }
    assert d.grants[..|d.grants|] == d.grants;
  }

  ghost predicate InsertsUpTo(inserts: seq<NewGrant>, decl: seq<Declared>, kept: set<(string, string)>, k: nat) {
    && PairsDiffer(inserts)
    && forall n :: n in inserts <==>
         IndexOf(decl, n.0) < k && Wanted(decl, n.0, n.1) == Some(n.2) && (n.0, n.1) !in kept
  }

  lemma MissingNext(inserts: seq<NewGrant>, more: seq<NewGrant>, decl: seq<Declared>, kept: set<(string, string)>, k: nat)
    requires Keyed(decl) && k < |decl| && Teamed(decl[k].grants) && InsertsUpTo(inserts, decl, kept, k) && PairsDiffer(more)
    requires forall n :: n in more <==> n.0 == decl[k].Key() && Grant(n.1, n.2) in decl[k].grants && (n.0, n.1) !in kept
    ensures InsertsUpTo(inserts + more, decl, kept, k + 1)
  {
  }

  method DiffDeclared(decl: seq<Declared>, kept: set<(string, string)>) returns (inserts: seq<NewGrant>)
    requires Keyed(decl) && AllTeamed(decl)
    ensures InsertsUpTo(inserts, decl, kept, |decl|)
  {
    inserts := [];
    for i := 0 to |decl|
      invariant InsertsUpTo(inserts, decl, kept, i)
    {
      assert Teamed(decl[i].grants);
      var more := MissingGrants(decl[i], kept);
      MissingNext(inserts, more, decl, kept, i);
      inserts := inserts + more;
    }
  }

  lemma PlanIsWhole(s: Store, decl: seq<Declared>, stored: seq<StoredGrant>, plan: GrantPlan, kept: set<(string, string)>, inserts: seq<NewGrant>)
    requires Keyed(decl) && ReadsGrants(s, stored) && DiffUpTo(plan, s, decl, stored, |stored|) && plan.kept == |KeptPairs(s, decl)|
    requires kept == (set g | g in stored :: g.Key()) && InsertsUpTo(inserts, decl, kept, |decl|)
    ensures IsPlan(plan.(inserts := inserts), s, decl)
  {
    AllPairs(s, stored);
    forall n: NewGrant
      ensures n in inserts <==> (n.0, n.1) in AddedPairs(s, decl) && Wanted(decl, n.0, n.1) == Some(n.2)
    {
      KeysAreKept(s, stored, (n.0, n.1));
      WantedIsDeclared(decl, n.0, n.1);
    }
  }

  /** `plan`: a correct diff, whatever order the stored grants are read in. */
  method Plan(ghost s: Store, decl: seq<Declared>, stored: seq<StoredGrant>) returns (plan: GrantPlan)
    requires WellFormed(decl) && ReadsGrants(s, stored)
    ensures IsPlan(plan, s, decl)
  {
    var wanted := WantedLevels(decl);
    var diff, kept := DiffStored(s, decl, stored, wanted);
    var inserts := DiffDeclared(decl, kept);
    PlanIsWhole(s, decl, stored, diff, kept, inserts);
    plan := diff.(inserts := inserts);
  }
}
