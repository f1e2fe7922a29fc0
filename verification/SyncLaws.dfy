/** Idempotence and accounting of a sync (src/write/sync.rs,
    src/write/grants.rs). */
module SyncLaws {
  import opened Declaration
  import opened GrantPlans
  import opened Outcome
  import opened Reconcile
  import opened Registry
  import opened Syncs
  import opened Text

  // ---- The same declaration twice ----

  lemma SecondTimeKeeps(s: Store, decl: seq<Declared>, actor: string, mint: seq<Id>, i: nat)
    requires Schema(s) && WellFormed(decl) && Fresh(s, decl, mint) && i < |decl|
    ensures FateOf(Converged(s, decl, actor, mint), decl[i]) == Keep
  {
    var t := Converged(s, decl, actor, mint);
    DeclaredRowIs(s, decl, actor, mint, i);
    SettledRowsUnique(s, decl, actor, mint);
    OrgAtUnique(t, RowIdAt(t.projects, decl[i].Key()));
  }

  lemma OrgAtUnique(t: Store, id: Id)
    requires PathsUnique(t.projects) && id in t.projects && IsOrg(t.projects[id])
    ensures HasOrg(t, Fold(t.projects[id].path)) && OrgAt(t, Fold(t.projects[id].path)) == id
  {
  }

  lemma {:induction false} NothingMinted(t: Store, decl: seq<Declared>, actor: string, mint: seq<Id>, k: nat)
    requires k <= |decl| && forall i :: 0 <= i < k ==> HasOrg(t, decl[i].Key())
    ensures Minted(t, decl, actor, mint, k) == map[]
  {
    if k > 0 {
      NothingMinted(t, decl, actor, mint, k - 1);
    }
  }

  lemma SecondTimeRowsStay(s: Store, decl: seq<Declared>, actor: string, mint: seq<Id>, actor': string, mint': seq<Id>)
    requires Schema(s) && WellFormed(decl) && Fresh(s, decl, mint)
    ensures var t := Converged(s, decl, actor, mint);
      SettledRows(t, decl, actor', mint') == t.projects && ToArchive(t, decl) == {}
  {
    var t := Converged(s, decl, actor, mint);
    forall i | 0 <= i < |decl|
      ensures HasOrg(t, decl[i].Key())
    {
      SecondTimeKeeps(s, decl, actor, mint, i);
    }
    NothingMinted(t, decl, actor', mint', |decl|);
    forall id | id in t.projects
      ensures SettledRow(t.projects[id], decl, actor') == t.projects[id]
      ensures id !in ToArchive(t, decl)
    {
      SecondTimeRowStays(s, decl, actor, mint, actor', id);
    }
  }

  lemma SecondTimeRowStays(s: Store, decl: seq<Declared>, actor: string, mint: seq<Id>, actor': string, id: Id)
    requires Schema(s) && WellFormed(decl) && Fresh(s, decl, mint) && id in SettledRows(s, decl, actor, mint)
    ensures var t := Converged(s, decl, actor, mint);
      SettledRow(t.projects[id], decl, actor') == t.projects[id] && id !in ToArchive(t, decl)
  {
    var row := SettledRows(s, decl, actor, mint)[id];
    if id in s.projects {
      SettledRowIs(s, decl, actor, mint, id);
    } else {
      var i := InsertedBy(s, decl, actor, mint, id);
      IndexOfDeclared(decl, i);
    }
  }

  lemma SecondTimePairStored(s: Store, decl: seq<Declared>, actor: string, mint: seq<Id>, p: (string, string))
    requires Schema(s) && WellFormed(decl) && Fresh(s, decl, mint) && p in DeclaredPairs(decl)
    ensures PairHasRow(Converged(s, decl, actor, mint), p.0, p.1)
  {
    WantedIsDeclared(decl, p.0, p.1);
    WantedGrantIsStored(s, decl, actor, mint, IndexOf(decl, p.0), p.1);
  }

  lemma SecondTimeGrantsStay(s: Store, decl: seq<Declared>, actor: string, mint: seq<Id>)
    requires Schema(s) && WellFormed(decl) && Fresh(s, decl, mint)
    ensures var t := Converged(s, decl, actor, mint);
      SettledGrants(t, decl, t.projects) == t.grants && RevokedPairs(t, decl) == {}
      && KeptPairs(t, decl) == OrgGrants(t) && AddedPairs(t, decl) == {}
  {
    var t := Converged(s, decl, actor, mint);
    forall g | g in OrgGrants(t)
      ensures WantedFor(t, decl, g) == Some(t.grants[g])
    {
      StoredGrantIsWanted(s, decl, actor, mint, g);
    }
    forall p | p in DeclaredPairs(decl)
      ensures PairHasRow(t, p.0, p.1)
    {
      SecondTimePairStored(s, decl, actor, mint, p);
    }
    SettledAgain(s, decl, actor, mint);
  }

  lemma FixedGrants(t: Store, decl: seq<Declared>)
    requires Keyed(decl) && forall g :: g in t.grants ==> g.0 in t.projects
    requires forall g :: g in OrgGrants(t) ==> WantedFor(t, decl, g) == Some(t.grants[g])
    requires forall id, team :: id in t.projects && IsOrg(t.projects[id]) && team in TeamsAt(decl, Fold(t.projects[id].path)) ==>
      (id, team) in t.grants
    ensures SettledGrants(t, decl, t.projects) == t.grants
  {
  }

  lemma SettledAgain(s: Store, decl: seq<Declared>, actor: string, mint: seq<Id>)
    requires Schema(s) && WellFormed(decl) && Fresh(s, decl, mint)
    ensures var t := Converged(s, decl, actor, mint);
      SettledGrants(t, decl, t.projects) == t.grants
  {
    var t := Converged(s, decl, actor, mint);
    ConvergedKeepsSchema(s, decl, actor, mint);
    forall g | g in OrgGrants(t)
      ensures WantedFor(t, decl, g) == Some(t.grants[g])
    {
      StoredGrantIsWanted(s, decl, actor, mint, g);
    }
    FixedGrants(t, decl);
  }

  lemma CountKept(t: Store, decl: seq<Declared>, k: nat)
    requires 0 < k <= |decl| && FateOf(t, decl[k - 1]) == Keep
    ensures CountFate(t, decl, Keep, k) == CountFate(t, decl, Keep, k - 1) + 1
    ensures forall f: Fate {:trigger CountFate(t, decl, f, k)} :: f != Keep ==> CountFate(t, decl, f, k) == CountFate(t, decl, f, k - 1)
  {
  }

  lemma {:induction false} SecondTimeCounts(s: Store, decl: seq<Declared>, actor: string, mint: seq<Id>, k: nat)
    requires Schema(s) && WellFormed(decl) && Fresh(s, decl, mint) && k <= |decl|
    ensures var t := Converged(s, decl, actor, mint);
      && CountFate(t, decl, Keep, k) == k
      && CountFate(t, decl, Insert, k) == CountFate(t, decl, Update, k) == CountFate(t, decl, Reactivate, k) == 0
  {
    if k > 0 {
      SecondTimeCounts(s, decl, actor, mint, k - 1);
      SecondTimeKeeps(s, decl, actor, mint, k - 1);
      CountKept(Converged(s, decl, actor, mint), decl, k);
    }
  }

  /** Nothing is on an alias, and there is nothing to archive or revoke. */
  lemma SecondTimeAccepted(s: Store, decl: seq<Declared>, actor: string, mint: seq<Id>, guards: Guards)
    requires !OnAlias(s, decl)
    requires var t := Converged(s, decl, actor, mint); ToArchive(t, decl) == {} && RevokedPairs(t, decl) == {}
    ensures Refusal(Converged(s, decl, actor, mint), decl, guards).None?
  {
    assert forall key :: AliasAt(Converged(s, decl, actor, mint), key) <==> AliasAt(s, key);
  }

  /** Idempotent by convergence: sent again, by anyone, under any flags, the
      declaration is accepted, changes no row, version or grant, and counts
      everything unchanged. */
  lemma SyncIsIdempotent(s: Store, decl: seq<Declared>, actor: string, mint: seq<Id>, actor': string, guards: Guards, mint': seq<Id>)
    requires Schema(s) && WellFormed(decl) && Fresh(s, decl, mint) && !OnAlias(s, decl)
    ensures var t := Converged(s, decl, actor, mint);
      var (answer, again) := Sync(t, decl, actor', guards, mint');
      && again == t
      && answer == Ok(SyncResponse(0, 0, 0, |decl|, 0, DeclaredGrants(decl, |decl|), 0, 0, |OrgGrants(t)|))
  {
    SecondTimeRowsStay(s, decl, actor, mint, actor', mint');
    SecondTimeGrantsStay(s, decl, actor, mint);
    SecondTimeCounts(s, decl, actor, mint, |decl|);
    SecondTimeAccepted(s, decl, actor, mint, guards);
  }

  // ---- The counts ----

  lemma {:induction false} FatesSum(s: Store, decl: seq<Declared>, k: nat)
    requires k <= |decl|
    ensures CountFate(s, decl, Insert, k) + CountFate(s, decl, Update, k) + CountFate(s, decl, Reactivate, k)
      + CountFate(s, decl, Keep, k) == k
  {
    if k > 0 {
      FatesSum(s, decl, k - 1);
    }
  }

  lemma MapGrows<K, V>(m: map<K, V>, k: K, v: V)
    requires k !in m
    ensures |m[k := v]| == |m| + 1
  {
  }

  lemma MintedNext(s: Store, decl: seq<Declared>, actor: string, mint: seq<Id>, k: nat)
    requires Fresh(s, decl, mint) && k < |decl|
    ensures |Minted(s, decl, actor, mint, k + 1)| == |Minted(s, decl, actor, mint, k)| + if HasOrg(s, decl[k].Key()) then 0 else 1
  {
    if !HasOrg(s, decl[k].Key()) {
      NotYetMinted(s, decl, actor, mint, k);
      MapGrows(Minted(s, decl, actor, mint, k), mint[k], NewRow(decl[k], actor));
    }
  }

  lemma {:induction false} MintedCount(s: Store, decl: seq<Declared>, actor: string, mint: seq<Id>, k: nat)
    requires Fresh(s, decl, mint) && k <= |decl|
    ensures |Minted(s, decl, actor, mint, k)| == CountFate(s, decl, Insert, k)
  {
    if k > 0 {
      var j := k - 1;
      MintedCount(s, decl, actor, mint, j);
      MintedNext(s, decl, actor, mint, j);
      FateCountNext(s, decl, Insert, j);
    }
  }

  lemma NotYetMinted(s: Store, decl: seq<Declared>, actor: string, mint: seq<Id>, k: nat)
    requires Fresh(s, decl, mint) && k < |decl|
    ensures mint[k] !in Minted(s, decl, actor, mint, k)
  {
    MintedIs(s, decl, actor, mint, k);
  }

  /** The stored rows that meet this fate, among the first `k` declared. */
  ghost function Fated(s: Store, decl: seq<Declared>, f: Fate, k: nat): set<Id> {
    if k == 0 || k > |decl| then {}
    else if HasOrg(s, decl[k - 1].Key()) && FateOf(s, decl[k - 1]) == f then
      Fated(s, decl, f, k - 1) + {OrgAt(s, decl[k - 1].Key())}
    else
      Fated(s, decl, f, k - 1)
  }

  lemma {:induction false} FatedAre(s: Store, decl: seq<Declared>, f: Fate, k: nat, id: Id)
    requires PathsUnique(s.projects) && Keyed(decl) && k <= |decl|
    ensures id in Fated(s, decl, f, k) <==>
      && id in s.projects && IsOrg(s.projects[id])
      && var i := IndexOf(decl, Fold(s.projects[id].path));
         i < k && FateOfRow(s.projects[id], decl[i]) == f
  {
    if k > 0 {
      FatedAre(s, decl, f, k - 1, id);
      IndexOfDeclared(decl, k - 1);
      if id in s.projects && IsOrg(s.projects[id]) {
        OrgAtUnique(s, id);
      }
    }
  }

  lemma FateCountNext(s: Store, decl: seq<Declared>, f: Fate, k: nat)
    requires k < |decl|
    ensures CountFate(s, decl, f, k + 1) == CountFate(s, decl, f, k) + if FateOf(s, decl[k]) == f then 1 else 0
  {
  }

  lemma FatedNext(s: Store, decl: seq<Declared>, f: Fate, k: nat)
    requires PathsUnique(s.projects) && Keyed(decl) && k < |decl| && !f.Insert?
    ensures |Fated(s, decl, f, k + 1)| == |Fated(s, decl, f, k)| + if FateOf(s, decl[k]) == f then 1 else 0
  {
    if FateOf(s, decl[k]) == f {
      var id := OrgAt(s, decl[k].Key());
      FatedAre(s, decl, f, k, id);
      IndexOfDeclared(decl, k);
      assert id !in Fated(s, decl, f, k);
    }
  }

  lemma {:induction false} FatedCount(s: Store, decl: seq<Declared>, f: Fate, k: nat)
    requires PathsUnique(s.projects) && Keyed(decl) && k <= |decl| && !f.Insert?
    ensures |Fated(s, decl, f, k)| == CountFate(s, decl, f, k)
  {
    if k > 0 {
      var j := k - 1;
      FatedCount(s, decl, f, j);
      FatedNext(s, decl, f, j);
      FateCountNext(s, decl, f, j);
    }
  }

  lemma ActiveAfterSyncAt(s: Store, decl: seq<Declared>, actor: string, mint: seq<Id>, id: Id)
    requires Schema(s) && WellFormed(decl) && Fresh(s, decl, mint)
    ensures id in ActiveRows(Converged(s, decl, actor, mint)) <==>
      (id in ActiveRows(s) && id !in ToArchive(s, decl)) || id in Minted(s, decl, actor, mint, |decl|) || id in Fated(s, decl, Reactivate, |decl|)
  {
    FatedAre(s, decl, Reactivate, |decl|, id);
    if id in s.projects {
      SettledRowIs(s, decl, actor, mint, id);
      MintedAreNew(s, decl, actor, mint, |decl|, id);
    } else if id in Minted(s, decl, actor, mint, |decl|) {
      var i := InsertedBy(s, decl, actor, mint, id);
    }
  }

  lemma ActiveAfterSync(s: Store, decl: seq<Declared>, actor: string, mint: seq<Id>)
    requires Schema(s) && WellFormed(decl) && Fresh(s, decl, mint)
    ensures ActiveRows(Converged(s, decl, actor, mint)) ==
      (ActiveRows(s) - ToArchive(s, decl)) + Minted(s, decl, actor, mint, |decl|).Keys + Fated(s, decl, Reactivate, |decl|)
  {
    forall id
      ensures id in ActiveRows(Converged(s, decl, actor, mint)) <==>
        (id in ActiveRows(s) && id !in ToArchive(s, decl)) || id in Minted(s, decl, actor, mint, |decl|) || id in Fated(s, decl, Reactivate, |decl|)
    {
      ActiveAfterSyncAt(s, decl, actor, mint, id);
    }
  }

  lemma ActivePartsAreApart(s: Store, decl: seq<Declared>, actor: string, mint: seq<Id>, id: Id)
    requires Schema(s) && WellFormed(decl) && Fresh(s, decl, mint)
    ensures id in Minted(s, decl, actor, mint, |decl|) ==> id !in ActiveRows(s)
    ensures id in Fated(s, decl, Reactivate, |decl|) ==> id !in ActiveRows(s) && id !in Minted(s, decl, actor, mint, |decl|)
  {
    FatedAre(s, decl, Reactivate, |decl|, id);
    if id in s.projects {
      MintedAreNew(s, decl, actor, mint, |decl|, id);
    }
  }

  lemma ActiveCount(s: Store, decl: seq<Declared>, actor: string, mint: seq<Id>)
    requires Schema(s) && WellFormed(decl) && Fresh(s, decl, mint)
    ensures |ActiveRows(Converged(s, decl, actor, mint))| ==
      |ActiveRows(s)| - |ToArchive(s, decl)| + |Minted(s, decl, actor, mint, |decl|)| + |Fated(s, decl, Reactivate, |decl|)|
  {
    var kept, minted, revived := ActiveRows(s) - ToArchive(s, decl), Minted(s, decl, actor, mint, |decl|).Keys, Fated(s, decl, Reactivate, |decl|);
    ActiveAfterSync(s, decl, actor, mint);
    forall id
      ensures id in minted ==> id !in kept
      ensures id in revived ==> id !in kept && id !in minted
    {
      ActivePartsAreApart(s, decl, actor, mint, id);
    }
    Disjoint(kept, minted);
    Disjoint(kept + minted, revived);
    Remainder(ActiveRows(s), ToArchive(s, decl));
  }

  /** The row counts are conserved: every declared row is counted once, and the
      active rows after are those before, less the archived, plus the inserted
      and the reactivated. */
  lemma RowAccounting(s: Store, decl: seq<Declared>, actor: string, mint: seq<Id>)
    requires Schema(s) && WellFormed(decl) && Fresh(s, decl, mint)
    ensures var r := Response(s, decl);
      && r.inserted + r.updated + r.reactivated + r.kept == |decl|
      && |ActiveRows(Converged(s, decl, actor, mint))| + r.archived == |ActiveRows(s)| + r.inserted + r.reactivated
  {
    FatesSum(s, decl, |decl|);
    MintedCount(s, decl, actor, mint, |decl|);
    FatedCount(s, decl, Reactivate, |decl|);
    ActiveCount(s, decl, actor, mint);
  }

  /** The rows stored for the first time. */
  ghost function NewRows(before: map<Id, Row>, after: map<Id, Row>): set<Id> {
    set id | id in after && id !in before
  }

  /** The stored rows that went from one status to another, changed or not. */
  ghost function Moved(before: map<Id, Row>, after: map<Id, Row>, from: Status, to: Status, changed: bool): set<Id> {
    set id | id in before && id in after && before[id].status == from && after[id].status == to
      && IsOrg(before[id]) && (after[id] != before[id]) == changed
  }

  lemma MovedIsFated(s: Store, decl: seq<Declared>, actor: string, mint: seq<Id>, id: Id)
    requires Schema(s) && WellFormed(decl) && Fresh(s, decl, mint)
    ensures var before, after, n := s.projects, SettledRows(s, decl, actor, mint), |decl|;
      && (id in NewRows(before, after) <==> id in Minted(s, decl, actor, mint, n))
      && (id in Moved(before, after, Active, Active, true) <==> id in Fated(s, decl, Update, n))
      && (id in Moved(before, after, Archived, Active, true) <==> id in Fated(s, decl, Reactivate, n))
      && (id in Moved(before, after, Active, Archived, true) <==> id in ToArchive(s, decl))
      && (id in Moved(before, after, Active, Active, false) <==> id in Fated(s, decl, Keep, n))
  {
    FatedAre(s, decl, Update, |decl|, id);
    FatedAre(s, decl, Reactivate, |decl|, id);
    FatedAre(s, decl, Keep, |decl|, id);
    if id in s.projects {
      SettledRowIs(s, decl, actor, mint, id);
      MintedAreNew(s, decl, actor, mint, |decl|, id);
    }
  }

  lemma MovedAreFated(s: Store, decl: seq<Declared>, actor: string, mint: seq<Id>)
    requires Schema(s) && WellFormed(decl) && Fresh(s, decl, mint)
    ensures var before, after, n := s.projects, SettledRows(s, decl, actor, mint), |decl|;
      && NewRows(before, after) == Minted(s, decl, actor, mint, n).Keys
      && Moved(before, after, Active, Active, true) == Fated(s, decl, Update, n)
      && Moved(before, after, Archived, Active, true) == Fated(s, decl, Reactivate, n)
      && Moved(before, after, Active, Archived, true) == ToArchive(s, decl)
      && Moved(before, after, Active, Active, false) == Fated(s, decl, Keep, n)
  {
    var before, after, n := s.projects, SettledRows(s, decl, actor, mint), |decl|;
    forall id
      ensures id in NewRows(before, after) <==> id in Minted(s, decl, actor, mint, n)
      ensures id in Moved(before, after, Active, Active, true) <==> id in Fated(s, decl, Update, n)
      ensures id in Moved(before, after, Archived, Active, true) <==> id in Fated(s, decl, Reactivate, n)
      ensures id in Moved(before, after, Active, Archived, true) <==> id in ToArchive(s, decl)
      ensures id in Moved(before, after, Active, Active, false) <==> id in Fated(s, decl, Keep, n)
    {
      MovedIsFated(s, decl, actor, mint, id);
    }
  }

  /** Each count is of the rows that changed so, before against after: stored for
      the first time, overwritten while active, brought back, archived, and active
      and left as they were. */
  lemma RowCountsAreChanges(s: Store, decl: seq<Declared>, actor: string, mint: seq<Id>)
    requires Schema(s) && WellFormed(decl) && Fresh(s, decl, mint)
    ensures var r, before, after := Response(s, decl), s.projects, Converged(s, decl, actor, mint).projects;
      && r.inserted == |NewRows(before, after)|
      && r.updated == |Moved(before, after, Active, Active, true)|
      && r.reactivated == |Moved(before, after, Archived, Active, true)|
      && r.archived == |Moved(before, after, Active, Archived, true)|
      && r.kept == |Moved(before, after, Active, Active, false)|
  {
    var n := |decl|;
    MovedAreFated(s, decl, actor, mint);
    MintedCount(s, decl, actor, mint, n);
    FatedCount(s, decl, Update, n);
    FatedCount(s, decl, Reactivate, n);
    FatedCount(s, decl, Keep, n);
  }

  // ---- The grant counts ----

  lemma {:induction false} InjectiveImage<A, B>(xs: set<A>, ys: set<B>, f: A -> B)
    requires forall x, y :: x in xs && y in xs && f(x) == f(y) ==> x == y
    requires forall x :: x in xs ==> f(x) in ys
    requires forall y :: y in ys ==> exists x :: x in xs && f(x) == y
    ensures |xs| == |ys|
  {
    if xs != {} {
      var x :| x in xs;
      InjectiveImage(xs - {x}, ys - {f(x)}, f);
    }
  }

  ghost function TeamPairs(key: string, grants: seq<Grant>, k: nat): set<(string, string)> {
    if k == 0 || k > |grants| then {} else TeamPairs(key, grants, k - 1) + {(key, grants[k - 1].team)}
  }

  ghost predicate NamesTeam(grants: seq<Grant>, k: nat, team: string) {
    exists i :: 0 <= i < k && i < |grants| && grants[i].team == team
  }

  lemma {:induction false} TeamPairsAre(key: string, grants: seq<Grant>, k: nat, p: (string, string))
    requires k <= |grants|
    ensures p in TeamPairs(key, grants, k) <==> p.0 == key && NamesTeam(grants, k, p.1)
  {
    if k > 0 {
      TeamPairsAre(key, grants, k - 1, p);
      assert NamesTeam(grants, k, p.1) <==> NamesTeam(grants, k - 1, p.1) || grants[k - 1].team == p.1;
    }
  }

  lemma {:induction false} TeamPairsCount(key: string, grants: seq<Grant>, k: nat)
    requires Teamed(grants) && k <= |grants|
    ensures |TeamPairs(key, grants, k)| == k
  {
    if k > 0 {
      TeamPairsCount(key, grants, k - 1);
      TeamPairsAre(key, grants, k - 1, (key, grants[k - 1].team));
    }
  }

  ghost function PairsUpTo(decl: seq<Declared>, k: nat): set<(string, string)> {
    if k == 0 || k > |decl| then {}
    else PairsUpTo(decl, k - 1) + TeamPairs(decl[k - 1].Key(), decl[k - 1].grants, |decl[k - 1].grants|)
  }

  ghost predicate AllTeamed(decl: seq<Declared>) {
    forall i {:trigger Teamed(decl[i].grants)} :: 0 <= i < |decl| ==> Teamed(decl[i].grants)
  }

  lemma {:induction false} PairsUpToAre(decl: seq<Declared>, k: nat, p: (string, string))
    requires Keyed(decl) && k <= |decl|
    ensures p in PairsUpTo(decl, k) <==> IndexOf(decl, p.0) < k && Wanted(decl, p.0, p.1).Some?
  {
    if k > 0 {
      var d := decl[k - 1];
      PairsUpToAre(decl, k - 1, p);
      TeamPairsAre(d.Key(), d.grants, |d.grants|, p);
      IndexOfDeclared(decl, k - 1);
      if p.0 == d.Key() {
        var l := LevelIn(d.grants, p.1);
        if l.Some? {
          var i :| 0 <= i < |d.grants| && d.grants[i] == Grant(p.1, l.value);
          assert NamesTeam(d.grants, |d.grants|, p.1);
        }
      }
    }
  }

  /** An entry's pairs are none of those before it. */
  lemma NewPairs(decl: seq<Declared>, k: nat)
    requires Keyed(decl) && k < |decl|
    ensures PairsUpTo(decl, k) !! TeamPairs(decl[k].Key(), decl[k].grants, |decl[k].grants|)
  {
    var d := decl[k];
    IndexOfDeclared(decl, k);
    forall p | p in PairsUpTo(decl, k)
      ensures p !in TeamPairs(d.Key(), d.grants, |d.grants|)
    {
      PairsUpToAre(decl, k, p);
      TeamPairsAre(d.Key(), d.grants, |d.grants|, p);
    }
  }

  lemma {:induction false} PairsUpToCount(decl: seq<Declared>, k: nat)
    requires Keyed(decl) && AllTeamed(decl) && k <= |decl|
    ensures |PairsUpTo(decl, k)| == DeclaredGrants(decl, k)
  {
    if k > 0 {
      var d := decl[k - 1];
      PairsUpToCount(decl, k - 1);
      assert Teamed(d.grants);
      TeamPairsCount(d.Key(), d.grants, |d.grants|);
      NewPairs(decl, k - 1);
      Disjoint(PairsUpTo(decl, k - 1), TeamPairs(d.Key(), d.grants, |d.grants|));
    }
  }

  lemma Disjoint<T>(a: set<T>, b: set<T>)
    requires a !! b
    ensures |a + b| == |a| + |b|
  {
  }

  lemma Remainder<T>(a: set<T>, b: set<T>)
    requires b <= a
    ensures |a - b| == |a| - |b|
  {
  }

  lemma DeclaredPairCount(decl: seq<Declared>)
    requires Keyed(decl) && AllTeamed(decl)
    ensures |DeclaredPairs(decl)| == DeclaredGrants(decl, |decl|)
  {
    PairsUpToCount(decl, |decl|);
    forall p: (string, string)
      ensures p in DeclaredPairs(decl) <==> p in PairsUpTo(decl, |decl|)
    {
      PairsUpToAre(decl, |decl|, p);
      WantedIsDeclared(decl, p.0, p.1);
    }
    assert DeclaredPairs(decl) == PairsUpTo(decl, |decl|);
  }

  /** The stored pairs a sync keeps or rewrites are, key for key, the declared
      pairs it does not insert. */
  lemma StoredPairsAreDeclared(s: Store, decl: seq<Declared>)
    requires Schema(s) && Keyed(decl)
    ensures |KeptPairs(s, decl) + RewrittenPairs(s, decl)| == |DeclaredPairs(decl) - AddedPairs(s, decl)|
  {
    var stored, declared := KeptPairs(s, decl) + RewrittenPairs(s, decl), DeclaredPairs(decl) - AddedPairs(s, decl);
    var f := (g: Pair) => (KeyOf(s.projects, g.0), g.1);
    forall g | g in stored
      ensures f(g) in declared
    {
      WantedIsDeclared(decl, f(g).0, g.1);
      assert PairHasRow(s, f(g).0, g.1);
    }
    forall p | p in declared
      ensures exists g :: g in stored && f(g) == p
    {
      WantedIsDeclared(decl, p.0, p.1);
      var g :| g in OrgGrants(s) && g.1 == p.1 && Fold(s.projects[g.0].path) == p.0;
      assert g in stored && f(g) == p;
    }
    InjectiveImage(stored, declared, f);
  }

  lemma StoredPairsPartition(s: Store, decl: seq<Declared>)
    ensures KeptPairs(s, decl) + RewrittenPairs(s, decl) + RevokedPairs(s, decl) == OrgGrants(s)
  {
  }

  /** The grant counts are conserved: inserted, rewritten and unchanged make up
      the declared grants; deleted, rewritten and unchanged the stored ones. */
  lemma GrantAccounting(s: Store, decl: seq<Declared>)
    requires Schema(s) && WellFormed(decl)
    ensures var r := Response(s, decl);
      && r.grantsInserted + |RewrittenPairs(s, decl)| + r.grantsKept == r.grantsDeclared
      && r.grantsDeleted + |RewrittenPairs(s, decl)| + r.grantsKept == |OrgGrants(s)|
  {
    var kept, rewritten, revoked := KeptPairs(s, decl), RewrittenPairs(s, decl), RevokedPairs(s, decl);
    DeclaredPairCount(decl);
    StoredPairsAreDeclared(s, decl);
    Disjoint(kept, rewritten);
    StoredPairsPartition(s, decl);
    Disjoint(kept + rewritten, revoked);
    Remainder(DeclaredPairs(decl), AddedPairs(s, decl));
  }

  /** The stored grants a sync leaves, and those it leaves at their level. */
  lemma GrantsLeft(s: Store, decl: seq<Declared>, actor: string, mint: seq<Id>, g: (Id, string))
    requires Schema(s) && WellFormed(decl) && Fresh(s, decl, mint)
    ensures var t := Converged(s, decl, actor, mint);
      && (g in s.grants && g !in t.grants <==> g in RevokedPairs(s, decl))
      && (g in OrgGrants(s) && g in t.grants && t.grants[g] == s.grants[g] <==> g in KeptPairs(s, decl))
      && (g in OrgGrants(s) && g in t.grants && t.grants[g] != s.grants[g] <==> g in RewrittenPairs(s, decl))
  {
    var t := Converged(s, decl, actor, mint);
    if g in OrgGrants(s) {
      SettledRowIs(s, decl, actor, mint, g.0);
      WantedIsDeclared(decl, Fold(s.projects[g.0].path), g.1);
    }
  }

  lemma {:induction false} DistinctCount<T>(xs: seq<T>, ys: set<T>)
    requires NoRepeats(xs) && forall x :: x in xs <==> x in ys
    ensures |xs| == |ys|
  {
    if xs == [] {
      assert ys == {};
    } else {
      var n := |xs| - 1;
      forall x
        ensures x in xs[..n] <==> x in ys - {xs[n]}
      {
        if x in ys && x != xs[n] {
          var i :| 0 <= i < |xs| && xs[i] == x;
          assert xs[..n][i] == x;
        }
      }
      assert xs[n] in xs;
      DistinctCount(xs[..n], ys - {xs[n]});
    }
  }

  /** The lengths a sync reports and guards by are the sizes of the sets the plan
      is a plan for. */
  lemma PlanCounts(s: Store, decl: seq<Declared>, plan: GrantPlan)
    requires Keyed(decl) && IsPlan(plan, s, decl)
    ensures |plan.deletes| == |RevokedPairs(s, decl)| && |plan.inserts| == |AddedPairs(s, decl)|
    ensures |plan.updates| == |RewrittenPairs(s, decl)|
  {
    DistinctCount(plan.deletes, RevokedPairs(s, decl));
    InsertCount(s, decl, plan);
    UpdateCount(s, decl, plan);
  }

  lemma InsertCount(s: Store, decl: seq<Declared>, plan: GrantPlan)
    requires Keyed(decl) && IsPlan(plan, s, decl)
    ensures |plan.inserts| == |AddedPairs(s, decl)|
  {
    var pairs := seq(|plan.inserts|, i requires 0 <= i < |plan.inserts| => (plan.inserts[i].0, plan.inserts[i].1));
    forall p: (string, string)
      ensures p in pairs <==> p in AddedPairs(s, decl)
    {
      WantedIsDeclared(decl, p.0, p.1);
      if p in pairs {
        var i :| 0 <= i < |pairs| && pairs[i] == p;
        assert plan.inserts[i] in plan.inserts;
      }
      if p in AddedPairs(s, decl) {
        var n := (p.0, p.1, Wanted(decl, p.0, p.1).value);
        assert n in plan.inserts;
        var i :| 0 <= i < |plan.inserts| && plan.inserts[i] == n;
        assert pairs[i] == p;
      }
    }
    DistinctCount(pairs, AddedPairs(s, decl));
  }

  lemma UpdateCount(s: Store, decl: seq<Declared>, plan: GrantPlan)
    requires Keyed(decl) && IsPlan(plan, s, decl)
    ensures |plan.updates| == |RewrittenPairs(s, decl)|
  {
    var pairs := seq(|plan.updates|, i requires 0 <= i < |plan.updates| => (plan.updates[i].0, plan.updates[i].1));
    forall p: Pair
      ensures p in pairs <==> p in RewrittenPairs(s, decl)
    {
      if p in pairs {
        var i :| 0 <= i < |pairs| && pairs[i] == p;
        assert plan.updates[i] in plan.updates;
      }
      if p in RewrittenPairs(s, decl) {
        var u := (p.0, p.1, WantedFor(s, decl, p).value);
        assert u in plan.updates;
        var i :| 0 <= i < |plan.updates| && plan.updates[i] == u;
        assert pairs[i] == p;
      }
    }
    DistinctCount(pairs, RewrittenPairs(s, decl));
  }

  // ---- What the guards buy ----

  /** The rows a sync leaves active are those it does not archive. */
  lemma SurvivingRows(s: Store, decl: seq<Declared>, actor: string, mint: seq<Id>)
    requires Fresh(s, decl, mint)
    ensures ActiveRows(s) * ActiveRows(Converged(s, decl, actor, mint)) == ActiveRows(s) - ToArchive(s, decl)
  {
    var t := Converged(s, decl, actor, mint);
    forall id | id in ActiveRows(s)
      ensures id in ActiveRows(t) <==> id !in ToArchive(s, decl)
    {
      SettledRowIs(s, decl, actor, mint, id);
    }
  }

  lemma SurvivingGrants(s: Store, decl: seq<Declared>, actor: string, mint: seq<Id>)
    requires Keyed(decl) && Fresh(s, decl, mint)
    ensures OrgGrants(s) * OrgGrants(Converged(s, decl, actor, mint)) == OrgGrants(s) - RevokedPairs(s, decl)
  {
    var t := Converged(s, decl, actor, mint);
    forall g | g in OrgGrants(s)
      ensures g in OrgGrants(t) <==> g !in RevokedPairs(s, decl)
    {
      SettledRowIs(s, decl, actor, mint, g.0);
      WantedIsDeclared(decl, Fold(s.projects[g.0].path), g.1);
    }
  }

  /** Without the flags an accepted sync leaves at least half of the active org
      rows active, and at least half of the stored grants in place. */
  lemma GuardsHold(s: Store, decl: seq<Declared>, actor: string, guards: Guards, mint: seq<Id>)
    requires WellFormed(decl) && Fresh(s, decl, mint) && Refusal(s, decl, guards).None?
    ensures var t := Converged(s, decl, actor, mint);
      && (!guards.allowMassArchive ==> |ActiveRows(s) * ActiveRows(t)| * 2 >= |ActiveRows(s)|)
      && (!guards.allowMassRevoke ==> |OrgGrants(s) * OrgGrants(t)| * 2 >= |OrgGrants(s)|)
  {
    SurvivingRows(s, decl, actor, mint);
    SurvivingGrants(s, decl, actor, mint);
    Remainder(ActiveRows(s), ToArchive(s, decl));
    Remainder(OrgGrants(s), RevokedPairs(s, decl));
  }

  // ---- The grant counts are changes ----

  /** The grants given for the first time, from one registry to another. */
  ghost function Given(s: Store, t: Store): set<(Id, string)> {
    set g | g in t.grants && g !in s.grants
  }

  /** The grants on rows of an organisation left at their level. */
  ghost function LeftAtLevel(s: Store, t: Store): set<(Id, string)> {
    set g | g in OrgGrants(s) && g in t.grants && t.grants[g] == s.grants[g]
  }

  lemma GivenAreOrg(s: Store, decl: seq<Declared>, actor: string, mint: seq<Id>)
    requires Schema(s) && WellFormed(decl) && Fresh(s, decl, mint)
    ensures var t := Converged(s, decl, actor, mint);
      Given(s, t) == OrgGrants(t) - OrgGrants(s) * OrgGrants(t)
  {
    var t := Converged(s, decl, actor, mint);
    forall g
      ensures g in t.grants && g !in s.grants <==> g in OrgGrants(t) && g !in OrgGrants(s)
    {
      if g in s.grants && g in OrgGrants(t) {
        SettledRowIs(s, decl, actor, mint, g.0);
      }
    }
  }

  lemma GivenCount(s: Store, decl: seq<Declared>, actor: string, mint: seq<Id>)
    requires Schema(s) && WellFormed(decl) && Fresh(s, decl, mint)
    ensures var t := Converged(s, decl, actor, mint);
      |Given(s, t)| == |OrgGrants(t)| - |OrgGrants(s)| + |RevokedPairs(s, decl)|
  {
    var t := Converged(s, decl, actor, mint);
    GivenAreOrg(s, decl, actor, mint);
    SurvivingGrants(s, decl, actor, mint);
    Remainder(OrgGrants(s), RevokedPairs(s, decl));
    Remainder(OrgGrants(t), OrgGrants(s) * OrgGrants(t));
  }

  lemma LeftAre(s: Store, decl: seq<Declared>, actor: string, mint: seq<Id>)
    requires Schema(s) && WellFormed(decl) && Fresh(s, decl, mint)
    ensures var t := Converged(s, decl, actor, mint);
      Given(t, s) == RevokedPairs(s, decl) && LeftAtLevel(s, t) == KeptPairs(s, decl)
  {
    forall g
      ensures g in Given(Converged(s, decl, actor, mint), s) <==> g in RevokedPairs(s, decl)
      ensures g in LeftAtLevel(s, Converged(s, decl, actor, mint)) <==> g in KeptPairs(s, decl)
    {
      GrantsLeft(s, decl, actor, mint, g);
    }
  }

  lemma OrgGrantsAreDeclared(s: Store, decl: seq<Declared>, actor: string, mint: seq<Id>)
    requires Schema(s) && WellFormed(decl) && Fresh(s, decl, mint)
    ensures |OrgGrants(Converged(s, decl, actor, mint))| == Response(s, decl).grantsDeclared
  {
    var t := Converged(s, decl, actor, mint);
    SecondTimeGrantsStay(s, decl, actor, mint);
    ConvergedKeepsSchema(s, decl, actor, mint);
    GrantAccounting(t, decl);
  }

  /** The grant counts too: those given for the first time, those taken away, and
      those left at their level; what is declared is what the rows then grant. */
  lemma GrantCountsAreChanges(s: Store, decl: seq<Declared>, actor: string, mint: seq<Id>)
    requires Schema(s) && WellFormed(decl) && Fresh(s, decl, mint)
    ensures var r, t := Response(s, decl), Converged(s, decl, actor, mint);
      && r.grantsInserted == |Given(s, t)| && r.grantsDeleted == |Given(t, s)| && r.grantsKept == |LeftAtLevel(s, t)|
      && r.grantsDeclared == |OrgGrants(t)|
  {
    GivenCount(s, decl, actor, mint);
    LeftAre(s, decl, actor, mint);
    OrgGrantsAreDeclared(s, decl, actor, mint);
    GrantAccounting(s, decl);
  }

  /** The response counts what changed, from one registry to the other. */
  ghost predicate CountsChanges(r: SyncResponse, s: Store, t: Store) {
    && r.inserted == |NewRows(s.projects, t.projects)|
    && r.updated == |Moved(s.projects, t.projects, Active, Active, true)|
    && r.reactivated == |Moved(s.projects, t.projects, Archived, Active, true)|
    && r.archived == |Moved(s.projects, t.projects, Active, Archived, true)|
    && r.kept == |Moved(s.projects, t.projects, Active, Active, false)|
    && r.grantsInserted == |Given(s, t)| && r.grantsDeleted == |Given(t, s)| && r.grantsKept == |LeftAtLevel(s, t)|
    && r.grantsDeclared == |OrgGrants(t)|
  }

  lemma ResponseCountsChanges(s: Store, decl: seq<Declared>, actor: string, mint: seq<Id>)
    requires Schema(s) && WellFormed(decl) && Fresh(s, decl, mint)
    ensures CountsChanges(Response(s, decl), s, Converged(s, decl, actor, mint))
  {
    RowCountsAreChanges(s, decl, actor, mint);
    GrantCountsAreChanges(s, decl, actor, mint);
  }
}
