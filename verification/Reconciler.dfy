/** What `apply` computes from the rows it read, before it writes any
    (src/write/sync.rs). */
module Reconciler {
  import opened Declaration
  import opened Outcome
  import opened Reconcile
  import opened Registry
  import opened SyncLaws
  import opened Text

  /** An org row as `apply` reads it. */
  datatype Stored = Stored(id: Id, path: string, displayName: string, sourceRepo: Option<string>, status: Status)

  function StoredOf(id: Id, row: Row): Stored {
    Stored(id, row.path, row.displayName, row.sourceRepo, row.status)
  }

  ghost predicate ReadsRow(s: Store, r: Stored) {
    r.id in s.projects && IsOrg(s.projects[r.id]) && r == StoredOf(r.id, s.projects[r.id])
  }

  /** The rows of the query, each once, in any order. */
  ghost predicate ReadsRows(s: Store, stored: seq<Stored>) {
    && (forall i {:trigger ReadsRow(s, stored[i])} :: 0 <= i < |stored| ==> ReadsRow(s, stored[i]))
    && (forall i, j :: 0 <= i < j < |stored| ==> stored[i].id != stored[j].id)
    && (forall id :: id in s.projects && IsOrg(s.projects[id]) ==> RowAmong(stored, |stored|, id))
  }

  ghost predicate RowAmong(stored: seq<Stored>, k: nat, id: Id) {
    exists i :: 0 <= i < k && i < |stored| && stored[i].id == id
  }

  lemma RowsOnce(s: Store, stored: seq<Stored>, k: nat)
    requires ReadsRows(s, stored) && k < |stored|
    ensures !RowAmong(stored, k, stored[k].id) && ReadsRow(s, stored[k])
    ensures forall id :: RowAmong(stored, k + 1, id) <==> RowAmong(stored, k, id) || id == stored[k].id
  {
  }

  lemma AllRows(s: Store, stored: seq<Stored>)
    requires ReadsRows(s, stored)
    ensures forall id :: RowAmong(stored, |stored|, id) <==> id in s.projects && IsOrg(s.projects[id])
  {
    forall id | RowAmong(stored, |stored|, id)
      ensures id in s.projects && IsOrg(s.projects[id])
    {
      var i :| 0 <= i < |stored| && stored[i].id == id;
      assert ReadsRow(s, stored[i]);
    }
  }

  /** The stored row at this key, as the map has it. */
  ghost predicate MapsKey(byKey: map<string, Stored>, s: Store, key: string) {
    && (key in byKey <==> HasOrg(s, key))
    && (key in byKey ==> byKey[key].id == OrgAt(s, key) && ReadsRow(s, byKey[key]))
  }

  /** `by_key`. */
  method ByKey(ghost s: Store, stored: seq<Stored>) returns (byKey: map<string, Stored>)
    requires PathsUnique(s.projects) && ReadsRows(s, stored)
    ensures forall key {:trigger MapsKey(byKey, s, key)} :: MapsKey(byKey, s, key)
  {
    byKey := map[];
    for k := 0 to |stored|
      invariant forall key :: key in byKey ==> ReadsRow(s, byKey[key]) && Fold(byKey[key].path) == key
      invariant forall i :: 0 <= i < k ==> Fold(stored[i].path) in byKey
    {
      RowsOnce(s, stored, k);
      byKey := byKey[Fold(stored[k].path) := stored[k]];
    }
    forall key: string {:trigger MapsKey(byKey, s, key)}
      ensures MapsKey(byKey, s, key)
    {
      if key in byKey {
        OrgAtUnique(s, byKey[key].id);
      }
      if HasOrg(s, key) {
        assert RowAmong(stored, |stored|, OrgAt(s, key));
        var i :| 0 <= i < |stored| && stored[i].id == OrgAt(s, key);
        assert ReadsRow(s, stored[i]);
      }
    }
  }

  /** `keys`. */
  method KeysOf(decl: seq<Declared>) returns (keys: set<string>)
    ensures forall key :: key in keys <==> Declares(decl, key)
  {
    keys := {};
    for i := 0 to |decl|
      invariant keys == set k | 0 <= k < i :: decl[k].Key()
    {
      keys := keys + {decl[i].Key()};
    }
    forall key
      ensures key in keys <==> Declares(decl, key)
    {
      var i := IndexOf(decl, key);
      if key in keys {
        var k :| 0 <= k < |decl| && decl[k].Key() == key;
      }
    }
  }

  /** `to_archive`, and `active_count`. */
  method ArchiveList(ghost s: Store, ghost decl: seq<Declared>, stored: seq<Stored>, keys: set<string>)
    returns (ids: seq<Id>, active: nat)
    requires ReadsRows(s, stored) && forall key :: key in keys <==> Declares(decl, key)
    ensures NoRepeats(ids) && forall id :: id in ids <==> id in ToArchive(s, decl)
    ensures |ids| == |ToArchive(s, decl)| && active == |ActiveRows(s)|
  {
    ids := [];
    active := 0;
    ghost var counted: seq<Id> := [];
    for k := 0 to |stored|
      invariant NoRepeats(ids) && forall id :: id in ids <==> RowAmong(stored, k, id) && id in ToArchive(s, decl)
      invariant NoRepeats(counted) && forall id :: id in counted <==> RowAmong(stored, k, id) && id in ActiveRows(s)
      invariant active == |counted|
    {
      var r := stored[k];
      RowsOnce(s, stored, k);
      if r.status.Active? {
        active := active + 1;
        counted := counted + [r.id];
        if Fold(r.path) !in keys {
          ids := ids + [r.id];
        }
      }
    }
    AllRows(s, stored);
    DistinctCount(ids, ToArchive(s, decl));
    DistinctCount(counted, ActiveRows(s));
  }
}
