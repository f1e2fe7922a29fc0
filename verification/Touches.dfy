/** `TouchProjects`: a monotone advance of `last_seen_at` (src/write/touch.rs). */
module Touches {
  import opened Paths
  import opened Registry
  import opened Text

  const MAX_TOUCH := 500
  const MIN_TIMESTAMP_SECONDS := 1
  const MAX_TIMESTAMP_SECONDS := 2_147_483_647

  /** The row a path names, live or through an alias. */
  predicate Names(s: Store, path: string, id: Id) {
    && id in s.projects
    && (Fold(s.projects[id].path) == Fold(path) || exists a :: a in s.aliases && Fold(a) == Fold(path) && s.aliases[a] == id)
  }

  predicate NamedBy(s: Store, paths: seq<string>, id: Id) {
    exists i :: 0 <= i < |paths| && Names(s, paths[i], id)
  }

  /** The rows the UPDATE and the COUNT both match. */
  function Named(s: Store, paths: seq<string>): set<Id> {
    set id | id in s.projects && NamedBy(s, paths, id)
  }

  /** The rows the UPDATE changes: matched, and not already as recent. */
  function Advanced(s: Store, ids: set<Id>, at: int): set<Id> {
    set id | id in ids && id in s.projects && (id in s.seen ==> s.seen[id] < at)
  }

  ghost function TouchedStore(s: Store, ids: set<Id>, at: int): Store {
    s.(seen := s.seen + SeenAt(Advanced(s, ids, at), at))
  }

  predicate TouchOk(paths: seq<string>, at: int) {
    && MIN_TIMESTAMP_SECONDS <= at <= MAX_TIMESTAMP_SECONDS
    && 0 < |paths| <= MAX_TOUCH
    && forall i :: 0 <= i < |paths| ==> ValidPath(paths[i])
  }

  // ---- Flush order does not matter ----

  /** One flush: the rows it names and its moment. */
  datatype Flush = Flush(ids: set<Id>, at: int)

  ghost function FlushAll(s: Store, flushes: seq<Flush>): Store {
    if flushes == [] then s
    else
      var before := FlushAll(s, flushes[..|flushes| - 1]);
      TouchedStore(before, flushes[|flushes| - 1].ids, flushes[|flushes| - 1].at)
  }

  /** `at` is the latest of a row's initial value and the moments of the flushes
      that name it. */
  ghost predicate IsLatest(s: Store, flushes: seq<Flush>, id: Id, at: int) {
    && (id in s.seen ==> s.seen[id] <= at)
    && (forall i :: 0 <= i < |flushes| && id in flushes[i].ids ==> flushes[i].at <= at)
    && ((id in s.seen && s.seen[id] == at) || exists i :: 0 <= i < |flushes| && id in flushes[i].ids && flushes[i].at == at)
  }

  ghost predicate EverSeen(s: Store, flushes: seq<Flush>, id: Id) {
    id in s.seen || exists i :: 0 <= i < |flushes| && id in flushes[i].ids
  }

  /** After any flushes a row's `last_seen_at` is the latest of them, NULL only
      if none named it; and no other column moves. */
  lemma {:induction false} LastSeenIsLatest(s: Store, flushes: seq<Flush>, id: Id)
    requires id in s.projects
    ensures FlushAll(s, flushes).(seen := s.seen) == s
    ensures id in FlushAll(s, flushes).seen <==> EverSeen(s, flushes, id)
    ensures id in FlushAll(s, flushes).seen ==> IsLatest(s, flushes, id, FlushAll(s, flushes).seen[id])
  {
    if flushes != [] {
      var n := |flushes| - 1;
      var init, last := flushes[..n], flushes[n];
      LastSeenIsLatest(s, init, id);
      var before := FlushAll(s, init);
      assert flushes == init + [last];
      assert EverSeen(s, flushes, id) <==> EverSeen(s, init, id) || id in last.ids by {
        assert id in last.ids ==> id in flushes[n].ids;
        if EverSeen(s, init, id) && id !in s.seen {
          var i :| 0 <= i < |init| && id in init[i].ids;
          assert id in flushes[i].ids;
        }
      }
      if id in FlushAll(s, flushes).seen {
        LatestExtends(s, init, last, id, FlushAll(s, flushes).seen[id], before);
      }
    }
  }

  lemma LatestExtends(s: Store, init: seq<Flush>, last: Flush, id: Id, at: int, before: Store)
    requires id in s.projects && before.projects == s.projects
    requires id in before.seen <==> EverSeen(s, init, id)
    requires id in before.seen ==> IsLatest(s, init, id, before.seen[id])
    requires id in TouchedStore(before, last.ids, last.at).seen && at == TouchedStore(before, last.ids, last.at).seen[id]
    ensures IsLatest(s, init + [last], id, at)
  {
    var flushes := init + [last];
    assert flushes[|init|] == last;
    forall i | 0 <= i < |flushes| && id in flushes[i].ids
      ensures flushes[i].at <= at
    {
      if i < |init| {
        assert flushes[i] == init[i];
      }
    }
    if id in before.seen && at == before.seen[id] && !(id in s.seen && s.seen[id] == at) {
      var i :| 0 <= i < |init| && id in init[i].ids && init[i].at == at;
      assert flushes[i] == init[i];
    }
  }

  lemma LatestIsUnique(s: Store, a: seq<Flush>, b: seq<Flush>, id: Id, x: int, y: int)
    requires forall f :: f in a <==> f in b
    requires IsLatest(s, a, id, x) && IsLatest(s, b, id, y)
    ensures x == y
  {
    forall i | 0 <= i < |a| && id in a[i].ids
      ensures a[i].at <= y
    {
      assert a[i] in b;
    }
    forall i | 0 <= i < |b| && id in b[i].ids
      ensures b[i].at <= x
    {
      assert b[i] in a;
    }
  }

  /** Any reordering and any repetition of the same flushes gives the same store. */
  lemma FlushOrderIsImmaterial(s: Store, a: seq<Flush>, b: seq<Flush>)
    requires s.seen.Keys <= s.projects.Keys
    requires forall f :: f in a <==> f in b
    ensures FlushAll(s, a) == FlushAll(s, b)
  {
    forall id | id in s.projects
      ensures id in FlushAll(s, a).seen <==> id in FlushAll(s, b).seen
      ensures id in FlushAll(s, a).seen && id in FlushAll(s, b).seen ==> FlushAll(s, a).seen[id] == FlushAll(s, b).seen[id]
    {
      LastSeenIsLatest(s, a, id);
      LastSeenIsLatest(s, b, id);
      SameFlushesSeeAlike(s, a, b, id);
      if id in FlushAll(s, a).seen && id in FlushAll(s, b).seen {
        LatestIsUnique(s, a, b, id, FlushAll(s, a).seen[id], FlushAll(s, b).seen[id]);
      }
    }
    SeenOnRowsOnly(s, a);
    SeenOnRowsOnly(s, b);
    assert FlushAll(s, a).seen == FlushAll(s, b).seen;
  }

  lemma SameFlushesSeeAlike(s: Store, a: seq<Flush>, b: seq<Flush>, id: Id)
    requires forall f :: f in a <==> f in b
    ensures EverSeen(s, a, id) <==> EverSeen(s, b, id)
  {
    if i :| 0 <= i < |a| && id in a[i].ids {
      assert a[i] in b;
    }
    if i :| 0 <= i < |b| && id in b[i].ids {
      assert b[i] in a;
    }
  }

  lemma {:induction false} SeenOnRowsOnly(s: Store, flushes: seq<Flush>)
    requires s.seen.Keys <= s.projects.Keys
    ensures FlushAll(s, flushes).seen.Keys <= s.projects.Keys
    ensures FlushAll(s, flushes).(seen := s.seen) == s
  {
    if flushes != [] {
      SeenOnRowsOnly(s, flushes[..|flushes| - 1]);
    }
  }

  /** Which rows stand does not matter to the flushes that name only rows that do. */
  lemma {:induction false} FlushesReadTheirRows(a: Store, b: Store, flushes: seq<Flush>)
    requires a.seen == b.seen
    requires forall f :: f in flushes ==> f.ids <= a.projects.Keys && f.ids <= b.projects.Keys
    ensures FlushAll(a, flushes).seen == FlushAll(b, flushes).seen
    ensures FlushAll(a, flushes).projects == a.projects && FlushAll(b, flushes).projects == b.projects
  {
    if flushes != [] {
      var n := |flushes| - 1;
      assert forall f :: f in flushes[..n] ==> f in flushes;
      FlushesReadTheirRows(a, b, flushes[..n]);
      var x, y, last := FlushAll(a, flushes[..n]), FlushAll(b, flushes[..n]), flushes[n];
      assert last in flushes;
      assert Advanced(x, last.ids, last.at) == Advanced(y, last.ids, last.at);
    }
  }

  // ---- Flushes as they are sent ----

  /** One call: the paths it names and its moment. */
  datatype Touch = Touch(paths: seq<string>, at: int)

  /** The registry after these calls, one after another. */
  ghost function TouchAll(s: Store, touches: seq<Touch>): Store {
    if touches == [] then s
    else
      var before, last := TouchAll(s, touches[..|touches| - 1]), touches[|touches| - 1];
      TouchedStore(before, Named(before, last.paths), last.at)
  }

  ghost function FlushesFor(s: Store, touches: seq<Touch>): seq<Flush> {
    seq(|touches|, i requires 0 <= i < |touches| => Flush(Named(s, touches[i].paths), touches[i].at))
  }

  /** What paths name is read off live paths and aliases alone. */
  lemma NamedReadsPaths(s: Store, t: Store, paths: seq<string>)
    requires t.projects == s.projects && t.aliases == s.aliases
    ensures Named(t, paths) == Named(s, paths)
  {
    forall id
      ensures NamedBy(t, paths, id) <==> NamedBy(s, paths, id)
    {
      if i :| 0 <= i < |paths| && Names(s, paths[i], id) {
        assert Names(t, paths[i], id);
      }
      if i :| 0 <= i < |paths| && Names(t, paths[i], id) {
        assert Names(s, paths[i], id);
      }
    }
  }

  lemma {:induction false} TouchAllFlushes(s: Store, touches: seq<Touch>)
    ensures TouchAll(s, touches) == FlushAll(s, FlushesFor(s, touches))
    ensures TouchAll(s, touches).projects == s.projects && TouchAll(s, touches).aliases == s.aliases
  {
    if touches != [] {
      var n := |touches| - 1;
      TouchAllFlushes(s, touches[..n]);
      NamedReadsPaths(s, TouchAll(s, touches[..n]), touches[n].paths);
      assert FlushesFor(s, touches)[..n] == FlushesFor(s, touches[..n]);
    }
  }

  /** The `i`th call names this row, by its live path or through an alias. */
  ghost predicate TouchNames(s: Store, touches: seq<Touch>, i: nat, id: Id) {
    i < |touches| && NamedBy(s, touches[i].paths, id)
  }

  /** After any calls a row's `last_seen_at` is the latest of its first value and
      the moments of the calls that name it; there is one exactly when there was a
      first value or such a call; and no other column moves. */
  lemma LastSeenIsLatestNaming(s: Store, touches: seq<Touch>, id: Id)
    requires id in s.projects
    ensures var t := TouchAll(s, touches);
      && t.(seen := s.seen) == s
      && (id in t.seen <==> id in s.seen || exists i: nat :: TouchNames(s, touches, i, id))
    ensures id in TouchAll(s, touches).seen ==>
      var at := TouchAll(s, touches).seen[id];
      && (id in s.seen ==> s.seen[id] <= at)
      && (forall i: nat :: TouchNames(s, touches, i, id) ==> touches[i].at <= at)
      && ((id in s.seen && s.seen[id] == at) || exists i: nat :: TouchNames(s, touches, i, id) && touches[i].at == at)
  {
    var flushes := FlushesFor(s, touches);
    TouchAllFlushes(s, touches);
    LastSeenIsLatest(s, flushes, id);
    forall i: nat | TouchNames(s, touches, i, id)
      ensures 0 <= i < |flushes| && id in flushes[i].ids && flushes[i].at == touches[i].at
    {
    }
    forall i: nat | i < |flushes| && id in flushes[i].ids
      ensures TouchNames(s, touches, i, id)
    {
    }
  }

  /** Any reordering and any repetition of the same calls gives the same registry. */
  lemma TouchOrderIsImmaterial(s: Store, a: seq<Touch>, b: seq<Touch>)
    requires s.seen.Keys <= s.projects.Keys
    requires forall t :: t in a <==> t in b
    ensures TouchAll(s, a) == TouchAll(s, b)
  {
    TouchAllFlushes(s, a);
    TouchAllFlushes(s, b);
    SameFlushesSent(s, a, b);
    SameFlushesSent(s, b, a);
    FlushOrderIsImmaterial(s, FlushesFor(s, a), FlushesFor(s, b));
  }

  lemma SameFlushesSent(s: Store, a: seq<Touch>, b: seq<Touch>)
    requires forall t :: t in a ==> t in b
    ensures forall f :: f in FlushesFor(s, a) ==> f in FlushesFor(s, b)
  {
    forall f | f in FlushesFor(s, a)
      ensures f in FlushesFor(s, b)
    {
      var i :| 0 <= i < |a| && FlushesFor(s, a)[i] == f;
      assert a[i] in b;
      var j :| 0 <= j < |b| && b[j] == a[i];
      assert FlushesFor(s, b)[j] == f;
    }
  }
}
