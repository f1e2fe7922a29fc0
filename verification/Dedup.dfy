/** The paths of one flush as a set, and what comparing their number with the
    engine's count can tell (src/write/touch.rs). */
module Dedup {
  import opened Like
  import opened Outcome
  import opened Paths
  import opened Registry
  import opened Resolution
  import opened Text
  import opened Touches

  // ---- Sort by folded key, then drop adjacent repeats ----

  predicate LexAtMost(a: string, b: string) {
    a == "" || (b != "" && (a[0] < b[0] || (a[0] == b[0] && LexAtMost(a[1..], b[1..]))))
  }

  lemma {:induction false} LexTotal(a: string, b: string)
    ensures LexAtMost(a, b) || LexAtMost(b, a)
    ensures LexAtMost(a, b) && LexAtMost(b, a) ==> a == b
  {
    if a != "" && b != "" && a[0] == b[0] {
      LexTotal(a[1..], b[1..]);
      assert a == [a[0]] + a[1..] && b == [b[0]] + b[1..];
    }
  }

  lemma {:induction false} LexTransitive(a: string, b: string, c: string)
    requires LexAtMost(a, b) && LexAtMost(b, c)
    ensures LexAtMost(a, c)
  {
    if a != "" && a[0] == b[0] == c[0] {
      LexTransitive(a[1..], b[1..], c[1..]);
    }
  }

  predicate KeyAtMost(p: string, q: string) {
    LexAtMost(Fold(p), Fold(q))
  }

  ghost predicate KeysSorted(paths: seq<string>) {
    forall i, j :: 0 <= i < j < |paths| ==> KeyAtMost(paths[i], paths[j])
  }

  /** The spellings of one key, in the order they stand. */
  function Spellings(paths: seq<string>, key: string): seq<string> {
    if paths == [] then []
    else Spellings(paths[..|paths| - 1], key) + if Fold(paths[|paths| - 1]) == key then [paths[|paths| - 1]] else []
  }

  lemma {:induction false} SpellingsConcat(a: seq<string>, b: seq<string>, key: string)
    ensures Spellings(a + b, key) == Spellings(a, key) + Spellings(b, key)
  {
    if b == [] {
      assert a + b == a;
    } else {
      var n := |b| - 1;
      SpellingsConcat(a, b[..n], key);
      assert (a + b)[..|a + b| - 1] == a + b[..n];
    }
  }

  lemma {:induction false} SpellingsAre(paths: seq<string>, key: string, p: string)
    ensures p in Spellings(paths, key) <==> p in paths && Fold(p) == key
  {
    if paths != [] {
      SpellingsAre(paths[..|paths| - 1], key, p);
      assert paths == paths[..|paths| - 1] + [paths[|paths| - 1]];
    }
  }

  /** A stable sort: ascending keys, and each key's spellings in their old order. */
  ghost predicate SortedFrom(out: seq<string>, paths: seq<string>) {
    KeysSorted(out) && forall key :: Spellings(out, key) == Spellings(paths, key)
  }

  lemma PutSorted(out: seq<string>, p: string, at: nat)
    requires at <= |out| && KeysSorted(out)
    requires forall k :: 0 <= k < at ==> KeyAtMost(out[k], p)
    requires forall k :: at <= k < |out| ==> KeyAtMost(p, out[k])
    ensures KeysSorted(out[..at] + [p] + out[at..])
  {
  }

  lemma PutSpellings(before: seq<string>, p: string, after: seq<string>, key: string)
    requires forall q :: q in after ==> Fold(q) != Fold(p)
    ensures Spellings(before + [p] + after, key) == Spellings(before + after + [p], key)
  {
    SpellingsConcat(before + [p], after, key);
    SpellingsConcat(before, [p], key);
    SpellingsConcat(before + after, [p], key);
    SpellingsConcat(before, after, key);
    OneSpelling(p, key);
    if Fold(p) == key && Spellings(after, key) != [] {
      SpellingsAre(after, key, Spellings(after, key)[0]);
    }
  }

  lemma OneSpelling(p: string, key: string)
    ensures Spellings([p], key) == if Fold(p) == key then [p] else []
  {
  }

  lemma PutInPlace(out: seq<string>, p: string, at: nat)
    requires at <= |out| && KeysSorted(out)
    requires forall k :: 0 <= k < at ==> KeyAtMost(out[k], p)
    requires forall k :: at <= k < |out| ==> !KeyAtMost(out[k], p)
    ensures KeysSorted(out[..at] + [p] + out[at..])
    ensures forall key :: Spellings(out[..at] + [p] + out[at..], key) == Spellings(out + [p], key)
  {
    forall k | at <= k < |out|
      ensures KeyAtMost(p, out[k]) && Fold(p) != Fold(out[k])
    {
      LexTotal(Fold(p), Fold(out[k]));
    }
    PutSorted(out, p, at);
    assert out == out[..at] + out[at..];
    forall key: string
      ensures Spellings(out[..at] + [p] + out[at..], key) == Spellings(out + [p], key)
    {
      PutSpellings(out[..at], p, out[at..], key);
    }
  }

  method SortByKey(paths: seq<string>) returns (out: seq<string>)
    ensures SortedFrom(out, paths)
  {
    out := [];
    for i := 0 to |paths|
      invariant SortedFrom(out, paths[..i])
    {
      var at := |out|;
      while at > 0 && !KeyAtMost(out[at - 1], paths[i])
        invariant 0 <= at <= |out|
        invariant forall k :: at <= k < |out| ==> !KeyAtMost(out[k], paths[i])
      {
        at := at - 1;
      }
      forall k | 0 <= k < at
        ensures KeyAtMost(out[k], paths[i])
      {
        if k < at - 1 {
          LexTransitive(Fold(out[k]), Fold(out[at - 1]), Fold(paths[i]));
        }
      }
      PutInPlace(out, paths[i], at);
      assert paths[..i + 1] == paths[..i] + [paths[i]];
      forall key: string
        ensures Spellings(out + [paths[i]], key) == Spellings(paths[..i + 1], key)
      {
        SpellingsConcat(out, [paths[i]], key);
        SpellingsConcat(paths[..i], [paths[i]], key);
      }
      out := out[..at] + [paths[i]] + out[at..];
    }
    assert paths[..|paths|] == paths;
  }

  function FirstOf(xs: seq<string>): seq<string> {
    if xs == [] then [] else [xs[0]]
  }

  ghost predicate KeysAscend(paths: seq<string>) {
    forall i, j :: 0 <= i < j < |paths| ==> KeyAtMost(paths[i], paths[j]) && Fold(paths[i]) != Fold(paths[j])
  }

  /** One spelling for each key sent: the first one sent. */
  ghost predicate FirstSpellings(out: seq<string>, paths: seq<string>) {
    forall key :: Spellings(out, key) == FirstOf(Spellings(paths, key))
  }

  /** What is left when the last key comes again: nothing new, or its own spelling. */
  lemma SpellingsNext(out: seq<string>, seen: seq<string>, p: string, key: string)
    requires FirstSpellings(out, seen)
    requires (out != [] && Fold(out[|out| - 1]) == Fold(p)) || forall i :: 0 <= i < |out| ==> Fold(out[i]) != Fold(p)
    ensures var next := if out == [] || Fold(out[|out| - 1]) != Fold(p) then out + [p] else out;
      Spellings(next, key) == FirstOf(Spellings(seen + [p], key))
  {
    SpellingsConcat(seen, [p], key);
    SpellingsConcat(out, [p], key);
    OneSpelling(p, key);
    if Fold(p) == key {
      if out == [] || Fold(out[|out| - 1]) != Fold(p) {
        if Spellings(out, key) != [] {
          SpellingsAre(out, key, Spellings(out, key)[0]);
        }
      } else {
        SpellingsAre(out, key, out[|out| - 1]);
      }
    }
  }

  lemma DedupStep(out: seq<string>, seen: seq<string>, p: string)
    requires KeysAscend(out) && FirstSpellings(out, seen) && (forall q :: q in out ==> KeyAtMost(q, p))
    ensures var next := if out == [] || Fold(out[|out| - 1]) != Fold(p) then out + [p] else out;
      KeysAscend(next) && FirstSpellings(next, seen + [p])
  {
    var add := out == [] || Fold(out[|out| - 1]) != Fold(p);
    var next := if add then out + [p] else out;
    if add {
      forall i | 0 <= i < |out|
        ensures Fold(out[i]) != Fold(p)
      {
        assert out[i] in out && out[|out| - 1] in out;
        if i < |out| - 1 {
          LexTotal(Fold(out[|out| - 1]), Fold(p));
        }
      }
    }
    forall key: string
      ensures Spellings(next, key) == FirstOf(Spellings(seen + [p], key))
    {
      SpellingsNext(out, seen, p, key);
    }
  }

  method DropAdjacent(sorted: seq<string>) returns (out: seq<string>)
    requires KeysSorted(sorted)
    ensures KeysAscend(out) && FirstSpellings(out, sorted)
  {
    out := [];
    for i := 0 to |sorted|
      invariant KeysAscend(out) && FirstSpellings(out, sorted[..i])
      invariant forall q :: q in out ==> q in sorted[..i]
    {
      DedupStep(out, sorted[..i], sorted[i]);
      assert sorted[..i + 1] == sorted[..i] + [sorted[i]];
      if out == [] || Fold(out[|out| - 1]) != Fold(sorted[i]) {
        out := out + [sorted[i]];
      }
    }
    assert sorted[..|sorted|] == sorted;
  }

  /** `deduplicated`: for every key sent, exactly the first spelling sent. */
  method Deduplicated(paths: seq<string>) returns (out: seq<string>)
    ensures KeysAscend(out) && FirstSpellings(out, paths)
  {
    var sorted := SortByKey(paths);
    out := DropAdjacent(sorted);
  }

  // ---- The count ----

  lemma NamesTarget(s: Store, path: string, id: Id)
    requires Valid(s)
    ensures Names(s, path, id) <==> Registered(s, Fold(path)) && TargetAt(s, Fold(path)) == id
  {
  }

  /** Every path names a project, and no two the same one. */
  ghost predicate EachItsOwn(s: Store, paths: seq<string>) {
    && (forall i :: 0 <= i < |paths| ==> Registered(s, Fold(paths[i])))
    && (forall i, j :: 0 <= i < j < |paths| ==> TargetAt(s, Fold(paths[i])) != TargetAt(s, Fold(paths[j])))
  }

  lemma OneMorePath(s: Store, paths: seq<string>, p: string)
    requires Valid(s)
    ensures Named(s, paths + [p]) == Named(s, paths) + if Registered(s, Fold(p)) then {TargetAt(s, Fold(p))} else {}
  {
    var all := paths + [p];
    forall id | id in s.projects
      ensures NamedBy(s, all, id) <==> NamedBy(s, paths, id) || Names(s, p, id)
    {
      if NamedBy(s, paths, id) {
        var i :| 0 <= i < |paths| && Names(s, paths[i], id);
        assert Names(s, all[i], id);
      }
      if Names(s, p, id) {
        assert Names(s, all[|paths|], id);
      }
      NamesTarget(s, p, id);
    }
  }

  lemma InNamed(s: Store, paths: seq<string>, id: Id)
    requires Valid(s)
    ensures id in Named(s, paths) <==> exists i :: 0 <= i < |paths| && Registered(s, Fold(paths[i])) && TargetAt(s, Fold(paths[i])) == id
  {
  }

  /** The count never exceeds the paths, and equals them exactly when each names
      a project of its own. */
  lemma {:induction false} CountIs(s: Store, paths: seq<string>)
    requires Valid(s)
    ensures |Named(s, paths)| <= |paths|
    ensures |Named(s, paths)| == |paths| <==> EachItsOwn(s, paths)
  {
    if paths == [] {
      assert Named(s, paths) == {};
    } else {
      var n := |paths| - 1;
      var p := paths[n];
      CountIs(s, paths[..n]);
      assert paths == paths[..n] + [p];
      OneMorePath(s, paths[..n], p);
      OwnExtends(s, paths[..n], p);
    }
  }

  lemma OwnExtends(s: Store, paths: seq<string>, p: string)
    requires Valid(s)
    ensures EachItsOwn(s, paths + [p]) <==>
      EachItsOwn(s, paths) && Registered(s, Fold(p)) && TargetAt(s, Fold(p)) !in Named(s, paths)
  {
    var all := paths + [p];
    assert all[|paths|] == p;
    assert forall i :: 0 <= i < |paths| ==> all[i] == paths[i];
    if Registered(s, Fold(p)) {
      InNamed(s, paths, TargetAt(s, Fold(p)));
    }
  }

  lemma SameKeysSent(paths: seq<string>, out: seq<string>, p: string)
    requires FirstSpellings(out, paths)
    ensures p in out ==> exists q :: q in paths && Fold(q) == Fold(p)
    ensures p in paths ==> exists q :: q in out && Fold(q) == Fold(p)
  {
    var key := Fold(p);
    SpellingsAre(out, key, p);
    SpellingsAre(paths, key, p);
    assert Spellings(out, key) == FirstOf(Spellings(paths, key));
    if p in out {
      SpellingsAre(paths, key, Spellings(paths, key)[0]);
    }
    if p in paths {
      SpellingsAre(out, key, Spellings(out, key)[0]);
    }
  }

  /** Dropping repeated spellings changes no row the statements match. */
  lemma SameRowsNamed(s: Store, paths: seq<string>, out: seq<string>)
    requires FirstSpellings(out, paths)
    ensures Named(s, out) == Named(s, paths)
  {
    forall p
      ensures p in out ==> exists q :: q in paths && Fold(q) == Fold(p)
      ensures p in paths ==> exists q :: q in out && Fold(q) == Fold(p)
    {
      SameKeysSent(paths, out, p);
    }
    NamedByOneWay(s, paths, out);
    NamedByOneWay(s, out, paths);
  }

  lemma NamedByOneWay(s: Store, paths: seq<string>, out: seq<string>)
    requires forall p :: p in paths ==> exists q :: q in out && Fold(q) == Fold(p)
    ensures Named(s, paths) <= Named(s, out)
  {
  }

  /** The flush warns. */
  ghost predicate Warns(s: Store, paths: seq<string>, out: seq<string>) {
    |Named(s, paths)| < |out|
  }

  /** When the warning fires, exactly: some path names no project, or two paths
      that are not one spelt twice name one project. */
  lemma WarningMeans(s: Store, paths: seq<string>, out: seq<string>)
    requires Valid(s) && KeysAscend(out) && FirstSpellings(out, paths)
    ensures |Named(s, paths)| <= |out|
    ensures Warns(s, paths, out) <==>
      (exists i :: 0 <= i < |out| && !Registered(s, Fold(out[i]))) ||
      (exists i, j :: 0 <= i < j < |out| && Fold(out[i]) != Fold(out[j])
         && Registered(s, Fold(out[i])) && Registered(s, Fold(out[j]))
         && TargetAt(s, Fold(out[i])) == TargetAt(s, Fold(out[j])))
  {
    SameRowsNamed(s, paths, out);
    CountIs(s, out);
  }

  const RENAMED := Row("acme", "Acme", Active, Some("git"), None, Org, 1, "yadgar:user:x", "yadgar:user:x")

  lemma FoldedNames()
    ensures Fold("acme") == "acme" && Fold("old") == "old"
  {
  }

  const ONCE_OLD := Store(map[1 := RENAMED], map["old" := 1], map[], map[], map[])

  lemma OnceOldIsValid()
    ensures Valid(ONCE_OLD)
  {
    OneSegment("acme");
    ClassCheckAgrees("acme");
    FoldedNames();
    assert RowChecks(RENAMED) && LegalPath("acme") && OwnedRow(RENAMED);
    assert Fold(ONCE_OLD.projects[1].path) == Root("acme");
    assert AnchorOf(ONCE_OLD, "acme");
  }

  lemma OnceOldNames()
    ensures Registered(ONCE_OLD, "acme") && Registered(ONCE_OLD, "old")
    ensures TargetAt(ONCE_OLD, "acme") == TargetAt(ONCE_OLD, "old")
  {
    FoldedNames();
    assert Fold(ONCE_OLD.projects[1].path) == "acme";
    assert "old" in ONCE_OLD.aliases && ONCE_OLD.aliases["old"] in ONCE_OLD.projects;
  }

  /** The warning says that some path resolves to nothing. It also fires when
      none does: a project flushed under its path and a former one is counted
      once for two paths. */
  lemma WarningCriesWolf() returns (s: Store, paths: seq<string>)
    ensures Valid(s) && KeysAscend(paths) && FirstSpellings(paths, paths)
    ensures forall i :: 0 <= i < |paths| ==> ValidPath(paths[i]) && Registered(s, Fold(paths[i]))
    ensures Warns(s, paths, paths)
  {
    s, paths := ONCE_OLD, ["acme", "old"];
    OnceOldIsValid();
    OnceOldNames();
    OneSegment("acme");
    OneSegment("old");
    Distinct2(paths);
    assert Fold(paths[0]) == "acme" && Fold(paths[1]) == "old";
    CountIs(s, paths);
    assert TargetAt(s, Fold(paths[0])) == TargetAt(s, Fold(paths[1]));
  }

  lemma OneSegment(p: string)
    requires SegmentIsLegal(p) && '/' !in p && |p| <= 255
    ensures ValidPath(p) && FirstSlash(p) == |p| && Split(p) == [p] && !IsPrivateClass(p)
  {
  }

  lemma Distinct2(paths: seq<string>)
    requires paths == ["acme", "old"]
    ensures KeysAscend(paths) && FirstSpellings(paths, paths)
  {
    FoldedNames();
    assert LexAtMost("acme", "old");
    forall key: string
      ensures Spellings(paths, key) == FirstOf(Spellings(paths, key))
    {
      OneSpelling("acme", key);
      OneSpelling("old", key);
      SpellingsConcat(["acme"], ["old"], key);
      assert paths == ["acme"] + ["old"];
    }
  }
}
