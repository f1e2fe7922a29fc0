/** The engine's LIKE under `utf8mb4_general_ci` with a backslash escape, and the
    pattern src/sql.rs builds for everything beneath a path. */
module Like {
  import opened Paths
  import opened Text

  const ESCAPE := '\\'

  predicate Wild(c: char) {
    c == '\\' || c == '%' || c == '_'
  }

  /** `t LIKE p ESCAPE '\\'`. A backslash that ends the pattern stands for itself. */
  predicate Matches(t: string, p: string)
    decreases |t| + |p|
  {
    if p == "" then
      t == ""
    else if p[0] == ESCAPE && |p| > 1 then
      t != "" && Lower(t[0]) == Lower(p[1]) && Matches(t[1..], p[2..])
    else if p[0] == '%' then
      Matches(t, p[1..]) || (t != "" && Matches(t[1..], p))
    else if p[0] == '_' then
      t != "" && Matches(t[1..], p[1..])
    else
      t != "" && Lower(t[0]) == Lower(p[0]) && Matches(t[1..], p[1..])
  }

  /** `like_escape` as a function of its value. */
  function Escaped(value: string): string {
    if value == "" then ""
    else (if Wild(value[0]) then [ESCAPE, value[0]] else [value[0]]) + Escaped(value[1..])
  }

  /** `like_escape`. */
  method LikeEscape(value: string) returns (out: string)
    ensures out == Escaped(value)
  {
    out := "";
    for i := 0 to |value|
      invariant out + Escaped(value[i..]) == Escaped(value)
    {
      ghost var rest := value[i..];
      assert rest[1..] == value[i + 1..];
      if Wild(value[i]) {
        out := out + [ESCAPE];
      }
      out := out + [value[i]];
    }
  }

  /** `subtree`: the pattern for everything strictly beneath a path. */
  function Subtree(path: string): string {
    Escaped(path) + "/%"
  }

  lemma {:induction false} PercentMatchesAll(t: string)
    ensures Matches(t, "%")
  {
    if t != "" {
      PercentMatchesAll(t[1..]);
    }
  }

  lemma FoldHead(t: string, value: string)
    requires 0 < |value| <= |t|
    ensures Fold(t[..|value|]) == Fold(value) <==>
      Lower(t[0]) == Lower(value[0]) && Fold(t[1..][..|value| - 1]) == Fold(value[1..])
  {
  }

  lemma EscapedWild(t: string, c: char, tail: string)
    requires Wild(c)
    ensures Matches(t, [ESCAPE, c] + tail) <==> t != "" && Lower(t[0]) == Lower(c) && Matches(t[1..], tail)
  {
    assert ([ESCAPE, c] + tail)[2..] == tail;
  }

  lemma PlainHead(t: string, c: char, tail: string)
    requires !Wild(c)
    ensures Matches(t, [c] + tail) <==> t != "" && Lower(t[0]) == Lower(c) && Matches(t[1..], tail)
  {
    assert ([c] + tail)[1..] == tail;
  }

  lemma EscapedHead(t: string, value: string, rest: string)
    requires value != ""
    ensures Matches(t, Escaped(value) + rest) <==>
      t != "" && Lower(t[0]) == Lower(value[0]) && Matches(t[1..], Escaped(value[1..]) + rest)
  {
    var p := Escaped(value) + rest;
    var tail := Escaped(value[1..]) + rest;
    if Wild(value[0]) {
      assert p == [ESCAPE, value[0]] + tail;
      EscapedWild(t, value[0], tail);
    } else {
      assert p == [value[0]] + tail;
      PlainHead(t, value[0], tail);
    }
  }

  /** What escaping buys, for every value: before any further pattern the
      escaped value matches itself, ASCII case folded, and nothing else. */
  lemma {:induction false} EscapedMatchesItselfOnly(t: string, value: string, rest: string)
    ensures Matches(t, Escaped(value) + rest) <==>
      |value| <= |t| && Fold(t[..|value|]) == Fold(value) && Matches(t[|value|..], rest)
  {
    if value == "" {
      assert Escaped(value) + rest == rest;
      assert t[0..] == t;
    } else {
      EscapedHead(t, value, rest);
      if t != "" {
        EscapedMatchesItselfOnly(t[1..], value[1..], rest);
        if |value| <= |t| {
          FoldHead(t, value);
          assert t[1..][|value| - 1..] == t[|value|..];
        }
      }
    }
  }

  /** For every path and every pattern source, whatever wildcards it contains:
      the subtree pattern matches exactly what lies beneath, case folded. */
  lemma SubtreeIsStrictlyBeneath(t: string, path: string)
    ensures Matches(t, Subtree(path)) <==> Fold(path) + "/" <= Fold(t)
  {
    EscapedMatchesItselfOnly(t, path, "/%");
    var n := |path|;
    if n <= |t| {
      var rest := t[n..];
      FoldTake(t, n);
      assert Matches(rest, "/%") <==> rest != "" && Lower(rest[0]) == '/' && Matches(rest[1..], "%");
      if rest != "" {
        PercentMatchesAll(rest[1..]);
        assert Fold(t) == Fold(t[..n]) + [Lower(t[n])] + Fold(t)[n + 1..];
      }
    }
    if Fold(path) + "/" <= Fold(t) {
      assert Fold(t)[n] == (Fold(path) + "/")[n];
      assert Fold(t)[..n] == (Fold(path) + "/")[..n] == Fold(path);
    }
  }

  /** The predicate `list` sends for `under_path`: the row itself, or beneath it. */
  predicate InSubtree(path: string, under: string) {
    Fold(path) == Fold(under) || Matches(path, Subtree(under))
  }

  /** The SQL subtree and the Rust ancestor chain are one hierarchy. */
  lemma SubtreeAgreesWithAncestors(path: string, under: string)
    ensures InSubtree(path, under) <==> Fold(under) in AncestorChain(Fold(path))
    ensures InSubtree(path, under) <==> exists q :: q in AncestorChain(path) && Fold(q) == Fold(under)
  {
    SubtreeIsStrictlyBeneath(path, under);
    var q, p := Fold(under), Fold(path);
    ChainIsTheAncestors(p);
    if q + "/" <= p {
      assert p[|q|] == (q + "/")[|q|];
      assert p[..|q|] == (q + "/")[..|q|];
    }
    if IsAncestorOrSelf(q, p) && q != p {
      assert p[..|q| + 1] == q + "/";
    }
    ChainFolds(path);
    if q in AncestorChain(p) {
      var i :| 0 <= i < |AncestorChain(p)| && AncestorChain(p)[i] == q;
      assert AncestorChain(path)[i] in AncestorChain(path);
    }
    if r :| r in AncestorChain(path) && Fold(r) == q {
      var i :| 0 <= i < |AncestorChain(path)| && AncestorChain(path)[i] == r;
      assert AncestorChain(p)[i] == q;
    }
  }

  lemma {:induction false} PlainEscapes(value: string)
    requires forall i :: 0 <= i < |value| ==> !Wild(value[i])
    ensures Escaped(value) == value
  {
    if value != "" {
      PlainEscapes(value[1..]);
    }
  }

  lemma LocalFolds()
    ensures Fold("local") == "local"
  {
  }

  lemma LocalPattern()
    ensures Subtree("local") == "local/%" && Fold("local") + "/" == "local/"
  {
    PlainEscapes("local");
    LocalFolds();
  }

  lemma PrivateIsBeneath(path: string)
    requires IsPrivateClass(path)
    ensures "local/" <= Fold(path)
  {
  }

  lemma BeneathIsPrivate(path: string)
    requires "local/" <= Fold(path)
    ensures IsPrivateClass(path)
  {
    assert forall i :: 0 <= i < 6 ==> Fold(path)[i] == "local/"[i];
    assert forall i :: 0 <= i < 5 ==> path[i] != '/';
    assert path[5] == '/';
    FoldTake(path, 5);
    assert Fold(path)[..5] == "local";
  }

  /** `ck_project_class_path` and `is_private_class` classify every string alike. */
  lemma ClassCheckAgrees(path: string)
    ensures Matches(path, "local/%") <==> IsPrivateClass(path)
  {
    SubtreeIsStrictlyBeneath(path, "local");
    LocalPattern();
    if IsPrivateClass(path) {
      PrivateIsBeneath(path);
    }
    if "local/" <= Fold(path) {
      BeneathIsPrivate(path);
    }
  }
}
