/** What a project path is, and the chain of ancestors a resolution walks
    (src/path.rs). */
module Paths {
  import opened Outcome
  import opened Text

  const MAX_LEN := 255
  const RESERVED_ROOT := "local"
  const USER_ID_PREFIX := "yadgar:user:"

  // ---- The grammar ----

  predicate SegmentCharacter(c: char) {
    'a' <= c <= 'z' || 'A' <= c <= 'Z' || '0' <= c <= '9' || c == '.' || c == '_' || c == '-'
  }

  predicate SegmentIsLegal(segment: string) {
    segment != "" && segment != "." && segment != ".." && forall c :: c in segment ==> SegmentCharacter(c)
  }

  /** A project path: 1 to 255 characters whose segments are all legal. That it
      neither begins nor ends with a slash follows. */
  predicate ValidPath(path: string) {
    0 < |path| <= MAX_LEN && forall segment :: segment in Split(path) ==> SegmentIsLegal(segment)
  }

  lemma {:induction false} SplitEnds(s: string)
    requires s != "" && (s[0] == '/' || s[|s| - 1] == '/')
    ensures "" in Split(s)
  {
    if s[0] == '/' {
      assert Split(s)[0] == "";
    } else {
      var rest := s[FirstSlash(s) + 1..];
      if rest == "" {
        assert Split(rest)[0] == "";
      } else {
        SplitEnds(rest);
      }
      assert "" in Split(rest);
    }
  }

  /** `validate`, in the order the source makes its checks. */
  method Validate(path: string) returns (r: Result<()>)
    ensures r.Ok? <==> ValidPath(path)
    ensures r.Ok? <==> 1 <= |path| <= 255 && forall segment :: segment in Split(path) ==>
      segment !in ["", ".", ".."] && forall c :: c in segment ==>
        'a' <= c <= 'z' || 'A' <= c <= 'Z' || '0' <= c <= '9' || c in "._-"
    ensures r.Err? ==> r.code == InvalidArgument
  {
    if path == "" || |path| > MAX_LEN {
      return Err(InvalidArgument);
    }
    if path[0] == '/' || path[|path| - 1] == '/' {
      SplitEnds(path);
      return Err(InvalidArgument);
    }
    var segments := Split(path);
    for i := 0 to |segments|
      invariant forall k :: 0 <= k < i ==> SegmentIsLegal(segments[k])
    {
      if !SegmentIsLegal(segments[i]) {
        return Err(InvalidArgument);
      }
    }
    return Ok(());
  }

  // ---- The two classes ----

  /** `refuse_reserved_root`: the bare segment, in any ASCII case. */
  predicate IsReservedRoot(path: string) {
    Fold(path) == RESERVED_ROOT
  }

  /** `is_private_class`: strictly beneath the reserved segment. */
  predicate IsPrivateClass(path: string) {
    var cut := FirstSlash(path);
    cut < |path| && Fold(path[..cut]) == RESERVED_ROOT
  }

  lemma PrivateClassFolds(path: string)
    ensures IsPrivateClass(path) <==> IsPrivateClass(Fold(path))
  {
  }

  lemma {:induction false} FirstSlashFolds(s: string)
    ensures FirstSlash(Fold(s)) == FirstSlash(s)
  {
  }

  // ---- The account segment ----

  predicate LowerHex(c: char) {
    '0' <= c <= '9' || 'a' <= c <= 'f'
  }

  /** The lower-case hyphenated rendering of a version 7 UUID of the RFC 9562
      variant (sections 4.1 and 5.7). */
  predicate CanonicalUuid7(s: string) {
    && |s| == 36
    && (forall i :: 0 <= i < 36 ==> if i in {8, 13, 18, 23} then s[i] == '-' else LowerHex(s[i]))
    && s[14] == '7'
    && s[19] in "89ab"
  }

  /** The hexadecimal digits of a UUID, as numbers. */
  predicate Digits(ds: seq<nat>) {
    |ds| == 32 && forall i :: 0 <= i < 32 ==> ds[i] < 16
  }

  function HexDigit(d: nat): char
    requires d < 16
  {
    if d < 10 then ('0' as int + d) as char else ('a' as int + d - 10) as char
  }

  /** How many hyphens stand before this place of the rendering. */
  function Hyphens(i: nat): nat {
    if i < 9 then 0 else if i < 14 then 1 else if i < 19 then 2 else if i < 24 then 3 else 4
  }

  /** Where the `i`th digit stands. */
  function Place(i: nat): nat {
    if i < 8 then i else if i < 12 then i + 1 else if i < 16 then i + 2 else if i < 20 then i + 3 else i + 4
  }

  /** The lower-case rendering, a hyphen after 8, 12, 16 and 20 digits. */
  function Hyphenated(ds: seq<nat>): string
    requires Digits(ds)
  {
    seq(36, i requires 0 <= i < 36 => if i in {8, 13, 18, 23} then '-' else HexDigit(ds[i - Hyphens(i)]))
  }

  function ValueOf(c: char): nat
    requires LowerHex(c)
  {
    if c <= '9' then c as int - '0' as int else c as int - 'a' as int + 10
  }

  lemma RenderedIsCanonical(ds: seq<nat>)
    requires Digits(ds) && ds[12] == 7 && 8 <= ds[16] <= 11
    ensures CanonicalUuid7(Hyphenated(ds))
  {
  }

  lemma HexOfValue(c: char)
    requires LowerHex(c)
    ensures ValueOf(c) < 16 && HexDigit(ValueOf(c)) == c
  {
  }

  lemma CanonicalIsRendered(s: string) returns (ds: seq<nat>)
    requires CanonicalUuid7(s)
    ensures Digits(ds) && ds[12] == 7 && 8 <= ds[16] <= 11 && s == Hyphenated(ds)
  {
    ds := seq(32, i requires 0 <= i < 32 => ValueOf(s[Place(i)]));
    forall i | 0 <= i < 36 && i !in {8, 13, 18, 23}
      ensures ds[i - Hyphens(i)] < 16 && HexDigit(ds[i - Hyphens(i)]) == s[i]
    {
      HexOfValue(s[i]);
      assert Place(i - Hyphens(i)) == i;
    }
    forall i | 0 <= i < 32
      ensures ds[i] < 16
    {
      HexOfValue(s[Place(i)]);
    }
  }

  /** A segment passes exactly when it is the rendering of some UUID of version 7
      and the RFC variant, so no other spelling of one does. */
  lemma CanonicalIffRendered(s: string)
    ensures CanonicalUuid7(s) <==> exists ds :: Digits(ds) && ds[12] == 7 && 8 <= ds[16] <= 11 && s == Hyphenated(ds)
  {
    if CanonicalUuid7(s) {
      var ds := CanonicalIsRendered(s);
    }
    if ds :| Digits(ds) && ds[12] == 7 && 8 <= ds[16] <= 11 && s == Hyphenated(ds) {
      RenderedIsCanonical(ds);
    }
  }

  /** `account_segment`: the root a user id owns in the private class. */
  function AccountSegment(userId: string): Option<string> {
    if USER_ID_PREFIX <= userId && CanonicalUuid7(userId[|USER_ID_PREFIX|..]) then
      Some(userId[|USER_ID_PREFIX|..])
    else
      None
  }

  /** A user id owns a segment exactly when it is the prefix and that segment. */
  lemma AccountSegmentIff(userId: string, segment: string)
    ensures AccountSegment(userId) == Some(segment) <==> CanonicalUuid7(segment) && userId == "yadgar:user:" + segment
  {
    assert USER_ID_PREFIX <= userId ==> userId == USER_ID_PREFIX + userId[|USER_ID_PREFIX|..];
    assert userId == USER_ID_PREFIX + segment ==> userId[|USER_ID_PREFIX|..] == segment;
  }

  /** `is_under_own_root`: byte-exact, although the store folds case. */
  predicate IsUnderOwnRoot(path: string, segment: string) {
    var segments := Split(path);
    |segments| > 1 && segments[0] == RESERVED_ROOT && segments[1] == segment
  }

  /** The path `owner` may register: its own account segment or beneath it. */
  predicate OwnsPath(owner: string, path: string) {
    AccountSegment(owner).Some? && IsUnderOwnRoot(path, AccountSegment(owner).value)
  }

  /** Account roots never overlap: a private path is under one user's root, is
      in the private class, and its account segment is a legal path segment. */
  lemma OwnRootsAreDisjoint(path: string, u: string, v: string)
    requires OwnsPath(u, path)
    ensures IsPrivateClass(path) && !IsReservedRoot(path)
    ensures SegmentIsLegal(AccountSegment(u).value)
    ensures OwnsPath(v, path) ==> u == v
  {
  }

  // ---- Ancestors ----

  /** Whether `q` is `p` or sits above it: whole segments, never a mere prefix. */
  predicate IsAncestorOrSelf(q: string, p: string) {
    q == p || (|q| < |p| && p[..|q|] == q && p[|q|] == '/')
  }

  /** A path and what is left of it each time its last segment is cut off. */
  function AncestorChain(path: string): (chain: seq<string>)
    ensures |chain| >= 1 && chain[0] == path
    decreases |path|
  {
    var cut := LastSlash(path);
    if cut < 0 then [path] else [path] + AncestorChain(path[..cut])
  }

  /** The chain holds exactly the segment-wise ancestors, each strictly longer
      than the next, so it is determined by its members. */
  lemma {:induction false} ChainIsTheAncestors(path: string)
    ensures forall q :: q in AncestorChain(path) <==> IsAncestorOrSelf(q, path)
    ensures forall i, j :: 0 <= i < j < |AncestorChain(path)| ==> |AncestorChain(path)[i]| > |AncestorChain(path)[j]|
    decreases |path|
  {
    var cut := LastSlash(path);
    if cut >= 0 {
      var up := path[..cut];
      ChainIsTheAncestors(up);
      forall q
        ensures q in AncestorChain(path) <==> IsAncestorOrSelf(q, path)
      {
        assert q in AncestorChain(path) <==> q == path || q in AncestorChain(up);
        if IsAncestorOrSelf(q, path) && q != path {
          assert |q| <= cut;
          assert |q| < cut ==> up[..|q|] == q;
          assert |q| == cut ==> q == up;
        }
        if IsAncestorOrSelf(q, up) {
          assert path[..|q|] == q;
        }
      }
      var chain := AncestorChain(path);
      forall i, j | 0 <= i < j < |chain|
        ensures |chain[i]| > |chain[j]|
      {
        assert chain[j] == AncestorChain(up)[j - 1];
        assert AncestorChain(up)[j - 1] in AncestorChain(up);
      }
    }
  }

  /** `ancestors`. */
  method Ancestors(path: string) returns (out: seq<string>)
    ensures out == AncestorChain(path)
  {
    out := [path];
    var rest := path;
    var cut := LastSlash(rest);
    while cut >= 0
      invariant cut == LastSlash(rest)
      invariant out + AncestorChain(rest)[1..] == AncestorChain(path)
      decreases |rest|
    {
      ghost var chain := AncestorChain(rest);
      rest := rest[..cut];
      out := out + [rest];
      assert chain[1..] == AncestorChain(rest);
      assert AncestorChain(rest) == [rest] + AncestorChain(rest)[1..];
      cut := LastSlash(rest);
    }
  }

  function Join(segments: seq<string>): string
    requires |segments| >= 1
  {
    if |segments| == 1 then segments[0] else segments[0] + "/" + Join(segments[1..])
  }

  lemma JoinCons(head: string, rest: seq<string>)
    requires |rest| >= 1
    ensures Join([head] + rest) == head + "/" + Join(rest)
  {
  }

  lemma CutAt(s: string, i: nat)
    requires i < |s| && s[i] == '/'
    ensures s == s[..i] + "/" + s[i + 1..]
  {
  }

  lemma {:induction false} JoinSplit(s: string)
    ensures Join(Split(s)) == s
    decreases |s|
  {
    var i := FirstSlash(s);
    if i < |s| {
      JoinSplit(s[i + 1..]);
      JoinCons(s[..i], Split(s[i + 1..]));
      CutAt(s, i);
    }
  }

  lemma SplitCons(head: string, rest: string)
    requires '/' !in head
    ensures Split(head + "/" + rest) == [head] + Split(rest)
  {
    var s := head + "/" + rest;
    assert s[|head|] == '/';
    assert forall k :: 0 <= k < |head| ==> s[k] == head[k];
    assert FirstSlash(s) == |head|;
    assert s[..|head|] == head && s[|head| + 1..] == rest;
  }

  lemma Regroup(head: string, rest: string, b: string)
    ensures head + "/" + rest + "/" + b == head + "/" + (rest + "/" + b)
  {
  }

  lemma Reassociate(head: string, x: seq<string>, y: seq<string>)
    ensures [head] + (x + y) == ([head] + x) + y
  {
  }

  lemma SplitAtSlashStep(head: string, rest: string, b: string)
    requires '/' !in head && Split(rest + "/" + b) == Split(rest) + Split(b)
    ensures Split(head + "/" + rest + "/" + b) == Split(head + "/" + rest) + Split(b)
  {
    Regroup(head, rest, b);
    SplitCons(head, rest);
    SplitCons(head, rest + "/" + b);
    Reassociate(head, Split(rest), Split(b));
  }

  lemma {:induction false} SplitAtSlash(a: string, b: string)
    ensures Split(a + "/" + b) == Split(a) + Split(b)
    decreases |a|
  {
    var i := FirstSlash(a);
    if i == |a| {
      SplitCons(a, b);
    } else {
      var head, rest := a[..i], a[i + 1..];
      CutAt(a, i);
      SplitAtSlash(rest, b);
      SplitAtSlashStep(head, rest, b);
    }
  }

  lemma {:induction false} JoinPrefix(segments: seq<string>, k: nat)
    requires 1 <= k < |segments|
    ensures Join(segments) == Join(segments[..k]) + "/" + Join(segments[k..])
    decreases k
  {
    if k == 1 {
      assert segments[..1][0] == segments[0];
    } else {
      JoinPrefix(segments[1..], k - 1);
      assert segments[1..][..k - 1] == segments[..k][1..];
      assert segments[1..][k - 1..] == segments[k..];
    }
  }

  lemma AncestorSplits(q: string, p: string)
    requires IsAncestorOrSelf(q, p)
    ensures Split(q) <= Split(p)
  {
    if q != p {
      assert p == q + "/" + p[|q| + 1..];
      SplitAtSlash(q, p[|q| + 1..]);
    }
  }

  lemma PrefixJoins(x: seq<string>, y: seq<string>)
    requires 1 <= |x| && x <= y
    ensures IsAncestorOrSelf(Join(x), Join(y))
  {
  }

  /** The hierarchy is semantic: an ancestor is a prefix of SEGMENTS. */
  lemma AncestorsAreSegmentPrefixes(q: string, p: string)
    ensures IsAncestorOrSelf(q, p) <==> Split(q) <= Split(p)
  {
    if IsAncestorOrSelf(q, p) {
      AncestorSplits(q, p);
    }
    if Split(q) <= Split(p) {
      JoinSplit(q);
      JoinSplit(p);
      PrefixJoins(Split(q), Split(p));
    }
  }

  /** A path lies under an account's own root exactly when `local/<segment>` is the
      path or an ancestor of it. */
  lemma OwnRootIsAncestor(path: string, segment: string)
    requires '/' !in segment
    ensures IsUnderOwnRoot(path, segment) <==> IsAncestorOrSelf("local/" + segment, path)
  {
    var root := "local" + "/" + segment;
    SplitCons("local", segment);
    assert Split(segment) == [segment];
    assert root == "local/" + segment;
    AncestorsAreSegmentPrefixes(root, path);
    assert ["local", segment] == ["local"] + [segment];
  }

  /** Every ancestor of a path is a path. */
  lemma AncestorsAreValid(q: string, p: string)
    requires ValidPath(p) && IsAncestorOrSelf(q, p)
    ensures ValidPath(q)
  {
    AncestorsAreSegmentPrefixes(q, p);
    forall segment | segment in Split(q)
      ensures SegmentIsLegal(segment)
    {
      assert segment in Split(p);
    }
    assert Split(q)[0] in Split(q);
  }

  /** The root of a path: the last entry of its chain, the only one segment long. */
  function Root(path: string): string {
    path[..FirstSlash(path)]
  }

  /** Folding keeps the hierarchy: the folded chain is the chain of the folded path. */
  lemma {:induction false} ChainFolds(path: string)
    ensures |AncestorChain(Fold(path))| == |AncestorChain(path)|
    ensures forall i :: 0 <= i < |AncestorChain(path)| ==> AncestorChain(Fold(path))[i] == Fold(AncestorChain(path)[i])
    decreases |path|
  {
    var cut := LastSlash(path);
    LastSlashFolds(path);
    if cut >= 0 {
      FoldTake(path, cut);
      ChainFolds(path[..cut]);
    }
  }

  lemma LastSlashFolds(s: string)
    ensures LastSlash(Fold(s)) == LastSlash(s)
  {
  }
}
