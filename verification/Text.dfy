/** ASCII text as the registry's path columns see it: `utf8mb4_general_ci`
    compares and sorts with ASCII case folded, and within the path alphabet that
    is all it folds. Splitting at slashes is what makes a path a hierarchy. */
module Text {

  /** `char::to_ascii_lowercase`. */
  function Lower(c: char): char {
    if 'A' <= c <= 'Z' then (c as int + 32) as char else c
  }

  /** `str::to_ascii_lowercase`: the key two spellings of one path share. */
  function Fold(s: string): (f: string)
    ensures |f| == |s|
    ensures forall i :: 0 <= i < |s| ==> f[i] == Lower(s[i])
  {
    seq(|s|, i requires 0 <= i < |s| => Lower(s[i]))
  }

  lemma FoldTake(s: string, n: nat)
    requires n <= |s|
    ensures Fold(s[..n]) == Fold(s)[..n]
    ensures Fold(s[n..]) == Fold(s)[n..]
  {
  }

  /** The collation weight of a character: letters sort as their upper case. */
  function Weight(c: char): int {
    if 'a' <= c <= 'z' then c as int - 32 else c as int
  }

  /** `path < ?` under the column's collation. */
  predicate Before(a: string, b: string) {
    |b| != 0 &&
    (|a| == 0 || Weight(a[0]) < Weight(b[0]) || (Weight(a[0]) == Weight(b[0]) && Before(a[1..], b[1..])))
  }

  function Upper(c: char): char {
    if 'a' <= c <= 'z' then (c as int - 32) as char else c
  }

  /** Up to `k` the two are alike but for case; there `a` ends or has the lower
      upper-case letter. */
  ghost predicate DiffersAt(a: string, b: string, k: nat) {
    && k <= |a| && k < |b|
    && (forall i :: 0 <= i < k ==> Upper(a[i]) == Upper(b[i]))
    && (k == |a| || Upper(a[k]) < Upper(b[k]))
  }

  /** One path sorts before another exactly when it has the lower upper-case letter
      where they first differ in more than case, or ends there. */
  lemma {:induction false} BeforeIff(a: string, b: string)
    ensures Before(a, b) <==> exists k: nat :: DiffersAt(a, b, k)
  {
    if a == "" || b == "" || Weight(a[0]) != Weight(b[0]) {
      if Before(a, b) {
        assert DiffersAt(a, b, 0);
      }
    } else {
      BeforeIff(a[1..], b[1..]);
      if k: nat :| DiffersAt(a[1..], b[1..], k) {
        assert DiffersAt(a, b, k + 1);
      }
      if k: nat :| DiffersAt(a, b, k) {
        assert DiffersAt(a[1..], b[1..], k - 1);
      }
    }
  }

  lemma {:induction false} BeforeTransitive(a: string, b: string, c: string)
    requires Before(a, b) && Before(b, c)
    ensures Before(a, c)
  {
    if |a| != 0 && Weight(a[0]) == Weight(b[0]) == Weight(c[0]) {
      BeforeTransitive(a[1..], b[1..], c[1..]);
    }
  }

  /** The sort key is as fine as the unique index: two paths neither of which
      sorts first are one key, and no path sorts before its own key. */
  lemma {:induction false} BeforeTrichotomy(a: string, b: string)
    ensures Before(a, b) || Before(b, a) || Fold(a) == Fold(b)
    ensures Fold(a) == Fold(b) ==> !Before(a, b) && !Before(b, a)
    ensures !(Before(a, b) && Before(b, a))
  {
    if |a| != 0 && |b| != 0 {
      BeforeTrichotomy(a[1..], b[1..]);
      assert Weight(a[0]) == Weight(b[0]) <==> Lower(a[0]) == Lower(b[0]);
      FoldTake(a, 1);
      FoldTake(b, 1);
      assert Fold(a) == [Lower(a[0])] + Fold(a)[1..];
      assert Fold(b) == [Lower(b[0])] + Fold(b)[1..];
    } else if |a| == |b| {
      assert Fold(a) == Fold(b);
    }
  }

  /** Where `split_once('/')` cuts, or the length when there is no slash. */
  function FirstSlash(s: string): (i: nat)
    ensures i <= |s|
    ensures i < |s| ==> s[i] == '/'
    ensures forall j :: 0 <= j < i ==> s[j] != '/'
  {
    if |s| == 0 || s[0] == '/' then 0 else 1 + FirstSlash(s[1..])
  }

  /** `rfind('/')`, or -1. */
  function LastSlash(s: string): (i: int)
    ensures -1 <= i < |s|
    ensures 0 <= i ==> s[i] == '/'
    ensures forall j :: i < j < |s| ==> s[j] != '/'
  {
    if |s| == 0 then -1 else if s[|s| - 1] == '/' then |s| - 1 else LastSlash(s[..|s| - 1])
  }

  /** `split('/')`. */
  function Split(s: string): (segments: seq<string>)
    ensures |segments| >= 1
    ensures segments[0] == s[..FirstSlash(s)]
    ensures |segments| == 1 <==> '/' !in s
  {
    var i := FirstSlash(s);
    if i == |s| then [s] else [s[..i]] + Split(s[i + 1..])
  }
}
