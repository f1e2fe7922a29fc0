/** `GetProject`, and the one-statement fills that attach aliases and grants to a
    page of rows (src/read.rs). */
module Lookups {
  import opened Outcome
  import opened Paths
  import opened Registry
  import opened Resolution
  import opened Text
  import opened Touches

  // ---- Sorted answers ----

  /** Strictly ascending: what ORDER BY gives on a unique column. */
  ghost predicate Ascending<T>(xs: seq<T>, key: T -> string) {
    forall i, j :: 0 <= i < j < |xs| ==> Before(key(xs[i]), key(xs[j]))
  }

  /** An ascending answer is determined by its members. */
  lemma {:induction false} AscendingIsUnique<T>(xs: seq<T>, ys: seq<T>, key: T -> string)
    requires Ascending(xs, key) && Ascending(ys, key) && forall x :: x in xs <==> x in ys
    ensures xs == ys
  {
    assert xs == [] <==> ys == [] by {
      if xs != [] {
        assert xs[0] in ys;
      }
      if ys != [] {
        assert ys[0] in xs;
      }
    }
    if xs != [] {
      assert xs[0] in ys && ys[0] in xs;
      var j :| 0 <= j < |ys| && ys[j] == xs[0];
      var i :| 0 <= i < |xs| && xs[i] == ys[0];
      BeforeTrichotomy(key(xs[0]), key(ys[0]));
      assert xs[0] == ys[0];
      TailMembers(xs, ys, key);
      AscendingIsUnique(xs[1..], ys[1..], key);
    }
  }

  lemma TailMembers<T>(xs: seq<T>, ys: seq<T>, key: T -> string)
    requires Ascending(xs, key) && Ascending(ys, key) && (forall x :: x in xs <==> x in ys)
    requires xs != [] && ys != [] && xs[0] == ys[0]
    ensures forall x :: x in xs[1..] <==> x in ys[1..]
  {
    BeforeTrichotomy(key(xs[0]), key(xs[0]));
    forall x
      ensures x in xs[1..] <==> x in xs && x != xs[0]
      ensures x in ys[1..] <==> x in ys && x != ys[0]
    {
      if x in xs && x != xs[0] {
        var i :| 0 <= i < |xs| && xs[i] == x;
        assert xs[1..][i - 1] == x;
      }
      if x in ys && x != ys[0] {
        var i :| 0 <= i < |ys| && ys[i] == x;
        assert ys[1..][i - 1] == x;
      }
    }
  }

  /** `x` where ORDER BY puts it among the rows already found. */
  function PutInOrder<T>(xs: seq<T>, x: T, key: T -> string): seq<T> {
    if xs == [] || Before(key(x), key(xs[0])) then [x] + xs else [xs[0]] + PutInOrder(xs[1..], x, key)
  }

  lemma {:induction false} PlacedMembers<T>(xs: seq<T>, x: T, key: T -> string, y: T)
    ensures y in PutInOrder(xs, x, key) <==> y == x || y in xs
  {
    if xs != [] && !Before(key(x), key(xs[0])) {
      PlacedMembers(xs[1..], x, key, y);
      assert y in xs <==> y == xs[0] || y in xs[1..];
    }
  }

  lemma {:induction false} PlacedAscends<T>(xs: seq<T>, x: T, key: T -> string)
    requires Ascending(xs, key) && forall y :: y in xs ==> Fold(key(y)) != Fold(key(x))
    ensures Ascending(PutInOrder(xs, x, key), key)
  {
    if xs != [] {
      BeforeTrichotomy(key(x), key(xs[0]));
      if Before(key(x), key(xs[0])) {
        forall j | 1 <= j < |xs|
          ensures Before(key(x), key(xs[j]))
        {
          BeforeTransitive(key(x), key(xs[0]), key(xs[j]));
        }
      } else {
        var rest := PutInOrder(xs[1..], x, key);
        PlacedAscends(xs[1..], x, key);
        forall j | 0 <= j < |rest|
          ensures Before(key(xs[0]), key(rest[j]))
        {
          PlacedMembers(xs[1..], x, key, rest[j]);
          if rest[j] != x {
            var i :| 0 <= i < |xs[1..]| && xs[1..][i] == rest[j];
          }
        }
      }
    }
  }

  /** Whatever a statement selects on a unique column has an ascending answer. */
  lemma {:induction false} AscendingExists<T>(members: set<T>, key: T -> string) returns (xs: seq<T>)
    requires forall x, y :: x in members && y in members && Fold(key(x)) == Fold(key(y)) ==> x == y
    ensures Ascending(xs, key) && forall x :: x in xs <==> x in members
  {
    xs := [];
    if members != {} {
      var x :| x in members;
      var rest := AscendingExists(members - {x}, key);
      PlacedAscends(rest, x, key);
      xs := PutInOrder(rest, x, key);
      forall y
        ensures y in xs <==> y == x || y in rest
      {
        PlacedMembers(rest, x, key, y);
      }
    }
  }

  // ---- GetProject ----

  /** The row the query's ORDER BY and LIMIT 1 leave: some row the path names,
      and the live one when there is one. */
  ghost predicate GetRow(s: Store, path: string, row: Option<Id>) {
    && (row.None? ==> forall id :: !Names(s, path, id))
    && (row.Some? ==>
          && Names(s, path, row.value)
          && (Fold(s.projects[row.value].path) == Fold(path) || forall id :: Names(s, path, id) ==> Fold(s.projects[id].path) != Fold(path)))
  }

  /** `get`, once the query has answered. */
  function Get(path: string, row: Option<Id>): Result<Id> {
    if !ValidPath(path) then Err(InvalidArgument)
    else if row.None? then Err(NotFound)
    else Ok(row.value)
  }

  lemma NamedIsRegistered(s: Store, path: string, id: Id)
    requires Names(s, path, id)
    ensures Registered(s, Fold(path))
  {
  }

  lemma GetRowIsTarget(s: Store, path: string, row: Option<Id>)
    requires Schema(s) && GetRow(s, path, row)
    ensures row.Some? <==> Registered(s, Fold(path))
    ensures row.Some? ==> row.value == TargetAt(s, Fold(path))
  {
    var key := Fold(path);
    if Registered(s, key) {
      var t := TargetAt(s, key);
      assert Names(s, path, t);
    }
    if row.Some? {
      NamedIsRegistered(s, path, row.value);
      var t := TargetAt(s, key);
      if LiveAt(s, key) {
        assert Fold(s.projects[t].path) == Fold(s.projects[row.value].path);
      } else {
        var a :| a in s.aliases && Fold(a) == key && s.aliases[a] == row.value;
        var b :| b in s.aliases && Fold(b) == key && s.aliases[b] == t;
        assert Fold(a) == Fold(b);
      }
    }
  }

  /** `GetProject` answers with a row exactly when `ResolveProject` is exact, and
      with the row it resolves to. */
  lemma GetAgreesWithResolve(s: Store, path: string, row: Option<Id>)
    requires Valid(s) && ValidPath(path) && !IsReservedRoot(path) && GetRow(s, path, row)
    ensures Get(path, row).Ok? <==> Resolve(s, path).Ok? && Resolve(s, path).value.exact
    ensures Get(path, row).Ok? ==>
      Get(path, row).value in s.projects && s.projects[Get(path, row).value].path == Resolve(s, path).value.resolvedPath
  {
    GetRowIsTarget(s, path, row);
    ResolveIsNearestAncestor(s, path);
    if row.Some? {
      WalkIs(path);
    }
  }

  // ---- The fills ----

  /** A row as a read answers it: without its repository, which only a
      resolution tells, and its visibility, which the path tells. */
  datatype Project = Project(
    meta: Meta, path: string, displayName: string, status: Status, lastSeen: Option<int>,
    aliases: seq<string>, grants: seq<(string, Level)>)

  /** `row_to_project`. */
  function ProjectOf(s: Store, id: Id): Project
    requires id in s.projects
  {
    var row := s.projects[id];
    var owner := if row.owner.Some? then row.owner.value else "";
    Project(Meta(id, row.version, row.path, owner, row.createdBy, row.updatedBy), row.path, row.displayName, row.status,
            if id in s.seen then Some(s.seen[id]) else None, [], [])
  }

  function AliasOf(p: (Id, string)): string { p.1 }

  function Itself(a: string): string { a }

  /** One statement for the page: every alias of every row on it, ascending. */
  ghost predicate AliasPairs(s: Store, ids: set<Id>, pairs: seq<(Id, string)>) {
    Ascending(pairs, AliasOf) && forall p :: p in pairs <==> p.1 in s.aliases && s.aliases[p.1] == p.0 && p.0 in ids
  }

  /** One statement for one row. */
  ghost predicate AliasLookup(s: Store, id: Id, out: seq<string>) {
    Ascending(out, Itself) && forall a :: a in out <==> a in s.aliases && s.aliases[a] == id
  }

  function AliasesIn(pairs: seq<(Id, string)>, id: Id): seq<string> {
    if pairs == [] then []
    else (if pairs[0].0 == id then [pairs[0].1] else []) + AliasesIn(pairs[1..], id)
  }

  lemma {:induction false} AliasesInAre(pairs: seq<(Id, string)>, id: Id)
    requires Ascending(pairs, AliasOf)
    ensures forall a :: a in AliasesIn(pairs, id) <==> (id, a) in pairs
    ensures Ascending(AliasesIn(pairs, id), Itself)
  {
    if pairs != [] {
      var rest := AliasesIn(pairs[1..], id);
      AliasesInAre(pairs[1..], id);
      assert forall p :: p in pairs <==> p == pairs[0] || p in pairs[1..];
      forall a | a in rest
        ensures Before(pairs[0].1, a)
      {
        assert (id, a) in pairs[1..];
      }
    }
  }

  /** The share of a page's aliases that falls to a row is what looking the row
      up alone would give, in the same order. */
  lemma FillIsLookup(s: Store, ids: set<Id>, pairs: seq<(Id, string)>, id: Id, alone: seq<string>)
    requires AliasPairs(s, ids, pairs) && id in ids && AliasLookup(s, id, alone)
    ensures AliasesIn(pairs, id) == alone
  {
    AliasesInAre(pairs, id);
    AscendingIsUnique(AliasesIn(pairs, id), alone, Itself);
  }

  /** `with_aliases`. */
  method WithAliases(ghost s: Store, projects: seq<Project>, pairs: seq<(Id, string)>) returns (out: seq<Project>)
    requires AliasPairs(s, set i | 0 <= i < |projects| :: projects[i].meta.id, pairs)
    ensures |out| == |projects|
    ensures forall i :: 0 <= i < |projects| ==> out[i] == projects[i].(aliases := out[i].aliases)
    ensures forall i :: 0 <= i < |projects| ==> AliasLookup(s, projects[i].meta.id, out[i].aliases)
  {
    out := projects;
    for i := 0 to |projects|
      invariant |out| == |projects|
      invariant forall k :: 0 <= k < |projects| ==> out[k] == projects[k].(aliases := out[k].aliases)
      invariant forall k :: 0 <= k < i ==> AliasLookup(s, projects[k].meta.id, out[k].aliases)
    {
      AliasesInAre(pairs, projects[i].meta.id);
      out := out[i := out[i].(aliases := AliasesIn(pairs, projects[i].meta.id))];
    }
  }

  // ---- Grants ----

  type GrantRow = (Id, string, Level)

  function TeamOf(g: (string, Level)): string { g.0 }

  /** No row sorts before one it follows. */
  ghost predicate TeamsInOrder(rows: seq<GrantRow>) {
    forall i, j :: 0 <= i < j < |rows| ==> !Before(rows[j].1, rows[i].1)
  }

  /** Rows of one project are of different teams, in every letter case. */
  ghost predicate TeamsDiffer(rows: seq<GrantRow>) {
    forall i, j :: 0 <= i < j < |rows| ==> rows[i].0 == rows[j].0 ==> Fold(rows[i].1) != Fold(rows[j].1)
  }

  ghost predicate Granted(s: Store, ids: set<Id>, g: GrantRow) {
    g.0 in ids && g.0 in s.projects && IsOrg(s.projects[g.0]) && (g.0, g.1) in s.grants && s.grants[(g.0, g.1)] == g.2
  }

  /** One statement for the page: the grants of its org rows, by team. */
  ghost predicate GrantRows(s: Store, ids: set<Id>, rows: seq<GrantRow>) {
    TeamsInOrder(rows) && TeamsDiffer(rows) && forall g :: g in rows <==> Granted(s, ids, g)
  }

  /** One statement for one row. */
  ghost predicate GrantLookup(s: Store, id: Id, out: seq<(string, Level)>) {
    Ascending(out, TeamOf) && forall g :: g in out <==> Granted(s, {id}, (id, g.0, g.1))
  }

  /** On a row of an organisation a read finds every grant stored on it, at its
      level, and nothing else; on a private row none, whatever the table holds. */
  lemma GrantsReadAre(s: Store, id: Id, out: seq<(string, Level)>)
    requires GrantLookup(s, id, out) && id in s.projects
    ensures s.projects[id].owner.None? ==>
      forall team, level :: (team, level) in out <==> (id, team) in s.grants && s.grants[(id, team)] == level
    ensures s.projects[id].owner.Some? ==> forall g :: g !in out
  {
    forall team, level
      ensures (team, level) in out <==> Granted(s, {id}, (id, team, level))
    {
    }
  }

  function GrantsIn(rows: seq<GrantRow>, id: Id): seq<(string, Level)> {
    if rows == [] then []
    else (if rows[0].0 == id then [(rows[0].1, rows[0].2)] else []) + GrantsIn(rows[1..], id)
  }

  lemma {:induction false} GrantsInAre(rows: seq<GrantRow>, id: Id)
    requires TeamsInOrder(rows) && TeamsDiffer(rows)
    ensures forall g :: g in GrantsIn(rows, id) <==> (id, g.0, g.1) in rows
    ensures Ascending(GrantsIn(rows, id), TeamOf)
  {
    if rows != [] {
      GrantsInAre(rows[1..], id);
      assert forall p :: p in rows <==> p == rows[0] || p in rows[1..];
      forall g | g in GrantsIn(rows[1..], id) && rows[0].0 == id
        ensures Before(rows[0].1, g.0)
      {
        var j :| 1 <= j < |rows| && rows[j] == (id, g.0, g.1);
        BeforeTrichotomy(rows[0].1, g.0);
      }
    }
  }

  lemma GrantFillIsLookup(s: Store, ids: set<Id>, rows: seq<GrantRow>, id: Id, alone: seq<(string, Level)>)
    requires GrantRows(s, ids, rows) && id in ids && GrantLookup(s, id, alone)
    ensures GrantsIn(rows, id) == alone
  {
    GrantsInAre(rows, id);
    AscendingIsUnique(GrantsIn(rows, id), alone, TeamOf);
  }

  /** `with_grants`: org rows only, whatever the table holds. */
  method WithGrants(ghost s: Store, projects: seq<Project>, rows: seq<GrantRow>) returns (out: seq<Project>)
    requires GrantRows(s, set i | 0 <= i < |projects| :: projects[i].meta.id, rows)
    ensures |out| == |projects|
    ensures forall i :: 0 <= i < |projects| ==> out[i] == projects[i].(grants := out[i].grants)
    ensures forall i :: 0 <= i < |projects| ==> GrantLookup(s, projects[i].meta.id, out[i].grants)
  {
    out := projects;
    for i := 0 to |projects|
      invariant |out| == |projects|
      invariant forall k :: 0 <= k < |projects| ==> out[k] == projects[k].(grants := out[k].grants)
      invariant forall k :: 0 <= k < i ==> GrantLookup(s, projects[k].meta.id, out[k].grants)
    {
      GrantsInAre(rows, projects[i].meta.id);
      out := out[i := out[i].(grants := GrantsIn(rows, projects[i].meta.id))];
    }
  }

  // ---- The two statements ----

  /** Every registry that keeps the schema answers the aliases' statement. */
  method AliasQuery(s: Store, ids: set<Id>) returns (pairs: seq<(Id, string)>)
    requires AliasesUnique(s.aliases)
    ensures AliasPairs(s, ids, pairs)
  {
    pairs := [];
    var names := s.aliases.Keys;
    while names != {}
      invariant names <= s.aliases.Keys && Ascending(pairs, AliasOf)
      invariant forall p :: p in pairs <==> p.1 in s.aliases && p.1 !in names && s.aliases[p.1] == p.0 && p.0 in ids
    {
      var a :| a in names;
      names := names - {a};
      if s.aliases[a] in ids {
        var pair := (s.aliases[a], a);
        PlacedAscends(pairs, pair, AliasOf);
        forall p
          ensures p in PutInOrder(pairs, pair, AliasOf) <==> p == pair || p in pairs
        {
          PlacedMembers(pairs, pair, AliasOf, p);
        }
        pairs := PutInOrder(pairs, pair, AliasOf);
      }
    }
  }

  /** Team ids have no capitals: two that differ differ in every letter case. */
  lemma TeamIdsFold(id: string)
    requires IsTeamId(id)
    ensures Fold(id) == id
  {
    forall i | 0 <= i < |id|
      ensures Lower(id[i]) == id[i]
    {
      if i < |TEAM_PREFIX| {
        assert id[i] == TEAM_PREFIX[i];
      } else {
        assert id[i] == id[|TEAM_PREFIX|..][i - |TEAM_PREFIX|];
      }
    }
  }

  ghost predicate Ordered<T>(xs: seq<T>, key: T -> string) {
    forall i, j :: 0 <= i < j < |xs| ==> xs[i] != xs[j] && !Before(key(xs[j]), key(xs[i]))
  }

  lemma {:induction false} PlacedInOrder<T>(xs: seq<T>, x: T, key: T -> string)
    requires Ordered(xs, key) && x !in xs
    ensures Ordered(PutInOrder(xs, x, key), key)
  {
    if xs != [] {
      BeforeTrichotomy(key(x), key(xs[0]));
      if Before(key(x), key(xs[0])) {
        forall j | 0 <= j < |xs|
          ensures !Before(key(xs[j]), key(x))
        {
          if Before(key(xs[j]), key(x)) {
            BeforeTransitive(key(xs[j]), key(x), key(xs[0]));
          }
        }
      } else {
        var rest := PutInOrder(xs[1..], x, key);
        PlacedInOrder(xs[1..], x, key);
        forall j | 0 <= j < |rest|
          ensures rest[j] != xs[0] && !Before(key(rest[j]), key(xs[0]))
        {
          PlacedMembers(xs[1..], x, key, rest[j]);
          if rest[j] != x {
            var i :| 0 <= i < |xs[1..]| && xs[1..][i] == rest[j];
          }
        }
      }
    }
  }

  function TeamAt(g: GrantRow): string { g.1 }

  /** Rows of the table come in team order, those of one project under different
      teams: the table's key and the shape of a team id. */
  lemma OrderedRowsDiffer(s: Store, ids: set<Id>, rows: seq<GrantRow>)
    requires GrantsNameTeams(s) && Ordered(rows, TeamAt) && forall g :: g in rows <==> Granted(s, ids, g)
    ensures GrantRows(s, ids, rows)
  {
    forall i, j | 0 <= i < j < |rows| && rows[i].0 == rows[j].0
      ensures Fold(rows[i].1) != Fold(rows[j].1)
    {
      assert rows[i] in rows && rows[j] in rows;
      TeamIdsFold(rows[i].1);
      TeamIdsFold(rows[j].1);
    }
  }

  /** Every registry whose grants name teams answers the grants' statement. */
  method GrantQuery(s: Store, ids: set<Id>) returns (rows: seq<GrantRow>)
    requires GrantsNameTeams(s)
    ensures GrantRows(s, ids, rows)
  {
    rows := [];
    var keys := s.grants.Keys;
    while keys != {}
      invariant keys <= s.grants.Keys && Ordered(rows, TeamAt)
      invariant forall g :: g in rows <==> (g.0, g.1) !in keys && Granted(s, ids, g)
    {
      var k :| k in keys;
      keys := keys - {k};
      if k.0 in ids && k.0 in s.projects && IsOrg(s.projects[k.0]) {
        var row := (k.0, k.1, s.grants[k]);
        PlacedInOrder(rows, row, TeamAt);
        forall g
          ensures g in PutInOrder(rows, row, TeamAt) <==> g == row || g in rows
        {
          PlacedMembers(rows, row, TeamAt, g);
        }
        rows := PutInOrder(rows, row, TeamAt);
      }
    }
    OrderedRowsDiffer(s, ids, rows);
  }

  // ---- Both, for a page ----

  /** The columns of a row a read answers. */
  ghost predicate ReadsColumns(s: Store, id: Id, p: Project) {
    && id in s.projects
    && var row := s.projects[id];
    && p.path == p.meta.projectId == row.path && p.displayName == row.displayName && p.status == row.status
    && p.meta.id == id && p.meta.version == row.version
    && p.meta.createdBy == row.createdBy && p.meta.updatedBy == row.updatedBy
    && (row.owner.Some? ==> p.meta.ownerUserId == row.owner.value)
    && (row.owner.None? ==> p.meta.ownerUserId == "")
    && (p.lastSeen.Some? <==> id in s.seen)
    && (p.lastSeen.Some? ==> p.lastSeen.value == s.seen[id])
  }

  /** A row with what a read attaches to it. */
  ghost predicate Filled(s: Store, id: Id, p: Project) {
    ReadsColumns(s, id, p) && AliasLookup(s, id, p.aliases) && GrantLookup(s, id, p.grants)
  }

  /** The rows of a page as `row_to_project` reads them, then the two fills. */
  method FillPage(s: Store, ids: seq<Id>) returns (out: seq<Project>)
    requires AliasesUnique(s.aliases) && GrantsNameTeams(s) && forall id :: id in ids ==> id in s.projects
    ensures |out| == |ids| && forall i :: 0 <= i < |ids| ==> Filled(s, ids[i], out[i])
  {
    var bare := seq(|ids|, i requires 0 <= i < |ids| => ProjectOf(s, ids[i]));
    var pairs := AliasQuery(s, set i | 0 <= i < |bare| :: bare[i].meta.id);
    var named := WithAliases(s, bare, pairs);
    var rows := GrantQuery(s, set i | 0 <= i < |named| :: named[i].meta.id);
    out := WithGrants(s, named, rows);
  }
}
