/** `ListProjects`: a subtree of the registry, in keyset pages (src/read.rs). */
module Pages {
  import opened Like
  import opened Lookups
  import opened Operations
  import opened Outcome
  import opened Paths
  import opened Registry
  import opened Text

  const MAX_PAGE := 500
  const DEFAULT_PAGE := 50

  /** `page_size`. */
  function PageSize(requested: int): (n: nat)
    ensures 1 <= requested <= 500 ==> n == requested
    ensures requested <= 0 ==> n == 50
    ensures requested > 500 ==> n == 500
  {
    if requested <= 0 then DEFAULT_PAGE else if requested > MAX_PAGE then MAX_PAGE else requested
  }

  /** What a caller asks for: a subtree, when the path is not empty, and a status. */
  datatype Filter = Filter(under: string, status: Option<Status>)

  predicate Matching(row: Row, f: Filter) {
    (f.under != "" ==> InSubtree(row.path, f.under)) && (f.status.Some? ==> row.status == f.status.value)
  }

  /** `path > ?`, when a token was sent. */
  predicate After(token: string, path: string) {
    token == "" || Before(token, path)
  }

  function PathOf(s: Store): Id -> string {
    id => if id in s.projects then s.projects[id].path else ""
  }

  predicate Selected(s: Store, f: Filter, token: string, id: Id) {
    id in s.projects && Matching(s.projects[id], f) && After(token, s.projects[id].path)
  }

  /** All the rows a statement without its LIMIT would return. */
  ghost predicate Selection(s: Store, f: Filter, token: string, all: seq<Id>) {
    Ascending(all, PathOf(s)) && forall id :: id in all <==> Selected(s, f, token, id)
  }

  /** The statement has exactly one answer. */
  lemma SelectionIsUnique(s: Store, f: Filter, token: string)
    requires Schema(s)
    ensures exists all :: Selection(s, f, token, all)
    ensures forall x, y :: Selection(s, f, token, x) && Selection(s, f, token, y) ==> x == y
  {
    var members := set id | id in s.projects && Selected(s, f, token, id);
    var all := AscendingExists(members, PathOf(s));
    assert Selection(s, f, token, all);
    forall x: seq<Id>, y: seq<Id> | Selection(s, f, token, x) && Selection(s, f, token, y)
      ensures x == y
    {
      AscendingIsUnique(x, y, PathOf(s));
    }
  }

  function Take(xs: seq<Id>, n: nat): seq<Id> {
    if |xs| <= n then xs else xs[..n]
  }

  /** The statement's rows: the first `limit + 1` of them. */
  ghost predicate PageRows(s: Store, f: Filter, token: string, limit: nat, rows: seq<Id>) {
    exists all: seq<Id> :: Selection(s, f, token, all) && rows == Take(all, limit + 1)
  }

  datatype Page = Page(rows: seq<Id>, next: string)

  /** A page of this selection: its first rows, and a token exactly when there
      are more. */
  ghost predicate IsPage(s: Store, f: Filter, token: string, limit: nat, page: Page) {
    exists all: seq<Id> :: Selection(s, f, token, all) &&
      page == Page(Take(all, limit), if |all| > limit > 0 then PathOf(s)(all[limit - 1]) else "")
  }

  /** The statement: the rows selected, in the order of their paths. */
  method PageQuery(s: Store, f: Filter, token: string, limit: nat) returns (rows: seq<Id>)
    requires PathsUnique(s.projects)
    ensures PageRows(s, f, token, limit, rows)
  {
    var all: seq<Id> := [];
    var ids := s.projects.Keys;
    while ids != {}
      invariant ids <= s.projects.Keys && Ascending(all, PathOf(s))
      invariant forall id :: id in all <==> id !in ids && Selected(s, f, token, id)
    {
      var id :| id in ids;
      ids := ids - {id};
      if Selected(s, f, token, id) {
        PlacedAscends(all, id, PathOf(s));
        forall x
          ensures x in PutInOrder(all, id, PathOf(s)) <==> x == id || x in all
        {
          PlacedMembers(all, id, PathOf(s), x);
        }
        all := PutInOrder(all, id, PathOf(s));
      }
    }
    assert Selection(s, f, token, all);
    rows := Take(all, limit + 1);
  }

  /** What a caller sends. */
  datatype ListRequest = ListRequest(underPath: string, status: Option<int>, pageSize: int, pageToken: string)

  /** `status_filter`: absent is every status, and the unspecified one is refused. */
  function StatusOf(status: int): Option<Status> {
    if status == 1 then Some(Active) else if status == 2 then Some(Archived) else None
  }

  predicate ListOk(req: ListRequest) {
    && (req.status.Some? ==> StatusOf(req.status.value).Some?)
    && (req.underPath != "" ==> ValidPath(req.underPath))
  }

  function FilterOf(req: ListRequest): Filter {
    Filter(req.underPath, if req.status.None? then None else StatusOf(req.status.value))
  }

  /** `list`, once the query has answered. */
  method List(s: Store, ghost f: Filter, ghost token: string, requested: int, rows: seq<Id>) returns (page: Page)
    requires PageRows(s, f, token, PageSize(requested), rows)
    ensures IsPage(s, f, token, PageSize(requested), page)
  {
    var limit := PageSize(requested);
    ghost var all: seq<Id> :| Selection(s, f, token, all) && rows == Take(all, limit + 1);
    var more := |rows| > limit;
    var kept := Take(rows, limit);
    page := Page(kept, if more && kept != [] then PathOf(s)(kept[|kept| - 1]) else "");
    Truncated(all, limit, rows);
  }

  /** One row more than the page tells whether there is more, and is not in it. */
  lemma Truncated(all: seq<Id>, limit: nat, rows: seq<Id>)
    requires rows == Take(all, limit + 1)
    ensures |rows| > limit <==> |all| > limit
    ensures Take(rows, limit) == Take(all, limit)
    ensures |all| > limit > 0 ==> Take(rows, limit) != [] && Take(rows, limit)[|Take(rows, limit)| - 1] == all[limit - 1]
  {
  }

  // ---- A walk while the registry changes ----

  /** One page after another, each asked for with the last one's token, from a
      registry that may have grown in between. */
  datatype Turn = Turn(s: Store, page: Page)

  ghost function TokenAt(walk: seq<Turn>, i: nat): string
    requires i <= |walk|
  {
    if i == 0 then "" else walk[i - 1].page.next
  }

  ghost predicate TurnOk(walk: seq<Turn>, f: Filter, limit: nat, i: nat)
    requires i < |walk|
  {
    && PathsLegal(walk[i].s)
    && IsPage(walk[i].s, f, TokenAt(walk, i), limit, walk[i].page)
    && (i > 0 ==> Grows(walk[i - 1].s, walk[i].s) && walk[i - 1].page.next != "")
  }

  ghost predicate Walk(walk: seq<Turn>, f: Filter, limit: nat) {
    walk != [] && limit > 0 && forall i {:trigger TurnOk(walk, f, limit, i)} :: 0 <= i < |walk| ==> TurnOk(walk, f, limit, i)
  }

  ghost predicate Complete(walk: seq<Turn>) {
    walk != [] && walk[|walk| - 1].page.next == ""
  }

  ghost predicate Returns(walk: seq<Turn>, i: nat, id: Id) {
    i < |walk| && id in walk[i].page.rows
  }

  lemma {:induction false} WalkGrows(walk: seq<Turn>, f: Filter, limit: nat, i: nat, j: nat)
    requires Walk(walk, f, limit) && i <= j < |walk|
    ensures Grows(walk[i].s, walk[j].s)
  {
    if i == j {
      GrowsReflexive(walk[i].s);
    } else {
      WalkGrows(walk, f, limit, i, j - 1);
      TurnGrows(walk, f, limit, j);
      GrowsTransitive(walk[i].s, walk[j - 1].s, walk[j].s);
    }
  }

  lemma TurnGrows(walk: seq<Turn>, f: Filter, limit: nat, j: nat)
    requires Walk(walk, f, limit) && 0 < j < |walk|
    ensures Grows(walk[j - 1].s, walk[j].s) && TokenAt(walk, j) != ""
  {
    assert TurnOk(walk, f, limit, j);
  }

  lemma SplitSelection(s: Store, f: Filter, token: string, all: seq<Id>, limit: nat, id: Id)
    requires PathsLegal(s) && Selection(s, f, token, all) && 0 < limit < |all| && Selected(s, f, token, id)
    ensures var boundary := PathOf(s)(all[limit - 1]);
      && boundary != ""
      && (id in Take(all, limit) ==> !Before(boundary, s.projects[id].path))
      && (id !in Take(all, limit) ==> Before(boundary, s.projects[id].path))
  {
    var boundary := PathOf(s)(all[limit - 1]);
    var i :| 0 <= i < |all| && all[i] == id;
    assert all[limit - 1] in all;
    assert LegalPath(s.projects[all[limit - 1]].path);
    if i < limit - 1 {
      BeforeTrichotomy(PathOf(s)(all[i]), boundary);
    }
    BeforeTrichotomy(boundary, boundary);
    if i < limit {
      assert Take(all, limit)[i] == id;
    } else if id in Take(all, limit) {
      var k :| 0 <= k < limit && all[k] == id;
      BeforeTrichotomy(PathOf(s)(id), PathOf(s)(id));
    }
  }

  /** Where a page that is not the last cuts: what it returns is at or before its
      token, what it leaves is after. */
  lemma PageCuts(s: Store, f: Filter, token: string, limit: nat, page: Page, id: Id)
    requires PathsLegal(s) && limit > 0 && IsPage(s, f, token, limit, page)
    ensures id in page.rows ==> Selected(s, f, token, id)
    ensures id in page.rows && page.next != "" ==> !Before(page.next, s.projects[id].path)
    ensures Selected(s, f, token, id) && id !in page.rows ==> page.next != "" && Before(page.next, s.projects[id].path)
  {
    var all: seq<Id> :| Selection(s, f, token, all) &&
      page == Page(Take(all, limit), if |all| > limit > 0 then PathOf(s)(all[limit - 1]) else "");
    assert id in page.rows ==> id in all;
    if Selected(s, f, token, id) {
      assert id in all;
      if |all| > limit {
        SplitSelection(s, f, token, all, limit, id);
      }
    }
  }

  lemma TokenStep(walk: seq<Turn>, f: Filter, limit: nat, j: nat, path: string)
    requires Walk(walk, f, limit) && 0 < j < |walk| - 1 && Before(TokenAt(walk, j + 1), path)
    ensures Before(TokenAt(walk, j), path)
  {
    assert TurnOk(walk, f, limit, j);
    TurnGrows(walk, f, limit, j);
    TurnGrows(walk, f, limit, j + 1);
    TokenIsAfter(walk[j].s, f, TokenAt(walk, j), limit, walk[j].page);
    BeforeTransitive(TokenAt(walk, j), TokenAt(walk, j + 1), path);
  }

  /** Once a walk has passed a path it stays passed. */
  lemma {:induction false} TokensAscend(walk: seq<Turn>, f: Filter, limit: nat, i: nat, j: nat, path: string)
    requires Walk(walk, f, limit) && 0 < i <= j < |walk| && Before(TokenAt(walk, j), path)
    ensures Before(TokenAt(walk, i), path)
  {
    if i < j {
      TokenStep(walk, f, limit, j - 1, path);
      TokensAscend(walk, f, limit, i, j - 1, path);
    }
  }

  lemma TokenIsAfter(s: Store, f: Filter, token: string, limit: nat, page: Page)
    requires limit > 0 && IsPage(s, f, token, limit, page) && page.next != ""
    ensures After(token, page.next)
  {
    var all: seq<Id> :| Selection(s, f, token, all) &&
      page == Page(Take(all, limit), if |all| > limit > 0 then PathOf(s)(all[limit - 1]) else "");
    assert all[limit - 1] in all;
  }

  /** No row is returned twice, whatever is registered or synced between pages. */
  lemma NoRowTwice(walk: seq<Turn>, f: Filter, limit: nat, i: nat, j: nat, id: Id)
    requires Walk(walk, f, limit) && i < j && Returns(walk, i, id)
    ensures !Returns(walk, j, id)
  {
    if Returns(walk, j, id) {
      assert TurnOk(walk, f, limit, i) && TurnOk(walk, f, limit, j) && TurnOk(walk, f, limit, i + 1);
      PageCuts(walk[i].s, f, TokenAt(walk, i), limit, walk[i].page, id);
      PageCuts(walk[j].s, f, TokenAt(walk, j), limit, walk[j].page, id);
      WalkGrows(walk, f, limit, i, j);
      var path := walk[i].s.projects[id].path;
      assert RowLives(walk[i].s.projects[id], walk[j].s.projects[id]);
      assert TokenAt(walk, j) != "" by {
        assert TurnOk(walk, f, limit, j);
      }
      TokensAscend(walk, f, limit, i + 1, j, path);
    }
  }

  ghost predicate MatchesThroughout(walk: seq<Turn>, f: Filter, id: Id) {
    forall i :: 0 <= i < |walk| ==> id in walk[i].s.projects && Matching(walk[i].s.projects[id], f)
  }

  /** A row the page leaves out lies past its token, there and once the registry
      has grown. */
  lemma LeftForNext(a: Turn, b: Store, f: Filter, token: string, limit: nat, id: Id)
    requires PathsLegal(a.s) && limit > 0 && IsPage(a.s, f, token, limit, a.page) && Grows(a.s, b)
    requires Selected(a.s, f, token, id) && id !in a.page.rows
    requires id in b.projects && Matching(b.projects[id], f)
    ensures Selected(b, f, a.page.next, id)
  {
    PageCuts(a.s, f, token, limit, a.page, id);
    assert RowLives(a.s.projects[id], b.projects[id]);
  }

  lemma NotReturnedIsLeft(walk: seq<Turn>, f: Filter, limit: nat, id: Id, k: nat)
    requires Walk(walk, f, limit) && MatchesThroughout(walk, f, id) && k + 1 < |walk| && !Returns(walk, k, id)
    requires Selected(walk[k].s, f, TokenAt(walk, k), id)
    ensures Selected(walk[k + 1].s, f, TokenAt(walk, k + 1), id)
  {
    assert TurnOk(walk, f, limit, k);
    TurnGrows(walk, f, limit, k + 1);
    LeftForNext(walk[k], walk[k + 1].s, f, TokenAt(walk, k), limit, id);
  }

  lemma {:induction false} StillAhead(walk: seq<Turn>, f: Filter, limit: nat, id: Id, k: nat)
    requires Walk(walk, f, limit) && MatchesThroughout(walk, f, id) && k < |walk|
    requires forall i :: 0 <= i < k ==> !Returns(walk, i, id)
    ensures Selected(walk[k].s, f, TokenAt(walk, k), id)
  {
    if k > 0 {
      StillAhead(walk, f, limit, id, k - 1);
      NotReturnedIsLeft(walk, f, limit, id, k - 1);
    }
  }

  /** A complete walk returns every row that matches throughout it exactly once,
      whatever else is registered, synced or touched between its pages. */
  lemma EveryRowOnce(walk: seq<Turn>, f: Filter, limit: nat, id: Id)
    requires Walk(walk, f, limit) && Complete(walk) && MatchesThroughout(walk, f, id)
    ensures exists i :: Returns(walk, i, id) && forall j :: Returns(walk, j, id) ==> j == i
  {
    var n := |walk| - 1;
    if forall i :: 0 <= i < n ==> !Returns(walk, i, id) {
      StillAhead(walk, f, limit, id, n);
      assert TurnOk(walk, f, limit, n);
      PageCuts(walk[n].s, f, TokenAt(walk, n), limit, walk[n].page, id);
      assert Returns(walk, n, id);
    }
    var i :| Returns(walk, i, id);
    forall j | Returns(walk, j, id)
      ensures j == i
    {
      if i < j {
        NoRowTwice(walk, f, limit, i, j, id);
      } else if j < i {
        NoRowTwice(walk, f, limit, j, i, id);
      }
    }
  }

  // ---- A walk of a registry that stands still ----

  /** The rows of the first `k` pages, one after the other. */
  ghost function Returned(walk: seq<Turn>, k: nat): seq<Id> {
    if k == 0 || k > |walk| then [] else Returned(walk, k - 1) + walk[k - 1].page.rows
  }

  /** Past a page that is not the last lies the rest of its selection. */
  lemma RestIsSelected(s: Store, f: Filter, token: string, limit: nat, page: Page, all: seq<Id>)
    requires PathsLegal(s) && limit > 0 && IsPage(s, f, token, limit, page) && Selection(s, f, token, all)
    ensures page.rows == Take(all, limit) && (page.next != "" <==> |all| > limit)
    ensures page.next != "" ==> Selection(s, f, page.next, all[limit..])
  {
    var same: seq<Id> :| Selection(s, f, token, same) &&
      page == Page(Take(same, limit), if |same| > limit > 0 then PathOf(s)(same[limit - 1]) else "");
    AscendingIsUnique(all, same, PathOf(s));
    if |all| > limit {
      assert all[limit - 1] in all;
      assert LegalPath(s.projects[all[limit - 1]].path);
      TokenIsAfter(s, f, token, limit, page);
      forall id
        ensures id in all[limit..] <==> Selected(s, f, page.next, id)
      {
        RestAt(s, f, token, limit, page.next, all, id);
      }
    }
  }

  lemma TakenOrRest(all: seq<Id>, limit: nat, id: Id)
    requires id in all && limit <= |all|
    ensures id in Take(all, limit) || id in all[limit..]
  {
  }

  lemma RestAt(s: Store, f: Filter, token: string, limit: nat, next: string, all: seq<Id>, id: Id)
    requires PathsLegal(s) && Selection(s, f, token, all) && 0 < limit < |all|
    requires next == PathOf(s)(all[limit - 1]) && After(token, next)
    ensures id in all[limit..] <==> Selected(s, f, next, id)
  {
    if id in all[limit..] {
      var i :| limit <= i < |all| && all[i] == id;
      assert Before(PathOf(s)(all[limit - 1]), PathOf(s)(all[i]));
      assert id in all;
    }
    if Selected(s, f, next, id) {
      if token != "" && next != "" {
        BeforeTransitive(token, next, s.projects[id].path);
      }
      SplitSelection(s, f, token, all, limit, id);
      TakenOrRest(all, limit, id);
    }
  }

  /** The first `k` pages have returned the first `n` rows, and what is after
      the token is the rest. */
  ghost predicate At(walk: seq<Turn>, f: Filter, s: Store, all: seq<Id>, k: nat, n: nat) {
    && k < |walk| && n <= |all| && Returned(walk, k) == all[..n]
    && Selection(s, f, TokenAt(walk, k), all[n..])
  }

  lemma Slices(all: seq<Id>, n: nat, limit: nat)
    requires n + limit <= |all|
    ensures all[..n] + Take(all[n..], limit) == all[..n + limit]
    ensures all[n..][limit..] == all[n + limit..]
  {
  }

  lemma FullPage(walk: seq<Turn>, f: Filter, limit: nat, s: Store, all: seq<Id>, k: nat, n: nat)
    requires Walk(walk, f, limit) && At(walk, f, s, all, k, n) && walk[k].s == s
    ensures Returned(walk, k + 1) == all[..n] + Take(all[n..], limit)
    ensures walk[k].page.next == "" <==> |all| <= n + limit
    ensures walk[k].page.next != "" ==> Selection(s, f, walk[k].page.next, all[n..][limit..])
  {
    assert TurnOk(walk, f, limit, k);
    RestIsSelected(s, f, TokenAt(walk, k), limit, walk[k].page, all[n..]);
  }

  lemma NextPage(walk: seq<Turn>, f: Filter, limit: nat, s: Store, all: seq<Id>, k: nat, n: nat)
    requires Walk(walk, f, limit) && At(walk, f, s, all, k, n) && walk[k].s == s && k + 1 < |walk|
    ensures At(walk, f, s, all, k + 1, n + limit)
  {
    FullPage(walk, f, limit, s, all, k, n);
    TurnGrows(walk, f, limit, k + 1);
    Slices(all, n, limit);
  }

  lemma {:induction false} FixedPrefix(walk: seq<Turn>, f: Filter, limit: nat, s: Store, all: seq<Id>, k: nat)
    requires Walk(walk, f, limit) && (forall i :: 0 <= i < |walk| ==> walk[i].s == s) && Selection(s, f, "", all) && k < |walk|
    ensures 0 <= k * limit && At(walk, f, s, all, k, k * limit)
  {
    if k == 0 {
      assert all[0..] == all;
    } else {
      FixedPrefix(walk, f, limit, s, all, k - 1);
      assert (k - 1) * limit + limit == k * limit;
      NextPage(walk, f, limit, s, all, k - 1, (k - 1) * limit);
    }
  }

  /** On a registry that stands still the pages are the sorted, filtered list cut
      at every `limit`th row, and the walk is over within as many pages. */
  lemma FixedWalk(walk: seq<Turn>, f: Filter, limit: nat, s: Store, all: seq<Id>)
    requires Walk(walk, f, limit) && (forall i :: 0 <= i < |walk| ==> walk[i].s == s) && Selection(s, f, "", all)
    ensures (|walk| - 1) * limit <= |all|
    ensures Complete(walk) ==> Returned(walk, |walk|) == all
  {
    var k := |walk| - 1;
    FixedPrefix(walk, f, limit, s, all, k);
    FullPage(walk, f, limit, s, all, k, k * limit);
    if Complete(walk) {
      WholeList(all, k * limit, limit);
    }
  }

  lemma WholeList(all: seq<Id>, n: nat, limit: nat)
    requires n <= |all| <= n + limit
    ensures all[..n] + Take(all[n..], limit) == all
  {
  }

  /** `under_path` lists a row exactly when it is, folded, an ancestor of the
      row's path or that path itself. */
  lemma ListedIffAncestor(s: Store, f: Filter, id: Id)
    requires id in s.projects && f.under != ""
    ensures Selected(s, f, "", id) <==>
      Fold(f.under) in AncestorChain(Fold(s.projects[id].path)) && (f.status.Some? ==> s.projects[id].status == f.status.value)
  {
    SubtreeAgreesWithAncestors(s.projects[id].path, f.under);
  }

  // ---- What was asked for ----

  /** The row stands in the subtree and the status the request names, if it names
      any, and past the token sent. */
  predicate AskedFor(s: Store, req: ListRequest, id: Id) {
    && id in s.projects
    && var row := s.projects[id];
    && (req.underPath != "" ==> Fold(req.underPath) in AncestorChain(Fold(row.path)))
    && (req.status == Some(1) ==> row.status == Active)
    && (req.status == Some(2) ==> row.status == Archived)
    && (req.pageToken != "" ==> Before(req.pageToken, row.path))
  }

  lemma SelectedIsAskedFor(s: Store, req: ListRequest, id: Id)
    requires ListOk(req)
    ensures Selected(s, FilterOf(req), req.pageToken, id) <==> AskedFor(s, req, id)
  {
    if id in s.projects {
      SubtreeAgreesWithAncestors(s.projects[id].path, req.underPath);
    }
  }

  lemma PageIsSelected(s: Store, f: Filter, token: string, limit: nat, page: Page)
    requires IsPage(s, f, token, limit, page)
    ensures |page.rows| <= limit
    ensures page.next != "" ==> |page.rows| == limit > 0 && page.next == PathOf(s)(page.rows[limit - 1])
    ensures Ascending(page.rows, PathOf(s)) && forall id :: id in page.rows ==> Selected(s, f, token, id)
  {
    var all: seq<Id> :| Selection(s, f, token, all) &&
      page == Page(Take(all, limit), if |all| > limit > 0 then PathOf(s)(all[limit - 1]) else "");
    assert forall id :: id in page.rows ==> id in all;
  }

  /** A page answers its request: at most the rows a page holds, each asked for,
      in the order of their paths; and a token only when the page is full, the
      path of its last row. */
  lemma PageAnswersRequest(s: Store, req: ListRequest, page: Page)
    requires ListOk(req) && IsPage(s, FilterOf(req), req.pageToken, PageSize(req.pageSize), page)
    ensures |page.rows| <= PageSize(req.pageSize)
    ensures page.next != "" ==>
      |page.rows| == PageSize(req.pageSize) && page.next == PathOf(s)(page.rows[PageSize(req.pageSize) - 1])
    ensures Ascending(page.rows, PathOf(s)) && forall id :: id in page.rows ==> AskedFor(s, req, id)
  {
    PageIsSelected(s, FilterOf(req), req.pageToken, PageSize(req.pageSize), page);
    forall id | id in page.rows
      ensures AskedFor(s, req, id)
    {
      SelectedIsAskedFor(s, req, id);
    }
  }

  /** And every row asked for is on the page, or past the token it answers. */
  lemma PageLeavesTheRest(s: Store, req: ListRequest, page: Page, id: Id)
    requires PathsLegal(s) && ListOk(req) && AskedFor(s, req, id)
    requires IsPage(s, FilterOf(req), req.pageToken, PageSize(req.pageSize), page)
    ensures id in page.rows || (page.next != "" && Before(page.next, s.projects[id].path))
  {
    SelectedIsAskedFor(s, req, id);
    PageCuts(s, FilterOf(req), req.pageToken, PageSize(req.pageSize), page, id);
  }
}
