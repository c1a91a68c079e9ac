/** `github_gql.py`: one checked GraphQL call, and the two cursor-paginated
    listings built on it (an owner's repositories, a repository's open
    issues).  Pagination follows the `pageInfo { hasNextPage endCursor }`
    connection pattern.  The server is a sequence of responses: the i-th
    request sent receives the i-th response. */
module GitHubGraphQL {
  import opened Wrappers
  import opened Types
  import DateTimes

  const RepositoryPageSize := 100
  const IssuePageSize := 50

  // ---------------------------------------------------------------------------
  // queries and responses
  // ---------------------------------------------------------------------------

  datatype Target = RepositoriesOf(owner: string) | IssuesOf(owner: string, repository: string)

  /** A query as far as paging is concerned: what is listed, the page size,
      and the `after:` argument if one is written into the text. */
  datatype Query = Query(target: Target, first: nat, after: Option<string>)

  /** `f'after: "{cursor}"' if cursor else ""`: no argument for a missing or empty cursor. */
  function AfterArgument(cursor: Option<string>): Option<string> {
    if cursor.Some? && cursor.value != "" then cursor else None
  }

  /** A response: the HTTP status code, the payload's `errors` if present, and its `data`. */
  datatype Response<D> = Response(statusCode: int, errors: Option<seq<string>>, data: D)

  /** `GitHubGraphQLError`; each carries the query, as its message does. */
  datatype GraphQLError =
    | QueryStatusFailed(statusCode: int, query: Query)
    | QueryReturnedErrors(errors: seq<string>, query: Query)

  predicate Accepted<D>(response: Response<D>) {
    && (response.statusCode == 200 || response.statusCode == 201)
    && !(response.errors.Some? && |response.errors.value| > 0)
  }

  /** `query_graphql`: the status code is checked first, then the error list;
      a response that passes both yields its `data`. */
  function QueryGraphQL<D>(query: Query, response: Response<D>): (r: Result<D, GraphQLError>)
    ensures r.Ok? <==> Accepted(response)
    ensures r.Ok? ==> r.value == response.data
    ensures r.Err? ==> r.error.query == query
    ensures r.Err? ==> (r.error.QueryStatusFailed? <==> response.statusCode != 200 && response.statusCode != 201)
  {
    if response.statusCode != 200 && response.statusCode != 201 then
      Err(QueryStatusFailed(response.statusCode, query))
    else if response.errors.Some? && |response.errors.value| > 0 then
      Err(QueryReturnedErrors(response.errors.value, query))
    else Ok(response.data)
  }

  // ---------------------------------------------------------------------------
  // pages
  // ---------------------------------------------------------------------------

  datatype PageInfo = PageInfo(hasNextPage: bool, endCursor: Option<string>)

  datatype RepositoryPage = RepositoryPage(names: seq<string>, pageInfo: PageInfo)

  datatype CommentNode = CommentNode(authorLogin: string, body: string, updatedAt: string)

  datatype IssueNode = IssueNode(
    number: int,
    title: string,
    bodyText: string,
    createdAt: string,
    updatedAt: string,
    authorLogin: string,
    assigneeLogins: seq<string>,
    comments: seq<CommentNode>)

  datatype IssuePage = IssuePage(nodes: seq<IssueNode>, pageInfo: PageInfo)

  /** Why a listing raised.  `ServerExhausted` is the model's server running
      out of responses while the program still asks for more. */
  datatype FetchError =
    | QueryFailed(error: GraphQLError)
    | BadTimestamp(text: string)
    | ServerExhausted(query: Query)

  /** The requests sent, in order, and what the listing came to. */
  datatype Fetched<T> = Fetched(queries: seq<Query>, result: Result<seq<T>, FetchError>)

  // ---------------------------------------------------------------------------
  // pagination
  // ---------------------------------------------------------------------------

  /** The `while has_next_page` loop from response `i` on, sent with `cursor`.
      Each page's items are taken out before the next request is sent. */
  function Paginate<P, T>(target: Target, first: nat, server: seq<Response<P>>, info: P -> PageInfo,
                          extract: P -> Result<seq<T>, FetchError>, i: nat, cursor: Option<string>): (r: Fetched<T>)
    requires i <= |server|
    ensures 1 <= |r.queries| <= |server| - i + 1
    ensures r.result.Ok? ==> i + |r.queries| <= |server|
    ensures r.queries[0] == Query(target, first, AfterArgument(cursor))
    decreases |server| - i
  {
    var query := Query(target, first, AfterArgument(cursor));
    if i == |server| then Fetched([query], Err(ServerExhausted(query)))
    else
      match QueryGraphQL(query, server[i])
      case Err(e) => Fetched([query], Err(QueryFailed(e)))
      case Ok(page) =>
        match extract(page)
        case Err(e) => Fetched([query], Err(e))
        case Ok(items) =>
          if info(page).hasNextPage then
            var rest := Paginate(target, first, server, info, extract, i + 1, info(page).endCursor);
            match rest.result
            case Err(e) => Fetched([query] + rest.queries, Err(e))
            case Ok(more) => Fetched([query] + rest.queries, Ok(items + more))
          else Fetched([query], Ok(items))
  }

  /** Responses `i .. i+n-1` form one complete listing: all accepted, every
      page but the last announcing a next page, the last announcing none. */
  predicate ServesRun<P>(server: seq<Response<P>>, info: P -> PageInfo, i: nat, n: nat) {
    && 1 <= n && i + n <= |server|
    && (forall j :: i <= j < i + n ==> Accepted(server[j]))
    && (forall j :: i <= j < i + n - 1 ==> info(server[j].data).hasNextPage)
    && !info(server[i + n - 1].data).hasNextPage
  }

  /** The items of a run of pages, in page order; the first failure wins. */
  function Collect<P, T>(pages: seq<Response<P>>, extract: P -> Result<seq<T>, FetchError>): Result<seq<T>, FetchError>
    decreases |pages|
  {
    if |pages| == 0 then Ok([])
    else
      match extract(pages[0].data)
      case Err(e) => Err(e)
      case Ok(items) =>
        match Collect(pages[1..], extract)
        case Err(e) => Err(e)
        case Ok(more) => Ok(items + more)
  }

  /** A successful listing read exactly one complete run of pages, one request
      per page, and returns that run's items in page order. */
  lemma PaginateSound<P, T>(target: Target, first: nat, server: seq<Response<P>>, info: P -> PageInfo,
                            extract: P -> Result<seq<T>, FetchError>, i: nat, cursor: Option<string>)
    requires i <= |server|
    ensures var r := Paginate(target, first, server, info, extract, i, cursor);
      r.result.Ok? ==>
        && ServesRun(server, info, i, |r.queries|)
        && Collect(server[i..i + |r.queries|], extract) == r.result
  {
    PaginateServesRun(target, first, server, info, extract, i, cursor);
    PaginateCollects(target, first, server, info, extract, i, cursor);
  }

  lemma {:induction false} PaginateServesRun<P, T>(target: Target, first: nat, server: seq<Response<P>>, info: P -> PageInfo,
                                                   extract: P -> Result<seq<T>, FetchError>, i: nat, cursor: Option<string>)
    requires i <= |server|
    ensures var r := Paginate(target, first, server, info, extract, i, cursor);
      r.result.Ok? ==> ServesRun(server, info, i, |r.queries|)
    decreases |server| - i
  {
    var r := Paginate(target, first, server, info, extract, i, cursor);
    if i < |server| && Accepted(server[i]) && extract(server[i].data).Ok? && info(server[i].data).hasNextPage {
      var page := server[i].data;
      var rest := Paginate(target, first, server, info, extract, i + 1, info(page).endCursor);
      PaginateServesRun(target, first, server, info, extract, i + 1, info(page).endCursor);
      if r.result.Ok? {
        assert rest.result.Ok? && |r.queries| == 1 + |rest.queries|;
        ServesRunCons(server, info, i, |r.queries|);
      }
    }
  }

  lemma {:induction false} PaginateCollects<P, T>(target: Target, first: nat, server: seq<Response<P>>, info: P -> PageInfo,
                                                  extract: P -> Result<seq<T>, FetchError>, i: nat, cursor: Option<string>)
    requires i <= |server|
    ensures var r := Paginate(target, first, server, info, extract, i, cursor);
      r.result.Ok? ==> Collect(server[i..i + |r.queries|], extract) == r.result
    decreases |server| - i
  {
    var r := Paginate(target, first, server, info, extract, i, cursor);
    if i < |server| && Accepted(server[i]) && extract(server[i].data).Ok? && info(server[i].data).hasNextPage {
      var page := server[i].data;
      var rest := Paginate(target, first, server, info, extract, i + 1, info(page).endCursor);
      PaginateCollects(target, first, server, info, extract, i + 1, info(page).endCursor);
      if r.result.Ok? {
        var items := extract(page).value;
        assert rest.result.Ok? && |r.queries| == 1 + |rest.queries| && r.result == Ok(items + rest.result.value);
        var pages := server[i..i + |r.queries|];
        assert pages[0] == server[i] && pages[1..] == server[i + 1..i + 1 + |rest.queries|];
        CollectCons(pages, extract);
      }
    } else if i < |server| && r.result.Ok? {
      var items := extract(server[i].data).value;
      assert server[i..i + 1][0] == server[i] && server[i..i + 1][1..] == [];
      assert items + [] == items;
    }
  }

  /** A run is one accepted page announcing a next page followed by a run. */
  lemma ServesRunCons<P>(server: seq<Response<P>>, info: P -> PageInfo, i: nat, n: nat)
    requires 2 <= n && i < |server| && Accepted(server[i]) && info(server[i].data).hasNextPage
    requires ServesRun(server, info, i + 1, n - 1)
    ensures ServesRun(server, info, i, n)
  {
  }

  /** One step of Collect: the first page's items, then the rest. */
  lemma CollectCons<P, T>(pages: seq<Response<P>>, extract: P -> Result<seq<T>, FetchError>)
    requires |pages| > 0 && extract(pages[0].data).Ok? && Collect(pages[1..], extract).Ok?
    ensures Collect(pages, extract) == Ok(extract(pages[0].data).value + Collect(pages[1..], extract).value)
  {
  }

  /** Conversely, a complete run whose items can all be taken out is read to
      its end and no further: one request per page, stopping exactly at the
      first page without a next page. */
  lemma {:induction false} PaginateComplete<P, T>(target: Target, first: nat, server: seq<Response<P>>, info: P -> PageInfo,
                                                  extract: P -> Result<seq<T>, FetchError>, i: nat, cursor: Option<string>, n: nat)
    requires ServesRun(server, info, i, n)
    requires Collect(server[i..i + n], extract).Ok?
    ensures var r := Paginate(target, first, server, info, extract, i, cursor);
      |r.queries| == n && r.result == Collect(server[i..i + n], extract)
    decreases n
  {
    var pages := server[i..i + n];
    assert pages[0] == server[i];
    if n > 1 {
      assert pages[1..] == server[i + 1..i + 1 + (n - 1)];
      assert ServesRun(server, info, i + 1, n - 1);
      PaginateComplete(target, first, server, info, extract, i + 1, info(server[i].data).endCursor, n - 1);
    } else {
      assert pages[1..] == [];
      var items := extract(server[i].data).value;
      assert items + [] == items;
    }
  }

  /** The request trace from response `i` on: every request but the first
      carries the `endCursor` of the page just received, which was accepted
      and announced a next page. */
  predicate FollowsCursors<P>(queries: seq<Query>, server: seq<Response<P>>, info: P -> PageInfo,
                              i: nat, target: Target, first: nat)
  {
    forall j :: 1 <= j < |queries| ==> CursorStep(queries[j], server, info, i + j - 1, target, first)
  }

  /** Request `q` follows response `k`: that response was accepted, announced a
      next page, and `q` asks for the page after its `endCursor`. */
  predicate CursorStep<P>(q: Query, server: seq<Response<P>>, info: P -> PageInfo, k: int, target: Target, first: nat) {
    && 0 <= k < |server|
    && Accepted(server[k])
    && info(server[k].data).hasNextPage
    && q == Query(target, first, AfterArgument(info(server[k].data).endCursor))
  }

  /** The first request carries the starting cursor (none, at the start), and
      each later one the cursor the previous page ended with. */
  lemma {:induction false} PaginateCursors<P, T>(target: Target, first: nat, server: seq<Response<P>>, info: P -> PageInfo,
                                                 extract: P -> Result<seq<T>, FetchError>, i: nat, cursor: Option<string>)
    requires i <= |server|
    ensures FollowsCursors(Paginate(target, first, server, info, extract, i, cursor).queries, server, info, i, target, first)
    decreases |server| - i
  {
    var r := Paginate(target, first, server, info, extract, i, cursor);
    if i < |server| && Accepted(server[i]) && extract(server[i].data).Ok? && info(server[i].data).hasNextPage {
      var endCursor := info(server[i].data).endCursor;
      var rest := Paginate(target, first, server, info, extract, i + 1, endCursor);
      PaginateCursors(target, first, server, info, extract, i + 1, endCursor);
      assert r.queries == [r.queries[0]] + rest.queries;
      forall j | 1 <= j < |r.queries|
        ensures CursorStep(r.queries[j], server, info, i + j - 1, target, first)
      {
        assert r.queries[j] == rest.queries[j - 1];
        if j > 1 {
          assert CursorStep(rest.queries[j - 1], server, info, (i + 1) + (j - 1) - 1, target, first);
        }
      }
    }
  }

  // ---------------------------------------------------------------------------
  // repositories
  // ---------------------------------------------------------------------------

  predicate NoDuplicates<T(==)>(xs: seq<T>) {
    forall j, k :: 0 <= j < k < |xs| ==> xs[j] != xs[k]
  }

  /** The distinct elements of `xs`, each at its first occurrence. */
  function Dedup(xs: seq<string>): (r: seq<string>)
    ensures forall x :: x in r <==> x in xs
    ensures NoDuplicates(r)
    decreases |xs|
  {
    if |xs| == 0 then []
    else
      var rest := Dedup(xs[..|xs| - 1]);
      var last := xs[|xs| - 1];
      assert forall x :: x in xs <==> x in xs[..|xs| - 1] || x == last by {
        assert xs == xs[..|xs| - 1] + [last];
      }
      if last in rest then rest else rest + [last]
  }

  function RepositoryPageInfo(page: RepositoryPage): PageInfo {
    page.pageInfo
  }

  function RepositoryNames(page: RepositoryPage): Result<seq<string>, FetchError> {
    Ok(page.names)
  }

  /** `get_repository_list`: the names of all pages, each once.  Python returns
      `list(set)`, whose order is unspecified; the model keeps first occurrences. */
  function GetRepositoryList(owner: string, server: seq<Response<RepositoryPage>>): (r: Fetched<string>)
    ensures r.result.Ok? ==> NoDuplicates(r.result.value)
    ensures forall q :: q in r.queries ==> q.target == RepositoriesOf(owner) && q.first == RepositoryPageSize
  {
    var pages := Paginate(RepositoriesOf(owner), RepositoryPageSize, server, RepositoryPageInfo, RepositoryNames, 0, None);
    PaginateTargets(RepositoriesOf(owner), RepositoryPageSize, server, RepositoryPageInfo, RepositoryNames, 0, None);
    match pages.result
    case Ok(names) => Fetched(pages.queries, Ok(Dedup(names)))
    case Err(e) => Fetched(pages.queries, Err(e))
  }

  /** Every request of a listing asks for the same target and page size. */
  lemma {:induction false} PaginateTargets<P, T>(target: Target, first: nat, server: seq<Response<P>>, info: P -> PageInfo,
                                                 extract: P -> Result<seq<T>, FetchError>, i: nat, cursor: Option<string>)
    requires i <= |server|
    ensures forall q :: q in Paginate(target, first, server, info, extract, i, cursor).queries ==> q.target == target && q.first == first
    decreases |server| - i
  {
    if i < |server| && Accepted(server[i]) && extract(server[i].data).Ok? && info(server[i].data).hasNextPage {
      PaginateTargets(target, first, server, info, extract, i + 1, info(server[i].data).endCursor);
    }
  }

  lemma {:induction false} CollectNames(pages: seq<Response<RepositoryPage>>)
    ensures Collect(pages, RepositoryNames).Ok?
    ensures forall x :: x in Collect(pages, RepositoryNames).value <==>
      exists j :: 0 <= j < |pages| && x in pages[j].data.names
    decreases |pages|
  {
    if |pages| > 0 {
      CollectNames(pages[1..]);
      forall x
        ensures (exists j :: 0 <= j < |pages| && x in pages[j].data.names)
                <==> x in pages[0].data.names || exists j :: 0 <= j < |pages[1..]| && x in pages[1..][j].data.names
      {
        if exists j :: 0 <= j < |pages| && x in pages[j].data.names {
          var j :| 0 <= j < |pages| && x in pages[j].data.names;
          if j > 0 {
            assert x in pages[1..][j - 1].data.names;
          }
        }
        if exists j :: 0 <= j < |pages[1..]| && x in pages[1..][j].data.names {
          var j :| 0 <= j < |pages[1..]| && x in pages[1..][j].data.names;
          assert x in pages[j + 1].data.names;
        }
      }
    }
  }

  /** When the server delivers a complete run of `n` pages, the listing sends
      exactly `n` requests and returns every name found on them, each once. */
  lemma RepositoryListSpec(owner: string, server: seq<Response<RepositoryPage>>, n: nat)
    requires ServesRun(server, RepositoryPageInfo, 0, n)
    ensures var r := GetRepositoryList(owner, server);
      && |r.queries| == n
      && r.result.Ok?
      && NoDuplicates(r.result.value)
      && forall x :: x in r.result.value <==> exists j :: 0 <= j < n && x in server[j].data.names
  {
    var pages := server[0..n];
    CollectNames(pages);
    PaginateComplete(RepositoriesOf(owner), RepositoryPageSize, server, RepositoryPageInfo, RepositoryNames, 0, None, n);
    assert |pages| == n && forall j :: 0 <= j < n ==> pages[j] == server[j];
  }

  // ---------------------------------------------------------------------------
  // issues
  // ---------------------------------------------------------------------------

  /** `_parse_datetime` placed on the time line; a bad text raises. */
  function ParseTimestamp(text: string): (r: Result<Timestamp, FetchError>)
    ensures r.Ok? <==> DateTimes.Parse(text).Some?
    ensures r.Err? ==> r.error == BadTimestamp(text)
  {
    match DateTimes.Parse(text)
    case Some(dt) => Ok(DateTimes.ToSeconds(dt))
    case None => Err(BadTimestamp(text))
  }

  /** Reads one timestamp text; the listing uses `ParseTimestamp`.  The
      builders below take the reader as a parameter. */
  type TimestampReader = string -> Result<Timestamp, FetchError>

  /** Whether every timestamp of a comment list can be read. */
  predicate CommentsReadable(nodes: seq<CommentNode>, read: TimestampReader) {
    forall k :: 0 <= k < |nodes| ==> read(nodes[k].updatedAt).Ok?
  }

  /** The comment list of an issue, one comment per node, in node order. */
  function BuildComments(nodes: seq<CommentNode>, read: TimestampReader): (r: Result<seq<IssueComment>, FetchError>)
    ensures r.Ok? <==> CommentsReadable(nodes, read)
    ensures r.Ok? ==> |r.value| == |nodes|
    ensures r.Ok? ==> forall k :: 0 <= k < |nodes| ==>
      && r.value[k].author == nodes[k].authorLogin
      && r.value[k].body == nodes[k].body
      && read(nodes[k].updatedAt) == Ok(r.value[k].updated)
    decreases |nodes|
  {
    if |nodes| == 0 then Ok([])
    else
      match read(nodes[0].updatedAt)
      case Err(e) => Err(e)
      case Ok(updated) =>
        match BuildComments(nodes[1..], read)
        case Err(e) =>
          assert !CommentsReadable(nodes, read) by {
            var k :| 0 <= k < |nodes[1..]| && read(nodes[1..][k].updatedAt).Err?;
            assert nodes[k + 1] == nodes[1..][k];
          }
          Err(e)
        case Ok(rest) =>
          assert forall k :: 1 <= k < |nodes| ==> nodes[k] == nodes[1..][k - 1];
          Ok([IssueComment(nodes[0].authorLogin, nodes[0].body, updated)] + rest)
  }

  /** Whether every timestamp of an issue node can be read. */
  predicate NodeReadable(node: IssueNode, read: TimestampReader) {
    && read(node.createdAt).Ok?
    && read(node.updatedAt).Ok?
    && CommentsReadable(node.comments, read)
  }

  /** `issue` carries the caller's owner and repository, the node's fields,
      its assignees and its comments in node order. */
  predicate BuiltFrom(owner: string, repository: string, node: IssueNode, read: TimestampReader, issue: Issue) {
    && issue.organisation == owner && issue.repository == repository
    && issue.number == node.number && issue.title == node.title
    && issue.author == node.authorLogin && issue.body == node.bodyText
    && read(node.createdAt) == Ok(issue.created)
    && read(node.updatedAt) == Ok(issue.updated)
    && issue.assignees == node.assigneeLogins
    && BuildComments(node.comments, read) == Ok(issue.comments)
  }

  /** One `Issue` from one node. */
  function BuildIssue(owner: string, repository: string, node: IssueNode, read: TimestampReader): (r: Result<Issue, FetchError>)
    ensures r.Ok? <==> NodeReadable(node, read)
    ensures r.Ok? ==> BuiltFrom(owner, repository, node, read, r.value)
  {
    var created :- read(node.createdAt);
    var updated :- read(node.updatedAt);
    var comments :- BuildComments(node.comments, read);
    Ok(Issue(owner, repository, node.number, node.title, node.authorLogin, node.bodyText,
             created, updated, node.assigneeLogins, comments))
  }

  /** The issues of one page, one per node, in node order; the first
      unreadable timestamp raises. */
  function BuildIssues(owner: string, repository: string, nodes: seq<IssueNode>, read: TimestampReader): (r: Result<seq<Issue>, FetchError>)
    ensures r.Ok? ==> |r.value| == |nodes|
    ensures r.Ok? ==> forall k :: 0 <= k < |r.value| ==> r.value[k].organisation == owner && r.value[k].repository == repository
    decreases |nodes|
  {
    if |nodes| == 0 then Ok([])
    else
      match BuildIssue(owner, repository, nodes[0], read)
      case Err(e) => Err(e)
      case Ok(issue) =>
        match BuildIssues(owner, repository, nodes[1..], read)
        case Err(e) => Err(e)
        case Ok(rest) => Ok([issue] + rest)
  }

  /** Issue `k` of a page is the issue built from node `k`. */
  lemma {:induction false} BuildIssuesPerNode(owner: string, repository: string, nodes: seq<IssueNode>, read: TimestampReader)
    ensures var r := BuildIssues(owner, repository, nodes, read);
      r.Ok? ==> forall k :: 0 <= k < |nodes| ==> BuildIssue(owner, repository, nodes[k], read) == Ok(r.value[k])
    decreases |nodes|
  {
    if |nodes| > 0 {
      BuildIssuesPerNode(owner, repository, nodes[1..], read);
      var r := BuildIssues(owner, repository, nodes, read);
      if r.Ok? {
        var rest := BuildIssues(owner, repository, nodes[1..], read).value;
        assert r.value == [BuildIssue(owner, repository, nodes[0], read).value] + rest;
        forall k | 1 <= k < |nodes| ensures BuildIssue(owner, repository, nodes[k], read) == Ok(r.value[k]) {
          assert nodes[k] == nodes[1..][k - 1] && r.value[k] == rest[k - 1];
        }
      }
    }
  }

  predicate NodesReadable(nodes: seq<IssueNode>, read: TimestampReader) {
    forall k :: 0 <= k < |nodes| ==> NodeReadable(nodes[k], read)
  }

  /** A page of issues fails exactly when one of its timestamps cannot be read. */
  lemma {:induction false} BuildIssuesSucceeds(owner: string, repository: string, nodes: seq<IssueNode>, read: TimestampReader)
    ensures BuildIssues(owner, repository, nodes, read).Ok? <==> NodesReadable(nodes, read)
    decreases |nodes|
  {
    if |nodes| > 0 {
      BuildIssuesSucceeds(owner, repository, nodes[1..], read);
      assert NodesReadable(nodes, read) <==> NodeReadable(nodes[0], read) && NodesReadable(nodes[1..], read) by {
        assert forall k :: 1 <= k < |nodes| ==> nodes[k] == nodes[1..][k - 1];
      }
    }
  }

  function IssuePageInfo(page: IssuePage): PageInfo {
    page.pageInfo
  }

  function IssueExtractor(owner: string, repository: string): IssuePage -> Result<seq<Issue>, FetchError> {
    (page: IssuePage) => BuildIssues(owner, repository, page.nodes, ParseTimestamp)
  }

  /** `get_issue_list`: the issues of all pages in page order. */
  function GetIssueList(owner: string, repository: string, server: seq<Response<IssuePage>>): (r: Fetched<Issue>)
    ensures forall q :: q in r.queries ==> q.target == IssuesOf(owner, repository) && q.first == IssuePageSize
    ensures r.result.Ok? ==> forall k :: 0 <= k < |r.result.value| ==>
      r.result.value[k].organisation == owner && r.result.value[k].repository == repository
  {
    var target := IssuesOf(owner, repository);
    var extract := IssueExtractor(owner, repository);
    PaginateTargets(target, IssuePageSize, server, IssuePageInfo, extract, 0, None);
    PaginateSound(target, IssuePageSize, server, IssuePageInfo, extract, 0, None);
    var r := Paginate(target, IssuePageSize, server, IssuePageInfo, extract, 0, None);
    if r.result.Ok? then
      var n := |r.queries|;
      CollectIssuesOwned(owner, repository, server[0..n]);
      r
    else r
  }

  /** The nodes of a run of pages, in page order. */
  function AllNodes(pages: seq<Response<IssuePage>>): seq<IssueNode>
    decreases |pages|
  {
    if |pages| == 0 then [] else pages[0].data.nodes + AllNodes(pages[1..])
  }

  /** Two outcomes one after the other: the first failure wins, else the items add up. */
  function AndThen<T>(x: Result<seq<T>, FetchError>, y: Result<seq<T>, FetchError>): Result<seq<T>, FetchError> {
    match x
    case Err(e) => Err(e)
    case Ok(a) =>
      match y
      case Err(e) => Err(e)
      case Ok(b) => Ok(a + b)
  }

  lemma AndThenUnit<T>(x: Result<seq<T>, FetchError>)
    ensures AndThen(Ok([]), x) == x
  {
    if x.Ok? {
      assert [] + x.value == x.value;
    }
  }

  lemma AndThenAssociative<T>(x: Result<seq<T>, FetchError>, y: Result<seq<T>, FetchError>, z: Result<seq<T>, FetchError>)
    ensures AndThen(x, AndThen(y, z)) == AndThen(AndThen(x, y), z)
  {
    if x.Ok? && y.Ok? && z.Ok? {
      assert x.value + (y.value + z.value) == (x.value + y.value) + z.value;
    }
  }

  /** One step of BuildIssues: the first node's issue, then the rest. */
  lemma BuildIssuesCons(owner: string, repository: string, nodes: seq<IssueNode>, read: TimestampReader)
    requires |nodes| > 0
    ensures var first := BuildIssue(owner, repository, nodes[0], read);
      BuildIssues(owner, repository, nodes, read)
        == if first.Err? then Err(first.error)
           else AndThen(Ok([first.value]), BuildIssues(owner, repository, nodes[1..], read))
  {
  }

  lemma {:induction false} BuildIssuesAppend(owner: string, repository: string, a: seq<IssueNode>, b: seq<IssueNode>, read: TimestampReader)
    ensures BuildIssues(owner, repository, a + b, read)
      == AndThen(BuildIssues(owner, repository, a, read), BuildIssues(owner, repository, b, read))
    decreases |a|
  {
    if |a| == 0 {
      assert a + b == b;
      AndThenUnit(BuildIssues(owner, repository, b, read));
    } else {
      var ab := a + b;
      assert ab[0] == a[0] && ab[1..] == a[1..] + b;
      BuildIssuesAppend(owner, repository, a[1..], b, read);
      BuildIssuesCons(owner, repository, ab, read);
      BuildIssuesCons(owner, repository, a, read);
      var first := BuildIssue(owner, repository, a[0], read);
      if first.Ok? {
        AndThenAssociative(Ok([first.value]), BuildIssues(owner, repository, a[1..], read), BuildIssues(owner, repository, b, read));
      }
    }
  }

  /** Collecting issue pages is building the issues of all their nodes at once. */
  lemma {:induction false} CollectIssues(owner: string, repository: string, pages: seq<Response<IssuePage>>)
    ensures Collect(pages, IssueExtractor(owner, repository)) == BuildIssues(owner, repository, AllNodes(pages), ParseTimestamp)
    decreases |pages|
  {
    if |pages| > 0 {
      var here := pages[0].data.nodes;
      var later := AllNodes(pages[1..]);
      assert AllNodes(pages) == here + later;
      CollectIssues(owner, repository, pages[1..]);
      BuildIssuesAppend(owner, repository, here, later, ParseTimestamp);
    }
  }

  lemma {:induction false} CollectIssuesOwned(owner: string, repository: string, pages: seq<Response<IssuePage>>)
    ensures var c := Collect(pages, IssueExtractor(owner, repository));
      c.Ok? ==> forall k :: 0 <= k < |c.value| ==> c.value[k].organisation == owner && c.value[k].repository == repository
    decreases |pages|
  {
    if |pages| > 0 {
      CollectIssuesOwned(owner, repository, pages[1..]);
    }
  }

  /** When the server delivers a complete run of `n` pages whose timestamps
      all read, the listing sends exactly `n` requests and returns one issue
      per node of those pages, in page and node order. */
  lemma IssueListSpec(owner: string, repository: string, server: seq<Response<IssuePage>>, n: nat)
    requires ServesRun(server, IssuePageInfo, 0, n)
    requires NodesReadable(AllNodes(server[0..n]), ParseTimestamp)
    ensures var r := GetIssueList(owner, repository, server);
      && |r.queries| == n
      && r.result == BuildIssues(owner, repository, AllNodes(server[0..n]), ParseTimestamp)
      && r.result.Ok?
  {
    var target := IssuesOf(owner, repository);
    var extract := IssueExtractor(owner, repository);
    var pages := server[0..n];
    CollectIssues(owner, repository, pages);
    BuildIssuesSucceeds(owner, repository, AllNodes(pages), ParseTimestamp);
    PaginateComplete(target, IssuePageSize, server, IssuePageInfo, extract, 0, None, n);
    assert GetIssueList(owner, repository, server) == Paginate(target, IssuePageSize, server, IssuePageInfo, extract, 0, None);
  }
}
