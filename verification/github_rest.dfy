/** `comment_on_github_issue`: one POST to the REST endpoint of an issue's
    comments and what its response means.  The HTTP exchange is the
    parameter `respond`; logging is not modelled. */
module GitHubRest {
  import opened Wrappers
  import opened Types

  const CommentsUrlPrefix := "https://api.github.com/repos/"
  const CommentsUrlSuffix := "/comments"

  /** The request: its URL and the JSON object sent as body. */
  datatype CommentRequest = CommentRequest(url: string, body: map<string, string>)

  /** What the endpoint answers: a status code and the payload's `errors`, if present. */
  datatype RestResponse = RestResponse(statusCode: int, errors: Option<seq<string>>)

  /** `GitHubCommentsAPIError`, with the facts its message reports. */
  datatype CommentsApiError =
    | BadStatus(statusCode: int, issue: string, comment: string)
    | ErrorsReturned(errors: seq<string>, issue: string, comment: string)

  /** A call either returns a boolean or raises. */
  datatype PostOutcome = Returned(posted: bool) | Raised(error: CommentsApiError)

  predicate StatusAccepted(statusCode: int) {
    statusCode == 200 || statusCode == 201
  }

  /** `"errors" in data and len(data["errors"]) > 0`. */
  predicate HasErrors(errors: Option<seq<string>>) {
    errors.Some? && |errors.value| > 0
  }

  function CommentRequestFor(issue: Issue, comment: string): CommentRequest {
    CommentRequest(CommentsUrlPrefix + issue.Path() + CommentsUrlSuffix, map["body" := comment])
  }

  /** The issue a comments URL addresses, read back from the URL. */
  function UrlIssue(url: string): Option<IssueRef> {
    if |url| >= |CommentsUrlPrefix| + |CommentsUrlSuffix|
       && url[..|CommentsUrlPrefix|] == CommentsUrlPrefix
       && url[|url| - |CommentsUrlSuffix|..] == CommentsUrlSuffix
    then ParseIssuePath(url[|CommentsUrlPrefix|..|url| - |CommentsUrlSuffix|])
    else None
  }

  /** The request goes to the comments of exactly the issue given, and its
      body carries the comment under `body` and nothing else. */
  lemma RequestAddressesIssue(issue: Issue, comment: string)
    requires '/' !in issue.organisation && '/' !in issue.repository
    ensures UrlIssue(CommentRequestFor(issue, comment).url) == Some(IssueRef(issue.organisation, issue.repository, issue.number))
    ensures var body := CommentRequestFor(issue, comment).body;
      body.Keys == {"body"} && body["body"] == comment
  {
    var url := CommentRequestFor(issue, comment).url;
    assert url[..|CommentsUrlPrefix|] == CommentsUrlPrefix;
    assert url[|url| - |CommentsUrlSuffix|..] == CommentsUrlSuffix;
    assert url[|CommentsUrlPrefix|..|url| - |CommentsUrlSuffix|] == issue.Path();
    PathRoundTrip(issue);
  }

  /** What the program does with a response: the status code is checked
      first, then the payload's error list; a failure returns False, or
      raises when `raise_errors` is set. */
  function CommentOutcome(issue: Issue, comment: string, response: RestResponse, raiseErrors: bool): (r: PostOutcome)
    ensures r == Returned(true) <==> StatusAccepted(response.statusCode) && !HasErrors(response.errors)
    ensures !raiseErrors ==> r.Returned?
    ensures raiseErrors ==> r != Returned(false)
    ensures r.Raised? && r.error.BadStatus? <==> raiseErrors && !StatusAccepted(response.statusCode)
    ensures r.Raised? ==> r.error.issue == issue.Path() && r.error.comment == comment
  {
    if !StatusAccepted(response.statusCode) then
      if raiseErrors then Raised(BadStatus(response.statusCode, issue.Path(), comment))
      else Returned(false)
    else if HasErrors(response.errors) then
      if raiseErrors then Raised(ErrorsReturned(response.errors.value, issue.Path(), comment))
      else Returned(false)
    else Returned(true)
  }

  /** `comment_on_github_issue(issue, comment, token, raise_errors)`: success
      exactly when the endpoint answering the request for this issue and
      comment accepts it and reports no errors. */
  function CommentOnIssue(issue: Issue, comment: string, raiseErrors: bool,
                          respond: CommentRequest -> RestResponse): (r: PostOutcome)
    ensures var resp := respond(CommentRequestFor(issue, comment));
      r == Returned(true) <==> StatusAccepted(resp.statusCode) && !HasErrors(resp.errors)
    ensures !raiseErrors ==> r.Returned?
    ensures r.Raised? ==> raiseErrors && r.error.issue == issue.Path() && r.error.comment == comment
  {
    CommentOutcome(issue, comment, respond(CommentRequestFor(issue, comment)), raiseErrors)
  }

  /** With the default `raise_errors = False` the call never raises, and it
      reports success exactly when the endpoint accepted the comment. */
  lemma DefaultNeverRaises(issue: Issue, comment: string, respond: CommentRequest -> RestResponse)
    ensures var resp := respond(CommentRequestFor(issue, comment));
      CommentOnIssue(issue, comment, false, respond)
        == Returned(StatusAccepted(resp.statusCode) && !HasErrors(resp.errors))
  {
  }
}
