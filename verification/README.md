# github-issue-prompter in Dafny

A Dafny model of the core of `github-issue-prompter`. The tool lists the
open issues of a GitHub organisation or repository. It sorts them oldest
first. It then classifies each one as active, stale or free, and may post a
prompting comment on stale and free issues until a configured number of
them has been found.

The model is functional throughout. Issues, statuses and HTTP responses are
immutable datatypes. The classifier, the posting policy, the response checks
and the rendering of issues are pure functions. Pagination and the
classify-and-post loop are recursive functions over sequences of pages and
issues. Outside inputs become parameters:

- The clock is a `now` parameter, in whole seconds.
- The GraphQL server is a sequence of responses: request *i* receives response *i*.
- The REST endpoint is a function from request to response.
- The two token environment variables are an `Environment` record.
- The issue-node builders take the timestamp reader as a parameter. `GetIssueList` passes `ParseTimestamp`, the model of `_parse_datetime`.
- `FetchIssues` takes the listing of one repository as a parameter. `PromptIssues` passes `GetIssueList` over the issue server.

Modules: one per core source file; `DateTimes` for the timestamps `github_gql.py` reads; `IssueOrder` for the ordering part of `prompter.py`; and the shared `Wrappers`, `Seqs` and `Text`:

- `Wrappers` (`wrappers.dfy`): `Option` and `Result`.
- `Seqs` (`seqs.dfy`): a sequence fact shared by proofs.
- `Text` (`text.dfy`): joining and splitting, ASCII case, and decimal rendering.
- `Types` (`types.dfy`): `types.py`.
- `DateTimes` (`datetimes.dfy`): the timestamp layout read by `_parse_datetime`, and a time line of seconds.
- `Classifier` (`classifier.dfy`): `status.py`.
- `GitHubGraphQL` (`github_gql.dfy`): `github_gql.py`.
- `GitHubRest` (`github_rest.dfy`): `github_rest.py`.
- `IssueOrder` (`issue_order.dfy`): the stable sort and the assignee filter of `prompter.py`.
- `Prompter` (`prompter.dfy`): `prompt_issues`.

Where the code and its own comments disagree, the model follows the code:

- The sort puts the OLDEST issue first, although the comment next to it says "most recent".
- The unassigned, commented verdict carries the assigned verdict's reason text ("The issue is assigned, but ..."). It is reproduced as written.
- `prompt_issues` converts `mode` with `IssueCheckMode(mode)`. That is an exact, case-sensitive match on the value, not the case-insensitive `from_str`.

## Model

| member | source | states |
|---|---|---|
| Types.IssueCheckMode.ToString | github_issue_prompter/types.py:9-10 | `str()` of a mode is its lower-case value, and that text looks the same mode up again |
| Types.PostCommentsOptions.ToString | github_issue_prompter/types.py:9-10 | `str()` of a posting option is its lower-case value, and that text looks the same option up again |
| Types.Status.ToString | github_issue_prompter/types.py:9-10 | `str()` of a status is its lower-case value, and that text looks the same status up again |
| Types.IssueCheckMode.ByValue | github_issue_prompter/types.py:17-19 | `IssueCheckMode(s)` yields exactly the variant whose value is `s`; any other text is an error |
| Types.PostCommentsOptions.ByValue | github_issue_prompter/types.py:22-26 | `PostCommentsOptions(s)` yields exactly the variant whose value is `s`; any other text is an error |
| Types.Status.ByValue | github_issue_prompter/types.py:29-33 | `Status(s)` yields exactly the variant whose value is `s`; any other text is an error |
| Types.IssueCheckMode.FromStr | github_issue_prompter/types.py:12-14 | `from_str(s)` yields the mode whose value equals the lower-cased `s`, and fails otherwise |
| Types.PostCommentsOptions.FromStr | github_issue_prompter/types.py:12-14 | `from_str(s)` yields the option whose value equals the lower-cased `s`, and fails otherwise |
| Types.Status.FromStr | github_issue_prompter/types.py:12-14 | `from_str(s)` yields the status whose value equals the lower-cased `s`, and fails otherwise |
| Types.IssueCheckModeFromStrIgnoresCase | github_issue_prompter/types.py:12-14 | `from_str` finds every mode from its upper-cased value |
| Types.PostCommentsOptionsFromStrIgnoresCase | github_issue_prompter/types.py:12-14 | `from_str` finds every posting option from its upper-cased value |
| Types.StatusFromStrIgnoresCase | github_issue_prompter/types.py:12-14 | `from_str` finds every status from its upper-cased value |
| Types.Lookup | github_issue_prompter/types.py:12-14 | value lookup over a list of variants finds a variant exactly when one has the given value |
| Text.LowerLetters | github_issue_prompter/types.py:14 | `lower()` turns each of `A`-`Z` into its lower-case letter and leaves every other character alone |
| Types.AssigneesText | github_issue_prompter/types.py:73-75 | `assignees_str` of no assignees is empty; of one login `a` it is exactly `@a` |
| Types.AssigneesTextCons | github_issue_prompter/types.py:73-75 | `assignees_str` is the first login's mention, then `", "`, then the rest's text, in list order |
| Types.AssigneesRoundTrip | github_issue_prompter/types.py:73-75 | logins without commas can be read back from `assignees_str`, so the rendering loses nothing |
| Types.PathRoundTrip | github_issue_prompter/types.py:69-71 | `repr(issue)` is `org/repo/issues/N` with `N` in decimal; organisation, repository and number are read back from it |
| Text.IntToDecimalRoundTrip | github_issue_prompter/types.py:71 | the decimal rendering of the issue number reads back as the same integer |
| DateTimes.Parse | github_issue_prompter/github_gql.py:17-29 | a timestamp that parses has a valid calendar date and time |
| DateTimes.ParseFormat | github_issue_prompter/github_gql.py:17-29 | every valid datetime, written as `YYYY-MM-DDTHH:MM:SSZ`, parses back to itself |
| DateTimes.FormatParse | github_issue_prompter/github_gql.py:17-29 | every accepted text is exactly the rendering of its value, so the layout is fixed |
| DateTimes.ToSecondsOrder | github_issue_prompter/github_gql.py:17-29 | the seconds of two parsed datetimes order them exactly as the calendar does |
| DateTimes.ToSeconds | github_issue_prompter/github_gql.py:17-29 | a parsed datetime lies at a non-negative second on the time line |
| Classifier.CheckSimple | github_issue_prompter/status.py:40-104 | never `ERROR`; active iff no reason, and active iff no comment; free iff unassigned and uncommented |
| Classifier.CheckIssueStatus | github_issue_prompter/status.py:29-37 | simple mode returns exactly the verdict of `_check_simple` (never `ERROR`); AI mode raises |
| Classifier.CheckSimpleFollowsAgeRule | github_issue_prompter/status.py:58-104 | the verdict equals a rule stated by age: untouched issues are free; others are stale iff their last activity is older than their shape's limit |
| Classifier.AssignedCommentedRule | github_issue_prompter/status.py:58-68 | assigned and commented: stale iff the newest comment is strictly older than 14 days, else active |
| Classifier.CommentedRule | github_issue_prompter/status.py:70-80 | unassigned with comments: stale iff the newest comment is strictly older than 7 days, else active |
| Classifier.AssignedUncommentedRule | github_issue_prompter/status.py:82-93 | assigned without comments: stale iff the last update is strictly older than 21 days, else active |
| Classifier.UntouchedIsFree | github_issue_prompter/status.py:95-101 | unassigned and uncommented is free whatever the clock, creation and update times |
| Classifier.OnlyNewestCommentCounts | github_issue_prompter/status.py:61 | replacing every comment but the first never changes the verdict |
| Classifier.StaleIsMonotonic | github_issue_prompter/status.py:60-61 | stale at `now` means stale at every later instant; free stays free |
| Classifier.CommentAddressee | github_issue_prompter/status.py:62-101 | a stale or free comment addresses `assignees_str` in the assigned shapes, and `@author` otherwise |
| GitHubGraphQL.QueryGraphQL | github_issue_prompter/github_gql.py:62-76 | a response yields its `data` iff the status is 200 or 201 and `errors` is absent or empty; the status is checked first; errors carry the query |
| GitHubGraphQL.Paginate | github_issue_prompter/github_gql.py:100-136 | at least one request is sent, never more than the server answers, and the first carries the starting cursor |
| GitHubGraphQL.PaginateSound | github_issue_prompter/github_gql.py:104-136 | a successful walk read a run of accepted pages whose last alone says `hasNextPage = false`, and returns their items in page order |
| GitHubGraphQL.PaginateServesRun | github_issue_prompter/github_gql.py:104-136 | a successful walk read accepted pages, each but the last announcing a next page |
| GitHubGraphQL.PaginateCollects | github_issue_prompter/github_gql.py:104-136 | a successful walk returns the items of the pages it read, in page order |
| GitHubGraphQL.PaginateComplete | github_issue_prompter/github_gql.py:104-136 | over such a run of pages, the walk sends exactly one request per page and returns every page's items |
| GitHubGraphQL.PaginateCursors | github_issue_prompter/github_gql.py:100-106 | the first request has no `after:`, and each later one carries the previous page's `endCursor` |
| GitHubGraphQL.PaginateTargets | github_issue_prompter/github_gql.py:107-129 | every request of a walk asks for the same owner or repository and page size |
| GitHubGraphQL.Dedup | github_issue_prompter/github_gql.py:102 | the set of names keeps exactly the names seen, each once |
| GitHubGraphQL.GetRepositoryList | github_issue_prompter/github_gql.py:79-138 | repository names come out without duplicates, from requests for the owner's repositories, 100 per page |
| GitHubGraphQL.CollectNames | github_issue_prompter/github_gql.py:134 | collecting names over pages keeps exactly the names on those pages |
| GitHubGraphQL.RepositoryListSpec | github_issue_prompter/github_gql.py:102-138 | over a run of `n` pages: `n` requests, and the result holds exactly the union of the pages' names, each once |
| GitHubGraphQL.ParseTimestamp | github_issue_prompter/github_gql.py:17-29 | a timestamp is read iff it has the fixed layout and a real date; an unreadable one raises with its text |
| GitHubGraphQL.BuildComments | github_issue_prompter/github_gql.py:239-246 | one comment per node, in node order, with that node's author, body and time as read; fails iff some timestamp is unreadable |
| GitHubGraphQL.BuildIssue | github_issue_prompter/github_gql.py:229-247 | succeeds iff all the node's timestamps are readable; the issue has the caller's organisation and repository, the node's number, title, author, body and assignees, its times as read, and its comments in order |
| GitHubGraphQL.BuildIssues | github_issue_prompter/github_gql.py:227-248 | one issue per node; every issue carries the caller's organisation and repository |
| GitHubGraphQL.BuildIssuesPerNode | github_issue_prompter/github_gql.py:227-248 | issue `k` of a page is the issue built from node `k` |
| GitHubGraphQL.BuildIssuesSucceeds | github_issue_prompter/github_gql.py:227-248 | building a page's issues succeeds iff every timestamp on it is readable |
| GitHubGraphQL.BuildIssuesAppend | github_issue_prompter/github_gql.py:227-228 | building the issues of two node lists is building each list in turn |
| GitHubGraphQL.GetIssueList | github_issue_prompter/github_gql.py:141-253 | every request asks for the repository's issues, 50 per page; every issue has the caller's organisation and repository |
| GitHubGraphQL.CollectIssues | github_issue_prompter/github_gql.py:227-251 | collecting over pages builds the issues of all the pages' nodes, in page order |
| GitHubGraphQL.CollectIssuesOwned | github_issue_prompter/github_gql.py:229-231 | every collected issue carries the caller's organisation and repository |
| GitHubGraphQL.IssueListSpec | github_issue_prompter/github_gql.py:166-253 | over a run of `n` readable pages: `n` requests, and one issue per node of all pages, in order |
| GitHubRest.RequestAddressesIssue | github_issue_prompter/github_rest.py:42-44 | the issue is read back from the request URL `https://api.github.com/repos/` + `repr(issue)` + `/comments`; the body has the single field `body`, holding the comment |
| GitHubRest.CommentOnIssue | github_issue_prompter/github_rest.py:16-74 | the call returns True iff the endpoint, sent the request for this issue and comment, accepts it and reports no errors; it raises only when `raise_errors` is set, naming the issue and the comment |
| GitHubRest.CommentOutcome | github_issue_prompter/github_rest.py:48-74 | True iff the status is 200 or 201 and no errors came back; a failure returns False, or raises when `raise_errors`; the status is checked first; raised errors name the issue and the comment |
| GitHubRest.DefaultNeverRaises | github_issue_prompter/github_rest.py:20-74 | with the default `raise_errors` the call never raises, and returns exactly whether the endpoint accepted the comment |
| IssueOrder.Insert | github_issue_prompter/prompter.py:101 | inserting adds exactly one element and keeps the rest |
| IssueOrder.InsertSorted | github_issue_prompter/prompter.py:101 | inserting into a list sorted by creation time keeps it sorted |
| IssueOrder.SortByCreated | github_issue_prompter/prompter.py:101 | the sorted list is ordered oldest first and is a permutation of the input |
| IssueOrder.InsertMember | github_issue_prompter/prompter.py:101 | every element of an insertion is the inserted issue or one of the list's |
| IssueOrder.InsertKeepsTies | github_issue_prompter/prompter.py:101 | inserting puts the new element ahead of the elements with the same creation time |
| IssueOrder.SortIsStable | github_issue_prompter/prompter.py:101 | issues created at the same instant keep their fetched order |
| IssueOrder.Filter | github_issue_prompter/prompter.py:104 | the selection keeps exactly the elements that pass the test |
| IssueOrder.FilterAppend | github_issue_prompter/prompter.py:104 | filtering a concatenation is concatenating the filtered parts, so order is kept |
| IssueOrder.FilterKeepsSorted | github_issue_prompter/prompter.py:102-104 | filtering a sorted list leaves it sorted |
| IssueOrder.OnlyAssigned | github_issue_prompter/prompter.py:104 | only issues with assignees remain, and all of them remain |
| IssueOrder.FilterCommutes | github_issue_prompter/prompter.py:101-104 | two selections give the same list in either order |
| IssueOrder.FilterCount | github_issue_prompter/prompter.py:104 | the selection keeps every copy of an issue that passes and none of one that fails |
| IssueOrder.FilterPermutation | github_issue_prompter/prompter.py:101-104 | selecting from two permutations of a list gives permutations of each other |
| IssueOrder.OnlyAssignedAfterSort | github_issue_prompter/prompter.py:101-104 | filtering after the sort loses no copies, and issues created at the same instant keep their fetched order |
| Prompter.ResolveToken | github_issue_prompter/prompter.py:55-56 | an empty or absent argument falls back to the environment; the token is missing only when the environment variable is unset too |
| Prompter.ConvertMode | github_issue_prompter/prompter.py:53 | a variant is kept; text must be exactly a mode's value, else the conversion fails with that text |
| Prompter.ValidateConfig | github_issue_prompter/prompter.py:53-76 | it succeeds iff the mode converts, a GitHub token resolves, an OpenAI token resolves in AI mode, and `prompt_count > 0`; each error is reported exactly when every earlier check passed and its own check fails, in the order mode, GitHub token, OpenAI token, prompt count |
| Prompter.OpenAiTokenOnlyForAi | github_issue_prompter/prompter.py:62-67 | in simple mode the OpenAI token never matters; the default AI mode refuses to start without one |
| Prompter.ShouldPostFollowsTable | github_issue_prompter/prompter.py:123-133 | a comment is posted exactly per the policy matrix (ALL both, FREE free, STALE stale, NONE never), and never without a comment |
| Prompter.ProcessIssues | github_issue_prompter/prompter.py:109-164 | the loop examines a prefix of the candidates, counts at most `prompt_count` of them, sends at most one comment per counted issue and none under NONE; an error names the issue whose check raised |
| Prompter.RunFrom | github_issue_prompter/prompter.py:109-164 | the loop never counts past `prompt_count`; posts only counted issues; posts nothing under NONE; a raising check ends it at that issue |
| Prompter.RunFromExplained | github_issue_prompter/prompter.py:109-164 | from any point the loop keeps its declarative description |
| Prompter.ProcessIssuesExplained | github_issue_prompter/prompter.py:109-164 | the loop checks issues in order and stops after the first issue at which the count reaches `prompt_count`, at a raising check, or at the end; count and posts are those of the issues looked at |
| Prompter.CountMonotonic | github_issue_prompter/prompter.py:140 | the count of stale or free issues never decreases along the list |
| Prompter.ProcessedIsMinimum | github_issue_prompter/prompter.py:109-164 | with a positive `prompt_count` and no raising check, the loop counts `min(prompt_count, stale or free issues)` and stops early only at that count |
| Prompter.PostsUpToOncePerIssue | github_issue_prompter/prompter.py:110-138 | each issue receives at most one comment |
| Prompter.PostsUpToFaithful | github_issue_prompter/prompter.py:119-138 | every comment goes to an issue already looked at that was counted and selected by the policy; it carries that verdict's text; `posted` is what the REST call returned |
| Prompter.ProcessIssuesIgnoresRest | github_issue_prompter/prompter.py:163-164 | issues after the stopping point are never checked: replacing them leaves the run unchanged |
| Prompter.RunFromStops | github_issue_prompter/prompter.py:140-164 | a run that raised or reached `prompt_count` stopped at an issue before the end of what it consumed |
| Prompter.RunFromIgnoresRest | github_issue_prompter/prompter.py:163-164 | from any point, a run that stops before index `n` is unchanged when the issues from `n` on are replaced |
| Prompter.RunFromStopsHere | github_issue_prompter/prompter.py:140-164 | the loop stops at the end of the list, at a raising check, or right after the count reaches `prompt_count` |
| Prompter.ListRepositories | github_issue_prompter/prompter.py:78-88 | a non-empty `repository` is the only repository and needs no request; otherwise the organisation's repositories are listed, each once, every request asking for that organisation's repositories |
| Prompter.Poster | github_issue_prompter/prompter.py:134-138 | the post call returns whether the endpoint accepted the comment for that issue without errors; it never raises |
| Prompter.IssueListerLists | github_issue_prompter/prompter.py:93 | `get_issue_list` for a repository asks only for that repository's issues and returns only issues of it |
| Prompter.FetchIssues | github_issue_prompter/prompter.py:91-99 | when each listing keeps to its repository, every request and every issue belongs to the organisation and to one of the listed repositories |
| Prompter.FetchIssuesAppend | github_issue_prompter/prompter.py:91-99 | issues are concatenated repository by repository, in repository order; the first failure ends the fetch |
| Prompter.FetchResultsAppend | github_issue_prompter/prompter.py:91-99 | the issues of two repository lists are those of the first, then of the second |
| Prompter.FetchQueriesAppend | github_issue_prompter/prompter.py:91-99 | no request is sent for the second list of repositories once the first has failed |
| Prompter.Candidates | github_issue_prompter/prompter.py:101-104 | the candidates are sorted oldest first; they are a permutation of the fetched issues, or of those with assignees when `only_assigned` is set; issues created at the same instant keep their fetched order |
| Prompter.PromptIssues | github_issue_prompter/prompter.py:16-164 | a config error sends no request and posts nothing; at most `prompt_count` issues counted; NONE posts nothing; with a repository named only its issues are queried and only its issues are candidates; with `only_assigned` every candidate has an assignee |
| Prompter.LoopPostsGoToIssues | github_issue_prompter/prompter.py:109-138 | every comment the loop sends goes to one of the issues it was given |
| Prompter.PostsGoToCandidates | github_issue_prompter/prompter.py:90-138 | every comment of a run goes to one of its candidates, an issue of the organisation given |
| Prompter.AiModeStopsAtFirstCandidate | github_issue_prompter/status.py:107-108 | in AI mode the first candidate's check raises, so nothing is counted or posted |
| IssueOrder.SortThree | github_issue_prompter/prompter.py:101 | three issues listed newest first come out oldest first |
| Prompter.FirstTwoPrompted | github_issue_prompter/prompter.py:109-164 | when the first two issues are counted and posted, a run allowing two prompts stops right after them and posts to exactly them |
| Prompter.OldestIssuesFirst | github_issue_prompter/prompter.py:101-164 | with three untouched issues and `prompt_count = 2`, the two oldest are prompted, oldest first, and the loop stops after them |

## Left out

- HTTP transport is not modelled. This covers `requests.post`, headers, the bearer token and timeouts. Responses are abstract records: status code, optional `errors`, data.
- JSON decoding is not modelled. A payload missing an expected key (Python's KeyError) is not represented. Nor is an issue or comment whose `author` is null, for which the source would fail on the login lookup.
- Logging, including the success summary at the end of `prompt_issues`, is not modelled.
- The GraphQL query text beyond its target, page size and `after:` argument is not modelled. That includes the unescaped interpolation of owner and repository names. So are the fetched-but-unused `lastEditedAt` and the `first: 10` / `first: 5` limits on assignees and comments.
- Environment access: the variable names live in `constants.py`, which is not part of this model. The two variables are a record of optional strings.
- The OpenAI client is not modelled. The source builds it only when the resolved token is non-empty (`elif _openai_token:`), so an empty environment value passes validation in AI mode but builds no client. Building it is a foreign call, and the client is never used by the modelled checks. Only the resolved token is modelled.
- `_check_ai` is modelled as the error `AiModeNotImplemented`. As called it would fail on its missing `openai_token` argument before reaching its own `NotImplementedError`; both are raised errors, and the model has one error for them.
- `**kwargs` of `prompt_issues` and `check_issue_status` are not modelled. They only reach the status checks, which ignore them.
- The `case _` arms of the two `match` statements cannot be reached. Their subjects are closed enums, so they are not modelled. The `ERROR` arm of the loop is modelled: such a verdict is not counted.
- `command.py`, `graphql.py` and `__init__.py` are outside the core and not modelled.
- `GitHubGraphQL.Dedup`: `list(set(...))` has no defined order. The model keeps first-seen order, and its contract promises only the set of names and no duplicates.
- `DateTimes.Parse`: it accepts only the fixed 20-character layout that GitHub emits. `strptime` also accepts texts this model rejects: fields with fewer digits, a space-padded day (`%d`), lower-case `t` and `z` (the pattern is matched case-insensitively), and non-ASCII decimal digits (its `\d` is Unicode).
- `Prompter.PromptIssues`: the whole run uses one `now`. The source calls `datetime.now()` inside every `_check_simple` call, so its clock advances between issues and during slow posts, and an issue close to a threshold can change verdict within a run. Threading a non-decreasing clock read once per issue is not modelled.
- Timezones are not modelled. Parsed times are UTC, while `datetime.now()` is local time. The model places both on one time line, with `now` a parameter.
- `Text.Lower`: it maps ASCII letters only. Python's `str.lower()` also folds other Unicode letters.
- `GitHubGraphQL.Paginate` has an error `ServerExhausted`. It fires when the modelled server runs out of responses before a page reports `hasNextPage = false`. It belongs to the finite model of the server; the source would keep requesting pages.
- `Prompter.PromptIssues`: its contract covers the safety facts (no request before validation, bounded count, posts only to candidates, the repository restriction). The exact loop result is stated by `Prompter.ProcessIssuesExplained` about the loop it calls.
