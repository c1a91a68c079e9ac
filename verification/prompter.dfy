/** `prompt_issues`: validate the arguments, list the repositories and their
    issues, order the candidates oldest first, then check them one by one,
    counting the stale and free ones and posting the comments the policy
    selects, until `prompt_count` issues have been counted.  The GraphQL
    server, the REST endpoint, the environment and the clock are parameters. */
module Prompter {
  import opened Wrappers
  import opened Types
  import opened Classifier
  import opened GitHubGraphQL
  import opened GitHubRest
  import opened IssueOrder
  import Seqs

  // ---------------------------------------------------------------------------
  // arguments and their validation
  // ---------------------------------------------------------------------------

  /** The `mode` argument: a variant, or text naming one. */
  datatype ModeArgument = ModeVariant(mode: IssueCheckMode) | ModeText(text: string)

  /** The keyword arguments of `prompt_issues`. */
  datatype Arguments = Arguments(
    organisation: string,
    repository: Option<string>,
    githubToken: Option<string>,
    mode: ModeArgument,
    promptCount: int,
    postComments: PostCommentsOptions,
    onlyAssigned: bool,
    openaiToken: Option<string>)

  /** The arguments left at their defaults. */
  function DefaultArguments(organisation: string): Arguments {
    Arguments(organisation, None, None, ModeVariant(Ai), 5, PostNone, false, None)
  }

  /** The two token environment variables; `None` when unset. */
  datatype Environment = Environment(githubToken: Option<string>, openaiToken: Option<string>)

  /** The ValueErrors raised before any request is made. */
  datatype ConfigError =
    | UnknownMode(text: string)
    | MissingGitHubToken
    | MissingOpenAiToken
    | NonPositivePromptCount(count: int)

  datatype Config = Config(mode: IssueCheckMode, githubToken: string, openaiToken: Option<string>)

  /** Python truthiness of an optional string. */
  predicate Truthy(s: Option<string>) {
    s.Some? && |s.value| > 0
  }

  /** `given or os.getenv(NAME)`: an empty or absent argument falls back to
      the environment, and the token is missing only when that is unset too. */
  function ResolveToken(given: Option<string>, environment: Option<string>): (r: Option<string>)
    ensures r.None? <==> !Truthy(given) && environment.None?
    ensures Truthy(given) ==> r == given
    ensures !Truthy(given) ==> r == environment
  {
    if Truthy(given) then given else environment
  }

  /** `IssueCheckMode(mode)`: a variant is kept, text must be a value exactly. */
  function ConvertMode(mode: ModeArgument): (r: Result<IssueCheckMode, ConfigError>)
    ensures mode.ModeVariant? ==> r == Ok(mode.mode)
    ensures mode.ModeText? && r.Ok? ==> r.value.Value() == mode.text
    ensures mode.ModeText? && mode.text in {"simple", "ai"} ==> r.Ok?
    ensures r.Err? ==> mode.ModeText? && r.error == UnknownMode(mode.text)
  {
    match mode
    case ModeVariant(m) => Ok(m)
    case ModeText(t) =>
      match IssueCheckMode.ByValue(t)
      case Some(m) => Ok(m)
      case None => Err(UnknownMode(t))
  }

  /** The checks in the program's order: mode, GitHub token, OpenAI token
      (only in AI mode), prompt count.  The first failing one is reported. */
  function ValidateConfig(args: Arguments, env: Environment): (r: Result<Config, ConfigError>)
    ensures r.Ok? <==>
      && ConvertMode(args.mode).Ok?
      && ResolveToken(args.githubToken, env.githubToken).Some?
      && (ConvertMode(args.mode).value == Ai ==> ResolveToken(args.openaiToken, env.openaiToken).Some?)
      && args.promptCount > 0
    ensures r.Ok? ==>
      && r.value.mode == ConvertMode(args.mode).value
      && ResolveToken(args.githubToken, env.githubToken) == Some(r.value.githubToken)
      && r.value.openaiToken == ResolveToken(args.openaiToken, env.openaiToken)
    ensures ConvertMode(args.mode).Err? ==> r == Err(ConvertMode(args.mode).error)
    ensures r == Err(MissingGitHubToken) <==>
      ConvertMode(args.mode).Ok? && ResolveToken(args.githubToken, env.githubToken).None?
    ensures r == Err(MissingOpenAiToken) <==>
      && ConvertMode(args.mode) == Ok(Ai)
      && ResolveToken(args.githubToken, env.githubToken).Some?
      && ResolveToken(args.openaiToken, env.openaiToken).None?
    ensures r == Err(NonPositivePromptCount(args.promptCount)) <==>
      && ConvertMode(args.mode).Ok?
      && ResolveToken(args.githubToken, env.githubToken).Some?
      && (ConvertMode(args.mode).value == Ai ==> ResolveToken(args.openaiToken, env.openaiToken).Some?)
      && args.promptCount <= 0
    ensures r.Err? && r.error.NonPositivePromptCount? ==> r.error.count == args.promptCount <= 0
  {
    var mode :- ConvertMode(args.mode);
    var github := ResolveToken(args.githubToken, env.githubToken);
    if github.None? then Err(MissingGitHubToken)
    else
      var openai := ResolveToken(args.openaiToken, env.openaiToken);
      if openai.None? && mode == Ai then Err(MissingOpenAiToken)
      else if args.promptCount <= 0 then Err(NonPositivePromptCount(args.promptCount))
      else Ok(Config(mode, github.value, openai))
  }

  /** Simple mode never asks for an OpenAI token, and the defaults (AI mode)
      refuse to start without one. */
  lemma OpenAiTokenOnlyForAi(args: Arguments, env: Environment, openai: Option<string>, environment: Option<string>)
    requires ConvertMode(args.mode) == Ok(Simple)
    ensures ValidateConfig(args.(openaiToken := openai), env.(openaiToken := environment)).Ok?
        <==> ValidateConfig(args, env).Ok?
    ensures var d := DefaultArguments(args.organisation);
      env.openaiToken.None? && env.githubToken.Some? ==> ValidateConfig(d, env) == Err(MissingOpenAiToken)
  {
  }

  // ---------------------------------------------------------------------------
  // the posting policy
  // ---------------------------------------------------------------------------

  /** Stale and free verdicts are counted; active and error ones are not. */
  predicate Counts(st: IssueStatus) {
    st.status == Stale || st.status == Free
  }

  /** Whether a counted verdict's comment is posted under `policy`. */
  predicate ShouldPost(policy: PostCommentsOptions, st: IssueStatus) {
    && st.comment.Some?
    && (|| policy == PostAll
        || (policy == PostFree && st.status == Free)
        || (policy == PostStale && st.status == Stale))
  }

  /** The policy as a table over the two counted statuses. */
  function PolicyTable(policy: PostCommentsOptions, status: Status): bool
    requires status == Stale || status == Free
  {
    match (policy, status)
    case (PostNone, Stale) => false
    case (PostNone, Free) => false
    case (PostStale, Stale) => true
    case (PostStale, Free) => false
    case (PostFree, Stale) => false
    case (PostFree, Free) => true
    case (PostAll, Stale) => true
    case (PostAll, Free) => true
  }

  /** For a verdict with a comment the policy test is exactly the table, and
      the NONE policy posts nothing at all. */
  lemma ShouldPostFollowsTable(policy: PostCommentsOptions, st: IssueStatus)
    requires Counts(st)
    ensures st.comment.Some? ==> (ShouldPost(policy, st) <==> PolicyTable(policy, st.status))
    ensures policy == PostNone ==> !ShouldPost(policy, st)
    ensures st.comment.None? ==> !ShouldPost(policy, st)
  {
  }

  // ---------------------------------------------------------------------------
  // the loop over the candidates
  // ---------------------------------------------------------------------------

  /** One comment sent: the issue, its text and what the REST call returned. */
  datatype PostEvent = PostEvent(issue: Issue, comment: string, posted: bool)

  /** Where the loop stopped: `examined` issues looked at, `processed` of them
      counted, the comments sent, and the error of the check that raised. */
  datatype LoopResult = LoopResult(examined: nat, processed: nat, posts: seq<PostEvent>, error: Option<StatusError>)

  /** What one issue adds to the count. */
  function CountOf(check: Result<IssueStatus, StatusError>): nat {
    if check.Ok? && Counts(check.value) then 1 else 0
  }

  /** What one issue adds to the comments sent. */
  function PostsOf(issue: Issue, check: Result<IssueStatus, StatusError>, policy: PostCommentsOptions,
                   post: (Issue, string) -> bool): seq<PostEvent>
  {
    if check.Ok? && Counts(check.value) && ShouldPost(policy, check.value) then
      [PostEvent(issue, check.value.comment.value, post(issue, check.value.comment.value))]
    else []
  }

  /** The loop from issue `i` on, `processed` and `posts` being its state so far.
      The count is compared with `prompt_count` after every issue, counted or not. */
  function RunFrom(issues: seq<Issue>, classify: Issue -> Result<IssueStatus, StatusError>,
                   post: (Issue, string) -> bool, policy: PostCommentsOptions, promptCount: int,
                   i: nat, processed: nat, posts: seq<PostEvent>): (r: LoopResult)
    requires i <= |issues|
    ensures i <= r.examined <= |issues|
    ensures processed <= r.processed
    ensures processed < promptCount ==> r.processed <= promptCount
    ensures posts <= r.posts
    ensures |r.posts| - |posts| <= r.processed - processed
    ensures policy == PostNone ==> r.posts == posts
    ensures r.error.Some? ==> r.examined < |issues| && classify(issues[r.examined]) == Err(r.error.value)
    decreases |issues| - i
  {
    if i == |issues| then LoopResult(i, processed, posts, None)
    else
      var check := classify(issues[i]);
      if check.Err? then LoopResult(i, processed, posts, Some(check.error))
      else
        var processed' := processed + CountOf(check);
        var posts' := posts + PostsOf(issues[i], check, policy, post);
        if processed' == promptCount then LoopResult(i + 1, processed', posts', None)
        else
          var r := RunFrom(issues, classify, post, policy, promptCount, i + 1, processed', posts');
          r
  }

  /** The `for issue in issues` loop of `prompt_issues`: it never counts more
      than `prompt_count` issues, sends at most one comment per counted issue
      (none under the `none` policy), and an error names the issue whose
      check raised. */
  function ProcessIssues(issues: seq<Issue>, classify: Issue -> Result<IssueStatus, StatusError>,
                         post: (Issue, string) -> bool, policy: PostCommentsOptions, promptCount: int): (r: LoopResult)
    ensures r.examined <= |issues|
    ensures promptCount > 0 ==> r.processed <= promptCount
    ensures |r.posts| <= r.processed
    ensures policy == PostNone ==> r.posts == []
    ensures r.error.Some? ==> r.examined < |issues| && classify(issues[r.examined]) == Err(r.error.value)
  {
    RunFrom(issues, classify, post, policy, promptCount, 0, 0, [])
  }

  // the loop stated without a loop

  /** The first `k` checks all return a status. */
  predicate ChecksSucceed(issues: seq<Issue>, classify: Issue -> Result<IssueStatus, StatusError>, k: nat)
    requires k <= |issues|
  {
    forall j :: 0 <= j < k ==> classify(issues[j]).Ok?
  }

  /** How many of the first `k` issues are stale or free. */
  function CountedUpTo(issues: seq<Issue>, classify: Issue -> Result<IssueStatus, StatusError>, k: nat): nat
    requires k <= |issues|
  {
    if k == 0 then 0 else CountedUpTo(issues, classify, k - 1) + CountOf(classify(issues[k - 1]))
  }

  /** The comments sent for the first `k` issues, in issue order. */
  function PostsUpTo(issues: seq<Issue>, classify: Issue -> Result<IssueStatus, StatusError>,
                     policy: PostCommentsOptions, post: (Issue, string) -> bool, k: nat): seq<PostEvent>
    requires k <= |issues|
  {
    if k == 0 then [] else PostsUpTo(issues, classify, policy, post, k - 1) + PostsOf(issues[k - 1], classify(issues[k - 1]), policy, post)
  }

  /** A run that stopped after `r.examined` issues, described from the issues
      alone: every issue before the stop was checked without error, the count
      never reached `promptCount` earlier, and the run stopped because the
      list ended, a check raised, or the count was reached. */
  predicate Explains(issues: seq<Issue>, classify: Issue -> Result<IssueStatus, StatusError>,
                     post: (Issue, string) -> bool, policy: PostCommentsOptions, promptCount: int, r: LoopResult)
  {
    && r.examined <= |issues|
    && ChecksSucceed(issues, classify, r.examined)
    && r.processed == CountedUpTo(issues, classify, r.examined)
    && r.posts == PostsUpTo(issues, classify, policy, post, r.examined)
    && (forall k :: 1 <= k < r.examined ==> CountedUpTo(issues, classify, k) != promptCount)
    && (r.error.Some? ==>
          && r.examined < |issues|
          && classify(issues[r.examined]) == Err(r.error.value)
          && (r.examined == 0 || CountedUpTo(issues, classify, r.examined) != promptCount))
    && (r.error.None? ==>
          r.examined == |issues| || (r.examined >= 1 && CountedUpTo(issues, classify, r.examined) == promptCount))
  }

  lemma {:induction false} RunFromExplained(issues: seq<Issue>, classify: Issue -> Result<IssueStatus, StatusError>,
                                            post: (Issue, string) -> bool, policy: PostCommentsOptions, promptCount: int, i: nat)
    requires i <= |issues|
    requires ChecksSucceed(issues, classify, i)
    requires forall k :: 1 <= k <= i ==> CountedUpTo(issues, classify, k) != promptCount
    ensures Explains(issues, classify, post, policy, promptCount,
                     RunFrom(issues, classify, post, policy, promptCount, i,
                             CountedUpTo(issues, classify, i), PostsUpTo(issues, classify, policy, post, i)))
    decreases |issues| - i
  {
    if i == |issues| || classify(issues[i]).Err? || CountedUpTo(issues, classify, i + 1) == promptCount {
      RunFromStopsHere(issues, classify, post, policy, promptCount, i);
    } else {
      assert ChecksSucceed(issues, classify, i + 1);
      RunFromStep(issues, classify, post, policy, promptCount, i);
      RunFromExplained(issues, classify, post, policy, promptCount, i + 1);
    }
  }

  /** One turn of the loop that does not stop it. */
  lemma RunFromStep(issues: seq<Issue>, classify: Issue -> Result<IssueStatus, StatusError>,
                    post: (Issue, string) -> bool, policy: PostCommentsOptions, promptCount: int, i: nat)
    requires i < |issues| && classify(issues[i]).Ok? && CountedUpTo(issues, classify, i + 1) != promptCount
    ensures RunFrom(issues, classify, post, policy, promptCount, i,
                    CountedUpTo(issues, classify, i), PostsUpTo(issues, classify, policy, post, i))
         == RunFrom(issues, classify, post, policy, promptCount, i + 1,
                    CountedUpTo(issues, classify, i + 1), PostsUpTo(issues, classify, policy, post, i + 1))
  {
  }

  /** The turn of the loop that stops it is described by `Explains`. */
  lemma RunFromStopsHere(issues: seq<Issue>, classify: Issue -> Result<IssueStatus, StatusError>,
                         post: (Issue, string) -> bool, policy: PostCommentsOptions, promptCount: int, i: nat)
    requires i <= |issues|
    requires ChecksSucceed(issues, classify, i)
    requires forall k :: 1 <= k <= i ==> CountedUpTo(issues, classify, k) != promptCount
    requires i == |issues| || classify(issues[i]).Err? || CountedUpTo(issues, classify, i + 1) == promptCount
    ensures Explains(issues, classify, post, policy, promptCount,
                     RunFrom(issues, classify, post, policy, promptCount, i,
                             CountedUpTo(issues, classify, i), PostsUpTo(issues, classify, policy, post, i)))
  {
    var counted := CountedUpTo(issues, classify, i);
    var posts := PostsUpTo(issues, classify, policy, post, i);
    var r := RunFrom(issues, classify, post, policy, promptCount, i, counted, posts);
    if i == |issues| {
      assert r == LoopResult(i, counted, posts, None);
    } else if classify(issues[i]).Err? {
      assert r == LoopResult(i, counted, posts, Some(classify(issues[i]).error));
    } else {
      var counted' := CountedUpTo(issues, classify, i + 1);
      var posts' := PostsUpTo(issues, classify, policy, post, i + 1);
      assert ChecksSucceed(issues, classify, i + 1);
      assert r == LoopResult(i + 1, counted', posts', None);
    }
  }

  /** The loop does what its description says. */
  lemma ProcessIssuesExplained(issues: seq<Issue>, classify: Issue -> Result<IssueStatus, StatusError>,
                               post: (Issue, string) -> bool, policy: PostCommentsOptions, promptCount: int)
    ensures Explains(issues, classify, post, policy, promptCount, ProcessIssues(issues, classify, post, policy, promptCount))
  {
    RunFromExplained(issues, classify, post, policy, promptCount, 0);
  }

  /** With a positive `prompt_count` and no check raising, the loop counts
      `min(prompt_count, number of stale or free issues)`, and it stops
      early only once `prompt_count` issues are counted. */
  lemma ProcessedIsMinimum(issues: seq<Issue>, classify: Issue -> Result<IssueStatus, StatusError>,
                           post: (Issue, string) -> bool, policy: PostCommentsOptions, promptCount: int)
    requires promptCount > 0 && ChecksSucceed(issues, classify, |issues|)
    ensures var r := ProcessIssues(issues, classify, post, policy, promptCount);
      var total := CountedUpTo(issues, classify, |issues|);
      && r.error.None?
      && r.processed == (if total < promptCount then total else promptCount)
      && (r.examined < |issues| ==> r.processed == promptCount)
  {
    var r := ProcessIssues(issues, classify, post, policy, promptCount);
    ProcessIssuesExplained(issues, classify, post, policy, promptCount);
    if r.examined < |issues| {
      CountMonotonic(issues, classify, r.examined, |issues|);
    }
  }

  lemma {:induction false} CountMonotonic(issues: seq<Issue>, classify: Issue -> Result<IssueStatus, StatusError>, j: nat, k: nat)
    requires j <= k <= |issues|
    ensures CountedUpTo(issues, classify, j) <= CountedUpTo(issues, classify, k)
    decreases k
  {
    if j < k {
      CountMonotonic(issues, classify, j, k - 1);
    }
  }

  /** The issues the comments were sent to, in order. */
  function PostedIssues(posts: seq<PostEvent>): (r: seq<Issue>)
    ensures |r| == |posts| && forall j :: 0 <= j < |r| ==> r[j] == posts[j].issue
  {
    seq(|posts|, j requires 0 <= j < |posts| => posts[j].issue)
  }

  lemma PostedIssuesAppend(a: seq<PostEvent>, b: seq<PostEvent>)
    ensures PostedIssues(a + b) == PostedIssues(a) + PostedIssues(b)
  {
  }

  /** Each issue gets at most one comment, in issue order. */
  lemma {:induction false} PostsUpToOncePerIssue(issues: seq<Issue>, classify: Issue -> Result<IssueStatus, StatusError>,
                                                 policy: PostCommentsOptions, post: (Issue, string) -> bool, k: nat)
    requires k <= |issues|
    ensures multiset(PostedIssues(PostsUpTo(issues, classify, policy, post, k))) <= multiset(issues[..k])
    decreases k
  {
    if k > 0 {
      PostsUpToOncePerIssue(issues, classify, policy, post, k - 1);
      var before := PostsUpTo(issues, classify, policy, post, k - 1);
      var step := PostsOf(issues[k - 1], classify(issues[k - 1]), policy, post);
      var sent := PostedIssues(step);
      assert issues[..k] == issues[..k - 1] + [issues[k - 1]];
      assert multiset(issues[..k]) == multiset(issues[..k - 1]) + multiset([issues[k - 1]]);
      PostedIssuesAppend(before, step);
      assert multiset(PostedIssues(before + step)) == multiset(PostedIssues(before)) + multiset(sent);
      assert sent == [] || sent == [issues[k - 1]];
    }
  }

  /** Every comment is for one of the issues looked at, which was counted and
      selected by the policy, carries that verdict's text, and `posted` is
      what the REST call returned for it. */
  lemma {:induction false} PostsUpToFaithful(issues: seq<Issue>, classify: Issue -> Result<IssueStatus, StatusError>,
                                             policy: PostCommentsOptions, post: (Issue, string) -> bool, k: nat)
    requires k <= |issues|
    ensures forall e :: e in PostsUpTo(issues, classify, policy, post, k) ==>
      && e.issue in issues[..k]
      && e.posted == post(e.issue, e.comment)
      && classify(e.issue).Ok? && Counts(classify(e.issue).value) && ShouldPost(policy, classify(e.issue).value)
      && e.comment == classify(e.issue).value.comment.value
    decreases k
  {
    if k > 0 {
      PostsUpToFaithful(issues, classify, policy, post, k - 1);
      var before := PostsUpTo(issues, classify, policy, post, k - 1);
      var step := PostsOf(issues[k - 1], classify(issues[k - 1]), policy, post);
      assert issues[..k] == issues[..k - 1] + [issues[k - 1]];
      forall e: PostEvent | e in before + step
        ensures e.issue in issues[..k]
      {
        if e in before {
          assert e.issue in issues[..k - 1];
        }
      }
    }
  }

  /** How many issues a run looked at, the one whose check raised included. */
  function Consumed(r: LoopResult): nat {
    r.examined + (if r.error.Some? then 1 else 0)
  }

  /** The loop, entered at issue `i` with count `processed`, stops at an issue
      before index `n`: a check raises there or the count reaches
      `prompt_count` there. */
  predicate StopsBefore(issues: seq<Issue>, classify: Issue -> Result<IssueStatus, StatusError>,
                        promptCount: int, i: nat, processed: nat, n: nat)
    decreases n - i
  {
    i < n <= |issues| &&
    var check := classify(issues[i]);
    check.Err? || processed + CountOf(check) == promptCount
    || StopsBefore(issues, classify, promptCount, i + 1, processed + CountOf(check), n)
  }

  /** A run that stopped early stopped before its consumed prefix ends. */
  lemma {:induction false} RunFromStops(issues: seq<Issue>, classify: Issue -> Result<IssueStatus, StatusError>,
                                        post: (Issue, string) -> bool, policy: PostCommentsOptions, promptCount: int,
                                        i: nat, processed: nat, posts: seq<PostEvent>)
    requires i <= |issues|
    requires var r := RunFrom(issues, classify, post, policy, promptCount, i, processed, posts);
      r.error.Some? || (r.examined > i && r.processed == promptCount)
    ensures StopsBefore(issues, classify, promptCount, i, processed,
                        Consumed(RunFrom(issues, classify, post, policy, promptCount, i, processed, posts)))
    decreases |issues| - i
  {
    if i < |issues| {
      var check := classify(issues[i]);
      if check.Ok? && processed + CountOf(check) != promptCount {
        RunFromStops(issues, classify, post, policy, promptCount, i + 1,
                     processed + CountOf(check), posts + PostsOf(issues[i], check, policy, post));
      }
    }
  }

  /** Issues from index `n` on are never checked by a run that stops before
      `n`: replacing them leaves the run unchanged. */
  lemma {:induction false} RunFromIgnoresRest(issues: seq<Issue>, other: seq<Issue>, classify: Issue -> Result<IssueStatus, StatusError>,
                                              post: (Issue, string) -> bool, policy: PostCommentsOptions, promptCount: int,
                                              i: nat, processed: nat, posts: seq<PostEvent>, n: nat)
    requires StopsBefore(issues, classify, promptCount, i, processed, n)
    requires n <= |other| && forall k :: i <= k < n ==> other[k] == issues[k]
    ensures RunFrom(other, classify, post, policy, promptCount, i, processed, posts)
         == RunFrom(issues, classify, post, policy, promptCount, i, processed, posts)
    decreases n - i
  {
    assert other[i] == issues[i];
    var check := classify(issues[i]);
    if check.Ok? && processed + CountOf(check) != promptCount {
      RunFromIgnoresRest(issues, other, classify, post, policy, promptCount, i + 1,
                         processed + CountOf(check), posts + PostsOf(issues[i], check, policy, post), n);
    }
  }

  lemma ProcessIssuesIgnoresRest(issues: seq<Issue>, rest: seq<Issue>, classify: Issue -> Result<IssueStatus, StatusError>,
                                 post: (Issue, string) -> bool, policy: PostCommentsOptions, promptCount: int)
    requires var r := ProcessIssues(issues, classify, post, policy, promptCount);
      r.error.Some? || (r.examined > 0 && r.processed == promptCount)
    ensures var r := ProcessIssues(issues, classify, post, policy, promptCount);
      Consumed(r) <= |issues| &&
      ProcessIssues(issues[..Consumed(r)] + rest, classify, post, policy, promptCount) == r
  {
    var r := ProcessIssues(issues, classify, post, policy, promptCount);
    var other := issues[..Consumed(r)] + rest;
    assert forall k :: 0 <= k < Consumed(r) ==> other[k] == issues[k];
    RunFromStops(issues, classify, post, policy, promptCount, 0, 0, []);
    RunFromIgnoresRest(issues, other, classify, post, policy, promptCount, 0, 0, [], Consumed(r));
  }

  // ---------------------------------------------------------------------------
  // the whole run
  // ---------------------------------------------------------------------------

  /** Why a run ended early: a ValueError from validation, a failed query, or
      a status check that raised. */
  datatype Failure = ConfigFailure(config: ConfigError) | FetchFailure(fetch: FetchError) | CheckFailure(check: StatusError)

  /** The observable effects of a run: the GraphQL queries sent, the ordered
      candidates, the loop's result and the failure that ended it, if any. */
  datatype RunOutcome = RunOutcome(queries: seq<Query>, candidates: seq<Issue>, loop: LoopResult, failure: Option<Failure>)

  const NoLoop := LoopResult(0, 0, [], None)

  /** `[repository]` when one is named (and non-empty), else the organisation's list. */
  function ListRepositories(owner: string, repository: Option<string>,
                            server: seq<Response<RepositoryPage>>): (r: Fetched<string>)
    ensures Truthy(repository) ==> r.queries == [] && r.result == Ok([repository.value])
    ensures !Truthy(repository) ==> r == GetRepositoryList(owner, server)
    ensures forall q :: q in r.queries ==> q.target == RepositoriesOf(owner)
    ensures r.result.Ok? ==> NoDuplicates(r.result.value)
  {
    if Truthy(repository) then Fetched([], Ok([repository.value]))
    else GetRepositoryList(owner, server)
  }

  /** What a listing of one repository of `owner` promises: every request
      asks for that repository's issues and every issue belongs to it. */
  predicate ListsRepository(owner: string, repo: string, f: Fetched<Issue>) {
    && (forall q :: q in f.queries ==> q.target == IssuesOf(owner, repo))
    && (f.result.Ok? ==> forall k :: 0 <= k < |f.result.value| ==>
          f.result.value[k].organisation == owner && f.result.value[k].repository == repo)
  }

  predicate ListsAll(owner: string, repos: seq<string>, list: string -> Fetched<Issue>) {
    forall j :: 0 <= j < |repos| ==> ListsRepository(owner, repos[j], list(repos[j]))
  }

  /** `get_issue_list(owner, repository)` for each repository, the responses
      of each repository's listing coming from `server`. */
  function IssueLister(owner: string, server: string -> seq<Response<IssuePage>>): string -> Fetched<Issue> {
    (repo: string) => GetIssueList(owner, repo, server(repo))
  }

  lemma IssueListerLists(owner: string, repos: seq<string>, server: string -> seq<Response<IssuePage>>)
    ensures ListsAll(owner, repos, IssueLister(owner, server))
  {
  }

  /** The issues of every repository, repository by repository, `list`
      giving each repository's listing; the first failing listing ends the
      fetch. */
  function FetchIssues(owner: string, repos: seq<string>, list: string -> Fetched<Issue>): (r: Fetched<Issue>)
    ensures ListsAll(owner, repos, list) ==>
      forall q :: q in r.queries ==> q.target.IssuesOf? && q.target.owner == owner && q.target.repository in repos
    ensures ListsAll(owner, repos, list) && r.result.Ok? ==> forall k :: 0 <= k < |r.result.value| ==>
      r.result.value[k].organisation == owner && r.result.value[k].repository in repos
    decreases |repos|
  {
    if |repos| == 0 then Fetched([], Ok([]))
    else
      var first := list(repos[0]);
      if first.result.Err? then first
      else
        var rest := FetchIssues(owner, repos[1..], list);
        assert ListsAll(owner, repos, list) ==> ListsAll(owner, repos[1..], list) by {
          assert forall j :: 0 <= j < |repos[1..]| ==> repos[1..][j] == repos[j + 1];
        }
        Fetched(first.queries + rest.queries, AndThen(first.result, rest.result))
  }

  /** Fetching over two lists of repositories is fetching over the first,
      then (if that succeeded) over the second. */
  lemma FetchIssuesAppend(owner: string, a: seq<string>, b: seq<string>, list: string -> Fetched<Issue>)
    ensures FetchIssues(owner, a + b, list).result
         == AndThen(FetchIssues(owner, a, list).result, FetchIssues(owner, b, list).result)
    ensures FetchIssues(owner, a + b, list).queries
         == if FetchIssues(owner, a, list).result.Ok?
            then FetchIssues(owner, a, list).queries + FetchIssues(owner, b, list).queries
            else FetchIssues(owner, a, list).queries
  {
    FetchResultsAppend(owner, a, b, list);
    FetchQueriesAppend(owner, a, b, list);
  }

  lemma {:induction false} FetchResultsAppend(owner: string, a: seq<string>, b: seq<string>, list: string -> Fetched<Issue>)
    ensures FetchIssues(owner, a + b, list).result
         == AndThen(FetchIssues(owner, a, list).result, FetchIssues(owner, b, list).result)
    decreases |a|
  {
    if |a| == 0 {
      assert a + b == b;
      AndThenUnit(FetchIssues(owner, b, list).result);
    } else {
      Seqs.AppendTail(a, b);
      var first := list(a[0]);
      if first.result.Ok? {
        FetchResultsAppend(owner, a[1..], b, list);
        AndThenAssociative(first.result, FetchIssues(owner, a[1..], list).result, FetchIssues(owner, b, list).result);
      }
    }
  }

  lemma {:induction false} FetchQueriesAppend(owner: string, a: seq<string>, b: seq<string>, list: string -> Fetched<Issue>)
    ensures FetchIssues(owner, a + b, list).queries
         == if FetchIssues(owner, a, list).result.Ok?
            then FetchIssues(owner, a, list).queries + FetchIssues(owner, b, list).queries
            else FetchIssues(owner, a, list).queries
    decreases |a|
  {
    if |a| == 0 {
      assert a + b == b;
    } else {
      Seqs.AppendTail(a, b);
      var first := list(a[0]);
      if first.result.Ok? {
        FetchQueriesAppend(owner, a[1..], b, list);
        var rest := FetchIssues(owner, a[1..], list);
        var fb := FetchIssues(owner, b, list);
        assert first.queries + (rest.queries + fb.queries) == (first.queries + rest.queries) + fb.queries;
      }
    }
  }

  /** `issues.sort(key=created)`, then the optional filter to assigned issues:
      a sorted permutation of the (filtered) issues in which issues created
      at the same instant keep their fetched order. */
  function Candidates(issues: seq<Issue>, onlyAssigned: bool): (r: seq<Issue>)
    ensures SortedByCreated(r)
    ensures forall x :: x in r <==> x in issues && (onlyAssigned ==> |x.assignees| > 0)
    ensures !onlyAssigned ==> multiset(r) == multiset(issues)
    ensures onlyAssigned ==> multiset(r) == multiset(OnlyAssigned(issues))
    ensures forall t :: CreatedAt(t, r) == CreatedAt(t, if onlyAssigned then OnlyAssigned(issues) else issues)
  {
    var sorted := SortByCreated(issues);
    assert forall x :: x in sorted <==> x in issues by {
      forall x ensures x in sorted <==> x in issues {
        assert x in sorted <==> x in multiset(sorted);
        assert x in issues <==> x in multiset(issues);
      }
    }
    if onlyAssigned then
      FilterKeepsSorted(HasAssignees, sorted);
      assert forall t :: CreatedAt(t, OnlyAssigned(sorted)) == CreatedAt(t, OnlyAssigned(issues)) by {
        forall t ensures CreatedAt(t, OnlyAssigned(sorted)) == CreatedAt(t, OnlyAssigned(issues)) {
          OnlyAssignedAfterSort(issues, t);
        }
      }
      OnlyAssignedAfterSort(issues, 0);
      OnlyAssigned(sorted)
    else
      assert forall t :: CreatedAt(t, sorted) == CreatedAt(t, issues) by {
        forall t ensures CreatedAt(t, sorted) == CreatedAt(t, issues) {
          SortIsStable(issues, t);
        }
      }
      sorted
  }

  /** The status check with the mode and clock of the run. */
  function Checker(mode: IssueCheckMode, now: Timestamp): Issue -> Result<IssueStatus, StatusError> {
    (issue: Issue) => CheckIssueStatus(mode, issue, now)
  }

  /** `comment_on_github_issue(issue, comment, token)`, which cannot raise
      with its default `raise_errors`. */
  function Poster(respond: CommentRequest -> RestResponse): (r: (Issue, string) -> bool)
    ensures forall issue, comment :: r(issue, comment) <==>
      var resp := respond(CommentRequestFor(issue, comment));
      StatusAccepted(resp.statusCode) && !HasErrors(resp.errors)
  {
    (issue: Issue, comment: string) =>
      match CommentOnIssue(issue, comment, false, respond)
      case Returned(posted) => posted
      case Raised(_) => false
  }

  /** `prompt_issues` as a whole. */
  function PromptIssues(args: Arguments, env: Environment, now: Timestamp,
                        repositoryServer: seq<Response<RepositoryPage>>,
                        issueServer: string -> seq<Response<IssuePage>>,
                        respond: CommentRequest -> RestResponse): (out: RunOutcome)
    ensures ValidateConfig(args, env).Err? ==>
      out == RunOutcome([], [], NoLoop, Some(ConfigFailure(ValidateConfig(args, env).error)))
    ensures ValidateConfig(args, env).Ok? ==> out.loop.processed <= args.promptCount
    ensures args.postComments == PostNone ==> out.loop.posts == []
    ensures forall q :: q in out.queries ==> q.target.owner == args.organisation
    ensures Truthy(args.repository) ==> forall q :: q in out.queries ==> q.target == IssuesOf(args.organisation, args.repository.value)
    ensures Truthy(args.repository) ==> forall x :: x in out.candidates ==> x.repository == args.repository.value
    ensures args.onlyAssigned ==> forall x :: x in out.candidates ==> |x.assignees| > 0
  {
    match ValidateConfig(args, env)
    case Err(e) => RunOutcome([], [], NoLoop, Some(ConfigFailure(e)))
    case Ok(config) =>
      var repos := ListRepositories(args.organisation, args.repository, repositoryServer);
      if repos.result.Err? then RunOutcome(repos.queries, [], NoLoop, Some(FetchFailure(repos.result.error)))
      else
        var list := IssueLister(args.organisation, issueServer);
        IssueListerLists(args.organisation, repos.result.value, issueServer);
        var fetched := FetchIssues(args.organisation, repos.result.value, list);
        var queries := repos.queries + fetched.queries;
        if fetched.result.Err? then RunOutcome(queries, [], NoLoop, Some(FetchFailure(fetched.result.error)))
        else
          var candidates := Candidates(fetched.result.value, args.onlyAssigned);
          var classify := Checker(config.mode, now);
          var post := Poster(respond);
          var loop := ProcessIssues(candidates, classify, post, args.postComments, args.promptCount);
          RunOutcome(queries, candidates, loop, if loop.error.Some? then Some(CheckFailure(loop.error.value)) else None)
  }

  /** Every comment the loop sends goes to one of the issues it was given. */
  lemma LoopPostsGoToIssues(issues: seq<Issue>, classify: Issue -> Result<IssueStatus, StatusError>,
                            post: (Issue, string) -> bool, policy: PostCommentsOptions, promptCount: int)
    ensures forall e :: e in ProcessIssues(issues, classify, post, policy, promptCount).posts ==> e.issue in issues
  {
    var r := ProcessIssues(issues, classify, post, policy, promptCount);
    ProcessIssuesExplained(issues, classify, post, policy, promptCount);
    PostsUpToFaithful(issues, classify, policy, post, r.examined);
    assert forall x :: x in issues[..r.examined] ==> x in issues;
  }

  /** Every comment of a run goes to one of its candidates, an issue of the
      organisation given. */
  lemma PostsGoToCandidates(args: Arguments, env: Environment, now: Timestamp,
                            repositoryServer: seq<Response<RepositoryPage>>,
                            issueServer: string -> seq<Response<IssuePage>>,
                            respond: CommentRequest -> RestResponse)
    ensures var out := PromptIssues(args, env, now, repositoryServer, issueServer, respond);
      forall e :: e in out.loop.posts ==> e.issue in out.candidates && e.issue.organisation == args.organisation
  {
    var out := PromptIssues(args, env, now, repositoryServer, issueServer, respond);
    if ValidateConfig(args, env).Ok? {
      var config := ValidateConfig(args, env).value;
      var repos := ListRepositories(args.organisation, args.repository, repositoryServer);
      if repos.result.Ok? {
        var list := IssueLister(args.organisation, issueServer);
        IssueListerLists(args.organisation, repos.result.value, issueServer);
        var fetched := FetchIssues(args.organisation, repos.result.value, list);
        if fetched.result.Ok? {
          var candidates := Candidates(fetched.result.value, args.onlyAssigned);
          var classify := Checker(config.mode, now);
          var post := Poster(respond);
          assert out.candidates == candidates;
          assert out.loop == ProcessIssues(candidates, classify, post, args.postComments, args.promptCount);
          LoopPostsGoToIssues(candidates, classify, post, args.postComments, args.promptCount);
          assert forall x :: x in candidates ==> x.organisation == args.organisation;
        }
      }
    }
  }

  /** In AI mode the first candidate's check raises, so nothing is counted
      or posted whenever there is a candidate at all. */
  lemma AiModeStopsAtFirstCandidate(args: Arguments, env: Environment, now: Timestamp,
                                    repositoryServer: seq<Response<RepositoryPage>>,
                                    issueServer: string -> seq<Response<IssuePage>>,
                                    respond: CommentRequest -> RestResponse)
    requires ValidateConfig(args, env).Ok? && ValidateConfig(args, env).value.mode == Ai
    ensures var out := PromptIssues(args, env, now, repositoryServer, issueServer, respond);
      |out.candidates| > 0 ==>
        out.failure == Some(CheckFailure(AiModeNotImplemented)) && out.loop == LoopResult(0, 0, [], Some(AiModeNotImplemented))
  {
  }

  /** When the first two issues are both counted and posted, a run with two
      prompts allowed stops right after them and posts to exactly them. */
  lemma FirstTwoPrompted(issues: seq<Issue>, classify: Issue -> Result<IssueStatus, StatusError>,
                         post: (Issue, string) -> bool, policy: PostCommentsOptions)
    requires |issues| >= 2
    requires classify(issues[0]).Ok? && Counts(classify(issues[0]).value) && ShouldPost(policy, classify(issues[0]).value)
    requires classify(issues[1]).Ok? && Counts(classify(issues[1]).value) && ShouldPost(policy, classify(issues[1]).value)
    ensures var r := ProcessIssues(issues, classify, post, policy, 2);
      r.examined == 2 && r.processed == 2 && r.error.None? && PostedIssues(r.posts) == issues[..2]
  {
    var p1 := PostsOf(issues[0], classify(issues[0]), policy, post);
    var p2 := PostsOf(issues[1], classify(issues[1]), policy, post);
    assert RunFrom(issues, classify, post, policy, 2, 0, 0, []) == RunFrom(issues, classify, post, policy, 2, 1, 1, [] + p1);
    assert RunFrom(issues, classify, post, policy, 2, 1, 1, [] + p1) == LoopResult(2, 2, [] + p1 + p2, None);
    var ps := PostedIssues([] + p1 + p2);
    assert ps[0] == issues[0] && ps[1] == issues[1];
  }

  /** Three untouched issues listed newest first, two prompts allowed, all
      comments posted: the two oldest are the ones prompted, oldest first. */
  lemma OldestIssuesFirst(a: Issue, b: Issue, c: Issue, now: Timestamp, post: (Issue, string) -> bool)
    requires |a.assignees| == 0 && |a.comments| == 0
    requires |b.assignees| == 0 && |b.comments| == 0
    requires |c.assignees| == 0 && |c.comments| == 0
    requires a.created < b.created < c.created
    ensures var r := ProcessIssues(SortByCreated([c, a, b]), Checker(Simple, now), post, PostAll, 2);
      r.examined == 2 && r.processed == 2 && r.error.None? && PostedIssues(r.posts) == [a, b]
  {
    SortThree(a, b, c);
    var issues := [a, b, c];
    var classify := Checker(Simple, now);
    assert classify(issues[0]) == Ok(CheckSimple(a, now));
    assert classify(issues[1]) == Ok(CheckSimple(b, now));
    FirstTwoPrompted(issues, classify, post, PostAll);
    assert issues[..2] == [a, b];
  }
}
