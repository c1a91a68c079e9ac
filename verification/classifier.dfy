/** The staleness check of `status.py`: `check_issue_status` dispatches on the
    mode, and the simple mode sorts an issue into one of four shapes
    (assigned and commented, commented, assigned, neither) with thresholds of
    14, 7 and 21 days.  The clock is the parameter `now`, in the seconds of
    module DateTimes. */
module Classifier {
  import opened Wrappers
  import opened Types
  import DateTimes

  const AssignedCommentedDays := 14
  const CommentedDays := 7
  const AssignedUncommentedDays := 21

  /** Why a check raised instead of returning a status. */
  datatype StatusError = AiModeNotImplemented

  // ---------------------------------------------------------------------------
  // the texts attached to stale and free verdicts
  // ---------------------------------------------------------------------------

  const AssignedCommentedReason := "The issue is assigned, but hasn't had a comment in 2 weeks."
  /** The unassigned, commented branch carries the assigned branch's reason verbatim. */
  const CommentedReason := "The issue is assigned, but hasn't had a comment in 2 weeks."
  const AssignedUncommentedReason := "The issue is assigned and has no comments, but hasn't been updated in 3 weeks."
  const FreeReason := "The issue is unassigned and has no comments."

  const AssignedCommentedTail := ", I noticed this issue didn't seem to have any comments recently, "
    + "and wondered if it was still actively being worked on or if I could take a look?"
  const CommentedTail := ", I noticed this issue didn't seem to have any progress, "
    + "and wondered if it was available for me to look into?"
  const AssignedUncommentedTail := ", I noticed this issue didn't seem to have been updated recently, "
    + "and wondered if it was still actively being worked on or if I could take a look?"
  const FreeTail := ", mind if I take on this issue?"

  /** A prompt opens with `Hey ` and the people it addresses. */
  function Greeting(addressees: string, tail: string): (c: string)
    ensures |c| >= 4 + |addressees| && c[..4 + |addressees|] == "Hey " + addressees
  {
    "Hey " + addressees + tail
  }

  function AssignedCommentedComment(issue: Issue): string {
    Greeting(issue.AssigneesStr(), AssignedCommentedTail)
  }

  function CommentedComment(issue: Issue): string {
    Greeting("@" + issue.author, CommentedTail)
  }

  function AssignedUncommentedComment(issue: Issue): string {
    Greeting(issue.AssigneesStr(), AssignedUncommentedTail)
  }

  function FreeComment(issue: Issue): string {
    Greeting("@" + issue.author, FreeTail)
  }

  // ---------------------------------------------------------------------------
  // the check
  // ---------------------------------------------------------------------------

  predicate IsAssigned(issue: Issue) {
    |issue.assignees| > 0
  }

  predicate IsCommented(issue: Issue) {
    |issue.comments| > 0
  }

  /** The instant `days` days before `now`, `datetime.now() - timedelta(days=...)`. */
  function DaysAgo(now: Timestamp, days: nat): Timestamp {
    now - days * DateTimes.SecondsPerDay
  }

  /** `_check_simple`: the four shapes in their fixed order.  Only the newest
      comment is looked at; stale and free verdicts carry a reason and a
      comment, active ones carry neither, and the check never reports an error. */
  function CheckSimple(issue: Issue, now: Timestamp): (r: IssueStatus)
    ensures r.status != Error
    ensures r.status == Active <==> r.reason.None?
    ensures r.status == Active <==> r.comment.None?
    ensures r.status == Free <==> !IsAssigned(issue) && !IsCommented(issue)
  {
    if IsAssigned(issue) && IsCommented(issue) then
      if issue.comments[0].updated < DaysAgo(now, AssignedCommentedDays) then
        IssueStatus(Stale, Some(AssignedCommentedReason), Some(AssignedCommentedComment(issue)))
      else StatusOnly(Active)
    else if IsCommented(issue) then
      if issue.comments[0].updated < DaysAgo(now, CommentedDays) then
        IssueStatus(Stale, Some(CommentedReason), Some(CommentedComment(issue)))
      else StatusOnly(Active)
    else if IsAssigned(issue) then
      if issue.updated < DaysAgo(now, AssignedUncommentedDays) then
        IssueStatus(Stale, Some(AssignedUncommentedReason), Some(AssignedUncommentedComment(issue)))
      else StatusOnly(Active)
    else
      IssueStatus(Free, Some(FreeReason), Some(FreeComment(issue)))
  }

  /** `check_issue_status`: the simple mode answers, the AI mode raises. */
  function CheckIssueStatus(mode: IssueCheckMode, issue: Issue, now: Timestamp): (r: Result<IssueStatus, StatusError>)
    ensures mode == Simple ==> r.Ok? && r.value.status != Error
    ensures mode == Simple ==> r == Ok(CheckSimple(issue, now))
    ensures mode == Ai ==> r == Err(AiModeNotImplemented)
  {
    match mode
    case Simple => Ok(CheckSimple(issue, now))
    case Ai => Err(AiModeNotImplemented)
  }

  // ---------------------------------------------------------------------------
  // the rule stated by age
  // ---------------------------------------------------------------------------

  /** When the issue last showed activity: its newest comment, or else its last update. */
  function LastActivity(issue: Issue): Timestamp {
    if IsCommented(issue) then issue.comments[0].updated else issue.updated
  }

  /** How many days of silence make an issue of this shape stale. */
  function StaleAfterDays(issue: Issue): nat {
    if IsAssigned(issue) && IsCommented(issue) then AssignedCommentedDays
    else if IsCommented(issue) then CommentedDays
    else AssignedUncommentedDays
  }

  /** The rule as a table of ages: an issue nobody has touched is free; any
      other issue is stale exactly when its last activity is older than its
      shape's limit. */
  function AgeRule(issue: Issue, now: Timestamp): Status {
    if !IsAssigned(issue) && !IsCommented(issue) then Free
    else if now - LastActivity(issue) > StaleAfterDays(issue) * DateTimes.SecondsPerDay then Stale
    else Active
  }

  lemma CheckSimpleFollowsAgeRule(issue: Issue, now: Timestamp)
    ensures CheckSimple(issue, now).status == AgeRule(issue, now)
  {
  }

  /** Assigned and commented: stale iff the newest comment is strictly older than 14 days. */
  lemma AssignedCommentedRule(issue: Issue, now: Timestamp)
    requires IsAssigned(issue) && IsCommented(issue)
    ensures CheckSimple(issue, now).status in {Stale, Active}
    ensures CheckSimple(issue, now).status == Stale <==> issue.comments[0].updated < now - 14 * 86400
  {
  }

  /** Commented but unassigned: stale iff the newest comment is strictly older than 7 days. */
  lemma CommentedRule(issue: Issue, now: Timestamp)
    requires !IsAssigned(issue) && IsCommented(issue)
    ensures CheckSimple(issue, now).status in {Stale, Active}
    ensures CheckSimple(issue, now).status == Stale <==> issue.comments[0].updated < now - 7 * 86400
  {
  }

  /** Assigned without comments: stale iff the issue's last update is strictly older than 21 days. */
  lemma AssignedUncommentedRule(issue: Issue, now: Timestamp)
    requires IsAssigned(issue) && !IsCommented(issue)
    ensures CheckSimple(issue, now).status in {Stale, Active}
    ensures CheckSimple(issue, now).status == Stale <==> issue.updated < now - 21 * 86400
  {
  }

  /** Neither assigned nor commented: free, whatever the timestamps and the clock. */
  lemma UntouchedIsFree(issue: Issue, now: Timestamp, created: Timestamp, updated: Timestamp)
    requires !IsAssigned(issue) && !IsCommented(issue)
    ensures CheckSimple(issue, now).status == Free
    ensures CheckSimple(issue.(created := created, updated := updated), now) == CheckSimple(issue, now)
  {
  }

  /** Comments after the newest one never change the verdict. */
  lemma OnlyNewestCommentCounts(issue: Issue, other: seq<IssueComment>, now: Timestamp)
    requires IsCommented(issue) && |other| > 0 && other[0] == issue.comments[0]
    ensures CheckSimple(issue.(comments := other), now) == CheckSimple(issue, now)
  {
    var issue' := issue.(comments := other);
    assert issue'.AssigneesStr() == issue.AssigneesStr();
  }

  /** Staleness only grows with time: stale now means stale at every later
      instant, and a free issue stays free. */
  lemma StaleIsMonotonic(issue: Issue, now: Timestamp, later: Timestamp)
    requires now <= later
    ensures CheckSimple(issue, now).status == Stale ==> CheckSimple(issue, later).status == Stale
    ensures CheckSimple(issue, now).status == Free <==> CheckSimple(issue, later).status == Free
  {
    CheckSimpleFollowsAgeRule(issue, now);
    CheckSimpleFollowsAgeRule(issue, later);
  }

  /** Who a prompt addresses: the assignees' mentions in the assigned shapes,
      the author's in the others. */
  lemma CommentAddressee(issue: Issue, now: Timestamp)
    requires CheckSimple(issue, now).status != Active
    ensures var c := CheckSimple(issue, now).comment.value;
      if IsAssigned(issue) then c[..4 + |issue.AssigneesStr()|] == "Hey " + issue.AssigneesStr()
      else c[..5 + |issue.author|] == "Hey @" + issue.author
  {
  }
}
