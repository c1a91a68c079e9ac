/** The entities of the prompter: the string-valued enums, the status a
    check produces, and the issue with its comments.  Timestamps are whole
    seconds on one time line (see module DateTimes); every entity is an
    immutable value, as the Python dataclasses are never mutated. */
module Types {
  import opened Wrappers
  import opened Text

  // ---------------------------------------------------------------------------
  // string-valued enums
  // ---------------------------------------------------------------------------

  /** `EnumClass(s)`: the variant whose value is exactly `s`, if any. */
  function Lookup<T(==)>(variants: seq<T>, value: T -> string, s: string): (r: Option<T>)
    ensures r.Some? ==> r.value in variants && value(r.value) == s
    ensures r.None? ==> forall v :: v in variants ==> value(v) != s
    decreases |variants|
  {
    if |variants| == 0 then None
    else if value(variants[0]) == s then Some(variants[0])
    else Lookup(variants[1..], value, s)
  }

  /** How an issue is checked. */
  datatype IssueCheckMode = Simple | Ai {

    function Value(): string {
      match this
      case Simple => "simple"
      case Ai => "ai"
    }

    /** `str(mode)`: the lower-case value, which looks the variant up again. */
    function ToString(): (r: string)
      ensures IsLower(r)
      ensures IssueCheckMode.ByValue(r) == Some(this)
    {
      Value()
    }

    /** `IssueCheckMode(s)`: exact, case-sensitive lookup; `None` is Python's ValueError. */
    static function ByValue(s: string): (r: Option<IssueCheckMode>)
      ensures forall v: IssueCheckMode :: r == Some(v) <==> v.Value() == s
    {
      Lookup([Simple, Ai], (v: IssueCheckMode) => v.Value(), s)
    }

    /** `IssueCheckMode.from_str(s)`: lookup of `s.lower()`. */
    static function FromStr(s: string): (r: Option<IssueCheckMode>)
      ensures forall v: IssueCheckMode :: r == Some(v) <==> v.Value() == Lower(s)
    {
      ByValue(Lower(s))
    }
  }

  /** Which checked outcomes are posted as comments. */
  datatype PostCommentsOptions = PostNone | PostStale | PostFree | PostAll {

    function Value(): string {
      match this
      case PostNone => "none"
      case PostStale => "stale"
      case PostFree => "free"
      case PostAll => "all"
    }

    function ToString(): (r: string)
      ensures IsLower(r)
      ensures PostCommentsOptions.ByValue(r) == Some(this)
    {
      Value()
    }

    static function ByValue(s: string): (r: Option<PostCommentsOptions>)
      ensures forall v: PostCommentsOptions :: r == Some(v) <==> v.Value() == s
    {
      Lookup([PostNone, PostStale, PostFree, PostAll], (v: PostCommentsOptions) => v.Value(), s)
    }

    static function FromStr(s: string): (r: Option<PostCommentsOptions>)
      ensures forall v: PostCommentsOptions :: r == Some(v) <==> v.Value() == Lower(s)
    {
      ByValue(Lower(s))
    }
  }

  /** The verdict on one issue. */
  datatype Status = Active | Stale | Free | Error {

    function Value(): string {
      match this
      case Active => "active"
      case Stale => "stale"
      case Free => "free"
      case Error => "error"
    }

    function ToString(): (r: string)
      ensures IsLower(r)
      ensures Status.ByValue(r) == Some(this)
    {
      Value()
    }

    static function ByValue(s: string): (r: Option<Status>)
      ensures forall v: Status :: r == Some(v) <==> v.Value() == s
    {
      Lookup([Active, Stale, Free, Error], (v: Status) => v.Value(), s)
    }

    static function FromStr(s: string): (r: Option<Status>)
      ensures forall v: Status :: r == Some(v) <==> v.Value() == Lower(s)
    {
      ByValue(Lower(s))
    }
  }

  /** `from_str` ignores case: the upper-cased value finds its variant. */
  lemma StatusFromStrIgnoresCase(v: Status)
    ensures Status.FromStr(Upper(v.Value())) == Some(v)
  {
    var s := v.ToString();
    LowerOfUpper(s);
    assert Lower(Upper(s)) == s;
  }

  lemma PostCommentsOptionsFromStrIgnoresCase(v: PostCommentsOptions)
    ensures PostCommentsOptions.FromStr(Upper(v.Value())) == Some(v)
  {
    var s := v.ToString();
    LowerOfUpper(s);
    assert Lower(Upper(s)) == s;
  }

  lemma IssueCheckModeFromStrIgnoresCase(v: IssueCheckMode)
    ensures IssueCheckMode.FromStr(Upper(v.Value())) == Some(v)
  {
    var s := v.ToString();
    LowerOfUpper(s);
    assert Lower(Upper(s)) == s;
  }

  // ---------------------------------------------------------------------------
  // status and issue records
  // ---------------------------------------------------------------------------

  /** Seconds on the time line of module DateTimes. */
  type Timestamp = int

  /** A status with an optional reason and an optional suggested comment. */
  datatype IssueStatus = IssueStatus(status: Status, reason: Option<string>, comment: Option<string>)

  /** `IssueStatus(status=s)`: reason and comment take their `None` defaults. */
  function StatusOnly(status: Status): IssueStatus {
    IssueStatus(status, None, None)
  }

  datatype IssueComment = IssueComment(author: string, body: string, updated: Timestamp)

  /** An issue; `comments` are newest first. */
  datatype Issue = Issue(
    organisation: string,
    repository: string,
    number: int,
    title: string,
    author: string,
    body: string,
    created: Timestamp,
    updated: Timestamp,
    assignees: seq<string>,
    comments: seq<IssueComment>)
  {
    /** `repr(issue)`, the URL part that names the issue. */
    function Path(): string {
      organisation + "/" + repository + "/issues/" + IntToDecimal(number)
    }

    /** `issue.assignees_str`. */
    function AssigneesStr(): string {
      AssigneesText(assignees)
    }
  }

  // ---------------------------------------------------------------------------
  // assignee mentions
  // ---------------------------------------------------------------------------

  function Mentions(logins: seq<string>): (r: seq<string>)
    ensures |r| == |logins|
    ensures forall i :: 0 <= i < |logins| ==> r[i] == "@" + logins[i]
  {
    seq(|logins|, i requires 0 <= i < |logins| => "@" + logins[i])
  }

  /** `", ".join(f"@{a}" for a in logins)`. */
  function AssigneesText(logins: seq<string>): (r: string)
    ensures |logins| == 0 ==> r == ""
    ensures |logins| == 1 ==> r == "@" + logins[0]
  {
    Join(Mentions(logins), ", ")
  }

  /** Each further assignee adds `", @login"` after the first mention. */
  lemma AssigneesTextCons(logins: seq<string>)
    requires |logins| >= 2
    ensures AssigneesText(logins) == "@" + logins[0] + ", " + AssigneesText(logins[1..])
  {
    assert Mentions(logins)[1..] == Mentions(logins[1..]);
  }

  /** Reads a mention list back: the first piece is `@x`, every later one ` @x`. */
  function ParseAssignees(s: string): Option<seq<string>> {
    if s == "" then Some([])
    else
      var pieces := Split(s, ',');
      if |pieces[0]| >= 1 && pieces[0][0] == '@' then
        match ParseLaterMentions(pieces[1..])
        case Some(rest) => Some([pieces[0][1..]] + rest)
        case None => None
      else None
  }

  function ParseLaterMentions(pieces: seq<string>): Option<seq<string>>
    decreases |pieces|
  {
    if |pieces| == 0 then Some([])
    else if |pieces[0]| >= 2 && pieces[0][..2] == " @" then
      match ParseLaterMentions(pieces[1..])
      case Some(rest) => Some([pieces[0][2..]] + rest)
      case None => None
    else None
  }

  lemma {:induction false} LaterMentionsRoundTrip(logins: seq<string>)
    ensures ParseLaterMentions(Prefixed(" ", Mentions(logins))) == Some(logins)
    decreases |logins|
  {
    if |logins| > 0 {
      var pieces := Prefixed(" ", Mentions(logins));
      assert pieces[0] == " " + ("@" + logins[0]);
      assert pieces[0][..2] == " @" && pieces[0][2..] == logins[0];
      assert pieces[1..] == Prefixed(" ", Mentions(logins[1..]));
      LaterMentionsRoundTrip(logins[1..]);
      assert [logins[0]] + logins[1..] == logins;
    }
  }

  /** Splitting the mention list at commas gives `@x` and then ` @x` pieces. */
  lemma AssigneesPieces(logins: seq<string>)
    requires |logins| > 0
    requires forall i :: 0 <= i < |logins| ==> ',' !in logins[i]
    ensures Split(AssigneesText(logins), ',') == ["@" + logins[0]] + Prefixed(" ", Mentions(logins[1..]))
  {
    var ms := Mentions(logins);
    assert NoPartContains(ms, ',') by {
      forall i | 0 <= i < |ms| ensures ',' !in ms[i] {
        assert ms[i] == "@" + logins[i];
      }
    }
    assert ", " == [','] + " ";
    SplitJoin(ms, ',', " ");
    assert ms[1..] == Mentions(logins[1..]);
  }

  /** The mention list can be read back whenever no login holds a comma
      (GitHub logins never do): the rendering loses nothing and keeps order. */
  lemma AssigneesRoundTrip(logins: seq<string>)
    requires forall i :: 0 <= i < |logins| ==> ',' !in logins[i]
    ensures ParseAssignees(AssigneesText(logins)) == Some(logins)
  {
    if |logins| > 0 {
      var s := AssigneesText(logins);
      AssigneesPieces(logins);
      var pieces := Split(s, ',');
      assert s != "" by {
        assert |Join(Mentions(logins), ", ")| >= |Mentions(logins)[0]|;
      }
      assert pieces[0] == "@" + logins[0];
      assert pieces[0][1..] == logins[0];
      assert pieces[1..] == Prefixed(" ", Mentions(logins[1..]));
      LaterMentionsRoundTrip(logins[1..]);
      assert [logins[0]] + logins[1..] == logins;
    }
  }

  // ---------------------------------------------------------------------------
  // issue paths
  // ---------------------------------------------------------------------------

  datatype IssueRef = IssueRef(organisation: string, repository: string, number: int)

  /** Reads `org/repo/issues/N` back into its three parts. */
  function ParseIssuePath(s: string): Option<IssueRef> {
    var parts := Split(s, '/');
    if |parts| == 4 && parts[2] == "issues" then
      match ParseInt(parts[3])
      case Some(n) => Some(IssueRef(parts[0], parts[1], n))
      case None => None
    else None
  }

  /** An issue's path names it: owner, repository and number come back out,
      as long as owner and repository hold no `/` (GitHub names never do). */
  lemma PathRoundTrip(issue: Issue)
    requires '/' !in issue.organisation && '/' !in issue.repository
    ensures ParseIssuePath(issue.Path()) == Some(IssueRef(issue.organisation, issue.repository, issue.number))
  {
    var digits := IntToDecimal(issue.number);
    IntToDecimalChars(issue.number);
    IntToDecimalRoundTrip(issue.number);
    assert forall k :: 0 <= k < |digits| ==> digits[k] != '/';
    assert '/' !in digits;
    var parts := [issue.organisation, issue.repository, "issues", digits];
    assert NoPartContains(parts, '/');
    assert parts[1..] == [issue.repository, "issues", digits];
    assert parts[1..][1..] == ["issues", digits];
    assert parts[1..][1..][1..] == [digits];
    assert Join(["issues", digits], "/") == "issues" + "/" + digits;
    assert Join(parts[1..], "/") == issue.repository + "/" + ("issues" + "/" + digits);
    assert Join(parts, "/") == issue.organisation + "/" + (issue.repository + "/" + ("issues" + "/" + digits));
    assert "/issues/" == "/" + "issues" + "/";
    assert Join(parts, "/") == issue.Path();
    SplitJoinPlain(parts, '/');
  }
}
