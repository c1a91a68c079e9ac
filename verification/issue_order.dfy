/** The ordering and filtering `prompt_issues` applies to the fetched issues:
    `issues.sort(key=lambda i: i.created)`, a stable sort that puts the
    OLDEST issue first, then the optional `[i for i in issues if i.assignees]`. */
module IssueOrder {
  import opened Types

  predicate SortedByCreated(xs: seq<Issue>) {
    forall j, k :: 0 <= j < k < |xs| ==> xs[j].created <= xs[k].created
  }

  /** Puts `x` before the first element not older than it, so that among equal
      creation times `x` stays in front of the elements it preceded. */
  function Insert(x: Issue, xs: seq<Issue>): (r: seq<Issue>)
    ensures multiset(r) == multiset(xs) + multiset{x}
    ensures |r| == |xs| + 1
    ensures r[0] == x || (|xs| > 0 && r[0] == xs[0])
    decreases |xs|
  {
    if |xs| == 0 || x.created <= xs[0].created then [x] + xs
    else
      assert xs == [xs[0]] + xs[1..];
      [xs[0]] + Insert(x, xs[1..])
  }

  lemma {:induction false} InsertSorted(x: Issue, xs: seq<Issue>)
    requires SortedByCreated(xs)
    ensures SortedByCreated(Insert(x, xs))
    decreases |xs|
  {
    if |xs| > 0 && x.created > xs[0].created {
      assert SortedByCreated(xs[1..]);
      InsertSorted(x, xs[1..]);
      InsertPast(x, xs);
      var rest := Insert(x, xs[1..]);
      forall k | 0 <= k < |rest| ensures xs[0].created <= rest[k].created {
        InsertMember(x, xs[1..], k);
      }
      assert Insert(x, xs) == [xs[0]] + rest;
    } else {
      InsertFront(x, xs);
    }
  }

  /** Every element of an insertion is the inserted issue or one of the list's. */
  lemma InsertMember(x: Issue, xs: seq<Issue>, k: nat)
    requires k < |Insert(x, xs)|
    ensures Insert(x, xs)[k] == x || Insert(x, xs)[k] in xs
  {
    var r := Insert(x, xs);
    assert r[k] in multiset(r);
  }

  /** `sorted(xs, key=created)`: Python's sort is stable. */
  function SortByCreated(xs: seq<Issue>): (r: seq<Issue>)
    ensures SortedByCreated(r)
    ensures multiset(r) == multiset(xs)
    decreases |xs|
  {
    if |xs| == 0 then []
    else
      assert xs == [xs[0]] + xs[1..];
      InsertSorted(xs[0], SortByCreated(xs[1..]));
      Insert(xs[0], SortByCreated(xs[1..]))
  }

  /** One step of the sort: the head is inserted into the sorted tail. */
  lemma SortCons(xs: seq<Issue>)
    requires |xs| > 0
    ensures SortByCreated(xs) == Insert(xs[0], SortByCreated(xs[1..]))
  {
  }

  lemma InsertFront(x: Issue, xs: seq<Issue>)
    requires |xs| == 0 || x.created <= xs[0].created
    ensures Insert(x, xs) == [x] + xs
  {
  }

  lemma InsertPast(x: Issue, xs: seq<Issue>)
    requires |xs| > 0 && x.created > xs[0].created
    ensures Insert(x, xs) == [xs[0]] + Insert(x, xs[1..])
  {
  }

  /** Three issues with distinct creation times, listed newest first and
      then oldest to middle, come out oldest first. */
  lemma SortThree(a: Issue, b: Issue, c: Issue)
    requires a.created < b.created < c.created
    ensures SortByCreated([c, a, b]) == [a, b, c]
  {
    SortCons([b]);
    assert [b][1..] == [];
    InsertFront(b, []);
    assert SortByCreated([b]) == [b];
    SortCons([a, b]);
    assert [a, b][1..] == [b];
    InsertFront(a, [b]);
    assert SortByCreated([a, b]) == [a, b];
    SortCons([c, a, b]);
    assert [c, a, b][1..] == [a, b];
    InsertPast(c, [a, b]);
    InsertPast(c, [b]);
    InsertFront(c, []);
  }

  /** Order-preserving selection. */
  function Filter(p: Issue -> bool, xs: seq<Issue>): (r: seq<Issue>)
    ensures |r| <= |xs|
    ensures forall k :: 0 <= k < |r| ==> p(r[k])
    ensures forall x :: x in r <==> x in xs && p(x)
    decreases |xs|
  {
    if |xs| == 0 then []
    else if p(xs[0]) then [xs[0]] + Filter(p, xs[1..])
    else Filter(p, xs[1..])
  }

  lemma {:induction false} FilterAppend(p: Issue -> bool, xs: seq<Issue>, ys: seq<Issue>)
    ensures Filter(p, xs + ys) == Filter(p, xs) + Filter(p, ys)
    decreases |xs|
  {
    if |xs| == 0 {
      assert xs + ys == ys;
    } else {
      assert (xs + ys)[0] == xs[0] && (xs + ys)[1..] == xs[1..] + ys;
      FilterAppend(p, xs[1..], ys);
    }
  }

  lemma FilterSingle(p: Issue -> bool, x: Issue)
    ensures Filter(p, [x]) == if p(x) then [x] else []
  {
    assert [x][1..] == [];
  }

  /** Whether an issue was created at instant `t`. */
  function CreatedAtTime(t: Timestamp): Issue -> bool {
    (i: Issue) => i.created == t
  }

  /** The issues created at instant `t`, in list order. */
  function CreatedAt(t: Timestamp, xs: seq<Issue>): seq<Issue> {
    Filter(CreatedAtTime(t), xs)
  }

  lemma {:induction false} InsertKeepsTies(x: Issue, xs: seq<Issue>, t: Timestamp)
    ensures CreatedAt(t, Insert(x, xs)) == (if x.created == t then [x] else []) + CreatedAt(t, xs)
    decreases |xs|
  {
    var p := CreatedAtTime(t);
    var mine := if x.created == t then [x] else [];
    if |xs| == 0 || x.created <= xs[0].created {
      InsertFront(x, xs);
      FilterSingle(p, x);
      FilterAppend(p, [x], xs);
      assert CreatedAt(t, Insert(x, xs)) == mine + CreatedAt(t, xs);
    } else {
      InsertKeepsTies(x, xs[1..], t);
      InsertPastKeepsTies(x, xs, t);
    }
  }

  /** The step of `InsertKeepsTies` where `x` goes past the head. */
  lemma InsertPastKeepsTies(x: Issue, xs: seq<Issue>, t: Timestamp)
    requires |xs| > 0 && x.created > xs[0].created
    requires CreatedAt(t, Insert(x, xs[1..])) == (if x.created == t then [x] else []) + CreatedAt(t, xs[1..])
    ensures CreatedAt(t, Insert(x, xs)) == (if x.created == t then [x] else []) + CreatedAt(t, xs)
  {
    var mine := if x.created == t then [x] else [];
    var head := CreatedAt(t, [xs[0]]);
    var tail := CreatedAt(t, xs[1..]);
    CreatedAtCons(t, xs);
    InsertPast(x, xs);
    CreatedAtCons(t, Insert(x, xs));
    assert Insert(x, xs)[0] == xs[0] && Insert(x, xs)[1..] == Insert(x, xs[1..]);
    assert head == [] || mine == [] by {
      FilterSingle(CreatedAtTime(t), xs[0]);
    }
    SwapEmpty(head, mine, tail);
  }

  /** The issues of a non-empty list created at `t`: its head's, then its tail's. */
  lemma CreatedAtCons(t: Timestamp, xs: seq<Issue>)
    requires |xs| > 0
    ensures CreatedAt(t, xs) == CreatedAt(t, [xs[0]]) + CreatedAt(t, xs[1..])
  {
    FilterAppend(CreatedAtTime(t), [xs[0]], xs[1..]);
    assert [xs[0]] + xs[1..] == xs;
  }

  lemma SwapEmpty(a: seq<Issue>, b: seq<Issue>, c: seq<Issue>)
    requires a == [] || b == []
    ensures a + (b + c) == b + (a + c)
  {
    if a == [] {
      assert a + (b + c) == b + c && a + c == c;
    } else {
      assert b + c == c && b + (a + c) == a + c;
    }
  }

  /** Stability: issues created at the same instant keep their fetched order. */
  lemma {:induction false} SortIsStable(xs: seq<Issue>, t: Timestamp)
    ensures CreatedAt(t, SortByCreated(xs)) == CreatedAt(t, xs)
    decreases |xs|
  {
    if |xs| > 0 {
      SortIsStable(xs[1..], t);
      SortCons(xs);
      InsertKeepsTies(xs[0], SortByCreated(xs[1..]), t);
      CreatedAtCons(t, xs);
      FilterSingle(CreatedAtTime(t), xs[0]);
      assert CreatedAt(t, [xs[0]]) == if xs[0].created == t then [xs[0]] else [];
    }
  }

  function HasAssignees(issue: Issue): bool {
    |issue.assignees| > 0
  }

  /** `[i for i in issues if i.assignees]`. */
  function OnlyAssigned(xs: seq<Issue>): (r: seq<Issue>)
    ensures forall k :: 0 <= k < |r| ==> |r[k].assignees| > 0
    ensures forall x :: x in r <==> x in xs && |x.assignees| > 0
  {
    Filter(HasAssignees, xs)
  }

  /** Filtering a list that starts with `x`. */
  lemma FilterCons(p: Issue -> bool, x: Issue, xs: seq<Issue>)
    ensures Filter(p, [x] + xs) == (if p(x) then [x] else []) + Filter(p, xs)
  {
    FilterAppend(p, [x], xs);
    FilterSingle(p, x);
  }

  /** Two filters can be applied in either order. */
  lemma {:induction false} FilterCommutes(p: Issue -> bool, q: Issue -> bool, xs: seq<Issue>)
    ensures Filter(p, Filter(q, xs)) == Filter(q, Filter(p, xs))
    decreases |xs|
  {
    if |xs| > 0 {
      var x := xs[0];
      FilterCommutes(p, q, xs[1..]);
      FilterCons(q, x, xs[1..]);
      FilterCons(p, x, xs[1..]);
      assert [x] + xs[1..] == xs;
      if q(x) {
        FilterCons(p, x, Filter(q, xs[1..]));
      } else {
        assert [] + Filter(q, xs[1..]) == Filter(q, xs[1..]);
      }
      if p(x) {
        FilterCons(q, x, Filter(p, xs[1..]));
      } else {
        assert [] + Filter(p, xs[1..]) == Filter(p, xs[1..]);
      }
    }
  }

  /** How often a filter keeps an issue: as often as the list holds it, or never. */
  lemma {:induction false} FilterCount(p: Issue -> bool, xs: seq<Issue>, x: Issue)
    ensures multiset(Filter(p, xs))[x] == if p(x) then multiset(xs)[x] else 0
    decreases |xs|
  {
    if |xs| > 0 {
      FilterCount(p, xs[1..], x);
      FilterCons(p, xs[0], xs[1..]);
      assert [xs[0]] + xs[1..] == xs;
      assert multiset(xs) == multiset{xs[0]} + multiset(xs[1..]);
    }
  }

  /** Filtering two permutations of each other gives permutations of each other. */
  lemma FilterPermutation(p: Issue -> bool, xs: seq<Issue>, ys: seq<Issue>)
    requires multiset(xs) == multiset(ys)
    ensures multiset(Filter(p, xs)) == multiset(Filter(p, ys))
  {
    forall x ensures multiset(Filter(p, xs))[x] == multiset(Filter(p, ys))[x] {
      FilterCount(p, xs, x);
      FilterCount(p, ys, x);
    }
  }

  /** Sorting before the filter to assigned issues loses no copies and keeps
      the fetched order of issues created at the same instant. */
  lemma OnlyAssignedAfterSort(xs: seq<Issue>, t: Timestamp)
    ensures multiset(OnlyAssigned(SortByCreated(xs))) == multiset(OnlyAssigned(xs))
    ensures CreatedAt(t, OnlyAssigned(SortByCreated(xs))) == CreatedAt(t, OnlyAssigned(xs))
  {
    var sorted := SortByCreated(xs);
    FilterPermutation(HasAssignees, sorted, xs);
    FilterCommutes(CreatedAtTime(t), HasAssignees, sorted);
    SortIsStable(xs, t);
    FilterCommutes(CreatedAtTime(t), HasAssignees, xs);
  }

  /** Filtering keeps the sorted order. */
  lemma {:induction false} FilterKeepsSorted(p: Issue -> bool, xs: seq<Issue>)
    requires SortedByCreated(xs)
    ensures SortedByCreated(Filter(p, xs))
    decreases |xs|
  {
    if |xs| > 0 {
      assert SortedByCreated(xs[1..]);
      FilterKeepsSorted(p, xs[1..]);
      var rest := Filter(p, xs[1..]);
      if p(xs[0]) {
        forall k | 0 <= k < |rest| ensures xs[0].created <= rest[k].created {
          assert rest[k] in xs[1..];
        }
      }
    }
  }
}
