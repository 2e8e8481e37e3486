/** The state logic of the project assistant's issue tracker: the list of
    issues, the creation form, and the status filter and search box that
    select which issues are shown. Every operation is a pure transition on
    an immutable `Tracker`. */
module Issues {
  import opened Optional
  import opened JsString

  datatype Status = Open | InProgress | Resolved
  datatype Priority = Low | Medium | High
  datatype Category = Bug | Feature | Question | Help

  /** The string the UI uses for a status; the status filter compares
      against it. */
  function StatusName(s: Status): string {
    match s
    case Open => "open"
    case InProgress => "in-progress"
    case Resolved => "resolved"
  }

  /** Distinct statuses have distinct names, none of which is "all". */
  lemma StatusNameInjective(a: Status, b: Status)
    ensures StatusName(a) == StatusName(b) <==> a == b
    ensures StatusName(a) != AllStatuses
  {
  }

  /** The filter value that lets every status through. */
  const AllStatuses: string := "all"

  /** A support issue. Times are milliseconds since the epoch, as read from
      the clock when the issue is built. */
  datatype Issue = Issue(
    id: string,
    title: string,
    description: string,
    status: Status,
    priority: Priority,
    category: Category,
    createdAt: int,
    updatedAt: int,
    files: Option<seq<string>>,
    solution: Option<string>)

  /** The fields of the creation form. */
  datatype Form = Form(title: string, description: string, category: Category, priority: Priority)

  /** The form as it starts out and as it is left after a successful create. */
  const DefaultForm: Form := Form("", "", Question, Medium)

  /** The component's state: the issues (newest first), the form, the
      selected status filter and the search box's contents. */
  datatype Tracker = Tracker(issues: seq<Issue>, form: Form, statusFilter: string, searchTerm: string)

  /** The tracker as the component starts: the given issues, an empty
      form, every status and an empty search box. */
  function InitialTracker(issues: seq<Issue>): Tracker {
    Tracker(issues, DefaultForm, AllStatuses, "")
  }

  // ---------------------------------------------------------------------
  // Filtering

  /** The predicate the issue list is filtered with: the status test, and a
      case-insensitive search of the title or the description. */
  predicate Matches(issue: Issue, statusFilter: string, term: string) {
    && (statusFilter == AllStatuses || StatusName(issue.status) == statusFilter)
    && (|| Includes(ToLower(issue.title), ToLower(term))
        || Includes(ToLower(issue.description), ToLower(term)))
  }

  /** What it means for an issue to be selected: the filter is "all" or
      names the issue's status, and the lower-cased term occurs somewhere in
      the lower-cased title or the lower-cased description. */
  ghost predicate Selected(issue: Issue, statusFilter: string, term: string) {
    && (statusFilter == AllStatuses || StatusName(issue.status) == statusFilter)
    && ((exists k :: OccursAt(ToLower(issue.title), ToLower(term), k))
        || (exists k :: OccursAt(ToLower(issue.description), ToLower(term), k)))
  }

  /** `a` is `b` with some elements dropped, the rest kept in order. */
  ghost predicate IsSubsequence<T>(a: seq<T>, b: seq<T>)
    decreases |b|
  {
    if a == [] then true
    else if b == [] then false
    else (a[0] == b[0] && IsSubsequence(a[1..], b[1..])) || IsSubsequence(a, b[1..])
  }

  /** The issues shown for a status filter and a search term: every
      occurrence of a selected issue, in the list's order, and nothing
      else. */
  function FilterIssues(issues: seq<Issue>, statusFilter: string, term: string): (r: seq<Issue>)
    ensures IsSubsequence(r, issues)
    ensures forall x :: x in r <==> x in issues && Selected(x, statusFilter, term)
    ensures |r| <= |issues|
    ensures forall x :: multiset(r)[x] == (if Selected(x, statusFilter, term) then multiset(issues)[x] else 0)
  {
    if issues == [] then []
    else
      var rest := FilterIssues(issues[1..], statusFilter, term);
      assert issues == [issues[0]] + issues[1..];
      if Matches(issues[0], statusFilter, term) then [issues[0]] + rest else rest
  }

  /** The issues the tracker currently shows. */
  function Visible(t: Tracker): seq<Issue> {
    FilterIssues(t.issues, t.statusFilter, t.searchTerm)
  }

  /** Filtering what a filter returned changes nothing. */
  lemma {:induction false} FilterIdempotent(issues: seq<Issue>, statusFilter: string, term: string)
    ensures FilterIssues(FilterIssues(issues, statusFilter, term), statusFilter, term)
            == FilterIssues(issues, statusFilter, term)
  {
    if issues != [] {
      FilterIdempotent(issues[1..], statusFilter, term);
      var rest := FilterIssues(issues[1..], statusFilter, term);
      if Matches(issues[0], statusFilter, term) {
        assert ([issues[0]] + rest)[1..] == rest;
      }
    }
  }

  /** With the filter at "all" and an empty search box every issue is shown,
      in its original order. */
  lemma {:induction false} FilterAllEmptyIsIdentity(issues: seq<Issue>)
    ensures FilterIssues(issues, AllStatuses, "") == issues
  {
    if issues != [] {
      IncludesEmpty(ToLower(issues[0].title));
      FilterAllEmptyIsIdentity(issues[1..]);
      assert [issues[0]] + issues[1..] == issues;
    }
  }

  /** The tracker starts out showing every issue. */
  lemma InitiallyAllVisible(issues: seq<Issue>)
    ensures Visible(InitialTracker(issues)) == issues
  {
    FilterAllEmptyIsIdentity(issues);
  }

  /** A filter value other than "all" only lets issues of that status
      through; one that names no status lets nothing through. */
  lemma FilterByStatus(issues: seq<Issue>, statusFilter: string, term: string)
    requires statusFilter != AllStatuses
    ensures forall x :: x in FilterIssues(issues, statusFilter, term) ==> StatusName(x.status) == statusFilter
    ensures (forall st :: StatusName(st) != statusFilter) ==> FilterIssues(issues, statusFilter, term) == []
  {
    var r := FilterIssues(issues, statusFilter, term);
    if (forall st :: StatusName(st) != statusFilter) && r != [] {
      assert r[0] in r;
    }
  }

  /** With an empty search box and a status filter, exactly the issues of
      that status are shown, in order. */
  lemma {:induction false} FilterStatusOnly(issues: seq<Issue>, st: Status)
    ensures FilterIssues(issues, StatusName(st), "")
            == Keep(issues, (x: Issue) => x.status == st)
  {
    if issues != [] {
      var p := (x: Issue) => x.status == st;
      IncludesEmpty(ToLower(issues[0].title));
      StatusNameInjective(issues[0].status, st);
      assert Matches(issues[0], StatusName(st), "") == p(issues[0]);
      FilterStatusOnly(issues[1..], st);
      assert Keep(issues, p) == (if p(issues[0]) then [issues[0]] else []) + Keep(issues[1..], p);
    }
  }

  /** The elements of `s` that satisfy `p`, in order (a reference filter). */
  function Keep<T>(s: seq<T>, p: T -> bool): (r: seq<T>)
    ensures forall x :: x in r ==> x in s && p(x)
  {
    if s == [] then [] else (if p(s[0]) then [s[0]] else []) + Keep(s[1..], p)
  }

  // ---------------------------------------------------------------------
  // Creating an issue

  /** `handleCreateIssue`: when both the title and the description hold
      something besides white space, prepend an open issue built from the
      form and reset the form. `idClock` is the `Date.now()` reading that
      becomes the id; `createdAt` and `updatedAt` are two further clock
      readings. */
  function CreateIssue(t: Tracker, idClock: nat, createdAt: int, updatedAt: int): (r: Tracker)
    ensures IsBlank(t.form.title) || IsBlank(t.form.description) ==> r == t
    ensures !IsBlank(t.form.title) && !IsBlank(t.form.description) ==>
      && |r.issues| == |t.issues| + 1
      && r.issues[1..] == t.issues
      && var n := r.issues[0];
      && n.id == DecimalString(idClock)
      && n.status == Open
      && n.title == t.form.title
      && n.description == t.form.description
      && n.category == t.form.category
      && n.priority == t.form.priority
      && n.createdAt == createdAt && n.updatedAt == updatedAt
      && n.files == None && n.solution == None
      && r.form == Form("", "", Question, Medium)
      && r.statusFilter == t.statusFilter && r.searchTerm == t.searchTerm
  {
    TrimEmptyIffBlank(t.form.title, WhiteSpace);
    TrimEmptyIffBlank(t.form.description, WhiteSpace);
    if Trim(t.form.title, WhiteSpace) == [] || Trim(t.form.description, WhiteSpace) == [] then t
    else
      var f := t.form;
      var issue := Issue(DecimalString(idClock), f.title, f.description, Open,
                         f.priority, f.category, createdAt, updatedAt, None, None);
      t.(issues := [issue] + t.issues, form := DefaultForm)
  }

  /** A successful create shows the new issue on top exactly when the
      current filter selects it; the rest of the view is as before. */
  lemma CreateThenFilter(t: Tracker, idClock: nat, createdAt: int, updatedAt: int)
    requires !IsBlank(t.form.title) && !IsBlank(t.form.description)
    ensures var r := CreateIssue(t, idClock, createdAt, updatedAt);
      Visible(r) == (if Selected(r.issues[0], t.statusFilter, t.searchTerm) then [r.issues[0]] else []) + Visible(t)
  {
  }

  // ---------------------------------------------------------------------
  // The tracker as a state machine

  /** The user's actions on the tracker. */
  datatype Event =
    | EditTitle(title: string)
    | EditDescription(description: string)
    | SelectCategory(category: Category)
    | SelectPriority(priority: Priority)
    | SelectStatusFilter(statusFilter: string)
    | EditSearch(searchTerm: string)
    | Create(idClock: nat, createdAt: int, updatedAt: int)

  /** One action. Only `Create` touches the issue list. */
  function Step(t: Tracker, e: Event): (r: Tracker)
    ensures e.Create? || r.issues == t.issues
    ensures r.issues == t.issues || (|r.issues| == |t.issues| + 1 && r.issues[1..] == t.issues)
  {
    match e
    case EditTitle(v) => t.(form := t.form.(title := v))
    case EditDescription(v) => t.(form := t.form.(description := v))
    case SelectCategory(c) => t.(form := t.form.(category := c))
    case SelectPriority(p) => t.(form := t.form.(priority := p))
    case SelectStatusFilter(f) => t.(statusFilter := f)
    case EditSearch(s) => t.(searchTerm := s)
    case Create(clock, c, u) => CreateIssue(t, clock, c, u)
  }

  /** A run of actions, first to last. */
  function Run(t: Tracker, es: seq<Event>): Tracker
    decreases |es|
  {
    if es == [] then t else Run(Step(t, es[0]), es[1..])
  }

  /** How many of the actions are creates. */
  function CreateCount(es: seq<Event>): nat {
    if es == [] then 0 else (if es[0].Create? then 1 else 0) + CreateCount(es[1..])
  }

  /** Issues are never edited or removed: whatever the user does, the old
      list stays at the end of the new one, and it grows by at most one
      issue per create. */
  lemma {:induction false} RunOnlyPrepends(t: Tracker, es: seq<Event>)
    ensures var r := Run(t, es);
      && |t.issues| <= |r.issues| <= |t.issues| + CreateCount(es)
      && r.issues[|r.issues| - |t.issues|..] == t.issues
    decreases |es|
  {
    if es != [] {
      var s := Step(t, es[0]);
      RunOnlyPrepends(s, es[1..]);
      var r := Run(t, es);
      assert r == Run(s, es[1..]);
      assert |s.issues| <= |t.issues| + (if es[0].Create? then 1 else 0);
      var tail := r.issues[|r.issues| - |s.issues|..];
      assert tail == s.issues;
      assert tail[|s.issues| - |t.issues|..] == r.issues[|r.issues| - |t.issues|..];
    }
  }

  /** Every issue that carries a solution is resolved. */
  ghost predicate SolutionsResolved(issues: seq<Issue>) {
    forall i :: 0 <= i < |issues| ==> issues[i].solution.Some? ==> issues[i].status == Resolved
  }

  /** No action breaks the rule that only resolved issues carry a solution. */
  lemma {:induction false} RunKeepsSolutionsResolved(t: Tracker, es: seq<Event>)
    requires SolutionsResolved(t.issues)
    ensures SolutionsResolved(Run(t, es).issues)
    decreases |es|
  {
    if es != [] {
      var s := Step(t, es[0]);
      if s.issues != t.issues {
        forall i | 0 <= i < |s.issues| && s.issues[i].solution.Some?
          ensures s.issues[i].status == Resolved
        {
          assert i != 0;
          assert s.issues[i] == t.issues[i - 1];
        }
      }
      RunKeepsSolutionsResolved(s, es[1..]);
    }
  }
}
