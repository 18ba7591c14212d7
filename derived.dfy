/** What `TodoApp` derives from the task list without changing it: the
    search/status filter, the progress statistics and the due-date reminders. */
module Derived {
  import opened Tasks
  import opened Text
  import opened Seqs

  /** The strings the filter compares the status with. */
  const SelectorValues: set<string> := {"all", "completed", "uncompleted", "dueToday", "overdue"}

  /** A status string the filter does not compare with. */
  type UnknownStatus = s: string | s !in SelectorValues witness ""

  /** The status the filter sees: one of the strings it compares with, or
      any other string, which falls through to the search alone. */
  datatype FilterStatus = All | Completed | Uncompleted | DueToday | Overdue | Other(value: UnknownStatus)

  /** The string a status stands for. */
  function StatusName(status: FilterStatus): string
  {
    match status
    case All => "all"
    case Completed => "completed"
    case Uncompleted => "uncompleted"
    case DueToday => "dueToday"
    case Overdue => "overdue"
    case Other(value) => value
  }

  /** Reads `filterStatus` as the chain of comparisons does: each of the five
      strings selects its own case, any other string is `Other`. Every string
      reads as exactly one status, which stands for that string again. */
  function StatusOf(s: string): (status: FilterStatus)
    ensures status.Other? <==> s !in SelectorValues
    ensures StatusName(status) == s
  {
    if s == "all" then All
    else if s == "completed" then Completed
    else if s == "uncompleted" then Uncompleted
    else if s == "dueToday" then DueToday
    else if s == "overdue" then Overdue
    else Other(s)
  }

  /** Reading back the string a status stands for gives that status. */
  lemma StatusRoundTrip(status: FilterStatus)
    ensures StatusOf(StatusName(status)) == status
  {
  }

  /** Case-insensitive search: the lower-cased term occurs in the lower-cased name. */
  predicate MatchesSearch(t: Task, term: string)
  {
    Includes(Lower(t.name), Lower(term))
  }

  /** The filter callback: search match, and the status condition. Day
      comparisons with a date whose time value is NaN are false. */
  predicate Visible(t: Task, term: string, status: FilterStatus, today: int)
  {
    match status
    case All => MatchesSearch(t, term)
    case Completed => MatchesSearch(t, term) && t.completed
    case Uncompleted => MatchesSearch(t, term) && !t.completed
    case DueToday => MatchesSearch(t, term) && !t.completed && t.date.Day? && t.date.day == today
    case Overdue => MatchesSearch(t, term) && !t.completed && t.date.Day? && t.date.day < today
    case Other(_) => MatchesSearch(t, term)
  }

  /** The visible tasks, in list order. */
  function FilteredTasks(ts: seq<Task>, term: string, status: FilterStatus, today: int): seq<Task>
  {
    Filter(ts, (t: Task) => Visible(t, term, status, today))
  }

  /** The filtered view is an order-preserving subsequence of the list, and
      holds exactly the tasks that pass the search and the chosen status,
      every copy of each. */
  lemma FilteredSpec(ts: seq<Task>, term: string, status: FilterStatus, today: int)
    ensures IsSubsequence(FilteredTasks(ts, term, status, today), ts)
    ensures forall t :: multiset(FilteredTasks(ts, term, status, today))[t] ==
             (if Visible(t, term, status, today) then multiset(ts)[t] else 0)
    ensures status.Completed? ==>
      forall t :: t in FilteredTasks(ts, term, status, today) <==> t in ts && MatchesSearch(t, term) && t.completed
    ensures status.Uncompleted? ==>
      forall t :: t in FilteredTasks(ts, term, status, today) <==> t in ts && MatchesSearch(t, term) && !t.completed
    ensures status.DueToday? ==>
      forall t :: t in FilteredTasks(ts, term, status, today) <==>
        t in ts && MatchesSearch(t, term) && !t.completed && t.date == Day(today)
    ensures status.Overdue? ==>
      forall t :: t in FilteredTasks(ts, term, status, today) <==>
        t in ts && MatchesSearch(t, term) && !t.completed && t.date.Day? && t.date.day < today
    ensures status.All? || status.Other? ==>
      forall t :: t in FilteredTasks(ts, term, status, today) <==> t in ts && MatchesSearch(t, term)
  {
    FilterIsSubsequence(ts, (t: Task) => Visible(t, term, status, today));
    forall t ensures t in FilteredTasks(ts, term, status, today) <==> t in ts && Visible(t, term, status, today) {
      FilterMembers(ts, (t: Task) => Visible(t, term, status, today), t);
    }
    forall t ensures multiset(FilteredTasks(ts, term, status, today))[t] ==
             (if Visible(t, term, status, today) then multiset(ts)[t] else 0)
    {
      FilterCounts(ts, (t: Task) => Visible(t, term, status, today), t);
    }
  }

  /** An empty search term matches every name. */
  lemma EmptyTermMatches(t: Task)
    ensures MatchesSearch(t, "")
  {
    IncludesIffOccurs(Lower(t.name), Lower(""));
    assert OccursAt(Lower(t.name), Lower(""), 0);
  }

  /** Status "all" with an empty search shows the whole list, in order; so does
      any status the selector does not offer. */
  lemma FilteredAllIsEverything(ts: seq<Task>, status: FilterStatus, today: int)
    requires status.All? || status.Other?
    ensures FilteredTasks(ts, "", status, today) == ts
  {
    forall i | 0 <= i < |ts| ensures Visible(ts[i], "", status, today) {
      EmptyTermMatches(ts[i]);
    }
    FilterKeepsAll(ts, (t: Task) => Visible(t, "", status, today));
  }

  /** A status string the filter does not compare with filters by the search
      alone, as "all" does. */
  lemma UnknownStatusIsAll(ts: seq<Task>, term: string, s: string, today: int)
    requires s !in SelectorValues
    ensures FilteredTasks(ts, term, StatusOf(s), today) == FilteredTasks(ts, term, All, today)
  {
    FilterAgrees(ts, (t: Task) => Visible(t, term, StatusOf(s), today), (t: Task) => Visible(t, term, All, today));
  }

  /** The progress figures shown above the list. */
  datatype Stats = Stats(total: nat, completedCount: nat, activeCount: nat, completionRate: nat)

  /** `Math.round(part / whole * 100)` on exact rationals, rounding halves up;
      0 when `whole` is 0. The result is the integer nearest to
      100 * part / whole, and a share of the whole gives 0..100. */
  function RoundedPercent(part: nat, whole: nat): (r: nat)
    ensures whole == 0 ==> r == 0
    ensures whole > 0 ==> -(whole as int) <= 2 * (100 * part - r * whole) < whole
    ensures part <= whole ==> r <= 100
    ensures 0 < whole == part ==> r == 100
  {
    if whole == 0 then 0
    else
      var r := (200 * part + whole) / (2 * whole);
      RoundingBounds(part, whole, r);
      r
  }

  /** The facts about the quotient that `RoundedPercent` promises. */
  lemma RoundingBounds(part: nat, whole: nat, r: int)
    requires whole > 0 && r == (200 * part + whole) / (2 * whole)
    ensures -(whole as int) <= 2 * (100 * part - r * whole) < whole
    ensures part <= whole ==> r <= 100
    ensures part == whole ==> r == 100
  {
    var d := 2 * whole;
    var m := (200 * part + whole) % d;
    assert 200 * part + whole == r * d + m && 0 <= m < d;
    assert r * d == 2 * (r * whole);
    assert 2 * (100 * part - r * whole) == m - whole;
    if part <= whole {
      QuotientAtMost(200 * part + whole, d, 100);
    }
    if part == whole {
      QuotientAtLeast(200 * part + whole, d, 100);
    }
  }

  /** A numerator below (q + 1) * d gives a quotient of at most q. */
  lemma QuotientAtMost(n: nat, d: nat, q: nat)
    requires d > 0 && n < (q + 1) * d
    ensures n / d <= q
  {
    var r := n / d;
    assert n == r * d + n % d;
  }

  /** A numerator of at least q * d gives a quotient of at least q. */
  lemma QuotientAtLeast(n: nat, d: nat, q: nat)
    requires d > 0 && q * d <= n
    ensures q <= n / d
  {
    var r := n / d;
    assert n == r * d + n % d && n % d < d;
    assert q * d < (r + 1) * d;
  }

  /** The statistics: total, completed and active counts, completion rate. */
  function Statistics(ts: seq<Task>): (r: Stats)
    ensures r.total == |ts|
    ensures r.completedCount == |Filter(ts, (t: Task) => t.completed)|
    ensures r.activeCount == |Filter(ts, (t: Task) => !t.completed)|
    ensures r.completionRate == RoundedPercent(r.completedCount, r.total)
    ensures r.completedCount + r.activeCount == r.total
    ensures r.completionRate <= 100
    ensures ts == [] ==> r.completionRate == 0
    ensures ts != [] && (forall i :: 0 <= i < |ts| ==> ts[i].completed) ==> r.completionRate == 100
    ensures (forall i :: 0 <= i < |ts| ==> !ts[i].completed) ==> r.completedCount == 0 && r.completionRate == 0
  {
    var done := |Filter(ts, (t: Task) => t.completed)|;
    var active := |Filter(ts, (t: Task) => !t.completed)|;
    CountsPartition(ts);
    Stats(|ts|, done, active, RoundedPercent(done, |ts|))
  }

  /** The completed and the active tasks together are all the tasks; when all
      are of one kind the other count is zero. */
  lemma CountsPartition(ts: seq<Task>)
    ensures |Filter(ts, (t: Task) => t.completed)| + |Filter(ts, (t: Task) => !t.completed)| == |ts|
    ensures (forall i :: 0 <= i < |ts| ==> ts[i].completed) ==> |Filter(ts, (t: Task) => t.completed)| == |ts|
    ensures (forall i :: 0 <= i < |ts| ==> !ts[i].completed) ==> |Filter(ts, (t: Task) => !t.completed)| == |ts|
  {
    FilterPartition(ts, (t: Task) => t.completed, (t: Task) => !t.completed);
    if forall i :: 0 <= i < |ts| ==> ts[i].completed {
      FilterKeepsAll(ts, (t: Task) => t.completed);
    }
    if forall i :: 0 <= i < |ts| ==> !ts[i].completed {
      FilterKeepsAll(ts, (t: Task) => !t.completed);
    }
  }

  /** The reminder one task raises, if any: none for a completed task or a
      date whose time value is NaN; an error when the due day has passed; a
      warning when it is today or tomorrow; none when it is later. */
  function Reminder(t: Task, today: int): (r: Option<Notification>)
    ensures r.Some? <==> !t.completed && t.date.Day? && t.date.day <= today + 1
    ensures r.Some? ==> r.value.open
    ensures r.Some? ==> (r.value.severity == Error <==> t.date.day < today)
    ensures r.Some? ==> (r.value.severity == Warning <==> today <= t.date.day <= today + 1)
  {
    if t.completed then None
    else match t.date
      case Day(d) =>
        var diff := d - today;
        if diff < 0 then Some(Notification(true, "Task \"" + t.name + "\" is overdue!", Error))
        else if diff <= 1 then Some(Notification(true, "Task \"" + t.name + "\" is due today or tomorrow!", Warning))
        else None
      case _ => None
  }

  /** The slot after one pass of the reminder check over `ts` in order,
      starting from `n`: each reminder overwrites the slot. */
  function Scan(ts: seq<Task>, today: int, n: Notification): Notification
  {
    if ts == [] then n
    else
      var next := match Reminder(ts[0], today) case Some(m) => m case None => n;
      Scan(ts[1..], today, next)
  }

  /** When no task raises a reminder, the slot keeps what it held. */
  lemma {:induction false} ScanWithoutReminders(ts: seq<Task>, today: int, n: Notification)
    requires forall i :: 0 <= i < |ts| ==> Reminder(ts[i], today).None?
    ensures Scan(ts, today, n) == n
  {
    if ts != [] {
      ScanWithoutReminders(ts[1..], today, n);
    }
  }

  /** After the scan the slot holds the reminder of the last task, in list
      order, that raises one. */
  lemma {:induction false} ScanShowsLastReminder(ts: seq<Task>, today: int, n: Notification, k: int)
    requires 0 <= k < |ts| && Reminder(ts[k], today).Some?
    requires forall j :: k < j < |ts| ==> Reminder(ts[j], today).None?
    ensures Scan(ts, today, n) == Reminder(ts[k], today).value
  {
    var next := match Reminder(ts[0], today) case Some(m) => m case None => n;
    if k == 0 {
      ScanWithoutReminders(ts[1..], today, next);
    } else {
      ScanShowsLastReminder(ts[1..], today, next, k - 1);
    }
  }

  /** Completed tasks play no part in the scan. */
  lemma {:induction false} ScanSkipsCompleted(ts: seq<Task>, today: int, n: Notification)
    ensures Scan(ts, today, n) == Scan(Filter(ts, (t: Task) => !t.completed), today, n)
  {
    if ts != [] {
      var next := match Reminder(ts[0], today) case Some(m) => m case None => n;
      ScanSkipsCompleted(ts[1..], today, next);
      if !ts[0].completed {
        assert ([ts[0]] + Filter(ts[1..], (t: Task) => !t.completed))[1..] == Filter(ts[1..], (t: Task) => !t.completed);
      }
    }
  }
}
