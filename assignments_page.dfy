/**
 * The homework page: the month calendar beside the list, the list's
 * subject filter and grouping by due date, the counters, loading the two
 * weeks before the earliest homework, and the optimistic done/undone
 * toggle.  Dates are day numbers; the calendar month is the 0-based
 * `getMonth()` value.
 */
module AssignmentsPage {
  import opened Wrappers
  import opened Collections
  import opened Assignments
  import opened Dates

  // ---------------------------------------------------------------------------
  // Mini calendar

  /** One cell of the calendar grid; cells of the neighbouring months have no date and no flags. */
  datatype Cell = Cell(day: int, isOtherMonth: bool, date: Option<int>, isToday: bool, isPast: bool, hasHomework: bool)

  function OtherDay(day: int): Cell
  {
    Cell(day, true, None, false, false, false)
  }

  /** The cell of day `day` of the month, whose date is `date`. */
  function DayCell(date: int, day: int, today: int, withHomework: set<int>): Cell
  {
    Cell(day, false, Some(date), date == today, date < today, date in withHomework)
  }

  /**
   * What the grid of a month is built from: the first's day number, its
   * column `startDayOfWeek` (Monday being column 0), the month's length and
   * the previous month's length.
   */
  datatype Grid = Grid(first: int, lead: int, len: int, prevLen: int)

  function GridOf(year: int, month: int): (g: Grid)
    requires 0 <= month <= 11
    ensures 0 <= g.lead < 7 && 28 <= g.len <= 31
  {
    var first := First(year, month);
    Grid(first, (Weekday(first) + 6) % 7, DaysInMonth(year, month + 1), PrevMonthLength(year, month))
  }

  /**
   * The cell at index `j` of the grid: the last days of the previous month
   * up to the first's column, then every day of the month, then the first
   * days of the next month.
   */
  function CellAt(j: int, g: Grid, today: int, withHomework: set<int>): Cell
  {
    if j < g.lead then OtherDay(g.prevLen - g.lead + 1 + j)
    else if j < g.lead + g.len then DayCell(g.first + j - g.lead, j - g.lead + 1, today, withHomework)
    else OtherDay(j - g.lead - g.len + 1)
  }

  ghost predicate Laid(days: seq<Cell>, g: Grid, today: int, withHomework: set<int>)
  {
    forall j :: 0 <= j < |days| ==> days[j] == CellAt(j, g, today, withHomework)
  }

  /**
   * The `days` of `MiniCalendar`: whole weeks, every day of the month
   * present, and fewer than a week of padding after it.
   */
  method MiniCalendar(year: int, month: int, today: int, withHomework: set<int>) returns (days: seq<Cell>)
    requires 0 <= month <= 11
    ensures var g := GridOf(year, month);
      |days| % 7 == 0 && g.lead + g.len <= |days| < g.lead + g.len + 7
    ensures forall j :: 0 <= j < |days| ==> days[j] == CellAt(j, GridOf(year, month), today, withHomework)
  {
    var first := First(year, month);
    var startDayOfWeek := (Weekday(first) + 6) % 7;
    var daysInMonth := DaysInMonth(year, month + 1);
    var prevMonthLastDay := PrevMonthLength(year, month);
    var g := Grid(first, startDayOfWeek, daysInMonth, prevMonthLastDay);
    assert g == GridOf(year, month);
    days := LayOut(g, today, withHomework);
  }

  /** The three loops of `MiniCalendar`, over the month's numbers. */
  method LayOut(g: Grid, today: int, withHomework: set<int>) returns (days: seq<Cell>)
    requires 0 <= g.lead < 7 && 0 <= g.len
    ensures |days| % 7 == 0 && g.lead + g.len <= |days| < g.lead + g.len + 7
    ensures Laid(days, g, today, withHomework)
  {
    days := [];
    var i := g.lead - 1;
    while i >= 0
      invariant -1 <= i < g.lead
      invariant |days| == g.lead - 1 - i
      invariant Laid(days, g, today, withHomework)
    {
      days := days + [OtherDay(g.prevLen - i)];
      i := i - 1;
    }
    for d := 1 to g.len + 1
      invariant |days| == g.lead + d - 1
      invariant Laid(days, g, today, withHomework)
    {
      days := days + [DayCell(g.first + d - 1, d, today, withHomework)];
    }
    var remaining := 7 - |days| % 7;
    if remaining < 7 {
      ghost var full := |days|;
      for k := 1 to remaining + 1
        invariant |days| == full + k - 1
        invariant Laid(days, g, today, withHomework)
      {
        days := days + [OtherDay(k)];
      }
    }
  }

  /** Each day of the month sits in the column of its weekday (Monday first, as the header row). */
  lemma CalendarColumns(year: int, month: int, j: int)
    requires 0 <= month <= 11
    requires GridOf(year, month).lead <= j < GridOf(year, month).lead + GridOf(year, month).len
    ensures var g := GridOf(year, month); var date := g.first + j - g.lead;
      CellAt(j, g, 0, {}).date == Some(date) && j % 7 == (Weekday(date) + 6) % 7
  {
    var g := GridOf(year, month);
    var k := j - g.lead;
    WeekdayShift(g.first, k);
    ColumnArithmetic(Weekday(g.first), k);
  }

  lemma ColumnArithmetic(w: int, k: int)
    requires 0 <= w < 7 && 0 <= k
    ensures ((w + 6) % 7 + k) % 7 == ((w + k) % 7 + 6) % 7
  {
  }

  /** `handleDayClick`: a day opens its homework only when it has some. */
  function DayClick(c: Cell): (r: Option<int>)
    ensures r.Some? <==> c.date.Some? && c.hasHomework
    ensures r.Some? ==> r == c.date
  {
    if c.date.None? then None
    else if c.hasHomework then Some(c.date.value)
    else None
  }

  /** On the calendar a click opens exactly the days of the month that have homework. */
  lemma CalendarClick(g: Grid, today: int, withHomework: set<int>, j: int)
    ensures var c := CellAt(j, g, today, withHomework);
      DayClick(c).Some? <==> !c.isOtherMonth && c.date.value in withHomework
  {
  }

  // ---------------------------------------------------------------------------
  // Filtering, grouping and counters

  /** Subjects listed in the filter: the non-empty ones (`filter(Boolean)`). */
  function SubjectField(a: Assignment): string
  {
    a.subject
  }

  predicate Named(n: string)
  {
    n != ""
  }

  /** `subjects`: the distinct non-empty subjects in string order. */
  function Subjects(s: seq<Assignment>): seq<string>
  {
    SortBy(Distinct(Filter(Map(s, SubjectField), Named)), LexLe)
  }

  /** The filter offers each subject of the list once, in order, and nothing else. */
  lemma SubjectsMeaning(s: seq<Assignment>)
    ensures SortedBy(Subjects(s), LexLe) && NoDuplicates(Subjects(s))
    ensures forall n :: n in Subjects(s) <==> n != "" && exists k :: 0 <= k < |s| && s[k].subject == n
  {
    SubjectsOrder(s);
    SubjectsMembers(s);
    NamedMembers(s);
  }

  lemma SubjectsOrder(s: seq<Assignment>)
    ensures SortedBy(Subjects(s), LexLe) && NoDuplicates(Subjects(s))
  {
    var d := Distinct(Filter(Map(s, SubjectField), Named));
    LexPreorder();
    SortBySorted(d, LexLe);
    PermutationKeepsDistinct(d, Subjects(s));
  }

  lemma SubjectsMembers(s: seq<Assignment>)
    ensures forall n :: n in Subjects(s) <==> n in Filter(Map(s, SubjectField), Named)
  {
    var named := Filter(Map(s, SubjectField), Named);
    DistinctMembers(named);
    forall n
      ensures n in Subjects(s) <==> n in named
    {
      assert n in Subjects(s) <==> n in multiset(Distinct(named));
    }
  }

  lemma NamedMembers(s: seq<Assignment>)
    ensures forall n :: n in Filter(Map(s, SubjectField), Named) <==> n != "" && exists k :: 0 <= k < |s| && s[k].subject == n
  {
    var names := Map(s, SubjectField);
    var named := Filter(names, Named);
    forall n
      ensures n in named <==> n != "" && exists k :: 0 <= k < |s| && s[k].subject == n
    {
      if n in named {
        var i :| 0 <= i < |named| && named[i] == n;
        assert named[i] in names;
      }
      if n != "" && exists k :: 0 <= k < |s| && s[k].subject == n {
        var k :| 0 <= k < |s| && s[k].subject == n;
        assert names[k] == n;
      }
    }
  }

  /** An assignment passes the subject filter. */
  predicate Shown(filter: string, a: Assignment)
  {
    filter == "all" || a.subject == filter
  }

  /** `filteredAssignments`. */
  function Filtered(s: seq<Assignment>, filter: string): seq<Assignment>
  {
    Filter(s, a => Shown(filter, a))
  }

  /** The filter keeps exactly the assignments of the chosen subject, or all of them for 'all'. */
  lemma FilteredMeaning(s: seq<Assignment>, filter: string)
    ensures forall a :: a in Filtered(s, filter) <==> a in s && Shown(filter, a)
    ensures filter == "all" ==> Filtered(s, filter) == s
  {
    var r := Filtered(s, filter);
    forall a | a in r
      ensures a in s && Shown(filter, a)
    {
      var i :| 0 <= i < |r| && r[i] == a;
    }
    forall a | a in s && Shown(filter, a)
      ensures a in r
    {
      var i :| 0 <= i < |s| && s[i] == a;
    }
    if filter == "all" {
      FilterAll(s, a => Shown(filter, a));
    }
  }

  /** The key of the date group: the due date, or none for `'_no_date'`. */
  function DateKey(a: Assignment): Option<int>
  {
    a.dueDate
  }

  /**
   * The order of the date groups: by date, the undated group last.  (The
   * page compares `new Date(key)` values; for `'_no_date'` that is NaN.)
   */
  predicate KeyLe(a: Option<int>, b: Option<int>)
  {
    match (a, b)
    case (Some(x), Some(y)) => x <= y
    case (_, None) => true
    case (None, Some(_)) => false
  }

  /** One entry of `groupedByDate`: a due date (none for `'_no_date'`) and its assignments. */
  datatype DateGroup = DateGroup(date: Option<int>, assignments: seq<Assignment>)

  predicate EntryLe(a: DateGroup, b: DateGroup)
  {
    KeyLe(a.date, b.date)
  }

  lemma EntryOrder()
    ensures TotalPreorder(EntryLe)
  {
  }

  /**
   * `groupedByDate`: one entry per due date of the filtered list (and one
   * for the undated ones), in date order, each holding exactly that date's
   * assignments in list order.
   */
  method GroupedByDate(s: seq<Assignment>) returns (entries: seq<DateGroup>)
    ensures SortedBy(entries, EntryLe)
    ensures forall i :: 0 <= i < |entries| ==> entries[i].assignments == Where(s, DateKey, entries[i].date) && |entries[i].assignments| > 0
    ensures forall i, j :: 0 <= i < j < |entries| ==> entries[i].date != entries[j].date
    ensures forall k :: 0 <= k < |s| ==> HasEntry(entries, s[k].dueDate)
  {
    var keys, groups := GroupInto(s);
    GroupedKeys(s, keys, groups);
    var pairs := seq(|keys|, k requires 0 <= k < |keys| => DateGroup(keys[k], groups[keys[k]]));
    PairsOfGroups(s, keys, groups, pairs);
    EntryOrder();
    entries := SortBy(pairs, EntryLe);
    SortBySorted(pairs, EntryLe);
    EntriesOfPairs(s, pairs, entries);
  }

  /** The `forEach` filling `groups`; `keys` is its insertion order. */
  method GroupInto(s: seq<Assignment>) returns (keys: seq<Option<int>>, groups: map<Option<int>, seq<Assignment>>)
    ensures keys == Distinct(Map(s, DateKey)) && groups == GroupBy(s, DateKey)
  {
    keys, groups := [], map[];
    for i := 0 to |s|
      invariant keys == Distinct(Map(s[..i], DateKey)) && groups == GroupBy(s[..i], DateKey)
    {
      GroupStep(s, i);
      keys, groups := AddDated(keys, groups, s[i]);
    }
    assert s[..|s|] == s;
  }

  /** One step of the `forEach`: open the date's group if needed, then push the assignment. */
  method AddDated(keys: seq<Option<int>>, groups: map<Option<int>, seq<Assignment>>, x: Assignment)
    returns (keys': seq<Option<int>>, groups': map<Option<int>, seq<Assignment>>)
    ensures keys' == if x.dueDate in groups then keys else keys + [x.dueDate]
    ensures groups' == groups[x.dueDate := (if x.dueDate in groups then groups[x.dueDate] else []) + [x]]
  {
    var date := x.dueDate;
    keys', groups' := keys, groups;
    if date !in groups' {
      groups' := groups'[date := []];
      keys' := keys' + [date];
    }
    groups' := groups'[date := groups'[date] + [x]];
  }

  lemma GroupStep(s: seq<Assignment>, i: int)
    requires 0 <= i < |s|
    ensures var g := GroupBy(s[..i], DateKey); var x := s[i];
      GroupBy(s[..i + 1], DateKey) == g[x.dueDate := (if x.dueDate in g then g[x.dueDate] else []) + [x]]
    ensures Distinct(Map(s[..i + 1], DateKey)) ==
      if s[i].dueDate in GroupBy(s[..i], DateKey) then Distinct(Map(s[..i], DateKey))
      else Distinct(Map(s[..i], DateKey)) + [s[i].dueDate]
  {
    assert s[..i + 1] == s[..i] + [s[i]];
    GroupBySnoc(s[..i], s[i], DateKey);
    DistinctKeysSnoc(s[..i], s[i], DateKey);
  }

  lemma GroupedKeys(s: seq<Assignment>, keys: seq<Option<int>>, groups: map<Option<int>, seq<Assignment>>)
    requires keys == Distinct(Map(s, DateKey)) && groups == GroupBy(s, DateKey)
    ensures forall k :: 0 <= k < |keys| ==> keys[k] in groups
  {
    GroupByKeys(s, DateKey);
    DistinctMembers(Map(s, DateKey));
    forall k | 0 <= k < |keys|
      ensures keys[k] in groups
    {
      assert keys[k] in keys;
    }
  }

  /** The entries of `groups` before sorting. */
  /** Some entry is the group of date `d`. */
  predicate HasEntry(entries: seq<DateGroup>, d: Option<int>)
  {
    exists i :: 0 <= i < |entries| && entries[i].date == d
  }

  ghost predicate Groups(pairs: seq<DateGroup>, s: seq<Assignment>)
  {
    (forall i :: 0 <= i < |pairs| ==> pairs[i].assignments == Where(s, DateKey, pairs[i].date) && |pairs[i].assignments| > 0)
    && (forall i, j :: 0 <= i < j < |pairs| ==> pairs[i].date != pairs[j].date)
    && forall k :: 0 <= k < |s| ==> HasEntry(pairs, s[k].dueDate)
  }

  lemma PairsOfGroups(s: seq<Assignment>, keys: seq<Option<int>>, groups: map<Option<int>, seq<Assignment>>,
                      pairs: seq<DateGroup>)
    requires keys == Distinct(Map(s, DateKey)) && groups == GroupBy(s, DateKey)
    requires |pairs| == |keys| && forall k :: 0 <= k < |keys| ==> keys[k] in groups && pairs[k] == DateGroup(keys[k], groups[keys[k]])
    ensures Groups(pairs, s)
  {
    PairsContent(s, keys, groups, pairs);
    PairsDistinct(keys, pairs);
    PairsCover(s, keys, pairs);
  }

  lemma PairsContent(s: seq<Assignment>, keys: seq<Option<int>>, groups: map<Option<int>, seq<Assignment>>,
                     pairs: seq<DateGroup>)
    requires groups == GroupBy(s, DateKey)
    requires |pairs| == |keys| && forall k :: 0 <= k < |keys| ==> keys[k] in groups && pairs[k] == DateGroup(keys[k], groups[keys[k]])
    ensures forall i :: 0 <= i < |pairs| ==> pairs[i].assignments == Where(s, DateKey, pairs[i].date) && |pairs[i].assignments| > 0
  {
    GroupByMeaning(s, DateKey);
  }

  lemma PairsDistinct(keys: seq<Option<int>>, pairs: seq<DateGroup>)
    requires NoDuplicates(keys)
    requires |pairs| == |keys| && forall k :: 0 <= k < |keys| ==> pairs[k].date == keys[k]
    ensures forall i, j :: 0 <= i < j < |pairs| ==> pairs[i].date != pairs[j].date
  {
  }

  lemma PairsCover(s: seq<Assignment>, keys: seq<Option<int>>, pairs: seq<DateGroup>)
    requires keys == Distinct(Map(s, DateKey))
    requires |pairs| == |keys| && forall k :: 0 <= k < |keys| ==> pairs[k].date == keys[k]
    ensures forall k :: 0 <= k < |s| ==> HasEntry(pairs, s[k].dueDate)
  {
    forall k | 0 <= k < |s|
      ensures HasEntry(pairs, s[k].dueDate)
    {
      assert Map(s, DateKey)[k] == s[k].dueDate;
      assert s[k].dueDate in Distinct(Map(s, DateKey));
      var i :| 0 <= i < |keys| && keys[i] == s[k].dueDate;
      assert pairs[i].date == keys[i];
    }
  }

  lemma EntriesOfPairs(s: seq<Assignment>, pairs: seq<DateGroup>, entries: seq<DateGroup>)
    requires Groups(pairs, s) && multiset(entries) == multiset(pairs)
    ensures forall i :: 0 <= i < |entries| ==> entries[i].assignments == Where(s, DateKey, entries[i].date) && |entries[i].assignments| > 0
    ensures forall i, j :: 0 <= i < j < |entries| ==> entries[i].date != entries[j].date
    ensures forall k :: 0 <= k < |s| ==> HasEntry(entries, s[k].dueDate)
  {
    forall i | 0 <= i < |entries|
      ensures entries[i].assignments == Where(s, DateKey, entries[i].date) && |entries[i].assignments| > 0
    {
      InPermutation(entries, pairs, i);
    }
    EntriesDistinct(pairs, entries);
    EntriesCover(s, pairs, entries);
  }

  /** Rearranging the entries keeps a date for every assignment. */
  lemma EntriesCover(s: seq<Assignment>, pairs: seq<DateGroup>, entries: seq<DateGroup>)
    requires forall k :: 0 <= k < |s| ==> HasEntry(pairs, s[k].dueDate)
    requires multiset(entries) == multiset(pairs)
    ensures forall k :: 0 <= k < |s| ==> HasEntry(entries, s[k].dueDate)
  {
    forall k | 0 <= k < |s|
      ensures HasEntry(entries, s[k].dueDate)
    {
      var j :| 0 <= j < |pairs| && pairs[j].date == s[k].dueDate;
      InPermutation(pairs, entries, j);
      var e :| 0 <= e < |entries| && entries[e] == pairs[j];
      assert entries[e].date == s[k].dueDate;
    }
  }

  /** Rearranging entries with distinct dates keeps the dates distinct. */
  lemma EntriesDistinct(pairs: seq<DateGroup>, entries: seq<DateGroup>)
    requires forall i, j :: 0 <= i < j < |pairs| ==> pairs[i].date != pairs[j].date
    requires multiset(entries) == multiset(pairs)
    ensures forall i, j :: 0 <= i < j < |entries| ==> entries[i].date != entries[j].date
  {
    var dates := Map(pairs, (e: DateGroup) => e.date);
    forall i, j | 0 <= i < j < |entries|
      ensures entries[i].date != entries[j].date
    {
      InPermutation(entries, pairs, i);
      InPermutation(entries, pairs, j);
      var a :| 0 <= a < |pairs| && pairs[a] == entries[i];
      var b :| 0 <= b < |pairs| && pairs[b] == entries[j];
      assert NoDuplicates(entries) by {
        assert NoDuplicates(pairs);
        PermutationKeepsDistinct(pairs, entries);
      }
      if a < b {
        assert pairs[a].date != pairs[b].date;
      } else if b < a {
        assert pairs[b].date != pairs[a].date;
      }
    }
  }

  /** `datesWithHomework`: the due dates of the list. */
  function DatesWithHomework(s: seq<Assignment>): (r: set<int>)
    ensures forall d :: d in r <==> exists k :: 0 <= k < |s| && s[k].dueDate == Some(d)
  {
    set k | 0 <= k < |s| && s[k].dueDate.Some? :: s[k].dueDate.value
  }

  /** `stats`: how many assignments, how many done, how many tests. */
  datatype Stats = Stats(total: nat, done: nat, tests: nat)

  function StatsOf(s: seq<Assignment>): (r: Stats)
    ensures r.done <= r.total && r.tests <= r.total && r.total == |s|
  {
    Stats(|s|, DoneCount(s), TestCount(s))
  }

  // ---------------------------------------------------------------------------
  // Loading past homework

  /** The earliest due date of the list (`existingDates[0]` after the sort), if any. */
  function MinDue(s: seq<Assignment>): (r: Option<int>)
    ensures r.None? <==> forall k :: 0 <= k < |s| ==> s[k].dueDate.None?
    ensures r.Some? ==> (exists k :: 0 <= k < |s| && s[k].dueDate == r)
    ensures r.Some? ==> forall k :: 0 <= k < |s| && s[k].dueDate.Some? ==> r.value <= s[k].dueDate.value
  {
    if |s| == 0 then None
    else
      var m := MinDue(s[..|s| - 1]);
      var d := s[|s| - 1].dueDate;
      assert forall k :: 0 <= k < |s| - 1 ==> s[..|s| - 1][k] == s[k];
      if d.None? then m
      else if m.None? || d.value < m.value then d
      else m
  }

  /** `startDate`: the earliest due date, or today when no homework has one. */
  function StartDay(s: seq<Assignment>, today: int): int
  {
    if MinDue(s).Some? then MinDue(s).value else today
  }

  /** What the requests for the `n` days before `start` return, in request order. */
  function Fetched(fetch: int -> seq<Assignment>, start: int, n: nat): seq<Assignment>
  {
    if n == 0 then [] else Fetched(fetch, start, n - 1) + fetch(start - n)
  }

  /** The fetched homework is what the fourteen days before the start returned, and nothing else. */
  lemma {:induction false} FetchedDays(fetch: int -> seq<Assignment>, start: int, n: nat)
    ensures forall a :: a in Fetched(fetch, start, n) <==> exists day :: start - n <= day < start && a in fetch(day)
  {
    if n > 0 {
      FetchedDays(fetch, start, n - 1);
      forall a | a in Fetched(fetch, start, n)
        ensures exists day :: start - n <= day < start && a in fetch(day)
      {
        if a !in fetch(start - n) {
          assert a in Fetched(fetch, start, n - 1);
        }
      }
    }
  }

  /** A fetched assignment is new when no assignment already listed has its id. */
  predicate IsNew(prev: seq<Assignment>, a: Assignment)
  {
    forall k :: 0 <= k < |prev| ==> prev[k].id != a.id
  }

  /** By due date, undated ones last (the page's `new Date(a.dueDate) - new Date(b.dueDate)`). */
  predicate DueLe(a: Assignment, b: Assignment)
  {
    KeyLe(a.dueDate, b.dueDate)
  }

  lemma DueOrder()
    ensures TotalPreorder(DueLe)
  {
  }

  /** The new list: the fetched assignments with new ids, then the old ones, sorted by due date. */
  function Merged(prev: seq<Assignment>, past: seq<Assignment>): seq<Assignment>
  {
    SortBy(Filter(past, a => IsNew(prev, a)) + prev, DueLe)
  }

  /**
   * The merge keeps every assignment already listed, adds exactly the
   * fetched ones with an id not yet listed, and leaves the list in due
   * date order.
   */
  lemma MergedMeaning(prev: seq<Assignment>, past: seq<Assignment>)
    ensures SortedBy(Merged(prev, past), DueLe)
    ensures forall a :: a in Merged(prev, past) <==> a in prev || (a in past && IsNew(prev, a))
    ensures |Merged(prev, past)| >= |prev|
  {
    var newOnes := Filter(past, a => IsNew(prev, a));
    DueOrder();
    SortBySorted(newOnes + prev, DueLe);
    forall a
      ensures a in Merged(prev, past) <==> a in prev || (a in past && IsNew(prev, a))
    {
      assert a in Merged(prev, past) <==> a in multiset(newOnes + prev);
      if a in newOnes {
        var i :| 0 <= i < |newOnes| && newOnes[i] == a;
      }
      if a in past && IsNew(prev, a) {
        var i :| 0 <= i < |past| && past[i] == a;
      }
    }
  }

  /** `loadPastHomework`: asks for the fourteen days before the start and merges what comes back. */
  method LoadPastHomework(prev: seq<Assignment>, today: int, fetch: int -> seq<Assignment>) returns (merged: seq<Assignment>)
    ensures merged == Merged(prev, Fetched(fetch, StartDay(prev, today), 14))
  {
    var startDate := StartDay(prev, today);
    var pastAssignments := [];
    for i := 1 to 15
      invariant pastAssignments == Fetched(fetch, startDate, i - 1)
    {
      var homework := fetch(startDate - i);
      if |homework| > 0 {
        pastAssignments := pastAssignments + homework;
      } else {
        assert pastAssignments + homework == pastAssignments;
      }
    }
    var newOnes := Filter(pastAssignments, a => IsNew(prev, a));
    merged := SortBy(newOnes + prev, DueLe);
  }

  // ---------------------------------------------------------------------------
  // Done toggle

  /** The list and the ids whose toggle is in flight (`updatingIds`). */
  datatype PageState = PageState(assignments: seq<Assignment>, updating: set<int>)

  /** Every assignment with id `id` set to `done`. */
  function WithDone(s: seq<Assignment>, id: int, done: bool): (r: seq<Assignment>)
    ensures |r| == |s|
    ensures forall k :: 0 <= k < |s| ==> r[k] == if s[k].id == id then s[k].(done := done) else s[k]
  {
    Map(s, (a: Assignment) => if a.id == id then a.(done := done) else a)
  }

  /** The optimistic half of `toggleDone`: flip the flag and mark the id busy, unless it already is. */
  function StartToggle(st: PageState, a: Assignment): PageState
  {
    if a.id in st.updating then st
    else PageState(WithDone(st.assignments, a.id, !a.done), st.updating + {a.id})
  }

  /** The `catch`/`finally` half: put the old flag back on failure, and free the id either way. */
  function FinishToggle(st: PageState, a: Assignment, succeeded: bool): PageState
  {
    PageState(if succeeded then st.assignments else WithDone(st.assignments, a.id, a.done), st.updating - {a.id})
  }

  /** A whole toggle with nothing else happening meanwhile. */
  function ToggleDone(st: PageState, a: Assignment, succeeded: bool): PageState
  {
    if a.id in st.updating then st else FinishToggle(StartToggle(st, a), a, succeeded)
  }

  /**
   * A toggle of an id already in flight does nothing; otherwise the
   * assignments with that id end up flipped if the server accepted and
   * with their old flag if not, every other assignment is untouched, and
   * the busy set is as before.
   */
  lemma ToggleOutcome(st: PageState, a: Assignment, succeeded: bool)
    ensures a.id in st.updating ==> ToggleDone(st, a, succeeded) == st
    ensures a.id !in st.updating ==>
      var r := ToggleDone(st, a, succeeded);
      r.updating == st.updating && |r.assignments| == |st.assignments|
      && forall k :: 0 <= k < |st.assignments| ==>
           r.assignments[k] == if st.assignments[k].id == a.id then st.assignments[k].(done := if succeeded then !a.done else a.done) else st.assignments[k]
  {
  }

  /** A failed toggle of an assignment shown with its current flag leaves the page as it was. */
  lemma FailedToggleRestores(st: PageState, a: Assignment)
    requires a.id !in st.updating
    requires forall k :: 0 <= k < |st.assignments| && st.assignments[k].id == a.id ==> st.assignments[k].done == a.done
    ensures ToggleDone(st, a, false) == st
  {
    var r := ToggleDone(st, a, false);
    ToggleOutcome(st, a, false);
    assert r.assignments == st.assignments;
  }
}
