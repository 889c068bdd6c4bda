/**
 * The teacher's dashboard: the totals and group cards it derives from the
 * teacher's students, the next five lessons of the textbook slots, the
 * number of those with homework, and the greeting.
 */
module TeacherDashboard {
  import opened Wrappers
  import opened Collections
  import opened Text
  import opened RealEcoleDirecteClient
  import TeacherClasses

  // ---------------------------------------------------------------------------
  // Data

  /** A textbook slot as the page reads it; `start` and `end` are instants in minutes. */
  datatype TextbookSlot = TextbookSlot(start: int, end: int, isCancelled: bool, hasHomework: bool)

  /** What `groupMap` keeps of a group: `{ id, name, type }`. */
  datatype GroupSummary = GroupSummary(id: int, name: string, kind: string)

  /** A card of the classes panel; `code` is read from a summary that has none. */
  datatype Card = Card(id: int, name: string, code: Option<string>)

  datatype Stats = Stats(totalClasses: nat, totalStudents: nat, totalGroups: nat, pendingAssignments: nat)

  /** What `loadEdData` sets; `nextClasses` is `None` when the slots could not be fetched (left as they were). */
  datatype Dashboard = Dashboard(classes: seq<Card>, stats: Stats, nextClasses: Option<seq<TextbookSlot>>)

  // ---------------------------------------------------------------------------
  // The class set

  function StudentClass(st: TeacherStudent): string
  {
    st.student.className
  }

  /** `classSet` after the students `students`: their non-empty class names, once each. */
  function ClassSet(students: seq<TeacherStudent>): seq<string>
  {
    Distinct(Filter(Map(students, StudentClass), TeacherClasses.Named))
  }

  lemma ClassSetStep(students: seq<TeacherStudent>, i: int)
    requires 0 <= i < |students|
    ensures var c := students[i].student.className;
      ClassSet(students[..i + 1]) ==
        if c != "" && c !in ClassSet(students[..i]) then ClassSet(students[..i]) + [c] else ClassSet(students[..i])
  {
    assert students[..i + 1] == students[..i] + [students[i]];
    MapSnoc(students[..i], students[i], StudentClass);
    TeacherClasses.KeptSnoc(Map(students[..i], StudentClass), students[i].student.className);
  }

  // ---------------------------------------------------------------------------
  // The group map

  function Summarize(g: GroupInfo): GroupSummary
  {
    GroupSummary(g.id, g.name, g.kind)
  }

  /** Each group id of `g` maps to the summary of the first listing filed under it. */
  ghost predicate FirstSeen(g: map<int, seq<TeacherClasses.Membership>>, groupMap: map<int, GroupSummary>)
  {
    && (forall id :: id in groupMap <==> id in g)
    && forall id :: id in g ==> |g[id]| > 0 && groupMap[id] == Summarize(g[id][0].group)
  }

  /** `groupMap` after the listings `ms`, `order` being its insertion order. */
  ghost predicate Collected(ms: seq<TeacherClasses.Membership>, order: seq<int>, groupMap: map<int, GroupSummary>)
  {
    order == Distinct(Map(ms, TeacherClasses.GroupId)) && FirstSeen(GroupBy(ms, TeacherClasses.GroupId), groupMap)
  }

  /** One pass of the inner loop body: a group seen for the first time is recorded. */
  method AddGroup(order: seq<int>, groupMap: map<int, GroupSummary>, g: GroupInfo)
    returns (order': seq<int>, groupMap': map<int, GroupSummary>)
    ensures order' == if g.id in groupMap then order else order + [g.id]
    ensures groupMap' == if g.id in groupMap then groupMap else groupMap[g.id := Summarize(g)]
  {
    order', groupMap' := order, groupMap;
    if g.id !in groupMap' {
      groupMap' := groupMap'[g.id := GroupSummary(g.id, g.name, g.kind)];
      order' := order' + [g.id];
    }
  }

  lemma CollectStep(ms: seq<TeacherClasses.Membership>, m: TeacherClasses.Membership, order: seq<int>,
                    groupMap: map<int, GroupSummary>)
    requires Collected(ms, order, groupMap)
    ensures var id := m.group.id;
      Collected(ms + [m], if id in groupMap then order else order + [id],
                if id in groupMap then groupMap else groupMap[id := Summarize(m.group)])
  {
    GroupBySnoc(ms, m, TeacherClasses.GroupId);
    DistinctKeysSnoc(ms, m, TeacherClasses.GroupId);
    FirstSeenStep(GroupBy(ms, TeacherClasses.GroupId), groupMap, m);
  }

  lemma FirstSeenStep(g: map<int, seq<TeacherClasses.Membership>>, groupMap: map<int, GroupSummary>,
                      m: TeacherClasses.Membership)
    requires FirstSeen(g, groupMap)
    ensures var id := m.group.id;
      FirstSeen(g[id := (if id in g then g[id] else []) + [m]],
                if id in groupMap then groupMap else groupMap[id := Summarize(m.group)])
  {
  }

  method CollectOne(ghost seen: seq<TeacherClasses.Membership>, order: seq<int>, groupMap: map<int, GroupSummary>,
                    m: TeacherClasses.Membership)
    returns (order': seq<int>, groupMap': map<int, GroupSummary>)
    requires Collected(seen, order, groupMap)
    ensures Collected(seen + [m], order', groupMap')
  {
    CollectStep(seen, m, order, groupMap);
    order', groupMap' := AddGroup(order, groupMap, m.group);
  }

  /** The inner loop over one student's groups; `ok` is false when a listing has no group (`grp.id` throws). */
  method CollectStudent(ghost s: seq<TeacherClasses.Membership>, order: seq<int>, groupMap: map<int, GroupSummary>,
                        st: TeacherStudent)
    returns (ok: bool, order': seq<int>, groupMap': map<int, GroupSummary>)
    requires Collected(s, order, groupMap)
    ensures ok <==> TeacherClasses.Known(st)
    ensures ok ==> Collected(s + TeacherClasses.Listings(st), order', groupMap')
  {
    order', groupMap' := order, groupMap;
    ghost var seen := s;
    assert TeacherClasses.Listings(TeacherClasses.Upto(st, 0)) == [];
    for j := 0 to |st.groups|
      invariant TeacherClasses.Known(TeacherClasses.Upto(st, j))
      invariant seen == s + TeacherClasses.Listings(TeacherClasses.Upto(st, j))
      invariant Collected(seen, order', groupMap')
    {
      var grp := st.groups[j];
      if grp.None? {
        return false, order', groupMap';
      }
      var m := TeacherClasses.Membership(grp.value, st.student.className);
      order', groupMap' := CollectOne(seen, order', groupMap', m);
      TeacherClasses.SeenStep(s, st, j);
      seen := seen + [m];
    }
    assert TeacherClasses.Upto(st, |st.groups|) == st;
    ok := true;
  }

  // ---------------------------------------------------------------------------
  // Next lessons

  const NEXT_CLASSES := 5

  /** Not over at `now` and not cancelled. */
  predicate Ahead(s: TextbookSlot, now: int)
  {
    s.end > now && !s.isCancelled
  }

  /** The comparator `new Date(a.start) - new Date(b.start)`. */
  predicate StartLe(a: TextbookSlot, b: TextbookSlot)
  {
    a.start <= b.start
  }

  lemma StartOrder()
    ensures TotalPreorder(StartLe)
  {
  }

  /** `schedule.filter(...).sort(...).slice(0, 5)`. */
  function Upcoming(schedule: seq<TextbookSlot>, now: int): seq<TextbookSlot>
  {
    Take(SortBy(Filter(schedule, (s: TextbookSlot) => Ahead(s, now)), StartLe), NEXT_CLASSES)
  }

  /**
   * At most five slots, each from the schedule and still ahead, in start
   * order; every other slot ahead starts no earlier than all of them, and
   * with fewer than five none is left out.
   */
  lemma UpcomingMeaning(schedule: seq<TextbookSlot>, now: int)
    ensures var r := Upcoming(schedule, now);
      && |r| <= NEXT_CLASSES
      && (forall i :: 0 <= i < |r| ==> r[i] in schedule && Ahead(r[i], now))
      && SortedBy(r, StartLe)
      && (forall s :: s in schedule && Ahead(s, now) ==> s in r || Later(s, r))
      && (|r| < NEXT_CLASSES ==> forall s :: s in schedule && Ahead(s, now) ==> s in r)
  {
    var f := Filter(schedule, (s: TextbookSlot) => Ahead(s, now));
    var sorted := SortBy(f, StartLe);
    StartOrder();
    SortBySorted(f, StartLe);
    UpcomingFrom(schedule, now, f, sorted);
    UpcomingFirst(schedule, now, f, sorted);
  }

  lemma UpcomingFrom(schedule: seq<TextbookSlot>, now: int, f: seq<TextbookSlot>, sorted: seq<TextbookSlot>)
    requires f == Filter(schedule, (s: TextbookSlot) => Ahead(s, now)) && multiset(sorted) == multiset(f)
    ensures forall i :: 0 <= i < |Take(sorted, NEXT_CLASSES)| ==>
      Take(sorted, NEXT_CLASSES)[i] in schedule && Ahead(Take(sorted, NEXT_CLASSES)[i], now)
  {
    var r := Take(sorted, NEXT_CLASSES);
    forall i | 0 <= i < |r|
      ensures r[i] in schedule && Ahead(r[i], now)
    {
      assert r[i] == sorted[i];
      assert r[i] in multiset(f);
    }
  }

  lemma UpcomingFirst(schedule: seq<TextbookSlot>, now: int, f: seq<TextbookSlot>, sorted: seq<TextbookSlot>)
    requires f == Filter(schedule, (s: TextbookSlot) => Ahead(s, now)) && multiset(sorted) == multiset(f)
    requires SortedBy(sorted, StartLe)
    ensures forall s :: s in schedule && Ahead(s, now) ==> s in Take(sorted, NEXT_CLASSES) || Later(s, Take(sorted, NEXT_CLASSES))
    ensures |Take(sorted, NEXT_CLASSES)| < NEXT_CLASSES ==> forall s :: s in schedule && Ahead(s, now) ==> s in Take(sorted, NEXT_CLASSES)
  {
    forall s | s in schedule && Ahead(s, now)
      ensures s in sorted
    {
      AheadKept(schedule, now, s);
      assert s in multiset(sorted);
    }
    forall s | s in sorted
      ensures s in Take(sorted, NEXT_CLASSES) || Later(s, Take(sorted, NEXT_CLASSES))
    {
      InTakeOrLater(sorted, s);
    }
  }

  /** An element of a sorted list is among its first five or starts no earlier than each of them. */
  lemma InTakeOrLater(sorted: seq<TextbookSlot>, s: TextbookSlot)
    requires SortedBy(sorted, StartLe) && s in sorted
    ensures s in Take(sorted, NEXT_CLASSES) || Later(s, Take(sorted, NEXT_CLASSES))
  {
    var r := Take(sorted, NEXT_CLASSES);
    var p :| 0 <= p < |sorted| && sorted[p] == s;
    if p < |r| {
      assert r[p] == s;
    } else {
      forall i | 0 <= i < |r|
        ensures r[i].start <= s.start
      {
        assert r[i] == sorted[i];
        assert StartLe(sorted[i], sorted[p]);
      }
    }
  }

  /** `s` starts no earlier than every slot of `r`. */
  predicate Later(s: TextbookSlot, r: seq<TextbookSlot>)
  {
    forall i :: 0 <= i < |r| ==> r[i].start <= s.start
  }

  lemma AheadKept(schedule: seq<TextbookSlot>, now: int, s: TextbookSlot)
    requires s in schedule && Ahead(s, now)
    ensures s in Filter(schedule, (s: TextbookSlot) => Ahead(s, now))
  {
    var j :| 0 <= j < |schedule| && schedule[j] == s;
  }

  predicate HasHomework(s: TextbookSlot)
  {
    s.hasHomework
  }

  /** `pendingAssignments`: the next lessons with homework; none when the slots could not be fetched. */
  function Pending(schedule: Option<seq<TextbookSlot>>, now: int): (n: nat)
    ensures n <= NEXT_CLASSES
  {
    if schedule.Some? then Count(Upcoming(schedule.value, now), HasHomework) else 0
  }

  // ---------------------------------------------------------------------------
  // loadEdData

  /** The card of a group is named after the group's first listing and has no code. */
  ghost predicate NamedAfterFirst(c: Card, ms: seq<TeacherClasses.Membership>)
  {
    c.code == None && exists i :: TeacherClasses.FirstListing(ms, c.id, i) && c.name == ms[i].group.name
  }

  /** What the dashboard shows for these students and this schedule. */
  ghost predicate Shown(d: Dashboard, students: seq<TeacherStudent>, schedule: Option<seq<TextbookSlot>>, now: int)
    requires TeacherClasses.AllKnown(students)
  {
    var ms := TeacherClasses.Memberships(students);
    var ids := Distinct(Map(ms, TeacherClasses.GroupId));
    && |d.classes| == |ids|
    && (forall k :: 0 <= k < |ids| ==> d.classes[k].id == ids[k] && NamedAfterFirst(d.classes[k], ms))
    && d.stats == Stats(|ClassSet(students)|, |students|, |ids|, Pending(schedule, now))
    && d.nextClasses == if schedule.Some? then Some(Upcoming(schedule.value, now)) else None
  }

  /**
   * `loadEdData` with the fetched students and slots (`None` when fetching
   * the slots failed): `None` when a listing has no group (the loop throws
   * and nothing is set).
   */
  method LoadEdData(students: seq<TeacherStudent>, schedule: Option<seq<TextbookSlot>>, now: int)
    returns (r: Option<Dashboard>)
    ensures r.None? <==> !TeacherClasses.AllKnown(students)
    ensures r.Some? ==> TeacherClasses.AllKnown(students) && Shown(r.value, students, schedule, now)
  {
    var ok, classSet, order, groupMap := Collect(students);
    if !ok {
      return None;
    }
    var ms := TeacherClasses.Memberships(students);
    OrderCollected(ms, order, groupMap);
    var classes := seq(|order|, k requires 0 <= k < |order| => Card(groupMap[order[k]].id, groupMap[order[k]].name, None));
    CardsNamed(ms, order, groupMap, classes);
    var upcoming: seq<TextbookSlot> := [];
    var nextClasses: Option<seq<TextbookSlot>> := None;
    if schedule.Some? {
      upcoming := Upcoming(schedule.value, now);
      nextClasses := Some(upcoming);
    }
    var pendingCount := Count(upcoming, HasHomework);
    var d := Dashboard(classes, Stats(|classSet|, |students|, |order|, pendingCount), nextClasses);
    ShownFrom(d, students, schedule, now, order);
    r := Some(d);
  }

  lemma ShownFrom(d: Dashboard, students: seq<TeacherStudent>, schedule: Option<seq<TextbookSlot>>, now: int, ids: seq<int>)
    requires TeacherClasses.AllKnown(students)
    requires ids == Distinct(Map(TeacherClasses.Memberships(students), TeacherClasses.GroupId))
    requires |d.classes| == |ids|
    requires forall k :: 0 <= k < |ids| ==> d.classes[k].id == ids[k] && NamedAfterFirst(d.classes[k], TeacherClasses.Memberships(students))
    requires d.stats == Stats(|ClassSet(students)|, |students|, |ids|, Pending(schedule, now))
    requires d.nextClasses == if schedule.Some? then Some(Upcoming(schedule.value, now)) else None
    ensures Shown(d, students, schedule, now)
  {
  }

  /** The loop over the students; `ok` is false when it throws. */
  method Collect(students: seq<TeacherStudent>)
    returns (ok: bool, classSet: seq<string>, order: seq<int>, groupMap: map<int, GroupSummary>)
    ensures ok <==> TeacherClasses.AllKnown(students)
    ensures ok ==> classSet == ClassSet(students)
    ensures ok ==> TeacherClasses.AllKnown(students) && Collected(TeacherClasses.Memberships(students), order, groupMap)
  {
    classSet, order, groupMap := [], [], map[];
    for i := 0 to |students|
      invariant TeacherClasses.AllKnown(students[..i])
      invariant classSet == ClassSet(students[..i])
      invariant Collected(TeacherClasses.Memberships(students[..i]), order, groupMap)
    {
      var student := students[i];
      ClassSetStep(students, i);
      if student.student.className != "" && student.student.className !in classSet {
        classSet := classSet + [student.student.className];
      }
      ok, order, groupMap := CollectStudent(TeacherClasses.Memberships(students[..i]), order, groupMap, student);
      if !ok {
        return;
      }
      TeacherClasses.PrefixStep(students, i);
    }
    assert students[..|students|] == students;
    ok := true;
  }

  lemma OrderCollected(ms: seq<TeacherClasses.Membership>, order: seq<int>, groupMap: map<int, GroupSummary>)
    requires Collected(ms, order, groupMap)
    ensures forall k :: 0 <= k < |order| ==> order[k] in groupMap
  {
    GroupByKeys(ms, TeacherClasses.GroupId);
    DistinctMembers(Map(ms, TeacherClasses.GroupId));
    forall k | 0 <= k < |order|
      ensures order[k] in groupMap
    {
      assert order[k] in order;
    }
  }

  lemma CardsNamed(ms: seq<TeacherClasses.Membership>, order: seq<int>, groupMap: map<int, GroupSummary>, classes: seq<Card>)
    requires Collected(ms, order, groupMap)
    requires forall k :: 0 <= k < |order| ==> order[k] in groupMap
    requires |classes| == |order|
    requires forall k :: 0 <= k < |order| ==> classes[k] == Card(groupMap[order[k]].id, groupMap[order[k]].name, None)
    ensures forall k :: 0 <= k < |order| ==> classes[k].id == order[k] && NamedAfterFirst(classes[k], ms)
  {
    GroupByMeaning(ms, TeacherClasses.GroupId);
    forall k | 0 <= k < |order|
      ensures classes[k].id == order[k] && NamedAfterFirst(classes[k], ms)
    {
      CardNamed(ms, order[k], groupMap);
    }
  }

  lemma CardNamed(ms: seq<TeacherClasses.Membership>, id: int, groupMap: map<int, GroupSummary>)
    requires FirstSeen(GroupBy(ms, TeacherClasses.GroupId), groupMap) && id in groupMap
    requires GroupBy(ms, TeacherClasses.GroupId)[id] == Where(ms, TeacherClasses.GroupId, id)
    ensures groupMap[id].id == id
    ensures NamedAfterFirst(Card(groupMap[id].id, groupMap[id].name, None), ms)
  {
    TeacherClasses.WhereHead(ms, id);
    var i :| TeacherClasses.FirstListing(ms, id, i) && ms[i] == Where(ms, TeacherClasses.GroupId, id)[0];
    assert groupMap[id] == Summarize(ms[i].group);
  }

  // ---------------------------------------------------------------------------
  // Greeting

  /** `teacher?.name?.split(' ')[0] || 'Professeur'`. */
  function GreetingName(name: Option<string>): string
  {
    if name.None? then "Professeur"
    else
      var word := Split(name.value, ' ')[0];
      if word == "" then "Professeur" else word
  }

  /** `w` is the first space-delimited word of `s`. */
  predicate FirstWord(s: string, w: string)
  {
    |w| > 0 && w <= s && ' ' !in w && (|w| == |s| || s[|w|] == ' ')
  }

  /** The greeting names the teacher's first word, or "Professeur" when there is none. */
  lemma GreetingMeaning(name: Option<string>)
    ensures name.None? ==> GreetingName(name) == "Professeur"
    ensures name.Some? && (name.value == "" || name.value[0] == ' ') ==> GreetingName(name) == "Professeur"
    ensures name.Some? && name.value != "" && name.value[0] != ' ' ==> FirstWord(name.value, GreetingName(name))
  {
    if name.Some? {
      SplitHead(name.value);
    }
  }

  lemma SplitHead(s: string)
    ensures var w := Split(s, ' ')[0];
      && w <= s && ' ' !in w && (|w| == |s| || s[|w|] == ' ')
  {
    var parts := Split(s, ' ');
    JoinHead(parts, " ");
  }

  lemma JoinHead(parts: seq<string>, sep: string)
    requires |parts| >= 1 && |sep| == 1
    ensures parts[0] <= Join(parts, sep)
    ensures |parts| == 1 ==> Join(parts, sep) == parts[0]
    ensures |parts| > 1 ==> |Join(parts, sep)| > |parts[0]| && Join(parts, sep)[|parts[0]|] == sep[0]
  {
    if |parts| > 1 {
      assert Join(parts, sep) == parts[0] + sep + Join(parts[1..], sep);
    }
  }
}
