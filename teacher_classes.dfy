/**
 * The teacher's "classes and groups" page: whether the teacher is signed in
 * to École Directe, the list of classes and groups it builds from the
 * teacher's students, the subtitle that counts them, and the delete action.
 */
module TeacherClasses {
  import opened Wrappers
  import opened Collections
  import opened Text
  import opened RealEcoleDirecte
  import opened RealEcoleDirecteClient
  import Dates

  // ---------------------------------------------------------------------------
  // Connection

  /** `isEdAuthenticated`: a signed-in client whose account has type 'P'. */
  predicate EdConnected(s: Session)
  {
    IsAuthenticated(s) && TypeOf(s.account.value) == "P"
  }

  /** For an account parsed from a login reply, the page is connected exactly for a teacher's account with a token. */
  lemma ConnectedTeacher(s: Session, r: RawAccount)
    requires s.account == Some(ParseAccount(r))
    ensures EdConnected(s) <==> Truthy(s.token) && r.typeCompte == "P"
    ensures EdConnected(s) ==> s.account.value.Teacher?
  {
    ParsedAccount(r);
  }

  // ---------------------------------------------------------------------------
  // Listings of the teacher's students

  /** One group listing of a student: the group and the student's class name. */
  datatype Membership = Membership(group: GroupInfo, className: string)

  /** Every group listing of the student names its group. */
  predicate Known(st: TeacherStudent)
  {
    forall j :: 0 <= j < |st.groups| ==> st.groups[j].Some?
  }

  predicate AllKnown(students: seq<TeacherStudent>)
  {
    forall i :: 0 <= i < |students| ==> Known(students[i])
  }

  /** The student's listings, in the order of its `groups`. */
  function Listings(st: TeacherStudent): (r: seq<Membership>)
    requires Known(st)
    ensures |r| == |st.groups|
  {
    seq(|st.groups|, j requires 0 <= j < |st.groups| => Membership(st.groups[j].value, st.student.className))
  }

  /** The listings the two nested loops visit, student after student. */
  function Memberships(students: seq<TeacherStudent>): seq<Membership>
    requires AllKnown(students)
  {
    if |students| == 0 then []
    else Memberships(students[..|students| - 1]) + Listings(students[|students| - 1])
  }

  function GroupId(m: Membership): int
  {
    m.group.id
  }

  function ClassNameOf(m: Membership): string
  {
    m.className
  }

  predicate Named(c: string)
  {
    c != ""
  }

  // ---------------------------------------------------------------------------
  // Building `groupMap`

  /** An entry of `groupMap` while it fills; `classes` is its set of class names, in insertion order. */
  datatype Building = Building(group: GroupInfo, isGroup: bool, classes: seq<string>, studentCount: nat)

  /** The entry a group's first listing opens (type "G" is a group, anything else a class). */
  function Opened(g: GroupInfo): Building
  {
    Building(g, g.kind == "G", [], 0)
  }

  /** What one listing adds to its group's entry. */
  function Joined(b: Building, m: Membership): Building
  {
    var classes := if b.isGroup && m.className != "" && m.className !in b.classes then b.classes + [m.className] else b.classes;
    b.(classes := classes, studentCount := b.studentCount + 1)
  }

  /** The distinct non-empty class names of the listings, in order of first sight. */
  function ClassesOf(ms: seq<Membership>): seq<string>
  {
    Distinct(Filter(Map(ms, ClassNameOf), Named))
  }

  /**
   * The entry of a group, from its listings alone: the first listing's
   * group, its class names when it is a group, and one count per listing.
   */
  function BuildingOf(ms: seq<Membership>): Building
    requires |ms| > 0
  {
    var isGroup := ms[0].group.kind == "G";
    Building(ms[0].group, isGroup, if isGroup then ClassesOf(ms) else [], |ms|)
  }

  /** Each group's listings `g[id]` are summarised by its entry. */
  ghost predicate Built(g: map<int, seq<Membership>>, entries: map<int, Building>)
  {
    && (forall id :: id in entries <==> id in g)
    && forall id :: id in g ==> |g[id]| > 0 && entries[id] == BuildingOf(g[id])
  }

  /** `groupMap` after the listings `ms`, with `order` its insertion order. */
  ghost predicate Gathered(ms: seq<Membership>, order: seq<int>, entries: map<int, Building>)
  {
    order == Distinct(Map(ms, GroupId)) && Built(GroupBy(ms, GroupId), entries)
  }

  /** Adding one listing to a group's listings adds it to the entry the way `Joined` does. */
  lemma BuildingSnoc(ms: seq<Membership>, m: Membership)
    ensures BuildingOf(ms + [m]) == Joined(if |ms| == 0 then Opened(m.group) else BuildingOf(ms), m)
  {
    if |ms| > 0 {
      assert (ms + [m])[0] == ms[0];
      if ms[0].group.kind == "G" {
        ClassesSnoc(ms, m);
      }
    } else {
      assert ms + [m] == [m];
      ClassesSnoc(ms, m);
    }
  }

  lemma ClassesSnoc(ms: seq<Membership>, m: Membership)
    ensures ClassesOf(ms + [m]) ==
      if m.className != "" && m.className !in ClassesOf(ms) then ClassesOf(ms) + [m.className] else ClassesOf(ms)
  {
    MapSnoc(ms, m, ClassNameOf);
    KeptSnoc(Map(ms, ClassNameOf), m.className);
  }

  /** One more name: kept and added once if it is non-empty. */
  lemma KeptSnoc(names: seq<string>, c: string)
    ensures Distinct(Filter(names + [c], Named)) ==
      if c != "" && c !in Distinct(Filter(names, Named)) then Distinct(Filter(names, Named)) + [c]
      else Distinct(Filter(names, Named))
  {
    assert (names + [c])[..|names|] == names;
    var kept := Filter(names, Named);
    if c != "" {
      DistinctMembers(kept);
      DistinctSnoc(kept, c);
    }
  }

  /** One pass of the inner loop body: open the group's entry if needed, then count the listing. */
  method AddListing(order: seq<int>, entries: map<int, Building>, m: Membership)
    returns (order': seq<int>, entries': map<int, Building>)
    ensures order' == if m.group.id in entries then order else order + [m.group.id]
    ensures entries' == entries[m.group.id := Joined(if m.group.id in entries then entries[m.group.id] else Opened(m.group), m)]
  {
    var grp := m.group;
    order', entries' := order, entries;
    if grp.id !in entries' {
      entries' := entries'[grp.id := Building(grp, grp.kind == "G", [], 0)];
      order' := order' + [grp.id];
    }
    var entry := entries'[grp.id];
    var classes := entry.classes;
    if entry.isGroup && m.className != "" && m.className !in classes {
      classes := classes + [m.className];
    }
    entries' := entries'[grp.id := entry.(classes := classes, studentCount := entry.studentCount + 1)];
  }

  lemma JoinStep(ms: seq<Membership>, m: Membership, order: seq<int>, entries: map<int, Building>)
    requires Gathered(ms, order, entries)
    ensures var id := m.group.id;
      Gathered(ms + [m], if id in entries then order else order + [id],
               entries[id := Joined(if id in entries then entries[id] else Opened(m.group), m)])
  {
    GroupBySnoc(ms, m, GroupId);
    DistinctKeysSnoc(ms, m, GroupId);
    BuiltStep(GroupBy(ms, GroupId), entries, m);
  }

  /** Appending a listing to its group keeps every entry the summary of its group. */
  lemma BuiltStep(g: map<int, seq<Membership>>, entries: map<int, Building>, m: Membership)
    requires Built(g, entries)
    ensures var id := m.group.id;
      Built(g[id := (if id in g then g[id] else []) + [m]],
            entries[id := Joined(if id in entries then entries[id] else Opened(m.group), m)])
  {
    var id := m.group.id;
    BuildingSnoc(if id in g then g[id] else [], m);
  }

  /** A student's listings up to its `j`-th group. */
  function Upto(st: TeacherStudent, j: int): TeacherStudent
    requires 0 <= j <= |st.groups|
  {
    TeacherStudent(st.student, st.groups[..j])
  }

  lemma ListingsSnoc(st: TeacherStudent, j: int)
    requires 0 <= j < |st.groups| && Known(Upto(st, j)) && st.groups[j].Some?
    ensures Known(Upto(st, j + 1))
    ensures Listings(Upto(st, j + 1)) == Listings(Upto(st, j)) + [Membership(st.groups[j].value, st.student.className)]
  {
  }

  /** The inner loop over one student's groups; `ok` is false when a listing has no group (`grp.id` throws). */
  method JoinStudent(ghost s: seq<Membership>, order: seq<int>, entries: map<int, Building>, st: TeacherStudent)
    returns (ok: bool, order': seq<int>, entries': map<int, Building>)
    requires Gathered(s, order, entries)
    ensures ok <==> Known(st)
    ensures ok ==> Gathered(s + Listings(st), order', entries')
  {
    order', entries' := order, entries;
    ghost var seen := s;
    assert Listings(Upto(st, 0)) == [];
    for j := 0 to |st.groups|
      invariant Known(Upto(st, j))
      invariant seen == s + Listings(Upto(st, j))
      invariant Gathered(seen, order', entries')
    {
      var grp := st.groups[j];
      if grp.None? {
        return false, order', entries';
      }
      var m := Membership(grp.value, st.student.className);
      order', entries' := JoinOne(seen, order', entries', m);
      SeenStep(s, st, j);
      seen := seen + [m];
    }
    assert Upto(st, |st.groups|) == st;
    ok := true;
  }

  lemma SeenStep(s: seq<Membership>, st: TeacherStudent, j: int)
    requires 0 <= j < |st.groups| && Known(Upto(st, j)) && st.groups[j].Some?
    ensures Known(Upto(st, j + 1))
    ensures s + Listings(Upto(st, j + 1)) == (s + Listings(Upto(st, j))) + [Membership(st.groups[j].value, st.student.className)]
  {
    ListingsSnoc(st, j);
  }

  /** One listing, with its proof. */
  method JoinOne(ghost seen: seq<Membership>, order: seq<int>, entries: map<int, Building>, m: Membership)
    returns (order': seq<int>, entries': map<int, Building>)
    requires Gathered(seen, order, entries)
    ensures Gathered(seen + [m], order', entries')
  {
    JoinStep(seen, m, order, entries);
    order', entries' := AddListing(order, entries, m);
  }

  lemma PrefixStep(students: seq<TeacherStudent>, i: int)
    requires 0 <= i < |students| && AllKnown(students[..i]) && Known(students[i])
    ensures AllKnown(students[..i + 1])
    ensures Memberships(students[..i + 1]) == Memberships(students[..i]) + Listings(students[i])
  {
    assert students[..i + 1][..i] == students[..i];
  }

  // ---------------------------------------------------------------------------
  // The formatted, sorted list

  /** A row of the page; `classes` is empty unless `isGroup`. */
  datatype Entry = Entry(id: int, name: string, code: string, kind: string, isGroup: bool,
                         classes: seq<string>, studentCount: nat)

  /** The `.map` over `groupMap`'s values: the classes of a group sorted. */
  function Format(b: Building): Entry
  {
    Entry(b.group.id, b.group.name, b.group.code, if b.isGroup then "group" else "class", b.isGroup,
          SortBy(b.classes, LexLe), b.studentCount)
  }

  /** `Array.from(groupMap.values()).map(...)`. */
  function Formatted(order: seq<int>, entries: map<int, Building>): (r: seq<Entry>)
    requires forall k :: 0 <= k < |order| ==> order[k] in entries
    ensures |r| == |order|
  {
    seq(|order|, k requires 0 <= k < |order| => Format(entries[order[k]]))
  }

  /** The comparator: classes before groups, then by name. */
  predicate EntryLe(a: Entry, b: Entry)
  {
    if a.isGroup != b.isGroup then !a.isGroup else LexLe(a.name, b.name)
  }

  lemma EntryOrder()
    ensures TotalPreorder(EntryLe)
  {
    LexPreorder();
  }

  /** The group `id` has a row. */
  predicate HasEntry(list: seq<Entry>, id: int)
  {
    exists i :: 0 <= i < |list| && list[i].id == id
  }

  /** Row `e` is what the listings of its group make of it. */
  ghost predicate Describes(e: Entry, ms: seq<Membership>)
  {
    |Where(ms, GroupId, e.id)| > 0 && e == Format(BuildingOf(Where(ms, GroupId, e.id)))
  }

  /** One row per group listed, and nothing else. */
  ghost predicate Summary(list: seq<Entry>, ms: seq<Membership>)
  {
    && (forall i :: 0 <= i < |list| ==> Describes(list[i], ms))
    && (forall i, j :: 0 <= i < j < |list| ==> list[i].id != list[j].id)
    && forall k :: 0 <= k < |ms| ==> HasEntry(list, ms[k].group.id)
  }

  /**
   * `loadEdData` over the students `getAllTeacherStudents` returned: `None`
   * when a listing has no group (the loop throws and the list is not
   * replaced), otherwise one row per group, classes first, each by name.
   */
  method LoadEdData(students: seq<TeacherStudent>) returns (r: Option<seq<Entry>>)
    ensures r.None? <==> !AllKnown(students)
    ensures r.Some? ==> AllKnown(students) && SortedBy(r.value, EntryLe) && Summary(r.value, Memberships(students))
  {
    var order: seq<int> := [];
    var entries: map<int, Building> := map[];
    for i := 0 to |students|
      invariant AllKnown(students[..i])
      invariant Gathered(Memberships(students[..i]), order, entries)
    {
      var ok;
      ok, order, entries := JoinStudent(Memberships(students[..i]), order, entries, students[i]);
      if !ok {
        return None;
      }
      PrefixStep(students, i);
    }
    assert students[..|students|] == students;
    OrderInEntries(Memberships(students), order, entries);
    var pairs := Formatted(order, entries);
    PairsSummary(Memberships(students), order, entries);
    EntryOrder();
    var list := SortBy(pairs, EntryLe);
    SortBySorted(pairs, EntryLe);
    SummaryPermuted(Memberships(students), pairs, list);
    r := Some(list);
  }

  lemma OrderInEntries(ms: seq<Membership>, order: seq<int>, entries: map<int, Building>)
    requires Gathered(ms, order, entries)
    ensures forall k :: 0 <= k < |order| ==> order[k] in entries
  {
    GroupByKeys(ms, GroupId);
    DistinctMembers(Map(ms, GroupId));
    forall k | 0 <= k < |order|
      ensures order[k] in entries
    {
      assert order[k] in order;
    }
  }

  /** The entry built from a group's listings carries that group's id. */
  lemma BuildingId(ms: seq<Membership>, id: int)
    requires |Where(ms, GroupId, id)| > 0
    ensures BuildingOf(Where(ms, GroupId, id)).group.id == id
  {
    WhereMembers(ms, GroupId, id);
    assert Where(ms, GroupId, id)[0] in Where(ms, GroupId, id);
  }

  lemma PairsSummary(ms: seq<Membership>, order: seq<int>, entries: map<int, Building>)
    requires Gathered(ms, order, entries)
    requires forall k :: 0 <= k < |order| ==> order[k] in entries
    ensures Summary(Formatted(order, entries), ms)
  {
    var pairs := Formatted(order, entries);
    PairsDescribe(ms, order, entries);
    PairsCover(ms, order, pairs);
  }

  lemma PairsDescribe(ms: seq<Membership>, order: seq<int>, entries: map<int, Building>)
    requires Gathered(ms, order, entries)
    requires forall k :: 0 <= k < |order| ==> order[k] in entries
    ensures forall k :: 0 <= k < |order| ==> Formatted(order, entries)[k].id == order[k]
    ensures forall k :: 0 <= k < |order| ==> Describes(Formatted(order, entries)[k], ms)
  {
    GroupByMeaning(ms, GroupId);
    forall k | 0 <= k < |order|
      ensures Formatted(order, entries)[k].id == order[k]
      ensures Describes(Formatted(order, entries)[k], ms)
    {
      BuildingId(ms, order[k]);
    }
  }

  lemma PairsCover(ms: seq<Membership>, order: seq<int>, pairs: seq<Entry>)
    requires order == Distinct(Map(ms, GroupId))
    requires |pairs| == |order| && forall k :: 0 <= k < |order| ==> pairs[k].id == order[k]
    ensures forall k :: 0 <= k < |ms| ==> HasEntry(pairs, ms[k].group.id)
  {
    forall k | 0 <= k < |ms|
      ensures HasEntry(pairs, ms[k].group.id)
    {
      assert Map(ms, GroupId)[k] == ms[k].group.id;
      assert ms[k].group.id in Distinct(Map(ms, GroupId));
      var i :| 0 <= i < |order| && order[i] == ms[k].group.id;
      assert pairs[i].id == order[i];
    }
  }

  /** Sorting the rows keeps the summary. */
  lemma SummaryPermuted(ms: seq<Membership>, pairs: seq<Entry>, list: seq<Entry>)
    requires Summary(pairs, ms) && multiset(list) == multiset(pairs)
    ensures Summary(list, ms)
  {
    forall i | 0 <= i < |list|
      ensures Describes(list[i], ms)
    {
      InPermutation(list, pairs, i);
    }
    IdsPermuted(pairs, list);
    CoverPermuted(ms, pairs, list);
  }

  lemma IdsPermuted(pairs: seq<Entry>, list: seq<Entry>)
    requires forall i, j :: 0 <= i < j < |pairs| ==> pairs[i].id != pairs[j].id
    requires multiset(list) == multiset(pairs)
    ensures forall i, j :: 0 <= i < j < |list| ==> list[i].id != list[j].id
  {
    assert NoDuplicates(pairs);
    PermutationKeepsDistinct(pairs, list);
    forall i, j | 0 <= i < j < |list|
      ensures list[i].id != list[j].id
    {
      InPermutation(list, pairs, i);
      InPermutation(list, pairs, j);
      var a :| 0 <= a < |pairs| && pairs[a] == list[i];
      var b :| 0 <= b < |pairs| && pairs[b] == list[j];
      if a < b {
        assert pairs[a].id != pairs[b].id;
      } else if b < a {
        assert pairs[b].id != pairs[a].id;
      }
    }
  }

  lemma CoverPermuted(ms: seq<Membership>, pairs: seq<Entry>, list: seq<Entry>)
    requires forall k :: 0 <= k < |ms| ==> HasEntry(pairs, ms[k].group.id)
    requires multiset(list) == multiset(pairs)
    ensures forall k :: 0 <= k < |ms| ==> HasEntry(list, ms[k].group.id)
  {
    forall k | 0 <= k < |ms|
      ensures HasEntry(list, ms[k].group.id)
    {
      var j :| 0 <= j < |pairs| && pairs[j].id == ms[k].group.id;
      InPermutation(pairs, list, j);
      var e :| 0 <= e < |list| && list[e] == pairs[j];
      assert list[e].id == ms[k].group.id;
    }
  }

  // ---------------------------------------------------------------------------
  // What a row says

  /** Listing `i` is the first one of group `id`. */
  predicate FirstListing(ms: seq<Membership>, id: int, i: int)
  {
    0 <= i < |ms| && ms[i].group.id == id && forall j :: 0 <= j < i ==> ms[j].group.id != id
  }

  /** The row takes its name, code and kind from group `g`. */
  predicate TakenFrom(e: Entry, g: GroupInfo)
  {
    e.name == g.name && e.code == g.code && (e.isGroup <==> g.kind == "G")
  }

  /** Some listing of group `id` comes from a student of class `c`. */
  predicate ListedIn(ms: seq<Membership>, id: int, c: string)
  {
    exists i :: 0 <= i < |ms| && ms[i].group.id == id && ms[i].className == c
  }

  /**
   * A row takes its name, code and kind from its group's first listing,
   * counts one student per listing, is a "group" or a "class" by that
   * kind, and lists no classes unless it is a group.
   */
  lemma EntryMeaning(e: Entry, ms: seq<Membership>)
    requires Describes(e, ms)
    ensures e.studentCount == CountKey(ms, GroupId, e.id)
    ensures exists i :: FirstListing(ms, e.id, i) && TakenFrom(e, ms[i].group)
    ensures e.kind == (if e.isGroup then "group" else "class")
    ensures !e.isGroup ==> e.classes == []
  {
    WhereHead(ms, e.id);
  }

  /** The first element filed under `id` is its first listing. */
  lemma {:induction false} WhereHead(ms: seq<Membership>, id: int)
    requires |Where(ms, GroupId, id)| > 0
    ensures exists i :: FirstListing(ms, id, i) && ms[i] == Where(ms, GroupId, id)[0]
    decreases |ms|
  {
    var prefix, x := ms[..|ms| - 1], ms[|ms| - 1];
    if |Where(prefix, GroupId, id)| > 0 {
      WhereHead(prefix, id);
      var i :| FirstListing(prefix, id, i) && prefix[i] == Where(prefix, GroupId, id)[0];
      assert ms[i] == prefix[i];
      assert FirstListing(ms, id, i);
    } else {
      WhereEmpty(prefix, GroupId, id);
      assert FirstListing(ms, id, |ms| - 1);
    }
  }

  /** A group's classes are sorted, each listed once, and are exactly the non-empty classes of its students. */
  lemma EntryClasses(e: Entry, ms: seq<Membership>)
    requires Describes(e, ms) && e.isGroup
    ensures SortedBy(e.classes, LexLe)
    ensures NoDuplicates(e.classes)
    ensures forall c :: c in e.classes <==> c != "" && ListedIn(ms, e.id, c)
  {
    var w := Where(ms, GroupId, e.id);
    assert e.classes == SortBy(ClassesOf(w), LexLe);
    LexPreorder();
    SortBySorted(ClassesOf(w), LexLe);
    PermutationKeepsDistinct(ClassesOf(w), e.classes);
    forall c
      ensures c in e.classes <==> c != "" && ListedIn(ms, e.id, c)
    {
      assert c in e.classes <==> c in multiset(ClassesOf(w));
      ClassesMember(ms, e.id, c);
    }
  }

  lemma ClassesMember(ms: seq<Membership>, id: int, c: string)
    ensures c in ClassesOf(Where(ms, GroupId, id)) <==> c != "" && ListedIn(ms, id, c)
  {
    if c in ClassesOf(Where(ms, GroupId, id)) {
      ClassListed(ms, id, c);
    }
    if c != "" && ListedIn(ms, id, c) {
      ListedClass(ms, id, c);
    }
  }

  lemma ClassListed(ms: seq<Membership>, id: int, c: string)
    requires c in ClassesOf(Where(ms, GroupId, id))
    ensures c != "" && ListedIn(ms, id, c)
  {
    var w := Where(ms, GroupId, id);
    ClassInListings(w, c);
    var k :| 0 <= k < |w| && w[k].className == c;
    WhereMembers(ms, GroupId, id);
    assert w[k] in w;
    var i :| 0 <= i < |ms| && ms[i] == w[k];
  }

  lemma ClassInListings(w: seq<Membership>, c: string)
    requires c in ClassesOf(w)
    ensures c != "" && exists k :: 0 <= k < |w| && w[k].className == c
  {
    var names := Map(w, ClassNameOf);
    DistinctMembers(Filter(names, Named));
    assert c in Filter(names, Named);
    assert c in names;
  }

  lemma ListedClass(ms: seq<Membership>, id: int, c: string)
    requires c != "" && ListedIn(ms, id, c)
    ensures c in ClassesOf(Where(ms, GroupId, id))
  {
    var w := Where(ms, GroupId, id);
    var names := Map(w, ClassNameOf);
    var i :| 0 <= i < |ms| && ms[i].group.id == id && ms[i].className == c;
    WhereMembers(ms, GroupId, id);
    assert ms[i] in w;
    var k :| 0 <= k < |w| && w[k] == ms[i];
    assert names[k] == c;
    assert c in Filter(names, Named);
    DistinctMembers(Filter(names, Named));
  }

  // ---------------------------------------------------------------------------
  // Subtitle

  predicate IsClassEntry(e: Entry)
  {
    !e.isGroup
  }

  predicate IsGroupEntry(e: Entry)
  {
    e.isGroup
  }

  // The page's accented letters are kept as the source file spells them.
  const MANAGE_HINT := "G√©rez vos classes et cr√©ez des groupes"
  const NONE_FOUND := "Aucune classe trouv√©e"
  const SYNCED := " synchronis√©"
  const FROM_ED := " depuis √âcole Directe"

  function Plural(n: int): string
  {
    if n > 1 then "s" else ""
  }

  /** `${n} classe${n > 1 ? 's' : ''}`. */
  function Counted(n: nat, word: string): string
  {
    Dates.NatToString(n) + " " + word + Plural(n)
  }

  function Parts(classCount: nat, groupCount: nat): seq<string>
  {
    (if classCount > 0 then [Counted(classCount, "classe")] else [])
    + (if groupCount > 0 then [Counted(groupCount, "groupe")] else [])
  }

  /** The header's subtitle. */
  function Subtitle(edConnected: bool, groups: seq<Entry>): string
  {
    if !edConnected then MANAGE_HINT
    else
      var classCount := Count(groups, IsClassEntry);
      var groupCount := Count(groups, IsGroupEntry);
      var parts := Parts(classCount, groupCount);
      if |parts| > 0 then Join(parts, " et ") + SYNCED + Plural(classCount + groupCount) + FROM_ED
      else NONE_FOUND
  }

  /** Every row is a class or a group. */
  lemma {:induction false} ClassesAndGroups(groups: seq<Entry>)
    ensures Count(groups, IsClassEntry) + Count(groups, IsGroupEntry) == |groups|
    decreases |groups|
  {
    if |groups| > 0 {
      ClassesAndGroups(groups[..|groups| - 1]);
    }
  }

  /**
   * Connected, the subtitle says "none found" exactly for an empty list;
   * otherwise it names the class and group counts, and its plural follows
   * the number of rows.
   */
  lemma SubtitleMeaning(groups: seq<Entry>)
    ensures Subtitle(false, groups) == MANAGE_HINT
    ensures |groups| == 0 ==> Subtitle(true, groups) == NONE_FOUND
    ensures var parts := Parts(Count(groups, IsClassEntry), Count(groups, IsGroupEntry));
      |groups| > 0 ==> 1 <= |parts| <= 2 && Subtitle(true, groups) == Join(parts, " et ") + SYNCED + Plural(|groups|) + FROM_ED
  {
    ClassesAndGroups(groups);
  }

  // ---------------------------------------------------------------------------
  // Delete

  /**
   * `handleDeleteGroup`: without confirmation, or when the delete fails,
   * the list stays; otherwise exactly the rows with that id leave it.
   */
  function DeleteGroup(groups: seq<Entry>, groupId: int, confirmed: bool, failed: bool): (r: seq<Entry>)
    ensures !confirmed || failed ==> r == groups
    ensures confirmed && !failed ==> forall e :: e in r <==> e in groups && e.id != groupId
    ensures multiset(r) <= multiset(groups)
  {
    if !confirmed || failed then groups else Filter(groups, (c: Entry) => c.id != groupId)
  }
}
