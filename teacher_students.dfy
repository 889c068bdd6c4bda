/**
 * The teacher's students page: the group and class choices it derives from
 * the students, the filtered list it shows, and the grouping by class it
 * hands to the directory sync.
 */
module TeacherStudents {
  import opened Wrappers
  import opened Collections
  import opened Text
  import opened RealEcoleDirecteClient
  import TeacherClasses

  // ---------------------------------------------------------------------------
  // Group choices

  function GroupOf(m: TeacherClasses.Membership): GroupInfo
  {
    m.group
  }

  function InfoId(g: GroupInfo): int
  {
    g.id
  }

  /** `students.flatMap(s => s.groups)`. */
  function AllGroups(students: seq<TeacherStudent>): seq<GroupInfo>
    requires TeacherClasses.AllKnown(students)
  {
    Map(TeacherClasses.Memberships(students), GroupOf)
  }

  /** Some group of `gs` has id `id`. */
  predicate HasId(gs: seq<GroupInfo>, id: int)
  {
    exists i :: 0 <= i < |gs| && gs[i].id == id
  }

  /** `g` is the last group of `gs` with its id. */
  predicate LastOfId(gs: seq<GroupInfo>, g: GroupInfo)
  {
    exists i :: 0 <= i < |gs| && gs[i] == g && forall j :: i < j < |gs| ==> gs[j].id != g.id
  }

  /** What a `Map` fed the pairs `[g.id, g]` holds under `id`: the last one set. */
  function LastWithId(gs: seq<GroupInfo>, id: int): (g: GroupInfo)
    requires HasId(gs, id)
    ensures g.id == id && LastOfId(gs, g)
    decreases |gs|
  {
    if gs[|gs| - 1].id == id then
      LastIsLast(gs);
      gs[|gs| - 1]
    else
      PrefixHasId(gs, id);
      var g := LastWithId(gs[..|gs| - 1], id);
      LastOfIdSnoc(gs, g);
      g
  }

  lemma LastIsLast(gs: seq<GroupInfo>)
    requires |gs| > 0
    ensures LastOfId(gs, gs[|gs| - 1])
  {
  }

  lemma PrefixHasId(gs: seq<GroupInfo>, id: int)
    requires HasId(gs, id) && gs[|gs| - 1].id != id
    ensures HasId(gs[..|gs| - 1], id)
  {
    var i :| 0 <= i < |gs| && gs[i].id == id;
    assert gs[..|gs| - 1][i] == gs[i];
  }

  lemma LastOfIdSnoc(gs: seq<GroupInfo>, g: GroupInfo)
    requires |gs| > 0 && LastOfId(gs[..|gs| - 1], g) && gs[|gs| - 1].id != g.id
    ensures LastOfId(gs, g)
  {
    var prefix := gs[..|gs| - 1];
    var i :| 0 <= i < |prefix| && prefix[i] == g && forall j :: i < j < |prefix| ==> prefix[j].id != g.id;
    assert gs[i] == g;
    forall j | i < j < |gs|
      ensures gs[j].id != g.id
    {
      if j < |prefix| {
        assert gs[j] == prefix[j];
      }
    }
  }

  lemma IdsListed(gs: seq<GroupInfo>)
    ensures forall k :: 0 <= k < |Distinct(Map(gs, InfoId))| ==> HasId(gs, Distinct(Map(gs, InfoId))[k])
  {
    var ids := Distinct(Map(gs, InfoId));
    forall k | 0 <= k < |ids|
      ensures HasId(gs, ids[k])
    {
      assert ids[k] in Map(gs, InfoId);
      var i :| 0 <= i < |gs| && Map(gs, InfoId)[i] == ids[k];
      assert gs[i].id == ids[k];
    }
  }

  /**
   * `[...new Map(gs.map(g => [g.id, g])).values()]`: each id once, at the
   * place it was first set, holding the last group set under it.
   */
  function MapValues(gs: seq<GroupInfo>): (r: seq<GroupInfo>)
    ensures |r| == |Distinct(Map(gs, InfoId))|
    ensures forall k :: 0 <= k < |r| ==> r[k].id == Distinct(Map(gs, InfoId))[k] && LastOfId(gs, r[k])
  {
    var ids := Distinct(Map(gs, InfoId));
    IdsListed(gs);
    seq(|ids|, k requires 0 <= k < |ids| => LastWithId(gs, ids[k]))
  }

  /** The comparator `(a.name || '').localeCompare(b.name || '')`. */
  predicate NameLe(a: GroupInfo, b: GroupInfo)
  {
    LexLe(a.name, b.name)
  }

  lemma NameOrder()
    ensures TotalPreorder(NameLe)
  {
    LexPreorder();
  }

  /** `groups`: the groups of the students, one per id, sorted by name. */
  function Groups(students: seq<TeacherStudent>): seq<GroupInfo>
    requires TeacherClasses.AllKnown(students)
  {
    SortBy(MapValues(AllGroups(students)), NameLe)
  }

  /**
   * The group choices are sorted by name, list each id once and every id
   * of the students' groups, each holding the last group seen with it.
   */
  lemma GroupsMeaning(students: seq<TeacherStudent>)
    requires TeacherClasses.AllKnown(students)
    ensures SortedBy(Groups(students), NameLe)
    ensures forall i, j :: 0 <= i < j < |Groups(students)| ==> Groups(students)[i].id != Groups(students)[j].id
    ensures forall i :: 0 <= i < |Groups(students)| ==> LastOfId(AllGroups(students), Groups(students)[i])
    ensures forall k :: 0 <= k < |AllGroups(students)| ==> HasId(Groups(students), AllGroups(students)[k].id)
  {
    var gs := AllGroups(students);
    var values := MapValues(gs);
    var r := Groups(students);
    NameOrder();
    SortBySorted(values, NameLe);
    ValuesDistinct(gs);
    IdsStayDistinct(values, r);
    forall i | 0 <= i < |r|
      ensures LastOfId(gs, r[i])
    {
      InPermutation(r, values, i);
    }
    ValuesCover(gs);
    CoverStays(gs, values, r);
  }

  lemma ValuesDistinct(gs: seq<GroupInfo>)
    ensures forall i, j :: 0 <= i < j < |MapValues(gs)| ==> MapValues(gs)[i].id != MapValues(gs)[j].id
  {
    var ids := Distinct(Map(gs, InfoId));
    assert NoDuplicates(ids);
  }

  lemma ValuesCover(gs: seq<GroupInfo>)
    ensures forall k :: 0 <= k < |gs| ==> HasId(MapValues(gs), gs[k].id)
  {
    var ids := Distinct(Map(gs, InfoId));
    var values := MapValues(gs);
    forall k | 0 <= k < |gs|
      ensures HasId(values, gs[k].id)
    {
      assert Map(gs, InfoId)[k] == gs[k].id;
      assert gs[k].id in ids;
      var i :| 0 <= i < |ids| && ids[i] == gs[k].id;
      assert values[i].id == ids[i];
    }
  }

  lemma IdsStayDistinct(values: seq<GroupInfo>, r: seq<GroupInfo>)
    requires forall i, j :: 0 <= i < j < |values| ==> values[i].id != values[j].id
    requires multiset(r) == multiset(values)
    ensures forall i, j :: 0 <= i < j < |r| ==> r[i].id != r[j].id
  {
    assert NoDuplicates(values);
    PermutationKeepsDistinct(values, r);
    forall i, j | 0 <= i < j < |r|
      ensures r[i].id != r[j].id
    {
      InPermutation(r, values, i);
      InPermutation(r, values, j);
      var a :| 0 <= a < |values| && values[a] == r[i];
      var b :| 0 <= b < |values| && values[b] == r[j];
      if a < b {
        assert values[a].id != values[b].id;
      } else if b < a {
        assert values[b].id != values[a].id;
      }
    }
  }

  lemma CoverStays(gs: seq<GroupInfo>, values: seq<GroupInfo>, r: seq<GroupInfo>)
    requires forall k :: 0 <= k < |gs| ==> HasId(values, gs[k].id)
    requires multiset(r) == multiset(values)
    ensures forall k :: 0 <= k < |gs| ==> HasId(r, gs[k].id)
  {
    forall k | 0 <= k < |gs|
      ensures HasId(r, gs[k].id)
    {
      var j :| 0 <= j < |values| && values[j].id == gs[k].id;
      InPermutation(values, r, j);
      var e :| 0 <= e < |r| && r[e] == values[j];
      assert r[e].id == gs[k].id;
    }
  }

  // ---------------------------------------------------------------------------
  // Class choices

  function StudentClass(st: TeacherStudent): string
  {
    st.student.className
  }

  /** `[...new Set(students.map(s => s.className))].sort()`. */
  function Classes(students: seq<TeacherStudent>): seq<string>
  {
    SortBy(Distinct(Map(students, StudentClass)), LexLe)
  }

  /** Some student is in class `c`. */
  predicate HasClass(students: seq<TeacherStudent>, c: string)
  {
    exists i :: 0 <= i < |students| && students[i].student.className == c
  }

  /** The class choices are sorted, listed once each, and are exactly the students' classes. */
  lemma ClassesMeaning(students: seq<TeacherStudent>)
    ensures SortedBy(Classes(students), LexLe)
    ensures NoDuplicates(Classes(students))
    ensures forall c :: c in Classes(students) <==> HasClass(students, c)
  {
    var names := Map(students, StudentClass);
    LexPreorder();
    SortBySorted(Distinct(names), LexLe);
    PermutationKeepsDistinct(Distinct(names), Classes(students));
    forall c
      ensures c in Classes(students) <==> HasClass(students, c)
    {
      assert c in Classes(students) <==> c in multiset(Distinct(names));
      ClassNamed(students, c);
    }
  }

  lemma ClassNamed(students: seq<TeacherStudent>, c: string)
    ensures c in Distinct(Map(students, StudentClass)) <==> HasClass(students, c)
  {
    var names := Map(students, StudentClass);
    DistinctMembers(names);
    if HasClass(students, c) {
      var i :| 0 <= i < |students| && students[i].student.className == c;
      assert names[i] == c;
    }
  }

  // ---------------------------------------------------------------------------
  // Filtering

  /** A select that is either 'all' or one value. */
  datatype Choice<T> = All | Only(value: T)

  /** The search box: the lower-cased term in the lower-cased first name, last name or (non-empty) email. */
  predicate MatchesSearch(st: GroupStudent, term: string)
  {
    var t := Lower(term);
    Contains(Lower(st.firstName), t) || Contains(Lower(st.lastName), t)
    || (st.email.Some? && st.email.value != "" && Contains(Lower(st.email.value), t))
  }

  /** The student is listed in group `id`. */
  predicate InGroup(st: TeacherStudent, id: int)
  {
    exists j :: 0 <= j < |st.groups| && st.groups[j].Some? && st.groups[j].value.id == id
  }

  predicate Matches(st: TeacherStudent, term: string, group: Choice<int>, cls: Choice<string>)
  {
    && MatchesSearch(st.student, term)
    && (group.All? || InGroup(st, group.value))
    && (cls.All? || st.student.className == cls.value)
  }

  /** `filteredStudents`; the group choice is the parsed id of the selected group. */
  function FilteredStudents(students: seq<TeacherStudent>, term: string, group: Choice<int>, cls: Choice<string>)
    : (r: seq<TeacherStudent>)
    requires TeacherClasses.AllKnown(students)
    ensures forall st :: st in r <==> st in students && Matches(st, term, group, cls)
    ensures multiset(r) <= multiset(students)
  {
    Filter(students, (st: TeacherStudent) => Matches(st, term, group, cls))
  }

  /** The search ignores case, in the term as in the names. */
  lemma SearchIgnoresCase(st: GroupStudent, term: string)
    ensures MatchesSearch(st, Upper(term)) == MatchesSearch(st, term)
    ensures MatchesSearch(st, Lower(term)) == MatchesSearch(st, term)
    ensures MatchesSearch(st.(firstName := Upper(st.firstName), lastName := Upper(st.lastName)), term) == MatchesSearch(st, term)
  {
    LowerOfUpper(term);
    LowerIdempotent(term);
    LowerOfUpper(st.firstName);
    LowerOfUpper(st.lastName);
  }

  /** An empty search with both selects on 'all' shows every student. */
  lemma NoFilterKeepsAll(students: seq<TeacherStudent>)
    requires TeacherClasses.AllKnown(students)
    ensures FilteredStudents(students, "", All, All) == students
  {
    forall i | 0 <= i < |students|
      ensures Matches(students[i], "", All, All)
    {
      ContainsEmpty(Lower(students[i].student.firstName));
    }
    FilterAll(students, (st: TeacherStudent) => Matches(st, "", All, All));
  }

  // ---------------------------------------------------------------------------
  // Harvest

  const UNKNOWN_CLASS := "UNKNOWN"

  /** `s.className || 'UNKNOWN'`. */
  function HarvestClass(st: TeacherStudent): string
  {
    if st.student.className == "" then UNKNOWN_CLASS else st.student.className
  }

  /** `byClass`: the students grouped by class, in order of first sight. */
  function ByClass(students: seq<TeacherStudent>): map<string, seq<TeacherStudent>>
  {
    GroupBy(students, HarvestClass)
  }

  /**
   * The harvest partitions the students: each is filed under its class (or
   * "UNKNOWN" without one), each class holds exactly its students in
   * order, and the classes together hold every student once.
   */
  lemma HarvestPartition(students: seq<TeacherStudent>)
    ensures forall i :: 0 <= i < |students| ==> HarvestClass(students[i]) in ByClass(students)
    ensures forall c :: c in ByClass(students) ==> ByClass(students)[c] == Where(students, HarvestClass, c) && |ByClass(students)[c]| > 0
    ensures forall i :: 0 <= i < |students| && students[i].student.className == "" ==> UNKNOWN_CLASS in ByClass(students)
    ensures SumCounts(students, HarvestClass, Distinct(Map(students, HarvestClass))) == |students|
  {
    GroupByMeaning(students, HarvestClass);
    var ks := Distinct(Map(students, HarvestClass));
    forall i | 0 <= i < |students|
      ensures HarvestClass(students[i]) in ks
    {
      assert Map(students, HarvestClass)[i] == HarvestClass(students[i]);
    }
    PartitionCount(students, HarvestClass, ks);
  }
}
