/**
 * The DST creation form: picking classes (at most two in a mixed room),
 * each class's room and invigilator, the selected and "dispositif"
 * students, and the rows the form writes to the DST schedule, one per class.
 */
module DstManager {
  import opened Wrappers
  import opened Collections
  import opened Text
  import DstLiveBoard

  type Population = DstLiveBoard.Population

  const MIXTE_MAX_CLASSES := 2
  const AVAILABLE_CLASSES := ["2A", "2B", "2C", "2D", "1A", "1B", "1C", "TA", "TB", "TC"]
  const SOURCE_MANUAL := "manual"

  /** `formData`. */
  datatype FormData = FormData(dstDate: string, startTime: string, endTime: string, subject: string,
                               classes: seq<string>, population: Population, populationDetails: string)

  const DEFAULT_FORM := FormData("", "08:00", "12:00", "", [], DstLiveBoard.Entiere, "")

  /** One class's `{ room, professor }`; a field an edit never set is absent. */
  datatype Detail = Detail(room: Option<string>, professor: Option<string>)

  const EMPTY_DETAIL := Detail(Some(""), Some(""))

  datatype DetailField = Room | Professor

  /** A student of the directory, as the student repository returns it. */
  datatype StudentRecord = StudentRecord(id: int, lastName: string, firstName: string, classLabel: string)

  /** One row written to the DST schedule. */
  datatype Entry = Entry(dstDate: string, startTime: string, endTime: string, className: string,
                         subject: string, professor: Option<string>, room: Option<string>,
                         population: Population, populationDetails: Option<string>,
                         selectedStudentIds: Option<seq<int>>, dispositifStudentIds: seq<int>,
                         source: string)

  // ---------------------------------------------------------------------
  // Toggling membership

  /** The test `x !== id` as a value, so that every use filters with the same condition. */
  function Differs<T(==)>(id: T): T -> bool
  {
    (x: T) => x != id
  }

  /** `s.filter(x => x !== id)`. */
  function Removed<T(==)>(s: seq<T>, id: T): (r: seq<T>)
    ensures forall i :: 0 <= i < |r| ==> r[i] in s && r[i] != id
    ensures forall i :: 0 <= i < |s| && s[i] != id ==> s[i] in r
    ensures multiset(r) <= multiset(s)
  {
    Filter(s, Differs(id))
  }

  /** `prev.includes(id) ? prev.filter(x => x !== id) : [...prev, id]`. */
  function Toggle<T(==)>(s: seq<T>, id: T): (r: seq<T>)
  {
    if id in s then Removed(s, id) else s + [id]
  }

  /** Toggling flips the membership of `id` and of nothing else. */
  lemma ToggleMembership<T>(s: seq<T>, id: T)
    ensures id in Toggle(s, id) <==> id !in s
    ensures forall x :: x != id ==> (x in Toggle(s, id) <==> x in s)
  {
  }

  /** Toggling twice restores the membership of every id, and the very list when `id` was absent. */
  lemma ToggleTwice<T>(s: seq<T>, id: T)
    ensures forall x :: x in Toggle(Toggle(s, id), id) <==> x in s
    ensures id !in s ==> Toggle(Toggle(s, id), id) == s
  {
    ToggleMembership(s, id);
    ToggleMembership(Toggle(s, id), id);
    if id !in s {
      FilterAppend(s, [id], Differs(id));
      FilterAll(s, Differs(id));
    }
  }

  /** A list without repeats stays without repeats. */
  lemma ToggleKeepsDistinct<T>(s: seq<T>, id: T)
    requires NoDuplicates(s)
    ensures NoDuplicates(Toggle(s, id))
  {
    if id in s {
      FewerKeepsDistinct(s, Removed(s, id));
    }
  }

  // ---------------------------------------------------------------------
  // Class details

  /** `{ ...prev, [cls]: { ...prev[cls], [field]: value } }`. */
  function DetailUpdated(details: map<string, Detail>, cls: string, field: DetailField, value: string): (r: map<string, Detail>)
    ensures r.Keys == details.Keys + {cls}
    ensures forall k :: k in details && k != cls ==> r[k] == details[k]
    ensures field.Room? ==> (r[cls].room == Some(value) &&
      r[cls].professor == (if cls in details then details[cls].professor else None))
    ensures field.Professor? ==> (r[cls].professor == Some(value) &&
      r[cls].room == (if cls in details then details[cls].room else None))
  {
    var old_ := if cls in details then details[cls] else Detail(None, None);
    details[cls := if field.Room? then old_.(room := Some(value)) else old_.(professor := Some(value))]
  }

  // ---------------------------------------------------------------------
  // Submitting

  /** `x || null` for a string that may be missing. */
  function OrNull(s: Option<string>): (r: Option<string>)
    ensures r.Some? <==> s.Some? && s.value != ""
    ensures r.Some? ==> r == s
  {
    if s.Some? && s.value != "" then s else None
  }

  /** `availableStudents.find(s => s.id === id)?.class_label`. */
  function ClassOf(students: seq<StudentRecord>, id: int): (c: Option<string>)
    ensures c.Some? <==> exists i :: 0 <= i < |students| && students[i].id == id
    ensures c.Some? ==> exists i :: (0 <= i < |students| && students[i].id == id &&
                                     students[i].classLabel == c.value && forall j :: 0 <= j < i ==> students[j].id != id)
  {
    var i := FirstWhere(students, (s: StudentRecord) => s.id == id);
    if i < |students| then Some(students[i].classLabel) else None
  }

  /** `ids.filter(id => availableStudents.find(s => s.id === id)?.class_label === cls)`. */
  function IdsOfClass(ids: seq<int>, students: seq<StudentRecord>, cls: string): (r: seq<int>)
    ensures forall id :: id in r <==> id in ids && ClassOf(students, id) == Some(cls)
    ensures multiset(r) <= multiset(ids)
  {
    Filter(ids, (id: int) => ClassOf(students, id) == Some(cls))
  }

  /** The schedule row `handleSubmit` builds for class `cls`. */
  function EntryFor(form: FormData, details: map<string, Detail>, selected: seq<int>, dispositif: seq<int>,
                    students: seq<StudentRecord>, cls: string): (e: Entry)
    ensures e.className == cls && e.source == SOURCE_MANUAL
    ensures e.dstDate == form.dstDate && e.subject == form.subject && e.population == form.population
    ensures e.professor.Some? ==> cls in details && e.professor == details[cls].professor
    ensures e.room.Some? ==> cls in details && e.room == details[cls].room
    ensures e.selectedStudentIds.Some? <==> form.population.Mixte?
    ensures e.selectedStudentIds.Some? ==> e.selectedStudentIds.value == IdsOfClass(selected, students, cls)
    ensures e.dispositifStudentIds == IdsOfClass(dispositif, students, cls)
  {
    var detail := if cls in details then Some(details[cls]) else None;
    Entry(form.dstDate, form.startTime, form.endTime, cls, form.subject,
          OrNull(if detail.Some? then detail.value.professor else None),
          OrNull(if detail.Some? then detail.value.room else None),
          form.population, OrNull(Some(form.populationDetails)),
          if form.population.Mixte? then Some(IdsOfClass(selected, students, cls)) else None,
          IdsOfClass(dispositif, students, cls), SOURCE_MANUAL)
  }

  /** `formData.classes.map(cls => ({ … }))`. */
  function Entries(form: FormData, details: map<string, Detail>, selected: seq<int>, dispositif: seq<int>,
                   students: seq<StudentRecord>): (r: seq<Entry>)
    ensures |r| == |form.classes|
    ensures forall i :: 0 <= i < |r| ==> r[i] == EntryFor(form, details, selected, dispositif, students, form.classes[i])
  {
    Map(form.classes, (cls: string) => EntryFor(form, details, selected, dispositif, students, cls))
  }

  /** A student picked for a mixed room appears in the row of their own class and in no other. */
  lemma SelectedStudentInOwnRow(form: FormData, details: map<string, Detail>, selected: seq<int>, dispositif: seq<int>,
                                students: seq<StudentRecord>, i: int, id: int)
    requires form.population.Mixte? && 0 <= i < |form.classes|
    requires id in selected
    ensures var e := Entries(form, details, selected, dispositif, students)[i];
      e.selectedStudentIds.Some? &&
      (id in e.selectedStudentIds.value <==> ClassOf(students, id) == Some(form.classes[i]))
  {
  }

  // ---------------------------------------------------------------------
  // The student list

  /** `` `${s.last_name} ${s.first_name}`.toLowerCase().includes(search.toLowerCase()) ``. */
  predicate Matches(search: string, s: StudentRecord)
  {
    Contains(Lower(s.lastName + " " + s.firstName), Lower(search))
  }

  /** `visibleStudents`. */
  function VisibleStudents(students: seq<StudentRecord>, search: string): (r: seq<StudentRecord>)
    ensures forall i :: 0 <= i < |r| ==> r[i] in students && Matches(search, r[i])
    ensures forall i :: 0 <= i < |students| && Matches(search, students[i]) ==> students[i] in r
  {
    Filter(students, (s: StudentRecord) => Matches(search, s))
  }

  /** An empty search shows the whole directory, in order. */
  lemma EmptySearchShowsAll(students: seq<StudentRecord>)
    ensures VisibleStudents(students, "") == students
  {
    forall i | 0 <= i < |students|
      ensures Matches("", students[i])
    {
      ContainsEmpty(Lower(students[i].lastName + " " + students[i].firstName));
    }
    FilterAll(students, (s: StudentRecord) => Matches("", s));
  }

  // ---------------------------------------------------------------------
  // The form's state

  class DstForm {
    var form: FormData
    var classDetails: map<string, Detail>
    var selectedStudentIds: seq<int>
    var dispositifStudentIds: seq<int>

    /** Each chosen class is listed once and has its details. */
    ghost predicate Valid()
      reads this
    {
      && NoDuplicates(form.classes)
      && (forall c :: c in form.classes ==> c in classDetails)
      && NoDuplicates(selectedStudentIds)
      && NoDuplicates(dispositifStudentIds)
    }

    constructor()
      ensures Valid()
      ensures form == DEFAULT_FORM && classDetails == map[]
      ensures selectedStudentIds == [] && dispositifStudentIds == []
    {
      form := DEFAULT_FORM;
      classDetails := map[];
      selectedStudentIds := [];
      dispositifStudentIds := [];
    }

    /** `handleClassToggle(cls)`; `refused` is the alert shown when a mixed room already has two classes. */
    method ClassToggle(cls: string) returns (refused: bool)
      requires Valid()
      modifies this
      ensures Valid()
      ensures refused <==> (cls !in old(form.classes) && old(form.population).Mixte? &&
        |old(form.classes)| >= MIXTE_MAX_CLASSES)
      ensures refused ==> form == old(form) && classDetails == old(classDetails)
      ensures !refused ==> form == old(form).(classes := Toggle(old(form.classes), cls))
      ensures !refused && cls in old(form.classes) ==> classDetails == old(classDetails) - {cls}
      ensures !refused && cls !in old(form.classes) ==> classDetails == old(classDetails)[cls := EMPTY_DETAIL]
      ensures unchanged(this`selectedStudentIds, this`dispositifStudentIds)
    {
      var removing := cls in form.classes;
      if !removing && form.population.Mixte? && |form.classes| >= MIXTE_MAX_CLASSES {
        return true;
      }
      ToggleKeepsDistinct(form.classes, cls);
      if removing {
        classDetails := classDetails - {cls};
      } else {
        classDetails := classDetails[cls := EMPTY_DETAIL];
      }
      form := form.(classes := Toggle(form.classes, cls));
      refused := false;
    }

    /** `updateClassDetail(cls, field, value)`. */
    method UpdateClassDetail(cls: string, field: DetailField, value: string)
      requires Valid()
      modifies this
      ensures Valid()
      ensures classDetails == DetailUpdated(old(classDetails), cls, field, value)
      ensures unchanged(this`form, this`selectedStudentIds, this`dispositifStudentIds)
    {
      classDetails := DetailUpdated(classDetails, cls, field, value);
    }

    /** `toggleStudent(id)`. */
    method ToggleStudent(id: int)
      requires Valid()
      modifies this
      ensures Valid()
      ensures selectedStudentIds == Toggle(old(selectedStudentIds), id)
      ensures unchanged(this`form, this`classDetails, this`dispositifStudentIds)
    {
      ToggleKeepsDistinct(selectedStudentIds, id);
      selectedStudentIds := Toggle(selectedStudentIds, id);
    }

    /** `toggleDispositif(id)`. */
    method ToggleDispositif(id: int)
      requires Valid()
      modifies this
      ensures Valid()
      ensures dispositifStudentIds == Toggle(old(dispositifStudentIds), id)
      ensures unchanged(this`form, this`classDetails, this`selectedStudentIds)
    {
      ToggleKeepsDistinct(dispositifStudentIds, id);
      dispositifStudentIds := Toggle(dispositifStudentIds, id);
    }

    /** `resetForm()`. */
    method ResetForm()
      modifies this
      ensures Valid()
      ensures form == DEFAULT_FORM && classDetails == map[]
      ensures selectedStudentIds == [] && dispositifStudentIds == []
    {
      form := DEFAULT_FORM;
      classDetails := map[];
      selectedStudentIds := [];
      dispositifStudentIds := [];
    }

    /**
     * `handleSubmit`: with no class nothing is written; otherwise the rows
     * for every class go to the schedule, and the form is reset when the
     * write (`saved`) succeeds.
     */
    method Submit(students: seq<StudentRecord>, saved: bool) returns (written: Option<seq<Entry>>)
      requires Valid()
      modifies this
      ensures Valid()
      ensures |old(form.classes)| == 0 ==> written.None?
      ensures |old(form.classes)| > 0 ==>
        written == Some(Entries(old(form), old(classDetails), old(selectedStudentIds), old(dispositifStudentIds), students))
      ensures written.Some? && saved ==> (form == DEFAULT_FORM && classDetails == map[] &&
        selectedStudentIds == [] && dispositifStudentIds == [])
      ensures written.None? || !saved ==>
        unchanged(this`form, this`classDetails, this`selectedStudentIds, this`dispositifStudentIds)
    {
      if |form.classes| == 0 {
        return None;
      }
      written := Some(Entries(form, classDetails, selectedStudentIds, dispositifStudentIds, students));
      if saved {
        ResetForm();
      }
    }
  }
}
