/**
 * The student search box: the suggestion list computed from the query, and
 * the keyboard navigation through it.  The student list is the one loaded
 * when the box is mounted; the box's effects (recomputing the suggestions
 * when the query changes) are folded into the handlers that change it.
 */
module StudentAutocomplete {
  import opened Wrappers
  import opened Collections
  import opened Text

  const MAX_SUGGESTIONS := 8

  /** A student as the search reads it; an absent field is the empty string. */
  datatype Student = Student(classLabel: string, lastName: string, firstName: string)

  /** The student matches when the lower-cased query occurs in "class last first" or in "last first". */
  predicate Matches(query: string, s: Student)
  {
    var q := Lower(query);
    Contains(Lower(s.classLabel + " " + s.lastName + " " + s.firstName), q)
    || Contains(Lower(s.lastName + " " + s.firstName), q)
  }

  /** The suggestions for a query: nothing under two characters, else the first eight matching students. */
  function Suggestions(students: seq<Student>, query: string): (r: seq<Student>)
    ensures |r| <= MAX_SUGGESTIONS
    ensures |query| < 2 ==> r == []
    ensures forall i :: 0 <= i < |r| ==> r[i] in students && Matches(query, r[i])
    ensures |query| >= 2 && |Filter(students, s => Matches(query, s))| <= MAX_SUGGESTIONS ==>
      forall s :: s in students && Matches(query, s) ==> s in r
  {
    if |query| < 2 then []
    else
      var all := Filter(students, s => Matches(query, s));
      var r := Take(all, MAX_SUGGESTIONS);
      assert forall i :: 0 <= i < |r| ==> r[i] == all[i];
      r
  }

  /** The text a selected student leaves in the box. */
  function Formatted(s: Student): string
  {
    s.classLabel + " " + s.lastName + " " + s.firstName
  }

  datatype Key = ArrowDown | ArrowUp | Enter | Escape | OtherKey

  class Autocomplete {
    var query: string
    var suggestions: seq<Student>
    var showDropdown: bool
    var allStudents: seq<Student>
    var selectedIndex: int

    /**
     * The suggestions always follow the query, and while the dropdown is
     * open the highlighted index is -1 (none) or a valid suggestion.
     */
    predicate Valid()
      reads this
    {
      suggestions == Suggestions(allStudents, query)
      && -1 <= selectedIndex
      && (showDropdown ==> selectedIndex < |suggestions|)
    }

    constructor (value: string, students: seq<Student>)
      ensures Valid()
      ensures query == value && allStudents == students
      ensures !showDropdown && selectedIndex == -1
    {
      query := value;
      allStudents := students;
      suggestions := Suggestions(students, value);
      showDropdown := false;
      selectedIndex := -1;
    }

    /** `handleChange`: typing opens the dropdown and clears the highlight. */
    method HandleChange(value: string)
      modifies this
      ensures Valid()
      ensures query == value && showDropdown && selectedIndex == -1
      ensures allStudents == old(allStudents)
    {
      query := value;
      suggestions := Suggestions(allStudents, value);
      showDropdown := true;
      selectedIndex := -1;
    }

    /** `handleSelect`: the box shows the chosen student and the dropdown closes. */
    method HandleSelect(s: Student)
      requires Valid()
      modifies this
      ensures Valid()
      ensures query == Formatted(s) && !showDropdown
      ensures selectedIndex == old(selectedIndex) && allStudents == old(allStudents)
    {
      query := Formatted(s);
      suggestions := Suggestions(allStudents, query);
      showDropdown := false;
    }

    /**
     * `handleKeyDown`: nothing happens while the dropdown is closed or
     * empty.  The arrows move the highlight within the list, Enter chooses
     * the highlighted student when there is one, Escape closes the list.
     */
    method HandleKeyDown(key: Key) returns (chosen: Option<Student>)
      requires Valid()
      modifies this
      ensures Valid()
      ensures allStudents == old(allStudents)
      ensures !old(showDropdown) || old(|suggestions|) == 0 ==>
        chosen.None? && query == old(query) && showDropdown == old(showDropdown) && selectedIndex == old(selectedIndex)
      ensures old(showDropdown) && old(|suggestions|) > 0 && key == ArrowDown ==>
        selectedIndex == (if old(selectedIndex) < old(|suggestions|) - 1 then old(selectedIndex) + 1 else old(selectedIndex))
      ensures old(showDropdown) && old(|suggestions|) > 0 && key == ArrowUp ==>
        selectedIndex == (if old(selectedIndex) > 0 then old(selectedIndex) - 1 else 0)
      ensures chosen.Some? <==> old(showDropdown) && old(|suggestions|) > 0 && key == Enter && old(selectedIndex) >= 0
      ensures chosen.Some? ==> chosen.value == old(suggestions)[old(selectedIndex)] && chosen.value in allStudents
      ensures chosen.Some? ==> query == Formatted(chosen.value) && !showDropdown
      ensures old(showDropdown) && old(|suggestions|) > 0 && key == Escape ==> !showDropdown && query == old(query)
    {
      chosen := None;
      if !showDropdown || |suggestions| == 0 {
        return;
      }
      if key == ArrowDown {
        if selectedIndex < |suggestions| - 1 {
          selectedIndex := selectedIndex + 1;
        }
      } else if key == ArrowUp {
        selectedIndex := if selectedIndex > 0 then selectedIndex - 1 else 0;
      } else if key == Enter && selectedIndex >= 0 {
        var s := suggestions[selectedIndex];
        HandleSelect(s);
        chosen := Some(s);
      } else if key == Escape {
        showDropdown := false;
      }
    }
  }
}
