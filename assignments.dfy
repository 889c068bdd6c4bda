/**
 * The normalised homework/test record that the École Directe clients hand to
 * the rest of the application, and the per-assignment weight every workload
 * score is built from.
 */
module Assignments {
  import opened Wrappers

  /**
   * One assignment.  `dueDate` is the day number of its `YYYY-MM-DD` due date,
   * or `None` when the field is missing or not a date.  `kind` is the `type`
   * field ('homework', 'test', 'dst', …) and `weight` the weight label
   * ('LIGHT', 'MEDIUM', 'HEAVY', 'CONTROL', 'DST', …).  A missing `subject` is
   * the empty string: the code only ever tests it for truthiness.
   */
  datatype Assignment = Assignment(
    id: int,
    subject: string,
    dueDate: Option<int>,
    kind: string,
    weight: string,
    done: bool,
    title: string,
    content: string)

  predicate IsTest(a: Assignment)
  {
    a.kind == "test"
  }

  /** Number of tests in a list. */
  function TestCount(s: seq<Assignment>): (n: nat)
    ensures n <= |s|
  {
    if |s| == 0 then 0 else (if IsTest(s[0]) then 1 else 0) + TestCount(s[1..])
  }

  lemma {:induction false} TestCountAppend(a: seq<Assignment>, b: seq<Assignment>)
    ensures TestCount(a + b) == TestCount(a) + TestCount(b)
    decreases |a|
  {
    if |a| > 0 {
      assert (a + b)[1..] == a[1..] + b;
      TestCountAppend(a[1..], b);
    } else {
      assert a + b == b;
    }
  }

  /** Number of assignments marked done (`s.filter(a => a.done).length`). */
  function DoneCount(s: seq<Assignment>): (n: nat)
    ensures n <= |s|
  {
    if |s| == 0 then 0 else DoneCount(s[..|s| - 1]) + if s[|s| - 1].done then 1 else 0
  }
}
