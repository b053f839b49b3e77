/** The semester plan the three planner pages (high school, university, masters) hold in their
    state, the empty grids they start from, and the list operations of their state updaters. */
module Planner {
  import opened Wrappers
  import opened Text
  import opened Collections

  /** Who placed a course: the plan generator or the student. */
  datatype Kind = Ai | User

  /** A course of a plan; `code` is empty when the course has none (`course.code || ""`). */
  datatype Course = Course(id: string, name: string, code: string, credits: real, kind: Kind)

  datatype Semester = Semester(id: string, title: string, subtitle: string, courses: seq<Course>)

  type Plan = seq<Semester>

  predicate DistinctIds(plan: Plan) {
    forall i, j :: 0 <= i < j < |plan| ==> plan[i].id != plan[j].id
  }

  /** Same semesters in the same order, with the same ids and headings. */
  predicate SameShape(plan: Plan, other: Plan) {
    && |other| == |plan|
    && forall k :: 0 <= k < |plan| ==>
         other[k].id == plan[k].id && other[k].title == plan[k].title
         && other[k].subtitle == plan[k].subtitle
  }

  // ---------------------------------------------------------------------------------------
  // Empty grids

  const TermNames: seq<string> := ["Fall", "Spring"]

  /** `${prefix}${n}-${term.toLowerCase()}` for the `t`-th term. */
  function SlotId(prefix: string, n: nat, t: nat): string
    requires t < |TermNames|
  {
    prefix + NatToString(n) + "-" + Lower(TermNames[t])
  }

  lemma DigitsThenDash(p: string, x: string, u: string, y: string, v: string)
    requires AllDigits(x) && AllDigits(y)
    requires p + x + "-" + u == p + y + "-" + v
    ensures x == y && u == v
  {
    var a := p + x + "-" + u;
    var b := p + y + "-" + v;
    var k := if |x| <= |y| then |x| else |y|;
    assert a[|p| + k] == b[|p| + k];
    assert |x| == |y|;
    assert x == a[|p|..|p| + |x|];
    assert y == b[|p|..|p| + |y|];
    assert u == a[|p| + |x| + 1..];
    assert v == b[|p| + |y| + 1..];
  }

  /** Two slots of a grid share an id only when they have the same number and term. */
  lemma SlotIdInjective(prefix: string, m: nat, s: nat, n: nat, t: nat)
    requires s < |TermNames| && t < |TermNames|
    ensures SlotId(prefix, m, s) == SlotId(prefix, n, t) ==> m == n && s == t
  {
    if SlotId(prefix, m, s) == SlotId(prefix, n, t) {
      DigitsThenDash(prefix, NatToString(m), Lower(TermNames[s]), NatToString(n), Lower(TermNames[t]));
      NatToStringInjective(m, n);
      assert |Lower(TermNames[s])| == |TermNames[s]|;
      assert |Lower(TermNames[t])| == |TermNames[t]|;
    }
  }

  lemma Halves(y: nat, t: nat)
    requires t < 2
    ensures (2 * y + t) / 2 == y && (2 * y + t) % 2 == t
  {
  }

  lemma PrefixSnoc<T>(xs: seq<T>, m: nat)
    requires m < |xs|
    ensures xs[..m + 1] == xs[..m] + [xs[m]]
  {
  }

  function HighSchoolSemester(grade: nat, t: nat): Semester
    requires t < |TermNames|
  {
    Semester(SlotId("grade-", grade, t), "Grade " + NatToString(grade), TermNames[t], [])
  }

  /** Grades 9 to 12, each grade's fall semester before its spring one, all empty. */
  function HighSchoolGrid(): (r: Plan)
    ensures |r| == 8
  {
    seq(8, k requires 0 <= k < 8 => HighSchoolSemester(9 + k / 2, k % 2))
  }

  /** `generateHighSchoolSemesters`: one semester per grade and term, pushed in order. */
  method GenerateHighSchoolSemesters() returns (semesters: Plan)
    ensures semesters == HighSchoolGrid()
  {
    var grades := [9, 10, 11, 12];
    semesters := [];
    for g := 0 to |grades|
      invariant semesters == HighSchoolGrid()[..2 * g]
    {
      for t := 0 to |TermNames|
        invariant semesters == HighSchoolGrid()[..2 * g + t]
      {
        Halves(g, t);
        PrefixSnoc(HighSchoolGrid(), 2 * g + t);
        semesters := semesters + [HighSchoolSemester(grades[g], t)];
      }
    }
  }

  /** The high-school grid has eight empty semesters with pairwise distinct ids. */
  lemma HighSchoolGridShape()
    ensures DistinctIds(HighSchoolGrid())
    ensures forall k :: 0 <= k < 8 ==> HighSchoolGrid()[k].courses == []
  {
    var r := HighSchoolGrid();
    forall i, j | 0 <= i < j < |r| ensures r[i].id != r[j].id {
      SlotIdInjective("grade-", 9 + i / 2, i % 2, 9 + j / 2, j % 2);
    }
  }

  function MastersSemester(year: nat, t: nat): Semester
    requires t < |TermNames|
  {
    Semester(SlotId("year-", year + 1, t), "Year " + NatToString(year + 1), TermNames[t], [])
  }

  /** `years` years of a fall and a spring semester, all empty. */
  function MastersGrid(years: nat): (r: Plan)
    ensures |r| == 2 * years
  {
    seq(2 * years, k requires 0 <= k < 2 * years => MastersSemester(k / 2, k % 2))
  }

  /** `generateGradSemesters`; a count below one gives no semesters. */
  method GenerateGradSemesters(years: int) returns (semesters: Plan)
    ensures semesters == MastersGrid(if years < 0 then 0 else years)
  {
    var n: nat := if years < 0 then 0 else years;
    semesters := [];
    var year := 0;
    while year < years
      invariant year <= n
      invariant semesters == MastersGrid(n)[..2 * year]
    {
      for t := 0 to |TermNames|
        invariant semesters == MastersGrid(n)[..2 * year + t]
      {
        Halves(year, t);
        PrefixSnoc(MastersGrid(n), 2 * year + t);
        semesters := semesters + [MastersSemester(year, t)];
      }
      year := year + 1;
    }
  }

  const YearLabels: seq<string> := ["Freshman", "Sophomore", "Junior", "Senior", "5th Year"]

  const StartYear: nat := 2026

  function UniversitySemester(year: nat, t: nat): Semester
    requires t < |TermNames|
  {
    Semester(
      SlotId("year-", year + 1, t),
      if year < |YearLabels| then YearLabels[year] else "Year " + NatToString(year + 1),
      TermNames[t] + " " + NatToString(StartYear + year + (if t == 1 then 1 else 0)),
      [])
  }

  /** `years` academic years from fall 2026, all empty. */
  function UniversityGrid(years: nat): (r: Plan)
    ensures |r| == 2 * years
  {
    seq(2 * years, k requires 0 <= k < 2 * years => UniversitySemester(k / 2, k % 2))
  }

  /** `generateUniversitySemesters`; a count below one gives no semesters. */
  method GenerateUniversitySemesters(years: int) returns (semesters: Plan)
    ensures semesters == UniversityGrid(if years < 0 then 0 else years)
  {
    var n: nat := if years < 0 then 0 else years;
    semesters := [];
    var year := 0;
    while year < years
      invariant year <= n
      invariant semesters == UniversityGrid(n)[..2 * year]
    {
      for t := 0 to |TermNames|
        invariant semesters == UniversityGrid(n)[..2 * year + t]
      {
        Halves(year, t);
        PrefixSnoc(UniversityGrid(n), 2 * year + t);
        semesters := semesters + [UniversitySemester(year, t)];
      }
      year := year + 1;
    }
  }

  /** The masters and university grids have distinct ids `year-<y>-<fall|spring>`, and both
      grids carry the same ids. */
  lemma YearGridIds(years: nat)
    ensures DistinctIds(MastersGrid(years)) && DistinctIds(UniversityGrid(years))
    ensures forall k :: 0 <= k < 2 * years ==> MastersGrid(years)[k].id == UniversityGrid(years)[k].id
  {
    var r := MastersGrid(years);
    var u := UniversityGrid(years);
    forall i, j | 0 <= i < j < |r| ensures r[i].id != r[j].id && u[i].id != u[j].id {
      SlotIdInjective("year-", i / 2 + 1, i % 2, j / 2 + 1, j % 2);
    }
  }

  /** Semester `k` of the university grid is in calendar year 2026 + (k + 1) / 2: each spring
      is in the year after its fall, and the next fall in the same year as that spring. */
  lemma UniversityCalendar(years: nat, k: nat)
    requires k < 2 * years
    ensures UniversityGrid(years)[k].subtitle
         == TermNames[k % 2] + " " + NatToString(StartYear + (k + 1) / 2)
  {
    assert k / 2 + (if k % 2 == 1 then 1 else 0) == (k + 1) / 2;
  }

  // ---------------------------------------------------------------------------------------
  // Totals

  function CourseCredits(c: Course): real { c.credits }

  /** Every course of the plan, semester by semester (`flatMap`). */
  function AllCourses(plan: Plan): seq<Course> {
    if plan == [] then [] else AllCourses(plan[..|plan| - 1]) + plan[|plan| - 1].courses
  }

  /** `totalCourses`: per-semester course counts added up from the first semester. */
  function TotalCourses(plan: Plan): nat {
    if plan == [] then 0 else TotalCourses(plan[..|plan| - 1]) + |plan[|plan| - 1].courses|
  }

  /** `totalCredits`: per-semester credit sums added up from the first semester. */
  function TotalCredits(plan: Plan): real {
    if plan == [] then 0.0
    else TotalCredits(plan[..|plan| - 1]) + SumOf(plan[|plan| - 1].courses, CourseCredits)
  }

  /** The totals are the number of the plan's courses and the sum of their credits. */
  lemma {:induction false} TotalsOverAllCourses(plan: Plan)
    ensures TotalCourses(plan) == |AllCourses(plan)|
    ensures TotalCredits(plan) == SumOf(AllCourses(plan), CourseCredits)
  {
    if plan != [] {
      var init := plan[..|plan| - 1];
      TotalsOverAllCourses(init);
      SumOfAppend(AllCourses(init), plan[|plan| - 1].courses, CourseCredits);
    }
  }

  /** A plan of empty semesters, such as a freshly generated grid, has no courses and no
      credits: replacing the plan by a new grid discards every course. */
  lemma {:induction false} EmptySemestersTotals(plan: Plan)
    requires forall k :: 0 <= k < |plan| ==> plan[k].courses == []
    ensures TotalCourses(plan) == 0 && TotalCredits(plan) == 0.0
  {
    if plan != [] {
      EmptySemestersTotals(plan[..|plan| - 1]);
    }
  }

  /** The number of semesters whose id is `semesterId`. */
  function Occurrences(plan: Plan, semesterId: string): (n: nat)
    ensures n == 0 <==> forall k :: 0 <= k < |plan| ==> plan[k].id != semesterId
  {
    if plan == [] then 0
    else Occurrences(plan[..|plan| - 1], semesterId) + (if plan[|plan| - 1].id == semesterId then 1 else 0)
  }

  /** In a plan with distinct ids, an id that is present occurs once. */
  lemma {:induction false} OccursOnce(plan: Plan, semesterId: string, k: nat)
    requires DistinctIds(plan)
    requires k < |plan| && plan[k].id == semesterId
    ensures Occurrences(plan, semesterId) == 1
  {
    var init := plan[..|plan| - 1];
    if k == |plan| - 1 {
      assert forall i :: 0 <= i < |init| ==> init[i].id != semesterId by {
        forall i | 0 <= i < |init| ensures init[i].id != semesterId {
          assert init[i] == plan[i];
        }
      }
    } else {
      assert init[k] == plan[k];
      OccursOnce(init, semesterId, k);
    }
  }

  // ---------------------------------------------------------------------------------------
  // Adding, removing and moving courses

  /** `handleAddCourse`: every semester whose id is `semesterId` gets the course, carrying the
      fresh id `newId`, at the end of its list; all other semesters are unchanged. */
  function AddCourse(plan: Plan, semesterId: string, course: Course, newId: string): (r: Plan)
    ensures SameShape(plan, r)
    ensures forall k :: 0 <= k < |plan| && plan[k].id != semesterId ==> r[k] == plan[k]
    ensures forall k :: 0 <= k < |plan| && plan[k].id == semesterId ==>
              r[k].courses == plan[k].courses + [course.(id := newId)]
  {
    seq(|plan|, k requires 0 <= k < |plan| =>
      if plan[k].id == semesterId then plan[k].(courses := plan[k].courses + [course.(id := newId)])
      else plan[k])
  }

  lemma AddCourseSnoc(init: Plan, s: Semester, semesterId: string, course: Course, newId: string)
    ensures AddCourse(init + [s], semesterId, course, newId)
         == AddCourse(init, semesterId, course, newId)
            + [if s.id == semesterId then s.(courses := s.courses + [course.(id := newId)]) else s]
  {
  }

  /** `x` added up `n` times. */
  function Repeated(n: nat, x: real): real {
    if n == 0 then 0.0 else Repeated(n - 1, x) + x
  }

  lemma SumOfSnoc(courses: seq<Course>, c: Course)
    ensures SumOf(courses + [c], CourseCredits) == SumOf(courses, CourseCredits) + c.credits
  {
    assert (courses + [c])[..|courses|] == courses;
  }

  /** Adding a course adds one course per semester carrying the id: one on a plan with
      distinct ids that has the semester, none on a plan without it. */
  lemma {:induction false} AddCourseCount(plan: Plan, semesterId: string, course: Course, newId: string)
    ensures TotalCourses(AddCourse(plan, semesterId, course, newId))
         == TotalCourses(plan) + Occurrences(plan, semesterId)
  {
    if plan != [] {
      var init, s := plan[..|plan| - 1], plan[|plan| - 1];
      assert plan == init + [s];
      AddCourseSnoc(init, s, semesterId, course, newId);
      AddCourseCount(init, semesterId, course, newId);
    }
  }

  /** Adding a course adds its credits once per semester carrying the id. */
  lemma {:induction false} AddCourseCredits(plan: Plan, semesterId: string, course: Course, newId: string)
    ensures TotalCredits(AddCourse(plan, semesterId, course, newId))
         == TotalCredits(plan) + Repeated(Occurrences(plan, semesterId), course.credits)
  {
    if plan != [] {
      var init, s := plan[..|plan| - 1], plan[|plan| - 1];
      assert plan == init + [s];
      AddCourseSnoc(init, s, semesterId, course, newId);
      AddCourseCredits(init, semesterId, course, newId);
      var r, ri := AddCourse(plan, semesterId, course, newId), AddCourse(init, semesterId, course, newId);
      var last := r[|r| - 1];
      assert r[..|r| - 1] == ri;
      assert TotalCredits(r) == TotalCredits(ri) + SumOf(last.courses, CourseCredits);
      var o := Occurrences(init, semesterId);
      assert TotalCredits(plan) == TotalCredits(init) + SumOf(s.courses, CourseCredits);
      if s.id == semesterId {
        SumOfSnoc(s.courses, course.(id := newId));
        assert Occurrences(plan, semesterId) == o + 1;
        assert TotalCredits(r) == TotalCredits(ri) + SumOf(s.courses, CourseCredits) + course.credits;
        assert Repeated(o + 1, course.credits) == Repeated(o, course.credits) + course.credits;
        assert TotalCredits(r) == TotalCredits(plan) + Repeated(o + 1, course.credits);
      } else {
        assert last == s;
        assert TotalCredits(r) == TotalCredits(plan) + Repeated(o, course.credits);
      }
    } else {
      assert AddCourse(plan, semesterId, course, newId) == [];
    }
  }

  function IdIsNot(courseId: string): Course -> bool {
    (c: Course) => c.id != courseId
  }

  /** The courses whose id is not `courseId`, in order. */
  function WithoutId(courses: seq<Course>, courseId: string): (r: seq<Course>)
    ensures forall c :: c in r <==> c in courses && c.id != courseId
  {
    Filter(courses, IdIsNot(courseId))
  }

  /** `handleRemoveCourse`: every semester whose id is `semesterId` loses its courses with id
      `courseId`; all other semesters are unchanged. */
  function RemoveCourse(plan: Plan, semesterId: string, courseId: string): (r: Plan)
    ensures SameShape(plan, r)
    ensures forall k :: 0 <= k < |plan| && plan[k].id != semesterId ==> r[k] == plan[k]
    ensures forall k :: 0 <= k < |plan| && plan[k].id == semesterId ==>
              r[k].courses == WithoutId(plan[k].courses, courseId)
  {
    seq(|plan|, k requires 0 <= k < |plan| =>
      if plan[k].id == semesterId then plan[k].(courses := WithoutId(plan[k].courses, courseId))
      else plan[k])
  }

  /** Removing a course just added under a fresh id gives the plan back. */
  lemma AddThenRemove(plan: Plan, semesterId: string, course: Course, newId: string)
    requires forall k, c :: 0 <= k < |plan| && plan[k].id == semesterId && c in plan[k].courses ==> c.id != newId
    ensures RemoveCourse(AddCourse(plan, semesterId, course, newId), semesterId, newId) == plan
  {
    var added := AddCourse(plan, semesterId, course, newId);
    var r := RemoveCourse(added, semesterId, newId);
    forall k | 0 <= k < |plan| ensures r[k] == plan[k] {
      if plan[k].id == semesterId {
        var cs := plan[k].courses;
        FilterAppend(cs, [course.(id := newId)], IdIsNot(newId));
        FilterKeepsAll(cs, IdIsNot(newId));
        assert Filter([course.(id := newId)], IdIsNot(newId)) == [] by {
          assert [course.(id := newId)][..0] == [];
        }
      }
    }
  }

  /** The last course of `courses` with id `courseId`. */
  function LastWithId(courses: seq<Course>, courseId: string): (r: Option<Course>)
    ensures r.Some? ==> r.value in courses && r.value.id == courseId
    // no course after the one found has that id
    ensures r.Some? ==> exists i :: 0 <= i < |courses| && courses[i] == r.value &&
                          forall j :: i < j < |courses| ==> courses[j].id != courseId
    ensures r.None? ==> forall c :: c in courses ==> c.id != courseId
  {
    if courses == [] then None
    else if courses[|courses| - 1].id == courseId then Some(courses[|courses| - 1])
    else LastWithId(courses[..|courses| - 1], courseId)
  }

  /** The course the move updater records: its filter visits the semesters with id `fromId` in
      order and their courses in order, keeping the last course with id `courseId`. */
  function MovedCourse(plan: Plan, fromId: string, courseId: string): (r: Option<Course>)
    ensures r.Some? ==> r.value.id == courseId && r.value in AllCourses(plan)
    ensures r.None? ==> forall k, c :: 0 <= k < |plan| && plan[k].id == fromId && c in plan[k].courses ==> c.id != courseId
  {
    if plan == [] then None
    else
      var init := plan[..|plan| - 1];
      var last := plan[|plan| - 1];
      var here := if last.id == fromId then LastWithId(last.courses, courseId) else None;
      assert forall k :: 0 <= k < |init| ==> init[k] == plan[k];
      if here.Some? then here else MovedCourse(init, fromId, courseId)
  }

  /** `handleMoveCourse` as a function of the plan. */
  function Moved(plan: Plan, fromId: string, toId: string, courseId: string): Plan {
    if fromId == toId then plan
    else match MovedCourse(plan, fromId, courseId)
      case None => plan
      case Some(c) => AddCourse(RemoveCourse(plan, fromId, courseId), toId, c, c.id)
  }

  lemma RemoveCourseSnoc(init: Plan, s: Semester, semesterId: string, courseId: string)
    ensures RemoveCourse(init + [s], semesterId, courseId)
         == RemoveCourse(init, semesterId, courseId)
            + [if s.id == semesterId then s.(courses := WithoutId(s.courses, courseId)) else s]
  {
  }

  lemma MovedCourseSnoc(init: Plan, s: Semester, fromId: string, courseId: string)
    ensures MovedCourse(init + [s], fromId, courseId)
         == (var here := if s.id == fromId then LastWithId(s.courses, courseId) else None;
             if here.Some? then here else MovedCourse(init, fromId, courseId))
  {
    assert (init + [s])[..|init|] == init;
  }

  /** The filter over one source semester: the courses kept, and the last one dropped (or
      `before` when none is). */
  method DropCourse(courses: seq<Course>, courseId: string, before: Option<Course>)
    returns (remaining: seq<Course>, moved: Option<Course>)
    ensures remaining == WithoutId(courses, courseId)
    ensures moved == (var here := LastWithId(courses, courseId); if here.Some? then here else before)
  {
    remaining := [];
    moved := before;
    for j := 0 to |courses|
      invariant remaining == WithoutId(courses[..j], courseId)
      invariant moved == (var here := LastWithId(courses[..j], courseId); if here.Some? then here else before)
    {
      var c := courses[j];
      assert courses[..j + 1][..j] == courses[..j];
      if c.id == courseId {
        moved := Some(c);
      } else {
        remaining := remaining + [c];
      }
    }
    assert courses[..|courses|] == courses;
  }

  /** `handleMoveCourse`: a filter over each source semester that records the course it drops,
      then an append of that course to the target semesters; a move onto the same semester,
      or of a course the source does not hold, changes nothing. */
  method MoveCourse(plan: Plan, fromId: string, toId: string, courseId: string) returns (next: Plan)
    ensures next == Moved(plan, fromId, toId, courseId)
    ensures fromId == toId ==> next == plan
    ensures MovedCourse(plan, fromId, courseId).None? ==> next == plan
  {
    if fromId == toId {
      return plan;
    }
    var moved: Option<Course> := None;
    var without: Plan := [];
    for k := 0 to |plan|
      invariant without == RemoveCourse(plan[..k], fromId, courseId)
      invariant moved == MovedCourse(plan[..k], fromId, courseId)
    {
      var s := plan[k];
      assert plan[..k + 1] == plan[..k] + [s];
      RemoveCourseSnoc(plan[..k], s, fromId, courseId);
      MovedCourseSnoc(plan[..k], s, fromId, courseId);
      if s.id != fromId {
        without := without + [s];
      } else {
        var remaining;
        remaining, moved := DropCourse(s.courses, courseId, moved);
        without := without + [s.(courses := remaining)];
      }
    }
    assert plan[..|plan|] == plan;
    if moved.None? {
      return plan;
    }
    next := AddCourse(without, toId, moved.value, moved.value.id);
  }

  /** After a move that finds the course: the source semesters no longer hold any course with
      that id, the target semesters end with the moved course, every other semester is as
      before, and the headings are unchanged. */
  lemma MoveProperties(plan: Plan, fromId: string, toId: string, courseId: string)
    requires fromId != toId
    requires MovedCourse(plan, fromId, courseId).Some?
    ensures var r := Moved(plan, fromId, toId, courseId);
            var c := MovedCourse(plan, fromId, courseId).value;
            && SameShape(plan, r)
            && (forall k :: 0 <= k < |plan| && plan[k].id == fromId ==>
                  forall d :: d in r[k].courses ==> d in plan[k].courses && d.id != courseId)
            && (forall k :: 0 <= k < |plan| && plan[k].id == toId ==>
                  r[k].courses == plan[k].courses + [c])
            && (forall k :: 0 <= k < |plan| && plan[k].id != fromId && plan[k].id != toId ==>
                  r[k] == plan[k])
  {
    var c := MovedCourse(plan, fromId, courseId).value;
    var removed := RemoveCourse(plan, fromId, courseId);
    assert c.(id := c.id) == c;
    assert forall k :: 0 <= k < |plan| ==> removed[k].id == plan[k].id;
  }

  // ---------------------------------------------------------------------------------------
  // Interests

  function Unequal(v: string): string -> bool {
    (x: string) => x != v
  }

  /** `toggleInterest`: a selected interest is removed (every copy of it), any other is added
      at the end. */
  function ToggleInterest(selected: seq<string>, interest: string): (r: seq<string>)
    ensures interest in selected ==> interest !in r
    ensures interest in selected ==> forall x :: x != interest ==> (x in r <==> x in selected)
    ensures interest !in selected ==> r == selected + [interest]
  {
    if interest in selected then Filter(selected, Unequal(interest)) else selected + [interest]
  }

  /** Toggling an unselected interest twice restores the selection. */
  lemma ToggleTwiceRestores(selected: seq<string>, interest: string)
    requires interest !in selected
    ensures ToggleInterest(ToggleInterest(selected, interest), interest) == selected
  {
    FilterAppend(selected, [interest], Unequal(interest));
    FilterKeepsAll(selected, Unequal(interest));
    assert Filter([interest], Unequal(interest)) == [] by {
      assert [interest][..0] == [];
    }
  }

  // ---------------------------------------------------------------------------------------
  // The university page's plan generation

  function AiCourse(id: string, name: string, credits: real): Course {
    Course(id, name, "", credits, Ai)
  }

  /** The fixed generated courses per semester id; none for other ids. */
  function GeneratedCourses(semesterId: string): (r: seq<Course>)
    ensures |r| <= 4
    ensures forall c :: c in r ==> c.kind == Ai
  {
    if semesterId == "year-1-fall" then
      [ AiCourse("1", "Introduction to Computer Science", 4.0), AiCourse("2", "Calculus I", 4.0),
        AiCourse("3", "English Composition", 3.0), AiCourse("4", "General Chemistry", 4.0) ]
    else if semesterId == "year-1-spring" then
      [ AiCourse("5", "Data Structures", 4.0), AiCourse("6", "Calculus II", 4.0),
        AiCourse("7", "Physics I", 4.0), AiCourse("8", "Public Speaking", 3.0) ]
    else if semesterId == "year-2-fall" then
      [ AiCourse("9", "Algorithms", 4.0), AiCourse("10", "Linear Algebra", 3.0),
        AiCourse("11", "Discrete Mathematics", 3.0), AiCourse("12", "Technical Writing", 3.0) ]
    else if semesterId == "year-2-spring" then
      [ AiCourse("13", "Computer Architecture", 4.0), AiCourse("14", "Probability & Statistics", 3.0),
        AiCourse("15", "Database Systems", 3.0), AiCourse("16", "Ethics in Technology", 3.0) ]
    else []
  }

  function IsUser(c: Course): bool { c.kind == User }

  function IsAi(c: Course): bool { c.kind == Ai }

  /** The student's courses of a list, in order. */
  function UserCourses(courses: seq<Course>): seq<Course> {
    Filter(courses, IsUser)
  }

  /** The generate updater: each semester keeps its student courses in order, followed by the
      generated courses for its id. */
  function WithGeneratedCourses(plan: Plan): (r: Plan)
    ensures SameShape(plan, r)
  {
    seq(|plan|, k requires 0 <= k < |plan| =>
      plan[k].(courses := UserCourses(plan[k].courses) + GeneratedCourses(plan[k].id)))
  }

  /** Generation keeps exactly the student's courses of each semester, in order; the
      generated-kind courses are exactly that semester's new generated courses, in order, so
      none from before survives; and they all come after the student's courses. */
  lemma GenerationKeepsUserCourses(plan: Plan)
    ensures var r := WithGeneratedCourses(plan);
            && (forall k :: 0 <= k < |plan| ==> UserCourses(r[k].courses) == UserCourses(plan[k].courses))
            && (forall k :: 0 <= k < |plan| ==> Filter(r[k].courses, IsAi) == GeneratedCourses(plan[k].id))
            && (forall k :: 0 <= k < |plan| ==> PassingAtEnd(r[k].courses, IsAi))
  {
    var r := WithGeneratedCourses(plan);
    forall k | 0 <= k < |plan|
      ensures UserCourses(r[k].courses) == UserCourses(plan[k].courses)
      ensures Filter(r[k].courses, IsAi) == GeneratedCourses(plan[k].id)
      ensures PassingAtEnd(r[k].courses, IsAi)
    {
      ConcatPartition(UserCourses(plan[k].courses), GeneratedCourses(plan[k].id), IsUser, IsAi);
    }
  }

  /** Generating twice gives the same plan as generating once. */
  lemma GenerationIdempotent(plan: Plan)
    ensures WithGeneratedCourses(WithGeneratedCourses(plan)) == WithGeneratedCourses(plan)
  {
    GenerationKeepsUserCourses(plan);
  }
}
