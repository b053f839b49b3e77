/**
 * The plan export of `src/lib/pdf-export.ts`: the text of every line of the PDF, where each
 * line lands (page and vertical position, page breaks included) and the file name. Drawing,
 * fonts and the horizontal position of each line are not modelled; rendering a number as
 * text (`Number#toString`) and the localised saved date are parameters.
 */
module PdfExport {
  import opened Wrappers
  import opened Text
  import opened Collections

  // ---------------------------------------------------------------------------------------
  // Texts

  /** The track's display name: the three known tracks by name, any other with its first
      character upper-cased and the hyphens of the rest turned into spaces. */
  function CapitalizeTrack(track: string): (r: string)
    ensures track == "high-school" ==> r == "High School"
    ensures track == "university" ==> r == "University"
    ensures track == "masters" ==> r == "Masters"
  {
    if track == "high-school" then "High School"
    else if track == "university" then "University"
    else if track == "masters" then "Masters"
    else if track == [] then []
    else [UpperChar(track[0])] + Dehyphen(track[1..])
  }

  /** `replace(/-/g, ' ')` */
  function Dehyphen(s: string): (r: string)
    ensures |r| == |s|
    ensures forall i :: 0 <= i < |s| ==> r[i] == (if s[i] == '-' then ' ' else s[i])
  {
    seq(|s|, i requires 0 <= i < |s| => if s[i] == '-' then ' ' else s[i])
  }

  /** Any other track keeps its length and its characters, except that the first is
      upper-cased and no hyphen is left after it. */
  lemma CapitalizeOtherTrack(track: string)
    requires track !in {"high-school", "university", "masters"} && track != []
    ensures var r := CapitalizeTrack(track);
            && |r| == |track| && r[0] == UpperChar(track[0])
            && (forall i :: 1 <= i < |r| ==> r[i] != '-')
            && (forall i :: 1 <= i < |r| && track[i] != '-' ==> r[i] == track[i])
  {
    var r := CapitalizeTrack(track);
    assert forall i :: 1 <= i < |r| ==> r[i] == Dehyphen(track[1..])[i - 1];
  }

  /** The "Track:" value: "N/A" when the plan has no track. */
  function TrackLabel(track: string): string {
    if track == "" then "N/A" else CapitalizeTrack(track)
  }

  function IsAlphanumeric(c: char): bool { IsLetter(c) || IsDigit(c) }

  /** `replace(/[^a-z0-9]/gi, '_')` */
  function Sanitize(s: string): (r: string)
    ensures |r| == |s|
    ensures forall i :: 0 <= i < |s| ==> r[i] == (if IsAlphanumeric(s[i]) then s[i] else '_')
  {
    seq(|s|, i requires 0 <= i < |s| => if IsAlphanumeric(s[i]) then s[i] else '_')
  }

  /** A plan to export: its name and plan name (`""` when missing), its track, its totals
      (missing ones are 0), its localised saved date when it has one, and its semesters. */
  datatype PdfPlan = PdfPlan(name: string, planName: string, track: string, totalCredits: real,
                             totalCourses: real, savedDate: Option<string>, semesters: seq<PdfSemester>)

  /** A semester to export; a missing course list reads as the empty one. */
  datatype PdfSemester = PdfSemester(title: string, subtitle: string, courses: seq<PdfCourse>)

  /** A course to export; a code of `""` is no code. */
  datatype PdfCourse = PdfCourse(code: string, name: string, credits: Option<real>)

  /** The first of the name, the plan name and the fallback that is not empty. */
  function DisplayName(plan: PdfPlan, fallback: string): string {
    if plan.name != "" then plan.name else if plan.planName != "" then plan.planName else fallback
  }

  /** The saved file's name: the plan's name, else "plan", with every character that is not
      an ASCII letter or digit replaced by `_`, then ".pdf". */
  function FileName(plan: PdfPlan): (r: string)
    ensures |r| == |DisplayName(plan, "plan")| + 4 && r[|r| - 4..] == ".pdf"
    ensures forall i :: 0 <= i < |r| - 4 ==> IsAlphanumeric(r[i]) || r[i] == '_'
    ensures forall i :: 0 <= i < |r| - 4 && IsAlphanumeric(DisplayName(plan, "plan")[i]) ==>
              r[i] == DisplayName(plan, "plan")[i]
  {
    Sanitize(DisplayName(plan, "plan")) + ".pdf"
  }

  /** A course's credits as its line shows them; missing credits show as "undefined". */
  function CreditsText(credits: Option<real>, render: real -> string): string {
    if credits.Some? then render(credits.value) else "undefined"
  }

  /** A course's line: a bullet, the course, then its credits and unit in parentheses. */
  function CourseLine(c: PdfCourse, render: real -> string): string {
    var display := if c.code != "" then c.code + ": " + c.name else c.name;
    var unit := if c.credits == Some(1.0) then " credit)" else " credits)";
    "  • " + display + " (" + CreditsText(c.credits, render) + unit
  }

  /** A course line shows "code: name" when the course has a code and the bare name when
      not, and says "credit" for exactly one credit and "credits" otherwise. */
  lemma CourseLineShape(c: PdfCourse, render: real -> string)
    ensures var r := CourseLine(c, render);
            && (c.code != "" ==> StartsWith(r, "  • " + c.code + ": " + c.name))
            && (c.code == "" ==> StartsWith(r, "  • " + c.name + " ("))
            && (c.credits == Some(1.0) <==> EndsWith(r, " credit)"))
  {
    var display := if c.code != "" then c.code + ": " + c.name else c.name;
    var lead := "  • " + display + " (";
    var unit := if c.credits == Some(1.0) then " credit)" else " credits)";
    var r := CourseLine(c, render);
    assert r == lead + CreditsText(c.credits, render) + unit;
    Affixes("  • " + display, " (" + CreditsText(c.credits, render) + unit);
    Affixes(lead, CreditsText(c.credits, render) + unit);
    Affixes(lead + CreditsText(c.credits, render), unit);
    assert c.credits != Some(1.0) ==> r[|r| - 2] == 's';
  }

  predicate EndsWith(s: string, suffix: string) {
    |suffix| <= |s| && s[|s| - |suffix|..] == suffix
  }

  lemma Affixes(a: string, b: string)
    ensures StartsWith(a + b, a) && EndsWith(a + b, b)
  {
    assert (a + b)[..|a|] == a;
    assert (a + b)[|a|..] == b;
  }

  function HasCredits(c: PdfCourse): bool { c.credits.Some? }

  /** A course's share of the semester total: missing credits count as 0. */
  function CreditsOrZero(c: PdfCourse): real {
    if c.credits.Some? then c.credits.value else 0.0
  }

  /** The semester's credit total. */
  function SemesterCredits(courses: seq<PdfCourse>): real {
    SumOf(courses, CreditsOrZero)
  }

  /** The total is the sum over the courses that have credits: those without add nothing. */
  lemma {:induction false} SemesterCreditsOfCredited(courses: seq<PdfCourse>)
    ensures SemesterCredits(courses) == SumOf(Filter(courses, HasCredits), CreditsOrZero)
    decreases |courses|
  {
    if courses != [] {
      var init := courses[..|courses| - 1];
      SemesterCreditsOfCredited(init);
      FilterAppend(init, [courses[|courses| - 1]], HasCredits);
      assert courses == init + [courses[|courses| - 1]];
      SumOfAppend(Filter(init, HasCredits), Filter([courses[|courses| - 1]], HasCredits), CreditsOrZero);
    }
  }

  /** The lines under a semester's credit total: its courses, or "No courses". */
  function SemesterBodyTexts(courses: seq<PdfCourse>, render: real -> string): seq<string> {
    if courses == [] then ["  No courses"] else CourseLines(courses, render)
  }

  /** The lines of one semester: its heading, its credit total, then one line per course, or
      "No courses" when it has none. */
  function SemesterTexts(s: PdfSemester, render: real -> string): (r: seq<string>)
    ensures |r| == 2 + (if s.courses == [] then 1 else |s.courses|)
    ensures forall i :: 0 <= i < |s.courses| ==> r[2 + i] == CourseLine(s.courses[i], render)
  {
    [s.title + " - " + s.subtitle, "Credits: " + render(SemesterCredits(s.courses))]
    + SemesterBodyTexts(s.courses, render)
  }

  function CourseLines(courses: seq<PdfCourse>, render: real -> string): (r: seq<string>)
    ensures |r| == |courses|
    ensures forall i :: 0 <= i < |courses| ==> r[i] == CourseLine(courses[i], render)
  {
    if courses == [] then []
    else CourseLines(courses[..|courses| - 1], render) + [CourseLine(courses[|courses| - 1], render)]
  }

  lemma CourseLinesPrefix(courses: seq<PdfCourse>, i: nat, render: real -> string)
    requires i < |courses|
    ensures CourseLines(courses[..i + 1], render) == CourseLines(courses[..i], render) + [CourseLine(courses[i], render)]
  {
    assert courses[..i + 1][..i] == courses[..i];
  }

  /** The lines of the semesters, one semester after the other. */
  function AllSemesterTexts(sems: seq<PdfSemester>, render: real -> string): seq<string> {
    if sems == [] then [] else AllSemesterTexts(sems[..|sems| - 1], render) + SemesterTexts(sems[|sems| - 1], render)
  }

  lemma AllSemesterTextsPrefix(sems: seq<PdfSemester>, k: nat, render: real -> string)
    requires k < |sems|
    ensures AllSemesterTexts(sems[..k + 1], render) == AllSemesterTexts(sems[..k], render) + SemesterTexts(sems[k], render)
  {
    assert sems[..k + 1][..k] == sems[..k];
  }

  /** The title block: the title, track and totals, and the saved date when there is one. */
  function HeaderTexts(plan: PdfPlan, render: real -> string): seq<string> {
    [ DisplayName(plan, "Academic Plan"), "Track: " + TrackLabel(plan.track),
      "Total Credits: " + render(plan.totalCredits), "Total Courses: " + render(plan.totalCourses) ]
    + (if plan.savedDate.Some? then ["Saved: " + plan.savedDate.value] else [])
  }

  /** Every line of the document, in order. */
  function PlanTexts(plan: PdfPlan, render: real -> string): seq<string> {
    HeaderTexts(plan, render)
    + (if plan.semesters == [] then [] else ["Semesters"] + AllSemesterTexts(plan.semesters, render))
  }

  /** Every course of every semester has its line in the document. */
  lemma {:induction false} EveryCourseListed(sems: seq<PdfSemester>, render: real -> string, k: nat, i: nat)
    requires k < |sems| && i < |sems[k].courses|
    ensures CourseLine(sems[k].courses[i], render) in AllSemesterTexts(sems, render)
    decreases |sems|
  {
    var last := |sems| - 1;
    if k == last {
      assert SemesterTexts(sems[last], render)[2 + i] == CourseLine(sems[k].courses[i], render);
    } else {
      EveryCourseListed(sems[..last], render, k, i);
    }
  }

  // ---------------------------------------------------------------------------------------
  // Layout

  /** A line of text as placed: its page (from 1), its vertical position and its text. */
  datatype Placed = Placed(page: nat, y: int, text: string)

  /** Where the first line of every page sits, and where a new document starts. */
  const Top: int := 20

  function Texts(lines: seq<Placed>): (r: seq<string>)
    ensures |r| == |lines|
  {
    if lines == [] then [] else Texts(lines[..|lines| - 1]) + [lines[|lines| - 1].text]
  }

  lemma TextsSnoc(lines: seq<Placed>, line: Placed)
    ensures Texts(lines + [line]) == Texts(lines) + [line.text]
  {
    assert (lines + [line])[..|lines|] == lines;
  }

  function Max(a: int, b: int): int { if a >= b then a else b }

  /** The lowest position any line reaches on a page of the given height. */
  function Lowest(pageHeight: int): int { Max(pageHeight - 20, 61) }

  /** `b` comes right after `a`: lower on the same page, or at the top of the next. */
  predicate Follows(a: Placed, b: Placed) {
    (b.page == a.page && b.y > a.y) || (b.page == a.page + 1 && b.y == Top)
  }

  /** Each line follows the one before it. */
  predicate Ordered(lines: seq<Placed>) {
    |lines| <= 1 || (Ordered(lines[..|lines| - 1]) && Follows(lines[|lines| - 2], lines[|lines| - 1]))
  }

  /** Every line is on a page from 1 on, between the top and `Lowest`. */
  ghost predicate InBounds(lines: seq<Placed>, pageHeight: int) {
    forall i :: 0 <= i < |lines| ==> 1 <= lines[i].page && Top <= lines[i].y <= Lowest(pageHeight)
  }

  /** The layout so far: ordered and in bounds, with the cursor on the last line's page below
      it. */
  ghost predicate Laid(lines: seq<Placed>, page: nat, y: int, pageHeight: int) {
    && Ordered(lines) && InBounds(lines, pageHeight)
    && page >= 1 && y >= Top
    && (lines != [] ==> lines[|lines| - 1].page == page && lines[|lines| - 1].y < y)
  }

  /** Where a line goes when the cursor is at `(page, y)`: at the top of the next page when `y`
      is past `limit`, at the cursor otherwise. */
  function PlacedAt(page: nat, y: int, limit: int, text: string): Placed {
    if y > limit then Placed(page + 1, Top, text) else Placed(page, y, text)
  }

  /** The cursor after `added` was written from `(page, y)`, each line moving it `step` down. */
  function Cursor(page: nat, y: int, added: seq<Placed>, step: int): (nat, int) {
    if added == [] then (page, y) else (added[|added| - 1].page, added[|added| - 1].y + step)
  }

  /** Each line of `added` was placed by `PlacedAt` from the cursor the lines before it left. */
  predicate LaidOut(page: nat, y: int, added: seq<Placed>, limit: int, step: int) {
    added == []
    || (var init := added[..|added| - 1];
        var c := Cursor(page, y, init, step);
        LaidOut(page, y, init, limit, step)
        && added[|added| - 1] == PlacedAt(c.0, c.1, limit, added[|added| - 1].text))
  }

  /** No two lines share a place: a later line is on a later page or lower on the same. */
  lemma {:induction false} OrderedNoOverlap(lines: seq<Placed>)
    requires Ordered(lines)
    ensures forall i, j :: 0 <= i < j < |lines| ==>
              lines[i].page < lines[j].page || (lines[i].page == lines[j].page && lines[i].y < lines[j].y)
    decreases |lines|
  {
    if |lines| > 1 {
      var init := lines[..|lines| - 1];
      OrderedNoOverlap(init);
      forall i, j | 0 <= i < j < |lines|
        ensures lines[i].page < lines[j].page || (lines[i].page == lines[j].page && lines[i].y < lines[j].y)
      {
        if j < |lines| - 1 {
          assert lines[i] == init[i] && lines[j] == init[j];
        } else if i < j - 1 {
          assert lines[i] == init[i] && lines[j - 1] == init[j - 1];
        }
      }
    }
  }

  /** Lays out one semester: a new page when the heading would sit past 40 above the page
      bottom, the heading and the credit total, then the courses, or "No courses"; then a
      gap. */
  method RenderSemester(lines: seq<Placed>, page: nat, y: int, s: PdfSemester, pageHeight: int, render: real -> string)
    returns (lines': seq<Placed>, page': nat, y': int)
    requires Laid(lines, page, y, pageHeight)
    ensures Laid(lines', page', y', pageHeight)
    ensures |lines'| == |lines| + SemesterLineCount(s) && forall i :: 0 <= i < |lines| ==> lines'[i] == lines[i]
    ensures Texts(lines') == Texts(lines) + SemesterTexts(s, render)
    // the heading breaks the page past 40 above the bottom; the credit total sits 7 below it
    ensures lines'[|lines|] == PlacedAt(page, y, pageHeight - 40, s.title + " - " + s.subtitle)
    ensures lines'[|lines| + 1]
            == Placed(lines'[|lines|].page, lines'[|lines|].y + 7, "Credits: " + render(SemesterCredits(s.courses)))
    // "No courses" sits 7 below the credit total, without a page break
    ensures s.courses == [] ==> lines'[|lines| + 2] == Placed(lines'[|lines| + 1].page, lines'[|lines| + 1].y + 7, "  No courses")
    // the first course line is 7 below the credit total and each next one 6 below the one
    // before, on a new page past 20 above the bottom
    ensures s.courses != [] ==> PlacedAfter(lines'[|lines| + 1], 7, pageHeight - 20, lines'[|lines| + 2])
    ensures forall j :: |lines| + 2 < j < |lines'| ==> PlacedAfter(lines'[j - 1], 6, pageHeight - 20, lines'[j])
    // the cursor ends 6 below the last line plus the 5 between semesters
    ensures page' == lines'[|lines'| - 1].page && y' == lines'[|lines'| - 1].y + 11
  {
    var heading := s.title + " - " + s.subtitle;
    var credits := "Credits: " + render(SemesterCredits(s.courses));
    lines', page', y' := RenderSemesterHead(lines, page, y, heading, credits, pageHeight);
    ghost var mid := lines';
    lines', page', y' := RenderSemesterBody(lines', page', y', s.courses, pageHeight, render);
    BodyFollowsCredits(lines, mid, lines', s.courses, pageHeight);
    assert Texts(lines') == Texts(lines) + SemesterTexts(s, render) by {
      AppendAssociative(Texts(lines), [heading, credits], SemesterBodyTexts(s.courses, render));
    }
    y' := y' + 5;
  }

  /** The heading of a semester, on a new page when it would sit past 40 above the page bottom,
      and the credit total 7 below it; the cursor ends 7 below the credit total. */
  method RenderSemesterHead(lines: seq<Placed>, page: nat, y: int, heading: string, credits: string, pageHeight: int)
    returns (lines': seq<Placed>, page': nat, y': int)
    requires Laid(lines, page, y, pageHeight)
    ensures Laid(lines', page', y', pageHeight) && y' <= Lowest(pageHeight)
    ensures |lines'| == |lines| + 2 && forall i :: 0 <= i < |lines| ==> lines'[i] == lines[i]
    ensures Texts(lines') == Texts(lines) + [heading, credits]
    ensures lines'[|lines|] == PlacedAt(page, y, pageHeight - 40, heading)
    ensures lines'[|lines| + 1] == Placed(lines'[|lines|].page, lines'[|lines|].y + 7, credits)
    ensures page' == lines'[|lines| + 1].page && y' == lines'[|lines| + 1].y + 7
  {
    var h := PlacedAt(page, y, pageHeight - 40, heading);
    lines', page', y' := Place(lines, page, y, pageHeight, h.page, h.y, heading, 7);
    lines', page', y' := Place(lines', page', y', pageHeight, page', y', credits, 7);
  }

  /** The body laid out from 7 below the credit total, seen from the semester's first line. */
  lemma BodyFollowsCredits(lines: seq<Placed>, mid: seq<Placed>, out: seq<Placed>, courses: seq<PdfCourse>, pageHeight: int)
    requires |mid| == |lines| + 2 && forall i :: 0 <= i < |lines| ==> mid[i] == lines[i]
    requires |out| == |mid| + (if courses == [] then 1 else |courses|) && forall i :: 0 <= i < |mid| ==> out[i] == mid[i]
    requires courses == [] ==> out[|mid|] == Placed(mid[|mid| - 1].page, mid[|mid| - 1].y + 7, "  No courses")
    requires courses != [] ==> out[|mid|] == PlacedAt(mid[|mid| - 1].page, mid[|mid| - 1].y + 7, pageHeight - 20, out[|mid|].text)
    ensures |out| == |lines| + 2 + (if courses == [] then 1 else |courses|)
    ensures forall i :: 0 <= i < |lines| + 2 ==> out[i] == (if i < |lines| then lines[i] else mid[i])
    ensures courses == [] ==> out[|lines| + 2] == Placed(out[|lines| + 1].page, out[|lines| + 1].y + 7, "  No courses")
    ensures courses != [] ==> PlacedAfter(out[|lines| + 1], 7, pageHeight - 20, out[|lines| + 2])
  {
    assert out[|lines| + 1] == mid[|lines| + 1];
  }

  /** Lays out the course lines of a semester, or "No courses" when it has none. */
  method RenderSemesterBody(lines: seq<Placed>, page: nat, y: int, courses: seq<PdfCourse>, pageHeight: int, render: real -> string)
    returns (lines': seq<Placed>, page': nat, y': int)
    requires Laid(lines, page, y, pageHeight) && y <= Lowest(pageHeight)
    ensures Laid(lines', page', y', pageHeight)
    ensures |lines'| == |lines| + (if courses == [] then 1 else |courses|)
    ensures forall i :: 0 <= i < |lines| ==> lines'[i] == lines[i]
    ensures Texts(lines') == Texts(lines) + SemesterBodyTexts(courses, render)
    // "No courses" sits at the cursor; a course line moves to a new page past 20 above the
    // bottom, the first from the cursor and each next one 6 below the one before
    ensures courses == [] ==> lines'[|lines|] == Placed(page, y, "  No courses")
    ensures courses != [] ==> lines'[|lines|] == PlacedAt(page, y, pageHeight - 20, lines'[|lines|].text)
    ensures forall j :: |lines| < j < |lines'| ==> PlacedAfter(lines'[j - 1], 6, pageHeight - 20, lines'[j])
    ensures page' == lines'[|lines'| - 1].page && y' == lines'[|lines'| - 1].y + 6
  {
    if |courses| > 0 {
      var added;
      added, page', y' := RenderCourses(page, y, courses, pageHeight, render);
      LaidAppend(lines, page, y, pageHeight, added, 6);
      TextsAppend(lines, added);
      LaidOutChain(page, y, added, pageHeight - 20, 6);
      lines' := lines + added;
      assert forall j :: |lines| <= j < |lines'| ==> lines'[j] == added[j - |lines|];
    } else {
      lines', page', y' := Place(lines, page, y, pageHeight, page, y, "  No courses", 6);
    }
  }

  /** Lays out the course lines from the cursor `(page, y)`, each on a new page when it would
      sit past 20 above the page bottom; `added` are the lines written, in order. */
  method RenderCourses(page: nat, y: int, courses: seq<PdfCourse>, pageHeight: int, render: real -> string)
    returns (added: seq<Placed>, page': nat, y': int)
    ensures |added| == |courses| && Texts(added) == CourseLines(courses, render)
    ensures LaidOut(page, y, added, pageHeight - 20, 6)
    ensures (page', y') == Cursor(page, y, added, 6)
  {
    added, page', y' := [], page, y;
    for i := 0 to |courses|
      invariant |added| == i && Texts(added) == CourseLines(courses[..i], render)
      invariant LaidOut(page, y, added, pageHeight - 20, 6)
      invariant (page', y') == Cursor(page, y, added, 6)
    {
      var x := PlacedAt(page', y', pageHeight - 20, CourseLine(courses[i], render));
      CourseStep(page, y, added, x, courses, i, render, pageHeight - 20);
      added := added + [x];
      page', y' := x.page, x.y + 6;
    }
    assert courses[..|courses|] == courses;
  }

  /** One round of the course loop keeps its invariants. */
  lemma CourseStep(page: nat, y: int, added: seq<Placed>, x: Placed, courses: seq<PdfCourse>, i: nat,
                   render: real -> string, limit: int)
    requires i < |courses| && Texts(added) == CourseLines(courses[..i], render)
    requires LaidOut(page, y, added, limit, 6)
    requires x == PlacedAt(Cursor(page, y, added, 6).0, Cursor(page, y, added, 6).1, limit, CourseLine(courses[i], render))
    ensures Texts(added + [x]) == CourseLines(courses[..i + 1], render)
    ensures LaidOut(page, y, added + [x], limit, 6) && Cursor(page, y, added + [x], 6) == (x.page, x.y + 6)
  {
    LaidOutSnoc(page, y, added, x, limit, 6);
    TextsSnoc(added, x);
    CourseLinesPrefix(courses, i, render);
  }

  lemma LaidOutSnoc(page: nat, y: int, added: seq<Placed>, x: Placed, limit: int, step: int)
    requires LaidOut(page, y, added, limit, step)
    requires x == PlacedAt(Cursor(page, y, added, step).0, Cursor(page, y, added, step).1, limit, x.text)
    ensures LaidOut(page, y, added + [x], limit, step)
    ensures Cursor(page, y, added + [x], step) == (x.page, x.y + step)
  {
    assert (added + [x])[..|added|] == added;
  }

  /** `line` is where the layout puts a line after `prev`: `gap` below it, or at the top of the
      next page when that is past `limit`. */
  predicate PlacedAfter(prev: Placed, gap: int, limit: int, line: Placed) {
    line == PlacedAt(prev.page, prev.y + gap, limit, line.text)
  }

  /** Laid-out lines start at the cursor and each follows the one before by the rule. */
  lemma {:induction false} LaidOutChain(page: nat, y: int, added: seq<Placed>, limit: int, step: int)
    requires LaidOut(page, y, added, limit, step)
    ensures added != [] ==> added[0] == PlacedAt(page, y, limit, added[0].text)
    ensures forall j :: 0 < j < |added| ==> PlacedAfter(added[j - 1], step, limit, added[j])
    decreases |added|
  {
    if added != [] {
      var init := added[..|added| - 1];
      LaidOutChain(page, y, init, limit, step);
      forall j | 0 < j < |added|
        ensures PlacedAfter(added[j - 1], step, limit, added[j])
      {
        if j < |added| - 1 {
          assert added[j - 1] == init[j - 1] && added[j] == init[j];
        }
      }
    }
  }

  /** Lines laid out from the cursor a layout left, never past `Lowest`, extend that layout. */
  lemma {:induction false} LaidAppend(lines: seq<Placed>, page: nat, y: int, pageHeight: int, added: seq<Placed>, step: int)
    requires Laid(lines, page, y, pageHeight) && LaidOut(page, y, added, pageHeight - 20, step) && step > 0
    ensures Laid(lines + added, Cursor(page, y, added, step).0, Cursor(page, y, added, step).1, pageHeight)
    decreases |added|
  {
    if added == [] {
      assert lines + added == lines;
    } else {
      var init, x := added[..|added| - 1], added[|added| - 1];
      var c := Cursor(page, y, init, step);
      LaidAppend(lines, page, y, pageHeight, init, step);
      LaidSnoc(lines + init, c.0, c.1, pageHeight, x, step);
      SnocSplit(lines, added);
    }
  }

  /** A line placed by `PlacedAt` from the cursor of a layout extends that layout. */
  lemma LaidSnoc(lines: seq<Placed>, page: nat, y: int, pageHeight: int, x: Placed, step: int)
    requires Laid(lines, page, y, pageHeight) && step > 0
    requires x == PlacedAt(page, y, pageHeight - 20, x.text)
    ensures Laid(lines + [x], x.page, x.y + step, pageHeight)
  {
    PlaceKeepsLaid(lines, page, y, pageHeight, x, x.y + step);
  }

  lemma SnocSplit(lines: seq<Placed>, added: seq<Placed>)
    requires added != []
    ensures (lines + added[..|added| - 1]) + [added[|added| - 1]] == lines + added
  {
    assert added[..|added| - 1] + [added[|added| - 1]] == added;
    AppendAssociative(lines, added[..|added| - 1], [added[|added| - 1]]);
  }

  lemma {:induction false} TextsAppend(a: seq<Placed>, b: seq<Placed>)
    ensures Texts(a + b) == Texts(a) + Texts(b)
    decreases |b|
  {
    if b == [] {
      assert a + b == a;
    } else {
      var init, x := b[..|b| - 1], b[|b| - 1];
      TextsAppend(a, init);
      assert a + b == (a + init) + [x] by {
        assert init + [x] == b;
        AppendAssociative(a, init, [x]);
      }
      TextsSnoc(a + init, x);
      TextsSnoc(init, x);
      AppendAssociative(Texts(a), Texts(init), [x.text]);
    }
  }

  /** Writes one line at `(p, t)`, which is the cursor or the top of the next page, and moves
      the cursor `step` below it. */
  method Place(lines: seq<Placed>, page: nat, y: int, pageHeight: int, p: nat, t: int, text: string, step: nat)
    returns (lines': seq<Placed>, page': nat, y': int)
    requires Laid(lines, page, y, pageHeight)
    requires (p == page && t == y) || (p == page + 1 && t == Top)
    requires t <= Lowest(pageHeight) && step > 0
    ensures |lines'| == |lines| + 1 && lines'[|lines|] == Placed(p, t, text) && page' == p && y' == t + step
    ensures forall i :: 0 <= i < |lines| ==> lines'[i] == lines[i]
    ensures Laid(lines', page', y', pageHeight)
    ensures Texts(lines') == Texts(lines) + [text]
  {
    lines', page', y' := lines + [Placed(p, t, text)], p, t + step;
    TextsSnoc(lines, Placed(p, t, text));
    PlaceKeepsLaid(lines, page, y, pageHeight, Placed(p, t, text), t + step);
  }

  lemma PlaceKeepsLaid(lines: seq<Placed>, page: nat, y: int, pageHeight: int, line: Placed, next: int)
    requires Laid(lines, page, y, pageHeight)
    requires (line.page == page && line.y == y) || (line.page == page + 1 && line.y == Top)
    requires line.y <= Lowest(pageHeight) && next > line.y
    ensures Laid(lines + [line], line.page, next, pageHeight)
  {
    var n := lines + [line];
    assert n[..|lines|] == lines;
    assert forall i :: 0 <= i < |lines| ==> n[i] == lines[i];
  }

  /** The title block: title, track, totals and the saved date when there is one. */
  method RenderHeader(plan: PdfPlan, pageHeight: int, render: real -> string) returns (lines: seq<Placed>, page: nat, y: int)
    ensures Laid(lines, page, y, pageHeight)
    ensures lines != [] && lines[0] == Placed(1, Top, DisplayName(plan, "Academic Plan"))
    ensures Texts(lines) == HeaderTexts(plan, render)
    ensures page == 1 && y <= 61
  {
    lines, page, y := Place([], 1, Top, pageHeight, 1, Top, DisplayName(plan, "Academic Plan"), 10);
    lines, page, y := Place(lines, page, y, pageHeight, page, y, "Track: " + TrackLabel(plan.track), 7);
    lines, page, y := Place(lines, page, y, pageHeight, page, y, "Total Credits: " + render(plan.totalCredits), 7);
    lines, page, y := Place(lines, page, y, pageHeight, page, y, "Total Courses: " + render(plan.totalCourses), 7);
    if plan.savedDate.Some? {
      lines, page, y := Place(lines, page, y, pageHeight, page, y, "Saved: " + plan.savedDate.value, 10);
    }
  }

  /** The number of lines a semester takes: heading, credit total, and its course lines or
      "No courses". */
  function SemesterLineCount(s: PdfSemester): nat {
    2 + (if s.courses == [] then 1 else |s.courses|)
  }

  /** The number of lines the first `k` semesters take. */
  function LinesBefore(sems: seq<PdfSemester>, k: nat): nat
    requires k <= |sems|
  {
    if k == 0 then 0 else LinesBefore(sems, k - 1) + SemesterLineCount(sems[k - 1])
  }

  lemma {:induction false} LinesBeforeGrows(sems: seq<PdfSemester>, a: nat, b: nat)
    requires a < b <= |sems|
    ensures LinesBefore(sems, a) < LinesBefore(sems, b)
    decreases b
  {
    if a < b - 1 {
      LinesBeforeGrows(sems, a, b - 1);
    }
  }

  /** How far below the line before it the cursor stands when semester `k`'s heading is
      written: 10 after "Semesters", 6 and then 5 after the previous semester's last line. */
  function HeadingGap(k: nat): int {
    if k == 0 then 10 else 11
  }

  /** The headings of the first `k` semesters, the first of them at line `base`, each sit where
      the rule puts them after the line before: `HeadingGap` below it, or at the top of a new
      page when that is past 40 above the bottom. */
  predicate HeadingsPlaced(lines: seq<Placed>, base: nat, sems: seq<PdfSemester>, k: nat, pageHeight: int)
    requires k <= |sems|
  {
    forall j :: 0 <= j < k ==> HeadingAt(lines, base, sems, j, pageHeight)
  }

  /** Semester `j`'s heading, at line `base + LinesBefore(sems, j)`, sits where the rule puts it
      after the line before. */
  predicate HeadingAt(lines: seq<Placed>, base: nat, sems: seq<PdfSemester>, j: nat, pageHeight: int)
    requires j < |sems|
  {
    var i := base + LinesBefore(sems, j);
    0 < i < |lines| && PlacedAfter(lines[i - 1], HeadingGap(j), pageHeight - 40, lines[i])
  }

  /** One more semester, appended after the last line, keeps the earlier headings in place and
      adds its own. */
  lemma HeadingsStep(lines: seq<Placed>, lines': seq<Placed>, base: nat, sems: seq<PdfSemester>, k: nat, pageHeight: int)
    requires k < |sems| && 1 <= base && |lines| == base + LinesBefore(sems, k)
    requires HeadingsPlaced(lines, base, sems, k, pageHeight)
    requires |lines'| > |lines| && forall i :: 0 <= i < |lines| ==> lines'[i] == lines[i]
    requires PlacedAfter(lines[|lines| - 1], HeadingGap(k), pageHeight - 40, lines'[|lines|])
    ensures HeadingsPlaced(lines', base, sems, k + 1, pageHeight)
  {
    forall j | 0 <= j < k + 1
      ensures HeadingAt(lines', base, sems, j, pageHeight)
    {
      if j < k {
        HeadingKept(lines, lines', base, sems, k, j, pageHeight);
      } else {
        assert base + LinesBefore(sems, j) == |lines|;
        assert lines'[|lines| - 1] == lines[|lines| - 1];
      }
    }
  }

  /** An earlier heading stays where it was when lines are appended. */
  lemma HeadingKept(lines: seq<Placed>, lines': seq<Placed>, base: nat, sems: seq<PdfSemester>, k: nat, j: nat, pageHeight: int)
    requires j < k <= |sems| && |lines| == base + LinesBefore(sems, k)
    requires HeadingsPlaced(lines, base, sems, k, pageHeight)
    requires |lines'| >= |lines| && forall i :: 0 <= i < |lines| ==> lines'[i] == lines[i]
    ensures HeadingAt(lines', base, sems, j, pageHeight)
  {
    var i := base + LinesBefore(sems, j);
    assert HeadingAt(lines, base, sems, j, pageHeight);
    assert lines'[i] == lines[i] && lines'[i - 1] == lines[i - 1];
  }

  lemma AppendAssociative<T>(a: seq<T>, b: seq<T>, c: seq<T>)
    ensures a + (b + c) == (a + b) + c
  {
  }

  /** The layout after the first `k` semesters were written after `start`: valid, its texts
      those of the semesters, its headings placed, and the cursor `HeadingGap(k)` below the
      last line. */
  ghost predicate Progress(start: seq<Placed>, lines: seq<Placed>, page: nat, y: int, sems: seq<PdfSemester>, k: nat,
                           pageHeight: int, render: real -> string)
    requires k <= |sems|
  {
    && Laid(lines, page, y, pageHeight)
    && |start| >= 1 && |lines| == |start| + LinesBefore(sems, k) && lines[0] == start[0]
    && Texts(lines) == Texts(start) + AllSemesterTexts(sems[..k], render)
    && page == lines[|lines| - 1].page && y == lines[|lines| - 1].y + HeadingGap(k)
    && HeadingsPlaced(lines, |start|, sems, k, pageHeight)
  }

  /** Writes semester `k`, one round of the semester loop. */
  method RenderNextSemester(ghost start: seq<Placed>, lines: seq<Placed>, page: nat, y: int, sems: seq<PdfSemester>, k: nat,
                            pageHeight: int, render: real -> string)
    returns (lines': seq<Placed>, page': nat, y': int)
    requires k < |sems| && Progress(start, lines, page, y, sems, k, pageHeight, render)
    ensures Progress(start, lines', page', y', sems, k + 1, pageHeight, render)
  {
    AppendAssociative(Texts(start), AllSemesterTexts(sems[..k], render), SemesterTexts(sems[k], render));
    lines', page', y' := RenderSemester(lines, page, y, sems[k], pageHeight, render);
    HeadingsStep(lines, lines', |start|, sems, k, pageHeight);
    AllSemesterTextsPrefix(sems, k, render);
  }

  /** The semester loop: writes every semester after the layout `start`. */
  method RenderSemesters(start: seq<Placed>, page: nat, y: int, sems: seq<PdfSemester>, pageHeight: int, render: real -> string)
    returns (lines: seq<Placed>)
    requires Progress(start, start, page, y, sems, 0, pageHeight, render)
    ensures exists page', y' :: Progress(start, lines, page', y', sems, |sems|, pageHeight, render)
  {
    var page', y' := page, y;
    lines := start;
    for k := 0 to |sems|
      invariant Progress(start, lines, page', y', sems, k, pageHeight, render)
    {
      lines, page', y' := RenderNextSemester(start, lines, page', y', sems, k, pageHeight, render);
    }
  }

  /** `generatePlanPDF`: every line of the document in order, ordered and in bounds, with each
      semester heading where the page-break rule puts it (the lines inside a semester are
      placed as `RenderSemester` states). */
  method RenderPlan(plan: PdfPlan, pageHeight: int, render: real -> string) returns (lines: seq<Placed>)
    ensures Texts(lines) == PlanTexts(plan, render)
    ensures Ordered(lines) && InBounds(lines, pageHeight)
    ensures lines[0] == Placed(1, Top, DisplayName(plan, "Academic Plan"))
    ensures HeadingsPlaced(lines, |HeaderTexts(plan, render)| + 1, plan.semesters, |plan.semesters|, pageHeight)
  {
    var page, y;
    lines, page, y := RenderHeader(plan, pageHeight, render);
    if |plan.semesters| > 0 {
      lines, page, y := Place(lines, page, y, pageHeight, page, y, "Semesters", 10);
      assert Progress(lines, lines, page, y, plan.semesters, 0, pageHeight, render) by {
        assert plan.semesters[..0] == [];
      }
      lines := RenderSemesters(lines, page, y, plan.semesters, pageHeight, render);
      assert plan.semesters[..|plan.semesters|] == plan.semesters;
      AppendAssociative(HeaderTexts(plan, render), ["Semesters"], AllSemesterTexts(plan.semesters, render));
    }
  }
}
