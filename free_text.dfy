/** The free-text course parser of the transcript import panel (`parseTranscriptText`): each
    line becomes a course by a separator split, a course-code prefix or the whole line, after
    lines with bookkeeping keywords are dropped; the courses are then de-duplicated on their
    lower-cased code and name and capped at eight.

    The patterns are applied to whitespace-normalised lines only, where `\s*` and `\s?` match one
    space or none and `.` matches every character; the matchers below are exact there. */
module TranscriptText {
  import opened Wrappers
  import opened Text
  import opened Collections

  /** A course read from free text: a name, and a code when the line had one. The text parser
      never sets credits; the upload route's records, which have them, use the same shape. */
  datatype TranscriptCourse = TranscriptCourse(name: string, code: Option<string>, credits: Option<real>)

  /** `IGNORED_KEYWORDS` */
  const IgnoredKeywords: seq<string> := ["gpa", "semester", "term", "credits", "total", "major", "program"]

  /** The largest number of courses the parser returns. */
  const MaxCourses := 8

  predicate HasIgnoredKeyword(lower: string) {
    ContainsAny(lower, IgnoredKeywords)
  }

  /** The separator class `[-:–—]`: hyphen, colon, en dash, em dash. */
  predicate IsSeparator(c: char) {
    c == '-' || c == ':' || c as int == 0x2013 || c as int == 0x2014
  }

  /** The separator the lazy head of `^(.+?)\s*[-:–—]\s*(.+)$` stops at, searching from `p`: the
      first separator after at least one character with at least one character after it. A space
      before or after it is absorbed by `\s*` and removed again by the normalisation of both
      groups. */
  function FirstSeparator(n: string, p: nat): (r: Option<nat>)
    requires p >= 1
    ensures r.Some? ==> p <= r.value && r.value + 1 < |n| && IsSeparator(n[r.value])
    ensures r.Some? ==> forall q :: p <= q < r.value ==> !(IsSeparator(n[q]) && q + 1 < |n|)
    ensures r.None? ==> forall q :: p <= q < |n| ==> !(IsSeparator(n[q]) && q + 1 < |n|)
    decreases |n| - p
  {
    if p + 1 >= |n| then None
    else if IsSeparator(n[p]) then Some(p)
    else FirstSeparator(n, p + 1)
  }

  /** The code group of `^([A-Z]{2,4}\s?\d{2,4}[A-Z]?)\s+(.*)$`, as the length of the text it
      spans. The letters must be the whole run of capitals at the start and the digits the whole
      run of digits, since a shorter choice leaves a letter or digit where the next part of the
      pattern cannot take it; the optional capital is taken when the required space follows it. */
  function CodePrefix(n: string): (r: Option<nat>)
    ensures r.Some? ==> 4 <= r.value < |n| && IsSpace(n[r.value])
  {
    var k := UpperRun(n, 0);
    if k < 2 || k > 4 then None
    else
      var a := if k < |n| && IsSpace(n[k]) then k + 1 else k;
      var d := DigitRun(n, a);
      if d < 2 || d > 4 then None
      else
        var q := a + d;
        if q + 1 < |n| && IsUpper(n[q]) && IsSpace(n[q + 1]) then Some(q + 1)
        else if q < |n| && IsSpace(n[q]) then Some(q)
        else None
  }

  function UpperRun(s: string, i: nat): (n: nat)
    ensures i + n <= |s| || n == 0
    ensures forall k :: i <= k < i + n ==> IsUpper(s[k])
    decreases |s| - i
  {
    if i < |s| && IsUpper(s[i]) then 1 + UpperRun(s, i + 1) else 0
  }

  function DigitRun(s: string, i: nat): (n: nat)
    ensures i + n <= |s| || n == 0
    ensures forall k :: i <= k < i + n ==> IsDigit(s[k])
    decreases |s| - i
  {
    if i < |s| && IsDigit(s[i]) then 1 + DigitRun(s, i + 1) else 0
  }

  /** `parseLineToCourse`. */
  function ParseLineToCourse(line: string): (r: Option<TranscriptCourse>)
    // short lines and lines naming a bookkeeping keyword yield nothing
    ensures |NormalizeWhitespace(line)| < 3 ==> r.None?
    ensures HasIgnoredKeyword(Lower(NormalizeWhitespace(line))) ==> r.None?
    // every course has a non-empty name and no credits
    ensures r.Some? ==> r.value.name != [] && r.value.credits.None?
  {
    var normalized := NormalizeWhitespace(line);
    if |normalized| < 3 then None
    else if HasIgnoredKeyword(Lower(normalized)) then None
    else CourseOfLine(normalized)
  }

  /** The three ways a kept, normalised line `n` becomes a course, tried in order. */
  function CourseOfLine(n: string): (r: Option<TranscriptCourse>)
    requires |n| >= 3
    ensures r.Some? ==> r.value.name != [] && r.value.credits.None?
  {
    match FirstSeparator(n, 1)
    case Some(p) => SeparatedCourse(n, p)
    case None =>
      match CodePrefix(n)
      case Some(q) => CodedCourse(n, q)
      case None => Some(TranscriptCourse(n, None, None))
  }

  /** The separator split at `p`: the code before it and the name after it, both normalised; no
      course when the name is empty. */
  function SeparatedCourse(n: string, p: nat): (r: Option<TranscriptCourse>)
    requires p < |n|
    ensures r.Some? ==> r.value.name != [] && r.value.credits.None?
  {
    var code := NormalizeWhitespace(n[..p]);
    var name := NormalizeWhitespace(n[p + 1..]);
    if name == [] then None else Some(TranscriptCourse(name, Some(code), None))
  }

  /** The code prefix ending at the space at `q`: the normalised text after it is the name, or
      the whole line when that is empty. */
  function CodedCourse(n: string, q: nat): (r: Option<TranscriptCourse>)
    requires q < |n|
    ensures r.Some? && r.value.name != [] && r.value.credits.None?
  {
    var code := NormalizeWhitespace(n[..q]);
    var name := NormalizeWhitespace(n[q + 1..]);
    Some(TranscriptCourse(if name != [] then name else n, Some(code), None))
  }

  lemma CourseOfLineNameNormalized(n: string)
    requires |n| >= 3 && Normalized(n)
    ensures CourseOfLine(n).Some? ==> Normalized(CourseOfLine(n).value.name)
  {
    var rest := CourseOfLineNameSource(n);
    NormalizeWhitespaceNormalized(rest);
  }

  /** A course name is the whole line or the normalised text after some position of it. */
  lemma CourseOfLineNameSource(n: string) returns (rest: string)
    requires |n| >= 3
    ensures CourseOfLine(n).Some? ==> CourseOfLine(n).value.name == n || CourseOfLine(n).value.name == NormalizeWhitespace(rest)
  {
    match FirstSeparator(n, 1)
    case Some(p) =>
      rest := n[p + 1..];
    case None =>
      match CodePrefix(n)
      case Some(q) =>
        rest := n[q + 1..];
        CodedCourseName(n, q);
      case None =>
        rest := n;
  }

  lemma CodedCourseName(n: string, q: nat)
    requires |n| >= 3 && FirstSeparator(n, 1).None? && CodePrefix(n) == Some(q)
    ensures CourseOfLine(n) == CodedCourse(n, q)
    ensures CodedCourse(n, q).value.name == n || CodedCourse(n, q).value.name == NormalizeWhitespace(n[q + 1..])
  {
  }

  /** Every course name is whitespace-normalised. */
  lemma ParsedNameNormalized(line: string)
    ensures ParseLineToCourse(line).Some? ==> Normalized(ParseLineToCourse(line).value.name)
  {
    var n := NormalizeWhitespace(line);
    if |n| >= 3 && !HasIgnoredKeyword(Lower(n)) {
      NormalizeWhitespaceNormalized(line);
      CourseOfLineNameNormalized(n);
    }
  }

  /** The separator split comes before the code prefix: a line with a separator after its first
      character and before its last is split there, at the first such separator, and the name
      is never empty there. */
  lemma SeparatorSplitFirst(n: string)
    requires |n| >= 3 && Normalized(n) && FirstSeparator(n, 1).Some?
    ensures var p := FirstSeparator(n, 1).value;
            && (forall q :: 1 <= q < p ==> !IsSeparator(n[q]))
            && CourseOfLine(n)
               == Some(TranscriptCourse(NormalizeWhitespace(n[p + 1..]), Some(NormalizeWhitespace(n[..p])), None))
  {
    var p := FirstSeparator(n, 1).value;
    NormalizedHasNoTrailingBlank(n, p + 1);
  }

  /** A non-empty tail of a normalised string is not blank, so it does not normalise to nothing. */
  lemma NormalizedHasNoTrailingBlank(n: string, i: nat)
    requires Normalized(n) && i < |n|
    ensures NormalizeWhitespace(n[i..]) != []
  {
    assert n[i..][|n[i..]| - 1] == n[|n| - 1];
  }

  /** A line with no usable separator that starts with a course code yields that code, and the
      rest of the line as the name. */
  lemma CodePrefixSecond(n: string)
    requires |n| >= 3 && Normalized(n) && FirstSeparator(n, 1).None? && CodePrefix(n).Some?
    ensures var q := CodePrefix(n).value;
            && CourseOfLine(n).Some?
            && CourseOfLine(n).value.code == Some(NormalizeWhitespace(n[..q]))
            && CourseOfLine(n).value.name == NormalizeWhitespace(n[q + 1..])
  {
    var q := CodePrefix(n).value;
    assert n[q] == ' ';
    NormalizedHasNoTrailingBlank(n, q + 1);
  }

  /** A line with neither a usable separator nor a code prefix is a course named by the whole
      normalised line. */
  lemma WholeLineLast(n: string)
    requires |n| >= 3 && FirstSeparator(n, 1).None? && CodePrefix(n).None?
    ensures CourseOfLine(n) == Some(TranscriptCourse(n, None, None))
  {
  }

  /** The lines of the text: `split(/\r?\n/)`, trimmed, empty ones dropped. A `\r` before a
      line feed is whitespace at the end of its line, which the trim removes in any case. */
  function TextLines(text: string): (lines: seq<string>)
    ensures forall k :: 0 <= k < |lines| ==> lines[k] != []
  {
    KeepNonEmpty(TrimAll(Split(text, '\n')))
  }

  function TrimAll(xs: seq<string>): (r: seq<string>)
    ensures |r| == |xs|
    ensures forall k :: 0 <= k < |xs| ==> r[k] == Trim(xs[k])
    ensures forall k :: 0 <= k < |r| ==> Trimmed(r[k])
  {
    seq(|xs|, k requires 0 <= k < |xs| => Trim(xs[k]))
  }

  function KeepNonEmpty(xs: seq<string>): (r: seq<string>)
    ensures |r| <= |xs|
    ensures forall k :: 0 <= k < |r| ==> r[k] != []
  {
    if xs == [] then [] else (if xs[0] == [] then [] else [xs[0]]) + KeepNonEmpty(xs[1..])
  }

  /** `lines.map(parseLineToCourse).filter(Boolean)` */
  function ParsedCourses(lines: seq<string>): (r: seq<TranscriptCourse>)
    ensures |r| <= |lines|
  {
    ParsedWith(lines, ParseLineToCourse)
  }

  /** The courses that `parse` yields for the lines, in line order. */
  function ParsedWith(lines: seq<string>, parse: string -> Option<TranscriptCourse>): (r: seq<TranscriptCourse>)
    ensures |r| <= |lines|
  {
    if lines == [] then []
    else
      var c := parse(lines[0]);
      (if c.Some? then [c.value] else []) + ParsedWith(lines[1..], parse)
  }

  /** A course name as the parser produces it: non-empty and whitespace-normalised. */
  ghost predicate WellNamed(c: TranscriptCourse) {
    c.name != [] && Normalized(c.name)
  }

  lemma {:induction false} ParsedWithWellNamed(lines: seq<string>, parse: string -> Option<TranscriptCourse>)
    requires forall l :: parse(l).Some? ==> WellNamed(parse(l).value)
    ensures forall c :: c in ParsedWith(lines, parse) ==> WellNamed(c)
  {
    if lines != [] {
      ParsedWithWellNamed(lines[1..], parse);
    }
  }

  /** Every parsed course has a non-empty, normalised name. */
  lemma ParsedCoursesWellNamed(lines: seq<string>)
    ensures forall c :: c in ParsedCourses(lines) ==> WellNamed(c)
  {
    forall l ensures ParseLineToCourse(l).Some? ==> WellNamed(ParseLineToCourse(l).value) {
      ParsedNameNormalized(l);
    }
    ParsedWithWellNamed(lines, ParseLineToCourse);
  }

  /** The de-duplication key `${(code || "").toLowerCase()}|${name.toLowerCase()}`. */
  function CourseKey(c: TranscriptCourse): string {
    Lower(c.code.GetOr("")) + "|" + Lower(c.name)
  }

  /** `parseTranscriptText` as a function of the text. */
  function ParseTranscriptTextSpec(text: string): seq<TranscriptCourse> {
    FirstUnique(ParsedCourses(TextLines(text)))
  }

  /** The first eight courses once later duplicates are dropped. */
  function FirstUnique(courses: seq<TranscriptCourse>): seq<TranscriptCourse> {
    var unique := DedupBy(courses, CourseKey, {});
    if |unique| <= MaxCourses then unique else unique[..MaxCourses]
  }

  /** At most eight courses, no two with the same key, each one of the input's courses. */
  lemma FirstUniqueProperties(courses: seq<TranscriptCourse>)
    ensures var r := FirstUnique(courses);
            && |r| <= MaxCourses
            && (forall i, j :: 0 <= i < j < |r| ==> CourseKey(r[i]) != CourseKey(r[j]))
            && (forall k :: 0 <= k < |r| ==> r[k] in courses)
  {
    var unique := DedupBy(courses, CourseKey, {});
    var r := FirstUnique(courses);
    assert forall k :: 0 <= k < |r| ==> r[k] == unique[k];
  }

  /** `parseTranscriptText`: the parsed courses are de-duplicated, then the first eight are
      returned. */
  method ParseTranscriptText(text: string) returns (result: seq<TranscriptCourse>)
    ensures result == ParseTranscriptTextSpec(text)
    ensures |result| <= MaxCourses
    ensures forall i, j :: 0 <= i < j < |result| ==> CourseKey(result[i]) != CourseKey(result[j])
    ensures forall k :: 0 <= k < |result| ==> result[k].name != [] && Normalized(result[k].name)
  {
    var lines := TextLines(text);
    var courses := ParsedCourses(lines);
    var unique := Dedup(courses, CourseKey, {});
    result := if |unique| <= MaxCourses then unique else unique[..MaxCourses];
    assert result == FirstUnique(courses);
    ParseTranscriptTextProperties(text);
  }

  /** At most eight courses, no two with the same key, each with a non-empty normalised name. */
  lemma ParseTranscriptTextProperties(text: string)
    ensures var r := ParseTranscriptTextSpec(text);
            && |r| <= MaxCourses
            && (forall i, j :: 0 <= i < j < |r| ==> CourseKey(r[i]) != CourseKey(r[j]))
            && (forall k :: 0 <= k < |r| ==> r[k].name != [] && Normalized(r[k].name))
  {
    var courses := ParsedCourses(TextLines(text));
    ParsedCoursesWellNamed(TextLines(text));
    FirstUniqueProperties(courses);
    var r := FirstUnique(courses);
    assert forall k :: 0 <= k < |r| ==> WellNamed(r[k]);
  }
}
