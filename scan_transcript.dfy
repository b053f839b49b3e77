/** The course-record parser of the transcript-scanning route (`parseClasses`): one pass over the
    normalised lines of extracted transcript text, with a current-term register and an
    "inside the current-courses block" flag, trying ordered line matchers and de-duplicating the
    records on a composite key.

    Each regular expression of the source is written out as an explicit matcher. The matchers
    are only ever applied to normalised lines (single spaces, nothing at either end, no line
    terminators), and they are exact there: `\s+` and `\s*` can then only match one space or
    none, and a `.` matches every character. */
module ScanTranscript {
  import opened Wrappers
  import opened Text
  import opened Collections

  /** One course record of the result. */
  datatype CourseRecord = CourseRecord(
    code: string,
    name: string,
    credits: Option<real>,
    grade: Option<string>,
    semester: Option<string>)

  // =========================================================================================
  // Scanning helpers

  /** Length of the run of characters satisfying `p` that starts at `i`. */
  function RunLength(s: string, i: nat, p: char -> bool): (n: nat)
    ensures n == 0 || i + n <= |s|
    ensures forall k :: i <= k < i + n ==> k < |s| && p(s[k])
    ensures i + n < |s| ==> !p(s[i + n])
    decreases |s| - i
  {
    if i < |s| && p(s[i]) then 1 + RunLength(s, i + 1, p) else 0
  }

  /** The token `\d+(?:\.\d+)?` at `i`, both parts greedy; empty when no digit stands at `i`. */
  function NumeralAt(s: string, i: nat): (t: string)
    ensures t == [] <==> !(i < |s| && IsDigit(s[i]))
    ensures t != [] ==> IsNumeral(t) && i + |t| <= |s| && s[i..i + |t|] == t
  {
    var d := RunLength(s, i, IsDigit);
    if d == 0 then []
    else if i + d + 1 < |s| && s[i + d] == '.' && IsDigit(s[i + d + 1]) then
      var f := RunLength(s, i + d + 1, IsDigit);
      var t := s[i..i + d + 1 + f];
      assert forall k :: 0 <= k < |t| && k != d ==> IsDigit(t[k]);
      t
    else
      s[i..i + d]
  }

  /** `\b` at position `k`: a word character on exactly one side. */
  predicate Boundary(s: string, k: nat) {
    (0 < k <= |s| && IsWordChar(s[k - 1])) != (k < |s| && IsWordChar(s[k]))
  }

  /** The literal `lit` stands at `g`; with `ci` (the `i` flag) letters match in either case.
      `lit` is written in upper case. */
  predicate LiteralAt(s: string, g: nat, lit: string, ci: bool) {
    g + |lit| <= |s| && (if ci then Upper(s[g..g + |lit|]) == lit else s[g..g + |lit|] == lit)
  }

  /** `\s*-?\s*` from `i`: an optional space, an optional hyphen, an optional space. */
  function SkipSeparator(s: string, i: nat): (p: nat)
    ensures i <= p <= i + 3
  {
    var a := if i < |s| && IsSpace(s[i]) then i + 1 else i;
    var b := if a < |s| && s[a] == '-' then a + 1 else a;
    if b < |s| && IsSpace(s[b]) then b + 1 else b
  }

  // =========================================================================================
  // The course code `([A-Z]{2,4})\s*-?\s*(\d{3}[A-Z]?)\s+`

  /** A subject and number, and the position of the whitespace that must follow them. */
  datatype CodeHead = CodeHead(subject: string, number: string, next: nat)

  predicate IsSubject(t: string, ci: bool) {
    2 <= |t| <= 4 && forall k :: 0 <= k < |t| ==> (if ci then IsLetter(t[k]) else IsUpper(t[k]))
  }

  predicate IsCourseNumber(t: string, ci: bool) {
    && (|t| == 3 || |t| == 4)
    && AllDigits(t[..3])
    && (|t| == 4 ==> if ci then IsLetter(t[3]) else IsUpper(t[3]))
  }

  /** The code group at `i`. The letter group can only be the whole run of letters at `i`: a
      shorter choice leaves a letter where the separator or a digit must stand, so the regex
      fails when that run is not 2 to 4 long. Likewise `[A-Z]?` takes the letter after the three
      digits exactly when a space follows it. */
  function CodeHeadAt(s: string, i: nat, ci: bool): (h: Option<CodeHead>)
    ensures h.Some? ==> && IsSubject(h.value.subject, ci) && IsCourseNumber(h.value.number, ci)
                        && i < h.value.next < |s| && IsSpace(s[h.value.next])
  {
    var letter := if ci then IsLetter else IsUpper;
    var k := RunLength(s, i, letter);
    if k < 2 || k > 4 then None
    else
      match NumberAt(s, SkipSeparator(s, i + k), ci)
      case None => None
      case Some((number, next)) => Some(CodeHead(s[i..i + k], number, next))
  }

  /** The number group `\d{3}[A-Z]?` at `p` and the position of the whitespace after it. */
  function NumberAt(s: string, p: nat, ci: bool): (r: Option<(string, nat)>)
    ensures r.Some? ==> IsCourseNumber(r.value.0, ci) && p < r.value.1 < |s| && IsSpace(s[r.value.1])
  {
    if p + 3 > |s| || !AllDigits(s[p..p + 3]) then None
    else
      var q := p + 3;
      if q < |s| && (if ci then IsLetter(s[q]) else IsUpper(s[q])) then
        if q + 1 < |s| && IsSpace(s[q + 1]) then
          assert s[p..q + 1][..3] == s[p..p + 3];
          Some((s[p..q + 1], q + 1))
        else None
      else if q < |s| && IsSpace(s[q]) then
        assert s[p..q][..3] == s[p..p + 3];
        Some((s[p..q], q))
      else None
  }

  // =========================================================================================
  // The grade `([A-F][+-]?|P|W|I|IP|S|U)`

  /** A grade token as the case-sensitive pattern admits it (the class `[A-F]` includes E). */
  predicate IsGradeToken(g: string) {
    || (|g| == 1 && 'A' <= g[0] <= 'F')
    || (|g| == 2 && 'A' <= g[0] <= 'F' && (g[1] == '+' || g[1] == '-'))
    || g == "P" || g == "W" || g == "I" || g == "IP" || g == "S" || g == "U"
  }

  /** The literal alternative `lit` at `g`, as it is written in `s`, when it stands there. */
  function LiteralTry(s: string, g: nat, lit: string, ci: bool): (ts: seq<string>)
    ensures |ts| <= 1
    ensures forall t :: t in ts ==> g + |t| <= |s| && s[g..g + |t|] == t && (if ci then Upper(t) else t) == lit
  {
    if LiteralAt(s, g, lit, ci) then [s[g..g + |lit|]] else []
  }

  /** The alternative `[A-F][+-]?` at `g`: with the sign first (the `?` is greedy), then without. */
  function LetterGradeTries(s: string, g: nat, ci: bool): (ts: seq<string>)
    requires g < |s|
    ensures forall t :: t in ts ==> |t| > 0 && g + |t| <= |s| && s[g..g + |t|] == t
    ensures forall t :: t in ts ==> IsGradeToken(if ci then Upper(t) else t)
  {
    var c := if ci then UpperChar(s[g]) else s[g];
    if 'A' <= c <= 'F' then
      var one := s[g..g + 1];
      assert (if ci then Upper(one) else one) == [c];
      if g + 1 < |s| && (s[g + 1] == '+' || s[g + 1] == '-') then
        var two := s[g..g + 2];
        assert (if ci then Upper(two) else two) == [c, s[g + 1]];
        [two, one]
      else [one]
    else []
  }

  /** The texts the grade group can match at `g`, in the order the regex tries them: the lettered
      alternative, then `P`, `W`, `I`, `IP`, `S`, `U` in the order listed. */
  function GradeTries(s: string, g: nat, ci: bool): (ts: seq<string>)
    ensures forall t :: t in ts ==> |t| > 0 && g + |t| <= |s| && s[g..g + |t|] == t
    ensures forall t :: t in ts ==> IsGradeToken(if ci then Upper(t) else t)
  {
    if g >= |s| then [] else LetterGradeTries(s, g, ci) + LiteralTries(s, g, ci)
  }

  /** The literal alternatives `P`, `W`, `I`, `IP`, `S`, `U` at `g`, in the order listed. */
  function LiteralTries(s: string, g: nat, ci: bool): (ts: seq<string>)
    ensures forall t :: t in ts ==> |t| > 0 && g + |t| <= |s| && s[g..g + |t|] == t
    ensures forall t :: t in ts ==> IsGradeToken(if ci then Upper(t) else t)
  {
    LiteralTry(s, g, "P", ci) + LiteralTry(s, g, "W", ci) + LiteralTry(s, g, "I", ci)
    + LiteralTry(s, g, "IP", ci) + LiteralTry(s, g, "S", ci) + LiteralTry(s, g, "U", ci)
  }

  /** The first of the grade tries `ts` at `g` after which `\s+\d` follows (primary pattern). */
  function FirstContinued(s: string, ts: seq<string>, g: nat): (r: Option<string>)
    ensures r.Some? ==> r.value in ts && PrimaryContinues(s, g + |r.value|)
    ensures r.Some? ==> exists k :: 0 <= k < |ts| && ts[k] == r.value
                                   && forall j :: 0 <= j < k ==> !PrimaryContinues(s, g + |ts[j]|)
    ensures r.None? ==> forall t :: t in ts ==> !PrimaryContinues(s, g + |t|)
  {
    match FirstPassing(ts, (t: string) => PrimaryContinues(s, g + |t|))
    case None => None
    case Some(k) => Some(ts[k])
  }

  /** The first of the grade tries `ts` at `g` that ends on a word boundary (fallback pattern). */
  function FirstAtBoundary(s: string, ts: seq<string>, g: nat): (r: Option<string>)
    ensures r.Some? ==> r.value in ts && Boundary(s, g + |r.value|)
    ensures r.Some? ==> exists k :: 0 <= k < |ts| && ts[k] == r.value
                                   && forall j :: 0 <= j < k ==> !Boundary(s, g + |ts[j]|)
    ensures r.None? ==> forall t :: t in ts ==> !Boundary(s, g + |t|)
  {
    match FirstPassing(ts, (t: string) => Boundary(s, g + |t|))
    case None => None
    case Some(k) => Some(ts[k])
  }

  /** The index of the first element of `xs` that passes `ok`: the alternatives of a regex
      group are tried in the order written. */
  function FirstPassing<T>(xs: seq<T>, ok: T -> bool): (r: Option<nat>)
    ensures r.Some? ==> r.value < |xs| && ok(xs[r.value]) && forall j :: 0 <= j < r.value ==> !ok(xs[j])
    ensures r.None? ==> forall j :: 0 <= j < |xs| ==> !ok(xs[j])
  {
    if xs == [] then None
    else if ok(xs[0]) then Some(0)
    else match FirstPassing(xs[1..], ok)
      case None => None
      case Some(k) => Some(k + 1)
  }

  // =========================================================================================
  // What follows the title: `\s+GRADE\s+CREDITS` (primary) or `\s+CREDITS\s+GRADE\b` (fallback)

  /** The grade and the credit numeral that end a course line. */
  datatype Tail = Tail(grade: string, credits: string)

  /** After a primary-pattern grade ending at `j`: `\s+` and at least one digit. */
  predicate PrimaryContinues(s: string, j: nat) {
    j + 1 < |s| && IsSpace(s[j]) && IsDigit(s[j + 1])
  }

  /** `\s+([A-F][+-]?|P|W|I|IP|S|U)\s+(\d+(?:\.\d+)?)` from the whitespace at `e`. The credit
      numeral is greedy and nothing follows it in the pattern, so it is the whole numeral there. */
  function PrimaryTailAt(s: string, e: nat): (t: Option<Tail>)
    ensures t.Some? ==> IsGradeToken(t.value.grade) && IsNumeral(t.value.credits)
  {
    if e >= |s| || !IsSpace(s[e]) then None
    else
      ContinuedTail(s, GradeTries(s, e + 1, false), e + 1)
  }

  /** The first grade try at `g` followed by `\s+\d`, with the numeral after that space. */
  function ContinuedTail(s: string, tries: seq<string>, g: nat): (t: Option<Tail>)
    requires forall x :: x in tries ==> IsGradeToken(x)
    ensures t.Some? ==> IsGradeToken(t.value.grade) && IsNumeral(t.value.credits)
  {
    match FirstContinued(s, tries, g)
    case None => None
    case Some(x) =>
      var j := g + |x| + 1;
      assert j < |s| && IsDigit(s[j]);
      Some(Tail(x, NumeralAt(s, j)))
  }

  /** `\s+(\d+(?:\.\d+)?)\s+([A-F][+-]?|P|W|I|IP|S|U)\b` (flag `i`) from the whitespace at `e`.
      The numeral must be followed by whitespace, so it is the whole numeral there; the grade
      must end on a word boundary, so a `+` or `-` is kept only when a word character follows it
      and is otherwise given back. */
  function FallbackTailAt(s: string, e: nat): (t: Option<Tail>)
    ensures t.Some? ==> IsGradeToken(Upper(t.value.grade)) && IsNumeral(t.value.credits)
  {
    if e >= |s| || !IsSpace(s[e]) then None
    else
      var c := NumeralAt(s, e + 1);
      var j := e + 1 + |c|;
      if c == [] || j >= |s| || !IsSpace(s[j]) then None
      else
        var tries := GradeTries(s, j + 1, true);
        match FirstAtBoundary(s, tries, j + 1)
        case None => None
        case Some(g) => Some(Tail(g, c))
  }

  function TailAt(s: string, e: nat, primary: bool): Option<Tail> {
    if primary then PrimaryTailAt(s, e) else FallbackTailAt(s, e)
  }

  /** The first position from `e` on, below `n`, at which `at` succeeds, with what it yields. */
  function FirstEnd<T>(n: nat, e: nat, at: nat -> Option<T>): (r: Option<(nat, T)>)
    ensures r.Some? ==> e <= r.value.0 < n && at(r.value.0) == Some(r.value.1)
    decreases n - e
  {
    if e >= n then None
    else
      var here := at(e);
      if here.Some? then Some((e, here.value))
      else FirstEnd(n, e + 1, at)
  }

  /** `at` fails at every position before the one `FirstEnd` finds, and everywhere when it finds
      none. */
  lemma {:induction false} FirstEndIsFirst<T>(n: nat, e: nat, at: nat -> Option<T>)
    ensures var r := FirstEnd(n, e, at);
            forall k :: e <= k < (if r.Some? then r.value.0 else n) ==> at(k).None?
    decreases n - e
  {
    if e < n && at(e).None? {
      FirstEndIsFirst(n, e + 1, at);
    }
  }

  /** The rest of the pattern after the title, tried at each end position. */
  function Tails(s: string, primary: bool): nat -> Option<Tail> {
    (e: nat) => TailAt(s, e, primary)
  }

  /** The lazy title `(.+?)`: the first end position from `e` on at which the rest of the
      pattern matches. */
  function FirstTitleEnd(s: string, e: nat, primary: bool): (r: Option<(nat, Tail)>)
    ensures r.Some? ==> e <= r.value.0 < |s| && TailAt(s, r.value.0, primary) == Some(r.value.1)
  {
    FirstEnd(|s|, e, Tails(s, primary))
  }

  /** The end `FirstTitleEnd` finds is the first one: the rest of the pattern fails at every
      earlier end, and at every end when none is found. */
  lemma FirstTitleEndIsFirst(s: string, e: nat, primary: bool)
    ensures var r := FirstTitleEnd(s, e, primary);
            forall k :: e <= k < (if r.Some? then r.value.0 else |s|) ==> TailAt(s, k, primary).None?
  {
    FirstEndIsFirst(|s|, e, Tails(s, primary));
    var at := Tails(s, primary);
    assert forall k :: at(k) == TailAt(s, k, primary);
  }

  // =========================================================================================
  // The course-line patterns

  /** The groups of a course-line match. */
  datatype CourseMatch = CourseMatch(subject: string, number: string, title: string, grade: string, credits: string)

  function MatchCourseLine(s: string, primary: bool): (m: Option<CourseMatch>)
    ensures m.Some? ==> && IsSubject(m.value.subject, !primary) && IsCourseNumber(m.value.number, !primary)
                        && m.value.title != [] && IsNumeral(m.value.credits)
                        && IsGradeToken(if primary then m.value.grade else Upper(m.value.grade))
  {
    match CodeHeadAt(s, 0, !primary)
    case None => None
    case Some(h) =>
      match FirstTitleEnd(s, h.next + 2, primary)
      case None => None
      case Some((e, t)) => Some(CourseMatch(h.subject, h.number, s[h.next + 1..e], t.grade, t.credits))
  }

  /** `^([A-Z]{2,4})\s*-?\s*(\d{3}[A-Z]?)\s+(.+?)\s+([A-F][+-]?|P|W|I|IP|S|U)\s+(\d+(?:\.\d+)?)`
      (case-sensitive). */
  function MatchPrimary(line: string): Option<CourseMatch>
  {
    MatchCourseLine(line, true)
  }

  /** `^([A-Z]{2,4})\s*-?\s*(\d{3}[A-Z]?)\s+(.+?)\s+(\d+(?:\.\d+)?)\s+([A-F][+-]?|P|W|I|IP|S|U)\b`
      with the `i` flag: subject, number and grade may be in lower case. */
  function MatchFallback(line: string): Option<CourseMatch>
  {
    MatchCourseLine(line, false)
  }

  /** The groups of a registered-course match. */
  datatype RegMatch = RegMatch(subject: string, number: string, credits: string)

  /** `([A-Z]{2,4})\s*-?\s*(\d{3}[A-Z]?)\s+\d{3,4}\s+(\d+(?:\.\d+)?)\s+REG\b` (flag `i`) at `i`.
      The section number must be a whole run of three or four digits followed by whitespace, and
      the credit numeral a whole numeral followed by whitespace. */
  function RegAt(s: string, i: nat): (m: Option<RegMatch>)
    ensures m.Some? ==> IsSubject(m.value.subject, true) && IsCourseNumber(m.value.number, true)
                        && IsNumeral(m.value.credits)
  {
    match CodeHeadAt(s, i, true)
    case None => None
    case Some(h) =>
      var sec := h.next + 1;
      var d := RunLength(s, sec, IsDigit);
      if d < 3 || d > 4 || sec + d >= |s| || !IsSpace(s[sec + d]) then None
      else
        var c := NumeralAt(s, sec + d + 1);
        var j := sec + d + 1 + |c|;
        if c == [] || j >= |s| || !IsSpace(s[j]) || !LiteralAt(s, j + 1, "REG", true) || !Boundary(s, j + 4)
        then None
        else Some(RegMatch(h.subject, h.number, c))
  }

  /** The anchored registered-course pattern (`^...`). */
  function MatchRegStrict(line: string): Option<RegMatch>
  {
    RegAt(line, 0)
  }

  /** The leftmost match of the unanchored registered-course pattern from `i` on: its start
      and its groups. */
  function FirstRegFrom(s: string, i: nat): (m: Option<(nat, RegMatch)>)
    ensures m.Some? ==> i <= m.value.0 <= |s| && RegAt(s, m.value.0) == Some(m.value.1)
    ensures m.Some? ==> forall k :: i <= k < m.value.0 ==> RegAt(s, k).None?
    ensures m.None? ==> forall k :: i <= k <= |s| ==> RegAt(s, k).None?
  {
    RegsFirst(s, i);
    FirstEnd(|s| + 1, i, Regs(s))
  }

  /** `RegAt` tried at each position. */
  function Regs(s: string): nat -> Option<RegMatch> {
    (k: nat) => RegAt(s, k)
  }

  lemma RegsFirst(s: string, i: nat)
    ensures var r := FirstEnd(|s| + 1, i, Regs(s));
            forall k :: i <= k < (if r.Some? then r.value.0 else |s| + 1) ==> RegAt(s, k).None?
  {
    var at := Regs(s);
    var r := FirstEnd(|s| + 1, i, at);
    FirstEndIsFirst(|s| + 1, i, at);
    forall k | i <= k < (if r.Some? then r.value.0 else |s| + 1) ensures RegAt(s, k).None? {
      assert at(k) == RegAt(s, k);
    }
  }

  /** The unanchored registered-course pattern: its subject may start inside a longer word. */
  function MatchRegInline(line: string): Option<RegMatch>
  {
    match FirstRegFrom(line, 0)
    case None => None
    case Some((_, m)) => Some(m)
  }

  // =========================================================================================
  // Term headers

  predicate IsRomanLetter(c: char) {
    var u := UpperChar(c);
    u == 'I' || u == 'V' || u == 'X'
  }

  predicate FourDigitsAt(s: string, k: nat) {
    k + 4 <= |s| && AllDigits(s[k..k + 4])
  }

  /** Length of the season word `Fall|Spring|Summer|Winter` (any case) at `i`, or 0. */
  function SeasonAt(s: string, i: nat): nat {
    if LiteralAt(s, i, "FALL", true) then 4
    else if LiteralAt(s, i, "SPRING", true) || LiteralAt(s, i, "SUMMER", true) || LiteralAt(s, i, "WINTER", true) then 6
    else 0
  }

  /** The end of `(Fall|Spring|Summer|Winter)(?:\s+[IVX]+)?\s+\d{4}` (flag `i`) matched at `i`.
      The session group is tried first; its letters can only be the whole run of them, which
      must be followed by whitespace; without it the year follows the season directly. */
  function TermEndAt(s: string, i: nat): (r: Option<nat>)
    ensures r.Some? ==> i < r.value <= |s|
  {
    var n := SeasonAt(s, i);
    var j := i + n;
    if n == 0 || j >= |s| || !IsSpace(s[j]) then None
    else
      var r := RunLength(s, j + 1, IsRomanLetter);
      if r > 0 && j + 1 + r < |s| && IsSpace(s[j + 1 + r]) && FourDigitsAt(s, j + 2 + r) then Some(j + 2 + r + 4)
      else if FourDigitsAt(s, j + 1) then Some(j + 5)
      else None
  }

  /** `^(Fall|Spring|Summer|Winter)(?:\s+[IVX]+)?\s+\d{4}$` (flag `i`): the term pattern spans
      the whole line. (When the session group fits, the year cannot start where the group
      starts, so no other way through the pattern reaches the end.) */
  predicate IsTermHeader(line: string) {
    TermEndAt(line, 0) == Some(|line|)
  }

  /** The leftmost term mention from `i` on: where it starts and where it ends. */
  function FirstTermFrom(s: string, i: nat): (r: Option<(nat, nat)>)
    ensures r.Some? ==> i <= r.value.0 < r.value.1 <= |s| && TermEndAt(s, r.value.0) == Some(r.value.1)
    ensures r.Some? ==> forall k :: i <= k < r.value.0 ==> TermEndAt(s, k).None?
    ensures r.None? ==> forall k :: i <= k <= |s| ==> TermEndAt(s, k).None?
  {
    TermEndsFirst(s, i);
    FirstEnd(|s| + 1, i, TermEnds(s))
  }

  /** `TermEndAt` tried at each position. */
  function TermEnds(s: string): nat -> Option<nat> {
    (k: nat) => TermEndAt(s, k)
  }

  lemma TermEndsFirst(s: string, i: nat)
    ensures var r := FirstEnd(|s| + 1, i, TermEnds(s));
            forall k :: i <= k < (if r.Some? then r.value.0 else |s| + 1) ==> TermEndAt(s, k).None?
  {
    var at := TermEnds(s);
    var r := FirstEnd(|s| + 1, i, at);
    FirstEndIsFirst(|s| + 1, i, at);
    forall k | i <= k < (if r.Some? then r.value.0 else |s| + 1) ensures TermEndAt(s, k).None? {
      assert at(k) == TermEndAt(s, k);
    }
  }

  /** `line.match(/(Fall|Spring|Summer|Winter)(?:\s+[IVX]+)?\s+\d{4}/i)?.[0]` */
  function InlineTerm(line: string): Option<string>
  {
    match FirstTermFrom(line, 0)
    case None => None
    case Some((k, e)) => Some(line[k..e])
  }

  /** `/^Current Course Information$/i` */
  predicate IsCurrentCoursesHeader(line: string) {
    Lower(line) == "current course information"
  }

  // =========================================================================================
  // Credits

  predicate InCreditRange(v: real) {
    0.5 <= v <= 6.0
  }

  /** The numerals `matchAll(/(\d+(?:\.\d+)?)/g)` finds from `i` on, left to right. */
  function NumeralsFrom(s: string, i: nat): (ts: seq<string>)
    ensures forall k :: 0 <= k < |ts| ==> IsNumeral(ts[k])
    decreases |s| - i
  {
    if i >= |s| then []
    else
      var t := NumeralAt(s, i);
      if t == [] then NumeralsFrom(s, i + 1) else [t] + NumeralsFrom(s, i + |t|)
  }

  /** The position of the last numeral of `ts` whose value lies in the credit range. */
  function LastInRange(ts: seq<string>): (r: Option<nat>)
    requires forall k :: 0 <= k < |ts| ==> IsNumeral(ts[k])
    ensures r.Some? ==> r.value < |ts| && InCreditRange(NumeralValue(ts[r.value]))
    ensures forall m :: (if r.Some? then r.value + 1 else 0) <= m < |ts| ==> !InCreditRange(NumeralValue(ts[m]))
  {
    if ts == [] then None
    else if InCreditRange(NumeralValue(ts[|ts| - 1])) then Some(|ts| - 1)
    else LastInRange(ts[..|ts| - 1])
  }

  /** `extractValidCredits`: the last number on the line within [0.5, 6], if any. */
  function ExtractValidCredits(line: string): (r: Option<real>)
    ensures r.Some? ==> InCreditRange(r.value)
  {
    var ts := NumeralsFrom(line, 0);
    match LastInRange(ts)
    case None => None
    case Some(k) => Some(NumeralValue(ts[k]))
  }

  /** `normalizeCredits`: a parsed value in [0.5, 6] is kept as it is; otherwise the last
      in-range number on the line is used, and there may be none. */
  function NormalizeCredits(line: string, parsed: real): (r: Option<real>)
    ensures r.Some? ==> InCreditRange(r.value)
    ensures InCreditRange(parsed) ==> r == Some(parsed)
    ensures !InCreditRange(parsed) ==> r == ExtractValidCredits(line)
  {
    if InCreditRange(parsed) then Some(parsed) else ExtractValidCredits(line)
  }

  // =========================================================================================
  // One line

  /** What one line does to the two registers, and the record it offers to `addClass`. */
  datatype LineOutcome = LineOutcome(term: Option<string>, inCurrent: bool, record: Option<CourseRecord>)

  /** The body of the per-line loop, without the de-duplication. */
  function ClassifyLine(line: string, term: Option<string>, inCurrent: bool): (o: LineOutcome)
    // the current-courses header only raises the flag
    ensures IsCurrentCoursesHeader(line) ==> o == LineOutcome(term, true, None)
    // a whole-line term header becomes the current term and ends the current-courses block
    ensures !IsCurrentCoursesHeader(line) && IsTermHeader(line) ==> o == LineOutcome(Some(line), false, None)
    // any other line keeps the flag and takes the term it mentions, if any
    ensures !IsCurrentCoursesHeader(line) && !IsTermHeader(line) ==>
              o.inCurrent == inCurrent && o.term == (if InlineTerm(line).Some? then InlineTerm(line) else term)
    // a record carries the term in force after its own line's mention, and sanitised credits
    ensures o.record.Some? ==> o.record.value.semester == o.term
    ensures o.record.Some? ==> o.record.value.credits.None? || InCreditRange(o.record.value.credits.value)
  {
    if IsCurrentCoursesHeader(line) then LineOutcome(term, true, None)
    else if IsTermHeader(line) then LineOutcome(Some(line), false, None)
    else
      var t := if InlineTerm(line).Some? then InlineTerm(line) else term;
      LineOutcome(t, inCurrent, CourseRecordOf(line, inCurrent, t))
  }

  /** The record a line that is not a header yields, trying the patterns in order. */
  function CourseRecordOf(line: string, inCurrent: bool, term: Option<string>): (r: Option<CourseRecord>)
    ensures r.Some? ==> r.value.semester == term
    ensures r.Some? ==> r.value.credits.None? || InCreditRange(r.value.credits.value)
  {
    match MatchPrimary(line)
    case Some(m) =>
      Some(CourseRecord(m.subject + m.number, Trim(m.title),
                        NormalizeCredits(line, NumeralValue(m.credits)), Some(m.grade), term))
    case None =>
      match MatchFallback(line)
      case Some(m) =>
        Some(CourseRecord(m.subject + m.number, Trim(m.title),
                          NormalizeCredits(line, NumeralValue(m.credits)), Some(m.grade), term))
      case None =>
        var strict := MatchRegStrict(line);
        if (inCurrent || strict.Some?) && Contains(line, "REG") then
          var use := if strict.Some? then strict else MatchRegInline(line);
          match use
          case Some(m) =>
            Some(CourseRecord(m.subject + m.number, "In Progress",
                              NormalizeCredits(line, NumeralValue(m.credits)), None, term))
          case None => None
        else None
  }

  // =========================================================================================
  // The whole text

  /** Keeps the non-empty strings (`filter(Boolean)`). */
  function NonEmpty(xs: seq<string>): (r: seq<string>)
    ensures |r| <= |xs|
    ensures forall k :: 0 <= k < |r| ==> r[k] != [] && r[k] in xs
  {
    if xs == [] then []
    else (if xs[0] == [] then [] else [xs[0]]) + NonEmpty(xs[1..])
  }

  function NormalizeAll(xs: seq<string>): (r: seq<string>)
    ensures |r| == |xs|
    ensures forall k :: 0 <= k < |r| ==> r[k] == NormalizeWhitespace(xs[k])
  {
    seq(|xs|, k requires 0 <= k < |xs| => NormalizeWhitespace(xs[k]))
  }

  /** `text.replace(/\r/g, "").split("\n").map(line => line.replace(/\s+/g, " ").trim()).filter(Boolean)` */
  function Lines(text: string): (lines: seq<string>)
    ensures forall k :: 0 <= k < |lines| ==> lines[k] != []
  {
    NonEmpty(NormalizeAll(Split(RemoveChar(text, '\r'), '\n')))
  }

  /** The lines the matchers see are normalised and non-empty. */
  lemma LinesNormalized(text: string)
    ensures forall k :: 0 <= k < |Lines(text)| ==> Normalized(Lines(text)[k]) && Lines(text)[k] != []
  {
    var parts := Split(RemoveChar(text, '\r'), '\n');
    var all := NormalizeAll(parts);
    forall k | 0 <= k < |all| ensures Normalized(all[k]) {
      NormalizeWhitespaceNormalized(parts[k]);
    }
  }

  lemma {:induction false} NonEmptyOfBlanks(xs: seq<string>)
    requires forall k :: 0 <= k < |xs| ==> xs[k] == []
    ensures NonEmpty(xs) == []
  {
    if xs != [] {
      NonEmptyOfBlanks(xs[1..]);
    }
  }

  /** Text made of whitespace only (the empty text included) has no lines. */
  lemma BlankTextHasNoLines(text: string)
    requires forall i :: 0 <= i < |text| ==> IsSpace(text[i])
    ensures Lines(text) == []
  {
    var parts := Split(RemoveChar(text, '\r'), '\n');
    forall k | 0 <= k < |parts| ensures NormalizeWhitespace(parts[k]) == [] {
      NormalizeBlank(parts[k]);
    }
    NonEmptyOfBlanks(NormalizeAll(parts));
  }

  /** The de-duplication key `code|semester|grade|credits|name`. The joined string is modelled
      as a tuple: only the name, which comes last, can contain `|`, and a number's text
      determines the number, so two keys are equal exactly when their joined strings are. */
  datatype Key = Key(code: string, semester: string, grade: string, credits: Option<real>, name: string)

  function KeyOf(r: CourseRecord): Key {
    Key(r.code, r.semester.GetOr(""), r.grade.GetOr(""), r.credits, r.name)
  }

  /** The registers, the set of seen keys and the records after a prefix of the lines. */
  datatype ParseState = ParseState(term: Option<string>, inCurrent: bool, seen: set<Key>, classes: seq<CourseRecord>)

  const Initial := ParseState(None, false, {}, [])

  /** One iteration of the loop given what the line yields: the registers are replaced and
      `addClass` keeps the record when its key is new. */
  function Step(st: ParseState, o: LineOutcome): ParseState {
    match o.record
    case Some(r) =>
      if KeyOf(r) in st.seen then st.(term := o.term, inCurrent := o.inCurrent)
      else ParseState(o.term, o.inCurrent, st.seen + {KeyOf(r)}, st.classes + [r])
    case None => st.(term := o.term, inCurrent := o.inCurrent)
  }

  /** A per-line classification: `ClassifyLine`, or any other for the lemmas about the fold. */
  type Classifier = (string, Option<string>, bool) -> LineOutcome

  /** The state after processing `lines` from the initial state. */
  function RunWith(classify: Classifier, lines: seq<string>): ParseState {
    if lines == [] then Initial
    else
      var before := RunWith(classify, lines[..|lines| - 1]);
      Step(before, classify(lines[|lines| - 1], before.term, before.inCurrent))
  }

  /** Every record a line offers, in line order, before de-duplication. */
  function OfferedWith(classify: Classifier, lines: seq<string>): seq<CourseRecord> {
    if lines == [] then []
    else
      var before := RunWith(classify, lines[..|lines| - 1]);
      var o := classify(lines[|lines| - 1], before.term, before.inCurrent);
      OfferedWith(classify, lines[..|lines| - 1]) + (if o.record.Some? then [o.record.value] else [])
  }

  function Run(lines: seq<string>): ParseState {
    RunWith(ClassifyLine, lines)
  }

  function Offered(lines: seq<string>): seq<CourseRecord> {
    OfferedWith(ClassifyLine, lines)
  }

  /** `parseClasses` as a function of the text. */
  function ParseClassesSpec(text: string): seq<CourseRecord> {
    Run(Lines(text)).classes
  }

  /** The seen set is exactly the keys of the records kept. */
  lemma {:induction false} RunSeenIsKeys(classify: Classifier, lines: seq<string>)
    ensures RunWith(classify, lines).seen == KeySet(RunWith(classify, lines).classes, KeyOf)
  {
    if lines == [] {
      assert KeySet([], KeyOf) == {};
    } else {
      var init := lines[..|lines| - 1];
      RunSeenIsKeys(classify, init);
      var before := RunWith(classify, init);
      var o := classify(lines[|lines| - 1], before.term, before.inCurrent);
      if o.record.Some? && KeyOf(o.record.value) !in before.seen {
        KeySetSnoc(before.classes, o.record.value, KeyOf);
      }
    }
  }

  /** The records are the offered ones with later duplicates of a key dropped, in first-seen
      order. */
  lemma {:induction false} RunIsDedupOfOffered(classify: Classifier, lines: seq<string>)
    ensures RunWith(classify, lines).classes == DedupBy(OfferedWith(classify, lines), KeyOf, {})
  {
    if lines != [] {
      var init := lines[..|lines| - 1];
      RunIsDedupOfOffered(classify, init);
      RunSeenIsKeys(classify, init);
      var before := RunWith(classify, init);
      var o := classify(lines[|lines| - 1], before.term, before.inCurrent);
      var offered := OfferedWith(classify, init);
      DedupKeySet(offered, KeyOf, {});
      assert KeySet(offered, KeyOf) == before.seen;
      if o.record.Some? {
        DedupSnoc(offered, o.record.value, KeyOf, {});
        assert {} + KeySet(offered, KeyOf) == before.seen;
      } else {
        assert OfferedWith(classify, lines) == offered;
      }
    }
  }

  /** At most one record per line. */
  lemma {:induction false} OfferedAtMostOnePerLine(classify: Classifier, lines: seq<string>)
    ensures |OfferedWith(classify, lines)| <= |lines|
  {
    if lines != [] {
      OfferedAtMostOnePerLine(classify, lines[..|lines| - 1]);
    }
  }

  /** The credits of a record are absent or in [0.5, 6]. */
  predicate CreditsSane(r: CourseRecord) {
    r.credits.None? || InCreditRange(r.credits.value)
  }

  /** When every line's record has sane credits, so has every offered record. */
  lemma {:induction false} OfferedCreditsSane(classify: Classifier, lines: seq<string>)
    requires forall l, t, f :: classify(l, t, f).record.Some? ==> CreditsSane(classify(l, t, f).record.value)
    ensures forall k :: 0 <= k < |OfferedWith(classify, lines)| ==> CreditsSane(OfferedWith(classify, lines)[k])
  {
    if lines != [] {
      OfferedCreditsSane(classify, lines[..|lines| - 1]);
    }
  }

  /** The properties of the result as a whole: at most one record per line, credits in range,
      no repeated key, and the offered records in first-seen order. */
  lemma ParseClassesProperties(text: string)
    ensures |ParseClassesSpec(text)| <= |Lines(text)|
    ensures forall k :: 0 <= k < |ParseClassesSpec(text)| ==> CreditsSane(ParseClassesSpec(text)[k])
    ensures forall i, j :: 0 <= i < j < |ParseClassesSpec(text)| ==>
              KeyOf(ParseClassesSpec(text)[i]) != KeyOf(ParseClassesSpec(text)[j])
    ensures ParseClassesSpec(text) == DedupBy(Offered(Lines(text)), KeyOf, {})
  {
    var lines := Lines(text);
    RunIsDedupOfOffered(ClassifyLine, lines);
    OfferedAtMostOnePerLine(ClassifyLine, lines);
    OfferedCreditsSane(ClassifyLine, lines);
    var offered := Offered(lines);
    assert forall k :: 0 <= k < |ParseClassesSpec(text)| ==> ParseClassesSpec(text)[k] in offered;
  }

  lemma RunSnoc(lines: seq<string>, i: nat)
    requires i < |lines|
    ensures Run(lines[..i + 1]) == Step(Run(lines[..i]), ClassifyLine(lines[i], Run(lines[..i]).term, Run(lines[..i]).inCurrent))
  {
    assert lines[..i + 1][..i] == lines[..i];
  }

  /** `addClass`: records the course unless its key has been seen. */
  method AddClass(course: CourseRecord, seen: set<Key>, classes: seq<CourseRecord>)
    returns (seen': set<Key>, classes': seq<CourseRecord>)
    ensures KeyOf(course) in seen ==> seen' == seen && classes' == classes
    ensures KeyOf(course) !in seen ==> seen' == seen + {KeyOf(course)} && classes' == classes + [course]
  {
    var key := KeyOf(course);
    if key in seen {
      return seen, classes;
    }
    seen' := seen + {key};
    classes' := classes + [course];
  }

  /** The loop of `parseClasses` over the prepared lines: the two registers, the seen set and
      the result are updated line by line. */
  method ParseLines(lines: seq<string>) returns (classes: seq<CourseRecord>)
    ensures classes == Run(lines).classes
  {
    var currentTerm: Option<string> := None;
    var inCurrentCourses := false;
    var seen: set<Key> := {};
    classes := [];
    var i := 0;
    while i < |lines|
      invariant 0 <= i <= |lines|
      invariant ParseState(currentTerm, inCurrentCourses, seen, classes) == Run(lines[..i])
    {
      RunSnoc(lines, i);
      var o := ClassifyLine(lines[i], currentTerm, inCurrentCourses);
      currentTerm, inCurrentCourses := o.term, o.inCurrent;
      if o.record.Some? {
        seen, classes := AddClass(o.record.value, seen, classes);
      }
      i := i + 1;
    }
    assert lines[..|lines|] == lines;
  }

  /** `parseClasses`: at most one record per line, credits absent or in [0.5, 6], no key twice. */
  method ParseClasses(text: string) returns (classes: seq<CourseRecord>)
    ensures classes == ParseClassesSpec(text)
    ensures |classes| <= |Lines(text)|
    ensures forall k :: 0 <= k < |classes| ==> CreditsSane(classes[k])
    ensures forall i, j :: 0 <= i < j < |classes| ==> KeyOf(classes[i]) != KeyOf(classes[j])
  {
    var lines := Lines(text);
    classes := ParseLines(lines);
    ParseClassesProperties(text);
  }

  // =========================================================================================
  // Properties of single lines

  /** The primary pattern is tried first: a line it matches yields its record, with a code of 2-4
      upper-case letters directly followed by three digits and an optional upper-case letter. */
  lemma PrimaryWins(line: string, inCurrent: bool, term: Option<string>)
    requires MatchPrimary(line).Some?
    ensures var m := MatchPrimary(line).value;
            var r := CourseRecordOf(line, inCurrent, term);
            && r.Some? && r.value.code == m.subject + m.number && r.value.grade == Some(m.grade)
            && IsSubject(m.subject, false) && IsCourseNumber(m.number, false)
            && IsGradeToken(m.grade)
  {
  }

  /** The fallback pattern is tried only when the primary fails, and a line either matches is
      never considered for the registered-course path: its record has a grade. */
  lemma FallbackSecond(line: string, inCurrent: bool, term: Option<string>)
    requires MatchPrimary(line).None? && MatchFallback(line).Some?
    ensures var m := MatchFallback(line).value;
            var r := CourseRecordOf(line, inCurrent, term);
            && r.Some? && r.value.code == m.subject + m.number && r.value.grade == Some(m.grade)
            && IsGradeToken(Upper(m.grade))
  {
  }

  /** A record without a grade comes from the registered-course path only: neither course
      pattern matched, the flag was set or the strict pattern matched, the line contains an
      upper-case `REG`, and the record is named "In Progress". */
  lemma InProgressRecords(line: string, inCurrent: bool, term: Option<string>)
    requires CourseRecordOf(line, inCurrent, term).Some? && CourseRecordOf(line, inCurrent, term).value.grade.None?
    ensures MatchPrimary(line).None? && MatchFallback(line).None?
    ensures (inCurrent || MatchRegStrict(line).Some?) && Contains(line, "REG")
    ensures CourseRecordOf(line, inCurrent, term).value.name == "In Progress"
    // the strict REG match is used when there is one, the inline one otherwise
    ensures MatchRegStrict(line).Some? || MatchRegInline(line).Some?
    ensures var m := if MatchRegStrict(line).Some? then MatchRegStrict(line).value else MatchRegInline(line).value;
            var r := CourseRecordOf(line, inCurrent, term).value;
            r.code == m.subject + m.number && r.credits == NormalizeCredits(line, NumeralValue(m.credits))
  {
  }

  /** Empty or whitespace-only text yields no records. */
  lemma BlankTextHasNoRecords(text: string)
    requires forall i :: 0 <= i < |text| ==> IsSpace(text[i])
    ensures ParseClassesSpec(text) == []
  {
    BlankTextHasNoLines(text);
  }

  /** In the fallback pattern a signed grade at the very end of the line loses its sign: after
      the `+` or `-` there is no word boundary, so the regex gives the sign back and the grade is
      the letter alone. */
  lemma FallbackSignAtEndIsDropped(s: string, g: nat)
    requires g + 2 == |s| && 'A' <= UpperChar(s[g]) <= 'F' && (s[g + 1] == '+' || s[g + 1] == '-')
    requires g > 0 && !IsWordChar(s[g - 1])
    ensures FirstAtBoundary(s, GradeTries(s, g, true), g) == Some(s[g..g + 1])
  {
    var letters := LetterGradeTries(s, g, true);
    assert letters == [s[g..g + 2], s[g..g + 1]];
    SignedThenBare(s, g, LiteralTries(s, g, true));
  }

  /** The signed try fails on the boundary at the end of the line and the bare letter holds. */
  lemma SignedThenBare(s: string, g: nat, rest: seq<string>)
    requires g + 2 == |s| && IsLetter(s[g]) && (s[g + 1] == '+' || s[g + 1] == '-')
    ensures FirstAtBoundary(s, [s[g..g + 2], s[g..g + 1]] + rest, g) == Some(s[g..g + 1])
  {
    var ts := [s[g..g + 2], s[g..g + 1]] + rest;
    assert ts[1..][0] == s[g..g + 1];
    assert !Boundary(s, g + 2) && Boundary(s, g + 1);
  }

  /** Normalising credits twice on the same line gives what normalising once gave: whatever
      value comes out is in range, so the second pass keeps it. */
  lemma NormalizeCreditsIdempotent(line: string, v: real)
    ensures NormalizeCredits(line, v).Some? ==>
              NormalizeCredits(line, NormalizeCredits(line, v).value) == NormalizeCredits(line, v)
  {
  }
}
