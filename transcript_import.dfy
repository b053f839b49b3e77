/** The transcript import of the high-school and masters planner pages: scanned or parsed
    courses are de-duplicated against the plan and against each other, then appended to
    semesters chosen by the term each course names, through a moving cursor over the semesters
    and a map from term text to the semester already chosen for it. */
module TranscriptImport {
  import opened Wrappers
  import opened Text
  import opened Collections
  import opened Planner
  import TranscriptText

  /** A class as the transcript scanner returns it. */
  datatype ScannedClass = ScannedClass(code: string, name: string, credits: Option<real>, semester: Option<string>)

  /** A course of the transcript with the term text it names, if any. */
  datatype Candidate = Candidate(course: Course, semester: Option<string>)

  /** The scanner's class as a plan course: a fresh id, credits 3 when the class has none, and
      the student as its owner. */
  function FromScanned(c: ScannedClass, id: string): (r: Candidate)
    ensures r.course.id == id && r.course.name == c.name && r.course.code == c.code
    ensures r.course.credits == (if c.credits.Some? then c.credits.value else 3.0)
    ensures r.course.kind == User && r.semester == c.semester
  {
    Candidate(Course(id, c.name, c.code, c.credits.GetOr(3.0), User), c.semester)
  }

  /** A course of the free-text parser as a plan course; it names no term. */
  function FromText(c: TranscriptText.TranscriptCourse, id: string): (r: Candidate)
    ensures r.course.id == id && r.course.name == c.name && r.course.code == c.code.GetOr("")
    ensures r.course.credits == (if c.credits.Some? then c.credits.value else 3.0)
    ensures r.course.kind == User && r.semester.None?
  {
    Candidate(Course(id, c.name, c.code.GetOr(""), c.credits.GetOr(3.0), User), None)
  }

  /** `${(course.code || "").toLowerCase()}|${course.name.toLowerCase()}` */
  function ImportKey(c: Course): string {
    Lower(c.code) + "|" + Lower(c.name)
  }

  function KeyOf(x: Candidate): string {
    ImportKey(x.course)
  }

  /** The keys of every course already in the plan. */
  function PlanKeys(plan: Plan): set<string> {
    KeySet(AllCourses(plan), ImportKey)
  }

  // ---------------------------------------------------------------------------------------
  // The term pattern `(Fall|Spring|Summer|Winter)\s+\d{4}`, ignoring case

  const TermWords: seq<string> := ["fall", "spring", "summer", "winter"]

  /** A match: its whole text and its first group. */
  datatype TermMention = TermMention(text: string, word: string)

  function SpaceRun(s: string, i: nat): (n: nat)
    requires i <= |s|
    ensures i + n <= |s|
    ensures forall k :: i <= k < i + n ==> IsSpace(s[k])
    ensures i + n == |s| || !IsSpace(s[i + n])
    decreases |s| - i
  {
    if i < |s| && IsSpace(s[i]) then 1 + SpaceRun(s, i + 1) else 0
  }

  /** `word\s+\d{4}` matches `s[i..e]`, the word in any case. */
  predicate TermMatch(s: string, i: nat, word: string, e: nat) {
    && i + |word| + 5 <= e <= |s|
    && Lower(s[i..i + |word|]) == word
    && (forall k :: i + |word| <= k < e - 4 ==> IsSpace(s[k]))
    && AllDigits(s[e - 4..e])
  }

  /** The end of a match of `word\s+\d{4}` at `i`, the word in any case. The greedy `\s+` can
      only give back whitespace, which `\d` never accepts, so the longest run is the only
      candidate (`WordMatchEndIsTheMatch`). */
  function WordMatchEnd(s: string, i: nat, word: string): (r: Option<nat>)
    requires i <= |s|
    ensures r.Some? ==> TermMatch(s, i, word, r.value)
  {
    if i + |word| <= |s| && Lower(s[i..i + |word|]) == word then
      var j := i + |word|;
      var k := SpaceRun(s, j);
      if k >= 1 && j + k + 4 <= |s| && AllDigits(s[j + k..j + k + 4]) then Some(j + k + 4) else None
    else None
  }

  /** `WordMatchEnd` finds a match exactly when there is one, and its end is the only end a
      match at `i` can have. */
  lemma WordMatchEndIsTheMatch(s: string, i: nat, word: string, e: nat)
    requires i <= |s|
    ensures TermMatch(s, i, word, e) <==> WordMatchEnd(s, i, word) == Some(e)
  {
    if TermMatch(s, i, word, e) {
      var j := i + |word|;
      var n := SpaceRun(s, j);
      assert IsDigit(s[e - 4..e][0]);
      assert s[j + n..j + n + 4] == s[e - 4..e];
    }
  }

  /** The first alternative, in pattern order from the `w`-th, that matches at `i`: its index
      and the end of the match. */
  function AlternativeAt(s: string, i: nat, w: nat): (r: Option<(nat, nat)>)
    requires i <= |s| && w <= |TermWords|
    ensures r.Some? ==> w <= r.value.0 < |TermWords| && WordMatchEnd(s, i, TermWords[r.value.0]) == Some(r.value.1)
    // no earlier alternative matches here
    ensures r.Some? ==> forall v :: w <= v < r.value.0 ==> WordMatchEnd(s, i, TermWords[v]).None?
    ensures r.None? ==> forall v :: w <= v < |TermWords| ==> WordMatchEnd(s, i, TermWords[v]).None?
    decreases |TermWords| - w
  {
    if w == |TermWords| then None
    else match WordMatchEnd(s, i, TermWords[w])
      case Some(e) => Some((w, e))
      case None => AlternativeAt(s, i, w + 1)
  }

  /** `s.match(/(Fall|Spring|Summer|Winter)\s+\d{4}/i)` from position `i`: the leftmost match. */
  function FindTerm(s: string, i: nat): (r: Option<TermMention>)
    requires i <= |s|
    ensures r.Some? ==> Lower(r.value.word) in TermWords && StartsWith(r.value.text, r.value.word)
    decreases |s| - i
  {
    if i == |s| then None
    else match AlternativeAt(s, i, 0)
      case Some((w, e)) =>
        assert TermMatch(s, i, TermWords[w], e);
        Some(TermMention(s[i..e], s[i..i + |TermWords[w]|]))
      case None => FindTerm(s, i + 1)
  }

  /** The term a candidate names: the match in its semester text, none without one. */
  function TermOf(x: Candidate): Option<TermMention> {
    if x.semester.Some? then FindTerm(x.semester.value, 0) else None
  }

  /** `normalizeTerm`: fall stays fall; spring, summer and winter all count as spring. */
  function NormalizeTerm(term: string): string {
    var lower := Lower(term);
    if StartsWith(lower, "fall") then "fall"
    else if StartsWith(lower, "spring") then "spring"
    else if StartsWith(lower, "summer") then "spring"
    else if StartsWith(lower, "winter") then "spring"
    else ""
  }

  /** A matched term word always normalises to fall or spring, so the fallback to "fall" for
      an unrecognised word is never taken. */
  lemma MatchedTermNormalizes(x: Candidate)
    requires TermOf(x).Some?
    ensures var w := Lower(TermOf(x).value.word);
            NormalizeTerm(TermOf(x).value.word) == (if w == "fall" then "fall" else "spring")
  {
    var w := Lower(TermOf(x).value.word);
    assert w == "fall" || w == "spring" || w == "summer" || w == "winter";
    assert w[..|w|] == w;
  }

  // ---------------------------------------------------------------------------------------
  // Slot reservation

  /** The first index at or after `from` whose term is `term`. */
  function FirstTermFrom(terms: seq<string>, term: string, from: nat): (r: Option<nat>)
    ensures r.Some? ==> from <= r.value < |terms| && terms[r.value] == term
    ensures forall i :: from <= i < (if r.Some? then r.value else |terms|) ==> terms[i] != term
    decreases |terms| - from
  {
    if from >= |terms| then None
    else if terms[from] == term then Some(from)
    else FirstTermFrom(terms, term, from + 1)
  }

  /** `reserveSlotForTerm`: the chosen semester index and the cursor after it. The first
      semester at or after the cursor with the term is taken; failing that, the semester at
      the cursor; failing that, the last semester, and -1 only when there are none. */
  function Reserve(terms: seq<string>, cursor: nat, term: string): (r: (int, nat))
    requires cursor <= |terms|
    ensures -1 <= r.0 < |terms| && cursor <= r.1 <= |terms|
    ensures r.0 == -1 <==> |terms| == 0
    ensures (exists i :: cursor <= i < |terms| && terms[i] == term) ==>
              && cursor <= r.0 && terms[r.0] == term && r.1 == r.0 + 1
              && (forall i :: cursor <= i < r.0 ==> terms[i] != term)
    ensures (forall i :: cursor <= i < |terms| ==> terms[i] != term) ==>
              r == (if cursor < |terms| then (cursor, cursor + 1) else (|terms| - 1, cursor))
  {
    match FirstTermFrom(terms, term, cursor)
      case Some(i) => (i, i + 1)
      case None => if cursor < |terms| then (cursor, cursor + 1) else (|terms| - 1, cursor)
  }

  /** `reserveSlotForTerm` as the loop it is. */
  method ReserveSlotForTerm(terms: seq<string>, cursor: nat, term: string) returns (index: int, next: nat)
    requires cursor <= |terms|
    ensures (index, next) == Reserve(terms, cursor, term)
  {
    var i := cursor;
    while i < |terms|
      invariant cursor <= i <= |terms|
      invariant FirstTermFrom(terms, term, cursor) == FirstTermFrom(terms, term, i)
    {
      if terms[i] == term {
        return i, i + 1;
      }
      i := i + 1;
    }
    if cursor < |terms| {
      return cursor, cursor + 1;
    }
    return |terms| - 1, cursor;
  }

  // ---------------------------------------------------------------------------------------
  // Routing the new courses

  /** Every value in the term map is a semester index, or -1 when there are no semesters. */
  predicate ValidSlots(terms: seq<string>, slots: map<string, int>) {
    forall t :: t in slots ==> -1 <= slots[t] < |terms| && (slots[t] == -1 <==> |terms| == 0)
  }

  /** The loop's registers: the cursor, the term map and the additions per semester index. */
  datatype ImportState = ImportState(cursor: nat, slots: map<string, int>, additions: map<int, seq<Course>>)

  /** Where one course goes, and the cursor and term map after it. */
  datatype Routing = Routing(target: int, cursor: nat, slots: map<string, int>)

  /** The term a slot is reserved for: the normalised term word, `"fall"` when it has none. */
  function SlotTerm(word: string): string {
    var normalized := NormalizeTerm(word);
    if normalized != "" then normalized else "fall"
  }

  /** The semester a candidate goes to: index 0 without a term; otherwise the semester already
      chosen for the same term text, or a newly reserved one, remembered for that text. */
  function Route(terms: seq<string>, st: ImportState, x: Candidate): (r: Routing)
    requires st.cursor <= |terms| && ValidSlots(terms, st.slots)
    ensures r.cursor <= |terms| && ValidSlots(terms, r.slots)
    ensures forall t :: t in st.slots ==> t in r.slots && r.slots[t] == st.slots[t]
    ensures TermOf(x).None? ==> r == Routing(0, st.cursor, st.slots)
    ensures TermOf(x).Some? ==> TermOf(x).value.text in r.slots && r.target == r.slots[TermOf(x).value.text]
    // a term text seen before goes where it went the first time, and nothing moves
    ensures TermOf(x).Some? && TermOf(x).value.text in st.slots ==>
              r == Routing(st.slots[TermOf(x).value.text], st.cursor, st.slots)
    // a new term text reserves a semester for its normalised term and remembers it
    ensures TermOf(x).Some? && TermOf(x).value.text !in st.slots ==>
              && (r.target, r.cursor) == Reserve(terms, st.cursor, SlotTerm(TermOf(x).value.word))
              && r.slots == st.slots[TermOf(x).value.text := r.target]
  {
    match TermOf(x)
      case None => Routing(0, st.cursor, st.slots)
      case Some(m) =>
        if m.text in st.slots then Routing(st.slots[m.text], st.cursor, st.slots)
        else
          var (index, next) := Reserve(terms, st.cursor, SlotTerm(m.word));
          Routing(index, next, st.slots[m.text := index])
  }

  /** `additionsByIndex.get(index) || []` */
  function Added(additions: map<int, seq<Course>>, k: int): seq<Course> {
    if k in additions then additions[k] else []
  }

  /** One iteration of the loop over the new courses; a course routed to -1 is skipped. */
  function Step(terms: seq<string>, st: ImportState, x: Candidate): (r: ImportState)
    requires st.cursor <= |terms| && ValidSlots(terms, st.slots)
    ensures r.cursor <= |terms| && ValidSlots(terms, r.slots)
    ensures forall k :: Added(st.additions, k) <= Added(r.additions, k)
  {
    var route := Route(terms, st, x);
    var additions :=
      if route.target < 0 then st.additions
      else st.additions[route.target := Added(st.additions, route.target) + [x.course]];
    ImportState(route.cursor, route.slots, additions)
  }

  /** The registers after the loop has handled `xs`. */
  function Fold(terms: seq<string>, xs: seq<Candidate>): (st: ImportState)
    ensures st.cursor <= |terms| && ValidSlots(terms, st.slots)
    decreases |xs|
  {
    if xs == [] then ImportState(0, map[], map[])
    else Step(terms, Fold(terms, xs[..|xs| - 1]), xs[|xs| - 1])
  }

  /** The semester the `j`-th course is routed to. */
  function TargetAt(terms: seq<string>, xs: seq<Candidate>, j: nat): int
    requires j < |xs|
  {
    Route(terms, Fold(terms, xs[..j]), xs[j]).target
  }

  lemma FoldSnoc(terms: seq<string>, xs: seq<Candidate>, j: nat)
    requires j < |xs|
    ensures Fold(terms, xs[..j + 1]) == Step(terms, Fold(terms, xs[..j]), xs[j])
  {
    assert xs[..j + 1][..j] == xs[..j];
  }

  /** Once a term text has a semester, it keeps it for the rest of the import. */
  lemma {:induction false} SlotsPersist(terms: seq<string>, xs: seq<Candidate>, i: nat)
    requires i <= |xs|
    ensures forall t :: t in Fold(terms, xs[..i]).slots ==>
              t in Fold(terms, xs).slots && Fold(terms, xs).slots[t] == Fold(terms, xs[..i]).slots[t]
    decreases |xs| - i
  {
    if i == |xs| {
      assert xs[..i] == xs;
    } else {
      SlotsPersist(terms, xs, i + 1);
      FoldSnoc(terms, xs, i);
    }
  }

  /** All courses that name the same term text go to the same semester, and a course that
      names no term goes to the first one. */
  lemma SameTermSameSlot(terms: seq<string>, xs: seq<Candidate>, i: nat, j: nat)
    requires i < j < |xs|
    requires TermOf(xs[i]).Some? && TermOf(xs[j]).Some?
    requires TermOf(xs[i]).value.text == TermOf(xs[j]).value.text
    ensures TargetAt(terms, xs, i) == TargetAt(terms, xs, j)
  {
    var t := TermOf(xs[i]).value.text;
    var after := Fold(terms, xs[..i + 1]);
    assert t in after.slots && after.slots[t] == TargetAt(terms, xs, i) by {
      FoldSnoc(terms, xs, i);
    }
    var sj := Fold(terms, xs[..j]);
    assert t in sj.slots && sj.slots[t] == after.slots[t] by {
      SlotsPersist(terms, xs[..j], i + 1);
      assert xs[..j][..i + 1] == xs[..i + 1];
    }
  }

  /** Additions only grow: what a semester has been given stays, in order, at the front of
      what it is given in the end. */
  lemma {:induction false} AdditionsPersist(terms: seq<string>, xs: seq<Candidate>, i: nat)
    requires i <= |xs|
    ensures forall k :: Added(Fold(terms, xs[..i]).additions, k) <= Added(Fold(terms, xs).additions, k)
    decreases |xs| - i
  {
    if i == |xs| {
      assert xs[..i] == xs;
    } else {
      AdditionsPersist(terms, xs, i + 1);
      FoldSnoc(terms, xs, i);
    }
  }

  /** A course routed to a semester index is among that index's additions. */
  lemma LandsInTarget(terms: seq<string>, xs: seq<Candidate>, j: nat)
    requires j < |xs| && TargetAt(terms, xs, j) >= 0
    ensures xs[j].course in Added(Fold(terms, xs).additions, TargetAt(terms, xs, j))
  {
    FoldSnoc(terms, xs, j);
    AdditionsPersist(terms, xs, j + 1);
    var k := TargetAt(terms, xs, j);
    var before := Fold(terms, xs[..j + 1]);
    assert Added(before.additions, k)[|Added(before.additions, k)| - 1] == xs[j].course;
  }

  /** The courses handled by the loop. */
  function CoursesOf(xs: seq<Candidate>): seq<Course> {
    seq(|xs|, i requires 0 <= i < |xs| => xs[i].course)
  }

  /** One step appends the handled course to one index's additions, or to none. */
  lemma StepAdded(terms: seq<string>, st: ImportState, x: Candidate, k: int)
    requires st.cursor <= |terms| && ValidSlots(terms, st.slots)
    ensures var now := Added(Step(terms, st, x).additions, k);
            now == Added(st.additions, k) || now == Added(st.additions, k) + [x.course]
    ensures k in Step(terms, st, x).additions ==> k in st.additions || k >= 0
  {
  }

  /** Every course among the additions is one of the handled courses, and additions go only
      to non-negative indices. */
  lemma {:induction false} AdditionsFromCandidates(terms: seq<string>, xs: seq<Candidate>)
    ensures forall k :: k in Fold(terms, xs).additions ==> k >= 0
    ensures forall k, c :: c in Added(Fold(terms, xs).additions, k) ==> c in CoursesOf(xs)
    decreases |xs|
  {
    if xs != [] {
      var init, x := xs[..|xs| - 1], xs[|xs| - 1];
      AdditionsFromCandidates(terms, init);
      var st := Fold(terms, init);
      assert forall c :: c in CoursesOf(init) ==> c in CoursesOf(xs) by {
        assert forall i :: 0 <= i < |init| ==> CoursesOf(init)[i] == CoursesOf(xs)[i];
      }
      assert x.course == CoursesOf(xs)[|xs| - 1];
      forall k ensures k in Fold(terms, xs).additions ==> k >= 0 {
        StepAdded(terms, st, x, k);
      }
      forall k, c | c in Added(Fold(terms, xs).additions, k) ensures c in CoursesOf(xs) {
        StepAdded(terms, st, x, k);
      }
    }
  }

  // ---------------------------------------------------------------------------------------
  // The merge

  /** The lower-cased subtitle of each semester. */
  function Terms(plan: Plan): (terms: seq<string>)
    ensures |terms| == |plan|
  {
    seq(|plan|, k requires 0 <= k < |plan| => Lower(plan[k].subtitle))
  }

  /** Each semester followed by the courses added to its index. */
  function Appended(plan: Plan, additions: map<int, seq<Course>>): (r: Plan)
    ensures SameShape(plan, r)
    ensures forall k :: 0 <= k < |plan| ==> r[k].courses == plan[k].courses + Added(additions, k)
  {
    seq(|plan|, k requires 0 <= k < |plan| =>
      var more := Added(additions, k);
      if more == [] then plan[k] else plan[k].(courses := plan[k].courses + more))
  }

  /** The new courses: those whose key is neither in the plan nor on an earlier course. */
  function NewCandidates(plan: Plan, incoming: seq<Candidate>): seq<Candidate> {
    DedupBy(incoming, KeyOf, PlanKeys(plan))
  }

  /** The import updater as a function of the plan and the candidates. */
  function Merge(plan: Plan, incoming: seq<Candidate>): Plan {
    var unique := NewCandidates(plan, incoming);
    if unique == [] then plan else Appended(plan, Fold(Terms(plan), unique).additions)
  }

  /** The import updater: de-duplicate with a set of keys seeded from the plan, then route
      each new course with the cursor and the term map, then append per semester. */
  method MergeTranscript(plan: Plan, incoming: seq<Candidate>) returns (next: Plan)
    ensures next == Merge(plan, incoming)
  {
    var unique := Dedup(incoming, KeyOf, PlanKeys(plan));
    if |unique| == 0 {
      return plan;
    }
    var terms := Terms(plan);
    var cursor: nat := 0;
    var slots: map<string, int> := map[];
    var additions: map<int, seq<Course>> := map[];
    for i := 0 to |unique|
      invariant cursor <= |terms| && ValidSlots(terms, slots)
      invariant ImportState(cursor, slots, additions) == Fold(terms, unique[..i])
    {
      var x := unique[i];
      FoldSnoc(terms, unique, i);
      var target := 0;
      var mention := TermOf(x);
      if mention.Some? {
        var key := mention.value.text;
        if key !in slots {
          var normalized := NormalizeTerm(mention.value.word);
          var reserved;
          reserved, cursor := ReserveSlotForTerm(terms, cursor, if normalized != "" then normalized else "fall");
          slots := slots[key := reserved];
        }
        target := slots[key];
      }
      if target >= 0 {
        additions := additions[target := Added(additions, target) + [x.course]];
      }
    }
    assert unique[..|unique|] == unique;
    next := Appended(plan, additions);
  }

  /** The import only appends: the semesters, their ids and headings and their courses stay
      as they were, in order, and whatever follows them is one of the new courses. */
  lemma MergeAppendsOnly(plan: Plan, incoming: seq<Candidate>)
    ensures var r := Merge(plan, incoming);
            && SameShape(plan, r)
            && (forall k :: 0 <= k < |plan| ==> plan[k].courses <= r[k].courses)
            && (forall k, c :: 0 <= k < |plan| && c in r[k].courses[|plan[k].courses|..] ==>
                  c in CoursesOf(NewCandidates(plan, incoming)))
  {
    var unique := NewCandidates(plan, incoming);
    if unique != [] {
      AdditionsFromCandidates(Terms(plan), unique);
      var r := Merge(plan, incoming);
      forall k | 0 <= k < |plan|
        ensures r[k].courses[|plan[k].courses|..] == Added(Fold(Terms(plan), unique).additions, k)
      {
      }
    }
  }

  /** A new course is never one whose key the plan already has, and no two new courses share
      a key. */
  lemma NewCandidatesAreNew(plan: Plan, incoming: seq<Candidate>)
    ensures var u := NewCandidates(plan, incoming);
            && (forall i :: 0 <= i < |u| ==> u[i] in incoming && KeyOf(u[i]) !in PlanKeys(plan))
            && (forall i, j :: 0 <= i < j < |u| ==> KeyOf(u[i]) != KeyOf(u[j]))
  {
  }

  /** When every incoming course's key is already in the plan, nothing changes. */
  lemma NothingNewNothingChanges(plan: Plan, incoming: seq<Candidate>)
    requires forall i :: 0 <= i < |incoming| ==> KeyOf(incoming[i]) in PlanKeys(plan)
    ensures Merge(plan, incoming) == plan
  {
    var unique := NewCandidates(plan, incoming);
    DedupKeySet(incoming, KeyOf, PlanKeys(plan));
  }

  /** Every new course routed to an existing semester is appended to it. */
  lemma MergeLandsInTarget(plan: Plan, incoming: seq<Candidate>, j: nat)
    requires j < |NewCandidates(plan, incoming)|
    requires 0 <= TargetAt(Terms(plan), NewCandidates(plan, incoming), j) < |plan|
    ensures var k := TargetAt(Terms(plan), NewCandidates(plan, incoming), j);
            NewCandidates(plan, incoming)[j].course in Merge(plan, incoming)[k].courses
  {
    LandsInTarget(Terms(plan), NewCandidates(plan, incoming), j);
  }

  // ---------------------------------------------------------------------------------------
  // The scan handler

  datatype ScanResult =
    | NoTranscriptText   // nothing pasted and no classes: the plan is left alone
    | NoCoursesDetected  // nothing parsed: the plan is left alone
    | Merged(plan: Plan)

  /** The scanner's classes as candidates, in order, the `i`-th with id `uuid(i)`. */
  function ScannedCandidates(classes: seq<ScannedClass>, uuid: nat -> string): (r: seq<Candidate>)
    ensures |r| == |classes|
    ensures forall i :: 0 <= i < |r| ==> r[i] == FromScanned(classes[i], uuid(i))
  {
    seq(|classes|, i requires 0 <= i < |classes| => FromScanned(classes[i], uuid(i)))
  }

  /** The free-text parser's courses as candidates, in order, the `i`-th with id `uuid(i)`. */
  function FromTextAll(parsed: seq<TranscriptText.TranscriptCourse>, uuid: nat -> string): (r: seq<Candidate>)
    ensures |r| == |parsed|
    ensures forall i :: 0 <= i < |r| ==> r[i] == FromText(parsed[i], uuid(i))
  {
    seq(|parsed|, i requires 0 <= i < |parsed| => FromText(parsed[i], uuid(i)))
  }

  lemma TextCandidatesNamed(text: string, uuid: nat -> string)
    ensures var r := FromTextAll(TranscriptText.ParseTranscriptTextSpec(text), uuid);
            |r| <= TranscriptText.MaxCourses && forall i :: 0 <= i < |r| ==> NamedWithoutTerm(r[i])
  {
    var parsed := TranscriptText.ParseTranscriptTextSpec(text);
    TranscriptText.ParseTranscriptTextProperties(text);
    var r := FromTextAll(parsed, uuid);
    forall i | 0 <= i < |r| ensures NamedWithoutTerm(r[i]) {
      assert r[i].course.name == parsed[i].name;
    }
  }

  /** The candidates of the free-text parser: at most eight, each the student's course with id
      `uuid(i)`, named, and naming no term. */
  function TextCandidates(trimmed: string, uuid: nat -> string): (r: seq<Candidate>)
    ensures |r| <= TranscriptText.MaxCourses
    ensures forall i :: 0 <= i < |r| ==> r[i].course.id == uuid(i) && r[i].course.kind == User
    ensures forall i :: 0 <= i < |r| ==> NamedWithoutTerm(r[i])
  {
    TextCandidatesNamed(trimmed, uuid);
    FromTextAll(TranscriptText.ParseTranscriptTextSpec(trimmed), uuid)
  }

  /** `x` is the class `c` as a plan course: its code, name and term text, and its credits
      with 3 for none. */
  predicate CarriesClass(x: Candidate, c: ScannedClass) {
    && x.course.code == c.code && x.course.name == c.name
    && x.course.credits == (if c.credits.Some? then c.credits.value else 3.0)
    && x.semester == c.semester
  }

  /** `x` has a non-empty single-spaced name and names no term. */
  ghost predicate NamedWithoutTerm(x: Candidate) {
    x.semester.None? && x.course.name != [] && Normalized(x.course.name)
  }

  /** The candidates of a scan: the scanner's classes when there are any, each with its own
      term text; else at most eight courses of the free-text parser, named, naming no term.
      Either way the `i`-th is the student's course with the fresh id `uuid(i)`. */
  function Candidates(trimmed: string, classes: seq<ScannedClass>, uuid: nat -> string): (r: seq<Candidate>)
    ensures forall i :: 0 <= i < |r| ==> r[i].course.id == uuid(i) && r[i].course.kind == User
    ensures |classes| > 0 ==> |r| == |classes|
    ensures |classes| > 0 ==> forall i :: 0 <= i < |r| ==> CarriesClass(r[i], classes[i])
    ensures |classes| == 0 ==> |r| <= TranscriptText.MaxCourses
    ensures |classes| == 0 ==> forall i :: 0 <= i < |r| ==> NamedWithoutTerm(r[i])
  {
    if |classes| > 0 then ScannedCandidates(classes, uuid) else TextCandidates(trimmed, uuid)
  }

  /** `handleTranscriptScan` as a function of the plan, the text and the classes. */
  function HandleTranscriptScan(plan: Plan, text: string, classes: seq<ScannedClass>, uuid: nat -> string): (r: ScanResult)
    ensures r.NoTranscriptText? <==> Trim(text) == [] && classes == []
    ensures r.Merged? ==> SameShape(plan, r.plan)
  {
    var trimmed := Trim(text);
    if trimmed == [] && |classes| == 0 then NoTranscriptText
    else
      var incoming := Candidates(trimmed, classes, uuid);
      if |incoming| == 0 then NoCoursesDetected
      else
        MergeAppendsOnly(plan, incoming);
        Merged(Merge(plan, incoming))
  }
}
