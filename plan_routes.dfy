/**
 * The server's plan routes after the model has answered: `POST /api/generate-plan`,
 * `POST /api/edit-plan` and `POST /api/simulate-scenario`. Each validates the request,
 * asks the model (its reply is a parameter here) and then merges the reply with the plan the
 * client sent so that the student's own courses survive whatever the model returned.
 */
module PlanRoutes {
  import opened Wrappers
  import opened Text
  import opened Collections

  /** A course as the routes see it. `kind` is the course's `type` field (`"user"`, `"ai"`,
      or anything else the model wrote); a course without a name has `name == None`. */
  datatype RouteCourse = RouteCourse(id: string, name: Option<string>, credits: real, kind: string)

  /** A semester as the routes see it; a missing course list reads as the empty one. */
  datatype RouteSemester = RouteSemester(id: string, title: string, subtitle: string, courses: seq<RouteCourse>)

  /** The model's answer: a failure with its error text (`""` when it gave none) or the
      parsed JSON it returned. */
  datatype AiReply<T> = Failed(error: string) | Answered(data: T)

  /** What a route sends back: an HTTP error status with its message, or the success body. */
  datatype Response<T> = Failure(status: nat, error: string) | Success(value: T)

  function IsUser(c: RouteCourse): bool { c.kind == "user" }

  function IsAi(c: RouteCourse): bool { c.kind == "ai" }

  /** The student's courses of a list, in order. */
  function UserCourses(courses: seq<RouteCourse>): seq<RouteCourse> {
    Filter(courses, IsUser)
  }

  /** The model's courses of a list, in order. */
  function AiCourses(courses: seq<RouteCourse>): seq<RouteCourse> {
    Filter(courses, IsAi)
  }

  predicate DistinctIds(sems: seq<RouteSemester>) {
    forall i, j :: 0 <= i < j < |sems| ==> sems[i].id != sems[j].id
  }

  /** The index of the first semester with the id (`Array#find`), or -1. */
  function FirstIndex(sems: seq<RouteSemester>, id: string): (k: int)
    ensures -1 <= k < |sems|
    ensures k == -1 <==> forall j :: 0 <= j < |sems| ==> sems[j].id != id
    ensures k >= 0 ==> sems[k].id == id && forall j :: 0 <= j < k ==> sems[j].id != id
  {
    if sems == [] then -1
    else if sems[0].id == id then 0
    else var k := FirstIndex(sems[1..], id); if k == -1 then -1 else k + 1
  }

  /** The index of the last semester with the id, or -1: building a `Map` from the list
      keeps the last entry under each id. */
  function LastIndex(sems: seq<RouteSemester>, id: string): (k: int)
    ensures -1 <= k < |sems|
    ensures k == -1 <==> forall j :: 0 <= j < |sems| ==> sems[j].id != id
    ensures k >= 0 ==> sems[k].id == id && forall j :: k < j < |sems| ==> sems[j].id != id
  {
    if sems == [] then -1
    else if sems[|sems| - 1].id == id then |sems| - 1
    else LastIndex(sems[..|sems| - 1], id)
  }

  lemma FirstIndexDistinct(sems: seq<RouteSemester>, k: nat)
    requires DistinctIds(sems) && k < |sems|
    ensures FirstIndex(sems, sems[k].id) == k
  {
  }

  // ---------------------------------------------------------------------------------------
  // Generate

  /** The generate request: the track (`""` when missing), whether the student's inputs
      were sent, and the semesters of the existing plan (none when it was not sent). */
  datatype GenerateRequest = GenerateRequest(track: string, hasInputs: bool, existing: seq<RouteSemester>)

  /** The normalised name used for de-duplication: lower case, trimmed; a course without a
      name keeps no name. */
  function NameKey(c: RouteCourse): Option<string> {
    if c.name.Some? then Some(Trim(Lower(c.name.value))) else None
  }

  /** The normalised names of the student's courses anywhere in the plan. */
  function UserNames(sems: seq<RouteSemester>): set<Option<string>> {
    set k, c | 0 <= k < |sems| && c in sems[k].courses && IsUser(c) :: NameKey(c)
  }

  function NameNotIn(names: set<Option<string>>): RouteCourse -> bool {
    (c: RouteCourse) => NameKey(c) !in names
  }

  /** The courses the model proposed for the semester id: those of the last reply semester
      with that id, none if there is none. */
  function ProposedCourses(ai: seq<RouteSemester>, id: string): seq<RouteCourse> {
    var a := LastIndex(ai, id);
    if a < 0 then [] else ai[a].courses
  }

  /** One semester of the generated plan for the existing semester `k`. */
  function GeneratedSemester(existing: seq<RouteSemester>, ai: seq<RouteSemester>, k: nat): (r: RouteSemester)
    requires k < |existing|
    ensures r.id == existing[k].id
  {
    var sid := existing[k].id;
    var e := existing[FirstIndex(existing, sid)];
    var a := LastIndex(ai, sid);
    var aiTitle := if a < 0 then "" else ai[a].title;
    var aiSubtitle := if a < 0 then "" else ai[a].subtitle;
    RouteSemester(
      sid,
      if aiTitle != "" then aiTitle else e.title,
      if aiSubtitle != "" then aiSubtitle else e.subtitle,
      UserCourses(e.courses) + Filter(ProposedCourses(ai, sid), NameNotIn(UserNames(existing))))
  }

  /** The generated plan: one semester per existing semester, in the existing order. */
  function MergeGenerated(existing: seq<RouteSemester>, ai: seq<RouteSemester>): (r: seq<RouteSemester>)
    ensures |r| == |existing|
    ensures forall k :: 0 <= k < |r| ==> r[k].id == existing[k].id
  {
    seq(|existing|, k requires 0 <= k < |existing| => GeneratedSemester(existing, ai, k))
  }

  /** The generate route after the model's reply; the reply's `semesters` field is `None`
      when it is missing or not an array. */
  function GeneratePlan(req: GenerateRequest, reply: AiReply<Option<seq<RouteSemester>>>): (r: Response<seq<RouteSemester>>)
    ensures (r.Failure? && r.status == 400) <==> req.track == "" || !req.hasInputs
    ensures r.Failure? ==> r.status == 400 || r.status == 500
    ensures r.Success? <==> req.track != "" && req.hasInputs && reply.Answered? && reply.data.Some?
    ensures r.Success? ==> |r.value| == |req.existing|
                           && forall k :: 0 <= k < |r.value| ==> r.value[k].id == req.existing[k].id
  {
    if req.track == "" || !req.hasInputs then Failure(400, "Missing required fields: track, inputs")
    else match reply
      case Failed(e) => Failure(500, if e != "" then e else "Failed to generate plan")
      case Answered(None) => Failure(500, "Invalid response format from AI")
      case Answered(Some(ai)) => Success(MergeGenerated(req.existing, ai))
  }

  /** A request rejected for missing fields is rejected whatever the model would answer. */
  lemma GenerateBadRequestIgnoresReply(req: GenerateRequest, r1: AiReply<Option<seq<RouteSemester>>>,
                                       r2: AiReply<Option<seq<RouteSemester>>>)
    requires req.track == "" || !req.hasInputs
    ensures GeneratePlan(req, r1) == GeneratePlan(req, r2) == Failure(400, "Missing required fields: track, inputs")
  {
  }

  /** With distinct semester ids, each generated semester starts with exactly the student's
      courses of the same existing semester, in order, and the rest are courses the model
      proposed for that id whose normalised name matches no student course of the plan. */
  lemma GenerateKeepsUserCourses(existing: seq<RouteSemester>, ai: seq<RouteSemester>, k: nat)
    requires DistinctIds(existing) && k < |existing|
    ensures var r := MergeGenerated(existing, ai)[k];
            var users := UserCourses(existing[k].courses);
            && r.courses[..|users|] == users
            && (forall c :: c in existing[k].courses && IsUser(c) ==> c in r.courses)
            && (forall j :: |users| <= j < |r.courses| ==>
                  r.courses[j] in ProposedCourses(ai, existing[k].id)
                  && NameKey(r.courses[j]) !in UserNames(existing))
  {
    FirstIndexDistinct(existing, k);
    var r := MergeGenerated(existing, ai)[k];
    var users := UserCourses(existing[k].courses);
    var kept := Filter(ProposedCourses(ai, existing[k].id), NameNotIn(UserNames(existing)));
    assert r.courses == users + kept;
    forall j | |users| <= j < |r.courses|
      ensures r.courses[j] in ProposedCourses(ai, existing[k].id) && NameKey(r.courses[j]) !in UserNames(existing)
    {
      assert r.courses[j] == kept[j - |users|];
    }
  }

  /** A proposed course whose normalised name matches no student course is kept. */
  lemma GenerateKeepsNewProposals(existing: seq<RouteSemester>, ai: seq<RouteSemester>, k: nat, c: RouteCourse)
    requires k < |existing|
    requires c in ProposedCourses(ai, existing[k].id) && NameKey(c) !in UserNames(existing)
    ensures c in MergeGenerated(existing, ai)[k].courses
  {
    var proposed := ProposedCourses(ai, existing[k].id);
    var i :| 0 <= i < |proposed| && proposed[i] == c;
    assert NameNotIn(UserNames(existing))(proposed[i]);
  }

  /** A semester the model left out keeps its title, its subtitle and only the student's
      courses. */
  lemma GenerateMissingSemester(existing: seq<RouteSemester>, ai: seq<RouteSemester>, k: nat)
    requires DistinctIds(existing) && k < |existing|
    requires forall j :: 0 <= j < |ai| ==> ai[j].id != existing[k].id
    ensures MergeGenerated(existing, ai)[k]
            == existing[k].(courses := UserCourses(existing[k].courses))
  {
    FirstIndexDistinct(existing, k);
    FilterDropsAll([], NameNotIn(UserNames(existing)));
  }

  /** A title or subtitle the model gave for the semester wins over the existing one. */
  lemma GenerateTakesModelTitles(existing: seq<RouteSemester>, ai: seq<RouteSemester>, k: nat, a: nat)
    requires k < |existing| && a < |ai| && ai[a].id == existing[k].id
    requires forall j :: a < j < |ai| ==> ai[j].id != existing[k].id
    ensures ai[a].title != "" ==> MergeGenerated(existing, ai)[k].title == ai[a].title
    ensures ai[a].subtitle != "" ==> MergeGenerated(existing, ai)[k].subtitle == ai[a].subtitle
  {
    assert LastIndex(ai, existing[k].id) == a;
  }

  // ---------------------------------------------------------------------------------------
  // Edit and simulate

  /** The edit and the simulate routes differ only in their field names and messages. */
  datatype Revision = EditPlan | SimulateScenario

  /** The request: the track, the command (or scenario), both `""` when missing, and the
      current plan's semesters (`None` when no plan was sent; a plan without semesters reads
      as `Some([])`). */
  datatype ReviseRequest = ReviseRequest(track: string, instruction: string, current: Option<seq<RouteSemester>>)

  /** The model's JSON: its `updatedPlan` (`None` when missing; `Some(None)` when present
      without a `semesters` array) and its `summary` (edit) or `changes` (simulate), `""`
      when missing. */
  datatype ReviseReply = ReviseReply(updatedPlan: Option<Option<seq<RouteSemester>>>, note: string)

  /** The success body: the merged semesters and the summary or changes passed through. */
  datatype Revised = Revised(semesters: seq<RouteSemester>, note: string)

  function MissingFields(route: Revision): string {
    match route
    case EditPlan => "Missing required fields: track, command, currentPlan"
    case SimulateScenario => "Missing required fields: track, scenario, currentPlan"
  }

  function DefaultFailure(route: Revision): string {
    match route
    case EditPlan => "Failed to process command"
    case SimulateScenario => "Failed to simulate scenario"
  }

  /** The message of the `TypeError` thrown by calling `map` on a missing `semesters`. */
  const UndefinedMap := "Cannot read properties of undefined (reading 'map')"

  /** The current courses of the semester id: those of the first current semester with
      that id, none if there is none. */
  function CurrentCourses(current: seq<RouteSemester>, id: string): seq<RouteCourse> {
    var i := FirstIndex(current, id);
    if i < 0 then [] else current[i].courses
  }

  /** The merge: every semester of the model's plan, in its order and with its own id,
      title and subtitle, carries the student's courses of the current semester with the
      same id followed by the courses the model typed `"ai"`. */
  function KeepUserCourses(current: seq<RouteSemester>, revised: seq<RouteSemester>): (r: seq<RouteSemester>)
    ensures |r| == |revised|
    ensures forall k :: 0 <= k < |r| ==>
              r[k].id == revised[k].id && r[k].title == revised[k].title && r[k].subtitle == revised[k].subtitle
  {
    seq(|revised|, k requires 0 <= k < |revised| =>
      revised[k].(courses := UserCourses(CurrentCourses(current, revised[k].id)) + AiCourses(revised[k].courses)))
  }

  /** The edit or simulate route after the model's reply. */
  function RevisePlan(route: Revision, req: ReviseRequest, reply: AiReply<ReviseReply>): (r: Response<Revised>)
    ensures (r.Failure? && r.status == 400) <==> req.track == "" || req.instruction == "" || req.current.None?
    ensures r.Failure? ==> r.status == 400 || r.status == 500
    ensures r.Success? <==> && req.track != "" && req.instruction != "" && req.current.Some?
                            && reply.Answered? && reply.data.note != ""
                            && reply.data.updatedPlan.Some? && reply.data.updatedPlan.value.Some?
    ensures r.Success? ==> r.value.note == reply.data.note
                           && |r.value.semesters| == |reply.data.updatedPlan.value.value|
  {
    if req.track == "" || req.instruction == "" || req.current.None? then Failure(400, MissingFields(route))
    else match reply
      case Failed(e) => Failure(500, if e != "" then e else DefaultFailure(route))
      case Answered(data) =>
        if data.updatedPlan.None? || data.note == "" then Failure(500, "Invalid response format from AI")
        else if data.updatedPlan.value.None? then Failure(500, UndefinedMap)
        else Success(Revised(KeepUserCourses(req.current.value, data.updatedPlan.value.value), data.note))
  }

  /** A request rejected for missing fields is rejected whatever the model would answer. */
  lemma ReviseBadRequestIgnoresReply(route: Revision, req: ReviseRequest, r1: AiReply<ReviseReply>, r2: AiReply<ReviseReply>)
    requires req.track == "" || req.instruction == "" || req.current.None?
    ensures RevisePlan(route, req, r1) == RevisePlan(route, req, r2) == Failure(400, MissingFields(route))
  {
  }

  /** The model can neither add, drop, reorder nor alter the student's courses of a
      semester it returns, and of its own courses exactly those typed `"ai"` are kept. */
  lemma KeepUserCoursesSplit(current: seq<RouteSemester>, revised: seq<RouteSemester>, k: nat)
    requires k < |revised|
    ensures var r := KeepUserCourses(current, revised);
            && UserCourses(r[k].courses) == UserCourses(CurrentCourses(current, revised[k].id))
            && AiCourses(r[k].courses) == AiCourses(revised[k].courses)
            // every course is typed "user" or "ai", and no student course follows a model one
            && (forall i :: 0 <= i < |r[k].courses| ==> IsUser(r[k].courses[i]) || IsAi(r[k].courses[i]))
            && PassingAtEnd(r[k].courses, IsAi)
  {
    ConcatPartition(UserCourses(CurrentCourses(current, revised[k].id)), AiCourses(revised[k].courses), IsUser, IsAi);
  }

  /** Merging a merged plan again changes nothing. */
  lemma KeepUserCoursesIdempotent(current: seq<RouteSemester>, revised: seq<RouteSemester>)
    ensures KeepUserCourses(current, KeepUserCourses(current, revised)) == KeepUserCourses(current, revised)
  {
    var once := KeepUserCourses(current, revised);
    forall k | 0 <= k < |once|
      ensures KeepUserCourses(current, once)[k] == once[k]
    {
      KeepUserCoursesSplit(current, revised, k);
    }
  }

  /** A semester the model returns exactly as it is in a current plan with distinct ids gets
      back that semester's student courses followed by its model courses. */
  lemma KeepUserCoursesUnchangedSemester(current: seq<RouteSemester>, revised: seq<RouteSemester>, k: nat, i: nat)
    requires DistinctIds(current) && k < |revised| && i < |current| && revised[k] == current[i]
    ensures KeepUserCourses(current, revised)[k].courses
            == UserCourses(current[i].courses) + AiCourses(current[i].courses)
  {
    FirstIndexDistinct(current, i);
  }
}
