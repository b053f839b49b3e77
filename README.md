# Pathway course planner: a verified model of its data handling

Pathway is a course-planning web application. Its pages build semester plans for high
school, university and master's students, its server asks an AI model for plan proposals,
and its client keeps a local account table and exports plans as PDF. This project models, in
Dafny, the deterministic data handling around those parts and proves what that code promises:

- `ScanTranscript` (`scan_transcript.dfy`): `parseClasses`, the transcript course-record parser.
  It normalises the text into lines and makes one pass with a term register and an
  "in current courses" flag. Each line is tried against hand-written matchers, one per regular
  expression of the source. Credits are cleaned and records de-duplicated on their composite key.
- `TranscriptText` (`free_text.dfy`): the free-text course parser of the import panel.
- `CourseCategories` (`course_categories.dfy`): the subject-prefix and keyword categoriser and
  the dominant-category count.
- `Planner` (`planner.dfy`): semester grids of the three planner pages, totals, add, remove
  and move of courses, the interest toggle, and the university page's generation merge.
- `TranscriptImport` (`transcript_import.dfy`): the transcript-import merge of the high-school
  and master's pages, with its moving slot cursor and its term-to-slot map.
- `PlanRoutes` (`plan_routes.dfy`): request validation and the merge of AI answers in the
  generate-plan, edit-plan and simulate-scenario routes. The AI answer is an arbitrary input value.
- `Auth` (`auth.dfy`): the 31-multiplier password hash with signed 32-bit wrap-around. Also the
  account table and login session as a class `UserStore` whose methods follow pure
  specification functions.
- `PdfExport` (`pdf_export.dfy`): track labels, the file-name sanitiser, course lines, semester
  credit sums, and the page layout as a list of placed texts `(page, y, text)`.
- `Api` (`api.dfy`): the server base URL and request-path joining.
- `Profile` (`profile.dfy`): the per-user plan statistics of the profile page.
- `Wrappers`, `Text`, `Collections`: `Option`, the string operations the source uses
  (ASCII case mapping, JavaScript's whitespace set, `trim`, `replace(/\s+/g, " ")`,
  number-to-text), and generic de-duplication, filtering and summing.

Where the code and its documentation disagree, the model follows the code:

- The fallback and registered-course patterns carry the `i` flag. So a record's code can be
  lower-case when it comes from those paths; only the primary path guarantees upper case.
- The grade class `[A-F]` admits `E`.
- In the fallback pattern, a line ending in credits then a signed grade, as in `4 B+`,
  yields grade `B`. The `\b` after the grade cannot hold between `+` and the end of the line.
  The primary pattern is tried first, though. A title word that is itself a grade takes it:
  `MATH141 Calculus I 4 B+` matches the primary pattern with title `Calculus`, grade `I` and
  credits 4.
- A registered-course line needs a 3- or 4-digit section. A line like `CMSC330 12345 3 REG`
  yields no record.

## Model

| member | source | states |
|---|---|---|
| ScanTranscript.RunLength | server/src/routes/scan-transcript.ts:33 | the run of characters with a property from a position is maximal: every character in it has the property, the one after it does not |
| ScanTranscript.NumeralAt | server/src/routes/scan-transcript.ts:33 | `\d+(?:\.\d+)?` at a position is empty exactly when no digit stands there, else a numeral found at that position |
| ScanTranscript.SkipSeparator | server/src/routes/scan-transcript.ts:33 | `\s*-?\s*` consumes at most three characters |
| ScanTranscript.CodeHeadAt | server/src/routes/scan-transcript.ts:33-39 | a code group found at a position is a 2-4 letter subject and a three-digit number with an optional letter, upper-case unless the pattern has the `i` flag |
| ScanTranscript.NumberAt | server/src/routes/scan-transcript.ts:33 | `\d{3}[A-Z]?` is followed by the whitespace the pattern requires |
| ScanTranscript.LiteralTry | server/src/routes/scan-transcript.ts:33-39 | a literal grade alternative matches the text at the position, ignoring case only under the `i` flag |
| ScanTranscript.LetterGradeTries | server/src/routes/scan-transcript.ts:33-39 | the tries of `[A-F][+-]?` are non-empty texts at the position and are grade tokens (E included) |
| ScanTranscript.GradeTries | server/src/routes/scan-transcript.ts:33-39 | every try of the grade group is a grade token found at the position |
| ScanTranscript.LiteralTries | server/src/routes/scan-transcript.ts:33-39 | the alternatives P, W, I, IP, S, U found at the position are grade tokens |
| ScanTranscript.FirstContinued | server/src/routes/scan-transcript.ts:33 | the chosen grade try is followed by whitespace and a digit and no earlier try is; nothing is chosen only when no try is |
| ScanTranscript.FirstAtBoundary | server/src/routes/scan-transcript.ts:39 | the chosen grade try ends on a word boundary and no earlier try does; nothing is chosen only when no try does |
| ScanTranscript.PrimaryTailAt | server/src/routes/scan-transcript.ts:33 | the grade-then-credits tail yields a grade token and a numeral |
| ScanTranscript.ContinuedTail | server/src/routes/scan-transcript.ts:33 | the tail built from the first continued grade try holds a grade token and a numeral |
| ScanTranscript.FallbackTailAt | server/src/routes/scan-transcript.ts:39 | the credits-then-grade tail yields a numeral and a grade token in either case |
| ScanTranscript.FirstEnd | server/src/routes/scan-transcript.ts:33-39 | the lazy search returns a position in range at which the rest of the pattern succeeds |
| ScanTranscript.FirstEndIsFirst | server/src/routes/scan-transcript.ts:33-39 | the rest of the pattern fails at every earlier position, and everywhere when the search finds nothing |
| ScanTranscript.FirstTitleEnd | server/src/routes/scan-transcript.ts:33-39 | the lazy title `(.+?)` ends where the tail matches, inside the line |
| ScanTranscript.FirstTitleEndIsFirst | server/src/routes/scan-transcript.ts:33-39 | the title is the shortest one for which the rest of the pattern matches |
| ScanTranscript.MatchCourseLine | server/src/routes/scan-transcript.ts:32-39 | a course-line match has a valid subject and number (upper-case for the primary pattern), a non-empty title and a grade token |
| ScanTranscript.RegAt | server/src/routes/scan-transcript.ts:34-37 | a registered-course match has a 2-4 letter subject and a course number in either case, and a numeral for credits |
| ScanTranscript.FirstRegFrom | server/src/routes/scan-transcript.ts:36-133 | the unanchored registered-course pattern matches at the position found, and at no earlier position from the start; it finds nothing only when it matches nowhere |
| ScanTranscript.TermEndAt | server/src/routes/scan-transcript.ts:29-30 | a term mention matched at a position ends after it, inside the line |
| ScanTranscript.FirstTermFrom | server/src/routes/scan-transcript.ts:30-95 | the term mention found starts at the leftmost position at which the term pattern matches, and ends where the pattern ends there; none is found only when no position matches |
| ScanTranscript.NumeralsFrom | server/src/routes/scan-transcript.ts:45 | every number `matchAll` finds is a numeral |
| ScanTranscript.LastInRange | server/src/routes/scan-transcript.ts:46-47 | the chosen number lies in [0.5, 6] and no later number does |
| ScanTranscript.ExtractValidCredits | server/src/routes/scan-transcript.ts:44-48 | `extractValidCredits` returns a value in [0.5, 6] or nothing |
| ScanTranscript.NormalizeCredits | server/src/routes/scan-transcript.ts:50-55 | a parsed value in [0.5, 6] is kept as it is; otherwise the last in-range number of the line is used; the result is absent or in range |
| ScanTranscript.NormalizeCreditsIdempotent | server/src/routes/scan-transcript.ts:50-55 | normalising, on the same line, whatever value a normalisation produced gives that value back: every result is in range, and the first branch keeps in-range values |
| ScanTranscript.ClassifyLine | server/src/routes/scan-transcript.ts:79-146 | the current-courses header raises the flag and emits nothing; a whole-line term header becomes the term, clears the flag and emits nothing; any other line keeps the flag and takes its inline term first; a record carries that term and sane credits |
| ScanTranscript.CourseRecordOf | server/src/routes/scan-transcript.ts:97-145 | a line's record carries the current term and credits absent or in [0.5, 6] |
| ScanTranscript.PrimaryWins | server/src/routes/scan-transcript.ts:33-111 | a line the primary pattern matches yields its record: code is upper-case subject then number, grade is the matched grade token |
| ScanTranscript.FallbackSecond | server/src/routes/scan-transcript.ts:39-128 | the fallback is used only when the primary fails, and its record has a grade, so the registered-course path is not reached |
| ScanTranscript.InProgressRecords | server/src/routes/scan-transcript.ts:131-145 | a gradeless record comes only from the registered path: neither course pattern matched, the flag was set or the strict pattern matched, the line contains upper-case `REG`, and the name is "In Progress"; a registered pattern matched, and code and credits come from the strict match when there is one and from the inline match otherwise, the credits through `normalizeCredits` |
| ScanTranscript.FallbackSignAtEndIsDropped | server/src/routes/scan-transcript.ts:39 | a signed grade at the end of a line loses its sign in the fallback pattern (`4 B+` gives `B`) |
| ScanTranscript.SignedThenBare | server/src/routes/scan-transcript.ts:39 | at the end of a line the signed try fails the word boundary and the bare letter is taken |
| ScanTranscript.NonEmpty | server/src/routes/scan-transcript.ts:27 | `filter(Boolean)` keeps only non-empty lines, each one of the input |
| ScanTranscript.NormalizeAll | server/src/routes/scan-transcript.ts:26 | each line is whitespace-collapsed and trimmed |
| ScanTranscript.Lines | server/src/routes/scan-transcript.ts:23-27 | the prepared lines are non-empty |
| ScanTranscript.LinesNormalized | server/src/routes/scan-transcript.ts:23-27 | every prepared line is non-empty and single-spaced without leading or trailing blanks |
| ScanTranscript.NonEmptyOfBlanks | server/src/routes/scan-transcript.ts:27 | only empty lines leave nothing |
| ScanTranscript.BlankTextHasNoLines | server/src/routes/scan-transcript.ts:23-27 | whitespace-only text has no lines |
| ScanTranscript.BlankTextHasNoRecords | server/src/routes/scan-transcript.ts:23-148 | empty or whitespace-only text yields no records |
| ScanTranscript.RunSeenIsKeys | server/src/routes/scan-transcript.ts:64-75 | the seen set is exactly the set of keys of the records kept |
| ScanTranscript.RunIsDedupOfOffered | server/src/routes/scan-transcript.ts:57-75 | the records are the offered ones with later duplicates of a key dropped, in first-seen order |
| ScanTranscript.OfferedAtMostOnePerLine | server/src/routes/scan-transcript.ts:79-146 | each line offers at most one record |
| ScanTranscript.OfferedCreditsSane | server/src/routes/scan-transcript.ts:44-55 | when each line's record has sane credits, so does every offered record |
| ScanTranscript.ParseClassesProperties | server/src/routes/scan-transcript.ts:14-149 | no more records than lines, credits absent or in [0.5, 6], no key twice, and the result is the first-seen de-duplication of the offered records |
| ScanTranscript.RunSnoc | server/src/routes/scan-transcript.ts:79-146 | the state after one more line is one loop step from the state before it |
| ScanTranscript.AddClass | server/src/routes/scan-transcript.ts:57-75 | `addClass` records the course and its key only when the key is unseen, otherwise changes nothing |
| ScanTranscript.ParseLines | server/src/routes/scan-transcript.ts:41-148 | the loop over the prepared lines returns the records of the line-by-line specification |
| ScanTranscript.ParseClasses | server/src/routes/scan-transcript.ts:14-149 | `parseClasses` returns the specified records: at most one per line, credits absent or in [0.5, 6], no key twice |
| TranscriptText.FirstSeparator | src/lib/transcript.ts:22 | the lazy head of `^(.+?)\s*[-:–—]\s*(.+)$` stops at the first separator from the second character on that has text after it, and there is none when no such separator exists |
| TranscriptText.CodePrefix | src/lib/transcript.ts:32 | a code prefix `[A-Z]{2,4}\s?\d{2,4}[A-Z]?` is at least four characters long and followed by whitespace |
| TranscriptText.UpperRun | src/lib/transcript.ts:32 | the run counted consists of upper-case letters |
| TranscriptText.DigitRun | src/lib/transcript.ts:32 | the run counted consists of digits |
| TranscriptText.ParseLineToCourse | src/lib/transcript.ts:11-40 | a line shorter than 3 characters after normalising, or containing an ignored keyword in lower case, yields nothing; a course has a non-empty name and no credits |
| TranscriptText.CourseOfLine | src/lib/transcript.ts:22-39 | the course of a kept line has a non-empty name and no credits |
| TranscriptText.SeparatedCourse | src/lib/transcript.ts:23-30 | the separator split yields a course with a non-empty name, or nothing when the name is empty |
| TranscriptText.CodedCourse | src/lib/transcript.ts:33-37 | the code-prefix split always yields a course with a non-empty name |
| TranscriptText.CourseOfLineNameNormalized | src/lib/transcript.ts:24-39 | the name of a normalised line's course is whitespace-normalised |
| TranscriptText.CourseOfLineNameSource | src/lib/transcript.ts:25-39 | a course name is the whole line or the normalised rest of it |
| TranscriptText.CodedCourseName | src/lib/transcript.ts:32-37 | with no separator and a code prefix, the name is the normalised rest or, when that is empty, the whole line |
| TranscriptText.ParsedNameNormalized | src/lib/transcript.ts:26-39 | every course name is whitespace-normalised |
| TranscriptText.SeparatorSplitFirst | src/lib/transcript.ts:22-30 | the separator split is tried before the code prefix: code is the head before the first separator, name the tail after it, both normalised |
| TranscriptText.NormalizedHasNoTrailingBlank | src/lib/transcript.ts:26-29 | a non-empty tail of a normalised line never normalises to nothing, so the separator path never returns null |
| TranscriptText.CodePrefixSecond | src/lib/transcript.ts:32-37 | with no separator, a leading course code becomes the code and the normalised rest the name |
| TranscriptText.WholeLineLast | src/lib/transcript.ts:39 | with neither a separator nor a code prefix, the whole line is the name and there is no code |
| TranscriptText.TextLines | src/lib/transcript.ts:43 | the lines are non-empty |
| TranscriptText.TrimAll | src/lib/transcript.ts:43 | each line is the trimmed input line, none dropped, and none starts or ends with whitespace |
| Text.Trim | src/lib/transcript.ts:43 | `trim()` never lengthens a string and leaves no whitespace at either end |
| TranscriptText.KeepNonEmpty | src/lib/transcript.ts:43 | `filter(Boolean)` keeps only non-empty lines |
| TranscriptText.ParsedCourses | src/lib/transcript.ts:44-46 | at most one course per line |
| TranscriptText.ParsedWith | src/lib/transcript.ts:44-46 | at most one course per line, whatever the line parser |
| TranscriptText.ParsedWithWellNamed | src/lib/transcript.ts:44-46 | when the line parser only yields well-named courses, so does the whole list |
| TranscriptText.ParsedCoursesWellNamed | src/lib/transcript.ts:26-46 | every parsed course has a non-empty, whitespace-normalised name |
| TranscriptText.FirstUniqueProperties | src/lib/transcript.ts:48-58 | at most eight courses, no two with the same lower-cased code-and-name key, each one of the input |
| TranscriptText.ParseTranscriptText | src/lib/transcript.ts:42-59 | the loop with its seen set returns the specified result: at most eight courses, keys distinct, names non-empty and normalised |
| TranscriptText.ParseTranscriptTextProperties | src/lib/transcript.ts:42-59 | `parseTranscriptText` returns at most eight courses with distinct keys and non-empty normalised names |
| CourseCategories.Rank | src/lib/course-categories.ts:18-34 | every category has a position in the tables' key order |
| CourseCategories.RankOfOrder | src/lib/course-categories.ts:18-34 | the position of the category at a place of the key order is that place |
| CourseCategories.LeadingCapitals | src/lib/course-categories.ts:59 | `/^[A-Z]+/` takes the maximal leading run of capital letters, empty when the code starts otherwise |
| CourseCategories.FirstPrefixIndex | src/lib/course-categories.ts:62-64 | the prefix search finds a category whose prefix the subject starts with, and no earlier category in table order has one |
| CourseCategories.FirstKeywordIndex | src/lib/course-categories.ts:72-74 | the keyword search finds a category whose keyword the name contains, and no earlier category has one |
| CourseCategories.GetCourseCategory | src/lib/course-categories.ts:54-81 | the category is "general" or matches the course by subject prefix or by name keyword |
| CourseCategories.CategoryOf | src/lib/course-categories.ts:61-80 | the category is "general" or matches by prefix or by keyword |
| CourseCategories.PrefixIndex | src/lib/course-categories.ts:62-64 | a prefix match found by `find` is one whose prefix the subject starts with |
| CourseCategories.KeywordIndex | src/lib/course-categories.ts:72-74 | a keyword match found by `find` is one whose keyword the name contains |
| CourseCategories.Resolve | src/lib/course-categories.ts:65-80 | the answer is "general", the prefix search's category or the keyword search's category |
| CourseCategories.PrefixFound | src/lib/course-categories.ts:62-64 | a category with a matching prefix makes the prefix search succeed at it or earlier, never at "general" |
| CourseCategories.KeywordFound | src/lib/course-categories.ts:72-74 | a category with a matching keyword makes the keyword search succeed at it or earlier, never at "general" |
| CourseCategories.PrefixNotFound | src/lib/course-categories.ts:62-68 | without any prefix match the prefix search finds nothing |
| CourseCategories.PrefixPrecedence | src/lib/course-categories.ts:18-68 | a prefix match beats every keyword match, and the category chosen is the first in table order with a prefix the subject starts with |
| CourseCategories.KeywordFallback | src/lib/course-categories.ts:36-78 | without a prefix match, the category is the first in table order whose keyword occurs in the lower-cased name |
| CourseCategories.GeneralMatchesNothing | src/lib/course-categories.ts:34-51 | "general" has neither prefixes nor keywords |
| CourseCategories.KeywordMatchNonEmpty | src/lib/course-categories.ts:71 | only a non-empty name can contain a keyword, so the `if (name)` guard loses nothing |
| CourseCategories.GeneralIffNoMatch | src/lib/course-categories.ts:66-80 | "general" is returned exactly when no category matches by prefix or by keyword |
| CourseCategories.PrefixesNonEmpty | src/lib/course-categories.ts:18-34 | no prefix in the table is empty |
| CourseCategories.KeywordsNonEmpty | src/lib/course-categories.ts:36-52 | no keyword in the table is empty |
| CourseCategories.NoneStartsEmpty | src/lib/course-categories.ts:61-63 | the empty subject starts with no table prefix, so the `if (subject)` guard loses nothing |
| CourseCategories.NoneContainedInEmpty | src/lib/course-categories.ts:71-73 | the empty name contains no table keyword |
| CourseCategories.CodeCaseIgnored | src/lib/course-categories.ts:58-59 | lower-casing the code does not change the category |
| CourseCategories.CodeSpaceIgnored | src/lib/course-categories.ts:58-59 | inserting whitespace anywhere in the code does not change the category |
| CourseCategories.SpaceIgnored | src/lib/course-categories.ts:58 | inserted whitespace disappears once the code is upper-cased and stripped |
| CourseCategories.Categories | src/lib/course-categories.ts:90-93 | one category per course |
| CourseCategories.CategoriesWith | src/lib/course-categories.ts:90-93 | one category per course, whatever the categoriser |
| CourseCategories.CountPositive | src/lib/course-categories.ts:92 | a category's count is positive exactly when it occurs |
| CourseCategories.PickProperties | src/lib/course-categories.ts:94-101 | the leader is "general" exactly when its count is 0; otherwise it occurs in the order with its count; no non-general category counts more; every non-general one before it counts strictly less |
| CourseCategories.GetDominantCourseCategory | src/lib/course-categories.ts:83-103 | the two loops compute the specified dominant category |
| CourseCategories.CountCategories | src/lib/course-categories.ts:89-93 | the counts map holds exactly the categories met, each with its number of courses, and its keys in first-seen order |
| CourseCategories.PickLeader | src/lib/course-categories.ts:94-101 | the second loop picks the first strictly largest non-general count |
| CourseCategories.FirstSeenSnoc | src/lib/course-categories.ts:92 | a category met for the first time is appended to the map's key order; a repeated one is not |
| CourseCategories.FirstSeenIndex | src/lib/course-categories.ts:92-96 | every category counted has a place in the key order |
| CourseCategories.DominantProperties | src/lib/course-categories.ts:83-103 | no courses give "general"; the result is "general" exactly when every course is; otherwise it occurs, no non-general category counts more, and a tied rival is never seen before it |
| CourseCategories.LeaderGeneralIff | src/lib/course-categories.ts:94-102 | the leader is "general" exactly when every counted category is |
| CourseCategories.NonGeneralLeads | src/lib/course-categories.ts:97-100 | a non-general category that occurs makes the leader non-general |
| CourseCategories.LeaderMaximal | src/lib/course-categories.ts:97-100 | a non-general leader occurs, and no non-general category counts more |
| CourseCategories.RivalAfterLeader | src/lib/course-categories.ts:96-101 | any prefix of the input containing a tied rival contains the leader: ties go to the category seen first |
| CourseCategories.LeaderBeforeRival | src/lib/course-categories.ts:96-101 | a rival with the leader's count comes after the leader in the map's key order |
| CourseCategories.FirstSeenPrefixClosed | src/lib/course-categories.ts:92-96 | a prefix of the input that contains a category of the key order contains all earlier ones |
| Planner.DigitsThenDash | src/pages/HighSchoolPlanner.tsx:43 | two ids `prefix + digits + "-" + term` are equal only with equal digits and equal terms |
| Planner.SlotIdInjective | src/pages/MastersPlanner.tsx:40 | two slots of a grid share an id only when they have the same number and term |
| Planner.HighSchoolGrid | src/pages/HighSchoolPlanner.tsx:36-53 | the high-school grid has eight semesters |
| Planner.GenerateHighSchoolSemesters | src/pages/HighSchoolPlanner.tsx:36-53 | the nested loops push Grade 9 Fall, Grade 9 Spring, ..., Grade 12 Spring, each empty with id `grade-<g>-<fall or spring>` |
| Planner.HighSchoolGridShape | src/pages/HighSchoolPlanner.tsx:36-53 | the eight semesters are empty and their ids pairwise distinct |
| Planner.MastersGrid | src/pages/MastersPlanner.tsx:33-49 | the grid of n years has 2n semesters |
| Planner.GenerateGradSemesters | src/pages/MastersPlanner.tsx:33-115 | the loop pushes Year 1 Fall, Year 1 Spring, ..., each empty with id `year-<k>-<fall or spring>`; a count below one gives none; changing the program length replaces the plan by this fresh grid |
| Planner.UniversityGrid | src/pages/UniversityPlanner.tsx:30-48 | the grid of n years has 2n semesters |
| Planner.GenerateUniversitySemesters | src/pages/UniversityPlanner.tsx:30-66 | the loop pushes year k's fall then spring semester, titled Freshman ... 5th Year for k < 5 and `Year k+1` after, subtitled `Fall 2026+k` and `Spring 2027+k`, all empty; changing the years to finish replaces the plan by this fresh grid |
| Planner.YearGridIds | src/pages/UniversityPlanner.tsx:39 | the master's and university grids have the same distinct ids `year-<k>-<fall or spring>` |
| Planner.UniversityCalendar | src/pages/UniversityPlanner.tsx:41 | semester k is subtitled with calendar year 2026 + (k + 1) / 2, so each spring follows its fall |
| Planner.TotalsOverAllCourses | src/pages/HighSchoolPlanner.tsx:114-117 | `totalCourses` is the number of the plan's courses and `totalCredits` the sum of their credits; the same code is at src/pages/MastersPlanner.tsx:107-110 |
| Planner.EmptySemestersTotals | src/pages/MastersPlanner.tsx:112-115 | a plan of empty semesters, such as a regenerated grid, has no courses and no credits: every course is discarded |
| Planner.Occurrences | src/pages/UniversityPlanner.tsx:61 | no semester carries an id exactly when it occurs zero times |
| Planner.OccursOnce | src/pages/HighSchoolPlanner.tsx:127-135 | in a plan with distinct ids a present id occurs once |
| Planner.AddCourse | src/pages/HighSchoolPlanner.tsx:127-135 | only the semesters with the given id change, each gaining the course under the fresh id at its end; the same code is at src/pages/MastersPlanner.tsx:117-125, src/pages/UniversityPlanner.tsx:68-76 |
| Planner.AddCourseSnoc | src/pages/HighSchoolPlanner.tsx:129-133 | adding over one more semester treats that semester alone |
| Planner.SumOfSnoc | src/pages/HighSchoolPlanner.tsx:116 | one more course adds its credits to a semester's sum |
| Planner.AddCourseCount | src/pages/HighSchoolPlanner.tsx:114-135 | adding a course raises `totalCourses` by the number of semesters carrying the id |
| Planner.AddCourseCredits | src/pages/HighSchoolPlanner.tsx:115-135 | adding a course raises `totalCredits` by its credits once per semester carrying the id |
| Planner.WithoutId | src/pages/HighSchoolPlanner.tsx:141 | the courses kept are exactly those with another id |
| Planner.RemoveCourse | src/pages/HighSchoolPlanner.tsx:137-145 | only the semesters with the given id change, each losing its courses with the course id; the same code is at src/pages/MastersPlanner.tsx:127-135, src/pages/UniversityPlanner.tsx:78-86 |
| Planner.AddThenRemove | src/pages/HighSchoolPlanner.tsx:127-145 | removing a course just added under a fresh id gives the plan back |
| Planner.LastWithId | src/pages/HighSchoolPlanner.tsx:157-163 | the course the filter records has the id and no course after it has that id; nothing is recorded only when no course has it |
| Planner.MovedCourse | src/pages/HighSchoolPlanner.tsx:152-165 | the recorded course has the id and is in the plan; none means no source semester holds that id |
| Planner.RemoveCourseSnoc | src/pages/HighSchoolPlanner.tsx:139-143 | removing over one more semester treats that semester alone |
| Planner.MovedCourseSnoc | src/pages/HighSchoolPlanner.tsx:153-165 | a later source semester's recorded course overrides an earlier one |
| Planner.DropCourse | src/pages/HighSchoolPlanner.tsx:157-163 | the filter keeps the courses with another id and records the last one dropped |
| Planner.MoveCourse | src/pages/HighSchoolPlanner.tsx:147-177 | the move is the specified one; equal source and target, or a course id absent from the source, leave the plan unchanged; the same code is at src/pages/MastersPlanner.tsx:137-167 |
| Planner.MoveProperties | src/pages/HighSchoolPlanner.tsx:147-177 | after a move that finds the course, the source holds no course with its id, the target gains it at its end, every other semester is unchanged |
| Planner.ToggleInterest | src/pages/HighSchoolPlanner.tsx:119-125 | a selected interest is removed and the others kept; an absent one is appended |
| Planner.ToggleTwiceRestores | src/pages/HighSchoolPlanner.tsx:119-125 | toggling an absent interest twice restores the selection |
| Planner.GeneratedCourses | src/pages/UniversityPlanner.tsx:91-116 | each semester id gets at most four fixed generated courses, all typed "ai", and unlisted ids get none |
| Planner.WithGeneratedCourses | src/pages/UniversityPlanner.tsx:118-123 | generation keeps every semester's id, title and subtitle in order; what happens to each semester's courses is stated by `GenerationKeepsUserCourses` |
| Planner.GenerationKeepsUserCourses | src/pages/UniversityPlanner.tsx:118-123 | each semester keeps exactly its student courses in order; its "ai" courses are exactly the fixed list for its id, in order, so no earlier one survives; and no student course comes after an "ai" one |
| Planner.GenerationIdempotent | src/pages/UniversityPlanner.tsx:118-123 | generating twice gives the same plan as generating once |
| TranscriptImport.FromScanned | src/pages/HighSchoolPlanner.tsx:388-412 | a scanned class becomes a student course with a fresh id, its code and name, credits 3 when it has none, and its term text |
| TranscriptImport.FromText | src/pages/HighSchoolPlanner.tsx:395-412 | a free-text course becomes a student course with credits 3 when it has none, and names no term |
| TranscriptImport.SpaceRun | src/pages/HighSchoolPlanner.tsx:466 | the whitespace run from a position is maximal |
| TranscriptImport.WordMatchEnd | src/pages/HighSchoolPlanner.tsx:466 | a match found at a position is a match of `word\s+\d{4}` there: the word in any case, a run of whitespace, then four digits |
| TranscriptImport.WordMatchEndIsTheMatch | src/pages/HighSchoolPlanner.tsx:466 | a match of `word\s+\d{4}` exists at a position exactly when one is found, and it ends where the found one ends: the greedy whitespace run leaves a single possible end |
| TranscriptImport.AlternativeAt | src/pages/HighSchoolPlanner.tsx:466 | the season alternative returned is the first, in pattern order, that matches at the position, with its end; every earlier one fails there; nothing is returned only when all fail |
| TranscriptImport.FindTerm | src/pages/HighSchoolPlanner.tsx:466 | a term match's first group is one of the season words in some case, and its whole text starts with it |
| TranscriptImport.MatchedTermNormalizes | src/pages/HighSchoolPlanner.tsx:441-472 | a matched season normalises to fall for fall and to spring for spring, summer and winter, so the `"fall"` fallback is never taken |
| TranscriptImport.FirstTermFrom | src/pages/HighSchoolPlanner.tsx:451-456 | the first slot at or after the cursor with the term, and none before it has it |
| TranscriptImport.Reserve | src/pages/HighSchoolPlanner.tsx:450-461 | the first slot at or after the cursor with the term, moving the cursor past it; else the slot at the cursor, moving it on; else the last slot; -1 exactly when there are no semesters; the same code is at src/pages/MastersPlanner.tsx:437-448 |
| TranscriptImport.ReserveSlotForTerm | src/pages/HighSchoolPlanner.tsx:450-461 | the loop computes the specified slot and cursor |
| TranscriptImport.Route | src/pages/HighSchoolPlanner.tsx:466-476 | a course naming no term goes to index 0 and changes nothing; a term text seen before goes to the slot it got the first time and changes nothing; a new term text gets the slot `reserveSlotForTerm` picks for its normalised term ("fall" for none), the cursor moves as it says, and the text is remembered; earlier slots are kept |
| TranscriptImport.Step | src/pages/HighSchoolPlanner.tsx:465-483 | one iteration keeps the cursor in range and every term slot a semester index or -1, and every index's additions only grow |
| TranscriptImport.Fold | src/pages/HighSchoolPlanner.tsx:465-483 | after the loop the cursor is in range and every term slot is a semester index or -1 |
| TranscriptImport.FoldSnoc | src/pages/HighSchoolPlanner.tsx:465-483 | the state after one more course is one step from the state before it |
| TranscriptImport.SlotsPersist | src/pages/HighSchoolPlanner.tsx:471-474 | once a term text has a slot it keeps it for the rest of the import |
| TranscriptImport.SameTermSameSlot | src/pages/HighSchoolPlanner.tsx:465-476 | all courses naming the same term text go to the same semester; the same code is at src/pages/MastersPlanner.tsx:452-463 |
| TranscriptImport.AdditionsPersist | src/pages/HighSchoolPlanner.tsx:480-482 | what a semester has been given stays, in order, at the front of its final additions |
| TranscriptImport.LandsInTarget | src/pages/HighSchoolPlanner.tsx:477-482 | a course routed to a semester index is among that index's additions |
| TranscriptImport.StepAdded | src/pages/HighSchoolPlanner.tsx:477-482 | one iteration appends the course to one index's additions or, routed to -1, to none |
| TranscriptImport.AdditionsFromCandidates | src/pages/HighSchoolPlanner.tsx:465-483 | additions go only to non-negative indices and hold only courses of the import |
| TranscriptImport.Terms | src/pages/HighSchoolPlanner.tsx:434-437 | one lower-cased term per semester |
| TranscriptImport.Appended | src/pages/HighSchoolPlanner.tsx:485-491 | each semester keeps its shape and gains the courses added to its index at its end |
| TranscriptImport.MergeTranscript | src/pages/HighSchoolPlanner.tsx:414-492 | the updater with its key set, cursor, term map and additions map computes the specified merge; the same code is at src/pages/MastersPlanner.tsx:401-479 |
| TranscriptImport.MergeAppendsOnly | src/pages/HighSchoolPlanner.tsx:430-491 | the import only appends: semesters, ids and headings stay, each semester's courses stay in order at its front, and what follows them is new; the same code is at src/pages/MastersPlanner.tsx:472-478 |
| TranscriptImport.NewCandidatesAreNew | src/pages/HighSchoolPlanner.tsx:415-428 | no new course has a key the plan already has, and no two new courses share a key; the same code is at src/pages/MastersPlanner.tsx:402-415 |
| TranscriptImport.NothingNewNothingChanges | src/pages/HighSchoolPlanner.tsx:430-432 | when every incoming key is already in the plan, the plan is unchanged |
| TranscriptImport.MergeLandsInTarget | src/pages/HighSchoolPlanner.tsx:465-491 | every new course routed to an existing semester ends up in it |
| TranscriptImport.Candidates | src/pages/HighSchoolPlanner.tsx:388-395 | with scanner classes, one candidate per class, carrying its code, name, term text and credits (3 when it has none); otherwise the free-text parse, at most eight named courses that name no term; the i-th candidate is the student's course with the fresh id `uuid(i)` |
| TranscriptImport.TextCandidates | src/pages/HighSchoolPlanner.tsx:395 | the free-text parse gives at most eight candidates, each the student's course with a fresh id and a non-empty single-spaced name, naming no term |
| TranscriptImport.HandleTranscriptScan | src/pages/HighSchoolPlanner.tsx:367-498 | no text and no classes is reported before anything else; a merged plan keeps the semesters' shape; the same code is at src/pages/MastersPlanner.tsx:354-485 |
| PlanRoutes.FirstIndex | server/src/routes/generate-plan.ts:104 | `find` returns the first semester with the id, and -1 means none has it |
| PlanRoutes.LastIndex | server/src/routes/generate-plan.ts:98-100 | a `Map` built from the reply keeps the last semester with each id, and -1 means none has it |
| PlanRoutes.FirstIndexDistinct | server/src/routes/edit-plan.ts:78 | with distinct ids, `find` by a semester's own id returns that semester |
| PlanRoutes.GeneratedSemester | server/src/routes/generate-plan.ts:103-122 | each generated semester has the existing semester's id |
| PlanRoutes.MergeGenerated | server/src/routes/generate-plan.ts:97-123 | the generated plan has the existing plan's ids, in its order; reply semesters with other ids are dropped |
| PlanRoutes.GeneratePlan | server/src/routes/generate-plan.ts:10-89 | a missing track or inputs gives 400 and nothing else does; every failure is 400 or 500; it succeeds exactly for a valid request whose reply has a `semesters` array; a success keeps the existing ids in order |
| PlanRoutes.GenerateBadRequestIgnoresReply | server/src/routes/generate-plan.ts:10-15 | a request missing track or inputs is rejected with 400 whatever the model answers, so before any model call |
| PlanRoutes.GenerateKeepsUserCourses | server/src/routes/generate-plan.ts:92-121 | each semester starts with that existing semester's student courses in order; every course after them was proposed for that id and has a normalised name no student course anywhere in the plan has |
| PlanRoutes.GenerateKeepsNewProposals | server/src/routes/generate-plan.ts:111-114 | a proposed course whose normalised name no student course has is kept |
| PlanRoutes.GenerateMissingSemester | server/src/routes/generate-plan.ts:103-122 | a semester the model left out keeps its title, its subtitle and only its student courses |
| PlanRoutes.GenerateTakesModelTitles | server/src/routes/generate-plan.ts:119-120 | a non-empty title or subtitle from the model wins over the existing one |
| PlanRoutes.KeepUserCourses | server/src/routes/edit-plan.ts:77-86 | one semester per semester of the model's plan, in its order, with its id, title and subtitle; what each semester's courses are is stated by `KeepUserCoursesSplit`; the same code is at server/src/routes/simulate-scenario.ts:80-89 |
| PlanRoutes.RevisePlan | server/src/routes/edit-plan.ts:10-74 | a missing track, command or plan gives 400 and nothing else does; every failure is 400 or 500; it succeeds exactly when the reply has an updated plan with semesters and a summary; a success passes the summary through and has one semester per returned one; the simulate route (server/src/routes/simulate-scenario.ts:10-97) is the same with the scenario and `changes` in place of the command and summary, `changes` passed through unchanged |
| PlanRoutes.ReviseBadRequestIgnoresReply | server/src/routes/edit-plan.ts:10-15 | a request missing a field is rejected with 400 whatever the model answers; the same code is at server/src/routes/simulate-scenario.ts:10-15 |
| PlanRoutes.KeepUserCoursesSplit | server/src/routes/edit-plan.ts:78-86 | each output semester's student courses are exactly the current plan's for that id, in order, and its model courses exactly the reply's courses typed "ai"; every course is typed "user" or "ai", and no student course comes after a model one: the model can neither inject nor alter student courses; the same code is at server/src/routes/simulate-scenario.ts:81-88 |
| PlanRoutes.KeepUserCoursesIdempotent | server/src/routes/edit-plan.ts:77-86 | merging the merged plan again changes nothing |
| PlanRoutes.KeepUserCoursesUnchangedSemester | server/src/routes/edit-plan.ts:77-86 | a semester returned exactly as it is gets its student courses followed by its "ai" courses |
| Auth.Wrap32 | src/lib/auth.ts:23-24 | the signed 32-bit integer congruent to the value modulo 2^32, as the shift and `hash & hash` produce it |
| Auth.Wrap32Congruent | src/lib/auth.ts:23-24 | congruent values wrap to the same 32-bit integer |
| Auth.Wrap32Shift | src/lib/auth.ts:24 | adding a multiple of 2^32 does not change the wrap |
| Auth.HashFrom | src/lib/auth.ts:20-25 | the recurrence h' = signed-32-bit(31 h + code unit) leaves the start value on the empty text and yields a signed 32-bit value otherwise |
| Auth.PasswordHash | src/lib/auth.ts:18-25 | the hash value is a signed 32-bit integer, 0 for the empty password |
| Auth.HashFromAppend | src/lib/auth.ts:21-25 | running the loop over two texts in a row is running it over their concatenation |
| Auth.Base36Nat | src/lib/auth.ts:26 | the base-36 text of a natural number has at least one digit, each `0-9` or `a-z` |
| Auth.Base36NatRoundTrip | src/lib/auth.ts:26 | reading the base-36 digits back gives the number |
| Auth.Base36Sign | src/lib/auth.ts:26 | `toString(36)` starts with a minus sign exactly for a negative number |
| Auth.Base36Injective | src/lib/auth.ts:26-88 | distinct numbers have distinct base-36 texts, so comparing hash texts compares hash values |
| Auth.HashPassword | src/lib/auth.ts:18-27 | the loop with `(hash << 5) - hash + char` and the 32-bit conversion computes 31 h + code unit wrapped, rendered in base 36; the empty password hashes to "0" |
| Auth.AaBbCollide | src/lib/auth.ts:21-25 | from any value, "Aa" and "BB" lead to the same hash value |
| Auth.CollidingPasswords | src/lib/auth.ts:17-27 | two different passwords with "BB" in place of "Aa" have the same hash text, so the hash does not identify the password |
| Auth.FindByEmail | src/lib/auth.ts:52-81 | the first account whose e-mail equals the given one ignoring case, and -1 exactly when none does |
| Auth.FindById | src/lib/auth.ts:143 | `findIndex`: the first account with the id, and -1 exactly when none has it |
| Auth.Create | src/lib/auth.ts:48-76 | an address already present ignoring case is refused first and the table kept; then a password shorter than 6 is refused and the table kept; otherwise exactly one account with the lower-cased address and the password's hash is appended, and the user returned carries no hash |
| Auth.CreateKeepsEmailsUnique | src/lib/auth.ts:52-71 | creating accounts keeps the addresses unique ignoring case |
| Auth.Login | src/lib/auth.ts:79-102 | login succeeds exactly when the first account with the address has the password's hash; an unknown address and a wrong password give the same error; the session holds the user without hash, the token and now + 604800000 |
| Auth.CreateThenLogin | src/lib/auth.ts:48-102 | a new account can log in with its address in any case and its password |
| Auth.Update | src/lib/auth.ts:141-163 | an unknown id is refused and nothing changes; otherwise only the first account with the id is overwritten with the merged fields, every password hash is kept, and the user returned is the merged one |
| Auth.UpdateKeepsLogin | src/lib/auth.ts:141-151 | an update that leaves the address alone changes no login's outcome |
| Auth.FindByEmailSameEmails | src/lib/auth.ts:81 | tables with the same addresses in the same order find the same account |
| Auth.CurrentSession | src/lib/auth.ts:105-122 | a saved session is returned exactly while now is at most its end, so now equal to the end is still valid |
| Auth.AfterSessionRead | src/lib/auth.ts:113-121 | reading the session either removes it or leaves it, and never changes the answer |
| Auth.SessionLifetime | src/lib/auth.ts:94-116 | a session from a login at now is current exactly up to now + 604800000 |
| Auth.AfterUpdate | src/lib/auth.ts:153-159 | after an update, a current session of that user carries the new user, a current session of another user is kept, and an expired one stays unusable |
| Auth.UserStore.constructor | src/lib/auth.ts:30-31 | the store starts from the given table and session entry |
| Auth.UserStore.CreateUser | src/lib/auth.ts:48-76 | the store's table and outcome are those of `Create`; a refusal writes nothing and the session is untouched |
| Auth.UserStore.LoginUser | src/lib/auth.ts:79-102 | the outcome is that of `Login`, the table is untouched, and a successful login saves its session |
| Auth.UserStore.GetSession | src/lib/auth.ts:105-122 | the answer is the current session; an expired one is removed |
| Auth.UserStore.GetCurrentUser | src/lib/auth.ts:125-128 | the user of the current session, none without one |
| Auth.UserStore.IsAuthenticated | src/lib/auth.ts:131-133 | true exactly when a saved session has not expired |
| Auth.UserStore.Logout | src/lib/auth.ts:136-138 | the session entry is removed and the table kept |
| Auth.UserStore.UpdateUser | src/lib/auth.ts:141-163 | the table and outcome are those of `Update`; a refusal changes nothing; a success refreshes the current session of that user |
| PdfExport.CapitalizeTrack | src/lib/pdf-export.ts:4-11 | the three known tracks show as "High School", "University" and "Masters" |
| PdfExport.CapitalizeOtherTrack | src/lib/pdf-export.ts:10 | any other non-empty track keeps its length; its first character is upper-cased, every later hyphen becomes a space and every other later character stays |
| PdfExport.Dehyphen | src/lib/pdf-export.ts:10 | `replace(/-/g, ' ')` turns each hyphen into a space and keeps every other character in place |
| PdfExport.Sanitize | src/lib/pdf-export.ts:96 | `replace(/[^a-z0-9]/gi, '_')` keeps ASCII letters and digits in place and turns every other character into `_` |
| PdfExport.FileName | src/lib/pdf-export.ts:96 | the file name is the plan's name (else its plan name, else "plan") with the same length, only letters, digits and `_`, every letter and digit kept, then ".pdf" |
| PdfExport.CourseLineShape | src/lib/pdf-export.ts:78-80 | a course line shows "code: name" when the course has a code and the bare name otherwise, and ends in " credit)" exactly when the course has 1 credit |
| PdfExport.SemesterCreditsOfCredited | src/lib/pdf-export.ts:63 | a semester's credit total is the sum over its courses that have credits; the others add nothing |
| PdfExport.SemesterTexts | src/lib/pdf-export.ts:60-89 | a semester shows its heading, its credit total, then its course lines in order (or "No courses") |
| PdfExport.CourseLines | src/lib/pdf-export.ts:71-83 | one line per course, the k-th being the k-th course's line |
| PdfExport.EveryCourseListed | src/lib/pdf-export.ts:51-92 | every course of every semester has its line among the semester lines |
| PdfExport.TextsAppend | src/lib/pdf-export.ts:51-92 | the texts of two layouts written one after the other are the texts of the first, then the second's |
| PdfExport.OrderedNoOverlap | src/lib/pdf-export.ts:52-75 | in an ordered layout no two lines share a place: a later line is on a later page or lower on the same page |
| PdfExport.Place | src/lib/pdf-export.ts:32-82 | writing a line appends it at the given place, keeps the earlier lines, moves the cursor the step below it and keeps the layout ordered and on the page |
| PdfExport.PlaceKeepsLaid | src/lib/pdf-export.ts:53-75 | a line at the cursor, or at the top of the next page, keeps the layout ordered and within bounds |
| PdfExport.RenderHeader | src/lib/pdf-export.ts:22-42 | the title block starts at the top of page 1 with the plan's name (else plan name, else "Academic Plan"), shows track, totals and the saved date when there is one, and ends on page 1 no lower than 61 |
| PdfExport.RenderSemester | src/lib/pdf-export.ts:51-91 | the heading goes to the top of a new page when the cursor is past the line 40 above the page bottom and at the cursor otherwise; the credit total sits 7 below it; the first course line, or "No courses", sits 7 below that, the course line by the 20-above-the-bottom rule; each later course line follows the one before by that rule, 6 apart; the cursor ends 11 below the last line; the lines written are the semester's texts and the layout stays ordered and on the page |
| PdfExport.RenderSemesterHead | src/lib/pdf-export.ts:52-67 | the heading is placed by the 40-above-the-bottom rule, the credit total 7 below it, the earlier lines stay, and the cursor ends 7 below the credit total |
| PdfExport.RenderSemesterBody | src/lib/pdf-export.ts:70-89 | a semester's courses, or "No courses" when it has none, are appended after the earlier lines, which stay as they were; "No courses" sits at the cursor, each course line is placed by the 20-above-the-bottom rule from the cursor the line before left, 6 apart; the cursor ends 6 below the last line |
| PdfExport.LaidOutChain | src/lib/pdf-export.ts:71-83 | the first course line is placed by the page-break rule from the starting cursor and every later one by the same rule from the cursor the one before it left |
| PdfExport.RenderCourses | src/lib/pdf-export.ts:71-83 | each course line is placed by the page-break rule for 20 above the page bottom, from the cursor the line before it left, 6 apart; the lines are the course lines in order |
| PdfExport.LaidOutSnoc | src/lib/pdf-export.ts:72-82 | one more course line placed by the rule extends the laid-out lines and moves the cursor 6 below it |
| PdfExport.LaidAppend | src/lib/pdf-export.ts:72-82 | course lines laid out from the cursor an ordered layout left keep it ordered and within bounds |
| PdfExport.RenderPlan | src/lib/pdf-export.ts:13-93 | the document's lines are the title block, then "Semesters" and every semester's lines when there are semesters; the first line is the title at the top of page 1; every line lies on the page and no two overlap; every semester heading is placed by the 40-above-the-bottom rule from the cursor the line before it left: 10 below "Semesters" for the first, 11 below the previous semester's last line for the others |
| PdfExport.RenderSemesters | src/lib/pdf-export.ts:45-92 | the loop over the semesters writes every semester's texts after the lines before it, keeps the layout ordered and on the page, and places every heading by the page-break rule 10 or 11 below the line before it |
| PdfExport.RenderNextSemester | src/lib/pdf-export.ts:51-91 | one iteration extends what the loop has written by one semester's texts and heading and keeps every earlier heading where it was |
| Api.BaseUrl | src/lib/api.ts:1-4 | the base URL is the environment's value when it is set and not empty, and never empty |
| Api.ApiUrl | src/lib/api.ts:6-12 | the URL starts with the base; it is the base alone exactly when the path is empty; otherwise one slash follows the base, then the path without its own leading slash |
| Api.SlashOptional | src/lib/api.ts:10-11 | a path without a leading slash reaches the same URL as the same path with one |
| Profile.LoadUserStats | src/pages/Profile.tsx:27-47 | unreadable stored plans leave the previous statistics; nothing stored gives all zeros; the plan count never exceeds the stored plans |
| Profile.TrackCountsBounded | src/pages/Profile.tsx:33-40 | the high-school, university and master's counts together never exceed the user's plan count |
| Profile.OthersIgnored | src/pages/Profile.tsx:30 | plans of other users, wherever they are stored, change no statistic |
| Profile.AddPlan | src/pages/Profile.tsx:30-40 | one more plan of the user adds one plan, its credit and course totals, and one to the count of its track |
| Profile.Counts | src/pages/Profile.tsx:30-40 | the plan count is the number of stored positions holding a plan of the user, and each track count the number holding a plan of the user on exactly that track |
| Profile.TrackCount | src/pages/Profile.tsx:30-40 | filtering the user's plans by track counts the stored plans that are the user's and on that track |
| Collections.DedupBy | src/lib/transcript.ts:48-56 | the kept elements come from the input, none has a key seen before, and no two share a key |
| Collections.DedupKeySet | src/lib/transcript.ts:48-56 | the kept keys are exactly the input's keys that were not seen before |
| Collections.DedupSnoc | src/lib/transcript.ts:48-56 | one more element is kept exactly when its key is new, so the result is the first element of every new key in first-seen order |
| Collections.DedupPrefix | src/lib/transcript.ts:48-56 | an element once kept stays where it is whatever follows |
| Collections.Dedup | src/pages/HighSchoolPlanner.tsx:415-426 | the loop that adds each kept key to a set of seen keys computes `DedupBy` from the keys already known |
| Collections.Filter | src/pages/Profile.tsx:30 | `filter` keeps exactly the elements that pass, each from the input |
| Collections.FilterAppend | src/pages/Profile.tsx:30 | filtering two sequences one after the other filters each in turn |
| Collections.FilterCount | src/pages/Profile.tsx:30-33 | the length of a filtered sequence is the number of positions whose element passes |
| Collections.FilterFilter | src/pages/Profile.tsx:30-40 | filtering twice is filtering once by both conditions |
| Collections.SumOfAppend | src/pages/Profile.tsx:33-37 | the sum over two sequences one after the other is the sum of their sums |
| Text.Lower | src/lib/auth.ts:52-81 | lower-casing keeps the length |
| Text.LowerIdempotent | src/lib/auth.ts:52-81 | lower-casing twice is lower-casing once |
| Text.Upper | src/lib/course-categories.ts:58 | upper-casing keeps the length |
| Text.TrimStart | src/lib/transcript.ts:9 | the leading whitespace is removed: the result is a suffix of the input and does not start with whitespace |
| Text.TrimEnd | src/lib/transcript.ts:9 | the trailing whitespace is removed: the result is a prefix of the input and does not end with whitespace |
| Text.CollapseSpaces | src/lib/transcript.ts:9 | `replace(/\s+/g, " ")` never lengthens the text, turns a leading whitespace character into a space and keeps any other first character and a last character that is not whitespace |
| Text.NormalizeWhitespace | src/lib/transcript.ts:9 | normalising never lengthens the text and keeps a last character that is not whitespace |
| Text.CollapseSpacesSingleSpaced | src/lib/transcript.ts:9 | `replace(/\s+/g, " ")` leaves only single plain spaces |
| Text.NormalizeWhitespaceNormalized | server/src/routes/scan-transcript.ts:26 | a normalised line is single-spaced with no space at either end |
| Text.NormalizedFixpoint | src/lib/transcript.ts:9 | normalising an already normalised string changes nothing |
| Text.NormalizeBlank | server/src/routes/scan-transcript.ts:26-27 | a line of whitespace only normalises to the empty line |
| Text.Split | server/src/routes/scan-transcript.ts:24-25 | `split` yields at least one part and no part holds the separator |
| Text.RemoveChar | server/src/routes/scan-transcript.ts:24 | `replace(/\r/g, "")` leaves no `\r` and only characters of the input |
| Text.RemoveSpaces | src/lib/course-categories.ts:58 | `replace(/\s+/g, "")` leaves no whitespace and never lengthens the text |
| Text.RemoveSpacesAppend | src/lib/course-categories.ts:58 | removing whitespace from two strings one after the other removes it from each |
| Text.NatToString | src/pages/HighSchoolPlanner.tsx:44 | a number's text is one or more digits without a leading zero |
| Text.NatToStringRoundTrip | src/pages/HighSchoolPlanner.tsx:44 | reading back the decimal text of a number gives the number |
| Text.NatToStringInjective | src/pages/HighSchoolPlanner.tsx:44 | distinct numbers have distinct decimal texts |
| Text.NumeralValue | server/src/routes/scan-transcript.ts:50-55 | a numeral's value is not negative |

## Left out

- Floating point: credits, totals and sums are exact reals (`real`), and a credit token's value is its exact decimal, where the source uses IEEE doubles and `parseFloat`. Sums that round differently in doubles are not modelled.
- Rendering a number as text (`Number#toString`) in the PDF lines is a function parameter `render`; only natural numbers get a defined decimal text (`NatToString`).
- Case mapping covers the ASCII letters only. A string is a sequence of UTF-16 code units, one `char` each.
- `parseInt` of the years and program-length fields is an `int` parameter. A text that does not parse gives `NaN`, for which the source's loop runs no round; the model's count below one gives the same empty grid.
- Local storage and JSON: stores are in-memory values. A stored text that does not parse is an explicit case (`None` for the saved plans, `Unreadable` for the session). Values that parse to other shapes are not modelled.
- The ids, tokens and clock (`crypto.randomUUID`, `Date.now`, `toISOString`) are parameters.
- The AI service is not modelled: its answer to each route is an input value (`AiReply`), and the prompts sent to it are left out.
- The regular-expression engine: each pattern the parsers use is written out as its own matcher over normalised lines.
- The upload handler of the transcript route (`server/src/routes/scan-transcript.ts:151-205`): file upload, PDF text extraction and OCR are foreign libraries. The parser takes the extracted text.
- PDF drawing: fonts, font sizes, the horizontal position of each line and the page width are left out; a document is the list of its lines with page and vertical position. The page height is an integer parameter. The saved date is the localised text (`toLocaleDateString` is not modelled).
- `PdfExport.CapitalizeTrack`: keys that JavaScript objects inherit (such as `constructor`) would be found in the track map; the model knows only the three listed tracks.
- Fields of AI semesters and courses that the merges copy without looking at them are not modelled beyond the id, title, subtitle and course list.
- An update of `updateUser` is modelled field by field with `Option`; fields explicitly set to `undefined` are not distinguished from absent ones.
- The `semester` property that the transcript import attaches to each imported course is not kept on the course.
- Clearing the plan, the interest-area list of the page, JSX rendering, toasts and `fetch` calls are presentation code and left out, as is the average rounding of `src/pages/Profile.tsx:128`.
