/** The course categoriser: a course's category comes from its subject prefix, else from a
    keyword of its name, over two constant tables read in one fixed category order; the dominant
    category of a list of courses is the non-general one counted most often. */
module CourseCategories {
  import opened Wrappers
  import opened Text
  import opened Collections

  datatype Category =
    | Cs | Math | Science | Engineering | Business | Arts | Health | Language | Education | Law
    | PublicPolicy | Communication | Humanities | Social | General

  /** The key order of both tables, which is the order `find` tries the categories in. */
  const Order: seq<Category> :=
    [Cs, Math, Science, Engineering, Business, Arts, Health, Language, Education, Law,
     PublicPolicy, Communication, Humanities, Social, General]

  /** The position of a category in `Order`. */
  function Rank(c: Category): (k: nat)
    ensures k < |Order| && Order[k] == c
  {
    match c
    case Cs => 0
    case Math => 1
    case Science => 2
    case Engineering => 3
    case Business => 4
    case Arts => 5
    case Health => 6
    case Language => 7
    case Education => 8
    case Law => 9
    case PublicPolicy => 10
    case Communication => 11
    case Humanities => 12
    case Social => 13
    case General => 14
  }

  lemma RankOfOrder(k: nat)
    requires k < |Order|
    ensures Rank(Order[k]) == k
  {
  }

  /** `CATEGORY_PREFIXES`, one row per category in `Order`. */
  const PrefixTable: seq<seq<string>> :=
    [ ["CMSC", "CSCI", "CPSC", "COMP", "CS"],
      ["MATH", "STAT", "MATHB", "MATHC"],
      ["PHYS", "CHEM", "BIOL", "BSCI", "GEOL", "ASTR"],
      ["ENEE", "ENME", "ENAE", "ENES", "ENSE", "ENCP", "ENBE", "ENMA"],
      ["BMGT", "ECON", "ACCT", "FINA", "MKTG", "MGMT", "BFIN", "BLAW"],
      ["ART", "ARTH", "MUSC", "DANC", "THEA", "ARHU", "FILM", "CPBE"],
      ["HLTH", "NURS", "KNES", "PHSC", "NSC", "PHSI"],
      ["HISP", "FREN", "GERM", "ARAB", "CHIN", "JAPN", "KORE", "ITAL", "RUSS", "PORT"],
      ["EDUC", "EDMS", "EDHD", "EDSP"],
      ["LAWS", "LASC"],
      ["GVPT", "PUAF", "PLCY", "PPOL", "URSP"],
      ["COMM", "JOUR", "TLPL", "SLLC"],
      ["ENGL", "HIST", "PHIL", "CLAS", "RLST"],
      ["PSYC", "SOCY", "AMST", "ANTH", "LGBT", "GEOG"],
      [] ]

  /** `CATEGORY_KEYWORDS`, one row per category in `Order`. */
  const KeywordTable: seq<seq<string>> :=
    [ ["computer", "program", "software", "algorithm", "data structures"],
      ["calculus", "algebra", "statistics", "probability", "geometry"],
      ["physics", "chemistry", "biology", "science", "laboratory"],
      ["engineering", "systems", "circuits", "mechanics", "design"],
      ["business", "economics", "accounting", "finance", "marketing", "management"],
      ["art", "design", "music", "theatre", "film", "dance"],
      ["health", "nursing", "kinesiology", "nutrition"],
      ["spanish", "french", "german", "arabic", "chinese", "japanese", "korean", "italian", "russian"],
      ["education", "teaching", "curriculum", "pedagogy"],
      ["law", "legal", "justice"],
      ["public policy", "policy", "government", "civics", "politics"],
      ["communication", "media", "journalism", "speech"],
      ["writing", "literature", "history", "philosophy"],
      ["psychology", "sociology", "anthropology"],
      [] ]

  /** The prefixes of a category. */
  function Prefixes(c: Category): seq<string> {
    PrefixTable[Rank(c)]
  }

  /** The keywords of a category. */
  function Keywords(c: Category): seq<string> {
    KeywordTable[Rank(c)]
  }

  /** The subject starts with one of the category's prefixes. */
  predicate PrefixMatch(subject: string, c: Category) {
    StartsWithAny(subject, Prefixes(c))
  }

  /** The lower-cased name contains one of the category's keywords. */
  predicate KeywordMatch(lowerName: string, c: Category) {
    ContainsAny(lowerName, Keywords(c))
  }

  /** The leading run of capital letters (`/^[A-Z]+/`), empty when there is none. */
  function LeadingCapitals(s: string): (r: string)
    ensures r <= s
    ensures forall i :: 0 <= i < |r| ==> IsUpper(r[i])
    ensures |r| < |s| ==> !IsUpper(s[|r|])
  {
    if s == [] || !IsUpper(s[0]) then [] else [s[0]] + LeadingCapitals(s[1..])
  }

  /** The subject of a course code: upper-cased, whitespace removed, leading capitals. */
  function Subject(code: string): string {
    LeadingCapitals(RemoveSpaces(Upper(code)))
  }

  /** The position in `Order` of the first category at or after position `i` with a matching
      prefix. */
  function FirstPrefixIndex(subject: string, i: nat): (r: Option<nat>)
    requires i <= |Order|
    ensures r.Some? ==> i <= r.value < |Order| && PrefixMatch(subject, Order[r.value])
    ensures forall k :: i <= k < (if r.Some? then r.value else |Order|) ==> !PrefixMatch(subject, Order[k])
    decreases |Order| - i
  {
    if i == |Order| then None
    else if PrefixMatch(subject, Order[i]) then Some(i)
    else FirstPrefixIndex(subject, i + 1)
  }

  /** The position in `Order` of the first category at or after position `i` with a matching
      keyword. */
  function FirstKeywordIndex(lowerName: string, i: nat): (r: Option<nat>)
    requires i <= |Order|
    ensures r.Some? ==> i <= r.value < |Order| && KeywordMatch(lowerName, Order[r.value])
    ensures forall k :: i <= k < (if r.Some? then r.value else |Order|) ==> !KeywordMatch(lowerName, Order[k])
    decreases |Order| - i
  {
    if i == |Order| then None
    else if KeywordMatch(lowerName, Order[i]) then Some(i)
    else FirstKeywordIndex(lowerName, i + 1)
  }

  /** `getCourseCategory`; a missing code or name is the empty string. */
  function GetCourseCategory(code: string, name: string): (r: Category)
    ensures r == General || PrefixMatch(Subject(code), r) || KeywordMatch(Lower(name), r)
  {
    CategoryOf(Subject(code), Lower(name))
  }

  /** The category of a subject and a lower-cased name: the first category with a matching
      prefix, else the first with a matching keyword, else "general". An empty subject or name
      is not searched. */
  function CategoryOf(subject: string, lowerName: string): (r: Category)
    ensures r == General || PrefixMatch(subject, r) || KeywordMatch(lowerName, r)
  {
    Resolve(PrefixIndex(subject), KeywordIndex(lowerName))
  }

  function PrefixIndex(subject: string): (r: Option<nat>)
    ensures r.Some? ==> r.value < |Order| && PrefixMatch(subject, Order[r.value])
  {
    if subject != [] then FirstPrefixIndex(subject, 0) else None
  }

  function KeywordIndex(lowerName: string): (r: Option<nat>)
    ensures r.Some? ==> r.value < |Order| && KeywordMatch(lowerName, Order[r.value])
  {
    if lowerName != [] then FirstKeywordIndex(lowerName, 0) else None
  }

  /** The prefix search's category unless it found none or "general", then the keyword
      search's, then "general". */
  function Resolve(prefixMatch: Option<nat>, keywordMatch: Option<nat>): (r: Category)
    requires prefixMatch.Some? ==> prefixMatch.value < |Order|
    requires keywordMatch.Some? ==> keywordMatch.value < |Order|
    ensures r == General || Some(Rank(r)) == prefixMatch || Some(Rank(r)) == keywordMatch
  {
    if prefixMatch.Some? && Order[prefixMatch.value] != General then
      RankOfOrder(prefixMatch.value);
      Order[prefixMatch.value]
    else if keywordMatch.Some? && Order[keywordMatch.value] != General then
      RankOfOrder(keywordMatch.value);
      Order[keywordMatch.value]
    else General
  }

  /** A category whose prefix the subject starts with is found by the prefix search, at its
      position or before it. */
  lemma PrefixFound(subject: string, k: nat) returns (p: nat)
    requires k < |Order| && PrefixMatch(subject, Order[k])
    ensures PrefixIndex(subject) == Some(p) && p <= k && p < |Order| - 1
    ensures forall j :: 0 <= j < p ==> !PrefixMatch(subject, Order[j])
  {
    assert subject != [] by {
      if subject == [] {
        PrefixesNonEmpty(Order[k]);
        NoneStartsEmpty(Prefixes(Order[k]));
      }
    }
    p := FirstPrefixIndex(subject, 0).value;
    GeneralMatchesNothing(subject, []);
  }

  /** A category with a keyword in the name is found by the keyword search, at its position or
      before it. */
  lemma KeywordFound(lowerName: string, k: nat) returns (m: nat)
    requires k < |Order| && KeywordMatch(lowerName, Order[k])
    ensures KeywordIndex(lowerName) == Some(m) && m <= k && m < |Order| - 1
    ensures forall j :: 0 <= j < m ==> !KeywordMatch(lowerName, Order[j])
  {
    KeywordMatchNonEmpty(lowerName, Order[k]);
    m := FirstKeywordIndex(lowerName, 0).value;
    GeneralMatchesNothing([], lowerName);
  }

  /** Without any prefix match the prefix search finds nothing. */
  lemma PrefixNotFound(subject: string)
    requires forall j :: 0 <= j < |Order| ==> !PrefixMatch(subject, Order[j])
    ensures PrefixIndex(subject).None?
  {
  }

  /** A prefix match takes precedence over every keyword match, and among prefix matches the
      first category in table order wins: it sits at position `p` of `Order`. */
  lemma PrefixPrecedence(subject: string, lowerName: string, k: nat) returns (p: nat)
    requires k < |Order| && PrefixMatch(subject, Order[k])
    ensures p <= k && CategoryOf(subject, lowerName) == Order[p]
    ensures PrefixMatch(subject, Order[p])
    ensures forall j :: 0 <= j < p ==> !PrefixMatch(subject, Order[j])
  {
    p := PrefixFound(subject, k);
    assert Order[p] != General;
  }

  /** Without a prefix match, the first category in table order whose keyword occurs in the
      lower-cased name wins: it sits at position `m` of `Order`. */
  lemma KeywordFallback(subject: string, lowerName: string, k: nat) returns (m: nat)
    requires forall j :: 0 <= j < |Order| ==> !PrefixMatch(subject, Order[j])
    requires k < |Order| && KeywordMatch(lowerName, Order[k])
    ensures m <= k && CategoryOf(subject, lowerName) == Order[m]
    ensures KeywordMatch(lowerName, Order[m])
    ensures forall j :: 0 <= j < m ==> !KeywordMatch(lowerName, Order[j])
  {
    PrefixNotFound(subject);
    m := KeywordFound(lowerName, k);
    assert Order[m] != General;
  }

  /** "general" has neither prefixes nor keywords. */
  lemma GeneralMatchesNothing(subject: string, lowerName: string)
    ensures !PrefixMatch(subject, General) && !KeywordMatch(lowerName, General)
  {
    assert Prefixes(General) == [] && Keywords(General) == [];
  }

  /** Only a non-empty name can contain a keyword. */
  lemma KeywordMatchNonEmpty(lowerName: string, c: Category)
    requires KeywordMatch(lowerName, c)
    ensures lowerName != []
  {
    if lowerName == [] {
      KeywordsNonEmpty(c);
      NoneContainedInEmpty(Keywords(c));
    }
  }

  /** "general" is the answer exactly when no category matches by prefix or by keyword. */
  lemma GeneralIffNoMatch(subject: string, lowerName: string)
    ensures CategoryOf(subject, lowerName) == General
        <==> forall j :: 0 <= j < |Order| ==> !PrefixMatch(subject, Order[j]) && !KeywordMatch(lowerName, Order[j])
  {
    var r := CategoryOf(subject, lowerName);
    if r != General {
      assert Order[Rank(r)] == r;
    } else if j :| 0 <= j < |Order| && PrefixMatch(subject, Order[j]) {
      var p := PrefixPrecedence(subject, lowerName, j);
    } else if j :| 0 <= j < |Order| && KeywordMatch(lowerName, Order[j]) {
      var m := KeywordFallback(subject, lowerName, j);
    }
  }

  lemma PrefixesNonEmpty(c: Category)
    ensures forall i :: 0 <= i < |Prefixes(c)| ==> Prefixes(c)[i] != []
  {
    match c
    case Cs =>
    case Math =>
    case Science =>
    case Engineering =>
    case Business =>
    case Arts =>
    case Health =>
    case Language =>
    case Education =>
    case Law =>
    case PublicPolicy =>
    case Communication =>
    case Humanities =>
    case Social =>
    case General =>
  }

  lemma KeywordsNonEmpty(c: Category)
    ensures forall i :: 0 <= i < |Keywords(c)| ==> Keywords(c)[i] != []
  {
    match c
    case Cs =>
    case Math =>
    case Science =>
    case Engineering =>
    case Business =>
    case Arts =>
    case Health =>
    case Language =>
    case Education =>
    case Law =>
    case PublicPolicy =>
    case Communication =>
    case Humanities =>
    case Social =>
    case General =>
  }

  lemma {:induction false} NoneStartsEmpty(ws: seq<string>)
    requires forall i :: 0 <= i < |ws| ==> ws[i] != []
    ensures !StartsWithAny([], ws)
  {
    if ws != [] {
      NoneStartsEmpty(ws[1..]);
    }
  }

  lemma {:induction false} NoneContainedInEmpty(ws: seq<string>)
    requires forall i :: 0 <= i < |ws| ==> ws[i] != []
    ensures !ContainsAny([], ws)
  {
    if ws != [] {
      NoneContainedInEmpty(ws[1..]);
    }
  }

  /** Lower-casing the code does not change the category: the code is upper-cased first. */
  lemma CodeCaseIgnored(code: string, name: string)
    ensures GetCourseCategory(Lower(code), name) == GetCourseCategory(code, name)
  {
    assert Upper(Lower(code)) == Upper(code);
  }

  /** Inserting whitespace anywhere in the code does not change the category: the code's
      whitespace is removed first. */
  lemma CodeSpaceIgnored(code: string, i: nat, w: char, name: string)
    requires i <= |code| && IsSpace(w)
    ensures GetCourseCategory(code[..i] + [w] + code[i..], name) == GetCourseCategory(code, name)
  {
    SpaceIgnored(code, i, w);
  }

  lemma SpaceIgnored(code: string, i: nat, w: char)
    requires i <= |code| && IsSpace(w)
    ensures RemoveSpaces(Upper(code[..i] + [w] + code[i..])) == RemoveSpaces(Upper(code))
  {
    var spaced := code[..i] + [w] + code[i..];
    var front := Upper(code[..i]);
    var back := Upper(code[i..]);
    assert Upper(spaced) == front + [w] + back;
    assert code == code[..i] + code[i..];
    assert Upper(code) == front + back;
    RemoveSpacesAppend(front + [w], back);
    RemoveSpacesAppend(front, [w]);
    RemoveSpacesAppend(front, back);
    assert RemoveSpaces([w]) == [];
  }

  // ---------------------------------------------------------------------------------------
  // Dominant category

  /** A course as the categoriser sees it. */
  datatype CourseRef = CourseRef(code: string, name: string)

  function CourseCategory(course: CourseRef): Category {
    GetCourseCategory(course.code, course.name)
  }

  /** The category of every course, in order. */
  function Categories(courses: seq<CourseRef>): (cats: seq<Category>)
    ensures |cats| == |courses|
  {
    CategoriesWith(courses, CourseCategory)
  }

  function CategoriesWith(courses: seq<CourseRef>, categorize: CourseRef -> Category): (cats: seq<Category>)
    ensures |cats| == |courses|
  {
    seq(|courses|, i requires 0 <= i < |courses| => categorize(courses[i]))
  }

  function Id(c: Category): Category { c }

  /** The categories in the order they are first seen, the iteration order of the counts map. */
  function FirstSeen(cats: seq<Category>): seq<Category> {
    DedupBy(cats, Id, {})
  }

  /** How often `c` occurs in `cats`. */
  function Count(cats: seq<Category>, c: Category): nat {
    if cats == [] then 0
    else Count(cats[..|cats| - 1], c) + (if cats[|cats| - 1] == c then 1 else 0)
  }

  /** A category is counted exactly when it occurs. */
  lemma {:induction false} CountPositive(cats: seq<Category>, c: Category)
    ensures Count(cats, c) > 0 <==> c in cats
  {
    if cats != [] {
      var init := cats[..|cats| - 1];
      CountPositive(init, c);
      assert cats == init + [cats[|cats| - 1]];
    }
  }

  /** The leader so far, with its count. */
  datatype Leader = Leader(top: Category, max: nat)

  /** The second loop of `getDominantCourseCategory`: over `order`, a category with a count
      strictly above the best so far, other than "general", becomes the leader. */
  function Pick(order: seq<Category>, cats: seq<Category>): Leader
    decreases |order|
  {
    if order == [] then Leader(General, 0)
    else
      var l := Pick(order[..|order| - 1], cats);
      var c := order[|order| - 1];
      if Count(cats, c) > l.max && c != General then Leader(c, Count(cats, c)) else l
  }

  /** `getDominantCourseCategory` as a function of the courses. */
  function Dominant(courses: seq<CourseRef>): Category {
    if courses == [] then General
    else
      var cats := Categories(courses);
      Pick(FirstSeen(cats), cats).top
  }

  /** The leader is "general" exactly when its count is 0; otherwise it is a category of `order`
      with that count. No category of `order` other than "general" counts more, and every one
      before the leader's position counts strictly less. `order` has no repetitions. */
  lemma {:induction false} PickProperties(order: seq<Category>, cats: seq<Category>)
    requires forall i, j :: 0 <= i < j < |order| ==> order[i] != order[j]
    ensures var l := Pick(order, cats);
            && (l.top == General <==> l.max == 0)
            && (l.top != General ==> l.top in order && l.max == Count(cats, l.top))
            && (forall k :: 0 <= k < |order| && order[k] != General ==> Count(cats, order[k]) <= l.max)
            && (forall k, t :: 0 <= k < t < |order| && order[t] == l.top && l.top != General && order[k] != General
                  ==> Count(cats, order[k]) < l.max)
  {
    if order != [] {
      var init := order[..|order| - 1];
      PickProperties(init, cats);
      var l := Pick(init, cats);
      var c := order[|order| - 1];
      assert forall k :: 0 <= k < |init| ==> order[k] == init[k];
      if Count(cats, c) > l.max && c != General {
        forall k | 0 <= k < |order| && order[k] != General && order[k] != c
          ensures Count(cats, order[k]) < Count(cats, c)
        {
          assert k < |init| && init[k] == order[k];
        }
      } else {
        if l.top != General {
          assert l.top in init;
        }
      }
    }
  }

  /** `getDominantCourseCategory`: the first loop counts the categories in a map whose keys keep
      the order of first insertion, the second keeps the first strictly largest non-general
      count. */
  method GetDominantCourseCategory(courses: seq<CourseRef>) returns (top: Category)
    ensures top == Dominant(courses)
  {
    if |courses| == 0 {
      return General;
    }
    var counts, keys := CountCategories(courses, CourseCategory);
    top := PickLeader(keys, counts, Categories(courses));
  }

  /** The counting loop: `counts` maps every category met to its number of courses, and its
      keys in insertion order are `keys`. */
  method CountCategories(courses: seq<CourseRef>, categorize: CourseRef -> Category)
    returns (counts: map<Category, nat>, keys: seq<Category>)
    ensures keys == FirstSeen(CategoriesWith(courses, categorize))
    ensures forall c :: c in counts <==> c in CategoriesWith(courses, categorize)
    ensures forall c :: c in counts ==> counts[c] == Count(CategoriesWith(courses, categorize), c)
  {
    ghost var cats := CategoriesWith(courses, categorize);
    counts := map[];
    keys := [];
    var i := 0;
    while i < |courses|
      invariant 0 <= i <= |courses|
      invariant keys == FirstSeen(cats[..i])
      invariant forall c :: c in counts <==> c in cats[..i]
      invariant forall c :: c in counts ==> counts[c] == Count(cats[..i], c)
    {
      var category := categorize(courses[i]);
      assert cats[..i + 1] == cats[..i] + [category];
      assert cats[..i + 1][..i] == cats[..i];
      assert forall c :: Count(cats[..i + 1], c) == Count(cats[..i], c) + (if c == category then 1 else 0);
      FirstSeenSnoc(cats[..i], category);
      CountPositive(cats[..i], category);
      if category !in counts {
        keys := keys + [category];
      }
      counts := counts[category := (if category in counts then counts[category] else 0) + 1];
      i := i + 1;
    }
    assert cats[..i] == cats;
  }

  /** The second loop: the first strictly largest non-general count wins. */
  method PickLeader(keys: seq<Category>, counts: map<Category, nat>, ghost cats: seq<Category>)
    returns (top: Category)
    requires forall j :: 0 <= j < |keys| ==> keys[j] in counts
    requires forall c :: c in counts ==> counts[c] == Count(cats, c)
    ensures top == Pick(keys, cats).top
  {
    top := General;
    var max := 0;
    var j := 0;
    while j < |keys|
      invariant 0 <= j <= |keys|
      invariant Leader(top, max) == Pick(keys[..j], cats)
    {
      var category := keys[j];
      assert keys[..j + 1][..j] == keys[..j];
      if counts[category] > max && category != General {
        max := counts[category];
        top := category;
      }
      j := j + 1;
    }
    assert keys[..j] == keys;
  }

  /** A category seen for the first time is appended to the order; a repeated one is not. */
  lemma FirstSeenSnoc(cats: seq<Category>, x: Category)
    ensures FirstSeen(cats + [x]) == FirstSeen(cats) + (if x in cats then [] else [x])
  {
    DedupSnoc(cats, x, Id, {});
    if x in cats {
      var i :| 0 <= i < |cats| && cats[i] == x;
      assert Id(cats[i]) in KeySet(cats, Id);
    }
  }

  /** Every category counted has a place in the first-seen order. */
  lemma FirstSeenIndex(cats: seq<Category>, c: Category) returns (k: nat)
    requires c in cats
    ensures k < |FirstSeen(cats)| && FirstSeen(cats)[k] == c
  {
    DedupKeySet(cats, Id, {});
    var i :| 0 <= i < |cats| && cats[i] == c;
    assert Id(cats[i]) in KeySet(cats, Id);
    assert c in KeySet(FirstSeen(cats), Id);
    k :| 0 <= k < |FirstSeen(cats)| && Id(FirstSeen(cats)[k]) == c;
  }

  /** The dominant category of no courses is "general". It is "general" exactly when every
      course is general; otherwise it occurs among the courses, no other non-general category
      occurs more often, and of those occurring as often it is the one seen first: every prefix
      of the course list that contains a rival also contains it. */
  lemma DominantProperties(courses: seq<CourseRef>)
    ensures courses == [] ==> Dominant(courses) == General
    ensures var r := Dominant(courses);
            var cats := Categories(courses);
            && (r == General <==> forall c :: c in cats ==> c == General)
            && (r != General ==> r in cats)
            && (r != General ==> forall c :: c != General ==> Count(cats, c) <= Count(cats, r))
            && (r != General ==>
                  forall c, i :: (c != General && c != r && Count(cats, c) == Count(cats, r)
                                  && 0 <= i <= |cats| && c in cats[..i]) ==> r in cats[..i])
  {
    var cats := Categories(courses);
    if courses != [] {
      var l := Pick(FirstSeen(cats), cats);
      LeaderGeneralIff(cats, l);
      if l.top != General {
        LeaderMaximal(cats, l);
        forall c, i | c != General && c != l.top && Count(cats, c) == Count(cats, l.top)
                      && 0 <= i <= |cats| && c in cats[..i]
          ensures l.top in cats[..i]
        {
          RivalAfterLeader(cats, c, i, l);
        }
      }
    }
  }

  /** The leader is "general" exactly when every category counted is. */
  lemma LeaderGeneralIff(cats: seq<Category>, l: Leader)
    requires l == Pick(FirstSeen(cats), cats)
    ensures l.top == General <==> forall c :: c in cats ==> c == General
  {
    forall c | c in cats && c != General ensures l.top != General {
      NonGeneralLeads(cats, l, c);
    }
    if forall c :: c in cats ==> c == General {
      if l.top != General {
        LeaderMaximal(cats, l);
      }
    }
  }

  /** A non-general category that occurs makes the leader non-general. */
  lemma NonGeneralLeads(cats: seq<Category>, l: Leader, c: Category)
    requires l == Pick(FirstSeen(cats), cats)
    requires c in cats && c != General
    ensures l.top != General
  {
    var k := FirstSeenIndex(cats, c);
    CountPositive(cats, c);
    PickProperties(FirstSeen(cats), cats);
    assert Count(cats, FirstSeen(cats)[k]) <= l.max;
  }

  /** A non-general leader occurs, and no non-general category counts more. */
  lemma LeaderMaximal(cats: seq<Category>, l: Leader)
    requires l == Pick(FirstSeen(cats), cats) && l.top != General
    ensures l.top in cats && l.max == Count(cats, l.top)
    ensures forall c :: c != General ==> Count(cats, c) <= l.max
  {
    var order := FirstSeen(cats);
    PickProperties(order, cats);
    forall c | c != General ensures Count(cats, c) <= l.max {
      CountPositive(cats, c);
      if c in cats {
        var k := FirstSeenIndex(cats, c);
        assert Count(cats, order[k]) <= l.max;
      }
    }
  }

  lemma RivalAfterLeader(cats: seq<Category>, c: Category, i: nat, l: Leader)
    requires l == Pick(FirstSeen(cats), cats) && l.top != General
    requires c != General && c != l.top && Count(cats, c) == l.max
    requires i <= |cats| && c in cats[..i]
    ensures l.top in cats[..i]
  {
    assert c in cats;
    var t, k := LeaderBeforeRival(cats, c, l);
    FirstSeenPrefixClosed(cats, i, t, k);
  }

  /** A rival with the leader's count comes after the leader in the first-seen order. */
  lemma LeaderBeforeRival(cats: seq<Category>, c: Category, l: Leader) returns (t: nat, k: nat)
    requires l == Pick(FirstSeen(cats), cats) && l.top != General
    requires c != General && c != l.top && Count(cats, c) == l.max && c in cats
    ensures t < k < |FirstSeen(cats)| && FirstSeen(cats)[k] == c && FirstSeen(cats)[t] == l.top
  {
    var order := FirstSeen(cats);
    PickProperties(order, cats);
    k := FirstSeenIndex(cats, c);
    t := FirstSeenIndex(cats, l.top);
    assert t != k;
  }

  /** Whatever a prefix of the input contains of the first-seen order, it contains all of the
      order's earlier elements too. */
  lemma FirstSeenPrefixClosed(cats: seq<Category>, i: nat, t: nat, k: nat)
    requires i <= |cats| && t < k < |FirstSeen(cats)| && FirstSeen(cats)[k] in cats[..i]
    ensures FirstSeen(cats)[t] in cats[..i]
  {
    DedupPrefix(cats, i, Id, {});
    var prefix := FirstSeen(cats[..i]);
    var m := FirstSeenIndex(cats[..i], FirstSeen(cats)[k]);
    assert m == k;
    assert prefix[t] == FirstSeen(cats)[t];
  }
}
