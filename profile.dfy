/**
 * The statistics on the profile page (`src/pages/Profile.tsx`): the signed-in user's saved
 * plans are counted and their totals summed, per track as well.
 */
module Profile {
  import opened Wrappers
  import opened Collections

  /** A saved plan as the statistics read it; missing totals are 0. */
  datatype SavedPlan = SavedPlan(userId: string, track: string, totalCredits: real, totalCourses: real)

  datatype Stats = Stats(totalPlans: nat, totalCredits: real, totalCourses: real,
                         highSchoolPlans: nat, universityPlans: nat, mastersPlans: nat)

  /** The statistics shown before any are loaded. */
  const InitialStats := Stats(0, 0.0, 0.0, 0, 0, 0)

  function OwnedBy(userId: string): SavedPlan -> bool {
    (p: SavedPlan) => p.userId == userId
  }

  function OnTrack(track: string): SavedPlan -> bool {
    (p: SavedPlan) => p.track == track
  }

  function OwnedOnTrack(userId: string, track: string): SavedPlan -> bool {
    (p: SavedPlan) => p.userId == userId && p.track == track
  }

  function Credits(p: SavedPlan): real { p.totalCredits }

  function Courses(p: SavedPlan): real { p.totalCourses }

  /** The statistics of the user's plans. */
  function StatsOf(mine: seq<SavedPlan>): Stats {
    Stats(|mine|, SumOf(mine, Credits), SumOf(mine, Courses),
          |Filter(mine, OnTrack("high-school"))|, |Filter(mine, OnTrack("university"))|,
          |Filter(mine, OnTrack("masters"))|)
  }

  /** `loadUserStats`: the statistics of the user's stored plans, or the previous ones when
      the stored list does not parse (`None`); nothing stored reads as the empty list. */
  function LoadUserStats(stored: Option<seq<SavedPlan>>, userId: string, previous: Stats): (r: Stats)
    ensures stored.None? ==> r == previous
    ensures stored.Some? ==> r.totalPlans <= |stored.value|
    ensures stored == Some([]) ==> r == InitialStats
  {
    if stored.None? then previous else StatsOf(Filter(stored.value, OwnedBy(userId)))
  }

  /** The plan count is the number of stored plans of the user, and each track count the
      number of stored plans of the user on that track. */
  lemma Counts(stored: seq<SavedPlan>, userId: string, previous: Stats)
    ensures var r := LoadUserStats(Some(stored), userId, previous);
            && r.totalPlans == |Positions(stored, OwnedBy(userId), |stored|)|
            && r.highSchoolPlans == CountOnTrack(stored, userId, "high-school")
            && r.universityPlans == CountOnTrack(stored, userId, "university")
            && r.mastersPlans == CountOnTrack(stored, userId, "masters")
  {
    FilterCount(stored, OwnedBy(userId));
    TrackCount(stored, userId, "high-school");
    TrackCount(stored, userId, "university");
    TrackCount(stored, userId, "masters");
  }

  /** The number of stored plans of the user on the track. */
  function CountOnTrack(stored: seq<SavedPlan>, userId: string, track: string): nat {
    |Positions(stored, OwnedOnTrack(userId, track), |stored|)|
  }

  lemma TrackCount(stored: seq<SavedPlan>, userId: string, track: string)
    ensures |Filter(Filter(stored, OwnedBy(userId)), OnTrack(track))| == CountOnTrack(stored, userId, track)
  {
    FilterFilter(stored, OwnedBy(userId), OnTrack(track), OwnedOnTrack(userId, track));
    FilterCount(stored, OwnedOnTrack(userId, track));
  }

  /** The three track counts together never exceed the number of plans. */
  lemma {:induction false} TrackCountsBounded(mine: seq<SavedPlan>)
    ensures var s := StatsOf(mine);
            s.highSchoolPlans + s.universityPlans + s.mastersPlans <= s.totalPlans
    decreases |mine|
  {
    if mine != [] {
      TrackCountsBounded(mine[..|mine| - 1]);
    }
  }

  /** Other users' plans, wherever they are stored, change nothing. */
  lemma OthersIgnored(before: seq<SavedPlan>, others: seq<SavedPlan>, after: seq<SavedPlan>, userId: string,
                      previous: Stats)
    requires forall i :: 0 <= i < |others| ==> others[i].userId != userId
    ensures LoadUserStats(Some(before + others + after), userId, previous)
            == LoadUserStats(Some(before + after), userId, previous)
  {
    var keep := OwnedBy(userId);
    var bo := before + others;
    assert Filter(bo, keep) == Filter(before, keep) by {
      FilterAppend(before, others, keep);
      FilterDropsAll(others, keep);
    }
    assert Filter(bo + after, keep) == Filter(before + after, keep) by {
      FilterAppend(bo, after, keep);
      FilterAppend(before, after, keep);
    }
  }

  /** Adding one of the user's plans adds one plan, its totals, and one to its track's
      count. */
  lemma AddPlan(stored: seq<SavedPlan>, p: SavedPlan, previous: Stats)
    ensures var s := LoadUserStats(Some(stored), p.userId, previous);
            var t := LoadUserStats(Some(stored + [p]), p.userId, previous);
            && t.totalPlans == s.totalPlans + 1
            && t.totalCredits == s.totalCredits + p.totalCredits
            && t.totalCourses == s.totalCourses + p.totalCourses
            && t.highSchoolPlans == s.highSchoolPlans + (if p.track == "high-school" then 1 else 0)
            && t.universityPlans == s.universityPlans + (if p.track == "university" then 1 else 0)
            && t.mastersPlans == s.mastersPlans + (if p.track == "masters" then 1 else 0)
  {
    var mine := Filter(stored, OwnedBy(p.userId));
    assert (stored + [p])[..|stored|] == stored;
    assert Filter(stored + [p], OwnedBy(p.userId)) == mine + [p];
    assert (mine + [p])[..|mine|] == mine;
  }
}
