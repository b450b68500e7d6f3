/** scripts/merge-jleague.ts: replace the 'J.League' records of
    matches.json by the fresh ones of matches.jleague.json that lie between a
    day before now and three weeks after it, and write the list back sorted
    by kickoff. */
module MergeJLeague {
  import opened Types
  import opened Kickoff
  import FetchJLeague

  const JLeagueName: string := "J.League"

  /** The run's effect: an exit before anything is written when a file is
      missing, or the list written to matches.json. */
  datatype MergeOutcome = MatchesFileMissing | JLeagueFileMissing | Written(matches: seq<Match>)

  predicate IsJLeague(m: Match) { m.competition == JLeagueName }

  function JLeagueTest(): Match -> bool { m => IsJLeague(m) }

  /** `m => m.competition_name !== 'J.League'`. */
  function OtherTest(): Match -> bool { m => !IsJLeague(m) }

  /** `filteredJLeague`: the fresh records between `subDays(now, 1)` and
      `addDays(now, 21)`, both included. */
  function FreshInWindow(jleague: seq<Match>, now: int): seq<Match> {
    Filter(jleague, InWindowTest(DayBefore(now), DaysAfter(now, 21)))
  }

  /** `[...matchesWithoutJLeague, ...filteredJLeague]`. */
  function Combined(matches: seq<Match>, jleague: seq<Match>, now: int): seq<Match> {
    Filter(matches, OtherTest()) + FreshInWindow(jleague, now)
  }

  /** The outcome of a run at instant `now` on the two files (None: missing). */
  function Merged(matchesFile: Option<seq<Match>>, jleagueFile: Option<seq<Match>>, now: int): MergeOutcome {
    match matchesFile
    case None => MatchesFileMissing
    case Some(matches) =>
      match jleagueFile
      case None => JLeagueFileMissing
      case Some(jleague) => Written(SortByKickoff(Combined(matches, jleague, now)))
  }

  /** `main`: the two existence checks, the filters, the concatenation and
      the in-place sort of the combined array. */
  method MergeJLeagueMatches(matchesFile: Option<seq<Match>>, jleagueFile: Option<seq<Match>>, now: int)
    returns (outcome: MergeOutcome)
    ensures outcome == Merged(matchesFile, jleagueFile, now)
  {
    if matchesFile.None? {
      return MatchesFileMissing;
    }
    var matches := matchesFile.value;
    if jleagueFile.None? {
      return JLeagueFileMissing;
    }
    var jleagueData := jleagueFile.value;
    var filteredJLeague := Filter(jleagueData, InWindowTest(DayBefore(now), DaysAfter(now, 21)));
    var matchesWithoutJLeague := Filter(matches, OtherTest());
    var allMatches := matchesWithoutJLeague + filteredJLeague;
    allMatches := SortedCopy(allMatches, SortKey);
    outcome := Written(allMatches);
  }

  /** Nothing is written unless both files exist; matches.json is checked
      first. */
  lemma MergeNeedsBothFiles(matchesFile: Option<seq<Match>>, jleagueFile: Option<seq<Match>>, now: int)
    ensures Merged(matchesFile, jleagueFile, now).Written? <==> matchesFile.Some? && jleagueFile.Some?
    ensures matchesFile.None? ==> Merged(matchesFile, jleagueFile, now) == MatchesFileMissing
    ensures matchesFile.Some? && jleagueFile.None? ==> Merged(matchesFile, jleagueFile, now) == JLeagueFileMissing
  {
  }

  /** The written list is sorted by kickoff and holds each existing
      non-'J.League' record and each fresh record in the window, each as
      often as before: existing non-'J.League' records are never
      window-filtered, and no other record is written. */
  lemma MergedContents(matches: seq<Match>, jleague: seq<Match>, now: int, m: Match)
    ensures var out := Merged(Some(matches), Some(jleague), now).matches;
      && SortedBy(out, SortKey)
      && multiset(out) == multiset(Filter(matches, OtherTest())) + multiset(FreshInWindow(jleague, now))
      && |out| == |Filter(matches, OtherTest())| + |FreshInWindow(jleague, now)|
      && multiset(Filter(matches, OtherTest())) <= multiset(out)
      && (m in out <==> (m in matches && !IsJLeague(m))
                        || (m in jleague && InWindow(m, DayBefore(now), DaysAfter(now, 21))))
  {
    SortConcatContents(Filter(matches, OtherTest()), FreshInWindow(jleague, now), SortKey, m);
  }

  /** The 'J.League' records written are exactly the fresh 'J.League'
      records in the window, as many of them as there are: no old 'J.League'
      record survives. */
  lemma MergedJLeagueCount(matches: seq<Match>, jleague: seq<Match>, now: int)
    ensures var out := Merged(Some(matches), Some(jleague), now).matches;
      && |Filter(out, JLeagueTest())| == |Filter(FreshInWindow(jleague, now), JLeagueTest())|
      && forall m :: m in out && IsJLeague(m) ==> m in jleague && InWindow(m, DayBefore(now), DaysAfter(now, 21))
  {
    var without := Filter(matches, OtherTest());
    var recent := FreshInWindow(jleague, now);
    SortConcatFilterCount(without, recent, SortKey, JLeagueTest());
    forall m | m in SortByKickoff(without + recent) && IsJLeague(m)
      ensures m in jleague && InWindow(m, DayBefore(now), DaysAfter(now, 21))
    {
      SortConcatContents(without, recent, SortKey, m);
    }
  }

  /** Running the merge again on the list it wrote, with the same J.League
      file and the same instant, writes the same list again, provided the
      J.League file holds only 'J.League' records (a fresh record of another
      competition in the window would be appended a second time). */
  lemma MergeIdempotent(matches: seq<Match>, jleague: seq<Match>, now: int)
    requires forall m :: m in jleague ==> IsJLeague(m)
    ensures var out := Merged(Some(matches), Some(jleague), now).matches;
            Merged(Some(out), Some(jleague), now) == Written(out)
  {
    var without := Filter(matches, OtherTest());
    var recent := FreshInWindow(jleague, now);
    SortConcatRefilter(without, recent, SortKey, OtherTest());
  }

  /** The J.League file that the J.League fetch writes holds only 'J.League'
      records, so merging it is idempotent. */
  lemma MergeOfFetchedJLeagueFileIdempotent(matches: seq<Match>, page: Option<seq<seq<FetchJLeague.Cell>>>,
                                            fetchNow: int, now: int)
    ensures var jleague := Filter(FetchJLeague.PageRecords(page), InWindowTest(DayBefore(fetchNow), DaysAfter(fetchNow, 7)));
      var out := Merged(Some(matches), Some(jleague), now).matches;
      Merged(Some(out), Some(jleague), now) == Written(out)
  {
    var jleague := Filter(FetchJLeague.PageRecords(page), InWindowTest(DayBefore(fetchNow), DaysAfter(fetchNow, 7)));
    FetchJLeague.PageRecordsShape(page);
    MergeIdempotent(matches, jleague, now);
  }
}
