/** scripts/fetch-proleague.ts: the Jupiler Pro League calendar page embeds
    its fixtures as JSON in a `__NEXT_DATA__` script; the script reads the
    matches of the first module of the first area of the first grid, turns
    each into a record whose kickoff is the UTC instant shifted to Tokyo time,
    and `main` saves those within a day before and a week after now. */
module FetchProLeague {
  import opened Types
  import opened JsString
  import opened EcmaDate
  import opened Kickoff
  import FetchMatches

  const CompetitionName: string := "Jupiler Pro League"

  // --------------------------------------------------------- team names

  /** `name.trim().replace(/\s+/g, ' ')`. */
  function NormalizeTeamName(name: string): (r: string)
    ensures NoEdgeSpace(r) && SingleSpaced(r)
    ensures NonSpace(r) == NonSpace(name)
  {
    CollapseKeepsEdges(Trim(name));
    TrimKeepsNonSpace(name);
    Collapse(Trim(name))
  }

  /** Normalizing a normalized name changes nothing. */
  lemma NormalizeTeamNameIdempotent(name: string)
    ensures NormalizeTeamName(NormalizeTeamName(name)) == NormalizeTeamName(name)
  {
    var n := NormalizeTeamName(name);
    TrimOfTrimmed(n);
    CollapseOfSingleSpaced(n);
  }

  /** Two words with a run of white space between them come out joined by
      one ASCII space. */
  lemma NormalizeTeamNameJoin(x: string, w: string, y: string)
    requires x != [] && y != [] && NoEdgeSpace(x) && NoEdgeSpace(y)
    requires w != [] && AllSpace(w)
    ensures NormalizeTeamName(x + w + y) == NormalizeTeamName(x) + " " + NormalizeTeamName(y)
  {
    var s := x + w + y;
    assert s[0] == x[0] && s[|s| - 1] == y[|y| - 1];
    TrimOfTrimmed(s);
    TrimOfTrimmed(x);
    TrimOfTrimmed(y);
    CollapseJoin(x, w, y);
  }

  /** White space around a name is dropped. */
  lemma NormalizeTeamNamePadded(w1: string, x: string, w2: string)
    requires AllSpace(w1) && AllSpace(w2) && NoEdgeSpace(x)
    ensures NormalizeTeamName(w1 + x + w2) == NormalizeTeamName(x)
  {
    TrimPadded(w1, x, w2);
    TrimOfTrimmed(x);
  }

  /** A word without white space is kept as it is. */
  lemma NormalizeTeamNameWord(x: string)
    requires forall i :: 0 <= i < |x| ==> !IsSpace(x[i])
    ensures NormalizeTeamName(x) == x
  {
    TrimOfTrimmed(x);
    CollapseOfSingleSpaced(x);
  }

  // ------------------------------------------------------------ kickoff

  /** utcToJstStorage: `new Date(new Date(utcIso).getTime() + 9h).toISOString()`;
      None where toISOString throws on an Invalid Date. */
  function UtcToJstStorage(utcIso: string): Option<string> {
    ToIsoString(AddTime(ParseDate(utcIso), JstOffset))
  }

  /** The stored text, read back as UTC, is the API instant nine hours later,
      whenever the Tokyo wall clock falls in the years 0 to 9999. */
  lemma UtcToJstStorageShifts(utcIso: string, t0: int)
    requires ParseDate(utcIso) == Time(t0)
    requires 0 <= FieldsOf(t0 + JstOffset).year <= 9999
    ensures UtcToJstStorage(utcIso).Some?
    ensures ParseIso(UtcToJstStorage(utcIso).value) == Some(t0 + JstOffset)
  {
    var t := t0 + JstOffset;
    FourDigitYearInRange(t);
    assert AddTime(Time(t0), JstOffset) == Time(t);
    IsoRoundTrip(t);
  }

  /** An unreadable kickoff makes toISOString throw. */
  lemma UtcToJstStorageInvalid(utcIso: string)
    requires ParseIso(utcIso).None?
    ensures UtcToJstStorage(utcIso).None?
  {
  }

  /** When the Tokyo wall clock falls in the years 1 to 9999, this script
      stores the same text as the football-data.org script's convertToJST. */
  lemma UtcToJstStorageAgrees(utcIso: string, t0: int)
    requires ParseDate(utcIso) == Time(t0)
    requires 1 <= FieldsOf(t0 + JstOffset).year <= 9999
    ensures UtcToJstStorage(utcIso) == FetchMatches.ConvertToJST(utcIso)
  {
    var t := t0 + JstOffset;
    FourDigitYearInRange(t);
    assert AddTime(Time(t0), JstOffset) == Time(t);
    FormatLocalIsIso(t);
  }

  // -------------------------------------------------------- page data

  /** `{ name?: string }` of a team. */
  datatype TeamRef = TeamRef(name: Option<string>)

  /** `{ type?: string }` of a match period. */
  datatype Period = Period(periodType: Option<string>)

  /** One entry of `module.data.matches`. */
  datatype RawMatch = RawMatch(homeTeam: Option<TeamRef>, awayTeam: Option<TeamRef>,
                               date: Option<string>, time: Option<string>, period: Option<Period>)

  datatype ModuleData = ModuleData(matches: Option<seq<RawMatch>>)
  datatype PageModule = PageModule(data: Option<ModuleData>)
  datatype Area = Area(modules: Option<seq<PageModule>>)
  datatype Grid = Grid(areas: Option<seq<Area>>)

  /** The parsed `__NEXT_DATA__`; `grids` is None when any object on the way
      `props.pageProps.data.page.grids` is missing. */
  datatype NextData = NextData(grids: Option<seq<Grid>>)

  /** `xs?.[0]`. */
  function First<T>(xs: Option<seq<T>>): (r: Option<T>)
    ensures r.Some? <==> xs.Some? && |xs.value| > 0
    ensures r.Some? ==> r.value == xs.value[0]
  {
    if xs.Some? && |xs.value| > 0 then Some(xs.value[0]) else None
  }

  /** `grids?.[0]?.areas?.[0]?.modules?.[0]?.data`. */
  function ModuleDataOf(page: NextData): Option<ModuleData> {
    match First(page.grids)
    case None => None
    case Some(g) =>
      match First(g.areas)
      case None => None
      case Some(a) =>
        match First(a.modules)
        case None => None
        case Some(pm) => pm.data
  }

  /** `moduleData?.matches ?? []`; a failed fetch (an HTTP error, no
      `__NEXT_DATA__` script, unparseable JSON) is `page == None`, which the
      catch turns into no matches. */
  function RawMatches(page: Option<NextData>): seq<RawMatch> {
    match page
    case None => []
    case Some(p) =>
      match ModuleDataOf(p)
      case None => []
      case Some(d) => d.matches.GetOr([])
  }

  /** Only the first grid, area and module are read: the matches come from
      there, whatever follows them. */
  lemma RawMatchesFromFirstModule(ms: seq<RawMatch>, pms: seq<PageModule>, areas: seq<Area>,
                                  grids: seq<Grid>)
    ensures RawMatches(Some(NextData(Some([Grid(Some([Area(Some([PageModule(Some(ModuleData(Some(ms))))] + pms))] + areas))] + grids))))
            == ms
  {
  }

  /** No grids, or an empty first grid, area or module list, gives no matches. */
  lemma RawMatchesMissingPath(page: NextData)
    requires First(page.grids).None?
             || First(First(page.grids).value.areas).None?
             || First(First(First(page.grids).value.areas).value.modules).None?
    ensures RawMatches(Some(page)) == []
  {
  }

  // ------------------------------------------------------------ records

  /** `m.homeTeam?.name ?? ''`. */
  function TeamName(t: Option<TeamRef>): string {
    match t
    case None => ""
    case Some(r) => r.name.GetOr("")
  }

  /** `m.time ?? m.date`: a present time, even an empty one, hides the date. */
  function TimeText(m: RawMatch): Option<string> {
    if m.time.Some? then m.time else m.date
  }

  /** `!home || !away || !timeStr`. */
  predicate Incomplete(m: RawMatch) {
    TeamName(m.homeTeam) == "" || TeamName(m.awayTeam) == "" || TimeText(m).GetOr("") == ""
  }

  /** `m.period?.type === 'FullTime' ? 'FINISHED' : 'TIMED'`. */
  function StatusOf(p: Option<Period>): string {
    if p.Some? && p.value.periodType == Some("FullTime") then "FINISHED" else "TIMED"
  }

  /** `proleague-${i}-${Date.now()}`. */
  function ProLeagueId(i: nat, now: int): string {
    "proleague-" + IntToString(i) + "-" + IntToString(now)
  }

  /** Both ids start with "proleague-" followed by the position in the list. */
  lemma ProLeagueIdIndex(i: nat, now: int)
    ensures |ProLeagueId(i, now)| > 10 && ProLeagueId(i, now)[..10] == "proleague-"
    ensures ParseInt10(ProLeagueId(i, now)[10..]) == Some(i)
  {
    assert ProLeagueId(i, now) == "proleague-" + IntToString(i) + ("-" + IntToString(now));
    PrefixedIntReadsBack("proleague-", i, "-" + IntToString(now));
  }

  /** One pass of the loop over the raw matches: skip an incomplete entry,
      throw out of the loop when the kickoff has no ISO text, else push the
      record. `clock(i)` is the pair of `Date.now()` readings taken for the
      entry at position i, one for `id` and one for `api_match_id`. */
  function RawStep(i: nat, m: RawMatch, clock: nat -> (int, int)): Step<Match> {
    if Incomplete(m) then Skip
    else
      match UtcToJstStorage(TimeText(m).value)
      case None => Abort
      case Some(kickoff) => Push(RecordOf(i, m, clock(i), kickoff))
  }

  /** The object pushed for the entry at position i. */
  function RecordOf(i: nat, m: RawMatch, now: (int, int), kickoff: string): Match {
    Match(ProLeagueId(i, now.0), ProLeagueId(i, now.1), CompetitionName, None, None,
          kickoff, NormalizeTeamName(TeamName(m.homeTeam)), NormalizeTeamName(TeamName(m.awayTeam)),
          None, None, false, Some(StatusOf(m.period)))
  }

  function RawStepAt(clock: nat -> (int, int)): ((nat, RawMatch)) -> Step<Match> {
    (p: (nat, RawMatch)) => RawStep(p.0, p.1, clock)
  }

  /** An entry is skipped iff a team name or the kickoff text is missing or
      empty, and throws iff it is complete and its kickoff yields no ISO
      text; a pushed record is the one built from the converted kickoff. */
  lemma RawStepCases(i: nat, m: RawMatch, clock: nat -> (int, int))
    ensures RawStep(i, m, clock).Skip? <==> Incomplete(m)
    ensures RawStep(i, m, clock).Abort? <==> !Incomplete(m) && UtcToJstStorage(TimeText(m).value).None?
    ensures RawStep(i, m, clock).Push?
            ==> RawStep(i, m, clock).value == RecordOf(i, m, clock(i), UtcToJstStorage(TimeText(m).value).value)
  {
  }

  /** A complete entry whose kickoff text cannot be read throws. */
  lemma RawStepThrowsOnUnreadable(i: nat, m: RawMatch, clock: nat -> (int, int))
    requires !Incomplete(m) && ParseIso(TimeText(m).value).None?
    ensures RawStep(i, m, clock).Abort?
  {
    UtcToJstStorageInvalid(TimeText(m).value);
    RawStepCases(i, m, clock);
  }

  /** A complete entry whose Tokyo wall clock falls in the years 0 to 9999 is
      pushed, and its stored kickoff reads back as the API instant nine hours
      later. */
  lemma RawStepPushesInRange(i: nat, m: RawMatch, clock: nat -> (int, int), t0: int)
    requires !Incomplete(m) && ParseIso(TimeText(m).value) == Some(t0)
    requires 0 <= FieldsOf(t0 + JstOffset).year <= 9999
    ensures RawStep(i, m, clock).Push?
    ensures ParseIso(RawStep(i, m, clock).value.kickoff) == Some(t0 + JstOffset)
  {
    UtcToJstStorageShifts(TimeText(m).value, t0);
    RawStepCases(i, m, clock);
  }

  /** A pushed record is a 'Jupiler Pro League' record without round, ids or
      Japanese-player flag; its teams are the normalized names, its status
      says whether the period is 'FullTime', and its ids carry its position
      and the clock readings. */
  lemma RawStepFields(i: nat, m: RawMatch, clock: nat -> (int, int), r: Match)
    requires RawStep(i, m, clock) == Push(r)
    ensures r.competition == CompetitionName && r.competitionId.None? && r.round.None?
    ensures r.homeTeamId.None? && r.awayTeamId.None? && !r.hasJapanesePlayer
    ensures r.homeTeam == NormalizeTeamName(TeamName(m.homeTeam))
    ensures r.awayTeam == NormalizeTeamName(TeamName(m.awayTeam))
    ensures r.status == Some("FINISHED") <==> m.period.Some? && m.period.value.periodType == Some("FullTime")
    ensures r.status == Some("FINISHED") || r.status == Some("TIMED")
    ensures r.id == ProLeagueId(i, clock(i).0) && r.apiMatchId == ProLeagueId(i, clock(i).1)
  {
    RawStepCases(i, m, clock);
  }

  // -------------------------------------------------------------- fetch

  /** What fetchProLeagueMatches returns: the loop's records, or [] once an
      entry throws, since the catch around the whole function discards the
      records pushed before it. */
  function FetchedRecords(page: Option<NextData>, clock: nat -> (int, int)): seq<Match> {
    CollectUnlessAbort(Indexed(RawMatches(page)), RawStepAt(clock)).GetOr([])
  }

  /** fetchProLeagueMatches: the loop over the raw matches. */
  method FetchProLeagueMatches(page: Option<NextData>, clock: nat -> (int, int)) returns (matches: seq<Match>)
    ensures matches == FetchedRecords(page, clock)
  {
    var rawMatches := RawMatches(page);
    if |rawMatches| == 0 {
      return [];
    }
    var collected := CollectIndexedUnlessAbort(rawMatches, RawStepAt(clock));
    matches := collected.GetOr([]);
  }

  /** One entry that throws empties the whole result; otherwise a record is
      fetched iff the entry at some position pushes it. */
  lemma FetchedRecordsSpec(page: Option<NextData>, clock: nat -> (int, int), m: Match)
    ensures var raws := RawMatches(page);
      && ((exists i :: 0 <= i < |raws| && RawStep(i, raws[i], clock).Abort?) ==> FetchedRecords(page, clock) == [])
      && (!(exists i :: 0 <= i < |raws| && RawStep(i, raws[i], clock).Abort?)
          ==> (m in FetchedRecords(page, clock) <==> exists i :: 0 <= i < |raws| && RawStep(i, raws[i], clock) == Push(m)))
  {
    var raws := RawMatches(page);
    var f := RawStepAt(clock);
    CollectIndexedUnlessAbortSpec(raws, f, m);
    assert forall i :: 0 <= i < |raws| ==> f((i, raws[i])) == RawStep(i, raws[i], clock);
  }

  /** When no entry throws, the records follow the order of the raw
      matches: the p-th record is pushed by the p-th pushing entry, those
      entries increase, and every pushing entry is among them. */
  lemma FetchedRecordsOrder(page: Option<NextData>, clock: nat -> (int, int))
    ensures var raws := RawMatches(page);
      !(exists i :: 0 <= i < |raws| && RawStep(i, raws[i], clock).Abort?) ==>
      var r, k := FetchedRecords(page, clock), Kept(Indexed(raws), Pushed(RawStepAt(clock)));
      && |k| == |r|
      && (forall p :: 0 <= p < |k| ==> k[p] < |raws| && RawStep(k[p], raws[k[p]], clock) == Push(r[p]))
      && (forall p, q :: 0 <= p < q < |k| ==> k[p] < k[q])
      && (forall i :: 0 <= i < |raws| && RawStep(i, raws[i], clock).Push? ==> i in k)
  {
    var raws := RawMatches(page);
    var f := RawStepAt(clock);
    assert forall i :: 0 <= i < |raws| ==> f((i, raws[i])) == RawStep(i, raws[i], clock);
    if !(exists i :: 0 <= i < |raws| && RawStep(i, raws[i], clock).Abort?) {
      CollectIndexedUnlessAbortOrder(raws, f);
    }
  }

  /** At most one record per entry, each a Pro League record not flagged as
      having Japanese players (fetch-matches.ts recomputes that flag). */
  lemma FetchedRecordsShape(page: Option<NextData>, clock: nat -> (int, int))
    ensures |FetchedRecords(page, clock)| <= |RawMatches(page)|
    ensures forall m :: m in FetchedRecords(page, clock) ==> m.competition == CompetitionName && !m.hasJapanesePlayer
  {
    var raws := RawMatches(page);
    CollectUnlessAbortSpec(Indexed(raws), RawStepAt(clock));
    forall m | m in FetchedRecords(page, clock)
      ensures m.competition == CompetitionName && !m.hasJapanesePlayer
    {
      FetchedRecordsSpec(page, clock, m);
      var i :| 0 <= i < |raws| && RawStep(i, raws[i], clock) == Push(m);
      RawStepFields(i, raws[i], clock, m);
    }
  }

  // --------------------------------------------------------------- main

  /** What `main` writes to matches.proleague.json: the fetched records whose
      kickoff lies between a day before `now` and a week after it, in fetched
      order; None when there are none and nothing is written. */
  method SaveProLeagueMatches(page: Option<NextData>, clock: nat -> (int, int), now: int)
    returns (written: Option<seq<Match>>)
    ensures written == NonEmpty(Filter(FetchedRecords(page, clock), InWindowTest(DayBefore(now), DaysAfter(now, 7))))
  {
    var all := FetchProLeagueMatches(page, clock);
    var filtered := Filter(all, InWindowTest(DayBefore(now), DaysAfter(now, 7)));
    if |filtered| > 0 {
      written := Some(filtered);
    } else {
      written := None;
    }
  }

  /** A file is written iff some fetched record lies in the window, and it
      holds exactly the fetched records in the window. */
  lemma SavedProLeagueMatches(page: Option<NextData>, clock: nat -> (int, int), now: int, m: Match)
    ensures var all := FetchedRecords(page, clock);
      var w := Filter(all, InWindowTest(DayBefore(now), DaysAfter(now, 7)));
      && (NonEmpty(w).Some? <==> exists x :: x in all && InWindow(x, DayBefore(now), DaysAfter(now, 7)))
      && (m in w <==> m in all && InWindow(m, DayBefore(now), DaysAfter(now, 7)))
  {
    var w := Filter(FetchedRecords(page, clock), InWindowTest(DayBefore(now), DaysAfter(now, 7)));
    if w != [] {
      assert w[0] in w;
    }
  }
}
