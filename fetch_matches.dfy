/** scripts/fetch-matches.ts: the roster test, the UTC-to-JST kickoff
    conversion, the record built from each football-data.org match, and the
    fresh build of the combined fixture list (API leagues, then the cached
    J.League and Pro League files, sorted by kickoff). The HTTP requests are
    replaced by their responses, given as parameters. */
module FetchMatches {
  import opened Types
  import opened JsString
  import opened EcmaDate
  import opened Kickoff
  import opened JapaneseTeams

  /** `LEAGUE_IDS`, in the order its entries are written and visited. */
  const LeagueIds: seq<(string, int)> := [
    ("UEFA Champions League", 2001),
    ("Primeira Liga", 2017),
    ("Premier League", 2021),
    ("Eredivisie", 2003),
    ("Bundesliga", 2002),
    ("Ligue 1", 2015),
    ("Serie A", 2019),
    ("La Liga", 2014),
    ("Championship", 2016),
    ("World Cup", 2000)
  ]

  const ProLeagueName: string := "Jupiler Pro League"

  // ------------------------------------------------------- roster test

  /** `patterns.some(team => name.includes(team) || team.includes(name))`. */
  predicate SomePatternMatches(patterns: seq<string>, name: string) {
    patterns != []
    && (Contains(name, patterns[0]) || Contains(patterns[0], name)
        || SomePatternMatches(patterns[1..], name))
  }

  lemma {:induction false} SomePatternMatchesIff(patterns: seq<string>, name: string)
    ensures SomePatternMatches(patterns, name)
            <==> exists i :: 0 <= i < |patterns| && (Contains(name, patterns[i]) || Contains(patterns[i], name))
  {
    if patterns != [] {
      SomePatternMatchesIff(patterns[1..], name);
      if SomePatternMatches(patterns[1..], name) {
        var i :| 0 <= i < |patterns[1..]| && (Contains(name, patterns[1..][i]) || Contains(patterns[1..][i], name));
        assert patterns[i + 1] == patterns[1..][i];
      }
      if exists i :: 0 <= i < |patterns| && (Contains(name, patterns[i]) || Contains(patterns[i], name)) {
        var i :| 0 <= i < |patterns| && (Contains(name, patterns[i]) || Contains(patterns[i], name));
        if i > 0 {
          assert patterns[1..][i - 1] == patterns[i];
        }
      }
    }
  }

  /** `hasJapanesePlayerByTeamName`. */
  predicate HasJapanesePlayerByTeamName(teamName: string, competitionName: string) {
    SomePatternMatches(KnownTeams(competitionName), teamName)
    || Contains(teamName, "Japan") || Contains(teamName, "日本")
  }

  /** A team is flagged iff one of its competition's patterns and its name
      contain one another, or its name mentions Japan. */
  lemma HasJapanesePlayerIff(teamName: string, competitionName: string)
    ensures HasJapanesePlayerByTeamName(teamName, competitionName)
            <==> (|| (exists i :: 0 <= i < |KnownTeams(competitionName)|
                        && (Contains(teamName, KnownTeams(competitionName)[i])
                            || Contains(KnownTeams(competitionName)[i], teamName)))
                  || Contains(teamName, "Japan") || Contains(teamName, "日本"))
  {
    SomePatternMatchesIff(KnownTeams(competitionName), teamName);
  }

  /** Outside the table only the Japan rule can flag a team. */
  lemma NoEntryOnlyJapanRule(teamName: string, competitionName: string)
    requires competitionName !in Table
    ensures HasJapanesePlayerByTeamName(teamName, competitionName)
            <==> Contains(teamName, "Japan") || Contains(teamName, "日本")
  {
  }

  /** Every pattern contains the empty string, so an empty name is flagged
      wherever the competition has a pattern. */
  lemma EmptyNameFlagged(competitionName: string)
    requires KnownTeams(competitionName) != []
    ensures HasJapanesePlayerByTeamName("", competitionName)
  {
    ContainsEmpty(KnownTeams(competitionName)[0]);
  }

  lemma BayernFlagged()
    ensures HasJapanesePlayerByTeamName("FC Bayern München", "Bundesliga")
  {
    ContainsAt("FC Bayern München", "Bayern", 3);
  }

  lemma RomaNotFlagged()
    ensures !HasJapanesePlayerByTeamName("AS Roma", "Serie A")
  {
    MissingCharNotContained("AS Roma", "Parma", 'P');
    LongerNotContained("Parma", "AS Roma");
    MissingCharNotContained("AS Roma", "Japan", 'J');
    MissingCharNotContained("AS Roma", "日本", '日');
  }

  /** 'Brighton & Hove Albion FC' is not flagged in the Premier League: its
      pattern "Brighton Hove" is not a contiguous part of that name. */
  lemma BrightonNotFlagged()
    ensures !HasJapanesePlayerByTeamName("Brighton & Hove Albion FC", "Premier League")
  {
    PremierLeagueEntry();
    BrightonNoPattern();
    BrightonNoJapan();
  }

  lemma BrightonNoJapan()
    ensures !Contains("Brighton & Hove Albion FC", "Japan") && !Contains("Brighton & Hove Albion FC", "日本")
  {
    MissingCharAtNotContained("Brighton & Hove Albion FC", "Japan", 0);
    MissingCharAtNotContained("Brighton & Hove Albion FC", "日本", 0);
  }

  lemma BrightonNoPattern()
    ensures !SomePatternMatches(["Arsenal", "Liverpool", "Leeds United", "Crystal Palace", "Brighton Hove"],
                                "Brighton & Hove Albion FC")
  {
    var name := "Brighton & Hove Albion FC";
    var ps := ["Arsenal", "Liverpool", "Leeds United", "Crystal Palace", "Brighton Hove"];
    BrightonContainsNoPattern();
    forall i | 0 <= i < |ps|
      ensures !Contains(ps[i], name)
    {
      LongerNotContained(ps[i], name);
    }
    SomePatternMatchesIff(ps, name);
  }

  lemma BrightonContainsNoPattern()
    ensures var name := "Brighton & Hove Albion FC";
      && !Contains(name, "Arsenal") && !Contains(name, "Liverpool") && !Contains(name, "Leeds United")
      && !Contains(name, "Crystal Palace") && !Contains(name, "Brighton Hove")
  {
    var name := "Brighton & Hove Albion FC";
    MissingCharAtNotContained(name, "Arsenal", 2);
    MissingCharAtNotContained(name, "Liverpool", 0);
    MissingCharAtNotContained(name, "Leeds United", 0);
    MissingCharAtNotContained(name, "Crystal Palace", 2);
    BrightonHoveNotContained();
  }

  lemma BrightonHoveNotContained()
    ensures !Contains("Brighton & Hove Albion FC", "Brighton Hove")
  {
    var name, p := "Brighton & Hove Albion FC", "Brighton Hove";
    assert name[..|p|][9] != p[9];
    NotContainedPastHead(name, p);
  }

  // --------------------------------------------------------- kickoff

  /** The date-fns text "yyyy-MM-dd'T'HH:mm:ss.SSS" of the Tokyo wall clock at
      a date, with a literal 'Z'; None for an Invalid Date, on which
      formatting throws. */
  function JstText(d: DateValue): Option<string> {
    match AddTime(d, JstOffset)
    case NaN => None
    case Time(t) => Some(FormatLocal(FieldsOf(t)) + "Z")
  }

  /** `convertToJST`. */
  function ConvertToJST(utcDate: string): Option<string> {
    JstText(ParseDate(utcDate))
  }

  /** The text, read back as UTC, is the instant nine hours later. */
  lemma JstTextShifts(t0: int)
    requires 1 <= FieldsOf(t0 + JstOffset).year <= 9999
    ensures JstText(Time(t0)).Some?
    ensures ParseIso(JstText(Time(t0)).value) == Some(t0 + JstOffset)
  {
    var t := t0 + JstOffset;
    FourDigitYearInRange(t);
    assert AddTime(Time(t0), JstOffset) == Time(t);
    FormatLocalRoundTrip(t);
  }

  /** The stored kickoff, read back as UTC, is the API instant nine hours
      later: the Tokyo wall-clock digits under a 'Z' suffix. */
  lemma ConvertToJSTShifts(utcDate: string, t0: int)
    requires ParseDate(utcDate) == Time(t0)
    requires 1 <= FieldsOf(t0 + JstOffset).year <= 9999
    ensures ConvertToJST(utcDate).Some?
    ensures ParseIso(ConvertToJST(utcDate).value) == Some(t0 + JstOffset)
  {
    JstTextShifts(t0);
  }

  /** An unparseable kickoff makes the conversion throw. */
  lemma ConvertToJSTInvalid(utcDate: string)
    requires ParseIso(utcDate).None?
    ensures ConvertToJST(utcDate).None?
  {
  }

  // ---------------------------------------------------------- records

  datatype ApiTeam = ApiTeam(id: int, name: string)

  /** One entry of a football-data.org `matches` array. */
  datatype ApiMatch = ApiMatch(id: int, utcDate: string, status: string,
                               matchday: Option<int>, homeTeam: ApiTeam, awayTeam: ApiTeam)

  /** `match.matchday ? `第${match.matchday}節` : null`: null and 0 give no round. */
  function RoundLabel(matchday: Option<int>): Option<string> {
    match matchday
    case Some(n) => if n != 0 then Some("第" + IntToString(n) + "節") else None
    case None => None
  }

  /** The record pushed for one API match, or None when its kickoff cannot be
      converted and the per-match catch skips it. */
  function ApiRecord(m: ApiMatch, league: string, competitionId: int): Option<Match> {
    match ConvertToJST(m.utcDate)
    case None => None
    case Some(kickoff) =>
      Some(Match(
        IntToString(m.id), IntToString(m.id), league, Some(IntToString(competitionId)),
        RoundLabel(m.matchday), kickoff, m.homeTeam.name, m.awayTeam.name,
        Some(IntToString(m.homeTeam.id)), Some(IntToString(m.awayTeam.id)),
        HasJapanesePlayerByTeamName(m.homeTeam.name, league)
        || HasJapanesePlayerByTeamName(m.awayTeam.name, league),
        Some(m.status)))
  }

  /** A record exists iff the kickoff converts; its round is present iff the
      matchday is non-null and nonzero, and is then 第 and 節 around digits
      that parseInt reads back as the matchday; it is flagged iff either
      team is. */
  lemma ApiRecordFields(m: ApiMatch, league: string, competitionId: int)
    ensures ApiRecord(m, league, competitionId).Some? <==> ConvertToJST(m.utcDate).Some?
    ensures ApiRecord(m, league, competitionId).Some? ==>
      var r := ApiRecord(m, league, competitionId).value;
      && (r.round.Some? <==> m.matchday.Some? && m.matchday.value != 0)
      && (r.round.Some? ==>
            var text := r.round.value;
            && |text| > 2 && text[..1] == "第" && text[|text| - 1] == '節'
            && ParseInt10(text[1..]) == Some(m.matchday.value))
      && r.kickoff == ConvertToJST(m.utcDate).value
      && r.competition == league
      && (r.hasJapanesePlayer <==> HasJapanesePlayerByTeamName(m.homeTeam.name, league)
                                   || HasJapanesePlayerByTeamName(m.awayTeam.name, league))
  {
    if m.matchday.Some? && m.matchday.value != 0 {
      PrefixedIntReadsBack("第", m.matchday.value, "節");
    }
  }

  /** The record's ids are the upstream ids printed in decimal: each reads
      back with parseInt, and the match id is also the API match id. */
  lemma ApiRecordIds(m: ApiMatch, league: string, competitionId: int, r: Match)
    requires ApiRecord(m, league, competitionId) == Some(r)
    ensures r.id == r.apiMatchId && ParseInt10(r.id) == Some(m.id)
    ensures ParseInt10(r.homeTeamId.value) == Some(m.homeTeam.id)
    ensures ParseInt10(r.awayTeamId.value) == Some(m.awayTeam.id)
    ensures ParseInt10(r.competitionId.value) == Some(competitionId)
  {
    ParseIntRoundTrip(m.id);
    ParseIntRoundTrip(m.homeTeam.id);
    ParseIntRoundTrip(m.awayTeam.id);
    ParseIntRoundTrip(competitionId);
  }

  /** The callback of one league's loop. */
  function ApiRecordOf(league: string, competitionId: int): ApiMatch -> Option<Match> {
    m => ApiRecord(m, league, competitionId)
  }

  /** The records of one league's matches, in API order. */
  function LeagueRecords(league: string, competitionId: int, ms: seq<ApiMatch>): seq<Match> {
    Collect(ms, ApiRecordOf(league, competitionId))
  }

  /** The records of every league, league by league in `LEAGUE_IDS` order. */
  function AllLeagueRecords(leagues: seq<(string, int)>, responses: seq<seq<ApiMatch>>): seq<Match>
    requires |leagues| == |responses|
  {
    if leagues == [] then []
    else
      AllLeagueRecords(leagues[..|leagues| - 1], responses[..|responses| - 1])
      + LeagueRecords(leagues[|leagues| - 1].0, leagues[|leagues| - 1].1, responses[|responses| - 1])
  }

  /** The cached J.League records inside the window, left as they are. */
  function CachedJLeague(cache: Option<seq<Match>>, lo: int, hi: int): seq<Match> {
    match cache
    case None => []
    case Some(c) => Filter(c, InWindowTest(lo, hi))
  }

  function RecomputeProLeagueFlag(m: Match): Match {
    m.(hasJapanesePlayer := HasJapanesePlayerByTeamName(m.homeTeam, ProLeagueName)
                            || HasJapanesePlayerByTeamName(m.awayTeam, ProLeagueName))
  }

  /** The cached Pro League records inside the window, flags recomputed
      against the 'Jupiler Pro League' patterns. */
  function CachedProLeague(cache: Option<seq<Match>>, lo: int, hi: int): seq<Match> {
    match cache
    case None => []
    case Some(c) =>
      var w := Filter(c, InWindowTest(lo, hi));
      seq(|w|, i requires 0 <= i < |w| => RecomputeProLeagueFlag(w[i]))
  }

  /** Everything pushed onto `allMatches` before the sort. */
  function Collected(responses: seq<seq<ApiMatch>>, jleagueCache: Option<seq<Match>>,
                     proleagueCache: Option<seq<Match>>, now: int): seq<Match>
    requires |responses| == |LeagueIds|
  {
    var lo, hi := DayBefore(now), DaysAfter(now, 7);
    AllLeagueRecords(LeagueIds, responses) + CachedJLeague(jleagueCache, lo, hi)
    + CachedProLeague(proleagueCache, lo, hi)
  }

  /** The loop over `LEAGUE_IDS`: every league's records, league by league. */
  method CollectLeagues(leagues: seq<(string, int)>, responses: seq<seq<ApiMatch>>)
    returns (all: seq<Match>)
    requires |leagues| == |responses|
    ensures all == AllLeagueRecords(leagues, responses)
  {
    all := [];
    var k := 0;
    while k < |leagues|
      invariant 0 <= k <= |leagues|
      invariant all == AllLeagueRecords(leagues[..k], responses[..k])
    {
      all := CollectInto(all, responses[k], ApiRecordOf(leagues[k].0, leagues[k].1));
      assert leagues[..k + 1][..k] == leagues[..k] && responses[..k + 1][..k] == responses[..k];
      k := k + 1;
    }
    assert leagues[..k] == leagues && responses[..k] == responses;
  }

  /** The list written to matches.json by a run at instant `now`, given each
      league's API response (in `LEAGUE_IDS` order) and the cached files (None
      when missing or unreadable); None when nothing is written. */
  method BuildMatches(responses: seq<seq<ApiMatch>>, jleagueCache: Option<seq<Match>>,
                      proleagueCache: Option<seq<Match>>, now: int)
    returns (written: Option<seq<Match>>)
    requires |responses| == |LeagueIds|
    ensures var all := Collected(responses, jleagueCache, proleagueCache, now);
            written == if all == [] then None else Some(SortByKickoff(all))
  {
    var all := CollectLeagues(LeagueIds, responses);
    var lo, hi := DayBefore(now), DaysAfter(now, 7);
    all := all + CachedJLeague(jleagueCache, lo, hi);
    all := all + CachedProLeague(proleagueCache, lo, hi);
    var sorted := SortedCopy(all, SortKey);
    if |all| > 0 {
      written := Some(sorted);
    } else {
      written := None;
    }
  }

  /** What a written list holds: every collected record, each as often, sorted
      by kickoff, in one list as long as the three sources together. */
  lemma BuildMatchesContents(responses: seq<seq<ApiMatch>>, jleagueCache: Option<seq<Match>>,
                             proleagueCache: Option<seq<Match>>, now: int)
    requires |responses| == |LeagueIds|
    ensures var all := Collected(responses, jleagueCache, proleagueCache, now);
      && SortedBy(SortByKickoff(all), SortKey)
      && multiset(SortByKickoff(all)) == multiset(all)
      && |all| == |AllLeagueRecords(LeagueIds, responses)|
                  + |CachedJLeague(jleagueCache, DayBefore(now), DaysAfter(now, 7))|
                  + |CachedProLeague(proleagueCache, DayBefore(now), DaysAfter(now, 7))|
  {
    SortByKickoffCorrect(Collected(responses, jleagueCache, proleagueCache, now));
  }

  /** The cached J.League records kept are exactly those whose kickoff lies in
      [lo, hi]. */
  lemma CachedJLeagueInWindow(cache: seq<Match>, lo: int, hi: int, m: Match)
    ensures m in CachedJLeague(Some(cache), lo, hi) <==> m in cache && InWindow(m, lo, hi)
  {
  }

  /** Every cached Pro League record kept is an in-window cached record with
      only its flag replaced, and that flag is the one recomputed against the
      'Jupiler Pro League' patterns. */
  lemma CachedProLeagueInWindow(cache: Option<seq<Match>>, lo: int, hi: int, m: Match)
    requires m in CachedProLeague(cache, lo, hi)
    ensures InWindow(m, lo, hi)
    ensures m.hasJapanesePlayer <==> (HasJapanesePlayerByTeamName(m.homeTeam, ProLeagueName)
                                     || HasJapanesePlayerByTeamName(m.awayTeam, ProLeagueName))
    ensures cache.Some? && exists x :: x in cache.value && InWindow(x, lo, hi)
                                       && m == x.(hasJapanesePlayer := m.hasJapanesePlayer)
  {
    var w := Filter(cache.value, InWindowTest(lo, hi));
    var i :| 0 <= i < |w| && m == RecomputeProLeagueFlag(w[i]);
    assert w[i] in w;
  }

  /** The kept Pro League list follows the in-window cached list record for
      record, changing only the flag, so no in-window cached record is lost. */
  lemma CachedProLeagueExact(cache: seq<Match>, lo: int, hi: int)
    ensures var w := Filter(cache, InWindowTest(lo, hi));
      var r := CachedProLeague(Some(cache), lo, hi);
      && |r| == |w|
      && (forall i :: 0 <= i < |r| ==> r[i] == w[i].(hasJapanesePlayer := r[i].hasJapanesePlayer))
      && (forall i :: 0 <= i < |r| ==>
            (r[i].hasJapanesePlayer <==> (HasJapanesePlayerByTeamName(w[i].homeTeam, ProLeagueName)
                                          || HasJapanesePlayerByTeamName(w[i].awayTeam, ProLeagueName))))
      && (forall x :: x in cache && InWindow(x, lo, hi) ==> RecomputeProLeagueFlag(x) in r)
  {
    var w := Filter(cache, InWindowTest(lo, hi));
    var r := CachedProLeague(Some(cache), lo, hi);
    forall x | x in cache && InWindow(x, lo, hi)
      ensures RecomputeProLeagueFlag(x) in r
    {
      assert x in w;
      var i :| 0 <= i < |w| && w[i] == x;
      assert r[i] == RecomputeProLeagueFlag(x);
    }
  }
}
