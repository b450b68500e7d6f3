/** The roster table of lib/japanese-teams.ts: for each competition, the
    substrings of club names that have Japanese players. */
module JapaneseTeams {

  /** `JAPANESE_TEAMS`. A competition outside the table has no patterns. */
  const Table: map<string, seq<string>> := map[
    "UEFA Champions League" := ["Bayern", "Liverpool"],
    "Primeira Liga" := ["Sporting CP", "Arouca"],
    "Premier League" := ["Arsenal", "Liverpool", "Leeds United", "Crystal Palace", "Brighton Hove"],
    "Eredivisie" := ["Feyenoord", "Ajax", "NEC", "Sparta"],
    "Bundesliga" := ["Bayern", "HSV", "Stuttgart", "Wolfsburg", "Bremen", "Mainz", "Freiburg", "M'gladbach", "Frankfurt", "St. Pauli"],
    "Ligue 1" := ["AS Monaco", "Stade de Reims"],
    "Serie A" := ["Parma"],
    "La Liga" := ["Real Sociedad", "Mallorca"],
    "Championship" := ["Blackburn", "QPR", "Stoke", "Birmingham", "Southampton", "Bristol City", "Coventry City"],
    "Jupiler Pro League" := ["KAA Gent", "Union St-Gilloise", "Royal Antwerp FC", "STVV", "KVC Westerlo"],
    "World Cup" := ["Japan"]
  ]

  /** `JAPANESE_TEAMS[competitionName] || []`. */
  function KnownTeams(competition: string): seq<string> {
    if competition in Table then Table[competition] else []
  }

  /** 'J.League' has no entry: its records are flagged only by the Japan rule. */
  lemma NoJLeagueEntry()
    ensures "J.League" !in Table && KnownTeams("J.League") == []
  {
  }

  /** The competitions that have an entry. */
  lemma TableKeys()
    ensures Table.Keys == {"UEFA Champions League", "Primeira Liga", "Premier League", "Eredivisie",
                           "Bundesliga", "Ligue 1", "Serie A", "La Liga", "Championship",
                           "Jupiler Pro League", "World Cup"}
  {
  }

  lemma ElevenNames()
    ensures |{"UEFA Champions League", "Primeira Liga", "Premier League", "Eredivisie",
              "Bundesliga", "Ligue 1", "Serie A", "La Liga", "Championship",
              "Jupiler Pro League", "World Cup"}| == 11
  {
  }

  /** Eleven competitions have an entry. */
  lemma TableSize()
    ensures |Table| == 11
  {
    TableKeys();
    ElevenNames();
  }

  /** The Premier League patterns. */
  lemma PremierLeagueEntry()
    ensures KnownTeams("Premier League")
            == ["Arsenal", "Liverpool", "Leeds United", "Crystal Palace", "Brighton Hove"]
  {
  }

  /** The Pro League entry lists five clubs. */
  lemma ProLeagueEntry()
    ensures |KnownTeams("Jupiler Pro League")| == 5
  {
  }

  /** The World Cup entry is the national team alone. */
  lemma WorldCupEntry()
    ensures KnownTeams("World Cup") == ["Japan"]
  {
  }
}
