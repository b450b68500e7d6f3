/** app/page.tsx: the fixture table. The Japanese labels of team names, the
    flag and background colour of each competition, the page state (the
    loaded records, the loading flag, the error text and the Japanese-only
    toggle), the records shown from that state, and the label, flag and
    colour shown for each record. */
module Page {
  import opened Types
  import opened EcmaDate
  import opened Kickoff
  import FetchJLeague
  import FetchProLeague

  // ------------------------------------------------------------ tables

  /** An object literal of string properties, as its entries in source order. */
  type Table = seq<(string, string)>

  /** `table[key]`: the value of the first entry with that key, None
      (undefined) when no entry has it. */
  function Lookup(table: Table, key: string): Option<string> {
    if table == [] then None
    else if table[0].0 == key then Some(table[0].1)
    else Lookup(table[1..], key)
  }

  /** A key is found exactly when some entry has it, and then the value read
      is that of its first entry. */
  lemma {:induction false} LookupSpec(table: Table, key: string)
    ensures Lookup(table, key).Some? <==> exists i :: 0 <= i < |table| && table[i].0 == key
    ensures Lookup(table, key).Some? ==>
      exists i :: 0 <= i < |table| && table[i] == (key, Lookup(table, key).value)
                  && forall j :: 0 <= j < i ==> table[j].0 != key
  {
    if table != [] && table[0].0 != key {
      LookupSpec(table[1..], key);
      if Lookup(table, key).Some? {
        var i :| 0 <= i < |table[1..]| && table[1..][i] == (key, Lookup(table, key).value)
                 && forall j :: 0 <= j < i ==> table[1..][j].0 != key;
        assert table[i + 1] == (key, Lookup(table, key).value);
        assert forall j :: 0 <= j < i + 1 ==> table[j].0 != key by {
          forall j | 0 <= j < i + 1
            ensures table[j].0 != key
          {
            if j > 0 {
              assert table[j] == table[1..][j - 1];
            }
          }
        }
      } else {
        forall i | 0 <= i < |table|
          ensures table[i].0 != key
        {
          if i > 0 {
            assert table[i] == table[1..][i - 1];
          }
        }
      }
    } else if table != [] {
      assert table[0] == (key, Lookup(table, key).value);
    }
  }

  /** The entry at position i is read when no earlier entry has its key. */
  lemma {:induction false} LookupAt(table: Table, i: int, key: string)
    requires 0 <= i < |table| && table[i].0 == key
    requires forall j :: 0 <= j < i ==> table[j].0 != key
    ensures Lookup(table, key) == Some(table[i].1)
  {
    if i > 0 {
      LookupAt(table[1..], i - 1, key);
    }
  }

  /** A key no entry has reads as undefined. */
  lemma {:induction false} LookupAbsent(table: Table, key: string)
    requires forall j :: 0 <= j < |table| ==> table[j].0 != key
    ensures Lookup(table, key) == None
  {
    if table != [] {
      LookupAbsent(table[1..], key);
    }
  }

  /** Reading two tables put end to end reads the first, then the second. */
  lemma {:induction false} LookupAppend(a: Table, b: Table, key: string)
    ensures Lookup(a + b, key) == if Lookup(a, key).Some? then Lookup(a, key) else Lookup(b, key)
  {
    if a != [] {
      assert (a + b)[0] == a[0];
      assert (a + b)[1..] == a[1..] + b;
      LookupAppend(a[1..], b, key);
    } else {
      assert a + b == b;
    }
  }

  /** TEAM_NAMES_JA as the list of its properties in source order, one
      section per league as laid out in the source. */
  const TeamNamesJa: Table := PremierLeagueNames + FromLaLiga

  /** The sections from La Liga on. */
  const FromLaLiga: Table := LaLigaNames + FromSerieA

  /** The sections from Serie A on. */
  const FromSerieA: Table := SerieANames + FromBundesliga

  /** The sections from the Bundesliga on. */
  const FromBundesliga: Table := BundesligaNames + FromLigue1

  /** The sections from Ligue 1 on. */
  const FromLigue1: Table :=
    Ligue1Names + (EredivisieNames + (PrimeiraLigaNames + (ChampionshipNames
    + (WorldCupNames + (OtherNames + JLeagueNames)))))

  /** Premier League. */
  const PremierLeagueNames: Table := [
    ("Arsenal FC", "アーセナル"),
    ("Brighton & Hove Albion FC", "ブライトン"),
    ("Liverpool FC", "リバプール"),
    ("Tottenham Hotspur FC", "トッテナム"),
    ("Fulham FC", "フルハム"),
    ("Manchester United FC", "マンチェスター・ユナイテッド"),
    ("Manchester City FC", "マンチェスター・シティ"),
    ("Chelsea FC", "チェルシー"),
    ("Newcastle United FC", "ニューカッスル"),
    ("West Ham United FC", "ウェストハム"),
    ("Aston Villa FC", "アストン・ヴィラ"),
    ("Crystal Palace FC", "クリスタル・パレス"),
    ("Everton FC", "エバートン"),
    ("Leicester City FC", "レスター"),
    ("Wolverhampton Wanderers FC", "ウルバーハンプトン"),
    ("Leeds United FC", "リーズ"),
    ("Southampton FC", "サウサンプトン"),
    ("Burnley FC", "バーンリー"),
    ("Watford FC", "ワトフォード"),
    ("Norwich City FC", "ノリッジ"),
    ("Brentford FC", "ブレントフォード"),
    ("Nottingham Forest FC", "ノッティンガム"),
    ("Bournemouth AFC", "ボーンマス"),
    ("Sheffield United FC", "シェフィールド・ユナイテッド"),
    ("Luton Town FC", "ルートン"),
    ("Ipswich Town FC", "イプスウィッチ")
  ]

  /** La Liga. */
  const LaLigaNames: Table := [
    ("Real Madrid CF", "レアル・マドリード"),
    ("FC Barcelona", "バルセロナ"),
    ("Club Atlético de Madrid", "アトレティコ・マドリード"),
    ("Atletico Madrid", "アトレティコ・マドリード"),
    ("Real Sociedad", "レアル・ソシエダ"),
    ("Real Sociedad de Fútbol", "ソシエダ"),
    ("Sevilla FC", "セビリア"),
    ("Real Betis Balompie", "ベティス"),
    ("Villarreal CF", "ビジャレアル"),
    ("Valencia CF", "バレンシア"),
    ("Athletic Club", "アスレティック・ビルバオ"),
    ("CA Osasuna", "オサスナ"),
    ("Getafe CF", "ヘタフェ"),
    ("Rayo Vallecano", "ラージョ・バジェカーノ"),
    ("Girona FC", "ジローナ"),
    ("UD Las Palmas", "ラス・パルマス"),
    ("RC Celta de Vigo", "セルタ"),
    ("Real Valladolid CF", "バジャドリード"),
    ("RCD Espanyol", "エスパニョール"),
    ("Granada CF", "グラナダ"),
    ("UD Almeria", "アルメリア"),
    ("Cadiz CF", "カディス"),
    ("Deportivo Alaves", "アラベス"),
    ("Mallorca", "マジョルカ")
  ]

  /** Serie A. */
  const SerieANames: Table := [
    ("Juventus FC", "ユベントス"),
    ("AC Milan", "ACミラン"),
    ("FC Internazionale Milano", "インテル"),
    ("Inter Milan", "インテル"),
    ("AS Roma", "ASローマ"),
    ("SS Lazio", "ラツィオ"),
    ("SSC Napoli", "ナポリ"),
    ("Atalanta BC", "アタランタ"),
    ("ACF Fiorentina", "フィオレンティーナ"),
    ("US Sassuolo Calcio", "サッスオーロ"),
    ("Udinese Calcio", "ウディネーゼ"),
    ("Torino FC", "トリノ"),
    ("Bologna FC 1909", "ボローニャ"),
    ("US Cremonese", "クレモネーゼ"),
    ("Hellas Verona FC", "ヴェローナ"),
    ("Empoli FC", "エンポリ"),
    ("US Lecce", "レッチェ"),
    ("Spezia Calcio", "スペツィア"),
    ("Salernitana", "サレルニターナ"),
    ("AC Monza", "モンツァ"),
    ("Genoa CFC", "ジェノア"),
    ("Cagliari Calcio", "カリアリ"),
    ("Frosinone Calcio", "フロジノーネ"),
    ("Parma Calcio 1913", "パルマ"),
    ("AC Pisa 1909", "ピサ1909"),
    ("Como 1907", "コモ1907")
  ]

  /** Bundesliga. */
  const BundesligaNames: Table := [
    ("Borussia Dortmund", "ドルトムント"),
    ("Eintracht Frankfurt", "フランクフルト"),
    ("VfB Stuttgart", "シュトゥットガルト"),
    ("VfL Bochum", "ボーフム"),
    ("FC Bayern München", "バイエルン・ミュンヘン"),
    ("RB Leipzig", "RBライプツィヒ"),
    ("Bayer 04 Leverkusen", "レバークーゼン"),
    ("1. FC Union Berlin", "ウニオン・ベルリン"),
    ("SC Freiburg", "フライブルク"),
    ("1. FC Köln", "ケルン"),
    ("TSG 1899 Hoffenheim", "ホッフェンハイム"),
    ("VfL Wolfsburg", "ヴォルフスブルク"),
    ("Borussia Mönchengladbach", "ボルシアMG"),
    ("SV Werder Bremen", "ブレーメン"),
    ("1. FSV Mainz 05", "マインツ"),
    ("FC Augsburg", "アウクスブルク"),
    ("VfL Bochum 1848", "ボーフム"),
    ("1. FC Heidenheim 1846", "ハイデンハイム"),
    ("SV Darmstadt 98", "ダルムシュタット"),
    ("FC St. Pauli 1910", "ザンクトパウリ"),
    ("Hamburger SV", "ハンブルグ")
  ]

  /** Ligue 1. */
  const Ligue1Names: Table := [
    ("AS Monaco", "モナコ"),
    ("AS Monaco FC", "モナコ"),
    ("Stade de Reims", "ランス"),
    ("Paris Saint-Germain FC", "パリ・サンジェルマン"),
    ("Olympique Marseille", "マルセイユ"),
    ("Olympique Lyonnais", "リヨン"),
    ("Olympique de Marseille", "マルセイユ"),
    ("Racing Club de Lens", "ランス"),
    ("RC Lens", "ランス"),
    ("OGC Nice", "ニース"),
    ("LOSC Lille", "リール"),
    ("Lille OSC", "リール"),
    ("Stade Rennais FC", "レンヌ"),
    ("Stade Rennais FC 1901", "レンヌ"),
    ("FC Nantes", "ナント"),
    ("Toulouse FC", "トゥールーズ"),
    ("Montpellier HSC", "モンペリエ"),
    ("FC Lorient", "ロリアン"),
    ("Clermont Foot 63", "クレルモン"),
    ("RC Strasbourg Alsace", "ストラスブール"),
    ("FC Metz", "メス"),
    ("Le Havre AC", "ル・アーヴル")
  ]

  /** Eredivisie. */
  const EredivisieNames: Table := [
    ("AZ", "AZ"),
    ("Ajax Amsterdam", "アヤックス"),
    ("AFC Ajax", "アヤックス"),
    ("PSV Eindhoven", "PSV"),
    ("PSV", "PSV"),
    ("Feyenoord Rotterdam", "フェイエノールト"),
    ("FC Twente", "トゥウェンテ"),
    ("FC Twente '65", "トゥウェンテ"),
    ("SC Heerenveen", "ヘーレンフェーン"),
    ("Vitesse Arnhem", "フィテッセ"),
    ("FC Utrecht", "ユトレヒト"),
    ("Sparta Rotterdam", "スパルタ・ロッテルダム"),
    ("Heracles Almelo", "ヘラクレス"),
    ("NEC Nijmegen", "NEC"),
    ("NEC", "NEC"),
    ("Fortuna Sittard", "フォルトゥナ"),
    ("Go Ahead Eagles", "ゴー・アヘッド"),
    ("RKC Waalwijk", "RKC"),
    ("FC Volendam", "フォレンダム"),
    ("Excelsior Rotterdam", "エクセルシオール"),
    ("SBV Excelsior", "エクセルシオール"),
    ("PEC Zwolle", "ズヴォレ"),
    ("Almere City FC", "アルメレ"),
    ("FC Groningen", "フローニンゲン"),
    ("NAC Breda", "NAC")
  ]

  /** Primeira Liga. */
  const PrimeiraLigaNames: Table := [
    ("FC Porto", "ポルト"),
    ("SL Benfica", "ベンフィカ"),
    ("Sporting CP", "スポルティング"),
    ("SC Braga", "ブラガ"),
    ("Vitória SC", "ヴィトーリア"),
    ("FC Famalicão", "ファマリカン"),
    ("Rio Ave FC", "リオ・アヴェ"),
    ("CD Santa Clara", "サンタ・クララ"),
    ("Gil Vicente FC", "ジル・ヴィセンテ"),
    ("FC Vizela", "ヴィゼラ"),
    ("Boavista FC", "ボアヴィスタ"),
    ("Portimonense SC", "ポルティモネンセ"),
    ("Casa Pia AC", "カサ・ピア"),
    ("GD Estoril Praia", "エストリル"),
    ("FC Arouca", "アロウカ"),
    ("CD Tondela", "トンデラ"),
    ("Moreirense FC", "モレイレンセ"),
    ("Farense", "ファレンセ")
  ]

  /** Championship. */
  const ChampionshipNames: Table := [
    ("West Bromwich Albion FC", "WBA"),
    ("Hull City AFC", "ハル"),
    ("Coventry City FC", "コヴェントリー"),
    ("Middlesbrough FC", "ミドルズブラ"),
    ("Preston North End FC", "プレストン"),
    ("Cardiff City FC", "カーディフ"),
    ("Bristol City FC", "ブリストル・シティ"),
    ("Sunderland AFC", "サンダーランド"),
    ("Swansea City AFC", "スウォンジー"),
    ("Millwall FC", "ミルウォール"),
    ("Blackburn Rovers FC", "ブラックバーン"),
    ("Plymouth Argyle FC", "プリマス"),
    ("Birmingham City FC", "バーミンガム"),
    ("Huddersfield Town AFC", "ハダースフィールド"),
    ("Sheffield Wednesday FC", "シェフィールド・ウェンズデイ"),
    ("Stoke City FC", "ストーク"),
    ("Queens Park Rangers FC", "QPR"),
    ("Rotherham United FC", "ロザラム"),
    ("Portsmouth FC", "ポーツマス"),
    ("Derby County FC", "ダービー"),
    ("Oxford United FC", "オックスフォードU"),
    ("Charlton Athletic FC", "チャールトン・アスレティック"),
    ("Wrexham AFC", "ウェクスハム")
  ]

  /** World Cup. */
  const WorldCupNames: Table := [
    ("Japan", "日本")
  ]

  /** Other teams (UEFA Champions League and others). */
  const OtherNames: Table := [
    ("Qarabağ Ağdam FK", "カラバフ"),
    ("FC København", "コペンハーゲン"),
    ("Galatasaray SK", "ガラタサライ"),
    ("FK Kairat", "カイラト"),
    ("Royale Union Saint-Gilloise", "ユニオン"),
    ("Club Brugge KV", "クラブブルッヘ"),
    ("FK Bodø/Glimt", "ボデ・グリムト"),
    ("Sporting Clube de Portugal", "スポルティング"),
    ("PAE Olympiakos SFP", "オリンピアコス"),
    ("Paphos FC", "パフォス"),
    ("SK Slavia Praha", "スラヴィア・プラハ"),
    ("Real Oviedo", "オビエド"),
    ("RCD Mallorca", "マジョルカ"),
    ("RCD Espanyol de Barcelona", "エスパニョール"),
    ("Elche CF", "エルチェ"),
    ("Levante UD", "レバンテ"),
    ("Rayo Vallecano de Madrid", "ラヨ・バレカノ・マドリード"),
    ("Real Betis Balompié", "ベティス"),
    ("Deportivo Alavés", "アラベス"),
    ("Sport Lisboa e Benfica", "ベンフィカ"),
    ("Sporting Clube de Braga", "ブラガ"),
    ("FC Alverca", "アルベルカ"),
    ("CF Estrela da Amadora", "エストレラ・ダ・アマドラ"),
    ("CD Nacional", "ナシオナル"),
    ("Paris FC", "パリFC"),
    ("Angers SCO", "アンジェー"),
    ("Stade Brestois 29", "ブレスト29"),
    ("AFC Bournemouth", "ボーンマウス"),
    ("AVS", "AVS"),
    ("Telstar 1963", "テルスター1963")
  ]

  /** J.League (common spellings). */
  const JLeagueNames: Table := [
    ("FC東京", "FC東京"),
    ("川崎フロンターレ", "川崎"),
    ("横浜F・マリノス", "横浜FM"),
    ("浦和レッズ", "浦和"),
    ("鹿島アントラーズ", "鹿島"),
    ("セレッソ大阪", "C大阪"),
    ("ガンバ大阪", "G大阪"),
    ("名古屋グランパス", "名古屋"),
    ("サンフレッチェ広島", "広島"),
    ("ヴィッセル神戸", "神戸"),
    ("柏レイソル", "柏"),
    ("大分トリニータ", "大分"),
    ("湘南ベルマーレ", "湘南"),
    ("北海道コンサドーレ札幌", "札幌"),
    ("清水エスパルス", "清水"),
    ("ジュビロ磐田", "磐田"),
    ("アビスパ福岡", "福岡"),
    ("東京ヴェルディ", "東京V"),
    ("ヴァンフォーレ甲府", "甲府"),
    ("アルビレックス新潟", "新潟"),
    ("FC町田ゼルビア", "町田"),
    ("サガン鳥栖", "鳥栖")
  ]

  /** `table[key] || fallback`: the value the table gives a key, or the
      fallback when it gives none or an empty one. */
  function ValueOr(table: Table, key: string, fallback: string): string {
    match Lookup(table, key)
    case Some(v) => if v != "" then v else fallback
    case None => fallback
  }

  /** A key the table lacks reads as the fallback; a key it has reads as the
      value of its first entry, or the fallback when that value is empty; and
      any other result is the value of an entry for the key. */
  lemma ValueOrSpec(table: Table, key: string, fallback: string)
    ensures (forall i :: 0 <= i < |table| ==> table[i].0 != key) ==> ValueOr(table, key, fallback) == fallback
    ensures forall i :: 0 <= i < |table| && table[i].0 == key && (forall j :: 0 <= j < i ==> table[j].0 != key)
                        ==> ValueOr(table, key, fallback) == if table[i].1 != "" then table[i].1 else fallback
    ensures ValueOr(table, key, fallback) != fallback ==>
      exists i :: 0 <= i < |table| && table[i] == (key, ValueOr(table, key, fallback))
  {
    LookupSpec(table, key);
    forall i | 0 <= i < |table| && table[i].0 == key && (forall j :: 0 <= j < i ==> table[j].0 != key)
      ensures Lookup(table, key) == Some(table[i].1)
    {
      LookupAt(table, i, key);
    }
  }

  /** getTeamNameJa: `TEAM_NAMES_JA[teamName] || teamName`. */
  function GetTeamNameJa(teamName: string): string {
    ValueOr(TeamNamesJa, teamName, teamName)
  }

  /** The label of a name read past sections that lack it. */
  lemma LabelPastSections(before: Table, section: Table, rest: Table, name: string)
    requires Lookup(before, name) == None
    requires Lookup(section, name).Some? && Lookup(section, name).value != ""
    ensures ValueOr(before + (section + rest), name, name) == Lookup(section, name).value
  {
    LookupAppend(before, section + rest, name);
    LookupAppend(section, rest, name);
  }

  lemma AtleticoNotPremierLeague()
    ensures Lookup(PremierLeagueNames, "Atletico Madrid") == None
  {
    LookupAbsent(PremierLeagueNames, "Atletico Madrid");
  }

  lemma AtleticoInLaLiga()
    ensures Lookup(LaLigaNames, "Atletico Madrid") == Some("アトレティコ・マドリード")
  {
    LookupAt(LaLigaNames, 3, "Atletico Madrid");
  }

  /** 'Atletico Madrid' is shown as アトレティコ・マドリード. */
  lemma AtleticoLabel()
    ensures GetTeamNameJa("Atletico Madrid") == "アトレティコ・マドリード"
  {
    AtleticoNotPremierLeague();
    AtleticoInLaLiga();
    LabelPastSections(PremierLeagueNames, LaLigaNames, FromSerieA, "Atletico Madrid");
  }
  lemma ClubAtleticoNotPremierLeague()
    ensures Lookup(PremierLeagueNames, "Club Atlético de Madrid") == None
  {
    LookupAbsent(PremierLeagueNames, "Club Atlético de Madrid");
  }

  lemma ClubAtleticoInLaLiga()
    ensures Lookup(LaLigaNames, "Club Atlético de Madrid") == Some("アトレティコ・マドリード")
  {
    LookupAt(LaLigaNames, 2, "Club Atlético de Madrid");
  }

  /** 'Club Atlético de Madrid' is shown as アトレティコ・マドリード. */
  lemma ClubAtleticoLabel()
    ensures GetTeamNameJa("Club Atlético de Madrid") == "アトレティコ・マドリード"
  {
    ClubAtleticoNotPremierLeague();
    ClubAtleticoInLaLiga();
    LabelPastSections(PremierLeagueNames, LaLigaNames, FromSerieA, "Club Atlético de Madrid");
  }

  /** Two spellings of Atlético de Madrid share one label. */
  lemma AtleticoSpellingsShareLabel()
    ensures GetTeamNameJa("Atletico Madrid") == GetTeamNameJa("Club Atlético de Madrid") == "アトレティコ・マドリード"
  {
    AtleticoLabel();
    ClubAtleticoLabel();
  }

  /** The label of a name read from a fourth section, past three that lack it. */
  lemma LabelPastThreeSections(a: Table, b: Table, c: Table, section: Table, rest: Table, name: string)
    requires Lookup(a, name) == None && Lookup(b, name) == None && Lookup(c, name) == None
    requires Lookup(section, name).Some? && Lookup(section, name).value != ""
    ensures ValueOr(a + (b + (c + (section + rest))), name, name) == Lookup(section, name).value
  {
    LookupAppend(a, b + (c + (section + rest)), name);
    LookupAppend(b, c + (section + rest), name);
    LabelPastSections(c, section, rest, name);
  }

  lemma BochumNotPremierLeague()
    ensures Lookup(PremierLeagueNames, "VfL Bochum") == None
  {
    LookupAbsent(PremierLeagueNames, "VfL Bochum");
  }

  lemma BochumNotLaLiga()
    ensures Lookup(LaLigaNames, "VfL Bochum") == None
  {
    LookupAbsent(LaLigaNames, "VfL Bochum");
  }

  lemma BochumNotSerieA()
    ensures Lookup(SerieANames, "VfL Bochum") == None
  {
    LookupAbsent(SerieANames, "VfL Bochum");
  }

  lemma BochumInBundesliga()
    ensures Lookup(BundesligaNames, "VfL Bochum") == Some("ボーフム")
  {
    LookupAt(BundesligaNames, 3, "VfL Bochum");
  }

  /** 'VfL Bochum' is shown as ボーフム. */
  lemma BochumLabel()
    ensures GetTeamNameJa("VfL Bochum") == "ボーフム"
  {
    BochumNotPremierLeague();
    BochumNotLaLiga();
    BochumNotSerieA();
    BochumInBundesliga();
    LabelPastThreeSections(PremierLeagueNames, LaLigaNames, SerieANames, BundesligaNames, FromLigue1, "VfL Bochum");
  }

  lemma Bochum1848NotPremierLeague()
    ensures Lookup(PremierLeagueNames, "VfL Bochum 1848") == None
  {
    LookupAbsent(PremierLeagueNames, "VfL Bochum 1848");
  }

  lemma Bochum1848NotLaLiga()
    ensures Lookup(LaLigaNames, "VfL Bochum 1848") == None
  {
    LookupAbsent(LaLigaNames, "VfL Bochum 1848");
  }

  lemma Bochum1848NotSerieA()
    ensures Lookup(SerieANames, "VfL Bochum 1848") == None
  {
    LookupAbsent(SerieANames, "VfL Bochum 1848");
  }

  lemma Bochum1848InBundesliga()
    ensures Lookup(BundesligaNames, "VfL Bochum 1848") == Some("ボーフム")
  {
    LookupAt(BundesligaNames, 16, "VfL Bochum 1848");
  }

  /** 'VfL Bochum 1848' is shown as ボーフム. */
  lemma Bochum1848Label()
    ensures GetTeamNameJa("VfL Bochum 1848") == "ボーフム"
  {
    Bochum1848NotPremierLeague();
    Bochum1848NotLaLiga();
    Bochum1848NotSerieA();
    Bochum1848InBundesliga();
    LabelPastThreeSections(PremierLeagueNames, LaLigaNames, SerieANames, BundesligaNames, FromLigue1, "VfL Bochum 1848");
  }

  /** Two spellings of VfL Bochum share one label. */
  lemma BochumSpellingsShareLabel()
    ensures GetTeamNameJa("VfL Bochum") == GetTeamNameJa("VfL Bochum 1848") == "ボーフム"
  {
    BochumLabel();
    Bochum1848Label();
  }

  // --------------------------------------------------- competition styles

  /** LEAGUE_FLAGS. */
  const LeagueFlags: Table := [
    ("Premier League", "\U{1F1EC}\U{1F1E7}"),
    ("UEFA Champions League", "\U{1F1EA}\U{1F1FA}"),
    ("Primeira Liga", "\U{1F1F5}\U{1F1F9}"),
    ("La Liga", "\U{1F1EA}\U{1F1F8}"),
    ("Serie A", "\U{1F1EE}\U{1F1F9}"),
    ("Bundesliga", "\U{1F1E9}\U{1F1EA}"),
    ("Ligue 1", "\U{1F1EB}\U{1F1F7}"),
    ("Eredivisie", "\U{1F1F3}\U{1F1F1}"),
    ("World Cup", "\U{1F30D}"),
    ("Championship", "\U{1F1EC}\U{1F1E7}"),
    ("J.League", "\U{1F1EF}\U{1F1F5}")
  ]

  /** LEAGUE_COLORS. */
  const LeagueColors: Table := [
    ("Premier League", "#e8f4f8"),
    ("UEFA Champions League", "#fff4e6"),
    ("Primeira Liga", "#e8f5e9"),
    ("La Liga", "#fce4ec"),
    ("Serie A", "#f3e5f5"),
    ("Bundesliga", "#fff9c4"),
    ("Ligue 1", "#e0f2f1"),
    ("Eredivisie", "#fff3e0"),
    ("World Cup", "#e1f5fe"),
    ("Championship", "#f1f8e9"),
    ("J.League", "#ffe0e0")
  ]

  /** The white flag shown for a competition without one. */
  const DefaultFlag: string := "\U{1F3F3}\U{FE0F}"

  /** The background of a row whose competition has no colour. */
  const DefaultColor: string := "#ffffff"

  /** The flag cell of a row: `LEAGUE_FLAGS[competition_name] || DefaultFlag`. */
  function LeagueFlag(competition: string): string {
    ValueOr(LeagueFlags, competition, DefaultFlag)
  }

  /** The row background: `LEAGUE_COLORS[competition_name] || DefaultColor`. */
  function LeagueColor(competition: string): string {
    ValueOr(LeagueColors, competition, DefaultColor)
  }

  /** The two tables name the same competitions in the same order. */
  lemma StyleTablesAgree()
    ensures |LeagueFlags| == |LeagueColors|
    ensures forall i :: 0 <= i < |LeagueFlags| ==> LeagueFlags[i].0 == LeagueColors[i].0
  {
  }

  lemma ProLeagueHasNoFlag()
    ensures Lookup(LeagueFlags, "Jupiler Pro League") == None
  {
    LookupAbsent(LeagueFlags, "Jupiler Pro League");
  }

  lemma ProLeagueHasNoColor()
    ensures Lookup(LeagueColors, "Jupiler Pro League") == None
  {
    LookupAbsent(LeagueColors, "Jupiler Pro League");
  }

  /** Records of the Jupiler Pro League, the competition the Pro League fetch
      writes, get the white flag and a white background. */
  lemma ProLeagueUnstyled()
    ensures LeagueFlag(FetchProLeague.CompetitionName) == DefaultFlag
    ensures LeagueColor(FetchProLeague.CompetitionName) == DefaultColor
  {
    ProLeagueHasNoFlag();
    ProLeagueHasNoColor();
  }

  /** Records of the J.League fetch get the Japanese flag and a light red
      background. */
  lemma JLeagueStyled()
    ensures LeagueFlag(FetchJLeague.CompetitionName) == "\U{1F1EF}\U{1F1F5}"
    ensures LeagueColor(FetchJLeague.CompetitionName) == "#ffe0e0"
  {
    StyleTablesAgree();
    LookupAt(LeagueFlags, 10, FetchJLeague.CompetitionName);
    LookupAt(LeagueColors, 10, FetchJLeague.CompetitionName);
  }
  // ---------------------------------------------------- the date window

  /** The instant of the local midnight that begins the local day of `now`,
      the local zone being `offset` ms east of UTC with no daylight-saving
      shift. */
  function LocalDayStart(now: int, offset: int): int {
    now - (now + offset) % MsPerDay
  }

  /** `yesterday`: 23:59:59.999 local time on the day before now's. */
  function WindowStart(now: int, offset: int): int {
    LocalDayStart(now, offset) - 1
  }

  /** `nextWeek`: seven days after now. */
  function WindowEnd(now: int): int {
    DaysAfter(now, 7)
  }

  /** The filter callback: the Japanese-only test first, then an unparseable
      kickoff is dropped, then one before `yesterday` or after `nextWeek`. */
  predicate Visible(m: Match, japaneseOnly: bool, now: int, offset: int) {
    if japaneseOnly && !m.hasJapanesePlayer then false
    else
      match KickoffTime(m)
      case NaN => false
      case Time(t) => !(t < WindowStart(now, offset) || t > WindowEnd(now))
  }

  function VisibleTest(japaneseOnly: bool, now: int, offset: int): Match -> bool {
    m => Visible(m, japaneseOnly, now, offset)
  }

  /** `filteredMatches`. */
  function Shown(matches: seq<Match>, japaneseOnly: bool, now: int, offset: int): seq<Match> {
    Filter(matches, VisibleTest(japaneseOnly, now, offset))
  }

  function JapaneseTest(): Match -> bool {
    (m: Match) => m.hasJapanesePlayer
  }

  /** `yesterday` is the last millisecond of the local day before now's, so
      it lies between a day before now and now. */
  lemma WindowStartSpec(now: int, offset: int)
    ensures (WindowStart(now, offset) + offset) % MsPerDay == MsPerDay - 1
    ensures (WindowStart(now, offset) + offset) / MsPerDay == (now + offset) / MsPerDay - 1
    ensures DayBefore(now) <= WindowStart(now, offset) < now
  {
    var local := now + offset;
    var q, r := local / MsPerDay, local % MsPerDay;
    assert local == q * MsPerDay + r && 0 <= r < MsPerDay;
    assert WindowStart(now, offset) + offset == (q - 1) * MsPerDay + (MsPerDay - 1);
  }

  /** A record is shown exactly when it is loaded, passes the Japanese-only
      test and its kickoff parses to an instant from `yesterday` to
      `nextWeek` inclusive; the shown records keep the loaded order, so a
      sorted list shows sorted. */
  lemma ShownSpec(matches: seq<Match>, japaneseOnly: bool, now: int, offset: int, m: Match)
    ensures m in Shown(matches, japaneseOnly, now, offset) <==>
      m in matches && (!japaneseOnly || m.hasJapanesePlayer)
      && InWindow(m, WindowStart(now, offset), WindowEnd(now))
    ensures IsSubsequence(Shown(matches, japaneseOnly, now, offset), matches)
    ensures SortedBy(matches, SortKey) ==> SortedBy(Shown(matches, japaneseOnly, now, offset), SortKey)
  {
    FilterIsSubsequence(matches, VisibleTest(japaneseOnly, now, offset));
    if SortedBy(matches, SortKey) {
      FilterKeepsSorted(matches, VisibleTest(japaneseOnly, now, offset), SortKey);
    }
  }

  /** The Japanese-only list is the full list with the records without a
      Japanese player taken out. */
  lemma JapaneseOnlyNarrows(matches: seq<Match>, now: int, offset: int)
    ensures Shown(matches, true, now, offset) == Filter(Shown(matches, false, now, offset), JapaneseTest())
  {
    FilterBoth(matches, VisibleTest(false, now, offset), JapaneseTest(), VisibleTest(true, now, offset));
  }

  /** Every shown record lies in the window the fetch scripts keep, from a
      day before now to a week after it. */
  lemma ShownWithinFetchWindow(matches: seq<Match>, japaneseOnly: bool, now: int, offset: int, m: Match)
    requires m in Shown(matches, japaneseOnly, now, offset)
    ensures InWindow(m, DayBefore(now), DaysAfter(now, 7))
  {
    ShownSpec(matches, japaneseOnly, now, offset, m);
    WindowStartSpec(now, offset);
  }

  // ------------------------------------------------------ the page state

  /** The body of the response to `fetch('data/matches.json')` once parsed:
      an array of records or any other JSON value. */
  datatype Payload = ArrayPayload(items: seq<Match>) | OtherPayload

  /** The error shown when loading fails. */
  const LoadErrorMessage: string := "データの取得に失敗しました。データファイルが存在しない可能性があります。"

  /** The state of the Home component. */
  class SchedulePage {
    var matches: seq<Match>
    var loading: bool
    var error: Option<string>
    var japaneseOnly: bool

    /** The records held are in kickoff order. */
    predicate Sorted()
      reads this
    {
      SortedBy(matches, SortKey)
    }

    /** The initial state: nothing loaded, loading, no error, Japanese-only. */
    constructor ()
      ensures matches == [] && loading && error == None && japaneseOnly
      ensures Sorted()
    {
      matches := [];
      loading := true;
      error := None;
      japaneseOnly := true;
    }

    /** A click on the JP header. */
    method ToggleJapaneseOnly()
      modifies this`japaneseOnly
      ensures japaneseOnly == !old(japaneseOnly)
    {
      japaneseOnly := !japaneseOnly;
    }

    /** `fetchMatches` with the response given: None when the request fails,
        the status is not ok or the body is not JSON. An array is sorted by
        kickoff and held; anything else sets the error and keeps the records
        held before. Loading ends either way. */
    method FetchMatches(response: Option<Payload>)
      modifies this`matches, this`loading, this`error
      ensures !loading
      ensures response.Some? && response.value.ArrayPayload? ==>
        matches == SortByKickoff(response.value.items) && error == None && Sorted()
      ensures !(response.Some? && response.value.ArrayPayload?) ==>
        matches == old(matches) && error == Some(LoadErrorMessage)
      ensures old(Sorted()) ==> Sorted()
    {
      loading := true;
      error := None;
      if response.Some? && response.value.ArrayPayload? {
        var sortedData := SortedCopy(response.value.items, SortKey);
        SortByKickoffCorrect(response.value.items);
        matches := sortedData;
      } else {
        error := Some(LoadErrorMessage);
      }
      loading := false;
    }

    /** `filteredMatches` of the current state at instant `now`. */
    function FilteredMatches(now: int, offset: int): seq<Match>
      reads this
    {
      Shown(matches, japaneseOnly, now, offset)
    }
  }

  /** A loaded array shows sorted by kickoff, as a subsequence of the sorted
      array, holding only records of the array. */
  lemma LoadedShowsSorted(items: seq<Match>, japaneseOnly: bool, now: int, offset: int)
    ensures var shown := Shown(SortByKickoff(items), japaneseOnly, now, offset);
      SortedBy(shown, SortKey) && IsSubsequence(shown, SortByKickoff(items))
      && multiset(shown) <= multiset(items)
  {
    SortByKickoffCorrect(items);
    var sorted := SortByKickoff(items);
    var shown := Shown(sorted, japaneseOnly, now, offset);
    FilterIsSubsequence(sorted, VisibleTest(japaneseOnly, now, offset));
    FilterKeepsSorted(sorted, VisibleTest(japaneseOnly, now, offset), SortKey);
    forall x
      ensures multiset(shown)[x] <= multiset(items)[x]
    {
      FilterMultiplicity(sorted, VisibleTest(japaneseOnly, now, offset), x);
    }
  }
}
