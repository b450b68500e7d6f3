/** scripts/fetch-jleague.ts: the rows of the J.League schedule table become
    'J.League' records whose kickoff strings carry the Japanese wall-clock
    digits unshifted; `main` keeps the records of the coming week. */
module FetchJLeague {
  import opened Types
  import opened JsString
  import opened EcmaDate
  import opened Kickoff

  const CompetitionName: string := "J.League"

  /** The text the table shows for a date or time not yet fixed. */
  const Undetermined: string := "未定"

  const IdeographicSpace: char := '\U{3000}'

  // -------------------------------------------------------- team names

  /** normalizeTeamName: trim, collapse each white-space run to one space,
      then replace U+3000 by a space. The result has no white space at the
      ends, only single ASCII spaces inside, and the same other characters. */
  function NormalizeTeamName(name: string): (r: string)
    ensures NoEdgeSpace(r) && SingleSpaced(r)
    ensures NonSpace(r) == NonSpace(name)
  {
    var c := Collapse(Trim(name));
    CollapseKeepsEdges(Trim(name));
    TrimKeepsNonSpace(name);
    SingleSpacedNoIdeographicSpace(c);
    ReplaceAbsentChar(c, IdeographicSpace, ' ');
    ReplaceChar(c, IdeographicSpace, ' ')
  }

  /** `\s` already matches U+3000, so the full-width replace never changes
      anything: the name is the trimmed, collapsed text. */
  lemma FullWidthReplaceNoOp(name: string)
    ensures NormalizeTeamName(name) == Collapse(Trim(name))
  {
    var c := Collapse(Trim(name));
    SingleSpacedNoIdeographicSpace(c);
    ReplaceAbsentChar(c, IdeographicSpace, ' ');
  }

  /** A normalized name is its own normalization. */
  lemma NormalizeTeamNameIdempotent(name: string)
    ensures NormalizeTeamName(NormalizeTeamName(name)) == NormalizeTeamName(name)
  {
    var n := NormalizeTeamName(name);
    FullWidthReplaceNoOp(name);
    FullWidthReplaceNoOp(n);
    TrimOfTrimmed(n);
    CollapseOfSingleSpaced(n);
  }

  /** Two words with a run of white space between them come out joined by
      one ASCII space. */
  lemma NormalizeTeamNameJoin(x: string, w: string, y: string)
    requires x != [] && y != [] && NoEdgeSpace(x) && NoEdgeSpace(y)
    requires w != [] && AllSpace(w)
    ensures NormalizeTeamName(x + w + y) == NormalizeTeamName(x) + " " + NormalizeTeamName(y)
  {
    var s := x + w + y;
    assert s[0] == x[0] && s[|s| - 1] == y[|y| - 1];
    FullWidthReplaceNoOp(s);
    FullWidthReplaceNoOp(x);
    FullWidthReplaceNoOp(y);
    TrimOfTrimmed(s);
    TrimOfTrimmed(x);
    TrimOfTrimmed(y);
    CollapseJoin(x, w, y);
  }

  /** White space around a name is dropped. */
  lemma NormalizeTeamNamePadded(w1: string, x: string, w2: string)
    requires AllSpace(w1) && AllSpace(w2) && NoEdgeSpace(x)
    ensures NormalizeTeamName(w1 + x + w2) == NormalizeTeamName(x)
  {
    FullWidthReplaceNoOp(w1 + x + w2);
    FullWidthReplaceNoOp(x);
    TrimPadded(w1, x, w2);
    TrimOfTrimmed(x);
  }

  /** A word without white space is kept as it is. */
  lemma NormalizeTeamNameWord(x: string)
    requires forall i :: 0 <= i < |x| ==> !IsSpace(x[i])
    ensures NormalizeTeamName(x) == x
  {
    FullWidthReplaceNoOp(x);
    TrimOfTrimmed(x);
    CollapseOfSingleSpaced(x);
  }

  // ------------------------------------------------------------- dates

  /** `dateStr.split('(')[0].trim()`: the date without its weekday. */
  function DatePart(dateStr: string): string {
    Trim(Split(dateStr, '(')[0])
  }

  /** The year, month and day numbers of the three '/'-separated fields;
      None when there are not exactly three or one is not a number. */
  function DateNumbers(datePart: string): Option<(int, int, int)> {
    var parts := Split(datePart, '/');
    if |parts| != 3 then None
    else
      match (ParseInt10(parts[0]), ParseInt10(parts[1]), ParseInt10(parts[2]))
      case (Some(yy), Some(month), Some(day)) => Some((yy, month, day))
      case _ => None
  }

  /** The hour and minute numbers of `timeStr.split(':')`; the minute is 0
      when there is no ':'. */
  function TimeNumbers(timeStr: string): Option<(int, int)> {
    var timeParts := Split(timeStr, ':');
    var minute := if |timeParts| >= 2 then ParseInt10(timeParts[1]) else Some(0);
    match (ParseInt10(timeParts[0]), minute)
    case (Some(hour), Some(mi)) => Some((hour, mi))
    case _ => None
  }

  /** The numbers parseJLeagueDate reads: the short year, month, day, hour
      and minute; None where it returns null. */
  function DateArgs(dateStr: string, timeStr: string): Option<(int, int, int, int, int)> {
    var datePart := DatePart(dateStr);
    if datePart == [] || datePart == Undetermined then None
    else
      match (DateNumbers(datePart), TimeNumbers(timeStr))
      case (Some((yy, month, day)), Some((hour, minute))) => Some((yy, month, day, hour, minute))
      case _ => None
  }

  /** `new Date(Date.UTC(2000 + yy, month - 1, day, hour, minute))`, which
      may be an Invalid Date. */
  function KickoffDate(a: (int, int, int, int, int)): DateValue {
    DateUTC(2000 + a.0, a.1 - 1, a.2, a.3, a.4)
  }

  /** parseJLeagueDate: None for null. */
  function ParseJLeagueDate(dateStr: string, timeStr: string): Option<DateValue> {
    match DateArgs(dateStr, timeStr)
    case None => None
    case Some(a) => Some(KickoffDate(a))
  }

  /** An empty or undetermined date is null, whatever the time. */
  lemma UndeterminedDateIsNull(dateStr: string, timeStr: string)
    requires DatePart(dateStr) == [] || DatePart(dateStr) == Undetermined
    ensures ParseJLeagueDate(dateStr, timeStr).None?
  {
  }

  /** A date without '/' does not split into three fields and is null. */
  lemma DateWithoutSlashIsNull(dateStr: string, timeStr: string)
    requires '/' !in DatePart(dateStr)
    ensures ParseJLeagueDate(dateStr, timeStr).None?
  {
    var datePart := DatePart(dateStr);
    SplitNoSep(datePart, '/');
    assert DateNumbers(datePart).None?;
    UnreadDateIsNull(dateStr, timeStr);
  }

  lemma UnreadDateIsNull(dateStr: string, timeStr: string)
    requires DateNumbers(DatePart(dateStr)).None?
    ensures ParseJLeagueDate(dateStr, timeStr).None?
  {
  }

  /** A time whose hour field does not start with a number is null. */
  lemma BadHourIsNull(dateStr: string, timeStr: string)
    requires ParseInt10(Split(timeStr, ':')[0]).None?
    ensures ParseJLeagueDate(dateStr, timeStr).None?
  {
  }

  lemma ParseDigits(d: string)
    requires d != [] && AllDigits(d)
    ensures ParseInt10(d) == Some(DigitsValue(d))
  {
    assert d + [] == d;
    ParseIntOfDigits(d, []);
  }

  lemma DigitsHaveNo(d: string, c: char)
    requires AllDigits(d) && !IsDigit(c)
    ensures c !in d
  {
  }

  lemma SplitTwo(a: string, b: string, sep: char)
    requires sep !in a && sep !in b
    ensures Split(a + [sep] + b, sep) == [a, b]
  {
    SplitAfterPart(a, b, sep);
    SplitNoSep(b, sep);
  }

  lemma SplitThree(a: string, b: string, c: string, sep: char)
    requires sep !in a && sep !in b && sep !in c
    ensures Split(a + [sep] + b + [sep] + c, sep) == [a, b, c]
  {
    assert a + [sep] + b + [sep] + c == a + [sep] + (b + [sep] + c);
    SplitAfterPart(a, b + [sep] + c, sep);
    SplitTwo(b, c, sep);
  }

  /** Three digit fields separated by '/' read as their values. */
  lemma DateNumbersOfDigits(yy: string, mo: string, dd: string)
    requires yy != [] && AllDigits(yy) && mo != [] && AllDigits(mo) && dd != [] && AllDigits(dd)
    ensures DateNumbers(yy + "/" + mo + "/" + dd)
            == Some((DigitsValue(yy) as int, DigitsValue(mo) as int, DigitsValue(dd) as int))
  {
    DigitsHaveNo(yy, '/');
    DigitsHaveNo(mo, '/');
    DigitsHaveNo(dd, '/');
    SplitThree(yy, mo, dd, '/');
    ParseDigits(yy);
    ParseDigits(mo);
    ParseDigits(dd);
  }

  /** `HH:mm` reads as its hour and minute values. */
  lemma TimeNumbersOfDigits(hh: string, mi: string)
    requires hh != [] && AllDigits(hh) && mi != [] && AllDigits(mi)
    ensures TimeNumbers(hh + ":" + mi) == Some((DigitsValue(hh) as int, DigitsValue(mi) as int))
  {
    DigitsHaveNo(hh, ':');
    DigitsHaveNo(mi, ':');
    SplitTwo(hh, mi, ':');
    ParseDigits(hh);
    ParseDigits(mi);
  }

  /** A time with no ':' is read as an hour with minute 0. */
  lemma TimeWithoutColon(hh: string)
    requires hh != [] && AllDigits(hh)
    ensures TimeNumbers(hh) == Some((DigitsValue(hh) as int, 0))
  {
    DigitsHaveNo(hh, ':');
    SplitNoSep(hh, ':');
    ParseDigits(hh);
  }

  /** The part before '(' of `yy/MM/dd(weekday)` is `yy/MM/dd`. */
  lemma DatePartOfDigits(ds: string, rest: string)
    requires ds != [] && IsDigit(ds[0]) && IsDigit(ds[|ds| - 1]) && '(' !in ds
    requires rest == [] || rest[0] == '('
    ensures DatePart(ds + rest) == ds
  {
    FirstPartBefore(ds, rest, '(');
    assert NoEdgeSpace(ds);
    TrimOfTrimmed(ds);
  }

  lemma FirstPartBefore(a: string, rest: string, sep: char)
    requires sep !in a && (rest == [] || rest[0] == sep)
    ensures Split(a + rest, sep)[0] == a
  {
    if rest == [] {
      assert a + rest == a;
      SplitNoSep(a, sep);
    } else {
      assert a + rest == a + [sep] + rest[1..];
      SplitAfterPart(a, rest[1..], sep);
    }
  }

  /** How the date and time numbers combine. */
  lemma DateArgsOf(dateStr: string, timeStr: string, yy: int, month: int, day: int,
                   hour: int, minute: int)
    requires DatePart(dateStr) != [] && DatePart(dateStr) != Undetermined
    requires DateNumbers(DatePart(dateStr)) == Some((yy, month, day))
    requires TimeNumbers(timeStr) == Some((hour, minute))
    ensures DateArgs(dateStr, timeStr) == Some((yy, month, day, hour, minute))
  {
  }

  /** A date `yy/MM/dd(weekday)` is read as its three numbers, whatever the
      time string. */
  lemma DateArgsOfDigitDate(yy: string, mo: string, dd: string, rest: string, timeStr: string,
                            hour: int, minute: int)
    requires yy != [] && AllDigits(yy) && mo != [] && AllDigits(mo) && dd != [] && AllDigits(dd)
    requires rest == [] || rest[0] == '('
    requires TimeNumbers(timeStr) == Some((hour, minute))
    ensures DateArgs(yy + "/" + mo + "/" + dd + rest, timeStr)
            == Some((DigitsValue(yy) as int, DigitsValue(mo) as int, DigitsValue(dd) as int, hour, minute))
  {
    var ds := yy + "/" + mo + "/" + dd;
    DatePartOfFields(yy, mo, dd, rest);
    DigitDateDetermined(yy, mo, dd);
    DateNumbersOfDigits(yy, mo, dd);
    DateArgsOf(ds + rest, timeStr, DigitsValue(yy), DigitsValue(mo), DigitsValue(dd), hour, minute);
  }

  /** `yy/MM/dd(weekday)` with `HH:mm` is read as those five numbers. */
  lemma DateArgsOfDigits(yy: string, mo: string, dd: string, rest: string, hh: string, mi: string)
    requires yy != [] && AllDigits(yy) && mo != [] && AllDigits(mo) && dd != [] && AllDigits(dd)
    requires hh != [] && AllDigits(hh) && mi != [] && AllDigits(mi)
    requires rest == [] || rest[0] == '('
    ensures DateArgs(yy + "/" + mo + "/" + dd + rest, hh + ":" + mi)
            == Some((DigitsValue(yy) as int, DigitsValue(mo) as int, DigitsValue(dd) as int,
                     DigitsValue(hh) as int, DigitsValue(mi) as int))
  {
    TimeNumbersOfDigits(hh, mi);
    DateArgsOfDigitDate(yy, mo, dd, rest, hh + ":" + mi, DigitsValue(hh), DigitsValue(mi));
  }

  lemma DatePartOfFields(yy: string, mo: string, dd: string, rest: string)
    requires yy != [] && AllDigits(yy) && mo != [] && AllDigits(mo) && dd != [] && AllDigits(dd)
    requires rest == [] || rest[0] == '('
    ensures DatePart(yy + "/" + mo + "/" + dd + rest) == yy + "/" + mo + "/" + dd
  {
    var ds := yy + "/" + mo + "/" + dd;
    assert ds[0] == yy[0] && ds[|ds| - 1] == dd[|dd| - 1];
    DigitsHaveNo(yy, '(');
    DigitsHaveNo(mo, '(');
    DigitsHaveNo(dd, '(');
    DatePartOfDigits(ds, rest);
  }

  lemma DigitDateDetermined(yy: string, mo: string, dd: string)
    requires yy != [] && AllDigits(yy)
    ensures yy + "/" + mo + "/" + dd != [] && yy + "/" + mo + "/" + dd != Undetermined
  {
    var ds := yy + "/" + mo + "/" + dd;
    assert ds[0] == yy[0];
    assert ds[0] != Undetermined[0];
  }

  /** Whenever the numbers are read, the Date is the one Date.UTC makes of
      them. */
  lemma ParseJLeagueDateOfArgs(dateStr: string, timeStr: string, a: (int, int, int, int, int))
    requires DateArgs(dateStr, timeStr) == Some(a)
    ensures ParseJLeagueDate(dateStr, timeStr) == Some(KickoffDate(a))
  {
  }

  /** For in-range numbers of the years 2000 to 2099 the Date is the instant
      with exactly those fields, seconds 0: no shift. */
  lemma KickoffDateOfFields(f: Fields)
    requires ValidFields(f) && 2000 <= f.year <= 2099 && f.second == 0 && f.millisecond == 0
    ensures KickoffDate((f.year - 2000, f.month, f.day, f.hour, f.minute)) == Time(TimeOfFields(f))
  {
    DateUTCOfValidFields(f);
  }

  /** Nothing checks the day against the month: 30 February is 1 March in a
      leap year and 2 March otherwise. */
  lemma FebruaryThirtiethRollsOver(yy: int, hour: int, minute: int)
    requires -1900 <= yy <= 7999
    ensures KickoffDate((yy, 2, 30, hour, minute))
            == KickoffDate((yy, 3, if IsLeap(2000 + yy) then 1 else 2, hour, minute))
  {
    var y := 2000 + yy;
    FourDigitYearDays(y);
    assert 1 / 12 == 0 && 1 % 12 == 1 && 2 / 12 == 0 && 2 % 12 == 2;
    assert DayFromCivil(Civil(y, 2, 1)) + 29
           == DayFromCivil(Civil(y, 3, 1)) + (if IsLeap(y) then 0 else 1);
  }

  // -------------------------------------------------------------- rows

  /** A `td` cell: its text and the texts of the `a` elements inside it. */
  datatype Cell = Cell(text: string, links: seq<string>)

  /** `$(cell).find('a').text()`: the texts of all the links, run together. */
  function LinksText(links: seq<string>): string {
    if links == [] then [] else LinksText(links[..|links| - 1]) + links[|links| - 1]
  }

  /** The team cell's text: its links' text when it has links. */
  function TeamText(c: Cell): string {
    if |c.links| > 0 then Trim(LinksText(c.links)) else Trim(c.text)
  }

  /** The trimmed texts the row mapper reads, before any check. */
  datatype RowText = RowText(round: string, date: string, time: string,
                             home: string, score: string, away: string)

  function ReadRow(cells: seq<Cell>): RowText
    requires |cells| >= 8
  {
    RowText(Trim(cells[2].text), Trim(cells[3].text), Trim(cells[4].text),
            TeamText(cells[5]), Trim(cells[6].text), TeamText(cells[7]))
  }

  /** The skip test of line 105: an undetermined date or no kickoff time. */
  predicate Unscheduled(r: RowText) {
    r.date == Undetermined || r.time == [] || r.time == "-"
  }

  function StatusOfScore(score: string): string {
    if score != [] && score != "-" then "FINISHED" else "TIMED"
  }

  /** The record of the row at position `index` of the table, or None when
      the row is skipped: unscheduled, a null date, or an Invalid Date (whose
      toISOString throws into the row's catch). */
  function RecordOfRow(index: nat, r: RowText): Option<Match> {
    if Unscheduled(r) then None
    else
      match ParseJLeagueDate(r.date, r.time)
      case None => None
      case Some(NaN) => None
      case Some(Time(t)) =>
        var id := JLeagueId(index, t);
        Some(Match(id, id, CompetitionName, None, if r.round == [] then None else Some(r.round),
                   ToIsoString(Time(t)).value, NormalizeTeamName(r.home), NormalizeTeamName(r.away),
                   None, None, true, Some(StatusOfScore(r.score))))
  }

  /** `jleague-${index}-${kickoffDate.getTime()}`. */
  function JLeagueId(index: nat, t: int): string {
    "jleague-" + IntToString(index) + "-" + IntToString(t)
  }

  /** The row index reads back from the id. */
  lemma JLeagueIdIndex(index: nat, t: int)
    ensures |JLeagueId(index, t)| > 8 && JLeagueId(index, t)[..8] == "jleague-"
    ensures ParseInt10(JLeagueId(index, t)[8..]) == Some(index)
  {
    assert JLeagueId(index, t) == "jleague-" + IntToString(index) + ("-" + IntToString(t));
    PrefixedIntReadsBack("jleague-", index, "-" + IntToString(t));
  }

  /** A row of fewer than 8 cells is not a data row. */
  function RowRecord(index: nat, cells: seq<Cell>): Option<Match> {
    if |cells| < 8 then None else RecordOfRow(index, ReadRow(cells))
  }

  function RowRecordOf(): ((nat, seq<Cell>)) -> Option<Match> {
    (p: (nat, seq<Cell>)) => RowRecord(p.0, p.1)
  }

  /** A row is kept iff it is scheduled and its date parses to a valid Date. */
  lemma RecordOfRowKept(index: nat, r: RowText)
    ensures RecordOfRow(index, r).Some?
            <==> !Unscheduled(r) && ParseJLeagueDate(r.date, r.time).Some?
                 && ParseJLeagueDate(r.date, r.time).value.Time?
  {
  }

  /** Every record is a flagged 'J.League' record with normalized names, a
      non-empty round or none, a status that says whether a score is shown,
      and the kickoff instant printed by toISOString. */
  lemma RecordOfRowFields(index: nat, r: RowText, m: Match)
    requires RecordOfRow(index, r) == Some(m)
    ensures m.competition == CompetitionName && m.hasJapanesePlayer
    ensures m.competitionId.None? && m.homeTeamId.None? && m.awayTeamId.None?
    ensures m.homeTeam == NormalizeTeamName(r.home) && m.awayTeam == NormalizeTeamName(r.away)
    ensures m.round.Some? <==> r.round != []
    ensures m.round.Some? ==> m.round.value == r.round
    ensures m.status == Some("FINISHED") <==> r.score != [] && r.score != "-"
    ensures m.status == Some("FINISHED") || m.status == Some("TIMED")
    ensures ParseJLeagueDate(r.date, r.time).Some?
    ensures var d := ParseJLeagueDate(r.date, r.time).value;
            d.Time? && ToIsoString(d) == Some(m.kickoff)
  {
  }

  /** A row whose date and time read as in-range numbers stores the
      wall-clock digits verbatim, with seconds 0 and a 'Z'. */
  lemma RecordKickoffVerbatim(index: nat, r: RowText, m: Match, f: Fields)
    requires RecordOfRow(index, r) == Some(m)
    requires ValidFields(f) && 2000 <= f.year <= 2099 && f.second == 0 && f.millisecond == 0
    requires DateArgs(r.date, r.time) == Some((f.year - 2000, f.month, f.day, f.hour, f.minute))
    ensures m.kickoff == DateTimeText(ZeroPad(f.year, 4), f) + "Z"
  {
    RecordOfRowFields(index, r, m);
    ParseJLeagueDateOfArgs(r.date, r.time, (f.year - 2000, f.month, f.day, f.hour, f.minute));
    KickoffDateOfFields(f);
    IsoStringOfFields(f);
  }

  /** The id is `jleague-<index>-<time value>`, the same for both id fields,
      and the index reads back from it. */
  lemma RecordOfRowId(index: nat, r: RowText, m: Match)
    requires RecordOfRow(index, r) == Some(m)
    ensures m.id == m.apiMatchId && |m.id| > 8 && m.id[..8] == "jleague-"
    ensures ParseInt10(m.id[8..]) == Some(index)
  {
    var t := ParseJLeagueDate(r.date, r.time).value.ms;
    assert m.id == JLeagueId(index, t);
    JLeagueIdIndex(index, t);
  }

  /** Rows at different positions never share an id. */
  lemma RecordIdsDistinct(i: nat, ri: RowText, mi: Match, j: nat, rj: RowText, mj: Match)
    requires RecordOfRow(i, ri) == Some(mi) && RecordOfRow(j, rj) == Some(mj) && i != j
    ensures mi.id != mj.id
  {
    RecordOfRowId(i, ri, mi);
    RecordOfRowId(j, rj, mj);
  }

  // -------------------------------------------------------------- fetch

  /** What fetchJLeagueMatches returns for the rows of the page, or for a
      failed fetch (None), which the outer catch turns into []. */
  function PageRecords(page: Option<seq<seq<Cell>>>): seq<Match> {
    match page
    case None => []
    case Some(rows) => Collect(Indexed(rows), RowRecordOf())
  }

  /** fetchJLeagueMatches: the `.each` loop over the rows, pushing each kept
      row's record. */
  method FetchJLeagueMatches(page: Option<seq<seq<Cell>>>) returns (matches: seq<Match>)
    ensures matches == PageRecords(page)
  {
    if page.None? {
      return [];
    }
    matches := CollectIndexed(page.value, RowRecordOf());
  }

  /** A record is fetched iff the row at some position produces it: a
      skipped row never stops the rows after it. */
  lemma PageRecordsMembers(rows: seq<seq<Cell>>, m: Match)
    ensures m in PageRecords(Some(rows)) <==> exists i :: 0 <= i < |rows| && RowRecord(i, rows[i]) == Some(m)
  {
    CollectIndexedMembers(rows, RowRecordOf(), m);
  }

  /** The records follow the row order of the table: the p-th record comes
      from the p-th row that yields one, those rows increase, and every row
      that yields a record is among them. */
  lemma PageRecordsOrder(rows: seq<seq<Cell>>)
    ensures var r, k := PageRecords(Some(rows)), Kept(Indexed(rows), RowRecordOf());
      && |k| == |r|
      && (forall p :: 0 <= p < |k| ==> k[p] < |rows| && RowRecord(k[p], rows[k[p]]) == Some(r[p]))
      && (forall p, q :: 0 <= p < q < |k| ==> k[p] < k[q])
      && (forall i :: 0 <= i < |rows| && RowRecord(i, rows[i]).Some? ==> i in k)
  {
    CollectIndexedOrder(rows, RowRecordOf());
    assert forall i :: 0 <= i < |rows| ==> RowRecordOf()((i, rows[i])) == RowRecord(i, rows[i]);
  }

  /** At most one record per row, and every record is a 'J.League' record
      flagged as having Japanese players. */
  lemma PageRecordsShape(page: Option<seq<seq<Cell>>>)
    ensures page.Some? ==> |PageRecords(page)| <= |page.value|
    ensures forall m :: m in PageRecords(page) ==> m.competition == CompetitionName && m.hasJapanesePlayer
  {
    if page.Some? {
      var rows := page.value;
      forall m | m in PageRecords(page)
        ensures m.competition == CompetitionName && m.hasJapanesePlayer
      {
        PageRecordsMembers(rows, m);
        var i :| 0 <= i < |rows| && RowRecord(i, rows[i]) == Some(m);
        RecordOfRowFields(i, ReadRow(rows[i]), m);
      }
    }
  }

  // --------------------------------------------------------------- main

  /** What `main` writes to matches.jleague.json: the fetched records whose
      kickoff lies between a day before `now` and a week after it, in fetched
      order; None when there are none and nothing is written. */
  method SaveJLeagueMatches(page: Option<seq<seq<Cell>>>, now: int)
    returns (written: Option<seq<Match>>)
    ensures written == NonEmpty(Filter(PageRecords(page), InWindowTest(DayBefore(now), DaysAfter(now, 7))))
  {
    var all := FetchJLeagueMatches(page);
    var filtered := Filter(all, InWindowTest(DayBefore(now), DaysAfter(now, 7)));
    if |filtered| > 0 {
      written := Some(filtered);
    } else {
      written := None;
    }
  }

  /** A file is written iff some fetched record lies in the window, and it
      holds exactly the fetched records in the window. */
  lemma SavedJLeagueMatches(page: Option<seq<seq<Cell>>>, now: int, m: Match)
    ensures var w := Filter(PageRecords(page), InWindowTest(DayBefore(now), DaysAfter(now, 7)));
      && (NonEmpty(w).Some? <==> exists x :: x in PageRecords(page) && InWindow(x, DayBefore(now), DaysAfter(now, 7)))
      && (m in w <==> m in PageRecords(page) && InWindow(m, DayBefore(now), DaysAfter(now, 7)))
  {
    var w := Filter(PageRecords(page), InWindowTest(DayBefore(now), DaysAfter(now, 7)));
    if w != [] {
      assert w[0] in w;
    }
  }
}
