# Soccer fixtures pipeline, modelled in Dafny

The system publishes a one-week schedule of soccer fixtures, with the
fixtures involving Japanese players marked. It has three parts.

- **Fetch scripts** build a flat list of `Match` records.
  - `scripts/fetch-matches.ts` queries football-data.org league by league and
    converts each kickoff to Japan Standard Time (JST) wall-clock digits with a
    'Z' suffix. It flags teams with Japanese players by substring matching
    against the table in `lib/japanese-teams.ts`. It then appends the cached
    J.League and Jupiler Pro League files inside the window from a day before
    now to a week after it, sorts by kickoff and writes `matches.json` when
    the list is nonempty.
  - `scripts/fetch-jleague.ts` scrapes the J.League table.
  - `scripts/fetch-proleague.ts` reads the Pro League page's embedded JSON.
  - `scripts/merge-jleague.ts` replaces the J.League records of `matches.json`
    by the fresh ones of a three-week window and re-sorts.
  - `scripts/build-japanese-teams.ts` regenerates `lib/japanese-teams.ts` from
    a JSON map.
- **The page** `app/page.tsx` loads `matches.json` and sorts it. It shows the
  records from the last millisecond of the previous local day to a week
  ahead, optionally only those with Japanese players. It labels teams in
  Japanese and styles rows by competition.

Module layout, one file each:
- `Types`: the `Match` record and `Option`.
- `JsString`: the JavaScript string built-ins the scripts use:
  - `trim`;
  - `replace(/\s+/g, ' ')`;
  - `includes`;
  - `split`;
  - `parseInt`;
  - number `toString`.
- `EcmaDate`: the ECMAScript date arithmetic:
  - day and year numbers;
  - `Date.UTC` with its roll-over;
  - `toISOString`;
  - the ISO parser;
  - the date-fns pattern `yyyy-MM-dd'T'HH:mm:ss.SSS`.
- `Kickoff`: the window filter, the stable kickoff sort (a specification
  function plus an in-place insertion sort on an array) and the loop shapes
  the scripts share.
- One module per core file:
  - `JapaneseTeams`;
  - `FetchMatches`;
  - `FetchJLeague`;
  - `FetchProLeague`;
  - `MergeJLeague`;
  - `BuildJapaneseTeams`;
  - `Page`, whose `SchedulePage` class holds the React state.

How the model stands in for the outside world:
- Network responses, files on disk and parsed HTML/JSON are inputs of the
  model. A missing file or a failed fetch is `None`.
- `Date.now()` / `new Date()` become parameters:
  - `now`, in ms since the epoch;
  - the page's local-time offset `offset`;
  - a `clock` that gives the two `Date.now()` readings the Pro League script
    takes per record.

Where a comment and the code disagree, the model follows the code:
- Windows for the cached files: the comment at `scripts/fetch-matches.ts:122`
  says the window starts at the end of the previous day (23:59:59). The
  scripts use `subDays(now, 1)`, exactly 24 hours before now. Only the page
  uses the end of the previous local day (`Page.WindowStartSpec`).
- Team names in the J.League and Pro League scripts are normalised with a
  regex whose `\s` already covers U+3000. The separate full-width
  replacement never changes anything (`FetchJLeague.FullWidthReplaceNoOp`).

## Model

| member | source | states |
|---|---|---|
| JapaneseTeams.NoJLeagueEntry | lib/japanese-teams.ts:5-68 | The table has no 'J.League' key, so its pattern list is empty |
| JapaneseTeams.WorldCupEntry | lib/japanese-teams.ts:66-68 | The World Cup patterns are exactly ["Japan"] |
| JapaneseTeams.TableKeys | lib/japanese-teams.ts:5-69 | The competitions with an entry are exactly the eleven listed |
| JapaneseTeams.TableSize | lib/japanese-teams.ts:5-69 | The table has exactly 11 competition keys |
| JapaneseTeams.PremierLeagueEntry | lib/japanese-teams.ts:14-20 | The Premier League patterns are exactly the five listed, "Brighton Hove" last |
| JapaneseTeams.ProLeagueEntry | lib/japanese-teams.ts:59-65 | 'Jupiler Pro League' has exactly five patterns |
| FetchMatches.SomePatternMatchesIff | scripts/fetch-matches.ts:91 | `some` holds iff some pattern contains the name or is contained in it |
| FetchMatches.HasJapanesePlayerIff | scripts/fetch-matches.ts:89-98 | A team is flagged iff a pattern of its competition and its name contain one another, or its name contains "Japan" or "日本" |
| FetchMatches.NoEntryOnlyJapanRule | scripts/fetch-matches.ts:90-96 | For a competition missing from the table, only the Japan rule can flag |
| FetchMatches.EmptyNameFlagged | scripts/fetch-matches.ts:91 | An empty team name is flagged in every competition with a pattern, since every pattern includes "" |
| FetchMatches.BayernFlagged | scripts/fetch-matches.ts:89-98 | "FC Bayern München" in the Bundesliga is flagged |
| FetchMatches.RomaNotFlagged | scripts/fetch-matches.ts:89-98 | "AS Roma" in Serie A is not flagged |
| FetchMatches.BrightonNotFlagged | scripts/fetch-matches.ts:89-98 | "Brighton & Hove Albion FC" in the Premier League is not flagged: no pattern is part of the name, the name is part of no pattern, and it does not mention Japan |
| FetchMatches.BrightonHoveNotContained | scripts/fetch-matches.ts:91 | "Brighton Hove" is not a contiguous part of "Brighton & Hove Albion FC" |
| FetchMatches.JstTextShifts | scripts/fetch-matches.ts:108-109 | The Tokyo wall-clock text of an instant, read back as UTC, is that instant plus nine hours (years 1 to 9999) |
| FetchMatches.ConvertToJSTShifts | scripts/fetch-matches.ts:106-110 | The stored kickoff, read back as UTC, is the API instant plus nine hours |
| FetchMatches.ConvertToJSTInvalid | scripts/fetch-matches.ts:106-110 | An unparseable API date makes the conversion throw (no record) |
| FetchMatches.ApiRecordFields | scripts/fetch-matches.ts:147-180 | A record exists iff the kickoff converts; its round is present iff the matchday is nonzero, and is then 第, digits that parseInt reads back as the matchday, and 節; its kickoff and competition are the converted date and the league; it is flagged iff either team is |
| FetchMatches.ApiRecordIds | scripts/fetch-matches.ts:165-174 | The match, team and competition ids read back with parseInt as the upstream numbers, and id equals api_match_id |
| FetchMatches.CollectLeagues | scripts/fetch-matches.ts:135-189 | The league loop collects every league's records, league by league |
| FetchMatches.BuildMatches | scripts/fetch-matches.ts:132-259 | The file written is None when nothing was collected, else the collected records sorted by kickoff |
| FetchMatches.BuildMatchesContents | scripts/fetch-matches.ts:240-243 | The written list is sorted, a permutation of the collected records, and as long as the three sources together |
| FetchMatches.CachedJLeagueInWindow | scripts/fetch-matches.ts:201-207 | A cached J.League record is kept iff its kickoff lies from a day before now to a week after it |
| FetchMatches.CachedProLeagueInWindow | scripts/fetch-matches.ts:221-232 | Each cached Pro League record kept is a cached record inside the window with only its flag replaced, and the flag is the one recomputed for 'Jupiler Pro League' |
| FetchMatches.CachedProLeagueExact | scripts/fetch-matches.ts:221-232 | The kept list is as long as the in-window cached list and follows it record for record, changing only the flag to the recomputed one; every in-window cached record appears in it |
| FetchJLeague.NormalizeTeamName | scripts/fetch-jleague.ts:11-16 | The result has no edge white space, only single ASCII spaces, and the same non-space characters as the input |
| FetchJLeague.NormalizeTeamNameJoin | scripts/fetch-jleague.ts:11-16 | Two words with a run of white space between them come out as the two normalised words joined by one ASCII space |
| FetchJLeague.NormalizeTeamNamePadded | scripts/fetch-jleague.ts:11-16 | White space before and after a name is dropped |
| FetchJLeague.NormalizeTeamNameWord | scripts/fetch-jleague.ts:11-16 | A word without white space is kept unchanged; with the two lemmas above this fixes the output for every name |
| FetchJLeague.FullWidthReplaceNoOp | scripts/fetch-jleague.ts:15 | The U+3000 replacement never changes the trimmed, collapsed name |
| FetchJLeague.NormalizeTeamNameIdempotent | scripts/fetch-jleague.ts:11-16 | Normalising twice equals normalising once |
| FetchJLeague.UndeterminedDateIsNull | scripts/fetch-jleague.ts:22-25 | An empty or '未定' date part gives null |
| FetchJLeague.DateWithoutSlashIsNull | scripts/fetch-jleague.ts:28-31 | A date part without '/' gives null |
| FetchJLeague.UnreadDateIsNull | scripts/fetch-jleague.ts:28-39 | A date whose three fields do not all parse gives null |
| FetchJLeague.BadHourIsNull | scripts/fetch-jleague.ts:44-50 | A time whose hour does not parse gives null |
| FetchJLeague.DateNumbersOfDigits | scripts/fetch-jleague.ts:28-39 | Three digit fields joined by '/' read as their values |
| FetchJLeague.TimeNumbersOfDigits | scripts/fetch-jleague.ts:44-46 | `HH:mm` reads as its hour and minute |
| FetchJLeague.TimeWithoutColon | scripts/fetch-jleague.ts:45-46 | A time without ':' reads as that hour with minute 0 |
| FetchJLeague.DateArgsOfDigits | scripts/fetch-jleague.ts:19-50 | `yy/MM/dd(weekday)` with `HH:mm` yields exactly those five numbers |
| FetchJLeague.ParseJLeagueDateOfArgs | scripts/fetch-jleague.ts:54-55 | Whenever the numbers are read, the result is the Date that Date.UTC makes of them |
| FetchJLeague.KickoffDateOfFields | scripts/fetch-jleague.ts:41-54 | In-range numbers of 2000-2099 give the instant with exactly those fields |
| FetchJLeague.FebruaryThirtiethRollsOver | scripts/fetch-jleague.ts:54 | Day 30 of February is not rejected and rolls over into March |
| FetchJLeague.RecordOfRowKept | scripts/fetch-jleague.ts:105-113 | A row gives a record iff it is scheduled and its date parses to a valid Date |
| FetchJLeague.RecordOfRowFields | scripts/fetch-jleague.ts:116-130 | A record is a flagged 'J.League' record with normalised names, round iff non-empty, FINISHED iff a score is shown, kickoff the toISOString of the parsed date |
| FetchJLeague.RecordKickoffVerbatim | scripts/fetch-jleague.ts:52-54 | The stored kickoff is the wall-clock digits of the table, seconds 0, with a 'Z' |
| FetchJLeague.JLeagueIdIndex | scripts/fetch-jleague.ts:121 | The id starts with "jleague-" and the row index reads back after it |
| FetchJLeague.RecordOfRowId | scripts/fetch-jleague.ts:121-122 | Both ids agree, start with "jleague-" and carry the row index |
| FetchJLeague.RecordIdsDistinct | scripts/fetch-jleague.ts:121 | Rows at different positions never share an id |
| FetchJLeague.FetchJLeagueMatches | scripts/fetch-jleague.ts:80-143 | The `.each` loop returns the records of the kept rows, and [] when the fetch fails |
| FetchJLeague.PageRecordsMembers | scripts/fetch-jleague.ts:83-136 | A record is fetched iff the row at some position produces it; a skipped row does not stop later ones |
| FetchJLeague.PageRecordsOrder | scripts/fetch-jleague.ts:83-136 | The records follow the row order: the p-th record comes from the p-th row that yields one, those rows increase, and every row yielding a record is among them |
| FetchJLeague.PageRecordsShape | scripts/fetch-jleague.ts:87-132 | At most one record per row, each a flagged 'J.League' record |
| FetchJLeague.SaveJLeagueMatches | scripts/fetch-jleague.ts:151-178 | The written file is the fetched records in the window, in order, and None when there are none |
| FetchJLeague.SavedJLeagueMatches | scripts/fetch-jleague.ts:161-169 | A file is written iff some record lies in the window, and it holds exactly those records |
| FetchProLeague.NormalizeTeamName | scripts/fetch-proleague.ts:30-34 | No edge white space, single ASCII spaces, the same non-space characters |
| FetchProLeague.NormalizeTeamNameJoin | scripts/fetch-proleague.ts:30-34 | Two words with a run of white space between them come out as the two normalised words joined by one ASCII space |
| FetchProLeague.NormalizeTeamNamePadded | scripts/fetch-proleague.ts:30-34 | White space before and after a name is dropped |
| FetchProLeague.NormalizeTeamNameWord | scripts/fetch-proleague.ts:30-34 | A word without white space is kept unchanged; with the two lemmas above this fixes the output for every name |
| FetchProLeague.NormalizeTeamNameIdempotent | scripts/fetch-proleague.ts:30-34 | Normalising twice equals normalising once |
| FetchProLeague.UtcToJstStorageShifts | scripts/fetch-proleague.ts:37-41 | The stored text, read back as UTC, is the API instant plus nine hours (years 0 to 9999) |
| FetchProLeague.UtcToJstStorageInvalid | scripts/fetch-proleague.ts:37-41 | An unreadable time makes toISOString throw |
| FetchProLeague.UtcToJstStorageAgrees | scripts/fetch-proleague.ts:37-41 | When the Tokyo wall clock falls in the years 1 to 9999, it stores the same text as fetch-matches' convertToJST |
| FetchProLeague.RawMatchesFromFirstModule | scripts/fetch-proleague.ts:84-87 | The matches are read from the first grid, area and module only |
| FetchProLeague.RawMatchesMissingPath | scripts/fetch-proleague.ts:84-94 | A missing first grid, area or module gives no matches |
| FetchProLeague.ProLeagueIdIndex | scripts/fetch-proleague.ts:109-110 | The id starts with "proleague-" and the position reads back after it |
| FetchProLeague.RawStepCases | scripts/fetch-proleague.ts:98-118 | An entry is skipped iff a name or the time is missing or empty, throws iff complete with no ISO text, and otherwise pushes the record built from it |
| FetchProLeague.RawStepThrowsOnUnreadable | scripts/fetch-proleague.ts:104 | A complete entry with an unreadable time throws |
| FetchProLeague.RawStepPushesInRange | scripts/fetch-proleague.ts:104 | A complete entry with a readable time in years 0-9999 is pushed, its kickoff nine hours later |
| FetchProLeague.RawStepFields | scripts/fetch-proleague.ts:105-118 | A pushed record: Pro League, no round or ids, unflagged, normalised names, FINISHED iff 'FullTime', ids from the position and the two clock readings |
| FetchProLeague.FetchProLeagueMatches | scripts/fetch-proleague.ts:96-126 | The loop returns the pushed records, or [] once an entry throws |
| FetchProLeague.FetchedRecordsSpec | scripts/fetch-proleague.ts:96-126 | One throwing entry empties the result; otherwise a record is fetched iff some entry pushes it |
| FetchProLeague.FetchedRecordsOrder | scripts/fetch-proleague.ts:96-126 | When no entry throws, the records follow the order of the raw matches: the p-th record is pushed by the p-th pushing entry, those entries increase, and every pushing entry is among them |
| FetchProLeague.FetchedRecordsShape | scripts/fetch-proleague.ts:108-118 | At most one record per entry, each an unflagged Pro League record |
| FetchProLeague.SaveProLeagueMatches | scripts/fetch-proleague.ts:140-165 | The written file is the fetched records in the window, in order, and None when there are none |
| FetchProLeague.SavedProLeagueMatches | scripts/fetch-proleague.ts:142-151 | A file is written iff some record lies in the window, and it holds exactly those records |
| MergeJLeague.MergeJLeagueMatches | scripts/merge-jleague.ts:14-60 | The run's outcome: an exit for a missing file, else the sorted concatenation it writes |
| MergeJLeague.MergeNeedsBothFiles | scripts/merge-jleague.ts:14-27 | A file is written iff both exist; matches.json is checked first |
| MergeJLeague.MergedContents | scripts/merge-jleague.ts:32-55 | The written list is sorted and holds each old non-J.League record and each fresh record in the 21-day window, each as often, and nothing else |
| MergeJLeague.MergedJLeagueCount | scripts/merge-jleague.ts:38-50 | The J.League records written are the fresh ones in the window, as many as there are; no old one survives |
| MergeJLeague.MergeIdempotent | scripts/merge-jleague.ts:38-60 | Re-running on the written list with a J.League-only file writes the same list |
| MergeJLeague.MergeOfFetchedJLeagueFileIdempotent | scripts/merge-jleague.ts:29-60 | The file the J.League fetch writes makes the merge idempotent |
| BuildJapaneseTeams.EmptyTeamListRendering | scripts/build-japanese-teams.ts:27-28 | An empty team list renders as `[\n\n  ]` |
| BuildJapaneseTeams.QuotedNamesHaveNoQuote | scripts/build-japanese-teams.ts:27-28 | No name read back from the generated text contains a double quote |
| BuildJapaneseTeams.TeamsReadBack | scripts/build-japanese-teams.ts:27 | The rendered team list reads back as the team list |
| BuildJapaneseTeams.EntryReadBack | scripts/build-japanese-teams.ts:26-29 | An entry reads back as its league followed by its teams |
| BuildJapaneseTeams.Names | scripts/build-japanese-teams.ts:46-47 | The names of the map number the league count plus the team count |
| BuildJapaneseTeams.EntriesReadBack | scripts/build-japanese-teams.ts:25-30 | The joined entries read back as every league and team in order |
| BuildJapaneseTeams.FixedTextHasNoQuote | scripts/build-japanese-teams.ts:32-39 | The fixed text around the entries holds no double quote |
| BuildJapaneseTeams.TsContentReadBack | scripts/build-japanese-teams.ts:25-39 | The generated file's double-quoted segments are exactly the leagues and teams of the map, in order, when none contains a double quote |
| BuildJapaneseTeams.PlainNames | scripts/build-japanese-teams.ts:25-30 | When every league and team is free of double quotes, backslashes and line breaks, so is every name of the map in order |
| BuildJapaneseTeams.TsContentLiterals | scripts/build-japanese-teams.ts:25-39 | When no league or team holds a double quote, a backslash, LF or CR, the file's string literals are exactly the leagues and teams of the map, in order, each segment holding no escape or line break so that it denotes its own characters |
| BuildJapaneseTeams.UnescapedQuoteBreaksOutput | scripts/build-japanese-teams.ts:27-28 | A name with a double quote makes the file's literals differ from the map |
| BuildJapaneseTeams.BuildReports | scripts/build-japanese-teams.ts:16-47 | The run fails iff the read fails; the reported league and team counts together number the names of the file |
| Page.LookupSpec | app/page.tsx:271-273 | A key is found iff some entry has it, and then the value is that of its first entry |
| Page.LookupAt | app/page.tsx:272 | The entry at a position with no earlier entry for its key is the one read |
| Page.LookupAbsent | app/page.tsx:272 | A key no entry has reads as undefined |
| Page.LookupAppend | app/page.tsx:8-268 | Reading concatenated tables reads the first, then the second |
| Page.ValueOrSpec | app/page.tsx:441-442 | The value or the fallback: an absent key or an empty value gives the fallback; otherwise the first entry's value; any other result is an entry's value |
| Page.LabelPastSections | app/page.tsx:8-273 | A name absent from earlier sections gets its label from the section that has it |
| Page.AtleticoNotPremierLeague | app/page.tsx:8-268 | The Premier League names do not hold 'Atletico Madrid' |
| Page.AtleticoInLaLiga | app/page.tsx:41 | La Liga maps 'Atletico Madrid' to アトレティコ・マドリード |
| Page.AtleticoLabel | app/page.tsx:41 | 'Atletico Madrid' is shown as アトレティコ・マドリード |
| Page.ClubAtleticoNotPremierLeague | app/page.tsx:8-268 | The Premier League names do not hold 'Club Atlético de Madrid' |
| Page.ClubAtleticoInLaLiga | app/page.tsx:40 | La Liga maps 'Club Atlético de Madrid' to アトレティコ・マドリード |
| Page.ClubAtleticoLabel | app/page.tsx:40 | 'Club Atlético de Madrid' is shown as アトレティコ・マドリード |
| Page.AtleticoSpellingsShareLabel | app/page.tsx:40-41 | Both spellings of Atlético de Madrid get the same label |
| Page.LabelPastThreeSections | app/page.tsx:8-273 | A name absent from three earlier sections gets its label from the fourth |
| Page.BochumNotPremierLeague | app/page.tsx:8-268 | The Premier League names do not hold 'VfL Bochum' |
| Page.BochumNotLaLiga | app/page.tsx:8-268 | The La Liga names do not hold 'VfL Bochum' |
| Page.BochumNotSerieA | app/page.tsx:8-268 | The Serie A names do not hold 'VfL Bochum' |
| Page.BochumInBundesliga | app/page.tsx:95 | The Bundesliga maps 'VfL Bochum' to ボーフム |
| Page.BochumLabel | app/page.tsx:95 | 'VfL Bochum' is shown as ボーフム |
| Page.Bochum1848NotPremierLeague | app/page.tsx:8-268 | The Premier League names do not hold 'VfL Bochum 1848' |
| Page.Bochum1848NotLaLiga | app/page.tsx:8-268 | The La Liga names do not hold 'VfL Bochum 1848' |
| Page.Bochum1848NotSerieA | app/page.tsx:8-268 | The Serie A names do not hold 'VfL Bochum 1848' |
| Page.Bochum1848InBundesliga | app/page.tsx:108 | The Bundesliga maps 'VfL Bochum 1848' to ボーフム |
| Page.Bochum1848Label | app/page.tsx:108 | 'VfL Bochum 1848' is shown as ボーフム |
| Page.BochumSpellingsShareLabel | app/page.tsx:95-108 | Both spellings of VfL Bochum get the same label |
| Page.StyleTablesAgree | app/page.tsx:276-303 | The flag and colour tables name the same competitions in the same order |
| Page.ProLeagueHasNoFlag | app/page.tsx:276-288 | The flag table has no 'Jupiler Pro League' entry |
| Page.ProLeagueHasNoColor | app/page.tsx:291-303 | The colour table has no 'Jupiler Pro League' entry |
| Page.ProLeagueUnstyled | app/page.tsx:441-442 | Pro League rows get the white flag and a white background |
| Page.JLeagueStyled | app/page.tsx:287-302 | J.League rows get the Japanese flag and the light red background |
| Page.WindowStartSpec | app/page.tsx:320-323 | `yesterday` is the last millisecond of the local day before now's, between a day before now and now |
| Page.ShownSpec | app/page.tsx:312-344 | A record is shown iff it is loaded, passes the Japanese-only test and parses to an instant in [yesterday, nextWeek]; the shown list keeps the loaded order and stays sorted |
| Page.JapaneseOnlyNarrows | app/page.tsx:315-317 | The Japanese-only list is the full list without the unflagged records |
| Page.ShownWithinFetchWindow | app/page.tsx:320-336 | Every shown record lies in the fetch scripts' window, a day before now to a week after |
| Page.SchedulePage.constructor | app/page.tsx:306-309 | The initial state: no records, loading, no error, Japanese-only on, sorted |
| Page.SchedulePage.ToggleJapaneseOnly | app/page.tsx:419 | A click flips the Japanese-only switch |
| Page.SchedulePage.FetchMatches | app/page.tsx:347-385 | An array is held sorted by kickoff with no error; a failure keeps the records and sets the error message; loading ends; sortedness is kept |
| Page.LoadedShowsSorted | app/page.tsx:369-378 | A loaded array shows sorted, as a subsequence of the sorted array, holding only its records |
| Kickoff.Filter | scripts/fetch-matches.ts:201-204 | `filter` keeps exactly the elements that pass and is no longer than its input |
| Kickoff.FilterIsSubsequence | app/page.tsx:313 | The filtered list keeps its input's order |
| Kickoff.FilterCommutes | app/page.tsx:313-336 | Two filters applied in either order give the same list |
| Kickoff.FilterKeepsSorted | app/page.tsx:313 | Filtering a sorted list gives a sorted list |
| Kickoff.Collect | scripts/fetch-matches.ts:147-180 | A loop with a per-item catch collects at most one value per element |
| Kickoff.CollectMembers | scripts/fetch-matches.ts:147-180 | A value is collected iff some element produces it |
| Kickoff.CollectNoneSkipped | scripts/fetch-matches.ts:147-180 | With no failure, one result per element, in order |
| Kickoff.CollectInto | scripts/fetch-matches.ts:147-180 | The push loop appends the collection to the accumulator |
| Kickoff.CollectIndexed | scripts/fetch-jleague.ts:83-136 | The indexed loop collects what each position produces |
| Kickoff.CollectIndexedMembers | scripts/fetch-jleague.ts:83-136 | A value is collected iff some position produces it |
| Kickoff.CollectOrder | scripts/fetch-matches.ts:147-180 | A collection keeps the input's order: the p-th value comes from the p-th kept position, kept positions increase, and every kept position is listed |
| Kickoff.CollectIndexedOrder | scripts/fetch-jleague.ts:83-136 | The same order statement for a loop over positions and elements |
| Kickoff.CollectUnlessAbortSpec | scripts/fetch-proleague.ts:96-126 | The loop aborts iff some element aborts, else collects the pushed values in order |
| Kickoff.CollectIndexedUnlessAbort | scripts/fetch-proleague.ts:96-126 | The indexed loop stops with None at the first throwing element |
| Kickoff.CollectIndexedUnlessAbortSpec | scripts/fetch-proleague.ts:96-126 | It aborts iff some position aborts; otherwise a value is collected iff some position pushes it |
| Kickoff.CollectIndexedUnlessAbortOrder | scripts/fetch-proleague.ts:96-126 | With no aborting position, the loop yields the pushed values in position order, every pushing position included |
| Kickoff.SortBySorted | scripts/fetch-matches.ts:241-243 | The sort's result is non-decreasing by key |
| Kickoff.SortByPermutes | scripts/fetch-matches.ts:241-243 | The sort's result holds the same elements, each as often |
| Kickoff.SortByStable | scripts/fetch-matches.ts:241-243 | Elements of equal key keep their order |
| Kickoff.InsertInPlace | scripts/fetch-matches.ts:241-243 | One insertion step places an element among the sorted prefix and leaves the rest |
| Kickoff.SortInPlace | scripts/fetch-matches.ts:241-243 | The in-place sort leaves the array as the stable sort of its old contents |
| Kickoff.SortedCopy | scripts/merge-jleague.ts:53-55 | Sorting a list through an array gives the stable sort of the list |
| Kickoff.SortConcatContents | scripts/merge-jleague.ts:50-55 | The sorted concatenation is sorted and holds both lists' elements, each as often |
| Kickoff.SortConcatFilterCount | scripts/merge-jleague.ts:50-62 | When no element of the first list passes a test, the sorted concatenation has as many passing as the second |
| Kickoff.SortConcatRefilter | scripts/merge-jleague.ts:46-55 | Re-filtering and re-appending the fresh list, then sorting, gives the same list back |
| Kickoff.SortByKickoffCorrect | scripts/fetch-matches.ts:241-243 | The kickoff sort is non-decreasing, a permutation, and stable |
| Kickoff.SortByKickoffUnique | app/page.tsx:369-376 | The kickoff sort is the only ordering that is sorted and keeps equal kickoffs in order |
| Kickoff.SortByKickoffIdempotent | scripts/merge-jleague.ts:53-55 | Sorting a sorted list changes nothing |
| JsString.Trim | scripts/fetch-jleague.ts:13 | `trim` leaves no edge white space and removes only white space at the ends |
| JsString.TrimKeepsNonSpace | scripts/fetch-jleague.ts:13 | Trimming keeps every non-space character |
| JsString.Collapse | scripts/fetch-jleague.ts:14 | `replace(/\s+/g, ' ')` leaves the string single-spaced, with the same non-space characters |
| JsString.CollapseAppend | scripts/fetch-jleague.ts:14 | Collapsing works piece by piece across any split that does not cut a white-space run in two |
| JsString.CollapseAllSpace | scripts/fetch-jleague.ts:14 | A non-empty run of white space becomes exactly one ASCII space |
| JsString.CollapseChar | scripts/fetch-jleague.ts:14 | A character that is not white space stays as it is |
| JsString.CollapseJoin | scripts/fetch-jleague.ts:14 | Two texts with a white-space run between them collapse to the two collapsed texts joined by one ASCII space |
| JsString.TrimPadded | scripts/fetch-jleague.ts:13 | `trim()` removes white-space padding, and only that, around a text with none at its ends |
| JsString.CollapseIdempotent | scripts/fetch-jleague.ts:14 | Collapsing twice equals collapsing once |
| JsString.CollapseKeepsEdges | scripts/fetch-jleague.ts:13-14 | Collapsing a trimmed string keeps it trimmed |
| JsString.SingleSpacedNoIdeographicSpace | scripts/fetch-jleague.ts:15 | A single-spaced string holds no U+3000 |
| JsString.ReplaceChar | scripts/fetch-jleague.ts:15 | The one-character replace changes exactly the occurrences of that character |
| JsString.ReplaceAbsentChar | scripts/fetch-jleague.ts:15 | Replacing an absent character changes nothing |
| JsString.ContainsEmpty | scripts/fetch-matches.ts:91 | Every string includes "" |
| JsString.MissingCharNotContained | scripts/fetch-matches.ts:91 | A pattern with a character absent from the string is not included |
| JsString.LongerNotContained | scripts/fetch-matches.ts:91 | A longer pattern is not included |
| JsString.Split | scripts/fetch-jleague.ts:28 | `split` gives at least one piece, no piece holds the separator, and joining them back gives the string |
| JsString.SplitJoin | scripts/fetch-jleague.ts:28 | Split undoes Join when no part holds the separator |
| JsString.DigitPrefix | scripts/fetch-jleague.ts:33-35 | The digit run parseInt reads is the longest digit prefix |
| JsString.ParseIntOfDigits | scripts/fetch-jleague.ts:33-35 | parseInt reads a digit run followed by a non-digit as its value |
| JsString.ParseIntRoundTrip | scripts/fetch-matches.ts:165 | parseInt reads back every integer toString printed |
| JsString.IntToStringInjective | scripts/fetch-matches.ts:165 | Different integers print differently |
| JsString.ZeroPadValue | scripts/fetch-matches.ts:109 | A value below 10^w pads to w digits that read back as the value |
| EcmaDate.CivilRoundTrip | scripts/fetch-jleague.ts:54 | Day numbers and calendar dates convert back and forth exactly |
| EcmaDate.FieldsRoundTrip | scripts/fetch-jleague.ts:54 | Time values and their date-time fields convert back and forth exactly |
| EcmaDate.YearFromDayUnique | scripts/fetch-jleague.ts:54 | The year containing a day number is unique |
| EcmaDate.DateUTCOfValidFields | scripts/fetch-jleague.ts:54 | Date.UTC of in-range fields is the instant with those fields |
| EcmaDate.AddTime | scripts/fetch-proleague.ts:39 | Adding to NaN gives NaN, and an in-range sum is the new time value |
| EcmaDate.IsoRoundTrip | scripts/fetch-jleague.ts:125 | Parsing what toISOString wrote gives the instant back (years 0 to 9999) |
| EcmaDate.IsoStringOfFields | scripts/fetch-proleague.ts:40 | toISOString of four-digit-year fields prints exactly those fields |
| EcmaDate.FormatLocalIsIso | scripts/fetch-matches.ts:109 | For years 1 to 9999 the date-fns pattern plus 'Z' equals toISOString |
| EcmaDate.FormatLocalRoundTrip | scripts/fetch-matches.ts:109 | For an instant of the years 1 to 9999, the date-fns text plus 'Z' reads back as the instant |
| EcmaDate.FormatLocalDiffersBeforeYearOne | scripts/fetch-matches.ts:109 | In year 0 the date-fns pattern and toISOString print different years |
| EcmaDate.FormatLocalDiffersAfterYear9999 | scripts/fetch-matches.ts:109 | After year 9999 the date-fns pattern and toISOString print different years ("10000" against "+010000") |
| EcmaDate.FourDigitYearInRange | scripts/fetch-proleague.ts:39 | Instants of the years 0 to 9999 lie inside the range of time values |

## Left out

- Network requests, the HTTP status checks, the 429 wait and the rate-limit sleeps of `fetchFixturesFromAPI` and the league loop are not modelled: each league's API response is an input, and a failed request is an empty response.
- HTML scraping with cheerio, the `__NEXT_DATA__` regular expression and `JSON.parse` are not modelled: their results are inputs as parsed structures (`Cell` rows, `NextData`), and a failure is `None`.
- File existence, reading and writing and `mkdirSync` are not modelled: a file read is an `Option` input and a file written is the returned value.
- Console logging and `process.exit` codes are not modelled; an exit is a distinct outcome value.
- `Date.now()` and `new Date()` are not read: `now`, the page's local offset and the Pro League `clock` are parameters.
- Daylight-saving time is left out: JST is a fixed nine-hour offset, the page's zone a fixed `offset`, and `subDays`/`addDays`/`setDate` add whole 24-hour days.
- The `new Date(string)` parser accepts only `YYYY-MM-DD` and `YYYY-MM-DDTHH:mm[:ss[.sss]]Z`. It also rejects forms that ECMAScript's date-time string format allows: `YYYY` and `YYYY-MM`, date-times without `Z` (local time), `±HH:mm` offsets, expanded `±YYYYYY` years and `T24:00`. It also rejects strings of the right shape whose fields are out of range, such as `2026-02-30` or `2026-13-01`; ECMAScript leaves those to each engine's own fallback parsing. Those parse as an Invalid Date here. So a Pro League `time` such as `2026-01-31T15:00:00+01:00` makes the model abort the whole fetch and return [], where a browser or Node would accept it.
- FetchProLeague.UtcToJstStorageAgrees: proved only when the Tokyo wall clock falls in the years 1 to 9999. Outside them the two scripts store different texts (`EcmaDate.FormatLocalDiffersBeforeYearOne`, `EcmaDate.FormatLocalDiffersAfterYear9999`).
- EcmaDate.FormatLocalRoundTrip: proved only for the years 1 to 9999. Outside them the date-fns year text is not what toISOString writes, and the parser reads only four-digit years.
- Kickoff.SortKey: an unparseable kickoff sorts as instant 0. The source comparator returns NaN there, which leaves the order to the engine.
- Kickoff.SortInPlace: an insertion sort stands in for the engine's stable `Array.prototype.sort`; only the result order is modelled, not the algorithm.
- FetchMatches.ConvertToJSTShifts: proved only for Tokyo wall clocks in the years 1 to 9999, where date-fns prints four-digit years.
- FetchMatches.JstTextShifts: proved only for Tokyo wall clocks in the years 1 to 9999, for the same reason.
- FetchProLeague.UtcToJstStorageShifts: proved only for Tokyo wall clocks in the years 0 to 9999; toISOString writes six-digit years outside these, which the parser does not read.
- EcmaDate.IsoRoundTrip: stated only for the years 0 to 9999, for the same reason.
- JsString.ParseInt10: parseInt is modelled on unbounded integers; the loss of precision above 2^53 is not modelled.
- JsString.IntToString: the exponent notation JavaScript uses from 1e21 on is not modelled.
- `team_name`, API ids and other fields are assumed present and well typed; `null` entries inside arrays and missing object fields of the API response are not modelled.
- Page.Lookup: reads the first entry of a key, where a JavaScript object literal keeps the last, which agrees because the tables have no repeated key. Keys that name `Object.prototype` properties (such as "constructor") are not modelled.
- BuildJapaneseTeams.TsContentReadBack: reads the double-quoted segments of the file and interprets no string escapes. For a name holding a backslash, LF or CR, TypeScript reads a different literal or none: `Foo\` renders as `"Foo\"`, an unterminated literal. These segments are then not the file's literal values. `BuildJapaneseTeams.TsContentLiterals` states the literal values for names free of these characters.
- JSON key order (integer-like keys come first in `Object.entries`) and duplicate JSON keys in `japanese.manual.json` are not modelled: the manual map is an ordered list of entries.
- The React rendering is not modelled: the loading and empty-list messages, the `dd HH:mm` formatting of each row, the `parseISO` check in the row renderer and the row's try/catch. Only the flag, colour and label lookups of a row are.
- Page.Visible: the filter's try/catch is not modelled, since nothing in the modelled filter can throw.
- Page.SchedulePage.FetchMatches: the intermediate `loading = true, error = null` state set at the start of the request is not observable in the model: the method states the state after the request settles.
- `checkJapanesePlayers` and `scripts/fetch-teams.ts` are not part of this model; the former only forwards to `hasJapanesePlayerByTeamName`.
