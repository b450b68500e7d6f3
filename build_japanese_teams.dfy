/** scripts/build-japanese-teams.ts: renders the manual league-to-teams map
    as the TypeScript source of `JAPANESE_TEAMS`, and the reader of the
    double-quoted names in that text which the rendering is checked against. */
module BuildJapaneseTeams {
  import opened Types
  import opened JsString

  /** The comment block and the declaration in front of the entries. */
  const Preamble: string :=
    CommentLine1 + CommentLine2 + CommentLine3 + "\n" + DeclarationStart + DeclarationType

  const CommentLine1: string := "// このファイルは自動生成されます。手動で編集しないでください。\n"
  const CommentLine2: string := "// 編集する場合は data/japanese.manual.json を編集し、\n"
  const CommentLine3: string := "// npm run build-japanese-teams を実行してください。\n"
  const DeclarationStart: string := "export const JAPANESE_TEAMS: "
  const DeclarationType: string := "Record<string, readonly string[]> = {\n"

  /** What follows the entries. */
  const Closing: string := "\n} as const\n"

  const Quote: char := '"'

  /** The manual file in `Object.entries` order: league name and team list. */
  type Entries = seq<(string, seq<string>)>

  // ------------------------------------------------------------- render

  /** `    "${team}"`, with no escaping. */
  function TeamLine(team: string): string {
    "    " + [Quote] + team + [Quote]
  }

  /** `teams.map(team => ...).join(',\n')`. */
  function TeamsText(teams: seq<string>): string {
    Join(seq(|teams|, i requires 0 <= i < |teams| => TeamLine(teams[i])), ",\n")
  }

  /** `  "${league}": [\n${teamsStr}\n  ]`. */
  function EntryText(league: string, teams: seq<string>): string {
    "  " + [Quote] + league + [Quote] + ": [\n" + TeamsText(teams) + "\n  ]"
  }

  /** The entries rendered one by one and joined by ',\n'. */
  function EntriesText(entries: Entries): string {
    Join(seq(|entries|, i requires 0 <= i < |entries| => EntryText(entries[i].0, entries[i].1)), ",\n")
  }

  /** `tsContent`. */
  function TsContent(entries: Entries): string {
    Preamble + EntriesText(entries) + Closing
  }

  /** League count: `Object.keys(manualData).length`. */
  function LeagueCount(entries: Entries): nat { |entries| }

  /** Team count: `Object.values(manualData).flat().length`. */
  function TeamCount(entries: Entries): nat {
    if entries == [] then 0 else |entries[0].1| + TeamCount(entries[1..])
  }

  /** The run's effect: an exit with status 1 when the manual file cannot be
      read or parsed, else the text written to lib/japanese-teams.ts and the
      two reported counts. */
  datatype BuildOutcome = ReadFailed | Generated(content: string, leagues: nat, teams: nat)

  function Build(manual: Option<Entries>): BuildOutcome {
    match manual
    case None => ReadFailed
    case Some(entries) => Generated(TsContent(entries), LeagueCount(entries), TeamCount(entries))
  }

  /** An empty team list renders as `[\n\n  ]`. */
  lemma EmptyTeamListRendering(league: string)
    ensures EntryText(league, []) == "  " + [Quote] + league + [Quote] + ": [\n\n  ]"
  {
    assert TeamsText([]) == [];
  }

  // ------------------------------------------------------ read it back

  /** The longest prefix of `s` without a double quote. */
  function UntilQuote(s: string): (r: string)
    ensures |r| <= |s| && r == s[..|r|] && Quote !in r
    ensures |r| < |s| ==> s[|r|] == Quote
  {
    if s == [] || s[0] == Quote then [] else [s[0]] + UntilQuote(s[1..])
  }

  /** The contents of the double-quoted literals of a text, in order, taking
      every double quote as a delimiter; an unterminated literal is dropped. */
  function QuotedNames(s: string): seq<string>
    decreases |s|
  {
    if s == [] then []
    else if s[0] != Quote then QuotedNames(s[1..])
    else
      var t := s[1..];
      var body := UntilQuote(t);
      if |body| == |t| then [] else [body] + QuotedNames(t[|body| + 1..])
  }

  /** A name read back never contains a double quote. */
  lemma {:induction false} QuotedNamesHaveNoQuote(s: string)
    ensures forall i :: 0 <= i < |QuotedNames(s)| ==> Quote !in QuotedNames(s)[i]
    decreases |s|
  {
    if s != [] {
      if s[0] != Quote {
        QuotedNamesHaveNoQuote(s[1..]);
      } else {
        var t := s[1..];
        var body := UntilQuote(t);
        if |body| < |t| {
          QuotedNamesHaveNoQuote(t[|body| + 1..]);
        }
      }
    }
  }

  lemma {:induction false} UntilQuoteOf(a: string, b: string)
    requires Quote !in a
    ensures UntilQuote(a + [Quote] + b) == a
  {
    if a != [] {
      assert (a + [Quote] + b)[1..] == a[1..] + [Quote] + b;
      UntilQuoteOf(a[1..], b);
    }
  }

  /** Text without quotes contributes no names. */
  lemma {:induction false} SkipUnquoted(a: string, b: string)
    requires Quote !in a
    ensures QuotedNames(a + b) == QuotedNames(b)
  {
    if a != [] {
      assert (a + b)[1..] == a[1..] + b;
      SkipUnquoted(a[1..], b);
    } else {
      assert a + b == b;
    }
  }

  /** One literal after unquoted text is read as its contents. */
  lemma ReadLiteral(a: string, n: string, b: string)
    requires Quote !in a && Quote !in n
    ensures QuotedNames(a + [Quote] + n + [Quote] + b) == [n] + QuotedNames(b)
  {
    var s := [Quote] + n + [Quote] + b;
    assert a + [Quote] + n + [Quote] + b == a + s;
    SkipUnquoted(a, s);
    assert s[1..] == n + [Quote] + b;
    UntilQuoteOf(n, b);
    assert s[1..][|n| + 1..] == b;
  }

  predicate QuoteFree(names: seq<string>) {
    forall i :: 0 <= i < |names| ==> Quote !in names[i]
  }

  /** The rendered team list, followed by any text, reads back as the team
      list followed by the names of that text. */
  lemma {:induction false} TeamsReadBack(teams: seq<string>, rest: string)
    requires QuoteFree(teams)
    ensures QuotedNames(TeamsText(teams) + rest) == teams + QuotedNames(rest)
  {
    var lines := seq(|teams|, i requires 0 <= i < |teams| => TeamLine(teams[i]));
    if |teams| == 0 {
      assert TeamsText(teams) + rest == rest;
    } else if |teams| == 1 {
      ReadLiteral("    ", teams[0], rest);
      assert TeamsText(teams) + rest == "    " + [Quote] + teams[0] + [Quote] + rest;
    } else {
      var tail := TeamsText(teams[1..]);
      assert lines[1..] == seq(|teams[1..]|, i requires 0 <= i < |teams[1..]| => TeamLine(teams[1..][i]));
      assert TeamsText(teams) == TeamLine(teams[0]) + ",\n" + tail;
      assert TeamsText(teams) + rest == "    " + [Quote] + teams[0] + [Quote] + (",\n" + (tail + rest));
      ReadLiteral("    ", teams[0], ",\n" + (tail + rest));
      SkipUnquoted(",\n", tail + rest);
      assert QuoteFree(teams[1..]);
      TeamsReadBack(teams[1..], rest);
      assert [teams[0]] + teams[1..] == teams;
    }
  }

  /** An entry reads back as its league followed by its teams. */
  lemma EntryReadBack(league: string, teams: seq<string>, rest: string)
    requires Quote !in league && QuoteFree(teams)
    ensures QuotedNames(EntryText(league, teams) + rest) == [league] + teams + QuotedNames(rest)
  {
    var tail := TeamsText(teams) + ("\n  ]" + rest);
    assert EntryText(league, teams) + rest == "  " + [Quote] + league + [Quote] + (": [\n" + tail);
    ReadLiteral("  ", league, ": [\n" + tail);
    SkipUnquoted(": [\n", tail);
    TeamsReadBack(teams, "\n  ]" + rest);
    SkipUnquoted("\n  ]", rest);
  }

  /** The names of the manual map in order: each league, then its teams. */
  function Names(entries: Entries): (r: seq<string>)
    ensures |r| == LeagueCount(entries) + TeamCount(entries)
  {
    if entries == [] then [] else [entries[0].0] + entries[0].1 + Names(entries[1..])
  }

  predicate QuoteFreeEntries(entries: Entries) {
    forall i :: 0 <= i < |entries| ==> Quote !in entries[i].0 && QuoteFree(entries[i].1)
  }

  lemma {:induction false} EntriesReadBack(entries: Entries, rest: string)
    requires QuoteFreeEntries(entries)
    ensures QuotedNames(EntriesText(entries) + rest) == Names(entries) + QuotedNames(rest)
  {
    var texts := seq(|entries|, i requires 0 <= i < |entries| => EntryText(entries[i].0, entries[i].1));
    if |entries| == 0 {
      assert EntriesText(entries) + rest == rest;
    } else if |entries| == 1 {
      EntryReadBack(entries[0].0, entries[0].1, rest);
      assert Names(entries) == [entries[0].0] + entries[0].1;
    } else {
      var tail := EntriesText(entries[1..]);
      assert texts[1..]
             == seq(|entries[1..]|, i requires 0 <= i < |entries[1..]| => EntryText(entries[1..][i].0, entries[1..][i].1));
      assert EntriesText(entries) + rest == EntryText(entries[0].0, entries[0].1) + (",\n" + (tail + rest));
      EntryReadBack(entries[0].0, entries[0].1, ",\n" + (tail + rest));
      SkipUnquoted(",\n", tail + rest);
      assert QuoteFreeEntries(entries[1..]);
      EntriesReadBack(entries[1..], rest);
    }
  }

  /** The fixed text around the entries holds no double quote. */
  lemma FixedTextHasNoQuote()
    ensures Quote !in Preamble && Quote !in Closing
  {
    CommentsHaveNoQuote();
    DeclarationHasNoQuote();
    NoQuoteConcat(CommentLine1 + CommentLine2 + CommentLine3, "\n");
    NoQuoteConcat(CommentLine1 + CommentLine2 + CommentLine3 + "\n", DeclarationStart);
    NoQuoteConcat(CommentLine1 + CommentLine2 + CommentLine3 + "\n" + DeclarationStart, DeclarationType);
  }

  lemma CommentsHaveNoQuote()
    ensures Quote !in CommentLine1 + CommentLine2 + CommentLine3
  {
    FirstCommentHasNoQuote();
    OtherCommentsHaveNoQuote();
    NoQuoteConcat(CommentLine1, CommentLine2);
    NoQuoteConcat(CommentLine1 + CommentLine2, CommentLine3);
  }

  lemma FirstCommentHasNoQuote()
    ensures Quote !in CommentLine1
  {
  }

  lemma OtherCommentsHaveNoQuote()
    ensures Quote !in CommentLine2 && Quote !in CommentLine3
  {
  }

  lemma DeclarationHasNoQuote()
    ensures Quote !in DeclarationStart && Quote !in DeclarationType
  {
  }

  lemma NoQuoteConcat(a: string, b: string)
    requires Quote !in a && Quote !in b
    ensures Quote !in a + b
  {
  }

  /** Reading the double-quoted segments of the generated file gives back
      every league and team of the manual map, in order, as long as none of
      them contains a double quote; the reader interprets no escapes. */
  lemma TsContentReadBack(entries: Entries)
    requires QuoteFreeEntries(entries)
    ensures QuotedNames(TsContent(entries)) == Names(entries)
  {
    FixedTextHasNoQuote();
    SkipUnquoted(Preamble, EntriesText(entries) + Closing);
    assert TsContent(entries) == Preamble + (EntriesText(entries) + Closing);
    EntriesReadBack(entries, Closing);
    SkipUnquoted(Closing, []);
    assert Closing + [] == Closing;
  }

  /** A name TypeScript reads verbatim between double quotes: no quote, no
      backslash that would start an escape and no line break, which would end
      the literal. */
  predicate PlainName(t: string) {
    Quote !in t && '\\' !in t && '\n' !in t && '\r' !in t
  }

  predicate PlainEntries(entries: Entries) {
    forall i :: 0 <= i < |entries| ==>
      PlainName(entries[i].0) && forall j :: 0 <= j < |entries[i].1| ==> PlainName(entries[i].1[j])
  }

  lemma {:induction false} PlainNames(entries: Entries)
    requires PlainEntries(entries)
    ensures forall i :: 0 <= i < |Names(entries)| ==> PlainName(Names(entries)[i])
  {
    if entries != [] {
      assert PlainEntries(entries[1..]);
      PlainNames(entries[1..]);
      assert Names(entries) == [entries[0].0] + entries[0].1 + Names(entries[1..]);
    }
  }

  /** When every league and team is plain, the generated file's string
      literals are exactly the leagues and teams of the map, in order: each
      double-quoted segment holds no escape and no line break, so it denotes
      its own characters. */
  lemma TsContentLiterals(entries: Entries)
    requires PlainEntries(entries)
    ensures QuotedNames(TsContent(entries)) == Names(entries)
    ensures forall i :: 0 <= i < |QuotedNames(TsContent(entries))| ==>
              PlainName(QuotedNames(TsContent(entries))[i])
  {
    PlainNames(entries);
    assert QuoteFreeEntries(entries) by {
      forall i | 0 <= i < |entries|
        ensures Quote !in entries[i].0 && QuoteFree(entries[i].1)
      {
        assert PlainName(entries[i].0);
        forall j | 0 <= j < |entries[i].1| ensures Quote !in entries[i].1[j] {
          assert PlainName(entries[i].1[j]);
        }
      }
    }
    TsContentReadBack(entries);
  }

  /** Names are not escaped: once a league or team contains a double quote,
      the generated file no longer holds the names of the map as literals. */
  lemma UnescapedQuoteBreaksOutput(entries: Entries, i: int)
    requires 0 <= i < |Names(entries)| && Quote in Names(entries)[i]
    ensures QuotedNames(TsContent(entries)) != Names(entries)
  {
    QuotedNamesHaveNoQuote(TsContent(entries));
  }

  /** What a successful run reports: as many leagues as the map has keys and
      as many teams as its lists hold, together the names of the file. */
  lemma BuildReports(manual: Option<Entries>)
    ensures Build(manual).ReadFailed? <==> manual.None?
    ensures manual.Some? ==> Build(manual).leagues == |manual.value|
    ensures manual.Some? ==> Build(manual).leagues + Build(manual).teams == |Names(manual.value)|
    ensures manual.Some? && QuoteFreeEntries(manual.value)
            ==> QuotedNames(Build(manual).content) == Names(manual.value)
  {
    if manual.Some? && QuoteFreeEntries(manual.value) {
      TsContentReadBack(manual.value);
    }
  }
}
