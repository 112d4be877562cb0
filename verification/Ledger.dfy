/**
 The durable ingest ledger of `email_import/ledger.rs`: an append-only text of
 `mailbox \t uidvalidity \t uid \t ingested_at` rows, read as a map that keeps
 the earliest time for each key.
 */
module LedgerFile {
  import opened Wrappers
  import opened Text

  datatype Key = Key(mailbox: string, uidvalidity: nat, uid: nat)

  datatype LedgerEntry = LedgerEntry(key: Key, ingestedAt: string)

  type Entries = map<Key, string>

  const LEDGER_HEADER := "# mailbox\tuidvalidity\tuid\tingested_at"

  function Insert(entries: Entries, e: LedgerEntry): Entries {
    if e.key in entries && StrLe(entries[e.key], e.ingestedAt) then entries
    else entries[e.key := e.ingestedAt]
  }

  /** A comment or malformed row is skipped. A blank line has no digits, so it
      is malformed too. */
  function ParseLine(line: string): Option<LedgerEntry> {
    var fields := Split(line, '\t');
    if "#" <= line || |fields| != 4 then None
    else
      var v, u := ParseU32(fields[1]), ParseU32(fields[2]);
      if v.None? || u.None? then None
      else Some(LedgerEntry(Key(fields[0], v.value, u.value), fields[3]))
  }

  function InsertLine(entries: Entries, line: string): Entries {
    match ParseLine(line)
    case Some(e) => Insert(entries, e)
    case None => entries
  }

  function ParseLines(lines: seq<string>): Entries {
    if lines == [] then map[] else InsertLine(ParseLines(Init(lines)), Last(lines))
  }

  function Parse(contents: string): Entries {
    ParseLines(Lines(contents))
  }

  function Row(e: LedgerEntry): string {
    Tabbed([e.key.mailbox, Decimal(e.key.uidvalidity), Decimal(e.key.uid), e.ingestedAt])
  }

  /** The rows that read back as themselves. */
  predicate Writable(e: LedgerEntry) {
    && '\t' !in e.key.mailbox && '\n' !in e.key.mailbox && !("#" <= e.key.mailbox)
    && e.key.uidvalidity < 0x1_0000_0000 && e.key.uid < 0x1_0000_0000
    && '\t' !in e.ingestedAt && '\n' !in e.ingestedAt && StripCr(e.ingestedAt) == e.ingestedAt
  }

  // ----- the map is a min-merge -----

  ghost predicate HasRow(lines: seq<string>, key: Key, at: string) {
    exists i :: 0 <= i < |lines| && ParseLine(lines[i]) == Some(LedgerEntry(key, at))
  }

  /** `entries` holds the earliest time of every key with a row, and nothing else. */
  ghost predicate IsEarliest(entries: Entries, lines: seq<string>) {
    && (forall k | k in entries :: HasRow(lines, k, entries[k]))
    && (forall k, at | HasRow(lines, k, at) :: k in entries && StrLe(entries[k], at))
  }

  lemma HasRowSnoc(lines: seq<string>, line: string, key: Key, at: string)
    ensures HasRow(lines + [line], key, at)
      <==> HasRow(lines, key, at) || ParseLine(line) == Some(LedgerEntry(key, at))
  {
    var more := lines + [line];
    if HasRow(lines, key, at) {
      var i :| 0 <= i < |lines| && ParseLine(lines[i]) == Some(LedgerEntry(key, at));
      assert more[i] == lines[i];
    }
    assert more[|lines|] == line;
  }

  lemma InsertKeepsEarliest(entries: Entries, lines: seq<string>, line: string)
    requires IsEarliest(entries, lines)
    ensures IsEarliest(InsertLine(entries, line), lines + [line])
  {
    hide ParseLine;
    var after, more := InsertLine(entries, line), lines + [line];
    forall k | k in after
      ensures HasRow(more, k, after[k])
    {
      HasRowSnoc(lines, line, k, after[k]);
    }
    forall k, at | HasRow(more, k, at)
      ensures k in after && StrLe(after[k], at)
    {
      HasRowSnoc(lines, line, k, at);
      StrLeTotal(at, at);
      if HasRow(lines, k, at) && after[k] != entries[k] {
        StrLeTotal(after[k], entries[k]);
        StrLeTransitive(after[k], entries[k], at);
      }
    }
  }

  lemma {:induction false} ParseIsEarliest(lines: seq<string>)
    ensures IsEarliest(ParseLines(lines), lines)
  {
    if lines != [] {
      ParseIsEarliest(Init(lines));
      InsertKeepsEarliest(ParseLines(Init(lines)), Init(lines), Last(lines));
      assert Init(lines) + [Last(lines)] == lines;
    }
  }

  lemma EarliestIsUnique(a: Entries, b: Entries, lines: seq<string>)
    requires IsEarliest(a, lines) && IsEarliest(b, lines)
    ensures a == b
  {
    forall k | k in a
      ensures k in b && a[k] == b[k]
    {
      assert HasRow(lines, k, a[k]);
      assert HasRow(lines, k, b[k]);
      StrLeTotal(a[k], b[k]);
    }
    forall k | k in b
      ensures k in a
    {
      assert HasRow(lines, k, b[k]);
    }
  }

  /** Row order and repeated rows do not matter. */
  lemma OrderAndRepetitionDoNotMatter(a: seq<string>, b: seq<string>)
    requires forall line :: line in a <==> line in b
    ensures ParseLines(a) == ParseLines(b)
  {
    ParseIsEarliest(a);
    ParseIsEarliest(b);
    forall k, at
      ensures HasRow(a, k, at) <==> HasRow(b, k, at)
    {
      SameRows(a, b, k, at);
      SameRows(b, a, k, at);
    }
    EarliestIsUnique(ParseLines(a), ParseLines(b), a);
  }

  lemma SameRows(a: seq<string>, b: seq<string>, k: Key, at: string)
    requires forall line | line in a :: line in b
    ensures HasRow(a, k, at) ==> HasRow(b, k, at)
  {
    if HasRow(a, k, at) {
      var i :| 0 <= i < |a| && ParseLine(a[i]) == Some(LedgerEntry(k, at));
      assert a[i] in b;
      var j :| 0 <= j < |b| && b[j] == a[i];
    }
  }

  // ----- rows read back -----

  /** The row up to its timestamp. */
  function RowHead(k: Key): string {
    k.mailbox + "\t" + (Decimal(k.uidvalidity) + "\t" + (Decimal(k.uid) + "\t"))
  }

  lemma RowIsHeadAndTime(e: LedgerEntry)
    ensures Row(e) == RowHead(e.key) + e.ingestedAt
  {
    var v, u := Decimal(e.key.uidvalidity), Decimal(e.key.uid);
    assert Tabbed([e.ingestedAt]) == e.ingestedAt;
    assert [u, e.ingestedAt][1..] == [e.ingestedAt];
    assert Tabbed([u, e.ingestedAt]) == u + "\t" + e.ingestedAt;
    assert [v, u, e.ingestedAt][1..] == [u, e.ingestedAt];
    assert Tabbed([v, u, e.ingestedAt]) == v + "\t" + (u + "\t" + e.ingestedAt);
    assert [e.key.mailbox, v, u, e.ingestedAt][1..] == [v, u, e.ingestedAt];
    assert Row(e) == e.key.mailbox + "\t" + (v + "\t" + (u + "\t" + e.ingestedAt));
  }

  lemma NoTabInDecimal(n: nat)
    ensures '\t' !in Decimal(n) && '\n' !in Decimal(n)
  {
    assert !IsDigit('\t') && !IsDigit('\n');
  }

  lemma RowParses(e: LedgerEntry)
    requires '\t' !in e.key.mailbox && '\t' !in e.ingestedAt && !("#" <= e.key.mailbox)
    requires e.key.uidvalidity < 0x1_0000_0000 && e.key.uid < 0x1_0000_0000
    ensures ParseLine(Row(e)) == Some(e)
  {
    var fields := [e.key.mailbox, Decimal(e.key.uidvalidity), Decimal(e.key.uid), e.ingestedAt];
    NoTabInDecimal(e.key.uidvalidity);
    NoTabInDecimal(e.key.uid);
    TabbedSplits(fields);
    DecimalParses(e.key.uidvalidity);
    DecimalParses(e.key.uid);
    RowIsHeadAndTime(e);
    assert Row(e)[0] == if e.key.mailbox == "" then '\t' else e.key.mailbox[0];
  }

  /** A line that reads as `e`: four fields and no more, of which the second and
      third are 32-bit numbers, and no comment. */
  ghost predicate Reads(line: string, e: LedgerEntry, v: string, u: string) {
    && line == e.key.mailbox + "\t" + (v + "\t" + (u + "\t" + e.ingestedAt))
    && '\t' !in e.key.mailbox && '\t' !in v && '\t' !in u && '\t' !in e.ingestedAt && !("#" <= line)
    && ParseU32(v) == Some(e.key.uidvalidity) && ParseU32(u) == Some(e.key.uid)
  }

  lemma FourFields(a: string, b: string, c: string, d: string)
    ensures Tabbed([a, b, c, d]) == a + "\t" + (b + "\t" + (c + "\t" + d))
  {
    assert [a, b, c, d][1..] == [b, c, d] && [b, c, d][1..] == [c, d] && [c, d][1..] == [d];
    assert Tabbed([c, d]) == c + "\t" + d;
    assert Tabbed([b, c, d]) == b + "\t" + (c + "\t" + d);
  }

  lemma ParsedReads(line: string) returns (v: string, u: string)
    requires ParseLine(line).Some?
    ensures Reads(line, ParseLine(line).value, v, u)
  {
    hide Done, Partial, ParseU32, Tabbed;
    var fields := Split(line, '\t');
    SplitIsTabbed(line);
    PiecesHaveNoSeparator(line, '\t');
    assert forall i | 0 <= i < 3 :: fields[i] == Done(line, '\t')[i];
    v, u := fields[1], fields[2];
    assert fields == [fields[0], v, u, fields[3]];
    FourFields(fields[0], v, u, fields[3]);
  }

  lemma ReadsParses(line: string, e: LedgerEntry, v: string, u: string)
    requires Reads(line, e, v, u)
    ensures ParseLine(line) == Some(e)
  {
    hide Split, ParseU32, Tabbed;
    FourFields(e.key.mailbox, v, u, e.ingestedAt);
    TabbedSplits([e.key.mailbox, v, u, e.ingestedAt]);
  }

  /** Exactly these lines are rows. */
  lemma ParseLineIff(line: string, e: LedgerEntry)
    ensures ParseLine(line) == Some(e) <==> exists v, u :: Reads(line, e, v, u)
  {
    hide ParseLine, Reads;
    if ParseLine(line) == Some(e) {
      var v, u := ParsedReads(line);
    }
    if v, u :| Reads(line, e, v, u) {
      ReadsParses(line, e, v, u);
    }
  }

  lemma NoNewlineInRow(e: LedgerEntry)
    ensures '\n' !in Row(e) <==> '\n' !in e.key.mailbox && '\n' !in e.ingestedAt
  {
    RowIsHeadAndTime(e);
    NoTabInDecimal(e.key.uidvalidity);
    NoTabInDecimal(e.key.uid);
  }

  lemma RowEnd(e: LedgerEntry)
    ensures StripCr(Row(e)) == Row(e.(ingestedAt := StripCr(e.ingestedAt)))
  {
    RowIsHeadAndTime(e);
    RowIsHeadAndTime(e.(ingestedAt := StripCr(e.ingestedAt)));
    var head := RowHead(e.key);
    if e.ingestedAt != "" && Last(e.ingestedAt) == '\r' {
      assert Init(head + e.ingestedAt) == head + Init(e.ingestedAt);
    } else if e.ingestedAt == "" {
      assert Last(head) == '\t';
    }
  }

  lemma ParseSnoc(lines: seq<string>, line: string)
    ensures ParseLines(lines + [line]) == InsertLine(ParseLines(lines), line)
  {
    hide InsertLine;
    assert Init(lines + [line]) == lines;
  }

  /** One more line of text is one more row, whether or not it is terminated. */
  lemma ParseAppend(text: string, line: string)
    requires Terminated(text) && '\n' !in line
    ensures Parse(text + (line + "\n")) == InsertLine(Parse(text), StripCr(line))
    ensures Parse(text + line) == if line == "" then Parse(text) else InsertLine(Parse(text), line)
  {
    hide Lines, InsertLine, ParseLines, StripCr;
    LinesConcat(text, line + "\n");
    LinesConcat(text, line);
    LineReadsBack(line);
    ParseSnoc(Lines(text), StripCr(line));
    ParseSnoc(Lines(text), line);
    assert Lines(text) + [] == Lines(text);
  }

  /** Appending a delivery to the working copy is inserting it. */
  lemma AppendIsInsert(text: string, e: LedgerEntry)
    requires Terminated(text) && Writable(e)
    ensures Parse(text + (Row(e) + "\n")) == Insert(Parse(text), e)
  {
    hide Row, Parse, ParseLine;
    NoNewlineInRow(e);
    ParseAppend(text, Row(e));
    RowEnd(e);
    assert e.(ingestedAt := StripCr(e.ingestedAt)) == e;
    RowParses(e);
  }

  lemma NothingParses()
    ensures Parse("") == map[]
  {
  }

  lemma StrippedRowParses(e: LedgerEntry)
    requires '\t' !in e.key.mailbox && '\t' !in e.ingestedAt && !("#" <= e.key.mailbox)
    requires e.key.uidvalidity < 0x1_0000_0000 && e.key.uid < 0x1_0000_0000
    ensures ParseLine(StripCr(Row(e))) == Some(e.(ingestedAt := StripCr(e.ingestedAt)))
  {
    hide Row, ParseLine;
    RowEnd(e);
    RowParses(e.(ingestedAt := StripCr(e.ingestedAt)));
  }

  lemma RowReadsBackStripped(e: LedgerEntry)
    requires '\n' !in e.key.mailbox && '\n' !in e.ingestedAt
    requires '\t' !in e.key.mailbox && '\t' !in e.ingestedAt && !("#" <= e.key.mailbox)
    requires e.key.uidvalidity < 0x1_0000_0000 && e.key.uid < 0x1_0000_0000
    ensures Parse(Row(e) + "\n") == map[e.key := StripCr(e.ingestedAt)]
  {
    hide Parse, Row, ParseLine, StripCr;
    NoNewlineInRow(e);
    ParseAppend("", Row(e));
    assert "" + (Row(e) + "\n") == Row(e) + "\n";
    NothingParses();
    StrippedRowParses(e);
  }

  lemma ParsedIsReadable(text: string, k: Key)
    requires k in Parse(text)
    ensures '\n' !in k.mailbox && '\n' !in Parse(text)[k]
    ensures '\t' !in k.mailbox && '\t' !in Parse(text)[k] && !("#" <= k.mailbox)
    ensures k.uidvalidity < 0x1_0000_0000 && k.uid < 0x1_0000_0000
    ensures '\r' !in text ==> '\r' !in k.mailbox && '\r' !in Parse(text)[k]
  {
    LinesHaveNoNewline(text);
    if '\r' !in text { PiecesAreOf(text, '\n', '\r'); }
    assert '\r' !in text ==> forall i | 0 <= i < |Lines(text)| :: '\r' !in Lines(text)[i];
    hide Lines, ParseLines;
    ParseIsEarliest(Lines(text));
    var i :| 0 <= i < |Lines(text)| && ParseLine(Lines(text)[i]) == Some(LedgerEntry(k, Parse(text)[k]));
    LineIsReadable(Lines(text)[i]);
  }

  lemma LineIsReadable(line: string)
    requires '\n' !in line && ParseLine(line).Some?
    ensures var e := ParseLine(line).value;
            && '\n' !in e.key.mailbox && '\n' !in e.ingestedAt
            && '\t' !in e.key.mailbox && '\t' !in e.ingestedAt && !("#" <= e.key.mailbox)
            && ('\r' !in line ==> '\r' !in e.key.mailbox && '\r' !in e.ingestedAt)
  {
    var fields := Split(line, '\t');
    PiecesHaveNoSeparator(line, '\t');
    PiecesAreOf(line, '\t', '\n');
    if '\r' !in line { PiecesAreOf(line, '\t', '\r'); }
    FirstPieceIsPrefix(line, '\t');
    assert fields[0] == Done(line, '\t')[0];
    assert fields[3] == Partial(line, '\t');
    assert "#" <= fields[0] ==> "#" <= line;
  }

  /** A row alone reads back as itself exactly when it is writable. */
  lemma ReadsBackIffWritable(e: LedgerEntry)
    ensures Parse(Row(e) + "\n") == map[e.key := e.ingestedAt] <==> Writable(e)
  {
    hide Parse, Row;
    if Writable(e) {
      RowReadsBackStripped(e);
    } else if Parse(Row(e) + "\n") == map[e.key := e.ingestedAt] {
      assert e.key in Parse(Row(e) + "\n");
      ParsedIsReadable(Row(e) + "\n", e.key);
      RowReadsBackStripped(e);
    }
  }

  // ----- serialization -----

  function Rows(es: seq<LedgerEntry>): string {
    if es == [] then "" else Rows(Init(es)) + (Row(Last(es)) + "\n")
  }

  function Render(es: seq<LedgerEntry>): string {
    LEDGER_HEADER + "\n" + Rows(es)
  }

  lemma HeaderIsComment()
    ensures '\n' !in LEDGER_HEADER && StripCr(LEDGER_HEADER) == LEDGER_HEADER
    ensures ParseLine(LEDGER_HEADER) == None
  {
    hide Split;
    assert LEDGER_HEADER[0] == '#';
    assert Last(LEDGER_HEADER) == 't';
  }

  lemma HeaderIsSkipped()
    ensures Parse(LEDGER_HEADER + "\n") == map[] && Terminated(LEDGER_HEADER + "\n")
  {
    hide Parse, ParseLine, StripCr;
    HeaderIsComment();
    NothingParses();
    ParseAppend("", LEDGER_HEADER);
    assert "" + (LEDGER_HEADER + "\n") == LEDGER_HEADER + "\n";
  }

  /** `entries` is exactly the rows `es`. */
  ghost predicate Holds(entries: Entries, es: seq<LedgerEntry>) {
    && (forall e <- es :: e.key in entries && entries[e.key] == e.ingestedAt)
    && (forall k | k in entries :: LedgerEntry(k, entries[k]) in es)
  }

  ghost predicate DistinctKeys(es: seq<LedgerEntry>) {
    forall i, j | 0 <= i < j < |es| :: es[i].key != es[j].key
  }

  lemma InsertExtends(entries: Entries, es: seq<LedgerEntry>, e: LedgerEntry)
    requires Holds(entries, es) && DistinctKeys(es + [e])
    ensures Holds(Insert(entries, e), es + [e])
  {
    var all := es + [e];
    forall d <- es
      ensures d.key != e.key
    {
      var i :| 0 <= i < |es| && es[i] == d;
      assert all[i].key != all[|es|].key;
    }
    assert e.key !in entries;
  }

  lemma RenderStep(es: seq<LedgerEntry>, e: LedgerEntry)
    requires Terminated(Render(es)) && Holds(Parse(Render(es)), es)
    requires Writable(e) && DistinctKeys(es + [e])
    ensures Terminated(Render(es + [e])) && Holds(Parse(Render(es + [e])), es + [e])
  {
    hide Parse, Row, Writable, Insert, Holds, DistinctKeys;
    assert Init(es + [e]) == es;
    assert Render(es + [e]) == Render(es) + (Row(e) + "\n");
    AppendIsInsert(Render(es), e);
    InsertExtends(Parse(Render(es)), es, e);
  }

  lemma {:induction false} RenderedParses(es: seq<LedgerEntry>)
    requires DistinctKeys(es) && forall e <- es :: Writable(e)
    ensures Terminated(Render(es)) && Holds(Parse(Render(es)), es)
  {
    if es == [] {
      HeaderIsSkipped();
      assert Render(es) == LEDGER_HEADER + "\n";
    } else {
      hide Parse, Render, Writable;
      assert Init(es) + [Last(es)] == es;
      RenderedParses(Init(es));
      RenderStep(Init(es), Last(es));
    }
  }

  /** Whatever order the rows are written in, they parse to the same ledger. */
  lemma SerializeParses(es: seq<LedgerEntry>, entries: Entries)
    requires Holds(entries, es) && DistinctKeys(es) && forall e <- es :: Writable(e)
    ensures Parse(Render(es)) == entries
  {
    hide Parse, Render, Writable;
    RenderedParses(es);
    forall k | k in entries
      ensures k in Parse(Render(es)) && Parse(Render(es))[k] == entries[k]
    {
      assert LedgerEntry(k, entries[k]) in es;
    }
    forall k | k in Parse(Render(es))
      ensures k in entries
    {
      assert LedgerEntry(k, Parse(Render(es))[k]) in es;
    }
  }

  // ----- torn rows -----

  lemma {:induction false} PrefixHasNoMorePieces(s: string, k: nat, sep: char)
    requires k <= |s|
    ensures |Done(s[..k], sep)| <= |Done(s, sep)|
    decreases |s| - k
  {
    if k == |s| {
      assert s[..k] == s;
    } else {
      PrefixHasNoMorePieces(s, k + 1, sep);
      assert Init(s[..k + 1]) == s[..k];
    }
  }

  lemma HeadHasThreeFields(k: Key)
    requires '\t' !in k.mailbox
    ensures |Done(Init(RowHead(k)), '\t')| == 2
  {
    var v, u := Decimal(k.uidvalidity), Decimal(k.uid);
    NoTabInDecimal(k.uidvalidity);
    NoTabInDecimal(k.uid);
    var fields := [k.mailbox, v, u];
    TabbedSplits(fields);
    assert [v, u][1..] == [u] && fields[1..] == [v, u];
    assert Tabbed([v, u]) == v + "\t" + u;
    assert Tabbed(fields) == k.mailbox + "\t" + (v + "\t" + u);
    assert Init(RowHead(k)) == Tabbed(fields);
  }

  /** What the first `cut` characters of a row still say. */
  function Torn(e: LedgerEntry, cut: nat): Option<LedgerEntry> {
    var head := |RowHead(e.key)|;
    if cut < head then None
    else if cut - head <= |e.ingestedAt| then Some(e.(ingestedAt := e.ingestedAt[..cut - head]))
    else Some(e)
  }

  /** A row cut short anywhere before its timestamp is no row at all; one cut
      inside the timestamp still carries its own key. */
  lemma TornRow(e: LedgerEntry, cut: nat)
    requires Writable(e) && cut <= |Row(e)|
    ensures ParseLine(Row(e)[..cut]) == Torn(e, cut)
  {
    RowIsHeadAndTime(e);
    var head := RowHead(e.key);
    hide Row, RowHead;
    if cut < |head| {
      assert Row(e)[..cut] == Init(head)[..cut];
      PrefixHasNoMorePieces(Init(head), cut, '\t');
      HeadHasThreeFields(e.key);
    } else {
      var torn := e.(ingestedAt := e.ingestedAt[..cut - |head|]);
      RowIsHeadAndTime(torn);
      assert Row(e)[..cut] == Row(torn);
      RowParses(torn);
    }
  }

  /** A final row torn at any character vanishes or yields its own key, never another. */
  lemma TornAppend(text: string, e: LedgerEntry, cut: nat)
    requires Terminated(text) && Writable(e) && cut <= |Row(e)|
    ensures Parse(text + Row(e)[..cut])
         == if Torn(e, cut).None? then Parse(text) else Insert(Parse(text), Torn(e, cut).value)
  {
    var torn := Row(e)[..cut];
    NoNewlineInRow(e);
    TornRow(e, cut);
    hide Row, Parse, ParseLine, Torn;
    assert '\n' !in torn;
    ParseAppend(text, torn);
    if torn == "" {
      EmptyLineIsNoRow();
    }
  }

  lemma EmptyLineIsNoRow()
    ensures ParseLine("") == None
  {
  }

  /** What one append of a row leaves in the ledger. */
  function AfterAppend(entries: Entries, e: LedgerEntry, fate: Fate): Entries {
    match fate
    case Written => Insert(entries, e)
    case OpenFailed => entries
    case WriteFailed(kept) =>
      var torn := Torn(e, if kept <= |Row(e)| then kept else |Row(e)|);
      if torn.None? then entries else Insert(entries, torn.value)
  }

  lemma AppendedParses(text: string, e: LedgerEntry, fate: Fate)
    requires Terminated(text) && Writable(e)
    ensures Parse(Appended(text, Row(e), fate)) == AfterAppend(Parse(text), e, fate)
  {
    hide Parse, Row, Writable, Torn;
    match fate
    case Written => AppendIsInsert(text, e);
    case OpenFailed =>
      assert text + "" == text;
    case WriteFailed(kept) =>
      TornAppend(text, e, if kept <= |Row(e)| then kept else |Row(e)|);
      assert Row(e)[..|Row(e)|] == Row(e);
  }

  /** Only the final row is safe. A row appended after an unterminated `torn`
      piece is glued to it. The pair is lost when the piece holds a tab, and
      otherwise reads as a key that was never delivered. */
  lemma GluedRow(torn: string, e: LedgerEntry)
    requires Writable(e) && torn != "" && '\n' !in torn
    ensures ParseLine(torn + Row(e))
         == if '\t' in torn || "#" <= torn then None
            else Some(e.(key := e.key.(mailbox := torn + e.key.mailbox)))
  {
    var forged := e.(key := e.key.(mailbox := torn + e.key.mailbox));
    RowIsHeadAndTime(e);
    RowIsHeadAndTime(forged);
    assert torn + Row(e) == Row(forged);
    if "#" <= torn {
      assert "#" <= torn + Row(e);
    } else if '\t' in torn {
      RowHasFourFields(e);
      TabsAdd(torn, Row(e));
    } else {
      RowParses(forged);
    }
  }

  /** A row whose key is new is recorded exactly when it starts on a line of its own. */
  lemma NewRowIsRecordedIffTerminated(text: string, e: LedgerEntry)
    requires Writable(e) && e.key !in Parse(text)
    ensures e.key in Parse(text + (Row(e) + "\n")) <==> Terminated(text)
  {
    hide Parse, Row, ParseLine, Writable;
    if Terminated(text) {
      AppendIsInsert(text, e);
    } else {
      var torn := Partial(text, '\n');
      BeforePartial(text, '\n');
      hide Partial;
      var head := text[..|text| - |torn|];
      assert text == head + torn;
      assert text + (Row(e) + "\n") == head + (torn + Row(e) + "\n");
      GluedRowIsNotRecorded(head, torn, e);
    }
  }

  lemma GluedRowIsNotRecorded(head: string, torn: string, e: LedgerEntry)
    requires Writable(e) && Terminated(head) && torn != "" && '\n' !in torn
    requires e.key !in Parse(head + torn)
    ensures e.key !in Parse(head + (torn + Row(e) + "\n"))
  {
    hide Parse, Row, ParseLine, Writable;
    NoNewlineInRow(e);
    WritableIsPlain(e);
    ParseAppend(head, torn);
    ParseAppend(head, torn + Row(e));
    GluedRowEnd(torn, e);
    GluedRow(torn, e);
    assert |torn + e.key.mailbox| > |e.key.mailbox|;
  }

  lemma WritableIsPlain(e: LedgerEntry)
    requires Writable(e)
    ensures '\n' !in e.key.mailbox && '\n' !in e.ingestedAt
  {
  }

  /** A row appended after a torn mailbox name is recorded under a name that is
      the two run together. */
  lemma RowAfterTornRowForgesKey(head: string, torn: string, e: LedgerEntry)
    requires Writable(e) && Terminated(head)
    requires torn != "" && '\t' !in torn && '\n' !in torn && !("#" <= torn)
    ensures var forged := e.key.(mailbox := torn + e.key.mailbox);
            && forged != e.key
            && Parse(head + (torn + Row(e) + "\n")) == Insert(Parse(head), e.(key := forged))
  {
    hide Parse, Row, ParseLine, Writable;
    NoNewlineInRow(e);
    WritableIsPlain(e);
    ParseAppend(head, torn + Row(e));
    GluedRowEnd(torn, e);
    GluedRow(torn, e);
    assert |torn + e.key.mailbox| > |e.key.mailbox|;
  }

  lemma GluedRowEnd(torn: string, e: LedgerEntry)
    requires Writable(e)
    ensures StripCr(torn + Row(e)) == torn + Row(e)
  {
    RowEnd(e);
    assert e.(ingestedAt := StripCr(e.ingestedAt)) == e;
    RowIsHeadAndTime(e);
    assert Last(torn + Row(e)) == Last(Row(e));
  }

  lemma RowHasFourFields(e: LedgerEntry)
    requires Writable(e)
    ensures |Done(Row(e), '\t')| == 3
  {
    RowParses(e);
  }

  lemma TabsAdd(a: string, b: string)
    requires '\t' in a
    ensures |Done(a + b, '\t')| >= |Done(b, '\t')| + 1
  {
    var i :| 0 <= i < |a| && a[i] == '\t';
    assert a + b == a[..i] + ['\t'] + (a[i + 1..] + b);
    SplitAt(a[..i], a[i + 1..] + b, '\t');
    SuffixHasNoMorePieces(a[i + 1..], b, '\t');
  }

  lemma {:induction false} SuffixHasNoMorePieces(a: string, b: string, sep: char)
    ensures |Done(a + b, sep)| >= |Done(b, sep)|
    decreases |b|
  {
    if b != "" {
      SuffixHasNoMorePieces(a, Init(b), sep);
      assert Init(a + b) == a + Init(b);
    }
  }

  // ----- which keys an append adds and loses -----

  function KeysOf(text: string): set<Key> {
    Parse(text).Keys
  }

  /** The key a line stands for, if it is a row. */
  function LineKey(line: string): Option<Key> {
    if ParseLine(line).None? then None else Some(ParseLine(line).value.key)
  }

  function KeySet(key: Option<Key>): set<Key> {
    if key.None? then {} else {key.value}
  }

  lemma InsertLineKeys(entries: Entries, line: string)
    ensures InsertLine(entries, line).Keys == entries.Keys + KeySet(LineKey(line))
  {
    hide ParseLine, StrLe;
  }

  lemma LastLineKeys(head: string, line: string)
    requires Terminated(head) && '\n' !in line && '\r' !in line
    ensures KeysOf(head + line) == KeysOf(head) + KeySet(LineKey(line))
    ensures KeysOf(head + (line + "\n")) == KeysOf(head) + KeySet(LineKey(line))
  {
    ParseAppend(head, line);
    InsertLineKeys(Parse(head), line);
    EmptyLineIsNoRow();
    hide Parse, InsertLine, ParseLine;
  }

  predicate OneLine(e: LedgerEntry) {
    '\n' !in Row(e) && '\r' !in Row(e)
  }

  /** An append replaces the unfinished line by that line gone on with the row. */
  lemma AppendedKeys(text: string, e: LedgerEntry, fate: Fate)
    requires '\r' !in text && OneLine(e)
    ensures KeysOf(text) == KeysOf(Head(text)) + KeySet(LineKey(Tail(text)))
    ensures KeysOf(Appended(text, Row(e), fate))
         == KeysOf(Head(text)) + KeySet(LineKey(Tail(text) + Piece(Row(e), fate)))
    ensures '\r' !in Appended(text, Row(e), fate)
  {
    hide Row, KeysOf, LineKey, Tail, Head;
    AppendedParts(text, Row(e), fate);
    assert '\r' !in Tail(text) + Piece(Row(e), fate);
    LastLineKeys(Head(text), Tail(text));
    LastLineKeys(Head(text), Tail(text) + Piece(Row(e), fate));
  }

  /** A piece of a row stands for the row's own key once it reaches the time. */
  lemma PieceKey(e: LedgerEntry, fate: Fate)
    requires Writable(e)
    ensures LineKey(Piece(Row(e), fate)) == if ReachesTime(e.key, fate) then Some(e.key) else None
  {
    RowIsHeadAndTime(e);
    hide Row, ParseLine, Writable, RowHead;
    match fate
    case Written =>
      TornRow(e, |Row(e)|);
      assert Row(e)[..|Row(e)|] == Row(e);
    case OpenFailed => EmptyLineIsNoRow();
    case WriteFailed(kept) =>
      TornRow(e, if kept <= |Row(e)| then kept else |Row(e)|);
      assert Row(e)[..|Row(e)|] == Row(e);
  }

  predicate ReachesTime(key: Key, fate: Fate) {
    fate.Written? || (fate.WriteFailed? && fate.kept >= |RowHead(key)|)
  }

  /** An append that starts on a line of its own, or goes on with an unfinished
      line without changing the key that line stands for. */
  predicate HarmlessAppend(text: string, e: LedgerEntry, fate: Fate) {
    Terminated(text) || LineKey(Tail(text) + Piece(Row(e), fate)) == LineKey(Tail(text))
  }

  /** The unfinished line repeats no finished one. */
  ghost predicate TailIsNew(text: string) {
    KeySet(LineKey(Tail(text))) !! KeysOf(Head(text))
  }

  /** An append loses no key and brings in none but its own exactly when it is
      harmless, or turns a piece that stood for nothing into a row that the
      ledger has anyway. */
  lemma AppendIsHonestIff(text: string, e: LedgerEntry, fate: Fate)
    requires Writable(e) && OneLine(e) && '\r' !in text && TailIsNew(text)
    ensures KeysOf(text) <= KeysOf(Appended(text, Row(e), fate)) <= KeysOf(text) + {e.key}
       <==> (HarmlessAppend(text, e, fate)
             || (LineKey(Tail(text)).None?
                 && LineKey(Tail(text) + Piece(Row(e), fate)).value in KeysOf(text) + {e.key}))
  {
    AppendedKeys(text, e, fate);
    PieceKey(e, fate);
    EmptyLineIsNoRow();
    assert Tail(text) == "" ==> Tail(text) + Piece(Row(e), fate) == Piece(Row(e), fate);
    hide KeysOf, Row, ParseLine, Head, Tail, Writable, RowHead;
  }

  /** A whole row written after an unfinished line: harmless exactly when that
      line has a tab already and is no row. Without a tab a foreign key is
      forged, and a row cut inside its time is lost. */
  lemma GluedRowIsHarmlessIff(text: string, e: LedgerEntry)
    requires Writable(e) && !Terminated(text)
    ensures HarmlessAppend(text, e, Written)
       <==> (LineKey(Tail(text)).None? && ('\t' in Tail(text) || "#" <= Tail(text)))
  {
    GluedRow(Tail(text), e);
    NoTabNoKey(Tail(text));
    hide Row, ParseLine, Writable, Tail;
  }

  lemma NoTabNoKey(line: string)
    ensures '\t' !in line || "#" <= line ==> LineKey(line).None?
  {
    if '\t' !in line { PlainIsPartial(line, '\t'); }
  }
}
