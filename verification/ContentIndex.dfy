/**
 The append-only content-hash index of `core/data.rs`: rows of a text file, and
 the map held in memory.
 */
module ContentIndexFile {
  import opened Wrappers
  import opened Text

  datatype IndexEntry = IndexEntry(relativePath: string, originalKey: string, bucketAlias: string)

  type Index = map<string, IndexEntry>

  /** `str::split_once`: the parts around the first separator. */
  function SplitOnce(s: string, sep: char): (r: Option<(string, string)>)
    ensures r.None? <==> sep !in s
    ensures r.Some? ==> s == r.value.0 + [sep] + r.value.1 && sep !in r.value.0
  {
    if s == "" then None
    else if s[0] == sep then Some(("", s[1..]))
    else
      assert s == [s[0]] + s[1..];
      match SplitOnce(s[1..], sep)
      case None => None
      case Some((a, b)) => Some(([s[0]] + a, b))
  }

  function SplitOnceOr(s: string, sep: char): (string, string) {
    if SplitOnce(s, sep).None? then (s, "") else SplitOnce(s, sep).value
  }

  /** Tab-separated rows of two to four fields, or the older `hash path` form. */
  function DecodeLine(line: string): Option<(string, IndexEntry)> {
    match SplitOnce(line, '\t')
    case Some((hash, rest)) =>
      var (path, rest) := SplitOnceOr(rest, '\t');
      var (key, alias) := SplitOnceOr(rest, '\t');
      Some((hash, IndexEntry(path, key, alias)))
    case None =>
      match SplitOnce(line, ' ')
      case Some((hash, path)) => Some((hash, IndexEntry(path, "", "")))
      case None => None
  }

  /** A later row for the same hash replaces an earlier one. */
  function LoadLine(index: Index, line: string): Index {
    match DecodeLine(line)
    case Some((hash, entry)) => index[hash := entry]
    case None => index
  }

  function LoadLines(lines: seq<string>): Index {
    if lines == [] then map[] else LoadLine(LoadLines(Init(lines)), Last(lines))
  }

  function Load(text: string): Index {
    LoadLines(Lines(text))
  }

  function Row(hash: string, e: IndexEntry): string {
    Tabbed([hash, e.relativePath, e.originalKey, e.bucketAlias])
  }

  /** The records that survive being written as a row. */
  predicate Clean(hash: string, e: IndexEntry) {
    && (forall c | c in ['\t', '\n'] :: c !in hash && c !in e.relativePath && c !in e.originalKey)
    && '\n' !in e.bucketAlias
    && StripCr(e.bucketAlias) == e.bucketAlias
  }

  // ----- rows read back -----

  lemma {:induction false} SplitOnceAt(a: string, b: string, sep: char)
    requires sep !in a
    ensures SplitOnce(a + [sep] + b, sep) == Some((a, b))
  {
    var s := a + [sep] + b;
    if a == "" {
      assert s[1..] == b;
    } else {
      SplitOnceAt(a[1..], b, sep);
      assert s[1..] == a[1..] + [sep] + b && [a[0]] + a[1..] == a;
    }
  }

  lemma RowParts(hash: string, e: IndexEntry)
    ensures Row(hash, e)
         == hash + ['\t'] + (e.relativePath + ['\t'] + (e.originalKey + ['\t'] + e.bucketAlias))
  {
    var r := [hash, e.relativePath, e.originalKey, e.bucketAlias];
    var tail := r[1..];
    assert tail[1..] == [e.originalKey, e.bucketAlias];
    assert Tabbed([e.bucketAlias]) == e.bucketAlias;
    assert [e.originalKey, e.bucketAlias][1..] == [e.bucketAlias];
    assert Tabbed([e.originalKey, e.bucketAlias]) == e.originalKey + ['\t'] + e.bucketAlias;
    assert Tabbed(tail) == e.relativePath + ['\t'] + (e.originalKey + ['\t'] + e.bucketAlias);
  }

  lemma RowDecodes(hash: string, e: IndexEntry)
    requires '\t' !in hash && '\t' !in e.relativePath && '\t' !in e.originalKey
    ensures DecodeLine(Row(hash, e)) == Some((hash, e))
  {
    RowParts(hash, e);
    SplitOnceAt(hash, e.relativePath + ['\t'] + (e.originalKey + ['\t'] + e.bucketAlias), '\t');
    SplitOnceAt(e.relativePath, e.originalKey + ['\t'] + e.bucketAlias, '\t');
    SplitOnceAt(e.originalKey, e.bucketAlias, '\t');
  }

  /** Rows written by older builds decode with the missing fields blank. */
  lemma LegacyRowsDecode(hash: string, path: string, key: string)
    requires '\t' !in hash && '\t' !in path && '\t' !in key
    ensures DecodeLine(hash + "\t" + path) == Some((hash, IndexEntry(path, "", "")))
    ensures DecodeLine(hash + "\t" + (path + "\t" + key)) == Some((hash, IndexEntry(path, key, "")))
    ensures ' ' !in hash ==> DecodeLine(hash + " " + path) == Some((hash, IndexEntry(path, "", "")))
  {
    SplitOnceAt(hash, path, '\t');
    SplitOnceAt(hash, path + "\t" + key, '\t');
    SplitOnceAt(path, key, '\t');
    if ' ' !in hash {
      SplitOnceAt(hash, path, ' ');
    }
  }

  lemma RowEnd(hash: string, e: IndexEntry)
    ensures StripCr(Row(hash, e)) == Row(hash, e.(bucketAlias := StripCr(e.bucketAlias)))
    ensures Row(hash, e) != ""
  {
    RowParts(hash, e);
    RowParts(hash, e.(bucketAlias := StripCr(e.bucketAlias)));
    var head := hash + ['\t'] + (e.relativePath + ['\t'] + (e.originalKey + ['\t']));
    assert Row(hash, e) == head + e.bucketAlias;
    if e.bucketAlias != "" && Last(e.bucketAlias) == '\r' {
      assert Init(head + e.bucketAlias) == head + Init(e.bucketAlias);
    }
  }

  lemma NoNewlineInRow(hash: string, e: IndexEntry)
    ensures '\n' !in Row(hash, e) <==>
              '\n' !in hash && '\n' !in e.relativePath && '\n' !in e.originalKey && '\n' !in e.bucketAlias
  {
    RowParts(hash, e);
  }

  lemma LoadSnoc(lines: seq<string>, line: string)
    ensures LoadLines(lines + [line]) == LoadLine(LoadLines(lines), line)
  {
    hide LoadLine;
    assert Init(lines + [line]) == lines;
  }

  lemma EmptyLineIsNoRecord(index: Index)
    ensures LoadLine(index, "") == index
  {
  }

  lemma LoadAppend(text: string, line: string)
    requires Terminated(text) && '\n' !in line
    ensures Load(text + (line + "\n")) == LoadLine(Load(text), StripCr(line))
    ensures Load(text + line) == LoadLine(Load(text), line)
  {
    hide Lines, LoadLine, LoadLines, StripCr;
    EmptyLineIsNoRecord(Load(text));
    LinesConcat(text, line + "\n");
    LinesConcat(text, line);
    LineReadsBack(line);
    LoadSnoc(Lines(text), StripCr(line));
    LoadSnoc(Lines(text), line);
    assert Lines(text) + [] == Lines(text);
  }

  /** Appending a clean record's row and loading again is inserting the record. */
  lemma AppendIsInsert(text: string, hash: string, e: IndexEntry)
    requires Terminated(text) && Clean(hash, e)
    ensures Load(text + (Row(hash, e) + "\n")) == Load(text)[hash := e]
  {
    hide Row, Load, DecodeLine;
    NoNewlineInRow(hash, e);
    LoadAppend(text, Row(hash, e));
    RowEnd(hash, e);
    assert e.(bucketAlias := StripCr(e.bucketAlias)) == e;
    RowDecodes(hash, e);
  }

  // ----- nothing else reads back -----

  ghost predicate Readable(hash: string, e: IndexEntry) {
    && '\n' !in hash && '\n' !in e.relativePath && '\n' !in e.originalKey && '\n' !in e.bucketAlias
    && '\t' !in hash && '\t' !in e.relativePath && '\t' !in e.originalKey
  }

  lemma DecodedIsReadable(line: string)
    requires '\n' !in line && DecodeLine(line).Some?
    ensures Readable(DecodeLine(line).value.0, DecodeLine(line).value.1)
  {
  }

  lemma {:induction false} LoadedIsReadable(lines: seq<string>)
    requires forall i | 0 <= i < |lines| :: '\n' !in lines[i]
    ensures forall hash | hash in LoadLines(lines) :: Readable(hash, LoadLines(lines)[hash])
  {
    if lines != [] {
      assert forall i | 0 <= i < |lines| - 1 :: Init(lines)[i] == lines[i];
      LoadedIsReadable(Init(lines));
      if DecodeLine(Last(lines)).Some? {
        DecodedIsReadable(Last(lines));
      }
    }
  }

  /** A committed record survives a restart exactly when it is clean. A tab in
      an object key, for one, splits it across two fields. */
  lemma SurvivesRestartIffClean(hash: string, e: IndexEntry)
    ensures Load(Row(hash, e) + "\n") == map[hash := e] <==> Clean(hash, e)
  {
    var row := Row(hash, e);
    assert "" + (row + "\n") == row + "\n";
    assert Load("") == map[];
    hide Row, Load, Clean, DecodeLine;
    CleanIsReadable(hash, e);
    if Clean(hash, e) {
      AppendIsInsert("", hash, e);
    } else if Load(row + "\n") == map[hash := e] {
      assert hash in Load(row + "\n");
      LoadedRecordIsReadable(row + "\n", hash);
      StrippedRowLoads(hash, e);
    }
  }

  lemma LoadedRecordIsReadable(text: string, hash: string)
    requires hash in Load(text)
    ensures Readable(hash, Load(text)[hash])
  {
    hide Lines;
    LinesHaveNoNewline(text);
    LoadedIsReadable(Lines(text));
  }

  lemma CleanIsReadable(hash: string, e: IndexEntry)
    ensures Clean(hash, e) <==> Readable(hash, e) && StripCr(e.bucketAlias) == e.bucketAlias
  {
  }

  lemma StrippedRowLoads(hash: string, e: IndexEntry)
    requires Readable(hash, e)
    ensures Load(Row(hash, e) + "\n") == map[hash := e.(bucketAlias := StripCr(e.bucketAlias))]
  {
    var row := Row(hash, e);
    assert "" + (row + "\n") == row + "\n";
    assert Load("") == map[];
    hide Row, Load, DecodeLine;
    NoNewlineInRow(hash, e);
    LoadAppend("", row);
    RowEnd(hash, e);
    RowDecodes(hash, e.(bucketAlias := StripCr(e.bucketAlias)));
  }

  // ----- rows written part way -----

  /** What the first `cut` characters of a row load as. The loader accepts older,
      shorter rows, so a piece that reaches past the hash is a live record. */
  function TornRecord(hash: string, e: IndexEntry, cut: nat): Option<(string, IndexEntry)> {
    var pathAt := |hash| + 1;
    var keyAt := pathAt + |e.relativePath| + 1;
    var aliasAt := keyAt + |e.originalKey| + 1;
    if cut <= |hash| then
      match SplitOnce(hash[..cut], ' ')
      case Some((h, path)) => Some((h, IndexEntry(path, "", "")))
      case None => None
    else if cut < keyAt then Some((hash, IndexEntry(e.relativePath[..cut - pathAt], "", "")))
    else if cut < aliasAt then Some((hash, IndexEntry(e.relativePath, e.originalKey[..cut - keyAt], "")))
    else if cut <= aliasAt + |e.bucketAlias| then
      Some((hash, IndexEntry(e.relativePath, e.originalKey, e.bucketAlias[..cut - aliasAt])))
    else Some((hash, e))
  }

  lemma TornRowDecodes(hash: string, e: IndexEntry, cut: nat)
    requires '\t' !in hash && '\t' !in e.relativePath && '\t' !in e.originalKey
    requires cut <= |Row(hash, e)|
    ensures DecodeLine(Row(hash, e)[..cut]) == TornRecord(hash, e, cut)
  {
    RowParts(hash, e);
    var pathAt := |hash| + 1;
    var keyAt := pathAt + |e.relativePath| + 1;
    var aliasAt := keyAt + |e.originalKey| + 1;
    var piece := Row(hash, e)[..cut];
    if cut <= |hash| {
      assert piece == hash[..cut];
    } else if cut < keyAt {
      var path := e.relativePath[..cut - pathAt];
      assert piece == hash + "\t" + path;
      LegacyRowsDecode(hash, path, "");
    } else if cut < aliasAt {
      var key := e.originalKey[..cut - keyAt];
      assert piece == hash + "\t" + (e.relativePath + "\t" + key);
      LegacyRowsDecode(hash, e.relativePath, key);
    } else {
      var torn := e.(bucketAlias := e.bucketAlias[..cut - aliasAt]);
      RowParts(hash, torn);
      assert piece == Row(hash, torn);
      RowDecodes(hash, torn);
    }
  }

  /** What a restart reads after a commit, if before it read `entries`. */
  function Reloaded(entries: Index, hash: string, e: IndexEntry, fate: Fate): Index {
    match fate
    case Written => entries[hash := e]
    case OpenFailed => entries
    case WriteFailed(kept) =>
      match TornRecord(hash, e, if kept <= |Row(hash, e)| then kept else |Row(hash, e)|)
      case Some((h, torn)) => entries[h := torn]
      case None => entries
  }

  /** Any commit of a clean record, however its write goes. */
  lemma CommitReloads(text: string, hash: string, e: IndexEntry, fate: Fate)
    requires Terminated(text) && Clean(hash, e)
    ensures Load(Appended(text, Row(hash, e), fate)) == Reloaded(Load(text), hash, e, fate)
    ensures Terminated(Appended(text, Row(hash, e), fate)) <==> !fate.WriteFailed? || fate.kept == 0
  {
    CleanIsReadable(hash, e);
    NoNewlineInRow(hash, e);
    RowEnd(hash, e);
    hide Row, Load, DecodeLine, Clean, TornRecord;
    match fate
    case Written => AppendIsInsert(text, hash, e);
    case OpenFailed => assert text + "" == text;
    case WriteFailed(kept) =>
      var cut := if kept <= |Row(hash, e)| then kept else |Row(hash, e)|;
      assert Row(hash, e)[..|Row(hash, e)|] == Row(hash, e);
      TornRowDecodes(hash, e, cut);
      LoadAppend(text, Row(hash, e)[..cut]);
  }

  /** After a failed write the map still equals what a restart would read exactly
      when the piece written did not get past the hash. Otherwise a restart finds
      a record that was never committed, at a path cut short. */
  lemma TornCommitIsHarmlessIff(entries: Index, hash: string, e: IndexEntry, kept: nat)
    requires hash !in entries && ' ' !in hash
    ensures Reloaded(entries, hash, e, WriteFailed(kept)) == entries <==> kept <= |hash|
  {
    RowParts(hash, e);
    var cut := if kept <= |Row(hash, e)| then kept else |Row(hash, e)|;
    if cut <= |hash| {
      assert forall c <- hash[..cut] :: c in hash;
    } else {
      assert hash in Reloaded(entries, hash, e, WriteFailed(kept));
    }
  }

  function Glued(e: IndexEntry, k: nat, hash2: string, e2: IndexEntry): IndexEntry
    requires k <= |e.relativePath|
  {
    IndexEntry(e.relativePath[..k] + hash2, e2.relativePath, e2.originalKey + "\t" + e2.bucketAlias)
  }

  /** The two rows run together are one row with a longer alias. */
  lemma GluedRow(hash: string, e: IndexEntry, k: nat, hash2: string, e2: IndexEntry)
    requires k <= |e.relativePath|
    ensures |hash| + 1 + k <= |Row(hash, e)|
    ensures Row(hash, e)[..|hash| + 1 + k] == hash + ['\t'] + e.relativePath[..k]
    ensures Row(hash, Glued(e, k, hash2, e2)) == hash + ['\t'] + e.relativePath[..k] + Row(hash2, e2)
  {
    RowParts(hash, e);
    RowParts(hash2, e2);
    RowParts(hash, Glued(e, k, hash2, e2));
    hide Row;
    var path, rest := e.relativePath[..k], e2.originalKey + ['\t'] + e2.bucketAlias;
    assert hash + ['\t'] + path + (hash2 + ['\t'] + (e2.relativePath + ['\t'] + rest))
        == hash + ['\t'] + (path + hash2 + ['\t'] + (e2.relativePath + ['\t'] + rest));
  }

  lemma GluedText(text: string, hash: string, e: IndexEntry, k: nat, hash2: string, e2: IndexEntry)
    requires k <= |e.relativePath|
    ensures var torn := Appended(text, Row(hash, e), WriteFailed(|hash| + 1 + k));
            Appended(torn, Row(hash2, e2), Written) == text + (Row(hash, Glued(e, k, hash2, e2)) + "\n")
  {
    GluedRow(hash, e, k, hash2, e2);
    hide Row, Glued;
    var piece := hash + ['\t'] + e.relativePath[..k];
    assert text + piece + (Row(hash2, e2) + "\n") == text + (piece + Row(hash2, e2) + "\n");
  }

  /** The next commit after a row torn in its path is glued to it: the new record
      is lost, and the torn one gets a path that is two names run together. */
  lemma GluedCommit(text: string, hash: string, e: IndexEntry, k: nat, hash2: string, e2: IndexEntry)
    requires Terminated(text) && Clean(hash, e) && Clean(hash2, e2) && k <= |e.relativePath|
    ensures var torn := Appended(text, Row(hash, e), WriteFailed(|hash| + 1 + k));
            Load(Appended(torn, Row(hash2, e2), Written)) == Load(text)[hash := Glued(e, k, hash2, e2)]
  {
    CleanIsReadable(hash, e);
    CleanIsReadable(hash2, e2);
    GluedText(text, hash, e, k, hash2, e2);
    GluedIsReadable(hash, e, k, hash2, e2);
    var glued := Glued(e, k, hash2, e2);
    hide Row, Load, DecodeLine, Clean, Glued, Appended;
    NoNewlineInRow(hash, glued);
    LoadAppend(text, Row(hash, glued));
    RowEnd(hash, glued);
    RowDecodes(hash, glued);
    assert glued.(bucketAlias := StripCr(glued.bucketAlias)) == glued;
  }

  lemma GluedIsReadable(hash: string, e: IndexEntry, k: nat, hash2: string, e2: IndexEntry)
    requires Readable(hash, e) && Readable(hash2, e2) && k <= |e.relativePath|
    requires StripCr(e2.bucketAlias) == e2.bucketAlias
    ensures var glued := Glued(e, k, hash2, e2);
            Readable(hash, glued.(bucketAlias := "")) && '\n' !in glued.bucketAlias
              && StripCr(glued.bucketAlias) == glued.bucketAlias
  {
    assert forall c <- e.relativePath[..k] :: c in e.relativePath;
    var alias := e2.originalKey + "\t" + e2.bucketAlias;
    if e2.bucketAlias == "" {
      assert Last(alias) == '\t';
    } else {
      assert Last(alias) == Last(e2.bucketAlias);
    }
  }

  lemma SplitOnceFirst(a: string, b: string, sep: char)
    requires sep in a
    ensures SplitOnce(a + b, sep) == Some((SplitOnce(a, sep).value.0, SplitOnce(a, sep).value.1 + b))
  {
    hide SplitOnce;
    var (x, y) := SplitOnce(a, sep).value;
    assert a + b == x + [sep] + (y + b);
    SplitOnceAt(x, y + b, sep);
  }

  lemma GluedHash(tail: string, hash: string, e: IndexEntry)
    requires '\t' !in hash
    ensures DecodeLine(tail + Row(hash, e)).Some?
    ensures DecodeLine(tail + Row(hash, e)).value.0
         == if '\t' in tail then DecodeLine(tail).value.0 else tail + hash
  {
    RowParts(hash, e);
    var rest := e.relativePath + ['\t'] + (e.originalKey + ['\t'] + e.bucketAlias);
    if '\t' in tail {
      SplitOnceFirst(tail, Row(hash, e), '\t');
    } else {
      assert tail + Row(hash, e) == tail + hash + ['\t'] + rest;
      SplitOnceAt(tail + hash, rest, '\t');
    }
  }

  /** A record of a new hash reads back exactly when its row starts on a line of its own. */
  lemma NewRecordIsKeptIffTerminated(text: string, hash: string, e: IndexEntry)
    requires Clean(hash, e) && hash !in Load(text)
    ensures hash in Load(Appended(text, Row(hash, e), Written)) <==> Terminated(text)
    ensures Terminated(text) ==> Load(Appended(text, Row(hash, e), Written)) == Load(text)[hash := e]
  {
    CleanIsReadable(hash, e);
    NoNewlineInRow(hash, e);
    if Terminated(text) {
      AppendIsInsert(text, hash, e);
    } else {
      AppendedParts(text, Row(hash, e), Written);
      GluedHash(Tail(text), hash, e);
      GluedEnd(Tail(text), hash, e);
      hide Row, Load, DecodeLine, Clean, Head, Tail;
      LoadAppend(Head(text), Tail(text));
      LoadAppend(Head(text), Tail(text) + Row(hash, e));
      assert |Tail(text) + hash| > |hash|;
      DecodesWithTab(Tail(text));
    }
  }

  lemma DecodesWithTab(line: string)
    ensures '\t' in line ==> DecodeLine(line).Some?
  {
  }

  lemma GluedEnd(tail: string, hash: string, e: IndexEntry)
    requires Clean(hash, e)
    ensures StripCr(tail + Row(hash, e)) == tail + Row(hash, e)
  {
    RowEnd(hash, e);
    assert e.(bucketAlias := StripCr(e.bucketAlias)) == e;
    assert Last(tail + Row(hash, e)) == Last(Row(hash, e));
  }

  // ----- the index held by a run -----

  class ContentIndex {
    var text: string
    var entries: Index

    /** The map is what a restart would load, and the next row starts a line. */
    ghost predicate Valid()
      reads this
    {
      Terminated(text) && entries == Load(text)
    }

    constructor (text: string)
      ensures this.text == text && entries == Load(text)
      ensures Terminated(text) ==> Valid()
    {
      this.text, entries := text, Load(text);
    }

    method Check(hash: string) returns (kept: Option<IndexEntry>)
      ensures kept == if hash in entries then Some(entries[hash]) else None
    {
      kept := if hash in entries then Some(entries[hash]) else None;
    }

    method Commit(hash: string, e: IndexEntry, fate: Fate) returns (ok: bool)
      modifies this
      ensures ok == fate.Written?
      ensures entries == if ok then old(entries)[hash := e] else old(entries)
      ensures text == Appended(old(text), Row(hash, e), fate)
      // what a restart would read then, and when that still is the map
      ensures old(Valid()) && Clean(hash, e) ==> Load(text) == Reloaded(old(entries), hash, e, fate)
      ensures old(Valid()) && Clean(hash, e) ==> (Valid() <==> !fate.WriteFailed? || fate.kept == 0)
      ensures old(Valid()) && fate.OpenFailed? ==> Valid()
    {
      hide Row, Load, Clean, Reloaded, Appended;
      if Terminated(text) && entries == Load(text) {
        CommitsLoad(text, entries, hash, e, fate);
      }
      text := Appended(text, Row(hash, e), fate);
      ok := fate.Written?;
      if ok {
        entries := entries[hash := e];
      }
    }
  }

  lemma CommitsLoad(text: string, entries: Index, hash: string, e: IndexEntry, fate: Fate)
    requires Terminated(text) && entries == Load(text)
    ensures fate.OpenFailed? ==> Appended(text, Row(hash, e), fate) == text
    ensures Clean(hash, e) ==>
              && Load(Appended(text, Row(hash, e), fate)) == Reloaded(entries, hash, e, fate)
              && (Terminated(Appended(text, Row(hash, e), fate)) <==> !fate.WriteFailed? || fate.kept == 0)
              && (!fate.WriteFailed? || fate.kept == 0 ==>
                    Reloaded(entries, hash, e, fate) == if fate.Written? then entries[hash := e] else entries)
  {
    if Clean(hash, e) {
      CommitReloads(text, hash, e, fate);
    }
  }
}
