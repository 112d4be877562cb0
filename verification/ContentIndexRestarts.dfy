/**
 The content-hash index from any file a run may load, also one that an earlier
 run left with a row torn anywhere.
 */
module ContentIndexRestarts {
  import opened Wrappers
  import opened Text
  import opened ContentIndexFile
  import opened ContentIndexRuns

  // ----- a record goes on growing -----

  function RecordOf(line: string): IndexEntry
    requires DecodeLine(line).Some?
  {
    DecodeLine(line).value.1
  }

  function Size(e: IndexEntry): nat {
    |e.relativePath| + |e.originalKey| + |e.bucketAlias|
  }

  /** A field gone on with, or followed by a further one. */
  lemma TwoFieldsGrow(rest: string, more: string)
    requires more != "" && more[0] != '\t'
    ensures var (a, b), (c, d) := SplitOnceOr(rest, '\t'), SplitOnceOr(rest + more, '\t');
            |c| + |d| > |a| + |b|
    ensures '\t' in rest ==> SplitOnceOr(rest + more, '\t')
                             == (SplitOnceOr(rest, '\t').0, SplitOnceOr(rest, '\t').1 + more)
    ensures '\t' !in rest ==> |SplitOnceOr(rest + more, '\t').0| > |rest| && SplitOnceOr(rest, '\t') == (rest, "")
  {
    if '\t' in rest {
      SplitOnceFirst(rest, more, '\t');
    } else if '\t' in more {
      var (x, y) := SplitOnce(more, '\t').value;
      assert x != "";
      assert rest + more == (rest + x) + ['\t'] + y;
      SplitOnceAt(rest + x, y, '\t');
    }
  }

  lemma TabbedGrows(line: string, more: string)
    requires '\t' in line && more != "" && more[0] != '\t'
    ensures DecodeLine(line).Some? && DecodeLine(line + more).Some?
    ensures KeyOf(line + more) == KeyOf(line) && Size(RecordOf(line + more)) > Size(RecordOf(line))
  {
    SplitOnceFirst(line, more, '\t');
    var rest := SplitOnce(line, '\t').value.1;
    TwoFieldsGrow(rest, more);
    if '\t' in rest {
      TwoFieldsGrow(SplitOnceOr(rest, '\t').1, more);
    }
  }

  lemma SpacedGrows(line: string, more: string)
    requires '\t' !in line && ' ' in line && '\t' !in more && more != ""
    ensures DecodeLine(line).Some? && DecodeLine(line + more).Some?
    ensures KeyOf(line + more) == KeyOf(line) && Size(RecordOf(line + more)) > Size(RecordOf(line))
  {
    SplitOnceFirst(line, more, ' ');
  }

  predicate Leaves(c: Commit) {
    c.fate.Written? || LeavesPiece(c)
  }

  /** Whatever is appended to a line that is a record already makes that record
      larger, or turns it into one of a hash that is too long. */
  lemma RecordGrows(line: string, c: Commit, n: nat)
    requires PlainCommit(c, n) && n >= 1 && Leaves(c) && DecodeLine(line).Some?
    ensures var after := line + Piece(Row(c.hash, c.entry), c.fate);
            && DecodeLine(after).Some?
            && ((KeyOf(after) == KeyOf(line) && Size(RecordOf(after)) > Size(RecordOf(line)))
                || ('\t' in after && |KeyOf(after).value| > n))
  {
    var piece := Piece(Row(c.hash, c.entry), c.fate);
    RowParts(c.hash, c.entry);
    assert piece != "" && piece[0] == c.hash[0] && c.hash[0] in c.hash;
    HashHasNoTab(c, n);
    if '\t' in line {
      TabbedGrows(line, piece);
    } else if '\t' in piece {
      var (x, y) := SplitOnce(piece, '\t').value;
      PieceHash(c, n);
      assert line + piece == (line + c.hash) + ['\t'] + y;
      SplitOnceAt(line + c.hash, y, '\t');
    } else {
      SpacedGrows(line, piece);
    }
  }

  lemma HashHasNoTab(c: Commit, n: nat)
    requires PlainCommit(c, n)
    ensures '\t' !in c.hash && |c.hash| == n
  {
  }

  lemma PieceHash(c: Commit, n: nat)
    requires PlainCommit(c, n)
    ensures var piece := Piece(Row(c.hash, c.entry), c.fate);
            '\t' in piece ==> SplitOnce(piece, '\t').value.0 == c.hash
  {
    var piece := Piece(Row(c.hash, c.entry), c.fate);
    RowParts(c.hash, c.entry);
    HashHasNoTab(c, n);
    if |piece| <= |c.hash| {
      assert piece <= c.hash;
      assert forall d <- piece :: d in c.hash;
    } else {
      assert piece == c.hash + ['\t'] + piece[|c.hash| + 1..];
      SplitOnceAt(c.hash, piece[|c.hash| + 1..], '\t');
    }
  }

  // ----- states -----

  /** The unfinished line is a record of `hash` at least as large as the one held. */
  ghost predicate Heavy(h: Held, hash: string) {
    && DecodeLine(Tail(h.text)).Some? && KeyOf(Tail(h.text)) == Some(hash) && hash in h.entries
    && Size(RecordOf(Tail(h.text))) >= Size(h.entries[hash])
  }

  /** It is larger, so it is another. */
  ghost predicate Stale(h: Held, hash: string) {
    Heavy(h, hash) && Size(RecordOf(Tail(h.text))) > Size(h.entries[hash])
  }

  /** The file has a record of a hash that no run commits, and will keep it. */
  ghost predicate Alien(h: Held, n: nat) {
    || (exists k :: k in Load(Head(h.text)) && |k| != n)
    || ('\t' in Tail(h.text) && KeyOf(Tail(h.text)).Some? && |KeyOf(Tail(h.text)).value| != n)
  }

  ghost predicate Off(h: Held, n: nat) {
    Alien(h, n) || exists hash :: |hash| == n && (Stale(h, hash) || Lost(h, hash))
  }

  lemma LoadLineKeys(entries: Index, line: string)
    ensures LoadLine(entries, line).Keys
         == entries.Keys + if KeyOf(line).Some? then {KeyOf(line).value} else {}
  {
    hide DecodeLine;
  }

  lemma OffIsUnequal(h: Held, n: nat)
    requires Off(h, n) && Lengths(h, n)
    ensures Load(h.text) != h.entries
  {
    TextLoads(h.text);
    LoadLineKeys(Load(Head(h.text)), Tail(h.text));
    hide Load, DecodeLine, Head, Tail, LoadLine, KeyOf;
    if !Alien(h, n) {
      var hash :| |hash| == n && (Stale(h, hash) || Lost(h, hash));
      EqualIffGood(h, hash);
      LoadLineAt(Load(Head(h.text)), Tail(h.text), hash);
    }
  }

  // ----- one commit -----

  lemma AlienStays(h: Held, c: Commit, n: nat)
    requires Alien(h, n) && PlainCommit(c, n)
    ensures Alien(AfterOne(h, c), n)
  {
    AfterParts(h, c, n);
    LineGoesOn(Tail(h.text), c, n);
    LoadLineKeys(Load(Head(h.text)), Tail(h.text) + Piece(Row(c.hash, c.entry), c.fate));
    hide Load, DecodeLine, Head, Tail, LoadLine, KeyOf, Row, Piece, Appended, Clean;
  }

  /** The unfinished line with what the commit appends to it. */
  function LineAfter(h: Held, c: Commit): string {
    Tail(h.text) + Piece(Row(c.hash, c.entry), c.fate)
  }

  lemma HeavyRowSpoils(h: Held, c: Commit, n: nat, hash: string)
    requires Heavy(h, hash) && |hash| == n && n >= 1 && PlainCommit(c, n) && c.hash !in h.entries && c.fate.Written?
    ensures Off(AfterOne(h, c), n)
  {
    hide Load, DecodeLine, Head, Tail, LoadLine, Row, Piece, Appended, Clean;
    var line := LineAfter(h, c);
    AfterParts(h, c, n);
    RecordGrows(Tail(h.text), c, n);
    LoadLineAt(Load(Head(h.text)), line, hash);
    LoadLineKeys(Load(Head(h.text)), line);
    BareIsNoRecordKey("");
    if KeyOf(line) == Some(hash) {
      assert |KeyOf(line).value| == n;
      assert Lost(AfterOne(h, c), hash);
    } else {
      hide Lost;
      assert KeyOf(line).value in Load(Head(AfterOne(h, c).text));
      assert Alien(AfterOne(h, c), n);
    }
  }

  lemma HeavyPieceSpoils(h: Held, c: Commit, n: nat, hash: string)
    requires Heavy(h, hash) && |hash| == n && n >= 1 && PlainCommit(c, n) && LeavesPiece(c)
    ensures Off(AfterOne(h, c), n)
  {
    hide Load, DecodeLine, Head, Tail, LoadLine, Row, Piece, Appended, Clean, Lost;
    var line := LineAfter(h, c);
    AfterParts(h, c, n);
    RecordGrows(Tail(h.text), c, n);
    if KeyOf(line) == Some(hash) {
      assert Stale(AfterOne(h, c), hash);
    } else {
      assert Alien(AfterOne(h, c), n);
    }
  }

  /** Anything written after a record that is still held leaves the map behind the file for good. */
  lemma HeavySpoils(h: Held, c: Commit, n: nat, hash: string)
    requires Heavy(h, hash) && |hash| == n && n >= 1 && PlainCommit(c, n) && c.hash !in h.entries && Leaves(c)
    ensures Off(AfterOne(h, c), n)
  {
    hide Heavy, Off, PlainCommit, AfterOne;
    if c.fate.Written? {
      HeavyRowSpoils(h, c, n, hash);
    } else {
      HeavyPieceSpoils(h, c, n, hash);
    }
  }

  lemma NothingWrittenStays(h: Held, c: Commit)
    requires !Leaves(c)
    ensures AfterOne(h, c) == h
  {
    hide Row;
    assert h.text + "" == h.text;
  }

  lemma OffStays(h: Held, c: Commit, n: nat)
    requires Off(h, n) && Lengths(h, n) && n >= 1 && PlainCommit(c, n) && c.hash !in h.entries
    ensures Off(AfterOne(h, c), n)
  {
    hide Alien, Lost, Heavy, AfterOne, PlainCommit;
    if Alien(h, n) {
      AlienStays(h, c, n);
    } else {
      var hash :| |hash| == n && (Stale(h, hash) || Lost(h, hash));
      if Lost(h, hash) {
        LostStays(h, c, n, hash);
      } else if Leaves(c) {
        HeavySpoils(h, c, n, hash);
      } else {
        NothingWrittenStays(h, c);
      }
    }
  }

  // ----- any sequence of commits -----

  /** Every commit failed before it wrote anything. */
  ghost predicate NothingWritten(commits: seq<Commit>) {
    forall c <- commits :: !Leaves(c)
  }

  ghost predicate LedFrom(h: Held, t: Held, commits: seq<Commit>, n: nat) {
    && Lengths(t, n)
    && (NothingWritten(commits) ==> t == h)
    && (!NothingWritten(commits) ==> Off(t, n))
  }

  lemma NothingWrittenSnoc(commits: seq<Commit>, c: Commit)
    ensures NothingWritten(commits + [c]) <==> NothingWritten(commits) && !Leaves(c)
  {
    assert forall d <- commits + [c] :: d in commits || d == c;
    assert c in commits + [c] && forall d <- commits :: d in commits + [c];
  }

  lemma LedFromStep(h: Held, s: Held, commits: seq<Commit>, c: Commit, n: nat, hash: string)
    requires LedFrom(h, s, commits, n) && Heavy(h, hash) && |hash| == n && n >= 1
    requires PlainCommit(c, n) && c.hash !in s.entries
    ensures LedFrom(h, AfterOne(s, c), commits + [c], n)
  {
    NothingWrittenSnoc(commits, c);
    LengthsStay(s, c, n);
    hide Off, Heavy, NothingWritten, AfterOne, PlainCommit, Lengths, Leaves;
    if !NothingWritten(commits) {
      OffStays(s, c, n);
    } else if Leaves(c) {
      HeavySpoils(s, c, n, hash);
    } else {
      NothingWrittenStays(s, c);
    }
  }

  lemma {:induction false} CommitsLead(h: Held, commits: seq<Commit>, n: nat, hash: string)
    requires Heavy(h, hash) && |hash| == n && n >= 1 && Lengths(h, n)
    requires (forall c <- commits :: PlainCommit(c, n)) && AllNew(h, commits)
    ensures LedFrom(h, After(h, commits), commits, n)
  {
    AfterUnfolds(h, commits);
    hide PlainCommit, LedFrom, AllNew, Lengths, AfterOne, After, Heavy;
    if commits == [] {
      NothingLeads(h, n);
    } else {
      NewInit(h, commits);
      assert forall c <- Init(commits) :: c in commits;
      CommitsLead(h, Init(commits), n, hash);
      assert Init(commits) + [Last(commits)] == commits;
      LedFromStep(h, After(h, Init(commits)), Init(commits), Last(commits), n, hash);
    }
  }

  lemma NothingLeads(h: Held, n: nat)
    requires Lengths(h, n)
    ensures LedFrom(h, h, [], n)
  {
    hide Off;
  }

  /** What keeps the map and the file together, whatever the file was. */
  ghost predicate KeepsFile(text: string, commits: seq<Commit>) {
    if DecodeLine(Tail(text)).None? then HarmlessTo(text, commits) else NothingWritten(commits)
  }

  lemma LoadedIsHeavy(text: string)
    requires DecodeLine(Tail(text)).Some?
    ensures Heavy(Held(text, Load(text)), KeyOf(Tail(text)).value)
  {
    TextLoads(text);
    LoadLineAt(Load(Head(text)), Tail(text), KeyOf(Tail(text)).value);
    hide Load, DecodeLine, Head, Tail, LoadLine;
  }

  lemma NoRecordIsBare(line: string)
    ensures DecodeLine(line).None? <==> Bare(line)
  {
  }

  /** After these commits the map of a run that loaded `text` is what a restart would load. */
  ghost predicate Together(text: string, commits: seq<Commit>) {
    var t := After(Held(text, Load(text)), commits);
    t.entries == Load(t.text)
  }

  /**
   From any file, and after any sequence of commits, the map is what a restart
   would load if and only if one of two things holds. Either the loaded file
   ended in a row torn past its hash, and no commit wrote anything at all. Or no
   failed write got past its hash, and none that left anything behind, in this
   run or at the end of the loaded file, was followed by one that worked.
   */
  lemma MapIsFileIffKept(text: string, commits: seq<Commit>, n: nat)
    requires n >= 1 && forall hash | hash in Load(text) :: |hash| == n
    requires (forall c <- commits :: PlainCommit(c, n)) && AllNew(Held(text, Load(text)), commits)
    ensures Together(text, commits) <==> KeepsFile(text, commits)
  {
    NoRecordIsBare(Tail(text));
    if DecodeLine(Tail(text)).None? {
      FromHashIffHarmless(text, commits, n);
    } else {
      var h, hash := Held(text, Load(text)), KeyOf(Tail(text)).value;
      LoadedIsHeavy(text);
      hide Load, After, Off, Heavy, NothingWritten, AllNew, Tail, PlainCommit;
      assert hash in h.entries by { HeavyIsHeld(h, hash); }
      CommitsLead(h, commits, n, hash);
      var t := After(h, commits);
      if !NothingWritten(commits) {
        OffIsUnequal(t, n);
      }
    }
  }

  lemma HeavyIsHeld(h: Held, hash: string)
    requires Heavy(h, hash)
    ensures hash in h.entries
  {
  }

  /** Once the map and the file disagree, no later commit brings them together. */
  lemma DisagreementIsForGood(text: string, commits: seq<Commit>, later: seq<Commit>, n: nat)
    requires n >= 1 && forall hash | hash in Load(text) :: |hash| == n
    requires (forall c <- commits + later :: PlainCommit(c, n)) && AllNew(Held(text, Load(text)), commits + later)
    ensures Together(text, commits + later) ==> Together(text, commits)
  {
    hide Load, After, KeepsFile, AllNew, PlainCommit, Together;
    assert forall c <- commits :: c in commits + later;
    NewPrefix(Held(text, Load(text)), commits, later);
    MapIsFileIffKept(text, commits, n);
    MapIsFileIffKept(text, commits + later, n);
    if KeepsFile(text, commits + later) {
      KeptPrefix(text, commits, later);
    }
  }

  lemma NewPrefix(h: Held, commits: seq<Commit>, later: seq<Commit>)
    requires AllNew(h, commits + later)
    ensures AllNew(h, commits)
  {
    hide After;
    forall i | 0 <= i < |commits|
      ensures commits[i].hash !in After(h, commits[..i]).entries
    {
      assert (commits + later)[..i] == commits[..i] && (commits + later)[i] == commits[i];
    }
  }

  lemma KeptPrefix(text: string, commits: seq<Commit>, later: seq<Commit>)
    requires KeepsFile(text, commits + later)
    ensures KeepsFile(text, commits)
  {
    var all := commits + later;
    assert forall i | 0 <= i < |commits| :: all[i] == commits[i];
    assert forall c <- commits :: c in all;
    hide DecodeLine, Tail;
  }
}
