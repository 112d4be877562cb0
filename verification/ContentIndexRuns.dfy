/**
 The content-hash index over a whole sequence of commits: exactly when the map
 in memory still is what a restart would load.
 */
module ContentIndexRuns {
  import opened Wrappers
  import opened Text
  import opened ContentIndexFile

  datatype Commit = Commit(hash: string, entry: IndexEntry, fate: Fate)

  /** The file and the map. */
  datatype Held = Held(text: string, entries: Index)

  function AfterOne(h: Held, c: Commit): Held {
    Held(Appended(h.text, Row(c.hash, c.entry), c.fate),
         if c.fate.Written? then h.entries[c.hash := c.entry] else h.entries)
  }

  function After(h: Held, commits: seq<Commit>): Held {
    if commits == [] then h else AfterOne(After(h, Init(commits)), Last(commits))
  }

  // ----- what callers commit -----

  /** A digest of the usual length, and a record that its row can hold. */
  predicate PlainCommit(c: Commit, n: nat) {
    |c.hash| == n && ' ' !in c.hash && Clean(c.hash, c.entry)
  }

  /** Every commit is of a hash the map does not hold yet. */
  ghost predicate AllNew(h: Held, commits: seq<Commit>) {
    forall i | 0 <= i < |commits| :: commits[i].hash !in After(h, commits[..i]).entries
  }

  /** What an append may leave on an unfinished line without harm. */
  predicate LeavesPiece(c: Commit) {
    c.fate.WriteFailed? && c.fate.kept > 0
  }

  /** No failed write got past the hash, and none was followed by one that worked. */
  ghost predicate Harmless(commits: seq<Commit>) {
    && (forall i | 0 <= i < |commits| :: commits[i].fate.WriteFailed? ==> commits[i].fate.kept <= |commits[i].hash|)
    && (forall i, j | 0 <= i < j < |commits| :: !(LeavesPiece(commits[i]) && commits[j].fate.Written?))
  }

  // ----- three kinds of state -----

  function KeyOf(line: string): Option<string> {
    if DecodeLine(line).None? then None else Some(DecodeLine(line).value.0)
  }

  function At(entries: Index, hash: string): Option<IndexEntry> {
    if hash in entries then Some(entries[hash]) else None
  }

  ghost predicate Lengths(h: Held, n: nat) {
    forall k | k in h.entries :: |k| == n
  }

  /** The unfinished line is part of a hash. */
  predicate Bare(line: string) {
    '\t' !in line && ' ' !in line
  }

  ghost predicate Good(h: Held) {
    Load(Head(h.text)) == h.entries && Bare(Tail(h.text))
  }

  /** The unfinished line reads as a record that was never committed. */
  ghost predicate Live(h: Held) {
    && Load(Head(h.text)) == h.entries && '\t' in Tail(h.text)
    && KeyOf(Tail(h.text)).Some? && KeyOf(Tail(h.text)).value !in h.entries
  }

  /** The committed record of `hash` does not read back, and never will. */
  ghost predicate Lost(h: Held, hash: string) {
    && hash in h.entries && At(Load(Head(h.text)), hash) != Some(h.entries[hash])
    && KeyOf(Tail(h.text)) != Some(hash)
    && ('\t' in Tail(h.text) || ' ' !in Tail(h.text))
  }

  lemma BareIsNoRecord(line: string)
    requires Bare(line)
    ensures DecodeLine(line) == None
  {
  }

  lemma TextLoads(text: string)
    ensures Load(text) == LoadLine(Load(Head(text)), Tail(text))
  {
    LoadAppend(Head(text), Tail(text));
  }

  lemma EqualIffGood(h: Held, hash: string)
    ensures Good(h) ==> Load(h.text) == h.entries
    ensures Live(h) || Lost(h, hash) ==> Load(h.text) != h.entries
  {
    TextLoads(h.text);
    if Good(h) { BareIsNoRecord(Tail(h.text)); }
    hide Load, DecodeLine, Head, Tail;
  }

  /** What the row of a commit adds to the unfinished line. */
  lemma LineGoesOn(line: string, c: Commit, n: nat)
    requires PlainCommit(c, n)
    ensures var after := line + Piece(Row(c.hash, c.entry), c.fate);
            && ('\t' in line ==> '\t' in after && KeyOf(after) == KeyOf(line))
            && (Bare(line) && PastHash(c) ==> '\t' in after && KeyOf(after) == Some(line + c.hash))
            && (Bare(line) && !PastHash(c) ==> Bare(after))
  {
    RowParts(c.hash, c.entry);
    var piece := Piece(Row(c.hash, c.entry), c.fate);
    if '\t' in line {
      SplitOnceFirst(line, piece, '\t');
    } else if Bare(line) {
      if PastHash(c) {
        var rest := piece[n + 1..];
        assert piece == c.hash + ['\t'] + rest;
        assert line + piece == (line + c.hash) + ['\t'] + rest;
        SplitOnceAt(line + c.hash, rest, '\t');
      } else {
        assert piece <= c.hash;
        assert forall d <- piece :: d in c.hash;
      }
    }
  }

  predicate PastHash(c: Commit) {
    c.fate.Written? || (c.fate.WriteFailed? && c.fate.kept > |c.hash|)
  }

  lemma AfterParts(h: Held, c: Commit, n: nat)
    requires PlainCommit(c, n)
    ensures var line := Tail(h.text) + Piece(Row(c.hash, c.entry), c.fate);
            var t := AfterOne(h, c);
            && (c.fate.Written? ==>
                  && Head(t.text) == t.text && Tail(t.text) == ""
                  && Load(t.text) == LoadLine(Load(Head(h.text)), line))
            && (!c.fate.Written? ==> Head(t.text) == Head(h.text) && Tail(t.text) == line)
  {
    NoNewlineInRow(c.hash, c.entry);
    AppendedParts(h.text, Row(c.hash, c.entry), c.fate);
    GluedEnd(Tail(h.text), c.hash, c.entry);
    var line := Tail(h.text) + Piece(Row(c.hash, c.entry), c.fate);
    hide Row, Load, Head, Tail, Clean;
    if c.fate.Written? {
      LoadAppend(Head(h.text), line);
      LoadAppend(AfterOne(h, c).text, "");
    }
  }

  lemma LoadLineAt(entries: Index, line: string, hash: string)
    ensures At(LoadLine(entries, line), hash)
         == if KeyOf(line) == Some(hash) then Some(DecodeLine(line).value.1) else At(entries, hash)
  {
    hide DecodeLine;
  }

  /** No new commit's row reads as a record of a hash the map holds. */
  lemma LineKeyDiffers(line: string, c: Commit, n: nat, hash: string)
    requires PlainCommit(c, n) && |hash| == n && c.hash != hash
    requires KeyOf(line) != Some(hash) && ('\t' in line || ' ' !in line)
    ensures var after := line + Piece(Row(c.hash, c.entry), c.fate);
            KeyOf(after) != Some(hash) && ('\t' in after || ' ' !in after)
  {
    LineGoesOn(line, c, n);
    BareIsNoRecordKey(line + Piece(Row(c.hash, c.entry), c.fate));
    assert |line + c.hash| == |line| + n;
    assert line == "" ==> line + c.hash == c.hash;
    hide Row, KeyOf, Clean, Piece;
  }

  /** A lost record stays lost. */
  lemma LostStays(h: Held, c: Commit, n: nat, hash: string)
    requires Lost(h, hash) && PlainCommit(c, n) && |hash| == n && c.hash !in h.entries
    ensures Lost(AfterOne(h, c), hash)
  {
    var line := Tail(h.text) + Piece(Row(c.hash, c.entry), c.fate);
    AfterParts(h, c, n);
    LineKeyDiffers(Tail(h.text), c, n, hash);
    LoadLineAt(Load(Head(h.text)), line, hash);
    BareIsNoRecordKey("");
    hide Load, LoadLine, Row, DecodeLine, Head, Tail, Clean, KeyOf, At, Piece, Appended;
  }

  lemma BareIsNoRecordKey(line: string)
    ensures Bare(line) ==> KeyOf(line) == None
  {
    if Bare(line) { BareIsNoRecord(line); }
  }

  /** A record whose row is glued to a live piece never reads back. */
  lemma LiveBecomesLost(h: Held, c: Commit, n: nat)
    requires Live(h) && PlainCommit(c, n) && c.hash !in h.entries && c.fate.Written?
    ensures Lost(AfterOne(h, c), c.hash)
  {
    var line := Tail(h.text) + Row(c.hash, c.entry);
    AfterParts(h, c, n);
    LineGoesOn(Tail(h.text), c, n);
    LoadLineAt(Load(Head(h.text)), line, c.hash);
    BareIsNoRecordKey("");
    GluedAliasIsLonger(Tail(h.text), c.hash, c.entry);
    hide Load, Row, DecodeLine, Head, Tail, Clean;
  }

  /** The glued row has a tab too many, so its last field is longer than the record's. */
  lemma GluedAliasIsLonger(line: string, hash: string, e: IndexEntry)
    requires '\t' in line
    ensures DecodeLine(line + Row(hash, e)).Some? && DecodeLine(line + Row(hash, e)).value.1 != e
  {
    RowParts(hash, e);
    var row := Row(hash, e);
    SplitOnceFirst(line, row, '\t');
    var rest := SplitOnce(line, '\t').value.1;
    AliasEndsWith(rest, hash, e.relativePath, e.originalKey, e.bucketAlias);
  }

  /** Four fields and more after the hash leave a tab in the alias. */
  lemma AliasEndsWith(rest: string, hash: string, path: string, key: string, alias: string)
    ensures var line := rest + (hash + ['\t'] + (path + ['\t'] + (key + ['\t'] + alias)));
            var (p, more) := SplitOnceOr(line, '\t');
            var (k, a) := SplitOnceOr(more, '\t');
            |a| > |alias|
  {
    var tail2 := key + ['\t'] + alias;
    var tail1 := path + ['\t'] + tail2;
    SplitOnceKeeps(rest + hash, tail1);
    var more := SplitOnceOr(rest + hash + ['\t'] + tail1, '\t').1;
    assert rest + (hash + ['\t'] + tail1) == rest + hash + ['\t'] + tail1;
    var front :| more == front + tail1;
    assert more == (front + path) + ['\t'] + tail2;
    SplitOnceKeeps(front + path, tail2);
  }

  /** What follows a tab survives the first split. */
  lemma SplitOnceKeeps(a: string, b: string)
    ensures exists front :: SplitOnceOr(a + ['\t'] + b, '\t').1 == front + b
    ensures |SplitOnceOr(a + ['\t'] + b, '\t').1| >= |b|
  {
    if '\t' in a {
      SplitOnceFirst(a, ['\t'] + b, '\t');
      assert a + (['\t'] + b) == a + ['\t'] + b;
      var front := SplitOnce(a, '\t').value.1 + ['\t'];
      assert SplitOnceOr(a + ['\t'] + b, '\t').1 == front + b;
    } else {
      SplitOnceAt(a, b, '\t');
      assert b == "" + b;
    }
  }

  lemma GoodCommit(h: Held, c: Commit, n: nat)
    requires Good(h) && PlainCommit(c, n) && Terminated(h.text) && c.fate.Written?
    ensures var t := AfterOne(h, c); Good(t) && Terminated(t.text)
  {
    AfterParts(h, c, n);
    AppendIsInsert(h.text, c.hash, c.entry);
    assert Head(h.text) == h.text;
    hide Load, LoadLine, Row, DecodeLine, Head, Tail, Clean;
  }

  lemma GoodBecomesLost(h: Held, c: Commit, n: nat)
    requires Good(h) && PlainCommit(c, n) && c.hash !in h.entries && !Terminated(h.text) && c.fate.Written?
    ensures Lost(AfterOne(h, c), c.hash)
  {
    hide Load, LoadLine, Row, DecodeLine, Head, Tail, Clean, KeyOf, Piece, Appended;
    var line := Tail(h.text) + Piece(Row(c.hash, c.entry), c.fate);
    AfterParts(h, c, n);
    LineGoesOn(Tail(h.text), c, n);
    LoadLineAt(Load(Head(h.text)), line, c.hash);
    BareIsNoRecordKey("");
    assert |Tail(h.text) + c.hash| == |Tail(h.text)| + n;
    hide Bare, PlainCommit;
  }

  lemma EmptyPiece(c: Commit)
    ensures !c.fate.Written? ==> (Piece(Row(c.hash, c.entry), c.fate) == "" <==> !LeavesPiece(c))
  {
    RowParts(c.hash, c.entry);
  }

  lemma GoodStaysGood(h: Held, c: Commit, n: nat)
    requires Good(h) && PlainCommit(c, n) && !PastHash(c)
    ensures var t := AfterOne(h, c);
            Good(t) && (Terminated(t.text) <==> Terminated(h.text) && !LeavesPiece(c))
  {
    hide Load, LoadLine, Row, DecodeLine, Head, Tail, Clean, KeyOf, Piece, Appended, Bare, PlainCommit, LeavesPiece;
    AfterParts(h, c, n);
    LineGoesOn(Tail(h.text), c, n);
    EmptyPiece(c);
  }

  lemma GoodBecomesLive(h: Held, c: Commit, n: nat)
    requires Good(h) && Lengths(h, n) && PlainCommit(c, n) && c.hash !in h.entries && !c.fate.Written? && PastHash(c)
    ensures Live(AfterOne(h, c))
  {
    AfterParts(h, c, n);
    LineGoesOn(Tail(h.text), c, n);
    assert |Tail(h.text) + c.hash| == |Tail(h.text)| + n;
    assert Tail(h.text) == "" ==> Tail(h.text) + c.hash == c.hash;
    hide Load, LoadLine, Row, DecodeLine, Head, Tail, Clean, KeyOf, Piece, Appended;
  }

  lemma GoodStep(h: Held, c: Commit, n: nat)
    requires Good(h) && Lengths(h, n) && PlainCommit(c, n) && c.hash !in h.entries
    ensures var t := AfterOne(h, c);
            && (c.fate.Written? && Terminated(h.text) ==> Good(t) && Terminated(t.text))
            && (c.fate.Written? && !Terminated(h.text) ==> Lost(t, c.hash))
            && (!PastHash(c) ==> Good(t) && (Terminated(t.text) <==> Terminated(h.text) && !LeavesPiece(c)))
            && (!c.fate.Written? && PastHash(c) ==> Live(t))
  {
    hide Good, Live, Lost, PlainCommit, AfterOne;
    if c.fate.Written? {
      if Terminated(h.text) { GoodCommit(h, c, n); } else { GoodBecomesLost(h, c, n); }
    } else if PastHash(c) {
      GoodBecomesLive(h, c, n);
    } else {
      GoodStaysGood(h, c, n);
    }
  }

  lemma LiveStep(h: Held, c: Commit, n: nat)
    requires Live(h) && PlainCommit(c, n) && c.hash !in h.entries && !c.fate.Written?
    ensures Live(AfterOne(h, c))
  {
    AfterParts(h, c, n);
    LineGoesOn(Tail(h.text), c, n);
    hide Load, Row, DecodeLine, Clean, Head, Tail;
  }

  // ----- the whole sequence -----

  ghost predicate Spoilt(h: Held, n: nat) {
    Live(h) || exists hash :: |hash| == n && Lost(h, hash)
  }

  /** Harmless also to a file that did not end on a line boundary when it was loaded. */
  ghost predicate HarmlessTo(text: string, commits: seq<Commit>) {
    Harmless(commits) && (Terminated(text) || forall c <- commits :: !c.fate.Written?)
  }

  /** Where a sequence of commits has led from `h`. */
  ghost predicate Led(h: Held, t: Held, commits: seq<Commit>, n: nat) {
    && Lengths(t, n)
    && (HarmlessTo(h.text, commits) ==>
          Good(t) && (Terminated(t.text) <==> Terminated(h.text) && NothingLeft(commits)))
    && (!HarmlessTo(h.text, commits) ==> Spoilt(t, n))
  }

  ghost predicate NothingLeft(commits: seq<Commit>) {
    forall c <- commits :: !LeavesPiece(c)
  }

  lemma HarmlessToSnoc(text: string, commits: seq<Commit>, c: Commit)
    ensures HarmlessTo(text, commits + [c]) <==>
              && HarmlessTo(text, commits)
              && (c.fate.WriteFailed? ==> c.fate.kept <= |c.hash|)
              && (c.fate.Written? ==> Terminated(text) && NothingLeft(commits))
    ensures NothingLeft(commits + [c]) <==> NothingLeft(commits) && !LeavesPiece(c)
  {
    HarmlessSnoc(commits, c);
    assert forall d <- commits + [c] :: d in commits || d == c;
    assert c in commits + [c] && forall d <- commits :: d in commits + [c];
    hide Harmless;
  }

  lemma LedStep(h: Held, s: Held, commits: seq<Commit>, c: Commit, n: nat)
    requires Led(h, s, commits, n) && PlainCommit(c, n) && c.hash !in s.entries
    ensures Led(h, AfterOne(s, c), commits + [c], n)
  {
    HarmlessToSnoc(h.text, commits, c);
    LengthsStay(s, c, n);
    hide Live, Good, Lost, HarmlessTo, NothingLeft, AfterOne, PlainCommit, Lengths;
    if HarmlessTo(h.text, commits) {
      GoodStep(s, c, n);
      assert c.fate.Written? ==> |c.hash| == n by { PlainLength(c, n); }
    } else if Live(s) {
      if c.fate.Written? { PlainLength(c, n); LiveBecomesLost(s, c, n); } else { LiveStep(s, c, n); }
    } else {
      var hash :| |hash| == n && Lost(s, hash);
      LostStays(s, c, n, hash);
    }
  }

  lemma PlainLength(c: Commit, n: nat)
    requires PlainCommit(c, n)
    ensures |c.hash| == n
  {
  }

  lemma LengthsStay(s: Held, c: Commit, n: nat)
    requires Lengths(s, n) && PlainCommit(c, n)
    ensures Lengths(AfterOne(s, c), n)
  {
    hide Row;
  }

  lemma {:induction false} CommitsSpoilOrNot(h: Held, commits: seq<Commit>, n: nat)
    requires Good(h) && Lengths(h, n)
    requires (forall c <- commits :: PlainCommit(c, n)) && AllNew(h, commits)
    ensures Led(h, After(h, commits), commits, n)
  {
    AfterUnfolds(h, commits);
    hide Load, PlainCommit, Led, AllNew, Lengths, AfterOne, After;
    if commits == [] {
      LedStart(h, n);
    } else {
      NewInit(h, commits);
      assert forall c <- Init(commits) :: c in commits;
      CommitsSpoilOrNot(h, Init(commits), n);
      assert Init(commits) + [Last(commits)] == commits;
      LedStep(h, After(h, Init(commits)), Init(commits), Last(commits), n);
    }
  }

  lemma AfterUnfolds(h: Held, commits: seq<Commit>)
    ensures After(h, commits) == if commits == [] then h else AfterOne(After(h, Init(commits)), Last(commits))
  {
  }

  lemma LedStart(h: Held, n: nat)
    requires Good(h) && Lengths(h, n)
    ensures Led(h, h, [], n)
  {
    hide Good;
  }

  lemma NewInit(h: Held, commits: seq<Commit>)
    requires commits != [] && AllNew(h, commits)
    ensures AllNew(h, Init(commits)) && Last(commits).hash !in After(h, Init(commits)).entries
  {
    hide After;
    forall i | 0 <= i < |commits| - 1
      ensures Init(commits)[i].hash !in After(h, Init(commits)[..i]).entries
    {
      assert Init(commits)[..i] == commits[..i];
    }
    assert commits[..|commits| - 1] == Init(commits);
  }

  lemma HarmlessSnoc(commits: seq<Commit>, c: Commit)
    ensures Harmless(commits + [c]) <==>
              && Harmless(commits)
              && (c.fate.WriteFailed? ==> c.fate.kept <= |c.hash|)
              && (c.fate.Written? ==> forall d <- commits :: !LeavesPiece(d))
  {
    var all := commits + [c];
    assert forall i | 0 <= i < |commits| :: all[i] == commits[i];
    assert all[|commits|] == c;
    forall d <- commits
      ensures Harmless(all) && c.fate.Written? ==> !LeavesPiece(d)
    {
      var i :| 0 <= i < |commits| && all[i] == d;
    }
  }

  lemma LoadedIsGood(text: string)
    requires Bare(Tail(text))
    ensures Good(Held(text, Load(text)))
  {
    TextLoads(text);
    BareIsNoRecord(Tail(text));
    hide Load, DecodeLine, Tail, Head;
  }

  /** From a file that ends on a line boundary or inside a hash: the map is what a
      restart would load if and only if no failed write got past its hash, and
      none that left anything behind was followed by one that worked. */
  lemma FromHashIffHarmless(text: string, commits: seq<Commit>, n: nat)
    requires Bare(Tail(text)) && forall hash | hash in Load(text) :: |hash| == n
    requires (forall c <- commits :: PlainCommit(c, n)) && AllNew(Held(text, Load(text)), commits)
    ensures var t := After(Held(text, Load(text)), commits);
            t.entries == Load(t.text) <==> HarmlessTo(text, commits)
  {
    var h := Held(text, Load(text));
    LoadedIsGood(text);
    CommitsSpoilOrNot(h, commits, n);
    var t := After(h, commits);
    hide Load, Live, Good, Lost, Harmless, After, Bare, Tail;
    EqualIffGood(t, "");
    if Spoilt(t, n) && !Live(t) {
      var hash :| |hash| == n && Lost(t, hash);
      EqualIffGood(t, hash);
    }
  }
}
