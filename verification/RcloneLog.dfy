/**
 What an rclone JSON log says, read in one pass over its complete lines: the
 last stats, the copied objects and the error lines. `RcloneTailer` reads the
 same log in pieces.
 */
module RcloneLog {
  import opened Wrappers
  import opened Text

  datatype Stats = Stats(bytes: nat, transfers: nat, errors: nat, deletes: nat)

  datatype Record = Record(level: string, msg: string, path: Option<string>, stats: Option<Stats>)

  /** Trimming and JSON decoding of one line; blank and unparseable lines give none. */
  type Decoder = string -> Option<Record>

  datatype Summary = Summary(
    transferred: nat,
    errors: nat,
    bytes: nat,
    deletes: nat,
    duplicateNotices: nat)

  datatype ErrorLine = ErrorLine(key: Option<string>, cause: string)

  /** Consecutive error lines with one cause. */
  datatype Streak = Streak(cause: string, firstKey: Option<string>, count: nat)

  datatype CollapsedError = CollapsedError(cause: string, firstKey: Option<string>, repeated: nat)

  datatype TailDelta = TailDelta(
    transferred: nat,
    errors: nat,
    bytes: nat,
    deletes: nat,
    collapsed: seq<CollapsedError>,
    copied: seq<string>)

  // ----- one record -----

  function Lower(c: char): char {
    if 'A' <= c <= 'Z' then (c as int + 32) as char else c
  }

  predicate EqIgnoreAsciiCase(a: string, b: string) {
    |a| == |b| && forall i | 0 <= i < |a| :: Lower(a[i]) == Lower(b[i])
  }

  predicate Contains(s: string, sub: string) {
    exists i | 0 <= i <= |s| - |sub| :: sub <= Drop(s, i)
  }

  function Drop(s: string, i: nat): string
    requires i <= |s|
  {
    s[i..]
  }

  predicate IsCopy(r: Record) {
    EqIgnoreAsciiCase(r.level, "info") && "Copied " <= r.msg && r.path.Some?
  }

  predicate IsDuplicateNotice(r: Record) {
    EqIgnoreAsciiCase(r.level, "notice") && Contains(r.msg, "Duplicate object found in source")
  }

  predicate IsError(r: Record) {
    EqIgnoreAsciiCase(r.level, "error")
  }

  function Apply(s: Summary, r: Record): Summary {
    var t := if r.stats.None? then s
             else s.(transferred := r.stats.value.transfers,
                     errors := r.stats.value.errors,
                     bytes := r.stats.value.bytes,
                     deletes := r.stats.value.deletes);
    if IsDuplicateNotice(r) then t.(duplicateNotices := t.duplicateNotices + 1) else t
  }

  // ----- one pass over complete lines -----

  function ApplyLine(decode: Decoder, s: Summary, line: string): Summary {
    match decode(line)
    case None => s
    case Some(r) => Apply(s, r)
  }

  function CopiedBy(decode: Decoder, line: string): seq<string> {
    match decode(line)
    case None => []
    case Some(r) => if IsCopy(r) then [r.path.value] else []
  }

  function ErrorsOf(decode: Decoder, line: string): seq<ErrorLine> {
    match decode(line)
    case None => []
    case Some(r) => if IsError(r) then [ErrorLine(r.path, r.msg)] else []
  }

  function Tally(decode: Decoder, lines: seq<string>): Summary {
    if lines == [] then Summary(0, 0, 0, 0, 0)
    else ApplyLine(decode, Tally(decode, Init(lines)), Last(lines))
  }

  function Copied(decode: Decoder, lines: seq<string>): seq<string> {
    if lines == [] then [] else Copied(decode, Init(lines)) + CopiedBy(decode, Last(lines))
  }

  function Errors(decode: Decoder, lines: seq<string>): seq<ErrorLine> {
    if lines == [] then [] else Errors(decode, Init(lines)) + ErrorsOf(decode, Last(lines))
  }

  /** The maximal runs of error lines with one cause. */
  function Runs(errors: seq<ErrorLine>): seq<Streak> {
    if errors == [] then []
    else
      var runs, e := Runs(Init(errors)), Last(errors);
      if runs != [] && Last(runs).cause == e.cause
      then Init(runs) + [Last(runs).(count := Last(runs).count + 1)]
      else runs + [Streak(e.cause, e.key, 1)]
  }

  /** What is reported of finished runs: their repeats beyond the first line. */
  function Collapsed(runs: seq<Streak>): seq<CollapsedError> {
    if runs == [] then []
    else Collapsed(Init(runs)) + Repeats(Last(runs))
  }

  function Repeats(run: Streak): seq<CollapsedError> {
    if run.count <= 1 then [] else [CollapsedError(run.cause, run.firstKey, run.count - 1)]
  }

  function FirstLines(runs: seq<Streak>): seq<ErrorLine> {
    if runs == [] then []
    else FirstLines(Init(runs)) + [ErrorLine(Last(runs).firstKey, Last(runs).cause)]
  }

  function Saturating(after: nat, before: nat): nat {
    if after >= before then after - before else 0
  }

  /** What a poll owes its caller when the log read so far grows from `before`
      to `before + buf`. */
  function Report(decode: Decoder, before: string, buf: string): TailDelta {
    var was, now := Tally(decode, Done(before, '\n')), Tally(decode, Done(before + buf, '\n'));
    var lines := Done(Partial(before, '\n') + buf, '\n');
    TailDelta(
      Saturating(now.transferred, was.transferred),
      Saturating(now.errors, was.errors),
      Saturating(now.bytes, was.bytes),
      Saturating(now.deletes, was.deletes),
      Collapsed(Runs(Errors(decode, lines))),
      Copied(decode, lines))
  }

  // ----- error streaks are a run-length encoding -----

  /** How many error lines the first `k` runs cover. */
  function Offset(runs: seq<Streak>, k: nat): nat
    requires k <= |runs|
  {
    if k == 0 then 0 else Offset(runs, k - 1) + runs[k - 1].count
  }

  /** `runs` cover `errors` from end to end; each names its first line and holds
      lines of its cause only; and no two neighbours could be joined. */
  ghost predicate Encodes(runs: seq<Streak>, errors: seq<ErrorLine>) {
    && Offset(runs, |runs|) == |errors|
    && (forall k | 0 <= k < |runs| :: RunMatches(runs, errors, k))
    && (forall k | 0 < k < |runs| :: runs[k - 1].cause != runs[k].cause)
  }

  ghost predicate RunMatches(runs: seq<Streak>, errors: seq<ErrorLine>, k: nat)
    requires k < |runs|
  {
    var at := Offset(runs, k);
    && runs[k].count >= 1 && at + runs[k].count <= |errors|
    && errors[at] == ErrorLine(runs[k].firstKey, runs[k].cause)
    && forall j | at <= j < at + runs[k].count :: errors[j].cause == runs[k].cause
  }

  lemma {:induction false} OffsetPrefix(a: seq<Streak>, b: seq<Streak>, k: nat)
    requires k <= |a| && k <= |b| && a[..k] == b[..k]
    ensures Offset(a, k) == Offset(b, k)
  {
    if k > 0 {
      assert a[..k][..k - 1] == a[..k - 1] && b[..k][..k - 1] == b[..k - 1];
      assert a[k - 1] == a[..k][k - 1] == b[..k][k - 1];
      OffsetPrefix(a, b, k - 1);
    }
  }

  lemma OffsetsAgree(a: seq<Streak>, b: seq<Streak>, n: nat)
    requires n <= |a| && n <= |b| && a[..n] == b[..n]
    ensures forall k | 0 <= k <= n :: Offset(a, k) == Offset(b, k)
  {
    forall k | 0 <= k <= n
      ensures Offset(a, k) == Offset(b, k)
    {
      assert a[..k] == a[..n][..k] && b[..k] == b[..n][..k];
      OffsetPrefix(a, b, k);
    }
  }

  /** One more line of the cause in progress makes the last run longer. */
  lemma LongerRunEncodes(runs: seq<Streak>, errors: seq<ErrorLine>, e: ErrorLine)
    requires Encodes(runs, errors) && runs != [] && Last(runs).cause == e.cause
    ensures Encodes(Init(runs) + [Last(runs).(count := Last(runs).count + 1)], errors + [e])
  {
    var n := |runs| - 1;
    var longer, more := Init(runs) + [Last(runs).(count := Last(runs).count + 1)], errors + [e];
    assert longer[..n] == runs[..n];
    OffsetsAgree(longer, runs, n);
    assert RunMatches(runs, errors, n);
    forall k | 0 <= k <= n
      ensures RunMatches(longer, more, k)
    {
      assert RunMatches(runs, errors, k);
    }
  }

  /** A line of another cause starts a run. */
  lemma NewRunEncodes(runs: seq<Streak>, errors: seq<ErrorLine>, e: ErrorLine)
    requires Encodes(runs, errors) && (runs == [] || Last(runs).cause != e.cause)
    ensures Encodes(runs + [Streak(e.cause, e.key, 1)], errors + [e])
  {
    var n := |runs|;
    var longer, more := runs + [Streak(e.cause, e.key, 1)], errors + [e];
    assert longer[..n] == runs[..n];
    OffsetsAgree(longer, runs, n);
    forall k | 0 <= k < n
      ensures RunMatches(longer, more, k)
    {
      assert RunMatches(runs, errors, k);
    }
    assert RunMatches(longer, more, n);
  }

  lemma {:induction false} RunsEncode(errors: seq<ErrorLine>)
    ensures Encodes(Runs(errors), errors)
  {
    if errors != [] {
      hide Encodes;
      var before, e := Init(errors), Last(errors);
      RunsEncode(before);
      assert errors == before + [e];
      if Runs(before) != [] && Last(Runs(before)).cause == e.cause {
        LongerRunEncodes(Runs(before), before, e);
      } else {
        NewRunEncodes(Runs(before), before, e);
      }
    }
  }

  function SumRepeated(collapsed: seq<CollapsedError>): nat {
    if collapsed == [] then 0 else SumRepeated(Init(collapsed)) + Last(collapsed).repeated
  }

  /** Every error line is either one of the live warnings or counted by exactly
      one collapsed summary. */
  lemma {:induction false} NoErrorLineIsLost(errors: seq<ErrorLine>)
    ensures |errors| == |FirstLines(Runs(errors))| + SumRepeated(Collapsed(Runs(errors)))
  {
    RunsEncode(errors);
    var runs := Runs(errors);
    forall k | 0 <= k < |runs| ensures runs[k].count >= 1 {
      assert RunMatches(runs, errors, k);
    }
    CollapsedCounts(runs, |runs|);
    assert runs[..|runs|] == runs;
  }

  lemma RepeatsCount(earlier: seq<CollapsedError>, run: Streak)
    requires run.count >= 1
    ensures SumRepeated(earlier + Repeats(run)) == SumRepeated(earlier) + run.count - 1
  {
    if run.count == 1 {
      assert earlier + Repeats(run) == earlier;
    } else {
      assert Init(earlier + Repeats(run)) == earlier;
    }
  }

  lemma {:induction false} CollapsedCounts(runs: seq<Streak>, k: nat)
    requires k <= |runs| && forall i | 0 <= i < |runs| :: runs[i].count >= 1
    ensures Offset(runs, k) == |FirstLines(runs[..k])| + SumRepeated(Collapsed(runs[..k]))
  {
    if k > 0 {
      CollapsedCounts(runs, k - 1);
      assert Init(runs[..k]) == runs[..k - 1];
      RepeatsCount(Collapsed(runs[..k - 1]), runs[k - 1]);
    }
  }

  // ----- reading in pieces -----

  lemma OneMoreCopied(decode: Decoder, lines: seq<string>, line: string)
    ensures Copied(decode, lines + [line]) == Copied(decode, lines) + CopiedBy(decode, line)
    ensures Errors(decode, lines + [line]) == Errors(decode, lines) + ErrorsOf(decode, line)
  {
    assert Init(lines + [line]) == lines;
  }

  lemma {:induction false} CopiedConcat(decode: Decoder, a: seq<string>, b: seq<string>)
    ensures Copied(decode, a + b) == Copied(decode, a) + Copied(decode, b)
    ensures Errors(decode, a + b) == Errors(decode, a) + Errors(decode, b)
    decreases |b|
  {
    hide Copied, Errors, CopiedBy, ErrorsOf;
    NothingCopied(decode);
    if b == [] {
      assert a + b == a;
    } else {
      var line := Last(b);
      CopiedConcat(decode, a, Init(b));
      OneMoreCopied(decode, a + Init(b), line);
      OneMoreCopied(decode, Init(b), line);
      assert a + Init(b) + [line] == a + b && Init(b) + [line] == b;
    }
  }

  lemma NothingCopied(decode: Decoder)
    ensures Copied(decode, []) == [] && Errors(decode, []) == []
  {
  }

  /** The part of a file a poll at `offset` reads; nothing when the file cannot
      be read or has not grown. */
  function Fresh(file: Option<string>, offset: nat): string {
    if file.Some? && offset < |file.value| then file.value[offset..] else ""
  }

  /** Everything read after a sequence of polls, each seeing the file as given. */
  function SeenAfter(polls: seq<Option<string>>): string {
    if polls == [] then ""
    else
      var before := SeenAfter(Init(polls));
      before + Fresh(Last(polls), |before|)
  }

  /** The log only grows. A poll that cannot read it is `None`. */
  ghost predicate AppendOnly(polls: seq<Option<string>>) {
    forall i, j | 0 <= i <= j < |polls| && polls[i].Some? && polls[j].Some? ::
      polls[i].value <= polls[j].value
  }

  /** The last contents any poll could read. */
  function Latest(polls: seq<Option<string>>): string {
    if polls == [] then ""
    else if Last(polls).Some? then Last(polls).value
    else Latest(Init(polls))
  }

  lemma {:induction false} LatestIsPolled(polls: seq<Option<string>>)
    ensures Latest(polls) == "" || exists i :: 0 <= i < |polls| && polls[i] == Some(Latest(polls))
  {
    if polls != [] && Last(polls).None? {
      LatestIsPolled(Init(polls));
      if Latest(polls) != "" {
        var i :| 0 <= i < |Init(polls)| && Init(polls)[i] == Some(Latest(polls));
        assert polls[i] == Some(Latest(polls));
      }
    }
  }

  /** Failed polls and mid-line splits lose nothing and repeat nothing. */
  lemma {:induction false} SeenIsLatest(polls: seq<Option<string>>)
    requires AppendOnly(polls)
    ensures SeenAfter(polls) == Latest(polls)
  {
    if polls != [] {
      var earlier := Init(polls);
      assert AppendOnly(earlier) by {
        assert forall i | 0 <= i < |earlier| :: earlier[i] == polls[i];
      }
      SeenIsLatest(earlier);
      LatestIsPolled(earlier);
      if Last(polls).Some? {
        var before, file := SeenAfter(earlier), Last(polls).value;
        if before != "" {
          var i :| 0 <= i < |earlier| && earlier[i] == Some(before);
          assert polls[i] == Some(before) && polls[|polls| - 1] == Some(file);
        }
        assert before <= file;
        assert before + file[|before|..] == file;
      }
    }
  }

  /** The copied objects of every poll, in order. */
  function CopiedByPolls(decode: Decoder, polls: seq<Option<string>>): seq<string> {
    if polls == [] then []
    else
      var before := SeenAfter(Init(polls));
      CopiedByPolls(decode, Init(polls)) + Report(decode, before, Fresh(Last(polls), |before|)).copied
  }

  lemma {:induction false} CopiedByPollsIsOnePass(decode: Decoder, polls: seq<Option<string>>)
    ensures CopiedByPolls(decode, polls) == Copied(decode, Done(SeenAfter(polls), '\n'))
  {
    if polls != [] {
      CopiedByPollsIsOnePass(decode, Init(polls));
      var before := SeenAfter(Init(polls));
      var buf := Fresh(Last(polls), |before|);
      SplitResumes(before, buf, '\n');
      CopiedConcat(decode, Done(before, '\n'), Done(Partial(before, '\n') + buf, '\n'));
    }
  }

  /** However the log is cut into polls, the copied objects are those of a
      single poll of the finished log, each reported once. */
  lemma ChunkIndependence(decode: Decoder, polls: seq<Option<string>>)
    requires AppendOnly(polls)
    ensures CopiedByPolls(decode, polls) == Copied(decode, Done(Latest(polls), '\n'))
    ensures CopiedByPolls(decode, polls) == CopiedByPolls(decode, [Some(Latest(polls))])
  {
    hide Copied, CopiedByPolls, Done, SeenAfter, Latest, AppendOnly;
    CopiedByPollsIsOnePass(decode, polls);
    SeenIsLatest(polls);
    CopiedByPollsIsOnePass(decode, [Some(Latest(polls))]);
    SeenAtOnce(Latest(polls));
  }

  lemma SeenAtOnce(text: string)
    ensures SeenAfter([Some(text)]) == text
  {
    assert Init([Some(text)]) == [];
    assert "" + text == text;
  }

  // ----- errors over all polls -----

  /** The lines a poll completes. */
  function LinesOfPoll(polls: seq<Option<string>>): seq<string>
    requires polls != []
  {
    var before := SeenAfter(Init(polls));
    Done(Partial(before, '\n') + Fresh(Last(polls), |before|), '\n')
  }

  /** The live warnings of every poll, in order. */
  function WarnedByPolls(decode: Decoder, polls: seq<Option<string>>): seq<ErrorLine> {
    if polls == [] then []
    else WarnedByPolls(decode, Init(polls)) + FirstLines(Runs(Errors(decode, LinesOfPoll(polls))))
  }

  /** The repeats reported by every poll, added up. */
  function RepeatedByPolls(decode: Decoder, polls: seq<Option<string>>): nat {
    if polls == [] then 0
    else
      var before := SeenAfter(Init(polls));
      RepeatedByPolls(decode, Init(polls)) + SumRepeated(Report(decode, before, Fresh(Last(polls), |before|)).collapsed)
  }

  lemma {:induction false} PollsCountErrors(decode: Decoder, polls: seq<Option<string>>)
    ensures |Errors(decode, Done(SeenAfter(polls), '\n'))| ==
        |WarnedByPolls(decode, polls)| + RepeatedByPolls(decode, polls)
  {
    if polls != [] {
      PollsCountErrors(decode, Init(polls));
      var before := SeenAfter(Init(polls));
      var buf, lines := Fresh(Last(polls), |before|), LinesOfPoll(polls);
      hide Errors, Runs, FirstLines, Collapsed, SumRepeated, Copied, Tally, Done, Partial;
      SplitResumes(before, buf, '\n');
      CopiedConcat(decode, Done(before, '\n'), lines);
      NoErrorLineIsLost(Errors(decode, lines));
    }
  }

  /** Over a whole run, every error line of the log was either warned about live
      or counted in exactly one summary, whatever the polls cut apart. */
  lemma NoErrorLineIsLostByPolls(decode: Decoder, polls: seq<Option<string>>)
    requires AppendOnly(polls)
    ensures |Errors(decode, Done(Latest(polls), '\n'))| ==
        |WarnedByPolls(decode, polls)| + RepeatedByPolls(decode, polls)
  {
    PollsCountErrors(decode, polls);
    SeenIsLatest(polls);
  }

  // ----- the deltas add up -----

  datatype Counter = Transferred | ErrorCount | ByteCount | Deletes {
    function Total(s: Summary): nat {
      match this
      case Transferred => s.transferred
      case ErrorCount => s.errors
      case ByteCount => s.bytes
      case Deletes => s.deletes
    }

    function Reported(d: TailDelta): nat {
      match this
      case Transferred => d.transferred
      case ErrorCount => d.errors
      case ByteCount => d.bytes
      case Deletes => d.deletes
    }
  }

  /** A counter's total at the start and after each poll. */
  function Totals(decode: Decoder, counter: Counter, polls: seq<Option<string>>): (r: seq<nat>)
    ensures |r| == |polls| + 1
  {
    (if polls == [] then [] else Totals(decode, counter, Init(polls)))
    + [counter.Total(Tally(decode, Done(SeenAfter(polls), '\n')))]
  }

  /** The sum of the saturated increases. */
  function SumOfDeltas(totals: seq<nat>): nat {
    if |totals| <= 1 then 0
    else SumOfDeltas(Init(totals)) + Saturating(Last(totals), totals[|totals| - 2])
  }

  ghost predicate NonDecreasing(totals: seq<nat>) {
    forall i | 0 < i < |totals| :: totals[i - 1] <= totals[i]
  }

  /** The deltas add up to the final total exactly when the counter never fell
      between two polls; otherwise they add up to more. */
  lemma {:induction false} DeltasSumToTotal(totals: seq<nat>)
    requires totals != []
    ensures totals[0] + SumOfDeltas(totals) >= Last(totals)
    ensures totals[0] + SumOfDeltas(totals) == Last(totals) <==> NonDecreasing(totals)
  {
    if |totals| > 1 {
      var init := Init(totals);
      DeltasSumToTotal(init);
      assert NonDecreasing(totals) <==> NonDecreasing(init) && Last(init) <= Last(totals) by {
        if NonDecreasing(init) && Last(init) <= Last(totals) {
          forall i | 0 < i < |totals| ensures totals[i - 1] <= totals[i] {
            if i < |init| { assert init[i - 1] <= init[i]; }
          }
        }
        if NonDecreasing(totals) {
          forall i | 0 < i < |init| ensures init[i - 1] <= init[i] {
            assert totals[i - 1] <= totals[i];
          }
          assert totals[|totals| - 2] <= totals[|totals| - 1];
        }
      }
    }
  }

  /** A counter's deltas of every poll, added up. */
  function ReportedByPolls(decode: Decoder, counter: Counter, polls: seq<Option<string>>): nat {
    if polls == [] then 0
    else
      var before := SeenAfter(Init(polls));
      ReportedByPolls(decode, counter, Init(polls))
      + counter.Reported(Report(decode, before, Fresh(Last(polls), |before|)))
  }

  lemma {:induction false} ReportedIsSum(decode: Decoder, counter: Counter, polls: seq<Option<string>>)
    ensures ReportedByPolls(decode, counter, polls) == SumOfDeltas(Totals(decode, counter, polls))
    ensures Totals(decode, counter, polls)[0] == 0
  {
    if polls != [] {
      ReportedIsSum(decode, counter, Init(polls));
      var totals := Totals(decode, counter, polls);
      assert Init(totals) == Totals(decode, counter, Init(polls));
      assert totals[|totals| - 2] == Last(Totals(decode, counter, Init(polls)));
    }
  }

  /** A caller that adds up the deltas has the log's final total exactly when
      the counter never fell between two polls. */
  lemma DeltasAddUp(decode: Decoder, counter: Counter, polls: seq<Option<string>>)
    requires AppendOnly(polls)
    ensures var final := counter.Total(Tally(decode, Done(Latest(polls), '\n')));
            ReportedByPolls(decode, counter, polls) == final <==> NonDecreasing(Totals(decode, counter, polls))
  {
    ReportedIsSum(decode, counter, polls);
    DeltasSumToTotal(Totals(decode, counter, polls));
    SeenIsLatest(polls);
  }
}
