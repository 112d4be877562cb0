/**
 The incremental reader of `log.rs`. It keeps a byte offset, an unfinished
 line, running totals and the error streak in progress; `RcloneLog` says what
 each poll must report.
 */
module RcloneTailer {
  import opened Wrappers
  import opened Text
  import opened RcloneLog
  import opened RcloneTotals

  class Tailer {
    const decode: Decoder
    var offset: nat
    var partialLine: string
    var cumulative: Summary
    var currentStreak: Option<Streak>
    var pendingCopied: seq<string>
    /** The live warnings emitted so far, one per new error cause. */
    var warned: seq<ErrorLine>
    /** Everything read so far. */
    ghost var seen: string

    ghost predicate Valid()
      reads this
    {
      && offset == |seen|
      && partialLine == Partial(seen, '\n')
      && cumulative == Tally(decode, Done(seen, '\n'))
      && TotalsAre(decode, Done(seen, '\n'), cumulative)
      && currentStreak.None?
      && pendingCopied == []
    }

    constructor (decode: Decoder)
      ensures Valid() && seen == "" && warned == [] && this.decode == decode
    {
      this.decode := decode;
      offset, partialLine, cumulative := 0, "", Summary(0, 0, 0, 0, 0);
      currentStreak, pendingCopied, warned, seen := None, [], [], "";
      TallyIsTotals(decode, []);
    }

    /** The totals of everything read so far. */
    method GetSummary() returns (s: Summary)
      requires Valid()
      ensures s == Tally(decode, Done(seen, '\n')) && TotalsAre(decode, Done(seen, '\n'), s)
    {
      s := cumulative;
    }

    /** Reports exactly what the newly completed lines say, and warns once per
        error streak among them. `file` is the log as this poll finds it, or
        `None` when it cannot be opened or read. */
    method Poll(file: Option<string>) returns (delta: TailDelta)
      requires Valid()
      modifies this
      ensures Valid()
      ensures seen == old(seen) + Fresh(file, |old(seen)|)
      ensures delta == Report(decode, old(seen), Fresh(file, |old(seen)|))
      ensures var lines := Done(Partial(old(seen), '\n') + Fresh(file, |old(seen)|), '\n');
              warned == old(warned) + FirstLines(Runs(Errors(decode, lines)))
    {
      hide Report, Done, Partial, Tally, Copied, TotalsAre;
      var buf := Fresh(file, offset);
      if buf == "" {
        NothingNew(decode, seen);
        delta := FlushOnly();
        assert seen + "" == seen && warned + [] == warned;
        return;
      }

      delta := Consume(buf);
    }

    /** Appends newly read text and processes the lines it completes. */
    method Consume(buf: string) returns (delta: TailDelta)
      requires Valid()
      modifies this
      ensures Valid()
      ensures seen == old(seen) + buf
      ensures delta == Report(decode, old(seen), buf)
      ensures warned == old(warned) + FirstLines(Runs(Errors(decode, Done(Partial(old(seen), '\n') + buf, '\n'))))
    {
      hide Tally, Copied, Errors, Runs, Collapsed, FirstLines, Done, Partial, Tracks, TotalsAre;
      var chunk := partialLine + buf;
      var lines := Done(chunk, '\n');
      partialLine := Partial(chunk, '\n');
      SplitResumes(seen, buf, '\n');

      var before := cumulative;
      var collapsed := ProcessLines(lines, Done(seen, '\n'));
      offset := offset + |buf|;
      var summary := FlushErrorStreak();
      collapsed := collapsed + AsSeq(summary);
      delta := TailDelta(
        Saturating(cumulative.transferred, before.transferred),
        Saturating(cumulative.errors, before.errors),
        Saturating(cumulative.bytes, before.bytes),
        Saturating(cumulative.deletes, before.deletes),
        collapsed,
        pendingCopied);
      pendingCopied := [];
      seen := seen + buf;
    }

    /** The lines of one batch, in order; returns the streaks displaced on the way. */
    method ProcessLines(lines: seq<string>, ghost earlier: seq<string>) returns (collapsed: seq<CollapsedError>)
      requires cumulative == Tally(decode, earlier) && pendingCopied == [] && currentStreak.None?
      modifies this`cumulative, this`pendingCopied, this`currentStreak, this`warned
      ensures cumulative == Tally(decode, earlier + lines) && TotalsAre(decode, earlier + lines, cumulative)
      ensures pendingCopied == Copied(decode, lines)
      ensures var runs := Runs(Errors(decode, lines));
              && warned == old(warned) + FirstLines(runs)
              && collapsed + Pending(currentStreak) == Collapsed(runs)
    {
      hide Tally, Copied, Errors, Runs, Collapsed, FirstLines, Tracks, TotalsAre, IsNotice, HasStats;
      collapsed := [];
      ghost var warned0 := warned;
      NoLines(decode, earlier, lines, warned0);
      for i := 0 to |lines|
        invariant cumulative == Tally(decode, earlier + lines[..i])
        invariant pendingCopied == Copied(decode, lines[..i])
        invariant Tracks(Runs(Errors(decode, lines[..i])), currentStreak, collapsed, warned, warned0)
      {
        OneMoreLine(decode, earlier, lines, i);
        var summary := ProcessLine(lines[i], Errors(decode, lines[..i]), collapsed, warned0);
        collapsed := collapsed + AsSeq(summary);
      }
      assert lines[..|lines|] == lines;
      TallyIsTotals(decode, earlier + lines);
      TracksEnd(Runs(Errors(decode, lines)), currentStreak, collapsed, warned, warned0);
    }

    /** A poll that saw no new bytes still hands over anything pending. */
    method FlushOnly() returns (delta: TailDelta)
      modifies this`currentStreak, this`pendingCopied
      ensures currentStreak.None? && pendingCopied == []
      ensures delta == TailDelta(0, 0, 0, 0, Pending(old(currentStreak)), old(pendingCopied))
    {
      var copied := pendingCopied;
      pendingCopied := [];
      var summary := FlushErrorStreak();
      delta := TailDelta(0, 0, 0, 0, if summary.Some? then [summary.value] else [], copied);
    }

    /** One line: totals, copied objects, and the error streak it may extend or displace. */
    method ProcessLine(line: string, ghost errors: seq<ErrorLine>,
        ghost collapsed: seq<CollapsedError>, ghost warned0: seq<ErrorLine>)
      returns (displaced: Option<CollapsedError>)
      requires Tracks(Runs(errors), currentStreak, collapsed, warned, warned0)
      modifies this`cumulative, this`pendingCopied, this`currentStreak, this`warned
      ensures cumulative == ApplyLine(decode, old(cumulative), line)
      ensures if HasStats(decode, line) then StatsAre(cumulative, decode(line).value.stats.value)
              else cumulative.(duplicateNotices := 0) == old(cumulative).(duplicateNotices := 0)
      ensures cumulative.duplicateNotices == old(cumulative).duplicateNotices + if IsNotice(decode, line) then 1 else 0
      ensures pendingCopied == old(pendingCopied) + CopiedBy(decode, line)
      ensures Tracks(Runs(errors + ErrorsOf(decode, line)), currentStreak,
          collapsed + AsSeq(displaced), warned, warned0)
    {
      hide Tracks, Runs;
      assert errors + [] == errors && collapsed + [] == collapsed;
      assert pendingCopied + [] == pendingCopied;
      var parsed := decode(line);
      if parsed.None? {
        return None;
      }
      var r := parsed.value;
      if r.stats.Some? {
        var stats := r.stats.value;
        cumulative := cumulative.(transferred := stats.transfers, errors := stats.errors,
                                  bytes := stats.bytes, deletes := stats.deletes);
      }
      if IsCopy(r) {
        pendingCopied := pendingCopied + [r.path.value];
      }
      if IsDuplicateNotice(r) {
        cumulative := cumulative.(duplicateNotices := cumulative.duplicateNotices + 1);
      }
      if IsError(r) {
        displaced := RecordError(r.path, r.msg, errors, collapsed, warned0);
      } else {
        displaced := None;
      }
    }

    method RecordError(key: Option<string>, cause: string,
        ghost errors: seq<ErrorLine>, ghost collapsed: seq<CollapsedError>, ghost warned0: seq<ErrorLine>)
      returns (displaced: Option<CollapsedError>)
      requires Tracks(Runs(errors), currentStreak, collapsed, warned, warned0)
      modifies this`currentStreak, this`warned
      ensures Tracks(Runs(errors + [ErrorLine(key, cause)]), currentStreak,
          collapsed + AsSeq(displaced), warned, warned0)
    {
      hide Tracks, Runs;
      StreakStep(errors, ErrorLine(key, cause), currentStreak, collapsed, warned, warned0);
      if currentStreak.Some? && currentStreak.value.cause == cause {
        currentStreak := Some(currentStreak.value.(count := currentStreak.value.count + 1));
        assert collapsed + [] == collapsed;
        return None;
      }
      displaced := FlushErrorStreak();
      warned := warned + [ErrorLine(key, cause)];
      currentStreak := Some(Streak(cause, key, 1));
    }

    /** A streak of one line is dropped: its warning was already emitted. */
    method FlushErrorStreak() returns (summary: Option<CollapsedError>)
      modifies this`currentStreak
      ensures currentStreak.None?
      ensures AsSeq(summary) == Pending(old(currentStreak))
    {
      var streak := currentStreak;
      currentStreak := None;
      if streak.None? || streak.value.count <= 1 {
        return None;
      }
      summary := Some(CollapsedError(streak.value.cause, streak.value.firstKey, streak.value.count - 1));
    }
  }

  /** What the poll after `polls[..i]` owes its caller. */
  function DeltaAt(decode: Decoder, polls: seq<Option<string>>, i: nat): TailDelta
    requires i < |polls|
  {
    var before := SeenAfter(polls[..i]);
    Report(decode, before, Fresh(polls[i], |before|))
  }

  /** One command's polls, the last after it has exited: together they report
      and count exactly what one pass over the log does. */
  method Watch(decode: Decoder, polls: seq<Option<string>>)
    returns (deltas: seq<TailDelta>, summary: Summary, warned: seq<ErrorLine>)
    ensures |deltas| == |polls| && forall i | 0 <= i < |polls| :: deltas[i] == DeltaAt(decode, polls, i)
    ensures warned == WarnedByPolls(decode, polls)
    ensures summary == Tally(decode, Done(SeenAfter(polls), '\n'))
    ensures TotalsAre(decode, Done(SeenAfter(polls), '\n'), summary)
    ensures AppendOnly(polls) ==>
              var lines := Done(Latest(polls), '\n');
              summary == Tally(decode, lines) && TotalsAre(decode, lines, summary)
  {
    hide Report, Done, Partial, Tally, Errors, Runs, FirstLines, Fresh, TotalsAre;
    var tailer := new Tailer(decode);
    deltas := [];
    NoPolls(decode);
    assert polls[..0] == [];
    for i := 0 to |polls|
      invariant fresh(tailer) && tailer.Valid() && tailer.decode == decode
      invariant tailer.seen == SeenAfter(polls[..i]) && tailer.warned == WarnedByPolls(decode, polls[..i])
      invariant |deltas| == i && forall k | 0 <= k < i :: deltas[k] == DeltaAt(decode, polls, k)
    {
      assert Init(polls[..i + 1]) == polls[..i] && Last(polls[..i + 1]) == polls[i];
      var delta := tailer.Poll(polls[i]);
      deltas := deltas + [delta];
    }
    assert polls[..|polls|] == polls;
    summary := tailer.GetSummary();
    warned := tailer.warned;
    if AppendOnly(polls) {
      SeenIsLatest(polls);
    }
  }

  lemma NoPolls(decode: Decoder)
    ensures SeenAfter([]) == "" && WarnedByPolls(decode, []) == []
  {
  }

  function AsSeq<T>(o: Option<T>): seq<T> {
    if o.None? then [] else [o.value]
  }

  /** What a streak in progress would report if it ended now. */
  function Pending(streak: Option<Streak>): seq<CollapsedError> {
    if streak.None? then [] else Repeats(streak.value)
  }

  /** Mid-batch, the last run is the streak in progress; the others have been
      reported; all of them have been warned about. */
  ghost predicate Tracks(
    runs: seq<Streak>,
    streak: Option<Streak>,
    collapsed: seq<CollapsedError>,
    warned: seq<ErrorLine>,
    warned0: seq<ErrorLine>)
  {
    && streak == (if runs == [] then None else Some(Last(runs)))
    && collapsed == (if runs == [] then [] else Collapsed(Init(runs)))
    && warned == warned0 + FirstLines(runs)
  }

  /** One more error line extends the streak in progress or displaces it. */
  lemma StreakStep(
    errors: seq<ErrorLine>,
    line: ErrorLine,
    streak: Option<Streak>,
    collapsed: seq<CollapsedError>,
    warned: seq<ErrorLine>,
    warned0: seq<ErrorLine>)
    requires Tracks(Runs(errors), streak, collapsed, warned, warned0)
    ensures if streak.Some? && streak.value.cause == line.cause
            then Tracks(Runs(errors + [line]), Some(streak.value.(count := streak.value.count + 1)), collapsed,
                warned, warned0)
            else Tracks(Runs(errors + [line]), Some(Streak(line.cause, line.key, 1)), collapsed + Pending(streak),
                warned + [line], warned0)
  {
    assert Init(errors + [line]) == errors && Last(errors + [line]) == line;
    var runs, more := Runs(errors), Runs(errors + [line]);
    if streak.Some? && streak.value.cause == line.cause {
      assert Init(more) == Init(runs);
    } else {
      assert Init(more) == runs;
      assert collapsed + Pending(streak) == Collapsed(runs);
    }
  }

  lemma TracksEnd(
    runs: seq<Streak>,
    streak: Option<Streak>,
    collapsed: seq<CollapsedError>,
    warned: seq<ErrorLine>,
    warned0: seq<ErrorLine>)
    requires Tracks(runs, streak, collapsed, warned, warned0)
    ensures warned == warned0 + FirstLines(runs) && collapsed + Pending(streak) == Collapsed(runs)
  {
  }

  lemma NoLines(decode: Decoder, earlier: seq<string>, lines: seq<string>, warned: seq<ErrorLine>)
    ensures earlier + lines[..0] == earlier && Copied(decode, lines[..0]) == []
    ensures Tracks(Runs(Errors(decode, lines[..0])), None, [], warned, warned)
  {
    assert warned + [] == warned;
  }

  lemma OneMoreLine(decode: Decoder, earlier: seq<string>, lines: seq<string>, i: nat)
    requires i < |lines|
    ensures Tally(decode, earlier + lines[..i + 1]) == ApplyLine(decode, Tally(decode, earlier + lines[..i]), lines[i])
    ensures Copied(decode, lines[..i + 1]) == Copied(decode, lines[..i]) + CopiedBy(decode, lines[i])
    ensures Errors(decode, lines[..i + 1]) == Errors(decode, lines[..i]) + ErrorsOf(decode, lines[i])
  {
    assert Init(lines[..i + 1]) == lines[..i];
    assert Init(earlier + lines[..i + 1]) == earlier + lines[..i];
  }

  /** No new bytes: nothing to report, and nothing was pending between polls. */
  lemma NothingNew(decode: Decoder, seen: string)
    ensures Report(decode, seen, "") == TailDelta(0, 0, 0, 0, [], [])
    ensures FirstLines(Runs(Errors(decode, Done(Partial(seen, '\n') + "", '\n')))) == []
  {
    assert seen + "" == seen;
    var rest := Partial(seen, '\n');
    assert rest + "" == rest;
    PlainIsPartial(rest, '\n');
  }
}
