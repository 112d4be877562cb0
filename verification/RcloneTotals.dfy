/**
 What the one pass of `RcloneLog` yields, in terms of the log's lines: which line
 each total comes from, which lines are counted, copied or errors, and what is
 reported of each run of errors.
 */
module RcloneTotals {
  import opened Wrappers
  import opened Text
  import opened RcloneLog

  // ----- the totals -----

  predicate HasStats(decode: Decoder, line: string) {
    decode(line).Some? && decode(line).value.stats.Some?
  }

  predicate IsNotice(decode: Decoder, line: string) {
    && decode(line).Some?
    && EqIgnoreAsciiCase(decode(line).value.level, "notice")
    && Contains(decode(line).value.msg, "Duplicate object found in source")
  }

  function NoticesIn(decode: Decoder, lines: seq<string>): set<nat> {
    set i | 0 <= i < |lines| && IsNotice(decode, lines[i])
  }

  ghost predicate IsLastStats(decode: Decoder, lines: seq<string>, i: nat) {
    i < |lines| && HasStats(decode, lines[i]) && forall j | i < j < |lines| :: !HasStats(decode, lines[j])
  }

  /** Four totals are those of the last stats line, or zero without one; the fifth
      is the number of duplicate notices. */
  ghost predicate TotalsAre(decode: Decoder, lines: seq<string>, s: Summary) {
    && (forall i: nat | IsLastStats(decode, lines, i) ::
          var stats := decode(lines[i]).value.stats.value;
          && s.transferred == stats.transfers && s.errors == stats.errors
          && s.bytes == stats.bytes && s.deletes == stats.deletes)
    && ((forall i | 0 <= i < |lines| :: !HasStats(decode, lines[i])) ==>
          s.transferred == 0 && s.errors == 0 && s.bytes == 0 && s.deletes == 0)
    && s.duplicateNotices == |NoticesIn(decode, lines)|
  }

  lemma NoticesSnoc(decode: Decoder, lines: seq<string>)
    requires lines != []
    ensures |NoticesIn(decode, lines)|
         == |NoticesIn(decode, Init(lines))| + if IsNotice(decode, Last(lines)) then 1 else 0
  {
    hide IsNotice;
    var before, n := NoticesIn(decode, Init(lines)), |lines| - 1;
    assert NoticesIn(decode, lines) == if IsNotice(decode, lines[n]) then before + {n} else before;
  }

  lemma LastStatsSnoc(decode: Decoder, lines: seq<string>, i: nat)
    requires lines != [] && !HasStats(decode, Last(lines)) && IsLastStats(decode, lines, i)
    ensures IsLastStats(decode, Init(lines), i) && Init(lines)[i] == lines[i]
  {
    assert i != |lines| - 1;
    assert forall j | 0 <= j < |lines| - 1 :: Init(lines)[j] == lines[j];
  }

  lemma {:induction false} TallyIsTotals(decode: Decoder, lines: seq<string>)
    ensures TotalsAre(decode, lines, Tally(decode, lines))
  {
    if lines == [] {
      assert NoticesIn(decode, lines) == {};
    } else {
      TallyIsTotals(decode, Init(lines));
      NoticesSnoc(decode, lines);
      OneLineTotals(decode, Tally(decode, Init(lines)), Last(lines));
      hide Tally, IsNotice;
      var s, n := ApplyLine(decode, Tally(decode, Init(lines)), Last(lines)), |lines| - 1;
      assert Tally(decode, lines) == s by { TallySnoc(decode, lines); }
      hide ApplyLine;
      forall i: nat | IsLastStats(decode, lines, i)
        ensures StatsAre(s, decode(lines[i]).value.stats.value)
      {
        if HasStats(decode, lines[n]) {
          assert i == n;
        } else {
          LastStatsSnoc(decode, lines, i);
        }
      }
      if forall i | 0 <= i < |lines| :: !HasStats(decode, lines[i]) {
        assert !HasStats(decode, lines[n]);
        assert forall i | 0 <= i < n :: Init(lines)[i] == lines[i];
      }
    }
  }

  predicate StatsAre(s: Summary, stats: Stats) {
    && s.transferred == stats.transfers && s.errors == stats.errors
    && s.bytes == stats.bytes && s.deletes == stats.deletes
  }

  lemma TallySnoc(decode: Decoder, lines: seq<string>)
    requires lines != []
    ensures Tally(decode, lines) == ApplyLine(decode, Tally(decode, Init(lines)), Last(lines))
  {
  }

  lemma OneLineTotals(decode: Decoder, before: Summary, line: string)
    ensures var after := ApplyLine(decode, before, line);
            && (if HasStats(decode, line) then StatsAre(after, decode(line).value.stats.value)
                else StatsAre(after, Stats(before.bytes, before.transferred, before.errors, before.deletes)))
            && after.duplicateNotices == before.duplicateNotices + if IsNotice(decode, line) then 1 else 0
  {
  }

  // ----- the deltas -----

  /** By how much a counter fell between polls, altogether. */
  function Falls(totals: seq<nat>): nat {
    if |totals| <= 1 then 0
    else
      var before, after := totals[|totals| - 2], Last(totals);
      Falls(Init(totals)) + if before > after then before - after else 0
  }

  /** The saturated deltas of all polls exceed what the counter came to by exactly
      the falls on the way. */
  lemma {:induction false} DeltasExceedByFalls(totals: seq<nat>)
    requires totals != []
    ensures totals[0] + SumOfDeltas(totals) == Last(totals) + Falls(totals)
  {
    if |totals| > 1 {
      DeltasExceedByFalls(Init(totals));
    }
  }

  // ----- levels and messages -----

  lemma LevelsIgnoreCase(level: string)
    ensures EqIgnoreAsciiCase(level, "info")
       <==> |level| == 4 && level[0] in "iI" && level[1] in "nN" && level[2] in "fF" && level[3] in "oO"
    ensures EqIgnoreAsciiCase(level, "error")
       <==> && |level| == 5 && level[0] in "eE" && level[1] in "rR" && level[2] in "rR"
            && level[3] in "oO" && level[4] in "rR"
    ensures EqIgnoreAsciiCase(level, "notice")
       <==> && |level| == 6 && level[0] in "nN" && level[1] in "oO" && level[2] in "tT"
            && level[3] in "iI" && level[4] in "cC" && level[5] in "eE"
  {
  }

  lemma ContainsIffWithin(s: string, sub: string)
    ensures Contains(s, sub) <==> exists before, after :: s == before + sub + after
  {
    if Contains(s, sub) {
      var i :| 0 <= i <= |s| - |sub| && sub <= Drop(s, i);
      assert s == s[..i] + sub + s[i + |sub|..];
    }
    if before, after :| s == before + sub + after {
      assert Drop(s, |before|) == sub + after;
    }
  }

  // ----- what each line adds -----

  /** The copied objects and the error lines of a log are those of its lines, one
      after another. */
  lemma LinesAreRead(decode: Decoder, before: seq<string>, line: string, after: seq<string>)
    ensures Copied(decode, before + [line] + after)
         == Copied(decode, before) + Copied(decode, [line]) + Copied(decode, after)
    ensures Errors(decode, before + [line] + after)
         == Errors(decode, before) + Errors(decode, [line]) + Errors(decode, after)
  {
    hide Copied, Errors;
    CopiedConcat(decode, before + [line], after);
    CopiedConcat(decode, before, [line]);
  }

  lemma OneLineRead(decode: Decoder, line: string)
    ensures decode(line).None? ==> Copied(decode, [line]) == [] && Errors(decode, [line]) == []
    ensures decode(line).Some? ==>
              var r := decode(line).value;
              && Copied(decode, [line])
                  == (if EqIgnoreAsciiCase(r.level, "info") && "Copied " <= r.msg && r.path.Some?
                      then [r.path.value] else [])
              && Errors(decode, [line])
                  == (if EqIgnoreAsciiCase(r.level, "error") then [ErrorLine(r.path, r.msg)] else [])
  {
    hide EqIgnoreAsciiCase;
    assert [] + [line] == [line];
    OneMoreCopied(decode, [], line);
  }

  // ----- what is reported of a run -----

  /** Every run is warned about once, by its first line. */
  lemma {:induction false} RunsAreWarned(runs: seq<Streak>)
    ensures |FirstLines(runs)| == |runs|
    ensures forall k | 0 <= k < |runs| :: FirstLines(runs)[k] == ErrorLine(runs[k].firstKey, runs[k].cause)
  {
    if runs != [] {
      RunsAreWarned(Init(runs));
      assert forall k | 0 <= k < |runs| - 1 :: Init(runs)[k] == runs[k];
    }
  }

  /** Every run is reported by its repeats when it has any, in order. */
  lemma {:induction false} RunsAreReported(before: seq<Streak>, run: Streak, after: seq<Streak>)
    ensures Collapsed(before + [run] + after)
         == Collapsed(before)
          + (if run.count > 1 then [CollapsedError(run.cause, run.firstKey, run.count - 1)] else [])
          + Collapsed(after)
    decreases |after|
  {
    var runs := before + [run] + after;
    if after == [] {
      assert runs == before + [run] && Init(runs) == before;
    } else {
      RunsAreReported(before, run, Init(after));
      assert Init(runs) == before + [run] + Init(after) && Last(runs) == Last(after);
    }
  }
}
