/**
 How often each planned batch of `ImportQueue` is tried, when it is given up, and
 what the summary counts for it: over every run, in terms of the attempts made.
 */
module ImportAttempts {
  import opened Text
  import opened Counting
  import opened Delivery
  import opened ImportQueue

  // ----- the attempts at one batch -----

  /** How the attempts at the batch planned as `p` ended, in order. */
  function Tried(log: seq<Entry>, p: nat): seq<Attempt> {
    if log == [] then []
    else Tried(Init(log), p) + if Last(log).item.planned == p then [Last(log).attempt] else []
  }

  predicate Retryable(attempt: Attempt) {
    attempt.FailedAt? && !attempt.gaveUp
  }

  /** Nothing is left to do after these attempts: the last worked, or the gate gave
      up, or it was the fourth. */
  predicate Finished(tried: seq<Attempt>) {
    tried != [] && (!Retryable(Last(tried)) || |tried| == 4)
  }

  function IsItem(p: nat): Item -> nat {
    (item: Item) => if item.planned == p then 1 else 0
  }

  function IsHeld(p: nat): Worker -> nat {
    (w: Worker) => if Holds(w) && w.place.item.planned == p then 1 else 0
  }

  ghost predicate Fits(item: Item, b: Batch, p: nat, tries: nat) {
    item.planned == p ==> item.batch == b && item.attemptsRemaining + tries == 3
  }

  ghost predicate AllFit(s: State, b: Batch, p: nat, tries: nat) {
    && (forall i | 0 <= i < |s.queue| :: Fits(s.queue[i], b, p, tries))
    && (forall i | 0 <= i < |s.workers| && Holds(s.workers[i]) :: Fits(s.workers[i].place.item, b, p, tries))
  }

  /** One place holds the batch until its attempts are finished, and none afterwards. */
  ghost predicate InOnePlace(s: State, p: nat) {
    Sum(s.queue, IsItem(p)) + Sum(s.workers, IsHeld(p)) == if Finished(Tried(s.log, p)) then 0 else 1
  }

  ghost predicate Tracked(s: State, b: Batch, p: nat) {
    var tried := Tried(s.log, p);
    && |tried| <= 4 && (forall i | 0 <= i < |tried| - 1 :: Retryable(tried[i]))
    && InOnePlace(s, p) && AllFit(s, b, p, |tried|)
    && (forall i | 0 <= i < |s.log| :: s.log[i].item.planned == p ==> s.log[i].item.batch == b)
  }

  lemma {:induction false} PlannedOnce(batches: seq<Batch>, p: nat)
    ensures Sum(QueueOf(batches), IsItem(p)) == if p < |batches| then 1 else 0
  {
    if batches != [] {
      PlannedOnce(Init(batches), p);
      assert Init(QueueOf(batches)) == QueueOf(Init(batches));
    }
  }

  lemma StartTracked(batches: seq<Batch>, workers: nat, p: nat)
    requires p < |batches|
    ensures Tracked(Start(batches, workers), batches[p], p)
  {
    PlannedOnce(batches, p);
    SumZero(Start(batches, workers).workers, IsHeld(p));
  }

  lemma NextKeepsPlaces(s: State, pick: Pick, p: nat)
    requires Enabled(s, pick) && !s.workers[pick.worker].place.Holding?
    ensures Next(s, pick).log == s.log
    ensures Sum(Next(s, pick).queue, IsItem(p)) + Sum(Next(s, pick).workers, IsHeld(p))
         == Sum(s.queue, IsItem(p)) + Sum(s.workers, IsHeld(p))
  {
    hide Sum;
    var i, t := pick.worker, Next(s, pick);
    SumUpdate(s.workers, i, t.workers[i], IsHeld(p));
    match s.workers[i].place
    case AtTop => if s.queue != [] { SumHead(s.queue, IsItem(p)); }
    case Requeueing(item) => SumAppend(s.queue, item, IsItem(p));
    case Exited =>
  }

  lemma NextKeepsFit(s: State, pick: Pick, b: Batch, p: nat, tries: nat)
    requires Enabled(s, pick) && !s.workers[pick.worker].place.Holding?
    requires AllFit(s, b, p, tries)
    ensures AllFit(Next(s, pick), b, p, tries)
  {
    hide Fits;
  }

  lemma OneMoreTry(log: seq<Entry>, e: Entry, p: nat)
    ensures Tried(log + [e], p) == Tried(log, p) + if e.item.planned == p then [e.attempt] else []
  {
    assert Init(log + [e]) == log;
  }

  lemma HeldIsTheOne(s: State, pick: Pick, b: Batch, p: nat)
    requires Tracked(s, b, p) && pick.worker < |s.workers| && Holds(s.workers[pick.worker])
    requires s.workers[pick.worker].place.item.planned == p
    ensures Sum(s.queue, IsItem(p)) == 0 && Sum(s.workers, IsHeld(p)) == 1
    ensures !Finished(Tried(s.log, p))
    ensures forall i | 0 <= i < |s.queue| :: s.queue[i].planned != p
    ensures forall i | 0 <= i < |s.workers| && i != pick.worker ::
              Holds(s.workers[i]) ==> s.workers[i].place.item.planned != p
  {
    hide Finished, AllFit;
    SumPositive(s.workers, IsHeld(p));
    assert IsHeld(p)(s.workers[pick.worker]) > 0;
    SumPositive(s.queue, IsItem(p));
    forall i | 0 <= i < |s.queue| ensures s.queue[i].planned != p {
      assert IsItem(p)(s.queue[i]) == 0;
    }
    forall i | 0 <= i < |s.workers| && i != pick.worker
      ensures Holds(s.workers[i]) ==> s.workers[i].place.item.planned != p
    {
      if IsHeld(p)(s.workers[i]) > 0 {
        SumOfOneIsUnique(s.workers, IsHeld(p), i, pick.worker);
      }
    }
  }

  lemma OwnPlaces(s: State, pick: Pick, p: nat)
    requires Enabled(s, pick)
    requires s.workers[pick.worker].place.Holding? && s.workers[pick.worker].place.item.planned == p
    requires Sum(s.queue, IsItem(p)) == 0 && Sum(s.workers, IsHeld(p)) == 1
    ensures var t := Next(s, pick);
            Sum(t.queue, IsItem(p)) + Sum(t.workers, IsHeld(p))
              == if Requeues(s.workers[pick.worker].place.item, pick.attempt) then 1 else 0
  {
    hide Sum, Settled, Requeues;
    SumUpdate(s.workers, pick.worker, Next(s, pick).workers[pick.worker], IsHeld(p));
  }

  lemma OwnFits(s: State, pick: Pick, b: Batch, p: nat, tries: nat)
    requires Enabled(s, pick) && AllFit(s, b, p, tries)
    requires s.workers[pick.worker].place.Holding? && s.workers[pick.worker].place.item.planned == p
    requires forall i | 0 <= i < |s.queue| :: s.queue[i].planned != p
    requires forall i | 0 <= i < |s.workers| && i != pick.worker ::
              Holds(s.workers[i]) ==> s.workers[i].place.item.planned != p
    ensures AllFit(Next(s, pick), b, p, tries + 1)
  {
    hide Settled;
  }

  lemma OwnTries(tried: seq<Attempt>, item: Item, attempt: Attempt)
    requires !Finished(tried) && item.attemptsRemaining + |tried| == 3
    requires forall i | 0 <= i < |tried| - 1 :: Retryable(tried[i])
    ensures var more := tried + [attempt];
            && |more| <= 4 && (forall i | 0 <= i < |more| - 1 :: Retryable(more[i]))
            && (Finished(more) <==> !Requeues(item, attempt))
  {
  }

  lemma OwnLog(s: State, pick: Pick, b: Batch, p: nat)
    requires Enabled(s, pick) && s.workers[pick.worker].place.Holding?
    requires s.workers[pick.worker].place.item.batch == b
    requires forall i | 0 <= i < |s.log| :: s.log[i].item.planned == p ==> s.log[i].item.batch == b
    ensures var t := Next(s, pick);
            && t.log == s.log + [Entry(s.workers[pick.worker].place.item, pick.attempt)]
            && forall i | 0 <= i < |t.log| :: t.log[i].item.planned == p ==> t.log[i].item.batch == b
  {
    hide AfterAttempt, Settled, Requeues;
  }

  /** An attempt at the batch itself. */
  lemma OwnAttempt(s: State, pick: Pick, b: Batch, p: nat)
    requires Enabled(s, pick) && Tracked(s, b, p)
    requires s.workers[pick.worker].place.Holding? && s.workers[pick.worker].place.item.planned == p
    ensures Tracked(Next(s, pick), b, p)
  {
    hide Next, Sum, Tried, Finished, Requeues, Retryable, IsItem, IsHeld, Possible;
    var item := s.workers[pick.worker].place.item;
    assert Fits(item, b, p, |Tried(s.log, p)|);
    HeldIsTheOne(s, pick, b, p);
    OwnPlaces(s, pick, p);
    OwnFits(s, pick, b, p, |Tried(s.log, p)|);
    OwnLog(s, pick, b, p);
    hide AllFit;
    OneMoreTry(s.log, Entry(item, pick.attempt), p);
    OwnTries(Tried(s.log, p), item, pick.attempt);
  }

  /** An attempt at another batch. */
  lemma OtherAttempt(s: State, pick: Pick, b: Batch, p: nat)
    requires Enabled(s, pick) && Tracked(s, b, p)
    requires s.workers[pick.worker].place.Holding? && s.workers[pick.worker].place.item.planned != p
    ensures Tracked(Next(s, pick), b, p)
  {
    hide Sum, Settled, Finished;
    var i, t := pick.worker, Next(s, pick);
    var item := s.workers[i].place.item;
    SumUpdate(s.workers, i, t.workers[i], IsHeld(p));
    OneMoreTry(s.log, Entry(item, pick.attempt), p);
    hide Tried;
    assert Tried(t.log, p) == Tried(s.log, p);
  }

  lemma NextTracked(s: State, pick: Pick, b: Batch, p: nat)
    requires Enabled(s, pick) && Tracked(s, b, p)
    ensures Tracked(Next(s, pick), b, p)
  {
    if s.workers[pick.worker].place.Holding? {
      if s.workers[pick.worker].place.item.planned == p {
        OwnAttempt(s, pick, b, p);
      } else {
        OtherAttempt(s, pick, b, p);
      }
    } else {
      hide Next, Sum, Tried, Finished, AllFit;
      NextKeepsPlaces(s, pick, p);
      NextKeepsFit(s, pick, b, p, |Tried(s.log, p)|);
    }
  }

  lemma {:induction false} RunTracked(batches: seq<Batch>, workers: nat, schedule: seq<Pick>, p: nat)
    requires p < |batches|
    ensures Tracked(Run(Start(batches, workers), schedule), batches[p], p)
  {
    hide Tracked, Next, Start;
    if schedule == [] {
      StartTracked(batches, workers, p);
    } else {
      RunTracked(batches, workers, Init(schedule), p);
      var s := Run(Start(batches, workers), Init(schedule));
      if Enabled(s, Last(schedule)) {
        NextTracked(s, Last(schedule), batches[p], p);
      }
    }
  }

  // ----- what the run promises of each batch -----

  /** A batch is still queued, or a worker has it. */
  ghost predicate InFlight(s: State, p: nat) {
    || (exists i :: 0 <= i < |s.queue| && s.queue[i].planned == p)
    || (exists i :: 0 <= i < |s.workers| && Holds(s.workers[i]) && s.workers[i].place.item.planned == p)
  }

  lemma InFlightIff(s: State, p: nat)
    ensures InFlight(s, p) <==> Sum(s.queue, IsItem(p)) + Sum(s.workers, IsHeld(p)) > 0
  {
    SumPositive(s.queue, IsItem(p));
    SumPositive(s.workers, IsHeld(p));
    if i :| 0 <= i < |s.queue| && s.queue[i].planned == p {
      assert IsItem(p)(s.queue[i]) > 0;
    }
    if i :| 0 <= i < |s.workers| && Holds(s.workers[i]) && s.workers[i].place.item.planned == p {
      assert IsHeld(p)(s.workers[i]) > 0;
    }
  }

  /** Over every run: all attempts at a planned batch but the last were failures
      after which the gate did not give up, and it leaves the run at its first
      success, at the first give-up of the gate, or at its fourth attempt, and at
      no other time. */
  lemma RetriedUntilFinished(batches: seq<Batch>, workers: nat, schedule: seq<Pick>, p: nat)
    requires p < |batches|
    ensures var s := Run(Start(batches, workers), schedule);
            var tried := Tried(s.log, p);
            && |tried| <= BATCH_RETRIES + 1
            && (forall i | 0 <= i < |tried| - 1 :: tried[i].FailedAt? && !tried[i].gaveUp)
            && (!InFlight(s, p) <==>
                 tried != [] && (Last(tried).Succeeded? || Last(tried).gaveUp || |tried| == BATCH_RETRIES + 1))
  {
    RunTracked(batches, workers, schedule, p);
    hide Run, Start, Tried, InFlight, Sum;
    InFlightIff(Run(Start(batches, workers), schedule), p);
  }

  /** Once every worker has exited, every planned batch was tried until it was
      finished. */
  lemma EveryBatchIsFinished(batches: seq<Batch>, workers: nat, schedule: seq<Pick>, p: nat)
    requires workers >= 1 && AllExited(Run(Start(batches, workers), schedule)) && p < |batches|
    ensures var tried := Tried(Run(Start(batches, workers), schedule).log, p);
            tried != [] && (Last(tried).Succeeded? || Last(tried).gaveUp || |tried| == BATCH_RETRIES + 1)
  {
    RetriedUntilFinished(batches, workers, schedule, p);
    hide Run, Start, Tried, Sum;
    DrainedAndAccounted(batches, workers, schedule);
  }

  // ----- the order of the queue -----

  lemma {:induction false} FirstInFirstOut(batches: seq<Batch>, workers: nat, schedule: seq<Pick>)
    ensures var s := Run(Start(batches, workers), schedule);
            s.taken + s.queue == QueueOf(batches) + s.returned
  {
    if schedule != [] {
      hide QueueOf, AfterAttempt, Requeues, Possible;
      FirstInFirstOut(batches, workers, Init(schedule));
      var s := Run(Start(batches, workers), Init(schedule));
      if Enabled(s, Last(schedule)) {
        NextKeepsOrder(s, Last(schedule));
      }
    }
  }

  lemma NextKeepsOrder(s: State, pick: Pick)
    requires Enabled(s, pick)
    ensures var t := Next(s, pick);
            (t.taken + t.queue == s.taken + s.queue && t.returned == s.returned)
            || exists item :: t.taken + t.queue == s.taken + s.queue + [item] && t.returned == s.returned + [item]
  {
    hide AfterAttempt, Requeues, Possible;
    var t := Next(s, pick);
    match s.workers[pick.worker].place
    case AtTop => if s.queue != [] { assert [s.queue[0]] + s.queue[1..] == s.queue; }
    case Requeueing(item) => assert t.taken + t.queue == s.taken + s.queue + [item];
    case _ =>
  }

  /** Batches are first taken in the planned order, each before any batch is taken
      again. */
  lemma FirstTakesArePlanned(batches: seq<Batch>, workers: nat, schedule: seq<Pick>, k: nat)
    requires k < |batches| && k < |Run(Start(batches, workers), schedule).taken|
    ensures Run(Start(batches, workers), schedule).taken[k] == Item(k, batches[k], BATCH_RETRIES)
  {
    FirstInFirstOut(batches, workers, schedule);
    var s := Run(Start(batches, workers), schedule);
    hide Run;
    assert (s.taken + s.queue)[k] == (QueueOf(batches) + s.returned)[k];
  }

  // ----- what the run counts -----

  /** What one attempt adds to the counters. */
  function Credit(e: Entry): Outcome {
    if Requeues(e.item, e.attempt) then NOTHING else Settled(e.item, e.attempt)
  }

  /** A batch that is tried again counts nothing yet; one that is given up counts
      every message of it as failed where it failed, and once more if the gate
      gave up; one that worked counts what its messages did. */
  lemma CreditIs(e: Entry)
    ensures e.attempt.Succeeded? ==> Credit(e) == Totals(e.attempt.outcomes)
    ensures e.attempt.FailedAt? && !e.attempt.gaveUp && e.item.attemptsRemaining > 0 ==>
              Credit(e) == Outcome(0, 0, 0, 0, 0, 0, Breakdown(0, 0, 0, 0, 0))
    ensures e.attempt.FailedAt? && (e.attempt.gaveUp || e.item.attemptsRemaining == 0) ==>
              var n := |e.item.batch.uids|;
              Credit(e) == Outcome(0, n, 0, 0, 0, if e.attempt.gaveUp then n else 0,
                  match e.attempt.step
                  case Connect => Breakdown(n, 0, 0, 0, 0)
                  case Examine => Breakdown(0, n, 0, 0, 0)
                  case Fetch => Breakdown(0, 0, n, 0, 0))
  {
  }

  function Credits(log: seq<Entry>): (r: seq<Outcome>)
    ensures |r| == |log| && forall i | 0 <= i < |r| :: r[i] == Credit(log[i])
  {
    seq(|log|, i requires 0 <= i < |log| => Credit(log[i]))
  }

  lemma PlusLaws(a: Outcome, b: Outcome, c: Outcome)
    ensures a.Plus(NOTHING) == a
    ensures a.Plus(b).Plus(c) == a.Plus(c).Plus(b)
    ensures a.Plus(b.Plus(c)) == a.Plus(b).Plus(c)
  {
  }

  /** Adding to one worker's counters adds to the totals. */
  lemma {:induction false} TotalsUpdate(workers: seq<Worker>, i: nat, w: Worker, more: Outcome)
    requires i < |workers| && w.outcome == workers[i].outcome.Plus(more)
    ensures Totals(Outcomes(workers[i := w])) == Totals(Outcomes(workers)).Plus(more)
  {
    hide Totals, Outcome.Plus, Outcomes;
    var after := workers[i := w];
    OutcomesSnoc(workers);
    OutcomesSnoc(after);
    var before := Totals(Outcomes(Init(workers)));
    PlusLaws(before, Last(workers).outcome, more);
    if i == |workers| - 1 {
      assert Init(after) == Init(workers);
    } else {
      assert Init(after) == Init(workers)[i := w];
      TotalsUpdate(Init(workers), i, w, more);
    }
  }

  lemma NextCredits(s: State, pick: Pick)
    requires Enabled(s, pick) && Summary(s) == Totals(Credits(s.log))
    ensures Summary(Next(s, pick)) == Totals(Credits(Next(s, pick).log))
  {
    hide Totals, Outcomes, Credits, Outcome.Plus, Settled;
    var i, t := pick.worker, Next(s, pick);
    var w := s.workers[i];
    if w.place.Holding? {
      var e := Entry(w.place.item, pick.attempt);
      PlusLaws(w.outcome, NOTHING, NOTHING);
      TotalsUpdate(s.workers, i, t.workers[i], Credit(e));
      CreditsSnoc(s.log, e);
    } else {
      PlusLaws(w.outcome, NOTHING, NOTHING);
      PlusLaws(Summary(s), NOTHING, NOTHING);
      TotalsUpdate(s.workers, i, t.workers[i], NOTHING);
    }
  }

  lemma CreditsSnoc(log: seq<Entry>, e: Entry)
    ensures Totals(Credits(log + [e])) == Totals(Credits(log)).Plus(Credit(e))
  {
    hide Credit, Outcome.Plus;
    assert Init(Credits(log + [e])) == Credits(log);
  }

  lemma {:induction false} NothingCredited(workers: nat)
    ensures Totals(Outcomes(seq(workers, i => FRESH))) == NOTHING
  {
    hide Outcome.Plus;
    if workers > 0 {
      var all: seq<Worker> := seq(workers, i => FRESH);
      NothingCredited(workers - 1);
      OutcomesSnoc(all);
      assert Init(all) == seq(workers - 1, i => FRESH);
      PlusLaws(NOTHING, NOTHING, NOTHING);
    }
  }

  /** Whatever the workers did and in whatever order, the summary is the sum of
      what the attempts made are worth. */
  lemma {:induction false} SummaryIsCredits(batches: seq<Batch>, workers: nat, schedule: seq<Pick>)
    ensures var s := Run(Start(batches, workers), schedule);
            Summary(s) == Totals(Credits(s.log))
  {
    if schedule == [] {
      NothingCredited(workers);
    } else {
      hide Next, Start, Totals, Credits, Outcomes, Summary;
      SummaryIsCredits(batches, workers, Init(schedule));
      var s := Run(Start(batches, workers), Init(schedule));
      if Enabled(s, Last(schedule)) {
        NextCredits(s, Last(schedule));
      }
    }
  }
}
