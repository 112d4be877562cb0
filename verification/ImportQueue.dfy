/**
 The import run of `email_import/worker.rs` as a transition system: workers
 interleave pops, attempts and requeues on one shared queue of batches. What
 an attempt does is an oracle within `deliver_one`'s contract.
 */
module ImportQueue {
  import opened Text
  import opened Counting
  import opened Delivery

  const BATCH_RETRIES := 3

  datatype Batch = Batch(identity: nat, mailbox: string, uidvalidity: nat, uids: seq<nat>)

  /** `planned` is history: the batch's place in the plan. */
  datatype Item = Item(planned: nat, batch: Batch, attemptsRemaining: nat)

  datatype Step = Connect | Examine | Fetch

  /** How one attempt at a batch ends. A batch-level failure waits at the
      recovery gate, which may have latched. */
  datatype Attempt =
    | Succeeded(outcomes: seq<Outcome>)
    | FailedAt(step: Step, gaveUp: bool)

  datatype Place =
    | AtTop
    | Holding(item: Item)
    | Requeueing(item: Item)   // waited out the backoff, about to push back
    | Exited

  /** `settled` is history: the messages this worker's counters account for. */
  datatype Worker = Worker(place: Place, outcome: Outcome, settled: nat)

  datatype Entry = Entry(item: Item, attempt: Attempt)

  /** All but the queue and the workers is history: every attempt made, the
      batches that were not requeued after one, and the items taken from the queue
      and put back, in order. */
  datatype State = State(
    queue: seq<Item>,
    workers: seq<Worker>,
    log: seq<Entry>,
    closed: seq<Batch>,
    taken: seq<Item>,
    returned: seq<Item>)

  function QueueOf(batches: seq<Batch>): (r: seq<Item>)
    ensures |r| == |batches|
  {
    seq(|batches|, i requires 0 <= i < |batches| => Item(i, batches[i], BATCH_RETRIES))
  }

  const FRESH := Worker(AtTop, NOTHING, 0)

  function Start(batches: seq<Batch>, workers: nat): State {
    State(QueueOf(batches), seq(workers, i => FRESH), [], [], [], [])
  }

  // ----- one attempt -----

  function Drop(step: Step, n: nat, gaveUp: bool): Outcome {
    NOTHING.(failed := n,
             gateGiveUps := if gaveUp then n else 0,
             breakdown := match step
                          case Connect => NO_FAILURE.(connect := n)
                          case Examine => NO_FAILURE.(examine := n)
                          case Fetch => NO_FAILURE.(fetch := n))
  }

  predicate Requeues(item: Item, attempt: Attempt) {
    attempt.FailedAt? && !attempt.gaveUp && item.attemptsRemaining > 0
  }

  /** What an attempt that does not requeue adds to the counters. */
  function Settled(item: Item, attempt: Attempt): Outcome {
    match attempt
    case Succeeded(outcomes) => Totals(outcomes)
    case FailedAt(step, gaveUp) => Drop(step, |item.batch.uids|, gaveUp)
  }

  predicate Possible(item: Item, attempt: Attempt) {
    attempt.Succeeded? ==>
      |attempt.outcomes| == |item.batch.uids| && forall o <- attempt.outcomes :: o.Balanced(1)
  }

  function AfterAttempt(w: Worker, item: Item, attempt: Attempt): Worker {
    if Requeues(item, attempt) then w.(place := Requeueing(item.(attemptsRemaining := item.attemptsRemaining - 1)))
    else Worker(AtTop, w.outcome.Plus(Settled(item, attempt)), w.settled + |item.batch.uids|)
  }

  // ----- steps -----

  datatype Pick = Pick(worker: nat, attempt: Attempt)

  predicate Enabled(s: State, pick: Pick) {
    && pick.worker < |s.workers|
    && (s.workers[pick.worker].place.Holding? ==> Possible(s.workers[pick.worker].place.item, pick.attempt))
  }

  function Next(s: State, pick: Pick): State
    requires Enabled(s, pick)
  {
    var w := s.workers[pick.worker];
    match w.place
    case AtTop =>
      if s.queue == [] then s.(workers := s.workers[pick.worker := w.(place := Exited)])
      else s.(queue := s.queue[1..],
              workers := s.workers[pick.worker := w.(place := Holding(s.queue[0]))],
              taken := s.taken + [s.queue[0]])
    case Holding(item) =>
      s.(workers := s.workers[pick.worker := AfterAttempt(w, item, pick.attempt)],
         log := s.log + [Entry(item, pick.attempt)],
         closed := s.closed + if Requeues(item, pick.attempt) then [] else [item.batch])
    case Requeueing(item) =>
      s.(queue := s.queue + [item],
         workers := s.workers[pick.worker := w.(place := AtTop)],
         returned := s.returned + [item])
    case Exited => s
  }

  function Run(s: State, schedule: seq<Pick>): State {
    if schedule == [] then s
    else
      var before := Run(s, Init(schedule));
      if Enabled(before, Last(schedule)) then Next(before, Last(schedule)) else before
  }

  // ----- the invariant -----

  predicate Holds(w: Worker) {
    w.place.Holding? || w.place.Requeueing?
  }

  function Of(b: Batch): Item -> nat {
    (item: Item) => if item.batch == b then 1 else 0
  }

  function AttemptOn(b: Batch): Entry -> nat {
    (e: Entry) => if e.item.batch == b then 1 else 0
  }

  function HeldOf(b: Batch): Worker -> nat {
    (w: Worker) => if Holds(w) && w.place.item.batch == b then 1 else 0
  }

  /** The attempts an item of batch `b` may still use up. */
  function TriesOf(b: Batch): Item -> nat {
    (item: Item) => if item.batch == b then item.attemptsRemaining + 1 else 0
  }

  function HeldTriesOf(b: Batch): Worker -> nat {
    (w: Worker) => if Holds(w) && w.place.item.batch == b then w.place.item.attemptsRemaining + 1 else 0
  }

  function Messages(item: Item): nat {
    |item.batch.uids|
  }

  function Held(w: Worker): nat {
    if Holds(w) then |w.place.item.batch.uids| else 0
  }

  function Load(w: Worker): nat {
    w.settled + Held(w)
  }

  function UidCount(b: Batch): nat {
    |b.uids|
  }

  /** Each batch is queued, held or closed, as often as it was planned. */
  ghost predicate Conserved(s: State, batches: seq<Batch>, b: Batch) {
    Occurrences(batches, b) == Sum(s.queue, Of(b)) + Sum(s.workers, HeldOf(b)) + Occurrences(s.closed, b)
  }

  ghost predicate Bounded(s: State, batches: seq<Batch>, b: Batch) {
    Sum(s.log, AttemptOn(b)) + Sum(s.queue, TriesOf(b)) + Sum(s.workers, HeldTriesOf(b))
      <= (BATCH_RETRIES + 1) * Occurrences(batches, b)
  }

  ghost predicate Balanced(s: State, batches: seq<Batch>) {
    && (forall i | 0 <= i < |s.workers| :: s.workers[i].outcome.Balanced(s.workers[i].settled))
    && Sum(s.queue, Messages) + Sum(s.workers, Load) == Sum(batches, UidCount)
  }

  ghost predicate SomeoneLeft(s: State) {
    s.queue != [] ==> exists i :: 0 <= i < |s.workers| && !s.workers[i].place.Exited?
  }

  ghost predicate Inv(s: State, batches: seq<Batch>) {
    && (forall b :: Conserved(s, batches, b))
    && (forall b :: Bounded(s, batches, b))
    && Balanced(s, batches) && SomeoneLeft(s)
  }

  lemma {:induction false} PlannedSums(batches: seq<Batch>, b: Batch)
    ensures Sum(QueueOf(batches), Of(b)) == Occurrences(batches, b)
    ensures Sum(QueueOf(batches), TriesOf(b)) == (BATCH_RETRIES + 1) * Occurrences(batches, b)
  {
    if batches != [] {
      PlannedSums(Init(batches), b);
      assert Init(QueueOf(batches)) == QueueOf(Init(batches));
    }
  }

  lemma {:induction false} PlannedMessages(batches: seq<Batch>)
    ensures Sum(QueueOf(batches), Messages) == Sum(batches, UidCount)
  {
    if batches != [] {
      PlannedMessages(Init(batches));
      assert Init(QueueOf(batches)) == QueueOf(Init(batches));
    }
  }

  lemma StartTracksBatch(batches: seq<Batch>, workers: nat, b: Batch)
    ensures Conserved(Start(batches, workers), batches, b)
    ensures Bounded(Start(batches, workers), batches, b)
  {
    var s := Start(batches, workers);
    PlannedSums(batches, b);
    SumZero(s.workers, HeldOf(b));
    SumZero(s.workers, HeldTriesOf(b));
    SumZero<Batch>([], Is(b));
  }

  lemma FreshBalances(o: Outcome, n: nat)
    requires o == NOTHING && n == 0
    ensures o.Balanced(n)
  {
  }

  lemma StartBalances(batches: seq<Batch>, workers: nat)
    ensures Balanced(Start(batches, workers), batches)
  {
    hide Sum, QueueOf;
    hide Outcome.Balanced;
    var s := Start(batches, workers);
    PlannedMessages(batches);
    forall i | 0 <= i < |s.workers|
      ensures s.workers[i].outcome.Balanced(s.workers[i].settled) && Load(s.workers[i]) == 0
    {
      FreshBalances(s.workers[i].outcome, s.workers[i].settled);
    }
    SumZero(s.workers, Load);
  }

  lemma StartHasSomeone(batches: seq<Batch>, workers: nat)
    requires workers >= 1
    ensures SomeoneLeft(Start(batches, workers))
  {
    assert !Start(batches, workers).workers[0].place.Exited?;
  }

  lemma StartInv(batches: seq<Batch>, workers: nat)
    requires workers >= 1
    ensures Inv(Start(batches, workers), batches)
  {
    hide Start, Conserved, Bounded, Balanced, SomeoneLeft;
    StartHasSomeone(batches, workers);
    forall b ensures Conserved(Start(batches, workers), batches, b) && Bounded(Start(batches, workers), batches, b) {
      StartTracksBatch(batches, workers, b);
    }
    StartBalances(batches, workers);
  }

  lemma NextConserves(s: State, pick: Pick, batches: seq<Batch>, b: Batch)
    requires Enabled(s, pick) && Conserved(s, batches, b)
    ensures Conserved(Next(s, pick), batches, b)
  {
    hide Sum, Totals, Settled;
    var i, t := pick.worker, Next(s, pick);
    SumUpdate(s.workers, i, t.workers[i], HeldOf(b));
    match s.workers[i].place
    case AtTop => if s.queue != [] { SumHead(s.queue, Of(b)); }
    case Holding(item) =>
      SumAppend(s.closed, item.batch, Is(b));
      assert s.closed + [] == s.closed;
    case Requeueing(item) => SumAppend(s.queue, item, Of(b));
    case Exited =>
  }

  lemma NextBounds(s: State, pick: Pick, batches: seq<Batch>, b: Batch)
    requires Enabled(s, pick) && Bounded(s, batches, b)
    ensures Bounded(Next(s, pick), batches, b)
  {
    hide Sum, Totals, Settled;
    var i, t := pick.worker, Next(s, pick);
    SumUpdate(s.workers, i, t.workers[i], HeldTriesOf(b));
    match s.workers[i].place
    case AtTop => if s.queue != [] { SumHead(s.queue, TriesOf(b)); }
    case Holding(item) => SumAppend(s.log, Entry(item, pick.attempt), AttemptOn(b));
    case Requeueing(item) => SumAppend(s.queue, item, TriesOf(b));
    case Exited =>
  }

  lemma AttemptBalances(w: Worker, item: Item, attempt: Attempt)
    requires w.outcome.Balanced(w.settled) && Possible(item, attempt)
    ensures var after := AfterAttempt(w, item, attempt); after.outcome.Balanced(after.settled)
  {
    if attempt.Succeeded? {
      TotalsBalance(attempt.outcomes);
    }
  }

  lemma NextKeepsMessages(s: State, pick: Pick, total: nat)
    requires Enabled(s, pick) && Sum(s.queue, Messages) + Sum(s.workers, Load) == total
    ensures Sum(Next(s, pick).queue, Messages) + Sum(Next(s, pick).workers, Load) == total
  {
    hide Sum, Totals, Settled, Outcome.Balanced;
    var i, t := pick.worker, Next(s, pick);
    SumUpdate(s.workers, i, t.workers[i], Load);
    match s.workers[i].place
    case AtTop => if s.queue != [] { SumHead(s.queue, Messages); }
    case Requeueing(item) => SumAppend(s.queue, item, Messages);
    case _ =>
  }

  lemma NextBalances(s: State, pick: Pick, batches: seq<Batch>)
    requires Enabled(s, pick) && Balanced(s, batches)
    ensures Balanced(Next(s, pick), batches)
  {
    hide Sum, Totals, AfterAttempt, Outcome.Balanced;
    NextKeepsMessages(s, pick, Sum(batches, UidCount));
    if s.workers[pick.worker].place.Holding? {
      AttemptBalances(s.workers[pick.worker], s.workers[pick.worker].place.item, pick.attempt);
    }
  }

  lemma NextKeepsSomeone(s: State, pick: Pick)
    requires Enabled(s, pick) && SomeoneLeft(s)
    ensures SomeoneLeft(Next(s, pick))
  {
    var i, t := pick.worker, Next(s, pick);
    if t.queue != [] && t.workers[i].place.Exited? {
      var j :| 0 <= j < |s.workers| && !s.workers[j].place.Exited?;
      assert !t.workers[j].place.Exited?;
    }
  }

  lemma {:induction false} RunInv(batches: seq<Batch>, workers: nat, schedule: seq<Pick>)
    requires workers >= 1
    ensures Inv(Run(Start(batches, workers), schedule), batches)
  {
    hide Conserved, Bounded, Balanced, SomeoneLeft, Next, Start;
    if schedule == [] {
      StartInv(batches, workers);
    } else {
      RunInv(batches, workers, Init(schedule));
      var s, pick := Run(Start(batches, workers), Init(schedule)), Last(schedule);
      if Enabled(s, pick) {
        forall b ensures Conserved(Next(s, pick), batches, b) && Bounded(Next(s, pick), batches, b) {
          NextConserves(s, pick, batches, b);
          NextBounds(s, pick, batches, b);
        }
        NextBalances(s, pick, batches);
        NextKeepsSomeone(s, pick);
      }
    }
  }

  // ----- what the run promises -----

  /** However the workers interleave, no batch is tried more than four times
      for each time it was planned. */
  lemma FewAttempts(batches: seq<Batch>, workers: nat, schedule: seq<Pick>, b: Batch)
    requires workers >= 1
    ensures Sum(Run(Start(batches, workers), schedule).log, AttemptOn(b))
         <= (BATCH_RETRIES + 1) * Occurrences(batches, b)
  {
    hide Run, Start, Sum;
    RunInv(batches, workers, schedule);
    assert Bounded(Run(Start(batches, workers), schedule), batches, b);
  }

  predicate AllExited(s: State) {
    forall i | 0 <= i < |s.workers| :: s.workers[i].place.Exited?
  }

  function Outcomes(workers: seq<Worker>): (r: seq<Outcome>)
    ensures |r| == |workers|
  {
    seq(|workers|, i requires 0 <= i < |workers| => workers[i].outcome)
  }

  /** The summary the job returns. */
  function Summary(s: State): Outcome {
    Totals(Outcomes(s.workers))
  }

  lemma PlusBalances(a: Outcome, m: nat, b: Outcome, n: nat)
    requires a.Balanced(m) && b.Balanced(n)
    ensures a.Plus(b).Balanced(m + n)
  {
  }

  lemma OutcomesSnoc(workers: seq<Worker>)
    requires workers != []
    ensures Totals(Outcomes(workers)) == Totals(Outcomes(Init(workers))).Plus(Last(workers).outcome)
  {
    assert Init(Outcomes(workers)) == Outcomes(Init(workers));
  }

  lemma {:induction false} SummaryBalances(workers: seq<Worker>)
    requires forall i | 0 <= i < |workers| ::
               workers[i].place.Exited? && workers[i].outcome.Balanced(workers[i].settled)
    ensures Totals(Outcomes(workers)).Balanced(Sum(workers, Load))
  {
    if workers == [] {
      FreshBalances(Totals(Outcomes([])), 0);
    } else {
      hide Totals, Outcomes, Outcome.Balanced, Outcome.Plus;
      var init, last := Init(workers), Last(workers);
      assert forall i | 0 <= i < |init| :: init[i] == workers[i];
      SummaryBalances(init);
      OutcomesSnoc(workers);
      assert Load(last) == last.settled;
      PlusBalances(Totals(Outcomes(init)), Sum(init, Load), last.outcome, last.settled);
    }
  }

  /** Once every worker has exited, the queue is empty, each planned batch was
      closed exactly once, and the summary accounts for every planned message. */
  lemma DrainedAndAccounted(batches: seq<Batch>, workers: nat, schedule: seq<Pick>)
    requires workers >= 1 && AllExited(Run(Start(batches, workers), schedule))
    ensures var s := Run(Start(batches, workers), schedule);
            && s.queue == []
            && (forall b :: Occurrences(s.closed, b) == Occurrences(batches, b))
            && Summary(s).Balanced(Sum(batches, UidCount))
  {
    hide Run, Start, Sum;
    RunInv(batches, workers, schedule);
    var s := Run(Start(batches, workers), schedule);
    SumZero(s.queue, Messages);
    forall b ensures Occurrences(s.closed, b) == Occurrences(batches, b) {
      assert Conserved(s, batches, b);
      SumZero(s.queue, Of(b));
      SumZero(s.workers, HeldOf(b));
    }
    SummaryBalances(s.workers);
  }

  // ----- the run stops -----

  function Tries(item: Item): nat {
    3 * (item.attemptsRemaining + 1)
  }

  function Remaining(w: Worker): nat {
    match w.place
    case AtTop => 1
    case Holding(item) => 3 * item.attemptsRemaining + 3
    case Requeueing(item) => 3 * (item.attemptsRemaining + 1) + 2
    case Exited => 0
  }

  function Measure(s: State): nat {
    Sum(s.queue, Tries) + Sum(s.workers, Remaining)
  }

  /** Every step of a worker that has not exited uses the measure up, so no
      run is longer than the measure it starts from. */
  lemma StepsAreBounded(s: State, pick: Pick)
    requires Enabled(s, pick) && !s.workers[pick.worker].place.Exited?
    ensures Measure(Next(s, pick)) < Measure(s)
  {
    hide Sum, Totals, Settled;
    var i, t := pick.worker, Next(s, pick);
    SumUpdate(s.workers, i, t.workers[i], Remaining);
    match s.workers[i].place
    case AtTop => if s.queue != [] { SumHead(s.queue, Tries); }
    case Requeueing(item) => SumAppend(s.queue, item, Tries);
    case _ =>
  }

  /** How many picks of the schedule found a worker with something to do. */
  function StepsTaken(s: State, schedule: seq<Pick>): nat {
    if schedule == [] then 0
    else
      var before, pick := Run(s, Init(schedule)), Last(schedule);
      StepsTaken(s, Init(schedule))
      + if Enabled(before, pick) && !before.workers[pick.worker].place.Exited? then 1 else 0
  }

  lemma {:induction false} RunUsesMeasure(s: State, schedule: seq<Pick>)
    ensures StepsTaken(s, schedule) + Measure(Run(s, schedule)) <= Measure(s)
  {
    if schedule != [] {
      hide Measure, Next;
      RunUsesMeasure(s, Init(schedule));
      var before, pick := Run(s, Init(schedule)), Last(schedule);
      if Enabled(before, pick) {
        if before.workers[pick.worker].place.Exited? {
          ExitedStays(before, pick);
        } else {
          StepsAreBounded(before, pick);
        }
      }
    }
  }

  lemma ExitedStays(s: State, pick: Pick)
    requires Enabled(s, pick) && s.workers[pick.worker].place.Exited?
    ensures Next(s, pick) == s
  {
  }

  lemma {:induction false} StartMeasure(batches: seq<Batch>)
    ensures Sum(QueueOf(batches), Tries) == 12 * |batches|
  {
    if batches != [] {
      StartMeasure(Init(batches));
      assert Init(QueueOf(batches)) == QueueOf(Init(batches));
    }
  }

  /** No schedule, however long, gets more than twelve steps per batch and one
      per worker out of the run. */
  lemma RunIsBounded(batches: seq<Batch>, workers: nat, schedule: seq<Pick>)
    ensures StepsTaken(Start(batches, workers), schedule) <= 12 * |batches| + workers
  {
    var s := Start(batches, workers);
    RunUsesMeasure(s, schedule);
    StartMeasure(batches);
    hide Sum, QueueOf;
    SumBound(s.workers, Remaining, 1);
  }
}
