/**
 The worker pool of `deduplicate/worker.rs` as a transition system: workers
 interleave single lock or atomic operations on a shared queue, an in-flight
 counter and the result lists. Downloading, expanding and hashing are oracles.
 */
module DedupPool {
  import opened Text
  import opened Counting
  import opened Keys

  const MAX_ZIP_DEPTH := 10

  datatype Root = Root(alias: string, key: string)

  datatype Item = Item(displayKey: string, depth: nat, rootKey: string, alias: string) {
    function Owner(): Root {
      Root(alias, rootKey)
    }
  }

  datatype HashedFile = HashedFile(originalKey: string, alias: string, extension: string, contentHash: string)

  datatype Category = Download | Archive | Hash

  datatype Outcome =
    | ZipExpanded(members: seq<Item>, dropped: nat)
    | Hashed(file: HashedFile)
    | SkippedAppleDouble
    | ArchiveOpenFailed(error: string)
    | Failed(category: Category)

  /** One lock section of the outcome handling. */
  datatype Effect =
    | Enqueue(members: seq<Item>)
    | Finish(root: Root)
    | Taint(root: Root)
    | CountFailure(category: Category, count: nat)
    | CountDropped(count: nat)
    | PushHashed(file: HashedFile)
    | PushSkipped(root: Root)
    | PushOpenFailure(key: string, error: string)

  datatype Entry = Entry(item: Item, outcome: Outcome)

  /** Where a worker is between two operations. */
  datatype Worker =
    | AtTop
    | SawEmpty
    | Popped(item: Item)   // removed from the queue, not yet counted in flight
    | Running(item: Item)
    | Publishing(item: Item, effects: seq<Effect>)
    | Exited

  datatype Results = Results(
    finished: seq<Root>,
    tainted: set<Root>,
    hashed: seq<HashedFile>,
    skipped: seq<Root>,
    openFailures: seq<(string, string)>,
    failures: map<Category, nat>,
    dropped: nat)

  /** `log` and `applied` are history: the outcomes so far, and the lock
      sections already executed. */
  datatype State = State(
    queue: seq<Item>,
    inFlight: nat,
    workers: seq<Worker>,
    results: Results,
    log: seq<Entry>,
    applied: seq<Effect>)

  // ----- one item -----

  predicate IsMember(zip: Item, member: Item) {
    && (zip.displayKey + "!") <= member.displayKey
    && member.depth == zip.depth + 1
    && member.rootKey == zip.rootKey
    && member.alias == zip.alias
  }

  /** The outcomes `process_item` can return for `item`. */
  ghost predicate Produces(item: Item, outcome: Outcome) {
    if IsAppleDouble(item.displayKey) then outcome.SkippedAppleDouble?
    else match outcome
      case SkippedAppleDouble => false
      case Failed(Download) => item.depth == 0
      case Failed(Archive) => IsZip(item.displayKey)
      case Failed(Hash) => !IsZip(item.displayKey)
      case ArchiveOpenFailed(_) => IsZip(item.displayKey) && item.depth < MAX_ZIP_DEPTH
      case ZipExpanded(members, _) =>
        && IsZip(item.displayKey) && item.depth < MAX_ZIP_DEPTH
        && forall i | 0 <= i < |members| :: IsMember(item, members[i])
      case Hashed(file) =>
        && !IsZip(item.displayKey)
        && file.originalKey == item.displayKey && file.alias == item.alias
        && file.extension == ExtensionOf(item.displayKey)
  }

  /** The lock sections an outcome is handled with, in order. */
  function Effects(item: Item, outcome: Outcome): seq<Effect> {
    match outcome
    case ZipExpanded(members, dropped) =>
      [Enqueue(members)]
      + (if item.depth == 0 then [Finish(Root(item.alias, item.displayKey))] else [])
      + (if dropped > 0
         then [CountFailure(Archive, dropped), CountDropped(dropped), Taint(item.Owner())] else [])
    case Hashed(file) =>
      (if item.depth == 0 then [Finish(Root(item.alias, file.originalKey))] else []) + [PushHashed(file)]
    case SkippedAppleDouble => if item.depth == 0 then [PushSkipped(item.Owner())] else []
    case ArchiveOpenFailed(error) =>
      [Taint(item.Owner()), CountFailure(Archive, 1), PushOpenFailure(item.displayKey, error)]
    case Failed(category) => [Taint(item.Owner()), CountFailure(category, 1)]
  }

  // ----- steps -----

  function TaskItem(root: Root): Item {
    Item(root.key, 0, root.key, root.alias)
  }

  function TaskItems(tasks: seq<Root>): (r: seq<Item>)
    ensures |r| == |tasks|
  {
    seq(|tasks|, i requires 0 <= i < |tasks| => TaskItem(tasks[i]))
  }

  const NO_RESULTS := Results([], {}, [], [], [], map[Download := 0, Archive := 0, Hash := 0], 0)

  function Start(tasks: seq<Root>, workers: nat): State {
    State(TaskItems(tasks), 0, seq(workers, i => AtTop), NO_RESULTS, [], [])
  }

  function Spawned(e: Effect): seq<Item> {
    if e.Enqueue? then e.members else []
  }

  function Record(r: Results, e: Effect): Results {
    match e
    case Enqueue(_) => r
    case Finish(root) => r.(finished := r.finished + [root])
    case Taint(root) => r.(tainted := r.tainted + {root})
    case CountFailure(category, count) =>
      r.(failures := r.failures[category := count + if category in r.failures then r.failures[category] else 0])
    case CountDropped(count) => r.(dropped := r.dropped + count)
    case PushHashed(file) => r.(hashed := r.hashed + [file])
    case PushSkipped(root) => r.(skipped := r.skipped + [root])
    case PushOpenFailure(key, error) => r.(openFailures := r.openFailures + [(key, error)])
  }

  function Replay(applied: seq<Effect>): Results {
    if applied == [] then NO_RESULTS else Record(Replay(Init(applied)), Last(applied))
  }

  function SpawnedBy(applied: seq<Effect>): seq<Item> {
    if applied == [] then [] else SpawnedBy(Init(applied)) + Spawned(Last(applied))
  }

  ghost predicate Enabled(s: State, w: nat, choice: Outcome) {
    && w < |s.workers| && !s.workers[w].Exited?
    && (s.workers[w].Running? ==> Produces(s.workers[w].item, choice))
    && (s.workers[w].Publishing? && s.workers[w].effects == [] ==> s.inFlight > 0)
  }

  /** One operation of worker `w`; `choice` is the oracle's answer when the
      worker is running an item. */
  function Step(s: State, w: nat, choice: Outcome): State
    requires w < |s.workers|
  {
    match s.workers[w]
    case AtTop =>
      if s.queue == [] then s.(workers := s.workers[w := SawEmpty])
      else s.(queue := s.queue[1..], workers := s.workers[w := Popped(s.queue[0])])
    case SawEmpty =>
      s.(workers := s.workers[w := if s.inFlight == 0 then Exited else AtTop])
    case Popped(item) =>
      s.(inFlight := s.inFlight + 1, workers := s.workers[w := Running(item)])
    case Running(item) =>
      s.(log := s.log + [Entry(item, choice)],
         workers := s.workers[w := Publishing(item, Effects(item, choice))])
    case Publishing(item, effects) =>
      if effects == [] then
        s.(inFlight := if s.inFlight > 0 then s.inFlight - 1 else 0, workers := s.workers[w := AtTop])
      else
        s.(queue := s.queue + Spawned(effects[0]),
           results := Record(s.results, effects[0]),
           applied := s.applied + [effects[0]],
           workers := s.workers[w := Publishing(item, effects[1..])])
    case Exited => s
  }

  datatype Pick = Pick(worker: nat, choice: Outcome)

  /** Any interleaving: a pick that is not enabled changes nothing. */
  ghost function Run(s: State, schedule: seq<Pick>): State {
    if schedule == [] then s
    else
      var before, pick := Run(s, Init(schedule)), Last(schedule);
      if Enabled(before, pick.worker, pick.choice) then Step(before, pick.worker, pick.choice) else before
  }

  // ----- the invariant -----

  function Holding(x: Item): Worker -> nat {
    (w: Worker) => if (w.Popped? || w.Running?) && w.item == x then 1 else 0
  }

  function Owing(e: Effect): Worker -> nat {
    (w: Worker) => if w.Publishing? then Occurrences(w.effects, e) else 0
  }

  function InFlight(w: Worker): nat {
    if w.Running? || w.Publishing? then 1 else 0
  }

  function ItemIs(x: Item): Entry -> nat {
    (e: Entry) => if e.item == x then 1 else 0
  }

  function Calls(e: Effect): Entry -> nat {
    (entry: Entry) => Occurrences(Effects(entry.item, entry.outcome), e)
  }

  /** A worker that will look at the queue again before it can exit. */
  predicate WillPop(w: Worker) {
    !w.SawEmpty? && !w.Exited?
  }

  /** Each time `x` was enqueued it is queued, held, or has an outcome. */
  ghost predicate Conserved(s: State, tasks: seq<Root>, x: Item) {
    Occurrences(TaskItems(tasks), x) + Occurrences(SpawnedBy(s.applied), x)
      == Occurrences(s.queue, x) + Sum(s.workers, Holding(x)) + Sum(s.log, ItemIs(x))
  }

  /** Each effect an outcome calls for is applied or still owed by a worker. */
  ghost predicate Accounted(s: State, e: Effect) {
    Occurrences(s.applied, e) + Sum(s.workers, Owing(e)) == Sum(s.log, Calls(e))
  }

  ghost predicate Counted(s: State) {
    s.results == Replay(s.applied) && s.inFlight == Sum(s.workers, InFlight)
  }

  ghost predicate SomeoneWillPop(s: State) {
    s.queue != [] ==> exists w :: 0 <= w < |s.workers| && WillPop(s.workers[w])
  }

  ghost predicate Sound(s: State) {
    forall i | 0 <= i < |s.log| :: Produces(s.log[i].item, s.log[i].outcome)
  }

  ghost predicate Inv(s: State, tasks: seq<Root>) {
    && (forall x :: Conserved(s, tasks, x))
    && (forall e :: Accounted(s, e))
    && Counted(s) && SomeoneWillPop(s) && Sound(s)
  }

  lemma StartInv(tasks: seq<Root>, workers: nat)
    requires workers >= 1
    ensures Inv(Start(tasks, workers), tasks)
  {
    var s := Start(tasks, workers);
    forall x ensures Conserved(s, tasks, x) {
      SumZero(s.workers, Holding(x));
    }
    forall e ensures Accounted(s, e) {
      SumZero(s.workers, Owing(e));
    }
    SumZero(s.workers, InFlight);
    assert WillPop(s.workers[0]);
  }

  lemma AppliedAppend(applied: seq<Effect>, e: Effect)
    ensures SpawnedBy(applied + [e]) == SpawnedBy(applied) + Spawned(e)
    ensures Replay(applied + [e]) == Record(Replay(applied), e)
  {
    assert Init(applied + [e]) == applied;
  }

  lemma StepConserves(s: State, tasks: seq<Root>, w: nat, choice: Outcome, x: Item)
    requires w < |s.workers| && Conserved(s, tasks, x)
    ensures Conserved(Step(s, w, choice), tasks, x)
  {
    hide Sum, SpawnedBy, Record, TaskItems, Effects;
    var t := Step(s, w, choice);
    SumUpdate(s.workers, w, t.workers[w], Holding(x));
    match s.workers[w]
    case AtTop =>
      if s.queue != [] { SumHead(s.queue, Is(x)); }
    case Running(item) => SumAppend(s.log, Entry(item, choice), ItemIs(x));
    case Publishing(item, effects) =>
      if effects != [] {
        AppliedAppend(s.applied, effects[0]);
        SumConcat(s.queue, Spawned(effects[0]), Is(x));
        SumConcat(SpawnedBy(s.applied), Spawned(effects[0]), Is(x));
      }
    case _ =>
  }

  lemma StepAccounts(s: State, w: nat, choice: Outcome, e: Effect)
    requires w < |s.workers| && Accounted(s, e)
    ensures Accounted(Step(s, w, choice), e)
  {
    hide Sum, SpawnedBy, Record, Effects;
    var t := Step(s, w, choice);
    SumUpdate(s.workers, w, t.workers[w], Owing(e));
    match s.workers[w]
    case Running(item) => SumAppend(s.log, Entry(item, choice), Calls(e));
    case Publishing(item, effects) =>
      if effects != [] {
        SumAppend(s.applied, effects[0], Is(e));
        SumHead(effects, Is(e));
      } else {
        SumZero(effects, Is(e));
      }
    case _ =>
  }

  lemma StepCounts(s: State, w: nat, choice: Outcome)
    requires Enabled(s, w, choice) && Counted(s)
    ensures Counted(Step(s, w, choice))
  {
    hide Sum, Replay, Record, Effects;
    var t := Step(s, w, choice);
    SumUpdate(s.workers, w, t.workers[w], InFlight);
    if s.workers[w].Publishing? && s.workers[w].effects != [] {
      AppliedAppend(s.applied, s.workers[w].effects[0]);
    }
  }

  /** A worker only stops looking at the queue when it saw it empty, and only
      workers that will look again add to it. */
  lemma StepKeepsPopper(s: State, w: nat, choice: Outcome)
    requires Enabled(s, w, choice) && SomeoneWillPop(s)
    ensures SomeoneWillPop(Step(s, w, choice))
  {
    var t := Step(s, w, choice);
    if t.queue != [] {
      if WillPop(t.workers[w]) {
      } else {
        assert t.queue == s.queue && !WillPop(s.workers[w]);
        var v :| 0 <= v < |s.workers| && WillPop(s.workers[v]);
        assert WillPop(t.workers[v]);
      }
    }
  }

  lemma StepInv(s: State, tasks: seq<Root>, w: nat, choice: Outcome)
    requires Enabled(s, w, choice) && Inv(s, tasks)
    ensures Inv(Step(s, w, choice), tasks)
  {
    hide Conserved, Accounted, Counted, SomeoneWillPop;
    forall x ensures Conserved(Step(s, w, choice), tasks, x) {
      StepConserves(s, tasks, w, choice, x);
    }
    forall e ensures Accounted(Step(s, w, choice), e) {
      StepAccounts(s, w, choice, e);
    }
    StepCounts(s, w, choice);
    StepKeepsPopper(s, w, choice);
  }

  lemma {:induction false} RunInv(tasks: seq<Root>, workers: nat, schedule: seq<Pick>)
    requires workers >= 1
    ensures Inv(Run(Start(tasks, workers), schedule), tasks)
    ensures |Run(Start(tasks, workers), schedule).workers| == workers
  {
    hide Inv;
    if schedule == [] {
      StartInv(tasks, workers);
    } else {
      RunInv(tasks, workers, Init(schedule));
      var s, pick := Run(Start(tasks, workers), Init(schedule)), Last(schedule);
      if Enabled(s, pick.worker, pick.choice) {
        StepInv(s, tasks, pick.worker, pick.choice);
      }
    }
  }

  // ----- what holds once every worker has exited -----

  predicate AllExited(s: State) {
    forall w | 0 <= w < |s.workers| :: s.workers[w].Exited?
  }

  /** Nothing is left behind in any interleaving: the queue is empty, and every
      item ever enqueued has exactly one outcome. */
  lemma DrainedWhenAllExited(tasks: seq<Root>, workers: nat, schedule: seq<Pick>)
    requires workers >= 1 && AllExited(Run(Start(tasks, workers), schedule))
    ensures var s := Run(Start(tasks, workers), schedule);
            && s.queue == [] && s.inFlight == 0
            && s.results == Replay(s.applied)
    ensures var s := Run(Start(tasks, workers), schedule);
            forall x :: Sum(s.log, ItemIs(x))
              == Occurrences(TaskItems(tasks), x) + Occurrences(SpawnedBy(s.applied), x)
    ensures var s := Run(Start(tasks, workers), schedule);
            forall e :: Occurrences(s.applied, e) == Sum(s.log, Calls(e))
  {
    RunInv(tasks, workers, schedule);
    var s := Run(Start(tasks, workers), schedule);
    SumZero(s.workers, InFlight);
    forall x ensures Sum(s.log, ItemIs(x)) == Occurrences(TaskItems(tasks), x) + Occurrences(SpawnedBy(s.applied), x) {
      assert Conserved(s, tasks, x);
      SumZero(s.workers, Holding(x));
    }
    forall e ensures Occurrences(s.applied, e) == Sum(s.log, Calls(e)) {
      assert Accounted(s, e);
      SumZero(s.workers, Owing(e));
    }
  }

  /** The race the drain survives: a worker exits on seeing nothing in flight
      while another already holds the only item. */
  lemma EarlyExitIsReachable(task: Root, choice: Outcome)
    ensures exists schedule: seq<Pick> ::
              var s := Run(Start([task], 2), schedule);
              s.workers == [Popped(TaskItem(task)), Exited] && s.inFlight == 0
  {
    var p0, p1 := Pick(0, choice), Pick(1, choice);
    var s0 := Start([task], 2);
    assert s0.workers == [AtTop, AtTop] && s0.queue == [TaskItem(task)];
    var s1 := Run(s0, [p0]);
    RunSnoc(s0, [], p0);
    assert [] + [p0] == [p0];
    assert s1.workers == [Popped(TaskItem(task)), AtTop] && s1.queue == [];
    var s2 := Run(s0, [p0, p1]);
    RunSnoc(s0, [p0], p1);
    assert [p0] + [p1] == [p0, p1];
    assert s2.workers == [Popped(TaskItem(task)), SawEmpty];
    RunSnoc(s0, [p0, p1], p1);
    assert [p0, p1] + [p1] == [p0, p1, p1];
    var s3 := Run(s0, [p0, p1, p1]);
    assert s3.workers == [Popped(TaskItem(task)), Exited];
  }

  lemma RunSnoc(s: State, schedule: seq<Pick>, pick: Pick)
    ensures Run(s, schedule + [pick]) ==
              var before := Run(s, schedule);
              if Enabled(before, pick.worker, pick.choice) then Step(before, pick.worker, pick.choice) else before
  {
    assert Init(schedule + [pick]) == schedule;
  }

  lemma {:induction false} RunConcat(s: State, a: seq<Pick>, b: seq<Pick>)
    ensures Run(s, a + b) == Run(Run(s, a), b)
    decreases |b|
  {
    hide Enabled, Step;
    if b == [] {
      assert a + b == a;
    } else {
      RunConcat(s, a, Init(b));
      assert Init(a + b) == a + Init(b);
    }
  }

  // ----- the pool stops -----

  /** Upper bound on the items one item can lead to, when an archive yields at
      most `b` members: below the depth cap every zip may expand. */
  function Cost(b: nat, depth: nat): (r: nat)
    ensures r >= 1
    decreases MAX_ZIP_DEPTH - depth
  {
    if depth >= MAX_ZIP_DEPTH then 1 else 1 + b * Cost(b, depth + 1)
  }

  function ItemCost(b: nat): Item -> nat {
    (item: Item) => Cost(b, item.depth)
  }

  function EffectCost(b: nat): Effect -> nat {
    (e: Effect) => Sum(Spawned(e), ItemCost(b))
  }

  function WorkerCost(b: nat): Worker -> nat {
    (w: Worker) =>
      if w.Popped? || w.Running? then Cost(b, w.item.depth)
      else if w.Publishing? then Sum(w.effects, EffectCost(b))
      else 0
  }

  function Budget(s: State, b: nat): nat {
    |s.log| + Sum(s.queue, ItemCost(b)) + Sum(s.workers, WorkerCost(b))
  }

  predicate Narrow(outcome: Outcome, b: nat) {
    outcome.ZipExpanded? ==> |outcome.members| <= b
  }

  /** An outcome never owes more than its item was good for. */
  lemma OutcomeCost(item: Item, outcome: Outcome, b: nat)
    requires Produces(item, outcome) && Narrow(outcome, b)
    ensures 1 + Sum(Effects(item, outcome), EffectCost(b)) <= Cost(b, item.depth)
  {
    var effects := Effects(item, outcome);
    if outcome.ZipExpanded? {
      EnqueueFirst(item, outcome);
      SumHead(effects, EffectCost(b));
      NothingSpawned(effects[1..], b);
      MembersCost(item, outcome.members, b);
    } else {
      NothingSpawned(effects, b);
    }
  }

  lemma EnqueueFirst(item: Item, outcome: Outcome)
    requires outcome.ZipExpanded?
    ensures var effects := Effects(item, outcome);
            effects != [] && effects[0] == Enqueue(outcome.members)
            && forall i | 0 <= i < |effects| - 1 :: !effects[1..][i].Enqueue?
  {
  }

  lemma NothingSpawned(effects: seq<Effect>, b: nat)
    requires forall i | 0 <= i < |effects| :: !effects[i].Enqueue?
    ensures Sum(effects, EffectCost(b)) == 0
  {
    SumZero(effects, EffectCost(b));
  }

  lemma MembersCost(item: Item, members: seq<Item>, b: nat)
    requires item.depth < MAX_ZIP_DEPTH && |members| <= b
    requires forall i | 0 <= i < |members| :: IsMember(item, members[i])
    ensures 1 + Sum(members, ItemCost(b)) <= Cost(b, item.depth)
  {
    var each := Cost(b, item.depth + 1);
    SumBound(members, ItemCost(b), each);
    TimesMonotone(|members|, b, each);
  }

  lemma TimesMonotone(n: nat, b: nat, each: nat)
    requires n <= b
    ensures n * each <= b * each
  {
    assert b * each == n * each + (b - n) * each;
  }

  lemma StepBudget(s: State, w: nat, choice: Outcome, b: nat)
    requires Enabled(s, w, choice) && Narrow(choice, b)
    ensures Budget(Step(s, w, choice), b) <= Budget(s, b)
  {
    hide Sum, SpawnedBy, Record, Effects, Cost, Produces;
    var t := Step(s, w, choice);
    SumUpdate(s.workers, w, t.workers[w], WorkerCost(b));
    match s.workers[w]
    case AtTop =>
      if s.queue != [] { SumHead(s.queue, ItemCost(b)); }
    case Running(item) => OutcomeCost(item, choice, b);
    case Publishing(item, effects) =>
      if effects != [] {
        SumConcat(s.queue, Spawned(effects[0]), ItemCost(b));
        SumHead(effects, EffectCost(b));
      }
    case _ =>
  }

  lemma {:induction false} RunBudget(s: State, schedule: seq<Pick>, b: nat)
    requires forall i | 0 <= i < |schedule| :: Narrow(schedule[i].choice, b)
    ensures Budget(Run(s, schedule), b) <= Budget(s, b)
  {
    hide Budget, Step;
    if schedule != [] {
      assert forall i | 0 <= i < |schedule| - 1 :: Init(schedule)[i] == schedule[i];
      RunBudget(s, Init(schedule), b);
      var before, pick := Run(s, Init(schedule)), Last(schedule);
      if Enabled(before, pick.worker, pick.choice) {
        StepBudget(before, pick.worker, pick.choice, b);
      }
    }
  }

  /** No run processes more items than the nesting cap allows, however often
      its workers look at an empty queue. */
  lemma BoundedWork(tasks: seq<Root>, workers: nat, schedule: seq<Pick>, b: nat)
    requires forall i | 0 <= i < |schedule| :: Narrow(schedule[i].choice, b)
    ensures |Run(Start(tasks, workers), schedule).log| <= |tasks| * Cost(b, 0)
  {
    var s := Start(tasks, workers);
    RunBudget(s, schedule, b);
    SumBound(s.queue, ItemCost(b), Cost(b, 0));
    SumZero(s.workers, WorkerCost(b));
  }

  predicate Idle(s: State) {
    s.queue == [] && forall w | 0 <= w < |s.workers| :: s.workers[w] in {AtTop, SawEmpty, Exited}
  }

  function StepsToExit(w: Worker): nat {
    match w
    case AtTop => 2
    case SawEmpty => 1
    case _ => 0
  }

  /** Once the work is gone no worker spins: every step brings one nearer to exit. */
  lemma IdlePoolExits(s: State, tasks: seq<Root>, w: nat, choice: Outcome)
    requires Inv(s, tasks) && Idle(s) && Enabled(s, w, choice)
    ensures Idle(Step(s, w, choice))
    ensures Sum(Step(s, w, choice).workers, StepsToExit) < Sum(s.workers, StepsToExit)
  {
    SumZero(s.workers, InFlight);
    SumUpdate(s.workers, w, Step(s, w, choice).workers[w], StepsToExit);
  }

  // ----- one bound on all the work of a run -----

  /** A step that does not merely look at an empty queue or wait for others. */
  predicate Works(s: State, w: nat)
    requires w < |s.workers|
  {
    match s.workers[w]
    case AtTop => s.queue != []
    case SawEmpty => s.inFlight == 0
    case Exited => false
    case _ => true
  }

  /** How many picks of the schedule got something done. */
  ghost function WorkDone(s: State, schedule: seq<Pick>): nat {
    if schedule == [] then 0
    else
      var before, pick := Run(s, Init(schedule)), Last(schedule);
      WorkDone(s, Init(schedule))
      + if Enabled(before, pick.worker, pick.choice) && Works(before, pick.worker) then 1 else 0
  }

  /** The steps an item may still lead to: nine for each item that can come of it. */
  function ItemFuel(b: nat): Item -> nat {
    (item: Item) => 9 * Cost(b, item.depth)
  }

  function EffectFuel(b: nat): Effect -> nat {
    (e: Effect) => 1 + Sum(Spawned(e), ItemFuel(b))
  }

  function WorkerFuel(b: nat): Worker -> nat {
    (w: Worker) =>
      match w
      case AtTop => 1
      case SawEmpty => 1
      case Popped(item) => 9 * Cost(b, item.depth)
      case Running(item) => 9 * Cost(b, item.depth) - 1
      case Publishing(_, effects) => 2 + Sum(effects, EffectFuel(b))
      case Exited => 0
  }

  function Fuel(s: State, b: nat): nat {
    Sum(s.queue, ItemFuel(b)) + Sum(s.workers, WorkerFuel(b))
  }

  lemma {:induction false} ItemFuelIsCost(items: seq<Item>, b: nat)
    ensures Sum(items, ItemFuel(b)) == 9 * Sum(items, ItemCost(b))
  {
    if items != [] {
      hide Cost;
      ItemFuelIsCost(Init(items), b);
    }
  }

  lemma {:induction false} EffectFuelIsCost(effects: seq<Effect>, b: nat)
    ensures Sum(effects, EffectFuel(b)) == |effects| + 9 * Sum(effects, EffectCost(b))
  {
    if effects != [] {
      hide Cost, Spawned;
      EffectFuelIsCost(Init(effects), b);
      ItemFuelIsCost(Spawned(Last(effects)), b);
    }
  }

  lemma FewEffects(item: Item, outcome: Outcome)
    ensures |Effects(item, outcome)| <= 5
  {
  }

  /** Publishing an outcome takes less than its item had left. */
  lemma OutcomeFuel(item: Item, outcome: Outcome, b: nat)
    requires Produces(item, outcome) && Narrow(outcome, b)
    ensures 2 + Sum(Effects(item, outcome), EffectFuel(b)) < 9 * Cost(b, item.depth) - 1
  {
    OutcomeCost(item, outcome, b);
    FewEffects(item, outcome);
    hide Sum, Effects, Cost, Produces, Narrow;
    EffectFuelIsCost(Effects(item, outcome), b);
  }

  lemma StepFuel(s: State, w: nat, choice: Outcome, b: nat)
    requires Enabled(s, w, choice) && Narrow(choice, b)
    ensures Fuel(Step(s, w, choice), b) + (if Works(s, w) then 1 else 0) <= Fuel(s, b)
  {
    hide Sum, SpawnedBy, Record, Effects, Cost, Produces, Narrow;
    var t := Step(s, w, choice);
    SumUpdate(s.workers, w, t.workers[w], WorkerFuel(b));
    match s.workers[w]
    case AtTop =>
      if s.queue != [] { SumHead(s.queue, ItemFuel(b)); }
    case Running(item) => OutcomeFuel(item, choice, b);
    case Publishing(item, effects) =>
      if effects != [] {
        SumConcat(s.queue, Spawned(effects[0]), ItemFuel(b));
        SumHead(effects, EffectFuel(b));
      }
    case _ =>
  }

  lemma {:induction false} RunFuel(s: State, schedule: seq<Pick>, b: nat)
    requires forall i | 0 <= i < |schedule| :: Narrow(schedule[i].choice, b)
    ensures WorkDone(s, schedule) + Fuel(Run(s, schedule), b) <= Fuel(s, b)
  {
    hide Fuel, Step, Works;
    if schedule != [] {
      assert forall i | 0 <= i < |schedule| - 1 :: Init(schedule)[i] == schedule[i];
      RunFuel(s, Init(schedule), b);
      var before, pick := Run(s, Init(schedule)), Last(schedule);
      if Enabled(before, pick.worker, pick.choice) {
        StepFuel(before, pick.worker, pick.choice, b);
      }
    }
  }

  /** No schedule, however long, gets more out of a run than nine steps for each
      item the nesting cap allows and one for each worker's exit. All its other
      steps look at an empty queue or wait. */
  lemma RunIsBounded(tasks: seq<Root>, workers: nat, schedule: seq<Pick>, b: nat)
    requires forall i | 0 <= i < |schedule| :: Narrow(schedule[i].choice, b)
    ensures WorkDone(Start(tasks, workers), schedule) <= 9 * (|tasks| * Cost(b, 0)) + workers
  {
    var s := Start(tasks, workers);
    RunFuel(s, schedule, b);
    SumBound(s.queue, ItemCost(b), Cost(b, 0));
    ItemFuelIsCost(s.queue, b);
    SumBound(s.workers, WorkerFuel(b), 1);
  }

  // ----- whose item it is -----

  lemma {:induction false} SpawnedByWhom(applied: seq<Effect>, x: Item)
    requires x in SpawnedBy(applied)
    ensures exists e :: e in applied && e.Enqueue? && x in e.members
  {
    if x in SpawnedBy(Init(applied)) {
      SpawnedByWhom(Init(applied), x);
    } else {
      assert Last(applied) in applied;
    }
  }

  /** An applied effect was called for by some outcome. */
  lemma AppliedByWhom(s: State, e: Effect)
    requires Accounted(s, e) && e in s.applied
    ensures exists i :: 0 <= i < |s.log| && e in Effects(s.log[i].item, s.log[i].outcome)
  {
    OccursIn(s.applied, e);
    SumPositive(s.log, Calls(e));
    var i :| 0 <= i < |s.log| && Calls(e)(s.log[i]) > 0;
    OccursIn(Effects(s.log[i].item, s.log[i].outcome), e);
  }

  ghost predicate IsParent(log: seq<Entry>, i: nat, x: Item)
    requires i < |log|
  {
    log[i].outcome.ZipExpanded? && x in log[i].outcome.members && IsMember(log[i].item, x)
  }

  lemma EnqueueOf(item: Item, outcome: Outcome, e: Effect)
    requires Produces(item, outcome) && e in Effects(item, outcome) && e.Enqueue?
    ensures outcome.ZipExpanded? && e.members == outcome.members
    ensures forall x | x in outcome.members :: IsMember(item, x)
  {
  }

  /** Every processed item is a task, or a member of a processed zip. */
  lemma Lineage(s: State, tasks: seq<Root>, x: Item)
    requires Inv(s, tasks) && Sum(s.log, ItemIs(x)) > 0
    ensures x.depth == 0 ==> x in TaskItems(tasks)
    ensures x.depth > 0 ==> exists i :: 0 <= i < |s.log| && IsParent(s.log, i, x)
  {
    hide Effects, Sum, Replay, Record, SpawnedBy, Counted, SomeoneWillPop;
    assert Conserved(s, tasks, x);
    OccursIn(TaskItems(tasks), x);
    OccursIn(SpawnedBy(s.applied), x);
    if x in SpawnedBy(s.applied) {
      SpawnedByWhom(s.applied, x);
      var e :| e in s.applied && e.Enqueue? && x in e.members;
      assert Accounted(s, e);
      AppliedByWhom(s, e);
      var i :| 0 <= i < |s.log| && e in Effects(s.log[i].item, s.log[i].outcome);
      EnqueueOf(s.log[i].item, s.log[i].outcome, e);
      assert IsParent(s.log, i, x);
    }
  }

  /** `x` was reached from the task `root` by expanding processed zips. */
  ghost predicate DescendsFrom(log: seq<Entry>, x: Item, root: Root)
    decreases x.depth
  {
    if x.depth == 0 then x == TaskItem(root)
    else exists i :: 0 <= i < |log| && IsParent(log, i, x) && log[i].item.depth < x.depth
                     && DescendsFrom(log, log[i].item, root)
  }

  /** The root key an item carries names exactly the task it descends from. */
  lemma {:induction false} OwnerIsAncestor(s: State, tasks: seq<Root>, x: Item, root: Root)
    requires Inv(s, tasks) && Sum(s.log, ItemIs(x)) > 0
    ensures DescendsFrom(s.log, x, root) <==> x.Owner() == root
    ensures x.Owner() in tasks
    decreases x.depth
  {
    Lineage(s, tasks, x);
    if x.depth > 0 {
      forall i | 0 <= i < |s.log| && IsParent(s.log, i, x)
        ensures DescendsFrom(s.log, s.log[i].item, root) <==> x.Owner() == root
        ensures x.Owner() in tasks
      {
        SumPositive(s.log, ItemIs(s.log[i].item));
        assert ItemIs(s.log[i].item)(s.log[i]) > 0;
        OwnerIsAncestor(s, tasks, s.log[i].item, root);
      }
    }
  }
}
