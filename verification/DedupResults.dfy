/**
 What the results of the pool in `DedupPool` add up to, in terms of the outcomes
 of the items it processed; when its workers leave; and the order of its queue.
 */
module DedupResults {
  import opened Text
  import opened Counting
  import opened Keys
  import opened DedupPool

  // ----- what each outcome is worth -----

  /** A zip's dropped members are failures of its archive, one each. */
  function FailuresOf(category: Category): Entry -> nat {
    (e: Entry) =>
      match e.outcome
      case Failed(c) => if c == category then 1 else 0
      case ArchiveOpenFailed(_) => if category == Archive then 1 else 0
      case ZipExpanded(_, dropped) => if category == Archive then dropped else 0
      case _ => 0
  }

  function DroppedOf(e: Entry): nat {
    if e.outcome.ZipExpanded? then e.outcome.dropped else 0
  }

  function HashedAs(file: HashedFile): Entry -> nat {
    (e: Entry) => if e.outcome == Hashed(file) then 1 else 0
  }

  function OpenFailureOf(failure: (string, string)): Entry -> nat {
    (e: Entry) => if e.item.displayKey == failure.0 && e.outcome == ArchiveOpenFailed(failure.1) then 1 else 0
  }

  // ----- what each effect is worth -----

  function CountsFor(category: Category): Effect -> nat {
    (e: Effect) => if e.CountFailure? && e.category == category then e.count else 0
  }

  function CountsDropped(e: Effect): nat {
    if e.CountDropped? then e.count else 0
  }

  function Adds(e: Effect): Effect -> nat {
    Is(e)
  }

  lemma RecordAdds(r: Results, e: Effect, category: Category, file: HashedFile, failure: (string, string))
    requires category in r.failures
    ensures var t := Record(r, e);
            && category in t.failures && t.failures[category] == r.failures[category] + CountsFor(category)(e)
            && t.dropped == r.dropped + CountsDropped(e)
            && Occurrences(t.hashed, file) == Occurrences(r.hashed, file) + Adds(PushHashed(file))(e)
            && Occurrences(t.openFailures, failure)
               == Occurrences(r.openFailures, failure) + Adds(PushOpenFailure(failure.0, failure.1))(e)
  {
    hide Sum;
    if e.PushHashed? {
      SumAppend(r.hashed, e.file, Is(file));
    }
    if e.PushOpenFailure? {
      SumAppend(r.openFailures, (e.key, e.error), Is(failure));
    }
  }

  /** What the results hold is the sum of what the applied effects add. */
  lemma {:induction false} ReplayAdds(
      applied: seq<Effect>, category: Category, file: HashedFile, failure: (string, string))
    ensures var r := Replay(applied);
            && category in r.failures && r.failures[category] == Sum(applied, CountsFor(category))
            && r.dropped == Sum(applied, CountsDropped)
            && Occurrences(r.hashed, file) == Sum(applied, Adds(PushHashed(file)))
            && Occurrences(r.openFailures, failure) == Sum(applied, Adds(PushOpenFailure(failure.0, failure.1)))
  {
    if applied == [] {
      assert category in NO_RESULTS.failures;
    } else {
      hide Record;
      ReplayAdds(Init(applied), category, file, failure);
      RecordAdds(Replay(Init(applied)), Last(applied), category, file, failure);
    }
  }

  // ----- from effects to outcomes -----

  function EffectsOf(log: seq<Entry>): seq<Effect> {
    if log == [] then [] else EffectsOf(Init(log)) + Effects(Last(log).item, Last(log).outcome)
  }

  function PerEntry(f: Effect -> nat): Entry -> nat {
    (e: Entry) => Sum(Effects(e.item, e.outcome), f)
  }

  lemma {:induction false} EffectsOfSum(log: seq<Entry>, f: Effect -> nat)
    ensures Sum(EffectsOf(log), f) == Sum(log, PerEntry(f))
  {
    if log != [] {
      hide Effects;
      EffectsOfSum(Init(log), f);
      SumConcat(EffectsOf(Init(log)), Effects(Last(log).item, Last(log).outcome), f);
    }
  }

  lemma {:induction false} SumSame(log: seq<Entry>, f: Entry -> nat, g: Entry -> nat)
    requires forall e :: f(e) == g(e)
    ensures Sum(log, f) == Sum(log, g)
  {
    if log != [] {
      SumSame(Init(log), f, g);
    }
  }

  /** Once no worker owes any effect, whatever the applied effects add up to the
      outcomes call for. */
  lemma AppliedAddsUp(s: State, f: Effect -> nat, g: Entry -> nat)
    requires forall e :: Occurrences(s.applied, e) == Sum(s.log, Calls(e))
    requires forall e: Entry :: Sum(Effects(e.item, e.outcome), f) == g(e)
    ensures Sum(s.applied, f) == Sum(s.log, g)
  {
    hide Effects;
    forall e ensures Occurrences(s.applied, e) == Occurrences(EffectsOf(s.log), e) {
      EffectsOfSum(s.log, Is(e));
      SumSame(s.log, PerEntry(Is(e)), Calls(e));
    }
    SumOfPermutation(s.applied, EffectsOf(s.log), f);
    EffectsOfSum(s.log, f);
    SumSame(s.log, PerEntry(f), g);
  }

  lemma SumOfFew(effects: seq<Effect>, f: Effect -> nat)
    requires |effects| <= 5
    ensures Sum(effects, f)
         == (if |effects| > 0 then f(effects[0]) else 0) + (if |effects| > 1 then f(effects[1]) else 0)
          + (if |effects| > 2 then f(effects[2]) else 0) + (if |effects| > 3 then f(effects[3]) else 0)
          + (if |effects| > 4 then f(effects[4]) else 0)
  {
    if |effects| > 0 {
      SumHead(effects, f);
      var a := effects[1..];
      if |a| > 0 {
        SumHead(a, f);
        var b := a[1..];
        if |b| > 0 {
          SumHead(b, f);
          var c := b[1..];
          if |c| > 0 {
            SumHead(c, f);
            if |c| > 1 {
              SumHead(c[1..], f);
            }
          }
        }
      }
    }
  }

  lemma OutcomeCounts(e: Entry, category: Category)
    ensures Sum(Effects(e.item, e.outcome), CountsFor(category)) == FailuresOf(category)(e)
    ensures Sum(Effects(e.item, e.outcome), CountsDropped) == DroppedOf(e)
  {
    SumOfFew(Effects(e.item, e.outcome), CountsFor(category));
    SumOfFew(Effects(e.item, e.outcome), CountsDropped);
    hide Sum;
  }

  lemma OutcomeAdds(e: Entry, file: HashedFile, failure: (string, string))
    ensures Sum(Effects(e.item, e.outcome), Adds(PushHashed(file))) == HashedAs(file)(e)
    ensures Sum(Effects(e.item, e.outcome), Adds(PushOpenFailure(failure.0, failure.1))) == OpenFailureOf(failure)(e)
  {
    SumOfFew(Effects(e.item, e.outcome), Adds(PushHashed(file)));
    SumOfFew(Effects(e.item, e.outcome), Adds(PushOpenFailure(failure.0, failure.1)));
    hide Sum;
  }

  // ----- what the pool reports -----

  /** In every interleaving, once the pool has exited its counters are exactly
      those of its items' outcomes: failures by category, dropped members, and each
      hashed file and unopened archive as often as an item came to it. */
  lemma ResultsAddUp(
      tasks: seq<Root>, workers: nat, schedule: seq<Pick>,
      category: Category, file: HashedFile, failure: (string, string))
    requires workers >= 1 && AllExited(Run(Start(tasks, workers), schedule))
    ensures var s := Run(Start(tasks, workers), schedule);
            && category in s.results.failures
            && s.results.failures[category] == Sum(s.log, FailuresOf(category))
            && s.results.dropped == Sum(s.log, DroppedOf)
            && Occurrences(s.results.hashed, file) == Sum(s.log, HashedAs(file))
            && Occurrences(s.results.openFailures, failure) == Sum(s.log, OpenFailureOf(failure))
  {
    DrainedWhenAllExited(tasks, workers, schedule);
    var s := Run(Start(tasks, workers), schedule);
    hide Run, Start, Effects, Replay, Sum;
    forall e: Entry
      ensures Sum(Effects(e.item, e.outcome), CountsFor(category)) == FailuresOf(category)(e)
      ensures Sum(Effects(e.item, e.outcome), CountsDropped) == DroppedOf(e)
    {
      OutcomeCounts(e, category);
    }
    forall e: Entry
      ensures Sum(Effects(e.item, e.outcome), Adds(PushHashed(file))) == HashedAs(file)(e)
      ensures Sum(Effects(e.item, e.outcome), Adds(PushOpenFailure(failure.0, failure.1))) == OpenFailureOf(failure)(e)
    {
      OutcomeAdds(e, file, failure);
    }
    ReplayAdds(s.applied, category, file, failure);
    AppliedAddsUp(s, CountsFor(category), FailuresOf(category));
    AppliedAddsUp(s, CountsDropped, DroppedOf);
    AppliedAddsUp(s, Adds(PushHashed(file)), HashedAs(file));
    AppliedAddsUp(s, Adds(PushOpenFailure(failure.0, failure.1)), OpenFailureOf(failure));
  }

  /** Archives are opened ten levels deep, and what an archive at the tenth level
      holds is never looked at. */
  lemma NestingIsBounded(tasks: seq<Root>, workers: nat, schedule: seq<Pick>, i: nat)
    requires workers >= 1 && i < |Run(Start(tasks, workers), schedule).log|
    ensures var e := Run(Start(tasks, workers), schedule).log[i];
            e.item.depth <= 10 && (e.outcome.ZipExpanded? ==> e.item.depth < 10)
  {
    RunInv(tasks, workers, schedule);
    var s := Run(Start(tasks, workers), schedule);
    hide Run, Start, Sum, Conserved, Accounted, Counted, SomeoneWillPop;
    assert Produces(s.log[i].item, s.log[i].outcome);
    ProcessedItem(s, i);
    Lineage(s, tasks, s.log[i].item);
    if s.log[i].item.depth > 0 {
      var j :| 0 <= j < |s.log| && IsParent(s.log, j, s.log[i].item);
      assert Produces(s.log[j].item, s.log[j].outcome);
    }
  }

  /** Above the tenth level every archive may be expanded. */
  lemma ExpandsAboveTen(item: Item)
    requires IsZip(item.displayKey) && !IsAppleDouble(item.displayKey)
    ensures Produces(item, ZipExpanded([], 0)) <==> item.depth < 10
    ensures Produces(item, Failed(Archive))
  {
  }

  lemma ProcessedItem(s: State, i: nat)
    requires i < |s.log|
    ensures Sum(s.log, ItemIs(s.log[i].item)) > 0
  {
    SumPositive(s.log, ItemIs(s.log[i].item));
    assert ItemIs(s.log[i].item)(s.log[i]) > 0;
  }

  // ----- when a worker leaves -----

  /** A worker leaves only while no other runs an item or publishes its outcome. */
  lemma LeavesWhenNothingRuns(s: State, tasks: seq<Root>, w: nat, choice: Outcome, v: nat)
    requires Inv(s, tasks) && Enabled(s, w, choice) && Step(s, w, choice).workers[w].Exited?
    requires v < |s.workers|
    ensures !s.workers[v].Running? && !s.workers[v].Publishing?
  {
    hide Conserved, Accounted, SomeoneWillPop, Sound;
    if InFlight(s.workers[v]) > 0 {
      SumPositive(s.workers, InFlight);
    }
  }

  // ----- the order of the queue -----

  /** The items taken from the queue over a schedule, in order. */
  ghost function Taken(s: State, schedule: seq<Pick>): seq<Item> {
    if schedule == [] then []
    else
      var before, pick := Run(s, Init(schedule)), Last(schedule);
      Taken(s, Init(schedule))
      + if Enabled(before, pick.worker, pick.choice) && before.workers[pick.worker].AtTop? && before.queue != []
        then [before.queue[0]] else []
  }

  lemma StepKeepsOrder(s: State, w: nat, choice: Outcome)
    requires Enabled(s, w, choice)
    ensures var t := Step(s, w, choice);
            if s.workers[w].AtTop? && s.queue != []
            then [s.queue[0]] + t.queue == s.queue && t.applied == s.applied
            else (t.queue == s.queue && t.applied == s.applied)
                 || exists e :: t.queue == s.queue + Spawned(e) && t.applied == s.applied + [e]
  {
    hide Record, Effects, Spawned;
    match s.workers[w]
    case Publishing(item, effects) =>
      if effects != [] {
        var e := effects[0];
        assert Step(s, w, choice).queue == s.queue + Spawned(e);
      }
    case _ =>
  }

  function FrontOf(s: State, w: nat): seq<Item>
    requires w < |s.workers|
  {
    if s.workers[w].AtTop? && s.queue != [] then [s.queue[0]] else []
  }

  lemma Regrouped<T>(a: seq<T>, b: seq<T>, c: seq<T>)
    ensures a + b + c == a + (b + c)
  {
  }

  lemma OrderStep(planned: seq<Item>, taken: seq<Item>, s: State, w: nat, choice: Outcome)
    requires Enabled(s, w, choice) && taken + s.queue == planned + SpawnedBy(s.applied)
    ensures var t := Step(s, w, choice);
            taken + FrontOf(s, w) + t.queue == planned + SpawnedBy(t.applied)
  {
    StepKeepsOrder(s, w, choice);
    hide Step, Spawned, SpawnedBy, Enabled, Record, Replay;
    var t := Step(s, w, choice);
    if s.workers[w].AtTop? && s.queue != [] {
      Regrouped(taken, [s.queue[0]], t.queue);
    } else if t.queue == s.queue && t.applied == s.applied {
      assert taken + [] == taken;
    } else {
      var e :| t.queue == s.queue + Spawned(e) && t.applied == s.applied + [e];
      AppliedAppend(s.applied, e);
      assert taken + [] == taken;
      Regrouped(taken, s.queue, Spawned(e));
      Regrouped(planned, SpawnedBy(s.applied), Spawned(e));
    }
  }

  /** First in, first out: the tasks are taken in order, and then the members of
      the archives in the order the archives were published. */
  lemma {:induction false} FirstInFirstOut(tasks: seq<Root>, workers: nat, schedule: seq<Pick>)
    ensures var s := Run(Start(tasks, workers), schedule);
            Taken(Start(tasks, workers), schedule) + s.queue == TaskItems(tasks) + SpawnedBy(s.applied)
  {
    if schedule == [] {
      assert Taken(Start(tasks, workers), schedule) == [];
    } else {
      hide Step, Enabled, TaskItems, SpawnedBy, Start;
      FirstInFirstOut(tasks, workers, Init(schedule));
      var s, pick := Run(Start(tasks, workers), Init(schedule)), Last(schedule);
      var taken := Taken(Start(tasks, workers), Init(schedule));
      assert taken + [] == taken;
      if Enabled(s, pick.worker, pick.choice) {
        EnabledWorker(s, pick.worker, pick.choice);
        OrderStep(TaskItems(tasks), taken, s, pick.worker, pick.choice);
      }
    }
  }

  lemma EnabledWorker(s: State, w: nat, choice: Outcome)
    requires Enabled(s, w, choice)
    ensures w < |s.workers|
  {
  }
}
