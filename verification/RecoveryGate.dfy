/**
 The recovery gate of `email_import/gate.rs` as a transition system: any
 number of tasks whose requests failed elect one prober, which sleeps out a
 round while it holds the election lock. Parking is left out, so a task that
 loses the election may go on at any time.
 */
module RecoveryGate {
  import opened Wrappers
  import opened Text

  datatype Decision = Retry | GiveUp

  datatype Place =
    | Outside
    | Elected                // holds the lock, round not yet counted
    | Sleeping(round: nat)   // holds the lock
    | Latched                // holds the lock, out of rounds
    | Losing                 // someone else holds the lock

  /** `slept` adds up the pauses of all tasks. */
  datatype Gate = Gate(maxRounds: nat, backoff: nat, lock: Option<nat>, rounds: nat, slept: nat, tasks: seq<Place>)

  function Start(maxRounds: nat, backoff: nat, tasks: nat): Gate {
    Gate(maxRounds, backoff, None, 0, 0, seq(tasks, i => Outside))
  }

  /** One operation of task `t`, and what it decides if that ends its call. */
  function Step(g: Gate, t: nat): (Gate, Option<Decision>)
    requires t < |g.tasks|
  {
    match g.tasks[t]
    case Outside =>
      if g.lock.None? then (g.(lock := Some(t), tasks := g.tasks[t := Elected]), None)
      else (g.(tasks := g.tasks[t := Losing]), None)
    case Elected =>
      var round := g.rounds + 1;
      (g.(rounds := round, tasks := g.tasks[t := if round > g.maxRounds then Latched else Sleeping(round)]), None)
    case Sleeping(round) =>
      (g.(slept := g.slept + g.backoff * round, lock := None, tasks := g.tasks[t := Outside]), Some(Retry))
    case Latched =>
      (g.(lock := None, tasks := g.tasks[t := Outside]), Some(GiveUp))
    case Losing =>
      (g.(tasks := g.tasks[t := Outside]), Some(if g.rounds > g.maxRounds then GiveUp else Retry))
  }

  function Run(g: Gate, schedule: seq<nat>): Gate {
    if schedule == [] then g
    else
      var before := Run(g, Init(schedule));
      if Last(schedule) < |before.tasks| then Step(before, Last(schedule)).0 else before
  }

  // ----- the invariant -----

  /** The pauses of rounds `1..n`. */
  function Pauses(backoff: nat, n: nat): nat {
    if n == 0 then 0 else Pauses(backoff, n - 1) + backoff * n
  }

  lemma Distribute(b: nat, m: nat, n: nat)
    ensures b * (m + 2 * n) == b * m + 2 * (b * n)
  {
  }

  lemma {:induction false} PausesAre(backoff: nat, n: nat)
    ensures 2 * Pauses(backoff, n) == backoff * (n * (n + 1))
  {
    if n > 0 {
      PausesAre(backoff, n - 1);
      var before := (n - 1) * n;
      assert n * (n + 1) == before + 2 * n;
      Distribute(backoff, before, n);
    }
  }

  lemma {:induction false} PausesGrow(backoff: nat, m: nat, n: nat)
    requires m <= n
    ensures Pauses(backoff, m) <= Pauses(backoff, n)
  {
    if m < n {
      PausesGrow(backoff, m, n - 1);
    }
  }

  predicate IsProber(p: Place) {
    p.Elected? || p.Sleeping? || p.Latched?
  }

  /** At most one prober, and it holds the lock. */
  ghost predicate OneProber(g: Gate) {
    && (g.lock.Some? ==> g.lock.value < |g.tasks|)
    && forall t | 0 <= t < |g.tasks| :: IsProber(g.tasks[t]) <==> g.lock == Some(t)
  }

  /** The rounds that have been slept out. */
  function FinishedRounds(g: Gate): nat {
    if g.lock.Some? && g.lock.value < |g.tasks| && g.tasks[g.lock.value].Sleeping? && g.rounds > 0 then g.rounds - 1
    else if g.rounds > g.maxRounds then g.maxRounds
    else g.rounds
  }

  ghost predicate Inv(g: Gate) {
    && OneProber(g)
    && (forall t | 0 <= t < |g.tasks| :: g.tasks[t].Sleeping? ==>
        g.tasks[t].round == g.rounds <= g.maxRounds && g.rounds > 0)
    && (forall t | 0 <= t < |g.tasks| :: g.tasks[t].Latched? ==> g.rounds > g.maxRounds)
    && g.slept == Pauses(g.backoff, FinishedRounds(g))
  }

  lemma StepInv(g: Gate, t: nat)
    requires Inv(g) && t < |g.tasks|
    ensures Inv(Step(g, t).0)
    ensures Step(g, t).0.rounds >= g.rounds && Step(g, t).0.slept >= g.slept
    ensures Step(g, t).0.(tasks := [], lock := None, rounds := 0, slept := 0)
         == g.(tasks := [], lock := None, rounds := 0, slept := 0)
    ensures |Step(g, t).0.tasks| == |g.tasks|
  {
    hide Pauses;
    var h := Step(g, t).0;
    assert OneProber(h);
    if g.tasks[t].Sleeping? {
      assert g.lock == Some(t) && FinishedRounds(g) == g.rounds - 1;
      OneMorePause(g.backoff, g.rounds);
    }
  }

  lemma OneMorePause(backoff: nat, n: nat)
    requires n > 0
    ensures Pauses(backoff, n) == Pauses(backoff, n - 1) + backoff * n
  {
  }

  lemma {:induction false} RunInv(maxRounds: nat, backoff: nat, tasks: nat, schedule: seq<nat>)
    ensures var g := Run(Start(maxRounds, backoff, tasks), schedule);
            Inv(g) && g.maxRounds == maxRounds && g.backoff == backoff && |g.tasks| == tasks
  {
    if schedule != [] {
      hide Inv, Step;
      RunInv(maxRounds, backoff, tasks, Init(schedule));
      var g := Run(Start(maxRounds, backoff, tasks), Init(schedule));
      if Last(schedule) < |g.tasks| {
        StepInv(g, Last(schedule));
      }
    } else {
      assert Pauses(backoff, 0) == 0;
    }
  }

  // ----- what the gate promises -----

  /** At most one task probes at a time, whatever the interleaving. */
  lemma AtMostOneProber(maxRounds: nat, backoff: nat, tasks: nat, schedule: seq<nat>, t: nat, u: nat)
    requires t < tasks && u < tasks
    ensures var g := Run(Start(maxRounds, backoff, tasks), schedule);
            |g.tasks| == tasks && (IsProber(g.tasks[t]) && IsProber(g.tasks[u]) ==> t == u)
  {
    RunInv(maxRounds, backoff, tasks, schedule);
  }

  /** All tasks together never pause longer than the whole budget. */
  lemma PauseBudget(maxRounds: nat, backoff: nat, tasks: nat, schedule: seq<nat>)
    ensures 2 * Run(Start(maxRounds, backoff, tasks), schedule).slept <= backoff * (maxRounds * (maxRounds + 1))
  {
    RunInv(maxRounds, backoff, tasks, schedule);
    var g := Run(Start(maxRounds, backoff, tasks), schedule);
    PausesGrow(backoff, FinishedRounds(g), maxRounds);
    PausesAre(backoff, maxRounds);
  }

  /** A task gives up exactly when the rounds are used up, and by then the
      whole budget has been slept. */
  lemma GivesUpOnlyWhenSpent(maxRounds: nat, backoff: nat, tasks: nat, schedule: seq<nat>, t: nat)
    requires t < tasks
    ensures var g := Run(Start(maxRounds, backoff, tasks), schedule);
            |g.tasks| == tasks && (Step(g, t).1.Some? ==>
                && (Step(g, t).1.value.GiveUp? <==> g.rounds > maxRounds)
                && (Step(g, t).1.value.GiveUp? ==> 2 * g.slept == backoff * (maxRounds * (maxRounds + 1))))
  {
    RunInv(maxRounds, backoff, tasks, schedule);
    PausesAre(backoff, maxRounds);
  }

  /** Rounds never go back, so a gate that has latched stays latched. */
  lemma {:induction false} RoundsNeverDecrease(
      maxRounds: nat, backoff: nat, tasks: nat, past: seq<nat>, future: seq<nat>)
    ensures Run(Start(maxRounds, backoff, tasks), past).rounds
         <= Run(Start(maxRounds, backoff, tasks), past + future).rounds
    decreases |future|
  {
    if future == [] {
      assert past + future == past;
    } else {
      hide Step, Inv, Start;
      assert Init(past + future) == past + Init(future);
      RoundsNeverDecrease(maxRounds, backoff, tasks, past, Init(future));
      RunInv(maxRounds, backoff, tasks, past + Init(future));
      var g := Run(Start(maxRounds, backoff, tasks), past + Init(future));
      if Last(future) < |g.tasks| {
        StepInv(g, Last(future));
      }
    }
  }

  /** Once the rounds are used up, every later decision is to give up. */
  lemma LatchIsFinal(maxRounds: nat, backoff: nat, tasks: nat, past: seq<nat>, future: seq<nat>, t: nat)
    requires Run(Start(maxRounds, backoff, tasks), past).rounds > maxRounds && t < tasks
    ensures var g := Run(Start(maxRounds, backoff, tasks), past + future);
            |g.tasks| == tasks && Step(g, t).1 != Some(Retry)
  {
    RoundsNeverDecrease(maxRounds, backoff, tasks, past, future);
    GivesUpOnlyWhenSpent(maxRounds, backoff, tasks, past + future, t);
  }
}
