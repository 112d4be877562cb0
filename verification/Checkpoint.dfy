/**
 Which source objects a deduplicate run marks as done, once its workers have
 drained and every hashed file has been offered for placement: the filter at
 the end of `run_deduplicate_job`.
 */
module Checkpoint {
  import opened Text
  import opened Counting
  import opened Keys
  import opened DedupPool

  /** `retain`: the finished roots that pass the filter, in order. */
  function RetainedOnly(finished: seq<Root>, results: Results, placed: set<Root>): seq<Root> {
    if finished == [] then []
    else RetainedOnly(Init(finished), results, placed)
         + if Retained(results, placed, Last(finished)) then [Last(finished)] else []
  }

  /** What a run appends to the checkpoint. */
  function Rows(results: Results, placed: set<Root>): seq<Root> {
    RetainedOnly(results.finished, results, placed) + results.skipped
  }

  lemma {:induction false} RetainedOnlyHolds(finished: seq<Root>, results: Results, placed: set<Root>, root: Root)
    ensures root in RetainedOnly(finished, results, placed) <==> root in finished && Retained(results, placed, root)
  {
    if finished != [] {
      RetainedOnlyHolds(Init(finished), results, placed, root);
      assert finished == Init(finished) + [Last(finished)];
    }
  }

  /** The finished roots that pass the filter, in order, then every skipped AppleDouble root. */
  method CheckpointRows(results: Results, placed: set<Root>) returns (rows: seq<Root>)
    ensures rows == Rows(results, placed)
    ensures forall r :: r in rows <==> r in results.skipped || (r in results.finished && Retained(results, placed, r))
  {
    var finished: seq<Root> := [];
    for i := 0 to |results.finished|
      invariant finished == RetainedOnly(results.finished[..i], results, placed)
    {
      assert Init(results.finished[..i + 1]) == results.finished[..i];
      if Retained(results, placed, results.finished[i]) {
        finished := finished + [results.finished[i]];
      }
    }
    assert results.finished[..|results.finished|] == results.finished;
    rows := finished;
    for i := 0 to |results.skipped|
      invariant rows == finished + results.skipped[..i]
    {
      rows := rows + [results.skipped[i]];
    }
    forall r ensures r in finished <==> r in results.finished && Retained(results, placed, r) {
      RetainedOnlyHolds(results.finished, results, placed, r);
    }
  }

  predicate Retained(results: Results, placed: set<Root>, root: Root) {
    root !in results.tainted && (root in placed || IsZip(root.key))
  }

  /** The `(alias, key)` pairs of the files placement finished. */
  function PlacedKeys(finished: seq<HashedFile>): set<Root> {
    set f | f in finished :: Root(f.alias, f.originalKey)
  }

  // ----- what the result lists hold -----

  lemma {:induction false} ReplayHolds(applied: seq<Effect>, root: Root, file: HashedFile)
    ensures root in Replay(applied).finished <==> Finish(root) in applied
    ensures root in Replay(applied).tainted <==> Taint(root) in applied
    ensures root in Replay(applied).skipped <==> PushSkipped(root) in applied
    ensures file in Replay(applied).hashed <==> PushHashed(file) in applied
  {
    if applied != [] {
      ReplayHolds(Init(applied), root, file);
      assert applied == Init(applied) + [Last(applied)];
    }
  }

  /** Once everything has drained an effect was applied exactly when some
      outcome called for it. */
  lemma AppliedIffCalled(s: State, e: Effect)
    requires Occurrences(s.applied, e) == Sum(s.log, Calls(e))
    ensures e in s.applied <==> exists i :: 0 <= i < |s.log| && e in Effects(s.log[i].item, s.log[i].outcome)
  {
    OccursIn(s.applied, e);
    SumPositive(s.log, Calls(e));
    forall i | 0 <= i < |s.log|
      ensures Calls(e)(s.log[i]) > 0 <==> e in Effects(s.log[i].item, s.log[i].outcome)
    {
      OccursIn(Effects(s.log[i].item, s.log[i].outcome), e);
    }
  }

  // ----- when a root is checkpointed -----

  /** An outcome that lost data. */
  predicate Lossy(outcome: Outcome) {
    outcome.Failed? || outcome.ArchiveOpenFailed? || (outcome.ZipExpanded? && outcome.dropped > 0)
  }

  predicate Completed(outcome: Outcome) {
    outcome.ZipExpanded? || outcome.Hashed?
  }

  ghost predicate OwnOutcome(log: seq<Entry>, i: nat, root: Root)
    requires i < |log|
  {
    log[i].item == TaskItem(root)
  }

  ghost predicate WasSkipped(log: seq<Entry>, root: Root) {
    exists i :: 0 <= i < |log| && OwnOutcome(log, i, root) && log[i].outcome.SkippedAppleDouble?
  }

  ghost predicate WasFinished(log: seq<Entry>, root: Root) {
    exists i :: 0 <= i < |log| && OwnOutcome(log, i, root) && Completed(log[i].outcome)
  }

  ghost predicate LostNothing(log: seq<Entry>, root: Root) {
    forall i | 0 <= i < |log| && log[i].item.Owner() == root :: !Lossy(log[i].outcome)
  }

  /** Task items are their own roots. */
  ghost predicate RootsOwnThemselves(log: seq<Entry>) {
    forall i | 0 <= i < |log| && log[i].item.depth == 0 :: log[i].item == TaskItem(log[i].item.Owner())
  }

  lemma EffectsMean(item: Item, outcome: Outcome, root: Root)
    requires Produces(item, outcome) && (item.depth == 0 ==> item == TaskItem(item.Owner()))
    ensures Finish(root) in Effects(item, outcome) <==> item == TaskItem(root) && Completed(outcome)
    ensures Taint(root) in Effects(item, outcome) <==> item.Owner() == root && Lossy(outcome)
    ensures PushSkipped(root) in Effects(item, outcome) <==> item == TaskItem(root) && outcome.SkippedAppleDouble?
  {
    hide IsZip, IsAppleDouble, ExtensionOf;
    var effects := Effects(item, outcome);
    match outcome {
      case ZipExpanded(members, dropped) =>
        ExpandedEffects(item, members, dropped, root);
      case Hashed(file) =>
        assert PushHashed(file) != Finish(root);
      case _ =>
    }
  }

  lemma ExpandedEffects(item: Item, members: seq<Item>, dropped: nat, root: Root)
    requires item.depth == 0 ==> item == TaskItem(item.Owner())
    ensures var effects := Effects(item, ZipExpanded(members, dropped));
            && (Finish(root) in effects <==> item == TaskItem(root))
            && (Taint(root) in effects <==> item.Owner() == root && dropped > 0)
            && PushSkipped(root) !in effects
  {
    var effects := Effects(item, ZipExpanded(members, dropped));
    var finish := if item.depth == 0 then [Finish(Root(item.alias, item.displayKey))] else [];
    var lost := if dropped > 0
                then [CountFailure(Archive, dropped), CountDropped(dropped), Taint(item.Owner())] else [];
    assert effects == [Enqueue(members)] + finish + lost;
    assert forall e :: e in effects <==> e == Enqueue(members) || e in finish || e in lost;
  }

  lemma FinishedMeans(s: State, root: Root)
    requires Sound(s) && RootsOwnThemselves(s.log) && s.results == Replay(s.applied)
    requires forall e :: Occurrences(s.applied, e) == Sum(s.log, Calls(e))
    ensures root in s.results.finished <==> WasFinished(s.log, root)
    ensures root in s.results.tainted <==> !LostNothing(s.log, root)
    ensures root in s.results.skipped <==> WasSkipped(s.log, root)
  {
    hide Effects, Lossy, Replay, Sum, Produces;
    ReplayHolds(s.applied, root, HashedFile("", "", "", ""));
    AppliedIffCalled(s, Finish(root));
    AppliedIffCalled(s, Taint(root));
    AppliedIffCalled(s, PushSkipped(root));
    forall i | 0 <= i < |s.log|
      ensures var effects, outcome := Effects(s.log[i].item, s.log[i].outcome), s.log[i].outcome;
              && (Finish(root) in effects <==> OwnOutcome(s.log, i, root) && Completed(outcome))
              && (Taint(root) in effects <==> s.log[i].item.Owner() == root && Lossy(outcome))
              && (PushSkipped(root) in effects <==> OwnOutcome(s.log, i, root) && outcome.SkippedAppleDouble?)
    {
      EffectsMean(s.log[i].item, s.log[i].outcome, root);
    }
  }

  lemma DepthZeroIsTask(s: State, tasks: seq<Root>)
    requires Inv(s, tasks)
    ensures RootsOwnThemselves(s.log)
  {
    forall i | 0 <= i < |s.log| && s.log[i].item.depth == 0
      ensures s.log[i].item == TaskItem(s.log[i].item.Owner())
    {
      SumPositive(s.log, ItemIs(s.log[i].item));
      assert ItemIs(s.log[i].item)(s.log[i]) > 0;
      Lineage(s, tasks, s.log[i].item);
    }
  }

  /** In every interleaving, once the workers have exited a root is marked done
      exactly when it was a skipped AppleDouble object, or it was expanded or
      hashed, nothing descended from it was lost, and it is a zip or was itself
      placed. A zip member that could not be placed does not hold its root back. */
  lemma CheckpointIsSoundAndComplete(
    tasks: seq<Root>, workers: nat, schedule: seq<Pick>, placed: set<Root>, root: Root)
    requires workers >= 1 && AllExited(Run(Start(tasks, workers), schedule))
    ensures var s := Run(Start(tasks, workers), schedule);
            var marked := root in s.results.skipped
                          || (root in s.results.finished && Retained(s.results, placed, root));
            marked <==>
              || WasSkipped(s.log, root)
              || (WasFinished(s.log, root) && LostNothing(s.log, root) && (IsZip(root.key) || root in placed))
  {
    RunInv(tasks, workers, schedule);
    DrainedWhenAllExited(tasks, workers, schedule);
    var s := Run(Start(tasks, workers), schedule);
    DepthZeroIsTask(s, tasks);
    FinishedMeans(s, root);
  }

  // ----- the root's own outcome and its own file -----

  ghost predicate Distinct(tasks: seq<Root>) {
    forall i, j | 0 <= i < j < |tasks| :: tasks[i] != tasks[j]
  }

  lemma {:induction false} OccursOnce(tasks: seq<Root>, root: Root)
    requires Distinct(tasks)
    ensures Occurrences(TaskItems(tasks), TaskItem(root)) == if root in tasks then 1 else 0
  {
    if tasks != [] {
      OccursOnce(Init(tasks), root);
      assert Init(TaskItems(tasks)) == TaskItems(Init(tasks));
      assert tasks == Init(tasks) + [Last(tasks)];
      assert TaskItem(Last(tasks)) == TaskItem(root) <==> Last(tasks) == root;
    }
  }

  /** Distinct tasks have exactly one outcome each, so a root is marked for one
      reason only. */
  lemma OneOutcomePerTask(tasks: seq<Root>, workers: nat, schedule: seq<Pick>, root: Root)
    requires workers >= 1 && AllExited(Run(Start(tasks, workers), schedule))
    requires Distinct(tasks) && root in tasks
    ensures Sum(Run(Start(tasks, workers), schedule).log, ItemIs(TaskItem(root))) == 1
  {
    RunInv(tasks, workers, schedule);
    DrainedWhenAllExited(tasks, workers, schedule);
    var s := Run(Start(tasks, workers), schedule);
    OccursOnce(tasks, root);
    OccursIn(SpawnedBy(s.applied), TaskItem(root));
    if TaskItem(root) in SpawnedBy(s.applied) {
      SpawnedByWhom(s.applied, TaskItem(root));
      var e :| e in s.applied && e.Enqueue? && TaskItem(root) in e.members;
      AppliedByWhom(s, e);
      var i :| 0 <= i < |s.log| && e in Effects(s.log[i].item, s.log[i].outcome);
      EnqueueOf(s.log[i].item, s.log[i].outcome, e);
    }
  }

  /** No member shares its key with a top-level object. */
  ghost predicate KeysApart(log: seq<Entry>, tasks: seq<Root>) {
    forall i | 0 <= i < |log| && log[i].item.depth > 0 :: Root(log[i].item.alias, log[i].item.displayKey) !in tasks
  }

  /** When member keys stay apart from top-level keys, the placed file that lets
      a root through the filter is the root's own. */
  lemma PlacedFileIsOwn(
    tasks: seq<Root>, workers: nat, schedule: seq<Pick>, finished: seq<HashedFile>, root: Root)
    requires workers >= 1 && AllExited(Run(Start(tasks, workers), schedule))
    requires var s := Run(Start(tasks, workers), schedule);
             KeysApart(s.log, tasks) && forall f | f in finished :: f in s.results.hashed
    requires root in tasks && root in PlacedKeys(finished)
    ensures var s := Run(Start(tasks, workers), schedule);
            exists i, f :: 0 <= i < |s.log| && OwnOutcome(s.log, i, root)
              && s.log[i].outcome == Hashed(f) && f in finished
  {
    RunInv(tasks, workers, schedule);
    DrainedWhenAllExited(tasks, workers, schedule);
    var s := Run(Start(tasks, workers), schedule);
    DepthZeroIsTask(s, tasks);
    var f :| f in finished && Root(f.alias, f.originalKey) == root;
    ReplayHolds(s.applied, root, f);
    AppliedIffCalled(s, PushHashed(f));
    var i :| 0 <= i < |s.log| && PushHashed(f) in Effects(s.log[i].item, s.log[i].outcome);
    assert s.log[i].outcome == Hashed(f) by { PushHashedMeans(s.log[i].item, s.log[i].outcome, f); }
    assert Produces(s.log[i].item, s.log[i].outcome);
    assert Root(s.log[i].item.alias, s.log[i].item.displayKey) == root;
    assert OwnOutcome(s.log, i, root);
  }

  lemma PushHashedMeans(item: Item, outcome: Outcome, file: HashedFile)
    ensures PushHashed(file) in Effects(item, outcome) <==> outcome == Hashed(file)
  {
  }

  /** Filtering before the workers have drained would be unsound: right after a
      zip root expands it is finished and untainted while its member still
      waits, whatever becomes of that member. */
  lemma FinishedBeforeItsMembersRun(root: Root, member: Item)
    requires IsZip(root.key) && !IsAppleDouble(root.key) && IsMember(TaskItem(root), member)
    ensures exists schedule: seq<Pick> ::
              var s := Run(Start([root], 1), schedule);
              && root in s.results.finished && root !in s.results.tainted && s.queue == [member]
              && s == ExpandedState(root, member)
  {
    hide IsZip, IsAppleDouble, Effects, Run;
    var pick, item := Pick(0, ZipExpanded([member], 0)), TaskItem(root);
    ExpandedZip(item, member);
    var s0 := Start([root], 1);
    assert s0 == State([item], 0, [AtTop], NO_RESULTS, [], []);
    RunNothing(s0);
    RunSnoc(s0, [], pick);
    var p1 := [] + [pick];
    assert Run(s0, p1) == s0.(queue := [], workers := [Popped(item)]);
    RunSnoc(s0, p1, pick);
    var p2 := p1 + [pick];
    assert Run(s0, p2) == s0.(queue := [], inFlight := 1, workers := [Running(item)]);
    RunSnoc(s0, p2, pick);
    var p3 := p2 + [pick];
    assert Run(s0, p3) == State([], 1, [Publishing(item, [Enqueue([member]), Finish(root)])], NO_RESULTS,
                                [Entry(item, ZipExpanded([member], 0))], []);
    ZipPublished(Run(s0, p3), root, member);
    var rest: seq<Pick> :| Run(Run(s0, p3), rest) == ExpandedState(root, member);
    RunConcat(s0, p3, rest);
  }

  lemma ZipPublished(s: State, root: Root, member: Item)
    requires var item := TaskItem(root);
             s == State([], 1, [Publishing(item, [Enqueue([member]), Finish(root)])], NO_RESULTS,
                        [Entry(item, ZipExpanded([member], 0))], [])
    ensures exists schedule: seq<Pick> :: Run(s, schedule) == ExpandedState(root, member)
  {
    hide Run;
    var pick, item := Pick(0, SkippedAppleDouble), TaskItem(root);
    RunNothing(s);
    RunSnoc(s, [], pick);
    var p1 := [] + [pick];
    assert [Enqueue([member]), Finish(root)][1..] == [Finish(root)] && [] + [member] == [member];
    assert Run(s, p1) == s.(queue := [member], workers := [Publishing(item, [Finish(root)])],
        applied := [Enqueue([member])]);
    RunSnoc(s, p1, pick);
    assert [Finish(root)][1..] == [] && [member] + [] == [member];
    assert Run(s, p1 + [pick]) == ExpandedState(root, member);
  }

  /** One worker has just published a zip root with one member. */
  function ExpandedState(root: Root, member: Item): State {
    var item := TaskItem(root);
    State([member], 1, [Publishing(item, [])], NO_RESULTS.(finished := [root]),
          [Entry(item, ZipExpanded([member], 0))], [Enqueue([member]), Finish(root)])
  }

  lemma RunNothing(s: State)
    ensures Run(s, []) == s
  {
  }

  lemma ExpandedZip(item: Item, member: Item)
    requires IsZip(item.displayKey) && !IsAppleDouble(item.displayKey) && IsMember(item, member)
    requires item.depth == 0
    ensures Produces(item, ZipExpanded([member], 0))
    ensures Effects(item, ZipExpanded([member], 0)) == [Enqueue([member]), Finish(Root(item.alias, item.displayKey))]
  {
  }
}
