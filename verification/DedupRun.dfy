/**
 A deduplicate run from its tasks to its checkpoint: the worker pool, then the
 placement pass over the hashed files, then the filter.
 */
module DedupRun {
  import opened Text
  import opened Counting
  import opened Keys
  import opened DedupPool
  import opened Checkpoint
  import opened ContentIndexFile
  import opened Placement
  import opened PlacementResults

  /** The placement pass that follows a drained pool. */
  function Placing(
    s: State, sanitize: string -> string, entries: Index, tree: Tree, fates: nat -> PlaceFate): Pass
  {
    PlaceAll(sanitize, Opening(entries, tree), InOrder(s.results.hashed), fates)
  }

  ghost predicate Marked(s: State, finished: seq<HashedFile>, root: Root) {
    root in Rows(s.results, PlacedKeys(finished))
  }

  lemma MarkedMeans(s: State, finished: seq<HashedFile>, root: Root)
    ensures Marked(s, finished, root) <==>
              || root in s.results.skipped
              || (root in s.results.finished && Retained(s.results, PlacedKeys(finished), root))
  {
    RetainedOnlyHolds(s.results.finished, s.results, PlacedKeys(finished), root);
  }

  /** Placement finishes only files that were hashed. */
  lemma FinishedWereHashed(
    s: State, sanitize: string -> string, entries: Index, tree: Tree, fates: nat -> PlaceFate)
    ensures forall f | f in Placing(s, sanitize, entries, tree, fates).finished :: f in s.results.hashed
  {
    InOrderSorts(s.results.hashed, "");
    PassKeeps(sanitize, entries, tree, InOrder(s.results.hashed), fates);
    hide PlaceAll, InOrder, Counts, Records, Firsts, Kept, Sorted;
    forall f | f in Placing(s, sanitize, entries, tree, fates).finished
      ensures f in s.results.hashed
    {
      assert f in multiset(Placing(s, sanitize, entries, tree, fates).finished);
      assert f in multiset(s.results.hashed);
    }
  }

  // ----- a root and what descends from it -----

  /** Nothing reached from `root` lost data. */
  ghost predicate NothingLostBelow(log: seq<Entry>, root: Root) {
    forall i | 0 <= i < |log| && DescendsFrom(log, log[i].item, root) :: !Lossy(log[i].outcome)
  }

  lemma LogItems(s: State, tasks: seq<Root>, i: nat, root: Root)
    requires Inv(s, tasks) && i < |s.log|
    ensures DescendsFrom(s.log, s.log[i].item, root) <==> s.log[i].item.Owner() == root
    ensures s.log[i].item.Owner() in tasks
  {
    hide Inv, DescendsFrom;
    SumPositive(s.log, ItemIs(s.log[i].item));
    assert ItemIs(s.log[i].item)(s.log[i]) > 0;
    OwnerIsAncestor(s, tasks, s.log[i].item, root);
  }

  lemma LostNothingBelow(s: State, tasks: seq<Root>, root: Root)
    requires Inv(s, tasks)
    ensures NothingLostBelow(s.log, root) <==> LostNothing(s.log, root)
  {
    hide Inv, DescendsFrom, Lossy;
    forall i | 0 <= i < |s.log|
      ensures DescendsFrom(s.log, s.log[i].item, root) <==> s.log[i].item.Owner() == root
    {
      LogItems(s, tasks, i, root);
    }
  }

  /** The root's own file was placed or found to be a duplicate. */
  ghost predicate OwnFileIn(log: seq<Entry>, root: Root, finished: seq<HashedFile>) {
    exists i, f :: 0 <= i < |log| && OwnOutcome(log, i, root) && log[i].outcome == Hashed(f) && f in finished
  }

  lemma OwnFileIffPlaced(
    tasks: seq<Root>, workers: nat, schedule: seq<Pick>, finished: seq<HashedFile>, root: Root)
    requires workers >= 1 && AllExited(Run(Start(tasks, workers), schedule))
    requires var s := Run(Start(tasks, workers), schedule);
             KeysApart(s.log, tasks) && forall f | f in finished :: f in s.results.hashed
    requires root in tasks
    ensures root in PlacedKeys(finished) <==> OwnFileIn(Run(Start(tasks, workers), schedule).log, root, finished)
  {
    var s := Run(Start(tasks, workers), schedule);
    RunInv(tasks, workers, schedule);
    assert Sound(s);
    if root in PlacedKeys(finished) {
      PlacedFileIsOwn(tasks, workers, schedule, finished, root);
    }
    hide Run, IsZip, IsAppleDouble, ExtensionOf;
    if OwnFileIn(s.log, root, finished) {
      var i, f :| 0 <= i < |s.log| && OwnOutcome(s.log, i, root) && s.log[i].outcome == Hashed(f) && f in finished;
      assert Produces(s.log[i].item, s.log[i].outcome);
      assert Root(f.alias, f.originalKey) == root;
    }
  }

  // ----- end to end -----

  /**
   From tasks to checkpoint, in every interleaving and however placement goes: a
   root is marked done exactly when it was a skipped AppleDouble object, or it
   was expanded or hashed, nothing reached from it was lost, and it is a zip or
   its own file came through placement.
   */
  lemma MarkedIffDone(
    tasks: seq<Root>, workers: nat, schedule: seq<Pick>,
    sanitize: string -> string, entries: Index, tree: Tree, fates: nat -> PlaceFate, root: Root)
    requires workers >= 1 && AllExited(Run(Start(tasks, workers), schedule))
    requires KeysApart(Run(Start(tasks, workers), schedule).log, tasks)
    ensures var s := Run(Start(tasks, workers), schedule);
            var finished := Placing(s, sanitize, entries, tree, fates).finished;
            Marked(s, finished, root) <==>
              || WasSkipped(s.log, root)
              || (WasFinished(s.log, root) && NothingLostBelow(s.log, root)
                  && (IsZip(root.key) || OwnFileIn(s.log, root, finished)))
  {
    var s := Run(Start(tasks, workers), schedule);
    var finished := Placing(s, sanitize, entries, tree, fates).finished;
    RunInv(tasks, workers, schedule);
    CheckpointIsSoundAndComplete(tasks, workers, schedule, PlacedKeys(finished), root);
    hide Run, Placing, Inv, IsZip, LostNothing, NothingLostBelow, OwnFileIn, Retained, Rows;
    MarkedMeans(s, finished, root);
    FinishedWereHashed(s, sanitize, entries, tree, fates);
    LostNothingBelow(s, tasks, root);
    if WasFinished(s.log, root) {
      var i :| 0 <= i < |s.log| && OwnOutcome(s.log, i, root) && Completed(s.log[i].outcome);
      LogItems(s, tasks, i, root);
      OwnFileIffPlaced(tasks, workers, schedule, finished, root);
    }
  }

  // ----- files that placement could not finish -----

  /** What `item` descends from was expanded, so it is a zip. */
  lemma {:induction false} MembersRootWasExpanded(log: seq<Entry>, item: Item, root: Root)
    requires item.depth > 0 && DescendsFrom(log, item, root)
    ensures exists j :: 0 <= j < |log| && OwnOutcome(log, j, root) && log[j].outcome.ZipExpanded?
    decreases item.depth
  {
    var i :| 0 <= i < |log| && IsParent(log, i, item) && log[i].item.depth < item.depth
             && DescendsFrom(log, log[i].item, root);
    if log[i].item.depth > 0 {
      MembersRootWasExpanded(log, log[i].item, root);
    } else {
      assert OwnOutcome(log, i, root);
    }
  }

  /** A hashed file that did not come through placement leaves its root unmarked
      exactly when it is the root's own file, or the root lost something anyway.
      A member that could not be placed is forgotten. */
  lemma UnplacedFileHoldsRootBackIff(
    tasks: seq<Root>, workers: nat, schedule: seq<Pick>, finished: seq<HashedFile>, i: nat)
    requires workers >= 1 && AllExited(Run(Start(tasks, workers), schedule)) && Distinct(tasks)
    requires var s := Run(Start(tasks, workers), schedule);
             && KeysApart(s.log, tasks) && (forall f | f in finished :: f in s.results.hashed)
             && i < |s.log| && s.log[i].outcome.Hashed? && s.log[i].outcome.file !in finished
    ensures var s := Run(Start(tasks, workers), schedule);
            var root := s.log[i].item.Owner();
            !Marked(s, finished, root) <==> s.log[i].item == TaskItem(root) || root in s.results.tainted
  {
    var s := Run(Start(tasks, workers), schedule);
    var root := s.log[i].item.Owner();
    RunInv(tasks, workers, schedule);
    DepthZeroIsTask(s, tasks);
    LogItems(s, tasks, i, root);
    if s.log[i].item.depth == 0 {
      OwnFileUnplaced(tasks, workers, schedule, finished, i);
    } else {
      MemberUnplaced(tasks, workers, schedule, finished, i);
    }
  }

  lemma OwnFileUnplaced(
    tasks: seq<Root>, workers: nat, schedule: seq<Pick>, finished: seq<HashedFile>, i: nat)
    requires workers >= 1 && AllExited(Run(Start(tasks, workers), schedule)) && Distinct(tasks)
    requires var s := Run(Start(tasks, workers), schedule);
             && KeysApart(s.log, tasks) && (forall f | f in finished :: f in s.results.hashed)
             && i < |s.log| && s.log[i].outcome.Hashed? && s.log[i].outcome.file !in finished
             && s.log[i].item == TaskItem(s.log[i].item.Owner()) && s.log[i].item.Owner() in tasks
    ensures var s := Run(Start(tasks, workers), schedule);
            !Marked(s, finished, s.log[i].item.Owner())
  {
    var s := Run(Start(tasks, workers), schedule);
    var root := s.log[i].item.Owner();
    RunInv(tasks, workers, schedule);
    assert Sound(s);
    CheckpointIsSoundAndComplete(tasks, workers, schedule, PlacedKeys(finished), root);
    MarkedMeans(s, finished, root);
    OwnFileIffPlaced(tasks, workers, schedule, finished, root);
    OneOutcomePerTask(tasks, workers, schedule, root);
    hide Run, Inv, IsZip, IsAppleDouble, ExtensionOf, Sum, Retained, Rows, LostNothing;
    assert Produces(s.log[i].item, s.log[i].outcome);
    forall j | 0 <= j < |s.log| && OwnOutcome(s.log, j, root)
      ensures j == i
    {
      assert ItemIs(TaskItem(root))(s.log[i]) > 0 && ItemIs(TaskItem(root))(s.log[j]) > 0;
      SumOfOneIsUnique(s.log, ItemIs(TaskItem(root)), i, j);
    }
  }

  lemma MemberUnplaced(
    tasks: seq<Root>, workers: nat, schedule: seq<Pick>, finished: seq<HashedFile>, i: nat)
    requires workers >= 1 && AllExited(Run(Start(tasks, workers), schedule))
    requires var s := Run(Start(tasks, workers), schedule);
             i < |s.log| && s.log[i].item.depth > 0 && DescendsFrom(s.log, s.log[i].item, s.log[i].item.Owner())
    ensures var s := Run(Start(tasks, workers), schedule);
            var root := s.log[i].item.Owner();
            !Marked(s, finished, root) <==> root in s.results.tainted
  {
    var s := Run(Start(tasks, workers), schedule);
    var root := s.log[i].item.Owner();
    RunInv(tasks, workers, schedule);
    DrainedWhenAllExited(tasks, workers, schedule);
    DepthZeroIsTask(s, tasks);
    FinishedMeans(s, root);
    assert Sound(s);
    MarkedMeans(s, finished, root);
    hide Run, Inv, IsZip, IsAppleDouble, ExtensionOf, Sum, Rows, LostNothing, PlacedKeys;
    MembersRootWasExpanded(s.log, s.log[i].item, root);
    var j :| 0 <= j < |s.log| && OwnOutcome(s.log, j, root) && s.log[j].outcome.ZipExpanded?;
    assert Produces(s.log[j].item, s.log[j].outcome);
    forall k | 0 <= k < |s.log| && OwnOutcome(s.log, k, root)
      ensures !s.log[k].outcome.SkippedAppleDouble?
    {
      assert Produces(s.log[k].item, s.log[k].outcome);
    }
  }

  /** A worker done with a zip takes its last member, hashes it and exits. */
  lemma LastMemberRuns(s: State, zip: Item, member: Item, file: HashedFile)
    requires s.workers == [Publishing(zip, [])] && s.queue == [member] && s.inFlight == 1
    requires member.depth > 0 && Produces(member, Hashed(file))
    ensures exists schedule: seq<Pick> ::
              var t := Run(s, schedule);
              && t.workers == [Exited] && t.results == s.results.(hashed := s.results.hashed + [file])
              && t.log == s.log + [Entry(member, Hashed(file))]
  {
    hide Effects, Produces, Run;
    var pick := Pick(0, Hashed(file));
    assert Effects(member, Hashed(file)) == [PushHashed(file)] by { HashedEffects(member, file); }
    RunNothing(s);
    RunSnoc(s, [], pick);
    var p1 := [] + [pick];
    assert Run(s, p1) == s.(inFlight := 0, workers := [AtTop]);
    RunSnoc(s, p1, pick);
    var p2 := p1 + [pick];
    assert Run(s, p2) == s.(inFlight := 0, queue := [], workers := [Popped(member)]);
    RunSnoc(s, p2, pick);
    var p3 := p2 + [pick];
    assert Run(s, p3) == s.(inFlight := 1, queue := [], workers := [Running(member)]);
    RunSnoc(s, p3, pick);
    var p4 := p3 + [pick];
    assert Run(s, p4) == s.(inFlight := 1, queue := [], workers := [Publishing(member, [PushHashed(file)])],
                            log := s.log + [Entry(member, Hashed(file))]);
    MemberPublished(Run(s, p4), member, file);
    var rest :| Run(Run(s, p4), rest).workers == [Exited]
                && Run(Run(s, p4), rest).results == s.results.(hashed := s.results.hashed + [file])
                && Run(Run(s, p4), rest).log == Run(s, p4).log;
    RunConcat(s, p4, rest);
  }

  lemma HashedEffects(member: Item, file: HashedFile)
    requires member.depth > 0
    ensures Effects(member, Hashed(file)) == [PushHashed(file)]
  {
  }

  lemma MemberPublished(s: State, member: Item, file: HashedFile)
    requires s.workers == [Publishing(member, [PushHashed(file)])] && s.queue == [] && s.inFlight == 1
    ensures exists schedule: seq<Pick> ::
              var t := Run(s, schedule);
              && t.workers == [Exited] && t.results == s.results.(hashed := s.results.hashed + [file])
              && t.log == s.log
  {
    hide Effects, Produces, Run;
    var pick := Pick(0, SkippedAppleDouble);
    RunNothing(s);
    RunSnoc(s, [], pick);
    var p1 := [] + [pick];
    var t := Run(s, p1);
    assert [PushHashed(file)][1..] == [] && Spawned(PushHashed(file)) == [] && s.queue + [] == s.queue;
    assert t.workers == [Publishing(member, [])] && t.queue == [] && t.inFlight == 1 && t.log == s.log;
    assert t.results == s.results.(hashed := s.results.hashed + [file]);
    RunSnoc(s, p1, pick);
    var p2 := p1 + [pick];
    assert Run(s, p2) == t.(inFlight := 0, workers := [AtTop]);
    RunSnoc(s, p2, pick);
    var p3 := p2 + [pick];
    assert Run(s, p3) == t.(inFlight := 0, workers := [SawEmpty]);
    RunSnoc(s, p3, pick);
    assert Run(s, p3 + [pick]) == t.(inFlight := 0, workers := [Exited]);
  }

  /** The run of a zip with one member, from start to exit. */
  lemma ZipOfOneRuns(root: Root, member: Item, file: HashedFile)
    requires IsZip(root.key) && !IsAppleDouble(root.key) && IsMember(TaskItem(root), member)
    requires Produces(member, Hashed(file))
    ensures exists schedule: seq<Pick> ::
              var t := Run(Start([root], 1), schedule);
              t.workers == [Exited] && t.results == NO_RESULTS.(finished := [root], hashed := [file])
  {
    assert member.depth == 1;
    hide IsZip, IsAppleDouble, Produces, Run, IsMember, Effects;
    FinishedBeforeItsMembersRun(root, member);
    var a: seq<Pick> :| Run(Start([root], 1), a) == ExpandedState(root, member);
    var s := ExpandedState(root, member);
    LastMemberRuns(s, TaskItem(root), member, file);
    var b: seq<Pick> :| Run(s, b).workers == [Exited] && Run(s, b).results == s.results.(hashed := [file]);
    RunConcat(Start([root], 1), a, b);
  }

  /** A run whose only file could not be placed, and whose zip is done all the same. */
  lemma UnplacedMemberIsForgotten(
    root: Root, member: Item, file: HashedFile,
    sanitize: string -> string, entries: Index, tree: Tree, fates: nat -> PlaceFate)
    requires IsZip(root.key) && !IsAppleDouble(root.key) && IsMember(TaskItem(root), member)
    requires Produces(member, Hashed(file)) && file.contentHash !in entries && !fates(0).Moved?
    ensures exists schedule: seq<Pick> ::
              var s := Run(Start([root], 1), schedule);
              && AllExited(s) && s.results.hashed == [file]
              && Placing(s, sanitize, entries, tree, fates).finished == []
              && Marked(s, [], root)
  {
    ZipOfOneRuns(root, member, file);
    var schedule: seq<Pick> :|
      var t := Run(Start([root], 1), schedule);
      t.workers == [Exited] && t.results == NO_RESULTS.(finished := [root], hashed := [file]);
    hide IsZip, IsAppleDouble, Produces, Run, Placing, IsMember, Rows, PlacedKeys;
    var t := Run(Start([root], 1), schedule);
    UnmovedFileIsUnfinished(t, file, sanitize, entries, tree, fates);
    MarkedMeans(t, [], root);
  }

  lemma UnmovedFileIsUnfinished(
    s: State, file: HashedFile, sanitize: string -> string, entries: Index, tree: Tree, fates: nat -> PlaceFate)
    requires s.results.hashed == [file] && file.contentHash !in entries && !fates(0).Moved?
    ensures Placing(s, sanitize, entries, tree, fates).finished == []
  {
    assert Init([file]) == [];
    assert InOrder([file]) == [file];
    PlaceAllUnfolds(sanitize, Opening(entries, tree), [file], fates);
    PlaceAllUnfolds(sanitize, Opening(entries, tree), [], fates);
  }
}
