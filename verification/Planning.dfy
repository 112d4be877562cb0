/**
 What a run sets out to do: the messages not yet delivered, cut into batches
 and interleaved over the identities (`email_import/mod.rs`,
 `email_import/manifest.rs`, `email_import/worker.rs`).
 */
module Planning {
  import opened Text
  import opened Counting
  import opened Chunking
  import opened LedgerFile
  import opened LedgerSeed
  import opened ImportQueue

  // ----- batches -----

  function SplitIntoBatches(uids: seq<nat>, batchSize: nat): seq<seq<nat>> {
    Chunks(uids, if batchSize == 0 then 1 else batchSize)
  }

  /** Every batch but the last is full; a batch size of zero counts as one. */
  lemma BatchesAreFull(uids: seq<nat>, batchSize: nat, i: nat)
    requires i < |SplitIntoBatches(uids, batchSize)|
    ensures var batch := SplitIntoBatches(uids, batchSize)[i];
            && 1 <= |batch|
            && (batchSize == 0 ==> |batch| == 1)
            && (batchSize > 0 ==> |batch| <= batchSize)
            && (i + 1 < |SplitIntoBatches(uids, batchSize)| && batchSize > 0 ==> |batch| == batchSize)
    ensures Flatten(SplitIntoBatches(uids, batchSize)) == uids
  {
    ChunksCover(uids, if batchSize == 0 then 1 else batchSize);
  }

  // ----- what is pending -----

  predicate IsLeast(m: nat, s: set<nat>) {
    m in s && forall x <- s :: m <= x
  }

  lemma {:induction false} LeastExists(s: set<nat>) returns (m: nat)
    requires s != {}
    ensures IsLeast(m, s)
    decreases |s|
  {
    m :| m in s;
    var rest := s - {m};
    if rest == {} {
      assert s == {m};
    } else {
      var b := LeastExists(rest);
      LeastOfBoth(m, b, s);
      m := if m <= b then m else b;
    }
  }

  lemma LeastOfBoth(a: nat, b: nat, s: set<nat>)
    requires a in s && IsLeast(b, s - {a})
    ensures IsLeast(if a <= b then a else b, s)
  {
    forall x <- s ensures (if a <= b then a else b) <= x {
      assert x == a || x in s - {a};
    }
  }

  /** A set of UIDs in increasing order. */
  function Ascending(s: set<nat>): (r: seq<nat>)
  {
    if s == {} then []
    else
      assert exists m :: IsLeast(m, s) by { var m := LeastExists(s); }
      var m :| m in s && IsLeast(m, s);
      [m] + Ascending(s - {m})
  }

  lemma {:induction false} AscendingLists(s: set<nat>, uid: nat)
    ensures Occurrences(Ascending(s), uid) == if uid in s then 1 else 0
    decreases |s|
  {
    if s != {} {
      var r := Ascending(s);
      AscendingLists(s - {r[0]}, uid);
      SumHead(r, Is(uid));
      assert r[1..] == Ascending(s - {r[0]});
    }
  }

  lemma {:induction false} AscendingHas(s: set<nat>)
    ensures forall x <- Ascending(s) :: x in s
    decreases |s|
  {
    if s != {} {
      AscendingHas(s - {Ascending(s)[0]});
    }
  }

  lemma {:induction false} AscendingSorts(s: set<nat>)
    ensures forall i, j | 0 <= i < j < |Ascending(s)| :: Ascending(s)[i] < Ascending(s)[j]
    decreases |s|
  {
    if s != {} {
      var r := Ascending(s);
      var rest := s - {r[0]};
      AscendingSorts(rest);
      AscendingHas(rest);
      assert r == [r[0]] + Ascending(rest);
      forall j | 0 < j < |r| ensures r[0] < r[j] {
        assert r[j] == Ascending(rest)[j - 1] && r[j] in rest;
      }
    }
  }

  /** The UIDs ingested from `mailbox` in its current generation. */
  function IngestedUids(entries: Entries, mailbox: string, uidvalidity: nat): set<nat> {
    set k | k in entries && k.mailbox == mailbox && k.uidvalidity == uidvalidity :: k.uid
  }

  function MissingUids(server: set<nat>, local: set<nat>): seq<nat> {
    Ascending(server - local)
  }

  function BatchesOf(identity: nat, m: MailboxState, chunks: seq<seq<nat>>): (r: seq<Batch>)
    ensures |r| == |chunks|
    ensures forall i | 0 <= i < |r| :: r[i] == Batch(identity, m.mailbox.name, m.mailbox.uidvalidity, chunks[i])
  {
    seq(|chunks|, i requires 0 <= i < |chunks| => Batch(identity, m.mailbox.name, m.mailbox.uidvalidity, chunks[i]))
  }

  function MailboxBatches(identity: nat, m: MailboxState, entries: Entries, batchSize: nat): seq<Batch> {
    BatchesOf(identity, m,
              SplitIntoBatches(
                  MissingUids(m.serverUids, IngestedUids(entries, m.mailbox.name, m.mailbox.uidvalidity)), batchSize))
  }

  /** One identity's batches, mailbox by mailbox. */
  function PlanIdentity(identity: nat, states: seq<MailboxState>, entries: Entries, batchSize: nat): seq<Batch> {
    if states == [] then []
    else PlanIdentity(identity, Init(states), entries, batchSize)
         + MailboxBatches(identity, Last(states), entries, batchSize)
  }

  /** How often a batch carries a message of an identity. */
  function Carries(identity: nat, key: Key): Batch -> nat {
    (b: Batch) =>
      if b.identity == identity && b.mailbox == key.mailbox && b.uidvalidity == key.uidvalidity
      then Occurrences(b.uids, key.uid) else 0
  }

  lemma {:induction false} BatchesCarry(identity: nat, m: MailboxState, chunks: seq<seq<nat>>, key: Key)
    ensures Sum(BatchesOf(identity, m, chunks), Carries(identity, key))
         == if m.mailbox.name == key.mailbox && m.mailbox.uidvalidity == key.uidvalidity
            then Occurrences(Flatten(chunks), key.uid) else 0
  {
    hide Occurrences;
    if chunks == [] {
      assert Occurrences<nat>([], key.uid) == 0 by { NoOccurrences<nat>(key.uid); }
    } else {
      BatchesCarry(identity, m, Init(chunks), key);
      assert Init(BatchesOf(identity, m, chunks)) == BatchesOf(identity, m, Init(chunks));
      OccurrencesConcat(Flatten(Init(chunks)), Last(chunks), key.uid);
    }
  }

  lemma NoOccurrences<T>(x: T)
    ensures Occurrences([], x) == 0
  {
  }

  lemma OccurrencesConcat<T>(a: seq<T>, b: seq<T>, x: T)
    ensures Occurrences(a + b, x) == Occurrences(a, x) + Occurrences(b, x)
  {
    SumConcat(a, b, Is(x));
  }

  predicate Names(m: MailboxState, key: Key) {
    m.mailbox.name == key.mailbox && m.mailbox.uidvalidity == key.uidvalidity
  }

  lemma MailboxPlanIsExact(identity: nat, m: MailboxState, entries: Entries, batchSize: nat, key: Key)
    ensures Sum(MailboxBatches(identity, m, entries, batchSize), Carries(identity, key))
         == if Names(m, key) && key.uid in m.serverUids && key !in entries then 1 else 0
  {
    hide Sum, Occurrences, Ascending, Chunks, BatchesOf;
    var done := IngestedUids(entries, m.mailbox.name, m.mailbox.uidvalidity);
    var missing := MissingUids(m.serverUids, done);
    BatchesCarry(identity, m, SplitIntoBatches(missing, batchSize), key);
    ChunksCover(missing, if batchSize == 0 then 1 else batchSize);
    AscendingLists(m.serverUids - done, key.uid);
    if Names(m, key) {
      assert key.uid in done <==> key in entries by {
        if key.uid in done {
          var k :| k in entries && k.mailbox == m.mailbox.name &&
              k.uidvalidity == m.mailbox.uidvalidity && k.uid == key.uid;
          assert k == key;
        }
      }
    }
  }

  ghost predicate Pending(states: seq<MailboxState>, entries: Entries, key: Key) {
    key !in entries && exists i :: 0 <= i < |states| && Names(states[i], key) && key.uid in states[i].serverUids
  }

  /** What is planned is what the durability argument calls pending. */
  lemma PendingIsServerMinusLedger(states: seq<MailboxState>, entries: Entries, key: Key)
    ensures Pending(states, entries, key) <==> key in ServerKeys(states) - entries.Keys
  {
    if key in ServerKeys(states) {
      var m, uid :| m in states && uid in m.serverUids && key == Key(m.mailbox.name, m.mailbox.uidvalidity, uid);
      var i :| 0 <= i < |states| && states[i] == m;
      assert Names(states[i], key);
    }
  }

  /** The server lists each mailbox once. */
  ghost predicate DistinctMailboxes(states: seq<MailboxState>) {
    forall i, j | 0 <= i < j < |states| :: states[i].mailbox.name != states[j].mailbox.name
  }

  ghost predicate HasPending(m: MailboxState, entries: Entries, key: Key) {
    Names(m, key) && key.uid in m.serverUids && key !in entries
  }

  lemma PendingSnoc(states: seq<MailboxState>, entries: Entries, key: Key)
    requires states != [] && DistinctMailboxes(states)
    ensures DistinctMailboxes(Init(states))
    ensures Pending(states, entries, key) <==>
        Pending(Init(states), entries, key) || HasPending(Last(states), entries, key)
    ensures !(Pending(Init(states), entries, key) && HasPending(Last(states), entries, key))
  {
    var init := Init(states);
    assert forall i | 0 <= i < |init| :: init[i] == states[i];
    if Pending(states, entries, key) {
      var i :| 0 <= i < |states| && Names(states[i], key) && key.uid in states[i].serverUids;
      if i < |init| { assert Names(init[i], key); }
    }
    if Pending(init, entries, key) {
      var i :| 0 <= i < |init| && Names(init[i], key) && key.uid in init[i].serverUids;
      assert Names(states[i], key);
      assert states[i].mailbox.name != states[|states| - 1].mailbox.name;
    }
    if HasPending(Last(states), entries, key) {
      assert Names(states[|states| - 1], key);
    }
  }

  /** An identity's batches carry each undelivered message once, and nothing else. */
  lemma {:induction false} IdentityPlanIsExact(
    identity: nat, states: seq<MailboxState>, entries: Entries, batchSize: nat, key: Key)
    requires DistinctMailboxes(states)
    ensures Sum(PlanIdentity(identity, states, entries, batchSize), Carries(identity, key))
         == if Pending(states, entries, key) then 1 else 0
  {
    if states == [] {
      assert !Pending(states, entries, key);
    } else {
      PendingSnoc(states, entries, key);
      hide Sum, Occurrences, MailboxBatches, Carries, Pending, DistinctMailboxes;
      IdentityPlanIsExact(identity, Init(states), entries, batchSize, key);
      MailboxPlanIsExact(identity, Last(states), entries, batchSize, key);
      SumConcat(PlanIdentity(identity, Init(states), entries, batchSize),
                MailboxBatches(identity, Last(states), entries, batchSize), Carries(identity, key));
    }
  }

  // ----- interleaving -----

  function Heads<T>(per: seq<seq<T>>): seq<T> {
    if per == [] then [] else Heads(Init(per)) + if Last(per) == [] then [] else [Last(per)[0]]
  }

  function Tails<T>(per: seq<seq<T>>): (r: seq<seq<T>>)
    ensures |r| == |per|
    ensures forall i | 0 <= i < |r| :: r[i] == if per[i] == [] then [] else per[i][1..]
  {
    if per == [] then [] else Tails(Init(per)) + [if Last(per) == [] then [] else Last(per)[1..]]
  }

  function TotalLength<T>(per: seq<seq<T>>): nat {
    if per == [] then 0 else TotalLength(Init(per)) + |Last(per)|
  }

  lemma {:induction false} TailsAreShorter<T>(per: seq<seq<T>>)
    ensures TotalLength(per) == |Heads(per)| + TotalLength(Tails(per))
  {
    if per != [] {
      TailsAreShorter(Init(per));
      assert Init(Tails(per)) == Tails(Init(per));
    }
  }

  /** Rounds over the identities, one batch from each that has any left. */
  function RoundRobin<T>(per: seq<seq<T>>): seq<T>
    decreases TotalLength(per)
  {
    TailsAreShorter(per);
    if Heads(per) == [] then [] else Heads(per) + RoundRobin(Tails(per))
  }

  lemma HeadsSnoc<T>(per: seq<seq<T>>, i: nat)
    requires i < |per|
    ensures Heads(per[..i + 1]) == Heads(per[..i]) + if per[i] == [] then [] else [per[i][0]]
  {
    assert Init(per[..i + 1]) == per[..i];
  }

  lemma RoundRobinUnfolds<T>(per: seq<seq<T>>)
    ensures RoundRobin(per) == Heads(per) + RoundRobin(Tails(per))
  {
    if Heads(per) == [] {
      TailsOfEmpty(per);
    }
  }

  /** The queue a run starts from. */
  method Interleave(batches: seq<seq<Batch>>) returns (queue: seq<Batch>)
    ensures queue == RoundRobin(batches)
  {
    hide Heads, RoundRobin, TotalLength;
    var rest := batches;
    queue := [];
    var anyLeft := true;
    while anyLeft
      invariant |rest| == |batches|
      invariant queue + RoundRobin(rest) == RoundRobin(batches)
      invariant !anyLeft ==> RoundRobin(rest) == []
      decreases TotalLength(rest), anyLeft
    {
      ghost var round, before := rest, queue;
      anyLeft := false;
      assert Heads(round[..0]) == [] by { NoHeads(round); }
      for index := 0 to |batches|
        invariant |rest| == |batches|
        invariant queue == before + Heads(round[..index])
        invariant anyLeft <==> Heads(round[..index]) != []
        invariant forall i | 0 <= i < index :: rest[i] == Tails(round)[i]
        invariant forall i | index <= i < |rest| :: rest[i] == round[i]
      {
        HeadsSnoc(round, index);
        if rest[index] != [] {
          queue := queue + [rest[index][0]];
          rest := rest[index := rest[index][1..]];
          anyLeft := true;
        }
      }
      assert round[..|batches|] == round;
      assert rest == Tails(round);
      TailsAreShorter(round);
      RoundRobinUnfolds(round);
      if !anyLeft {
        TailsOfEmpty(round);
      }
    }
  }

  lemma NoHeads<T>(per: seq<seq<T>>)
    ensures Heads(per[..0]) == []
  {
  }

  lemma {:induction false} TailsOfEmpty<T>(per: seq<seq<T>>)
    requires Heads(per) == []
    ensures Tails(per) == per && RoundRobin(per) == []
    ensures forall i | 0 <= i < |per| :: per[i] == []
  {
    if per != [] {
      TailsOfEmpty(Init(per));
      assert per == Init(per) + [Last(per)];
    }
  }

  // ----- what interleaving keeps -----

  function OfIdentity(j: nat): Batch -> nat {
    (b: Batch) => if b.identity == j then 1 else 0
  }

  ghost predicate Tagged(per: seq<seq<Batch>>) {
    forall i | 0 <= i < |per| :: forall b <- per[i] :: b.identity == i
  }

  function SumAll(per: seq<seq<Batch>>, f: Batch -> nat): nat {
    if per == [] then 0 else SumAll(Init(per), f) + Sum(Last(per), f)
  }

  lemma {:induction false} HeadsAndTailsSum(per: seq<seq<Batch>>, f: Batch -> nat)
    ensures SumAll(per, f) == Sum(Heads(per), f) + SumAll(Tails(per), f)
  {
    if per != [] {
      HeadsAndTailsSum(Init(per), f);
      assert Init(Tails(per)) == Tails(Init(per));
      if Last(per) != [] {
        SumHead(Last(per), f);
        SumAppend(Heads(Init(per)), Last(per)[0], f);
      } else {
        assert Heads(Init(per)) + [] == Heads(Init(per));
      }
    }
  }

  lemma {:induction false} NothingToSum(per: seq<seq<Batch>>, f: Batch -> nat)
    requires forall i | 0 <= i < |per| :: per[i] == []
    ensures SumAll(per, f) == 0
  {
    if per != [] {
      NothingToSum(Init(per), f);
    }
  }

  /** Interleaving loses and repeats nothing: every sum over the batches is kept. */
  lemma {:induction false} InterleavingPermutes(per: seq<seq<Batch>>, f: Batch -> nat)
    ensures Sum(RoundRobin(per), f) == SumAll(per, f)
    decreases TotalLength(per)
  {
    hide Sum, SumAll, Heads;
    TailsAreShorter(per);
    if Heads(per) == [] {
      TailsOfEmpty(per);
      NothingToSum(per, f);
      assert Sum([], f) == 0 by { SumNothing(f); }
    } else {
      InterleavingPermutes(Tails(per), f);
      HeadsAndTailsSum(per, f);
      SumConcat(Heads(per), RoundRobin(Tails(per)), f);
    }
  }

  lemma SumNothing<T>(f: T -> nat)
    ensures Sum([], f) == 0
  {
  }

  /** Where the interleaving puts an identity's batch number `n`. */
  function Position(per: seq<seq<Batch>>, i: nat, n: nat): nat
    requires i < |per|
    decreases n
  {
    if n == 0 then |Heads(per[..i])| else |Heads(per)| + Position(Tails(per), i, n - 1)
  }

  function Least(a: nat, b: nat): nat {
    if a <= b then a else b
  }

  lemma {:induction false} HeadsSplit<T>(per: seq<seq<T>>, i: nat)
    requires i <= |per|
    ensures |Heads(per[..i])| <= |Heads(per)| && Heads(per)[..|Heads(per[..i])|] == Heads(per[..i])
    ensures i < |per| && per[i] != [] ==> |Heads(per[..i])| < |Heads(per)| && Heads(per)[|Heads(per[..i])|] == per[i][0]
    decreases |per| - i
  {
    if i == |per| {
      assert per[..i] == per;
    } else {
      HeadsSplit(per, i + 1);
      assert Init(per[..i + 1]) == per[..i];
    }
  }

  lemma {:induction false} HeadsCount(per: seq<seq<Batch>>, i: nat, j: nat)
    requires i <= |per| && j < |per| && Tagged(per)
    ensures Sum(Heads(per[..i]), OfIdentity(j)) == if j < i && per[j] != [] then 1 else 0
  {
    hide Sum, Heads;
    if i == 0 {
      NoHeads(per);
      SumNothing(OfIdentity(j));
    } else {
      HeadsCount(per, i - 1, j);
      HeadsSnoc(per, i - 1);
      if per[i - 1] != [] {
        assert per[i - 1][0] in per[i - 1];
        SumAppend(Heads(per[..i - 1]), per[i - 1][0], OfIdentity(j));
      } else {
        assert Heads(per[..i - 1]) + [] == Heads(per[..i - 1]);
      }
    }
  }

  lemma PrefixPastFirst<T>(a: seq<T>, b: seq<T>, p: nat)
    requires p <= |b|
    ensures (a + b)[..|a| + p] == a + b[..p]
  {
  }

  lemma PrefixWithinFirst<T>(a: seq<T>, b: seq<T>, p: nat)
    requires p <= |a|
    ensures (a + b)[..p] == a[..p]
  {
  }

  lemma SumSlice<T>(xs: seq<T>, a: nat, b: nat, f: T -> nat)
    requires a <= b <= |xs|
    ensures Sum(xs[..b], f) == Sum(xs[..a], f) + Sum(xs[a..b], f)
  {
    SumConcat(xs[..a], xs[a..b], f);
    assert xs[..a] + xs[a..b] == xs[..b];
  }

  lemma PositionLater(per: seq<seq<Batch>>, i: nat, n: nat)
    requires i < |per| && n > 0
    ensures Position(per, i, n) == |Heads(per)| + Position(Tails(per), i, n - 1)
  {
  }

  lemma PositionFirst(per: seq<seq<Batch>>, i: nat)
    requires i < |per|
    ensures Position(per, i, 0) == |Heads(per[..i])|
  {
  }

  lemma TailsAreTagged(per: seq<seq<Batch>>)
    requires Tagged(per)
    ensures Tagged(Tails(per))
  {
  }

  /** Each identity's batches appear at increasing positions, in their order. */
  lemma {:induction false} InterleavingKeepsOrder(per: seq<seq<Batch>>, i: nat, n: nat)
    requires i < |per| && n < |per[i]|
    ensures Position(per, i, n) < |RoundRobin(per)| && RoundRobin(per)[Position(per, i, n)] == per[i][n]
    ensures n + 1 < |per[i]| ==> Position(per, i, n) < Position(per, i, n + 1)
    decreases n
  {
    hide Heads, RoundRobin, Position;
    HeadsSplit(per, i);
    RoundRobinUnfolds(per);
    PositionLater(per, i, n + 1);
    if n == 0 {
      PositionFirst(per, i);
    } else {
      PositionLater(per, i, n);
      InterleavingKeepsOrder(Tails(per), i, n - 1);
    }
  }

  /** Batch `n` of identity `i` is preceded by exactly `n` of each other
      identity, or one more of those listed before it, or all of them where
      there are fewer. */
  lemma {:induction false} InterleavingIsFair(per: seq<seq<Batch>>, i: nat, n: nat, j: nat)
    requires i < |per| && n < |per[i]| && j < |per| && Tagged(per)
    ensures Position(per, i, n) <= |RoundRobin(per)|
    ensures Sum(RoundRobin(per)[..Position(per, i, n)], OfIdentity(j))
         == Least(|per[j]|, if j < i then n + 1 else n)
    decreases n
  {
    hide Sum, Heads, RoundRobin, OfIdentity, Position;
    var heads, later := Heads(per), RoundRobin(Tails(per));
    RoundRobinUnfolds(per);
    if n == 0 {
      HeadsSplit(per, i);
      HeadsCount(per, i, j);
      PositionFirst(per, i);
      PrefixWithinFirst(heads, later, Position(per, i, 0));
    } else {
      TailsAreTagged(per);
      HeadsCount(per, |per|, j);
      assert per[..|per|] == per;
      hide Tagged;
      PositionLater(per, i, n);
      InterleavingIsFair(Tails(per), i, n - 1, j);
      var p := Position(Tails(per), i, n - 1);
      PrefixPastFirst(heads, later, p);
      SumConcat(heads, later[..p], OfIdentity(j));
    }
  }

  /** Between two consecutive batches of one identity there is at most one of any other. */
  lemma AtMostOneBetween(per: seq<seq<Batch>>, i: nat, n: nat, j: nat)
    requires i < |per| && n + 1 < |per[i]| && j < |per| && Tagged(per)
    ensures Position(per, i, n) < Position(per, i, n + 1) <= |RoundRobin(per)|
    ensures Sum(RoundRobin(per)[Position(per, i, n)..Position(per, i, n + 1)], OfIdentity(j)) <= 1
  {
    hide Sum, RoundRobin, Position, OfIdentity;
    InterleavingKeepsOrder(per, i, n);
    InterleavingIsFair(per, i, n, j);
    InterleavingIsFair(per, i, n + 1, j);
    hide Tagged;
    SumSlice(RoundRobin(per), Position(per, i, n), Position(per, i, n + 1), OfIdentity(j));
  }

  // ----- the whole plan -----

  datatype Identity = Identity(states: seq<MailboxState>, entries: Entries)

  function PlanAll(identities: seq<Identity>, batchSize: nat): (r: seq<seq<Batch>>)
    ensures |r| == |identities|
    ensures forall i | 0 <= i < |r| :: r[i] == PlanIdentity(i, identities[i].states, identities[i].entries, batchSize)
  {
    seq(|identities|, i requires 0 <= i < |identities| =>
      PlanIdentity(i, identities[i].states, identities[i].entries, batchSize))
  }

  lemma {:induction false} PlanIsTagged(identity: nat, states: seq<MailboxState>, entries: Entries, batchSize: nat)
    ensures forall b <- PlanIdentity(identity, states, entries, batchSize) ::
              b.identity == identity && 1 <= |b.uids| <= (if batchSize == 0 then 1 else batchSize)
  {
    if states != [] {
      PlanIsTagged(identity, Init(states), entries, batchSize);
    }
  }

  lemma {:induction false} OnlyOwnIdentityCarries(batches: seq<Batch>, identity: nat, key: Key)
    requires forall b <- batches :: b.identity != identity
    ensures Sum(batches, Carries(identity, key)) == 0
  {
    SumZero(batches, Carries(identity, key));
  }

  lemma {:induction false} OthersCarryNothing(per: seq<seq<Batch>>, identity: nat, key: Key)
    requires Tagged(per)
    ensures SumAll(per, Carries(identity, key))
         == if identity < |per| then Sum(per[identity], Carries(identity, key)) else 0
  {
    hide Sum, Carries;
    if per != [] {
      assert forall i | 0 <= i < |per| - 1 :: Init(per)[i] == per[i];
      OthersCarryNothing(Init(per), identity, key);
      if identity != |per| - 1 {
        OnlyOwnIdentityCarries(Last(per), identity, key);
      }
    }
  }

  /** The initial queue carries each message of each identity that the server
      has and the ledger does not exactly once, and carries nothing else. */
  lemma PlanIsExact(identities: seq<Identity>, batchSize: nat, identity: nat, key: Key)
    requires forall i | 0 <= i < |identities| :: DistinctMailboxes(identities[i].states)
    ensures Sum(RoundRobin(PlanAll(identities, batchSize)), Carries(identity, key))
         == if identity < |identities| && Pending(identities[identity].states, identities[identity].entries, key)
            then 1 else 0
  {
    hide Sum, Carries, RoundRobin, PlanIdentity, Pending;
    var per := PlanAll(identities, batchSize);
    forall i | 0 <= i < |per|
      ensures forall b: Batch | b in per[i] :: b.identity == i
    {
      PlanIsTagged(i, identities[i].states, identities[i].entries, batchSize);
    }
    InterleavingPermutes(per, Carries(identity, key));
    OthersCarryNothing(per, identity, key);
    if identity < |identities| {
      IdentityPlanIsExact(identity, identities[identity].states, identities[identity].entries, batchSize, key);
    }
  }

  /** At least one worker, whatever the flags and however little there is to do. */
  function WorkerCount(maxConnections: nat, identities: nat, batches: nat): (workers: nat)
    ensures 1 <= workers && (workers <= batches || workers == 1)
  {
    var wanted := maxConnections * (if identities == 0 then 1 else identities);
    var atLeastOne := if wanted == 0 then 1 else wanted;
    Least(atLeastOne, if batches == 0 then 1 else batches)
  }

  /** As many workers as the flags ask for, unless there are fewer batches. */
  lemma WorkersAreEnough(maxConnections: nat, identities: nat, batches: nat)
    requires maxConnections >= 1 && identities >= 1 && batches >= 1
    ensures var workers := WorkerCount(maxConnections, identities, batches);
            && workers <= batches && workers <= maxConnections * identities
            && (workers == batches || workers == maxConnections * identities)
  {
    assert maxConnections * identities >= 1 by {
      assert maxConnections * identities == (maxConnections - 1) * identities + identities;
    }
  }

  /** From plan to summary: once every worker of a run has exited, each pending
      message has been settled in exactly one batch, and no other message has. */
  lemma EveryPendingMessageIsSettledOnce(
    identities: seq<Identity>, batchSize: nat, workers: nat, schedule: seq<Pick>, identity: nat, key: Key)
    requires forall i | 0 <= i < |identities| :: DistinctMailboxes(identities[i].states)
    requires workers >= 1
    requires AllExited(Run(Start(RoundRobin(PlanAll(identities, batchSize)), workers), schedule))
    ensures var s := Run(Start(RoundRobin(PlanAll(identities, batchSize)), workers), schedule);
            Sum(s.closed, Carries(identity, key))
              == if identity < |identities| && Pending(identities[identity].states, identities[identity].entries, key)
                 then 1 else 0
  {
    hide Run, Start, Sum, RoundRobin, PlanAll, Pending, AllExited, DistinctMailboxes, Occurrences;
    var batches := RoundRobin(PlanAll(identities, batchSize));
    DrainedAndAccounted(batches, workers, schedule);
    SumOfPermutation(Run(Start(batches, workers), schedule).closed, batches, Carries(identity, key));
    PlanIsExact(identities, batchSize, identity, key);
  }
}
