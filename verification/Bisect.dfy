/**
 Counting attachments although some messages cannot be parsed
 (`email_scan/bodystructure.rs`): a failed batch is halved until the messages
 at fault stand alone.
 */
module Bisect {
  import opened Wrappers
  import opened Text
  import opened Counting
  import opened Chunking

  const FETCH_BATCH := 50

  /** The server's answer to attempt number `n` at a batch. It may depend on
      both, so the same batch can fail once and work the next time. */
  type Fetch = (nat, seq<nat>) -> Option<nat>

  datatype BisectOutcome = Fetched(attachments: nat) | Poisoned | Retry(left: seq<nat>, right: seq<nat>)

  function BisectStep(batch: seq<nat>, result: Option<nat>): (r: BisectOutcome)
    ensures r.Retry? ==> r.left + r.right == batch && r.left != [] && r.right != []
    ensures r.Retry? ==> |r.left| <= |r.right| <= |r.left| + 1
    ensures r.Poisoned? ==> |batch| <= 1
  {
    match result
    case Some(attachments) => Fetched(attachments)
    case None =>
      if |batch| <= 1 then Poisoned
      else Retry(batch[..|batch| / 2], batch[|batch| / 2..])
  }

  /** What the mailbox really holds. */
  datatype Mail = Mail(poisoned: set<nat>, attachments: map<nat, nat>)

  function Parsed(mail: Mail): nat -> nat {
    (uid: nat) => if uid in mail.poisoned || uid !in mail.attachments then 0 else mail.attachments[uid]
  }

  function Unparsed(mail: Mail): nat -> nat {
    (uid: nat) => if uid in mail.poisoned then 1 else 0
  }

  /** A batch fails exactly when it holds a poisoned message, and is counted right otherwise. */
  ghost predicate Faithful(fetch: Fetch, mail: Mail) {
    forall n: nat, batch ::
      fetch(n, batch) == if Sum(batch, Unparsed(mail)) > 0 then None else Some(Sum(batch, Parsed(mail)))
  }

  /** The UIDs on the work stack, in the order they will be tried. */
  function Stacked(work: seq<seq<nat>>): seq<nat> {
    if work == [] then [] else Last(work) + Stacked(Init(work))
  }

  /** At most this many attempts for the work stack. */
  function Attempts(work: seq<seq<nat>>): nat {
    if work == [] then 0 else Attempts(Init(work)) + if Last(work) == [] then 1 else 2 * |Last(work)| - 1
  }

  function Reversed<T>(xs: seq<T>): (r: seq<T>)
    ensures |r| == |xs|
  {
    if xs == [] then [] else [Last(xs)] + Reversed(Init(xs))
  }

  lemma StackedSnoc(work: seq<seq<nat>>, batch: seq<nat>)
    ensures Stacked(work + [batch]) == batch + Stacked(work)
    ensures Attempts(work + [batch]) == Attempts(work) + if batch == [] then 1 else 2 * |batch| - 1
  {
    assert Init(work + [batch]) == work;
  }

  lemma {:induction false} StackedConcat(a: seq<seq<nat>>, b: seq<seq<nat>>)
    ensures Stacked(a + b) == Stacked(b) + Stacked(a)
    ensures Attempts(a + b) == Attempts(a) + Attempts(b)
    decreases |b|
  {
    hide Stacked, Attempts;
    NothingStacked();
    if b == [] {
      assert a + b == a;
    } else {
      StackedConcat(a, Init(b));
      StackedSnoc(a + Init(b), Last(b));
      StackedSnoc(Init(b), Last(b));
      assert a + Init(b) + [Last(b)] == a + b;
      assert Init(b) + [Last(b)] == b;
    }
  }

  lemma {:induction false} ReversedStack(chunks: seq<seq<nat>>)
    requires forall i | 0 <= i < |chunks| :: chunks[i] != []
    ensures Stacked(Reversed(chunks)) == Flatten(chunks)
    ensures forall i | 0 <= i < |chunks| :: Reversed(chunks)[i] != []
    ensures Attempts(Reversed(chunks)) <= 2 * |Flatten(chunks)|
  {
    if chunks != [] {
      ReversedStack(Init(chunks));
      StackedConcat([Last(chunks)], Reversed(Init(chunks)));
      StackedSnoc([], Last(chunks));
      assert [] + [Last(chunks)] == [Last(chunks)];
    }
  }

  datatype Settled = Settled(batch: seq<nat>, result: Option<nat>)

  function Batches(settled: seq<Settled>): seq<nat> {
    if settled == [] then [] else Batches(Init(settled)) + Last(settled).batch
  }

  function Counted(s: Settled): nat {
    if s.result.Some? then s.result.value else 0
  }

  function Lost(s: Settled): nat {
    if s.result.None? then |s.batch| else 0
  }

  ghost predicate NeverFails(fetch: Fetch) {
    forall n: nat, batch :: fetch(n, batch).Some?
  }

  lemma AnswerOf(fetch: Fetch, n: nat, batch: seq<nat>)
    ensures NeverFails(fetch) ==> fetch(n, batch).Some?
  {
  }

  lemma {:induction false} ChunkCount(uids: seq<nat>)
    ensures |Chunks(uids, FETCH_BATCH)| == (|uids| + 49) / 50
    decreases |uids|
  {
    if |uids| > 50 {
      ChunkCount(uids[50..]);
    }
  }

  /** Stops for any behaviour of the server, having settled every UID once, in
      order, and having given up on single messages only. Against a faithful
      server both counts are exact. */
  method CountNewAttachments(uids: seq<nat>, fetch: Fetch, ghost mail: Mail)
    returns (attachments: nat, unparsed: nat, attempts: nat, ghost settled: seq<Settled>)
    ensures Batches(settled) == uids
    ensures forall s <- settled :: s.result.None? ==> |s.batch| <= 1
    ensures attachments == Sum(settled, Counted) && unparsed == Sum(settled, Lost)
    ensures attempts <= 2 * |uids| && unparsed <= |uids|
    ensures NeverFails(fetch) ==> attempts == (|uids| + 49) / 50
    ensures Faithful(fetch, mail) ==> attachments == Sum(uids, Parsed(mail)) && unparsed == Sum(uids, Unparsed(mail))
  {
    hide Stacked, Attempts, Sum, Chunks, Batches, Faithful, Accounts, NeverFails;
    attachments, unparsed, attempts, settled := 0, 0, 0, [];
    var work := Reversed(Chunks(uids, FETCH_BATCH));
    ReversedStack(Chunks(uids, FETCH_BATCH));
    ChunkCount(uids);
    ChunksCover(uids, FETCH_BATCH);
    NothingSettled(fetch, mail);
    while work != []
      invariant forall i | 0 <= i < |work| :: work[i] != []
      invariant Batches(settled) + Stacked(work) == uids
      invariant Accounts(settled, fetch, mail, attachments, unparsed)
      invariant attempts + Attempts(work) <= 2 * |uids|
      invariant NeverFails(fetch) ==> attempts + |work| == (|uids| + 49) / 50
      decreases Attempts(work)
    {
      var batch, rest := Last(work), Init(work);
      assert work == rest + [batch];
      StackedSnoc(rest, batch);
      work := rest;
      var result := fetch(attempts, batch);
      AnswerOf(fetch, attempts, batch);
      attempts := attempts + 1;
      var outcome := BisectStep(batch, result);
      if outcome.Retry? {
        StackedSnoc(work, outcome.right);
        StackedSnoc(work + [outcome.right], outcome.left);
        work := work + [outcome.right] + [outcome.left];
      } else {
        SettleOne(settled, Settled(batch, result), fetch, attempts - 1, mail, attachments, unparsed);
        settled := settled + [Settled(batch, result)];
        if outcome.Fetched? {
          attachments := attachments + outcome.attachments;
        } else {
          unparsed := unparsed + |batch|;
        }
      }
    }
    NothingStacked();
    AccountsAre(settled, fetch, mail, attachments, unparsed);
  }

  /** The counts stand for the batches settled so far. */
  ghost predicate Accounts(settled: seq<Settled>, fetch: Fetch, mail: Mail, attachments: nat, unparsed: nat) {
    && (forall s <- settled :: s.result.None? ==> |s.batch| <= 1)
    && attachments == Sum(settled, Counted) && unparsed == Sum(settled, Lost)
    && unparsed <= |Batches(settled)|
    && (Faithful(fetch, mail) ==>
          && attachments == Sum(Batches(settled), Parsed(mail))
          && unparsed == Sum(Batches(settled), Unparsed(mail)))
  }

  lemma AccountsAre(settled: seq<Settled>, fetch: Fetch, mail: Mail, attachments: nat, unparsed: nat)
    requires Accounts(settled, fetch, mail, attachments, unparsed)
    ensures forall s <- settled :: s.result.None? ==> |s.batch| <= 1
    ensures attachments == Sum(settled, Counted) && unparsed == Sum(settled, Lost) && unparsed <= |Batches(settled)|
    ensures Faithful(fetch, mail) ==>
              && attachments == Sum(Batches(settled), Parsed(mail))
              && unparsed == Sum(Batches(settled), Unparsed(mail))
  {
    hide Sum, Faithful;
  }

  lemma NothingStacked()
    ensures Stacked([]) == [] && Attempts([]) == 0
  {
  }

  lemma NothingSettled(fetch: Fetch, mail: Mail)
    ensures Batches([]) == [] && Accounts([], fetch, mail, 0, 0)
  {
    hide Faithful;
  }

  lemma SettleOne(settled: seq<Settled>, s: Settled, fetch: Fetch, n: nat, mail: Mail, attachments: nat, unparsed: nat)
    requires s.result == fetch(n, s.batch) && (s.result.None? ==> |s.batch| == 1)
    requires Accounts(settled, fetch, mail, attachments, unparsed)
    ensures Batches(settled + [s]) == Batches(settled) + s.batch
    ensures Accounts(settled + [s], fetch, mail, attachments + Counted(s), unparsed + Lost(s))
  {
    hide Sum;
    var more := settled + [s];
    assert Init(more) == settled;
    SumAppend(settled, s, Counted);
    SumAppend(settled, s, Lost);
    SumConcat(Batches(settled), s.batch, Parsed(mail));
    SumConcat(Batches(settled), s.batch, Unparsed(mail));
    if Faithful(fetch, mail) {
      FaithfulSettles(s, fetch, n, mail);
    }
  }

  /** A batch's entry in the log says what its messages hold. */
  lemma FaithfulSettles(s: Settled, fetch: Fetch, n: nat, mail: Mail)
    requires s.result == fetch(n, s.batch) && (s.result.None? ==> |s.batch| == 1) && Faithful(fetch, mail)
    ensures Counted(s) == Sum(s.batch, Parsed(mail)) && Lost(s) == Sum(s.batch, Unparsed(mail))
  {
    if s.result.None? {
      SumOne(s.batch[0], Parsed(mail));
      SumOne(s.batch[0], Unparsed(mail));
      assert s.batch == [s.batch[0]];
    }
    hide Sum;
    assert fetch(n, s.batch) == if Sum(s.batch, Unparsed(mail)) > 0 then None else Some(Sum(s.batch, Parsed(mail)));
  }
}
