/**
 Delivering one message (`deliver_one` and `push_with_gate` of
 `email_import/worker.rs`): push the `.eml`, then each attachment, and record
 the message only when every object arrived.
 */
module Delivery {
  import opened Wrappers
  import opened Text
  import opened Counting
  import opened LedgerFile

  /** A `failed` count by cause. */
  datatype Breakdown = Breakdown(connect: nat, examine: nat, fetch: nat, missingFile: nat, push: nat) {
    function Plus(b: Breakdown): Breakdown {
      Breakdown(connect + b.connect, examine + b.examine, fetch + b.fetch, missingFile + b.missingFile, push + b.push)
    }
  }

  const NO_FAILURE := Breakdown(0, 0, 0, 0, 0)

  datatype Outcome = Outcome(
    delivered: nat, failed: nat,
    objectsPushed: nat, attachmentsPushed: nat,
    extractionFailed: nat, gateGiveUps: nat,
    breakdown: Breakdown) {

    function Plus(o: Outcome): Outcome {
      Outcome(delivered + o.delivered, failed + o.failed,
              objectsPushed + o.objectsPushed, attachmentsPushed + o.attachmentsPushed,
              extractionFailed + o.extractionFailed, gateGiveUps + o.gateGiveUps,
              breakdown.Plus(o.breakdown))
    }

    /** The counters of `n` settled messages. */
    predicate Balanced(n: int) {
      && delivered + failed == n
      && failed == breakdown.connect + breakdown.examine + breakdown.fetch + breakdown.missingFile + breakdown.push
      && gateGiveUps <= failed
      && delivered + attachmentsPushed <= objectsPushed
      && extractionFailed <= n
    }
  }

  const NOTHING := Outcome(0, 0, 0, 0, 0, 0, NO_FAILURE)

  /** The counters of a batch, or of a run, added up. */
  function Totals(outcomes: seq<Outcome>): Outcome {
    if outcomes == [] then NOTHING else Totals(Init(outcomes)).Plus(Last(outcomes))
  }

  lemma {:induction false} TotalsBalance(outcomes: seq<Outcome>)
    requires forall o <- outcomes :: o.Balanced(1)
    ensures Totals(outcomes).Balanced(|outcomes|)
  {
    if outcomes != [] {
      assert Last(outcomes) in outcomes;
      assert forall o <- Init(outcomes) :: o in outcomes;
      TotalsBalance(Init(outcomes));
    }
  }

  /** Every counter of the totals is the sum of that counter over the messages. */
  lemma {:induction false} TotalsAreSums(outcomes: seq<Outcome>)
    ensures var t := Totals(outcomes);
            && t.delivered == Sum(outcomes, (o: Outcome) => o.delivered)
            && t.failed == Sum(outcomes, (o: Outcome) => o.failed)
            && t.objectsPushed == Sum(outcomes, (o: Outcome) => o.objectsPushed)
            && t.attachmentsPushed == Sum(outcomes, (o: Outcome) => o.attachmentsPushed)
            && t.extractionFailed == Sum(outcomes, (o: Outcome) => o.extractionFailed)
            && t.gateGiveUps == Sum(outcomes, (o: Outcome) => o.gateGiveUps)
            && t.breakdown.connect == Sum(outcomes, (o: Outcome) => o.breakdown.connect)
            && t.breakdown.examine == Sum(outcomes, (o: Outcome) => o.breakdown.examine)
            && t.breakdown.fetch == Sum(outcomes, (o: Outcome) => o.breakdown.fetch)
            && t.breakdown.missingFile == Sum(outcomes, (o: Outcome) => o.breakdown.missingFile)
            && t.breakdown.push == Sum(outcomes, (o: Outcome) => o.breakdown.push)
  {
    if outcomes != [] {
      TotalsAreSums(Init(outcomes));
    }
  }

  lemma OneMessageBalances(o: Outcome)
    requires o.delivered + o.failed == 1 && o.extractionFailed <= 1 && o.gateGiveUps <= o.failed
    requires o.delivered + o.attachmentsPushed <= o.objectsPushed
    requires o.breakdown == NO_FAILURE.(push := o.failed) || o.breakdown == NO_FAILURE.(missingFile := o.failed)
    ensures o.Balanced(1)
  {
  }

  // ----- the destination's answers -----

  /** One push attempt. An unreachable destination waits at the recovery gate,
      which answers whether to give up. */
  datatype Reply = Pushed | Refused | Unreachable(giveUp: bool)

  /** `Killed` when the process ends with the object neither pushed nor refused. */
  datatype PushResult = Done | Failed(gated: bool) | Killed

  /** What the replies still to come make of the next push: only an unreachable
      destination that the gate says to retry is asked again. */
  function Verdict(replies: seq<Reply>): (PushResult, seq<Reply>) {
    if replies == [] then (Killed, [])
    else match replies[0]
      case Pushed => (Done, replies[1..])
      case Refused => (Failed(false), replies[1..])
      case Unreachable(true) => (Failed(true), replies[1..])
      case Unreachable(false) => Verdict(replies[1..])
  }

  lemma {:induction false} VerdictIsFirstFinalReply(replies: seq<Reply>, k: nat)
    requires k < |replies| && replies[k] != Unreachable(false)
    requires forall i | 0 <= i < k :: replies[i] == Unreachable(false)
    ensures Verdict(replies).1 == replies[k + 1..]
    ensures Verdict(replies).0 == if replies[k].Pushed? then Done else Failed(replies[k].Unreachable?)
  {
    if k > 0 {
      assert replies[0] == Unreachable(false);
      assert forall i | 0 <= i < k - 1 :: replies[1..][i] == replies[i + 1];
      VerdictIsFirstFinalReply(replies[1..], k - 1);
      assert replies[1..][k..] == replies[k + 1..];
    }
  }

  // ----- one message -----

  datatype Message = Message(
    key: Key,
    eml: Option<string>,               // the fetched file's object key, if the fetch produced it
    attachments: Option<seq<string>>)  // their object keys, unless extraction failed

  /** The `.eml` first. */
  function Objects(m: Message): seq<string> {
    (if m.eml.Some? then [m.eml.value] else [])
    + (if m.attachments.Some? then m.attachments.value else [])
  }

  /** Pushing objects in order until one does not arrive: how many did, how the
      last attempt ended, and the replies left. */
  function Course(objects: seq<string>, replies: seq<Reply>): (r: (nat, PushResult, seq<Reply>))
    ensures r.0 <= |objects|
    ensures r.1.Done? <==> r.0 == |objects|
  {
    if objects == [] then (0, Done, replies)
    else
      var (verdict, rest) := Verdict(replies);
      if !verdict.Done? then (0, verdict, rest)
      else
        var after := Course(objects[1..], rest);
        (after.0 + 1, after.1, after.2)
  }

  predicate IsFinal(reply: Reply) {
    reply != Unreachable(false)
  }

  /** The course in the destination's own replies: those up to the end were arrivals
      or waits, one arrival for each object that arrived; a refusal or a give-up
      ends it at once; and it is cut short only when the replies run out. */
  ghost predicate Follows(n: nat, last: PushResult, replies: seq<Reply>, used: nat) {
    && used <= |replies|
    && n == Sum(replies[..used], (x: Reply) => if x.Pushed? then 1 else 0)
    && (forall i | 0 <= i < used :: IsFinal(replies[i]) ==>
          replies[i].Pushed? || (last.Failed? && i == used - 1 && last.gated == replies[i].Unreachable?))
    && (last.Failed? ==> used > 0 && IsFinal(replies[used - 1]) && !replies[used - 1].Pushed?)
    && (last.Killed? ==> used == |replies|)
    && (last.Done? && used > 0 ==> replies[used - 1].Pushed?)
  }

  lemma FirstReply(replies: seq<Reply>, used: nat)
    requires 0 < used <= |replies|
    ensures var pushes := (x: Reply) => if x.Pushed? then 1 else 0;
            Sum(replies[..used], pushes) == pushes(replies[0]) + Sum(replies[1..][..used - 1], pushes)
  {
    SumHead(replies[..used], (x: Reply) => if x.Pushed? then 1 else 0);
    assert replies[..used][1..] == replies[1..][..used - 1];
  }

  lemma FollowsCons(n: nat, last: PushResult, replies: seq<Reply>, used: nat)
    requires replies != [] && Follows(n, last, replies[1..], used)
    requires replies[0].Pushed? || (replies[0] == Unreachable(false) && (last.Done? ==> used > 0))
    ensures Follows(n + if replies[0].Pushed? then 1 else 0, last, replies, used + 1)
  {
    FirstReply(replies, used + 1);
    assert forall i | 0 < i < |replies| :: replies[i] == replies[1..][i - 1];
  }

  lemma FollowsOne(last: PushResult, replies: seq<Reply>)
    requires replies != [] && last.Failed? && !replies[0].Pushed? && IsFinal(replies[0])
    requires last.gated == replies[0].Unreachable?
    ensures Follows(0, last, replies, 1)
  {
    FirstReply(replies, 1);
    assert replies[1..][..0] == [];
  }

  lemma {:induction false} CourseFollows(objects: seq<string>, replies: seq<Reply>)
    ensures var (n, last, rest) := Course(objects, replies);
            && |rest| <= |replies| && rest == replies[|replies| - |rest|..]
            && Follows(n, last, replies, |replies| - |rest|)
    decreases |replies|
  {
    if objects == [] || replies == [] {
      assert replies[..0] == [];
    } else if replies[0] == Unreachable(false) {
      hide Follows;
      CourseFollows(objects, replies[1..]);
      assert Course(objects, replies) == Course(objects, replies[1..]);
      var (n, last, rest) := Course(objects, replies);
      DoneUses(objects, replies[1..]);
      FollowsCons(n, last, replies, |replies| - 1 - |rest|);
    } else if replies[0].Pushed? {
      hide Follows;
      CourseFollows(objects[1..], replies[1..]);
      var (n, last, rest) := Course(objects[1..], replies[1..]);
      FollowsCons(n, last, replies, |replies| - 1 - |rest|);
    } else {
      FollowsOne(Course(objects, replies).1, replies);
    }
  }

  /** An object does not arrive without a reply. */
  lemma {:induction false} DoneUses(objects: seq<string>, replies: seq<Reply>)
    requires objects != []
    ensures Course(objects, replies).1.Done? ==> |Course(objects, replies).2| < |replies|
  {
    VerdictUses(replies);
    if Verdict(replies).0.Done? {
      CourseUses(objects[1..], Verdict(replies).1);
    }
  }

  lemma {:induction false} VerdictUses(replies: seq<Reply>)
    ensures |Verdict(replies).1| <= |replies|
    ensures Verdict(replies).0.Done? ==> |Verdict(replies).1| < |replies|
  {
    if replies != [] {
      VerdictUses(replies[1..]);
    }
  }

  lemma {:induction false} CourseUses(objects: seq<string>, replies: seq<Reply>)
    ensures |Course(objects, replies).2| <= |replies|
  {
    if objects != [] {
      VerdictUses(replies);
      CourseUses(objects[1..], Verdict(replies).1);
    }
  }

  /** What arrives of a message in one delivery: the `.eml` and then all its
      attachments when it counts as delivered, and otherwise not all of that. */
  predicate Arrives(m: Message, arrived: seq<string>, delivered: bool)
    requires m.eml.Some?
  {
    var wanted := [m.eml.value] + if m.attachments.Some? then m.attachments.value else [];
    arrived <= wanted && (delivered <==> arrived == wanted)
  }

  lemma PrefixArrives(m: Message, n: nat)
    requires m.eml.Some? && n <= |Objects(m)|
    ensures Arrives(m, Objects(m)[..n], n == |Objects(m)|)
  {
  }

  class Courier {
    var replies: seq<Reply>   // the destination's answers to come
    var pushed: seq<string>   // object keys that arrived, in order
    var rows: seq<Key>        // messages recorded as delivered

    constructor (replies: seq<Reply>)
      ensures this.replies == replies && pushed == [] && rows == []
    {
      this.replies, pushed, rows := replies, [], [];
    }

    method PushWithGate(key: string) returns (result: PushResult)
      modifies this
      ensures (result, replies) == Verdict(old(replies))
      ensures pushed == old(pushed) + (if result.Done? then [key] else [])
      ensures rows == old(rows)
    {
      while replies != []
        invariant Verdict(replies) == Verdict(old(replies))
        invariant pushed == old(pushed) && rows == old(rows)
        decreases |replies|
      {
        var reply := replies[0];
        replies := replies[1..];
        match reply {
          case Pushed =>
            pushed := pushed + [key];
            return Done;
          case Refused => return Failed(false);
          case Unreachable(giveUp) =>
            if giveUp {
              return Failed(true);
            }
        }
      }
      return Killed;
    }

    /** `None` when the process ends part way. `recorded` says whether the
        ledger append works; its failure does not undo the delivery. */
    method DeliverOne(m: Message, recorded: bool) returns (o: Option<Outcome>)
      modifies this
      ensures m.eml.None? ==> o == Some(NOTHING.(failed := 1, breakdown := NO_FAILURE.(missingFile := 1)))
      ensures m.eml.None? ==> pushed == old(pushed) && rows == old(rows) && replies == old(replies)
      ensures m.eml.Some? ==> var (n, last, rest) := Course(Objects(m), old(replies));
              && pushed == old(pushed) + Objects(m)[..n] && replies == rest
              && (o.None? <==> last.Killed?)
              && rows == old(rows) + (if last.Done? && recorded then [m.key] else [])
              && (o.Some? ==> o.value == Outcome(
                    if last.Done? then 1 else 0, if last.Done? then 0 else 1,
                    n, if n > 0 then n - 1 else 0,
                    if m.attachments.None? then 1 else 0, if last == Failed(true) then 1 else 0,
                    NO_FAILURE.(push := if last.Done? then 0 else 1)))
      ensures o.Some? ==> o.value.Balanced(1)
      ensures old(pushed) <= pushed
      ensures m.eml.Some? ==> Arrives(m, pushed[|old(pushed)|..], o.Some? && o.value.delivered == 1)
      ensures rows == old(rows) + (if o.Some? && o.value.delivered == 1 && recorded then [m.key] else [])
    {
      hide Outcome.Balanced, Arrives, Objects, Verdict;
      if m.eml.None? {
        OneMessageBalances(NOTHING.(failed := 1, breakdown := NO_FAILURE.(missingFile := 1)));
        return Some(NOTHING.(failed := 1, breakdown := NO_FAILURE.(missingFile := 1)));
      }
      var out := NOTHING;
      if m.attachments.None? {
        out := out.(extractionFailed := 1);
      }
      var objects := Objects(m);
      ghost var course := Course(objects, replies);
      PrefixArrives(m, course.0);
      var i := 0;
      while i < |objects|
        invariant 0 <= i <= |objects|
        invariant course.0 == i + Course(objects[i..], replies).0
        invariant course.1 == Course(objects[i..], replies).1 && course.2 == Course(objects[i..], replies).2
        invariant out == NOTHING.(objectsPushed := i,
                                  attachmentsPushed := if i > 0 then i - 1 else 0,
                                  extractionFailed := if m.attachments.None? then 1 else 0)
        invariant pushed == old(pushed) + objects[..i] && pushed[|old(pushed)|..] == objects[..i] && rows == old(rows)
      {
        assert objects[i..][1..] == objects[i + 1..];
        var result := PushWithGate(objects[i]);
        match result {
          case Done =>
            assert objects[..i + 1] == objects[..i] + [objects[i]];
            out := out.(objectsPushed := out.objectsPushed + 1,
                        attachmentsPushed := out.attachmentsPushed + if i > 0 then 1 else 0);
          case Failed(gated) =>
            out := out.(gateGiveUps := if gated then 1 else 0,
                        failed := 1, breakdown := NO_FAILURE.(push := 1));
            OneMessageBalances(out);
            return Some(out);
          case Killed =>
            return None;
        }
        i := i + 1;
      }
      if recorded {
        rows := rows + [m.key];
      }
      out := out.(delivered := 1);
      OneMessageBalances(out);
      return Some(out);
    }
  }
}
