/**
 The throughput governor of `email_import/pace.rs`. Times are nanoseconds on
 one clock.
 */
module Pacer {
  import opened Wrappers
  import opened Text
  import opened Counting

  const MINUTE := 60_000_000_000
  const U32 := 0x1_0000_0000

  /** `as u32`. */
  function Truncate(n: nat): nat {
    n % U32
  }

  function AtLeastOne(n: nat): nat {
    if n == 0 then 1 else n
  }

  /** `None` is the panic of a division by zero. */
  function IntervalFor(messagesPerMinute: nat): Option<nat> {
    var divisor := Truncate(AtLeastOne(messagesPerMinute));
    if divisor == 0 then None else Some(MINUTE / divisor)
  }

  lemma Division(n: nat, d: nat)
    requires d > 0
    ensures d * (n / d) <= n < d * (n / d + 1)
  {
  }

  /** The interval is the longest whole number of nanoseconds that still lets
      the declared rate through. */
  lemma IntervalMeetsRate(rate: nat)
    requires 1 <= rate < U32
    ensures IntervalFor(rate).Some?
    ensures rate * IntervalFor(rate).value <= MINUTE < rate * (IntervalFor(rate).value + 1)
  {
    Division(MINUTE, rate);
  }

  /** The clamp to one guards against a zero rate, but the truncation to 32
      bits still turns some rates into zero: exactly the multiples of 2^32. */
  lemma PanicsIffMultipleOfU32(rate: nat)
    ensures IntervalFor(rate).None? <==> rate > 0 && rate % U32 == 0
    ensures IntervalFor(0) == Some(MINUTE)
  {
  }

  /** A larger rate is taken modulo 2^32. */
  lemma LargeRatesWrap(rate: nat)
    requires rate % 0x1_0000_0000 != 0
    ensures IntervalFor(rate) == IntervalFor(rate % 0x1_0000_0000)
  {
  }

  /** No rate spelling is unlimited. */
  lemma IntervalIsPositive(rate: nat)
    requires IntervalFor(rate).Some?
    ensures IntervalFor(rate).value >= 13
  {
    FitsInQuotient(MINUTE, Truncate(AtLeastOne(rate)), 13);
  }

  // ----- the schedule of a run -----

  /** A call to `acquire`: when it reads the clock, and how many slots it asks for. */
  datatype Request = Request(now: nat, count: nat) {
    function Slots(): nat {
      Truncate(AtLeastOne(count))
    }
  }

  datatype Window = Window(opens: nat, closes: nat)

  /** How long `slots` messages take at the declared rate. */
  function Width(interval: nat, slots: nat): nat {
    interval * slots
  }

  lemma WidthAdds(interval: nat, a: nat, b: nat)
    ensures Width(interval, a + b) == Width(interval, a) + Width(interval, b)
  {
  }

  /** One interval for each message, and one for an empty batch; the count is
      cut to 32 bits. */
  lemma WindowWidth(interval: nat, request: Request)
    ensures request.count == 0 ==> Width(interval, request.Slots()) == interval
    ensures 1 <= request.count < 0x1_0000_0000 ==> Width(interval, request.Slots()) == interval * request.count
    ensures request.count >= 0x1_0000_0000 ==>
              Width(interval, request.Slots()) == interval * (request.count % 0x1_0000_0000)
  {
  }

  function Reserve(nextAllowed: nat, now: nat, slots: nat, interval: nat): Window {
    var start := if nextAllowed > now then nextAllowed else now;
    Window(start, start + Width(interval, slots))
  }

  function NextAllowed(first: nat, windows: seq<Window>): nat {
    if windows == [] then first else Last(windows).closes
  }

  /** The windows handed out, in the order the lock was taken. */
  function Schedule(first: nat, requests: seq<Request>, interval: nat): (windows: seq<Window>)
    ensures |windows| == |requests|
  {
    if requests == [] then []
    else
      var before := Schedule(first, Init(requests), interval);
      before + [Reserve(NextAllowed(first, before), Last(requests).now, Last(requests).Slots(), interval)]
  }

  class Pacer {
    var nextAllowed: nat
    const interval: nat
    ghost const first: nat
    ghost var requests: seq<Request>
    ghost var windows: seq<Window>

    ghost predicate Valid()
      reads this
    {
      windows == Schedule(first, requests, interval) && nextAllowed == NextAllowed(first, windows)
    }

    constructor (now: nat, interval: nat)
      ensures Valid() && requests == [] && this.interval == interval && first == now
    {
      nextAllowed, this.interval := now, interval;
      first, requests, windows := now, [], [];
    }

    /** Returns when the caller may go ahead, one interval for each of its
        messages before the next caller may. */
    method Acquire(now: nat, count: nat) returns (waitUntil: nat)
      requires Valid()
      modifies this
      ensures Valid() && requests == old(requests) + [Request(now, count)]
      ensures windows == old(windows) + [Window(waitUntil, nextAllowed)]
      ensures waitUntil >= now && waitUntil >= old(nextAllowed) && (waitUntil == now || waitUntil == old(nextAllowed))
      ensures count == 0 ==> nextAllowed == waitUntil + interval
      ensures 1 <= count < 0x1_0000_0000 ==> nextAllowed == waitUntil + interval * count
      ensures count >= 0x1_0000_0000 ==> nextAllowed == waitUntil + interval * (count % 0x1_0000_0000)
    {
      hide Width, Request.Slots;
      WindowWidth(interval, Request(now, count));
      var request := Request(now, count);
      var window := Reserve(nextAllowed, now, request.Slots(), interval);
      nextAllowed := window.closes;
      waitUntil := window.opens;
      assert Init(requests + [request]) == requests;
      requests, windows := requests + [request], windows + [window];
    }
  }

  // ----- what the schedule guarantees -----

  /** Windows wide enough for their requests, none before its request or the one before it. */
  ghost predicate Admissible(first: nat, requests: seq<Request>, windows: seq<Window>, interval: nat) {
    && |windows| == |requests|
    && (forall i | 0 <= i < |windows| ::
          windows[i].opens >= first && windows[i].opens >= requests[i].now
          && windows[i].closes >= windows[i].opens + Width(interval, requests[i].Slots()))
    && (forall i, j | 0 <= i < j < |windows| :: windows[i].closes <= windows[j].opens)
  }

  lemma ScheduleSnoc(first: nat, requests: seq<Request>, interval: nat)
    requires requests != []
    ensures var windows := Schedule(first, requests, interval);
            && Init(windows) == Schedule(first, Init(requests), interval)
            && Last(windows) ==
                Reserve(NextAllowed(first, Init(windows)), Last(requests).now, Last(requests).Slots(), interval)
  {
  }

  /** A window after all the others keeps a schedule admissible. */
  lemma AdmissibleSnoc(
      first: nat, requests: seq<Request>, windows: seq<Window>, request: Request, w: Window, interval: nat)
    requires Admissible(first, requests, windows, interval)
    requires w.opens >= first && w.opens >= request.now && w.closes >= w.opens + Width(interval, request.Slots())
    requires forall i | 0 <= i < |windows| :: windows[i].closes <= w.opens
    ensures Admissible(first, requests + [request], windows + [w], interval)
  {
    hide Width;
    var rs, ws := requests + [request], windows + [w];
    assert forall i | 0 <= i < |windows| :: ws[i] == windows[i] && rs[i] == requests[i];
  }

  ghost predicate AllBefore(windows: seq<Window>, time: nat) {
    forall i | 0 <= i < |windows| :: windows[i].closes <= time
  }

  lemma AllBeforeSnoc(windows: seq<Window>, w: Window)
    requires AllBefore(windows, w.opens) && w.opens <= w.closes
    ensures AllBefore(windows + [w], w.closes)
  {
  }

  lemma {:induction false} ScheduleIsAdmissible(first: nat, requests: seq<Request>, interval: nat)
    ensures Admissible(first, requests, Schedule(first, requests, interval), interval)
    ensures NextAllowed(first, Schedule(first, requests, interval)) >= first
    ensures AllBefore(Schedule(first, requests, interval), NextAllowed(first, Schedule(first, requests, interval)))
  {
    if requests != [] {
      ScheduleSnoc(first, requests, interval);
      hide Width, Schedule, Admissible;
      ScheduleIsAdmissible(first, Init(requests), interval);
      var windows, w := Schedule(first, Init(requests), interval), Last(Schedule(first, requests, interval));
      assert windows + [w] == Schedule(first, requests, interval) && Init(requests) + [Last(requests)] == requests;
      AdmissibleSnoc(first, Init(requests), windows, Last(requests), w, interval);
      AllBeforeSnoc(windows, w);
    }
  }

  /** No admissible schedule opens any window earlier. */
  lemma {:induction false} ScheduleIsEarliest(first: nat, requests: seq<Request>, windows: seq<Window>, interval: nat)
    requires Admissible(first, requests, windows, interval)
    ensures forall i | 0 <= i < |requests| ::
              && Schedule(first, requests, interval)[i].opens <= windows[i].opens
              && Schedule(first, requests, interval)[i].closes <= windows[i].closes
  {
    if requests != [] {
      ScheduleIsEarliest(first, Init(requests), Init(windows), interval);
      var before := Schedule(first, Init(requests), interval);
      if before != [] {
        assert Last(before) == before[|before| - 1];
      }
    }
  }

  // ----- the rate bound -----

  predicate OpensIn(w: Window, a: nat, b: nat) {
    a <= w.opens < b
  }

  /** The slots of the windows that open in `[a, b)`, and those of the last of them. */
  function SlotsIn(requests: seq<Request>, windows: seq<Window>, a: nat, b: nat): (nat, nat)
    requires |windows| == |requests|
  {
    if windows == [] then (0, 0)
    else
      var (total, last) := SlotsIn(Init(requests), Init(windows), a, b);
      if OpensIn(Last(windows), a, b) then (total + Last(requests).Slots(), Last(requests).Slots())
      else (total, last)
  }

  /** A span of time opens at most its length over the interval, beyond its last batch. */
  lemma {:induction false} RateIsBounded(first: nat, requests: seq<Request>, interval: nat, a: nat, b: nat)
    ensures var (total, last) := SlotsIn(requests, Schedule(first, requests, interval), a, b);
            && last <= total
            && (total > 0 ==> Width(interval, total - last) < b - a)
            && (total > 0 ==> a + Width(interval, total) <= NextAllowed(first, Schedule(first, requests, interval)))
  {
    if requests != [] {
      RateIsBounded(first, Init(requests), interval, a, b);
      var windows := Schedule(first, requests, interval);
      assert Init(windows) == Schedule(first, Init(requests), interval);
      var (total, _) := SlotsIn(Init(requests), Init(windows), a, b);
      var slots := Last(requests).Slots();
      WidthAdds(interval, total, slots);
      assert Width(interval, 0) == 0;
      hide Width;
      assert Last(windows).opens >= NextAllowed(first, Init(windows));
    }
  }

  /** The messages that these requests ask for. */
  function Messages(requests: seq<Request>): nat {
    Sum(requests, (r: Request) => r.count)
  }

  /** A batch's window is wide enough for its messages exactly when their number
      fits 32 bits. */
  lemma WindowFitsIff(nextAllowed: nat, request: Request, interval: nat)
    requires interval > 0
    ensures var w := Reserve(nextAllowed, request.now, request.Slots(), interval);
            w.closes - w.opens >= interval * request.count <==> request.count < 0x1_0000_0000
  {
    var slots := request.Slots();
    if request.count < U32 {
      Distribute(interval, request.count, slots - request.count);
    } else {
      assert slots < request.count;
      Distribute(interval, slots, request.count - slots);
      assert interval * (request.count - slots) >= interval by { Distribute(interval, 1, request.count - slots - 1); }
    }
  }

  lemma OneMoreBatch(requests: seq<Request>, i: nat, j: nat, interval: nat)
    requires i < j <= |requests|
    ensures interval * Messages(requests[i..j])
         == interval * Messages(requests[i..j - 1]) + interval * requests[j - 1].count
  {
    var before, last := Messages(requests[i..j - 1]), requests[j - 1];
    assert requests[i..j] == requests[i..j - 1] + [last];
    SumAppend(requests[i..j - 1], last, (r: Request) => r.count);
    Distribute(interval, before, last.count);
  }

  lemma NextOpens(first: nat, requests: seq<Request>, interval: nat, j: nat)
    requires 0 < j < |requests| && requests[j - 1].count < 0x1_0000_0000
    ensures var windows := Schedule(first, requests, interval);
            windows[j - 1].opens + interval * requests[j - 1].count <= windows[j].opens
  {
    hide Schedule, Width, Request.Slots;
    ScheduleIsAdmissible(first, requests, interval);
    WindowWidth(interval, requests[j - 1]);
  }

  /** Between the openings of two batches there is an interval for every message
      from the one up to the other. */
  lemma {:induction false} BatchesAreSpaced(first: nat, requests: seq<Request>, interval: nat, i: nat, j: nat)
    requires i <= j < |requests| && forall k | i <= k < j :: requests[k].count < 0x1_0000_0000
    ensures var windows := Schedule(first, requests, interval);
            windows[i].opens + interval * Messages(requests[i..j]) <= windows[j].opens
    decreases j
  {
    hide Schedule, Messages;
    if i == j {
      NoMessages();
      assert requests[i..i] == [];
    } else {
      BatchesAreSpaced(first, requests, interval, i, j - 1);
      OneMoreBatch(requests, i, j, interval);
      NextOpens(first, requests, interval, j);
    }
  }

  lemma NoMessages()
    ensures Messages([]) == 0
  {
  }

  /** Batches that open within a span of time carry at most its length over the
      interval in messages, not counting the last of them. */
  lemma MessagesPerSpan(
      first: nat, requests: seq<Request>, interval: nat, a: nat, b: nat, i: nat, j: nat)
    requires interval > 0 && i <= j < |requests|
    requires forall k | i <= k < j :: requests[k].count < 0x1_0000_0000
    requires a <= Schedule(first, requests, interval)[i].opens && Schedule(first, requests, interval)[j].opens < b
    ensures Messages(requests[i..j]) <= (b - a) / interval
  {
    BatchesAreSpaced(first, requests, interval, i, j);
    hide Schedule, Messages;
    FitsInQuotient(b - a, interval, Messages(requests[i..j]));
  }

  /** The batches that open within a span follow each other in the order of the requests. */
  lemma SpanIsConsecutive(first: nat, requests: seq<Request>, interval: nat, i: nat, k: nat, j: nat)
    requires i <= k <= j < |requests|
    ensures var windows := Schedule(first, requests, interval);
            windows[i].opens <= windows[k].opens <= windows[j].opens
  {
    hide Schedule;
    ScheduleIsAdmissible(first, requests, interval);
  }

  /** With a batch of 2^32 messages the bound fails: its window has no width, and
      the next batch opens at once. */
  lemma HugeBatchIsNotPaced()
    ensures Schedule(0, [Request(0, 0x1_0000_0000), Request(0, 1)], 1_000_000_000)
         == [Window(0, 0), Window(0, 1_000_000_000)]
    ensures Messages([Request(0, 0x1_0000_0000)]) > 0
  {
    var huge, one := Request(0, 0x1_0000_0000), Request(0, 1);
    SumOne(huge, (r: Request) => r.count);
    assert Init([huge, one]) == [huge] && Init([huge]) == [];
  }

  lemma Distribute(a: nat, b: nat, c: nat)
    ensures a * (b + c) == a * b + a * c
  {
  }

  lemma FitsInQuotient(span: nat, interval: nat, k: nat)
    requires interval > 0 && interval * k <= span
    ensures k <= span / interval
  {
    var q := span / interval;
    if k > q {
      Distribute(interval, q + 1, k - q - 1);
      Division(span, interval);
      assert false;
    }
  }
}
