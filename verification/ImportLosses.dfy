/**
 What an identity's ledger can lose across its runs, exactly: by uploads that
 land late and by rows appended to an unfinished line.
 */
module ImportLosses {
  import opened Wrappers
  import opened Text
  import opened LedgerFile
  import opened LedgerSeed
  import opened ImportRuns

  // ----- each row of a process is new -----

  /** Nothing still to be recorded has a row, and an unfinished row repeats none. */
  ghost predicate AllNew(s: State) {
    s.running ==>
      && (forall k | k in s.pending :: k !in s.parcels && k !in KeysOf(s.local))
      && (forall k | k in s.parcels :: k !in KeysOf(s.local))
      && TailIsNew(s.local)
  }

  lemma TailStaysNew(text: string, key: Key, at: string, fate: Fate)
    requires PlainEntry(key, at) && HarmlessAppend(text, LedgerEntry(key, at), fate)
    requires TailIsNew(text) && key !in KeysOf(text)
    ensures TailIsNew(Appended(text, Row(LedgerEntry(key, at)), fate))
  {
    var e := LedgerEntry(key, at);
    PlainIsWritable(key, at);
    AppendedParts(text, Row(e), fate);
    PieceKey(e, fate);
    EmptyLineIsNoRow();
    assert Tail(text) == "" ==> Tail(text) + Piece(Row(e), fate) == Piece(Row(e), fate) && Head(text) == text;
    hide KeysOf, Row, ParseLine, Writable, PlainEntry, Head, Tail, Appended, RowHead;
  }

  lemma WholeLinesHaveNoTail(text: string)
    requires Terminated(text)
    ensures TailIsNew(text)
  {
    EmptyLineIsNoRow();
    hide ParseLine, KeysOf, Tail, Head;
  }

  lemma RecordStep(layout: Layout, s: State, e: Event)
    requires e.Record? && Enabled(layout, s, e) && Texts(s) && Pushes(layout, s)
    ensures var t := Step(layout, s, e);
            && t.pending == s.pending && t.parcels == s.parcels - {e.key} && t.running
            && t.local == Appended(s.local, Row(LedgerEntry(e.key, e.at)), e.fate)
    ensures s.running && e.key in s.parcels && PlainEntry(e.key, e.at) && '\r' !in s.local
  {
    hide Parse, Row, Appended, Objects;
    PlainWithTime(e.key, e.at);
  }

  lemma RecordStaysNew(layout: Layout, s: State, e: Event)
    requires e.Record? && Enabled(layout, s, e) && HarmlessEvent(s, e)
    requires Texts(s) && Pushes(layout, s) && AllNew(s)
    ensures AllNew(Step(layout, s, e))
  {
    hide Texts, Pushes, Step, Enabled, KeysOf, TailIsNew, PlainEntry, HarmlessAppend, Appended, Row, ReachesTime;
    RecordStep(layout, s, e);
    HarmlessAppendKeys(s.local, e.key, e.at, e.fate);
    TailStaysNew(s.local, e.key, e.at, e.fate);
  }

  lemma StepStaysNew(layout: Layout, s: State, e: Event)
    requires Enabled(layout, s, e) && HarmlessEvent(s, e) && Texts(s) && Pushes(layout, s) && AllNew(s)
    ensures AllNew(Step(layout, s, e))
  {
    if e.Start? {
      StartIsBacked(layout, s, e);
      WholeLinesHaveNoTail(Step(layout, s, e).local);
      hide Parse, Seed, Render, Texts, Pushes, TailIsNew;
    } else if e.Record? {
      hide HarmlessEvent, Texts, Pushes, Step, AllNew;
      RecordStaysNew(layout, s, e);
    } else {
      hide KeysOf, PlainEntry, TailIsNew, Objects, Texts, Pushes;
    }
  }

  lemma {:induction false} RunStaysNew(layout: Layout, history: seq<Event>)
    requires Harmless(layout, history)
    ensures AllNew(Run(layout, history))
  {
    if history != [] {
      HarmlessInit(layout, history);
      RunStaysNew(layout, Init(history));
      RowsAreBacked(layout, Init(history));
      var s := Run(layout, Init(history));
      hide Texts, Pushes, Step, AllNew, Harmless, HarmlessEvent;
      if Enabled(layout, s, Last(history)) {
        StepStaysNew(layout, s, Last(history));
      }
    }
  }

  // ----- how the working copy grows -----

  /** The row an event leaves, if it leaves one. */
  ghost function RowLeft(layout: Layout, s: State, e: Event): set<Key> {
    if e.Record? && Enabled(layout, s, e) && Terminated(s.local) && ReachesTime(e.key, e.fate) then {e.key} else {}
  }

  /** The keys of the rows that `mid` leaves when it follows `past`. */
  ghost function RowsLeft(layout: Layout, past: seq<Event>, mid: seq<Event>): set<Key> {
    if mid == [] then {}
    else RowsLeft(layout, past, Init(mid)) + RowLeft(layout, Run(layout, past + Init(mid)), Last(mid))
  }

  /** No process starts or ends during `mid`. */
  ghost predicate OneProcess(layout: Layout, past: seq<Event>, mid: seq<Event>) {
    forall j | 0 <= j < |mid| ::
      mid[j].Start? || mid[j].Stop? ==> !Enabled(layout, Run(layout, past + mid[..j]), mid[j])
  }

  lemma OneProcessInit(layout: Layout, past: seq<Event>, mid: seq<Event>)
    requires mid != [] && OneProcess(layout, past, mid)
    ensures OneProcess(layout, past, Init(mid))
    ensures Last(mid).Start? || Last(mid).Stop? ==> !Enabled(layout, Run(layout, past + Init(mid)), Last(mid))
  {
    hide Run, Enabled;
    forall j | 0 <= j < |mid| - 1
      ensures (Init(mid)[j].Start? || Init(mid)[j].Stop?) ==>
                !Enabled(layout, Run(layout, past + Init(mid)[..j]), Init(mid)[j])
    {
      assert Init(mid)[..j] == mid[..j] && Init(mid)[j] == mid[j];
    }
    assert mid[..|mid| - 1] == Init(mid);
  }

  lemma StepLeaves(layout: Layout, s: State, e: Event)
    requires Enabled(layout, s, e) && HarmlessEvent(s, e) && !e.Start?
    requires Texts(s) && Pushes(layout, s) && AllNew(s)
    ensures KeysOf(Step(layout, s, e).local) == KeysOf(s.local) + RowLeft(layout, s, e)
    ensures RowLeft(layout, s, e) !! KeysOf(s.local)
  {
    if e.Record? {
      PlainWithTime(e.key, e.at);
      HarmlessAppendKeys(s.local, e.key, e.at, e.fate);
      hide KeysOf, PlainEntry, HarmlessAppend, Appended, Row, TailIsNew, Objects, ReachesTime;
    } else {
      hide KeysOf, PlainEntry, Texts, Pushes, Objects, AllNew;
    }
  }

  /** Within a process the working copy gains exactly the rows left, all of them new. */
  lemma {:induction false} LocalGainsRowsLeft(layout: Layout, past: seq<Event>, mid: seq<Event>)
    requires Harmless(layout, past + mid) && OneProcess(layout, past, mid)
    ensures KeysOf(Run(layout, past + mid).local) == KeysOf(Run(layout, past).local) + RowsLeft(layout, past, mid)
    ensures RowsLeft(layout, past, mid) !! KeysOf(Run(layout, past).local)
    decreases |mid|
  {
    hide KeysOf, Harmless, HarmlessEvent, Texts, Pushes, Step, AllNew, RowLeft, Run, OneProcess;
    if mid == [] {
      assert past + mid == past;
    } else {
      var before := past + Init(mid);
      assert Init(past + mid) == before && past + mid == before + [Last(mid)];
      HarmlessInit(layout, past + mid);
      OneProcessInit(layout, past, mid);
      LocalGainsRowsLeft(layout, past, Init(mid));
      RowsAreBacked(layout, before);
      RunStaysNew(layout, before);
      RunSnoc(layout, before, Last(mid));
      var s := Run(layout, before);
      if Enabled(layout, s, Last(mid)) {
        StepLeaves(layout, s, Last(mid));
      } else {
        NothingLeft(layout, s, Last(mid));
      }
    }
  }

  lemma NothingLeft(layout: Layout, s: State, e: Event)
    requires !Enabled(layout, s, e)
    ensures RowLeft(layout, s, e) == {}
  {
  }

  lemma RunSnoc(layout: Layout, history: seq<Event>, e: Event)
    ensures Run(layout, history + [e])
         == if Enabled(layout, Run(layout, history), e) then
             Step(layout, Run(layout, history), e) else Run(layout, history)
  {
    assert Init(history + [e]) == history;
  }

  // ----- uploads that land late -----

  lemma LandStep(layout: Layout, s: State, i: nat)
    requires i < |s.uploads|
    ensures Enabled(layout, s, Land(i)) && Step(layout, s, Land(i)).durable == Some(s.uploads[i])
  {
  }

  lemma SnapshotKeepsLocal(layout: Layout, past: seq<Event>)
    ensures Run(layout, past + [Snapshot]).local == Run(layout, past).local
  {
    hide Run;
    RunSnoc(layout, past, Snapshot);
  }

  /** A snapshot that lands after a later one of the same process costs the
      durable ledger exactly the rows left between the two. So nothing is lost
      if and only if no row was. */
  lemma LateUploadLosesRowsLeft(layout: Layout, past: seq<Event>, mid: seq<Event>, rest: seq<Event>, i: nat)
    requires Harmless(layout, past + [Snapshot] + mid) && OneProcess(layout, past + [Snapshot], mid)
    requires var s := Run(layout, past + [Snapshot] + mid + [Snapshot] + rest);
             && s.durable == Some(Run(layout, past + [Snapshot] + mid).local)
             && i < |s.uploads| && s.uploads[i] == Run(layout, past).local
    ensures var s := Run(layout, past + [Snapshot] + mid + [Snapshot] + rest);
            var t := Step(layout, s, Land(i));
            && DurableKeys(s) - DurableKeys(t) == RowsLeft(layout, past + [Snapshot], mid)
            && (DurableKeys(s) <= DurableKeys(t) <==> RowsLeft(layout, past + [Snapshot], mid) == {})
  {
    LocalGainsRowsLeft(layout, past + [Snapshot], mid);
    LandStep(layout, Run(layout, past + [Snapshot] + mid + [Snapshot] + rest), i);
    hide KeysOf, Run, RowsLeft, Harmless, Objects, Step, Enabled, OneProcess;
    SnapshotKeepsLocal(layout, past);
  }

  /** A snapshot that lands after an earlier one of the same process loses nothing. */
  lemma NewerUploadLosesNothing(layout: Layout, past: seq<Event>, mid: seq<Event>, rest: seq<Event>, i: nat)
    requires Harmless(layout, past + [Snapshot] + mid) && OneProcess(layout, past + [Snapshot], mid)
    requires var s := Run(layout, past + [Snapshot] + mid + [Snapshot] + rest);
             && s.durable == Some(Run(layout, past).local)
             && i < |s.uploads| && s.uploads[i] == Run(layout, past + [Snapshot] + mid).local
    ensures var s := Run(layout, past + [Snapshot] + mid + [Snapshot] + rest);
            DurableKeys(s) <= DurableKeys(Step(layout, s, Land(i)))
  {
    LocalGainsRowsLeft(layout, past + [Snapshot], mid);
    LandStep(layout, Run(layout, past + [Snapshot] + mid + [Snapshot] + rest), i);
    hide KeysOf, Run, RowsLeft, Harmless, Objects, Step, Enabled, OneProcess;
    SnapshotKeepsLocal(layout, past);
  }

  // ----- rows appended to an unfinished line -----

  /** After any harmless history an append loses no key and leaves every row
      standing for a delivered or seeded message exactly when it is harmless,
      or forges the key of a message that was delivered or seeded anyway. */
  lemma RecordIsHonestIff(layout: Layout, history: seq<Event>, e: Event)
    requires Harmless(layout, history) && e.Record? && Enabled(layout, Run(layout, history), e)
    ensures var s := Run(layout, history);
            var t := Step(layout, s, e);
            var line := Tail(s.local) + Piece(Row(LedgerEntry(e.key, e.at)), e.fate);
            (KeysOf(s.local) <= KeysOf(t.local) && Backed(t, t.local))
              <==> (HarmlessEvent(s, e)
                    || (LineKey(Tail(s.local)).None?
                        && (LineKey(line).value in t.delivered || LineKey(line).value in t.seeded)))
  {
    RowsAreBacked(layout, history);
    RunStaysNew(layout, history);
    hide Run;
    var s := Run(layout, history);
    assert PlainEntry(e.key, "") && Backed(s, s.local) && TailIsNew(s.local);
    hide Texts, Pushes, AllNew;
    PlainWithTime(e.key, e.at);
    RecordHonesty(s, Step(layout, s, e), e);
  }

  lemma RecordHonesty(s: State, t: State, e: Event)
    requires e.Record? && PlainEntry(e.key, e.at) && Backed(s, s.local) && TailIsNew(s.local)
    requires t.local == Appended(s.local, Row(LedgerEntry(e.key, e.at)), e.fate)
    requires t.delivered.Keys == s.delivered.Keys + {e.key} && t.seeded == s.seeded
    ensures var line := Tail(s.local) + Piece(Row(LedgerEntry(e.key, e.at)), e.fate);
            (KeysOf(s.local) <= KeysOf(t.local) && Backed(t, t.local))
              <==> (HarmlessEvent(s, e)
                    || (LineKey(Tail(s.local)).None?
                        && (LineKey(line).value in t.delivered || LineKey(line).value in t.seeded)))
  {
    var entry := LedgerEntry(e.key, e.at);
    PlainIsWritable(e.key, e.at);
    AppendedKeys(s.local, entry, e.fate);
    PieceKey(entry, e.fate);
    assert Terminated(s.local) ==> Tail(s.local) + Piece(Row(entry), e.fate) == Piece(Row(entry), e.fate);
    EmptyLineIsNoRow();
    BackedKeys(s, s.local);
    BackedKeys(t, t.local);
    hide KeysOf, Row, ParseLine, Head, Tail, Writable, RowHead, PlainEntry, Backed, OneLine, Appended;
  }

  lemma BackedKeys(s: State, text: string)
    ensures Backed(s, text) <==> '\r' !in text && KeysOf(text) <= s.delivered.Keys + s.seeded
  {
    hide Parse;
  }

  // ----- runs that lose or forge a key -----

  function KeyIn(m: Mailbox, uid: nat): Key {
    Key(m.name, m.uidvalidity, uid)
  }

  /** A first start of an account with these messages. */
  function FirstStart(m: Mailbox, uids: set<nat>, at: string): Event {
    Start([MailboxState(m, uids)], [], at, [])
  }

  lemma RunNothing(layout: Layout)
    ensures Run(layout, []) == NEW_ACCOUNT
  {
  }

  lemma RenderNothing()
    ensures Parse(Render([])) == map[] && Terminated(Render([])) && '\r' !in Render([])
  {
    RenderedParses([]);
    RenderedHasNoReturn([]);
    hide Parse, Render;
  }

  lemma StartReaches(layout: Layout, m: Mailbox, uids: set<nat>, at: string)
    requires PlainServer(layout, MailboxState(m, uids)) && PlainTime(at)
    ensures Run(layout, [FirstStart(m, uids, at)])
         == NEW_ACCOUNT.(running := true, local := Render([]), durable := Some(Render([])),
                         pending := ServerKeys([MailboxState(m, uids)]))
  {
    hide Render, Run, Objects;
    RunNothing(layout);
    var start := FirstStart(m, uids, at);
    assert Loaded(None, start) == map[];
    RunSnoc(layout, [], start);
    assert [] + [start] == [start];
    assert {} + Loaded(None, start).Keys == {};
  }

  /** Fetching and pushing a message that has no attachments. */
  function Deliver(key: Key): seq<Event> {
    [Fetch(key, []), Push(key)]
  }

  lemma DeliverReaches(layout: Layout, h: seq<Event>, key: Key)
    requires var s := Run(layout, h); s.running && key in s.pending && key !in s.parcels
    ensures var s, t := Run(layout, h), Run(layout, h + Deliver(key));
            && t.running && t.pending == s.pending - {key} && t.parcels == s.parcels[key := Parcel([], 1)]
            && t.local == s.local && t.durable == s.durable && t.uploads == s.uploads
            && t.delivered == s.delivered && t.seeded == s.seeded
  {
    hide Run, Objects;
    RunSnoc(layout, h, Fetch(key, []));
    RunSnoc(layout, h + [Fetch(key, [])], Push(key));
    assert h + [Fetch(key, [])] + [Push(key)] == h + Deliver(key);
  }

  lemma RecordReaches(layout: Layout, h: seq<Event>, key: Key, at: string, fate: Fate)
    requires var s := Run(layout, h); s.running && key in s.parcels && s.parcels[key] == Parcel([], 1) && PlainTime(at)
    ensures Run(layout, h + [Record(key, at, fate)])
         == var s := Run(layout, h);
            s.(delivered := s.delivered[key := []], parcels := s.parcels - {key},
               local := Appended(s.local, Row(LedgerEntry(key, at)), fate))
  {
    hide Run, Appended, Row;
    RunSnoc(layout, h, Record(key, at, fate));
  }

  /** A flush whose upload works. */
  function Flush(): seq<Event> {
    [Snapshot, Land(0)]
  }

  lemma FlushReaches(layout: Layout, h: seq<Event>)
    requires var s := Run(layout, h); s.running && s.uploads == []
    ensures Run(layout, h + Flush()) == Run(layout, h).(durable := Some(Run(layout, h).local))
  {
    hide Run;
    RunSnoc(layout, h, Snapshot);
    RunSnoc(layout, h + [Snapshot], Land(0));
    assert h + [Snapshot] + [Land(0)] == h + Flush();
  }

  /** What a whole new row makes of an empty ledger. */
  lemma FirstRow(m: Mailbox, uid: nat, at: string)
    requires PlainEntry(KeyIn(m, uid), at)
    ensures KeysOf(Appended(Render([]), Row(LedgerEntry(KeyIn(m, uid), at)), Written)) == {KeyIn(m, uid)}
  {
    RenderNothing();
    EmptyLineIsNoRow();
    HarmlessAppendKeys(Render([]), KeyIn(m, uid), at, Written);
    hide KeysOf, Row, Render;
  }

  lemma SnapshotReaches(layout: Layout, h: seq<Event>)
    requires Run(layout, h).running
    ensures Run(layout, h + [Snapshot]) == var s := Run(layout, h); s.(uploads := s.uploads + [s.local])
  {
    hide Run;
    RunSnoc(layout, h, Snapshot);
  }

  /** Stopping the periodic flush does not stop its upload. When that one lands
      after the final flush, the durable ledger loses a delivered message. */
  lemma LateUploadLosesKey(layout: Layout, m: Mailbox, uid: nat, at: string)
    requires PlainServer(layout, MailboxState(m, {uid})) && PlainTime(at)
    ensures var key := KeyIn(m, uid);
            var h := [FirstStart(m, {uid}, at)] + Deliver(key) + [Snapshot] + [Record(key, at, Written)] + [Snapshot];
            && key in DurableKeys(Run(layout, h + [Land(1)]))
            && key !in DurableKeys(Run(layout, h + [Land(1)] + [Land(0)]))
  {
    var key := KeyIn(m, uid);
    ServedKeys(m, {uid}, key);
    StartReaches(layout, m, {uid}, at);
    FirstRow(m, uid, at);
    RenderNothing();
    NoKeys(Render([]));
    hide Run, Render, Row, Appended, KeysOf, Objects, ServerKeys, PlainServer, PlainTime, Deliver;
    DeliverReaches(layout, [FirstStart(m, {uid}, at)], key);
    var h := [FirstStart(m, {uid}, at)] + Deliver(key);
    SnapshotReaches(layout, h);
    RecordReaches(layout, h + [Snapshot], key, at, Written);
    SnapshotReaches(layout, h + [Snapshot] + [Record(key, at, Written)]);
    LandOutOfOrder(layout, h + [Snapshot] + [Record(key, at, Written)] + [Snapshot], Render([]),
                   Appended(Render([]), Row(LedgerEntry(key, at)), Written));
  }

  /** Uploads that land out of order leave the older text. */
  lemma LandOutOfOrder(layout: Layout, h: seq<Event>, older: string, newer: string)
    requires Run(layout, h).uploads == [older, newer]
    ensures Run(layout, h + [Land(1)]).durable == Some(newer)
    ensures Run(layout, h + [Land(1)] + [Land(0)]).durable == Some(older)
  {
    hide Run, Objects;
    RunSnoc(layout, h, Land(1));
    assert Without([older, newer], 1) == [older];
    RunSnoc(layout, h + [Land(1)], Land(0));
  }

  /** A new process that finds the ledger empty. */
  lemma RestartReaches(layout: Layout, h: seq<Event>, start: Event)
    requires var s := Run(layout, h); !s.running && s.durable == Some(Render([]))
    requires start.Start? && start.listing == [] && start.rows == [] && PlainTime(start.at)
    requires forall m <- start.server :: PlainServer(layout, m)
    ensures var s, t := Run(layout, h), Run(layout, h + [start]);
            t.running && t.local == Render([]) && t.durable == s.durable && t.uploads == s.uploads
  {
    RenderNothing();
    hide Run, Render, PlainServer, PlainTime, ServerKeys;
    assert Loaded(Run(layout, h).durable, start) == map[];
    RunSnoc(layout, h, start);
  }

  lemma LandReaches(layout: Layout, h: seq<Event>, upload: string)
    requires Run(layout, h).uploads == [upload]
    ensures Run(layout, h + [Land(0)]) == Run(layout, h).(durable := Some(upload), uploads := [])
  {
    hide Run;
    RunSnoc(layout, h, Land(0));
    assert Without([upload], 0) == [];
  }

  /** Snapshot, then the process ends with the upload still under way. */
  lemma LeaveUpload(layout: Layout, h: seq<Event>)
    requires var s := Run(layout, h); s.running && s.uploads == []
    ensures var s, t := Run(layout, h), Run(layout, h + [Snapshot] + [Stop]);
            !t.running && t.uploads == [s.local] && t.durable == s.durable
  {
    hide Run;
    RunSnoc(layout, h, Snapshot);
    RunSnoc(layout, h + [Snapshot], Stop);
  }

  /** Nor does ending the process. An upload it leaves behind makes a key durable
      that the next process, already started, does not know and flushes away. */
  lemma LeftoverUploadIsFlushedAway(layout: Layout, m: Mailbox, uid: nat, at: string)
    requires PlainServer(layout, MailboxState(m, {uid})) && PlainTime(at)
    ensures var key, start := KeyIn(m, uid), FirstStart(m, {uid}, at);
            var h := [start] + Deliver(key) + [Record(key, at, Written)] + [Snapshot] + [Stop] + [start] + [Land(0)];
            key in DurableKeys(Run(layout, h)) && key !in DurableKeys(Run(layout, h + Flush()))
  {
    var key, start := KeyIn(m, uid), FirstStart(m, {uid}, at);
    ServedKeys(m, {uid}, key);
    StartReaches(layout, m, {uid}, at);
    FirstRow(m, uid, at);
    RenderNothing();
    NoKeys(Render([]));
    hide Run, Render, Row, Appended, KeysOf, ServerKeys, Deliver, Flush, PlainServer, PlainTime, Objects;
    DeliverReaches(layout, [start], key);
    RecordReaches(layout, [start] + Deliver(key), key, at, Written);
    var h := [start] + Deliver(key) + [Record(key, at, Written)];
    LeaveUpload(layout, h);
    RestartReaches(layout, h + [Snapshot] + [Stop], start);
    LandReaches(layout, h + [Snapshot] + [Stop] + [start], Run(layout, h).local);
    FlushReaches(layout, h + [Snapshot] + [Stop] + [start] + [Land(0)]);
  }

  lemma NoKeys(text: string)
    requires Parse(text) == map[]
    ensures KeysOf(text) == {}
  {
  }

  lemma ServedKeys(m: Mailbox, uids: set<nat>, key: Key)
    requires exists uid :: uid in uids && key == KeyIn(m, uid)
    ensures key in ServerKeys([MailboxState(m, uids)])
  {
    assert MailboxState(m, uids) in [MailboxState(m, uids)];
  }

  /** Two messages of one mailbox, both pushed and not yet recorded. */
  function TwoPushed(m: Mailbox, uid1: nat, uid2: nat, at: string): seq<Event> {
    [FirstStart(m, {uid1, uid2}, at)] + Deliver(KeyIn(m, uid1)) + Deliver(KeyIn(m, uid2))
  }

  lemma TwoPushedReaches(layout: Layout, m: Mailbox, uid1: nat, uid2: nat, at: string)
    requires PlainServer(layout, MailboxState(m, {uid1, uid2})) && PlainTime(at) && uid1 != uid2
    ensures var s := Run(layout, TwoPushed(m, uid1, uid2, at));
            && s.running && s.uploads == [] && s.local == Render([]) && s.delivered == map[] && s.seeded == {}
            && s.parcels == map[KeyIn(m, uid1) := Parcel([], 1), KeyIn(m, uid2) := Parcel([], 1)]
    ensures PlainEntry(KeyIn(m, uid1), at) && PlainEntry(KeyIn(m, uid2), at)
  {
    var key1, key2 := KeyIn(m, uid1), KeyIn(m, uid2);
    ServedKeys(m, {uid1, uid2}, key1);
    ServedKeys(m, {uid1, uid2}, key2);
    StartReaches(layout, m, {uid1, uid2}, at);
    ServerPlain(layout, m, {uid1, uid2}, uid1, at);
    ServerPlain(layout, m, {uid1, uid2}, uid2, at);
    hide Run, Render, ServerKeys, PlainServer, PlainTime, Deliver, PlainEntry;
    DeliverReaches(layout, [FirstStart(m, {uid1, uid2}, at)], key1);
    DeliverReaches(layout, [FirstStart(m, {uid1, uid2}, at)] + Deliver(key1), key2);
  }

  /** A row torn inside its time is durable once flushed, and lost again at the
      next row and flush, although every upload lands in order. */
  lemma TornTimeLosesKey(layout: Layout, m: Mailbox, uid1: nat, uid2: nat, at: string, kept: nat)
    requires PlainServer(layout, MailboxState(m, {uid1, uid2})) && PlainTime(at) && uid1 != uid2
    requires |RowHead(KeyIn(m, uid1))| <= kept
    ensures var key1, key2 := KeyIn(m, uid1), KeyIn(m, uid2);
            var h := TwoPushed(m, uid1, uid2, at) + [Record(key1, at, WriteFailed(kept))] + Flush();
            && DurableKeys(Run(layout, h)) == {key1}
            && DurableKeys(Run(layout, h + [Record(key2, at, Written)] + Flush())) == {}
  {
    var key1, key2 := KeyIn(m, uid1), KeyIn(m, uid2);
    hide Run, Render, Row, Appended, KeysOf, PlainServer, PlainTime, PlainEntry, TwoPushed, Flush, RowHead;
    TwoPushedReaches(layout, m, uid1, uid2, at);
    RecordReaches(layout, TwoPushed(m, uid1, uid2, at), key1, at, WriteFailed(kept));
    var h := TwoPushed(m, uid1, uid2, at) + [Record(key1, at, WriteFailed(kept))];
    FlushReaches(layout, h);
    RecordReaches(layout, h + Flush(), key2, at, Written);
    FlushReaches(layout, h + Flush() + [Record(key2, at, Written)]);
    TornTimeThenRow(key1, key2, at, kept);
  }

  lemma ServerPlain(layout: Layout, m: Mailbox, uids: set<nat>, uid: nat, at: string)
    requires PlainServer(layout, MailboxState(m, uids)) && PlainTime(at) && uid in uids
    ensures PlainEntry(KeyIn(m, uid), at)
  {
  }

  /** An empty ledger with a piece of a row is that piece, unfinished. */
  lemma FirstPiece(key: Key, at: string, fate: Fate)
    requires PlainEntry(key, at) && !fate.Written?
    ensures var torn := Appended(Render([]), Row(LedgerEntry(key, at)), fate);
            && '\r' !in torn && Head(torn) == Render([]) && Tail(torn) == Piece(Row(LedgerEntry(key, at)), fate)
            && KeysOf(torn) == if ReachesTime(key, fate) then {key} else {}
    ensures LineKey(Piece(Row(LedgerEntry(key, at)), fate)) == if ReachesTime(key, fate) then Some(key) else None
  {
    var e := LedgerEntry(key, at);
    RenderNothing();
    NoKeys(Render([]));
    PlainIsWritable(key, at);
    AppendedKeys(Render([]), e, fate);
    PieceKey(e, fate);
    AppendedParts(Render([]), Row(e), fate);
    assert Tail(Render([])) + Piece(Row(e), fate) == Piece(Row(e), fate);
    assert Head(Render([])) == Render([]);
    hide Render, Row, KeysOf, ParseLine, Writable, OneLine, PlainEntry, Head, Tail, RowHead, Appended;
  }

  lemma TornTimeThenRow(key1: Key, key2: Key, at: string, kept: nat)
    requires PlainEntry(key1, at) && PlainEntry(key2, at) && |RowHead(key1)| <= kept
    ensures var torn := Appended(Render([]), Row(LedgerEntry(key1, at)), WriteFailed(kept));
            && KeysOf(torn) == {key1}
            && KeysOf(Appended(torn, Row(LedgerEntry(key2, at)), Written)) == {}
  {
    hide Render, Row, KeysOf, ParseLine, Writable, OneLine, PlainEntry, Head, Tail, RowHead, Appended;
    var torn := Appended(Render([]), Row(LedgerEntry(key1, at)), WriteFailed(kept));
    FirstPiece(key1, at, WriteFailed(kept));
    RenderNothing();
    NoKeys(Render([]));
    PlainIsWritable(key2, at);
    AppendedKeys(torn, LedgerEntry(key2, at), Written);
    NoTabNoKey(Tail(torn));
    EmptyLineIsNoRow();
    GluedRow(Tail(torn), LedgerEntry(key2, at));
  }

  /** A row torn inside its mailbox name forges a key with the next one: the
      ledger then has a row for a message that was never delivered nor seeded. */
  lemma TornNameForgesKey(layout: Layout, m: Mailbox, uid1: nat, uid2: nat, at: string, kept: nat)
    requires PlainServer(layout, MailboxState(m, {uid1, uid2})) && PlainTime(at) && uid1 != uid2
    requires 0 < kept <= |m.name|
    ensures var key1, key2 := KeyIn(m, uid1), KeyIn(m, uid2);
            var h := TwoPushed(m, uid1, uid2, at) + [Record(key1, at, WriteFailed(kept))] + [Record(key2, at, Written)];
            var forged := key2.(mailbox := m.name[..kept] + m.name);
            var s := Run(layout, h);
            KeysOf(s.local) == {forged} && forged !in s.delivered && forged !in s.seeded
  {
    var key1, key2 := KeyIn(m, uid1), KeyIn(m, uid2);
    hide Run, Render, Row, Appended, KeysOf, PlainServer, PlainTime, PlainEntry, TwoPushed;
    TwoPushedReaches(layout, m, uid1, uid2, at);
    RecordReaches(layout, TwoPushed(m, uid1, uid2, at), key1, at, WriteFailed(kept));
    RecordReaches(layout, TwoPushed(m, uid1, uid2, at) + [Record(key1, at, WriteFailed(kept))], key2, at, Written);
    TornNameThenRow(key1, key2, at, kept);
    assert |m.name[..kept] + m.name| > |m.name|;
  }

  lemma TornNameThenRow(key1: Key, key2: Key, at: string, kept: nat)
    requires PlainEntry(key1, at) && PlainEntry(key2, at) && 0 < kept <= |key1.mailbox|
    ensures var torn := Appended(Render([]), Row(LedgerEntry(key1, at)), WriteFailed(kept));
            KeysOf(Appended(torn, Row(LedgerEntry(key2, at)), Written))
              == {key2.(mailbox := key1.mailbox[..kept] + key2.mailbox)}
  {
    hide Render, KeysOf, ParseLine, Writable, OneLine, PlainEntry, Head, Tail, Appended;
    var torn := Appended(Render([]), Row(LedgerEntry(key1, at)), WriteFailed(kept));
    FirstPiece(key1, at, WriteFailed(kept));
    RowIsHeadAndTime(LedgerEntry(key1, at));
    assert Tail(torn) == key1.mailbox[..kept];
    hide Row, RowHead;
    RenderNothing();
    NoKeys(Render([]));
    PlainIsWritable(key2, at);
    AppendedKeys(torn, LedgerEntry(key2, at), Written);
    NoHash(key1, at, kept);
    GluedRow(Tail(torn), LedgerEntry(key2, at));
  }

  lemma NoHash(key: Key, at: string, kept: nat)
    requires PlainEntry(key, at) && 0 < kept <= |key.mailbox|
    ensures '\t' !in key.mailbox[..kept] && !("#" <= key.mailbox[..kept])
  {
    assert key.mailbox[..kept][0] == key.mailbox[0];
  }

  // ----- two mailboxes on one path -----

  /** Every object of a delivered message is still that message's own. */
  ghost predicate StillOwn(layout: Layout, s: State, key: Key)
    requires key in s.delivered
  {
    forall o <- Objects(layout, key, s.delivered[key]) :: o in s.objects && s.objects[o] == Some(key)
  }

  ghost predicate SharePath(layout: Layout, s: State, k: Key, l: Key)
    requires k in s.delivered && l in s.delivered
  {
    exists o <- Objects(layout, k, s.delivered[k]) :: o in Objects(layout, l, s.delivered[l])
  }

  /** Whoever holds an object at the destination is delivered and put it there. */
  ghost predicate OnlyDeliveries(layout: Layout, s: State) {
    forall o | o in s.objects ::
      && s.objects[o].Some? && s.objects[o].value in s.delivered
      && o in Objects(layout, s.objects[o].value, s.delivered[s.objects[o].value])
  }

  /** Where only delivered messages have written, every one of them still has
      its own objects exactly when no two share a path. Two mailboxes that are
      put on one path overwrite each other. */
  lemma OwnObjectsIffApart(layout: Layout, history: seq<Event>)
    requires Harmless(layout, history) && OnlyDeliveries(layout, Run(layout, history))
    ensures var s := Run(layout, history);
            (forall k | k in s.delivered :: StillOwn(layout, s, k))
              <==> (forall k, l | k in s.delivered && l in s.delivered && k != l :: !SharePath(layout, s, k, l))
  {
    RowsAreBacked(layout, history);
    var s := Run(layout, history);
    assert forall k | k in s.delivered :: FullyPushed(layout, s, k);
    hide Run, Objects, Harmless;
    if forall k | k in s.delivered :: StillOwn(layout, s, k) {
      forall k, l | k in s.delivered && l in s.delivered && k != l
        ensures !SharePath(layout, s, k, l)
      {
        assert StillOwn(layout, s, k) && StillOwn(layout, s, l);
      }
    }
    if forall k, l | k in s.delivered && l in s.delivered && k != l :: !SharePath(layout, s, k, l) {
      forall k, o | k in s.delivered && o in Objects(layout, k, s.delivered[k])
        ensures s.objects[o] == Some(k)
      {
        assert FullyPushed(layout, s, k);
        var owner := s.objects[o].value;
        assert o in Objects(layout, owner, s.delivered[owner]);
        assert SharePath(layout, s, k, owner);
      }
    }
  }

  // ----- who wrote a path last -----

  /** The path an event writes at the destination, and whose object it puts there. */
  ghost function Writes(layout: Layout, s: State, e: Event): Option<(string, Option<Key>)> {
    if !Enabled(layout, s, e) then None
    else match e
      case OtherObject(path) => Some((path, None))
      case Push(key) => Some((Objects(layout, key, s.parcels[key].attachments)[s.parcels[key].arrived], Some(key)))
      case _ => None
  }

  ghost predicate WritesPath(layout: Layout, history: seq<Event>, i: nat, path: string)
    requires i < |history|
  {
    var w := Writes(layout, Run(layout, history[..i]), history[i]);
    w.Some? && w.value.0 == path
  }

  /** Event `i` is the last that wrote `path`, and wrote an object of `owner`. */
  ghost predicate WroteLast(layout: Layout, history: seq<Event>, i: nat, path: string, owner: Option<Key>) {
    && i < |history| && Writes(layout, Run(layout, history[..i]), history[i]) == Some((path, owner))
    && forall j | i < j < |history| :: !WritesPath(layout, history, j, path)
  }

  ghost predicate LastWriter(layout: Layout, history: seq<Event>, path: string, owner: Option<Key>) {
    exists i: nat :: WroteLast(layout, history, i, path, owner)
  }

  lemma WritesAreObjects(layout: Layout, s: State, e: Event)
    ensures var t := if Enabled(layout, s, e) then Step(layout, s, e) else s;
            var w := Writes(layout, s, e);
            t.objects == if w.Some? then s.objects[w.value.0 := w.value.1] else s.objects
  {
    hide Objects, Render, Appended, Row;
  }

  lemma LastWriterSnoc(layout: Layout, history: seq<Event>, e: Event, path: string, owner: Option<Key>)
    ensures var w := Writes(layout, Run(layout, history), e);
            LastWriter(layout, history + [e], path, owner) <==>
              if w.Some? && w.value.0 == path then w.value.1 == owner else LastWriter(layout, history, path, owner)
  {
    hide Run, Writes;
    var more, n := history + [e], |history|;
    assert more[..n] == history && more[n] == e;
    forall i | 0 <= i < n
      ensures more[..i] == history[..i] && more[i] == history[i]
      ensures WritesPath(layout, more, i, path) <==> WritesPath(layout, history, i, path)
    {
    }
    var w := Writes(layout, Run(layout, history), e);
    assert WritesPath(layout, more, n, path) <==> w.Some? && w.value.0 == path;
    if LastWriter(layout, more, path, owner) {
      var i: nat :| WroteLast(layout, more, i, path, owner);
      if i < n { assert WroteLast(layout, history, i, path, owner); }
    }
    if w == Some((path, owner)) {
      assert WroteLast(layout, more, n, path, owner);
    } else if !WritesPath(layout, more, n, path) && LastWriter(layout, history, path, owner) {
      var i: nat :| WroteLast(layout, history, i, path, owner);
      assert WroteLast(layout, more, i, path, owner);
    }
  }

  /** A path holds what was last written to it. */
  lemma {:induction false} ObjectsAreLastWrites(layout: Layout, history: seq<Event>, path: string, owner: Option<Key>)
    ensures var objects := Run(layout, history).objects;
            path in objects && objects[path] == owner <==> LastWriter(layout, history, path, owner)
  {
    if history == [] {
      assert !LastWriter(layout, history, path, owner);
    } else {
      var before, e := Init(history), Last(history);
      assert before + [e] == history;
      ObjectsAreLastWrites(layout, before, path, owner);
      RunSnoc(layout, before, e);
      hide Run, Writes, LastWriter, Step, Enabled;
      WritesAreObjects(layout, Run(layout, before), e);
      LastWriterSnoc(layout, before, e, path, owner);
    }
  }

  /** In every reachable state, whatever else is at the destination, a delivered
      message still has its own objects exactly when each of their paths was
      last written by a push of that message. */
  lemma OwnObjectsIffWroteLast(layout: Layout, history: seq<Event>, key: Key)
    requires key in Run(layout, history).delivered
    ensures var s := Run(layout, history);
            StillOwn(layout, s, key) <==>
              forall o <- Objects(layout, key, s.delivered[key]) :: LastWriter(layout, history, o, Some(key))
  {
    hide Run, LastWriter, Objects;
    var s := Run(layout, history);
    forall o | o in Objects(layout, key, s.delivered[key])
      ensures (o in s.objects && s.objects[o] == Some(key)) <==> LastWriter(layout, history, o, Some(key))
    {
      ObjectsAreLastWrites(layout, history, o, Some(key));
    }
  }
}
