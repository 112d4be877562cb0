/**
 One identity's import across crashes and restarts: objects at the
 destination, the durable ledger, its working copy, and the uploads between
 them (`email_import/mod.rs`, `email_import/worker.rs`, `email_import/ledger.rs`).
 */
module ImportRuns {
  import opened Wrappers
  import opened Text
  import opened LedgerFile
  import opened LedgerSeed

  /** Where `sanitize_mailbox_path` puts a mailbox. */
  type Layout = string -> string

  /** A message on its way: its attachments, and how many objects have arrived. */
  datatype Parcel = Parcel(attachments: seq<string>, arrived: nat)

  /** `delivered` and `seeded` are history: the messages every object of which
      was pushed, and those a first ledger was seeded with. */
  datatype State = State(
    objects: map<string, Option<Key>>,   // whose object each path holds; `None` for another program's
    durable: Option<string>,
    local: string,
    uploads: seq<string>,
    running: bool,
    pending: set<Key>,
    parcels: map<Key, Parcel>,
    delivered: map<Key, seq<string>>,
    seeded: set<Key>)

  const NEW_ACCOUNT := State(map[], None, "", [], false, {}, map[], map[], {})

  datatype Event =
    | OtherObject(path: string)     // another program writes to the destination
    | Start(server: seq<MailboxState>, listing: seq<string>, at: string, rows: seq<LedgerEntry>)
    | Fetch(key: Key, attachments: seq<string>)
    | Push(key: Key)                  // the next object of a message arrives
    | GiveUp(key: Key)                // a push failed
    | Record(key: Key, at: string, fate: Fate)
    | Snapshot                        // a flush copies the working copy and starts its upload
    | Land(upload: nat)
    | UploadFails(upload: nat)
    | Stop                            // the process exits or is killed

  function AttachmentPath(relpath: string, uid: nat, name: string): string {
    (if relpath == "" then "" else relpath + "/") + Decimal(uid) + "/attachments/" + name
  }

  /** A message's objects in push order: the `.eml`, then its attachments. */
  function Objects(layout: Layout, key: Key, attachments: seq<string>): (r: seq<string>)
    ensures |r| == 1 + |attachments|
  {
    [EmlPath(layout(key.mailbox), key.uid)]
    + seq(|attachments|, i requires 0 <= i < |attachments| =>
        AttachmentPath(layout(key.mailbox), key.uid, attachments[i]))
  }

  function Mailboxes(server: seq<MailboxState>): (r: seq<Mailbox>)
    ensures |r| == |server| && forall i | 0 <= i < |r| :: r[i] == server[i].mailbox
  {
    seq(|server|, i requires 0 <= i < |server| => server[i].mailbox)
  }

  /** `load_or_seed`: the durable ledger, or one seeded from the destination. */
  function Loaded(durable: Option<string>, e: Event): Entries
    requires e.Start?
  {
    match durable
    case Some(text) => Parse(text)
    case None => Seed(e.listing, Mailboxes(e.server), e.at)
  }

  // ----- what the environment may do -----

  predicate PlainName(name: string) {
    '\t' !in name && '\n' !in name && '\r' !in name && !("#" <= name)
  }

  predicate PlainTime(at: string) {
    '\t' !in at && '\n' !in at && '\r' !in at
  }

  predicate PlainEntry(key: Key, at: string) {
    PlainName(key.mailbox) && PlainTime(at) && key.uidvalidity < 0x1_0000_0000 && key.uid < 0x1_0000_0000
  }

  predicate PlainServer(layout: Layout, m: MailboxState) {
    && PlainName(m.mailbox.name) && m.mailbox.uidvalidity < 0x1_0000_0000
    && m.mailbox.relpath == layout(m.mailbox.name)
    && forall uid <- m.serverUids :: uid < 0x1_0000_0000
  }

  ghost predicate Enabled(layout: Layout, s: State, e: Event) {
    match e
    case OtherObject(_) => true
    case Start(server, listing, at, rows) =>
      && !s.running && PlainTime(at)
      && (forall m <- server :: PlainServer(layout, m))
      && (forall path <- listing :: path in s.objects)
      && Holds(Loaded(s.durable, e), rows) && DistinctKeys(rows)
    case Fetch(key, _) => s.running && key in s.pending
    case Push(key) =>
      s.running && key in s.parcels && s.parcels[key].arrived <= |s.parcels[key].attachments|
    case GiveUp(key) =>
      s.running && key in s.parcels && s.parcels[key].arrived <= |s.parcels[key].attachments|
    case Record(key, at, _) =>
      && s.running && PlainTime(at)
      && key in s.parcels && s.parcels[key].arrived == 1 + |s.parcels[key].attachments|
    case Snapshot => s.running
    case Land(i) => i < |s.uploads|
    case UploadFails(i) => i < |s.uploads|
    case Stop => s.running
  }

  ghost function Step(layout: Layout, s: State, e: Event): State
    requires Enabled(layout, s, e)
  {
    match e
    case OtherObject(path) => s.(objects := s.objects[path := None])
    case Start(server, _, _, rows) =>
      s.(running := true,
         local := Render(rows),
         durable := if s.durable.None? then Some(Render(rows)) else s.durable,
         seeded := if s.durable.None? then s.seeded + Loaded(s.durable, e).Keys else s.seeded,
         pending := ServerKeys(server) - Loaded(s.durable, e).Keys,
         parcels := map[])
    case Fetch(key, attachments) =>
      s.(pending := s.pending - {key}, parcels := s.parcels[key := Parcel(attachments, 0)])
    case Push(key) =>
      var p := s.parcels[key];
      s.(objects := s.objects[Objects(layout, key, p.attachments)[p.arrived] := Some(key)],
         parcels := s.parcels[key := p.(arrived := p.arrived + 1)])
    case GiveUp(key) => s.(parcels := s.parcels - {key})
    case Record(key, at, fate) =>
      s.(delivered := s.delivered[key := s.parcels[key].attachments],
         local := Appended(s.local, Row(LedgerEntry(key, at)), fate),
         parcels := s.parcels - {key})
    case Snapshot => s.(uploads := s.uploads + [s.local])
    case Land(i) => s.(durable := Some(s.uploads[i]), uploads := Without(s.uploads, i))
    case UploadFails(i) => s.(uploads := Without(s.uploads, i))
    case Stop => s.(running := false, pending := {}, parcels := map[])
  }

  function Without<T>(xs: seq<T>, i: nat): seq<T>
    requires i < |xs|
  {
    xs[..i] + xs[i + 1..]
  }

  ghost function Run(layout: Layout, history: seq<Event>): State {
    if history == [] then NEW_ACCOUNT
    else
      var s := Run(layout, Init(history));
      if Enabled(layout, s, Last(history)) then Step(layout, s, Last(history)) else s
  }

  /** Every append of the history starts on a line of its own, or goes on with a
      torn piece that stands for nothing and still does afterwards. */
  ghost predicate Harmless(layout: Layout, history: seq<Event>) {
    forall i | 0 <= i < |history| :: HarmlessEvent(Run(layout, history[..i]), history[i])
  }

  predicate HarmlessEvent(s: State, e: Event) {
    e.Record? ==> HarmlessAppend(s.local, LedgerEntry(e.key, e.at), e.fate)
  }

  // ----- the invariant -----

  /** Every object of a delivery of `key` arrived. */
  ghost predicate FullyPushed(layout: Layout, s: State, key: Key) {
    key in s.delivered && forall o <- Objects(layout, key, s.delivered[key]) :: o in s.objects
  }

  /** The destination lists a message under `key`'s mailbox path and UID. */
  ghost predicate EmlListed(layout: Layout, s: State, key: Key) {
    exists path <- s.objects :: Listed(path) == Some((layout(key.mailbox), key.uid))
  }

  /** Every row of `text` stands for a delivered or seeded message. */
  ghost predicate Backed(s: State, text: string) {
    '\r' !in text && forall k | k in Parse(text) :: k in s.delivered || k in s.seeded
  }

  ghost predicate Texts(s: State) {
    && Backed(s, s.local)
    && (s.durable.Some? ==> Backed(s, s.durable.value))
    && forall i | 0 <= i < |s.uploads| :: Backed(s, s.uploads[i])
  }

  ghost predicate Pushes(layout: Layout, s: State) {
    && (forall k | k in s.pending :: PlainEntry(k, ""))
    && (forall k | k in s.parcels :: PlainEntry(k, "") && Arrived(layout, s, k))
    && (forall k | k in s.delivered :: FullyPushed(layout, s, k))
    && (forall k | k in s.seeded :: EmlListed(layout, s, k))
  }

  ghost predicate Arrived(layout: Layout, s: State, key: Key)
    requires key in s.parcels
  {
    var p := s.parcels[key];
    && p.arrived <= 1 + |p.attachments|
    && forall i | 0 <= i < p.arrived :: Objects(layout, key, p.attachments)[i] in s.objects
  }

  lemma PlainIsWritable(key: Key, at: string)
    requires PlainEntry(key, at)
    ensures Writable(LedgerEntry(key, at)) && OneLine(LedgerEntry(key, at))
  {
    var e := LedgerEntry(key, at);
    RowIsHeadAndTime(e);
    assert !IsDigit('\n') && !IsDigit('\r');
  }

  /** What is read from a text without carriage returns can be written again. */
  lemma ParsedIsPlain(text: string, k: Key)
    requires '\r' !in text && k in Parse(text)
    ensures PlainEntry(k, Parse(text)[k])
  {
    hide Parse;
    ParsedIsReadable(text, k);
  }

  /** Adding to the history of deliveries keeps every text backed. */
  lemma BackedGrows(s: State, t: State, text: string)
    requires Backed(s, text)
    requires s.delivered.Keys <= t.delivered.Keys && s.seeded <= t.seeded
    ensures Backed(t, text)
  {
    hide Parse, PlainEntry;
  }

  lemma RenderedIsLoaded(rows: seq<LedgerEntry>, entries: Entries)
    requires Holds(entries, rows) && DistinctKeys(rows)
    requires forall k | k in entries :: PlainEntry(k, entries[k])
    ensures Parse(Render(rows)) == entries && Terminated(Render(rows)) && '\r' !in Render(rows)
  {
    hide Parse, Render, Writable, PlainEntry, Row;
    forall e | e in rows
      ensures Writable(e) && OneLine(e)
    {
      assert e == LedgerEntry(e.key, entries[e.key]);
      PlainIsWritable(e.key, e.ingestedAt);
    }
    RenderedParses(rows);
    SerializeParses(rows, entries);
    RenderedHasNoReturn(rows);
  }

  lemma {:induction false} RenderedHasNoReturn(rows: seq<LedgerEntry>)
    requires forall e | e in rows :: OneLine(e)
    ensures '\r' !in Render(rows)
  {
    if rows != [] {
      hide OneLine;
      RenderedHasNoReturn(Init(rows));
      LastRowHasNoReturn(rows);
    }
  }

  lemma LastRowHasNoReturn(rows: seq<LedgerEntry>)
    requires rows != [] && OneLine(Last(rows))
    ensures '\r' !in Render(Init(rows)) ==> '\r' !in Render(rows)
  {
    hide Row;
  }

  lemma SeedIsPlain(layout: Layout, s: State, e: Event, k: Key)
    requires e.Start? && Enabled(layout, s, e)
    requires k in Seed(e.listing, Mailboxes(e.server), e.at)
    ensures PlainEntry(k, Seed(e.listing, Mailboxes(e.server), e.at)[k])
    ensures EmlListed(layout, s, k)
  {
    hide Seed;
    var path, m := SeededIsListed(e.listing, Mailboxes(e.server), e.at, k);
    SeededIffListed(e.listing, Mailboxes(e.server), e.at, k);
    var i :| 0 <= i < |e.server| && Mailboxes(e.server)[i] == m;
    assert PlainServer(layout, e.server[i]);
    assert Listed(path) == Some((layout(k.mailbox), k.uid));
  }

  /** A harmless append adds at most its own key and loses none. */
  lemma HarmlessAppendKeys(text: string, key: Key, at: string, fate: Fate)
    requires PlainEntry(key, at) && '\r' !in text && HarmlessAppend(text, LedgerEntry(key, at), fate)
    ensures var after := Appended(text, Row(LedgerEntry(key, at)), fate);
            && '\r' !in after
            && KeysOf(after) == KeysOf(text) + if Terminated(text) && ReachesTime(key, fate) then {key} else {}
  {
    hide KeysOf, Row, ParseLine, Writable, PlainEntry, OneLine, Head, Tail, Appended, RowHead, Piece;
    var e := LedgerEntry(key, at);
    PlainIsWritable(key, at);
    AppendedKeys(text, e, fate);
    PieceKey(e, fate);
    assert Tail(text) == "" ==> Tail(text) + Piece(Row(e), fate) == Piece(Row(e), fate);
    EmptyLineIsNoRow();
  }

  lemma RecordIsBacked(s: State, t: State, key: Key, at: string, fate: Fate)
    requires HarmlessAppend(s.local, LedgerEntry(key, at), fate) && PlainEntry(key, at) && Backed(s, s.local)
    requires t.local == Appended(s.local, Row(LedgerEntry(key, at)), fate)
    requires s.delivered.Keys + {key} <= t.delivered.Keys && s.seeded <= t.seeded
    ensures Backed(t, t.local)
  {
    HarmlessAppendKeys(s.local, key, at, fate);
    BackedGrows(s, t, s.local);
    hide Parse, Row, PlainEntry, Appended, HarmlessAppend, RowHead;
    forall k | k in Parse(t.local)
      ensures k in t.delivered || k in t.seeded
    {
      assert k in KeysOf(t.local);
      assert k in KeysOf(s.local) || k == key;
    }
  }

  lemma StartIsBacked(layout: Layout, s: State, e: Event)
    requires e.Start? && Enabled(layout, s, e) && Texts(s) && Pushes(layout, s)
    ensures Texts(Step(layout, s, e)) && Pushes(layout, Step(layout, s, e))
    ensures Parse(Step(layout, s, e).local) == Loaded(s.durable, e) && Terminated(Step(layout, s, e).local)
  {
    hide Parse, Render, Seed;
    var entries := Loaded(s.durable, e);
    var t := Step(layout, s, e);
    forall k | k in entries
      ensures PlainEntry(k, entries[k]) && (k in t.delivered || k in t.seeded)
    {
      if s.durable.None? { SeedIsPlain(layout, s, e, k); } else { ParsedIsPlain(s.durable.value, k); }
    }
    RenderedIsLoaded(e.rows, entries);
    forall i | 0 <= i < |t.uploads|
      ensures Backed(t, t.uploads[i])
    {
      BackedGrows(s, t, s.uploads[i]);
    }
    if s.durable.Some? { BackedGrows(s, t, s.durable.value); }
    forall k | k in t.seeded
      ensures EmlListed(layout, t, k)
    {
      if k !in s.seeded { SeedIsPlain(layout, s, e, k); }
    }
    forall k | k in t.pending
      ensures PlainEntry(k, "")
    {
      var m :| m in e.server && k.uid in m.serverUids &&
          k.mailbox == m.mailbox.name && k.uidvalidity == m.mailbox.uidvalidity;
      assert PlainServer(layout, m);
    }
    forall k | k in t.delivered
      ensures FullyPushed(layout, t, k)
    {
      assert FullyPushed(layout, s, k);
    }
  }

  lemma ObjectsStay(layout: Layout, s: State, t: State, key: Key)
    requires s.objects.Keys <= t.objects.Keys
    ensures FullyPushed(layout, s, key) && key in t.delivered && t.delivered[key] == s.delivered[key] ==>
        FullyPushed(layout, t, key)
    ensures EmlListed(layout, s, key) ==> EmlListed(layout, t, key)
  {
  }

  /** Fetching, pushing and giving up move messages along without touching a ledger. */
  lemma MoveKeepsPushes(layout: Layout, s: State, e: Event)
    requires Enabled(layout, s, e) && Pushes(layout, s)
    requires e.OtherObject? || e.Fetch? || e.Push? || e.GiveUp? || e.Stop? || e.Snapshot? || e.Land? || e.UploadFails?
    ensures Pushes(layout, Step(layout, s, e))
  {
    hide PlainEntry;
    var t := Step(layout, s, e);
    forall k
      ensures k in t.delivered ==> FullyPushed(layout, t, k)
      ensures k in t.seeded ==> EmlListed(layout, t, k)
    {
      ObjectsStay(layout, s, t, k);
    }
    hide FullyPushed, EmlListed;
    forall k | k in t.parcels
      ensures PlainEntry(k, "") && Arrived(layout, t, k)
    {
      if k in s.parcels { assert Arrived(layout, s, k); }
    }
  }

  lemma RecordKeepsPushes(layout: Layout, s: State, e: Event)
    requires e.Record? && Enabled(layout, s, e) && Pushes(layout, s)
    ensures Pushes(layout, Step(layout, s, e))
  {
    hide PlainEntry;
    var t := Step(layout, s, e);
    forall k | k in t.delivered
      ensures FullyPushed(layout, t, k)
    {
      if k == e.key {
        assert Arrived(layout, s, k);
      } else {
        assert FullyPushed(layout, s, k);
      }
    }
    forall k | k in t.seeded
      ensures EmlListed(layout, t, k)
    {
      ObjectsStay(layout, s, t, k);
    }
    forall k | k in t.parcels
      ensures Arrived(layout, t, k)
    {
      assert Arrived(layout, s, k);
    }
  }

  lemma StepIsBacked(layout: Layout, s: State, e: Event)
    requires Enabled(layout, s, e) && Texts(s) && Pushes(layout, s)
    requires HarmlessEvent(s, e)
    ensures Texts(Step(layout, s, e)) && Pushes(layout, Step(layout, s, e))
  {
    var t := Step(layout, s, e);
    if e.Start? {
      StartIsBacked(layout, s, e);
    } else if e.Record? {
      hide Parse, Row, Objects, Appended;
      RecordKeepsPushes(layout, s, e);
      PlainWithTime(e.key, e.at);
      hide Pushes, PlainEntry;
      RecordIsBacked(s, t, e.key, e.at, e.fate);
      if s.durable.Some? { BackedGrows(s, t, s.durable.value); }
      forall i | 0 <= i < |t.uploads| ensures Backed(t, t.uploads[i]) {
        BackedGrows(s, t, s.uploads[i]);
      }
    } else {
      MoveKeepsPushes(layout, s, e);
      hide Parse, PlainEntry, Pushes, Objects;
      MoveKeepsTexts(layout, s, e);
    }
  }

  lemma PlainWithTime(key: Key, at: string)
    ensures PlainEntry(key, "") && PlainTime(at) ==> PlainEntry(key, at)
  {
  }

  lemma MoveKeepsTexts(layout: Layout, s: State, e: Event)
    requires Enabled(layout, s, e) && Texts(s) && !e.Start? && !e.Record?
    ensures Texts(Step(layout, s, e))
  {
    hide Parse, PlainEntry, Objects;
    var t := Step(layout, s, e);
    BackedGrows(s, t, s.local);
    if s.durable.Some? { BackedGrows(s, t, s.durable.value); }
    forall i | 0 <= i < |s.uploads| ensures Backed(t, s.uploads[i]) {
      BackedGrows(s, t, s.uploads[i]);
    }
  }

  lemma HarmlessInit(layout: Layout, history: seq<Event>)
    requires history != [] && Harmless(layout, history)
    ensures Harmless(layout, Init(history))
    ensures HarmlessEvent(Run(layout, Init(history)), Last(history))
  {
    hide Run, HarmlessEvent;
    forall i | 0 <= i < |history| - 1
      ensures HarmlessEvent(Run(layout, Init(history)[..i]), Init(history)[i])
    {
      assert Init(history)[..i] == history[..i] && Init(history)[i] == history[i];
    }
    assert history[..|history| - 1] == Init(history);
  }

  /** In every run with crashes and restarts, every row of the durable ledger,
      of its working copy and of an upload stands for a delivered message, all
      of whose objects arrived, or for one seeded from its listed `.eml`. */
  lemma {:induction false} RowsAreBacked(layout: Layout, history: seq<Event>)
    requires Harmless(layout, history)
    ensures Texts(Run(layout, history)) && Pushes(layout, Run(layout, history))
  {
    if history == [] {
      assert Parse("") == map[];
    } else {
      HarmlessInit(layout, history);
      RowsAreBacked(layout, Init(history));
      var s := Run(layout, Init(history));
      if Enabled(layout, s, Last(history)) {
        hide Texts, Pushes, Step;
        StepIsBacked(layout, s, Last(history));
      }
    }
  }

  /** No message is lost: at every start, a message on the server that the run
      does not set out to fetch, because the loaded ledger has a row for it, has
      reached the destination. One delivered but not yet flushed when a process
      died has no row, and is fetched again. */
  lemma DeliveredOrPending(layout: Layout, history: seq<Event>, e: Event, key: Key)
    requires Harmless(layout, history) && e.Start? && Enabled(layout, Run(layout, history), e)
    requires key in ServerKeys(e.server)
    ensures var s := Run(layout, history);
            var t := Step(layout, s, e);
            && (key in t.pending <==> key !in Loaded(s.durable, e))
            && (key !in t.pending ==> FullyPushed(layout, t, key) || EmlListed(layout, t, key))
  {
    RowsAreBacked(layout, history);
    var s := Run(layout, history);
    var t := Step(layout, s, e);
    hide Run;
    StartIsBacked(layout, s, e);
    hide Parse, PlainEntry, Seed, Render, EmlListed, FullyPushed, Objects;
    if key !in t.pending {
      assert key in Parse(t.local);
    }
  }

  /** A start leaves alone the messages with a row in the durable ledger or, when
      there is none yet, those a listed path names, and sets out to fetch the rest
      of what the server has. A first ledger is durable at once. */
  lemma StartFetchesTheRest(layout: Layout, history: seq<Event>, e: Event, key: Key)
    requires Harmless(layout, history) && e.Start? && Enabled(layout, Run(layout, history), e)
    ensures var s := Run(layout, history);
            var t := Step(layout, s, e);
            && (s.durable.Some? ==>
                  && t.durable == s.durable && Parse(t.local) == Parse(s.durable.value)
                  && (key in t.pending <==>
                       key in ServerKeys(e.server) && forall at :: !HasRow(Lines(s.durable.value), key, at)))
            && (s.durable.None? ==>
                  && t.durable == Some(t.local)
                  && (key in t.pending <==>
                       key in ServerKeys(e.server) && !Named(key, e.listing, Mailboxes(e.server))))
  {
    RowsAreBacked(layout, history);
    var s := Run(layout, history);
    hide Run;
    StartIsBacked(layout, s, e);
    hide ServerKeys, Render, Seed, Named, EmlListed, FullyPushed, Objects, ParseLines, Lines, Texts, Pushes, IsEarliest;
    if s.durable.Some? {
      RecordedIffRow(s.durable.value, key);
    } else {
      SeededIffListed(e.listing, Mailboxes(e.server), e.at, key);
    }
  }

  lemma RecordedIffRow(text: string, key: Key)
    ensures key in Parse(text) <==> exists at :: HasRow(Lines(text), key, at)
  {
    hide Lines, ParseLines, HasRow;
    ParseIsEarliest(Lines(text));
    if key in Parse(text) {
      assert HasRow(Lines(text), key, Parse(text)[key]);
    }
  }

  // ----- the durable ledger only grows -----

  function DurableKeys(s: State): set<Key> {
    if s.durable.Some? then KeysOf(s.durable.value) else {}
  }

  /** Uploads land in the order their snapshots were taken, and are over before
      the next process starts. */
  ghost predicate LandInOrder(layout: Layout, history: seq<Event>) {
    forall i | 0 <= i < |history| ::
      && (history[i].Land? ==> history[i].upload == 0)
      && (history[i].Start? ==> Run(layout, history[..i]).uploads == [])
  }

  /** The durable ledger is behind every upload, each upload behind the later
      ones, and all behind the working copy. */
  ghost predicate Chained(s: State) {
    && (s.running ==> DurableKeys(s) <= KeysOf(s.local))
    && (forall i | 0 <= i < |s.uploads| :: DurableKeys(s) <= KeysOf(s.uploads[i]))
    && (s.running ==> forall i | 0 <= i < |s.uploads| :: KeysOf(s.uploads[i]) <= KeysOf(s.local))
    && (forall i, j | 0 <= i < j < |s.uploads| :: KeysOf(s.uploads[i]) <= KeysOf(s.uploads[j]))
  }

  lemma StartChains(layout: Layout, s: State, e: Event)
    requires e.Start? && Enabled(layout, s, e) && Chained(s) && Texts(s) && Pushes(layout, s)
    requires s.uploads == []
    ensures Chained(Step(layout, s, e)) && DurableKeys(s) <= DurableKeys(Step(layout, s, e))
  {
    StartIsBacked(layout, s, e);
    hide Parse, Render, Seed, Texts, Pushes;
  }

  lemma RecordChains(layout: Layout, s: State, e: Event)
    requires e.Record? && Enabled(layout, s, e) && Chained(s) && Texts(s) && Pushes(layout, s)
    requires HarmlessEvent(s, e)
    ensures Chained(Step(layout, s, e)) && DurableKeys(s) <= DurableKeys(Step(layout, s, e))
  {
    PlainWithTime(e.key, e.at);
    HarmlessAppendKeys(s.local, e.key, e.at, e.fate);
    hide Parse, Row, Appended, PlainEntry, KeysOf, Pushes, HarmlessAppend, RowHead;
    assert Step(layout, s, e).uploads == s.uploads && DurableKeys(Step(layout, s, e)) == DurableKeys(s);
  }

  lemma UploadFailsChains(layout: Layout, s: State, e: Event)
    requires Enabled(layout, s, e) && Chained(s) && e.UploadFails?
    ensures Chained(Step(layout, s, e)) && DurableKeys(s) == DurableKeys(Step(layout, s, e))
  {
    hide KeysOf, PlainEntry;
    var t, k := Step(layout, s, e), e.upload;
    assert forall i | 0 <= i < |t.uploads| :: t.uploads[i] == s.uploads[if i < k then i else i + 1];
  }

  lemma UploadChains(layout: Layout, s: State, e: Event)
    requires Enabled(layout, s, e) && Chained(s)
    requires e.Snapshot? || (e.Land? && e.upload == 0)
    ensures Chained(Step(layout, s, e)) && DurableKeys(s) <= DurableKeys(Step(layout, s, e))
  {
    hide KeysOf, PlainEntry;
    var t := Step(layout, s, e);
    if e.Land? {
      assert forall i | 0 <= i < |t.uploads| :: t.uploads[i] == s.uploads[i + 1];
    }
  }

  lemma StepChains(layout: Layout, s: State, e: Event)
    requires Enabled(layout, s, e) && Chained(s) && Texts(s) && Pushes(layout, s)
    requires HarmlessEvent(s, e)
    requires (e.Land? ==> e.upload == 0) && (e.Start? ==> s.uploads == [])
    ensures Chained(Step(layout, s, e)) && DurableKeys(s) <= DurableKeys(Step(layout, s, e))
  {
    hide KeysOf, PlainEntry, Texts, Pushes, Objects;
    if e.Start? {
      StartChains(layout, s, e);
    } else if e.Record? {
      RecordChains(layout, s, e);
    } else if e.UploadFails? {
      UploadFailsChains(layout, s, e);
    } else if e.Snapshot? || e.Land? {
      UploadChains(layout, s, e);
    } else {
      var t := Step(layout, s, e);
      assert t.uploads == s.uploads && t.durable == s.durable && t.local == s.local;
    }
  }

  lemma UploadsInit(layout: Layout, history: seq<Event>)
    requires history != [] && LandInOrder(layout, history)
    ensures LandInOrder(layout, Init(history))
    ensures Last(history).Land? ==> Last(history).upload == 0
    ensures Last(history).Start? ==> Run(layout, Init(history)).uploads == []
  {
    hide Run;
    forall i | 0 <= i < |history| - 1
      ensures Init(history)[i].Land? ==> Init(history)[i].upload == 0
      ensures Init(history)[i].Start? ==> Run(layout, Init(history)[..i]).uploads == []
    {
      assert Init(history)[..i] == history[..i] && Init(history)[i] == history[i];
    }
    assert history[..|history| - 1] == Init(history);
  }

  lemma {:induction false} RunChains(layout: Layout, history: seq<Event>)
    requires Harmless(layout, history) && LandInOrder(layout, history)
    ensures Chained(Run(layout, history))
    ensures history != [] ==> DurableKeys(Run(layout, Init(history))) <= DurableKeys(Run(layout, history))
  {
    if history != [] {
      HarmlessInit(layout, history);
      UploadsInit(layout, history);
      RunChains(layout, Init(history));
      RowsAreBacked(layout, Init(history));
      var s := Run(layout, Init(history));
      if Enabled(layout, s, Last(history)) {
        hide Texts, Pushes, Step, Chained, DurableKeys, Enabled;
        StepChains(layout, s, Last(history));
      }
    }
  }

  /** With uploads that land in order the durable ledger never loses a key,
      across any number of restarts, and never knows one its working copy does not. */
  lemma {:induction false} DurableGrows(layout: Layout, past: seq<Event>, future: seq<Event>)
    requires Harmless(layout, past + future) && LandInOrder(layout, past + future)
    ensures DurableKeys(Run(layout, past)) <= DurableKeys(Run(layout, past + future))
    ensures var s := Run(layout, past + future); s.running ==> DurableKeys(s) <= KeysOf(s.local)
    decreases |future|
  {
    RunChains(layout, past + future);
    hide Run, DurableKeys, Harmless, LandInOrder;
    if future == [] {
      assert past + future == past;
    } else {
      assert Init(past + future) == past + Init(future);
      HarmlessInit(layout, past + future);
      UploadsInit(layout, past + future);
      DurableGrows(layout, past, Init(future));
    }
  }
}
