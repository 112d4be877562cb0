/**
 Where every ledger text of a history comes from, and so exactly when the
 durable ledger loses a key, over any number of processes.
 */
module ImportOrigins {
  import opened Wrappers
  import opened Text
  import opened LedgerFile
  import opened ImportRuns
  import opened ImportLosses

  // ----- what a working copy knows -----

  /** A moment of a process: what came before its start, and its events since. */
  datatype Origin = Origin(past: seq<Event>, start: Event, mid: seq<Event>) {
    function History(): seq<Event> {
      past + [start] + mid
    }
  }

  ghost predicate IsMoment(layout: Layout, o: Origin) {
    && o.start.Start? && Enabled(layout, Run(layout, o.past), o.start)
    && OneProcess(layout, o.past + [o.start], o.mid) && Harmless(layout, o.History())
  }

  /** The ledger the process loaded, and the rows it has left since. */
  ghost function Known(layout: Layout, o: Origin): set<Key>
    requires IsMoment(layout, o)
  {
    Loaded(Run(layout, o.past).durable, o.start).Keys + RowsLeft(layout, o.past + [o.start], o.mid)
  }

  lemma StartLoads(layout: Layout, past: seq<Event>, start: Event)
    requires Harmless(layout, past) && start.Start? && Enabled(layout, Run(layout, past), start)
    ensures KeysOf(Run(layout, past + [start]).local) == Loaded(Run(layout, past).durable, start).Keys
  {
    RowsAreBacked(layout, past);
    RunSnoc(layout, past, start);
    hide Run, Harmless;
    StartIsBacked(layout, Run(layout, past), start);
    hide Loaded, Parse, Texts, Pushes, Enabled, Step;
  }

  /** A working copy has exactly the keys its process loaded and those of the rows it left. */
  lemma LocalIsKnown(layout: Layout, o: Origin)
    requires IsMoment(layout, o)
    ensures KeysOf(Run(layout, o.History()).local) == Known(layout, o)
  {
    hide Run, Loaded, RowsLeft, KeysOf, Harmless, Enabled, OneProcess;
    LocalGainsRowsLeft(layout, o.past + [o.start], o.mid);
    assert o.past + ([o.start] + o.mid) == o.History();
    HarmlessPrefix(layout, o.past, [o.start] + o.mid);
    StartLoads(layout, o.past, o.start);
  }

  lemma {:induction false} HarmlessPrefix(layout: Layout, past: seq<Event>, future: seq<Event>)
    requires Harmless(layout, past + future)
    ensures Harmless(layout, past)
    decreases |future|
  {
    hide Harmless, HarmlessEvent;
    if future == [] {
      assert past + future == past;
    } else {
      HarmlessInit(layout, past + future);
      assert Init(past + future) == past + Init(future);
      HarmlessPrefix(layout, past, Init(future));
    }
  }

  /** `text` is the working copy of that moment. */
  ghost predicate MadeAt(layout: Layout, o: Origin, text: string) {
    IsMoment(layout, o) && text == Run(layout, o.History()).local
  }

  // ----- one landing -----

  /** An upload that lands over a durable ledger made at any moment of any
      process costs exactly what that moment knew and its own did not. */
  lemma LandingLosesExactly(layout: Layout, s: State, i: nat, durable: Origin, upload: Origin)
    requires s.durable.Some? && i < |s.uploads|
    requires MadeAt(layout, durable, s.durable.value) && MadeAt(layout, upload, s.uploads[i])
    ensures var t := Step(layout, s, Land(i));
            && DurableKeys(s) - DurableKeys(t) == Known(layout, durable) - Known(layout, upload)
            && (DurableKeys(s) <= DurableKeys(t) <==> Known(layout, durable) <= Known(layout, upload))
  {
    LandStep(layout, s, i);
    hide KeysOf, Run, Known, IsMoment, Step, Enabled;
    LocalIsKnown(layout, durable);
    LocalIsKnown(layout, upload);
  }

  /** A process's own flush, when an upload left by an earlier one has landed
      since it started, loses the leftover keys that it neither loaded nor
      recorded itself. */
  lemma FlushOverLeftover(layout: Layout, o: Origin, rest: seq<Event>, leftover: string, i: nat)
    requires IsMoment(layout, o)
    requires var s := Run(layout, o.History() + [Snapshot] + rest);
             && s.durable == Some(leftover)
             && i < |s.uploads| && s.uploads[i] == Run(layout, o.History()).local
    ensures var s := Run(layout, o.History() + [Snapshot] + rest);
            var t := Step(layout, s, Land(i));
            && DurableKeys(s) - DurableKeys(t) == KeysOf(leftover) - Known(layout, o)
            && (DurableKeys(s) <= DurableKeys(t) <==> KeysOf(leftover) <= Known(layout, o))
  {
    LandStep(layout, Run(layout, o.History() + [Snapshot] + rest), i);
    LocalIsKnown(layout, o);
    hide KeysOf, Run, Known, IsMoment, Step, Enabled;
  }

  /** The leftover that lands after the new process's flush loses what that
      process loaded or recorded and the leftover lacks. */
  lemma LeftoverOverFlush(layout: Layout, o: Origin, rest: seq<Event>, leftover: string, i: nat)
    requires IsMoment(layout, o)
    requires var s := Run(layout, o.History() + [Snapshot] + rest);
             && s.durable == Some(Run(layout, o.History()).local)
             && i < |s.uploads| && s.uploads[i] == leftover
    ensures var s := Run(layout, o.History() + [Snapshot] + rest);
            var t := Step(layout, s, Land(i));
            && DurableKeys(s) - DurableKeys(t) == Known(layout, o) - KeysOf(leftover)
            && (DurableKeys(s) <= DurableKeys(t) <==> Known(layout, o) <= KeysOf(leftover))
  {
    LandStep(layout, Run(layout, o.History() + [Snapshot] + rest), i);
    LocalIsKnown(layout, o);
    hide KeysOf, Run, Known, IsMoment, Step, Enabled;
  }

  // ----- every text has an origin -----

  /** `text` is the working copy of a moment of this history. */
  ghost predicate MadeIn(layout: Layout, history: seq<Event>, o: Origin, text: string) {
    MadeAt(layout, o, text) && o.History() <= history
  }

  ghost predicate HasOrigin(layout: Layout, history: seq<Event>, text: string) {
    exists o :: MadeIn(layout, history, o, text)
  }

  lemma OriginStays(layout: Layout, history: seq<Event>, e: Event, text: string)
    ensures HasOrigin(layout, history, text) ==> HasOrigin(layout, history + [e], text)
  {
    hide MadeAt;
    if HasOrigin(layout, history, text) {
      var o :| MadeIn(layout, history, o, text);
      assert MadeIn(layout, history + [e], o, text);
    }
  }

  /** The working copy of a running process was made at this very moment. */
  ghost predicate LocalHasOrigin(layout: Layout, history: seq<Event>) {
    exists o :: IsMoment(layout, o) && o.History() == history
  }

  ghost predicate Traced(layout: Layout, history: seq<Event>) {
    var s := Run(layout, history);
    && (s.running ==> LocalHasOrigin(layout, history))
    && (s.durable.Some? ==> HasOrigin(layout, history, s.durable.value))
    && forall i | 0 <= i < |s.uploads| :: HasOrigin(layout, history, s.uploads[i])
  }

  lemma StartIsMoment(layout: Layout, history: seq<Event>, e: Event)
    requires e.Start? && Enabled(layout, Run(layout, history), e) && Harmless(layout, history + [e])
    ensures LocalHasOrigin(layout, history + [e])
  {
    hide Run, Enabled, Harmless;
    var o := Origin(history, e, []);
    assert o.History() == history + [e];
    assert IsMoment(layout, o);
  }

  lemma MomentGoesOn(layout: Layout, history: seq<Event>, e: Event)
    requires LocalHasOrigin(layout, history) && Harmless(layout, history + [e])
    requires e.Start? || e.Stop? ==> !Enabled(layout, Run(layout, history), e)
    ensures LocalHasOrigin(layout, history + [e])
  {
    hide Run, Enabled, Harmless;
    var o :| IsMoment(layout, o) && o.History() == history;
    var next := o.(mid := o.mid + [e]);
    assert next.History() == history + [e];
    var base := o.past + [o.start];
    forall j | 0 <= j < |next.mid|
      ensures (next.mid[j].Start? || next.mid[j].Stop?) ==>
                !Enabled(layout, Run(layout, base + next.mid[..j]), next.mid[j])
    {
      if j < |o.mid| {
        assert next.mid[..j] == o.mid[..j] && next.mid[j] == o.mid[j];
      } else {
        assert next.mid[..j] == o.mid && base + o.mid == history;
      }
    }
    assert IsMoment(layout, next);
  }

  lemma LocalIsMade(layout: Layout, history: seq<Event>)
    requires LocalHasOrigin(layout, history)
    ensures HasOrigin(layout, history, Run(layout, history).local)
  {
    hide Run, IsMoment;
    var o :| IsMoment(layout, o) && o.History() == history;
    assert MadeIn(layout, history, o, Run(layout, history).local);
  }

  /** What an event does to the texts. */
  lemma StepTexts(layout: Layout, s: State, e: Event)
    requires Enabled(layout, s, e)
    ensures var t := Step(layout, s, e);
            && (t.running <==> e.Start? || (s.running && !e.Stop?))
            && (t.durable == s.durable
                || (e.Start? && t.durable == Some(t.local))
                || (e.Land? && e.upload < |s.uploads| && t.durable == Some(s.uploads[e.upload])))
            && (e.Snapshot? ==> s.running)
            && (forall i | 0 <= i < |t.uploads| ::
                t.uploads[i] in s.uploads || (e.Snapshot? && t.uploads[i] == s.local))
  {
    hide Render, Objects, Row, Appended;
  }

  lemma LocalTraced(layout: Layout, before: seq<Event>, e: Event)
    requires Traced(layout, before) && Harmless(layout, before + [e])
    ensures Run(layout, before + [e]).running ==> LocalHasOrigin(layout, before + [e])
  {
    RunSnoc(layout, before, e);
    hide Run, Step, Harmless, HasOrigin, LocalHasOrigin;
    var s := Run(layout, before);
    if Enabled(layout, s, e) {
      StepTexts(layout, s, e);
      hide Enabled;
      if e.Start? {
        StartIsMoment(layout, before, e);
      } else if s.running && !e.Stop? {
        MomentGoesOn(layout, before, e);
      }
    } else if s.running {
      hide Enabled;
      MomentGoesOn(layout, before, e);
    }
  }

  lemma TextsTraced(layout: Layout, before: seq<Event>, e: Event)
    requires Traced(layout, before)
    requires Run(layout, before + [e]).running ==> LocalHasOrigin(layout, before + [e])
    ensures Traced(layout, before + [e])
  {
    RunSnoc(layout, before, e);
    hide Run, Step, HasOrigin, LocalHasOrigin;
    var s := Run(layout, before);
    forall text
      ensures HasOrigin(layout, before, text) ==> HasOrigin(layout, before + [e], text)
    {
      OriginStays(layout, before, e, text);
    }
    if Enabled(layout, s, e) {
      StepTexts(layout, s, e);
      hide Enabled;
      if e.Start? { LocalIsMade(layout, before + [e]); }
      if e.Snapshot? { LocalIsMade(layout, before); }
    }
  }

  /** In every harmless history the durable ledger and every upload are the
      working copy of some earlier moment of it. */
  lemma {:induction false} TextsHaveOrigins(layout: Layout, history: seq<Event>)
    requires Harmless(layout, history)
    ensures Traced(layout, history)
  {
    if history != [] {
      HarmlessInit(layout, history);
      TextsHaveOrigins(layout, Init(history));
      assert Init(history) + [Last(history)] == history;
      hide Traced, Run, Harmless;
      LocalTraced(layout, Init(history), Last(history));
      TextsTraced(layout, Init(history), Last(history));
    }
  }

  // ----- a whole history -----

  /** The durable ledger loses nothing at event `n`. */
  ghost predicate KeepsAt(layout: Layout, history: seq<Event>, n: nat)
    requires n < |history|
  {
    DurableKeys(Run(layout, history[..n])) <= DurableKeys(Run(layout, history[..n + 1]))
  }

  /** The moment `upload` was made at knew all that the one of `durable` did. */
  ghost predicate KnewAll(layout: Layout, history: seq<Event>, durable: string, upload: string) {
    forall d, u | MadeIn(layout, history, d, durable) && MadeIn(layout, history, u, upload) ::
      Known(layout, d) <= Known(layout, u)
  }

  /** If event `n` lands an upload, that knew all that the durable ledger did. */
  ghost predicate LandsKnowing(layout: Layout, history: seq<Event>, n: nat)
    requires n < |history|
  {
    var s, e := Run(layout, history[..n]), history[n];
    e.Land? && Enabled(layout, s, e) && s.durable.Some? ==>
      KnewAll(layout, history[..n], s.durable.value, s.uploads[e.upload])
  }

  lemma KnewAllIff(layout: Layout, history: seq<Event>, durable: string, upload: string)
    requires HasOrigin(layout, history, durable) && HasOrigin(layout, history, upload)
    ensures KnewAll(layout, history, durable, upload) <==> KeysOf(durable) <= KeysOf(upload)
  {
    hide Run, IsMoment, Known, KeysOf;
    var d :| MadeIn(layout, history, d, durable);
    var u :| MadeIn(layout, history, u, upload);
    LocalIsKnown(layout, d);
    LocalIsKnown(layout, u);
    forall d', u' | MadeIn(layout, history, d', durable) && MadeIn(layout, history, u', upload)
      ensures Known(layout, d') == Known(layout, d) && Known(layout, u') == Known(layout, u)
    {
      LocalIsKnown(layout, d');
      LocalIsKnown(layout, u');
    }
  }

  lemma KeepsAtIffLandsKnowing(layout: Layout, history: seq<Event>, n: nat)
    requires Harmless(layout, history) && n < |history|
    ensures KeepsAt(layout, history, n) <==> LandsKnowing(layout, history, n)
  {
    var before, e := history[..n], history[n];
    assert history[..n + 1] == before + [e];
    assert history == before + history[n..];
    HarmlessPrefix(layout, before, history[n..]);
    TextsHaveOrigins(layout, before);
    RunSnoc(layout, before, e);
    hide Run, Harmless, KnewAll, HasOrigin, KeysOf, Step, Enabled;
    var s := Run(layout, before);
    if Enabled(layout, s, e) && e.Land? && s.durable.Some? {
      KnewAllIff(layout, before, s.durable.value, s.uploads[e.upload]);
    } else if Enabled(layout, s, e) {
      DurableStays(layout, s, e);
    }
  }

  lemma DurableStays(layout: Layout, s: State, e: Event)
    requires Enabled(layout, s, e) && (e.Land? ==> s.durable.None?)
    ensures DurableKeys(s) <= DurableKeys(Step(layout, s, e))
  {
    hide KeysOf, Render, Objects, Row, Appended;
  }

  /** Over a whole harmless history, with crashes, restarts and uploads in any
      order, the durable ledger never loses a key if and only if every upload
      that lands was made at a moment that knew all that the durable one's did:
      what its process had loaded, and the rows it had left. */
  lemma DurableNeverShrinksIff(layout: Layout, history: seq<Event>)
    requires Harmless(layout, history)
    ensures (forall n | 0 <= n < |history| :: KeepsAt(layout, history, n))
       <==> (forall n | 0 <= n < |history| :: LandsKnowing(layout, history, n))
  {
    hide KeepsAt, LandsKnowing, Harmless;
    forall n | 0 <= n < |history|
      ensures KeepsAt(layout, history, n) <==> LandsKnowing(layout, history, n)
    {
      KeepsAtIffLandsKnowing(layout, history, n);
    }
  }
}
