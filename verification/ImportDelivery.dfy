/**
 Delivering a message is a run of the import's events: `deliver_one` pushes,
 records and gives up only where the durability argument lets it.
 */
module ImportDelivery {
  import opened Wrappers
  import opened Text
  import opened LedgerFile
  import opened LedgerSeed
  import opened ImportRuns
  import opened ImportLosses
  import D = Delivery

  /** One push for each object that arrived, then what the last answer leads to. */
  function Events(key: Key, pushes: nat, last: D.PushResult, at: string, fate: Fate): seq<Event> {
    seq(pushes, i => Push(key)) +
    match last
    case Done => [Record(key, at, fate)]
    case Failed(_) => [GiveUp(key)]
    case Killed => []
  }

  ghost predicate AllEnabled(layout: Layout, history: seq<Event>, events: seq<Event>) {
    forall j | 0 <= j < |events| :: Enabled(layout, Run(layout, history + events[..j]), events[j])
  }

  lemma AllEnabledSnoc(layout: Layout, history: seq<Event>, events: seq<Event>, e: Event)
    requires AllEnabled(layout, history, events) && Enabled(layout, Run(layout, history + events), e)
    ensures AllEnabled(layout, history, events + [e])
    ensures Run(layout, history + (events + [e])) == Step(layout, Run(layout, history + events), e)
  {
    RunSnoc(layout, history + events, e);
    assert history + (events + [e]) == history + events + [e];
    hide Run, Enabled;
    var more := events + [e];
    forall j | 0 <= j < |more|
      ensures Enabled(layout, Run(layout, history + more[..j]), more[j])
    {
      if j < |events| {
        assert more[..j] == events[..j] && more[j] == events[j];
      } else {
        assert more[..j] == events;
      }
    }
  }

  /** The destination with these paths written by `owner`. */
  function Put(objects: map<string, Option<Key>>, paths: seq<string>, owner: Key): map<string, Option<Key>> {
    if paths == [] then objects else Put(objects, Init(paths), owner)[Last(paths) := Some(owner)]
  }

  /** A message is fetched and none of its objects is pushed yet. */
  ghost predicate Fetched(s: State, key: Key, attachments: seq<string>) {
    s.running && key in s.parcels && s.parcels[key] == Parcel(attachments, 0)
  }

  /** The state after `n` pushes of a message. */
  ghost function Pushed(layout: Layout, s: State, key: Key, attachments: seq<string>, n: nat): State
    requires n <= 1 + |attachments|
  {
    s.(objects := Put(s.objects, Objects(layout, key, attachments)[..n], key),
       parcels := s.parcels[key := Parcel(attachments, n)])
  }

  lemma OnePush(layout: Layout, s: State, key: Key, attachments: seq<string>, n: nat)
    requires s.running && n <= |attachments|
    ensures var t := Pushed(layout, s, key, attachments, n);
            Enabled(layout, t, Push(key)) && Step(layout, t, Push(key)) == Pushed(layout, s, key, attachments, n + 1)
  {
    hide EmlPath, AttachmentPath, Appended, Row, Render, Loaded;
    hide PlainTime, PlainServer, Holds, DistinctKeys, ServerKeys;
    var paths := Objects(layout, key, attachments);
    assert Init(paths[..n + 1]) == paths[..n] && Last(paths[..n + 1]) == paths[n];
    hide Objects;
  }

  lemma NoPush(layout: Layout, s: State, key: Key, attachments: seq<string>)
    requires Fetched(s, key, attachments)
    ensures Pushed(layout, s, key, attachments, 0) == s
  {
    assert s.parcels[key := Parcel(attachments, 0)] == s.parcels;
  }

  lemma {:induction false} PushesRun(layout: Layout, history: seq<Event>, key: Key, attachments: seq<string>, n: nat)
    requires Fetched(Run(layout, history), key, attachments) && n <= 1 + |attachments|
    ensures AllEnabled(layout, history, seq(n, i => Push(key)))
    ensures Run(layout, history + seq(n, i => Push(key)))
         == Pushed(layout, Run(layout, history), key, attachments, n)
  {
    var s := Run(layout, history);
    hide Run, Pushed;
    if n == 0 {
      assert history + seq(n, i => Push(key)) == history;
      NoPush(layout, s, key, attachments);
    } else {
      PushesRun(layout, history, key, attachments, n - 1);
      OnePush(layout, s, key, attachments, n - 1);
      var before: seq<Event> := seq(n - 1, i => Push(key));
      assert before + [Push(key)] == seq(n, i => Push(key));
      hide Enabled, Step, AllEnabled;
      AllEnabledSnoc(layout, history, before, Push(key));
    }
  }

  /** What a delivery that ended in `last` after `n` pushes leaves. */
  ghost function Delivered(
    layout: Layout, s: State, key: Key, attachments: seq<string>,
        n: nat, last: D.PushResult, at: string, fate: Fate): State
    requires n <= 1 + |attachments|
  {
    var pushed := s.(objects := Put(s.objects, Objects(layout, key, attachments)[..n], key));
    match last
    case Done =>
      pushed.(delivered := s.delivered[key := attachments], parcels := s.parcels - {key},
              local := Appended(s.local, Row(LedgerEntry(key, at)), fate))
    case Failed(_) => pushed.(parcels := s.parcels - {key})
    case Killed => pushed.(parcels := s.parcels[key := Parcel(attachments, n)])
  }

  lemma EventsRun(
    layout: Layout, history: seq<Event>, key: Key, attachments: seq<string>,
    n: nat, last: D.PushResult, at: string, fate: Fate)
    requires Fetched(Run(layout, history), key, attachments) && PlainTime(at)
    requires n <= 1 + |attachments| && (last.Done? <==> n == 1 + |attachments|)
    ensures AllEnabled(layout, history, Events(key, n, last, at, fate))
    ensures Run(layout, history + Events(key, n, last, at, fate))
         == Delivered(layout, Run(layout, history), key, attachments, n, last, at, fate)
  {
    hide Run, Put, Objects, Appended, Row, PlainTime;
    PushesRun(layout, history, key, attachments, n);
    var pushes: seq<Event> := seq(n, i => Push(key));
    var s := Run(layout, history);
    assert s.parcels[key := Parcel(attachments, n)] - {key} == s.parcels - {key};
    match last {
      case Done => AllEnabledSnoc(layout, history, pushes, Record(key, at, fate));
      case Failed(_) => AllEnabledSnoc(layout, history, pushes, GiveUp(key));
      case Killed => assert pushes + [] == pushes;
    }
  }

  /** The message is the one the run fetched: its object keys are made from its
      mailbox's path and its UID, and a failed extraction leaves no attachments. */
  ghost predicate Carries(layout: Layout, m: D.Message, attachments: seq<string>) {
    var relpath := layout(m.key.mailbox);
    && m.eml == Some(EmlPath(relpath, m.key.uid))
    && (m.attachments.None? ==> attachments == [])
    && (m.attachments.Some? ==>
          && |m.attachments.value| == |attachments|
          && forall i | 0 <= i < |attachments| ::
            m.attachments.value[i] == AttachmentPath(relpath, m.key.uid, attachments[i]))
  }

  /** Both sides mean the same objects, in the same order. */
  lemma CarriedObjects(layout: Layout, m: D.Message, attachments: seq<string>)
    requires Carries(layout, m, attachments)
    ensures D.Objects(m) == Objects(layout, m.key, attachments)
  {
    hide EmlPath, AttachmentPath;
  }

  /** An attachment's key is its message's without the extension, and then its name. */
  lemma AttachmentsLieBesideTheEml(relpath: string, uid: nat, name: string)
    ensures var eml := EmlPath(relpath, uid);
            && |eml| >= 4 && eml[|eml| - 4..] == ".eml"
            && AttachmentPath(relpath, uid, name) == eml[..|eml| - 4] + "/attachments/" + name
  {
    hide Decimal;
    var stem := (if relpath == "" then "" else relpath + "/") + Decimal(uid);
    assert EmlPath(relpath, uid) == stem + ".eml";
  }

  lemma PathsLookLike()
    ensures EmlPath("in", 7) == "in/7.eml" && EmlPath("", 7) == "7.eml"
  {
    assert Decimal(7) == "7";
    assert "7" + EML == "7.eml";
    assert "in" + ['/'] + "7.eml" == "in/7.eml";
  }

  /**
   Delivering a fetched message, in any run. Its pushes, and then its record or
   its giving up, are events the run allows in that order, and they end where
   the program does: the objects that arrived are the message's at the
   destination, and it is delivered exactly when the program counts it so.
   */
  method DeliverInRun(
    courier: D.Courier, m: D.Message, fate: Fate,
    ghost layout: Layout, ghost history: seq<Event>, ghost attachments: seq<string>, ghost at: string)
    returns (o: Option<D.Outcome>, ghost events: seq<Event>)
    requires Fetched(Run(layout, history), m.key, attachments) && Carries(layout, m, attachments) && PlainTime(at)
    modifies courier
    ensures AllEnabled(layout, history, events)
    ensures var (n, last, _) := D.Course(D.Objects(m), old(courier.replies));
            && n <= 1 + |attachments| && events == Events(m.key, n, last, at, fate)
            && courier.pushed == old(courier.pushed) + Objects(layout, m.key, attachments)[..n]
            && courier.rows == old(courier.rows) + (if last.Done? && fate.Written? then [m.key] else [])
            && Run(layout, history + events)
                 == Delivered(layout, Run(layout, history), m.key, attachments, n, last, at, fate)
            && (o.Some? && o.value.delivered == 1 <==> last.Done?)
            && (Record(m.key, at, fate) in events <==> last.Done?)
  {
    hide Run, Fetched, Put, PlainTime;
    CarriedObjects(layout, m, attachments);
    hide Carries;
    ghost var course := D.Course(D.Objects(m), courier.replies);
    events := Events(m.key, course.0, course.1, at, fate);
    EventsRun(layout, history, m.key, attachments, course.0, course.1, at, fate);
    RecordedIff(m.key, course.0, course.1, at, fate);
    o := courier.DeliverOne(m, fate.Written?);
  }

  lemma RecordedIff(key: Key, n: nat, last: D.PushResult, at: string, fate: Fate)
    ensures Record(key, at, fate) in Events(key, n, last, at, fate) <==> last.Done?
  {
  }

  /** A message whose file the fetch did not produce is given up without a push. */
  lemma MissingFileGivesUp(layout: Layout, history: seq<Event>, key: Key, attachments: seq<string>)
    requires Fetched(Run(layout, history), key, attachments)
    ensures AllEnabled(layout, history, [GiveUp(key)])
    ensures Run(layout, history + [GiveUp(key)])
         == var s := Run(layout, history); s.(parcels := s.parcels - {key})
  {
    hide Run;
    assert history + [] == history && [] + [GiveUp(key)] == [GiveUp(key)];
    AllEnabledSnoc(layout, history, [], GiveUp(key));
  }
}
