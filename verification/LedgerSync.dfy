/**
 The live handle on one identity's ledger (`LedgerSync` of
 `email_import/ledger.rs`): rows are appended to a working copy, and a flush
 pushes a snapshot of it whole.
 */
module LedgerSync {
  import opened Wrappers
  import opened Text
  import opened LedgerFile

  /** How a flush goes. */
  datatype Transfer = SnapshotFailed | UploadFailed | Uploaded

  /** `after` knows every message `before` does, at the same time or earlier. */
  ghost predicate Covers(after: Entries, before: Entries) {
    forall k | k in before :: k in after && StrLe(after[k], before[k])
  }

  lemma InsertCovers(entries: Entries, before: Entries, e: LedgerEntry)
    requires Covers(entries, before)
    ensures Covers(Insert(entries, e), before)
  {
    forall k | k in before
      ensures StrLe(Insert(entries, e)[k], before[k])
    {
      StrLeTotal(e.ingestedAt, entries[k]);
      if k == e.key && !StrLe(entries[k], e.ingestedAt) {
        StrLeTransitive(e.ingestedAt, entries[k], before[k]);
      }
    }
  }

  lemma AppendCovers(entries: Entries, before: Entries, e: LedgerEntry, fate: Fate)
    requires Covers(entries, before)
    ensures Covers(AfterAppend(entries, e, fate), before)
  {
    hide Row, Insert, Covers, Torn;
    match fate
    case Written => InsertCovers(entries, before, e);
    case OpenFailed =>
    case WriteFailed(kept) =>
      var torn := Torn(e, if kept <= |Row(e)| then kept else |Row(e)|);
      if torn.Some? { InsertCovers(entries, before, torn.value); }
  }

  lemma CoversItself(entries: Entries)
    ensures Covers(entries, entries)
  {
    forall k | k in entries
      ensures StrLe(entries[k], entries[k])
    {
      StrLeTotal(entries[k], entries[k]);
    }
  }

  class LedgerSync {
    var local: string             // the working copy
    var remote: Option<string>    // the object in the ledger bucket

    ghost predicate Valid()
      reads this
    {
      Terminated(local) && (remote.Some? ==> Covers(Parse(local), Parse(remote.value)))
    }

    /** `write_local` has just put the loaded ledger in place. */
    constructor (loaded: seq<LedgerEntry>, remote: Option<string>)
      requires DistinctKeys(loaded) && forall e <- loaded :: Writable(e)
      requires remote.Some? ==> Holds(Parse(remote.value), loaded)
      ensures Valid() && Holds(Parse(local), loaded) && this.remote == remote
    {
      hide Parse, Render, Writable, StrLe;
      local, this.remote := Render(loaded), remote;
      new;
      RenderedParses(loaded);
      if remote.Some? {
        SerializeParses(loaded, Parse(remote.value));
        CoversItself(Parse(local));
      }
    }

    method Append(e: LedgerEntry, fate: Fate) returns (ok: bool)
      modifies this
      ensures ok == fate.Written?
      ensures local == Appended(old(local), Row(e), fate) && remote == old(remote)
      ensures old(Valid()) && Writable(e) ==> Parse(local) == AfterAppend(Parse(old(local)), e, fate)
      // whatever becomes of the write, nothing durable is missing from the working copy
      ensures old(Valid()) && Writable(e) && remote.Some? ==> Covers(Parse(local), Parse(remote.value))
      ensures old(Valid()) && Writable(e) ==> (Valid() <==> Terminated(local))
    {
      hide Parse, Row, Writable, Insert, Torn;
      if Terminated(local) && Writable(e) {
        AppendedParses(local, e, fate);
        if remote.Some? && Covers(Parse(local), Parse(remote.value)) {
          AppendCovers(Parse(local), Parse(remote.value), e, fate);
        }
      }
      local := Appended(local, Row(e), fate);
      ok := fate.Written?;
    }

    /** A failed flush changes nothing; one that works makes the working copy durable. */
    method Flush(transfer: Transfer) returns (ok: bool)
      modifies this
      ensures ok == transfer.Uploaded?
      ensures local == old(local)
      ensures remote == if ok then Some(local) else old(remote)
      ensures old(Valid()) ==> Valid()
    {
      var snapshot := local;
      ok := transfer.Uploaded?;
      if ok {
        remote := Some(snapshot);
        CoversItself(Parse(local));
      }
    }
  }
}
