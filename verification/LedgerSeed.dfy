/**
 Building a first ledger from the messages already at the destination
 (`seed_from_listing` of `email_import/ledger.rs`).
 */
module LedgerSeed {
  import opened Wrappers
  import opened Text
  import opened LedgerFile

  /** One server mailbox: `relpath` is where its messages go at the destination. */
  datatype Mailbox = Mailbox(name: string, relpath: string, uidvalidity: nat)

  /** A mailbox as the server reports it at the start of a run. */
  datatype MailboxState = MailboxState(mailbox: Mailbox, serverUids: set<nat>)

  function ServerKeys(states: seq<MailboxState>): set<Key> {
    set m, uid | m in states && uid in m.serverUids :: Key(m.mailbox.name, m.mailbox.uidvalidity, uid)
  }

  const EML := ".eml"

  /** Where a message's `.eml` is pushed, below the identity's directory. */
  function EmlPath(relpath: string, uid: nat): string {
    if relpath == "" then Decimal(uid) + EML else relpath + ['/'] + (Decimal(uid) + EML)
  }

  /** A listed path as the mailbox path and UID it names, if it is an `.eml`. */
  function Listed(path: string): Option<(string, nat)> {
    var file := Partial(path, '/');
    var dir := if |file| < |path| then path[..|path| - |file| - 1] else "";
    if |file| < |EML| || file[|file| - |EML|..] != EML then None
    else
      var uid := ParseU32(file[..|file| - |EML|]);
      if uid.None? then None else Some((dir, uid.value))
  }

  function Owners(mailboxes: seq<Mailbox>, relpath: string): seq<Mailbox> {
    if mailboxes == [] then []
    else Owners(Init(mailboxes), relpath) + if Last(mailboxes).relpath == relpath then [Last(mailboxes)] else []
  }

  /** The key a listed path seeds, unless no mailbox or several own its directory. */
  function SeedKey(path: string, mailboxes: seq<Mailbox>): Option<Key> {
    match Listed(path)
    case None => None
    case Some((dir, uid)) =>
      var owners := Owners(mailboxes, dir);
      if |owners| == 1 then Some(Key(owners[0].name, owners[0].uidvalidity, uid)) else None
  }

  function SeedOne(entries: Entries, path: string, mailboxes: seq<Mailbox>, at: string): Entries {
    match SeedKey(path, mailboxes)
    case Some(key) => Insert(entries, LedgerEntry(key, at))
    case None => entries
  }

  function Seed(listing: seq<string>, mailboxes: seq<Mailbox>, at: string): Entries {
    if listing == [] then map[]
    else SeedOne(Seed(Init(listing), mailboxes, at), Last(listing), mailboxes, at)
  }

  // ----- what is seeded -----

  ghost predicate Named(key: Key, listing: seq<string>, mailboxes: seq<Mailbox>) {
    exists p <- listing :: SeedKey(p, mailboxes) == Some(key)
  }

  lemma NamedSnoc(key: Key, listing: seq<string>, path: string, mailboxes: seq<Mailbox>)
    ensures Named(key, listing + [path], mailboxes)
       <==> (Named(key, listing, mailboxes) || SeedKey(path, mailboxes) == Some(key))
  {
    hide SeedKey;
    assert path in listing + [path];
    assert forall p <- listing :: p in listing + [path];
  }

  lemma SeedOneAdds(entries: Entries, path: string, mailboxes: seq<Mailbox>, at: string, key: Key)
    ensures key in SeedOne(entries, path, mailboxes, at) <==> key in entries || SeedKey(path, mailboxes) == Some(key)
    ensures key in SeedOne(entries, path, mailboxes, at) ==>
              SeedOne(entries, path, mailboxes, at)[key] == at ||
                  (key in entries && SeedOne(entries, path, mailboxes, at)[key] == entries[key])
  {
    hide SeedKey, StrLe;
  }

  /** A key is seeded exactly when some listed path names it. */
  lemma {:induction false} SeededIffListed(listing: seq<string>, mailboxes: seq<Mailbox>, at: string, key: Key)
    ensures key in Seed(listing, mailboxes, at) <==> Named(key, listing, mailboxes)
    ensures key in Seed(listing, mailboxes, at) ==> Seed(listing, mailboxes, at)[key] == at
  {
    hide SeedKey, SeedOne;
    if listing == [] {
      assert !Named(key, listing, mailboxes);
    } else {
      hide Named;
      SeededIffListed(Init(listing), mailboxes, at, key);
      NamedSnoc(key, Init(listing), Last(listing), mailboxes);
      assert listing == Init(listing) + [Last(listing)];
      SeedOneAdds(Seed(Init(listing), mailboxes, at), Last(listing), mailboxes, at, key);
    }
  }

  /** A pushed message is listed under its own mailbox path and UID. */
  lemma EmlPathIsListed(relpath: string, uid: nat)
    requires uid < 0x1_0000_0000
    ensures Listed(EmlPath(relpath, uid)) == Some((relpath, uid))
  {
    var file := Decimal(uid) + EML;
    assert !IsDigit('/') && '/' !in EML;
    PlainIsPartial(file, '/');
    SplitAt(relpath, file, '/');
    assert file[|file| - |EML|..] == EML && file[..|file| - |EML|] == Decimal(uid);
    DecimalParses(uid);
    if relpath != "" {
      assert EmlPath(relpath, uid)[..|relpath|] == relpath;
    }
  }

  /** Every message already pushed for a mailbox that is alone on its path is seeded. */
  lemma PushedIsSeeded(listing: seq<string>, mailboxes: seq<Mailbox>, at: string, m: Mailbox, uid: nat)
    requires uid < 0x1_0000_0000 && EmlPath(m.relpath, uid) in listing
    requires Owners(mailboxes, m.relpath) == [m]
    ensures Key(m.name, m.uidvalidity, uid) in Seed(listing, mailboxes, at)
  {
    EmlPathIsListed(m.relpath, uid);
    SeededIffListed(listing, mailboxes, at, Key(m.name, m.uidvalidity, uid));
  }

  /** What a listed path must look like to name a message. */
  predicate NamesEml(path: string, dir: string, stem: string) {
    '/' !in stem && (path == dir + "/" + (stem + ".eml") || (dir == "" && path == stem + ".eml"))
  }

  lemma ListedNames(path: string, dir: string, uid: nat) returns (stem: string)
    requires Listed(path) == Some((dir, uid))
    ensures NamesEml(path, dir, stem) && ParseU32(stem) == Some(uid)
  {
    hide ParseU32, Partial;
    BeforePartial(path, '/');
    var file := Partial(path, '/');
    stem := file[..|file| - |EML|];
    assert stem + ".eml" == file;
    assert forall c <- stem :: c in file;
    if |file| == |path| {
      assert path == file;
    } else {
      assert path == dir + "/" + file;
    }
  }

  lemma NamedIsListed(path: string, dir: string, stem: string, uid: nat)
    requires NamesEml(path, dir, stem) && ParseU32(stem) == Some(uid)
    ensures Listed(path) == Some((dir, uid))
  {
    hide ParseU32, Partial, Done;
    var file := stem + ".eml";
    assert '/' !in file;
    PlainIsPartial(file, '/');
    assert file[|file| - |EML|..] == EML && file[..|file| - |EML|] == stem;
    if path == dir + "/" + file {
      SplitAt(dir, file, '/');
      assert path == dir + ['/'] + file;
      assert path[..|path| - |file| - 1] == dir;
    }
  }

  /** A listed path names a message exactly when it is a directory, a slash and a
      32-bit number with the extension; the directory may be missing. */
  lemma ListedIff(path: string, dir: string, uid: nat)
    ensures Listed(path) == Some((dir, uid))
       <==> exists stem :: NamesEml(path, dir, stem) && ParseU32(stem) == Some(uid)
  {
    hide Listed, ParseU32;
    if Listed(path) == Some((dir, uid)) {
      var stem := ListedNames(path, dir, uid);
    }
    if stem :| NamesEml(path, dir, stem) && ParseU32(stem) == Some(uid) {
      NamedIsListed(path, dir, stem, uid);
    }
  }

  /** Mailbox `i` goes to `relpath`, and no other does. */
  ghost predicate OnlyOwner(mailboxes: seq<Mailbox>, i: nat, relpath: string) {
    i < |mailboxes| && forall j | 0 <= j < |mailboxes| :: mailboxes[j].relpath == relpath <==> j == i
  }

  ghost predicate Unowned(mailboxes: seq<Mailbox>, relpath: string) {
    forall j | 0 <= j < |mailboxes| :: mailboxes[j].relpath != relpath
  }

  lemma {:induction false} UnownedIff(mailboxes: seq<Mailbox>, relpath: string)
    ensures Owners(mailboxes, relpath) == [] <==> Unowned(mailboxes, relpath)
  {
    if mailboxes != [] {
      UnownedIff(Init(mailboxes), relpath);
      assert forall j | 0 <= j < |mailboxes| - 1 :: Init(mailboxes)[j] == mailboxes[j];
    }
  }

  lemma {:induction false} OnlyOwnerOwns(mailboxes: seq<Mailbox>, i: nat, relpath: string)
    requires OnlyOwner(mailboxes, i, relpath)
    ensures Owners(mailboxes, relpath) == [mailboxes[i]] && mailboxes[i].relpath == relpath
  {
    var init := Init(mailboxes);
    assert forall j | 0 <= j < |mailboxes| - 1 :: init[j] == mailboxes[j];
    if i == |mailboxes| - 1 {
      UnownedIff(init, relpath);
    } else {
      OnlyOwnerOwns(init, i, relpath);
    }
  }

  lemma {:induction false} OneOwnerIsOnly(mailboxes: seq<Mailbox>, relpath: string) returns (i: nat)
    requires |Owners(mailboxes, relpath)| == 1
    ensures OnlyOwner(mailboxes, i, relpath) && Owners(mailboxes, relpath) == [mailboxes[i]]
  {
    var init := Init(mailboxes);
    assert forall j | 0 <= j < |mailboxes| - 1 :: init[j] == mailboxes[j];
    if Last(mailboxes).relpath == relpath {
      UnownedIff(init, relpath);
      i := |mailboxes| - 1;
    } else {
      i := OneOwnerIsOnly(init, relpath);
    }
  }

  /** A listed path seeds a key exactly when one mailbox goes to its directory and
      no other: the key is that mailbox's, with its current generation. */
  lemma SeedKeyIff(path: string, mailboxes: seq<Mailbox>, key: Key)
    ensures SeedKey(path, mailboxes) == Some(key)
       <==> exists i: nat :: i < |mailboxes| && OnlyOwner(mailboxes, i, mailboxes[i].relpath)
                        && key.mailbox == mailboxes[i].name && key.uidvalidity == mailboxes[i].uidvalidity
                        && Listed(path) == Some((mailboxes[i].relpath, key.uid))
  {
    hide Listed, Owners, OnlyOwner;
    if Listed(path).Some? {
      var (dir, uid) := Listed(path).value;
      if |Owners(mailboxes, dir)| == 1 {
        var i := OneOwnerIsOnly(mailboxes, dir);
        OnlyOwnerOwns(mailboxes, i, dir);
      }
      if i: nat :|
        && i < |mailboxes| && OnlyOwner(mailboxes, i, mailboxes[i].relpath)
        && key.mailbox == mailboxes[i].name && key.uidvalidity == mailboxes[i].uidvalidity
        && Listed(path) == Some((mailboxes[i].relpath, key.uid)) {
        OnlyOwnerOwns(mailboxes, i, dir);
      }
    }
  }

  /** A directory that two mailboxes go to seeds nothing: what was delivered there
      reads as new. */
  lemma SharedDirectorySeedsNothing(
      listing: seq<string>, mailboxes: seq<Mailbox>, at: string, i: nat, j: nat, uid: nat)
    requires i < j < |mailboxes| && mailboxes[i].relpath == mailboxes[j].relpath
    requires forall k | 0 <= k < |mailboxes| && mailboxes[k].name == mailboxes[i].name :: k == i
    ensures Key(mailboxes[i].name, mailboxes[i].uidvalidity, uid) !in Seed(listing, mailboxes, at)
  {
    hide Listed, SeedKey, Seed;
    var key := Key(mailboxes[i].name, mailboxes[i].uidvalidity, uid);
    SeededIffListed(listing, mailboxes, at, key);
    if path :| path in listing && SeedKey(path, mailboxes) == Some(key) {
      SeedKeyIff(path, mailboxes, key);
    }
  }

  lemma {:induction false} OwnersAre(mailboxes: seq<Mailbox>, relpath: string, m: Mailbox)
    ensures m in Owners(mailboxes, relpath) <==> m in mailboxes && m.relpath == relpath
  {
    if mailboxes != [] {
      OwnersAre(Init(mailboxes), relpath, m);
      assert mailboxes == Init(mailboxes) + [Last(mailboxes)];
    }
  }

  /** A seeded key was listed under the path of the mailbox it names. */
  lemma SeededIsListed(listing: seq<string>, mailboxes: seq<Mailbox>, at: string, key: Key)
      returns (path: string, m: Mailbox)
    requires key in Seed(listing, mailboxes, at)
    ensures path in listing && Listed(path) == Some((m.relpath, key.uid))
    ensures m in mailboxes && m.name == key.mailbox && m.uidvalidity == key.uidvalidity
  {
    SeededIffListed(listing, mailboxes, at, key);
    path :| path in listing && SeedKey(path, mailboxes) == Some(key);
    var (dir, uid) := Listed(path).value;
    m := Owners(mailboxes, dir)[0];
    OwnersAre(mailboxes, dir, m);
  }

  // ----- the program -----

  method SeedFromListing(listing: seq<string>, mailboxes: seq<Mailbox>, at: string)
    returns (ledger: Entries, ambiguous: set<string>)
    ensures ledger == Seed(listing, mailboxes, at)
    ensures forall relpath :: relpath in ambiguous <==> |Owners(mailboxes, relpath)| > 1
  {
    hide Owners, Seed, Listed, Insert;
    var byRelpath: map<string, seq<Mailbox>> := map[];
    NothingGrouped();
    for i := 0 to |mailboxes|
      invariant Grouped(byRelpath, mailboxes[..i])
    {
      var m := mailboxes[i];
      GroupOne(byRelpath, mailboxes, i);
      byRelpath := byRelpath[m.relpath := (if m.relpath in byRelpath then byRelpath[m.relpath] else []) + [m]];
    }
    assert mailboxes[..|mailboxes|] == mailboxes;
    ambiguous := set relpath | relpath in byRelpath && |byRelpath[relpath]| > 1;
    ledger := map[];
    assert Seed(listing[..0], mailboxes, at) == map[] by { NothingSeeded(listing, mailboxes, at); }
    for i := 0 to |listing|
      invariant ledger == Seed(listing[..i], mailboxes, at)
    {
      SeedSnoc(listing, i, mailboxes, at);
      match Listed(listing[i])
      case None =>
      case Some((dir, uid)) =>
        assert Owners(mailboxes, dir) == if dir in byRelpath then byRelpath[dir] else [];
        if dir in byRelpath && |byRelpath[dir]| == 1 {
          var owner := byRelpath[dir][0];
          ledger := Insert(ledger, LedgerEntry(Key(owner.name, owner.uidvalidity, uid), at));
        }
    }
    assert listing[..|listing|] == listing;
  }

  lemma SeedSnoc(listing: seq<string>, i: nat, mailboxes: seq<Mailbox>, at: string)
    requires i < |listing|
    ensures Seed(listing[..i + 1], mailboxes, at) ==
        SeedOne(Seed(listing[..i], mailboxes, at), listing[i], mailboxes, at)
  {
    hide SeedOne;
    assert Init(listing[..i + 1]) == listing[..i];
  }

  lemma NothingSeeded(listing: seq<string>, mailboxes: seq<Mailbox>, at: string)
    ensures Seed(listing[..0], mailboxes, at) == map[]
  {
  }

  lemma NothingGrouped()
    ensures Grouped(map[], [])
  {
  }

  lemma GroupOne(byRelpath: map<string, seq<Mailbox>>, mailboxes: seq<Mailbox>, i: nat)
    requires i < |mailboxes| && Grouped(byRelpath, mailboxes[..i])
    ensures var m := mailboxes[i];
            Grouped(byRelpath[m.relpath := (if m.relpath in byRelpath then byRelpath[m.relpath] else []) + [m]],
                mailboxes[..i + 1])
  {
    assert Init(mailboxes[..i + 1]) == mailboxes[..i];
  }

  ghost predicate Grouped(byRelpath: map<string, seq<Mailbox>>, mailboxes: seq<Mailbox>) {
    forall relpath ::
      Owners(mailboxes, relpath) == if relpath in byRelpath then byRelpath[relpath] else []
  }
}
