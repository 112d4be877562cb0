/**
 What a placement pass leaves behind: its counts and records, the copies in the
 result tree, and the content-hash index.
 */
module PlacementResults {
  import opened Text
  import opened Keys
  import opened DedupPool
  import opened ContentIndexFile
  import opened ContentIndexRuns
  import opened ContentIndexRestarts
  import opened Placement

  lemma PlaceAllUnfolds(sanitize: string -> string, start: Pass, files: seq<HashedFile>, fates: nat -> PlaceFate)
    ensures PlaceAll(sanitize, start, files, fates)
         == if files == [] then start
            else Turn(sanitize, PlaceAll(sanitize, start, Init(files), fates), Last(files), fates(|files| - 1))
  {
  }

  // ----- counts, records and what is kept -----

  /** The index names, for each hash, a path that holds that content. */
  ghost predicate Located(entries: Index, tree: Tree) {
    forall h | h in entries :: entries[h].relativePath in tree && tree[entries[h].relativePath] == h
  }

  /** Nothing is overwritten or forgotten, new entries have new paths, and the
      index goes on naming paths that hold what it says. */
  ghost predicate Kept(entries0: Index, tree0: Tree, entries: Index, tree: Tree) {
    && (forall path | path in tree0 :: path in tree && tree[path] == tree0[path])
    && (forall h | h in entries0 :: h in entries && entries[h] == entries0[h])
    && (forall h | h in entries && h !in entries0 :: entries[h].relativePath !in tree0)
    && (Located(entries0, tree0) ==> Located(entries, tree))
  }

  ghost predicate Points(r: MergeRecord, finished: seq<HashedFile>, entries: Index) {
    r.duplicate in finished && r.duplicate.contentHash in entries && r.kept == entries[r.duplicate.contentHash]
  }

  ghost predicate IsFirst(g: HashedFile, hash: string, finished: seq<HashedFile>) {
    && g in finished && g.contentHash == hash
    && forall f | f in finished && f.contentHash == hash :: KeyLe(g.originalKey, f.originalKey)
  }

  /** The entry came from the least finished file of its hash. */
  ghost predicate FirstOfItsHash(e: IndexEntry, hash: string, finished: seq<HashedFile>) {
    exists g :: IsFirst(g, hash, finished) && e.originalKey == g.originalKey && e.bucketAlias == g.alias
  }

  ghost predicate Counts(p: Pass, start: Pass, n: nat) {
    && p.summary.placed + p.summary.duplicatesSkipped + p.summary.failed == n
    && |p.records| == p.summary.duplicatesSkipped
    && |p.finished| == p.summary.placed + p.summary.duplicatesSkipped
    && |p.entries| == |start.entries| + p.summary.placed
  }

  ghost predicate Records(p: Pass) {
    && (forall f | f in p.finished :: f.contentHash in p.entries)
    && (forall r | r in p.records :: Points(r, p.finished, p.entries))
  }

  ghost predicate Firsts(p: Pass, start: Pass) {
    forall h | h in p.entries && h !in start.entries :: FirstOfItsHash(p.entries[h], h, p.finished)
  }

  lemma TurnKeepsTree(sanitize: string -> string, start: Pass, p: Pass, file: HashedFile, fate: PlaceFate)
    requires Kept(start.entries, start.tree, p.entries, p.tree)
    ensures var t := Turn(sanitize, p, file, fate); Kept(start.entries, start.tree, t.entries, t.tree)
  {
    TurnMeans(sanitize, p, file, fate);
    hide Turn, PathFor;
  }

  lemma TurnKeepsRecords(sanitize: string -> string, start: Pass, p: Pass, file: HashedFile, fate: PlaceFate, n: nat)
    requires Counts(p, start, n) && Records(p)
    ensures var t := Turn(sanitize, p, file, fate); Counts(t, start, n + 1) && Records(t)
  {
    TurnMeans(sanitize, p, file, fate);
    hide Turn, PathFor;
  }

  lemma TurnKeepsFirsts(
    sanitize: string -> string, start: Pass, p: Pass, sorted: seq<HashedFile>, i: nat, fate: PlaceFate)
    requires Sorted(sorted) && i < |sorted| && multiset(p.finished) <= multiset(sorted[..i])
    requires Firsts(p, start) && Records(p)
    ensures Firsts(Turn(sanitize, p, sorted[i], fate), start)
  {
    var file := sorted[i];
    TurnMeans(sanitize, p, file, fate);
    hide Turn, PathFor, KeyLe;
    var t := Turn(sanitize, p, file, fate);
    forall h | h in t.entries && h !in start.entries
      ensures FirstOfItsHash(t.entries[h], h, t.finished)
    {
      if h in p.entries {
        LaterDuplicate(sorted, i, p.finished, h, p.entries[h]);
        assert t.entries[h] == p.entries[h];
        if t.finished != p.finished { assert t.finished == p.finished + [file]; }
      } else {
        KeyLeTotal(file.originalKey, file.originalKey);
        assert IsFirst(file, h, t.finished);
      }
    }
  }

  /** A file that comes later in order cannot displace the kept one. */
  lemma LaterDuplicate(sorted: seq<HashedFile>, i: nat, finished: seq<HashedFile>, hash: string, e: IndexEntry)
    requires Sorted(sorted) && i < |sorted| && multiset(finished) <= multiset(sorted[..i])
    requires FirstOfItsHash(e, hash, finished)
    ensures FirstOfItsHash(e, hash, finished + [sorted[i]])
  {
    hide KeyLe;
    var g :| IsFirst(g, hash, finished) && e.originalKey == g.originalKey && e.bucketAlias == g.alias;
    assert g in multiset(finished) && g in multiset(sorted[..i]);
    var k :| 0 <= k < i && sorted[k] == g;
    assert KeyLe(sorted[k].originalKey, sorted[i].originalKey);
    assert IsFirst(g, hash, finished + [sorted[i]]);
  }

  /**
   Every file has one outcome, and a report row if it was a duplicate. Nothing
   is overwritten or forgotten. A finished file's content is in the index, and so
   is what a record points at. The kept copy is the first in order of those that
   could be placed.
   */
  ghost predicate Accounts(start: Pass, p: Pass, files: seq<HashedFile>) {
    && Counts(p, start, |files|) && Records(p) && Firsts(p, start)
    && Kept(start.entries, start.tree, p.entries, p.tree)
    && multiset(p.finished) <= multiset(files)
  }

  lemma TurnFinishes(sanitize: string -> string, p: Pass, sorted: seq<HashedFile>, i: nat, fate: PlaceFate)
    requires i < |sorted| && multiset(p.finished) <= multiset(sorted[..i])
    ensures multiset(Turn(sanitize, p, sorted[i], fate).finished) <= multiset(sorted[..i + 1])
  {
    TurnMeans(sanitize, p, sorted[i], fate);
    hide Turn, PathFor;
    assert sorted[..i + 1] == sorted[..i] + [sorted[i]];
  }

  lemma TurnAccounts(sanitize: string -> string, start: Pass, p: Pass, sorted: seq<HashedFile>, i: nat, fate: PlaceFate)
    requires Sorted(sorted) && i < |sorted| && Accounts(start, p, sorted[..i])
    ensures Accounts(start, Turn(sanitize, p, sorted[i], fate), sorted[..i + 1])
  {
    hide Turn, Counts, Records, Firsts, Kept, Sorted;
    TurnFinishes(sanitize, p, sorted, i, fate);
    TurnKeepsTree(sanitize, start, p, sorted[i], fate);
    TurnKeepsRecords(sanitize, start, p, sorted[i], fate, i);
    TurnKeepsFirsts(sanitize, start, p, sorted, i, fate);
  }

  lemma {:induction false} PrefixAccounts(
    sanitize: string -> string, entries: Index, tree: Tree, sorted: seq<HashedFile>, fates: nat -> PlaceFate, i: nat)
    requires Sorted(sorted) && i <= |sorted|
    ensures var start := Opening(entries, tree);
            Accounts(start, PlaceAll(sanitize, start, sorted[..i], fates), sorted[..i])
  {
    var start := Opening(entries, tree);
    PlaceAllUnfolds(sanitize, start, sorted[..i], fates);
    if i > 0 {
      hide Accounts, PlaceAll, Turn, Sorted;
      assert Init(sorted[..i]) == sorted[..i - 1];
      PrefixAccounts(sanitize, entries, tree, sorted, fates, i - 1);
      TurnAccounts(sanitize, start, PlaceAll(sanitize, start, sorted[..i - 1], fates), sorted, i - 1, fates(i - 1));
    }
  }

  lemma PassKeeps(
    sanitize: string -> string, entries: Index, tree: Tree, sorted: seq<HashedFile>, fates: nat -> PlaceFate)
    requires Sorted(sorted)
    ensures var start := Opening(entries, tree);
            var p := PlaceAll(sanitize, start, sorted, fates);
            && Counts(p, start, |sorted|) && Records(p) && Firsts(p, start)
            && Kept(entries, tree, p.entries, p.tree)
            && multiset(p.finished) <= multiset(sorted)
  {
    PrefixAccounts(sanitize, entries, tree, sorted, fates, |sorted|);
    assert sorted[..|sorted|] == sorted;
    hide PlaceAll, Counts, Records, Firsts, Kept;
  }

  // ----- which files are moved, and where -----

  predicate Writes(fate: PlaceFate) {
    fate.Moved? && fate.commit.Written?
  }

  /** A hash is in the index from the start, or since one of the files was committed. */
  ghost predicate Indexed(entries: Index, files: seq<HashedFile>, fates: nat -> PlaceFate, hash: string) {
    hash in entries || exists k :: 0 <= k < |files| && files[k].contentHash == hash && Writes(fates(k))
  }

  /** The files that are moved into the tree. */
  ghost function MovedFiles(entries: Index, files: seq<HashedFile>, fates: nat -> PlaceFate): seq<HashedFile> {
    if files == [] then []
    else MovedFiles(entries, Init(files), fates)
         + if fates(|files| - 1).Moved? && !Indexed(entries, Init(files), fates, Last(files).contentHash)
           then [Last(files)] else []
  }

  lemma IndexedSnoc(entries: Index, files: seq<HashedFile>, file: HashedFile, fates: nat -> PlaceFate, hash: string)
    ensures Indexed(entries, files + [file], fates, hash) <==>
              Indexed(entries, files, fates, hash) || (file.contentHash == hash && Writes(fates(|files|)))
  {
    var more := files + [file];
    assert forall k | 0 <= k < |files| :: more[k] == files[k];
    assert more[|files|] == file;
  }

  lemma {:induction false} EntriesAreIndexed(
    sanitize: string -> string, start: Pass, files: seq<HashedFile>, fates: nat -> PlaceFate, hash: string)
    ensures hash in PlaceAll(sanitize, start, files, fates).entries <==> Indexed(start.entries, files, fates, hash)
  {
    PlaceAllUnfolds(sanitize, start, files, fates);
    if files != [] {
      hide PlaceAll, Turn, Indexed;
      EntriesAreIndexed(sanitize, start, Init(files), fates, hash);
      TurnMeans(sanitize, PlaceAll(sanitize, start, Init(files), fates), Last(files), fates(|files| - 1));
      assert Init(files) + [Last(files)] == files;
      IndexedSnoc(start.entries, Init(files), Last(files), fates, hash);
    }
  }

  /** The commit a moved file makes. */
  predicate CommitFits(c: Commit, file: HashedFile) {
    c.hash == file.contentHash && c.entry.originalKey == file.originalKey && c.entry.bucketAlias == file.alias
  }

  ghost predicate Fit(commits: seq<Commit>, moved: seq<HashedFile>) {
    |commits| == |moved| && forall i | 0 <= i < |moved| :: CommitFits(commits[i], moved[i])
  }

  /** A pass moves exactly the files whose hash the index does not hold at their
      turn and whose move works, in order, one commit each. */
  lemma {:induction false} MovesAre(
    sanitize: string -> string, start: Pass, files: seq<HashedFile>, fates: nat -> PlaceFate)
    requires start.commits == []
    ensures Fit(PlaceAll(sanitize, start, files, fates).commits, MovedFiles(start.entries, files, fates))
  {
    PlaceAllUnfolds(sanitize, start, files, fates);
    if files != [] {
      hide PlaceAll, Turn, Indexed, PathFor;
      MovesAre(sanitize, start, Init(files), fates);
      EntriesAreIndexed(sanitize, start, Init(files), fates, Last(files).contentHash);
      TurnMeans(sanitize, PlaceAll(sanitize, start, Init(files), fates), Last(files), fates(|files| - 1));
    }
  }

  ghost predicate HasPath(commits: seq<Commit>, path: string) {
    exists c <- commits :: c.entry.relativePath == path
  }

  ghost predicate Tracked(tree0: Tree, commits: seq<Commit>, tree: Tree) {
    && |tree| == |tree0| + |commits|
    && (forall path :: path in tree <==> path in tree0 || HasPath(commits, path))
    && (forall path | path in tree0 :: tree[path] == tree0[path])
    && (forall c <- commits :: c.entry.relativePath !in tree0 && tree[c.entry.relativePath] == c.hash)
  }

  lemma HasPathSnoc(commits: seq<Commit>, c: Commit, path: string)
    ensures HasPath(commits + [c], path) <==> HasPath(commits, path) || c.entry.relativePath == path
  {
    assert forall d <- commits :: d in commits + [c];
    assert c in commits + [c];
  }

  lemma OnePathMore(tree: Tree, path: string, hash: string)
    requires path !in tree
    ensures |tree[path := hash]| == |tree| + 1
  {
    assert tree[path := hash].Keys == tree.Keys + {path};
    assert |tree[path := hash].Keys| == |tree.Keys| + 1;
  }

  lemma TrackedSnoc(tree0: Tree, commits: seq<Commit>, tree: Tree, c: Commit)
    requires Tracked(tree0, commits, tree) && c.entry.relativePath !in tree
    ensures Tracked(tree0, commits + [c], tree[c.entry.relativePath := c.hash])
  {
    var more, after := commits + [c], tree[c.entry.relativePath := c.hash];
    OnePathMore(tree, c.entry.relativePath, c.hash);
    forall path
      ensures path in after <==> path in tree0 || HasPath(more, path)
    {
      HasPathSnoc(commits, c, path);
    }
    forall d | d in commits
      ensures HasPath(commits, d.entry.relativePath)
    {
    }
    hide HasPath;
    assert forall d | d in more :: d in commits || d == c;
  }

  /** The tree gains one path for each move, a path it did not have, with the
      moved file's content. It gains nothing else and loses nothing. */
  lemma {:induction false} TreeGainsMoves(
    sanitize: string -> string, start: Pass, files: seq<HashedFile>, fates: nat -> PlaceFate)
    requires start.commits == []
    ensures var p := PlaceAll(sanitize, start, files, fates); Tracked(start.tree, p.commits, p.tree)
  {
    PlaceAllUnfolds(sanitize, start, files, fates);
    if files != [] {
      hide PlaceAll, Turn, Tracked, PathFor;
      TreeGainsMoves(sanitize, start, Init(files), fates);
      var p := PlaceAll(sanitize, start, Init(files), fates);
      var file, fate := Last(files), fates(|files| - 1);
      TurnMeans(sanitize, p, file, fate);
      if file.contentHash !in p.entries && fate.Moved? {
        TrackedSnoc(start.tree, p.commits, p.tree, CommitOf(PathFor(sanitize, p.tree, file), file, fate.commit));
      } else {
        assert p.commits + [] == p.commits;
      }
    }
  }

  // ----- one copy per content -----

  ghost predicate OneCopyPerContent(tree: Tree) {
    forall p, q | p in tree && q in tree && tree[p] == tree[q] :: p == q
  }

  ghost predicate InTree(tree: Tree, hash: string) {
    exists path :: path in tree && tree[path] == hash
  }

  ghost predicate MovedBefore(files: seq<HashedFile>, fates: nat -> PlaceFate, n: nat, hash: string)
    requires n <= |files|
  {
    exists i :: 0 <= i < n && files[i].contentHash == hash && fates(i).Moved?
  }

  /** File `j` is moved although the tree holds its content already: from the
      start, or from an earlier move. The index does not know, because no commit
      of that content has worked. */
  ghost predicate MovedAgain(entries: Index, tree: Tree, files: seq<HashedFile>, fates: nat -> PlaceFate, j: nat)
    requires j < |files|
  {
    && fates(j).Moved? && !Indexed(entries, files[..j], fates, files[j].contentHash)
    && (InTree(tree, files[j].contentHash) || MovedBefore(files, fates, j, files[j].contentHash))
  }

  ghost predicate SomeMovedAgain(entries: Index, tree: Tree, files: seq<HashedFile>, fates: nat -> PlaceFate) {
    exists j :: 0 <= j < |files| && MovedAgain(entries, tree, files, fates, j)
  }

  lemma MovedAgainInit(entries: Index, tree: Tree, files: seq<HashedFile>, fates: nat -> PlaceFate, j: nat)
    requires j < |files| - 1
    ensures MovedAgain(entries, tree, files, fates, j) <==> MovedAgain(entries, tree, Init(files), fates, j)
  {
    hide Indexed;
    assert Init(files)[..j] == files[..j];
    assert forall i | 0 <= i < j :: Init(files)[i] == files[i];
  }

  lemma SomeMovedAgainSnoc(entries: Index, tree: Tree, files: seq<HashedFile>, fates: nat -> PlaceFate)
    requires files != []
    ensures SomeMovedAgain(entries, tree, files, fates) <==>
              || SomeMovedAgain(entries, tree, Init(files), fates)
              || MovedAgain(entries, tree, files, fates, |files| - 1)
  {
    hide MovedAgain;
    forall j | 0 <= j < |files| - 1
      ensures MovedAgain(entries, tree, files, fates, j) <==> MovedAgain(entries, tree, Init(files), fates, j)
    {
      MovedAgainInit(entries, tree, files, fates, j);
    }
    if MovedAgain(entries, tree, files, fates, |files| - 1) {
      var j := |files| - 1;
      assert MovedAgain(entries, tree, files, fates, j);
    }
  }

  lemma InTreeSnoc(tree: Tree, path: string, h: string, hash: string)
    requires path !in tree
    ensures InTree(tree[path := h], hash) <==> InTree(tree, hash) || h == hash
  {
    var after := tree[path := h];
    if InTree(tree, hash) {
      var q :| q in tree && tree[q] == hash;
      assert q in after && after[q] == hash;
    }
    assert path in after && after[path] == h;
  }

  lemma MovedBeforeSnoc(files: seq<HashedFile>, fates: nat -> PlaceFate, hash: string)
    requires files != []
    ensures MovedBefore(files, fates, |files|, hash) <==>
              || MovedBefore(Init(files), fates, |files| - 1, hash)
              || (Last(files).contentHash == hash && fates(|files| - 1).Moved?)
  {
    assert forall i | 0 <= i < |files| - 1 :: Init(files)[i] == files[i];
    if Last(files).contentHash == hash && fates(|files| - 1).Moved? {
      assert files[|files| - 1].contentHash == hash;
    }
  }

  /** Content the index does not hold is in the tree only where it was from the
      start or a move put it. */
  lemma {:induction false} UnindexedContent(
    sanitize: string -> string, start: Pass, files: seq<HashedFile>, fates: nat -> PlaceFate, hash: string)
    ensures var p := PlaceAll(sanitize, start, files, fates);
            hash !in p.entries ==>
              (InTree(p.tree, hash) <==> InTree(start.tree, hash) || MovedBefore(files, fates, |files|, hash))
  {
    PlaceAllUnfolds(sanitize, start, files, fates);
    if files != [] {
      hide PlaceAll, Turn, PathFor, InTree, MovedBefore;
      UnindexedContent(sanitize, start, Init(files), fates, hash);
      var p := PlaceAll(sanitize, start, Init(files), fates);
      var file, fate := Last(files), fates(|files| - 1);
      TurnMeans(sanitize, p, file, fate);
      MovedBeforeSnoc(files, fates, hash);
      InTreeSnoc(p.tree, PathFor(sanitize, p.tree, file), file.contentHash, hash);
    }
  }

  lemma NewPathKeepsOneCopy(tree: Tree, path: string, hash: string)
    requires path !in tree
    ensures OneCopyPerContent(tree[path := hash]) <==> OneCopyPerContent(tree) && !InTree(tree, hash)
  {
    var after := tree[path := hash];
    if OneCopyPerContent(after) {
      forall p, q | p in tree && q in tree && tree[p] == tree[q] ensures p == q {
        assert after[p] == tree[p] && after[q] == tree[q];
      }
      forall q | q in tree ensures tree[q] != hash {
        assert after[q] == tree[q] && after[path] == hash;
      }
    }
  }

  lemma LastMovedAgain(entries: Index, tree: Tree, files: seq<HashedFile>, fates: nat -> PlaceFate)
    requires files != []
    ensures MovedAgain(entries, tree, files, fates, |files| - 1) <==>
              && fates(|files| - 1).Moved? && !Indexed(entries, Init(files), fates, Last(files).contentHash)
              && (InTree(tree, Last(files).contentHash) ||
                  MovedBefore(Init(files), fates, |files| - 1, Last(files).contentHash))
  {
    hide Indexed, InTree;
    assert files[..|files| - 1] == Init(files);
    assert forall i | 0 <= i < |files| - 1 :: Init(files)[i] == files[i];
  }

  /** A pass leaves one copy per content if and only if it found one and moves no
      file whose content the tree already holds. */
  lemma {:induction false} OneCopyIffNotMovedAgain(
    sanitize: string -> string, start: Pass, files: seq<HashedFile>, fates: nat -> PlaceFate)
    ensures OneCopyPerContent(PlaceAll(sanitize, start, files, fates).tree)
       <==> OneCopyPerContent(start.tree) && !SomeMovedAgain(start.entries, start.tree, files, fates)
  {
    PlaceAllUnfolds(sanitize, start, files, fates);
    if files != [] {
      hide PlaceAll, Turn, PathFor, InTree, MovedBefore, Indexed, OneCopyPerContent, SomeMovedAgain, MovedAgain;
      var init, file, fate := Init(files), Last(files), fates(|files| - 1);
      var p := PlaceAll(sanitize, start, init, fates);
      OneCopyIffNotMovedAgain(sanitize, start, init, fates);
      SomeMovedAgainSnoc(start.entries, start.tree, files, fates);
      LastMovedAgain(start.entries, start.tree, files, fates);
      TurnMeans(sanitize, p, file, fate);
      EntriesAreIndexed(sanitize, start, init, fates, file.contentHash);
      UnindexedContent(sanitize, start, init, fates, file.contentHash);
      NewPathKeepsOneCopy(p.tree, PathFor(sanitize, p.tree, file), file.contentHash);
    }
  }

  lemma TwoFiles(sanitize: string -> string, start: Pass, f: HashedFile, g: HashedFile, fates: nat -> PlaceFate)
    ensures PlaceAll(sanitize, start, [f, g], fates)
         == Turn(sanitize, Turn(sanitize, start, f, fates(0)), g, fates(1))
  {
    hide Turn, PlaceAll;
    PlaceAllUnfolds(sanitize, start, [f, g], fates);
    PlaceAllUnfolds(sanitize, start, [f], fates);
    PlaceAllUnfolds(sanitize, start, [], fates);
    assert Init([f, g]) == [f] && Init([f]) == [];
  }

  /** A pass that leaves two copies: the first file's commit fails. */
  lemma FailedCommitLeavesTwoCopies(sanitize: string -> string, f: HashedFile, g: HashedFile, fates: nat -> PlaceFate)
    requires f.contentHash == g.contentHash && fates(0) == Moved(OpenFailed) && fates(1) == Moved(Written)
    ensures var p := PlaceAll(sanitize, Opening(map[], map[]), [f, g], fates);
            !OneCopyPerContent(p.tree) && |p.tree| == 2 && p.finished == [g]
  {
    var start := Opening(map[], map[]);
    TwoFiles(sanitize, start, f, g, fates);
    TurnMeans(sanitize, start, f, fates(0));
    TurnMeans(sanitize, Turn(sanitize, start, f, fates(0)), g, fates(1));
    TreeGainsMoves(sanitize, start, [f, g], fates);
    hide Turn, PlaceAll, PathFor;
    SecondMovedAgain(map[], map[], [f, g], fates);
    OneCopyIffNotMovedAgain(sanitize, start, [f, g], fates);
  }

  lemma SecondMovedAgain(entries: Index, tree: Tree, files: seq<HashedFile>, fates: nat -> PlaceFate)
    requires |files| == 2 && files[0].contentHash == files[1].contentHash && files[0].contentHash !in entries
    requires fates(0) == Moved(OpenFailed) && fates(1).Moved?
    ensures SomeMovedAgain(entries, tree, files, fates)
  {
    assert files[..1] == [files[0]];
    assert MovedBefore(files, fates, 1, files[1].contentHash);
    assert MovedAgain(entries, tree, files, fates, 1);
  }

  // ----- the index file after a pass -----

  /** Names and keys that an index row can hold, and a digest of the usual length. */
  predicate PlainFile(sanitize: string -> string, file: HashedFile, n: nat) {
    && |file.contentHash| == n
    && (forall c | c in [' ', '\t', '\n'] :: c !in file.contentHash)
    && (forall c | c in ['\t', '\n'] ::
          c !in file.extension && c !in sanitize(FileName(AfterZip(file.originalKey))) && c !in file.originalKey)
    && '\n' !in file.alias && StripCr(file.alias) == file.alias
  }

  lemma CandidateIsOf(dir: string, name: string, n: nat, c: char)
    requires c !in dir && c !in name && c in ['\t', '\n']
    ensures c !in Candidate(dir, name, n)
  {
    PiecesAreOf(name, '.', c);
    assert !IsDigit(c) && c !in "file";
  }

  lemma FreePathIsOf(existing: set<string>, dir: string, name: string, c: char)
    requires c !in dir && c !in name && c in ['\t', '\n']
    ensures c !in FreePath(existing, dir, name)
  {
    FreePathIsUnique(existing, dir, name);
    hide FreePath, Candidate;
    if Plain(dir, name) in existing {
      var n :| FirstFree(existing, dir, name, n) && FreePath(existing, dir, name) == Candidate(dir, name, n);
      CandidateIsOf(dir, name, n, c);
    }
  }

  lemma MoveIsPlain(sanitize: string -> string, tree: Tree, file: HashedFile, fate: Fate, n: nat)
    requires PlainFile(sanitize, file, n)
    ensures PlainCommit(CommitOf(PathFor(sanitize, tree, file), file, fate), n)
  {
    hide FreePath, FileName, AfterZip;
    assert ['\t', '\n'][0] == '\t' && ['\t', '\n'][1] == '\n' && [' ', '\t', '\n'][0] == ' ';
    assert [' ', '\t', '\n'][1] == '\t' && [' ', '\t', '\n'][2] == '\n';
    var name := sanitize(FileName(AfterZip(file.originalKey)));
    FreePathIsOf(tree.Keys, file.extension, name, '\t');
    FreePathIsOf(tree.Keys, file.extension, name, '\n');
  }

  /** A pass commits only hashes the index does not hold, and the map is what those commits make it. */
  lemma {:induction false} CommitsAreNew(
    sanitize: string -> string, text: string, entries: Index, tree: Tree,
    files: seq<HashedFile>, fates: nat -> PlaceFate, n: nat)
    requires forall f <- files :: PlainFile(sanitize, f, n)
    ensures var p := PlaceAll(sanitize, Opening(entries, tree), files, fates);
            && AllNew(Held(text, entries), p.commits)
            && After(Held(text, entries), p.commits).entries == p.entries
            && forall c <- p.commits :: PlainCommit(c, n)
  {
    var start := Opening(entries, tree);
    PlaceAllUnfolds(sanitize, start, files, fates);
    if files != [] {
      hide PlaceAll, Turn, PathFor, PlainFile, AllNew, After, PlainCommit;
      assert forall f <- Init(files) :: f in files;
      CommitsAreNew(sanitize, text, entries, tree, Init(files), fates, n);
      var p := PlaceAll(sanitize, start, Init(files), fates);
      var file, fate := Last(files), fates(|files| - 1);
      TurnMeans(sanitize, p, file, fate);
      if file.contentHash !in p.entries && fate.Moved? {
        MoveIsPlain(sanitize, p.tree, file, fate.commit, n);
        NewSnoc(Held(text, entries), p.commits, CommitOf(PathFor(sanitize, p.tree, file), file, fate.commit));
      } else {
        assert p.commits + [] == p.commits;
      }
    } else {
      assert AllNew(Held(text, entries), []);
    }
  }

  lemma NewSnoc(h: Held, commits: seq<Commit>, c: Commit)
    requires AllNew(h, commits) && c.hash !in After(h, commits).entries
    ensures AllNew(h, commits + [c]) && After(h, commits + [c]) == AfterOne(After(h, commits), c)
  {
    var more := commits + [c];
    assert Init(more) == commits;
    hide After;
    forall i | 0 <= i < |more|
      ensures more[i].hash !in After(h, more[..i]).entries
    {
      if i < |commits| {
        assert more[..i] == commits[..i] && more[i] == commits[i];
      } else {
        assert more[..i] == commits;
      }
    }
  }

  /** After a pass, from any index file, the map is what a restart would load if
      and only if its commits kept the two together. */
  lemma IndexSurvivesPassIffKept(
    sanitize: string -> string, text: string, tree: Tree,
    files: seq<HashedFile>, fates: nat -> PlaceFate, n: nat)
    requires n >= 1 && forall hash | hash in Load(text) :: |hash| == n
    requires forall f <- files :: PlainFile(sanitize, f, n)
    ensures var p := PlaceAll(sanitize, Opening(Load(text), tree), files, fates);
            p.entries == Load(After(Held(text, Load(text)), p.commits).text) <==> KeepsFile(text, p.commits)
  {
    CommitsAreNew(sanitize, text, Load(text), tree, files, fates, n);
    hide PlaceAll, PlainFile, AllNew, After, KeepsFile, PlainCommit, Load;
    MapIsFileIffKept(text, PlaceAll(sanitize, Opening(Load(text), tree), files, fates).commits, n);
  }

  // ----- the phase as a whole -----

  /** Loads the index and places every file. */
  method PlacementPhase(
    text: string, tree: Tree, sanitize: string -> string, files: seq<HashedFile>, fates: nat -> PlaceFate, ghost n: nat)
    returns (placer: Placer, summary: PlacementSummary, records: seq<MergeRecord>, finished: seq<HashedFile>)
    ensures fresh(placer) && fresh(placer.index)
    ensures var start := Opening(Load(text), tree);
            var p := PlaceAll(sanitize, start, InOrder(files), fates);
            && placer.index.entries == p.entries && placer.tree == p.tree
            && summary == p.summary && records == p.records && finished == p.finished
            && Accounts(start, p, InOrder(files)) && Tracked(tree, p.commits, p.tree)
            && (OneCopyPerContent(p.tree) <==>
                  OneCopyPerContent(tree) && !SomeMovedAgain(Load(text), tree, InOrder(files), fates))
            && (n >= 1 && (forall hash | hash in Load(text) :: |hash| == n)
                && (forall f <- InOrder(files) :: PlainFile(sanitize, f, n)) ==>
                  (placer.index.entries == Load(placer.index.text) <==> KeepsFile(text, p.commits)))
  {
    hide PlaceAll, InOrder, Load, Accounts, Tracked, OneCopyPerContent, SomeMovedAgain;
    hide PlainFile, KeepsFile, After, Sorted;
    var index := new ContentIndex(text);
    placer := new Placer(sanitize, index, tree);
    summary, records, finished := placer.PlaceAndReport(files, fates);
    PhaseMeans(text, tree, sanitize, files, fates, n);
  }

  lemma PhaseMeans(
    text: string, tree: Tree, sanitize: string -> string, files: seq<HashedFile>, fates: nat -> PlaceFate, n: nat)
    ensures var start := Opening(Load(text), tree);
            var p := PlaceAll(sanitize, start, InOrder(files), fates);
            && Accounts(start, p, InOrder(files)) && Tracked(tree, p.commits, p.tree)
            && (OneCopyPerContent(p.tree) <==>
                  OneCopyPerContent(tree) && !SomeMovedAgain(Load(text), tree, InOrder(files), fates))
            && (n >= 1 && (forall hash | hash in Load(text) :: |hash| == n)
                && (forall f <- InOrder(files) :: PlainFile(sanitize, f, n)) ==>
                  (p.entries == Load(After(Held(text, Load(text)), p.commits).text) <==> KeepsFile(text, p.commits)))
  {
    hide PlaceAll, InOrder, Load, Accounts, Tracked, OneCopyPerContent, SomeMovedAgain;
    hide PlainFile, KeepsFile, After, Sorted;
    var sorted, start := InOrder(files), Opening(Load(text), tree);
    InOrderSorts(files, "");
    PrefixAccounts(sanitize, Load(text), tree, sorted, fates, |sorted|);
    assert sorted[..|sorted|] == sorted;
    TreeGainsMoves(sanitize, start, sorted, fates);
    OneCopyIffNotMovedAgain(sanitize, start, sorted, fates);
    if n >= 1 && (forall hash | hash in Load(text) :: |hash| == n)
       && (forall f <- sorted :: PlainFile(sanitize, f, n)) {
      IndexSurvivesPassIffKept(sanitize, text, tree, sorted, fates, n);
    }
  }
}
