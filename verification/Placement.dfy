/**
 The sequential placement pass of `deduplicate/dedup.rs`: files are sorted, and
 the first file of each content hash is moved into the result tree and recorded
 in the index; later ones are duplicates.
 */
module Placement {
  import opened Wrappers
  import opened Text
  import opened Keys
  import opened ContentIndexFile
  import opened ContentIndexRuns
  import opened DedupPool

  // ----- a free name -----

  /** `stem-n.ext` beside `name`, for `unique_path`. */
  function Candidate(dir: string, name: string, n: nat): string {
    var (stem, ext) := SplitExtension(name);
    dir + "/" + (if name == ".." then "file" else stem) + "-" + Decimal(n)
      + match ext case Some(e) => "." + e case None => ""
  }

  function Plain(dir: string, name: string): string {
    dir + "/" + name
  }

  lemma Sandwich(pre: string, a: string, b: string, post: string)
    requires pre + a + post == pre + b + post
    ensures a == b
  {
    assert |pre + a + post| == |pre| + |a| + |post|;
    assert (pre + a + post)[|pre|..|pre| + |a|] == a;
    assert (pre + b + post)[|pre|..|pre| + |b|] == b;
  }

  lemma CandidatesDiffer(dir: string, name: string, m: nat, n: nat)
    requires Candidate(dir, name, m) == Candidate(dir, name, n)
    ensures m == n
  {
    var (stem, ext) := SplitExtension(name);
    var pre := dir + "/" + (if name == ".." then "file" else stem) + "-";
    var post := match ext case Some(e) => "." + e case None => "";
    Sandwich(pre, Decimal(m), Decimal(n), post);
    ValueOfDecimal(m);
    ValueOfDecimal(n);
  }

  /** What a numbered name looks like: the number goes before the extension. */
  lemma CandidateLooksLike(dir: string, stem: string, ext: string, n: nat)
    requires stem != "" && '.' !in ext && stem + "." + ext != ".."
    ensures Candidate(dir, stem + "." + ext, n) == dir + "/" + stem + "-" + Decimal(n) + "." + ext
    ensures stem != ".." && '.' !in stem ==> Candidate(dir, stem, n) == dir + "/" + stem + "-" + Decimal(n)
  {
    hide Decimal, SplitExtension;
    ExtensionIsLast(stem, ext);
    if '.' !in stem {
      NoExtension(stem);
    }
    var candidate := Candidate(dir, stem + "." + ext, n);
    assert candidate == dir + "/" + stem + "-" + Decimal(n) + ("." + ext);
    assert '.' !in stem ==> Candidate(dir, stem, n) == dir + "/" + stem + "-" + Decimal(n) + "";
  }

  function Tried(dir: string, name: string, n: nat): set<string> {
    set k | 2 <= k < n :: Candidate(dir, name, k)
  }

  lemma OneMoreTried(dir: string, name: string, n: nat)
    requires n >= 2
    ensures Candidate(dir, name, n) !in Tried(dir, name, n)
    ensures Tried(dir, name, n + 1) == Tried(dir, name, n) + {Candidate(dir, name, n)}
  {
    if Candidate(dir, name, n) in Tried(dir, name, n) {
      var k :| 2 <= k < n && Candidate(dir, name, k) == Candidate(dir, name, n);
      CandidatesDiffer(dir, name, k, n);
    }
  }

  ghost predicate FirstFree(existing: set<string>, dir: string, name: string, n: nat) {
    && 2 <= n && Candidate(dir, name, n) !in existing
    && forall k | 2 <= k < n :: Candidate(dir, name, k) in existing
  }

  /** The desired path when it is free, else the first free numbered one. */
  ghost predicate IsUniquePath(existing: set<string>, dir: string, name: string, path: string) {
    && path !in existing
    && if Plain(dir, name) !in existing then path == Plain(dir, name)
       else exists n :: FirstFree(existing, dir, name, n) && path == Candidate(dir, name, n)
  }

  /** The first free numbered path from `n` on. Ends because only finitely many
      paths exist and the candidates all differ. */
  function FreeFrom(existing: set<string>, dir: string, name: string, n: nat): string
    requires n >= 2
    decreases existing - Tried(dir, name, n)
  {
    if Candidate(dir, name, n) !in existing then Candidate(dir, name, n)
    else
      OneMoreTried(dir, name, n);
      FreeFrom(existing, dir, name, n + 1)
  }

  function FreePath(existing: set<string>, dir: string, name: string): string {
    if Plain(dir, name) !in existing then Plain(dir, name) else FreeFrom(existing, dir, name, 2)
  }

  lemma {:induction false} FreeFromIsFirst(existing: set<string>, dir: string, name: string, n: nat)
    requires n >= 2 && forall k | 2 <= k < n :: Candidate(dir, name, k) in existing
    ensures exists m :: FirstFree(existing, dir, name, m) && FreeFrom(existing, dir, name, n) == Candidate(dir, name, m)
    decreases existing - Tried(dir, name, n)
  {
    hide Candidate;
    if Candidate(dir, name, n) !in existing {
      assert FirstFree(existing, dir, name, n);
    } else {
      OneMoreTried(dir, name, n);
      FreeFromIsFirst(existing, dir, name, n + 1);
    }
  }

  lemma FreePathIsUnique(existing: set<string>, dir: string, name: string)
    ensures IsUniquePath(existing, dir, name, FreePath(existing, dir, name))
  {
    if Plain(dir, name) in existing {
      FreeFromIsFirst(existing, dir, name, 2);
    }
  }

  method UniquePath(existing: set<string>, dir: string, name: string) returns (path: string)
    ensures path == FreePath(existing, dir, name)
    ensures IsUniquePath(existing, dir, name, path)
  {
    FreePathIsUnique(existing, dir, name);
    if Plain(dir, name) !in existing {
      return Plain(dir, name);
    }
    var n := 2;
    path := Candidate(dir, name, n);
    while path in existing
      invariant 2 <= n && path == Candidate(dir, name, n)
      invariant FreePath(existing, dir, name) == FreeFrom(existing, dir, name, n)
      decreases existing - Tried(dir, name, n)
    {
      OneMoreTried(dir, name, n);
      n := n + 1;
      path := Candidate(dir, name, n);
    }
  }

  // ----- the order of placement -----

  /** Whether a key's file name carries the "no known date" prefix. */
  predicate IsUndated(key: string) {
    "0000-00-00-" <= FileName(AfterZip(key))
  }

  /** Dated keys first, then by key. */
  predicate KeyLe(a: string, b: string) {
    if IsUndated(a) == IsUndated(b) then StrLe(a, b) else IsUndated(b)
  }

  lemma KeyLeTotal(a: string, b: string)
    ensures KeyLe(a, b) || KeyLe(b, a)
    ensures KeyLe(a, b) && KeyLe(b, a) <==> a == b
  {
    StrLeTotal(a, b);
  }

  lemma KeyLeTransitive(a: string, b: string, c: string)
    requires KeyLe(a, b) && KeyLe(b, c)
    ensures KeyLe(a, c)
  {
    if IsUndated(a) == IsUndated(b) == IsUndated(c) {
      StrLeTransitive(a, b, c);
    }
  }

  ghost predicate Sorted(files: seq<HashedFile>) {
    forall i, j | 0 <= i <= j < |files| :: KeyLe(files[i].originalKey, files[j].originalKey)
  }

  /** Puts a file after every one that does not sort later. */
  function Inserted(files: seq<HashedFile>, file: HashedFile): seq<HashedFile> {
    if files == [] || KeyLe(Last(files).originalKey, file.originalKey) then files + [file]
    else Inserted(Init(files), file) + [Last(files)]
  }

  /** `sort_by`. */
  function InOrder(files: seq<HashedFile>): seq<HashedFile> {
    if files == [] then [] else Inserted(InOrder(Init(files)), Last(files))
  }

  /** In the order of placement, a file without a known date comes after every
      dated one, and within either kind the names ascend. */
  lemma DatedFirst(files: seq<HashedFile>, i: nat, j: nat)
    requires i < j < |InOrder(files)|
    ensures var (a, b) := (InOrder(files)[i].originalKey, InOrder(files)[j].originalKey);
            var (aUndated, bUndated) := ("0000-00-00-" <= Partial(Partial(a, '!'), '/'),
                                         "0000-00-00-" <= Partial(Partial(b, '!'), '/'));
            && (aUndated ==> bUndated)
            && (aUndated == bUndated ==> StrLe(a, b))
  {
    InOrderSorts(files, "");
    hide InOrder;
    assert KeyLe(InOrder(files)[i].originalKey, InOrder(files)[j].originalKey);
  }

  function WithKey(files: seq<HashedFile>, key: string): seq<HashedFile> {
    if files == [] then []
    else WithKey(Init(files), key) + if Last(files).originalKey == key then [Last(files)] else []
  }

  ghost predicate AllLe(files: seq<HashedFile>, key: string) {
    forall i | 0 <= i < |files| :: KeyLe(files[i].originalKey, key)
  }

  lemma AppendSorts(files: seq<HashedFile>, file: HashedFile)
    requires Sorted(files) && AllLe(files, file.originalKey)
    ensures Sorted(files + [file])
  {
    hide KeyLe;
    KeyLeTotal(file.originalKey, file.originalKey);
  }

  lemma SortedSplits(files: seq<HashedFile>)
    requires files != [] && Sorted(files)
    ensures Sorted(Init(files)) && AllLe(Init(files), Last(files).originalKey)
  {
    hide KeyLe;
    assert forall i | 0 <= i < |files| - 1 :: Init(files)[i] == files[i];
  }

  lemma AllLeTransitive(files: seq<HashedFile>, a: string, b: string)
    requires AllLe(files, a) && KeyLe(a, b)
    ensures AllLe(files, b)
  {
    hide KeyLe;
    forall i | 0 <= i < |files|
      ensures KeyLe(files[i].originalKey, b)
    {
      KeyLeTransitive(files[i].originalKey, a, b);
    }
  }

  lemma {:induction false} InsertedStaysBelow(files: seq<HashedFile>, file: HashedFile, key: string)
    requires AllLe(files, key) && KeyLe(file.originalKey, key)
    ensures AllLe(Inserted(files, file), key)
  {
    hide KeyLe;
    if files != [] && !KeyLe(Last(files).originalKey, file.originalKey) {
      assert forall i | 0 <= i < |files| - 1 :: Init(files)[i] == files[i];
      InsertedStaysBelow(Init(files), file, key);
    }
  }

  lemma {:induction false} InsertedSorts(files: seq<HashedFile>, file: HashedFile)
    requires Sorted(files)
    ensures Sorted(Inserted(files, file))
  {
    hide KeyLe, Sorted, AllLe;
    if files == [] {
      assert AllLe(files, file.originalKey) by { NothingIsAbove(file.originalKey); }
      AppendSorts(files, file);
    } else {
      SortedSplits(files);
      var init, last := Init(files), Last(files);
      assert init + [last] == files;
      if KeyLe(last.originalKey, file.originalKey) {
        AllLeTransitive(init, last.originalKey, file.originalKey);
        AllLeSnoc(init, last, file.originalKey);
        AppendSorts(files, file);
      } else {
        KeyLeTotal(last.originalKey, file.originalKey);
        InsertedSorts(init, file);
        InsertedStaysBelow(init, file, last.originalKey);
        AppendSorts(Inserted(init, file), last);
      }
    }
  }

  lemma NothingIsAbove(key: string)
    ensures AllLe([], key)
  {
  }

  lemma AllLeSnoc(files: seq<HashedFile>, file: HashedFile, key: string)
    requires AllLe(files, key) && KeyLe(file.originalKey, key)
    ensures AllLe(files + [file], key)
  {
    hide KeyLe;
  }

  lemma {:induction false} InsertedPermutes(files: seq<HashedFile>, file: HashedFile)
    ensures multiset(Inserted(files, file)) == multiset(files) + multiset{file}
  {
    hide KeyLe;
    if files != [] && !KeyLe(Last(files).originalKey, file.originalKey) {
      InsertedPermutes(Init(files), file);
      assert files == Init(files) + [Last(files)];
    }
  }

  lemma {:induction false} InsertedIsStable(files: seq<HashedFile>, file: HashedFile, key: string)
    ensures WithKey(Inserted(files, file), key) == WithKey(files, key) + if file.originalKey == key then [file] else []
  {
    if files == [] || KeyLe(Last(files).originalKey, file.originalKey) {
      assert Init(files + [file]) == files;
    } else {
      InsertedIsStable(Init(files), file, key);
      assert Init(Inserted(Init(files), file) + [Last(files)]) == Inserted(Init(files), file);
      KeyLeTotal(file.originalKey, file.originalKey);
    }
  }

  lemma WithKeySnoc(files: seq<HashedFile>, key: string)
    requires files != []
    ensures WithKey(files, key)
         == WithKey(Init(files), key) + if Last(files).originalKey == key then [Last(files)] else []
  {
  }

  /** A permutation in order, in which files with equal keys keep theirs. */
  lemma {:induction false} InOrderSorts(files: seq<HashedFile>, key: string)
    ensures Sorted(InOrder(files)) && multiset(InOrder(files)) == multiset(files)
    ensures WithKey(InOrder(files), key) == WithKey(files, key)
  {
    if files == [] {
      assert Sorted([]);
    } else {
      hide KeyLe, Sorted, Inserted, WithKey;
      InOrderSorts(Init(files), key);
      InsertedSorts(InOrder(Init(files)), Last(files));
      InsertedPermutes(InOrder(Init(files)), Last(files));
      InsertedIsStable(InOrder(Init(files)), Last(files), key);
      WithKeySnoc(files, key);
      assert files == Init(files) + [Last(files)];
    }
  }

  // ----- placing -----

  /** How one placement's file operations go. */
  datatype PlaceFate = NoDirectory | NotMoved | Moved(commit: Fate)

  datatype MergeRecord = MergeRecord(duplicate: HashedFile, kept: IndexEntry)

  datatype PlacementSummary = PlacementSummary(placed: nat, duplicatesSkipped: nat, failed: nat)

  /** The result tree: the content at each path, by its hash. */
  type Tree = map<string, string>

  /** A pass part way. Every moved file has a commit, whether it works or not. */
  datatype Pass = Pass(
    entries: Index, tree: Tree,
    summary: PlacementSummary, records: seq<MergeRecord>, finished: seq<HashedFile>,
    commits: seq<Commit>)

  function Opening(entries: Index, tree: Tree): Pass {
    Pass(entries, tree, PlacementSummary(0, 0, 0), [], [], [])
  }

  function PathFor(sanitize: string -> string, tree: Tree, file: HashedFile): string {
    FreePath(tree.Keys, file.extension, sanitize(FileName(AfterZip(file.originalKey))))
  }

  function CommitOf(path: string, file: HashedFile, fate: Fate): Commit {
    Commit(file.contentHash, IndexEntry(path, file.originalKey, file.alias), fate)
  }

  /** One file's turn. */
  function Turn(sanitize: string -> string, p: Pass, file: HashedFile, fate: PlaceFate): Pass {
    if file.contentHash in p.entries then
      p.(summary := p.summary.(duplicatesSkipped := p.summary.duplicatesSkipped + 1),
         records := p.records + [MergeRecord(file, p.entries[file.contentHash])],
         finished := p.finished + [file])
    else if !fate.Moved? then p.(summary := p.summary.(failed := p.summary.failed + 1))
    else
      var path := PathFor(sanitize, p.tree, file);
      var commit := CommitOf(path, file, fate.commit);
      var moved := p.(tree := p.tree[path := file.contentHash], commits := p.commits + [commit]);
      if fate.commit.Written? then
        moved.(entries := p.entries[file.contentHash := commit.entry],
               summary := p.summary.(placed := p.summary.placed + 1),
               finished := p.finished + [file])
      else moved.(summary := p.summary.(failed := p.summary.failed + 1))
  }

  /** A pass over files that are in order already. */
  function PlaceAll(sanitize: string -> string, start: Pass, files: seq<HashedFile>, fates: nat -> PlaceFate): Pass {
    if files == [] then start
    else Turn(sanitize, PlaceAll(sanitize, start, Init(files), fates), Last(files), fates(|files| - 1))
  }

  // ----- the program -----

  class Placer {
    const sanitize: string -> string
    const index: ContentIndex
    var tree: Tree

    constructor (sanitize: string -> string, index: ContentIndex, tree: Tree)
      ensures this.sanitize == sanitize && this.index == index && this.tree == tree
    {
      this.sanitize, this.index, this.tree := sanitize, index, tree;
    }

    /** Moves a file to a fresh path and commits its hash. A commit that fails
        leaves the file in place but unrecorded. */
    method PlaceOne(file: HashedFile, fate: PlaceFate) returns (ok: bool)
      modifies this, index
      ensures ok == (fate.Moved? && fate.commit.Written?)
      ensures !fate.Moved? ==> tree == old(tree) && index.entries == old(index.entries) && index.text == old(index.text)
      ensures fate.Moved? ==>
                var path := PathFor(sanitize, old(tree), file);
                && IsUniquePath(old(tree).Keys, file.extension, sanitize(FileName(AfterZip(file.originalKey))), path)
                && tree == old(tree)[path := file.contentHash]
                && Held(index.text, index.entries)
                     == AfterOne(Held(old(index.text), old(index.entries)), CommitOf(path, file, fate.commit))
    {
      if fate.NoDirectory? {
        return false;
      }
      var name := sanitize(FileName(AfterZip(file.originalKey)));
      var path := UniquePath(tree.Keys, file.extension, name);
      if fate.NotMoved? {
        return false;
      }
      tree := tree[path := file.contentHash];
      ok := index.Commit(file.contentHash, IndexEntry(path, file.originalKey, file.alias), fate.commit);
    }

    /**
     Places every file. `finished` are the files placed or found to be
     duplicates; `fates` answers for the file operations of each turn.
     */
    method PlaceAndReport(files: seq<HashedFile>, fates: nat -> PlaceFate)
      returns (summary: PlacementSummary, records: seq<MergeRecord>, finished: seq<HashedFile>)
      modifies this, index
      ensures var p := PlaceAll(sanitize, Opening(old(index.entries), old(tree)), InOrder(files), fates);
              && index.entries == p.entries && tree == p.tree
              && summary == p.summary && records == p.records && finished == p.finished
              && index.text == After(Held(old(index.text), old(index.entries)), p.commits).text
    {
      hide Turn, FreePath;
      var sorted := InOrder(files);
      summary, records, finished := PlacementSummary(0, 0, 0), [], [];
      ghost var start, held := Opening(index.entries, tree), Held(index.text, index.entries);
      ghost var p := start;
      for i := 0 to |sorted|
        invariant p == PlaceAll(sanitize, start, sorted[..i], fates)
        invariant index.entries == p.entries && tree == p.tree
        invariant summary == p.summary && records == p.records && finished == p.finished
        invariant Held(index.text, index.entries) == After(held, p.commits)
      {
        var file := sorted[i];
        assert Init(sorted[..i + 1]) == sorted[..i];
        TurnMeans(sanitize, p, file, fates(i));
        ghost var before := p;
        p := Turn(sanitize, p, file, fates(i));
        var kept := index.Check(file.contentHash);
        if kept.Some? {
          records := records + [MergeRecord(file, kept.value)];
          summary := summary.(duplicatesSkipped := summary.duplicatesSkipped + 1);
          finished := finished + [file];
        } else {
          var ok := PlaceOne(file, fates(i));
          if p.commits != before.commits { assert Init(p.commits) == before.commits; }
          if !ok {
            summary := summary.(failed := summary.failed + 1);
            continue;
          }
          summary := summary.(placed := summary.placed + 1);
          finished := finished + [file];
        }
      }
      assert sorted[..|sorted|] == sorted;
    }
  }

  /** A turn, case by case. */
  lemma TurnMeans(sanitize: string -> string, p: Pass, file: HashedFile, fate: PlaceFate)
    ensures var t := Turn(sanitize, p, file, fate);
            var path := PathFor(sanitize, p.tree, file);
            && path !in p.tree
            && t.commits == p.commits +
                (if file.contentHash !in p.entries && fate.Moved? then [CommitOf(path, file, fate.commit)] else [])
            && t.tree == (if file.contentHash !in p.entries && fate.Moved?
                then p.tree[path := file.contentHash] else p.tree)
            && (file.contentHash in p.entries ==>
                  t == p.(summary := p.summary.(duplicatesSkipped := p.summary.duplicatesSkipped + 1),
                          records := p.records + [MergeRecord(file, p.entries[file.contentHash])],
                          finished := p.finished + [file]))
            && (file.contentHash !in p.entries && fate.Moved? && fate.commit.Written? ==>
                  && t.entries == p.entries[file.contentHash := IndexEntry(path, file.originalKey, file.alias)]
                  && t.summary == p.summary.(placed := p.summary.placed + 1)
                  && t.records == p.records && t.finished == p.finished + [file])
            && (file.contentHash !in p.entries && !(fate.Moved? && fate.commit.Written?) ==>
                  && t.entries == p.entries && t.summary == p.summary.(failed := p.summary.failed + 1)
                  && t.records == p.records && t.finished == p.finished)
  {
    FreePathIsUnique(p.tree.Keys, file.extension, sanitize(FileName(AfterZip(file.originalKey))));
    hide FreePath;
    assert p.commits + [] == p.commits;
  }
}
