/**
 The extraction budget of `archive.rs`: entries are streamed to disk in chunks
 until the archive has produced a hundred times its own size.
 */
module Archive {
  import opened Wrappers
  import opened Text
  import opened Counting
  import opened Keys

  const EXTRACTION_RATIO_LIMIT := 100
  const COPY_CHUNK_BYTES := 65536
  const U64_MAX := 0xffff_ffff_ffff_ffff

  /** The bytes each read returns, never none and never more than the buffer. */
  type Chunk = n: nat | 1 <= n <= COPY_CHUNK_BYTES witness 1

  /** One archive entry: what reading it yields, and whether it reads to its
      end or fails after that (a read error, or a write error of a further chunk). */
  datatype Entry = Entry(name: string, isDir: bool, chunks: seq<Chunk>, complete: bool)

  datatype Member = Member(name: string, size: nat)

  predicate IsSkippable(name: string) {
    || "__MACOSX/" <= name
    || IsAppleDouble(name)
    || FileName(name) == ".DS_Store"
    || ".git" in Split(name, '/') || "node_modules" in Split(name, '/')
  }

  function SaturatingMul(a: nat, b: nat): nat {
    if a * b > U64_MAX then U64_MAX else a * b
  }

  function Budget(compressedSize: nat): nat {
    SaturatingMul(compressedSize, EXTRACTION_RATIO_LIMIT)
  }

  /** A hundred times the archive's size, or as much as fits 64 bits. */
  lemma BudgetIs(compressedSize: nat)
    ensures 100 * compressedSize < 0x1_0000_0000_0000_0000 ==> Budget(compressedSize) == 100 * compressedSize
    ensures 100 * compressedSize >= 0x1_0000_0000_0000_0000 ==> Budget(compressedSize) == 0xffff_ffff_ffff_ffff
  {
  }

  /** Anything under a `.git` or `node_modules` directory is skipped, and any
      sidecar file by its own name, in whatever directory. */
  lemma SkippedAre(dir: string, name: string, below: string)
    requires '/' !in name
    ensures name == ".git" || name == "node_modules" ==> IsSkippable(dir + "/" + name + "/" + below)
    ensures "._" <= name || name == ".DS_Store" ==> IsSkippable(dir + "/" + name) && IsSkippable(name)
    ensures IsSkippable("__MACOSX/" + below)
  {
    hide Done, Partial;
    SplitAt(dir, name + "/" + below, '/');
    SplitAt(name, below, '/');
    SplitAt(dir, name, '/');
    PlainIsPartial(name, '/');
    assert dir + "/" + name + "/" + below == dir + ['/'] + (name + "/" + below);
    assert Split(dir + "/" + name + "/" + below, '/')[|Done(dir, '/')| + 1] == name;
  }

  lemma MacDirectory(path: string, dir: string, name: string)
    requires '/' !in dir
    ensures '/' !in path ==> !("__MACOSX/" <= path)
    ensures path == dir + "/" + name ==> ("__MACOSX/" <= path <==> dir == "__MACOSX")
  {
    var mac := "__MACOSX/";
    assert mac[8] == '/' && forall i | 0 <= i < 8 :: mac[i] != '/';
    assert mac <= path ==> path[8] == mac[8] && path[..8] == mac[..8];
    if path == dir + "/" + name {
      assert path[|dir|] == '/' && path[..|dir|] == dir;
      assert mac[..8] == "__MACOSX";
      assert "__MACOSX" + "/" == mac;
    }
  }

  /** A file whose path has none of these names is not. */
  lemma OthersAreNot(dir: string, name: string)
    requires '/' !in name && '/' !in dir && dir !in {"__MACOSX", ".git", "node_modules"}
    requires name !in {".DS_Store", ".git", "node_modules"} && !("._" <= name)
    ensures !IsSkippable(name) && !IsSkippable(dir + "/" + name)
  {
    hide Done, Partial;
    PlainIsPartial(name, '/');
    PlainIsPartial(dir, '/');
    SplitAt(dir, name, '/');
    assert dir + "/" + name == dir + ['/'] + name;
    assert Split(name, '/') == [name] && Split(dir + "/" + name, '/') == [dir, name];
    MacDirectory(name, "", "");
    MacDirectory(dir + "/" + name, dir, name);
  }

  /** The entries extraction considers. */
  function Regular(entries: seq<Entry>): seq<Entry> {
    if entries == [] then []
    else Regular(Init(entries)) +
         if Last(entries).isDir || IsSkippable(Last(entries).name) then [] else [Last(entries)]
  }

  function Bytes(c: Chunk): nat {
    c
  }

  function Size(e: Entry): nat {
    Sum(e.chunks, Bytes)
  }

  function MemberSize(m: Member): nat {
    m.size
  }

  // ----- one entry -----

  class Extraction {
    var runningTotal: nat
    const budget: nat

    constructor (compressedSize: nat)
      ensures runningTotal == 0 && budget == Budget(compressedSize)
    {
      runningTotal, budget := 0, Budget(compressedSize);
    }

    /** Stops as soon as the archive's total passes the budget. An entry that
        fits is counted whole, however its reads are cut up. */
    method CopyCapped(e: Entry) returns (copied: Option<nat>)
      modifies this
      ensures copied == if e.complete && (e.chunks == [] || old(runningTotal) + Size(e) <= budget)
          then Some(Size(e)) else None
      ensures old(runningTotal) + Size(e) <= budget || e.chunks == [] ==> runningTotal == old(runningTotal) + Size(e)
      ensures old(runningTotal) + Size(e) > budget && e.chunks != [] ==>
                budget < runningTotal <=
                    (if old(runningTotal) < budget then budget else old(runningTotal)) + COPY_CHUNK_BYTES
    {
      var written: nat := 0;
      for i := 0 to |e.chunks|
        invariant written == Sum(e.chunks[..i], Bytes)
        invariant runningTotal == old(runningTotal) + written
        invariant i > 0 ==> runningTotal <= budget
      {
        assert Init(e.chunks[..i + 1]) == e.chunks[..i];
        written := written + e.chunks[i];
        runningTotal := runningTotal + e.chunks[i];
        if runningTotal > budget {
          PrefixIsSmaller(e.chunks, i + 1);
          return None;
        }
      }
      assert e.chunks[..|e.chunks|] == e.chunks;
      if !e.complete {
        return None;
      }
      return Some(written);
    }
  }

  lemma PrefixIsSmaller(chunks: seq<Chunk>, i: nat)
    requires i <= |chunks|
    ensures Sum(chunks[..i], Bytes) <= Sum(chunks, Bytes)
  {
    hide Sum;
    SumConcat(chunks[..i], chunks[i..], Bytes);
    assert chunks[..i] + chunks[i..] == chunks;
  }

  lemma {:induction false} NonEmptyHasBytes(chunks: seq<Chunk>)
    requires chunks != []
    ensures Sum(chunks, Bytes) > 0
  {
    assert Bytes(Last(chunks)) > 0;
  }

  // ----- the whole archive -----

  /** Which considered entries survive: the ones read to their end that are
      empty, or up to which everything read fits the budget. */
  predicate Survives(regular: seq<Entry>, k: nat, budget: nat)
    requires k < |regular|
  {
    regular[k].complete && (regular[k].chunks == [] || Sum(regular[..k + 1], Size) <= budget)
  }

  function Survivors(regular: seq<Entry>, budget: nat): seq<Member> {
    if regular == [] then []
    else Survivors(Init(regular), budget) +
         if Survives(regular, |regular| - 1, budget) then [Member(Last(regular).name, Size(Last(regular)))] else []
  }

  /** `None` when an entry's header or output file cannot be opened at all. */
  method ExpandToDir(compressedSize: nat, entries: seq<Entry>, openFails: seq<bool>)
    returns (result: Option<(seq<Member>, nat)>, bytesWritten: nat)
    requires |openFails| == |entries|
    ensures result.None? <==> true in openFails
    ensures result.Some? ==>
      && result.value.0 == Survivors(Regular(entries), Budget(compressedSize))
      && |result.value.0| + result.value.1 == |Regular(entries)|
      && bytesWritten <= Budget(compressedSize) + COPY_CHUNK_BYTES * result.value.1
  {
    hide Size, Regular, IsSkippable, Survivors, Survives, Tally;
    var extraction := new Extraction(compressedSize);
    NothingYet(extraction.budget);
    assert entries[..0] == [];
    var members: seq<Member> := [];
    var dropped := 0;
    var budget := extraction.budget;
    for index := 0 to |entries|
      invariant extraction.budget == budget == Budget(compressedSize)
      invariant fresh(extraction)
      invariant true !in openFails[..index]
      invariant members == Survivors(Regular(entries[..index]), budget)
      invariant |members| + dropped == |Regular(entries[..index])|
      invariant Tally(Regular(entries[..index]), extraction.runningTotal, budget)
      invariant extraction.runningTotal <= budget + COPY_CHUNK_BYTES * dropped
    {
      if openFails[index] {
        return None, extraction.runningTotal;
      }
      assert openFails[..index + 1] == openFails[..index] + [openFails[index]];
      RegularSnoc(entries, index);
      var e := entries[index];
      if !e.isDir && !IsSkippable(e.name) {
        ghost var regular := Regular(entries[..index]);
        ghost var before := extraction.runningTotal;
        var copied := extraction.CopyCapped(e);
        if e.chunks == [] { EmptyIsNothing(e); }
        SnocSurvives(regular, e, before, budget);
        SnocTallies(regular, e, before, extraction.runningTotal, budget);
        match copied {
          case Some(size) => members := members + [Member(e.name, size)];
          case None => dropped := dropped + 1;
        }
      }
    }
    assert openFails[..|entries|] == openFails && entries[..|entries|] == entries;
    return Some((members, dropped)), extraction.runningTotal;
  }

  lemma RegularSnoc(entries: seq<Entry>, i: nat)
    requires i < |entries|
    ensures Regular(entries[..i + 1])
         == if entries[i].isDir || IsSkippable(entries[i].name) then Regular(entries[..i])
            else Regular(entries[..i]) + [entries[i]]
  {
    assert Init(entries[..i + 1]) == entries[..i];
  }

  lemma NothingYet(budget: nat)
    ensures Regular([]) == [] && Survivors([], budget) == [] && Tally([], 0, budget)
  {
  }

  /** The counter is what the entries so far would produce, until that passes the budget. */
  ghost predicate Tally(regular: seq<Entry>, runningTotal: nat, budget: nat) {
    if Sum(regular, Size) <= budget then runningTotal == Sum(regular, Size) else runningTotal > budget
  }

  lemma SnocSurvives(regular: seq<Entry>, e: Entry, runningTotal: nat, budget: nat)
    requires Tally(regular, runningTotal, budget)
    ensures Survives(regular + [e], |regular|, budget)
       <==> (e.complete && (e.chunks == [] || runningTotal + Size(e) <= budget))
    ensures Survivors(regular + [e], budget)
         == if Survives(regular + [e], |regular|, budget) then Survivors(regular, budget) + [Member(e.name, Size(e))]
            else Survivors(regular, budget)
  {
    hide Size, Sum;
    var more := regular + [e];
    SumAppend(regular, e, Size);
    assert more[..|regular| + 1] == more && Init(more) == regular;
  }

  lemma SnocTallies(regular: seq<Entry>, e: Entry, before: nat, after: nat, budget: nat)
    requires Tally(regular, before, budget)
    requires before + Size(e) <= budget || e.chunks == [] ==> after == before + Size(e)
    requires before + Size(e) > budget && e.chunks != [] ==> after > budget
    ensures Tally(regular + [e], after, budget)
  {
    SumAppend(regular, e, Size);
    if e.chunks != [] {
      NonEmptyHasBytes(e.chunks);
    }
    hide Size;
  }

  /** Everything that survives fits the budget, whatever the archive claims. */
  lemma {:induction false} SurvivingBytesFit(regular: seq<Entry>, budget: nat)
    ensures Sum(Survivors(regular, budget), MemberSize) <= budget
    ensures Sum(Survivors(regular, budget), MemberSize) <= Sum(regular, Size)
  {
    if regular != [] {
      hide Size;
      SurvivingBytesFit(Init(regular), budget);
      var last := Last(regular);
      assert regular[..|regular|] == regular;
      if Survives(regular, |regular| - 1, budget) {
        SumAppend(Survivors(Init(regular), budget), Member(last.name, Size(last)), MemberSize);
        if last.chunks == [] { EmptyIsNothing(last); }
      } else {
        assert Survivors(Init(regular), budget) + [] == Survivors(Init(regular), budget);
      }
    }
  }

  lemma EmptyIsNothing(e: Entry)
    requires e.chunks == []
    ensures Size(e) == 0
  {
  }

  /** Only the bytes of an entry matter, not how its reads are cut up. */
  lemma {:induction false} ChunkingDoesNotMatter(a: seq<Entry>, b: seq<Entry>, budget: nat)
    requires |a| == |b|
    requires forall i | 0 <= i < |a| ::
               a[i].name == b[i].name && a[i].complete == b[i].complete && Size(a[i]) == Size(b[i])
    ensures Survivors(a, budget) == Survivors(b, budget) && Sum(a, Size) == Sum(b, Size)
  {
    if a != [] {
      assert forall i | 0 <= i < |a| - 1 :: Init(a)[i] == a[i] && Init(b)[i] == b[i];
      ChunkingDoesNotMatter(Init(a), Init(b), budget);
      assert a[..|a|] == a && b[..|b|] == b;
      EmptyIffNoBytes(Last(a));
      EmptyIffNoBytes(Last(b));
    }
  }

  lemma EmptyIffNoBytes(e: Entry)
    ensures e.chunks == [] <==> Size(e) == 0
  {
    if e.chunks != [] {
      NonEmptyHasBytes(e.chunks);
    }
  }
}
