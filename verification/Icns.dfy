/** Picking the largest image of an `.icns` container (`transform/icns.rs`). */
module Icns {
  import opened Wrappers
  import LzoFormat

  type Byte = LzoFormat.Byte
  type Bytes = seq<Byte>

  const PNG_MAGIC: Bytes := [0x89, 0x50, 0x4e, 0x47, 0x0d, 0x0a, 0x1a, 0x0a]
  const JP2_MAGIC: Bytes := [0, 0, 0, 0x0c, 0x6a, 0x50, 0x20, 0x20, 0x0d, 0x0a, 0x87, 0x0a]
  const J2K_CODESTREAM_MAGIC: Bytes := [0xff, 0x4f, 0xff, 0x51]
  const ICNS: Bytes := [0x69, 0x63, 0x6e, 0x73]

  datatype Encoding = Png | Jpeg2000

  datatype Entry = Entry(kind: Bytes, data: Bytes)

  datatype Image = Image(size: nat, encoding: Encoding, entry: Entry)

  datatype Error = NotAnIcns | Overrun(offset: nat) | NoImage

  /** The type codes `icp4`..`icp6` and `ic07`..`ic14`. */
  function NominalSize(kind: Bytes): Option<nat>
    requires |kind| == 4
  {
    if kind[0] != 0x69 || kind[1] != 0x63 then None
    else match (kind[2], kind[3])
      case (0x70, 0x34) => Some(16)
      case (0x70, 0x35) => Some(32)
      case (0x31, 0x31) => Some(32)
      case (0x70, 0x36) => Some(64)
      case (0x31, 0x32) => Some(64)
      case (0x30, 0x37) => Some(128)
      case (0x30, 0x38) => Some(256)
      case (0x31, 0x33) => Some(256)
      case (0x30, 0x39) => Some(512)
      case (0x31, 0x34) => Some(512)
      case (0x31, 0x30) => Some(1024)
      case _ => None
  }

  function EncodingOf(data: Bytes): Option<Encoding> {
    if PNG_MAGIC <= data then Some(Png)
    else if JP2_MAGIC <= data || J2K_CODESTREAM_MAGIC <= data then Some(Jpeg2000)
    else None
  }

  function BigEndian(b: Bytes): nat
    requires |b| == 4
  {
    (((b[0] as int) * 256 + b[1] as int) * 256 + b[2] as int) * 256 + b[3] as int
  }

  /** The entry at `offset`, and where the next one starts. */
  function EntryAt(bytes: Bytes, offset: nat): (r: Result<(Entry, nat), Error>)
    requires offset + 8 <= |bytes|
    ensures r.Ok? ==> offset + 8 <= r.value.1 <= |bytes| && |r.value.0.kind| == 4
  {
    var length := BigEndian(bytes[offset + 4..offset + 8]);
    if length < 8 || offset + length > |bytes| then Err(Overrun(offset))
    else Ok((Entry(bytes[offset..offset + 4], bytes[offset + 8..offset + length]), offset + length))
  }

  /** The entries from `offset` on. Fewer than eight bytes at the end are ignored. */
  function Entries(bytes: Bytes, offset: nat): Result<seq<Entry>, Error>
    requires offset <= |bytes|
    decreases |bytes| - offset
  {
    if offset + 8 > |bytes| then Ok([])
    else
      var (entry, next) :- EntryAt(bytes, offset);
      var rest :- Entries(bytes, next);
      Ok([entry] + rest)
  }

  /** An entry of a type that may hold a PNG or JPEG 2000, and does. */
  function ImageOf(e: Entry): Option<Image> {
    if |e.kind| != 4 || NominalSize(e.kind).None? || EncodingOf(e.data).None? then None
    else Some(Image(NominalSize(e.kind).value, EncodingOf(e.data).value, e))
  }

  /** Larger by pixels, then by payload. */
  predicate Better(a: Image, b: Image) {
    a.size > b.size || (a.size == b.size && |a.entry.data| > |b.entry.data|)
  }

  /** No more pixels than `b`, nor as many with a larger payload. */
  predicate AtMost(a: Image, b: Image) {
    a.size <= b.size && (a.size == b.size ==> |a.entry.data| <= |b.entry.data|)
  }

  /** `best` is the first of the best images among `entries`, or there is none. */
  ghost predicate IsFirstLargest(best: Option<Image>, entries: seq<Entry>) {
    match best
    case None => forall i | 0 <= i < |entries| :: ImageOf(entries[i]).None?
    case Some(image) =>
      exists k :: 0 <= k < |entries| && ImageOf(entries[k]) == best
        && (forall i | 0 <= i < |entries| && ImageOf(entries[i]).Some? :: AtMost(ImageOf(entries[i]).value, image))
        && (forall i | 0 <= i < k && ImageOf(entries[i]).Some? :: !AtMost(image, ImageOf(entries[i]).value))
  }

  lemma OneMore(best: Option<Image>, entries: seq<Entry>, e: Entry)
    requires IsFirstLargest(best, entries)
    ensures var image := ImageOf(e);
            IsFirstLargest(if image.Some? && (best.None? || Better(image.value, best.value)) then image else best,
                entries + [e])
  {
    hide ImageOf;
    var image, more := ImageOf(e), entries + [e];
    assert forall i | 0 <= i < |entries| :: more[i] == entries[i];
    assert more[|entries|] == e;
  }

  method LargestEntry(bytes: Bytes) returns (r: Result<Image, Error>)
    ensures r == Err(NotAnIcns) <==> |bytes| < 8 || !(ICNS <= bytes)
    ensures |bytes| >= 8 && ICNS <= bytes ==>
              var entries := Entries(bytes, 8);
              && (entries.Err? ==> r == Err(entries.error))
              && (entries.Ok? && r.Err? ==> r.error == NoImage && IsFirstLargest(None, entries.value))
              && (entries.Ok? && r.Ok? ==> IsFirstLargest(Some(r.value), entries.value))
  {
    hide ImageOf, IsFirstLargest;
    if |bytes| < 8 || bytes[..4] != ICNS {
      return Err(NotAnIcns);
    }
    var best: Option<Image> := None;
    var offset := 8;
    ghost var read: seq<Entry> := [];
    NothingRead(Entries(bytes, 8));
    while offset + 8 <= |bytes|
      invariant 8 <= offset <= |bytes|
      invariant Entries(bytes, 8) == Prepend(read, Entries(bytes, offset))
      invariant IsFirstLargest(best, read)
      decreases |bytes| - offset
    {
      var at := EntryAt(bytes, offset);
      if at.Err? {
        return Err(at.error);
      }
      var (entry, next) := at.value;
      var image := ImageOf(entry);
      OneMore(best, read, entry);
      if image.Some? && (best.None? || Better(image.value, best.value)) {
        best := image;
      }
      PrependSnoc(read, entry, Entries(bytes, next));
      read := read + [entry];
      offset := next;
    }
    assert read + [] == read;
    return if best.Some? then Ok(best.value) else Err(NoImage);
  }

  lemma NothingRead(rest: Result<seq<Entry>, Error>)
    ensures IsFirstLargest(None, []) && Prepend([], rest) == rest
  {
    if rest.Ok? {
      assert [] + rest.value == rest.value;
    }
  }

  function Prepend(read: seq<Entry>, rest: Result<seq<Entry>, Error>): Result<seq<Entry>, Error> {
    match rest
    case Ok(entries) => Ok(read + entries)
    case Err(error) => Err(error)
  }

  lemma PrependSnoc(read: seq<Entry>, e: Entry, rest: Result<seq<Entry>, Error>)
    ensures Prepend(read + [e], rest) == Prepend(read, Prepend([e], rest))
  {
    if rest.Ok? {
      assert read + [e] + rest.value == read + ([e] + rest.value);
    }
  }

  predicate Spells(kind: Bytes, s: string) {
    |kind| == |s| && forall i | 0 <= i < |s| :: kind[i] as int == s[i] as int
  }

  /** The image types, by their four characters. */
  lemma NominalSizesAre(kind: Bytes)
    requires |kind| == 4
    ensures NominalSize(kind) ==
            if Spells(kind, "icp4") then Some(16)
            else if Spells(kind, "icp5") || Spells(kind, "ic11") then Some(32)
            else if Spells(kind, "icp6") || Spells(kind, "ic12") then Some(64)
            else if Spells(kind, "ic07") then Some(128)
            else if Spells(kind, "ic08") || Spells(kind, "ic13") then Some(256)
            else if Spells(kind, "ic09") || Spells(kind, "ic14") then Some(512)
            else if Spells(kind, "ic10") then Some(1024)
            else None
  {
    SpellsFour(kind, "icp4");
    SpellsFour(kind, "icp5");
    SpellsFour(kind, "ic11");
    SpellsFour(kind, "icp6");
    SpellsFour(kind, "ic12");
    SpellsFour(kind, "ic07");
    SpellsFour(kind, "ic08");
    SpellsFour(kind, "ic13");
    SpellsFour(kind, "ic09");
    SpellsFour(kind, "ic14");
    SpellsFour(kind, "ic10");
    hide Spells;
  }

  lemma SpellsFour(kind: Bytes, s: string)
    requires |kind| == 4 && |s| == 4
    ensures Spells(kind, s)
       <==> && kind[0] as int == s[0] as int && kind[1] as int == s[1] as int
            && kind[2] as int == s[2] as int && kind[3] as int == s[3] as int
  {
  }

  /** A PNG or JPEG 2000 payload is told by its first bytes. */
  lemma EncodingsAre(data: Bytes)
    ensures EncodingOf(data) == Some(Png) <==>
              |data| >= 8 && data[0] == 0x89 && Spells(data[1..4], "PNG") && data[4..8] == [13, 10, 26, 10]
    ensures EncodingOf(data) == Some(Jpeg2000) <==>
              || (|data| >= 4 && data[..4] == [0xff, 0x4f, 0xff, 0x51])
              || (|data| >= 12 && data[..4] == [0, 0, 0, 12] && Spells(data[4..8], "jP  ")
                  && data[8..12] == [13, 10, 0x87, 10])
  {
    if |data| >= 4 {
      assert J2K_CODESTREAM_MAGIC <= data <==> data[..4] == J2K_CODESTREAM_MAGIC;
    }
    if |data| >= 8 {
      assert PNG_MAGIC <= data <==> data[..8] == PNG_MAGIC;
      assert data[..8] == [data[0]] + data[1..4] + data[4..8];
      assert Spells(data[1..4], "PNG") <==> data[1..4] == [0x50, 0x4e, 0x47];
    }
    if |data| >= 12 {
      assert JP2_MAGIC <= data <==> data[..12] == JP2_MAGIC;
      assert data[..12] == data[..4] + data[4..8] + data[8..12];
      assert Spells(data[4..8], "jP  ") <==> data[4..8] == [0x6a, 0x50, 0x20, 0x20];
    }
  }

  // ----- containers read back -----

  function FromBigEndian(n: nat): (b: Bytes)
    requires n < 0x1_0000_0000
    ensures |b| == 4 && BigEndian(b) == n
  {
    var (q1, q2, q3) := (n / 256, n / 256 / 256, n / 256 / 256 / 256);
    [q3, q2 % 256, q1 % 256, n % 256]
  }

  predicate Fits(e: Entry) {
    |e.kind| == 4 && |e.data| + 8 < 0x1_0000_0000
  }

  function Written(e: Entry): (b: Bytes)
    requires Fits(e)
    ensures |b| == |e.data| + 8
  {
    e.kind + FromBigEndian(|e.data| + 8) + e.data
  }

  function WrittenAll(entries: seq<Entry>): Bytes
    requires forall e <- entries :: Fits(e)
  {
    if entries == [] then [] else Written(entries[0]) + WrittenAll(entries[1..])
  }

  lemma WrittenEntryReads(before: Bytes, e: Entry, after: Bytes)
    requires Fits(e)
    ensures EntryAt(before + Written(e) + after, |before|) == Ok((e, |before| + |Written(e)|))
  {
    var bytes := before + Written(e) + after;
    var n := |before|;
    assert bytes[n + 4..n + 8] == FromBigEndian(|e.data| + 8);
    assert bytes[n..n + 4] == e.kind;
    assert bytes[n + 8..n + 8 + |e.data|] == e.data;
  }

  /** Every container reads back as the entries it was written from. */
  lemma {:induction false} WrittenReads(before: Bytes, entries: seq<Entry>)
    requires forall e <- entries :: Fits(e)
    ensures Entries(before + WrittenAll(entries), |before|) == Ok(entries)
    decreases |entries|
  {
    hide Written, EntryAt;
    if entries == [] {
      assert before + [] == before;
    } else {
      var e, rest := entries[0], entries[1..];
      var written := Written(e);
      WrittenEntryReads(before, e, WrittenAll(rest));
      WrittenReads(before + written, rest);
      assert before + WrittenAll(entries) == before + written + WrittenAll(rest);
      assert [e] + rest == entries;
    }
  }
}
