/**
 The LZO1X byte format as `lzo1x.rs` reads it: a stream is an optional initial
 literal run, instructions, and an end marker. Parsing, execution and encoding
 are three separate functions; the lemmas relate them.
 Bit operations are written as arithmetic: `t & 3` is `t % 4`, `t >> 2` is
 `t / 4`, `(t & 8) << 11` is `0x4000 * (t / 8 % 2)`.
 */
module LzoFormat {
  import opened Wrappers

  type Byte = x: int | 0 <= x < 256

  const M2_MAX_OFFSET := 0x0800

  const USIZE_MAX := 0xFFFF_FFFF_FFFF_FFFF

  /** The opcode family a match is written in. */
  datatype Family =
    | Near      // byte < 16 after 1-3 literals: 2 bytes from within 1 kB
    | AfterRun  // byte < 16 after a long run: 3 bytes from 2-3 kB back
    | Short     // byte >= 64: 3-8 bytes from within 2 kB
    | Medium    // byte 32-63: any length >= 3 from within 16 kB
    | Far       // byte 16-31: any length >= 3 from 16-48 kB back

  datatype Token =
    | Run(data: seq<Byte>)
    | Match(family: Family, distance: nat, length: nat, tail: seq<Byte>)

  datatype Stream = Stream(head: seq<Byte>, body: seq<Token>)

  // ----- what a stream means -----

  /** `out` extended by `n` bytes, each repeating the byte `distance` back: the
      periodic extension, even when the match is longer than its distance. */
  function Overlap(out: seq<Byte>, distance: nat, n: nat): (r: seq<Byte>)
    requires 1 <= distance <= |out|
    ensures |r| == |out| + n && out <= r
    ensures forall i | |out| <= i < |r| :: r[i] == r[i - distance]
    decreases n
  {
    if n == 0 then out else Overlap(out + [out[|out| - distance]], distance, n - 1)
  }

  /** The output of `body` when `out` has already been written. */
  function Expand(body: seq<Token>, out: seq<Byte>): (r: Option<seq<Byte>>)
    ensures r.Some? ==> out <= r.value
    decreases |body|
  {
    if body == [] then Some(out)
    else match body[0]
      case Run(data) => Expand(body[1..], out + data)
      case Match(_, distance, length, tail) =>
        if 1 <= distance <= |out|
        then
          var copied := Overlap(out, distance, length);
          assert out <= copied + tail;
          Expand(body[1..], copied + tail)
        else None
  }

  function Meaning(s: Stream): Option<seq<Byte>> {
    Expand(s.body, s.head)
  }

  // ----- reading a stream -----

  datatype Op =
    | Literals(count: nat)
    | Copy(family: Family, distance: nat, length: nat, next: nat)
    | Stop

  /** A run-length extension: 255 per zero byte, ended by a non-zero byte. A
      total that does not fit a `usize` is no length at all. */
  function ZeroRun(src: seq<Byte>, ip: nat, base: nat): (r: Option<(nat, nat)>)
    ensures r.Some? ==> ip < r.value.1 <= |src| && base < r.value.0 <= USIZE_MAX
    decreases |src| - ip
  {
    if ip >= |src| then None
    else if src[ip] == 0 then ZeroRun(src, ip + 1, base + 255)
    else if base + src[ip] <= USIZE_MAX then Some((base + src[ip], ip + 1))
    else None
  }

  /** A length held in an opcode's low bits, or in an extension when they are zero. */
  function ReadLength(src: seq<Byte>, ip: nat, low: nat, base: nat): (r: Option<(nat, nat)>)
    ensures r.Some? ==> ip <= r.value.1 && r.value.0 >= 1 && (ip <= |src| ==> r.value.1 <= |src|)
    ensures r.Some? && low <= USIZE_MAX ==> r.value.0 <= USIZE_MAX
  {
    if low == 0 then ZeroRun(src, ip, base) else Some((low, ip))
  }

  function Le16(src: seq<Byte>, ip: nat): (r: Option<nat>)
    ensures r.Some? <==> ip + 2 <= |src|
  {
    if ip + 2 <= |src| then Some(src[ip] as int + 256 * src[ip + 1] as int) else None
  }

  /** The operands of the two families with a variable length: the length field,
      then a 16-bit word. */
  function ReadLong(src: seq<Byte>, ip: nat, low: nat, base: nat): (r: Option<(nat, nat, nat)>)
    ensures r.Some? ==> ip < r.value.2 <= |src| && r.value.0 >= 1
    ensures r.Some? && low <= USIZE_MAX ==> r.value.0 <= USIZE_MAX
  {
    match ReadLength(src, ip, low, base)
    case None => None
    case Some((n, at)) => if Le16(src, at).None? then None else Some((n, Le16(src, at).value, at + 2))
  }

  /** One instruction at `ip`, and where its operands end. */
  function ReadOp(src: seq<Byte>, ip: nat, state: nat): (r: Option<(Op, nat)>)
    ensures r.Some? ==> ip < r.value.1 <= |src|
    ensures r.Some? && r.value.0.Copy? ==> r.value.0.distance >= 1
  {
    if ip >= |src| then None else
    var t: int := src[ip];
    if t < 16 && state == 0 then
      match ReadLength(src, ip + 1, t, 15)
      case None => None
      case Some((n, at)) => Some((Literals(n + 3), at))
    else if 16 <= t < 32 then
      match ReadLong(src, ip + 1, t % 8, 7)
      case None => None
      case Some((n, v, at)) =>
        var far := 0x4000 * (t / 8 % 2) + v / 4;
        Some((if far == 0 then Stop else Copy(Far, far + 0x4000, n + 2, v % 4), at))
    else if 32 <= t < 64 then
      match ReadLong(src, ip + 1, t % 32, 31)
      case None => None
      case Some((n, v, at)) => Some((Copy(Medium, 1 + v / 4, n + 2, v % 4), at))
    else if ip + 1 >= |src| then None
    else
      var h: int := src[ip + 1];
      Some((if t >= 64 then Copy(Short, 1 + t / 4 % 8 + 8 * h, t / 32 + 1, t % 4)
            else if state != 4 then Copy(Near, 1 + t / 4 + 4 * h, 2, t % 4)
            else Copy(AfterRun, 1 + M2_MAX_OFFSET + t / 4 + 4 * h, 3, t % 4),
            ip + 2))
  }

  /** How many literal bytes follow an instruction's operands. */
  function Trailing(op: Op): nat {
    match op
    case Literals(count) => count
    case Copy(_, _, _, next) => next
    case Stop => 0
  }

  function TokenOf(op: Op, bytes: seq<Byte>): (token: Token)
    requires !op.Stop?
  {
    match op
    case Literals(_) => Run(bytes)
    case Copy(family, distance, length, _) => Match(family, distance, length, bytes)
  }

  function StateAfter(token: Token): nat {
    if token.Run? then 4 else |token.tail|
  }

  /** The instructions from `ip` up to the end marker, and where it ends. */
  function ParseFrom(src: seq<Byte>, ip: nat, state: nat): (r: Option<(seq<Token>, nat)>)
    ensures r.Some? ==> ip < r.value.1 <= |src|
    decreases |src| - ip
  {
    match ReadOp(src, ip, state)
    case None => None
    case Some((op, at)) =>
      if op.Stop? then Some(([], at))
      else if at + Trailing(op) > |src| then None
      else
        var token := TokenOf(op, src[at..at + Trailing(op)]);
        match ParseFrom(src, at + Trailing(op), StateAfter(token))
        case None => None
        case Some((rest, end)) => Some(([token] + rest, end))
  }

  /** How a stream's first byte is read: above 17 it is a literal run. */
  function Parse(src: seq<Byte>): (r: Option<(Stream, nat)>)
    ensures r.Some? ==> r.value.1 <= |src|
  {
    if src == [] then None
    else
      var n := if src[0] > 17 then src[0] - 17 else 0;
      var at := if src[0] > 17 then n + 1 else 0;
      if at > |src| then None
      else match ParseFrom(src, at, StateAfterHead(n))
        case None => None
        case Some((body, end)) => Some((Stream(src[at - n..at], body), end))
  }

  function StateAfterHead(n: nat): nat {
    if n < 4 then n else 4
  }

  /** The bytes `src` stands for, when it parses to the end marker and every
      back-reference is inside the output written before it. */
  function Decoded(src: seq<Byte>): Option<seq<Byte>> {
    match Parse(src)
    case None => None
    case Some((s, _)) => Meaning(s)
  }

  // ----- what lies after the end marker, and what lies before it -----

  lemma ReadLongAgrees(a: seq<Byte>, b: seq<Byte>, ip: nat, low: nat, base: nat)
    requires a <= b
    ensures ReadLength(a, ip, low, base).Some? ==> ReadLength(b, ip, low, base) == ReadLength(a, ip, low, base)
    ensures ReadLong(a, ip, low, base).Some? ==> ReadLong(b, ip, low, base) == ReadLong(a, ip, low, base)
  {
    ZeroRunAgrees(a, b, ip, base);
    if ReadLong(a, ip, low, base).Some? {
      var at := ReadLength(a, ip, low, base).value.1;
      assert b[at] == a[at] && b[at + 1] == a[at + 1];
    }
  }

  lemma ReadOpAgrees(a: seq<Byte>, b: seq<Byte>, ip: nat, state: nat)
    requires a <= b && ReadOp(a, ip, state).Some?
    ensures ReadOp(b, ip, state) == ReadOp(a, ip, state)
  {
    assert b[ip] == a[ip];
    assert ip + 1 < |a| ==> b[ip + 1] == a[ip + 1];
    ReadLongAgrees(a, b, ip + 1, a[ip], 15);
    ReadLongAgrees(a, b, ip + 1, a[ip] % 8, 7);
    ReadLongAgrees(a, b, ip + 1, a[ip] % 32, 31);
  }

  lemma {:induction false} ZeroRunAgrees(a: seq<Byte>, b: seq<Byte>, ip: nat, base: nat)
    requires a <= b
    ensures ZeroRun(a, ip, base).Some? ==> ZeroRun(b, ip, base) == ZeroRun(a, ip, base)
    decreases |a| - ip
  {
    if ip < |a| {
      assert b[ip] == a[ip];
      ZeroRunAgrees(a, b, ip + 1, base + 255);
    }
  }

  lemma ParseStep(src: seq<Byte>, ip: nat, state: nat, op: Op, at: nat)
    requires ReadOp(src, ip, state) == Some((op, at)) && !op.Stop? && at + Trailing(op) <= |src|
    ensures var token := TokenOf(op, src[at..at + Trailing(op)]);
            var rest := ParseFrom(src, at + Trailing(op), StateAfter(token));
            ParseFrom(src, ip, state)
              == if rest.None? then None else Some(([token] + rest.value.0, rest.value.1))
  {
  }

  lemma {:induction false} ParseFromAgrees(a: seq<Byte>, b: seq<Byte>, ip: nat, state: nat)
    requires a <= b && ParseFrom(a, ip, state).Some?
    ensures ParseFrom(b, ip, state) == ParseFrom(a, ip, state)
    decreases |a| - ip
  {
    hide ReadOp;
    ReadOpAgrees(a, b, ip, state);
    var (op, at) := ReadOp(a, ip, state).value;
    if !op.Stop? {
      var end := at + Trailing(op);
      ParseStep(a, ip, state, op, at);
      ParseStep(b, ip, state, op, at);
      assert b[at..end] == a[at..end];
      ParseFromAgrees(a, b, end, StateAfter(TokenOf(op, a[at..end])));
    }
  }

  /** Bytes after the end marker never matter. */
  lemma TrailingBytesIgnored(src: seq<Byte>, junk: seq<Byte>)
    requires Parse(src).Some?
    ensures Parse(src + junk) == Parse(src) && Decoded(src + junk) == Decoded(src)
  {
    var n := if src[0] > 17 then src[0] - 17 else 0;
    var at := if src[0] > 17 then n + 1 else 0;
    assert (src + junk)[at - n..at] == src[at - n..at];
    ParseFromAgrees(src, src + junk, at, StateAfterHead(n));
  }

  /** Every byte up to the end marker does: a stream cut anywhere before its
      end decodes to nothing. */
  lemma TruncationFails(src: seq<Byte>, cut: nat)
    requires Parse(src).Some? && cut < Parse(src).value.1
    ensures Parse(src[..cut]).None? && Decoded(src[..cut]).None?
  {
    assert src[..cut] + src[cut..] == src;
    if Parse(src[..cut]).Some? {
      TrailingBytesIgnored(src[..cut], src[cut..]);
    }
  }

  // ----- writing a stream -----

  const END_MARKER: seq<Byte> := [0x11, 0, 0]

  /** The extension bytes for `v`, which is what it adds to its base. */
  function EncodeExtension(v: nat): (r: seq<Byte>)
    requires v >= 1
  {
    if v <= 255 then [v] else [0] + EncodeExtension(v - 255)
  }

  predicate Legal(token: Token, state: nat) {
    match token
    case Run(data) => state == 0 && 4 <= |data| <= USIZE_MAX + 3
    case Match(family, distance, length, tail) =>
      && |tail| <= 3 && length <= USIZE_MAX + 2
      && match family
         case Near => 1 <= state <= 3 && length == 2 && 1 <= distance <= 0x400
         case AfterRun => state == 4 && length == 3 && 0x801 <= distance <= 0xC00
         case Short => 3 <= length <= 8 && 1 <= distance <= 0x800
         case Medium => 3 <= length && 1 <= distance <= 0x4000
         case Far => 3 <= length && 0x4001 <= distance <= 0xBFFF
  }

  predicate LegalFrom(body: seq<Token>, state: nat) {
    body == [] || (Legal(body[0], state) && LegalFrom(body[1..], StateAfter(body[0])))
  }

  predicate LegalStream(s: Stream) {
    && |s.head| <= 238
    && (s.head == [] && s.body != [] ==> s.body[0].Run?)
    && LegalFrom(s.body, StateAfterHead(|s.head|))
  }

  /** An opcode and its operands, without the literal bytes that follow. */
  function EncodeOp(token: Token, state: nat): (r: seq<Byte>)
    requires Legal(token, state)
    ensures |r| >= 1
  {
    match token
    case Run(data) =>
      if |data| <= 18 then [|data| - 3] else [0] + EncodeExtension(|data| - 18)
    case Match(family, distance, length, tail) =>
      match family
      case Near => EncodePair(0, distance - 1, 4, |tail|)
      case AfterRun => EncodePair(0, distance - 0x801, 4, |tail|)
      case Short => EncodePair(8 * (length - 1), distance - 1, 8, |tail|)
      case Medium => EncodeLong(32, length, 33, 4 * (distance - 1) + |tail|)
      case Far =>
        EncodeLong(16 + 8 * ((distance - 0x4000) / 0x4000), length, 9, 4 * (distance % 0x4000) + |tail|)
  }

  /** A two-byte opcode: the distance's low part and the trailing-literal count
      below `4 * high`, then the distance's high part. */
  function EncodePair(high: nat, offset: nat, radix: nat, next: nat): (r: seq<Byte>)
    requires next <= 3 && radix in {4, 8} && 4 * (high + radix) <= 256 && offset < 256 * radix
    ensures |r| == 2
  {
    if radix == 4 then [4 * (high + offset % 4) + next, offset / 4]
    else [4 * (high + offset % 8) + next, offset / 8]
  }

  function EncodeLong(high: Byte, length: nat, limit: nat, v: nat): (r: seq<Byte>)
    requires 3 <= length && 3 <= limit && high + limit - 2 < 256 && v < 0x1_0000
    ensures |r| >= 1
  {
    EncodeLength(high, length, limit) + EncodeLe16(v)
  }

  /** A length up to `limit` fits the opcode's low bits; a longer one needs an extension. */
  function EncodeLength(high: Byte, length: nat, limit: nat): (r: seq<Byte>)
    requires 3 <= length && 3 <= limit && high + limit - 2 < 256
    ensures |r| >= 1
  {
    if length <= limit then [high + length - 2] else [high] + EncodeExtension(length - limit)
  }

  function EncodeLe16(v: nat): seq<Byte>
    requires v < 0x1_0000
  {
    [v % 256, v / 256]
  }

  function Payload(token: Token): seq<Byte> {
    if token.Run? then token.data else token.tail
  }

  function EncodeBody(body: seq<Token>, state: nat): seq<Byte>
    requires LegalFrom(body, state)
  {
    if body == [] then END_MARKER
    else EncodeOp(body[0], state) + Payload(body[0]) + EncodeBody(body[1..], StateAfter(body[0]))
  }

  function Encode(s: Stream): seq<Byte>
    requires LegalStream(s)
  {
    (if s.head == [] then [] else [17 + |s.head|] + s.head)
    + EncodeBody(s.body, StateAfterHead(|s.head|))
  }

  // ----- reading back what was written -----

  /** `bytes` stand in `src` at `ip`. */
  predicate At(src: seq<Byte>, ip: nat, bytes: seq<Byte>) {
    ip + |bytes| <= |src| && src[ip..ip + |bytes|] == bytes
  }

  lemma AtConcat(src: seq<Byte>, ip: nat, a: seq<Byte>, b: seq<Byte>)
    requires At(src, ip, a + b)
    ensures At(src, ip, a) && At(src, ip + |a|, b)
  {
    assert src[ip..ip + |a + b|][..|a|] == a;
    assert src[ip..ip + |a + b|][|a|..] == b;
  }

  lemma AtIndex(src: seq<Byte>, ip: nat, bytes: seq<Byte>, k: nat)
    requires At(src, ip, bytes) && k < |bytes|
    ensures src[ip + k] == bytes[k]
  {
    assert src[ip..ip + |bytes|][k] == src[ip + k];
  }

  lemma {:induction false} ExtensionReadsBack(src: seq<Byte>, ip: nat, v: nat, base: nat)
    requires v >= 1 && base + v <= USIZE_MAX && At(src, ip, EncodeExtension(v))
    ensures ZeroRun(src, ip, base) == Some((base + v, ip + |EncodeExtension(v)|))
    decreases v
  {
    if v <= 255 {
      assert src[ip] == v;
    } else {
      AtConcat(src, ip, [0], EncodeExtension(v - 255));
      assert src[ip] == 0;
      ExtensionReadsBack(src, ip + 1, v - 255, base + 255);
    }
  }

  function OpOf(token: Token): Op {
    match token
    case Run(data) => Literals(|data|)
    case Match(family, distance, length, tail) => Copy(family, distance, length, |tail|)
  }

  lemma LengthReadsBack(src: seq<Byte>, ip: nat, high: Byte, length: nat, limit: nat)
    requires 3 <= length <= USIZE_MAX + 2 && 3 <= limit && high + limit - 2 < 256
    requires At(src, ip, EncodeLength(high, length, limit))
    ensures ip < |src| && src[ip] == if length <= limit then high + length - 2 else high
    ensures ReadLength(src, ip + 1, src[ip] - high, limit - 2)
         == Some((length - 2, ip + |EncodeLength(high, length, limit)|))
  {
    AtIndex(src, ip, EncodeLength(high, length, limit), 0);
    if length > limit {
      AtConcat(src, ip, [high], EncodeExtension(length - limit));
      ExtensionReadsBack(src, ip + 1, length - limit, limit - 2);
    }
  }

  lemma Le16ReadsBack(src: seq<Byte>, ip: nat, v: nat)
    requires v < 0x1_0000 && At(src, ip, EncodeLe16(v))
    ensures Le16(src, ip) == Some(v)
  {
    AtIndex(src, ip, EncodeLe16(v), 0);
    AtIndex(src, ip, EncodeLe16(v), 1);
  }

  lemma LongReadsBack(src: seq<Byte>, ip: nat, high: Byte, length: nat, limit: nat, v: nat)
    requires 3 <= length <= USIZE_MAX + 2 && 3 <= limit && high + limit - 2 < 256 && v < 0x1_0000
    requires At(src, ip, EncodeLong(high, length, limit, v))
    ensures ip < |src| && src[ip] == if length <= limit then high + length - 2 else high
    ensures ReadLong(src, ip + 1, src[ip] - high, limit - 2)
         == Some((length - 2, v, ip + |EncodeLong(high, length, limit, v)|))
  {
    AtConcat(src, ip, EncodeLength(high, length, limit), EncodeLe16(v));
    LengthReadsBack(src, ip, high, length, limit);
    Le16ReadsBack(src, ip + |EncodeLength(high, length, limit)|, v);
  }

  lemma RunReadsBack(src: seq<Byte>, ip: nat, data: seq<Byte>)
    requires Legal(Run(data), 0) && At(src, ip, EncodeOp(Run(data), 0))
    ensures ReadOp(src, ip, 0) == Some((Literals(|data|), ip + |EncodeOp(Run(data), 0)|))
  {
    AtIndex(src, ip, EncodeOp(Run(data), 0), 0);
    if |data| > 18 {
      AtConcat(src, ip, [0], EncodeExtension(|data| - 18));
      ExtensionReadsBack(src, ip + 1, |data| - 18, 15);
    }
  }

  lemma MediumReadsBack(src: seq<Byte>, ip: nat, token: Token, state: nat)
    requires token.Match? && token.family == Medium && Legal(token, state)
    requires At(src, ip, EncodeOp(token, state))
    ensures ReadOp(src, ip, state) == Some((OpOf(token), ip + |EncodeOp(token, state)|))
  {
    var v := 4 * (token.distance - 1) + |token.tail|;
    assert v / 4 == token.distance - 1 && v % 4 == |token.tail|;
    LongReadsBack(src, ip, 32, token.length, 33, v);
    assert 32 <= src[ip] < 64 && src[ip] as int % 32 == src[ip] as int - 32;
  }

  lemma FarReadsBack(src: seq<Byte>, ip: nat, token: Token, state: nat)
    requires token.Match? && token.family == Far && Legal(token, state)
    requires At(src, ip, EncodeOp(token, state))
    ensures ReadOp(src, ip, state) == Some((OpOf(token), ip + |EncodeOp(token, state)|))
  {
    var h, low := (token.distance - 0x4000) / 0x4000, token.distance % 0x4000;
    var v := 4 * low + |token.tail|;
    assert h <= 1 && token.distance == 0x4000 + 0x4000 * h + low;
    assert v / 4 == low && v % 4 == |token.tail|;
    LongReadsBack(src, ip, 16 + 8 * h, token.length, 9, v);
    var t: int := src[ip];
    assert 16 <= t < 32 && t % 8 == t - 16 - 8 * h && t / 8 % 2 == h;
  }

  lemma PairReadsBack(src: seq<Byte>, ip: nat, high: nat, offset: nat, radix: nat, next: nat)
    requires next <= 3 && radix in {4, 8} && 4 * (high + radix) <= 256 && offset < 256 * radix
    requires At(src, ip, EncodePair(high, offset, radix, next))
    ensures ip + 2 <= |src|
    ensures src[ip] as int % 4 == next && src[ip] as int / 4 == high + offset % radix
    ensures src[ip + 1] == offset / radix
  {
    AtIndex(src, ip, EncodePair(high, offset, radix, next), 0);
    AtIndex(src, ip, EncodePair(high, offset, radix, next), 1);
  }

  lemma NearReadsBack(src: seq<Byte>, ip: nat, token: Token, state: nat)
    requires token.Match? && token.family in {Near, AfterRun} && Legal(token, state)
    requires At(src, ip, EncodeOp(token, state))
    ensures ReadOp(src, ip, state) == Some((OpOf(token), ip + |EncodeOp(token, state)|))
  {
    var base := if token.family == Near then 1 else 0x801;
    PairReadsBack(src, ip, 0, token.distance - base, 4, |token.tail|);
    assert src[ip] < 16;
  }

  lemma ShortReadsBack(src: seq<Byte>, ip: nat, token: Token, state: nat)
    requires token.Match? && token.family == Short && Legal(token, state)
    requires At(src, ip, EncodeOp(token, state))
    ensures ReadOp(src, ip, state) == Some((OpOf(token), ip + |EncodeOp(token, state)|))
  {
    PairReadsBack(src, ip, 8 * (token.length - 1), token.distance - 1, 8, |token.tail|);
    var t: int := src[ip];
    assert t / 4 % 8 == (token.distance - 1) % 8 && t / 32 == token.length - 1 && t >= 64;
  }

  lemma OpReadsBack(src: seq<Byte>, ip: nat, token: Token, state: nat)
    requires Legal(token, state) && At(src, ip, EncodeOp(token, state))
    ensures ReadOp(src, ip, state) == Some((OpOf(token), ip + |EncodeOp(token, state)|))
  {
    match token
    case Run(data) => RunReadsBack(src, ip, data);
    case Match(Medium, _, _, _) => MediumReadsBack(src, ip, token, state);
    case Match(Far, _, _, _) => FarReadsBack(src, ip, token, state);
    case Match(Short, _, _, _) => ShortReadsBack(src, ip, token, state);
    case Match(_, _, _, _) => NearReadsBack(src, ip, token, state);
  }

  lemma EndReadsBack(src: seq<Byte>, ip: nat, state: nat)
    requires At(src, ip, END_MARKER)
    ensures ReadOp(src, ip, state) == Some((Stop, ip + 3))
    ensures ParseFrom(src, ip, state) == Some(([], ip + 3))
  {
    AtIndex(src, ip, END_MARKER, 0);
    AtIndex(src, ip, END_MARKER, 1);
    AtIndex(src, ip, END_MARKER, 2);
    assert ReadLong(src, ip + 1, 1, 7) == Some((1, 0, ip + 3));
  }

  lemma ConsReadsBack(src: seq<Byte>, ip: nat, state: nat, token: Token, at: nat, rest: seq<Token>, end: nat)
    requires ReadOp(src, ip, state) == Some((OpOf(token), at)) && At(src, at, Payload(token))
    requires ParseFrom(src, at + |Payload(token)|, StateAfter(token)) == Some((rest, end))
    ensures ParseFrom(src, ip, state) == Some(([token] + rest, end))
  {
    hide ReadOp, ParseFrom;
    ParseStep(src, ip, state, OpOf(token), at);
    assert src[at..at + |Payload(token)|] == Payload(token);
  }

  /** What follows a token in `EncodeBody`. */
  lemma BodyParts(src: seq<Byte>, ip: nat, body: seq<Token>, state: nat)
    requires body != [] && LegalFrom(body, state) && At(src, ip, EncodeBody(body, state))
    ensures var at := ip + |EncodeOp(body[0], state)|;
            var rest := EncodeBody(body[1..], StateAfter(body[0]));
            && At(src, ip, EncodeOp(body[0], state))
            && At(src, at, Payload(body[0]))
            && At(src, at + |Payload(body[0])|, rest)
            && ip + |EncodeBody(body, state)| == at + |Payload(body[0])| + |rest|
  {
    hide ReadOp, EncodeOp;
    var op, bytes := EncodeOp(body[0], state), Payload(body[0]);
    AtConcat(src, ip, op + bytes, EncodeBody(body[1..], StateAfter(body[0])));
    AtConcat(src, ip, op, bytes);
  }

  lemma {:induction false} BodyReadsBack(src: seq<Byte>, ip: nat, body: seq<Token>, state: nat)
    requires LegalFrom(body, state) && At(src, ip, EncodeBody(body, state))
    ensures ParseFrom(src, ip, state) == Some((body, ip + |EncodeBody(body, state)|))
    decreases |body|
  {
    hide ReadOp, EncodeOp, ParseFrom;
    if body == [] {
      EndReadsBack(src, ip, state);
    } else {
      BodyParts(src, ip, body, state);
      OpReadsBack(src, ip, body[0], state);
      var at := ip + |EncodeOp(body[0], state)|;
      BodyReadsBack(src, at + |Payload(body[0])|, body[1..], StateAfter(body[0]));
      ConsReadsBack(src, ip, state, body[0], at, body[1..], ip + |EncodeBody(body, state)|);
      assert body == [body[0]] + body[1..];
    }
  }

  /** Without an initial run, the first byte must not look like one. */
  lemma HeadlessStart(s: Stream)
    requires LegalStream(s) && s.head == []
    ensures |EncodeBody(s.body, 0)| > 0 && EncodeBody(s.body, 0)[0] <= 17
  {
  }

  /** Writing any legal stream and reading it back gives the stream. */
  lemma EncodeParses(s: Stream)
    requires LegalStream(s)
    ensures Parse(Encode(s)) == Some((s, |Encode(s)|))
    ensures Decoded(Encode(s)) == Meaning(s)
  {
    hide ReadOp, EncodeOp, LegalFrom, ParseFrom, EncodeBody;
    var src := Encode(s);
    var rest := EncodeBody(s.body, StateAfterHead(|s.head|));
    if s.head == [] {
      HeadlessStart(s);
      assert src == rest && src[0..] == src;
      BodyReadsBack(src, 0, s.body, 0);
      assert src[0..0] == s.head;
    } else {
      var at := 1 + |s.head|;
      assert src[at..] == rest && src[1..at] == s.head && src[0] == 17 + |s.head|;
      BodyReadsBack(src, at, s.body, StateAfterHead(|s.head|));
    }
  }

  /** An encoding of any byte string as literals alone. */
  function LiteralStream(data: seq<Byte>): (s: Stream)
    requires |data| <= USIZE_MAX
    ensures LegalStream(s)
  {
    if |data| <= 238 then Stream(data, []) else Stream([], [Run(data)])
  }

  lemma EveryStringHasALiteralEncoding(data: seq<Byte>)
    requires |data| <= USIZE_MAX
    ensures Decoded(Encode(LiteralStream(data))) == Some(data)
  {
    var s := LiteralStream(data);
    EncodeParses(s);
    if |data| > 238 {
      calc {
        Meaning(s);
        Expand([Run(data)], []);
        { assert [Run(data)][1..] == []; assert [] + data == data; }
        Expand([], data);
      }
    }
  }

  // ----- every accepted stream is one the encoder could have written -----

  lemma ReadOpIsLegal(src: seq<Byte>, ip: nat, state: nat, bytes: seq<Byte>)
    requires state <= 4 && ReadOp(src, ip, state).Some? && !ReadOp(src, ip, state).value.0.Stop?
    requires |bytes| == Trailing(ReadOp(src, ip, state).value.0)
    ensures Legal(TokenOf(ReadOp(src, ip, state).value.0, bytes), state)
  {
  }

  lemma {:induction false} ParsedBodyIsLegal(src: seq<Byte>, ip: nat, state: nat)
    requires state <= 4 && ParseFrom(src, ip, state).Some?
    ensures LegalFrom(ParseFrom(src, ip, state).value.0, state)
    decreases |src| - ip
  {
    var (op, at) := ReadOp(src, ip, state).value;
    if !op.Stop? {
      var end := at + Trailing(op);
      var token := TokenOf(op, src[at..end]);
      ReadOpIsLegal(src, ip, state, src[at..end]);
      ParsedBodyIsLegal(src, end, StateAfter(token));
    }
  }

  /** The decoder accepts nothing but encodings of legal streams: whatever it
      decodes, re-encoding what it parsed decodes to the same bytes. */
  lemma AcceptedHasCanonicalEncoding(src: seq<Byte>)
    requires Decoded(src).Some?
    ensures LegalStream(Parse(src).value.0)
    ensures Decoded(Encode(Parse(src).value.0)) == Decoded(src)
  {
    var s := Parse(src).value.0;
    ParsedBodyIsLegal(src, if src[0] > 17 then src[0] - 16 else 0, StateAfterHead(|s.head|));
    EncodeParses(s);
  }
}
