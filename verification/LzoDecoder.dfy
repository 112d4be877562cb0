/**
 The decoder of `lzo1x.rs`: a cursor over the input and a growing output,
 advanced in place. Every method is proved against `LzoFormat`.
 */
module LzoDecoder {
  import opened Wrappers
  import opened LzoFormat
  import opened LzoFacts

  datatype Error =
    | EmptyInput
    | EndedMidInstruction
    | LengthOverflow
    | OutputTooLong
    | LiteralsPastEnd
    | BeforeOutputStart

  /** The bytes that remain to be produced, seen from the middle of a run. */
  function Rest(src: seq<Byte>, ip: nat, state: nat, out: seq<Byte>): (r: Option<seq<Byte>>)
    ensures r.Some? ==> out <= r.value
  {
    match ParseFrom(src, ip, state)
    case None => None
    case Some((body, _)) => Expand(body, out)
  }

  /** What remains once an instruction with operands up to `at` has run. */
  function RestAfter(src: seq<Byte>, op: Op, at: nat, out: seq<Byte>): Option<seq<Byte>>
    requires at <= |src| && !op.Stop?
  {
    var end := at + Trailing(op);
    if end > |src| then None
    else if op.Literals? then Rest(src, end, 4, out + src[at..end])
    else if 1 <= op.distance <= |out|
    then Rest(src, end, op.next, Overlap(out, op.distance, op.length) + src[at..end])
    else None
  }

  lemma RestStep(src: seq<Byte>, ip: nat, state: nat, out: seq<Byte>, op: Op, at: nat)
    requires ReadOp(src, ip, state) == Some((op, at)) && !op.Stop?
    ensures at <= |src| && Rest(src, ip, state, out) == RestAfter(src, op, at, out)
  {
    hide ReadOp, ParseFrom;
    var end := at + Trailing(op);
    if end <= |src| {
      ParseStep(src, ip, state, op, at);
      var token := TokenOf(op, src[at..end]);
      var rest := ParseFrom(src, end, StateAfter(token));
      if rest.Some? {
        assert ([token] + rest.value.0)[1..] == rest.value.0;
      }
    } else {
      ParseShort(src, ip, state, op, at);
    }
  }

  lemma ParseShort(src: seq<Byte>, ip: nat, state: nat, op: Op, at: nat)
    requires ReadOp(src, ip, state) == Some((op, at)) && !op.Stop? && at + Trailing(op) > |src|
    ensures ParseFrom(src, ip, state).None?
  {
    hide ReadOp;
  }

  lemma RestEnd(src: seq<Byte>, ip: nat, state: nat, out: seq<Byte>)
    ensures ReadOp(src, ip, state).None? ==> Rest(src, ip, state, out).None?
    ensures ReadOp(src, ip, state).Some? && ReadOp(src, ip, state).value.0.Stop? ==>
        Rest(src, ip, state, out) == Some(out)
  {
    hide ReadOp;
  }

  /** How the stream's first byte sets up the run. */
  lemma HeadRun(src: seq<Byte>)
    ensures src == [] ==> Decoded(src).None?
    ensures src != [] && src[0] <= 17 ==> Decoded(src) == Rest(src, 0, 0, [])
    ensures src != [] && src[0] > 17 ==>
              var n := src[0] as int - 17;
              Decoded(src) == if 1 + n > |src| then None
                              else Rest(src, 1 + n, StateAfterHead(n), [] + src[1..1 + n])
  {
    hide ParseFrom;
    if src != [] && src[0] > 17 {
      var n := src[0] as int - 17;
      assert 1 + n <= |src| ==> [] + src[1..1 + n] == src[1..n + 1];
    } else if src != [] {
      assert src[0..0] == [];
    }
  }

  class Decoder {
    const src: seq<Byte>
    const maxLen: nat
    var ip: nat
    var out: seq<Byte>

    ghost predicate Valid()
      reads this
    {
      ip <= |src| <= USIZE_MAX && |out| <= maxLen <= USIZE_MAX
    }

    constructor (src: seq<Byte>, maxLen: nat)
      requires |src| <= USIZE_MAX && maxLen <= USIZE_MAX
      ensures Valid() && this.src == src && this.maxLen == maxLen && ip == 0 && out == []
    {
      this.src, this.maxLen, ip, out := src, maxLen, 0, [];
    }

    method ReadByte() returns (r: Result<Byte, Error>)
      requires Valid()
      modifies this`ip
      ensures Valid()
      ensures if old(ip) < |src| then r == Ok(src[old(ip)]) && ip == old(ip) + 1
              else r == Err(EndedMidInstruction) && ip == old(ip)
    {
      if ip >= |src| { return Err(EndedMidInstruction); }
      r := Ok(src[ip]);
      ip := ip + 1;
    }

    method ReadLe16() returns (r: Result<nat, Error>)
      requires Valid()
      modifies this`ip
      ensures Valid()
      ensures match Le16(src, old(ip))
              case Some(v) => r == Ok(v) && ip == old(ip) + 2
              case None => r == Err(EndedMidInstruction)
    {
      var low :- ReadByte();
      var high :- ReadByte();
      r := Ok(low as int + 256 * high as int);
    }

    /** Fails on a run that never ends, or whose length does not fit a `usize`. */
    method ReadZeroRun(base: nat) returns (r: Result<nat, Error>)
      requires Valid()
      modifies this`ip
      ensures Valid()
      ensures match ZeroRun(src, old(ip), base)
              case Some((n, at)) => r == Ok(n) && ip == at
              case None => r.Err?
    {
      var zeros := 0;
      var value :- ReadByte();
      while value == 0
        invariant Valid() && 1 <= ip && value == src[ip - 1]
        invariant ZeroRun(src, old(ip), base) == ZeroRun(src, ip - 1, base + 255 * zeros)
        decreases |src| - ip
      {
        zeros := zeros + 1;
        value :- ReadByte();
      }
      var last: int := src[ip - 1];
      if zeros * 255 > USIZE_MAX || zeros * 255 + (base + last) > USIZE_MAX {
        return Err(LengthOverflow);
      }
      r := Ok(zeros * 255 + (base + last));
    }

    method Room(n: nat) returns (r: Result<(), Error>)
      requires Valid()
      ensures r == if |out| + n <= maxLen then Ok(()) else Err(OutputTooLong)
    {
      if |out| + n > maxLen { return Err(OutputTooLong); }
      r := Ok(());
    }

    method CopyLiterals(n: nat) returns (r: Result<(), Error>)
      requires Valid()
      modifies this
      ensures Valid()
      ensures if old(ip) + n > |src| then r.Err? && r.error in {LengthOverflow, LiteralsPastEnd}
              else if |old(out)| + n > maxLen then r == Err(OutputTooLong)
              else r == Ok(()) && ip == old(ip) + n && out == old(out) + src[old(ip)..old(ip) + n]
    {
      var end := ip + n;
      if end > USIZE_MAX { return Err(LengthOverflow); }
      if end > |src| { return Err(LiteralsPastEnd); }
      var _ :- Room(n);
      out := out + src[ip..end];
      ip := end;
      r := Ok(());
    }

    /** Byte by byte, so an overlapping match reads bytes it has just written. */
    method CopyBack(distance: nat, n: nat) returns (r: Result<(), Error>)
      requires Valid() && distance >= 1
      modifies this`out
      ensures Valid()
      ensures if distance > |old(out)| then r == Err(BeforeOutputStart)
              else if |old(out)| + n > maxLen then r == Err(OutputTooLong)
              else r == Ok(()) && out == Overlap(old(out), distance, n)
    {
      if distance > |out| { return Err(BeforeOutputStart); }
      var start := |out| - distance;
      var _ :- Room(n);
      for index := 0 to n
        invariant |out| == |old(out)| + index
        invariant Overlap(out, distance, n - index) == Overlap(old(out), distance, n)
      {
        var value := out[start + index];
        out := out + [value];
      }
      r := Ok(());
    }

    /** A length from an opcode's low bits, or from an extension when they are zero. */
    method ReadRunLength(low: nat, base: nat) returns (r: Result<nat, Error>)
      requires Valid()
      modifies this`ip
      ensures Valid()
      ensures match ReadLength(src, old(ip), low, base)
              case Some((n, at)) => r == Ok(n) && ip == at
              case None => r.Err?
    {
      if low == 0 {
        r := ReadZeroRun(base);
      } else {
        r := Ok(low);
      }
    }

    /** One instruction up to its literal bytes. */
    method ReadInstruction(state: nat) returns (r: Result<Op, Error>)
      requires Valid()
      modifies this`ip
      ensures Valid()
      ensures match ReadOp(src, old(ip), state)
              case Some((op, at)) => r == Ok(op) && ip == at
              case None => r.Err?
    {
      var first :- ReadByte();
      var t: int := first;
      if t < 16 && state == 0 {
        var run :- ReadRunLength(t, 15);
        return Ok(Literals(run + 3));
      } else if 16 <= t < 64 {
        var n :- ReadRunLength(if t >= 32 then t % 32 else t % 8, if t >= 32 then 31 else 7);
        var v :- ReadLe16();
        if t >= 32 { return Ok(Copy(Medium, 1 + v / 4, n + 2, v % 4)); }
        var far := 0x4000 * (t / 8 % 2) + v / 4;
        if far == 0 { return Ok(Stop); }
        return Ok(Copy(Far, far + 0x4000, n + 2, v % 4));
      }
      var second :- ReadByte();
      var h: int := second;
      if t >= 64 {
        r := Ok(Copy(Short, 1 + t / 4 % 8 + 8 * h, t / 32 + 1, t % 4));
      } else if state != 4 {
        r := Ok(Copy(Near, 1 + t / 4 + 4 * h, 2, t % 4));
      } else {
        r := Ok(Copy(AfterRun, 1 + M2_MAX_OFFSET + t / 4 + 4 * h, 3, t % 4));
      }
    }

    /** Runs an instruction whose operands have been read; returns the new state. */
    method Execute(op: Op) returns (r: Result<nat, Error>)
      requires Valid() && !op.Stop? && (op.Copy? ==> op.distance >= 1)
      modifies this
      ensures Valid()
      ensures r.Ok? ==> ip >= old(ip) && Rest(src, ip, r.value, out) == RestAfter(src, op, old(ip), old(out))
      ensures r.Err? ==> Refused(RestAfter(src, op, old(ip), old(out)), maxLen, r.error)
    {
      hide Rest, Overlap;
      if op.Literals? {
        var _ :- CopyLiterals(op.count);
        return Ok(4);
      }
      var _ :- CopyBack(op.distance, op.length);
      var _ :- CopyLiterals(op.next);
      r := Ok(op.next);
    }
  }

  /** An error is the right answer: there are no bytes to produce, or too many. */
  predicate Refused(bytes: Option<seq<Byte>>, maxLen: nat, error: Error) {
    bytes.None? || (|bytes.value| > maxLen && error == OutputTooLong)
  }

  /**
   Succeeds exactly when the stream decodes and its bytes fit `maxLen`; a stream
   that decodes to more is refused for its length and for no other reason.
   */
  method Decompress(src: seq<Byte>, maxLen: nat) returns (r: Result<seq<Byte>, Error>)
    requires |src| <= USIZE_MAX && maxLen <= USIZE_MAX
    ensures r.Ok? <==> Decoded(src).Some? && |Decoded(src).value| <= maxLen
    ensures r.Ok? ==> r.value == Decoded(src).value
    ensures r.Ok? ==> Parse(src).Some? && Renders(Parse(src).value.0.body, Parse(src).value.0.head, r.value)
    ensures r.Err? && Decoded(src).Some? ==> r.error == OutputTooLong
    ensures src == [] ==> r == Err(EmptyInput)
  {
    hide Rest, RestAfter, Decoded, ReadOp, Renders, Parse;
    HeadRun(src);
    var d := new Decoder(src, maxLen);
    if src == [] { return Err(EmptyInput); }
    var state: nat := 0;
    var first: int := src[0];
    if first > 17 {
      d.ip := 1;
      var run := first - 17;
      var _ :- d.CopyLiterals(run);
      state := if run < 4 then run else 4;
    }
    while true
      invariant d.Valid() && d.src == src && d.maxLen == maxLen
      invariant Rest(src, d.ip, state, d.out) == Decoded(src)
      decreases |src| - d.ip
    {
      RestEnd(src, d.ip, state, d.out);
      ghost var ip := d.ip;
      var op :- d.ReadInstruction(state);
      if op.Stop? {
        DecodedIffRendered(src, d.out);
        return Ok(d.out);
      }
      RestStep(src, ip, state, d.out, op, d.ip);
      state :- d.Execute(op);
    }
  }
}
