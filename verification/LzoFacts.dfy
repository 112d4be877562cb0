/**
 The LZO1X format seen from the bytes and from the output: which instruction
 the literals before it make of a byte below 16, what every output byte is, and
 the streams that `lzo1x.rs` documents.
 */
module LzoFacts {
  import opened Wrappers
  import opened LzoFormat

  // ----- the literals before an instruction decide how it reads -----

  /** A byte below 16 after an initial run of one to three literals is a two-byte
      match; after four or more, a three-byte match from beyond two kilobytes. */
  lemma FirstMatchAfterHead(src: seq<Byte>, n: nat)
    requires src != [] && src[0] as int == 17 + n && n >= 1 && n + 2 < |src| && src[n + 1] < 16
    requires Parse(src).Some?
    ensures var t, h: int := src[n + 1], src[n + 2];
            var body := Parse(src).value.0.body;
            && n + 3 + t % 4 <= |src| && body != []
            && body[0] == if n <= 3 then Match(Near, 1 + t / 4 + 4 * h, 2, src[n + 3..n + 3 + t % 4])
                          else Match(AfterRun, 2049 + t / 4 + 4 * h, 3, src[n + 3..n + 3 + t % 4])
  {
    var state := StateAfterHead(n);
    assert state != 0 && (state == 4 <==> n >= 4);
    PairParses(src, n + 1, state);
  }

  /** A byte below 16 when there were literals. */
  lemma PairParses(src: seq<Byte>, ip: nat, state: nat)
    requires ip + 1 < |src| && src[ip] < 16 && state != 0 && ParseFrom(src, ip, state).Some?
    ensures var t, h: int := src[ip], src[ip + 1];
            var body := ParseFrom(src, ip, state).value.0;
            && ip + 2 + t % 4 <= |src| && body != []
            && body[0] == if state != 4 then Match(Near, 1 + t / 4 + 4 * h, 2, src[ip + 2..ip + 2 + t % 4])
                          else Match(AfterRun, 2049 + t / 4 + 4 * h, 3, src[ip + 2..ip + 2 + t % 4])
  {
  }

  /** A stream that starts with a run of literals, followed by a byte below 16. */
  lemma FirstMatchAfterRun(src: seq<Byte>)
    requires src != [] && 1 <= src[0] < 16
    requires src[0] as int + 5 < |src| && src[src[0] as int + 4] < 16
    requires Parse(src).Some?
    ensures var at := src[0] as int + 4;
            var t, h: int := src[at], src[at + 1];
            var body := Parse(src).value.0.body;
            && at + 2 + t % 4 <= |src| && |body| >= 2
            && body[0] == Run(src[1..at])
            && body[1] == Match(AfterRun, 2049 + t / 4 + 4 * h, 3, src[at + 2..at + 2 + t % 4])
  {
    var at := src[0] as int + 4;
    assert ReadOp(src, 0, 0) == Some((Literals(at - 1), 1));
    RunParses(src, 0, at - 1, 1);
    PairParses(src, at, 4);
  }

  lemma RunParses(src: seq<Byte>, ip: nat, count: nat, at: nat)
    requires ReadOp(src, ip, 0) == Some((Literals(count), at)) && ParseFrom(src, ip, 0).Some?
    ensures at + count <= |src| && ParseFrom(src, at + count, 4).Some?
    ensures ParseFrom(src, ip, 0).value.0
         == [Run(src[at..at + count])] + ParseFrom(src, at + count, 4).value.0
  {
    hide ReadOp;
  }

  function LiteralsOf(token: Token): nat {
    match token
    case Run(data) => |data|
    case Match(_, _, _, tail) => |tail|
  }

  lemma {:induction false} LegalAt(body: seq<Token>, state: nat, k: nat)
    requires LegalFrom(body, state) && k < |body|
    ensures Legal(body[k], if k == 0 then state else StateAfter(body[k - 1]))
  {
    if k > 0 {
      LegalAt(body[1..], StateAfter(body[0]), k - 1);
    }
  }

  /** In everything that parses, only the number of literals copied last decides
      between the families of a byte below 16: none, one to three, or more. */
  lemma LiteralsDecide(src: seq<Byte>, k: nat)
    requires Parse(src).Some? && k < |Parse(src).value.0.body|
    ensures var s := Parse(src).value.0;
            var literals := if k == 0 then |s.head| else LiteralsOf(s.body[k - 1]);
            && (s.body[k].Run? ==> literals == 0)
            && (s.body[k].Match? && s.body[k].family.Near? ==> 1 <= literals <= 3)
            && (s.body[k].Match? && s.body[k].family.AfterRun? ==> literals >= 4)
  {
    var s := Parse(src).value.0;
    ParsedBodyIsLegal(src, if src[0] > 17 then src[0] - 16 else 0, StateAfterHead(|s.head|));
    LegalAt(s.body, StateAfterHead(|s.head|), k);
    if k > 0 {
      LegalAt(s.body, StateAfterHead(|s.head|), k - 1);
    }
  }

  // ----- what the output is -----

  function TokenSize(token: Token): nat {
    match token
    case Run(data) => |data|
    case Match(_, _, length, tail) => length + |tail|
  }

  /** The bytes that these tokens put out. */
  function SizeOf(body: seq<Token>): nat {
    if body == [] then 0 else TokenSize(body[0]) + SizeOf(body[1..])
  }

  lemma SizeOfPrefix(body: seq<Token>, k: nat)
    requires 0 < k <= |body|
    ensures SizeOf(body[..k]) == TokenSize(body[0]) + SizeOf(body[1..][..k - 1])
  {
    assert body[..k][1..] == body[1..][..k - 1];
  }

  /** `r` has what token `token` puts out at `at`: its literals, and for a match
      each byte the one `distance` before it. */
  ghost predicate Shows(r: seq<Byte>, at: nat, token: Token) {
    at + TokenSize(token) <= |r| &&
    match token
    case Run(data) => r[at..at + |data|] == data
    case Match(_, distance, length, tail) =>
      && 1 <= distance <= at
      && (forall i | at <= i < at + length :: r[i] == r[i - distance])
      && r[at + length..at + length + |tail|] == tail
  }

  /** The output after a first token that works. */
  function AfterToken(token: Token, out: seq<Byte>): seq<Byte>
    requires token.Match? ==> 1 <= token.distance <= |out|
  {
    match token
    case Run(data) => out + data
    case Match(_, distance, length, tail) => Overlap(out, distance, length) + tail
  }

  lemma TokenShows(token: Token, out: seq<Byte>)
    requires token.Match? ==> 1 <= token.distance <= |out|
    ensures var after := AfterToken(token, out);
            |after| == |out| + TokenSize(token) && out <= after && Shows(after, |out|, token)
  {
    if token.Match? {
      var copied := Overlap(out, token.distance, token.length);
      assert forall i | 0 <= i < |copied| :: (copied + token.tail)[i] == copied[i];
    }
  }

  lemma ShowsStays(r: seq<Byte>, more: seq<Byte>, at: nat, token: Token)
    requires Shows(r, at, token) && r <= more
    ensures Shows(more, at, token)
  {
    assert forall i | 0 <= i < |r| :: more[i] == r[i];
    match token
    case Run(data) => assert more[at..at + |data|] == r[at..at + |data|];
    case Match(_, _, length, tail) =>
      assert more[at + length..at + length + |tail|] == r[at + length..at + length + |tail|];
  }

  lemma ExpandUnfolds(body: seq<Token>, out: seq<Byte>)
    requires body != [] && Expand(body, out).Some?
    ensures body[0].Match? ==> 1 <= body[0].distance <= |out|
    ensures Expand(body, out) == Expand(body[1..], AfterToken(body[0], out))
  {
  }

  lemma {:induction false} ExpandSize(body: seq<Token>, out: seq<Byte>)
    requires Expand(body, out).Some?
    ensures |Expand(body, out).value| == |out| + SizeOf(body)
    decreases |body|
  {
    hide AfterToken, Shows;
    if body != [] {
      ExpandUnfolds(body, out);
      TokenShows(body[0], out);
      ExpandSize(body[1..], AfterToken(body[0], out));
    }
  }

  lemma FirstShows(body: seq<Token>, out: seq<Byte>)
    requires body != [] && Expand(body, out).Some?
    ensures Shows(Expand(body, out).value, |out|, body[0])
  {
    hide Shows, AfterToken, Expand;
    ExpandUnfolds(body, out);
    var after := AfterToken(body[0], out);
    TokenShows(body[0], out);
    ShowsStays(after, Expand(body[1..], after).value, |out|, body[0]);
  }

  /** The output is as long as its tokens say, and every byte of it is a literal
      of the stream or a copy of an earlier byte. */
  lemma {:induction false} ExpandShows(body: seq<Token>, out: seq<Byte>, k: nat)
    requires Expand(body, out).Some? && k < |body|
    ensures Shows(Expand(body, out).value, |out| + SizeOf(body[..k]), body[k])
    decreases k
  {
    hide Expand, Shows, AfterToken, TokenSize;
    if k == 0 {
      FirstShows(body, out);
      assert body[..0] == [];
    } else {
      ExpandUnfolds(body, out);
      TokenShows(body[0], out);
      ExpandShows(body[1..], AfterToken(body[0], out), k - 1);
      SizeOfPrefix(body, k);
    }
  }

  /** `r` is what `body` puts out after the bytes `out`. */
  ghost predicate Renders(body: seq<Token>, out: seq<Byte>, r: seq<Byte>) {
    && out <= r && |r| == |out| + SizeOf(body)
    && forall k | 0 <= k < |body| :: Shows(r, |out| + SizeOf(body[..k]), body[k])
  }

  lemma FirstIsForced(token: Token, out: seq<Byte>, r: seq<Byte>)
    requires out <= r && Shows(r, |out|, token)
    ensures token.Match? ==> 1 <= token.distance <= |out|
    ensures AfterToken(token, out) <= r
  {
    match token
    case Run(data) =>
      assert r[..|out| + |data|] == out + data;
    case Match(_, distance, length, tail) =>
      var copied := Overlap(out, distance, length);
      var seen := r[..|out| + length];
      OverlapIsUnique(copied, seen, |out|, distance);
      assert r[..|seen| + |tail|] == seen + tail;
  }

  lemma {:induction false} RenderedExpands(body: seq<Token>, out: seq<Byte>, r: seq<Byte>)
    requires Renders(body, out, r)
    ensures Expand(body, out) == Some(r)
    decreases |body|
  {
    hide Shows, AfterToken, TokenSize;
    if body == [] {
      assert out == r;
    } else {
      assert body[..0] == [];
      FirstIsForced(body[0], out, r);
      TokenShows(body[0], out);
      var after := AfterToken(body[0], out);
      assert |after| == |out| + TokenSize(body[0]);
      forall k | 0 <= k < |body[1..]|
        ensures Shows(r, |after| + SizeOf(body[1..][..k]), body[1..][k])
      {
        SizeOfPrefix(body, k + 1);
        assert Shows(r, |out| + SizeOf(body[..k + 1]), body[k + 1]);
      }
      RenderedExpands(body[1..], after, r);
      ExpandIsRest(body, out);
    }
  }

  lemma ExpandIsRest(body: seq<Token>, out: seq<Byte>)
    requires body != []
    requires body[0].Match? ==> 1 <= body[0].distance <= |out|
    ensures Expand(body, out) == Expand(body[1..], AfterToken(body[0], out))
  {
  }

  /** A stream means the one byte string that renders it: as long as its tokens
      say, the initial literals first, then for each token its literals or, for
      a match, bytes that each equal the one `distance` before. */
  lemma DecodedIffRendered(src: seq<Byte>, r: seq<Byte>)
    ensures Decoded(src) == Some(r)
       <==> Parse(src).Some? && Renders(Parse(src).value.0.body, Parse(src).value.0.head, r)
  {
    hide Parse, Expand, Shows;
    if Parse(src).Some? {
      var s := Parse(src).value.0;
      if Decoded(src) == Some(r) {
        ExpandSize(s.body, s.head);
        forall k | 0 <= k < |s.body| ensures Shows(r, |s.head| + SizeOf(s.body[..k]), s.body[k]) {
          ExpandShows(s.body, s.head, k);
        }
      }
      if Renders(s.body, s.head, r) {
        RenderedExpands(s.body, s.head, r);
      }
    }
  }

  /** A stream has no meaning exactly when a match reaches back before the output. */
  lemma {:induction false} ExpandFailsIff(body: seq<Token>, out: seq<Byte>)
    ensures Expand(body, out).None? <==>
              exists k :: 0 <= k < |body| && ReachesTooFar(body, k, |out|)
    decreases |body|
  {
    if body != [] {
      assert body[..0] == [];
      if body[0].Match? && !(1 <= body[0].distance <= |out|) {
        assert ReachesTooFar(body, 0, |out|);
      } else {
        var out' := AfterToken(body[0], out);
        TokenShows(body[0], out);
        ExpandFailsIff(body[1..], out');
        forall k | 0 < k < |body|
          ensures ReachesTooFar(body, k, |out|) <==> ReachesTooFar(body[1..], k - 1, |out'|)
        {
          SizeOfPrefix(body, k);
        }
        if k :| 0 <= k < |body| && ReachesTooFar(body, k, |out|) {
          assert k > 0;
          assert ReachesTooFar(body[1..], k - 1, |out'|);
        }
        if k :| 0 <= k < |body| - 1 && ReachesTooFar(body[1..], k, |out'|) {
          var j := k + 1;
          assert ReachesTooFar(body[1..], j - 1, |out'|);
          assert ReachesTooFar(body, j, |out|);
        }
      }
    }
  }

  ghost predicate ReachesTooFar(body: seq<Token>, k: nat, written: nat)
    requires k < |body|
  {
    body[k].Match? && !(1 <= body[k].distance <= written + SizeOf(body[..k]))
  }

  // ----- documented streams -----

  const EOF: seq<Byte> := [0x11, 0x00, 0x00]

  lemma EndParses(src: seq<Byte>, ip: nat, state: nat)
    requires At(src, ip, EOF) && |src| == ip + 3
    ensures ParseFrom(src, ip, state) == Some(([], ip + 3))
  {
    AtIndex(src, ip, EOF, 0);
    AtIndex(src, ip, EOF, 1);
    AtIndex(src, ip, EOF, 2);
  }

  /** A stream that starts with a run of literals means what they and the
      instructions after them mean. */
  lemma HeadDecodes(src: seq<Byte>, n: nat, body: seq<Token>, end: nat)
    requires src != [] && src[0] as int == 17 + n && 1 <= n && n + 1 <= |src|
    requires ParseFrom(src, n + 1, if n < 4 then n else 4) == Some((body, end))
    ensures Decoded(src) == Expand(body, src[1..n + 1])
  {
    hide ParseFrom, Expand;
    assert Parse(src) == Some((Stream(src[1..n + 1], body), end));
  }

  /** A run of literals, one match without literals of its own, and the end. */
  lemma MatchDecodes(src: seq<Byte>, n: nat, family: Family, distance: nat, length: nat, at: nat, r: seq<Byte>)
    requires |src| == at + 3 && At(src, at, EOF)
    requires src[0] as int == 17 + n && 1 <= n && n + 1 < at
    requires ReadOp(src, n + 1, if n < 4 then n else 4) == Some((Copy(family, distance, length, 0), at))
    requires 1 <= distance <= n && |r| == n + length && src[1..n + 1] <= r
    requires forall i | n <= i < |r| :: r[i] == r[i - distance]
    ensures Decoded(src) == Some(r)
  {
    hide ReadOp, ParseFrom, Expand;
    var state := if n < 4 then n else 4;
    EndParses(src, at, 0);
    ParseStep(src, n + 1, state, Copy(family, distance, length, 0), at);
    assert src[at..at] == [];
    var token := Match(family, distance, length, []);
    assert [token] + [] == [token];
    HeadDecodes(src, n, [token], at + 3);
    MatchMeans(src[1..n + 1], token, r);
  }

  /** A lone match after an initial run. */
  lemma MatchMeans(head: seq<Byte>, token: Token, r: seq<Byte>)
    requires token.Match? && token.tail == []
    requires 1 <= token.distance <= |head| && |r| == |head| + token.length && head <= r
    requires forall i | |head| <= i < |r| :: r[i] == r[i - token.distance]
    ensures Expand([token], head) == Some(r)
  {
    var copied := Overlap(head, token.distance, token.length);
    OverlapIsUnique(copied, r, |head|, token.distance);
    assert [token][1..] == [];
    assert copied + [] == copied;
  }

  lemma {:induction false} OverlapIsUnique(a: seq<Byte>, b: seq<Byte>, at: nat, distance: nat)
    requires |a| == |b| && at <= |a| && a[..at] == b[..at] && 1 <= distance <= at
    requires forall i | at <= i < |a| :: a[i] == a[i - distance] && b[i] == b[i - distance]
    ensures a == b
    decreases |a| - at
  {
    if at < |a| {
      assert a[at - distance] == a[..at][at - distance] && b[at - distance] == b[..at][at - distance];
      assert a[..at + 1] == a[..at] + [a[at]] && b[..at + 1] == b[..at] + [b[at]];
      OverlapIsUnique(a, b, at + 1, distance);
    } else {
      assert a == a[..at] && b == b[..at];
    }
  }

  /** Five literals and the end. */
  lemma InitialRunDecodes(a: Byte, b: Byte, c: Byte, d: Byte, e: Byte)
    ensures Decoded([22, a, b, c, d, e] + EOF) == Some([a, b, c, d, e])
  {
    var src := [22, a, b, c, d, e] + EOF;
    assert src[6..9] == EOF && src[1..6] == [a, b, c, d, e];
    EndParses(src, 6, 4);
    HeadDecodes(src, 5, [], 9);
  }

  /** Two literals, then a two-byte match that repeats the last one. */
  lemma NearMatchDecodes(a: Byte, b: Byte)
    ensures Decoded([19, a, b, 0, 0] + EOF) == Some([a, b, b, b])
  {
    var src := [19, a, b, 0, 0] + EOF;
    assert src[5..8] == EOF && src[1..3] == [a, b];
    MatchDecodes(src, 2, Near, 1, 2, 5, [a, b, b, b]);
  }

  /** Four literals, then a match of length eight at distance four. */
  lemma OverlappingMatchDecodes(a: Byte, b: Byte, c: Byte, d: Byte)
    ensures Decoded([21, a, b, c, d, 0xEC, 0] + EOF) == Some([a, b, c, d, a, b, c, d, a, b, c, d])
  {
    var src := [21, a, b, c, d, 0xEC, 0] + EOF;
    assert src[7..10] == EOF && src[1..5] == [a, b, c, d];
    MatchDecodes(src, 4, Short, 4, 8, 7, [a, b, c, d, a, b, c, d, a, b, c, d]);
  }

  /** One zero, then a match at distance one whose length needs the extension. */
  lemma LongZeroRunDecodes()
    ensures Decoded([18, 0, 0x20, 0, 10, 0, 0] + EOF) == Some(seq(299, _ => 0))
  {
    var src := [18, 0, 0x20, 0, 10, 0, 0] + EOF;
    LongOperands(src);
    assert src[7..10] == EOF && src[1..2] == [0];
    var r: seq<Byte> := seq(299, _ => 0);
    hide ReadOp, Parse;
    MatchDecodes(src, 1, Medium, 1, 298, 7, r);
  }

  lemma LongOperands(src: seq<Byte>)
    requires |src| >= 7 && src[2..7] == [0x20, 0, 10, 0, 0]
    ensures ReadOp(src, 2, 1) == Some((Copy(Medium, 1, 298, 0), 7))
  {
    assert src[2] == 0x20 && src[2..7][1] == 0 && src[2..7][2] == 10 && src[2..7][3] == 0 && src[2..7][4] == 0;
    assert ZeroRun(src, 4, 31 + 255) == Some((296, 5));
    assert ZeroRun(src, 3, 31) == Some((296, 5));
  }
}
