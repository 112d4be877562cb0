/** Strings as the source reads and writes them: separators, lines, decimal
    numbers and their order. */
module Text {
  import opened Wrappers

  // ----- separators -----

  function Last<T>(s: seq<T>): T
    requires s != []
  {
    s[|s| - 1]
  }

  function Init<T>(s: seq<T>): seq<T>
    requires s != []
  {
    s[..|s| - 1]
  }

  /** The pieces of `s` that a separator has ended. */
  function Done(s: string, sep: char): (r: seq<string>)
  {
    if s == "" then []
    else if Last(s) == sep then Done(Init(s), sep) + [Partial(Init(s), sep)]
    else Done(Init(s), sep)
  }

  /** What follows the last separator. */
  function Partial(s: string, sep: char): (r: string)
    ensures sep !in r
  {
    if s == "" || Last(s) == sep then "" else Partial(Init(s), sep) + [Last(s)]
  }

  /** `str::split`: the pieces between separators, always at least one. */
  function Split(s: string, sep: char): (r: seq<string>)
    ensures |r| >= 1
  {
    Done(s, sep) + [Partial(s, sep)]
  }

  lemma {:induction false} PlainIsPartial(s: string, sep: char)
    requires sep !in s
    ensures Done(s, sep) == [] && Partial(s, sep) == s
  {
    if s != "" {
      assert Last(s) in s;
      assert forall c <- Init(s) :: c in s;
      PlainIsPartial(Init(s), sep);
      assert Init(s) + [Last(s)] == s;
    }
  }

  /** Splitting resumes from the unfinished last piece. */
  lemma {:induction false} SplitResumes(a: string, b: string, sep: char)
    ensures Done(a + b, sep) == Done(a, sep) + Done(Partial(a, sep) + b, sep)
    ensures Partial(a + b, sep) == Partial(Partial(a, sep) + b, sep)
    decreases |b|
  {
    var rest := Partial(a, sep);
    if b == "" {
      assert a + b == a && rest + b == rest;
      PlainIsPartial(rest, sep);
    } else {
      SplitResumes(a, Init(b), sep);
      assert Init(a + b) == a + Init(b) && Init(rest + b) == rest + Init(b);
    }
  }

  /** A separator ends a piece. */
  lemma SplitAt(a: string, b: string, sep: char)
    ensures Done(a + [sep] + b, sep) == Done(a, sep) + [Partial(a, sep)] + Done(b, sep)
    ensures Partial(a + [sep] + b, sep) == Partial(b, sep)
  {
    assert Init(a + [sep]) == a;
    assert "" + b == b;
    SplitResumes(a + [sep], b, sep);
  }

  // ----- lines -----

  function StripCr(line: string): string {
    if line != "" && Last(line) == '\r' then Init(line) else line
  }

  function StripCrs(lines: seq<string>): (r: seq<string>)
    ensures |r| == |lines| && forall i | 0 <= i < |r| :: r[i] == StripCr(lines[i])
  {
    seq(|lines|, i requires 0 <= i < |lines| => StripCr(lines[i]))
  }

  /** `str::lines`: newline-terminated lines without their `\n` or `\r\n`, then
      an unterminated last line if there is one. */
  function Lines(s: string): seq<string> {
    var rest := Partial(s, '\n');
    StripCrs(Done(s, '\n')) + if rest == "" then [] else [rest]
  }

  /** Whether the text ends on a line boundary. */
  predicate Terminated(s: string) {
    s == "" || Last(s) == '\n'
  }

  /** Text that ends on a line boundary can be extended line by line. */
  lemma LinesConcat(a: string, b: string)
    requires Terminated(a)
    ensures Lines(a + b) == Lines(a) + Lines(b)
  {
    assert Partial(a, '\n') == "";
    hide Done, Partial;
    SplitResumes(a, b, '\n');
    assert "" + b == b;
    StripCrsConcat(Done(a, '\n'), Done(b, '\n'));
  }

  lemma StripCrsConcat(a: seq<string>, b: seq<string>)
    ensures StripCrs(a + b) == StripCrs(a) + StripCrs(b)
  {
  }

  /** A line written with its newline reads back, unless it holds a newline or
      ends in a carriage return. */
  lemma LineReadsBack(line: string)
    requires '\n' !in line
    ensures Lines(line + "\n") == [StripCr(line)]
    ensures Lines(line) == if line == "" then [] else [line]
  {
    PlainIsPartial(line, '\n');
    assert Init(line + "\n") == line;
  }

  /** One carriage return before the newline belongs to the line's ending, and no
      other character does. */
  lemma LineEndings(line: string)
    requires '\n' !in line
    ensures Lines(line + "\r\n") == [line]
    ensures (line == "" || Last(line) != '\r') ==> Lines(line + "\n") == [line]
  {
    hide Lines;
    assert line + "\r\n" == line + "\r" + "\n" && Init(line + "\r") == line;
    LineReadsBack(line + "\r");
    LineReadsBack(line);
  }

  lemma {:induction false} PiecesHaveNoSeparator(s: string, sep: char)
    ensures forall i | 0 <= i < |Done(s, sep)| :: sep !in Done(s, sep)[i]
    ensures sep !in Partial(s, sep)
  {
    if s != "" {
      PiecesHaveNoSeparator(Init(s), sep);
    }
  }

  /** Splitting brings in no new characters. */
  lemma {:induction false} PiecesAreOf(s: string, sep: char, c: char)
    requires c !in s
    ensures forall i | 0 <= i < |Done(s, sep)| :: c !in Done(s, sep)[i]
    ensures c !in Partial(s, sep)
  {
    if s != "" {
      assert Last(s) in s;
      assert forall d <- Init(s) :: d in s;
      PiecesAreOf(Init(s), sep, c);
    }
  }

  lemma {:induction false} FirstPieceIsPrefix(s: string, sep: char)
    ensures Split(s, sep)[0] <= s
    ensures Done(s, sep) == [] ==> Partial(s, sep) == s
  {
    if s != "" {
      FirstPieceIsPrefix(Init(s), sep);
      assert Init(s) + [Last(s)] == s;
    }
  }

  lemma LinesHaveNoNewline(text: string)
    ensures forall i | 0 <= i < |Lines(text)| :: '\n' !in Lines(text)[i]
  {
    PiecesHaveNoSeparator(text, '\n');
  }

  /** How appending a row to a file goes. A failed write may leave part of the row behind. */
  datatype Fate = Written | OpenFailed | WriteFailed(kept: nat)

  /** What one append leaves of a row. */
  function Piece(row: string, fate: Fate): (r: string)
    ensures r <= row
  {
    match fate
    case Written => row
    case OpenFailed => ""
    case WriteFailed(kept) => if kept <= |row| then row[..kept] else row
  }

  function Appended(text: string, row: string, fate: Fate): (r: string)
    ensures text <= r
    ensures Terminated(text) && !fate.WriteFailed? ==> Terminated(r)
  {
    if fate.Written? then text + (Piece(row, fate) + "\n") else text + Piece(row, fate)
  }

  /** A text's whole lines, and the unfinished line after them. */
  function Head(text: string): (r: string)
    ensures Terminated(r) && text == r + Tail(text)
  {
    BeforePartial(text, '\n');
    text[..|text| - |Tail(text)|]
  }

  function Tail(text: string): (r: string)
    ensures '\n' !in r
    ensures r == "" <==> Terminated(text)
  {
    Partial(text, '\n')
  }

  /** Appending goes on from the unfinished line. */
  lemma AppendedParts(text: string, row: string, fate: Fate)
    requires '\n' !in row
    ensures Appended(text, row, fate)
         == Head(text) + (if fate.Written? then Tail(text) + Piece(row, fate) + "\n" else Tail(text) + Piece(row, fate))
    ensures Head(Appended(text, row, fate)) == if fate.Written? then Appended(text, row, fate) else Head(text)
    ensures Tail(Appended(text, row, fate)) == if fate.Written? then "" else Tail(text) + Piece(row, fate)
  {
    var piece, after := Piece(row, fate), Appended(text, row, fate);
    assert '\n' !in Tail(text) + piece;
    PlainIsPartial(Tail(text) + piece, '\n');
    SplitResumes(text, piece, '\n');
    if fate.Written? {
      assert Last(after) == '\n';
      assert after == Head(text) + (Tail(text) + piece + "\n");
    } else {
      assert after == Head(text) + (Tail(text) + piece);
    }
  }

  lemma {:induction false} BeforePartial(s: string, sep: char)
    ensures |Partial(s, sep)| <= |s| && s[|s| - |Partial(s, sep)|..] == Partial(s, sep)
    ensures var head := s[..|s| - |Partial(s, sep)|]; head == "" || Last(head) == sep
  {
    if s != "" {
      BeforePartial(Init(s), sep);
      assert s == Init(s) + [Last(s)];
      if Last(s) != sep {
        assert s[..|s| - |Partial(s, sep)|] == Init(s)[..|Init(s)| - |Partial(Init(s), sep)|];
      }
    }
  }

  // ----- fields -----

  /** Fields joined by tabs, as `format!("{}\t{}...")` writes them. */
  function Tabbed(fields: seq<string>): (r: string)
    requires fields != []
  {
    if |fields| == 1 then fields[0] else fields[0] + "\t" + Tabbed(fields[1..])
  }

  lemma {:induction false} TabbedSplits(fields: seq<string>)
    requires fields != [] && forall i | 0 <= i < |fields| :: '\t' !in fields[i]
    ensures Split(Tabbed(fields), '\t') == fields
  {
    PlainIsPartial(fields[0], '\t');
    if |fields| > 1 {
      TabbedSplits(fields[1..]);
      SplitAt(fields[0], Tabbed(fields[1..]), '\t');
      assert fields == [fields[0]] + fields[1..];
    }
  }

  lemma {:induction false} TabbedSnoc(fields: seq<string>, field: string)
    requires fields != []
    ensures Tabbed(fields + [field]) == Tabbed(fields) + "\t" + field
  {
    var more := fields + [field];
    if |fields| == 1 {
      assert more[1..] == [field];
    } else {
      TabbedSnoc(fields[1..], field);
      assert more[1..] == fields[1..] + [field];
    }
  }

  /** Joining what was split gives the string back. */
  lemma {:induction false} SplitIsTabbed(s: string)
    ensures Tabbed(Split(s, '\t')) == s
  {
    if s != "" {
      var init := Init(s);
      SplitIsTabbed(init);
      assert s == init + [Last(s)];
      var done, rest := Done(init, '\t'), Partial(init, '\t');
      if Last(s) == '\t' {
        TabbedSnoc(done + [rest], "");
      } else if done == [] {
        assert [] + [rest] == [rest] && [] + [rest + [Last(s)]] == [rest + [Last(s)]];
      } else {
        TabbedSnoc(done, rest);
        TabbedSnoc(done, rest + [Last(s)]);
      }
    }
  }

  // ----- decimal numbers -----

  predicate IsDigit(c: char) {
    '0' <= c <= '9'
  }

  function Digit(d: nat): (c: char)
    requires d < 10
    ensures IsDigit(c) && (c as int) - ('0' as int) == d
  {
    ('0' as int + d) as char
  }

  function Decimal(n: nat): (s: string)
    ensures s != "" && forall c <- s :: IsDigit(c)
  {
    if n < 10 then [Digit(n)] else Decimal(n / 10) + [Digit(n % 10)]
  }

  /** The value of a digit string. */
  function Value(s: string): nat
    requires forall c <- s :: IsDigit(c)
  {
    if s == "" then 0
    else
      assert IsDigit(Last(s));
      10 * Value(Init(s)) + (Last(s) as int - '0' as int)
  }

  lemma {:induction false} ValueOfDecimal(n: nat)
    ensures Value(Decimal(n)) == n
  {
    if n < 10 {
      assert Init([Digit(n)]) == "";
    } else {
      ValueOfDecimal(n / 10);
      assert Init(Decimal(n)) == Decimal(n / 10);
    }
  }

  /** `u32::from_str`: an optional `+`, then digits whose value fits 32 bits. */
  function ParseU32(s: string): (r: Option<nat>)
    ensures r.Some? ==> r.value < 0x1_0000_0000
  {
    var digits := if s != "" && s[0] == '+' then s[1..] else s;
    if digits != "" && (forall c <- digits :: IsDigit(c)) && Value(digits) < 0x1_0000_0000
    then Some(Value(digits)) else None
  }

  lemma DecimalParses(n: nat)
    requires n < 0x1_0000_0000
    ensures ParseU32(Decimal(n)) == Some(n)
  {
    ValueOfDecimal(n);
    assert IsDigit(Decimal(n)[0]);
  }

  /** What else is a number: a leading `+` changes nothing, and nothing that is
      too large, signed otherwise, or not made of digits is one. */
  lemma SpellingsOfU32(n: nat, s: string, c: char)
    ensures ParseU32("+" + Decimal(n)) == ParseU32(Decimal(n))
    ensures n >= 0x1_0000_0000 ==> ParseU32(Decimal(n)).None?
    ensures ParseU32("").None? && ParseU32("+").None?
    ensures c in s && !IsDigit(c) && s[0] != '+' ==> ParseU32(s).None?
    ensures ParseU32("++" + s) == None
  {
    hide Decimal, Value;
    ValueOfDecimal(n);
    assert IsDigit(Decimal(n)[0]);
    assert ("+" + Decimal(n))[1..] == Decimal(n);
    var signs := "++" + s;
    assert signs[1..][0] == '+' && '+' in signs[1..];
    assert !IsDigit('+');
  }

  // ----- order -----

  /** The byte order of UTF-8 strings, which is the order of their characters. */
  predicate StrLe(a: string, b: string) {
    if a == "" then true
    else if b == "" then false
    else if a[0] == b[0] then StrLe(a[1..], b[1..])
    else a[0] < b[0]
  }

  /** The first characters in which two strings differ. */
  predicate DifferAt(a: string, b: string, k: nat) {
    k < |a| && k < |b| && a[..k] == b[..k] && a[k] != b[k]
  }

  lemma DifferLater(a: string, b: string, k: nat)
    requires a != "" && b != "" && a[0] == b[0] && k > 0
    ensures DifferAt(a, b, k) <==> DifferAt(a[1..], b[1..], k - 1)
  {
    if k < |a| && k < |b| {
      assert a[..k] == [a[0]] + a[1..][..k - 1] && b[..k] == [b[0]] + b[1..][..k - 1];
      assert a[1..][..k - 1] == a[..k][1..] && b[1..][..k - 1] == b[..k][1..];
    }
  }

  /** A prefix comes first; otherwise the first difference decides. */
  lemma {:induction false} StrLeIsLexicographic(a: string, b: string, k: nat)
    ensures a <= b ==> StrLe(a, b)
    ensures b <= a && a != b ==> !StrLe(a, b)
    ensures DifferAt(a, b, k) ==> (StrLe(a, b) <==> a[k] < b[k])
    decreases |a|
  {
    if a != "" && b != "" {
      if a[0] == b[0] {
        StrLeIsLexicographic(a[1..], b[1..], if k > 0 then k - 1 else 0);
        assert a == [a[0]] + a[1..] && b == [b[0]] + b[1..];
        if k > 0 {
          DifferLater(a, b, k);
        }
      } else if 0 < k && k < |a| && k < |b| {
        assert a[..k][0] == a[0] && b[..k][0] == b[0];
      }
    }
  }

  lemma {:induction false} StrLeTotal(a: string, b: string)
    ensures StrLe(a, b) || StrLe(b, a)
    ensures StrLe(a, b) && StrLe(b, a) <==> a == b
  {
    if a != "" && b != "" {
      StrLeTotal(a[1..], b[1..]);
      assert a == [a[0]] + a[1..] && b == [b[0]] + b[1..];
    }
  }

  lemma {:induction false} StrLeTransitive(a: string, b: string, c: string)
    requires StrLe(a, b) && StrLe(b, c)
    ensures StrLe(a, c)
  {
    if a != "" && b != "" && c != "" {
      if a[0] == b[0] == c[0] {
        StrLeTransitive(a[1..], b[1..], c[1..]);
      }
    }
  }
}
