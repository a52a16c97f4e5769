/**
  Source positions: `Span` of naga/src/span.rs, which reports lines and columns in bytes, and
  `GPUCompilationMessage::new` of deno_webgpu/shader.rs, which reports them in UTF-16 code units.
*/
module Positions {
  import opened Integers
  import opened Utf8

  const LINE_FEED: Byte := 10

  // ----- Spans

  datatype Span = Span(start: nat, end: nat)
  {
    predicate IsDefined() {
      this != UNDEFINED
    }

    function Subsume(other: Span): Span {
      if !IsDefined() then other
      else if !other.IsDefined() then this
      else Span(if start <= other.start then start else other.start, if end >= other.end then end else other.end)
    }

    predicate Contains(other: Span) {
      start <= other.start && other.end <= end
    }
  }

  const UNDEFINED := Span(0, 0)

  /** What is defined, and what contains what, in numbers. */
  lemma SpansInNumbers(s: Span, t: Span)
    ensures s.IsDefined() <==> s.start != 0 || s.end != 0
    ensures s.Contains(t) <==> s.start <= t.start && t.end <= s.end
  {
  }

  /** A span is the total of some spans if it is the smallest that contains all the defined ones. */
  ghost predicate IsTotal(t: Span, spans: seq<Span>) {
    && (t.IsDefined() <==> exists s :: s in spans && s.IsDefined())
    && (forall s | s in spans && s.IsDefined() :: t.Contains(s))
    && (forall other: Span | t.IsDefined() && (forall s | s in spans && s.IsDefined() :: other.Contains(s)) ::
          other.Contains(t))
  }

  /** `total_span`. */
  method TotalSpan(spans: seq<Span>) returns (span: Span)
    ensures IsTotal(span, spans)
  {
    span := UNDEFINED;
    for i := 0 to |spans|
      invariant IsTotal(span, spans[..i])
    {
      SubsumeExtendsTotal(span, spans[..i], spans[i]);
      assert spans[..i + 1] == spans[..i] + [spans[i]];
      span := span.Subsume(spans[i]);
    }
    assert spans[..|spans|] == spans;
  }

  lemma SubsumeExtendsTotal(t: Span, spans: seq<Span>, s: Span)
    requires IsTotal(t, spans)
    ensures IsTotal(t.Subsume(s), spans + [s])
  {
    var t' := t.Subsume(s);
    assert s in spans + [s];
    forall other: Span | t'.IsDefined() && (forall x | x in spans + [s] && x.IsDefined() :: other.Contains(x))
      ensures other.Contains(t')
    {
      assert forall x | x in spans && x.IsDefined() :: x in spans + [s] && other.Contains(x);
      if t.IsDefined() {
        assert other.Contains(t);
      }
      if s.IsDefined() {
        assert other.Contains(s);
      }
    }
  }

  /** The total does not depend on the order or the repetition of the spans. */
  lemma TotalIsUnique(t1: Span, t2: Span, spans1: seq<Span>, spans2: seq<Span>)
    requires IsTotal(t1, spans1) && IsTotal(t2, spans2)
    requires forall s :: s in spans1 <==> s in spans2
    ensures t1 == t2
  {
    if t1.IsDefined() {
      assert t1.Contains(t2) && t2.Contains(t1);
    }
  }

  // ----- Lines and columns in bytes

  function CountLineFeeds(b: Bytes): (n: nat)
    ensures n <= |b|
  {
    if b == [] then 0 else CountLineFeeds(b[..|b| - 1]) + (if b[|b| - 1] == LINE_FEED then 1 else 0)
  }

  /** Where the last line of a prefix starts: behind its last line feed, or at zero if it has none. */
  function LineStart(prefix: Bytes): (n: nat)
    ensures n <= |prefix|
    ensures n > 0 ==> prefix[n - 1] == LINE_FEED
    ensures forall i | n <= i < |prefix| :: prefix[i] != LINE_FEED
  {
    if prefix == [] then 0
    else if prefix[|prefix| - 1] == LINE_FEED then |prefix|
    else LineStart(prefix[..|prefix| - 1])
  }

  datatype SourceLocation = SourceLocation(lineNumber: nat, linePosition: nat, offset: nat, length: nat)

  /** `Span::location`. */
  function Location(s: Span, source: Bytes): SourceLocation
    requires s.start <= s.end <= |source|
  {
    var prefix := source[..s.start];
    SourceLocation(CountLineFeeds(prefix) + 1, s.start - LineStart(prefix) + 1, s.start, s.end - s.start)
  }

  /** Where a line begins: after as many line feeds as there are lines before it. */
  function BeginOfLine(source: Bytes, line: nat): (n: nat)
    ensures n <= |source|
  {
    if line <= 1 || source == [] then 0
    else
      var before := CountLineFeeds(source[..|source| - 1]);
      if before + 1 == line - 1 && source[|source| - 1] == LINE_FEED then |source|
      else BeginOfLine(source[..|source| - 1], line)
  }

  lemma {:induction false} BeginOfLastLine(prefix: Bytes)
    ensures BeginOfLine(prefix, CountLineFeeds(prefix) + 1) == LineStart(prefix)
  {
    if prefix == [] {
    } else {
      BeginOfLastLine(prefix[..|prefix| - 1]);
      NoLineFeedNoStart(prefix);
    }
  }

  lemma {:induction false} NoLineFeedNoStart(prefix: Bytes)
    ensures CountLineFeeds(prefix) == 0 ==> LineStart(prefix) == 0
  {
    if prefix == [] {
    } else {
      NoLineFeedNoStart(prefix[..|prefix| - 1]);
    }
  }

  lemma {:induction false} CountGrows(b: Bytes, n: nat)
    requires n <= |b|
    ensures CountLineFeeds(b[..n]) <= CountLineFeeds(b)
  {
    if n < |b| {
      CountGrows(b[..|b| - 1], n);
      assert b[..|b| - 1][..n] == b[..n];
    } else {
      assert b[..n] == b;
    }
  }

  lemma {:induction false} BeginOfLineInPrefix(source: Bytes, n: nat)
    requires n <= |source|
    ensures BeginOfLine(source, CountLineFeeds(source[..n]) + 1) == LineStart(source[..n])
  {
    if n == |source| {
      assert source[..n] == source;
      BeginOfLastLine(source);
    } else {
      var init := source[..|source| - 1];
      assert init[..n] == source[..n];
      BeginOfLineInPrefix(init, n);
      CountGrows(init, n);
      NoLineFeedNoStart(source[..n]);
    }
  }

  /** The offset is recovered from the line and the column alone. */
  function Recover(source: Bytes, line: nat, column: nat): nat
    requires column >= 1
  {
    BeginOfLine(source, line) + column - 1
  }

  lemma LocationRecoversOffset(source: Bytes, s: Span)
    requires s.start <= s.end <= |source|
    ensures var l := Location(s, source);
            l.linePosition >= 1 && Recover(source, l.lineNumber, l.linePosition) == s.start == l.offset
  {
    BeginOfLineInPrefix(source, s.start);
  }

  /** No two offsets share a line and a column, and lines and columns order offsets as the text does. */
  lemma LocationsAreOrdered(source: Bytes, s: Span, t: Span)
    requires s.start <= s.end <= |source| && t.start <= t.end <= |source|
    ensures var (l, m) := (Location(s, source), Location(t, source));
            s.start < t.start <==>
              l.lineNumber < m.lineNumber || (l.lineNumber == m.lineNumber && l.linePosition < m.linePosition)
  {
    LocationRecoversOffset(source, s);
    LocationRecoversOffset(source, t);
    if s.start <= t.start {
      assert source[..t.start][..s.start] == source[..s.start];
      CountGrows(source[..t.start], s.start);
    } else {
      assert source[..s.start][..t.start] == source[..t.start];
      CountGrows(source[..s.start], t.start);
    }
  }

  // ----- Lines and columns in UTF-16 code units

  /** `char::len_utf16`. */
  function Units(c: Scalar): nat {
    if c < 0x1_0000 then 1 else 2
  }

  /** UTF-16, as defined by section 2.1 of RFC 2781. */
  function Utf16(c: Scalar): seq<nat> {
    if c < 0x1_0000 then [c] else [0xD800 + (c - 0x1_0000) / 0x400, 0xDC00 + (c - 0x1_0000) % 0x400]
  }

  /** `Units` is the length of that encoding, whose units are below 2^16 and spell the character: alone if it is no
      surrogate, and as a high and a low surrogate otherwise. */
  lemma UnitsAreOfUtf16(c: Scalar)
    ensures var u := Utf16(c);
            && |u| == Units(c)
            && (forall i | 0 <= i < |u| :: u[i] < 0x1_0000)
            && if u[0] < 0xD800 || u[0] >= 0xE000 then u == [c]
               else
                 && |u| == 2 && u[0] < 0xDC00 <= u[1] < 0xE000
                 && c == 0x1_0000 + (u[0] - 0xD800) * 0x400 + (u[1] - 0xDC00)
  {
  }

  function UnitsAll(cs: seq<Scalar>): nat {
    if cs == [] then 0 else UnitsAll(cs[..|cs| - 1]) + Units(cs[|cs| - 1])
  }

  /** The source's `len_utf16` of a slice, which sums over the characters it decodes. */
  function Utf16Length(b: Bytes): nat {
    if b == [] || |b| < Width(b[0]) then 0
    else (if DecodeFirst(b) < 0x1_0000 then 1 else 2) + Utf16Length(b[Width(b[0])..])
  }

  lemma {:induction false} UnitsOfConcatenation(xs: seq<Scalar>, ys: seq<Scalar>)
    ensures UnitsAll(xs + ys) == UnitsAll(xs) + UnitsAll(ys)
  {
    if ys == [] {
      assert xs + ys == xs;
    } else {
      UnitsOfConcatenation(xs, ys[..|ys| - 1]);
      assert (xs + ys)[..|xs + ys| - 1] == xs + ys[..|ys| - 1];
    }
  }

  lemma {:induction false} Utf16LengthOfString(cs: seq<Scalar>)
    ensures Utf16Length(EncodeAll(cs)) == UnitsAll(cs)
  {
    if cs == [] {
    } else {
      var c, rest := cs[0], cs[1..];
      DecodeEncode(c, EncodeAll(rest));
      Utf16LengthOfString(rest);
      assert cs == [c] + rest;
      UnitsOfConcatenation([c], rest);
      assert [c][..0] == [];
    }
  }

  datatype Message = Message(lineNum: nat, linePos: nat, offset: nat, length: nat)

  /** `GPUCompilationMessage::new` for an error with a location. */
  function NewMessage(loc: SourceLocation, source: Bytes): Message
    requires loc.offset + loc.length <= |source|
  {
    var start := loc.offset;
    var lineStart := LineStart(source[..start]);
    Message(loc.lineNumber, Utf16Length(source[lineStart..start]) + 1,
            Utf16Length(source[..start]), Utf16Length(source[start..start + loc.length]))
  }

  /** The number of characters before the line that ends a text. */
  function LineStartCharacter(cs: seq<Scalar>): (n: nat)
    ensures n <= |cs|
    ensures n > 0 ==> cs[n - 1] == 10
    ensures forall i | n <= i < |cs| :: cs[i] != 10
  {
    if cs == [] then 0
    else if cs[|cs| - 1] == 10 then |cs|
    else LineStartCharacter(cs[..|cs| - 1])
  }

  lemma LineStartIsUnique(prefix: Bytes, n: nat)
    requires n <= |prefix| && (n > 0 ==> prefix[n - 1] == LINE_FEED)
    requires forall i | n <= i < |prefix| :: prefix[i] != LINE_FEED
    ensures LineStart(prefix) == n
  {
  }

  /** The line feed found in the bytes is the line feed found in the characters, so it is at a boundary. */
  lemma {:induction false} LineStartIsBoundary(cs: seq<Scalar>)
    ensures LineStart(EncodeAll(cs)) == Boundary(cs, LineStartCharacter(cs))
  {
    if cs == [] {
      assert cs[..0] == [];
    } else {
      var init, c := cs[..|cs| - 1], cs[|cs| - 1];
      assert cs == init + [c];
      EncodeAllConcat(init, [c]);
      EncodeAllSingle(c);
      LineFeedStandsAlone(c);
      if c == 10 {
        assert cs[..|cs|] == cs;
      } else {
        LineStartIsBoundary(init);
        var n := LineStartCharacter(init);
        assert init[..n] == cs[..n];
        LineStartIsUnique(EncodeAll(cs), LineStart(EncodeAll(init)));
      }
    }
  }

  /** The line feeds among some characters. */
  function LineFeeds(cs: seq<Scalar>): nat {
    if cs == [] then 0 else LineFeeds(cs[1..]) + (if cs[0] == 10 then 1 else 0)
  }

  lemma {:induction false} CountOfConcatenation(a: Bytes, b: Bytes)
    ensures CountLineFeeds(a + b) == CountLineFeeds(a) + CountLineFeeds(b)
  {
    if b == [] {
      assert a + b == a;
    } else {
      CountOfConcatenation(a, b[..|b| - 1]);
      assert (a + b)[..|a + b| - 1] == a + b[..|b| - 1];
    }
  }

  lemma {:induction false} CountWithoutLineFeeds(b: Bytes)
    requires LINE_FEED !in b
    ensures CountLineFeeds(b) == 0
  {
    if b == [] {
    } else {
      CountWithoutLineFeeds(b[..|b| - 1]);
    }
  }

  /** Counting line feeds in the bytes counts them among the characters. */
  lemma {:induction false} CountIsLineFeeds(cs: seq<Scalar>)
    ensures CountLineFeeds(EncodeAll(cs)) == LineFeeds(cs)
  {
    if cs == [] {
    } else {
      var c := cs[0];
      CountIsLineFeeds(cs[1..]);
      CountOfConcatenation(Encode(c), EncodeAll(cs[1..]));
      LineFeedStandsAlone(c);
      if c == 10 {
        assert Encode(c) == [LINE_FEED] && [LINE_FEED][..0] == [];
      } else {
        CountWithoutLineFeeds(Encode(c));
      }
    }
  }

  /** The bytes between two boundaries encode the characters between them. */
  lemma SliceBetweenBoundaries(cs: seq<Scalar>, n: nat, m: nat)
    requires n <= m <= |cs|
    ensures Boundary(cs, n) <= Boundary(cs, m) <= |EncodeAll(cs)|
    ensures EncodeAll(cs)[Boundary(cs, n)..Boundary(cs, m)] == EncodeAll(cs[n..m])
  {
    SplitAt(cs, m);
    SplitAt(cs[..m], n);
    assert cs[..m][..n] == cs[..n] && cs[..m][n..] == cs[n..m];
  }

  /** For a span between two character boundaries, naga and Deno find the same line start, which is a boundary too,
      so no slice is taken inside a character; and the offset reported to JavaScript is the UTF-16 length of all earlier
      lines, plus the position in the line less one. */
  lemma MessagePositionsAreUtf16(cs: seq<Scalar>, n: nat, m: nat)
    requires n <= m <= |cs|
    ensures Boundary(cs, n) <= Boundary(cs, m) <= |EncodeAll(cs)|
    ensures var loc := Location(Span(Boundary(cs, n), Boundary(cs, m)), EncodeAll(cs));
            var msg := NewMessage(loc, EncodeAll(cs));
            var line := LineStartCharacter(cs[..n]);
            && loc.offset - (loc.linePosition - 1) == LineStart(EncodeAll(cs)[..loc.offset]) == Boundary(cs, line)
            && msg.lineNum == LineFeeds(cs[..n]) + 1
            && msg.linePos - 1 == UnitsAll(cs[line..n])
            && msg.offset == UnitsAll(cs[..n]) == UnitsAll(cs[..line]) + msg.linePos - 1
            && msg.length == UnitsAll(cs[n..m])
  {
    hide EncodeAll, Utf16Length, UnitsAll, LineStart, LineStartCharacter, CountLineFeeds, LineFeeds;
    SliceBetweenBoundaries(cs, n, m);
    SplitAt(cs, n);
    var line := LineStartCharacter(cs[..n]);
    LineStartIsBoundary(cs[..n]);
    CountIsLineFeeds(cs[..n]);
    assert cs[..n][..line] == cs[..line];
    SliceBetweenBoundaries(cs, line, n);
    Utf16LengthOfString(cs[line..n]);
    Utf16LengthOfString(cs[..n]);
    Utf16LengthOfString(cs[n..m]);
    assert cs[..n] == cs[..line] + cs[line..n];
    UnitsOfConcatenation(cs[..line], cs[line..n]);
  }
}
