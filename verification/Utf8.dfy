/**
  UTF-8 as defined by section 3 of RFC 3629: what a Rust `str` holds.
*/
module Utf8 {
  import opened Integers

  /** A Unicode scalar value, which is what a Rust `char` is. */
  type Scalar = c: int | 0 <= c < 0xD800 || 0xE000 <= c < 0x11_0000

  function Encode(c: Scalar): (b: Bytes)
    ensures 1 <= |b| <= 4
  {
    if c < 0x80 then [c]
    else if c < 0x800 then [0xC0 + c / 64, 0x80 + c % 64]
    else if c < 0x1_0000 then [0xE0 + c / 4096, 0x80 + c / 64 % 64, 0x80 + c % 64]
    else [0xF0 + c / 262144, 0x80 + c / 4096 % 64, 0x80 + c / 64 % 64, 0x80 + c % 64]
  }

  function EncodeAll(cs: seq<Scalar>): Bytes {
    if cs == [] then [] else Encode(cs[0]) + EncodeAll(cs[1..])
  }

  /** The length of the character that a leading byte begins. */
  function Width(lead: Byte): (n: nat)
    ensures 1 <= n <= 4
  {
    if lead < 0x80 then 1 else if lead < 0xE0 then 2 else if lead < 0xF0 then 3 else 4
  }

  /** The number that the first character of some bytes encodes. */
  function DecodeFirst(b: Bytes): int
    requires b != [] && |b| >= Width(b[0])
  {
    var w := Width(b[0]);
    if w == 1 then b[0]
    else if w == 2 then (b[0] as int - 0xC0) * 64 + (b[1] as int - 0x80)
    else if w == 3 then (b[0] as int - 0xE0) * 4096 + (b[1] as int - 0x80) * 64 + (b[2] as int - 0x80)
    else (b[0] as int - 0xF0) * 262144 + (b[1] as int - 0x80) * 4096 + (b[2] as int - 0x80) * 64 + (b[3] as int - 0x80)
  }

  /** An encoding decodes to its character. */
  lemma DecodeThreeBytes(c: Scalar)
    requires 0x800 <= c < 0x1_0000
    ensures Width(Encode(c)[0]) == |Encode(c)| && DecodeFirst(Encode(c)) == c
  {
    assert c / 64 == c / 4096 * 64 + c / 64 % 64;
  }

  lemma DecodeFourBytes(c: Scalar)
    requires 0x1_0000 <= c
    ensures Width(Encode(c)[0]) == |Encode(c)| && DecodeFirst(Encode(c)) == c
  {
    assert c / 64 == c / 4096 * 64 + c / 64 % 64;
    assert c / 4096 == c / 262144 * 64 + c / 4096 % 64;
  }

  lemma DecodeOne(c: Scalar)
    ensures Width(Encode(c)[0]) == |Encode(c)| && DecodeFirst(Encode(c)) == c
  {
    if 0x1_0000 <= c {
      DecodeFourBytes(c);
    } else if 0x800 <= c {
      DecodeThreeBytes(c);
    }
  }

  /** The bit patterns of RFC 3629, section 3: the lead byte tells the number of bytes, all others are continuation
      bytes, and the bits that are left spell the character. */
  lemma Patterns(c: Scalar)
    ensures var b: seq<int> := Encode(c);
            match |b|
            case 1 => b[0] < 0x80 && c == b[0] && c <= 0x7F
            case 2 =>
              && 0xC0 <= b[0] < 0xE0 && 0x80 <= b[1] < 0xC0
              && c == (b[0] - 0xC0) * 64 + (b[1] - 0x80) && 0x80 <= c <= 0x7FF
            case 3 =>
              && 0xE0 <= b[0] < 0xF0 && 0x80 <= b[1] < 0xC0 && 0x80 <= b[2] < 0xC0
              && c == ((b[0] - 0xE0) * 64 + (b[1] - 0x80)) * 64 + (b[2] - 0x80) && 0x800 <= c <= 0xFFFF
            case _ =>
              && |b| == 4 && 0xF0 <= b[0] < 0xF8 && 0x80 <= b[1] < 0xC0 && 0x80 <= b[2] < 0xC0 && 0x80 <= b[3] < 0xC0
              && c == (((b[0] - 0xF0) * 64 + (b[1] - 0x80)) * 64 + (b[2] - 0x80)) * 64 + (b[3] - 0x80) && 0x1_0000 <= c
  {
    if 0x800 <= c {
      assert c / 64 == c / 4096 * 64 + c / 64 % 64;
    }
    if 0x1_0000 <= c {
      assert c / 4096 == c / 262144 * 64 + c / 4096 % 64;
    }
  }

  /** Decoding looks at the first character's bytes only. */
  lemma DecodePrefix(b: Bytes, rest: Bytes)
    requires b != [] && |b| == Width(b[0])
    ensures DecodeFirst(b + rest) == DecodeFirst(b)
  {
  }

  /** The first character can be read back, whatever follows it. */
  lemma DecodeEncode(c: Scalar, rest: Bytes)
    ensures var b := Encode(c) + rest;
            && Width(b[0]) == |Encode(c)|
            && DecodeFirst(b) == c
            && b[..|Encode(c)|] == Encode(c) && b[|Encode(c)|..] == rest
  {
    hide Encode, DecodeFirst, Width;
    DecodeOne(c);
    DecodePrefix(Encode(c), rest);
  }

  /** Only the line feed's own encoding contains the byte 10. */
  lemma LineFeedStandsAlone(c: Scalar)
    ensures 10 in Encode(c) <==> c == 10
  {
  }

  lemma {:induction false} EncodeAllConcat(xs: seq<Scalar>, ys: seq<Scalar>)
    ensures EncodeAll(xs + ys) == EncodeAll(xs) + EncodeAll(ys)
  {
    hide Encode;
    if xs == [] {
      assert xs + ys == ys;
    } else {
      EncodeAllConcat(xs[1..], ys);
      assert (xs + ys)[1..] == xs[1..] + ys;
    }
  }

  lemma EncodeAllSingle(c: Scalar)
    ensures EncodeAll([c]) == Encode(c)
  {
    assert [c][1..] == [];
  }

  lemma EncodeAllEmpty(cs: seq<Scalar>)
    ensures EncodeAll(cs) == [] <==> cs == []
  {
    if cs != [] {
      assert |EncodeAll(cs)| >= |Encode(cs[0])|;
    }
  }

  /** A string encodes one sequence of characters only. */
  lemma {:induction false} EncodeAllIsInjective(xs: seq<Scalar>, ys: seq<Scalar>)
    requires EncodeAll(xs) == EncodeAll(ys)
    ensures xs == ys
  {
    EncodeAllEmpty(xs);
    EncodeAllEmpty(ys);
    if xs == [] {
    } else {
      DecodeEncode(xs[0], EncodeAll(xs[1..]));
      DecodeEncode(ys[0], EncodeAll(ys[1..]));
      EncodeAllIsInjective(xs[1..], ys[1..]);
      assert xs == [xs[0]] + xs[1..] && ys == [ys[0]] + ys[1..];
    }
  }

  /** The boundary before character `n`. */
  function Boundary(cs: seq<Scalar>, n: nat): nat
    requires n <= |cs|
  {
    |EncodeAll(cs[..n])|
  }

  lemma SplitAt(cs: seq<Scalar>, n: nat)
    requires n <= |cs|
    ensures EncodeAll(cs) == EncodeAll(cs[..n]) + EncodeAll(cs[n..])
    ensures Boundary(cs, n) <= |EncodeAll(cs)|
    ensures EncodeAll(cs)[..Boundary(cs, n)] == EncodeAll(cs[..n])
    ensures EncodeAll(cs)[Boundary(cs, n)..] == EncodeAll(cs[n..])
  {
    assert cs == cs[..n] + cs[n..];
    EncodeAllConcat(cs[..n], cs[n..]);
  }

  lemma EncodeFirst(cs: seq<Scalar>)
    requires cs != []
    ensures var b := EncodeAll(cs);
            b != [] && Width(b[0]) == |Encode(cs[0])| <= |b| && DecodeFirst(b) == cs[0]
  {
    DecodeEncode(cs[0], EncodeAll(cs[1..]));
  }

  lemma BoundariesAreAdditive(cs: seq<Scalar>, n: nat, m: nat)
    requires n + m <= |cs|
    ensures Boundary(cs, n + m) == Boundary(cs, n) + Boundary(cs[n..], m)
  {
    assert cs[..n + m] == cs[..n] + cs[n..][..m];
    EncodeAllConcat(cs[..n], cs[n..][..m]);
  }

  /** From the boundary before character `n`, its width leads to the next boundary. */
  lemma NextBoundary(cs: seq<Scalar>, n: nat)
    requires n < |cs|
    ensures Boundary(cs, n + 1) == Boundary(cs, n) + |Encode(cs[n])|
    ensures Boundary(cs, n) < Boundary(cs, n + 1) <= |EncodeAll(cs)|
    ensures var b := EncodeAll(cs)[Boundary(cs, n)..];
            b != [] && Width(b[0]) == |Encode(cs[n])| <= |b| && DecodeFirst(b) == cs[n]
  {
    hide EncodeAll, Encode, DecodeFirst;
    SplitAt(cs, n);
    SplitAt(cs, n + 1);
    BoundariesAreAdditive(cs, n, 1);
    EncodeAllSingle(cs[n]);
    assert cs[n..][..1] == [cs[n]];
    EncodeFirst(cs[n..]);
  }

  lemma EncodeWithin(before: seq<Scalar>, c: Scalar, after: seq<Scalar>)
    ensures EncodeAll(before + [c]) == EncodeAll(before) + Encode(c)
    ensures EncodeAll((before + [c]) + after) == EncodeAll(before) + Encode(c) + EncodeAll(after)
  {
    hide EncodeAll, Encode;
    EncodeAllConcat(before, [c]);
    EncodeAllSingle(c);
    EncodeAllConcat(before + [c], after);
  }

  /** Replacing the bytes of one character replaces that character. */
  lemma ReplaceCharacter(cs: seq<Scalar>, n: nat, c: Scalar)
    requires n < |cs|
    ensures Boundary(cs, n) <= Boundary(cs, n + 1) <= |EncodeAll(cs)|
    ensures EncodeAll(cs[n := c]) == EncodeAll(cs)[..Boundary(cs, n)] + Encode(c) + EncodeAll(cs)[Boundary(cs, n + 1)..]
    ensures Boundary(cs[n := c], n + 1) == Boundary(cs, n) + |Encode(c)|
  {
    var before, after := cs[..n], cs[n + 1..];
    assert cs[n := c][..n + 1] == before + [c];
    assert cs[n := c] == (before + [c]) + after;
    hide EncodeAll, Encode;
    SplitAt(cs, n);
    SplitAt(cs, n + 1);
    BoundariesAreAdditive(cs, n, 1);
    EncodeWithin(before, c, after);
  }
}
