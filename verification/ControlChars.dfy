/** The in-place rewriting loop `replace_control_chars` of naga/src/error.rs. */
module ControlChars {
  import opened Integers
  import opened Wrappers
  import opened Utf8

  const REPLACEMENT_CHARACTER: Scalar := 0xFFFD
  const REPLACEMENT: Bytes := [0xEF, 0xBF, 0xBD]

  /** `char::is_control`: general category Cc. */
  predicate IsControl(c: int) {
    0 <= c <= 0x1F || 0x7F <= c <= 0x9F
  }

  /** `char::is_whitespace`: the property White_Space. */
  predicate IsWhitespace(c: int) {
    || 9 <= c <= 13 || c == 0x20 || c == 0x85 || c == 0xA0 || c == 0x1680 || 0x2000 <= c <= 0x200A
    || c == 0x2028 || c == 0x2029 || c == 0x202F || c == 0x205F || c == 0x3000
  }

  predicate IsReplaced(c: int) {
    IsControl(c) && !IsWhitespace(c)
  }

  function Cleaned(c: Scalar): Scalar {
    if IsReplaced(c) then REPLACEMENT_CHARACTER else c
  }

  /** Which characters are replaced, range by range: the controls, of C0, DEL and of C1, other than horizontal tab to
      carriage return and next line. */
  lemma ReplacedRanges(c: Scalar)
    ensures Cleaned(c) ==
            if c <= 8 || 14 <= c <= 0x1F || 0x7F <= c <= 0x84 || 0x86 <= c <= 0x9F then 0xFFFD else c
  {
  }

  /** The character-by-character meaning. */
  function CleanedAll(cs: seq<Scalar>): (r: seq<Scalar>)
    ensures |r| == |cs|
    ensures forall i | 0 <= i < |cs| :: r[i] == Cleaned(cs[i])
  {
    if cs == [] then [] else [Cleaned(cs[0])] + CleanedAll(cs[1..])
  }

  /** How many characters precede the first one to be replaced. */
  function Untouched(cs: seq<Scalar>): (n: nat)
    ensures n <= |cs|
    ensures forall i | 0 <= i < n :: !IsReplaced(cs[i])
    ensures n < |cs| ==> IsReplaced(cs[n])
  {
    if cs == [] || IsReplaced(cs[0]) then 0 else 1 + Untouched(cs[1..])
  }

  /** `str::find` with the source's predicate, on the part of a string that begins at a boundary and encodes `cs`:
      the offset of the first character to be replaced. */
  method Find(s: Bytes, ghost cs: seq<Scalar>) returns (found: Option<nat>)
    requires s == EncodeAll(cs)
    ensures found == if Untouched(cs) == |cs| then None else Some(Boundary(cs, Untouched(cs)))
  {
    hide EncodeAll, DecodeFirst, Untouched;
    var i: nat := 0;
    ghost var n: nat := 0;
    FirstBoundary(cs);
    while i < |s|
      invariant n <= |cs| && i == Boundary(cs, n) <= |s|
      invariant forall j | 0 <= j < n :: !IsReplaced(cs[j])
      decreases |s| - i
    {
      BoundaryIsEndOnlyAtEnd(cs, n);
      NextBoundary(cs, n);
      if IsReplaced(DecodeFirst(s[i..])) {
        UntouchedIs(cs, n);
        return Some(i);
      }
      i := i + Width(s[i]);
      n := n + 1;
    }
    BoundaryIsEndOnlyAtEnd(cs, n);
    UntouchedIs(cs, n);
    found := None;
  }

  lemma FirstBoundary(cs: seq<Scalar>)
    ensures Boundary(cs, 0) == 0
  {
    assert cs[..0] == [];
  }

  lemma UntouchedIs(cs: seq<Scalar>, n: nat)
    requires n <= |cs| && (forall i | 0 <= i < n :: !IsReplaced(cs[i])) && (n < |cs| ==> IsReplaced(cs[n]))
    ensures Untouched(cs) == n
  {
  }

  lemma BoundaryIsEndOnlyAtEnd(cs: seq<Scalar>, n: nat)
    requires n <= |cs|
    ensures Boundary(cs, n) == |EncodeAll(cs)| <==> n == |cs|
  {
    if n < |cs| {
      NextBoundary(cs, n);
    } else {
      assert cs[..n] == cs;
    }
  }

  /** A string whose first `k` characters have been cleaned. */
  function Partly(cs: seq<Scalar>, k: nat): (r: seq<Scalar>)
    requires k <= |cs|
    ensures |r| == |cs|
  {
    CleanedAll(cs[..k]) + cs[k..]
  }

  lemma PartlyStep(cs: seq<Scalar>, k: nat, n: nat)
    requires k + n < |cs| && IsReplaced(cs[k + n])
    requires forall i | 0 <= i < n :: !IsReplaced(Partly(cs, k)[k..][i])
    ensures Partly(cs, k)[k..] == cs[k..]
    ensures Partly(cs, k + n + 1) == Partly(cs, k)[k + n := REPLACEMENT_CHARACTER]
  {
    forall i | k <= i < k + n
      ensures !IsReplaced(cs[i])
    {
      assert Partly(cs, k)[k..][i - k] == cs[i];
    }
  }

  lemma ReplacementEncoding()
    ensures Encode(REPLACEMENT_CHARACTER) == REPLACEMENT
  {
  }

  /** One round of the loop: replacing the range found, at the boundary `at`, cleans the characters up to it. */
  lemma RoundCleans(cs: seq<Scalar>, k: nat, n: nat, at: nat)
    requires k + n < |cs| && IsReplaced(cs[k + n])
    requires forall i | 0 <= i < n :: !IsReplaced(Partly(cs, k)[k..][i])
    requires at == Boundary(Partly(cs, k), k) + Boundary(Partly(cs, k)[k..], n)
    ensures var res := EncodeAll(Partly(cs, k));
            && at < |res| && at + Width(res[at]) <= |res|
            && EncodeAll(Partly(cs, k + n + 1)) == res[..at] + REPLACEMENT + res[at + Width(res[at])..]
            && Boundary(Partly(cs, k + n + 1), k + n + 1) == at + |REPLACEMENT|
  {
    hide EncodeAll, Encode, Partly;
    var mixed := Partly(cs, k);
    BoundariesAreAdditive(mixed, k, n);
    NextBoundary(mixed, k + n);
    ReplaceCharacter(mixed, k + n, REPLACEMENT_CHARACTER);
    PartlyStep(cs, k, n);
    ReplacementEncoding();
  }

  lemma PartlyEnds(cs: seq<Scalar>, k: nat)
    requires k <= |cs|
    ensures Partly(cs, 0) == cs
    ensures Partly(cs, k)[k..] == cs[k..]
    ensures Boundary(Partly(cs, k), k) <= |EncodeAll(Partly(cs, k))|
    ensures EncodeAll(Partly(cs, k))[Boundary(Partly(cs, k), k)..] == EncodeAll(cs[k..])
    ensures (forall i | k <= i < |cs| :: !IsReplaced(cs[i])) ==> Partly(cs, k) == CleanedAll(cs)
  {
    hide EncodeAll;
    assert Partly(cs, k)[k..] == cs[k..];
    SplitAt(Partly(cs, k), k);
  }

  /** The state of the loop: the first `k` characters are cleaned and `offset` is the boundary after them. */
  predicate Cleaning(cs: seq<Scalar>, k: nat, res: Bytes, offset: nat) {
    k <= |cs| && res == EncodeAll(Partly(cs, k)) && offset == Boundary(Partly(cs, k), k) <= |res|
  }

  lemma CleaningBegins(cs: seq<Scalar>)
    ensures Cleaning(cs, 0, EncodeAll(cs), 0)
  {
    PartlyEnds(cs, 0);
    assert cs[..0] == [];
  }

  lemma NothingLeft(cs: seq<Scalar>, k: nat)
    requires k <= |cs| && forall i | 0 <= i < |cs| - k :: !IsReplaced(cs[k..][i])
    ensures Partly(cs, k) == CleanedAll(cs)
  {
    forall i | k <= i < |cs|
      ensures !IsReplaced(cs[i])
    {
      assert cs[k..][i - k] == cs[i];
    }
    PartlyEnds(cs, k);
  }

  lemma RoundKeepsCleaning(cs: seq<Scalar>, k: nat, n: nat, s: Bytes, offset: nat, found: nat)
    requires Cleaning(cs, k, s, offset) && n < |cs| - k && IsReplaced(cs[k..][n])
    requires forall i | 0 <= i < n :: !IsReplaced(cs[k..][i])
    requires found == Boundary(cs[k..], n)
    ensures var at := offset + found;
            && at < |s| && at + Width(s[at]) <= |s|
            && Cleaning(cs, k + n + 1, s[..at] + REPLACEMENT + s[at + Width(s[at])..], at + |REPLACEMENT|)
  {
    hide EncodeAll, Encode, Partly;
    PartlyEnds(cs, k);
    PartlyEnds(cs, k + n + 1);
    RoundCleans(cs, k, n, offset + found);
  }

  /** The whole loop, on any string: it ends, every offset it uses is a character boundary, and the result
      is the character-by-character replacement. */
  method ReplaceControlChars(s: Bytes, ghost cs: seq<Scalar>) returns (res: Bytes)
    requires s == EncodeAll(cs)
    ensures res == EncodeAll(CleanedAll(cs))
  {
    hide EncodeAll, Encode, Partly, CleanedAll, Untouched;
    res := s;
    var offset: nat := 0;
    ghost var k: nat := 0;
    CleaningBegins(cs);
    while true
      invariant Cleaning(cs, k, res, offset)
      decreases |cs| - k
    {
      PartlyEnds(cs, k);
      var found := Find(res[offset..], cs[k..]);
      ghost var n := Untouched(cs[k..]);
      if found.None? {
        NothingLeft(cs, k);
        return;
      }
      RoundKeepsCleaning(cs, k, n, res, offset, found.value);
      offset := offset + found.value;
      var width := Width(res[offset]);
      res := res[..offset] + REPLACEMENT + res[offset + width..];
      offset := offset + |REPLACEMENT|;
      k := k + n + 1;
    }
  }

  /** The meaning is idempotent, keeps the number of characters, and leaves nothing to replace;
      a string without such characters is returned as it is. */
  lemma CleaningIsIdempotent(cs: seq<Scalar>)
    ensures CleanedAll(CleanedAll(cs)) == CleanedAll(cs) && |CleanedAll(cs)| == |cs|
    ensures forall c | c in CleanedAll(cs) :: !IsReplaced(c)
    ensures CleanedAll(cs) == cs <==> forall c | c in cs :: !IsReplaced(c)
  {
  }

  /** So a second rewriting of the bytes finds nothing to do. */
  method ReplaceTwice(s: Bytes, ghost cs: seq<Scalar>) returns (once: Bytes, twice: Bytes)
    requires s == EncodeAll(cs)
    ensures twice == once == EncodeAll(CleanedAll(cs))
  {
    once := ReplaceControlChars(s, cs);
    twice := ReplaceControlChars(once, CleanedAll(cs));
    CleaningIsIdempotent(cs);
  }
}
