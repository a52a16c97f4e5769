/**
  Generational ids and their packed representation: `RawId::{zip,unzip}` of wgpu-core/src/id.rs.

  The source packs two 32-bit words with a shift and an `or`. The rest of the model counts in
  numbers; `Value` and `Word` tie the two together.
*/
module RawIds {
  import opened Integers

  /** An id, as its index and epoch. */
  datatype Id = Id(index: U32, epoch: U32)

  // ----- On words

  function Zip(index: bv32, epoch: bv32): bv64 {
    (index as bv64) | ((epoch as bv64) << 32)
  }

  function Unzip(raw: bv64): (bv32, bv32) {
    ((raw & 0xFFFF_FFFF) as bv32, (raw >> 32) as bv32)
  }

  /** `zip` and `unzip` undo each other, in both directions, and `zip` yields
      zero, which it refuses, for the one pair of zeros only. */
  lemma ZipUnzip(index: bv32, epoch: bv32, raw: bv64)
    ensures Unzip(Zip(index, epoch)) == (index, epoch)
    ensures Zip(Unzip(raw).0, Unzip(raw).1) == raw
    ensures Zip(index, epoch) == 0 <==> index == 0 && epoch == 0
  {
  }

  /** The shift and the `or` lose nothing: in 64-bit arithmetic they are a multiplication and a sum. */
  lemma ZipIsArithmetic(index: bv32, epoch: bv32)
    ensures Zip(index, epoch) == (index as bv64) + (epoch as bv64) * 0x1_0000_0000
  {
  }

  // ----- On numbers

  /** The packed value as a number. */
  function Pack(id: Id): (raw: nat)
    ensures raw < U32_MODULUS * U32_MODULUS
  {
    id.index + id.epoch * U32_MODULUS
  }

  function Unpack(raw: nat): (id: Id)
    requires raw < U32_MODULUS * U32_MODULUS
    ensures Pack(id) == raw
  {
    Id(raw % U32_MODULUS, raw / U32_MODULUS)
  }

  lemma UnpackPack(id: Id)
    ensures Unpack(Pack(id)) == id
    ensures id.epoch >= 1 ==> Pack(id) != 0
  {
  }

  // ----- The number a word stands for

  predicate Odd(b: bv64) {
    b & 1 == 1
  }

  predicate Top(b: bv64) {
    b & 0x8000_0000_0000_0000 != 0
  }

  function Half(b: bv64): bv64 {
    b >> 1
  }

  function Twice(b: bv64): bv64 {
    b << 1
  }

  lemma HalfIsLess(b: bv64)
    requires b != 0
    ensures Half(b) < b
  {
  }

  function Value(b: bv64): nat
    decreases b
  {
    if b == 0 then 0
    else
      HalfIsLess(b);
      2 * Value(Half(b)) + (if Odd(b) then 1 else 0)
  }

  lemma ValueStep(b: bv64)
    ensures Value(b) == 2 * Value(Half(b)) + (if Odd(b) then 1 else 0)
  {
    if b == 0 {
      assert Half(b) == 0;
    }
  }

  lemma OneBit(b: bv64)
    requires b != 0 && Half(b) == 0
    ensures Odd(b)
  {
  }

  lemma {:induction false} ValueIsZeroOnlyOfZero(b: bv64)
    ensures Value(b) == 0 <==> b == 0
    decreases b
  {
    hide Half, Odd;
    if b == 0 {
    } else {
      HalfIsLess(b);
      if Half(b) == 0 {
        OneBit(b);
      }
      ValueIsZeroOnlyOfZero(Half(b));
    }
  }

  function Or(a: bv64, b: bv64): bv64 {
    a | b
  }

  predicate Disjoint(a: bv64, b: bv64) {
    a & b == 0
  }

  lemma OrOfZero(b: bv64)
    ensures Or(0, b) == b
  {
  }

  lemma HalfOfOr(a: bv64, b: bv64)
    ensures Half(Or(a, b)) == Or(Half(a), Half(b))
  {
  }

  lemma HalvesAreDisjoint(a: bv64, b: bv64)
    requires Disjoint(a, b)
    ensures Disjoint(Half(a), Half(b))
  {
  }

  lemma OddOfOr(a: bv64, b: bv64)
    requires Disjoint(a, b)
    ensures Odd(Or(a, b)) <==> Odd(a) || Odd(b)
    ensures !(Odd(a) && Odd(b))
  {
  }

  lemma OrStep(a: bv64, b: bv64)
    requires Disjoint(a, b)
    requires Value(Or(Half(a), Half(b))) == Value(Half(a)) + Value(Half(b))
    ensures Value(Or(a, b)) == Value(a) + Value(b)
  {
    hide Value, Odd, Half, Or, Disjoint;
    HalfOfOr(a, b);
    OddOfOr(a, b);
    ValueStep(Or(a, b));
    ValueStep(a);
    ValueStep(b);
  }

  /** Words without a bit in common add up. */
  lemma {:induction false} ValueOfDisjointOr(a: bv64, b: bv64)
    requires Disjoint(a, b)
    ensures Value(Or(a, b)) == Value(a) + Value(b)
    decreases Value(a)
  {
    hide Value, Odd, Half, Or, Disjoint;
    ValueIsZeroOnlyOfZero(a);
    if Value(a) == 0 {
      OrOfZero(b);
    } else {
      HalvesAreDisjoint(a, b);
      ValueStep(a);
      ValueOfDisjointOr(Half(a), Half(b));
      OrStep(a, b);
    }
  }

  // ----- Shifts, one bit at a time

  lemma TwiceBits(b: bv64)
    requires !Top(b)
    ensures Half(Twice(b)) == b && !Odd(Twice(b))
  {
  }

  lemma ValueOfTwice(b: bv64)
    requires !Top(b)
    ensures Value(Twice(b)) == 2 * Value(b)
  {
    TwiceBits(b);
    hide *;
    ValueStep(Twice(b));
  }

  function Left4(b: bv64): bv64 {
    Twice(Twice(Twice(Twice(b))))
  }

  predicate Free4(b: bv64) {
    !Top(b) && !Top(Twice(b)) && !Top(Twice(Twice(b))) && !Top(Twice(Twice(Twice(b))))
  }

  lemma ValueOfLeft4(b: bv64)
    requires Free4(b)
    ensures Value(Left4(b)) == 0x10 * Value(b)
  {
    hide Value, Twice, Top;
    ValueOfTwice(b);
    ValueOfTwice(Twice(b));
    ValueOfTwice(Twice(Twice(b)));
    ValueOfTwice(Twice(Twice(Twice(b))));
  }

  function Left16(b: bv64): bv64 {
    Left4(Left4(Left4(Left4(b))))
  }

  predicate Free16(b: bv64) {
    Free4(b) && Free4(Left4(b)) && Free4(Left4(Left4(b))) && Free4(Left4(Left4(Left4(b))))
  }

  lemma ValueOfLeft16(b: bv64)
    requires Free16(b)
    ensures Value(Left16(b)) == 0x1_0000 * Value(b)
  {
    hide Value, Left4, Free4;
    ValueOfLeft4(b);
    ValueOfLeft4(Left4(b));
    ValueOfLeft4(Left4(Left4(b)));
    ValueOfLeft4(Left4(Left4(Left4(b))));
  }

  function Shift4(b: bv64): bv64 {
    b << 4
  }

  predicate Below60(b: bv64) {
    b < 0x1000_0000_0000_0000
  }

  lemma Left4Bits(b: bv64)
    requires Below60(b)
    ensures Free4(b) && Left4(b) == Shift4(b)
  {
  }

  lemma Left16Steps(b: bv64)
    requires b < 0x1_0000_0000_0000
    ensures Below60(b) && Below60(Shift4(b)) && Below60(Shift4(Shift4(b))) && Below60(Shift4(Shift4(Shift4(b))))
    ensures Shift4(Shift4(Shift4(Shift4(b)))) == b << 16
  {
  }

  lemma Left16Bits(b: bv64)
    requires b < 0x1_0000_0000_0000
    ensures Free16(b) && Left16(b) == b << 16
  {
    Left16Steps(b);
    hide Left4, Free4, Shift4, Below60;
    Left4Bits(b);
    Left4Bits(Shift4(b));
    Left4Bits(Shift4(Shift4(b)));
    Left4Bits(Shift4(Shift4(Shift4(b))));
  }

  lemma Left32Steps(b: bv64)
    requires b < 0x1_0000_0000
    ensures b < 0x1_0000_0000_0000 && b << 16 < 0x1_0000_0000_0000 && (b << 16) << 16 == b << 32
  {
  }

  lemma Left32Bits(b: bv64)
    requires b < 0x1_0000_0000
    ensures Free16(b) && Free16(Left16(b)) && Left16(Left16(b)) == b << 32
  {
    hide Left16, Free16;
    Left32Steps(b);
    Left16Bits(b);
    Left16Bits(b << 16);
  }

  function Right4(b: bv64): bv64 {
    Half(Half(Half(Half(b))))
  }

  lemma ValueOfRight4(b: bv64)
    ensures Value(Right4(b)) * 0x10 <= Value(b) < (Value(Right4(b)) + 1) * 0x10
  {
    hide Value, Half, Odd;
    ValueStep(b);
    ValueStep(Half(b));
    ValueStep(Half(Half(b)));
    ValueStep(Half(Half(Half(b))));
  }

  function Right16(b: bv64): bv64 {
    Right4(Right4(Right4(Right4(b))))
  }

  lemma ValueOfRight16(b: bv64)
    ensures Value(Right16(b)) * 0x1_0000 <= Value(b) < (Value(Right16(b)) + 1) * 0x1_0000
  {
    hide Value, Right4;
    ValueOfRight4(b);
    ValueOfRight4(Right4(b));
    ValueOfRight4(Right4(Right4(b)));
    ValueOfRight4(Right4(Right4(Right4(b))));
  }

  lemma Right32Bits(b: bv64)
    ensures Right16(Right16(b)) == 0 <==> b < 0x1_0000_0000
  {
  }

  /** The words of 32 bits are those whose numbers are below 2^32. */
  lemma ValueBelow32(b: bv64)
    ensures b < 0x1_0000_0000 <==> Value(b) < U32_MODULUS
  {
    Right32Bits(b);
    hide Value, Right16;
    ValueOfRight16(b);
    ValueOfRight16(Right16(b));
    ValueIsZeroOnlyOfZero(Right16(Right16(b)));
  }

  // ----- The word of a number

  lemma TwiceAndOne(half: bv64)
    requires half < 0x1_0000_0000
    ensures !Top(half) && Disjoint(Twice(half), 1)
  {
  }

  function Word(n: U32): (word: bv64)
    ensures Value(word) == n
  {
    if n == 0 then 0
    else
      var half := Word(n / 2);
      WordStep(half, n);
      if n % 2 == 1 then Or(Twice(half), 1) else Twice(half)
  }

  lemma ValueOfOne()
    ensures Value(1) == 1
  {
    assert Half(1) == 0 && Odd(1);
  }

  lemma WordStep(half: bv64, n: U32)
    requires Value(half) == n / 2
    ensures Value(if n % 2 == 1 then Or(Twice(half), 1) else Twice(half)) == n
  {
    hide Value, Twice, Top, Or, Disjoint;
    ValueBelow32(half);
    TwiceAndOne(half);
    ValueOfTwice(half);
    ValueOfOne();
    ValueOfDisjointOr(Twice(half), 1);
  }

  function Narrowed(word: bv64): (r: bv32)
    requires word < 0x1_0000_0000
    ensures Low(r) == word
  {
    word as bv32
  }

  /** The 32-bit word of a number. */
  function Narrow(n: U32): (word: bv32)
    ensures Value(Low(word)) == n
  {
    ValueBelow32(Word(n));
    Narrowed(Word(n))
  }

  // ----- The two packings are one

  function Low(word: bv32): bv64 {
    word as bv64
  }

  function High(word: bv32): bv64 {
    (word as bv64) << 32
  }

  lemma ZipBits(index: bv32, epoch: bv32)
    ensures Disjoint(Low(index), High(epoch)) && Zip(index, epoch) == Or(Low(index), High(epoch))
  {
  }

  lemma ValueOfLow(word: bv32)
    ensures Value(Low(word)) < U32_MODULUS
  {
    assert Low(word) < 0x1_0000_0000;
    hide Value, Low;
    ValueBelow32(Low(word));
  }

  lemma ValueOfHigh(word: bv32)
    ensures Value(High(word)) == U32_MODULUS * Value(Low(word))
  {
    HighBits(word);
    hide Value, Left16, Free16, High, Low;
    ValueOfLeft16(Low(word));
    ValueOfLeft16(Left16(Low(word)));
  }

  lemma HighBits(word: bv32)
    ensures Free16(Low(word)) && Free16(Left16(Low(word))) && High(word) == Left16(Left16(Low(word)))
  {
    hide Left16, Free16;
    Left32Bits(Low(word));
  }

  /** What `zip` makes of any two words stands for the packed number. */
  lemma ZipIsPack(index: bv32, epoch: bv32)
    ensures Value(Low(index)) < U32_MODULUS && Value(Low(epoch)) < U32_MODULUS
    ensures Value(Zip(index, epoch)) == Pack(Id(Value(Low(index)), Value(Low(epoch))))
  {
    hide Value, Low, High, Zip, Or, Disjoint;
    ZipBits(index, epoch);
    ValueOfLow(index);
    ValueOfLow(epoch);
    ValueOfHigh(epoch);
    ValueOfDisjointOr(Low(index), High(epoch));
  }

  /** The packed word of an id. */
  function ZipOf(id: Id): bv64 {
    Zip(Narrow(id.index), Narrow(id.epoch))
  }

  /** Every id has its words; `zip` makes of them the packed number, and zero, which it refuses, of `Id(0, 0)` only. */
  lemma ZipOfId(id: Id)
    ensures Value(ZipOf(id)) == Pack(id)
    ensures ZipOf(id) == 0 <==> id == Id(0, 0)
  {
    hide Value, Zip, Narrow, Low;
    ZipIsPack(Narrow(id.index), Narrow(id.epoch));
    ValueIsZeroOnlyOfZero(ZipOf(id));
  }
}
