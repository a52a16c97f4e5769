/**
  The alignment arithmetic of wgpu-core/src/lib.rs and wgpu-types/src/math.rs:
  greatest common divisor, least common multiple, and rounding up, on 32-bit numbers.
  Additions, subtractions and multiplications wrap around, as in a release build.
*/
module Alignment {
  import opened Integers

  predicate IsMultiple(n: int, q: int, d: int) {
    n == q * d
  }

  ghost predicate Divides(d: int, n: int) {
    exists q :: IsMultiple(n, q, d)
  }

  ghost predicate IsGcd(g: int, a: int, b: int) {
    && g > 0 && Divides(g, a) && Divides(g, b)
    && forall d | d > 0 && Divides(d, a) && Divides(d, b) :: d <= g && Divides(d, g)
  }

  ghost predicate IsLcm(l: int, a: int, b: int) {
    && l > 0 && Divides(a, l) && Divides(b, l)
    && forall m | m > 0 && Divides(a, m) && Divides(b, m) :: l <= m && Divides(l, m)
  }

  // ----- Divisibility

  lemma MultipleBounds(t: int, g: int)
    requires g > 0
    ensures t >= 1 ==> t * g >= g
    ensures t <= -1 ==> t * g <= -g
    ensures t * g >= 0 <==> t >= 0
  {
    if t >= 1 {
      assert t * g == (t - 1) * g + g;
    } else if t <= -1 {
      assert t * g == (t + 1) * g - g;
    }
  }

  lemma DividesSum(d: int, a: int, b: int, x: int, y: int)
    requires Divides(d, a) && Divides(d, b)
    ensures Divides(d, x * a + y * b)
  {
    var p :| IsMultiple(a, p, d);
    var q :| IsMultiple(b, q, d);
    calc {
      x * a + y * b;
      x * (p * d) + y * (q * d);
      (x * p + y * q) * d;
    }
    assert IsMultiple(x * a + y * b, x * p + y * q, d);
  }

  lemma DividesBounds(d: int, n: int)
    requires d > 0 && n > 0 && Divides(d, n)
    ensures d <= n
  {
    var q :| IsMultiple(n, q, d);
    MultipleBounds(q, d);
  }

  lemma DividesRemainder(d: int, a: int, b: int)
    requires b > 0
    ensures Divides(d, b) && Divides(d, a % b) ==> Divides(d, a)
    ensures a % b == 0 ==> Divides(b, a)
  {
    if Divides(d, b) && Divides(d, a % b) {
      DividesSum(d, b, a % b, a / b, 1);
    }
    if a % b == 0 {
      assert IsMultiple(a, a / b, b);
    }
  }

  // ----- The greatest common divisor

  /** What the loop computes, trip by trip. */
  function Gcd(a: int, b: int): (g: int)
    requires a >= b > 0
    ensures 0 < g <= b
    decreases b
  {
    var c := a % b;
    if c == 0 then b else Gcd(b, c)
  }

  /** `get_greatest_common_divisor`, which panics for `a < b` and for a zero `b`. */
  method GreatestCommonDivisor(a0: U32, b0: U32) returns (g: U32)
    requires a0 >= b0 > 0
    ensures g == Gcd(a0, b0)
  {
    var a, b := a0, b0;
    while true
      invariant a >= b > 0 && Gcd(a, b) == Gcd(a0, b0)
      decreases b
    {
      var c := a % b;
      if c == 0 {
        return b;
      }
      a, b := b, c;
    }
  }

  lemma CombinationOfRemainder(a: int, b: int, q: int, x: int, y: int)
    ensures x * b + y * (a - q * b) == y * a + (x - y * q) * b
  {
  }

  /** The loop's result is an integer combination of its arguments. */
  lemma {:induction false} Bezout(a: int, b: int) returns (x: int, y: int)
    requires a >= b > 0
    ensures Gcd(a, b) == x * a + y * b
    decreases b
  {
    var q, c := a / b, a % b;
    if c == 0 {
      x, y := 0, 1;
    } else {
      var x', y' := Bezout(b, c);
      x, y := y', x' - y' * q;
      CombinationOfRemainder(a, b, q, x', y');
    }
  }

  lemma {:induction false} GcdDividesBoth(a: int, b: int)
    requires a >= b > 0
    ensures Divides(Gcd(a, b), a) && Divides(Gcd(a, b), b)
    decreases b
  {
    if a % b == 0 {
      DividesRemainder(b, a, b);
      assert IsMultiple(b, 1, b);
    } else {
      GcdDividesBoth(b, a % b);
      DividesRemainder(Gcd(a, b), a, b);
    }
  }

  lemma GcdIsGreatest(a: int, b: int)
    requires a >= b > 0
    ensures IsGcd(Gcd(a, b), a, b)
  {
    var g := Gcd(a, b);
    var x, y := Bezout(a, b);
    GcdDividesBoth(a, b);
    forall d | d > 0 && Divides(d, a) && Divides(d, b)
      ensures d <= g && Divides(d, g)
    {
      DividesSum(d, a, b, x, y);
      DividesBounds(d, g);
    }
  }

  // ----- The least common multiple

  function OrderedGcd(a: int, b: int): (g: int)
    requires a > 0 && b > 0
    ensures g > 0
  {
    if a >= b then Gcd(a, b) else Gcd(b, a)
  }

  function LowestCommonDenom(a: U32, b: U32): (l: U32)
    requires a > 0 && b > 0
  {
    a * b % U32_MODULUS / OrderedGcd(a, b)
  }

  method GetLowestCommonDenom(a: U32, b: U32) returns (l: U32)
    requires a > 0 && b > 0
    ensures l == LowestCommonDenom(a, b)
  {
    var g;
    if a >= b {
      g := GreatestCommonDivisor(a, b);
    } else {
      g := GreatestCommonDivisor(b, a);
    }
    l := a * b % U32_MODULUS / g;
  }

  lemma OrderedGcdIsGcd(a: int, b: int) returns (x: int, y: int)
    requires a > 0 && b > 0
    ensures IsGcd(OrderedGcd(a, b), a, b) && OrderedGcd(a, b) == x * a + y * b
  {
    if a >= b {
      GcdIsGreatest(a, b);
      x, y := Bezout(a, b);
    } else {
      GcdIsGreatest(b, a);
      y, x := Bezout(b, a);
    }
  }

  /** A product over a common divisor is a common multiple. */
  lemma QuotientIsCommonMultiple(a: int, b: int, g: int, l: int)
    requires a > 0 && b > 0 && g > 0 && Divides(g, a) && Divides(g, b) && l == a * b / g
    ensures l * g == a * b && l > 0 && Divides(a, l) && Divides(b, l)
  {
    var p :| IsMultiple(a, p, g);
    var q :| IsMultiple(b, q, g);
    assert a * b == (p * b) * g == (a * q) * g by {
      assert a * b == (p * g) * b == a * (q * g);
    }
    assert l == p * b by { QuotientIsExact(p * b, g, a * b); }
    assert l == a * q by { QuotientIsExact(a * q, g, a * b); }
    assert IsMultiple(l, q, a) && IsMultiple(l, p, b);
    MultipleBounds(a, b);
    MultipleBounds(l, g);
  }

  lemma QuotientIsExact(k: int, g: int, n: int)
    requires g > 0 && n == k * g
    ensures n / g == k
  {
    var t := k - n / g;
    assert n == n / g * g + n % g;
    assert t * g == k * g - n / g * g == n % g;
    MultipleBounds(t, g);
  }

  /** Every common multiple is a multiple of the product over the greatest common divisor. */
  lemma CommonMultipleIsMultiple(a: int, b: int, g: int, x: int, y: int, l: int, m: int)
    requires g > 0 && g == x * a + y * b && l * g == a * b
    requires Divides(a, m) && Divides(b, m)
    ensures Divides(l, m)
  {
    var p :| IsMultiple(m, p, a);
    var q :| IsMultiple(m, q, b);
    var k := x * q + y * p;
    assert m * g == k * (a * b) by {
      Distribute(m, x, a, y, b);
      ProductOfMultiple(m, q, b, x, a);
      ProductOfMultiple(m, p, a, y, b);
      Collect(x * q, y * p, a, b);
    }
    assert k * (a * b) == (k * l) * g by {
      Associate(k, l, g);
    }
    QuotientIsExact(m, g, m * g);
    QuotientIsExact(k * l, g, m * g);
    assert IsMultiple(m, k, l);
  }

  lemma Associate(k: int, l: int, g: int)
    ensures k * (l * g) == (k * l) * g
  {
  }

  lemma Distribute(m: int, x: int, a: int, y: int, b: int)
    ensures m * (x * a + y * b) == m * (x * a) + m * (y * b)
  {
  }

  lemma ProductOfMultiple(m: int, q: int, b: int, x: int, a: int)
    requires m == q * b
    ensures m * (x * a) == (x * q) * (a * b)
  {
    Associate(q, b, x * a);
    assert b * (x * a) == x * (a * b);
    Associate(q, x, a * b);
  }

  lemma Collect(u: int, v: int, a: int, b: int)
    ensures u * (a * b) + v * (b * a) == (u + v) * (a * b)
  {
  }

  lemma ExactQuotientIsLcm(a: int, b: int)
    requires a > 0 && b > 0
    ensures IsLcm(a * b / OrderedGcd(a, b), a, b)
  {
    var g := OrderedGcd(a, b);
    var l := a * b / g;
    var x, y := OrderedGcdIsGcd(a, b);
    QuotientIsCommonMultiple(a, b, g, l);
    forall m | m > 0 && Divides(a, m) && Divides(b, m)
      ensures l <= m && Divides(l, m)
    {
      CommonMultipleIsMultiple(a, b, g, x, y, l, m);
      DividesBounds(l, m);
    }
  }

  /** For nonzero arguments the result is the least common multiple if and only if
      their product fits in 32 bits. */
  lemma LowestCommonDenomIsLcmIffProductFits(a: U32, b: U32)
    requires a > 0 && b > 0
    ensures IsLcm(LowestCommonDenom(a, b), a, b) <==> a * b < U32_MODULUS
  {
    var g := OrderedGcd(a, b);
    var l := a * b / g;
    ExactQuotientIsLcm(a, b);
    if a * b >= U32_MODULUS {
      var x, y := OrderedGcdIsGcd(a, b);
      QuotientIsCommonMultiple(a, b, g, l);
      WrappedQuotientIsSmaller(a * b, g);
      assert LowestCommonDenom(a, b) < l;
    }
  }

  lemma WrappedQuotientIsSmaller(n: int, g: int)
    requires n >= U32_MODULUS && g > 0 && n / g * g == n
    ensures n % U32_MODULUS / g < n / g
  {
    var w := n % U32_MODULUS;
    assert w / g * g <= w < n == n / g * g;
    MultipleBounds(n / g - w / g, g);
    assert (n / g - w / g) * g == n / g * g - w / g * g;
  }

  // ----- Rounding up

  function AlignTo(value: U32, alignment: U32): (r: U32)
    requires alignment > 0
  {
    var remainder := value % alignment;
    if remainder == 0 then value else ((value + alignment) % U32_MODULUS - remainder) % U32_MODULUS
  }

  ghost predicate IsLeastMultipleFrom(r: int, value: int, alignment: int) {
    && r >= value && Divides(alignment, r)
    && forall m | m >= value && Divides(alignment, m) :: r <= m
  }

  /** The number that `align_to` is meant to compute, without regard to its width. */
  lemma RoundedUpIsLeast(value: int, alignment: int)
    requires value >= 0 && alignment > 0
    ensures var r := value % alignment;
            IsLeastMultipleFrom(if r == 0 then value else value + alignment - r, value, alignment)
  {
    var q, r := value / alignment, value % alignment;
    var up := if r == 0 then value else value + alignment - r;
    assert IsMultiple(up, if r == 0 then q else q + 1, alignment) by {
      assert (q + 1) * alignment == q * alignment + alignment;
    }
    forall m | m >= value && Divides(alignment, m)
      ensures up <= m
    {
      var p :| IsMultiple(m, p, alignment);
      MultipleBounds(p - q, alignment);
      assert (p - q) * alignment == m - q * alignment;
      assert value == q * alignment + r;
    }
  }

  /** `align_to` gives the least multiple of the alignment not below the value
      if and only if the distance to it fits above the value. */
  lemma AlignToIsLeastIffItFits(value: U32, alignment: U32)
    requires alignment > 0
    ensures IsLeastMultipleFrom(AlignTo(value, alignment), value, alignment) <==>
            value % alignment == 0 || value + (alignment - value % alignment) < U32_MODULUS
  {
    hide Divides;
    RoundedUpIsLeast(value, alignment);
    var r := value % alignment;
    var up := value + alignment - r;
    AlignToWraps(value, alignment);
  }

  /** Where the rounded number does not fit, the result is smaller than the value. */
  lemma AlignToWraps(value: U32, alignment: U32)
    requires alignment > 0
    ensures var r := value % alignment;
            var up := value + alignment - r;
            AlignTo(value, alignment) == if r == 0 then value else if up < U32_MODULUS then up else up - U32_MODULUS
    ensures var r := value % alignment;
            r != 0 && value + alignment - r >= U32_MODULUS ==> AlignTo(value, alignment) < value
  {
    var r := value % alignment;
    var sum := value + alignment;
    assert sum % U32_MODULUS == if sum < U32_MODULUS then sum else sum - U32_MODULUS;
  }

  /** A row aligned to the least common multiple is the least one not below it that is a multiple of both. */
  lemma AlignToLcmServesBoth(value: U32, a: U32, b: U32)
    requires a > 0 && b > 0 && a * b < U32_MODULUS
    requires var l := LowestCommonDenom(a, b); l > 0 && (value % l == 0 || value + (l - value % l) < U32_MODULUS)
    ensures var r := AlignTo(value, LowestCommonDenom(a, b));
            && r >= value && Divides(a, r) && Divides(b, r)
            && forall m | m >= value && m > 0 && Divides(a, m) && Divides(b, m) :: r <= m
  {
    var l := LowestCommonDenom(a, b);
    LowestCommonDenomIsLcmIffProductFits(a, b);
    AlignToIsLeastIffItFits(value, l);
    var r := AlignTo(value, l);
    DividesIsTransitive(a, l, r);
    DividesIsTransitive(b, l, r);
  }

  lemma DividesIsTransitive(a: int, b: int, c: int)
    requires Divides(a, b) && Divides(b, c)
    ensures Divides(a, c)
  {
    var p :| IsMultiple(b, p, a);
    var q :| IsMultiple(c, q, b);
    assert c == q * (p * a) == (q * p) * a;
    assert IsMultiple(c, q * p, a);
  }
}
