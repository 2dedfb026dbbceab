/**
 Conversion between float32 and bfloat16 bit patterns (shaders/common/metal_types.h), and the
 truncation that `fill_` uses instead (src/core/tensor.cpp). Patterns are unsigned integers, so a
 shift by 16 is a division and 32-bit addition wraps explicitly.
 */
module Bf16 {

  type Bits32 = n: nat | n < 0x1_0000_0000
  type Bits16 = n: nat | n < 0x1_0000

  function Bf16ToFloat(val: Bits16): Bits32 {
    val * 0x1_0000
  }

  function FloatToBf16(bits: Bits32): Bits16 {
    (bits + 0x7FFF + bits / 0x1_0000 % 2) % 0x1_0000_0000 / 0x1_0000
  }

  function TruncateToBf16(bits: Bits32): Bits16 {
    bits / 0x1_0000
  }

  // ---------------------------------------------------------------- what a pattern denotes

  predicate Negative(bits: Bits32) {
    bits >= 0x8000_0000
  }

  function Magnitude(bits: Bits32): nat {
    bits % 0x8000_0000
  }

  predicate IsNaN(bits: Bits32) {
    Magnitude(bits) > 0x7F80_0000
  }

  predicate IsNaN16(val: Bits16) {
    IsNaN(Bf16ToFloat(val))
  }

  function Pow2(n: nat): (r: nat)
    ensures r >= 1
  {
    if n == 0 then 1 else 2 * Pow2(n - 1)
  }

  /** The weight of the last of the 23 fraction bits, in units of 2^-149. */
  function Unit(exponent: nat): (r: nat)
    ensures r >= 1
  {
    if exponent == 0 then 1 else Pow2(exponent - 1)
  }

  /**
   The value of a magnitude in units of 2^-149: subnormal when the exponent field is 0, otherwise
   with the implicit leading bit. The infinite pattern gets 2^128, the value that the next larger
   exponent would denote and that decides overflow when rounding.
   */
  function MagnitudeValue(magnitude: nat): (r: int)
    ensures r >= 0 {
    var exponent, fraction := magnitude / 0x80_0000, magnitude % 0x80_0000;
    (if exponent == 0 then fraction else 0x80_0000 + fraction) * Unit(exponent)
  }

  function Value(bits: Bits32): int {
    if Negative(bits) then -MagnitudeValue(Magnitude(bits)) else MagnitudeValue(Magnitude(bits))
  }

  function Value16(val: Bits16): int {
    Value(Bf16ToFloat(val))
  }

  function Distance(a: int, b: int): nat {
    if a <= b then b - a else a - b
  }

  /**
   `val` is `bits` rounded to the nearest bfloat16: no other is closer, and it is the even one of
   two that are equally close.
   */
  ghost predicate RoundedToNearestEven(bits: Bits32, val: Bits16) {
    && !IsNaN16(val)
    && forall other: Bits16 :: !IsNaN16(other) ==> NoWorse(bits, val, other)
  }

  predicate NoWorse(bits: Bits32, val: Bits16, other: Bits16) {
    var here, there := Distance(Value(bits), Value16(val)), Distance(Value(bits), Value16(other));
    && here <= there
    && (here == there && Value16(val) != Value16(other) ==> val % 2 == 0)
  }

  // ---------------------------------------------------------------- values grow with magnitudes

  lemma Linear(magnitude: nat, d: nat)
    requires magnitude % 0x1_0000 == 0 && d <= 0x1_0000
    ensures MagnitudeValue(magnitude + d)
         == MagnitudeValue(magnitude) + d * Unit(magnitude / 0x80_0000)
  {
    var exponent, fraction := magnitude / 0x80_0000, magnitude % 0x80_0000;
    FieldsAfter(magnitude, d);
    if fraction + d < 0x80_0000 {
      Distribute(if exponent == 0 then fraction else 0x80_0000 + fraction, d, Unit(exponent));
    } else {
      Distribute(if exponent == 0 then fraction else 0x80_0000 + fraction, d, Unit(exponent));
      assert Unit(exponent + 1) == if exponent == 0 then 1 else 2 * Unit(exponent);
    }
  }

  lemma FieldsAfter(magnitude: nat, d: nat)
    requires magnitude % 0x1_0000 == 0 && d <= 0x1_0000
    ensures var exponent, fraction := magnitude / 0x80_0000, magnitude % 0x80_0000;
            && fraction + d <= 0x80_0000
            && (magnitude + d) / 0x80_0000 == (if fraction + d < 0x80_0000 then exponent else exponent + 1)
            && (magnitude + d) % 0x80_0000 == (if fraction + d < 0x80_0000 then fraction + d else 0)
  {
    var exponent, fraction := magnitude / 0x80_0000, magnitude % 0x80_0000;
    assert fraction % 0x1_0000 == 0 && fraction + d <= 0x80_0000;
  }

  /**
   These values are IEEE 754's, in units of 2^-149: the patterns below 2^24 count their last fraction
   bit, each further exponent doubles, and 0x3F80_0000 is 1.0.
   */
  lemma ValuesAreBinary(magnitude: nat)
    ensures magnitude < 0x100_0000 ==> MagnitudeValue(magnitude) == magnitude
    ensures magnitude >= 0x80_0000 ==> MagnitudeValue(magnitude + 0x80_0000) == 2 * MagnitudeValue(magnitude)
    ensures MagnitudeValue(0x3F80_0000) == Pow2(149)
  {
    hide Pow2, MagnitudeValue, Unit;
    if magnitude < 0x100_0000 {
      SmallValue(magnitude);
    }
    if magnitude >= 0x80_0000 {
      NextExponent(magnitude);
    }
    OneAndUp();
    NormalValue(0x3F80_0000, 127, 0);
  }

  lemma SmallValue(magnitude: nat)
    requires magnitude < 0x100_0000
    ensures MagnitudeValue(magnitude) == magnitude
  {
    assert Unit(0) == 1 && Unit(1) == 1;
  }

  lemma NextExponent(magnitude: nat)
    requires magnitude >= 0x80_0000
    ensures MagnitudeValue(magnitude + 0x80_0000) == 2 * MagnitudeValue(magnitude)
  {
    hide MagnitudeValue, Unit;
    var exponent, fraction := magnitude / 0x80_0000, magnitude % 0x80_0000;
    assert (magnitude + 0x80_0000) / 0x80_0000 == exponent + 1 && (magnitude + 0x80_0000) % 0x80_0000 == fraction;
    NormalValue(magnitude, exponent, fraction);
    NormalValue(magnitude + 0x80_0000, exponent + 1, fraction);
    NextUnit(exponent);
    Twice(0x80_0000 + fraction, Unit(exponent));
  }

  lemma NormalValue(magnitude: nat, exponent: nat, fraction: nat)
    requires exponent == magnitude / 0x80_0000 >= 1 && fraction == magnitude % 0x80_0000
    ensures MagnitudeValue(magnitude) == (0x80_0000 + fraction) * Unit(exponent)
  {}

  lemma NextUnit(exponent: nat)
    requires exponent >= 1
    ensures Unit(exponent + 1) == 2 * Unit(exponent)
  {}

  lemma Twice(a: int, b: int)
    ensures a * (2 * b) == 2 * (a * b)
  {}

  lemma {:induction false} Pow2Add(m: nat, n: nat)
    ensures Pow2(m + n) == Pow2(m) * Pow2(n)
  {
    hide Pow2;
    if m == 0 {
      Pow2Zero();
    } else {
      Pow2Add(m - 1, n);
      Pow2Next(m);
      Pow2Next(m + n);
      Doubled(Pow2(m - 1), Pow2(n));
    }
  }

  lemma Pow2Zero()
    ensures Pow2(0) == 1
  {}

  lemma Pow2Next(n: nat)
    requires n > 0
    ensures Pow2(n) == 2 * Pow2(n - 1)
  {}

  lemma Doubled(x: int, y: int)
    ensures 2 * (x * y) == (2 * x) * y
  {}

  /** 2^23 units of 2^-23 make 1.0. */
  lemma OneAndUp()
    ensures 0x80_0000 * Pow2(126) == Pow2(149)
    ensures Unit(127) == Pow2(126)
  {
    assert Pow2(1) == 2 && Pow2(2) == 4 && Pow2(3) == 8 && Pow2(4) == 16 && Pow2(5) == 32;
    Pow2Add(4, 4);
    Pow2Add(8, 8);
    Pow2Add(3, 4);
    Pow2Add(16, 7);
    assert Pow2(23) == 0x80_0000;
    Pow2Add(23, 126);
  }

  lemma Distribute(a: int, b: int, c: int)
    ensures (a + b) * c == a * c + b * c
  {}

  lemma {:induction false} MagnitudeValueGrows(a: nat, b: nat)
    requires a < b
    ensures MagnitudeValue(a) < MagnitudeValue(b)
    decreases b
  {
    if a < b - 1 {
      MagnitudeValueGrows(a, b - 1);
    }
    var base, d := (b - 1) / 0x1_0000 * 0x1_0000, (b - 1) % 0x1_0000;
    Linear(base, d);
    Linear(base, d + 1);
    Distribute(d, 1, Unit(base / 0x80_0000));
  }

  lemma ValueAtZero()
    ensures MagnitudeValue(0) == 0
  {}

  /** Signed values compare as sign and magnitude do. */
  lemma Value16Of(val: Bits16)
    requires !IsNaN16(val)
    ensures var p := val % 0x8000;
            && p <= 0x7F80
            && Value16(val) == if val >= 0x8000 then -MagnitudeValue(p * 0x1_0000) else MagnitudeValue(p * 0x1_0000)
  {
    PatternMagnitude(val);
  }

  // ---------------------------------------------------------------- rounding

  predicate RoundsUp(magnitude: nat) {
    var low := magnitude % 0x1_0000;
    low > 0x8000 || (low == 0x8000 && magnitude / 0x1_0000 % 2 == 1)
  }

  /** The sign bit survives and the upper magnitude bits grow by at most one. */
  lemma SignAndMagnitude(bits: Bits32)
    requires !IsNaN(bits)
    ensures var m := Magnitude(bits);
            FloatToBf16(bits) == (if Negative(bits) then 0x8000 else 0) + m / 0x1_0000 + (if RoundsUp(m) then 1 else 0)
    ensures FloatToBf16(bits) % 0x8000 == Magnitude(bits) / 0x1_0000 + (if RoundsUp(Magnitude(bits)) then 1 else 0)
    ensures FloatToBf16(bits) >= 0x8000 <==> Negative(bits)
    ensures !IsNaN16(FloatToBf16(bits))
  {
    var m, s := Magnitude(bits), if Negative(bits) then 0x8000 else 0;
    RoundedFields(bits);
    PatternMagnitude(FloatToBf16(bits));
  }

  lemma RoundedFields(bits: Bits32)
    ensures var m, s := Magnitude(bits), if Negative(bits) then 0x8000 else 0;
            var rounded := s + m / 0x1_0000 + if RoundsUp(m) then 1 else 0;
            FloatToBf16(bits) == if rounded == 0x1_0000 then 0 else rounded
  {
    var m, s := Magnitude(bits), if Negative(bits) then 0x8000 else 0;
    var q, low := m / 0x1_0000, m % 0x1_0000;
    assert bits == (s + q) * 0x1_0000 + low;
    RoundedSum(s, q, low);
    WrappedQuotient(bits + 0x7FFF + bits / 0x1_0000 % 2);
  }

  lemma WrappedQuotient(sum: nat)
    requires sum < 0x1_0001_0000
    ensures sum % 0x1_0000_0000 / 0x1_0000 == if sum / 0x1_0000 == 0x1_0000 then 0 else sum / 0x1_0000
  {}

  lemma RoundedSum(s: nat, q: nat, low: nat)
    requires s % 2 == 0 && low < 0x1_0000
    ensures var bits := (s + q) * 0x1_0000 + low;
            var up := if low > 0x8000 || (low == 0x8000 && q % 2 == 1) then 1 else 0;
            && bits / 0x1_0000 == s + q
            && (bits + 0x7FFF + bits / 0x1_0000 % 2) / 0x1_0000 == s + q + up
  {
    assert (s + q) % 2 == q % 2;
  }

  lemma PatternMagnitude(val: Bits16)
    ensures Magnitude(Bf16ToFloat(val)) == val % 0x8000 * 0x1_0000
    ensures Negative(Bf16ToFloat(val)) <==> val >= 0x8000
  {}

  /** Rounding between two neighbours that lie `fall` below and `rise` above x. */
  lemma NearerNeighbour(x: int, fall: nat, rise: nat, up: bool, even: bool, w: int)
    requires if fall == rise then up != even else up == (fall > rise)
    requires w <= x - fall || w >= x + rise
    ensures var r := if up then x + rise else x - fall;
            && Distance(x, r) <= Distance(x, w)
            && (Distance(x, r) == Distance(x, w) && r != w ==> up != even)
  {}

  lemma Halves(low: nat, unit: nat)
    requires low < 0x1_0000 && unit >= 1
    ensures (0x1_0000 - low) * unit == 0x1_0000 * unit - low * unit
    ensures low < 0x8000 ==> low * unit < (0x1_0000 - low) * unit
    ensures low == 0x8000 ==> low * unit == (0x1_0000 - low) * unit
    ensures low > 0x8000 ==> low * unit > (0x1_0000 - low) * unit
  {
    Distribute(0x1_0000 - low, low, unit);
    if low < 0x8000 {
      Distribute(low, 0x1_0000 - 2 * low, unit);
    } else if low > 0x8000 {
      Distribute(0x1_0000 - low, 2 * low - 0x1_0000, unit);
    }
  }

  /** No magnitude value lies strictly between those of two neighbouring bfloat16 magnitudes. */
  lemma NothingBetween(q: nat, p: nat)
    ensures p <= q ==> MagnitudeValue(p * 0x1_0000) <= MagnitudeValue(q * 0x1_0000)
    ensures p > q ==> MagnitudeValue(p * 0x1_0000) >= MagnitudeValue((q + 1) * 0x1_0000)
  {
    if p < q {
      MagnitudeValueGrows(p * 0x1_0000, q * 0x1_0000);
    } else if p > q + 1 {
      MagnitudeValueGrows((q + 1) * 0x1_0000, p * 0x1_0000);
    }
  }

  /** Among magnitudes, w being the value of any bfloat16 or the negative of one. */
  lemma MagnitudeRounds(m: nat, w: int, p: nat)
    requires w == MagnitudeValue(p * 0x1_0000) || w == -MagnitudeValue(p * 0x1_0000)
    ensures var h := m / 0x1_0000 + if RoundsUp(m) then 1 else 0;
            var x, r := MagnitudeValue(m), MagnitudeValue(h * 0x1_0000);
            && Distance(x, r) <= Distance(x, w)
            && (Distance(x, r) == Distance(x, w) && r != w ==> h % 2 == 0)
  {
    hide MagnitudeValue, Unit, Distance;
    var q, low := m / 0x1_0000, m % 0x1_0000;
    var unit := Unit(q * 0x1_0000 / 0x80_0000);
    var below, above := MagnitudeValue(q * 0x1_0000), MagnitudeValue((q + 1) * 0x1_0000);
    assert q * 0x1_0000 + low == m && q * 0x1_0000 + 0x1_0000 == (q + 1) * 0x1_0000;
    Linear(q * 0x1_0000, low);
    Linear(q * 0x1_0000, 0x1_0000);
    Halves(low, unit);
    NothingBetween(q, p);
    NothingBetween(q, 0);
    NothingBetween(p, 0);
    ValueAtZero();
    NearerNeighbour(MagnitudeValue(m), low * unit, (0x1_0000 - low) * unit, RoundsUp(m), q % 2 == 0, w);
  }

  lemma NoOtherIsBetter(bits: Bits32, other: Bits16)
    requires !IsNaN(bits) && !IsNaN16(other)
    ensures NoWorse(bits, FloatToBf16(bits), other)
  {
    hide MagnitudeValue, FloatToBf16, IsNaN, RoundsUp;
    var val, m := FloatToBf16(bits), Magnitude(bits);
    SignAndMagnitude(bits);
    var w := if Negative(bits) then -Value16(other) else Value16(other);
    Value16Of(other);
    MagnitudeRounds(m, w, other % 0x8000);
    Mirrored(bits, val, other, w);
  }

  /** Negating all values changes no comparison of distances. */
  lemma Mirrored(bits: Bits32, val: Bits16, other: Bits16, w: int)
    requires !IsNaN16(val) && (Negative(bits) <==> val >= 0x8000)
    requires w == if Negative(bits) then -Value16(other) else Value16(other)
    requires var x, r := MagnitudeValue(Magnitude(bits)), MagnitudeValue(val % 0x8000 * 0x1_0000);
             && Distance(x, r) <= Distance(x, w)
             && (Distance(x, r) == Distance(x, w) && r != w ==> val % 0x8000 % 2 == 0)
    ensures NoWorse(bits, val, other)
  {
    hide MagnitudeValue, IsNaN;
    Value16Of(val);
    assert val % 2 == val % 0x8000 % 2;
  }

  /** Every float32 that is not a NaN becomes the nearest bfloat16, ties to even, with its sign. */
  lemma RoundsToNearestEven(bits: Bits32)
    requires !IsNaN(bits)
    ensures RoundedToNearestEven(bits, FloatToBf16(bits))
    ensures Negative(Bf16ToFloat(FloatToBf16(bits))) <==> Negative(bits)
  {
    hide FloatToBf16, NoWorse;
    SignAndMagnitude(bits);
    PatternMagnitude(FloatToBf16(bits));
    forall other: Bits16 | !IsNaN16(other)
      ensures NoWorse(bits, FloatToBf16(bits), other)
    {
      NoOtherIsBetter(bits, other);
    }
  }

  // ---------------------------------------------------------------- consequences

  /** Between two bfloat16 of different values and even patterns lies a third. */
  lemma OneBetween(a: Bits16, b: Bits16) returns (mid: Bits16)
    requires !IsNaN16(a) && !IsNaN16(b) && a % 2 == 0 && b % 2 == 0
    requires Value16(a) < Value16(b)
    ensures !IsNaN16(mid) && Value16(a) < Value16(mid) < Value16(b)
  {
    hide MagnitudeValue, IsNaN, Value16;
    var p, q := a % 0x8000, b % 0x8000;
    Value16Of(a);
    Value16Of(b);
    NothingBetween(p, 0);
    NothingBetween(q, 0);
    ValueAtZero();
    if a > 0x8000 {
      mid := a - 1;
      IsNumber(mid);
      Value16Of(mid);
      MagnitudeValueGrows((p - 1) * 0x1_0000, p * 0x1_0000);
      if b < 0x8000 {
        MagnitudeValueGrows(0, (p - 1) * 0x1_0000);
      } else {
        NothingBetween(q, p);
        assert q < p && p - 1 > q;
        MagnitudeValueGrows(q * 0x1_0000, (p - 1) * 0x1_0000);
      }
    } else {
      assert MagnitudeValue(p * 0x1_0000) < MagnitudeValue(q * 0x1_0000) && b < 0x8000;
      NothingBetween(p, q);
      assert p < q && p + 1 < q;
      mid := p + 1;
      IsNumber(mid);
      Value16Of(mid);
      MagnitudeValueGrows(p * 0x1_0000, (p + 1) * 0x1_0000);
      MagnitudeValueGrows((p + 1) * 0x1_0000, q * 0x1_0000);
    }
  }

  lemma IsNumber(val: Bits16)
    ensures IsNaN16(val) <==> val % 0x8000 > 0x7F80
  {
    PatternMagnitude(val);
  }

  lemma BothNearest(bits: Bits32, a: Bits16, b: Bits16) returns (mid: Bits16)
    requires !IsNaN16(a) && !IsNaN16(b) && Value16(a) < Value16(b)
    requires NoWorse(bits, a, b) && NoWorse(bits, b, a)
    ensures !IsNaN16(mid) && !NoWorse(bits, a, mid)
  {
    hide Value, Value16, IsNaN16;
    mid := OneBetween(a, b);
  }

  /** Rounding to nearest even leaves no choice of value. */
  lemma NearestEvenIsUnique(bits: Bits32, a: Bits16, b: Bits16)
    requires RoundedToNearestEven(bits, a) && RoundedToNearestEven(bits, b)
    ensures Value16(a) == Value16(b)
  {
    hide NoWorse, Value16, IsNaN16;
    if Value16(a) < Value16(b) {
      var mid := BothNearest(bits, a, b);
    } else if Value16(b) < Value16(a) {
      var mid := BothNearest(bits, b, a);
    }
  }

  /** Rounding never exchanges the order of two values. */
  lemma RoundingIsMonotone(a: Bits32, b: Bits32)
    requires !IsNaN(a) && !IsNaN(b) && Value(a) <= Value(b)
    ensures Value16(FloatToBf16(a)) <= Value16(FloatToBf16(b))
  {
    hide MagnitudeValue, IsNaN, FloatToBf16, Value16, RoundsUp;
    var g, h := FloatToBf16(a), FloatToBf16(b);
    SignAndMagnitude(a);
    SignAndMagnitude(b);
    Value16Of(g);
    Value16Of(h);
    ValueAtZero();
    NothingBetween(g % 0x8000, 0);
    NothingBetween(h % 0x8000, 0);
    if Negative(a) && !Negative(b) {
    } else if !Negative(a) && !Negative(b) {
      RoundedOrder(Magnitude(a), Magnitude(b));
    } else if Negative(a) && Negative(b) {
      RoundedOrder(Magnitude(b), Magnitude(a));
    } else {
      RoundedOrder(Magnitude(a), 0);
      RoundedOrder(Magnitude(b), 0);
      assert RoundsUp(0) == false by { ZeroStays(); }
    }
  }

  lemma ZeroStays()
    ensures !RoundsUp(0)
  {}

  lemma RoundedOrder(m: nat, n: nat)
    requires MagnitudeValue(m) <= MagnitudeValue(n)
    ensures var g := m / 0x1_0000 + if RoundsUp(m) then 1 else 0;
            var h := n / 0x1_0000 + if RoundsUp(n) then 1 else 0;
            g <= h && MagnitudeValue(g * 0x1_0000) <= MagnitudeValue(h * 0x1_0000)
  {
    hide MagnitudeValue;
    if m > n {
      MagnitudeValueGrows(n, m);
    }
    var g := m / 0x1_0000 + if RoundsUp(m) then 1 else 0;
    var h := n / 0x1_0000 + if RoundsUp(n) then 1 else 0;
    assert g <= h;
    NothingBetween(h, g);
  }

  /** Widening loses nothing, for every pattern including the NaNs. */
  lemma NarrowingUndoesWidening(val: Bits16)
    ensures FloatToBf16(Bf16ToFloat(val)) == val
  {}

  /** Narrowing is undone by widening exactly when the lower half of the pattern is clear. */
  lemma WideningUndoesNarrowingIff(bits: Bits32)
    ensures Bf16ToFloat(FloatToBf16(bits)) == bits <==> bits % 0x1_0000 == 0
  {
    hide FloatToBf16;
    LowHalfClear(FloatToBf16(bits));
    if bits % 0x1_0000 == 0 {
      NarrowingUndoesWidening(bits / 0x1_0000);
    }
  }

  lemma LowHalfClear(val: Bits16)
    ensures Bf16ToFloat(val) % 0x1_0000 == 0
  {}

  /**
   A NaN stays a NaN exactly when its magnitude lies strictly between 0x7F80_8000 and 0x7FFF_8000:
   below, it rounds down to infinity; above, the carry runs into the sign bit and leaves a zero.
   */
  lemma NaNSurvivesIff(bits: Bits32)
    requires IsNaN(bits)
    ensures IsNaN16(FloatToBf16(bits)) <==> 0x7F80_8000 < Magnitude(bits) < 0x7FFF_8000
    ensures Magnitude(bits) <= 0x7F80_8000 ==> FloatToBf16(bits) % 0x8000 == 0x7F80
    ensures Magnitude(bits) >= 0x7FFF_8000 ==> FloatToBf16(bits) % 0x8000 == 0
  {
    hide FloatToBf16, IsNaN16;
    RoundedFields(bits);
    IsNumber(FloatToBf16(bits));
  }

  /** Three NaN patterns that narrow to infinity, to negative zero and, wrapping around, to zero. */
  lemma NaNLost()
    ensures IsNaN(0x7F80_0001) && FloatToBf16(0x7F80_0001) == 0x7F80
    ensures IsNaN(0x7FFF_FFFF) && FloatToBf16(0x7FFF_FFFF) == 0x8000
    ensures IsNaN(0xFFFF_FFFF) && FloatToBf16(0xFFFF_FFFF) == 0
  {}

  // ---------------------------------------------------------------- truncation in fill_

  /** Truncation rounds toward zero: it gives the largest magnitude that is not too large. */
  lemma TruncatesTowardZero(bits: Bits32, other: Bits16)
    requires !IsNaN(bits) && !IsNaN16(other)
    ensures !IsNaN16(TruncateToBf16(bits))
    ensures Negative(Bf16ToFloat(TruncateToBf16(bits))) <==> Negative(bits)
    ensures var x, r, w := Distance(Value(bits), 0), Distance(Value16(TruncateToBf16(bits)), 0), Distance(Value16(other), 0);
            r <= x && (w <= x ==> w <= r)
  {
    hide MagnitudeValue;
    var val, m := TruncateToBf16(bits), Magnitude(bits);
    var q := m / 0x1_0000;
    TruncatedMagnitude(bits);
    IsNumber(val);
    Value16Of(val);
    Value16Of(other);
    ValueAtZero();
    NothingBetween(q, 0);
    NothingBetween(other % 0x8000, 0);
    NothingBetween(q, other % 0x8000);
    MagnitudeValueGrows(m, (q + 1) * 0x1_0000);
    if q * 0x1_0000 < m {
      MagnitudeValueGrows(q * 0x1_0000, m);
    }
  }

  lemma TruncatedMagnitude(bits: Bits32)
    ensures TruncateToBf16(bits) % 0x8000 == Magnitude(bits) / 0x1_0000
    ensures TruncateToBf16(bits) >= 0x8000 <==> Negative(bits)
  {}

  /** The two narrowings agree exactly on the patterns, NaNs included, that rounding does not raise. */
  lemma TruncationAgreesIff(bits: Bits32)
    ensures TruncateToBf16(bits) == FloatToBf16(bits) <==> !RoundsUp(Magnitude(bits))
  {
    hide FloatToBf16, RoundsUp;
    RoundedFields(bits);
    TruncatedMagnitude(bits);
  }
}
