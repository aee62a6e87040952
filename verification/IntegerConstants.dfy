/** Constants of integer types as 64-bit words: conversion, narrowing, and the conversions emitted
    for values that are not constant. */
module IntegerConstants {
  import opened Arithmetic
  import opened Ssa
  import Expressions

  /** An integer type other than bool, of 1 to 64 bits. */
  datatype Integer = Integer(signed: bool, width: nat)
  {
    predicate Valid() {
      1 <= width <= 64
    }

    function Least(): int {
      if signed then -Power(width - 1) else 0
    }

    function Greatest(): int {
      (if signed then Power(width - 1) else Power(width)) - 1
    }

    predicate Holds(x: int) {
      Least() <= x <= Greatest()
    }
  }

  function Power(n: int): (p: int)
    ensures p > 0
  {
    if n <= 0 then 1 else 2 * Power(n - 1)
  }

  /** The types in numbers. */
  lemma TypesHold(x: int)
    ensures Integer(false, 8).Holds(x) <==> 0 <= x <= 255
    ensures Integer(true, 8).Holds(x) <==> -128 <= x <= 127
    ensures Integer(false, 32).Holds(x) <==> 0 <= x <= 0xFFFF_FFFF
    ensures Integer(true, 32).Holds(x) <==> -0x8000_0000 <= x <= 0x7FFF_FFFF
    ensures Integer(false, 64).Holds(x) <==> 0 <= x <= 0xFFFF_FFFF_FFFF_FFFF
    ensures Integer(true, 64).Holds(x) <==> -0x8000_0000_0000_0000 <= x <= 0x7FFF_FFFF_FFFF_FFFF
  {
    assert Power(15) == 0x8000 && Power(16) == 0x1_0000;
    PowerSplits(15, 16);
    PowerSplits(16, 16);
    PowerSplits(31, 32);
    PowerSplits(32, 32);
  }

  const WORD: int := Power(64)

  /** The value that the low bits of a word have at a type. */
  function ValueAt(word: int, t: Integer): int {
    var low := word % Power(t.width);
    if t.signed && low >= Power(t.width - 1) then low - Power(t.width) else low
  }

  // ----- arithmetic -----

  lemma {:induction false} PowerSplits(a: nat, b: nat)
    ensures Power(a + b) == Power(a) * Power(b)
    decreases a
  {
    if a > 0 {
      PowerSplits(a - 1, b);
      assert Power(a + b) == 2 * (Power(a - 1) * Power(b));
    }
  }

  lemma PowerGrows(a: nat, b: nat)
    requires a <= b
    ensures Power(a) <= Power(b)
  {
    PowerSplits(a, b - a);
    assert Power(a) * 1 <= Power(a) * Power(b - a);
  }

  lemma ProductOfThree(a: int, b: int, c: int)
    ensures a * b * c == a * (b * c)
  {
  }

  /** Fewer low bits of low bits are low bits. */
  lemma LowOfLow(x: int, a: nat, b: nat)
    requires a <= b
    ensures (x % Power(b)) % Power(a) == x % Power(a)
  {
    PowerSplits(a, b - a);
    var q := x / Power(b);
    ProductOfThree(Power(a), Power(b - a), -q);
    DivisionSplits(x, Power(b));
    ModOfMultiple(x, Power(a), Power(b - a) * -q);
  }

  lemma DivisionSplits(x: int, m: int)
    requires m > 0
    ensures x % m == x + m * -(x / m)
  {
  }

  lemma SignedHalf(t: Integer)
    requires t.Valid()
    ensures Power(t.width) == 2 * Power(t.width - 1)
  {
  }

  /** The value at a type is held by the type, and has the same low bits. */
  lemma ValueIsHeld(word: int, t: Integer)
    requires t.Valid()
    ensures t.Holds(ValueAt(word, t)) && ValueAt(word, t) % Power(t.width) == word % Power(t.width)
  {
    SignedHalf(t);
    var low := word % Power(t.width);
    ModUnique(low, Power(t.width), 0, low);
    ModUnique(low - Power(t.width), Power(t.width), -1, low);
  }

  /** A value held by a type is read back from its low bits. */
  lemma HeldReadsBack(x: int, t: Integer)
    requires t.Valid()
    ensures ValueAt(x % Power(t.width), t) == x <==> t.Holds(x)
  {
    SignedHalf(t);
    ValueIsHeld(x, t);
    LowOfLow(x, t.width, t.width);
    if t.Holds(x) {
      if x >= 0 {
        ModUnique(x, Power(t.width), 0, x);
      } else {
        ModUnique(x, Power(t.width), -1, x + Power(t.width));
      }
    }
  }

  // ----- converting constants -----

  /** The value is masked, the upper bits of a negative one are set, and it is masked again. */
  function ConvertConstant(value: int, source: Integer, target: Integer): int
    requires source.Valid() && target.Valid()
  {
    var extended :=
      if source.width < 64 then
        var masked := value % Power(source.width);
        if source.signed && (masked / Power(source.width - 1)) % 2 == 1 then masked + (WORD - Power(source.width))
        else masked
      else value;
    if target.width < 64 then extended % Power(target.width) else extended
  }

  lemma TopBit(masked: int, t: Integer)
    requires t.Valid() && 0 <= masked < Power(t.width)
    ensures (masked / Power(t.width - 1)) % 2 == 1 <==> masked >= Power(t.width - 1)
  {
    var half := Power(t.width - 1);
    SignedHalf(t);
    if masked >= half {
      QuotientIs(masked, half, 1);
    } else {
      QuotientIs(masked, half, 0);
    }
  }

  lemma QuotientIs(x: int, m: int, q: int)
    requires m > 0 && m * q <= x < m * q + m
    ensures x / m == q
  {
    ModUnique(x, m, q, x - m * q);
  }

  /** The extended word is the value modulo 2^64. */
  lemma ExtendedWord(value: int, source: Integer)
    requires source.Valid() && 0 <= value < WORD
    ensures var masked := value % Power(source.width);
            var extended := if source.width < 64 then
                              if source.signed && (masked / Power(source.width - 1)) % 2 == 1
                              then masked + (WORD - Power(source.width)) else masked
                            else value;
            0 <= extended < WORD && extended == ValueAt(value, source) % WORD
  {
    var masked := value % Power(source.width);
    PowerGrows(source.width, 64);
    SignedHalf(source);
    if source.width < 64 {
      TopBit(masked, source);
      if source.signed && masked >= Power(source.width - 1) {
        ModUnique(masked - Power(source.width), WORD, -1, masked - Power(source.width) + WORD);
      } else {
        ModUnique(masked, WORD, 0, masked);
      }
    } else {
      ModUnique(value, WORD, 0, value);
      ValueIsHeld(value, source);
    }
  }

  /** Converting a constant gives the low bits of its mathematical value, at every width and sign. */
  lemma ConvertedIsValue(value: int, source: Integer, target: Integer)
    requires source.Valid() && target.Valid() && 0 <= value < WORD
    ensures ConvertConstant(value, source, target) == ValueAt(value, source) % Power(target.width)
  {
    ExtendedWord(value, source);
    LowOfLow(ValueAt(value, source), target.width, 64);
  }

  // ----- narrowing -----

  /** The range test on a constant, branch by branch. */
  predicate NarrowingConstant(raw: int, source: Integer, target: Integer)
    requires source.Valid() && target.Valid()
  {
    var extended :=
      if source.signed && source.width < 64 then
        var masked := raw % Power(source.width);
        if (masked / Power(source.width - 1)) % 2 == 1 then masked + (WORD - Power(source.width)) else masked
      else raw;
    var signedValue := if extended >= Power(63) then extended - WORD else extended;
    if target.signed then
      if source.signed then signedValue < -Power(target.width - 1) || signedValue > Power(target.width - 1) - 1
      else raw > Power(target.width - 1) - 1
    else if source.signed then signedValue < 0 || signedValue > Power(target.width) - 1
    else raw > Power(target.width) - 1
  }

  /** The test on a value that is not constant. */
  predicate NarrowingType(source: Integer, target: Integer) {
    if source.signed then !target.signed || target.width < source.width
    else if target.signed then target.width <= source.width
    else target.width < source.width
  }

  lemma SignedConstant(raw: int, source: Integer)
    requires source.Valid() && source.signed && 0 <= raw < WORD
    ensures var masked := raw % Power(source.width);
            var extended := if source.width < 64 then
                              if (masked / Power(source.width - 1)) % 2 == 1 then masked + (WORD - Power(source.width))
                              else masked
                            else raw;
            (if extended >= Power(63) then extended - WORD else extended) == ValueAt(raw, source)
  {
    ExtendedWord(raw, source);
    ValueIsHeld(raw, source);
    PowerGrows(source.width - 1, 63);
    var x := ValueAt(raw, source);
    if x >= 0 {
      ModUnique(x, WORD, 0, x);
    } else {
      ModUnique(x, WORD, -1, x + WORD);
    }
  }

  /** On a constant that fits its type, the test finds narrowing exactly when the target does not
      hold the value. */
  lemma NarrowingConstantExact(raw: int, source: Integer, target: Integer)
    requires source.Valid() && target.Valid() && 0 <= raw < WORD && (!source.signed ==> raw < Power(source.width))
    ensures NarrowingConstant(raw, source, target) <==> !target.Holds(ValueAt(raw, source))
  {
    if source.signed {
      SignedConstant(raw, source);
    } else {
      ModUnique(raw, Power(source.width), 0, raw);
    }
  }

  /** Narrowing is exactly what conversion does not survive. */
  lemma NarrowingLosesValue(raw: int, source: Integer, target: Integer)
    requires source.Valid() && target.Valid() && 0 <= raw < WORD && (!source.signed ==> raw < Power(source.width))
    ensures NarrowingConstant(raw, source, target)
       <==> ValueAt(ConvertConstant(raw, source, target), target) != ValueAt(raw, source)
  {
    NarrowingConstantExact(raw, source, target);
    ConvertedIsValue(raw, source, target);
    HeldReadsBack(ValueAt(raw, source), target);
  }

  ghost predicate SomeValueIsLost(source: Integer, target: Integer) {
    exists raw :: 0 <= raw < Power(source.width) && !target.Holds(ValueAt(raw, source))
  }

  lemma LostAt(source: Integer, target: Integer, x: int)
    requires source.Valid() && source.Holds(x) && !target.Holds(x)
    ensures SomeValueIsLost(source, target)
  {
    HeldReadsBack(x, source);
    var raw := x % Power(source.width);
    assert 0 <= raw < Power(source.width) && !target.Holds(ValueAt(raw, source));
  }

  lemma StrictPower(a: nat, b: nat)
    requires a < b
    ensures Power(a) < Power(b)
  {
    PowerGrows(a + 1, b);
  }

  /** On a value that is not constant, the test finds narrowing exactly when some value of the source
      type is not held by the target type. */
  lemma NarrowingTypeExact(source: Integer, target: Integer)
    requires source.Valid() && target.Valid()
    ensures NarrowingType(source, target) <==> SomeValueIsLost(source, target)
  {
    SignedHalf(source);
    SignedHalf(target);
    if NarrowingType(source, target) {
      if source.signed && !target.signed {
        LostAt(source, target, -1);
      } else if source.signed {
        StrictPower(target.width - 1, source.width - 1);
        LostAt(source, target, source.Greatest());
      } else if target.signed {
        PowerGrows(target.width, source.width);
        LostAt(source, target, source.Greatest());
      } else {
        StrictPower(target.width, source.width);
        LostAt(source, target, source.Greatest());
      }
    } else {
      NothingIsLost(source, target);
    }
  }

  lemma NothingIsLost(source: Integer, target: Integer)
    requires source.Valid() && target.Valid() && !NarrowingType(source, target)
    ensures !SomeValueIsLost(source, target)
  {
    forall raw | 0 <= raw < Power(source.width)
      ensures target.Holds(ValueAt(raw, source))
    {
      ValueIsHeld(raw, source);
      if source.signed {
        PowerGrows(source.width - 1, target.width - 1);
      } else if target.signed {
        PowerGrows(source.width, target.width - 1);
      } else {
        PowerGrows(source.width, target.width);
      }
    }
  }

  // ----- emitted conversions -----

  /** What an emitted conversion makes of the low bits of a value. */
  function Converted(c: Conversion, bits: int, source: Integer, target: Integer): int
    requires source.Valid() && target.Valid()
  {
    match c
    case ToReinterpret => bits % Power(target.width)
    case ToTruncate => bits % Power(target.width)
    case ToZeroExtension => bits % Power(source.width)
    case ToZeroExtendAndReinterpret => bits % Power(source.width)
    case ToSignExtension => ValueAt(bits, Integer(true, source.width)) % Power(target.width)
    case ToSignExtendAndReinterpret => ValueAt(bits, Integer(true, source.width)) % Power(target.width)
  }

  function Chosen(source: Integer, target: Integer): Conversion {
    Expressions.ConversionBetween(Expressions.Integral(source.signed, source.width),
                                  Expressions.Integral(target.signed, target.width))
  }

  /** What each conversion is for: the width it leaves, narrows or widens, and the signs on either side. */
  predicate Suits(c: Conversion, source: Integer, target: Integer) {
    match c
    case ToReinterpret => source.width == target.width
    case ToTruncate => target.width < source.width
    case ToSignExtension => source.width < target.width && source.signed && target.signed
    case ToZeroExtension => source.width < target.width && !source.signed && !target.signed
    case ToSignExtendAndReinterpret => source.width < target.width && !source.signed && target.signed
    case ToZeroExtendAndReinterpret => source.width < target.width && source.signed && !target.signed
  }

  /** Just the one that suits is chosen. */
  lemma ChosenSuits(c: Conversion, source: Integer, target: Integer)
    ensures c == Chosen(source, target) <==> Suits(c, source, target)
  {
  }

  /** The emitted conversion gives the low bits of the value. */
  ghost predicate ConvertsExactly(source: Integer, target: Integer)
    requires source.Valid() && target.Valid()
  {
    forall bits :: 0 <= bits < Power(source.width) ==>
      Converted(Chosen(source, target), bits, source, target) == ValueAt(bits, source) % Power(target.width)
  }

  lemma SameSignConverts(bits: int, source: Integer, target: Integer)
    requires source.Valid() && target.Valid() && 0 <= bits < Power(source.width)
    requires source.signed == target.signed || target.width <= source.width
    ensures Converted(Chosen(source, target), bits, source, target) == ValueAt(bits, source) % Power(target.width)
  {
    ValueIsHeld(bits, source);
    if target.width <= source.width {
      LowOfLow(bits, target.width, source.width);
      LowOfLow(ValueAt(bits, source), target.width, source.width);
    } else if !source.signed {
      PowerGrows(source.width, target.width);
      ModUnique(bits, Power(source.width), 0, bits);
      ModUnique(bits, Power(target.width), 0, bits);
    }
  }

  /** A widening from unsigned to signed takes the top bit for a sign; one from signed to unsigned
      loses the sign. */
  lemma MixedWideningFails(source: Integer, target: Integer)
    requires source.Valid() && target.Valid() && source.signed != target.signed && target.width > source.width
    ensures !ConvertsExactly(source, target)
  {
    var bits := Power(source.width) - 1;
    SignedHalf(source);
    StrictPower(source.width, target.width);
    ModUnique(bits, Power(source.width), 0, bits);
    ModUnique(-1, Power(target.width), -1, Power(target.width) - 1);
    ModUnique(bits, Power(target.width), 0, bits);
    assert Converted(Chosen(source, target), bits, source, target) != ValueAt(bits, source) % Power(target.width);
  }

  /** The emitted conversions are right if and only if they do not widen across signs. */
  lemma ConvertsUnlessMixedWidening(source: Integer, target: Integer)
    requires source.Valid() && target.Valid()
    ensures ConvertsExactly(source, target) <==> source.signed == target.signed || target.width <= source.width
  {
    if source.signed == target.signed || target.width <= source.width {
      forall bits | 0 <= bits < Power(source.width)
        ensures Converted(Chosen(source, target), bits, source, target) == ValueAt(bits, source) % Power(target.width)
      {
        SameSignConverts(bits, source, target);
      }
    } else {
      MixedWideningFails(source, target);
    }
  }

  // ----- pointer offsets -----

  const PTRDIFF := Integer(true, 64)

  /** A constant index, scaled while parsing. */
  function FoldedOffset(index: int, source: Integer, elementSize: int): int
    requires source.Valid()
  {
    ConvertConstant(index, source, PTRDIFF) * elementSize % WORD
  }

  /** Any other index, converted and multiplied by emitted code. */
  function ComputedOffset(bits: int, source: Integer, elementSize: int): int
    requires source.Valid()
  {
    Converted(Chosen(source, PTRDIFF), bits, source, PTRDIFF) * elementSize % WORD
  }

  lemma ProductOfLow(x: int, k: int)
    ensures (x % WORD) * k % WORD == x * k % WORD
  {
    var q := x / WORD;
    assert x == WORD * q + x % WORD;
    assert x * k == WORD * (q * k) + (x % WORD) * k by {
      ProductOfThree(WORD, q, k);
      SumTimes(WORD * q, x % WORD, k);
    }
    ModOfMultiple((x % WORD) * k, WORD, q * k);
  }

  lemma SumTimes(a: int, b: int, k: int)
    ensures (a + b) * k == a * k + b * k
  {
  }

  /** The folded offset is the mathematical index times the element size, modulo 2^64. */
  lemma FoldedIsExact(index: int, source: Integer, elementSize: int)
    requires source.Valid() && 0 <= index < WORD
    ensures FoldedOffset(index, source, elementSize) == ValueAt(index, source) * elementSize % WORD
  {
    ConvertedIsValue(index, source, PTRDIFF);
    ProductOfLow(ValueAt(index, source), elementSize);
  }

  lemma MultipleFromRemainder(x: int, y: int, m: int, a: int, b: int, r: int)
    requires m > 0 && x == m * a + r && x - y == m * b + r
    ensures y % m == 0
  {
    Distribute(m, a, b);
    ModUnique(y, m, a - b, 0);
  }

  lemma SameRemainder(x: int, y: int, m: int)
    requires m > 0
    ensures (x - y) % m == x % m <==> y % m == 0
  {
    if y % m == 0 {
      ModOfMultiple(x, m, -(y / m));
    } else if (x - y) % m == x % m {
      MultipleFromRemainder(x, y, m, x / m, (x - y) / m, x % m);
    }
  }

  /** An unsigned index whose top bit is taken for a sign is too small by the range of its type. */
  lemma MistakenIndex(index: int, source: Integer)
    requires source.Valid() && !source.signed && source.width < 64 && Power(source.width - 1) <= index < Power(source.width)
    ensures Converted(Chosen(source, PTRDIFF), index, source, PTRDIFF) == (index - Power(source.width)) % WORD
    ensures ValueAt(index, source) == index
  {
    ModUnique(index, Power(source.width), 0, index);
  }

  lemma SmallIndex(index: int, source: Integer)
    requires source.Valid() && !source.signed && source.width < 64 && 0 <= index < Power(source.width - 1)
    ensures Converted(Chosen(source, PTRDIFF), index, source, PTRDIFF) == index % WORD
    ensures ValueAt(index, source) == index
  {
    SignedHalf(source);
    ModUnique(index, Power(source.width), 0, index);
  }

  lemma ComputedIs(x: int, index: int, source: Integer, elementSize: int)
    requires source.Valid() && Converted(Chosen(source, PTRDIFF), index, source, PTRDIFF) == x % WORD
    ensures ComputedOffset(index, source, elementSize) == x * elementSize % WORD
  {
    hide Converted, Chosen, Power;
    ProductOfLow(x, elementSize);
  }

  lemma RangeTooSmall(index: int, range: int, elementSize: int)
    ensures (index - range) * elementSize % WORD == index * elementSize % WORD <==> range * elementSize % WORD == 0
  {
    hide Power;
    Distribute(elementSize, index, range);
    SameRemainder(index * elementSize, range * elementSize, WORD);
  }

  /** Folding and emitted code agree exactly if the index is signed, fills a word, leaves the top bit of its
      type clear, or is scaled so far that the range of its type is lost. */
  lemma FoldedIsComputed(index: int, source: Integer, elementSize: int)
    requires source.Valid() && 0 <= index < Power(source.width)
    ensures FoldedOffset(index, source, elementSize) == ComputedOffset(index, source, elementSize)
       <==> source.signed || source.width == 64 || index < Power(source.width - 1)
            || Power(source.width) * elementSize % WORD == 0
  {
    hide Converted, Chosen, ValueAt, FoldedOffset, ComputedOffset, Power;
    PowerGrows(source.width, 64);
    FoldedIsExact(index, source, elementSize);
    if source.signed || source.width == 64 {
      SameSignConverts(index, source, PTRDIFF);
      ComputedIs(ValueAt(index, source), index, source, elementSize);
    } else if index < Power(source.width - 1) {
      SmallIndex(index, source);
      ComputedIs(index, index, source, elementSize);
    } else {
      MistakenIndex(index, source);
      ComputedIs(index - Power(source.width), index, source, elementSize);
      RangeTooSmall(index, Power(source.width), elementSize);
    }
  }

  /** C++ division, towards zero. */
  function Quotient(a: int, b: int): int
    requires b != 0
  {
    if (a >= 0) == (b > 0) then (if a >= 0 then a else -a) / (if b > 0 then b else -b)
    else -((if a >= 0 then a else -a) / (if b > 0 then b else -b))
  }

  /** What is left over is smaller than the divisor, and has the sign of the dividend. */
  lemma QuotientTowardsZero(a: int, b: int)
    requires b != 0
    ensures var left := a - b * Quotient(a, b);
            (a >= 0 ==> 0 <= left < if b > 0 then b else -b) && (a <= 0 ==> (if b > 0 then -b else b) < left <= 0)
  {
    var x, y := if a >= 0 then a else -a, if b > 0 then b else -b;
    var q := x / y;
    assert x == y * q + x % y;
    if b > 0 {
      assert b * -q == -(b * q);
    } else {
      assert b * q == -(y * q) && b * -q == y * q;
    }
  }

  function PointerPlus(pointer: int, offset: int): int {
    (pointer + offset) % WORD
  }

  /** The difference of two pointers as words, read as signed, divided by the element size. */
  function PointerMinus(left: int, right: int, elementSize: int): int
    requires elementSize > 0
  {
    Quotient(ValueAt((left - right) % WORD, PTRDIFF), elementSize)
  }

  lemma ExactQuotient(n: int, size: int)
    requires size > 0
    ensures Quotient(n * size, size) == n
  {
    if n >= 0 {
      assert n * size >= 0 by { Nonnegative(n, size); }
      ModUnique(n * size, size, n, 0);
    } else {
      assert -n * size > 0 by { MultipleAtLeast(size, -n); }
      assert -(n * size) == -n * size;
      ModUnique(-n * size, size, -n, 0);
    }
  }

  lemma {:induction false} Nonnegative(a: int, b: int)
    requires a >= 0 && b > 0
    ensures a * b >= 0
    decreases a
  {
    if a > 0 {
      Nonnegative(a - 1, b);
      assert a * b == (a - 1) * b + b;
    }
  }

  lemma DifferenceOfSum(p: int, x: int)
    ensures ((p + x) % WORD - p) % WORD == x % WORD
  {
    var q := (p + x) / WORD;
    assert (p + x) % WORD - p == x + WORD * -q;
    ModOfMultiple(x, WORD, -q);
  }

  /** Less than `n` elements make a smaller quotient. */
  lemma SmallerQuotient(v: int, n: int, size: int)
    requires size > 0 && n > 0 && v < n * size
    ensures Quotient(v, size) < n
  {
    if v >= 0 && v / size >= n {
      assert size * (v / size - n) >= 0 by { Nonnegative(v / size - n, size); }
      Distribute(size, v / size, n);
    }
  }

  lemma QuotientOfNegated(v: int, size: int)
    requires size > 0
    ensures Quotient(-v, size) == -Quotient(v, size)
  {
  }

  /** A pointer moved by `n` elements and back: the difference is `n` if and only if the scaled
      offset fits in a signed word. */
  lemma PointerDifference(pointer: int, n: int, elementSize: int)
    requires elementSize > 0 && 0 <= pointer < WORD
    ensures PTRDIFF.Holds(n * elementSize)
       <==> PointerMinus(PointerPlus(pointer, n * elementSize % WORD), pointer, elementSize) == n
  {
    var scaled := n * elementSize;
    DifferenceOfSum(pointer, scaled % WORD);
    LowOfLow(scaled, 64, 64);
    HeldReadsBack(scaled, PTRDIFF);
    var v := ValueAt(scaled % WORD, PTRDIFF);
    assert PointerMinus(PointerPlus(pointer, scaled % WORD), pointer, elementSize) == Quotient(v, elementSize);
    if PTRDIFF.Holds(scaled) {
      ExactQuotient(n, elementSize);
    } else {
      OverflowShows(n, elementSize, scaled);
    }
  }

  lemma ProductSign(n: int, elementSize: int)
    requires elementSize > 0
    ensures n * elementSize > 0 ==> n > 0
    ensures n * elementSize < 0 ==> n < 0
  {
    if n >= 0 {
      Nonnegative(n, elementSize);
    } else {
      Nonnegative(-n, elementSize);
    }
  }

  lemma OverflowShows(n: int, elementSize: int, scaled: int)
    requires elementSize > 0 && scaled == n * elementSize && !PTRDIFF.Holds(scaled)
    ensures Quotient(ValueAt(scaled % WORD, PTRDIFF), elementSize) != n
  {
    var v := ValueAt(scaled % WORD, PTRDIFF);
    ValueIsHeld(scaled % WORD, PTRDIFF);
    ProductSign(n, elementSize);
    if scaled >= 0 {
      SmallerQuotient(v, n, elementSize);
    } else {
      assert -v < -n * elementSize;
      SmallerQuotient(-v, -n, elementSize);
      QuotientOfNegated(v, elementSize);
    }
  }
}
