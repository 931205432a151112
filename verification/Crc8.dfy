/** The check byte of the Si7006 sensor: division of a 24-bit row by
    x^8 + x^5 + x^4 + 1 over GF(2). */
module Crc8 {
  import opened Arithmetic
  import opened Gf2

  /** x^8 + x^5 + x^4 + 1. */
  const POLYNOMIAL: nat := 0x131

  /** q times x^8 + x^5 + x^4 + 1. */
  function Times(q: nat): nat {
    Xor(Xor(256 * q, 32 * q), Xor(16 * q, q))
  }

  ghost predicate Divisible(row: nat) {
    exists q: nat :: row == Times(q)
  }

  /** The value and its check byte, in one row. */
  function Row(value: nat, crc: nat): nat {
    256 * value + crc
  }

  lemma XorScale4(a: nat, b: nat)
    ensures Xor(4 * a, 4 * b) == 4 * Xor(a, b)
  {
    XorDouble(a, b);
    XorDouble(2 * a, 2 * b);
  }

  lemma XorScale16(a: nat, b: nat)
    ensures Xor(16 * a, 16 * b) == 16 * Xor(a, b)
  {
    XorScale4(a, b);
    XorScale4(4 * a, 4 * b);
  }

  lemma XorScale(a: nat, b: nat)
    ensures Xor(16 * a, 16 * b) == 16 * Xor(a, b)
    ensures Xor(32 * a, 32 * b) == 32 * Xor(a, b)
    ensures Xor(256 * a, 256 * b) == 256 * Xor(a, b)
  {
    XorScale16(a, b);
    assert 32 * a == 2 * (16 * a) && 32 * b == 2 * (16 * b);
    XorDouble(16 * a, 16 * b);
    assert 256 * a == 16 * (16 * a) && 256 * b == 16 * (16 * b);
    XorScale16(16 * a, 16 * b);
  }

  lemma TimesLinear(a: nat, b: nat)
    ensures Times(Xor(a, b)) == Xor(Times(a), Times(b))
  {
    XorScale(a, b);
    XorSwap(256 * a, 256 * b, 32 * a, 32 * b);
    XorSwap(16 * a, 16 * b, a, b);
    XorSwap(Xor(256 * a, 32 * a), Xor(256 * b, 32 * b), Xor(16 * a, a), Xor(16 * b, b));
  }

  lemma DoubleNest(a: nat, b: nat, c: nat, d: nat)
    ensures Xor(Xor(2 * a, 2 * b), Xor(2 * c, 2 * d)) == 2 * Xor(Xor(a, b), Xor(c, d))
  {
    XorDouble(a, b);
    XorDouble(c, d);
    XorDouble(Xor(a, b), Xor(c, d));
  }

  lemma TimesDouble(q: nat)
    ensures Times(2 * q) == 2 * Times(q)
  {
    DoubleNest(256 * q, 32 * q, 16 * q, q);
    assert 256 * (2 * q) == 2 * (256 * q) && 32 * (2 * q) == 2 * (32 * q) && 16 * (2 * q) == 2 * (16 * q);
  }

  lemma PairsOfBit(low: nat)
    requires low < 2
    ensures Xor(256 * low, 32 * low) == 288 * low && Xor(16 * low, low) == 17 * low
  {
    Pow2Table();
    ShiftLeftTable(low);
    AddIsXor(low, 32 * low, 8);
    AddIsXor(low, low, 4);
  }

  lemma TimesOfBit(low: nat)
    requires low < 2
    ensures Times(low) == POLYNOMIAL * low
  {
    PairsOfBit(low);
    Pow2Table();
    ShiftLeftTable(9 * low);
    AddIsXor(9 * low, 17 * low, 5);
  }

  lemma {:induction false} TimesPow2(n: nat)
    ensures Times(Pow2(n)) == POLYNOMIAL * Pow2(n)
  {
    if n == 0 {
      TimesOfBit(Pow2(0));
    } else {
      TimesPow2(n - 1);
      TimesDouble(Pow2(n - 1));
    }
  }

  lemma TimesOfSum(half: nat, low: nat)
    ensures Times(Xor(2 * half, low)) == Xor(2 * Times(half), Times(low))
  {
    TimesLinear(2 * half, low);
    TimesDouble(half);
  }

  /** The product by its lowest term. */
  lemma TimesSplit(q: nat)
    ensures Times(q) == Xor(2 * Times(q / 2), Times(q % 2))
    ensures Times(q % 2) == 0 || Times(q % 2) == POLYNOMIAL
  {
    XorSplit(q);
    TimesOfSum(q / 2, q % 2);
    TimesOfBit(q % 2);
  }

  lemma DegreeStep(half: nat, low: nat, n: nat)
    requires n > 0 && Pow2(n + 7) <= half < Pow2(n + 8) && low <= POLYNOMIAL
    ensures Pow2(n + 8) <= Xor(2 * half, low) < Pow2(n + 9)
  {
    Pow2Table();
    Pow2Grows(9, n + 8);
    XorTopStays(2 * half, low, n + 8);
  }

  /** The degree of a product is eight more. */
  lemma {:induction false} TimesDegree(q: nat, n: nat)
    requires Pow2(n) <= q < Pow2(n + 1)
    ensures Pow2(n + 8) <= Times(q) < Pow2(n + 9)
  {
    if n == 0 {
      Pow2Table();
      TimesOfBit(q);
    } else {
      TimesDegree(q / 2, n - 1);
      TimesSplit(q);
      DegreeStep(Times(q / 2), Times(q % 2), n);
    }
  }

  lemma MultipleHasDegree(q: nat)
    requires q > 0
    ensures Times(q) >= 256
  {
    var n := HasDegree(q);
    TimesDegree(q, n);
    Pow2Grows(8, n + 8);
    Pow2Table();
  }

  /** The only multiple of degree below eight is zero. */
  lemma SmallMultipleIsZero(row: nat)
    requires Divisible(row) && row < 256
    ensures row == 0
  {
    var q: nat :| row == Times(q);
    if q > 0 {
      MultipleHasDegree(q);
    } else {
      TimesOfBit(q);
    }
  }

  lemma DivisibleXor(a: nat, b: nat)
    requires Divisible(a) && Divisible(b)
    ensures Divisible(Xor(a, b))
  {
    var p: nat :| a == Times(p);
    var q: nat :| b == Times(q);
    TimesLinear(p, q);
  }

  lemma XorBack(a: nat, b: nat)
    ensures Xor(a, Xor(a, b)) == b
  {
    XorComm(a, b);
    XorComm(a, Xor(a, b));
    XorCancel(b, a);
  }

  // ----- the loop

  /** The bit that turn 15 - k tests is the leading one. */
  lemma LeadingBit(row: nat, top: nat)
    requires top > 0 && row < 2 * top
    ensures row / top % 2 == (if row >= top then 1 else 0)
  {
  }

  lemma LeadingBitCancels(row: nat, k: nat)
    requires Pow2(k + 8) <= row < Pow2(k + 9)
    ensures Xor(row, Times(Pow2(k))) < Pow2(k + 8)
  {
    TimesDegree(Pow2(k), k);
    XorTopCancels(row, Times(Pow2(k)), k + 8);
  }

  lemma CancelAddsToQuotient(start: nat, q: nat, p: nat)
    ensures Xor(Xor(start, Times(q)), Times(p)) == Xor(start, Times(Xor(q, p)))
  {
    XorAssoc(start, Times(q), Times(p));
    TimesLinear(q, p);
  }

  /** What is left of a row is zero exactly if the row is a multiple. */
  lemma ReducedRow(start: nat, q: nat, row: nat)
    requires row == Xor(start, Times(q)) && row < 256
    ensures row == 0 <==> Divisible(start)
  {
    XorZeroMeansEqual(start, Times(q));
    if Divisible(start) {
      DivisibleXor(start, Times(q));
      SmallMultipleIsZero(row);
    }
  }

  lemma LoopStarts(start: nat)
    ensures start == Xor(start, Times(0)) && 0x988000 == POLYNOMIAL * Pow2(15) && Pow2(24) == 0x100_0000
  {
    TimesOfBit(0);
    XorZero(start);
    Pow2Table();
  }

  /** Before turn i: what is left of the row after q times the polynomial, below bit 24 - i,
      and the polynomial in its place. */
  ghost predicate Dividing(start: nat, q: nat, row: nat, divisor: nat, i: nat) {
    && i <= 16
    && row == Xor(start, Times(q))
    && row < Pow2(24 - i)
    && (i < 16 ==> divisor == POLYNOMIAL * Pow2(15 - i))
  }

  lemma NextDivisor(n: nat)
    ensures n > 0 ==> POLYNOMIAL * Pow2(n) / 2 == POLYNOMIAL * Pow2(n - 1)
  {
  }

  lemma TakeBit(start: nat, q: nat, row: nat, divisor: nat, i: nat)
    requires Dividing(start, q, row, divisor, i) && i < 16 && row >= Pow2(23 - i)
    ensures Dividing(start, Xor(q, Pow2(15 - i)), Xor(row, divisor), divisor / 2, i + 1)
  {
    TimesPow2(15 - i);
    LeadingBitCancels(row, 15 - i);
    CancelAddsToQuotient(start, q, Pow2(15 - i));
    NextDivisor(15 - i);
  }

  lemma SkipBit(start: nat, q: nat, row: nat, divisor: nat, i: nat)
    requires Dividing(start, q, row, divisor, i) && i < 16 && row < Pow2(23 - i)
    ensures Dividing(start, q, row, divisor / 2, i + 1)
  {
    NextDivisor(15 - i);
  }

  /** `__is_crc_valid`: true exactly if the row is a multiple of the polynomial. */
  method IsCrcValid(value: nat, crc: nat) returns (valid: bool)
    requires value < 0x1_0000 && crc < 0x100
    ensures valid <==> Divisible(Row(value, crc))
  {
    var row: nat := value * 256 + crc;
    ghost var start := row;
    ghost var q: nat := 0;
    var divisor: nat := 0x988000;
    LoopStarts(start);
    for i := 0 to 16
      invariant Dividing(start, q, row, divisor, i)
    {
      LeadingBit(row, Pow2(23 - i));
      if row / Pow2(23 - i) % 2 == 1 {
        TakeBit(start, q, row, divisor, i);
        row := Xor(row, divisor);
        q := Xor(q, Pow2(15 - i));
      } else {
        SkipBit(start, q, row, divisor, i);
      }
      divisor := divisor / 2;
    }
    Pow2Table();
    ReducedRow(start, q, row);
    valid := row == 0;
  }

  // ----- the code

  /** The remainder of a row, of degree below eight. */
  function Remainder(row: nat): nat {
    if row == 0 then 0
    else
      var t := 2 * Remainder(row / 2) + row % 2;
      if t < 256 then t else Xor(t, POLYNOMIAL)
  }

  lemma {:induction false} RemainderOf(row: nat)
    ensures Remainder(row) < 256 && Divisible(Xor(row, Remainder(row)))
  {
    if row == 0 {
      TimesOfBit(row);
      XorZero(row);
      assert Xor(row, Remainder(row)) == Times(row);
    } else {
      RemainderOf(row / 2);
      RemainderStep(row, Remainder(row / 2));
    }
  }

  lemma DoubledRow(row: nat, r: nat)
    ensures Xor(row, 2 * r + row % 2) == 2 * Xor(row / 2, r)
  {
    XorParts(row, 2 * r + row % 2);
  }

  lemma ReduceOnce(row: nat, t: nat)
    requires 256 <= t < 512 && Divisible(Xor(row, t))
    ensures Xor(t, POLYNOMIAL) < 256 && Divisible(Xor(row, Xor(t, POLYNOMIAL)))
  {
    Pow2Table();
    XorTopCancels(t, POLYNOMIAL, 8);
    XorAssoc(row, t, POLYNOMIAL);
    TimesOfBit(1);
    DivisibleXor(Xor(row, t), POLYNOMIAL);
  }

  lemma DivisibleDouble(row: nat)
    requires Divisible(row)
    ensures Divisible(2 * row)
  {
    var q: nat :| row == Times(q);
    TimesDouble(q);
  }

  lemma RemainderStep(row: nat, r: nat)
    requires r < 256 && Divisible(Xor(row / 2, r))
    ensures var t := 2 * r + row % 2;
            var r' := if t < 256 then t else Xor(t, POLYNOMIAL);
            r' < 256 && Divisible(Xor(row, r'))
  {
    var t := 2 * r + row % 2;
    DoubledRow(row, r);
    DivisibleDouble(Xor(row / 2, r));
    if t >= 256 {
      ReduceOnce(row, t);
    }
  }

  lemma RowIsXor(value: nat, crc: nat)
    requires crc < 256
    ensures Xor(256 * value, crc) == Row(value, crc)
  {
    Pow2Table();
    ShiftLeftTable(value);
    AddIsXor(value, crc, 8);
  }

  /** Each value has a valid check byte. */
  lemma SomeCrcIsValid(value: nat) returns (crc: nat)
    ensures crc < 256 && Divisible(Row(value, crc))
  {
    crc := Remainder(256 * value);
    RemainderOf(256 * value);
    RowIsXor(value, crc);
  }

  /** And only one. */
  lemma OnlyOneCrcIsValid(value: nat, c: nat, d: nat)
    requires c < 256 && d < 256 && Divisible(Row(value, c)) && Divisible(Row(value, d))
    ensures c == d
  {
    ValidPairsAreLinear(value, c, value, d);
    XorSelf(value);
    SmallMultipleIsZero(Xor(c, d));
    XorZeroMeansEqual(c, d);
  }

  /** Valid pairs are closed under exclusive or. */
  lemma ValidPairsAreLinear(v: nat, c: nat, w: nat, d: nat)
    requires c < 256 && d < 256 && Divisible(Row(v, c)) && Divisible(Row(w, d))
    ensures Xor(c, d) < 256 && Divisible(Row(Xor(v, w), Xor(c, d)))
  {
    DivisibleXor(Row(v, c), Row(w, d));
    RowsXor(v, c, w, d);
  }

  lemma RowsXor(v: nat, c: nat, w: nat, d: nat)
    requires c < 256 && d < 256
    ensures Xor(c, d) < 256 && Xor(Row(v, c), Row(w, d)) == Row(Xor(v, w), Xor(c, d))
  {
    RowIsXor(v, c);
    RowIsXor(w, d);
    XorSwap(256 * v, c, 256 * w, d);
    XorScale(v, w);
    Pow2Table();
    XorBelow(c, d, 8);
    RowIsXor(Xor(v, w), Xor(c, d));
  }

  // ----- error detection

  /** An error goes unnoticed in a valid row exactly if it is a multiple itself. */
  lemma ErrorDetection(row: nat, error: nat)
    requires Divisible(row)
    ensures Divisible(Xor(row, error)) <==> Divisible(error)
  {
    if Divisible(error) {
      DivisibleXor(row, error);
    }
    if Divisible(Xor(row, error)) {
      DivisibleXor(row, Xor(row, error));
      XorBack(row, error);
    }
  }

  lemma {:induction false} PowersAreOneTerm(n: nat)
    ensures OddTerms(Pow2(n))
  {
    if n > 0 {
      PowersAreOneTerm(n - 1);
      OddTermsParts(Pow2(n));
    }
  }

  lemma TermsOfScaled(a: nat)
    ensures OddTerms(16 * a) == OddTerms(a) && OddTerms(32 * a) == OddTerms(a)
  {
    OddTermsParts(2 * a);
    OddTermsParts(4 * a);
    OddTermsParts(8 * a);
    OddTermsParts(16 * a);
    OddTermsParts(32 * a);
  }

  lemma TermsOfFour(a: nat, b: nat, c: nat, d: nat)
    requires OddTerms(a) == OddTerms(b) == OddTerms(c) == OddTerms(d)
    ensures !OddTerms(Xor(Xor(a, b), Xor(c, d)))
  {
    OddTermsXor(Xor(a, b), Xor(c, d));
    OddTermsXor(a, b);
    OddTermsXor(c, d);
  }

  /** Every multiple has an even number of terms, as the polynomial has. */
  lemma MultiplesAreEven(q: nat)
    ensures !OddTerms(Times(q))
  {
    TermsOfScaled(q);
    TermsOfScaled(16 * q);
    TermsOfFour(256 * q, 32 * q, 16 * q, q);
  }

  function FlipAll(row: nat, positions: seq<nat>): nat
    decreases |positions|
  {
    if positions == [] then row else FlipAll(Xor(row, Pow2(positions[0])), positions[1..])
  }

  lemma {:induction false} FlipsToggleTerms(row: nat, positions: seq<nat>)
    ensures OddTerms(FlipAll(row, positions)) == (OddTerms(row) != (|positions| % 2 == 1))
    decreases |positions|
  {
    if positions != [] {
      OddTermsXor(row, Pow2(positions[0]));
      PowersAreOneTerm(positions[0]);
      FlipsToggleTerms(Xor(row, Pow2(positions[0])), positions[1..]);
    }
  }

  /** Any odd number of flipped bits in a valid row is detected. */
  lemma OddFlipsDetected(row: nat, positions: seq<nat>)
    requires Divisible(row) && |positions| % 2 == 1
    ensures !Divisible(FlipAll(row, positions))
  {
    var q: nat :| row == Times(q);
    MultiplesAreEven(q);
    FlipsToggleTerms(row, positions);
    if Divisible(FlipAll(row, positions)) {
      var r: nat :| FlipAll(row, positions) == Times(r);
      MultiplesAreEven(r);
    }
  }

  lemma LowTermIsMissing(half: nat, other: nat, low: nat)
    requires 2 * half == Xor(2 * other, low) && (low == 0 || low == POLYNOMIAL)
    ensures half == other
  {
    XorParts(2 * other, low);
    XorZero(2 * other);
  }

  /** x does not divide the polynomial, so it can be taken out of a multiple. */
  lemma HalfOfMultiple(half: nat)
    requires Divisible(2 * half)
    ensures Divisible(half)
  {
    var q: nat :| 2 * half == Times(q);
    TimesSplit(q);
    LowTermIsMissing(half, Times(q / 2), Times(q % 2));
  }

  lemma {:induction false} DivisibleShift(b: nat, s: nat)
    requires Divisible(ShiftLeft(b, s))
    ensures Divisible(b)
  {
    if s > 0 {
      HalfOfMultiple(ShiftLeft(b, s - 1));
      DivisibleShift(b, s - 1);
    }
  }

  /** Any burst of at most eight bits in a valid row, wherever it begins, is detected. */
  lemma BurstDetected(row: nat, burst: nat, s: nat)
    requires Divisible(row) && 0 < burst < 256
    ensures !Divisible(Xor(row, ShiftLeft(burst, s)))
  {
    ErrorDetection(row, ShiftLeft(burst, s));
    if Divisible(ShiftLeft(burst, s)) {
      DivisibleShift(burst, s);
      SmallMultipleIsZero(burst);
    }
  }

  // ----- two flipped bits

  /** The coefficient of x^k. */
  function Bit(t: nat, k: nat): nat {
    t / Pow2(k) % 2
  }

  /** Bit k flipped, by addition or subtraction. */
  function Flip(t: nat, k: nat): nat {
    if Bit(t, k) == 0 then t + Pow2(k) else if t >= Pow2(k) then t - Pow2(k) else 0
  }

  lemma {:induction false} FlipIsXor(t: nat, k: nat)
    ensures Xor(t, Pow2(k)) == Flip(t, k)
    ensures Bit(t, k) != 0 ==> t >= Pow2(k)
  {
    if k == 0 {
      FlipLowest(t);
    } else {
      FlipIsXor(t / 2, k - 1);
      XorWithEven(t, Pow2(k - 1));
      HalfFirst(t, Pow2(k - 1));
      FlipOfHalf(t, Xor(t, Pow2(k)), Pow2(k - 1), Bit(t, k));
    }
  }

  lemma FlipLowest(t: nat)
    ensures Xor(t, 1) == if t % 2 == 0 then t + 1 else t - 1
  {
    XorParts(t, 1);
    XorZero(t / 2);
  }

  lemma XorWithEven(t: nat, p: nat)
    ensures Xor(t, 2 * p) / 2 == Xor(t / 2, p) && Xor(t, 2 * p) % 2 == t % 2
  {
    XorParts(t, 2 * p);
  }

  lemma FlipOfHalf(t: nat, x: nat, p: nat, bit: nat)
    requires x % 2 == t % 2 && (bit == 0 ==> x / 2 == t / 2 + p) && (bit != 0 ==> t / 2 >= p && x / 2 == t / 2 - p)
    ensures bit == 0 ==> x == t + 2 * p
    ensures bit != 0 ==> t >= 2 * p && x == t - 2 * p
  {
  }

  /** One step of the division, for an even number of nine bits: bit 8 goes, bits 5 and 4
      flip, and bit 0 comes. */
  function Reduced(t: nat): nat
    requires 256 <= t < 512
  {
    t - 255 + (if t / 32 % 2 == 0 then 32 else -32) + (if t / 16 % 2 == 0 then 16 else -16)
  }

  lemma AddThirtyTwo(a: nat)
    ensures (a + 32) / 16 % 2 == a / 16 % 2 && (a + 32) % 2 == a % 2
  {
    assert (a + 32) / 16 == a / 16 + 2;
  }

  lemma AddTop(a: nat)
    ensures (a + 256) / 32 == a / 32 + 8 && (a + 256) / 16 == a / 16 + 16
  {
  }

  lemma FlipsOfNineBits(t: nat)
    requires 256 <= t < 512 && t % 2 == 0
    ensures Flip(Flip(Flip(Flip(t, 8), 5), 4), 0) == Reduced(t)
  {
    var a := t - 256;
    FlipTop(t);
    FlipFive(a);
    assert a % 2 == 0;
    LastTwoFlips(Flip(a, 5));
  }

  lemma FlipTop(t: nat)
    requires 256 <= t < 512
    ensures Flip(t, 8) == t - 256 && (t - 256) / 32 % 2 == t / 32 % 2 && (t - 256) / 16 % 2 == t / 16 % 2
  {
    Pow2Table();
    AddTop(t - 256);
  }

  lemma FlipFive(a: nat)
    ensures Flip(a, 5) == (if a / 32 % 2 == 0 then a + 32 else a - 32)
    ensures Flip(a, 5) / 16 % 2 == a / 16 % 2 && Flip(a, 5) % 2 == a % 2
  {
    Pow2Table();
    if a / 32 % 2 == 0 {
      AddThirtyTwo(a);
    } else {
      assert a >= 32;
      AddThirtyTwo(a - 32);
    }
  }

  lemma LastTwoFlips(b: nat)
    requires b % 2 == 0
    ensures Flip(Flip(b, 4), 0) == b + 1 + (if b / 16 % 2 == 0 then 16 else -16)
  {
    Pow2Table();
  }

  lemma ReducedIsXor(t: nat)
    requires 256 <= t < 512 && t % 2 == 0
    ensures Xor(t, POLYNOMIAL) == Reduced(t)
  {
    FlipIsXor(t, 8);
    FlipIsXor(Flip(t, 8), 5);
    FlipIsXor(Flip(Flip(t, 8), 5), 4);
    FlipIsXor(Flip(Flip(Flip(t, 8), 5), 4), 0);
    FourTerms(t, Pow2(8), Pow2(5), Pow2(4), Pow2(0));
    PolynomialTerms();
    FlipsOfNineBits(t);
  }

  lemma PolynomialTerms()
    ensures Xor(Xor(Pow2(8), Pow2(5)), Xor(Pow2(4), Pow2(0))) == POLYNOMIAL
  {
    Pow2Table();
    TimesOfBit(1);
  }

  lemma FourTerms(t: nat, a: nat, b: nat, c: nat, d: nat)
    ensures Xor(Xor(Xor(Xor(t, a), b), c), d) == Xor(t, Xor(Xor(a, b), Xor(c, d)))
  {
    XorAssoc(t, a, b);
    XorAssoc(Xor(t, Xor(a, b)), c, d);
    XorAssoc(t, Xor(a, b), Xor(c, d));
  }

  /** The remainder times x, reduced again. */
  function TimesX(r: nat): (r': nat)
    requires r < 256
    ensures r' < 256
  {
    if r < 128 then 2 * r else Reduced(2 * r)
  }

  /** The remainder of x^k. */
  function Power(k: nat): (r: nat)
    ensures r < 256
  {
    if k == 0 then 1 else TimesX(Power(k - 1))
  }

  lemma PowerStep(k: nat, r: nat)
    requires r < 256 && Divisible(Xor(Pow2(k), r))
    ensures Divisible(Xor(Pow2(k + 1), TimesX(r)))
  {
    DivisibleDouble(Xor(Pow2(k), r));
    XorDouble(Pow2(k), r);
    if r >= 128 {
      ReduceOnce(Pow2(k + 1), 2 * r);
      ReducedIsXor(2 * r);
    }
  }

  lemma {:induction false} PowerIsRemainder(k: nat)
    ensures Divisible(Xor(Pow2(k), Power(k)))
  {
    if k == 0 {
      XorSelf(Pow2(k));
      TimesOfBit(0);
    } else {
      PowerIsRemainder(k - 1);
      PowerStep(k - 1, Power(k - 1));
    }
  }

  /** The first remainders. */
  function Remainders(): seq<nat> {
    [1, 2, 4, 8, 16, 32, 64, 128, 49, 98, 196, 185,
     67, 134, 61, 122, 244, 217, 131, 55, 110, 220, 137, 35]
  }

  /** Entry k of the table. */
  predicate Follows(k: nat)
    requires 0 < k < 24
  {
    var t := Remainders();
    |t| == 24 && t[k - 1] < 256 && t[k] == TimesX(t[k - 1]) && t[k] != 1
  }

  lemma LowRemainders(k: nat)
    requires 0 < k < 13
    ensures Follows(k)
  {
    var t := Remainders();
    match k
    case 1 => assert t[1] == 2 && t[0] == 1;
    case 2 => assert t[2] == 4 && t[1] == 2;
    case 3 => assert t[3] == 8 && t[2] == 4;
    case 4 => assert t[4] == 16 && t[3] == 8;
    case 5 => assert t[5] == 32 && t[4] == 16;
    case 6 => assert t[6] == 64 && t[5] == 32;
    case 7 => assert t[7] == 128 && t[6] == 64;
    case 8 => assert t[8] == 49 && t[7] == 128;
    case 9 => assert t[9] == 98 && t[8] == 49;
    case 10 => assert t[10] == 196 && t[9] == 98;
    case 11 => assert t[11] == 185 && t[10] == 196;
    case 12 => assert t[12] == 67 && t[11] == 185;
  }

  lemma HighRemainders(k: nat)
    requires 13 <= k < 24
    ensures Follows(k)
  {
    var t := Remainders();
    match k
    case 13 => assert t[13] == 134 && t[12] == 67;
    case 14 => assert t[14] == 61 && t[13] == 134;
    case 15 => assert t[15] == 122 && t[14] == 61;
    case 16 => assert t[16] == 244 && t[15] == 122;
    case 17 => assert t[17] == 217 && t[16] == 244;
    case 18 => assert t[18] == 131 && t[17] == 217;
    case 19 => assert t[19] == 55 && t[18] == 131;
    case 20 => assert t[20] == 110 && t[19] == 55;
    case 21 => assert t[21] == 220 && t[20] == 110;
    case 22 => assert t[22] == 137 && t[21] == 220;
    case 23 => assert t[23] == 35 && t[22] == 137;
  }

  lemma RemaindersFollow(k: nat)
    requires 0 < k < 24
    ensures Follows(k)
  {
    if k < 13 {
      LowRemainders(k);
    } else {
      HighRemainders(k);
    }
  }

  lemma {:induction false} PowersAreRemainders(k: nat)
    requires k < 24
    ensures Power(k) == Remainders()[k]
  {
    if k > 0 {
      PowersAreRemainders(k - 1);
      RemaindersFollow(k);
    }
  }

  /** No power of x below the length of the row leaves the remainder of 1. */
  lemma PowersDiffer(k: nat)
    requires 0 < k < 24
    ensures Power(k) != 1
  {
    PowersAreRemainders(k);
    RemaindersFollow(k);
  }

  /** A pair of terms further apart by one factor x. */
  lemma {:induction false} PairIsShifted(i: nat, j: nat)
    requires i <= j
    ensures Xor(Pow2(j), Pow2(i)) == ShiftLeft(Xor(Pow2(j - i), 1), i)
  {
    if i > 0 {
      PairIsShifted(i - 1, j - 1);
      XorDouble(Pow2(j - 1), Pow2(i - 1));
    }
  }

  /** Two rows with the same large term. */
  lemma CommonTermGoes(p: nat, a: nat, b: nat)
    ensures Xor(Xor(p, a), Xor(p, b)) == Xor(a, b)
  {
    XorSwap(p, a, p, b);
    XorSelf(p);
    XorComm(0, Xor(a, b));
    XorZero(Xor(a, b));
  }

  lemma PowerPlusOne(k: nat)
    requires 0 < k < 24
    ensures !Divisible(Xor(Pow2(k), 1))
  {
    if Divisible(Xor(Pow2(k), 1)) {
      var r := Power(k);
      PowerIsRemainder(k);
      DivisibleXor(Xor(Pow2(k), 1), Xor(Pow2(k), r));
      CommonTermGoes(Pow2(k), 1, r);
      Pow2Table();
      XorBelow(1, r, 8);
      SmallMultipleIsZero(Xor(1, r));
      XorZeroMeansEqual(1, r);
      PowersDiffer(k);
    }
  }

  lemma PairIsNoMultiple(i: nat, j: nat)
    requires i < j < i + 24
    ensures !Divisible(Xor(Pow2(j), Pow2(i)))
  {
    PairIsShifted(i, j);
    if Divisible(ShiftLeft(Xor(Pow2(j - i), 1), i)) {
      DivisibleShift(Xor(Pow2(j - i), 1), i);
      PowerPlusOne(j - i);
    }
  }

  /** Any two flipped bits in a valid row are detected. */
  lemma TwoFlipsDetected(row: nat, i: nat, j: nat)
    requires Divisible(row) && i < j < 24
    ensures !Divisible(Xor(row, Xor(Pow2(j), Pow2(i))))
  {
    ErrorDetection(row, Xor(Pow2(j), Pow2(i)));
    PairIsNoMultiple(i, j);
  }

  lemma FlipTwo(row: nat, i: nat, j: nat)
    ensures FlipAll(row, [i, j]) == Xor(row, Xor(Pow2(j), Pow2(i)))
  {
    assert [i, j][1..] == [j] && [j][1..] == [];
    assert FlipAll(row, [i, j]) == FlipAll(Xor(row, Pow2(i)), [j]) == FlipAll(Xor(Xor(row, Pow2(i)), Pow2(j)), []);
    XorAssoc(row, Pow2(i), Pow2(j));
    XorComm(Pow2(i), Pow2(j));
  }

  lemma FlippedPair(row: nat, positions: seq<nat>, i: nat, j: nat)
    requires Divisible(row) && |positions| == 2 && i == positions[0] && j == positions[1]
    requires i < 24 && j < 24 && i != j
    ensures !Divisible(FlipAll(row, positions))
  {
    assert positions == [i, j];
    FlipTwo(row, i, j);
    if i < j {
      TwoFlipsDetected(row, i, j);
    } else {
      XorComm(Pow2(i), Pow2(j));
      TwoFlipsDetected(row, j, i);
    }
  }

  /** The code's distance is at least four: one, two or three flipped bits anywhere in a
      valid row are detected. */
  lemma UpToThreeFlipsDetected(row: nat, positions: seq<nat>)
    requires Divisible(row) && 1 <= |positions| <= 3
    requires forall i :: 0 <= i < |positions| ==> positions[i] < 24
    requires forall i, j :: 0 <= i < j < |positions| ==> positions[i] != positions[j]
    ensures !Divisible(FlipAll(row, positions))
  {
    if |positions| == 2 {
      FlippedPair(row, positions, positions[0], positions[1]);
    } else {
      OddFlipsDetected(row, positions);
    }
  }
}
