/** What the numerals of a sentence are worth. */
module NmeaNumerals {
  import opened NmeaFields

  /** A number below ten as a digit. */
  function DigitOf(d: nat): Octet
    requires d < 10
  {
    (48 + d) as char
  }

  /** The number in decimal, without leading zeros. */
  function Decimal(n: nat): seq<Octet> {
    if n < 10 then [DigitOf(n)] else Decimal(n / 10) + [DigitOf(n % 10)]
  }

  predicate AllZero(t: seq<Octet>) {
    forall i :: 0 <= i < |t| ==> t[i] == '0'
  }

  predicate AllSpace(t: seq<Octet>) {
    forall i :: 0 <= i < |t| ==> t[i] == ' '
  }

  predicate IsDecimalDigit(c: Octet) {
    '0' <= c <= '9'
  }

  predicate AllDigits(t: seq<Octet>) {
    forall i :: 0 <= i < |t| ==> IsDecimalDigit(t[i])
  }

  /** What a numeral may be followed by. */
  predicate EndsNumeral(t: seq<Octet>) {
    t == [] || !IsDecimalDigit(t[0])
  }

  lemma {:induction false} DecimalIsDigits(n: nat)
    ensures Decimal(n) != [] && AllDigits(Decimal(n))
  {
    if n >= 10 {
      DecimalIsDigits(n / 10);
    }
  }

  lemma {:induction false} DigitsAppend(a: seq<Octet>, b: seq<Octet>, acc: nat)
    requires AllDigits(a)
    ensures Digits(a + b, 10, acc) == Digits(b, 10, Digits(a, 10, acc))
    decreases |a|
  {
    if a == [] {
      assert a + b == b;
    } else {
      assert (a + b)[1..] == a[1..] + b;
      DigitsAppend(a[1..], b, acc * 10 + DigitValue(a[0]));
    }
  }

  lemma OneDigit(d: nat, acc: nat)
    requires d < 10
    ensures DigitValue(DigitOf(d)) == d && Digits([DigitOf(d)], 10, acc) == acc * 10 + d
  {
    assert [DigitOf(d)][1..] == [];
  }

  lemma {:induction false} DecimalIsRead(n: nat)
    ensures Digits(Decimal(n), 10, 0) == n
  {
    if n < 10 {
      OneDigit(n, 0);
    } else {
      DecimalIsRead(n / 10);
      DecimalIsDigits(n / 10);
      DigitsAppend(Decimal(n / 10), [DigitOf(n % 10)], 0);
      OneDigit(n % 10, n / 10);
    }
  }

  lemma {:induction false} ZerosAreRead(zeros: seq<Octet>)
    requires AllZero(zeros)
    ensures AllDigits(zeros) && Digits(zeros, 10, 0) == 0
  {
    if zeros != [] {
      assert DigitValue(zeros[0]) == 0;
      ZerosAreRead(zeros[1..]);
    }
  }

  lemma EndIsRead(tail: seq<Octet>, acc: nat)
    requires EndsNumeral(tail)
    ensures Digits(tail, 10, acc) == acc
  {
  }

  lemma UnsignedValue(zeros: seq<Octet>, n: nat, tail: seq<Octet>)
    requires AllZero(zeros) && EndsNumeral(tail)
    ensures Digits(zeros + Decimal(n) + tail, 10, 0) == n
  {
    ZerosAreRead(zeros);
    DecimalIsDigits(n);
    DecimalIsRead(n);
    DigitsAppend(zeros + Decimal(n), tail, 0);
    DigitsAppend(zeros, Decimal(n), 0);
    EndIsRead(tail, n);
  }

  lemma {:induction false} SpacesAreSkipped(spaces: seq<Octet>, t: seq<Octet>)
    requires AllSpace(spaces) && t != [] && !IsSpace(t[0])
    ensures SkipSpace(spaces + t) == t
    decreases |spaces|
  {
    if spaces == [] {
      assert spaces + t == t;
    } else {
      assert (spaces + t)[1..] == spaces[1..] + t;
      SpacesAreSkipped(spaces[1..], t);
    }
  }

  /** A decimal numeral with spaces and leading zeros, a sign or none, and a tail. */
  function Numeral(spaces: seq<Octet>, sign: seq<Octet>, zeros: seq<Octet>, n: nat, tail: seq<Octet>): seq<Octet> {
    spaces + (sign + (zeros + Decimal(n) + tail))
  }

  /** Every decimal numeral is worth its number, within the 32 bits of a `long`. */
  lemma NumeralValue(spaces: seq<Octet>, sign: seq<Octet>, zeros: seq<Octet>, n: nat, tail: seq<Octet>)
    requires AllSpace(spaces) && AllZero(zeros) && EndsNumeral(tail)
    requires sign == [] || sign == ['+'] || sign == ['-']
    ensures var value := StrToL(Numeral(spaces, sign, zeros, n, tail), 10);
            if sign == ['-'] then value == (if n <= 0x8000_0000 then 0 - n else -0x8000_0000)
            else value == (if n <= 0x7FFF_FFFF then n else 0x7FFF_FFFF)
  {
    var digits := zeros + Decimal(n) + tail;
    var signed := sign + digits;
    DecimalIsDigits(n);
    assert digits[0] == if zeros == [] then Decimal(n)[0] else '0';
    assert IsDecimalDigit(digits[0]);
    assert signed[0] == if sign == [] then digits[0] else sign[0];
    assert sign != [] ==> signed[1..] == digits;
    assert sign == [] ==> signed == digits;
    SpacesAreSkipped(spaces, signed);
    UnsignedValue(zeros, n, tail);
  }

  // ----- fields that hold a number

  /** A field that is empty, which counts as zero, or the decimal text of n with any leading
      zeros. */
  ghost predicate Spells(text: seq<Octet>, n: nat) {
    (text == [] && n == 0) || exists zeros :: AllZero(zeros) && text == zeros + Decimal(n)
  }

  lemma SpelledValue(text: seq<Octet>, n: nat)
    requires Spells(text, n) && n <= 0x7FFF_FFFF
    ensures StrToL(text, 10) == n
  {
    if text != [] {
      var zeros :| AllZero(zeros) && text == zeros + Decimal(n);
      NumeralValue([], [], zeros, n, []);
      assert Numeral([], [], zeros, n, []) == text;
    }
  }

  /** A number that a `long` holds, in field k. */
  ghost predicate FieldSpells(fields: seq<seq<Octet>>, k: nat, n: nat) {
    k < |fields| && n <= 0x7FFF_FFFF && Spells(fields[k], n)
  }

  /** Two digits side by side. */
  lemma TwoDigitNumber(item: Item, k: nat, n: nat)
    requires k + 1 < ITEM_LENGTH && n < 100 && item[k] == DigitOf(n / 10) && item[k + 1] == DigitOf(n % 10)
    ensures TwoDigits(item, k) == n
  {
  }
}
