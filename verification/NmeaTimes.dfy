/** Times and dates, which the source reads by position: what they mean, and when they depend
    on the text of their item only. */
module NmeaTimes {
  import opened NmeaFields
  import opened NmeaParser
  import opened NmeaTokens
  import opened NmeaNumerals

  /** A text as an item of which nothing older is left. */
  function Padded(text: seq<Octet>): Item {
    seq(ITEM_LENGTH, i => if 0 <= i < |text| then text[i] else '\0')
  }

  lemma PaddedText(text: seq<Octet>)
    requires Plain(text) && |text| < ITEM_LENGTH
    ensures CText(Padded(text)) == text
  {
    assert Padded(text)[..|text|] == text;
    TextBeforeTerminator(Padded(text), |text|);
  }

  lemma {:induction false} CTextAt(item: seq<Octet>, k: nat)
    requires k <= |CText(item)| && k < |item|
    ensures if k < |CText(item)| then item[k] == CText(item)[k] else item[k] == '\0'
  {
    if k > 0 {
      CTextAt(item[1..], k - 1);
    }
  }

  /** An item and its text, up to the terminator. */
  predicate Holds(item: Item, text: seq<Octet>) {
    && |text| < ITEM_LENGTH && item[|text|] == '\0'
    && forall k :: 0 <= k < |text| ==> item[k] == text[k] && text[k] != '\0'
  }

  lemma TextIsHeld(item: Item, text: seq<Octet>)
    requires CText(item) == text && |text| < ITEM_LENGTH && Plain(text)
    ensures Holds(item, text)
  {
    forall k | 0 <= k <= |text|
      ensures if k < |text| then item[k] == text[k] else item[k] == '\0'
    {
      CTextAt(item, k);
    }
  }

  lemma {:induction false} ThousandthsByText(a: Item, b: Item, text: seq<Octet>, i: nat, tmp: nat)
    requires Holds(a, text) && Holds(b, text) && i <= |text|
    ensures Thousandths(a, i, tmp) == Thousandths(b, i, tmp)
    decreases |text| - i
  {
    if i < |text| {
      ThousandthsByText(a, b, text, i + 1, (10 * tmp + a[i] as int - 48) % 65536);
    }
  }

  lemma TimeByText(a: Item, b: Item, text: seq<Octet>, before: Time)
    requires Holds(a, text) && Holds(b, text) && |text| >= 6
    ensures UtcTime(a, before) == UtcTime(b, before)
  {
    if |text| > 6 {
      ThousandthsByText(a, b, text, 7, 0);
    }
  }

  lemma ShortItem(text: seq<Octet>, digit: Octet, before: Time) returns (item: Item)
    requires Plain(text) && |text| < 6 && IsDecimalDigit(digit)
    ensures CText(item) == text && UtcTime(item, before).thousand == digit as int - 48
  {
    item := Padded(text)[6 := '.'][7 := digit];
    assert item[..|text|] == text;
    TextBeforeTerminator(item, |text|);
    assert Thousandths(item, 8, digit as int - 48) == digit as int - 48;
  }

  /** A time depends on the text of its item alone exactly if that has the six digits: of a
      shorter one, such as the empty one before the first fix, what older items left behind
      the terminator is read. */
  lemma TimeDependsOnTextIff(text: seq<Octet>, before: Time)
    requires Plain(text) && |text| < ITEM_LENGTH
    ensures (forall a: Item, b: Item :: CText(a) == text && CText(b) == text ==>
               UtcTime(a, before) == UtcTime(b, before)) <==> |text| >= 6
  {
    if |text| < 6 {
      var a := ShortItem(text, '0', before);
      var b := ShortItem(text, '1', before);
      assert UtcTime(a, before) != UtcTime(b, before);
    } else {
      forall a: Item, b: Item | CText(a) == text && CText(b) == text
        ensures UtcTime(a, before) == UtcTime(b, before)
      {
        TextIsHeld(a, text);
        TextIsHeld(b, text);
        TimeByText(a, b, text, before);
      }
    }
  }

  // ----- what the digits mean

  function TwoText(n: nat): seq<Octet>
    requires n < 100
  {
    [DigitOf(n / 10), DigitOf(n % 10)]
  }

  lemma {:induction false} ThousandthsAreRead(item: Item, text: seq<Octet>, i: nat, tmp: nat)
    requires Holds(item, text) && i <= |text| && AllDigits(text[i..])
    ensures Thousandths(item, i, tmp % 65536) == Digits(text[i..], 10, tmp) % 65536
    decreases |text| - i
  {
    if i < |text| {
      var d := DigitValue(text[i]);
      assert text[i..][0] == text[i] && text[i..][1..] == text[i + 1..];
      assert d == item[i] as int - 48;
      ModuloStep(tmp, d);
      ThousandthsAreRead(item, text, i + 1, tmp * 10 + d);
    }
  }

  lemma ModuloStep(tmp: nat, d: nat)
    ensures (10 * (tmp % 65536) + d) % 65536 == (tmp * 10 + d) % 65536
  {
  }

  /** Six digits are the hour, the minute and the second, and the digits behind a point the
      thousandths, as one number in sixteen bits; without a point they stay. */
  lemma TimeOfDigits(item: Item, h: nat, m: nat, s: nat, zeros: seq<Octet>, frac: nat, text: seq<Octet>, before: Time)
    requires h < 100 && m < 100 && s < 100 && AllZero(zeros) && Holds(item, text)
    requires var clock := TwoText(h) + TwoText(m) + TwoText(s);
             text == clock || text == clock + ['.'] + (zeros + Decimal(frac))
    ensures UtcTime(item, before) == Time(h, m, s, if |text| == 6 then before.thousand else frac % 65536)
  {
    assert item[0] == text[0] && item[1] == text[1] && item[2] == text[2];
    assert item[3] == text[3] && item[4] == text[4] && item[5] == text[5];
    TwoDigitNumber(item, 0, h);
    TwoDigitNumber(item, 2, m);
    TwoDigitNumber(item, 4, s);
    if |text| > 6 {
      var digits := zeros + Decimal(frac);
      assert text[7..] == digits && item[6] == text[6] == '.';
      ZerosAreRead(zeros);
      DecimalIsDigits(frac);
      UnsignedValue(zeros, frac, []);
      assert digits + [] == digits;
      ThousandthsAreRead(item, text, 7, 0);
    } else {
      DecimalIsDigits(frac);
    }
  }

  /** Six digits are the day, the month and the year of the century. */
  lemma DateOfDigits(item: Item, day: nat, month: nat, year: nat, text: seq<Octet>)
    requires day < 100 && month < 100 && year < 100 && Holds(item, text)
    requires text == TwoText(day) + TwoText(month) + TwoText(year)
    ensures Date(TwoDigits(item, 0), TwoDigits(item, 2), TwoDigits(item, 4)) == Date(day, month, year)
  {
    TwoDigitNumber(item, 0, day);
    TwoDigitNumber(item, 2, month);
    TwoDigitNumber(item, 4, year);
  }

  // ----- items whose time or date has all its digits

  /** Item n of a sentence of this kind is no time or date, or has all the digits. */
  predicate TimeFits(kind: Kind, n: nat, text: seq<Octet>) {
    && (((kind == GGA || kind == RMC) && n == 1) || (kind == GLL && n == 5) ==> |text| >= 6)
    && (kind == RMC && n == 9 ==> |text| >= 5)
  }
}
