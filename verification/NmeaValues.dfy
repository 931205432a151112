/** What the symbolic floating-point values of a fix are worth as real numbers, rounding and
    exponents left aside. */
module NmeaValues {
  import opened Arithmetic
  import opened NmeaFields
  import opened NmeaNumerals
  import opened NmeaParser
  import opened NmeaTokens
  import opened NmeaPosition
  import opened NmeaSentences
  import opened Options

  /** The digits behind a decimal point. */
  function Fraction(t: seq<Octet>): real {
    if EndsNumeral(t) then 0.0 else (DigitValue(t[0]) as real + Fraction(t[1..])) / 10.0
  }

  function AfterDigits(t: seq<Octet>): seq<Octet> {
    if EndsNumeral(t) then t else AfterDigits(t[1..])
  }

  function Unsigned(t: seq<Octet>): real {
    var rest := AfterDigits(t);
    Digits(t, 10, 0) as real + (if rest != [] && rest[0] == '.' then Fraction(rest[1..]) else 0.0)
  }

  /** `strtof` on a decimal numeral. */
  function StrToF(t: seq<Octet>): real {
    var u := SkipSpace(t);
    if u != [] && u[0] == '-' then -Unsigned(u[1..])
    else if u != [] && u[0] == '+' then Unsigned(u[1..])
    else Unsigned(u)
  }

  /** The conversion to `int`. */
  function Trunc(x: real): int {
    if x >= 0.0 then x.Floor else -(-x).Floor
  }

  /** `parse_lat_long` after the numeral. */
  function DegreesOf(ll: real): real {
    var deg := TruncDiv(Trunc(ll), 100);
    deg as real + (ll - (100 * deg) as real) / 60.0
  }

  function Worth(f: Float): real {
    match f
    case Zero => 0.0
    case Parsed(t) => StrToF(t)
    case Degrees(t) => DegreesOf(StrToF(t))
    case Negated(g) => -Worth(g)
    case Sum(a, b) => Worth(a) + Worth(b)
    case Knots(t) => StrToF(t) * 1.852
    case KilometresPerHour(t) => StrToF(t) / 3.6
  }

  // ----- numerals with a decimal point

  lemma {:induction false} DigitsFrom(t: seq<Octet>, acc: nat)
    requires AllDigits(t)
    ensures Digits(t, 10, acc) == acc * Power10(|t|) + Digits(t, 10, 0)
  {
    if t != [] {
      var d := DigitValue(t[0]);
      DigitsFrom(t[1..], acc * 10 + d);
      DigitsFrom(t[1..], d);
      Distribute(acc, d, Power10(|t| - 1));
    }
  }

  lemma Distribute(acc: nat, d: nat, p: nat)
    ensures (acc * 10 + d) * p == acc * (10 * p) + d * p
  {
  }

  lemma TenthOf(d: real, n: real, p: real, q: real)
    requires p > 0.0 && q == 10.0 * p
    ensures (d + n / p) / 10.0 == (d * p + n) / q
  {
    assert d + n / p == (d * p + n) / p;
  }

  /** Digits behind a point are that number over a power of ten. */
  lemma {:induction false} FractionIs(t: seq<Octet>)
    requires AllDigits(t)
    ensures Fraction(t) == Digits(t, 10, 0) as real / Power10(|t|) as real
  {
    if t != [] {
      var d, p, n := DigitValue(t[0]), Power10(|t| - 1), Digits(t[1..], 10, 0);
      FractionIs(t[1..]);
      DigitsFrom(t[1..], d);
      TenthOf(d as real, n as real, p as real, (10 * p) as real);
    }
  }

  lemma {:induction false} DigitsBelow(t: seq<Octet>)
    requires AllDigits(t)
    ensures 0 <= Digits(t, 10, 0) < Power10(|t|)
  {
    if t != [] {
      var d, p := DigitValue(t[0]), Power10(|t| - 1);
      DigitsBelow(t[1..]);
      DigitsFrom(t[1..], d);
      assert d * p <= 9 * p;
    }
  }

  lemma {:induction false} AfterAllDigits(a: seq<Octet>, b: seq<Octet>)
    requires AllDigits(a) && EndsNumeral(b)
    ensures AfterDigits(a + b) == b
  {
    if a == [] {
      assert a + b == b;
    } else {
      assert (a + b)[1..] == a[1..] + b;
      AfterAllDigits(a[1..], b);
    }
  }

  /** A numeral: digits that spell n, and perhaps a point and digits that spell `frac`. */
  ghost predicate IsNumeral(t: seq<Octet>, whole: seq<Octet>, frac: seq<Octet>) {
    && whole != [] && AllDigits(whole) && AllDigits(frac)
    && (t == whole + (['.'] + frac) || (t == whole && frac == []))
  }

  function ValueOf(whole: seq<Octet>, frac: seq<Octet>): real {
    Digits(whole, 10, 0) as real + Digits(frac, 10, 0) as real / Power10(|frac|) as real
  }

  lemma NumeralIsWorth(t: seq<Octet>, whole: seq<Octet>, frac: seq<Octet>)
    requires IsNumeral(t, whole, frac)
    ensures StrToF(t) == ValueOf(whole, frac)
  {
    var rest: seq<Octet> := if t == whole then [] else ['.'] + frac;
    assert t == whole + rest && t[0] == whole[0];
    assert SkipSpace(t) == t;
    AfterAllDigits(whole, rest);
    DigitsAppend(whole, rest, 0);
    EndIsRead(rest, Digits(whole, 10, 0));
    FractionIs(frac);
    if t != whole {
      assert rest[1..] == frac;
    }
  }

  lemma FractionRange(n: nat, p: nat)
    requires n < p
    ensures 0.0 <= n as real / p as real < 1.0
  {
  }

  lemma DegreesOfSum(d: nat, m: nat, x: real)
    requires m < 100 && 0.0 <= x < 1.0
    ensures DegreesOf((100 * d + m) as real + x) == d as real + (m as real + x) / 60.0
  {
    assert Trunc((100 * d + m) as real + x) == 100 * d + m;
    assert (100 * d + m) / 100 == d;
  }

  /** Degrees, minutes, and a decimal fraction of a minute in digits. */
  function InDegrees(d: nat, m: nat, frac: seq<Octet>): real {
    d as real + (m as real + Digits(frac, 10, 0) as real / Power10(|frac|) as real) / 60.0
  }

  /** The text of d degrees and m minutes with that fraction. */
  ghost predicate IsAngle(t: seq<Octet>, whole: seq<Octet>, frac: seq<Octet>, d: nat, m: nat) {
    IsNumeral(t, whole, frac) && m < 100 && Spells(whole, 100 * d + m)
  }

  /** A position field is worth its degrees and so many sixtieths. */
  lemma DegreesAreWorth(t: seq<Octet>, whole: seq<Octet>, frac: seq<Octet>, d: nat, m: nat)
    requires IsAngle(t, whole, frac, d, m)
    ensures Worth(Degrees(t)) == InDegrees(d, m, frac)
  {
    var zeros :| AllZero(zeros) && whole == zeros + Decimal(100 * d + m);
    UnsignedValue(zeros, 100 * d + m, []);
    assert zeros + Decimal(100 * d + m) + [] == whole;
    NumeralIsWorth(t, whole, frac);
    DigitsBelow(frac);
    FractionRange(Digits(frac, 10, 0), Power10(|frac|));
    DegreesOfSum(d, m, Digits(frac, 10, 0) as real / Power10(|frac|) as real);
  }

  /** From any state, for the bytes of a GGA, RMC or GLL sentence: the latitude and the longitude
      are worth the degrees and minutes of their fields, negative in the south and the west. */
  lemma PositionInDecimal(g: Gps, fields: seq<Text>, kind: Kind, whole: seq<Octet>, frac: seq<Octet>, d: nat, m: nat,
                          whole': seq<Octet>, frac': seq<Octet>, d': nat, m': nat)
    requires Wf(g) && FieldsFit(1, fields) && |fields| <= 256
    requires kind == KindOf(['$'] + fields[0]) && HasPosition(kind) && FirstField(kind) + 3 < |fields|
    requires IsAngle(fields[FirstField(kind)], whole, frac, d, m)
    requires IsAngle(fields[FirstField(kind) + 2], whole', frac', d', m')
    ensures FitsAll(g, ['$'] + (Join(fields) + ['*']))
    ensures var f, b := Feed(g, ['$'] + (Join(fields) + ['*'])).sentence.parent, FirstField(kind);
            var south := fields[b + 1] != [] && (fields[b + 1][0] == 'S' || fields[b + 1][0] == 's');
            var west := fields[b + 3] != [] && (fields[b + 3][0] == 'W' || fields[b + 3][0] == 'w');
            && Worth(f.latitude) == (if south then -InDegrees(d, m, frac) else InDegrees(d, m, frac))
            && Worth(f.longitude) == (if west then -InDegrees(d', m', frac') else InDegrees(d', m', frac'))
  {
    PositionOfSentence(g, fields, kind);
    DegreesAreWorth(fields[FirstField(kind)], whole, frac, d, m);
    DegreesAreWorth(fields[FirstField(kind) + 2], whole', frac', d', m');
  }

  // ----- the speed

  /** The same movement, in knots as RMC and field 5 of VTG have it, and in kilometres per hour
      as field 7 of VTG has it. */
  predicate SameMovement(knots: seq<Octet>, kmh: seq<Octet>) {
    StrToF(kmh) == StrToF(knots) * 1.852
  }

  /** In metres per second, which a knot is 1852 of in an hour. */
  function MetresPerSecond(knots: seq<Octet>): real {
    StrToF(knots) * 1852.0 / 3600.0
  }

  /** What a VTG sentence with both fields leaves is the speed in metres per second; what an
      RMC sentence leaves is 3.6 times that; so they agree exactly at rest. */
  lemma SpeedsAgreeIff(f: Fix, rmc: Sheet, vtg: Sheet, knots: seq<Octet>, kmh: seq<Octet>)
    requires rmc[7] == Some(knots) && vtg[7] == Some(kmh) && SameMovement(knots, kmh)
    ensures Worth(VtgLeaves(f, vtg).speed) == MetresPerSecond(knots)
    ensures Worth(RmcLeaves(f, rmc).speed) == 3.6 * MetresPerSecond(knots)
    ensures Worth(RmcLeaves(f, rmc).speed) == Worth(VtgLeaves(f, vtg).speed) <==> StrToF(knots) == 0.0
  {
    SameUnits(StrToF(knots), StrToF(kmh));
  }

  lemma SameUnits(knots: real, kmh: real)
    requires kmh == knots * 1.852
    ensures kmh / 3.6 == knots * 1852.0 / 3600.0 && knots * 1.852 == 3.6 * (knots * 1852.0 / 3600.0)
    ensures knots * 1.852 == kmh / 3.6 <==> knots == 0.0
  {
  }

  /** The height of a GGA sentence with fields 9 and 11 is the sum of both. */
  lemma HeightIsSum(f: Fix, a: Sheet, height: seq<Octet>, separation: seq<Octet>)
    requires a[9] == Some(height) && a[11] == Some(separation)
    ensures Worth(GgaLeaves(f, a).altitude) == StrToF(height) + StrToF(separation)
  {
  }
}
