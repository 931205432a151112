/** The two PWM maps of led_driver.c. */
module Led {
  import opened Arithmetic

  /** The colour duty for a `uint16_t` colour temperature. */
  function ColorDuty(value: nat): int {
    var v := if value > 6500 || value < 2700 then 6500 else value;
    (v - 2700) * 255 / 3800
  }

  /** The brightness duty for a `uint8_t` percentage, before it is narrowed. */
  function BrightnessDuty(value: nat, maxPwm: int, lowPwm: int): int {
    var v := if value > 100 || value < 10 then 100 else value;
    TruncDiv((100 - v - 10) * (maxPwm - lowPwm), 90) + lowPwm
  }

  /** The assignment to a `uint16_t`. */
  function Narrow(duty: int): nat {
    duty % 65536
  }

  lemma ColorIsMonotone(a: nat, b: nat)
    requires 2700 <= a <= b <= 6500
    ensures 0 <= ColorDuty(a) <= ColorDuty(b) <= 255
  {
  }

  /** Every duty is reached, and the two ends are the ends of the range. */
  lemma ColorIsOnto(duty: nat) returns (value: nat)
    requires duty <= 255
    ensures 2700 <= value <= 6500 && ColorDuty(value) == duty
    ensures ColorDuty(2700) == 0 && ColorDuty(6500) == 255
  {
    value := 2700 + (3800 * duty + 254) / 255;
  }

  /** The duty is the whole number of 255ths of the range that the colour has passed; a colour
      out of range counts as the coldest. */
  lemma ColorIsNearest(value: nat)
    ensures 2700 <= value <= 6500 ==>
              3800 * ColorDuty(value) <= 255 * (value - 2700) < 3800 * (ColorDuty(value) + 1)
    ensures value < 2700 || value > 6500 ==> ColorDuty(value) == 255
  {
  }

  lemma NinetiethsAreMonotone(a: int, b: int)
    requires a <= b
    ensures TruncDiv(a, 90) <= TruncDiv(b, 90)
  {
  }

  lemma Scaled(x: int, y: int, d: nat)
    requires x <= y
    ensures x * d <= y * d
  {
  }

  /** The map before rounding falls or rises with the brightness, by the order of the limits. */
  lemma BrightnessIsMonotone(a: nat, b: nat, maxPwm: int, lowPwm: int)
    requires 10 <= a <= b <= 100
    ensures lowPwm <= maxPwm ==> BrightnessDuty(a, maxPwm, lowPwm) >= BrightnessDuty(b, maxPwm, lowPwm)
    ensures maxPwm <= lowPwm ==> BrightnessDuty(a, maxPwm, lowPwm) <= BrightnessDuty(b, maxPwm, lowPwm)
  {
    var d := maxPwm - lowPwm;
    if d >= 0 {
      Scaled(90 - b, 90 - a, d);
      NinetiethsAreMonotone((90 - b) * d, (90 - a) * d);
    } else {
      Scaled(90 - b, 90 - a, -d);
      assert (90 - a) * d == -((90 - a) * -d) && (90 - b) * d == -((90 - b) * -d);
      NinetiethsAreMonotone((90 - a) * d, (90 - b) * d);
    }
  }

  /** n ninths of the span d, toward zero. */
  function Ninths(n: nat, d: int): int {
    TruncDiv(n * d, 9)
  }

  lemma TenTimes(x: int)
    ensures TruncDiv(10 * x, 90) == TruncDiv(x, 9) && TruncDiv(-10 * x, 90) == -TruncDiv(x, 9)
  {
  }

  /** The two ends of the map. */
  lemma BrightnessEnds(maxPwm: int, lowPwm: int)
    ensures BrightnessDuty(100, maxPwm, lowPwm) == lowPwm - Ninths(1, maxPwm - lowPwm)
    ensures BrightnessDuty(10, maxPwm, lowPwm) == lowPwm + Ninths(8, maxPwm - lowPwm)
  {
    var d := maxPwm - lowPwm;
    TenTimes(d);
    TenTimes(8 * d);
    assert (100 - 100 - 10) * d == -10 * d;
    assert (100 - 10 - 10) * d == 10 * (8 * d);
  }

  lemma TowardZero(x: int)
    ensures x >= 0 ==> 90 * TruncDiv(x, 90) <= x < 90 * (TruncDiv(x, 90) + 1)
    ensures x <= 0 ==> 90 * (TruncDiv(x, 90) - 1) < x <= 90 * TruncDiv(x, 90)
  {
  }

  /** The duty is at the lower limit plus so many ninetieths of the span as the brightness is
      short of 90 percent, toward zero; a brightness out of range counts as full. */
  lemma BrightnessIsNearest(value: nat, maxPwm: int, lowPwm: int)
    ensures 10 <= value <= 100 ==>
              var x, q := (90 - value) * (maxPwm - lowPwm), BrightnessDuty(value, maxPwm, lowPwm) - lowPwm;
              if x >= 0 then 90 * q <= x < 90 * (q + 1) else 90 * (q - 1) < x <= 90 * q
    ensures value < 10 || value > 100 ==>
              BrightnessDuty(value, maxPwm, lowPwm) == lowPwm - Ninths(1, maxPwm - lowPwm)
  {
    if 10 <= value <= 100 {
      TowardZero((90 - value) * (maxPwm - lowPwm));
      assert 100 - value - 10 == 90 - value;
    } else {
      BrightnessEnds(maxPwm, lowPwm);
    }
  }

  /** Every duty lies between the two ends. */
  lemma BrightnessBounds(value: nat, maxPwm: int, lowPwm: int)
    ensures var full, dim, duty := lowPwm - Ninths(1, maxPwm - lowPwm), lowPwm + Ninths(8, maxPwm - lowPwm),
                                   BrightnessDuty(value, maxPwm, lowPwm);
            if lowPwm <= maxPwm then full <= duty <= dim else dim <= duty <= full
  {
    BrightnessEnds(maxPwm, lowPwm);
    var v := if value > 100 || value < 10 then 100 else value;
    BrightnessIsMonotone(v, 100, maxPwm, lowPwm);
    BrightnessIsMonotone(10, v, maxPwm, lowPwm);
  }

  /** The duty is non-negative for every input exactly if a ninth of the span, rounded
      down, is at most the lower limit; limits in the wrong order always are. */
  lemma BrightnessNonNegativeIff(maxPwm: nat, lowPwm: nat)
    ensures (forall value: nat :: BrightnessDuty(value, maxPwm, lowPwm) >= 0) <==> (maxPwm - lowPwm) / 9 <= lowPwm
  {
    BrightnessEnds(maxPwm, lowPwm);
    assert BrightnessDuty(100, maxPwm, lowPwm) >= 0 <==> Ninths(1, maxPwm - lowPwm) <= lowPwm;
    forall value: nat | (maxPwm - lowPwm) / 9 <= lowPwm
      ensures BrightnessDuty(value, maxPwm, lowPwm) >= 0
    {
      BrightnessBounds(value, maxPwm, lowPwm);
    }
  }

  /** What the limits must satisfy for the eight-bit timer. */
  predicate FitTimer(maxPwm: nat, lowPwm: nat) {
    if lowPwm <= maxPwm then (maxPwm - lowPwm) / 9 <= lowPwm && lowPwm + 8 * (maxPwm - lowPwm) / 9 <= 255
    else lowPwm + (lowPwm - maxPwm) / 9 <= 255
  }

  /** The duty stays within the timer for every input exactly under that condition. */
  lemma BrightnessFitsIff(maxPwm: nat, lowPwm: nat)
    ensures (forall value: nat :: 0 <= BrightnessDuty(value, maxPwm, lowPwm) <= 255) <==> FitTimer(maxPwm, lowPwm)
  {
    BrightnessEnds(maxPwm, lowPwm);
    EndsFitIff(maxPwm, lowPwm);
    assert 0 <= BrightnessDuty(100, maxPwm, lowPwm) <= 255 && 0 <= BrightnessDuty(10, maxPwm, lowPwm) <= 255 <==>
           FitTimer(maxPwm, lowPwm);
    forall value: nat | FitTimer(maxPwm, lowPwm)
      ensures 0 <= BrightnessDuty(value, maxPwm, lowPwm) <= 255
    {
      BrightnessBounds(value, maxPwm, lowPwm);
    }
  }

  lemma EndsFitIff(maxPwm: nat, lowPwm: nat)
    ensures var full, dim := lowPwm - Ninths(1, maxPwm - lowPwm), lowPwm + Ninths(8, maxPwm - lowPwm);
            0 <= full <= 255 && 0 <= dim <= 255 <==> FitTimer(maxPwm, lowPwm)
  {
  }

  /** Both failures are limits that one command can store: a lower limit too small for the
      span, and limits in the wrong order. */
  lemma LimitsThatDoNotFit()
    ensures BrightnessDuty(100, 101, 1) == -10
    ensures BrightnessDuty(100, 0, 255) == 283
  {
    BrightnessEnds(101, 1);
    BrightnessEnds(0, 255);
  }
}
