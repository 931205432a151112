/** The kind of a sentence, by the letters that its first item holds. */
module NmeaKinds {
  import opened NmeaFields

  /** Three letters in a row, from position i on. */
  predicate LettersAt(text: seq<Octet>, i: nat, a: char, b: char, c: char) {
    i + 3 <= |text| && text[i] == a && text[i + 1] == b && text[i + 2] == c
  }

  ghost predicate Holds(text: seq<Octet>, a: char, b: char, c: char) {
    exists i: nat :: LettersAt(text, i, a, b, c)
  }

  lemma {:induction false} ContainsIff(text: seq<Octet>, code: seq<Octet>)
    requires |code| == 3
    ensures Contains(text, code) <==> Holds(text, code[0], code[1], code[2])
  {
    var a, b, c := code[0], code[1], code[2];
    if |text| >= 3 {
      assert text[..3] == code <==> LettersAt(text, 0, a, b, c);
      ContainsIff(text[1..], code);
      if i: nat :| LettersAt(text[1..], i, a, b, c) {
        assert LettersAt(text, i + 1, a, b, c);
      }
      if i: nat :| LettersAt(text, i, a, b, c) {
        assert i > 0 ==> LettersAt(text[1..], i - 1, a, b, c);
      }
    }
  }

  /** The kind is that of the first code, in the order GGA, GSA, RMC, GSV, GLL, VTG, that the
      first item holds anywhere, whatever the talker; without any there is no kind. */
  lemma KindIsFirstCode(text: seq<Octet>)
    ensures KindOf(text) ==
            if Holds(text, 'G', 'G', 'A') then GGA
            else if Holds(text, 'G', 'S', 'A') then GSA
            else if Holds(text, 'R', 'M', 'C') then RMC
            else if Holds(text, 'G', 'S', 'V') then GSV
            else if Holds(text, 'G', 'L', 'L') then GLL
            else if Holds(text, 'V', 'T', 'G') then VTG
            else Unknown
  {
    ContainsIff(text, "GGA");
    ContainsIff(text, "GSA");
    ContainsIff(text, "RMC");
    ContainsIff(text, "GSV");
    ContainsIff(text, "GLL");
    ContainsIff(text, "VTG");
  }
}
