/** The mesh ID: six digits that a command overwrites and a report prints. */
module MeshId {
  import opened Arithmetic
  import opened LppEncoder
  import opened Hex

  predicate IsDigits(ds: seq<int>) {
    forall i :: 0 <= i < |ds| ==> 0 <= ds[i] < 10
  }

  /** The number that a row of digits spells. */
  function Spelled(ds: seq<int>): int {
    if ds == [] then 0 else 10 * Spelled(ds[..|ds| - 1]) + ds[|ds| - 1]
  }

  /** The digits after `v` was written over their end; zero writes nothing. */
  function Overwritten(ds: seq<int>, v: int): seq<int> {
    if v <= 0 || ds == [] then ds else Overwritten(ds[..|ds| - 1], v / 10) + [v % 10]
  }

  /** Decimal digits of v, none for zero. */
  function DigitCount(v: int): nat {
    if v <= 0 then 0 else 1 + DigitCount(v / 10)
  }

  lemma SixDigits()
    ensures Power10(6) == 1000000
  {
    assert Power10(2) == 100 && Power10(4) == 10000;
  }

  lemma DropDigit(a: int, d: int, p: int)
    requires 0 <= d < 10 && p > 0 && a >= 0
    ensures (10 * a + d) / (10 * p) == a / p
  {
    var q, r := a / p, a % p;
    assert a == p * q + r;
    assert 10 * a + d == (10 * p) * q + (10 * r + d);
    QuotientIs(10 * a + d, 10 * p, q, 10 * r + d);
  }

  lemma QuotientIsZero(w: int, p: int)
    requires p > 0 && w >= 0
    ensures w / p * p == 0 <==> w < p
  {
    assert w == p * (w / p) + w % p;
    ProductSign(p, w / p);
  }

  lemma {:induction false} SpelledIsNatural(ds: seq<int>)
    requires IsDigits(ds)
    ensures 0 <= Spelled(ds)
  {
    if ds != [] {
      SpelledIsNatural(ds[..|ds| - 1]);
    }
  }

  lemma {:induction false} SpelledBelow(ds: seq<int>)
    requires IsDigits(ds)
    ensures Spelled(ds) < Power10(|ds|)
  {
    if ds != [] {
      SpelledBelow(ds[..|ds| - 1]);
    }
  }

  /** Writing v keeps the leading digits of the old value: it replaces exactly as many
      digits as v has. */
  lemma {:induction false} OverwrittenSpells(ds: seq<int>, v: int)
    requires IsDigits(ds) && 0 <= v < Power10(|ds|)
    ensures IsDigits(Overwritten(ds, v)) && |Overwritten(ds, v)| == |ds|
    ensures Spelled(Overwritten(ds, v)) == Spelled(ds) / Power10(DigitCount(v)) * Power10(DigitCount(v)) + v
  {
    if v > 0 {
      var n := |ds| - 1;
      var init := ds[..n];
      OverwrittenSpells(init, v / 10);
      SpelledIsNatural(init);
      var p := Power10(DigitCount(v / 10));
      DropDigit(Spelled(init), ds[n], p);
      var out := Overwritten(init, v / 10) + [v % 10];
      assert out[..n] == Overwritten(init, v / 10);
      Regroup(Spelled(init) / p, p, v);
    }
  }

  lemma Regroup(q: int, p: int, v: int)
    ensures 10 * (q * p + v / 10) + v % 10 == q * (10 * p) + v
  {
  }

  /** The written ID is read back exactly if the old one had no more digits than it. */
  lemma RoundTripIffNotLonger(ds: seq<int>, v: int)
    requires IsDigits(ds) && 0 <= v < Power10(|ds|)
    ensures Spelled(Overwritten(ds, v)) == v <==> Spelled(ds) < Power10(DigitCount(v))
  {
    OverwrittenSpells(ds, v);
    SpelledIsNatural(ds);
    QuotientIsZero(Spelled(ds), Power10(DigitCount(v)));
  }

  /** In particular every ID of as many digits as the row holds. */
  lemma FullLengthRoundTrips(ds: seq<int>, v: int)
    requires IsDigits(ds) && 0 <= v < Power10(|ds|) && DigitCount(v) == |ds|
    ensures Spelled(Overwritten(ds, v)) == v
  {
    RoundTripIffNotLonger(ds, v);
    SpelledBelow(ds);
  }

  /** The factory setting 123456 followed by a write of 7 gives 123457. */
  lemma ShorterIdKeepsOldDigits()
    ensures Spelled([1, 2, 3, 4, 5, 6]) == 123456
    ensures Overwritten([1, 2, 3, 4, 5, 6], 7) == [1, 2, 3, 4, 5, 7]
    ensures Spelled([1, 2, 3, 4, 5, 7]) == 123457
  {
    var a := [1, 2, 3, 4, 5];
    assert a[..4] == [1, 2, 3, 4] && a[..4][..3] == [1, 2, 3] && [1, 2, 3][..2] == [1, 2] && [1, 2][..1] == [1];
    assert Spelled([1]) == 1 && Spelled([1, 2]) == 12 && Spelled([1, 2, 3]) == 123;
    assert Spelled([1, 2, 3, 4]) == 1234 && Spelled(a) == 12345;
    assert [1, 2, 3, 4, 5, 6][..5] == a && [1, 2, 3, 4, 5, 7][..5] == a;
  }

  /** The digits after position i are written, and `rest` is still to be written. */
  ghost predicate WrittenTo(before: seq<int>, now: seq<int>, i: int, rest: int, value: int) {
    && |now| == |before| && -1 <= i < |now| && rest < Power10(i + 1)
    && now[..i + 1] == before[..i + 1]
    && Overwritten(before[..i + 1], rest) + now[i + 1..] == Overwritten(before, value)
  }

  lemma WriteOneDigit(before: seq<int>, now: seq<int>, i: int, rest: int, value: int)
    requires WrittenTo(before, now, i, rest, value) && rest > 0 && i >= 0
    ensures WrittenTo(before, now[i := rest % 10], i - 1, rest / 10, value)
  {
    var init, next := before[..i + 1], now[i := rest % 10];
    assert init[..i] == before[..i];
    assert next[..i] == now[..i + 1][..i];
    assert next[i..] == [rest % 10] + now[i + 1..];
    assert Overwritten(init, rest) + now[i + 1..] == Overwritten(before[..i], rest / 10) + next[i..];
  }

  /** The digit loop of the Bluetooth command, in place. */
  method WriteDigits(meshid: array<int>, value: int)
    requires value < Power10(meshid.Length)
    modifies meshid
    ensures meshid[..] == Overwritten(old(meshid[..]), value)
  {
    var myvalue, i := value, meshid.Length - 1;
    ghost var before := meshid[..];
    assert before[..meshid.Length] == before;
    while myvalue > 0
      invariant WrittenTo(before, meshid[..], i, myvalue, value)
      decreases myvalue
    {
      var digit := myvalue % 10;
      WriteOneDigit(before, meshid[..], i, myvalue, value);
      meshid[i] := digit;
      myvalue := myvalue / 10;
      i := i - 1;
    }
    assert meshid[..] == meshid[..i + 1] + meshid[i + 1..];
  }

  function DigitChar(d: int): char
    requires 0 <= d < 10
  {
    '0' + d as char
  }

  /** `atoi` on digits after white space. */
  function Atoi(s: string, acc: int): int {
    if s == "" then acc
    else if s[0] == '\n' then Atoi(s[1..], acc)
    else if '0' <= s[0] <= '9' then Atoi(s[1..], 10 * acc + (s[0] - '0') as int)
    else acc
  }

  lemma {:induction false} AtoiAppend(s: string, c: char, acc: int)
    requires forall i :: 0 <= i < |s| ==> s[i] == '\n' || '0' <= s[i] <= '9'
    requires '0' <= c <= '9'
    ensures Atoi(s + [c], acc) == 10 * Atoi(s, acc) + (c - '0') as int
  {
    if s == "" {
      assert [c][1..] == "";
    } else {
      assert (s + [c])[1..] == s[1..] + [c];
      AtoiAppend(s[1..], c, if s[0] == '\n' then acc else 10 * acc + (s[0] - '0') as int);
    }
  }

  /** `array_to_num`: prints the digits behind a newline and reads the number back. */
  method ArrayToNum(arr: array<int>) returns (num: int)
    requires IsDigits(arr[..])
    ensures num == Spelled(arr[..])
  {
    var number := "\n";
    var i := 0;
    assert number[1..] == "" && Atoi(number, 0) == 0;
    while i < arr.Length
      invariant 0 <= i <= arr.Length
      invariant forall k :: 0 <= k < |number| ==> number[k] == '\n' || '0' <= number[k] <= '9'
      invariant Atoi(number, 0) == Spelled(arr[..i])
    {
      assert arr[..][i] == arr[i];
      AtoiAppend(number, DigitChar(arr[i]), 0);
      assert arr[..i + 1][..i] == arr[..i];
      number := number + [DigitChar(arr[i])];
      i := i + 1;
    }
    assert arr[..i] == arr[..];
    num := Atoi(number, 0);
  }

  /** The three bytes of the mesh-ID record spell the ID. */
  lemma MeshIdBytes(v: nat)
    requires v < 0x100_0000
    ensures var b := Word24(v); (b[0] as int) * 65536 + (b[1] as int) * 256 + b[2] == v
  {
    ShiftTwice(v);
    var q := v / 256;
    assert v == 256 * q + v % 256 && q == 256 * (q / 256) + q % 256 && q / 256 < 256;
  }

  function BytesSpell(b: seq<Byte>): nat
    requires |b| == 3
  {
    65536 * (b[0] as int) + 256 * (b[1] as int) + b[2]
  }

  /** The whole way of a mesh ID, from the command over the six digits to the three bytes of
      the report: the report spells the ID exactly if the old one had no more digits. */
  lemma MeshIdArrivesIff(ds: seq<int>, v: nat)
    requires IsDigits(ds) && |ds| == 6 && v < 1000000
    ensures 0 <= Spelled(Overwritten(ds, v)) < 1000000
    ensures BytesSpell(Word24(Spelled(Overwritten(ds, v)))) == v <==> Spelled(ds) < Power10(DigitCount(v))
  {
    SixDigits();
    OverwrittenSpells(ds, v);
    SpelledIsNatural(Overwritten(ds, v));
    SpelledBelow(Overwritten(ds, v));
    RoundTripIffNotLonger(ds, v);
    MeshIdBytes(Spelled(Overwritten(ds, v)));
  }

  /** The same way through the three pieces of code: the Bluetooth command, the number that
      the report makes of the digits, and the record. */
  method ReportWrittenId(meshid: array<int>, value: nat, lpp: CayenneLpp)
    requires meshid.Length == 6 && IsDigits(meshid[..]) && value < 1000000
    requires lpp.Valid() && lpp.Room(4) && lpp.cursor + 4 <= lpp.maxsize
    modifies meshid, lpp`cursor, lpp.buffer
    ensures lpp.Valid() && |lpp.Contents()| == |old(lpp.Contents())| + 4 && old(lpp.Contents()) <= lpp.Contents()
    ensures BytesSpell(lpp.Contents()[|old(lpp.Contents())| + 1..]) == value <==>
            Spelled(old(meshid[..])) < Power10(DigitCount(value))
  {
    ghost var digits, before := meshid[..], lpp.Contents();
    SixDigits();
    MeshIdArrivesIff(digits, value);
    WriteDigits(meshid, value);
    OverwrittenSpells(digits, value);
    var num := ArrayToNum(meshid);
    var _ := lpp.AddMeshId(num);
    assert lpp.Contents()[|before| + 1..] == Word24(num);
  }
}
