/** Bytes as text: the "%02X" printer, the hex reader of str2hex.c, and strlen. */
module Hex {

  type Byte = b: int | 0 <= b < 256

  /** `str2hexnum`; a character that is no hex digit counts as zero. */
  function Str2HexNum(c: char): (v: nat)
    ensures v < 16
  {
    if '0' <= c <= '9' then (c - '0') as nat
    else if 'a' <= c <= 'f' then (c - 'a') as nat + 10
    else if 'A' <= c <= 'F' then (c - 'A') as nat + 10
    else 0
  }

  function UpperDigit(v: nat): char
    requires v < 16
  {
    if v < 10 then '0' + v as char else 'A' + (v - 10) as char
  }

  function LowerDigit(v: nat): char
    requires v < 16
  {
    if v < 10 then '0' + v as char else 'a' + (v - 10) as char
  }

  function HexText(bs: seq<Byte>): (s: string)
    ensures |s| == 2 * |bs|
  {
    if bs == [] then "" else [UpperDigit(bs[0] / 16), UpperDigit(bs[0] % 16)] + HexText(bs[1..])
  }

  /** The text of a MAC address, lower case. */
  function MacText(bs: seq<Byte>): (s: string)
    ensures |s| == 2 * |bs|
  {
    if bs == [] then "" else [LowerDigit(bs[0] / 16), LowerDigit(bs[0] % 16)] + MacText(bs[1..])
  }

  /** Character pairs read as bytes; an odd last character is dropped. */
  function ReadHex(s: string): (bs: seq<Byte>)
    ensures |bs| == |s| / 2
  {
    if |s| < 2 then [] else [16 * Str2HexNum(s[0]) + Str2HexNum(s[1])] + ReadHex(s[2..])
  }

  /** The bytes that `strlen` counts. */
  function BeforeZero(bs: seq<Byte>): (r: seq<Byte>)
    ensures r <= bs && 0 !in r
    ensures |r| < |bs| ==> bs[|r|] == 0
  {
    if bs == [] || bs[0] == 0 then [] else [bs[0]] + BeforeZero(bs[1..])
  }

  lemma {:induction false} HexRoundTrip(bs: seq<Byte>)
    ensures ReadHex(HexText(bs)) == bs
  {
    if bs != [] {
      HexRoundTrip(bs[1..]);
      var s := HexText(bs);
      assert s[2..] == HexText(bs[1..]);
      assert Str2HexNum(s[0]) == bs[0] / 16 && Str2HexNum(s[1]) == bs[0] % 16;
    }
  }

  lemma {:induction false} MacRoundTrip(bs: seq<Byte>)
    ensures ReadHex(MacText(bs)) == bs
  {
    if bs != [] {
      MacRoundTrip(bs[1..]);
      var s := MacText(bs);
      assert s[2..] == MacText(bs[1..]);
      assert Str2HexNum(s[0]) == bs[0] / 16 && Str2HexNum(s[1]) == bs[0] % 16;
    }
  }

  lemma MacTextInjective(a: seq<Byte>, b: seq<Byte>)
    requires MacText(a) == MacText(b)
    ensures a == b
  {
    MacRoundTrip(a);
    MacRoundTrip(b);
  }

  lemma {:induction false} HexTextAppend(a: seq<Byte>, b: seq<Byte>)
    ensures HexText(a + b) == HexText(a) + HexText(b)
  {
    if a == [] {
      assert a + b == b;
    } else {
      assert (a + b)[1..] == a[1..] + b;
      HexTextAppend(a[1..], b);
    }
  }

  lemma BeforeZeroOfSplit(a: seq<Byte>, b: seq<Byte>)
    ensures 0 in a ==> BeforeZero(a + b) == BeforeZero(a)
    ensures 0 !in a ==> BeforeZero(a + b) == a + BeforeZero(b)
  {
    if a == [] {
      assert a + b == b;
    } else {
      assert (a + b)[1..] == a[1..] + b;
      BeforeZeroOfSplit(a[1..], b);
    }
  }

  /** The value of a hex numeral. */
  function Numeral(s: string): nat {
    if s == "" then 0 else 16 * Numeral(s[..|s| - 1]) + Str2HexNum(s[|s| - 1])
  }

  /** `str2hex`, on strings short enough for its `int`. */
  method Str2Hex(str: string) returns (value: Byte)
    requires |str| <= 7
    ensures value == Numeral(str) % 256
  {
    var v, i := 0, 0;
    while i < |str|
      invariant 0 <= i <= |str| && v == Numeral(str[..i])
    {
      assert str[..i + 1][..i] == str[..i];
      v := v * 16 + Str2HexNum(str[i]);
      i := i + 1;
    }
    assert str[..i] == str;
    value := v % 256;
  }

  lemma NumeralOfPair(a: char, b: char)
    ensures Numeral([a, b]) == 16 * Str2HexNum(a) + Str2HexNum(b) < 256
  {
    assert [a, b][..1] == [a] && [a][..0] == [];
    assert Numeral([a]) == Str2HexNum(a);
  }

  lemma {:induction false} ReadHexAt(s: string, k: nat)
    requires k < |s| / 2
    ensures ReadHex(s)[k] == 16 * Str2HexNum(s[2 * k]) + Str2HexNum(s[2 * k + 1])
  {
    if k > 0 {
      ReadHexAt(s[2..], k - 1);
      assert s[2..][2 * (k - 1)] == s[2 * k] && s[2..][2 * (k - 1) + 1] == s[2 * k + 1];
    }
  }

  lemma ReadHexAppend(a: string, b: string)
    requires |a| % 2 == 0
    ensures ReadHex(a + b) == ReadHex(a) + ReadHex(b)
  {
    var s, n := a + b, |a| / 2;
    assert |a| == 2 * n && |s| / 2 == n + |b| / 2;
    forall k | 0 <= k < |s| / 2
      ensures ReadHex(s)[k] == (ReadHex(a) + ReadHex(b))[k]
    {
      ReadHexAt(s, k);
      if k < n {
        assert s[2 * k] == a[2 * k] && s[2 * k + 1] == a[2 * k + 1];
        ReadHexAt(a, k);
      } else {
        PairBehind(a, b, n, k);
        ReadHexAt(b, k - n);
      }
    }
  }

  /** A digit is worth what either printer prints as it; any other character is worth nothing. */
  lemma DigitIsWorth(c: char)
    ensures var v := Str2HexNum(c);
            if c == UpperDigit(v) || c == LowerDigit(v) then true
            else v == 0 && forall w :: 0 <= w < 16 ==> c != UpperDigit(w) && c != LowerDigit(w)
  {
  }

  /** Pair k of a text whose first n pairs are those of `a`. */
  lemma PairBehind(a: string, b: string, n: nat, k: nat)
    requires |a| == 2 * n && n <= k && 2 * (k - n) + 1 < |b|
    ensures (a + b)[2 * k] == b[2 * (k - n)] && (a + b)[2 * k + 1] == b[2 * (k - n) + 1]
  {
    assert 2 * k - |a| == 2 * (k - n);
  }

  /** `test`: fills a buffer of 51 bytes and terminates it. */
  method Test(src: string) returns (tmp: array<Byte>)
    requires |src| / 2 <= 50
    ensures fresh(tmp) && tmp.Length == 51
    ensures tmp[..|src| / 2] == ReadHex(src) && tmp[|src| / 2] == 0
  {
    tmp := new Byte[51];
    var size := |src| / 2;
    var i := 0;
    while i < size
      invariant 0 <= i <= size
      invariant forall k :: 0 <= k < i ==> tmp[k] == ReadHex(src)[k]
    {
      ReadHexAt(src, i);
      NumeralOfPair(src[2 * i], src[2 * i + 1]);
      tmp[i] := Str2Hex([src[2 * i], src[2 * i + 1]]);
      i := i + 1;
    }
    tmp[size] := 0;
  }

  /** `strlen` on a terminated buffer, as the decoder's callers use it. */
  method StrLen(tmp: array<Byte>) returns (n: nat)
    requires 0 in tmp[..]
    ensures n < tmp.Length && tmp[n] == 0 && 0 !in tmp[..n]
  {
    n := 0;
    while tmp[n] != 0
      invariant n < tmp.Length && 0 !in tmp[..n] && 0 in tmp[n..]
      decreases tmp.Length - n
    {
      assert tmp[n..] == [tmp[n]] + tmp[n + 1..];
      assert tmp[..n + 1] == tmp[..n] + [tmp[n]];
      n := n + 1;
    }
  }

  /** The loop in `add_queue_lpp_root` and `add_queue_infomation` that prints a frame. */
  method PrintHex(buf: array<Byte>, size: nat) returns (strH: string)
    requires size <= buf.Length
    ensures strH == HexText(buf[..size])
  {
    strH := "";
    var i := 0;
    while i < size
      invariant 0 <= i <= size && strH == HexText(buf[..i])
    {
      assert buf[..i + 1] == buf[..i] + [buf[i]];
      HexTextAppend(buf[..i], [buf[i]]);
      assert [buf[i]][1..] == [];
      strH := strH + [UpperDigit(buf[i] / 16), UpperDigit(buf[i] % 16)];
      i := i + 1;
    }
  }

  lemma {:induction false} StrLenIsBeforeZero(bs: seq<Byte>, n: nat)
    requires n < |bs| && bs[n] == 0 && 0 !in bs[..n]
    ensures bs[..n] == BeforeZero(bs)
  {
    if n > 0 {
      assert bs[0] == bs[..n][0];
      assert bs[1..][..n - 1] == bs[..n][1..];
      StrLenIsBeforeZero(bs[1..], n - 1);
    }
  }
}
