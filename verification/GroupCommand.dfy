/** The group command that Bluetooth prints for the mesh, as its receivers read it. */
module GroupCommand {
  import opened Hex
  import opened LppWire
  import opened LppDecoder
  import opened LppRoundTrip
  import opened LampFrames

  /** The two `sprintf` calls that print the numbers, and the one that prints the frame. */
  function GroupText(color: nat, bright: nat): string
    requires color < 65536 && bright < 256
  {
    "9601020304050687" + MacText([color / 256, color % 256]) + "6f" + MacText([bright]) + "9b02"
  }

  method PrintGroup(color: nat, bright: nat) returns (text: string)
    requires color < 65536 && bright < 256
    ensures text == GroupText(color, bright)
  {
    var colorHex := [LowerDigit(color / 4096), LowerDigit(color / 256 % 16),
                     LowerDigit(color / 16 % 16), LowerDigit(color % 16)];
    var dimHex := [LowerDigit(bright / 16), LowerDigit(bright % 16)];
    FourDigits(color);
    TwoDigits(bright);
    text := "9601020304050687" + colorHex + "6f" + dimHex + "9b02";
  }

  lemma TwoDigits(b: nat)
    requires b < 256
    ensures MacText([b]) == [LowerDigit(b / 16), LowerDigit(b % 16)]
  {
    assert [b][1..] == [];
  }

  lemma FourDigits(color: nat)
    requires color < 65536
    ensures MacText([color / 256, color % 256]) ==
            [LowerDigit(color / 4096), LowerDigit(color / 256 % 16),
             LowerDigit(color / 16 % 16), LowerDigit(color % 16)]
  {
    var hi, lo := color / 256, color % 256;
    NibblesOfWord(color);
    assert [hi, lo][1..] == [lo];
    TwoDigits(lo);
    assert MacText([hi, lo]) == [LowerDigit(hi / 16), LowerDigit(hi % 16)] + MacText([lo]);
  }

  lemma NibblesOfWord(color: nat)
    requires color < 65536
    ensures color / 256 / 16 == color / 4096 && color % 256 / 16 == color / 16 % 16 && color % 256 % 16 == color % 16
  {
  }

  /** The records that the group command means: any group member, colour, brightness and
      the group type. */
  function GroupRecords(color: nat, bright: nat): (rs: seq<Record>)
    requires color < 65536 && bright < 256
    ensures AllWellFormed(rs)
  {
    [NodeId([1, 2, 3, 4, 5, 6]), Color(color), Light(bright), TypeControl(2)]
  }

  lemma ReadFour(s: string)
    requires |s| == 8
    ensures ReadHex(s) == [16 * Str2HexNum(s[0]) + Str2HexNum(s[1]), 16 * Str2HexNum(s[2]) + Str2HexNum(s[3]),
                           16 * Str2HexNum(s[4]) + Str2HexNum(s[5]), 16 * Str2HexNum(s[6]) + Str2HexNum(s[7])]
  {
    ReadHexAt(s, 0);
    ReadHexAt(s, 1);
    ReadHexAt(s, 2);
    ReadHexAt(s, 3);
  }

  lemma ReadOne(s: string)
    requires |s| == 2
    ensures ReadHex(s) == [16 * Str2HexNum(s[0]) + Str2HexNum(s[1])]
  {
    ReadHexAt(s, 0);
  }

  lemma GroupPrefix(s: string)
    requires s == "9601020304050687"
    ensures ReadHex(s) == [150, 1, 2, 3, 4, 5, 6, 135]
  {
    var a, b := s[..8], s[8..];
    ReadFour(a);
    ReadFour(b);
    ReadHexAppend(a, b);
    assert s == a + b;
    PrefixHalves(a, b);
  }

  lemma PrefixHalves(a: string, b: string)
    requires |a| == 8 && |b| == 8 && a + b == "9601020304050687"
    ensures a[0] == '9' && a[1] == '6' && a[2] == '0' && a[3] == '1'
    ensures a[4] == '0' && a[5] == '2' && a[6] == '0' && a[7] == '3'
    ensures b[0] == '0' && b[1] == '4' && b[2] == '0' && b[3] == '5'
    ensures b[4] == '0' && b[5] == '6' && b[6] == '8' && b[7] == '7'
  {
    var s := a + b;
    assert a[0] == s[0] && a[1] == s[1] && a[2] == s[2] && a[3] == s[3];
    assert a[4] == s[4] && a[5] == s[5] && a[6] == s[6] && a[7] == s[7];
    assert b[0] == s[8] && b[1] == s[9] && b[2] == s[10] && b[3] == s[11];
    assert b[4] == s[12] && b[5] == s[13] && b[6] == s[14] && b[7] == s[15];
  }

  lemma WireFour(a: Record, b: Record, c: Record, d: Record)
    ensures WireAll([a, b, c, d]) == Wire(a) + Wire(b) + Wire(c) + Wire(d)
  {
    var rs := [a, b, c, d];
    assert rs[1..] == [b, c, d] && rs[1..][1..] == [c, d] && [c, d][1..] == [d] && [d][1..] == [];
    assert WireAll([d]) == Wire(d) + WireAll([]);
    assert WireAll([c, d]) == Wire(c) + Wire(d);
    assert WireAll([b, c, d]) == Wire(b) + (Wire(c) + Wire(d));
  }

  lemma ReadFive(p: string, c: string, m: string, b: string, t: string)
    requires |p| % 2 == 0 && |c| % 2 == 0 && |m| % 2 == 0 && |b| % 2 == 0
    ensures ReadHex(p + c + m + b + t) == ReadHex(p) + ReadHex(c) + ReadHex(m) + ReadHex(b) + ReadHex(t)
  {
    ReadHexAppend(p, c);
    ReadHexAppend(p + c, m);
    ReadHexAppend(p + c + m, b);
    ReadHexAppend(p + c + m + b, t);
  }

  /** The printed text is the hex of those records. */
  lemma GroupTextSpells(color: nat, bright: nat)
    requires color < 65536 && bright < 256
    ensures ReadHex(GroupText(color, bright)) == WireAll(GroupRecords(color, bright))
  {
    var cs, bs := [color / 256, color % 256], [bright];
    var p, m, t := "9601020304050687", "6f", "9b02";
    PiecesSpell(p, m, t, cs, bs);
    WireFour(NodeId([1, 2, 3, 4, 5, 6]), Color(color), Light(bright), TypeControl(2));
    GroupBytes(color, bright);
  }

  lemma PiecesSpell(p: string, m: string, t: string, cs: seq<Byte>, bs: seq<Byte>)
    requires p == "9601020304050687" && m == "6f" && t == "9b02"
    ensures ReadHex(p + MacText(cs) + m + MacText(bs) + t) == [150, 1, 2, 3, 4, 5, 6, 135] + cs + [111] + bs + [155, 2]
  {
    ReadFive(p, MacText(cs), m, MacText(bs), t);
    GroupPrefix(p);
    MiddleAndTail(m, t);
    MacRoundTrip(cs);
    MacRoundTrip(bs);
  }

  lemma MiddleAndTail(m: string, t: string)
    requires m == "6f" && t == "9b02"
    ensures ReadHex(m) == [111] && ReadHex(t) == [155, 2]
  {
    ReadOne(m);
    ReadTwo(t);
  }

  lemma GroupBytes(color: nat, bright: nat)
    requires color < 65536 && bright < 256
    ensures [150, 1, 2, 3, 4, 5, 6, 135] + [color / 256, color % 256] + [111] + [bright] + [155, 2] ==
            Wire(NodeId([1, 2, 3, 4, 5, 6])) + Wire(Color(color)) + Wire(Light(bright)) + Wire(TypeControl(2))
  {
  }

  lemma {:induction false} OneFieldEach(rs: seq<Record>)
    requires forall i :: 0 <= i < |rs| ==> |Emitted(rs[i])| == 1
    ensures |AllEmitted(rs)| == |rs|
  {
    if rs != [] {
      OneFieldEach(rs[1..]);
    }
  }

  lemma FewerRecordsFewerFields(rs: seq<Record>, k: nat)
    requires k <= |rs| && forall i :: 0 <= i < |rs| ==> |Emitted(rs[i])| == 1
    ensures AllEmitted(rs[..k]) == AllEmitted(rs) <==> k == |rs|
  {
    OneFieldEach(rs);
    OneFieldEach(rs[..k]);
    assert rs[..|rs|] == rs;
  }

  /** A text of records with one field each is read whole exactly if no byte is zero. */
  lemma ReadWholeIff(text: string, rs: seq<Record>)
    requires AllWellFormed(rs) && ReadHex(text) == WireAll(rs)
    requires forall i :: 0 <= i < |rs| ==> |Emitted(rs[i])| == 1
    ensures FrameFields(text) == AllEmitted(rs) <==> LeadingZeroFree(rs) == |rs|
  {
    CutDecodes(rs);
    FewerRecordsFewerFields(rs, LeadingZeroFree(rs));
  }

  /** A receiver reads the group command whole exactly if none of its three variable bytes
      is zero. */
  lemma GroupCommandArrivesIff(color: nat, bright: nat)
    requires color < 65536 && bright < 256
    ensures FrameFields(GroupText(color, bright)) == AllEmitted(GroupRecords(color, bright)) <==>
            color / 256 != 0 && color % 256 != 0 && bright != 0
  {
    GroupTextSpells(color, bright);
    ReadWholeIff(GroupText(color, bright), GroupRecords(color, bright));
    GroupZeroBytes(NodeId([1, 2, 3, 4, 5, 6]), Color(color), Light(bright), TypeControl(2), color, bright);
  }

  lemma GroupMacIsZeroFree(a: Record)
    requires a == NodeId([1, 2, 3, 4, 5, 6])
    ensures ZeroFree(a)
  {
  }

  /** A text whose second record has a zero byte and whose first has none. */
  lemma FirstOnly(text: string, rs: seq<Record>, a: Record, b: Record)
    requires AllWellFormed(rs) && ReadHex(text) == WireAll(rs)
    requires |rs| > 1 && rs[0] == a && rs[1] == b && ZeroFree(a) && !ZeroFree(b)
    ensures FrameFields(text) == Emitted(a) && !Accepts(BeforeZero(ReadHex(text)))
  {
    CutDecodes(rs);
    AllZeroFree(rs);
    assert rs[1..][0] == b;
    assert LeadingZeroFree(rs[1..]) == 0;
    assert rs[..1] == [a] && [a][1..] == [];
    assert AllEmitted([a]) == Emitted(a) + AllEmitted([]);
  }

  /** An ordinary colour with a zero byte: of the group command for 2816 a receiver gets the
      node ID and nothing more, and refuses it. */
  lemma ColorWithZeroByteIsLost(color: nat, bright: nat)
    requires color == 2816 && bright < 256
    ensures 2700 <= color <= 6500
    ensures FrameFields(GroupText(color, bright)) == Emitted(NodeId([1, 2, 3, 4, 5, 6]))
    ensures !Accepts(BeforeZero(ReadHex(GroupText(color, bright))))
  {
    var a, b := NodeId([1, 2, 3, 4, 5, 6]), Color(color);
    GroupTextSpells(color, bright);
    GroupMacIsZeroFree(a);
    assert Wire(b)[2] == 0;
    FirstOnly(GroupText(color, bright), GroupRecords(color, bright), a, b);
  }

  lemma GroupZeroBytes(a: Record, b: Record, c: Record, d: Record, color: nat, bright: nat)
    requires color < 65536 && bright < 256
    requires a == NodeId([1, 2, 3, 4, 5, 6]) && b == Color(color) && c == Light(bright) && d == TypeControl(2)
    ensures LeadingZeroFree([a, b, c, d]) == 4 <==> color / 256 != 0 && color % 256 != 0 && bright != 0
  {
    var rs := [a, b, c, d];
    assert Wire(b)[1] == color / 256 && Wire(b)[2] == color % 256 && Wire(c)[1] == bright;
    assert ZeroFree(a) && ZeroFree(d);
    assert ZeroFree(b) <==> color / 256 != 0 && color % 256 != 0;
    assert ZeroFree(c) <==> bright != 0;
    assert rs[1..] == [b, c, d] && [b, c, d][1..] == [c, d] && [c, d][1..] == [d] && [d][1..] == [];
    assert LeadingZeroFree([d]) == 1;
    assert rs[0] == a && rs[1] == b && rs[2] == c && rs[3] == d;
  }
}
