/** The whole way of a payload: encode, print as hex, read the text, cut at the first
    zero byte, decode. */
module LppRoundTrip {
  import opened Hex
  import opened LppWire
  import opened LppDecoder
  import opened LppEncoder
  import opened Options

  predicate ZeroFree(r: Record) {
    0 !in Wire(r)
  }

  /** How many records come before the first one with a zero byte. */
  function LeadingZeroFree(rs: seq<Record>): (n: nat)
    ensures n <= |rs|
    ensures forall i :: 0 <= i < n ==> ZeroFree(rs[i])
    ensures n < |rs| ==> !ZeroFree(rs[n])
  {
    if rs == [] || !ZeroFree(rs[0]) then 0 else 1 + LeadingZeroFree(rs[1..])
  }

  /** A record that is cut inside is not read, and what is left of it is refused. */
  lemma CutInside(r: Record, rest: seq<Byte>)
    requires WellFormed(r) && !ZeroFree(r)
    ensures Records(BeforeZero(Wire(r) + rest)) == [] && !Accepts(BeforeZero(Wire(r) + rest))
  {
    BeforeZeroOfSplit(Wire(r), rest);
    var cut := BeforeZero(Wire(r));
    assert cut != [] && cut[0] == r.tag;
    assert |cut| < RecordSize(r.tag);
    assert Head(cut).None?;
  }

  /** What the decoder makes of records that were cut at the first zero byte: exactly
      the records before it, and it accepts exactly if nothing was cut. */
  lemma {:induction false} CutDecodes(rs: seq<Record>)
    requires AllWellFormed(rs)
    ensures Records(BeforeZero(WireAll(rs))) == rs[..LeadingZeroFree(rs)]
    ensures Accepts(BeforeZero(WireAll(rs))) <==> 0 !in WireAll(rs)
  {
    if rs != [] {
      var r, more := rs[0], WireAll(rs[1..]);
      if ZeroFree(r) {
        CutDecodes(rs[1..]);
        BeforeZeroOfSplit(Wire(r), more);
        RecordsOfWire(r, BeforeZero(more));
        var rs' := Records(BeforeZero(more));
        assert ([r] + rs')[1..] == rs';
        assert rs[..LeadingZeroFree(rs)] == [r] + rs[1..][..LeadingZeroFree(rs[1..])];
        assert 0 in WireAll(rs) <==> 0 in more;
      } else {
        CutInside(r, more);
        var k :| 0 <= k < |Wire(r)| && Wire(r)[k] == 0;
        assert WireAll(rs)[k] == 0;
      }
    }
  }

  lemma {:induction false} AllZeroFree(rs: seq<Record>)
    ensures LeadingZeroFree(rs) == |rs| <==> 0 !in WireAll(rs)
  {
    if rs != [] {
      AllZeroFree(rs[1..]);
      var r, more := rs[0], WireAll(rs[1..]);
      assert WireAll(rs) == Wire(r) + more;
      assert 0 in WireAll(rs) <==> 0 in Wire(r) || 0 in more;
    }
  }

  /** The list comes back unchanged exactly if no byte of it is zero. */
  lemma RoundTripIffNoZero(rs: seq<Record>)
    requires AllWellFormed(rs)
    ensures Records(BeforeZero(WireAll(rs))) == rs <==> 0 !in WireAll(rs)
  {
    CutDecodes(rs);
    AllZeroFree(rs);
  }

  /** Brightness 0 is such a byte: the record and all that follow it are lost. */
  lemma BrightnessZeroIsLost()
    ensures Records(BeforeZero(WireAll([Color(2700), Light(0)]))) == [Color(2700)]
    ensures !Accepts(BeforeZero(WireAll([Color(2700), Light(0)])))
  {
    var rs := [Color(2700), Light(0)];
    CutDecodes(rs);
    AllZeroFree(rs);
    assert rs[1..] == [Light(0)] && rs[1..][1..] == [];
    assert Wire(Light(0))[1] == 0;
    assert LeadingZeroFree(rs[1..]) == 0 && LeadingZeroFree(rs) == 1;
    assert rs[..1] == [Color(2700)];
  }

  /** The records of the round trip: node ID, colour and brightness. */
  ghost predicate Encodable(rs: seq<Record>) {
    && AllWellFormed(rs)
    && forall i :: 0 <= i < |rs| ==>
         rs[i].tag == CM_LPP_NODE_ID || rs[i].tag == CM_LPP_COLOR || rs[i].tag == CM_LPP_LIGHT_CONTROL
  }

  /** One of the three add methods, chosen by the record. */
  method Encode(lpp: CayenneLpp, r: Record)
    requires lpp.Valid() && lpp.cursor + RecordSize(r.tag) <= lpp.buffer.Length && Encodable([r])
    modifies lpp`cursor, lpp.buffer
    ensures lpp.Valid() && lpp.Contents() == old(lpp.Contents()) + Wire(r)
  {
    assert [r][0] == r;
    if r.tag == CM_LPP_NODE_ID {
      MacRoundTrip(r.body);
      var _ := lpp.AddMac(r.tag, MacText(r.body));
    } else if r.tag == CM_LPP_COLOR {
      var val := 256 * (r.body[0] as int) + r.body[1];
      assert r.body == [val / 256, val % 256];
      var _ := lpp.AddWord(r.tag, val);
    } else {
      assert r.body == [r.body[0]];
      var _ := lpp.AddByte(r.tag, r.body[0]);
    }
  }

  method EncodeAll(rs: seq<Record>) returns (lpp: CayenneLpp)
    requires Encodable(rs) && |WireAll(rs)| <= 50
    ensures fresh(lpp) && fresh(lpp.buffer) && lpp.Valid() && lpp.Contents() == WireAll(rs)
  {
    lpp := new CayenneLpp(51);
    var i := 0;
    assert rs[..0] == [];
    while i < |rs|
      invariant 0 <= i <= |rs|
      invariant fresh(lpp) && fresh(lpp.buffer) && lpp.buffer.Length == 51
      invariant lpp.Valid() && lpp.Contents() == WireAll(rs[..i])
    {
      PrefixWire(rs, i);
      Encode(lpp, rs[i]);
      i := i + 1;
    }
    assert rs[..|rs|] == rs;
  }

  lemma PrefixWire(rs: seq<Record>, i: nat)
    requires i < |rs|
    ensures WireAll(rs[..i + 1]) == WireAll(rs[..i]) + Wire(rs[i])
    ensures |WireAll(rs[..i])| + |Wire(rs[i])| <= |WireAll(rs)|
  {
    assert rs[..i + 1] == rs[..i] + [rs[i]];
    WireAllSnoc(rs[..i], rs[i]);
    assert rs == rs[..i + 1] + rs[i + 1..];
    WireAllAppend(rs[..i + 1], rs[i + 1..]);
  }

  /** Encode, print, read, decode, as the firmware does at the two ends. */
  method SendAndReceive(rs: seq<Record>) returns (ok: bool, root: seq<Field>)
    requires Encodable(rs) && |WireAll(rs)| <= 50
    ensures ok <==> 0 !in WireAll(rs)
    ensures root == AllEmitted(rs[..LeadingZeroFree(rs)])
  {
    var lpp := EncodeAll(rs);
    var text := PrintHex(lpp.buffer, lpp.cursor);
    HexRoundTrip(WireAll(rs));
    CutDecodes(rs);
    ok, root := DecodeText(text);
  }

  lemma ReadToFirstZero(bs: seq<Byte>, tmp: seq<Byte>, n: nat)
    requires |bs| < |tmp| && tmp[..|bs|] == bs && tmp[|bs|] == 0
    requires n < |tmp| && tmp[n] == 0 && 0 !in tmp[..n]
    ensures tmp[..n] == BeforeZero(bs)
  {
    StrLenIsBeforeZero(tmp, n);
    assert n <= |bs| by {
      forall k | 0 <= k < n
        ensures tmp[k] != 0
      {
        assert tmp[..n][k] == tmp[k];
      }
    }
    assert tmp == bs + tmp[|bs|..];
    BeforeZeroOfSplit(bs, tmp[|bs|..]);
    assert bs + [] == bs;
  }

  /** The receiving half, as both the frame handler and the node-report task begin. */
  method DecodeText(text: string) returns (ok: bool, root: seq<Field>)
    requires |text| / 2 <= 50
    ensures ok <==> Accepts(BeforeZero(ReadHex(text)))
    ensures root == AllEmitted(Records(BeforeZero(ReadHex(text))))
  {
    var tmp := Test(text);
    assert 0 in tmp[..] by { assert tmp[..][|text| / 2] == 0; }
    var n := StrLen(tmp);
    ReadToFirstZero(ReadHex(text), tmp[..], n);
    ok, root := ParseCMLPP(tmp[..n]);
  }

  /** The encoder writes ten bytes for a position, tag included, and the decoder takes
      eleven: it always swallows the first byte of what follows, and refuses a position
      at the end. */
  lemma GpsSwallowsNextByte(position: seq<Byte>, rest: seq<Byte>)
    requires |position| == 9
    ensures var buf := [136] + position + rest;
            if rest == [] then Records(buf) == [] && !Accepts(buf)
            else Records(buf) == [Record(136, position + [rest[0]])] + Records(rest[1..]) &&
                 (Accepts(buf) <==> Accepts(rest[1..]))
  {
    var buf: seq<Byte> := [136] + position + rest;
    if rest != [] {
      var r := Record(LPP_GPS, position + [rest[0]]);
      assert buf == Wire(r) + rest[1..];
      RecordsOfWire(r, rest[1..]);
      var more := Records(rest[1..]);
      assert ([r] + more)[1..] == more;
    } else {
      assert Head(buf).None?;
    }
  }
}
