/** The records that a lamp finds in a received text, and the frames that it cannot survive. */
module LampFrames {
  import opened Hex
  import opened LppWire
  import opened LppDecoder
  import opened LppRoundTrip
  import opened Options

  /** The records before the first zero byte. */
  function FrameRecords(text: string): seq<Record> {
    Records(BeforeZero(ReadHex(text)))
  }

  /** The fields that a received text carries. */
  function FrameFields(text: string): seq<Field> {
    AllEmitted(FrameRecords(text))
  }

  predicate HasTag(rs: seq<Record>, tag: Byte) {
    exists r <- rs :: r.tag == tag
  }

  /** The position is asked for, but no node is named, and it is no order of light either. */
  predicate Fatal(rs: seq<Record>) {
    && HasTag(rs, CM_LPP_READ_GPS)
    && !HasTag(rs, CM_LPP_NODE_ID)
    && !(HasTag(rs, CM_LPP_COLOR) && HasTag(rs, CM_LPP_LIGHT_CONTROL))
  }

  /** The five names, by the tags of their records. */
  predicate Names(tag: Byte, name: string) {
    || (tag == CM_LPP_COLOR && name == "color")
    || (tag == CM_LPP_LIGHT_CONTROL && name == "brightness")
    || (tag == CM_LPP_NODE_ID && name == "nodeid")
    || (tag == CM_LPP_READ_GPS && name == "read_gps")
    || (tag == CM_LPP_TYPE_CONTROL && name == "type_control")
  }

  lemma NamesDiffer()
    ensures "color" != "brightness" && "color" != "nodeid" && "color" != "read_gps" && "color" != "type_control"
    ensures "brightness" != "nodeid" && "brightness" != "read_gps" && "brightness" != "type_control"
    ensures "nodeid" != "read_gps" && "nodeid" != "type_control" && "read_gps" != "type_control"
  {
    assert |"color"| == 5 && |"brightness"| == 10 && |"nodeid"| == 6 && |"read_gps"| == 8 && |"type_control"| == 12;
  }

  lemma LookupEmitted(r: Record, tag: Byte, name: string)
    requires Names(tag, name)
    ensures Lookup(Emitted(r), name).Some? <==> r.tag == tag
  {
    NamesDiffer();
    if Emitted(r) != [] {
      assert Emitted(r)[1..] == [];
    }
  }

  /** A field can be looked up exactly if some record has its tag. */
  lemma {:induction false} FieldFoundIff(rs: seq<Record>, tag: Byte, name: string)
    requires Names(tag, name)
    ensures Lookup(AllEmitted(rs), name).Some? <==> HasTag(rs, tag)
  {
    if rs != [] {
      FieldFoundIff(rs[1..], tag, name);
      LookupAppend(Emitted(rs[0]), AllEmitted(rs[1..]), name);
      LookupEmitted(rs[0], tag, name);
      assert rs == [rs[0]] + rs[1..];
    }
  }

  /** The fields of the handler, as records. */
  lemma FieldsOfRecords(rs: seq<Record>)
    ensures Lookup(AllEmitted(rs), "color").Some? <==> HasTag(rs, CM_LPP_COLOR)
    ensures Lookup(AllEmitted(rs), "brightness").Some? <==> HasTag(rs, CM_LPP_LIGHT_CONTROL)
    ensures Lookup(AllEmitted(rs), "nodeid").Some? <==> HasTag(rs, CM_LPP_NODE_ID)
    ensures Lookup(AllEmitted(rs), "read_gps").Some? <==> HasTag(rs, CM_LPP_READ_GPS)
  {
    FieldFoundIff(rs, CM_LPP_COLOR, "color");
    FieldFoundIff(rs, CM_LPP_LIGHT_CONTROL, "brightness");
    FieldFoundIff(rs, CM_LPP_NODE_ID, "nodeid");
    FieldFoundIff(rs, CM_LPP_READ_GPS, "read_gps");
  }

  // ----- what a field says

  /** The bytes of the first record with a tag. */
  function FirstBody(rs: seq<Record>, tag: Byte): Option<seq<Byte>> {
    if rs == [] then None else if rs[0].tag == tag then Some(rs[0].body) else FirstBody(rs[1..], tag)
  }

  /** The value that a record of this tag spells: two bytes, the higher first, for a colour,
      the lower-case hex text for a node ID, and one byte otherwise. */
  predicate Spells(tag: Byte, body: seq<Byte>, v: Value) {
    if tag == CM_LPP_NODE_ID then |body| == 6 && v == Text(MacText(body))
    else if tag == CM_LPP_COLOR then v.Number? && v.n < 65536 && body == [v.n / 256, v.n % 256]
    else v.Number? && body == [v.n]
  }

  lemma EmittedSpells(r: Record, name: string)
    requires WellFormed(r) && Names(r.tag, name)
    ensures Lookup(Emitted(r), name).Some? && Spells(r.tag, r.body, Lookup(Emitted(r), name).value)
  {
    LookupEmitted(r, r.tag, name);
    assert Emitted(r)[1..] == [];
  }

  /** What is looked up is spelled by the first record of its tag. */
  lemma {:induction false} LookupSpells(rs: seq<Record>, tag: Byte, name: string)
    requires AllWellFormed(rs) && Names(tag, name)
    ensures var v, body := Lookup(AllEmitted(rs), name), FirstBody(rs, tag);
            (v.Some? <==> body.Some?) && (v.Some? ==> Spells(tag, body.value, v.value))
  {
    if rs != [] {
      LookupSpells(rs[1..], tag, name);
      LookupAppend(Emitted(rs[0]), AllEmitted(rs[1..]), name);
      LookupEmitted(rs[0], tag, name);
      if rs[0].tag == tag {
        EmittedSpells(rs[0], name);
      }
    }
  }

  lemma {:induction false} FirstBodyIff(rs: seq<Record>, tag: Byte)
    ensures FirstBody(rs, tag).Some? <==> HasTag(rs, tag)
  {
    if rs != [] {
      FirstBodyIff(rs[1..], tag);
      assert rs == [rs[0]] + rs[1..];
    }
  }

  // ----- which frames are fatal

  function ReadGps(code: Byte): (r: Record)
    ensures WellFormed(r)
  {
    Record(CM_LPP_READ_GPS, [code])
  }

  /** Two bytes are enough. */
  lemma TwoBytesAreFatal(text: string)
    requires text == "98A5"
    ensures FrameRecords(text) == [ReadGps(0xA5)] && Fatal(FrameRecords(text))
  {
    ReadTwo(text);
    var r := ReadGps(0xA5);
    assert ReadHex(text) == [152, 165];
    assert Wire(r) + [] == [152, 165];
    assert WireAll([r]) == Wire(r) + WireAll([]);
    FramesOfRecords(text, [r]);
  }

  /** Of a text that spells records, those before the first with a zero byte are found. */
  lemma FramesOfRecords(text: string, rs: seq<Record>)
    requires AllWellFormed(rs) && ReadHex(text) == WireAll(rs)
    ensures FrameRecords(text) == rs[..LeadingZeroFree(rs)]
  {
    CutDecodes(rs);
  }

  lemma WireTwo(a: Record, b: Record)
    ensures WireAll([a, b]) == Wire(a) + Wire(b)
  {
    assert [a, b][1..] == [b] && [b][1..] == [];
    assert WireAll([b]) == Wire(b) + WireAll([]);
  }

  /** A request that names its node is fatal all the same exactly if the node's MAC has a
      zero byte and the request none: the cut then leaves the request alone. */
  lemma NamedRequestFatalIff(text: string, code: Byte, mac: seq<Byte>, a: Record, b: Record)
    requires |mac| == 6 && a == ReadGps(code) && b == NodeId(mac) && ReadHex(text) == Wire(a) + Wire(b)
    ensures Fatal(FrameRecords(text)) <==> code != 0 && 0 in mac
  {
    var rs := [a, b];
    WireTwo(a, b);
    FramesOfRecords(text, rs);
    assert rs[1..] == [b] && [b][1..] == [];
    assert ZeroFree(a) <==> code != 0;
    assert ZeroFree(b) <==> 0 !in mac;
    if code == 0 {
      assert rs[..0] == [];
    } else if 0 in mac {
      assert LeadingZeroFree([b]) == 0;
      assert rs[..1] == [a];
    } else {
      assert LeadingZeroFree([b]) == 1;
      assert rs[..2] == rs && b in rs;
    }
  }

  /** An order of light that also asks for the position names no node and is harmless. */
  lemma OrderedRequestIsHarmless(color: nat, bright: Byte, code: Byte, text: string)
    requires color < 65536 && color / 256 != 0 && color % 256 != 0 && bright != 0
    requires ReadHex(text) == WireAll([Color(color), Light(bright), ReadGps(code)])
    ensures !HasTag(FrameRecords(text), CM_LPP_NODE_ID) && !Fatal(FrameRecords(text))
  {
    var rs := [Color(color), Light(bright), ReadGps(code)];
    FramesOfRecords(text, rs);
    assert rs[1..] == [rs[1], rs[2]] && rs[1..][1..] == [rs[2]];
    assert ZeroFree(rs[0]) && ZeroFree(rs[1]);
    var n := LeadingZeroFree(rs);
    assert n >= 2;
    assert rs[..n][0] == rs[0] && rs[..n][1] == rs[1];
  }

  lemma ReadTwo(s: string)
    requires |s| == 4
    ensures ReadHex(s) == [16 * Str2HexNum(s[0]) + Str2HexNum(s[1]), 16 * Str2HexNum(s[2]) + Str2HexNum(s[3])]
  {
    ReadHexAt(s, 0);
    ReadHexAt(s, 1);
  }
}
