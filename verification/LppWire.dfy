/** The records of the downlink and mesh payloads: a tag byte and a fixed number of bytes. */
module LppWire {
  import opened Hex
  import opened Options

  const LPP_GPS: Byte := 136
  const CM_LPP_COLOR: Byte := 135
  const CM_LPP_LIGHT_CONTROL: Byte := 111
  const CM_LPP_NODE_ID: Byte := 150
  const CM_LPP_READ_GPS: Byte := 152
  const CM_LPP_TYPE_CONTROL: Byte := 155

  const LPP_GPS_SIZE: nat := 11
  const CM_LPP_COLOR_SIZE: nat := 3
  const CM_LPP_LIGHT_CONTROL_SIZE: nat := 2
  const CM_LPP_NODE_ID_SIZE: nat := 7
  const CM_LPP_READ_GPS_SIZE: nat := 2
  const CM_LPP_TYPE_CONTROL_SIZE: nat := 2

  /** Bytes of a record with this tag, as the decoder counts them; 0 if it knows none. */
  function RecordSize(tag: Byte): nat {
    if tag == LPP_GPS then LPP_GPS_SIZE
    else if tag == CM_LPP_COLOR then CM_LPP_COLOR_SIZE
    else if tag == CM_LPP_LIGHT_CONTROL then CM_LPP_LIGHT_CONTROL_SIZE
    else if tag == CM_LPP_NODE_ID then CM_LPP_NODE_ID_SIZE
    else if tag == CM_LPP_READ_GPS then CM_LPP_READ_GPS_SIZE
    else if tag == CM_LPP_TYPE_CONTROL then CM_LPP_TYPE_CONTROL_SIZE
    else 0
  }

  datatype Record = Record(tag: Byte, body: seq<Byte>)

  predicate WellFormed(r: Record) {
    RecordSize(r.tag) == 1 + |r.body|
  }

  function Wire(r: Record): seq<Byte> {
    [r.tag] + r.body
  }

  function Color(kelvin: nat): (r: Record)
    requires kelvin < 65536
    ensures WellFormed(r)
  {
    Record(CM_LPP_COLOR, [kelvin / 256, kelvin % 256])
  }

  function Light(percent: Byte): (r: Record)
    ensures WellFormed(r)
  {
    Record(CM_LPP_LIGHT_CONTROL, [percent])
  }

  function NodeId(mac: seq<Byte>): (r: Record)
    requires |mac| == 6
    ensures WellFormed(r)
  {
    Record(CM_LPP_NODE_ID, mac)
  }

  function TypeControl(kind: Byte): (r: Record)
    ensures WellFormed(r)
  {
    Record(CM_LPP_TYPE_CONTROL, [kind])
  }

  ghost predicate AllWellFormed(rs: seq<Record>) {
    forall i :: 0 <= i < |rs| ==> WellFormed(rs[i])
  }

  function WireAll(rs: seq<Record>): seq<Byte> {
    if rs == [] then [] else Wire(rs[0]) + WireAll(rs[1..])
  }

  lemma {:induction false} WireAllAppend(a: seq<Record>, b: seq<Record>)
    ensures WireAll(a + b) == WireAll(a) + WireAll(b)
  {
    if a == [] {
      assert a + b == b;
    } else {
      assert (a + b)[1..] == a[1..] + b;
      WireAllAppend(a[1..], b);
    }
  }

  /** The value of a JSON item. */
  datatype Value = Number(n: nat) | Text(s: string)
  datatype Field = Field(name: string, value: Value)

  /** What the decoder adds to the JSON object for one record. */
  function Emitted(r: Record): seq<Field> {
    if r.tag == CM_LPP_COLOR then [Field("color", Number(256 * Payload(r, 0) + Payload(r, 1)))]
    else if r.tag == CM_LPP_LIGHT_CONTROL then [Field("brightness", Number(Payload(r, 0)))]
    else if r.tag == CM_LPP_NODE_ID then [Field("nodeid", Text(MacText(r.body)))]
    else if r.tag == CM_LPP_READ_GPS then [Field("read_gps", Number(Payload(r, 0)))]
    else if r.tag == CM_LPP_TYPE_CONTROL then [Field("type_control", Number(Payload(r, 0)))]
    else []
  }

  /** Payload byte k; well-formed records have all that `Emitted` asks for. */
  function Payload(r: Record, k: nat): nat {
    if k < |r.body| then r.body[k] else 0
  }

  function AllEmitted(rs: seq<Record>): seq<Field> {
    if rs == [] then [] else Emitted(rs[0]) + AllEmitted(rs[1..])
  }

  lemma {:induction false} AllEmittedAppend(a: seq<Record>, b: seq<Record>)
    ensures AllEmitted(a + b) == AllEmitted(a) + AllEmitted(b)
  {
    if a == [] {
      assert a + b == b;
    } else {
      assert (a + b)[1..] == a[1..] + b;
      AllEmittedAppend(a[1..], b);
    }
  }

  /** The record that `buf` begins with, if it holds a whole one. */
  function Head(buf: seq<Byte>): Option<Record> {
    if buf == [] || RecordSize(buf[0]) == 0 || |buf| < RecordSize(buf[0]) then None
    else Some(Record(buf[0], buf[1..RecordSize(buf[0])]))
  }

  lemma HeadOfWire(r: Record, rest: seq<Byte>)
    requires WellFormed(r)
    ensures Head(Wire(r) + rest) == Some(r)
  {
    assert (Wire(r) + rest)[1..1 + |r.body|] == r.body;
  }

  /** The records taken off the front of `buf` one by one. */
  function Records(buf: seq<Byte>): seq<Record> {
    if Head(buf).None? then []
    else [Head(buf).value] + Records(buf[RecordSize(buf[0])..])
  }

  lemma {:induction false} RecordsAreWellFormed(buf: seq<Byte>)
    ensures AllWellFormed(Records(buf))
  {
    if Head(buf).Some? {
      RecordsAreWellFormed(buf[RecordSize(buf[0])..]);
    }
  }

  /** Those records are a prefix of the buffer, and what is left begins with none. */
  lemma {:induction false} RecordsArePrefix(buf: seq<Byte>)
    ensures WireAll(Records(buf)) <= buf
    ensures Head(buf[|WireAll(Records(buf))|..]).None?
  {
    if Head(buf).Some? {
      var r, rest := Head(buf).value, buf[RecordSize(buf[0])..];
      RecordsArePrefix(rest);
      assert buf == Wire(r) + rest;
      WireAllCons(r, Records(rest));
      var taken := WireAll(Records(rest));
      assert Records(buf) == [r] + Records(rest);
      assert (Wire(r) + rest)[|Wire(r)| + |taken|..] == rest[|taken|..];
    } else {
      assert buf[0..] == buf;
    }
  }

  lemma WireAllCons(r: Record, rs: seq<Record>)
    ensures WireAll([r] + rs) == Wire(r) + WireAll(rs)
  {
    assert ([r] + rs)[1..] == rs;
  }

  lemma RecordsOfWire(r: Record, rest: seq<Byte>)
    requires WellFormed(r)
    ensures Records(Wire(r) + rest) == [r] + Records(rest)
  {
    HeadOfWire(r, rest);
    assert (Wire(r) + rest)[RecordSize(r.tag)..] == rest;
  }

  /** No other reading goes further: any records that the buffer begins with are the
      first of these. */
  lemma {:induction false} RecordsAreLongest(rs: seq<Record>, tail: seq<Byte>)
    requires AllWellFormed(rs)
    ensures Records(WireAll(rs) + tail) == rs + Records(tail)
  {
    if rs == [] {
      assert WireAll(rs) + tail == tail;
    } else {
      var more := WireAll(rs[1..]) + tail;
      assert WireAll(rs) == Wire(rs[0]) + WireAll(rs[1..]);
      assert WireAll(rs) + tail == Wire(rs[0]) + more;
      RecordsOfWire(rs[0], more);
      RecordsAreLongest(rs[1..], tail);
      FrontBack(rs, Records(tail));
    }
  }

  lemma FrontBack(rs: seq<Record>, more: seq<Record>)
    requires rs != []
    ensures [rs[0]] + (rs[1..] + more) == rs + more
  {
  }

  /** Decoding is unique. */
  lemma WireAllInjective(a: seq<Record>, b: seq<Record>)
    requires AllWellFormed(a) && AllWellFormed(b) && WireAll(a) == WireAll(b)
    ensures a == b
  {
    RecordsAreLongest(a, []);
    RecordsAreLongest(b, []);
    assert WireAll(a) + [] == WireAll(a) && WireAll(b) + [] == WireAll(b);
    assert a + Records([]) == a && b + Records([]) == b;
  }
}
