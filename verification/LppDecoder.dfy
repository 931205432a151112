/** `ParseCMLPP`: the record loop over a received buffer. */
module LppDecoder {
  import opened Hex
  import opened LppWire
  import opened Options

  /** First match by name, as the JSON library looks a field up. */
  function Lookup(fields: seq<Field>, name: string): Option<Value> {
    if fields == [] then None
    else if fields[0].name == name then Some(fields[0].value)
    else Lookup(fields[1..], name)
  }

  lemma {:induction false} LookupAppend(a: seq<Field>, b: seq<Field>, name: string)
    ensures Lookup(a + b, name) == if Lookup(a, name).Some? then Lookup(a, name) else Lookup(b, name)
  {
    if a == [] {
      assert a + b == b;
    } else {
      assert (a + b)[1..] == a[1..] + b;
      LookupAppend(a[1..], b, name);
    }
  }

  /** True if the buffer is nothing but records. */
  predicate Accepts(buf: seq<Byte>) {
    |WireAll(Records(buf))| == |buf|
  }

  /** Acceptance means what it should, and the accepted records are the only ones. */
  lemma AcceptsIffRecords(buf: seq<Byte>)
    ensures Accepts(buf) <==> exists rs :: AllWellFormed(rs) && WireAll(rs) == buf
    ensures forall rs :: AllWellFormed(rs) && WireAll(rs) == buf ==> rs == Records(buf)
  {
    RecordsArePrefix(buf);
    RecordsAreWellFormed(buf);
    forall rs | AllWellFormed(rs) && WireAll(rs) == buf
      ensures rs == Records(buf)
    {
      RecordsAreLongest(rs, []);
      assert WireAll(rs) + [] == buf && rs + Records([]) == rs;
    }
    if Accepts(buf) {
      assert WireAll(Records(buf)) == buf;
    }
  }

  /** On failure too: every run of records at the front has been read. */
  lemma EveryPrefixIsRead(rs: seq<Record>, buf: seq<Byte>)
    requires AllWellFormed(rs) && WireAll(rs) <= buf
    ensures rs <= Records(buf)
  {
    var tail := buf[|WireAll(rs)|..];
    assert buf == WireAll(rs) + tail;
    RecordsAreLongest(rs, tail);
  }

  /** The loop has read `done`, which ends at position p. */
  ghost predicate ReadTo(buf: seq<Byte>, p: nat, done: seq<Record>, root: seq<Field>) {
    && p <= |buf|
    && |WireAll(done)| == p
    && done + Records(buf[p..]) == Records(buf)
    && root == AllEmitted(done)
  }

  lemma RecordAt(buf: seq<Byte>, p: nat, size: nat) returns (r: Record)
    requires size > 0 && p + size <= |buf| && RecordSize(buf[p]) == size
    ensures r == Record(buf[p], buf[p + 1..p + size]) && WellFormed(r)
    ensures Records(buf[p..]) == [r] + Records(buf[p + size..])
  {
    r := Record(buf[p], buf[p + 1..p + size]);
    assert buf[p..] == Wire(r) + buf[p + size..];
    RecordsOfWire(r, buf[p + size..]);
  }

  lemma WireAllSnoc(done: seq<Record>, r: Record)
    ensures WireAll(done + [r]) == WireAll(done) + Wire(r)
  {
    WireAllAppend(done, [r]);
    assert [r][1..] == [];
    assert WireAll([r]) == Wire(r) + WireAll([]);
  }

  lemma AllEmittedSnoc(done: seq<Record>, r: Record)
    ensures AllEmitted(done + [r]) == AllEmitted(done) + Emitted(r)
  {
    AllEmittedAppend(done, [r]);
    assert [r][1..] == [];
    assert AllEmitted([r]) == Emitted(r) + AllEmitted([]);
  }

  lemma Regroup<T>(a: seq<T>, x: T, b: seq<T>)
    ensures a + ([x] + b) == (a + [x]) + b
  {
  }

  /** The record at position p, when the buffer has room for it. */
  lemma TakeRecord(buf: seq<Byte>, p: nat, size: nat, done: seq<Record>, root: seq<Field>) returns (r: Record)
    requires ReadTo(buf, p, done, root) && size > 0 && p + size <= |buf| && RecordSize(buf[p]) == size
    ensures r == Record(buf[p], buf[p + 1..p + size]) && WellFormed(r)
    ensures ReadTo(buf, p + size, done + [r], root + Emitted(r))
  {
    r := RecordAt(buf, p, size);
    WireAllSnoc(done, r);
    AllEmittedSnoc(done, r);
    Regroup(done, r, Records(buf[p + size..]));
  }

  lemma NothingRead(buf: seq<Byte>)
    ensures ReadTo(buf, 0, [], [])
  {
    assert buf[0..] == buf;
    assert [] + Records(buf) == Records(buf);
  }

  lemma ShortHasNoRecord(buf: seq<Byte>)
    requires |buf| < 2
    ensures Head(buf).None?
  {
  }

  /** No record begins at position p. */
  lemma NoRecord(buf: seq<Byte>, p: nat, done: seq<Record>, root: seq<Field>)
    requires ReadTo(buf, p, done, root) && Head(buf[p..]).None?
    ensures Records(buf) == done && (Accepts(buf) <==> p == |buf|)
  {
    assert done + [] == done;
  }

  /** One turn of the decoder's loop: the branch for the tag at position p. */
  method ReadRecord(pBuffer: seq<Byte>, p: nat, len: nat) returns (ok: bool, size: nat, fields: seq<Field>)
    requires len >= 1 && p + len == |pBuffer|
    ensures !ok ==> Head(pBuffer[p..]).None?
    ensures ok ==> 0 < size <= len && RecordSize(pBuffer[p]) == size
    ensures ok ==> fields == Emitted(Record(pBuffer[p], pBuffer[p + 1..p + size]))
  {
    var lppType := pBuffer[p];
    if lppType == LPP_GPS {
      if len < LPP_GPS_SIZE { return false, 0, []; }
      fields := [];
      size := LPP_GPS_SIZE;
    } else if lppType == CM_LPP_COLOR {
      if len < CM_LPP_COLOR_SIZE { return false, 0, []; }
      fields := [Field("color", Number(256 * (pBuffer[p + 1] as int) + pBuffer[p + 2]))];
      size := CM_LPP_COLOR_SIZE;
    } else if lppType == CM_LPP_LIGHT_CONTROL {
      if len < CM_LPP_LIGHT_CONTROL_SIZE { return false, 0, []; }
      fields := [Field("brightness", Number(pBuffer[p + 1]))];
      size := CM_LPP_LIGHT_CONTROL_SIZE;
    } else if lppType == CM_LPP_NODE_ID {
      if len < CM_LPP_NODE_ID_SIZE { return false, 0, []; }
      fields := [Field("nodeid", Text(MacText(pBuffer[p + 1..p + 7])))];
      size := CM_LPP_NODE_ID_SIZE;
    } else if lppType == CM_LPP_READ_GPS {
      if len < CM_LPP_READ_GPS_SIZE { return false, 0, []; }
      fields := [Field("read_gps", Number(pBuffer[p + 1]))];
      size := CM_LPP_READ_GPS_SIZE;
    } else if lppType == CM_LPP_TYPE_CONTROL {
      if len < CM_LPP_TYPE_CONTROL_SIZE { return false, 0, []; }
      fields := [Field("type_control", Number(pBuffer[p + 1]))];
      size := CM_LPP_TYPE_CONTROL_SIZE;
    } else {
      return false, 0, [];
    }
    ok := true;
  }

  /** The decoder accepts exactly the sequences of records, and in any case reports the
      fields of the longest sequence of records at the front. */
  method ParseCMLPP(pBuffer: seq<Byte>) returns (ok: bool, root: seq<Field>)
    requires |pBuffer| < 256
    ensures ok <==> Accepts(pBuffer)
    ensures root == AllEmitted(Records(pBuffer))
  {
    root := [];
    var p: nat, len: nat := 0, |pBuffer|;
    ghost var done: seq<Record> := [];
    NothingRead(pBuffer);
    while len >= 2
      invariant p + len == |pBuffer| && ReadTo(pBuffer, p, done, root)
      decreases len
    {
      var known, size, fields := ReadRecord(pBuffer, p, len);
      if !known {
        NoRecord(pBuffer, p, done, root);
        return false, root;
      }
      ghost var r := TakeRecord(pBuffer, p, size, done, root);
      done := done + [r];
      root := root + fields;
      p, len := p + size, len - size;
    }
    ShortHasNoRecord(pBuffer[p..]);
    NoRecord(pBuffer, p, done, root);
    ok := len == 0;
  }
}
