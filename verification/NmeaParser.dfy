/** `gps_decode`: the byte-at-a-time parser of NMEA 0183 sentences. */
module NmeaParser {
  import opened Gf2
  import opened NmeaFields

  /** The parser's state.  `parsed` is the bit set `parsed_statement`, `info` the
      published `gps_info`. */
  datatype Gps = Gps(
    itemPos: nat, itemNum: nat, asterisk: bool, crc: nat, parsed: set<Kind>,
    sentence: Sentence, item: Item, info: Fix)

  /** The item has room, is terminated, and nothing before the terminator is a NUL. */
  predicate Wf(g: Gps) {
    && g.itemPos < ITEM_LENGTH && g.item[g.itemPos] == '\0' && g.item[ITEM_LENGTH - 1] == '\0'
    && '\0' !in g.item[..g.itemPos]
    && g.itemNum < 256 && g.crc < 256 && g.parsed < ALL_KINDS
  }

  predicate Special(c: Octet) {
    c == '$' || c == ',' || c == '*' || c == '\r' || c == '\0'
  }

  /** An ordinary byte needs room for itself and the terminator. */
  predicate Fits(g: Gps, c: Octet) {
    c != '\0' && (Special(c) || g.itemPos + 1 < ITEM_LENGTH)
  }

  /** The checksum field agrees with the running checksum. */
  predicate ChecksumAgrees(g: Gps) {
    g.crc == UInt8(StrToL(CText(g.item), 16))
  }

  /** The kind that a carriage return completes in this state, if any. */
  function Completed(g: Gps): set<Kind> {
    if ChecksumAgrees(g) && g.sentence.cur != Unknown &&
       (g.sentence.cur == GSV ==> g.sentence.satNum == g.sentence.satCount)
    then {g.sentence.cur} else {}
  }

  function Append(g: Gps, c: Octet): Gps
    requires g.itemPos + 1 < ITEM_LENGTH
  {
    g.(item := g.item[g.itemPos := c][g.itemPos + 1 := '\0'], itemPos := g.itemPos + 1)
  }

  function NextItem(g: Gps): Gps {
    g.(sentence := ParseItem(g.sentence, g.itemNum, g.item),
       itemPos := 0, item := g.item[0 := '\0'], itemNum := (g.itemNum + 1) % 256)
  }

  function Step(g: Gps, c: Octet): Gps
    requires Fits(g, c)
  {
    if c == '$' then
      Append(g.(asterisk := false, itemNum := 0, itemPos := 0, crc := 0,
                sentence := Sentence(Unknown, 0, 0, g.sentence.parent)), c)
    else if c == ',' then NextItem(g).(crc := Xor(g.crc, c as int))
    else if c == '*' then NextItem(g).(asterisk := true)
    else if c == '\r' then
      var parsed := g.parsed + Completed(g);
      if !ChecksumAgrees(g) then g
      else if ALL_KINDS <= parsed then g.(parsed := {}, info := g.sentence.parent)
      else g.(parsed := parsed)
    else
      Append(g.(crc := if g.asterisk then g.crc else Xor(g.crc, c as int)), c)
  }

  ghost predicate FitsAll(g: Gps, bytes: seq<Octet>)
    decreases |bytes|
  {
    bytes == [] || (Fits(g, bytes[0]) && FitsAll(Step(g, bytes[0]), bytes[1..]))
  }

  ghost function Feed(g: Gps, bytes: seq<Octet>): Gps
    requires FitsAll(g, bytes)
    decreases |bytes|
  {
    if bytes == [] then g else Feed(Step(g, bytes[0]), bytes[1..])
  }

  /** Feeding in pieces is feeding at once. */
  lemma {:induction false} FeedAppend(g: Gps, a: seq<Octet>, b: seq<Octet>)
    ensures FitsAll(g, a + b) <==> FitsAll(g, a) && FitsAll(Feed(g, a), b)
    ensures FitsAll(g, a + b) ==> Feed(g, a + b) == Feed(Feed(g, a), b)
    decreases |a|
  {
    if a == [] {
      assert a + b == b;
    } else {
      assert (a + b)[1..] == a[1..] + b;
      if Fits(g, a[0]) {
        FeedAppend(Step(g, a[0]), a[1..], b);
      }
    }
  }

  lemma {:induction false} TextBeforeTerminator(item: seq<Octet>, pos: nat)
    requires pos < |item| && item[pos] == '\0' && '\0' !in item[..pos]
    ensures CText(item) == item[..pos]
  {
    if pos > 0 {
      assert item[0] == item[..pos][0];
      assert item[1..][..pos - 1] == item[..pos][1..];
      TextBeforeTerminator(item[1..], pos - 1);
    }
  }

  /** In a well-formed state the item's text is what was stored. */
  lemma ItemText(g: Gps)
    requires Wf(g)
    ensures CText(g.item) == g.item[..g.itemPos]
  {
    TextBeforeTerminator(g.item, g.itemPos);
  }

  lemma AppendKeepsWf(g: Gps, c: Octet)
    requires g.itemPos + 1 < ITEM_LENGTH && '\0' !in g.item[..g.itemPos] && g.item[ITEM_LENGTH - 1] == '\0'
    requires c != '\0'
    ensures var g' := Append(g, c);
            && g'.item[g'.itemPos] == '\0' && g'.item[ITEM_LENGTH - 1] == '\0'
            && g'.item[..g'.itemPos] == g.item[..g.itemPos] + [c] && '\0' !in g'.item[..g'.itemPos]
  {
    assert Append(g, c).item[..g.itemPos + 1] == g.item[..g.itemPos] + [c];
  }

  lemma XorStaysByte(a: nat, b: nat)
    requires a < 256 && b < 256
    ensures Xor(a, b) < 256
  {
    Pow2Table();
    XorBelow(a, b, 8);
  }

  lemma StepKeepsWf(g: Gps, c: Octet)
    requires Wf(g) && Fits(g, c)
    ensures Wf(Step(g, c))
  {
    XorStaysByte(g.crc, c as int);
    if c == '$' {
      var h := g.(itemPos := 0);
      assert h.item[..0] == [];
      AppendKeepsWf(h, c);
    } else if !Special(c) {
      AppendKeepsWf(g, c);
    } else if c == ',' || c == '*' {
      assert NextItem(g).item[..0] == [];
    }
  }

  /** Only a carriage return touches what is collected and what is published. */
  lemma OnlyReturnPublishes(g: Gps, c: Octet)
    requires Fits(g, c) && c != '\r'
    ensures Step(g, c).parsed == g.parsed && Step(g, c).info == g.info
  {
  }

  // ----- the object

  /** `esp_gps_t`. */
  class GpsParser {
    var itemPos: nat
    var itemNum: nat
    var asterisk: bool
    var crc: nat
    var parsedStatement: set<Kind>
    var satNum: nat
    var satCount: nat
    var curStatement: Kind
    const itemStr: array<Octet>
    var parent: Fix
    var gpsInfo: Fix

    /** `calloc`. */
    constructor (zero: Fix)
      ensures Valid() && fresh(itemStr)
      ensures Abs().parsed == {} && Abs().info == zero && Abs().sentence == Sentence(Unknown, 0, 0, zero)
    {
      itemPos, itemNum, asterisk, crc, parsedStatement := 0, 0, false, 0, {};
      satNum, satCount, curStatement := 0, 0, Unknown;
      itemStr := new Octet[ITEM_LENGTH](_ => '\0');
      parent, gpsInfo := zero, zero;
      new;
      assert itemStr[..0] == [];
    }

    ghost function Abs(): Gps
      reads this, itemStr
      requires itemStr.Length == ITEM_LENGTH
    {
      Gps(itemPos, itemNum, asterisk, crc, parsedStatement,
          Sentence(curStatement, satNum, satCount, parent), itemStr[..], gpsInfo)
    }

    ghost predicate Valid()
      reads this, itemStr
    {
      itemStr.Length == ITEM_LENGTH && Wf(Abs())
    }

    /** `parse_item`, which assigns fields of the object. */
    method ParseCurrentItem()
      requires Valid()
      modifies this`curStatement, this`satNum, this`satCount, this`parent
      ensures Abs() == old(Abs()).(sentence := ParseItem(old(Abs()).sentence, itemNum, old(Abs()).item))
    {
      var item: Item := itemStr[..];
      if itemNum == 0 && itemStr[0] == '$' {
        curStatement := KindOf(CText(item));
        return;
      }
      match curStatement
      case Unknown =>
      case GGA => parent := GgaField(parent, itemNum, item);
      case GSA => parent := GsaField(parent, itemNum, item);
      case GSV =>
        if itemNum == 1 {
          satCount := UInt8(StrToL(CText(item), 10));
        } else if itemNum == 2 {
          satNum := UInt8(StrToL(CText(item), 10));
        } else {
          parent := GsvField(parent, satNum, itemNum, item);
        }
      case RMC => parent := RmcField(parent, itemNum, item);
      case GLL => parent := GllField(parent, itemNum, item);
      case VTG => parent := VtgField(parent, itemNum, item);
    }

    method Store(c: Octet)
      requires itemStr.Length == ITEM_LENGTH && itemPos + 1 < ITEM_LENGTH
      modifies this`itemPos, itemStr
      ensures Abs() == Append(old(Abs()), c)
    {
      itemStr[itemPos] := c;
      itemPos := itemPos + 1;
      itemStr[itemPos] := '\0';
    }

    method StartNextItem()
      requires itemStr.Length == ITEM_LENGTH
      modifies this`itemPos, this`itemNum, itemStr
      ensures Abs() == old(Abs()).(itemPos := 0, item := old(Abs()).item[0 := '\0'],
                                        itemNum := (old(itemNum) + 1) % 256)
    {
      itemPos := 0;
      itemStr[0] := '\0';
      itemNum := (itemNum + 1) % 256;
    }

    /** The carriage return. */
    method EndStatement()
      requires Valid()
      modifies this`parsedStatement, this`gpsInfo
      ensures Abs() == Step(old(Abs()), '\r')
    {
      ghost var g := Abs();
      var received := UInt8(StrToL(CText(itemStr[..]), 16));
      if crc == received {
        var bit: set<Kind> := {};
        match curStatement {
          case Unknown =>
          case GSV =>
            if satNum == satCount {
              bit := {GSV};
            }
          case _ => bit := {curStatement};
        }
        assert bit == Completed(g);
        parsedStatement := parsedStatement + bit;
        if ALL_KINDS <= parsedStatement {
          parsedStatement := {};
          gpsInfo := parent;
          assert Step(g, '\r') == g.(parsed := {}, info := g.sentence.parent);
        } else {
          assert Step(g, '\r') == g.(parsed := g.parsed + Completed(g));
        }
      }
    }

    /** The dollar sign. */
    method StartStatement(c: Octet)
      requires Valid() && c == '$'
      modifies this, itemStr
      ensures Abs() == Step(old(Abs()), c)
    {
      asterisk, itemNum, itemPos, curStatement, crc, satCount, satNum := false, 0, 0, Unknown, 0, 0, 0;
      Store(c);
    }

    /** The branch of the loop for one byte. */
    method DecodeByte(c: Octet)
      requires Valid() && Fits(Abs(), c)
      modifies this, itemStr
      ensures Valid() && Abs() == Step(old(Abs()), c)
    {
      StepKeepsWf(Abs(), c);
      if c == '$' {
        StartStatement(c);
      } else if c == ',' {
        ParseCurrentItem();
        crc := Xor(crc, c as int);
        StartNextItem();
      } else if c == '*' {
        ParseCurrentItem();
        asterisk := true;
        StartNextItem();
      } else if c == '\r' {
        EndStatement();
      } else {
        if !asterisk {
          crc := Xor(crc, c as int);
        }
        Store(c);
      }
    }

    /** `gps_decode` on a terminated buffer. */
    method GpsDecode(buffer: seq<Octet>)
      requires Valid() && '\0' in buffer && FitsAll(Abs(), CText(buffer))
      modifies this, itemStr
      ensures Valid() && FitsAll(old(Abs()), CText(buffer)) && Abs() == Feed(old(Abs()), CText(buffer))
    {
      var d := 0;
      ghost var start := Abs();
      assert buffer[0..] == buffer;
      while buffer[d] != '\0'
        invariant d < |buffer| && '\0' in buffer[d..] && Valid()
        invariant FitsAll(Abs(), CText(buffer[d..]))
        invariant Feed(Abs(), CText(buffer[d..])) == Feed(start, CText(buffer))
        decreases |buffer| - d
      {
        ghost var rest := buffer[d..];
        assert rest[1..] == buffer[d + 1..];
        assert CText(rest) == [buffer[d]] + CText(buffer[d + 1..]);
        assert CText(rest)[1..] == CText(buffer[d + 1..]);
        DecodeByte(buffer[d]);
        d := d + 1;
      }
    }
  }
}
