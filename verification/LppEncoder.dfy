/** The encoder of CMLPP.c: every add method writes `buffer[cursor++]` in place. */
module LppEncoder {
  import opened Hex
  import opened LppWire

  const CM_LPP_ACTUATION: Byte := 106
  const CM_LPP_ACTUATION_SIZE: nat := 6

  class CayenneLpp {
    var buffer: array<Byte>
    var cursor: nat
    const maxsize: nat := 255

    constructor (size: nat)
      requires size <= 255
      ensures Valid() && fresh(buffer) && buffer.Length == size && Contents() == []
    {
      buffer := new Byte[size];
      cursor := 0;
    }

    ghost predicate Valid()
      reads this
    {
      cursor <= buffer.Length <= maxsize
    }

    ghost function Contents(): seq<Byte>
      reads this, buffer
      requires Valid()
    {
      buffer[..cursor]
    }

    /** Room for n more bytes, or the add method itself declines. */
    ghost predicate Room(n: nat)
      reads this
    {
      cursor + n <= buffer.Length || cursor + n > maxsize
    }

    method Put(b: Byte)
      requires Valid() && cursor < buffer.Length
      modifies this`cursor, buffer
      ensures Valid() && cursor == old(cursor) + 1 && Contents() == old(Contents()) + [b]
    {
      buffer[cursor] := b;
      cursor := cursor + 1;
    }

    /** Byte k of `values`, after the earlier ones. */
    method PutNext(values: seq<Byte>, k: nat, ghost start: seq<Byte>)
      requires Valid() && cursor < buffer.Length && k < |values| && Contents() == start + values[..k]
      modifies this`cursor, buffer
      ensures Valid() && cursor == old(cursor) + 1 && Contents() == start + values[..k + 1]
    {
      Put(values[k]);
      assert values[..k + 1] == values[..k] + [values[k]];
    }

    method PutThree(values: seq<Byte>, k: nat, ghost start: seq<Byte>)
      requires Valid() && cursor + 3 <= buffer.Length && k + 3 <= |values| && Contents() == start + values[..k]
      modifies this`cursor, buffer
      ensures Valid() && cursor == old(cursor) + 3 && Contents() == start + values[..k + 3]
    {
      PutNext(values, k, start);
      PutNext(values, k + 1, start);
      PutNext(values, k + 2, start);
    }

    /** The shape of the add methods with one payload byte. */
    method AddByte(tag: Byte, value: Byte) returns (r: nat)
      requires Valid() && Room(2)
      modifies this`cursor, buffer
      ensures Valid() && cursor == old(cursor) + (if r == 0 then 0 else 2)
      ensures r == (if old(cursor) + 2 > maxsize then 0 else cursor) && (r == 0 <==> old(cursor) + 2 > maxsize)
      ensures Contents() == old(Contents()) + (if r == 0 then [] else Wire(Record(tag, [value])))
    {
      if cursor + 2 > maxsize { return 0; }
      Put(tag);
      Put(value);
      r := cursor;
    }

    /** The shape of the add methods with a big-endian 16-bit payload. */
    method AddWord(tag: Byte, val: nat) returns (r: nat)
      requires Valid() && Room(3) && val < 65536
      modifies this`cursor, buffer
      ensures Valid() && cursor == old(cursor) + (if r == 0 then 0 else 3)
      ensures r == (if old(cursor) + 3 > maxsize then 0 else cursor) && (r == 0 <==> old(cursor) + 3 > maxsize)
      ensures Contents() == old(Contents()) + (if r == 0 then [] else Wire(Record(tag, [val / 256, val % 256])))
    {
      if cursor + 3 > maxsize { return 0; }
      Put(tag);
      Put(val / 256);
      Put(val % 256);
      r := cursor;
    }

    /** `addNodeID` and `addParentID`: the MAC text is read as six bytes. */
    method AddMac(tag: Byte, val: string) returns (r: nat)
      requires Valid() && Room(7) && |val| == 12
      modifies this`cursor, buffer
      ensures Valid() && cursor == old(cursor) + (if r == 0 then 0 else 7)
      ensures r == (if old(cursor) + 7 > maxsize then 0 else cursor) && (r == 0 <==> old(cursor) + 7 > maxsize)
      ensures Contents() == old(Contents()) + (if r == 0 then [] else Wire(Record(tag, ReadHex(val))))
    {
      if cursor + 7 > maxsize { return 0; }
      var bytes := [tag] + ReadHex(val);
      ghost var start := Contents();
      assert start + bytes[..0] == start;
      PutNext(bytes, 0, start);
      PutThree(bytes, 1, start);
      PutThree(bytes, 4, start);
      assert bytes[..7] == bytes;
      r := cursor;
    }

    /** `addMESHID`: the low 24 bits, most significant byte first. */
    method AddMeshId(val: nat) returns (r: nat)
      requires Valid() && Room(4)
      modifies this`cursor, buffer
      ensures Valid() && cursor == old(cursor) + (if r == 0 then 0 else 4)
      ensures r == (if old(cursor) + 4 > maxsize then 0 else cursor) && (r == 0 <==> old(cursor) + 4 > maxsize)
      ensures Contents() == old(Contents()) + (if r == 0 then [] else [153] + Word24(val))
    {
      if cursor + 4 > maxsize { return 0; }
      Put(153);
      Put(val / 65536 % 256);
      Put(val / 256 % 256);
      Put(val % 256);
      r := cursor;
    }

    /** `addActuation` asks for room for six bytes and writes seven. */
    method AddActuation(val: nat) returns (r: nat)
      requires Valid() && (cursor + 7 <= buffer.Length || cursor + CM_LPP_ACTUATION_SIZE > maxsize)
      modifies this`cursor, buffer
      ensures Valid() && cursor == old(cursor) + (if r == 0 then 0 else 7)
      ensures r == (if old(cursor) + CM_LPP_ACTUATION_SIZE > maxsize then 0 else cursor)
      ensures r == 0 <==> old(cursor) + CM_LPP_ACTUATION_SIZE > maxsize
      ensures Contents() == old(Contents()) + (if r == 0 then [] else [CM_LPP_ACTUATION] + Word48(val))
    {
      if cursor + CM_LPP_ACTUATION_SIZE > maxsize { return 0; }
      var bytes := [CM_LPP_ACTUATION] + Word48(val);
      ghost var start := Contents();
      assert start + bytes[..0] == start;
      PutNext(bytes, 0, start);
      PutThree(bytes, 1, start);
      PutThree(bytes, 4, start);
      assert bytes[..7] == bytes;
      r := cursor;
    }
  }

  function Word24(val: nat): seq<Byte> {
    [val / 65536 % 256, val / 256 % 256, val % 256]
  }

  function Word48(val: nat): seq<Byte> {
    [val / 0x100_0000_0000 % 256, val / 0x1_0000_0000 % 256, val / 0x100_0000 % 256,
     val / 0x1_0000 % 256, val / 0x100 % 256, val % 256]
  }

  /** Shifting a byte further. */
  lemma ShiftTwice(val: nat)
    ensures val / 0x100 / 256 == val / 0x1_0000
    ensures val / 0x1_0000 / 256 == val / 0x100_0000
    ensures val / 0x100_0000 / 256 == val / 0x1_0000_0000
    ensures val / 0x1_0000_0000 / 256 == val / 0x100_0000_0000
  {
  }

  /** Six quotients by 256, put together again. */
  lemma SixBytes(val: nat, q1: nat, q2: nat, q3: nat, q4: nat, q5: nat)
    requires q1 == val / 256 && q2 == q1 / 256 && q3 == q2 / 256 && q4 == q3 / 256 && q5 == q4 / 256
    ensures q5 % 256 * 0x100_0000_0000 + q4 % 256 * 0x1_0000_0000 + q3 % 256 * 0x100_0000 +
            q2 % 256 * 0x1_0000 + q1 % 256 * 0x100 + val % 256 == val % 0x1_0000_0000_0000
  {
    Horner(val, val % 256, q1, q1 % 256, q2, q2 % 256, q3, q3 % 256, q4, q4 % 256, q5, q5 % 256, q5 / 256);
  }

  lemma Horner(val: nat, b0: Byte, q1: nat, b1: Byte, q2: nat, b2: Byte, q3: nat, b3: Byte, q4: nat, b4: Byte,
               q5: nat, b5: Byte, q6: nat)
    requires val == 256 * q1 + b0 && q1 == 256 * q2 + b1 && q2 == 256 * q3 + b2
    requires q3 == 256 * q4 + b3 && q4 == 256 * q5 + b4 && q5 == 256 * q6 + b5
    ensures (b5 as int) * 0x100_0000_0000 + (b4 as int) * 0x1_0000_0000 + (b3 as int) * 0x100_0000 +
            (b2 as int) * 0x1_0000 + (b1 as int) * 0x100 + b0 ==
            val % 0x1_0000_0000_0000
  {
    var low := (b2 as int) * 0x1_0000 + (b1 as int) * 0x100 + b0;
    var high := (b5 as int) * 0x1_0000 + (b4 as int) * 0x100 + b3;
    Halves(val, low, q3, high, q6);
  }

  lemma Halves(val: nat, low: nat, mid: nat, high: nat, top: nat)
    requires val == mid * 0x100_0000 + low && mid == top * 0x100_0000 + high
    requires low < 0x100_0000 && high < 0x100_0000
    ensures val % 0x1_0000_0000_0000 == high * 0x100_0000 + low
  {
  }

  /** The six bytes of the working time, most significant first, are its low 48 bits. */
  lemma Word48Spells(val: nat)
    ensures var b := Word48(val);
            (b[0] as int) * 0x100_0000_0000 + (b[1] as int) * 0x1_0000_0000 + (b[2] as int) * 0x100_0000 +
            (b[3] as int) * 0x1_0000 + (b[4] as int) * 0x100 + b[5] == val % 0x1_0000_0000_0000
  {
    ShiftTwice(val);
    SixBytes(val, val / 0x100, val / 0x1_0000, val / 0x100_0000, val / 0x1_0000_0000, val / 0x100_0000_0000);
  }
}
