/** What the parser makes of a whole sentence: its items and its checksum. */
module NmeaTokens {
  import opened Gf2
  import opened NmeaFields
  import opened NmeaParser
  import Hex

  /** The calls of `parse_item` during a run: item number and text. */
  ghost function Calls(g: Gps, bytes: seq<Octet>): seq<(nat, seq<Octet>)>
    requires FitsAll(g, bytes)
    decreases |bytes|
  {
    if bytes == [] then []
    else (if bytes[0] == ',' || bytes[0] == '*' then [(g.itemNum, CText(g.item))] else []) +
         Calls(Step(g, bytes[0]), bytes[1..])
  }

  lemma {:induction false} CallsAppend(g: Gps, a: seq<Octet>, b: seq<Octet>)
    requires FitsAll(g, a) && FitsAll(Feed(g, a), b)
    ensures FitsAll(g, a + b) && Calls(g, a + b) == Calls(g, a) + Calls(Feed(g, a), b)
    decreases |a|
  {
    FeedAppend(g, a, b);
    if a == [] {
      assert a + b == b && [] + Calls(g, b) == Calls(g, b);
    } else {
      var c, rest := a[0], a[1..];
      CallsAppend(Step(g, c), rest, b);
      assert a == [c] + rest && a + b == [c] + (rest + b);
      CallsAppendCons(g, c, rest, b);
    }
  }

  lemma FeedCons(g: Gps, c: Octet, rest: seq<Octet>)
    requires Fits(g, c) && FitsAll(Step(g, c), rest)
    ensures FitsAll(g, [c] + rest) && Feed(g, [c] + rest) == Feed(Step(g, c), rest)
  {
    assert ([c] + rest)[1..] == rest;
  }

  lemma Regroup<T>(x: seq<T>, y: seq<T>, z: seq<T>)
    ensures x + (y + z) == (x + y) + z
  {
  }

  lemma CallsAppendCons(g: Gps, c: Octet, rest: seq<Octet>, b: seq<Octet>)
    requires Fits(g, c) && FitsAll(Step(g, c), rest) && FitsAll(Feed(Step(g, c), rest), b)
    requires FitsAll(Step(g, c), rest + b)
    requires Calls(Step(g, c), rest + b) == Calls(Step(g, c), rest) + Calls(Feed(Step(g, c), rest), b)
    ensures FitsAll(g, [c] + (rest + b)) && FitsAll(g, [c] + rest) && FitsAll(Feed(g, [c] + rest), b)
    ensures Calls(g, [c] + (rest + b)) == Calls(g, [c] + rest) + Calls(Feed(g, [c] + rest), b)
  {
    FeedCons(g, c, rest);
    CallsCons(g, c, rest);
    CallsCons(g, c, rest + b);
    Regroup(if c == ',' || c == '*' then [(g.itemNum, CText(g.item))] else [],
            Calls(Step(g, c), rest), Calls(Feed(Step(g, c), rest), b));
  }

  lemma CallsCons(g: Gps, c: Octet, rest: seq<Octet>)
    requires Fits(g, c) && FitsAll(Step(g, c), rest)
    ensures FitsAll(g, [c] + rest)
    ensures Calls(g, [c] + rest) ==
            (if c == ',' || c == '*' then [(g.itemNum, CText(g.item))] else []) + Calls(Step(g, c), rest)
  {
    assert ([c] + rest)[1..] == rest;
  }

  function XorAll(acc: nat, t: seq<Octet>): nat
    decreases |t|
  {
    if t == [] then acc else XorAll(Xor(acc, t[0] as int), t[1..])
  }

  lemma {:induction false} XorAllAppend(acc: nat, a: seq<Octet>, b: seq<Octet>)
    ensures XorAll(acc, a + b) == XorAll(XorAll(acc, a), b)
    decreases |a|
  {
    if a == [] {
      assert a + b == b;
    } else {
      assert (a + b)[1..] == a[1..] + b;
      XorAllAppend(Xor(acc, a[0] as int), a[1..], b);
    }
  }

  predicate Plain(t: seq<Octet>) {
    forall i :: 0 <= i < |t| ==> !Special(t[i])
  }

  // ----- one item

  /** The state after plain text: the item has grown, the checksum has been updated
      unless an asterisk was seen, and nothing else has changed. */
  ghost predicate HasRead(g: Gps, t: seq<Octet>, g': Gps) {
    && Wf(g) && Wf(g')
    && g'.item[..g'.itemPos] == g.item[..g.itemPos] + t
    && g' == g.(item := g'.item, itemPos := g.itemPos + |t|,
                crc := if g.asterisk then g.crc else XorAll(g.crc, t))
  }

  lemma PlainByte(g: Gps, c: Octet)
    requires Wf(g) && !Special(c) && g.itemPos + 1 < ITEM_LENGTH
    ensures Fits(g, c) && HasRead(g, [c], Step(g, c))
  {
    StepKeepsWf(g, c);
    AppendKeepsWf(g, c);
    assert [c][1..] == [];
    assert XorAll(g.crc, [c]) == XorAll(Xor(g.crc, c as int), []);
  }

  lemma HasReadTrans(a: Gps, t: seq<Octet>, b: Gps, u: seq<Octet>, c: Gps)
    requires HasRead(a, t, b) && HasRead(b, u, c)
    ensures HasRead(a, t + u, c)
  {
    XorAllAppend(a.crc, t, u);
    assert a.item[..a.itemPos] + t + u == a.item[..a.itemPos] + (t + u);
  }

  lemma {:induction false} PlainRun(g: Gps, t: seq<Octet>)
    requires Wf(g) && Plain(t) && g.itemPos + |t| < ITEM_LENGTH
    ensures FitsAll(g, t) && HasRead(g, t, Feed(g, t)) && Calls(g, t) == []
    decreases |t|
  {
    if t == [] {
      assert g.item[..g.itemPos] + t == g.item[..g.itemPos];
    } else {
      PlainByte(g, t[0]);
      PlainRun(Step(g, t[0]), t[1..]);
      HasReadTrans(g, [t[0]], Step(g, t[0]), t[1..], Feed(g, t));
      assert [t[0]] + t[1..] == t;
    }
  }

  // ----- the items of a sentence

  function Join(fields: seq<seq<Octet>>): seq<Octet> {
    if fields == [] then [] else if |fields| == 1 then fields[0] else fields[0] + [','] + Join(fields[1..])
  }

  function Numbered(n: nat, items: seq<seq<Octet>>): seq<(nat, seq<Octet>)>
    decreases |items|
  {
    if items == [] then [] else [(n % 256, items[0])] + Numbered(n + 1, items[1..])
  }

  /** Fields that fit the item buffer, the first after `used` characters. */
  ghost predicate FieldsFit(used: nat, fields: seq<seq<Octet>>) {
    && fields != []
    && (forall i :: 0 <= i < |fields| ==> Plain(fields[i]))
    && used + |fields[0]| < ITEM_LENGTH
    && (forall i :: 1 <= i < |fields| ==> |fields[i]| < ITEM_LENGTH)
  }

  /** A field and its separator. */
  lemma FieldRun(g: Gps, field: seq<Octet>, sep: Octet)
    requires Wf(g) && Plain(field) && g.itemPos + |field| < ITEM_LENGTH && (sep == ',' || sep == '*')
    requires !g.asterisk
    ensures FitsAll(g, field + [sep])
    ensures Calls(g, field + [sep]) == [(g.itemNum, g.item[..g.itemPos] + field)]
    ensures var g' := Feed(g, field + [sep]);
            && Wf(g') && g'.itemPos == 0 && g'.itemNum == (g.itemNum + 1) % 256
            && g'.asterisk == (sep == '*') && g'.parsed == g.parsed && g'.info == g.info
            && g'.crc == XorAll(g.crc, if sep == ',' then field + [sep] else field)
    ensures FitsAll(g, field) && CText(Feed(g, field).item) == g.item[..g.itemPos] + field
    ensures Feed(g, field + [sep]).sentence == ParseItem(g.sentence, g.itemNum, Feed(g, field).item)
  {
    PlainRun(g, field);
    var h := Feed(g, field);
    ItemText(h);
    StepKeepsWf(h, sep);
    assert [sep][1..] == [];
    assert Feed(h, [sep]) == Feed(Step(h, sep), []) == Step(h, sep);
    assert Calls(h, [sep]) == [(h.itemNum, CText(h.item))] + Calls(Step(h, sep), []);
    FeedAppend(g, field, [sep]);
    CallsAppend(g, field, [sep]);
    XorAllAppend(g.crc, field, [sep]);
    assert XorAll(h.crc, [sep]) == XorAll(Xor(h.crc, sep as int), []);
  }

  /** Reading on after a field that is not the last. */
  lemma CallsOfRest(g: Gps, fields: seq<seq<Octet>>, h: Gps, calls: seq<(nat, seq<Octet>)>)
    requires |fields| > 1 && FitsAll(g, fields[0] + [',']) && h == Feed(g, fields[0] + [','])
    requires FitsAll(h, Join(fields[1..]) + ['*']) && Calls(h, Join(fields[1..]) + ['*']) == calls
    ensures FitsAll(g, Join(fields) + ['*'])
    ensures Calls(g, Join(fields) + ['*']) == Calls(g, fields[0] + [',']) + calls
  {
    var first, rest := fields[0] + [','], Join(fields[1..]) + ['*'];
    assert Join(fields) + ['*'] == first + rest;
    FeedAppend(g, first, rest);
    CallsAppend(g, first, rest);
  }

  /** The numbered items, one taken off the front. */
  lemma NumberedItems(n: nat, item: seq<Octet>, more: seq<seq<Octet>>, next: nat)
    requires n < 256 && next == (n + 1) % 256
    ensures Numbered(n, [item] + more) == [(n, item)] + Numbered(next, more)
  {
    NumberedCons(n, item, more);
    NumberedModulo(next, n + 1, more);
  }

  lemma NumberedOne(n: nat, item: seq<Octet>)
    requires n < 256
    ensures Numbered(n, [item]) == [(n, item)]
  {
    NumberedCons(n, item, []);
    assert [item] + [] == [item];
  }

  /** What `FieldRun` says of the calls. */
  lemma FieldCalls(g: Gps, field: seq<Octet>, sep: Octet, item: seq<Octet>) returns (h: Gps)
    requires Wf(g) && !g.asterisk && Plain(field) && g.itemPos + |field| < ITEM_LENGTH && (sep == ',' || sep == '*')
    requires item == g.item[..g.itemPos] + field
    ensures FitsAll(g, field + [sep]) && h == Feed(g, field + [sep]) && Calls(g, field + [sep]) == [(g.itemNum, item)]
    ensures Wf(h) && h.itemPos == 0 && h.itemNum == (g.itemNum + 1) % 256 && h.asterisk == (sep == '*')
  {
    FieldRun(g, field, sep);
    h := Feed(g, field + [sep]);
  }

  /** The fields of a sentence up to its asterisk; `items` are their texts as items, the
      first after what is already stored. */
  lemma {:induction false} FieldsRun(g: Gps, fields: seq<seq<Octet>>, items: seq<seq<Octet>>)
    requires Wf(g) && !g.asterisk && FieldsFit(g.itemPos, fields)
    requires items == [g.item[..g.itemPos] + fields[0]] + fields[1..]
    ensures FitsAll(g, Join(fields) + ['*']) && Calls(g, Join(fields) + ['*']) == Numbered(g.itemNum, items)
    decreases |fields|
  {
    if |fields| == 1 {
      var _ := FieldCalls(g, fields[0], '*', items[0]);
      NumberedOne(g.itemNum, items[0]);
      assert items == [items[0]];
    } else {
      var h := FieldCalls(g, fields[0], ',', items[0]);
      var more := fields[1..];
      assert h.item[..0] + more[0] == more[0];
      assert [more[0]] + more[1..] == more;
      FieldsRun(h, more, more);
      CallsOfRest(g, fields, h, Numbered(h.itemNum, more));
      NumberedItems(g.itemNum, items[0], more, h.itemNum);
      assert items == [items[0]] + more;
    }
  }

  lemma NumberedCons(n: nat, item: seq<Octet>, items: seq<seq<Octet>>)
    ensures Numbered(n, [item] + items) == [(n % 256, item)] + Numbered(n + 1, items)
  {
    var all := [item] + items;
    assert all[0] == item && all[1..] == items;
  }

  lemma NextNumber(n: nat)
    ensures (n % 256 + 1) % 256 == (n + 1) % 256
  {
  }

  /** Numbers that agree modulo 256 count alike. */
  lemma {:induction false} NumberedModulo(m: nat, n: nat, items: seq<seq<Octet>>)
    requires m % 256 == n % 256
    ensures Numbered(m, items) == Numbered(n, items)
    decreases |items|
  {
    if items != [] {
      NextNumber(m);
      NextNumber(n);
      NumberedModulo(m + 1, n + 1, items[1..]);
      assert items == [items[0]] + items[1..];
      NumberedCons(m, items[0], items[1..]);
      NumberedCons(n, items[0], items[1..]);
    }
  }

  lemma Dollar(g: Gps)
    requires Wf(g)
    ensures Fits(g, '$')
    ensures var g' := Step(g, '$');
            && Wf(g') && g'.itemPos == 1 && g'.item[..1] == ['$'] && g'.itemNum == 0 && g'.crc == 0 && !g'.asterisk
            && g'.parsed == g.parsed && g'.info == g.info && g'.sentence == Sentence(Unknown, 0, 0, g.sentence.parent)
  {
    StepKeepsWf(g, '$');
    AppendKeepsWf(g.(itemPos := 0), '$');
  }

  /** From any state, for every sentence whose fields fit: the items that are parsed are
      the comma-separated fields in order, numbered modulo 256 as `item_num` is, the first
      with its dollar sign. */
  lemma TokensAreFields(g: Gps, fields: seq<seq<Octet>>)
    requires Wf(g) && FieldsFit(1, fields)
    ensures FitsAll(g, ['$'] + (Join(fields) + ['*']))
    ensures Calls(g, ['$'] + (Join(fields) + ['*'])) == Numbered(0, [['$'] + fields[0]] + fields[1..])
  {
    Dollar(g);
    var text := Join(fields) + ['*'];
    FieldsRun(Step(g, '$'), fields, [['$'] + fields[0]] + fields[1..]);
    assert (['$'] + text)[1..] == text;
    assert [] + Calls(Step(g, '$'), text) == Calls(Step(g, '$'), text);
  }

  // ----- the checksum

  /** A sentence body: any bytes between the dollar sign and the asterisk. */
  predicate Body(t: seq<Octet>) {
    forall i :: 0 <= i < |t| ==> t[i] == ',' || !Special(t[i])
  }

  lemma {:induction false} BodyRun(g: Gps, t: seq<Octet>)
    requires Wf(g) && !g.asterisk && Body(t) && FitsAll(g, t)
    ensures var g' := Feed(g, t);
            Wf(g') && !g'.asterisk && g'.crc == XorAll(g.crc, t) && g'.parsed == g.parsed && g'.info == g.info
    decreases |t|
  {
    if t != [] {
      StepKeepsWf(g, t[0]);
      BodyRun(Step(g, t[0]), t[1..]);
    }
  }

  predicate HexPair(hh: seq<Octet>) {
    |hh| == 2 && DigitValue(hh[0]) < 16 && DigitValue(hh[1]) < 16
  }

  function PairValue(hh: seq<Octet>): nat
    requires HexPair(hh)
  {
    16 * DigitValue(hh[0]) + DigitValue(hh[1])
  }

  lemma PairNumeral(hh: seq<Octet>)
    requires HexPair(hh)
    ensures UInt8(StrToL(hh, 16)) == PairValue(hh) && Plain(hh)
  {
    assert hh[1..][1..] == [];
    assert Digits(hh, 16, 0) == Digits(hh[1..], 16, DigitValue(hh[0]));
    assert SkipSpace(hh) == hh;
  }

  /** The state at the carriage return of a sentence: the running checksum is the
      exclusive or of the body, and the item holds the two digits. */
  ghost function AtReturn(g: Gps, body: seq<Octet>, hh: seq<Octet>): Gps
    requires FitsAll(g, ['$'] + body + ['*'] + hh)
  {
    Feed(g, ['$'] + body + ['*'] + hh)
  }

  lemma SentenceRun(g: Gps, body: seq<Octet>, hh: seq<Octet>)
    requires Wf(g) && Body(body) && FitsAll(g, ['$'] + body) && HexPair(hh)
    ensures FitsAll(g, ['$'] + body + ['*'] + hh)
    ensures var r := AtReturn(g, body, hh);
            && Wf(r) && r.parsed == g.parsed && r.info == g.info
            && (ChecksumAgrees(r) <==> PairValue(hh) == XorAll(0, body))
    ensures AtReturn(g, body, hh).sentence == Step(Feed(g, ['$'] + body), '*').sentence
  {
    Dollar(g);
    FeedAppend(g, ['$'], body);
    assert ['$'][1..] == [] && Feed(g, ['$']) == Feed(Step(g, '$'), []);
    BodyRun(Step(g, '$'), body);
    var b := Feed(g, ['$'] + body);
    StepKeepsWf(b, '*');
    var a := Step(b, '*');
    assert ['*'][1..] == [] && Feed(b, ['*']) == Feed(a, []);
    FeedAppend(g, ['$'] + body, ['*']);
    PairNumeral(hh);
    PlainRun(a, hh);
    FeedAppend(g, ['$'] + body + ['*'], hh);
    var r := Feed(a, hh);
    ItemText(r);
    assert a.item[..0] + hh == hh;
  }

  /** A whole sentence, up to its carriage return. */
  function SentenceText(body: seq<Octet>, hh: seq<Octet>): seq<Octet> {
    ['$'] + body + ['*'] + hh + ['\r']
  }

  /** What the end of a sentence makes of the kinds collected and of the published fix, if
      it completes `kinds`. */
  ghost predicate Takes(g: Gps, kinds: set<Kind>, g': Gps) {
    var all := g.parsed + kinds;
    if all == ALL_KINDS then g'.parsed == {} && g'.info == g'.sentence.parent
    else g'.parsed == all && g'.info == g.info
  }

  lemma ReturnEffect(r: Gps)
    requires Wf(r)
    ensures Fits(r, '\r') && Wf(Step(r, '\r')) && Step(r, '\r').sentence == r.sentence
    ensures Step(r, '\r').itemPos == r.itemPos && Takes(r, Completed(r), Step(r, '\r'))
  {
    StepKeepsWf(r, '\r');
  }

  /** The kinds that the sentence in progress would complete with the right digits. */
  function Completes(s: Sentence): set<Kind> {
    if s.cur == Unknown || (s.cur == GSV && s.satNum != s.satCount) then {} else {s.cur}
  }

  /** For every body: with the right two digits the kinds collected grow by what the sentence
      completes, and a full collection is published and cleared; with any other digits
      nothing is collected or published.  The fields are those at the asterisk in any case. */
  lemma AcceptedIffChecksum(g: Gps, body: seq<Octet>, hh: seq<Octet>)
    requires Wf(g) && Body(body) && FitsAll(g, ['$'] + body) && HexPair(hh)
    ensures FitsAll(g, SentenceText(body, hh)) && Fits(Feed(g, ['$'] + body), '*')
    ensures var g' := Feed(g, SentenceText(body, hh));
            && g'.sentence == Step(Feed(g, ['$'] + body), '*').sentence
            && (if PairValue(hh) == XorAll(0, body) then Takes(g, Completes(g'.sentence), g')
                else g'.parsed == g.parsed && g'.info == g.info)
  {
    SentenceRun(g, body, hh);
    var r := AtReturn(g, body, hh);
    ReturnEffect(r);
    assert ['\r'][1..] == [] && Feed(r, ['\r']) == Feed(Step(r, '\r'), []);
    FeedAppend(g, ['$'] + body + ['*'] + hh, ['\r']);
  }

  lemma {:induction false} XorAllIsByte(acc: nat, t: seq<Octet>)
    requires acc < 256
    ensures XorAll(acc, t) < 256
    decreases |t|
  {
    if t != [] {
      XorStaysByte(acc, t[0] as int);
      XorAllIsByte(Xor(acc, t[0] as int), t[1..]);
    }
  }

  /** The checksum that a talker appends, as section 5 of NMEA 0183 asks for it: two
      upper-case hex digits. */
  function OwnChecksum(body: seq<Octet>): (hh: seq<Octet>)
    ensures HexPair(hh) && PairValue(hh) == XorAll(0, body)
  {
    XorAllIsByte(0, body);
    var x := XorAll(0, body);
    [Hex.UpperDigit(x / 16), Hex.UpperDigit(x % 16)]
  }

  /** A body with its own checksum always takes effect. */
  lemma OwnChecksumIsAccepted(g: Gps, body: seq<Octet>)
    requires Wf(g) && Body(body) && FitsAll(g, ['$'] + body)
    ensures FitsAll(g, SentenceText(body, OwnChecksum(body)))
    ensures var g' := Feed(g, SentenceText(body, OwnChecksum(body))); Takes(g, Completes(g'.sentence), g')
  {
    AcceptedIffChecksum(g, body, OwnChecksum(body));
  }

  lemma {:induction false} XorAllInjective(a: nat, b: nat, t: seq<Octet>)
    requires XorAll(a, t) == XorAll(b, t)
    ensures a == b
    decreases |t|
  {
    if t != [] {
      XorAllInjective(Xor(a, t[0] as int), Xor(b, t[0] as int), t[1..]);
      XorInjective(a, b, t[0] as int);
    }
  }

  lemma {:induction false} OneByteChangesXor(acc: nat, t: seq<Octet>, i: nat, c: Octet)
    requires i < |t| && t[i] != c
    ensures XorAll(acc, t[i := c]) != XorAll(acc, t)
    decreases |t|
  {
    var u := t[i := c];
    if i == 0 {
      assert u[1..] == t[1..];
      if XorAll(acc, u) == XorAll(acc, t) {
        XorAllInjective(Xor(acc, c as int), Xor(acc, t[0] as int), t[1..]);
        XorComm(acc, c as int);
        XorComm(acc, t[0] as int);
        XorInjective(c as int, t[0] as int, acc);
      }
    } else {
      assert u[1..] == t[1..][i - 1 := c];
      OneByteChangesXor(Xor(acc, t[0] as int), t[1..], i - 1, c);
    }
  }

  /** A sentence sent with its own checksum and received with one body byte replaced by
      another is rejected. */
  lemma OneByteErrorIsRejected(g: Gps, body: seq<Octet>, i: nat, c: Octet)
    requires Wf(g) && Body(body) && i < |body| && c != body[i] && Body(body[i := c])
    requires FitsAll(g, ['$'] + body[i := c])
    ensures FitsAll(g, SentenceText(body[i := c], OwnChecksum(body)))
    ensures var g' := Feed(g, SentenceText(body[i := c], OwnChecksum(body)));
            g'.parsed == g.parsed && g'.info == g.info
  {
    OneByteChangesXor(0, body, i, c);
    AcceptedIffChecksum(g, body[i := c], OwnChecksum(body));
  }

  /** The checksum protects the acceptance of a sentence, not its fields: these are
      written as they come, the same for every pair of digits. */
  lemma FieldsIgnoreChecksum(g: Gps, body: seq<Octet>, hh: seq<Octet>, other: seq<Octet>)
    requires Wf(g) && Body(body) && FitsAll(g, ['$'] + body) && HexPair(hh) && HexPair(other)
    ensures FitsAll(g, SentenceText(body, hh)) && FitsAll(g, SentenceText(body, other))
    ensures Feed(g, SentenceText(body, hh)).sentence == Feed(g, SentenceText(body, other)).sentence
  {
    AcceptedIffChecksum(g, body, hh);
    AcceptedIffChecksum(g, body, other);
  }
}
