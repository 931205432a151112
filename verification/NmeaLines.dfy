/** Whole sentences as they come over the line, and lists of them. */
module NmeaLines {
  import opened NmeaFields
  import opened NmeaParser
  import opened NmeaPosition
  import opened NmeaTokens
  import opened NmeaTimes
  import opened NmeaItems

  lemma {:induction false} FeedKeepsWf(g: Gps, bytes: seq<Octet>)
    requires Wf(g) && FitsAll(g, bytes)
    ensures Wf(Feed(g, bytes))
    decreases |bytes|
  {
    if bytes != [] {
      StepKeepsWf(g, bytes[0]);
      FeedKeepsWf(Step(g, bytes[0]), bytes[1..]);
    }
  }

  const END: seq<Octet> := ['\r', '\n']

  lemma AfterAsterisk(g: Gps, t: seq<Octet>)
    requires Wf(g) && FitsAll(g, t + ['*'])
    ensures Wf(Feed(g, t + ['*'])) && Feed(g, t + ['*']).itemPos == 0
  {
    FeedKeepsWf(g, t + ['*']);
    FeedAppend(g, t, ['*']);
    assert ['*'][1..] == [] && Feed(Feed(g, t), ['*']) == Feed(Step(Feed(g, t), '*'), []);
  }

  /** A sentence as it comes over the line. */
  datatype Line = Line(fields: seq<seq<Octet>>, hh: seq<Octet>)

  function LineText(l: Line): seq<Octet> {
    (['$'] + (Join(l.fields) + ['*'])) + (l.hh + END)
  }

  /** Fields that fit, at most as many as the item counter can tell apart. */
  ghost predicate LineOk(l: Line) {
    FieldsFit(1, l.fields) && |l.fields| <= 256 && HexPair(l.hh)
  }

  ghost predicate AllOk(lines: seq<Line>) {
    forall i :: 0 <= i < |lines| ==> LineOk(lines[i])
  }

  /** The part of a line that sets fields. */
  function Head(l: Line): seq<Octet> {
    ['$'] + (Join(l.fields) + ['*'])
  }

  function LinesText(lines: seq<Line>): seq<Octet> {
    if lines == [] then [] else LinesText(lines[..|lines| - 1]) + LineText(lines[|lines| - 1])
  }

  // ----- the kind of a sentence

  /** The number in item k, or zero if the sentence has no such item. */
  function ItemNumber(fields: seq<seq<Octet>>, k: nat): nat {
    if k < |fields| then UInt8(StrToL(fields[k], 10)) else 0
  }

  /** The number at item k once the items from n on have been read; `before` until then. */
  function Counted(cur: Kind, fields: seq<seq<Octet>>, n: nat, k: nat, before: nat): nat {
    if cur == GSV && n <= k < n + |fields| then ItemNumber(fields, k - n) else before
  }

  lemma ParseItemCounts(s: Sentence, n: nat, item: Item)
    requires n > 0
    ensures var s', x := ParseItem(s, n, item), UInt8(StrToL(CText(item), 10));
            && s'.cur == s.cur
            && s'.satCount == (if s.cur == GSV && n == 1 then x else s.satCount)
            && s'.satNum == (if s.cur == GSV && n == 2 then x else s.satNum)
  {
  }

  lemma CountedLater(cur: Kind, fields: seq<seq<Octet>>, n: nat, k: nat, x: nat, y: nat)
    requires fields != [] && y == (if cur == GSV && n == k then ItemNumber(fields, 0) else x)
    ensures Counted(cur, fields, n, k, x) == Counted(cur, fields[1..], n + 1, k, y)
  {
  }

  /** What the items of a sentence after the first make of the kind and the counters. */
  ghost predicate Counts(s: Sentence, fields: seq<seq<Octet>>, n: nat, s': Sentence) {
    && s'.cur == s.cur
    && s'.satCount == Counted(s.cur, fields, n, 1, s.satCount)
    && s'.satNum == Counted(s.cur, fields, n, 2, s.satNum)
  }

  /** The kind stays, and items 1 and 2 of a GSV sentence are counted. */
  lemma {:induction false} CountsOfItems(s: Sentence, n: nat, fields: seq<seq<Octet>>)
    requires n > 0 && AllTexts(fields)
    ensures Counts(s, fields, n, ReadItems(s, n, fields))
    decreases |fields|
  {
    if fields != [] {
      var s1 := ReadItem(s, n, fields[0]);
      PaddedText(fields[0]);
      ParseItemCounts(s, n, Padded(fields[0]));
      CountsOfItems(s1, n + 1, fields[1..]);
      CountedLater(s.cur, fields, n, 1, s.satCount, s1.satCount);
      CountedLater(s.cur, fields, n, 2, s.satNum, s1.satNum);
    }
  }

  /** The kind and the two counters of a whole sentence. */
  lemma SentenceCounts(g: Gps, l: Line)
    requires Wf(g) && LineOk(l)
    ensures FitsAll(g, Head(l))
    ensures var s := Feed(g, Head(l)).sentence;
            && s.cur == KindOf(['$'] + l.fields[0])
            && (s.cur == GSV ==> s.satCount == ItemNumber(l.fields, 1) && s.satNum == ItemNumber(l.fields, 2))
  {
    var h := SentenceFolds(false, g, g.sentence.parent, l.fields);
    FitsAreTexts(1, l.fields);
    CountsOfItems(Sentence(KindOf(['$'] + l.fields[0]), 0, 0, g.sentence.parent), 1, l.fields[1..]);
  }

  /** The kinds that a sentence with the right checksum completes: its own, unless it is
      none, or a GSV sentence that is not the last of its series. */
  function KindsOf(fields: seq<seq<Octet>>): set<Kind>
    requires fields != []
  {
    var k := KindOf(['$'] + fields[0]);
    if k == Unknown || (k == GSV && ItemNumber(fields, 1) != ItemNumber(fields, 2)) then {} else {k}
  }

  // ----- the effect of a sentence

  lemma {:induction false} JoinIsBody(fields: seq<seq<Octet>>)
    requires forall i :: 0 <= i < |fields| ==> Plain(fields[i])
    ensures Body(Join(fields))
  {
    if |fields| > 1 {
      JoinIsBody(fields[1..]);
    }
  }

  /** The two digits agree with the body. */
  predicate Right(l: Line)
    requires HexPair(l.hh)
  {
    PairValue(l.hh) == XorAll(0, Join(l.fields))
  }

  /** The state before the carriage return of a line. */
  lemma BeforeReturn(g: Gps, l: Line) returns (r: Gps)
    requires Wf(g) && LineOk(l)
    ensures FitsAll(g, Head(l)) && FitsAll(g, Head(l) + l.hh) && r == Feed(g, Head(l) + l.hh)
    ensures Wf(r) && r.itemPos == 2 && r.parsed == g.parsed && r.info == g.info
    ensures r.sentence == Feed(g, Head(l)).sentence && (ChecksumAgrees(r) <==> Right(l))
  {
    var body := Join(l.fields);
    SentenceCounts(g, l);
    JoinIsBody(l.fields);
    assert Head(l) == (['$'] + body) + ['*'];
    FeedAppend(g, ['$'] + body, ['*']);
    SentenceRun(g, body, l.hh);
    AfterAsterisk(g, ['$'] + body);
    PairNumeral(l.hh);
    PlainRun(Feed(g, Head(l)), l.hh);
    FeedAppend(g, Head(l), l.hh);
    r := Feed(g, Head(l) + l.hh);
  }

  lemma NewlineKeeps(r: Gps)
    requires Wf(r) && r.itemPos == 2
    ensures Fits(r, '\n') && Wf(Step(r, '\n')) && Step(r, '\n').sentence == r.sentence
    ensures Step(r, '\n').parsed == r.parsed && Step(r, '\n').info == r.info
  {
    PlainByte(r, '\n');
  }

  lemma EndEffect(r: Gps)
    requires Wf(r) && r.itemPos == 2
    ensures FitsAll(r, END) && Wf(Feed(r, END)) && Feed(r, END).sentence == r.sentence
    ensures Takes(r, Completed(r), Feed(r, END))
  {
    ReturnEffect(r);
    var r1 := Step(r, '\r');
    NewlineKeeps(r1);
    assert END[1..] == ['\n'] && ['\n'][1..] == [];
    assert FitsAll(Step(r1, '\n'), []) && FitsAll(r1, ['\n']);
    assert Feed(r1, ['\n']) == Feed(Step(r1, '\n'), []);
  }

  /** What the parser accepts of a line. */
  function Accepted(l: Line): set<Kind>
    requires HexPair(l.hh) && l.fields != []
  {
    if Right(l) then KindsOf(l.fields) else {}
  }

  /** From any state, for every line: the fields are set in any case; the kinds collected
      grow by the sentence's own exactly if its digits are right, and a full collection is
      published with the fix that this very sentence leaves, and cleared. */
  lemma LineEffect(g: Gps, l: Line)
    requires Wf(g) && LineOk(l)
    ensures FitsAll(g, LineText(l)) && Wf(Feed(g, LineText(l)))
    ensures FitsAll(g, Head(l)) && Feed(g, LineText(l)).sentence == Feed(g, Head(l)).sentence
    ensures Takes(g, Accepted(l), Feed(g, LineText(l)))
  {
    var r := BeforeReturn(g, l);
    SentenceCounts(g, l);
    EndEffect(r);
    assert LineText(l) == (Head(l) + l.hh) + END;
    FeedAppend(g, Head(l) + l.hh, END);
    assert Completed(r) == Accepted(l);
  }

  // ----- the fix

  /** What a line makes of the fix, whatever its digits. */
  function FixAfter(f: Fix, l: Line): Fix
    requires l.fields != []
  {
    ReadSentence(f, l.fields).parent
  }

  lemma LineSetsFix(exact: bool, g: Gps, f: Fix, l: Line)
    requires Wf(g) && LineOk(l) && SameFix(exact, g.sentence.parent, f) && (exact ==> SentenceTimesFit(l.fields))
    ensures FitsAll(g, Head(l)) && SameFix(exact, Feed(g, Head(l)).sentence.parent, FixAfter(f, l))
  {
    var h := SentenceFolds(exact, g, f, l.fields);
  }

  /** What a line makes of the position. */
  function PositionAfter(p: Position, l: Line): Position
    requires l.fields != []
  {
    SetFields(KindOf(['$'] + l.fields[0]), p, 1, l.fields[1..])
  }

  lemma LineSetsPosition(f: Fix, l: Line)
    requires LineOk(l)
    ensures PositionOf(FixAfter(f, l)) == PositionAfter(PositionOf(f), l)
  {
    FitsAreTexts(1, l.fields);
    PositionOfItems(Sentence(KindOf(['$'] + l.fields[0]), 0, 0, f), 1, l.fields[1..]);
  }

  // ----- lists of lines

  lemma {:induction false} LinesRun(g: Gps, lines: seq<Line>)
    requires Wf(g) && AllOk(lines)
    ensures FitsAll(g, LinesText(lines)) && Wf(Feed(g, LinesText(lines)))
    decreases |lines|
  {
    if lines != [] {
      LinesRun(g, lines[..|lines| - 1]);
      LineExtends(g, LinesText(lines[..|lines| - 1]), lines[|lines| - 1]);
    }
  }

  lemma LineExtends(g: Gps, text: seq<Octet>, l: Line)
    requires Wf(g) && FitsAll(g, text) && Wf(Feed(g, text)) && LineOk(l)
    ensures FitsAll(g, text + LineText(l)) && Wf(Feed(g, text + LineText(l)))
  {
    LineEffect(Feed(g, text), l);
    FeedAppend(g, text, LineText(l));
  }

  /** The states before and after the last line. */
  lemma LastLine(g: Gps, lines: seq<Line>) returns (h: Gps, h': Gps)
    requires Wf(g) && AllOk(lines) && lines != []
    ensures var n := |lines| - 1;
            && FitsAll(g, LinesText(lines[..n])) && Feed(g, LinesText(lines[..n])) == h && Wf(h)
            && FitsAll(g, LinesText(lines)) && Feed(g, LinesText(lines)) == h' && Wf(h')
            && FitsAll(h, LineText(lines[n])) && h' == Feed(h, LineText(lines[n]))
  {
    var n := |lines| - 1;
    LinesRun(g, lines);
    LinesRun(g, lines[..n]);
    h := Feed(g, LinesText(lines[..n]));
    h' := Feed(g, LinesText(lines));
    FeedAppend(g, LinesText(lines[..n]), LineText(lines[n]));
  }
}
