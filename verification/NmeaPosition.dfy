/** The position that a GGA, RMC or GLL sentence leaves behind: three different field
    tables, one meaning. */
module NmeaPosition {
  import opened NmeaFields
  import opened NmeaParser
  import opened NmeaTokens
  import opened NmeaTimes
  import opened NmeaItems

  datatype Position = Position(latitude: Float, longitude: Float)

  function PositionOf(f: Fix): Position {
    Position(f.latitude, f.longitude)
  }

  predicate HasPosition(kind: Kind) {
    kind == GGA || kind == RMC || kind == GLL
  }

  /** The number of the latitude field; hemisphere, longitude and hemisphere follow. */
  function FirstField(kind: Kind): nat
    requires HasPosition(kind)
  {
    if kind == GGA then 2 else if kind == RMC then 3 else 1
  }

  /** What item n of a sentence does to the position; other kinds leave it alone. */
  function SetField(kind: Kind, p: Position, n: nat, text: seq<Octet>): Position {
    if !HasPosition(kind) then p
    else SetPart(FirstField(kind), p, n, text)
  }

  function SetPart(b: nat, p: Position, n: nat, text: seq<Octet>): Position {
    if n == b then p.(latitude := Degrees(text))
    else if n == b + 1 then p.(latitude := Signed(p.latitude, text, 'S', 's'))
    else if n == b + 2 then p.(longitude := Degrees(text))
    else if n == b + 3 then p.(longitude := Signed(p.longitude, text, 'W', 'w'))
    else p
  }

  function SetFields(kind: Kind, p: Position, n: nat, fields: seq<seq<Octet>>): Position
    decreases |fields|
  {
    if fields == [] then p else SetFields(kind, SetField(kind, p, n, fields[0]), n + 1, fields[1..])
  }

  lemma SetFieldsStep(kind: Kind, p: Position, n: nat, fields: seq<seq<Octet>>)
    requires fields != []
    ensures SetFields(kind, p, n, fields) == SetFields(kind, SetField(kind, p, n, fields[0]), n + 1, fields[1..])
  {
  }

  /** The three tables differ only in where the position starts, and the others have none. */
  lemma ParseItemSetsPosition(s: Sentence, n: nat, item: Item)
    requires n > 0
    ensures ParseItem(s, n, item).cur == s.cur
    ensures PositionOf(ParseItem(s, n, item).parent) == SetField(s.cur, PositionOf(s.parent), n, CText(item))
  {
  }

  /** The items of a sentence, as far as the position goes. */
  lemma {:induction false} PositionOfItems(s: Sentence, n: nat, fields: seq<seq<Octet>>)
    requires n > 0 && AllTexts(fields)
    ensures var s' := ReadItems(s, n, fields);
            s'.cur == s.cur && PositionOf(s'.parent) == SetFields(s.cur, PositionOf(s.parent), n, fields)
    decreases |fields|
  {
    if fields != [] {
      PaddedText(fields[0]);
      ParseItemSetsPosition(s, n, Padded(fields[0]));
      PositionOfItems(ReadItem(s, n, fields[0]), n + 1, fields[1..]);
    }
  }

  lemma {:induction false} LaterFieldsKeepPosition(kind: Kind, p: Position, n: nat, fields: seq<seq<Octet>>)
    requires HasPosition(kind) && n > FirstField(kind) + 3
    ensures SetFields(kind, p, n, fields) == p
    decreases |fields|
  {
    if fields != [] {
      LaterFieldsKeepPosition(kind, p, n + 1, fields[1..]);
    }
  }

  /** The position in plain terms: two numerals, each negated by its hemisphere. */
  function Expected(fields: seq<seq<Octet>>, b: nat): Position
    requires b + 3 < |fields|
  {
    Position(Signed(Degrees(fields[b]), fields[b + 1], 'S', 's'),
             Signed(Degrees(fields[b + 2]), fields[b + 3], 'W', 'w'))
  }

  lemma {:induction false} FieldsGivePosition(kind: Kind, p: Position, n: nat, fields: seq<seq<Octet>>)
    requires HasPosition(kind) && n <= FirstField(kind) && FirstField(kind) + 3 - n < |fields|
    ensures SetFields(kind, p, n, fields) == Expected(fields, FirstField(kind) - n)
    decreases |fields|
  {
    var b := FirstField(kind);
    if n < b {
      FieldsGivePosition(kind, SetField(kind, p, n, fields[0]), n + 1, fields[1..]);
      assert Expected(fields[1..], b - (n + 1)) == Expected(fields, b - n);
    } else {
      FourFields(kind, p, fields);
    }
  }

  lemma FourFields(kind: Kind, p: Position, fields: seq<seq<Octet>>)
    requires HasPosition(kind) && |fields| >= 4
    ensures SetFields(kind, p, FirstField(kind), fields) == Expected(fields, 0)
  {
    var b := FirstField(kind);
    assert fields[1..][1..] == fields[2..] && fields[2..][1..] == fields[3..] && fields[3..][1..] == fields[4..];
    var p1 := SetField(kind, p, b, fields[0]);
    var p2 := SetField(kind, p1, b + 1, fields[1]);
    var p3 := SetField(kind, p2, b + 2, fields[2]);
    var p4 := SetField(kind, p3, b + 3, fields[3]);
    SetFieldsStep(kind, p, b, fields);
    SetFieldsStep(kind, p1, b + 1, fields[1..]);
    SetFieldsStep(kind, p2, b + 2, fields[2..]);
    SetFieldsStep(kind, p3, b + 3, fields[3..]);
    LaterFieldsKeepPosition(kind, p4, b + 4, fields[4..]);
  }

  /** From any state: a sentence of one of the three kinds, with enough fields, leaves
      exactly the position of its own fields, whatever was there before. */
  lemma PositionOfSentence(g: Gps, fields: seq<seq<Octet>>, kind: Kind)
    requires Wf(g) && FieldsFit(1, fields) && |fields| <= 256
    requires kind == KindOf(['$'] + fields[0]) && HasPosition(kind) && FirstField(kind) + 3 < |fields|
    ensures FitsAll(g, ['$'] + (Join(fields) + ['*']))
    ensures var s := Feed(g, ['$'] + (Join(fields) + ['*'])).sentence;
            s.cur == kind && PositionOf(s.parent) == Expected(fields, FirstField(kind))
  {
    var h := SentenceFolds(false, g, g.sentence.parent, fields);
    var rest, f := fields[1..], g.sentence.parent;
    FitsAreTexts(1, fields);
    PositionOfItems(Sentence(kind, 0, 0, f), 1, rest);
    FieldsGivePosition(kind, PositionOf(f), 1, rest);
    ExpectedOfRest(fields, FirstField(kind));
  }

  lemma ExpectedOfRest(fields: seq<seq<Octet>>, b: nat)
    requires 0 < b && b + 3 < |fields|
    ensures Expected(fields[1..], b - 1) == Expected(fields, b)
  {
  }

  /** So the three kinds agree: the same position, sent in two kinds of sentence to two
      parsers in any states, is the same position. */
  lemma KindsAgreeOnPosition(g: Gps, fields: seq<seq<Octet>>, kind: Kind, h: Gps, other: seq<seq<Octet>>, kind': Kind)
    requires Wf(g) && FieldsFit(1, fields) && |fields| <= 256
    requires kind == KindOf(['$'] + fields[0]) && HasPosition(kind) && FirstField(kind) + 3 < |fields|
    requires Wf(h) && FieldsFit(1, other) && |other| <= 256
    requires kind' == KindOf(['$'] + other[0]) && HasPosition(kind') && FirstField(kind') + 3 < |other|
    requires fields[FirstField(kind)..FirstField(kind) + 4] == other[FirstField(kind')..FirstField(kind') + 4]
    ensures FitsAll(g, ['$'] + (Join(fields) + ['*'])) && FitsAll(h, ['$'] + (Join(other) + ['*']))
    ensures PositionOf(Feed(g, ['$'] + (Join(fields) + ['*'])).sentence.parent) ==
            PositionOf(Feed(h, ['$'] + (Join(other) + ['*'])).sentence.parent)
  {
    PositionOfSentence(g, fields, kind);
    PositionOfSentence(h, other, kind');
    ExpectedOfSlice(fields, FirstField(kind));
    ExpectedOfSlice(other, FirstField(kind'));
  }

  lemma ExpectedOfSlice(fields: seq<seq<Octet>>, b: nat)
    requires b + 3 < |fields|
    ensures Expected(fields, b) == Expected(fields[b..b + 4], 0)
  {
  }
}
