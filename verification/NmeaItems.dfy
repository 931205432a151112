/** What the items of a sentence make of the fix: the byte loop is a fold of the field
    tables over the comma-separated fields.  Times and dates take part if they have all their
    digits; of shorter ones the source reads what older items left. */
module NmeaItems {
  import opened NmeaFields
  import opened NmeaParser
  import opened NmeaTokens
  import opened NmeaTimes

  /** The fix without its time and date. */
  function Timeless(f: Fix): Fix {
    f.(tim := Time(0, 0, 0, 0), date := Date(0, 0, 0))
  }

  /** The same fix, with or without time and date. */
  predicate SameFix(exact: bool, f: Fix, g: Fix) {
    if exact then f == g else Timeless(f) == Timeless(g)
  }

  predicate Same(exact: bool, s: Sentence, t: Sentence) {
    s.cur == t.cur && s.satNum == t.satNum && s.satCount == t.satCount && SameFix(exact, s.parent, t.parent)
  }

  /** Item n of a sentence, by its text. */
  function ReadItem(s: Sentence, n: nat, text: seq<Octet>): Sentence {
    ParseItem(s, n, Padded(text))
  }

  /** The items from number n on, one after the other. */
  function ReadItems(s: Sentence, n: nat, texts: seq<seq<Octet>>): Sentence
    decreases |texts|
  {
    if texts == [] then s else ReadItems(ReadItem(s, n, texts[0]), n + 1, texts[1..])
  }

  lemma ReadItemsStep(s: Sentence, n: nat, texts: seq<seq<Octet>>)
    requires texts != []
    ensures ReadItems(s, n, texts) == ReadItems(ReadItem(s, n, texts[0]), n + 1, texts[1..])
  {
  }

  /** A whole sentence: its kind, and then its items after the first. */
  function ReadSentence(f: Fix, fields: seq<seq<Octet>>): Sentence
    requires fields != []
  {
    ReadItems(Sentence(KindOf(['$'] + fields[0]), 0, 0, f), 1, fields[1..])
  }

  // ----- the tables depend on the text of an item only

  lemma GgaByText(f: Fix, g: Fix, n: nat, a: Item, b: Item)
    requires CText(a) == CText(b) && Timeless(f) == Timeless(g)
    ensures Timeless(GgaField(f, n, a)) == Timeless(GgaField(g, n, b))
  {
    match n
    case 1 => case 2 => case 3 => case 4 => case 5 => case 6 => case 7 => case 8 => case 9 => case 11 =>
    case _ =>
  }

  lemma GsaByText(f: Fix, g: Fix, n: nat, a: Item, b: Item)
    requires CText(a) == CText(b) && Timeless(f) == Timeless(g)
    ensures Timeless(GsaField(f, n, a)) == Timeless(GsaField(g, n, b))
  {
    match n
    case 2 => case 15 => case 16 => case 17 =>
    case _ =>
  }

  lemma RmcByText(f: Fix, g: Fix, n: nat, a: Item, b: Item)
    requires CText(a) == CText(b) && Timeless(f) == Timeless(g)
    ensures Timeless(RmcField(f, n, a)) == Timeless(RmcField(g, n, b))
  {
    match n
    case 1 => case 2 => case 3 => case 4 => case 5 => case 6 => case 7 => case 8 => case 9 => case 10 =>
    case _ =>
  }

  lemma GllByText(f: Fix, g: Fix, n: nat, a: Item, b: Item)
    requires CText(a) == CText(b) && Timeless(f) == Timeless(g)
    ensures Timeless(GllField(f, n, a)) == Timeless(GllField(g, n, b))
  {
    match n
    case 1 => case 2 => case 3 => case 4 => case 5 => case 6 =>
    case _ =>
  }

  lemma VtgByText(f: Fix, g: Fix, n: nat, a: Item, b: Item)
    requires CText(a) == CText(b) && Timeless(f) == Timeless(g)
    ensures Timeless(VtgField(f, n, a)) == Timeless(VtgField(g, n, b))
  {
    match n
    case 1 => case 3 => case 5 => case 7 =>
    case _ =>
  }

  lemma GsvByText(f: Fix, g: Fix, satNum: nat, n: nat, a: Item, b: Item)
    requires CText(a) == CText(b) && Timeless(f) == Timeless(g)
    ensures Timeless(GsvField(f, satNum, n, a)) == Timeless(GsvField(g, satNum, n, b))
  {
  }

  /** Whatever older items left behind the terminator. */
  lemma TimelessByText(s: Sentence, t: Sentence, n: nat, a: Item, b: Item)
    requires n > 0 && CText(a) == CText(b) && Same(false, s, t)
    ensures Same(false, ParseItem(s, n, a), ParseItem(t, n, b))
  {
    match s.cur
    case GGA => GgaByText(s.parent, t.parent, n, a, b);
    case GSA => GsaByText(s.parent, t.parent, n, a, b);
    case RMC => RmcByText(s.parent, t.parent, n, a, b);
    case GLL => GllByText(s.parent, t.parent, n, a, b);
    case VTG => VtgByText(s.parent, t.parent, n, a, b);
    case GSV => GsvByText(s.parent, t.parent, s.satNum, n, a, b);
    case Unknown =>
  }

  /** With all its digits a time or date depends on its text as well. */
  lemma ExactlyByText(s: Sentence, n: nat, a: Item, b: Item, text: seq<Octet>)
    requires n > 0 && CText(a) == text && CText(b) == text && Plain(text) && |text| < ITEM_LENGTH
    requires TimeFits(s.cur, n, text)
    ensures ParseItem(s, n, a) == ParseItem(s, n, b)
  {
    TextIsHeld(a, text);
    TextIsHeld(b, text);
    if |text| >= 6 {
      TimeByText(a, b, text, s.parent.tim);
    }
  }

  lemma ItemByText(exact: bool, s: Sentence, t: Sentence, n: nat, item: Item, text: seq<Octet>)
    requires n > 0 && CText(item) == text && Plain(text) && |text| < ITEM_LENGTH
    requires Same(exact, s, t) && (exact ==> TimeFits(s.cur, n, text))
    ensures Same(exact, ParseItem(s, n, item), ReadItem(t, n, text))
  {
    PaddedText(text);
    if exact {
      ExactlyByText(s, n, item, Padded(text), text);
    } else {
      TimelessByText(s, t, n, item, Padded(text));
    }
  }

  lemma KindStays(s: Sentence, n: nat, item: Item)
    requires n > 0
    ensures ParseItem(s, n, item).cur == s.cur
  {
  }

  // ----- the items of a sentence

  /** The times and dates among the items from number n on have all their digits. */
  predicate TimesFit(kind: Kind, n: nat, texts: seq<seq<Octet>>) {
    forall i {:trigger texts[i]} :: 0 <= i < |texts| ==> TimeFits(kind, n + i, texts[i])
  }

  lemma RestTimesFit(kind: Kind, n: nat, texts: seq<seq<Octet>>)
    requires texts != [] && TimesFit(kind, n, texts)
    ensures TimeFits(kind, n, texts[0]) && TimesFit(kind, n + 1, texts[1..])
  {
    forall i {:trigger texts[1..][i]} | 0 <= i < |texts[1..]|
      ensures TimeFits(kind, n + 1 + i, texts[1..][i])
    {
      assert texts[1..][i] == texts[i + 1];
    }
  }

  /** One item of a sentence after the first. */
  lemma ItemStep(exact: bool, g: Gps, t: Sentence, field: seq<Octet>, sep: Octet) returns (h: Gps)
    requires Wf(g) && !g.asterisk && g.itemPos == 0 && Plain(field) && |field| < ITEM_LENGTH
    requires 0 < g.itemNum && (sep == ',' || sep == '*')
    requires Same(exact, g.sentence, t) && (exact ==> TimeFits(t.cur, g.itemNum, field))
    ensures FitsAll(g, field + [sep]) && h == Feed(g, field + [sep])
    ensures Wf(h) && h.itemPos == 0 && h.itemNum == (g.itemNum + 1) % 256 && h.asterisk == (sep == '*')
    ensures Same(exact, h.sentence, ReadItem(t, g.itemNum, field))
  {
    FieldRun(g, field, sep);
    assert g.item[..0] + field == field;
    ItemByText(exact, g.sentence, t, g.itemNum, Feed(g, field).item, field);
    h := Feed(g, field + [sep]);
  }

  lemma RestFits(used: nat, fields: seq<seq<Octet>>)
    requires FieldsFit(used, fields) && |fields| > 1
    ensures FieldsFit(0, fields[1..])
  {
  }

  lemma JoinSplits(fields: seq<seq<Octet>>)
    requires |fields| > 1
    ensures Join(fields) + ['*'] == (fields[0] + [',']) + (Join(fields[1..]) + ['*'])
  {
  }

  /** Reading on after a field that is not the last. */
  lemma RestOfItems(g: Gps, fields: seq<seq<Octet>>, head: seq<Octet>, h: Gps)
    requires |fields| > 1 && head == fields[0] + [','] && FitsAll(g, head) && h == Feed(g, head)
    ensures FitsAll(g, Join(fields) + ['*']) <==> FitsAll(h, Join(fields[1..]) + ['*'])
    ensures FitsAll(g, Join(fields) + ['*']) ==> Feed(g, Join(fields) + ['*']) == Feed(h, Join(fields[1..]) + ['*'])
  {
    JoinSplits(fields);
    FeedAppend(g, head, Join(fields[1..]) + ['*']);
  }

  /** The state between two items of a sentence. */
  predicate BetweenItems(g: Gps) {
    Wf(g) && !g.asterisk && g.itemPos == 0 && 0 < g.itemNum
  }

  /** A field in the fold. */
  lemma FoldMore(exact: bool, t: Sentence, n: nat, fields: seq<seq<Octet>>) returns (t': Sentence)
    requires fields != [] && n > 0 && (exact ==> TimesFit(t.cur, n, fields))
    ensures t' == ReadItem(t, n, fields[0]) && ReadItems(t, n, fields) == ReadItems(t', n + 1, fields[1..])
    ensures exact ==> TimeFits(t.cur, n, fields[0]) && TimesFit(t'.cur, n + 1, fields[1..])
  {
    t' := ReadItem(t, n, fields[0]);
    KindStays(t, n, Padded(fields[0]));
    ReadItemsStep(t, n, fields);
    if exact {
      RestTimesFit(t.cur, n, fields);
    }
  }

  lemma LastItem(exact: bool, g: Gps, t: Sentence, fields: seq<seq<Octet>>) returns (h: Gps, s: Sentence)
    requires BetweenItems(g) && |fields| == 1 && FieldsFit(0, fields)
    requires Same(exact, g.sentence, t) && (exact ==> TimesFit(t.cur, g.itemNum, fields))
    ensures FitsAll(g, Join(fields) + ['*']) && h == Feed(g, Join(fields) + ['*'])
    ensures s == ReadItems(t, g.itemNum, fields) && Same(exact, h.sentence, s)
  {
    s := FoldMore(exact, t, g.itemNum, fields);
    h := ItemStep(exact, g, t, fields[0], '*');
  }

  /** A field that is not the last. */
  lemma FirstOfMore(exact: bool, g: Gps, t: Sentence, fields: seq<seq<Octet>>, head: seq<Octet>) returns (h: Gps)
    requires BetweenItems(g) && FieldsFit(0, fields) && |fields| > 1 && g.itemNum + |fields| <= 256
    requires head == fields[0] + [',']
    requires Same(exact, g.sentence, t) && (exact ==> TimeFits(t.cur, g.itemNum, fields[0]))
    ensures FitsAll(g, head) && h == Feed(g, head) && BetweenItems(h) && h.itemNum == g.itemNum + 1
    ensures Same(exact, h.sentence, ReadItem(t, g.itemNum, fields[0]))
  {
    h := ItemStep(exact, g, t, fields[0], ',');
  }

  /** The state in which the others are read. */
  lemma MoreItems(exact: bool, g: Gps, t: Sentence, fields: seq<seq<Octet>>, text: seq<Octet>, rest: seq<Octet>)
      returns (h: Gps)
    requires BetweenItems(g) && FieldsFit(0, fields) && |fields| > 1 && g.itemNum + |fields| <= 256
    requires text == Join(fields) + ['*'] && rest == Join(fields[1..]) + ['*']
    requires Same(exact, g.sentence, t) && (exact ==> TimeFits(t.cur, g.itemNum, fields[0]))
    ensures BetweenItems(h) && FieldsFit(0, fields[1..]) && h.itemNum == g.itemNum + 1
    ensures (FitsAll(g, text) <==> FitsAll(h, rest)) && (FitsAll(g, text) ==> Feed(g, text) == Feed(h, rest))
    ensures Same(exact, h.sentence, ReadItem(t, g.itemNum, fields[0]))
  {
    h := FirstOfMore(exact, g, t, fields, fields[0] + [',']);
    RestFits(0, fields);
    RestOfItems(g, fields, fields[0] + [','], h);
  }

  /** The items after the first, up to the asterisk. */
  lemma {:induction false} ItemsRun(exact: bool, g: Gps, t: Sentence, fields: seq<seq<Octet>>, text: seq<Octet>)
      returns (h: Gps, s: Sentence)
    requires BetweenItems(g) && FieldsFit(0, fields) && g.itemNum + |fields| <= 256
    requires text == Join(fields) + ['*']
    requires Same(exact, g.sentence, t) && (exact ==> TimesFit(t.cur, g.itemNum, fields))
    ensures FitsAll(g, text) && h == Feed(g, text)
    ensures s == ReadItems(t, g.itemNum, fields) && Same(exact, h.sentence, s)
    decreases |fields|
  {
    if |fields| == 1 {
      h, s := LastItem(exact, g, t, fields);
    } else {
      var t' := FoldMore(exact, t, g.itemNum, fields);
      var rest := Join(fields[1..]) + ['*'];
      h := MoreItems(exact, g, t, fields, text, rest);
      h, s := ItemsRun(exact, h, t', fields[1..], rest);
    }
  }

  /** After the first item, which announces the kind and touches nothing else. */
  lemma FirstItem(g: Gps, first: seq<Octet>, sep: Octet) returns (k: Gps)
    requires Wf(g) && Plain(first) && 1 + |first| < ITEM_LENGTH && (sep == ',' || sep == '*')
    ensures FitsAll(g, ['$'] + (first + [sep])) && k == Feed(g, ['$'] + (first + [sep]))
    ensures Wf(k) && k.itemPos == 0 && k.itemNum == 1 && k.asterisk == (sep == '*')
    ensures k.sentence == Sentence(KindOf(['$'] + first), 0, 0, g.sentence.parent)
  {
    Dollar(g);
    var h := Step(g, '$');
    FieldRun(h, first, sep);
    var text := first + [sep];
    assert (['$'] + text)[1..] == text;
    assert CText(Feed(h, first).item)[0] == '$';
    k := Feed(h, text);
  }

  lemma WholeText(fields: seq<seq<Octet>>)
    requires |fields| > 1
    ensures ['$'] + (Join(fields) + ['*']) == ['$'] + (fields[0] + [',']) + (Join(fields[1..]) + ['*'])
  {
    JoinSplits(fields);
  }

  /** The times and dates of a sentence have all their digits. */
  predicate SentenceTimesFit(fields: seq<seq<Octet>>)
    requires fields != []
  {
    TimesFit(KindOf(['$'] + fields[0]), 1, fields[1..])
  }

  /** From any state, for every sentence with at most as many fields as the item counter can
      tell apart: the kind, the counters and all of the fix but its time and date are what
      the tables make of the fields, one after the other; and the time and the date too if
      those among the fields have all their digits. */
  lemma SentenceFolds(exact: bool, g: Gps, f: Fix, fields: seq<seq<Octet>>) returns (h: Gps)
    requires Wf(g) && FieldsFit(1, fields) && |fields| <= 256
    requires SameFix(exact, g.sentence.parent, f) && (exact ==> SentenceTimesFit(fields))
    ensures FitsAll(g, ['$'] + (Join(fields) + ['*'])) && h == Feed(g, ['$'] + (Join(fields) + ['*']))
    ensures Same(exact, h.sentence, ReadSentence(f, fields))
  {
    if |fields| == 1 {
      h := FirstItem(g, fields[0], '*');
    } else {
      var k := FirstItem(g, fields[0], ',');
      var head, rest := ['$'] + (fields[0] + [',']), fields[1..];
      RestFits(1, fields);
      var s;
      h, s := ItemsRun(exact, k, Sentence(KindOf(['$'] + fields[0]), 0, 0, f), rest, Join(rest) + ['*']);
      WholeText(fields);
      FeedAppend(g, head, Join(rest) + ['*']);
    }
  }

  /** All fields are texts that an item can hold. */
  predicate AllTexts(texts: seq<seq<Octet>>) {
    forall i :: 0 <= i < |texts| ==> Plain(texts[i]) && |texts[i]| < ITEM_LENGTH
  }

  lemma FitsAreTexts(used: nat, fields: seq<seq<Octet>>)
    requires FieldsFit(used, fields)
    ensures AllTexts(fields) && AllTexts(fields[1..])
  {
  }
}
