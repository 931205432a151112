/** The table of satellites that GSV sentences fill, four entries at a time. */
module NmeaSatellites {
  import opened NmeaFields
  import opened NmeaParser
  import opened NmeaTokens
  import opened NmeaTimes
  import opened NmeaItems
  import opened NmeaNumerals
  import opened NmeaLines
  import opened NmeaPosition
  import opened Options

  /** The part of the state that a GSV sentence works on. */
  datatype View = View(satNum: nat, satCount: nat, inView: nat, table: map<nat, Satellite>)

  function ViewOf(s: Sentence): View {
    View(s.satNum, s.satCount, s.parent.satsInView, s.parent.satsDesc)
  }

  /** The numbers that the items hold. */
  function Numbers(texts: seq<seq<Octet>>): (xs: seq<int>)
    ensures |xs| == |texts|
  {
    if texts == [] then [] else [StrToL(texts[0], 10)] + Numbers(texts[1..])
  }

  /** The entry that item n of sentence number `satNum` is about. */
  function Entry(satNum: nat, n: nat): nat
    requires n >= 4
  {
    UInt8(4 * (satNum - 1) + (n - 4) / 4)
  }

  function SetPart(sat: Satellite, part: nat, x: int): Satellite {
    if part == 0 then sat.(num := UInt8(x))
    else if part == 1 then sat.(elevation := UInt8(x))
    else if part == 2 then sat.(azimuth := x % 65536)
    else sat.(snr := UInt8(x))
  }

  function SetEntry(table: map<nat, Satellite>, e: nat, part: nat, x: int): map<nat, Satellite> {
    if e >= 16 then table
    else table[e := SetPart(if e in table then table[e] else Satellite(0, 0, 0, 0), part, x)]
  }

  function SetItem(v: View, n: nat, x: int): View {
    if n == 1 then v.(satCount := UInt8(x))
    else if n == 2 then v.(satNum := UInt8(x))
    else if n == 3 then v.(inView := UInt8(x))
    else if 4 <= n <= 19 then v.(table := SetEntry(v.table, Entry(v.satNum, n), (n - 4) % 4, x))
    else v
  }

  function SetItems(v: View, n: nat, xs: seq<int>): View
    decreases |xs|
  {
    if xs == [] then v else SetItems(SetItem(v, n, xs[0]), n + 1, xs[1..])
  }

  lemma SetItemsStep(v: View, n: nat, xs: seq<int>)
    requires xs != []
    ensures SetItems(v, n, xs) == SetItems(SetItem(v, n, xs[0]), n + 1, xs[1..])
  {
  }

  lemma ParseItemSetsView(s: Sentence, n: nat, item: Item)
    requires s.cur == GSV && n > 0
    ensures ParseItem(s, n, item).cur == GSV
    ensures ViewOf(ParseItem(s, n, item)) == SetItem(ViewOf(s), n, StrToL(CText(item), 10))
  {
  }

  // ----- a run over the items of a sentence

  lemma NumbersStep(text: seq<Octet>, texts: seq<seq<Octet>>)
    ensures Numbers([text] + texts) == [StrToL(text, 10)] + Numbers(texts)
    ensures Numbers([text] + texts)[1..] == Numbers(texts)
  {
    assert ([text] + texts)[1..] == texts;
  }

  lemma SetNumbersStep(v: View, n: nat, fields: seq<seq<Octet>>)
    requires fields != []
    ensures SetItems(v, n, Numbers(fields)) ==
            SetItems(SetItem(v, n, StrToL(fields[0], 10)), n + 1, Numbers(fields[1..]))
  {
    NumbersStep(fields[0], fields[1..]);
    assert fields == [fields[0]] + fields[1..];
    SetItemsStep(v, n, Numbers(fields));
  }

  lemma {:induction false} ViewOfItems(s: Sentence, n: nat, fields: seq<seq<Octet>>)
    requires n > 0 && AllTexts(fields) && s.cur == GSV
    ensures var s' := ReadItems(s, n, fields);
            s'.cur == GSV && ViewOf(s') == SetItems(ViewOf(s), n, Numbers(fields))
    decreases |fields|
  {
    if fields != [] {
      PaddedText(fields[0]);
      ParseItemSetsView(s, n, Padded(fields[0]));
      ViewOfItems(ReadItem(s, n, fields[0]), n + 1, fields[1..]);
      SetNumbersStep(ViewOf(s), n, fields);
    }
  }

  // ----- what the items say; `xs` are the numbers of all items, the first one's unused

  /** Satellite number j of a sentence. */
  function Described(xs: seq<int>, j: nat): Satellite
    requires 4 * j + 7 < |xs|
  {
    Satellite(UInt8(xs[4 * j + 4]), UInt8(xs[4 * j + 5]), xs[4 * j + 6] % 65536, UInt8(xs[4 * j + 7]))
  }

  /** The k satellites of a sentence. */
  function AllDescribed(xs: seq<int>, k: nat): (sats: seq<Satellite>)
    requires 4 * k + 4 <= |xs|
  {
    seq(k, j requires 0 <= j < k => Described(xs, j))
  }

  /** The first entry of sentence number m. */
  function Base(m: nat): nat {
    UInt8(4 * (m - 1))
  }

  lemma AddBelowFour(y: int, j: nat)
    requires j < 4
    ensures (4 * y + j) % 256 == 4 * y % 256 + j
  {
    assert 4 * y % 256 == 4 * (y - 64 * (4 * y / 256));
  }

  /** One of the four items about satellite number j of a sentence. */
  lemma SatelliteItem(v: View, t: map<nat, Satellite>, j: nat, part: nat, n: nat, e: nat, x: int)
    requires j < 4 && part < 4 && n == 4 * j + 4 + part && e == Base(v.satNum) + j
    ensures SetItem(v.(table := t), n, x) == v.(table := SetEntry(t, e, part, x))
  {
    assert (4 * j + part) / 4 == j && (4 * j + part) % 4 == part;
    AddBelowFour(v.satNum - 1, j);
  }

  function Put(table: map<nat, Satellite>, e: nat, sat: Satellite): map<nat, Satellite> {
    if e < 16 then table[e := sat] else table
  }

  /** Four items in a row write one entry whole, whatever was there. */
  lemma FourItems(v: View, xs: seq<int>, j: nat)
    requires j < 4 && 4 * j + 7 < |xs|
    ensures var n := 4 * j + 4;
            SetItems(v, n, xs[n..]) ==
            SetItems(v.(table := Put(v.table, Base(v.satNum) + j, Described(xs, j))), n + 4, xs[n + 4..])
  {
    var n := 4 * j + 4;
    WholeSatellite(v, j, xs[n], xs[n + 1], xs[n + 2], xs[n + 3]);
    FourSteps(v, n, xs);
  }

  lemma WholeSatellite(v: View, j: nat, a: int, b: int, c: int, d: int)
    requires j < 4
    ensures var n := 4 * j + 4;
            SetItem(SetItem(SetItem(SetItem(v, n, a), n + 1, b), n + 2, c), n + 3, d) ==
            v.(table := Put(v.table, Base(v.satNum) + j, Satellite(UInt8(a), UInt8(b), c % 65536, UInt8(d))))
  {
    var n, e := 4 * j + 4, Base(v.satNum) + j;
    var t1 := SetEntry(v.table, e, 0, a);
    var t2 := SetEntry(t1, e, 1, b);
    var t3 := SetEntry(t2, e, 2, c);
    SatelliteItem(v, v.table, j, 0, n, e, a);
    SatelliteItem(v, t1, j, 1, n + 1, e, b);
    SatelliteItem(v, t2, j, 2, n + 2, e, c);
    SatelliteItem(v, t3, j, 3, n + 3, e, d);
    WholeEntry(v.table, e, a, b, c, d);
  }

  lemma WholeEntry(table: map<nat, Satellite>, e: nat, a: int, b: int, c: int, d: int)
    ensures SetEntry(SetEntry(SetEntry(SetEntry(table, e, 0, a), e, 1, b), e, 2, c), e, 3, d) ==
            Put(table, e, Satellite(UInt8(a), UInt8(b), c % 65536, UInt8(d)))
  {
  }

  lemma FourSteps(v: View, n: nat, xs: seq<int>)
    requires n + 3 < |xs|
    ensures SetItems(v, n, xs[n..]) ==
            SetItems(SetItem(SetItem(SetItem(SetItem(v, n, xs[n]), n + 1, xs[n + 1]), n + 2, xs[n + 2]),
                             n + 3, xs[n + 3]),
                     n + 4, xs[n + 4..])
  {
    TwoSteps(v, n, xs);
    TwoSteps(SetItem(SetItem(v, n, xs[n]), n + 1, xs[n + 1]), n + 2, xs);
  }

  lemma TwoSteps(v: View, n: nat, xs: seq<int>)
    requires n + 1 < |xs|
    ensures SetItems(v, n, xs[n..]) == SetItems(SetItem(SetItem(v, n, xs[n]), n + 1, xs[n + 1]), n + 2, xs[n + 2..])
  {
    SetItemsStep(v, n, xs[n..]);
    assert xs[n..][1..] == xs[n + 1..];
    SetItemsStep(SetItem(v, n, xs[n]), n + 1, xs[n + 1..]);
    assert xs[n + 1..][1..] == xs[n + 2..];
  }

  /** The satellites put into the table from an entry on. */
  function Filled(table: map<nat, Satellite>, base: nat, sats: seq<Satellite>): map<nat, Satellite>
    decreases |sats|
  {
    if sats == [] then table else Filled(Put(table, base, sats[0]), base + 1, sats[1..])
  }

  lemma FilledStep(table: map<nat, Satellite>, base: nat, sat: Satellite, sats: seq<Satellite>)
    ensures Filled(table, base, [sat] + sats) == Filled(Put(table, base, sat), base + 1, sats)
  {
    assert ([sat] + sats)[1..] == sats;
  }

  lemma {:induction false} SatellitesRun(v: View, xs: seq<int>, sats: seq<Satellite>, j: nat, n: nat, base: nat)
    requires j <= |sats| <= 4 && |xs| == 4 * |sats| + 4 && n == 4 * j + 4 && base == Base(v.satNum)
    requires sats == AllDescribed(xs, |sats|)
    ensures SetItems(v, n, xs[n..]) == v.(table := Filled(v.table, base + j, sats[j..]))
    decreases |sats| - j
  {
    if j == |sats| {
      assert xs[n..] == [];
    } else {
      FourItems(v, xs, j);
      SatellitesRun(v.(table := Put(v.table, base + j, sats[j])), xs, sats, j + 1, n + 4, base);
      FilledStep(v.table, base + j, sats[j], sats[j + 1..]);
      assert sats[j..] == [sats[j]] + sats[j + 1..];
    }
  }

  lemma HeaderItems(v: View, xs: seq<int>)
    requires |xs| >= 4
    ensures SetItems(v, 1, xs[1..]) == SetItems(View(UInt8(xs[2]), UInt8(xs[1]), UInt8(xs[3]), v.table), 4, xs[4..])
  {
    TwoSteps(v, 1, xs);
    SetItemsStep(SetItem(SetItem(v, 1, xs[1]), 2, xs[2]), 3, xs[3..]);
    assert xs[3..][1..] == xs[4..];
  }

  /** Entry e after a change: the new satellite, or as it was. */
  predicate EntryAfter(after: map<nat, Satellite>, before: map<nat, Satellite>, e: nat, sat: Option<Satellite>) {
    if sat.Some? then e in after && after[e] == sat.value
    else (e in after <==> e in before) && (e in after ==> after[e] == before[e])
  }

  /** The satellite that goes to entry e. */
  function For(sats: seq<Satellite>, base: nat, e: nat): Option<Satellite> {
    if base <= e < base + |sats| && e < 16 then Some(sats[e - base]) else None
  }

  lemma {:induction false} FilledAt(table: map<nat, Satellite>, base: nat, sats: seq<Satellite>, e: nat)
    ensures EntryAfter(Filled(table, base, sats), table, e, For(sats, base, e))
    decreases |sats|
  {
    if sats != [] {
      FilledAt(Put(table, base, sats[0]), base + 1, sats[1..], e);
    }
  }

  /** The satellite that a sentence of k satellites describes for entry e. */
  function DescribedFor(xs: seq<int>, k: nat, e: nat): Option<Satellite>
    requires 4 * k + 4 <= |xs|
  {
    var base := Base(UInt8(xs[2]));
    if base <= e < base + k && e < 16 then Some(Described(xs, e - base)) else None
  }

  /** All items of a sentence that describes k satellites. */
  lemma SentenceItems(v: View, xs: seq<int>, k: nat, e: nat)
    requires k <= 4 && |xs| == 4 * k + 4
    ensures var w := SetItems(v, 1, xs[1..]);
            && w.satCount == UInt8(xs[1]) && w.satNum == UInt8(xs[2]) && w.inView == UInt8(xs[3])
            && EntryAfter(w.table, v.table, e, DescribedFor(xs, k, e))
  {
    var sats, base := AllDescribed(xs, k), Base(UInt8(xs[2]));
    HeaderItems(v, xs);
    SatellitesRun(View(UInt8(xs[2]), UInt8(xs[1]), UInt8(xs[3]), v.table), xs, sats, 0, 4, base);
    assert sats[0..] == sats;
    FilledAt(v.table, base, sats, e);
  }

  /** From any state: sentence number m of a series leaves in the table, from entry
      4 * (m - 1) modulo 256 on and as far as the table goes, exactly the satellites that
      it describes, and leaves the other entries alone. */
  lemma SatellitesOfSentence(g: Gps, fields: seq<seq<Octet>>, k: nat, e: nat)
    requires Wf(g) && FieldsFit(1, fields) && k <= 4 && |fields| == 4 * k + 4 && KindOf(['$'] + fields[0]) == GSV
    ensures FitsAll(g, ['$'] + (Join(fields) + ['*']))
    ensures var s, xs := Feed(g, ['$'] + (Join(fields) + ['*'])).sentence, Numbers(fields);
            && s.cur == GSV && s.satCount == UInt8(xs[1]) && s.satNum == UInt8(xs[2])
            && s.parent.satsInView == UInt8(xs[3])
            && EntryAfter(s.parent.satsDesc, g.sentence.parent.satsDesc, e, DescribedFor(xs, k, e))
  {
    var v := SentenceView(g, fields);
    SentenceItems(v, Numbers(fields), k, e);
  }

  /** A whole GSV sentence is its items after the first, applied in order. */
  lemma SentenceView(g: Gps, fields: seq<seq<Octet>>) returns (v: View)
    requires Wf(g) && FieldsFit(1, fields) && 1 < |fields| <= 256 && KindOf(['$'] + fields[0]) == GSV
    ensures FitsAll(g, ['$'] + (Join(fields) + ['*']))
    ensures v.table == g.sentence.parent.satsDesc
    ensures var s := Feed(g, ['$'] + (Join(fields) + ['*'])).sentence;
            s.cur == GSV && ViewOf(s) == SetItems(v, 1, Numbers(fields)[1..])
  {
    var h := SentenceFolds(false, g, g.sentence.parent, fields);
    var start := Sentence(GSV, 0, 0, g.sentence.parent);
    FitsAreTexts(1, fields);
    ViewOfItems(start, 1, fields[1..]);
    v := ViewOf(start);
    NumbersStep(fields[0], fields[1..]);
    assert fields == [fields[0]] + fields[1..];
  }

  // ----- a series of sentences

  /** Sentence number i + 1 of a series, with k satellites. */
  ghost predicate IsGsv(l: Line, i: nat, k: nat) {
    && LineOk(l) && KindOf(['$'] + l.fields[0]) == GSV
    && k <= 4 && |l.fields| == 4 * k + 4 && UInt8(Numbers(l.fields)[2]) == i + 1
  }

  lemma LineRun(g: Gps, l: Line, i: nat, k: nat, e: nat)
    requires Wf(g) && IsGsv(l, i, k)
    ensures FitsAll(g, LineText(l)) && Wf(Feed(g, LineText(l)))
    ensures EntryAfter(Feed(g, LineText(l)).sentence.parent.satsDesc, g.sentence.parent.satsDesc, e,
                       DescribedFor(Numbers(l.fields), k, e))
  {
    SatellitesOfSentence(g, l.fields, k, e);
    LineEffect(g, l);
  }

  ghost predicate IsSeries(series: seq<Line>, ks: seq<nat>) {
    |ks| == |series| <= 4 && forall i :: 0 <= i < |series| ==> IsGsv(series[i], i, ks[i])
  }

  lemma PrefixIsSeries(series: seq<Line>, ks: seq<nat>, n: nat)
    requires IsSeries(series, ks) && n <= |series|
    ensures IsSeries(series[..n], ks[..n])
  {
  }

  lemma SeriesIsOk(series: seq<Line>, ks: seq<nat>)
    requires IsSeries(series, ks)
    ensures AllOk(series)
  {
    forall i | 0 <= i < |series|
      ensures LineOk(series[i])
    {
      assert IsGsv(series[i], i, ks[i]);
    }
  }

  lemma BaseOf(i: nat)
    requires i < 64
    ensures Base(i + 1) == 4 * i
  {
  }

  function Table(g: Gps): map<nat, Satellite> {
    g.sentence.parent.satsDesc
  }

  predicate EntryIs(table: map<nat, Satellite>, e: nat, sat: Satellite) {
    e in table && table[e] == sat
  }

  lemma LineFills(g: Gps, l: Line, n: nat, k: nat, j: nat)
    requires Wf(g) && IsGsv(l, n, k) && n < 4 && j < k
    ensures FitsAll(g, LineText(l)) && EntryIs(Table(Feed(g, LineText(l))), 4 * n + j, Described(Numbers(l.fields), j))
  {
    LineRun(g, l, n, k, 4 * n + j);
    BaseOf(n);
  }

  lemma LineKeeps(g: Gps, l: Line, n: nat, k: nat, e: nat, sat: Satellite)
    requires Wf(g) && IsGsv(l, n, k) && n < 4 && e < 4 * n && EntryIs(Table(g), e, sat)
    ensures FitsAll(g, LineText(l)) && EntryIs(Table(Feed(g, LineText(l))), e, sat)
  {
    LineRun(g, l, n, k, e);
    BaseOf(n);
  }

  /** The last sentence writes its own entries and keeps those of the ones before. */
  lemma LastLineFills(series: seq<Line>, ks: seq<nat>, h: Gps, h': Gps, i: nat, j: nat)
    requires IsSeries(series, ks) && i < |series| && j < ks[i] && Wf(h)
    requires FitsAll(h, LineText(series[|series| - 1])) && h' == Feed(h, LineText(series[|series| - 1]))
    requires i < |series| - 1 ==> EntryIs(Table(h), 4 * i + j, Described(Numbers(series[i].fields), j))
    ensures EntryIs(Table(h'), 4 * i + j, Described(Numbers(series[i].fields), j))
  {
    var n := |series| - 1;
    if i == n {
      LineFills(h, series[n], n, ks[n], j);
    } else {
      LineKeeps(h, series[n], n, ks[n], 4 * i + j, Described(Numbers(series[i].fields), j));
    }
  }

  /** Whatever the table held, and whether or not the checksums are right: after a series
      of up to four GSV sentences, the table holds every satellite that the series
      describes, in its order: entry 4 * i + j is satellite j of sentence i + 1. */
  lemma {:induction false} SeriesFillsTable(g: Gps, series: seq<Line>, ks: seq<nat>, i: nat, j: nat)
    requires Wf(g) && IsSeries(series, ks) && i < |series| && j < ks[i]
    ensures FitsAll(g, LinesText(series))
    ensures EntryIs(Table(Feed(g, LinesText(series))), 4 * i + j, Described(Numbers(series[i].fields), j))
    decreases |series|
  {
    var n := |series| - 1;
    SeriesIsOk(series, ks);
    var h, h' := LastLine(g, series);
    if i < n {
      PrefixIsSeries(series, ks, n);
      SeriesFillsTable(g, series[..n], ks[..n], i, j);
    }
    LastLineFills(series, ks, h, h', i, j);
  }

  // ----- sentences whose fields are decimal numbers

  lemma {:induction false} NumbersAt(texts: seq<seq<Octet>>, k: nat)
    requires k < |texts|
    ensures Numbers(texts)[k] == StrToL(texts[k], 10)
  {
    if k > 0 {
      NumbersAt(texts[1..], k - 1);
    }
  }

  /** The four fields about satellite number j of a sentence. */
  ghost predicate SpellsSatellite(fields: seq<seq<Octet>>, j: nat, sat: Satellite) {
    && FieldSpells(fields, 4 * j + 4, sat.num) && FieldSpells(fields, 4 * j + 5, sat.elevation)
    && FieldSpells(fields, 4 * j + 6, sat.azimuth) && FieldSpells(fields, 4 * j + 7, sat.snr)
  }

  /** A sentence about given satellites: how many sentences there are, which one this is, how
      many satellites are in view, and the satellites, all in decimal. */
  ghost predicate IsAbout(fields: seq<seq<Octet>>, total: nat, m: nat, inView: nat, sats: seq<Satellite>) {
    && |sats| <= 4 && |fields| == 4 * |sats| + 4
    && FieldSpells(fields, 1, total) && FieldSpells(fields, 2, m) && FieldSpells(fields, 3, inView)
    && forall j :: 0 <= j < |sats| ==> SpellsSatellite(fields, j, sats[j])
  }

  /** The numbers in the widths of the table. */
  function Narrowed(sat: Satellite): Satellite {
    Satellite(sat.num % 256, sat.elevation % 256, sat.azimuth % 65536, sat.snr % 256)
  }

  lemma FieldNumber(fields: seq<seq<Octet>>, k: nat, n: nat)
    requires FieldSpells(fields, k, n)
    ensures Numbers(fields)[k] == n
  {
    NumbersAt(fields, k);
    SpelledValue(fields[k], n);
  }

  lemma DescribedIs(fields: seq<seq<Octet>>, j: nat, sat: Satellite)
    requires SpellsSatellite(fields, j, sat)
    ensures Described(Numbers(fields), j) == Narrowed(sat)
  {
    FieldNumber(fields, 4 * j + 4, sat.num);
    FieldNumber(fields, 4 * j + 5, sat.elevation);
    FieldNumber(fields, 4 * j + 6, sat.azimuth);
    FieldNumber(fields, 4 * j + 7, sat.snr);
  }

  /** The satellite that a sentence with these satellites puts into entry e, if any. */
  function PutInto(sats: seq<Satellite>, base: nat, e: nat): Option<Satellite> {
    if base <= e < base + |sats| && e < 16 then Some(Narrowed(sats[e - base])) else None
  }

  lemma NumbersOfAbout(fields: seq<seq<Octet>>, total: nat, m: nat, inView: nat, sats: seq<Satellite>, e: nat)
    requires IsAbout(fields, total, m, inView, sats)
    ensures var xs := Numbers(fields);
            && UInt8(xs[1]) == total % 256 && UInt8(xs[2]) == m % 256 && UInt8(xs[3]) == inView % 256
            && DescribedFor(xs, |sats|, e) == PutInto(sats, 4 * (m % 256 - 1) % 256, e)
  {
    FieldNumber(fields, 1, total);
    FieldNumber(fields, 2, m);
    FieldNumber(fields, 3, inView);
    var base := Base(m % 256);
    if base <= e < base + |sats| && e < 16 {
      DescribedIs(fields, e - base, sats[e - base]);
    }
  }

  /** From any state: a GSV sentence in decimal leaves the numbers themselves, in the widths of
      their variables: the counters, the satellites in view, and in the table, from entry
      4 * (m - 1) modulo 256 on, its satellites in order; every other entry is as it was. */
  lemma SatellitesOfNumbers(g: Gps, fields: seq<seq<Octet>>, total: nat, m: nat, inView: nat,
                            sats: seq<Satellite>, e: nat)
    requires Wf(g) && FieldsFit(1, fields) && KindOf(['$'] + fields[0]) == GSV
    requires IsAbout(fields, total, m, inView, sats)
    ensures FitsAll(g, ['$'] + (Join(fields) + ['*']))
    ensures var s := Feed(g, ['$'] + (Join(fields) + ['*'])).sentence;
            && s.satCount == total % 256 && s.satNum == m % 256 && s.parent.satsInView == inView % 256
            && EntryAfter(s.parent.satsDesc, g.sentence.parent.satsDesc, e, PutInto(sats, 4 * (m % 256 - 1) % 256, e))
  {
    NumbersOfAbout(fields, total, m, inView, sats, e);
    SatellitesOfSentence(g, fields, |sats|, e);
  }

  /** A series of GSV sentences in decimal, about given satellites. */
  ghost predicate IsSeriesAbout(series: seq<Line>, total: nat, inView: nat, sats: seq<seq<Satellite>>) {
    && |sats| == |series| <= 4
    && forall i :: 0 <= i < |series| ==>
         LineOk(series[i]) && KindOf(['$'] + series[i].fields[0]) == GSV &&
         IsAbout(series[i].fields, total, i + 1, inView, sats[i])
  }

  lemma AboutIsGsv(l: Line, n: nat, total: nat, inView: nat, sats: seq<Satellite>)
    requires LineOk(l) && KindOf(['$'] + l.fields[0]) == GSV && n < 4 && IsAbout(l.fields, total, n + 1, inView, sats)
    ensures IsGsv(l, n, |sats|)
  {
    FieldNumber(l.fields, 2, n + 1);
  }

  /** Whatever the table held, and whether or not the checksums are right: after the series the
      table holds satellite j of sentence i + 1 in entry 4 * i + j, by its own numbers. */
  lemma SeriesOfNumbers(g: Gps, series: seq<Line>, total: nat, inView: nat, sats: seq<seq<Satellite>>, i: nat, j: nat)
    requires Wf(g) && IsSeriesAbout(series, total, inView, sats) && i < |series| && j < |sats[i]|
    ensures FitsAll(g, LinesText(series))
    ensures EntryIs(Table(Feed(g, LinesText(series))), 4 * i + j, Narrowed(sats[i][j]))
  {
    var ks := seq(|series|, n requires 0 <= n < |series| => |sats[n]| as nat);
    forall n | 0 <= n < |series|
      ensures IsGsv(series[n], n, ks[n])
    {
      AboutIsGsv(series[n], n, total, inView, sats[n]);
    }
    SeriesFillsTable(g, series, ks, i, j);
    DescribedIs(series[i].fields, j, sats[i][j]);
  }
}
