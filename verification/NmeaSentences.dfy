/** What a whole sentence leaves in the fix, by the numbers of its fields. */
module NmeaSentences {
  import opened NmeaFields
  import opened NmeaParser
  import opened NmeaTokens
  import opened NmeaTimes
  import opened NmeaItems
  import opened NmeaNumerals
  import opened Options

  type Text = seq<Octet>

  /** The fields of a sentence by their numbers, as far as it has them. */
  type Sheet = a: seq<Option<Text>> | |a| == 18 witness seq(18, _ => None)

  /** The fields from number n on. */
  function SheetOf(texts: seq<Text>, n: nat): Sheet {
    seq(18, k => if n <= k < n + |texts| then Some(texts[k - n]) else None)
  }

  /** Of the fields in a, the one with number n is the first, and b are the others. */
  predicate FirstOf(a: Sheet, n: nat, text: Text, b: Sheet) {
    && (forall k :: 0 <= k < 18 && k < n ==> a[k] == None)
    && (forall k :: 0 <= k < 18 && k <= n ==> b[k] == None)
    && (forall k :: 0 <= k < 18 && k > n ==> a[k] == b[k])
    && (n < 18 ==> a[n] == Some(text))
  }

  lemma FirstOfSheet(texts: seq<Text>, n: nat)
    requires texts != []
    ensures FirstOf(SheetOf(texts, n), n, texts[0], SheetOf(texts[1..], n + 1))
  {
  }

  // ----- what a field makes of a value, if the sentence has that field

  function Num(t: Option<seq<Octet>>, before: int): int {
    if t.Some? then StrToL(t.value, 10) else before
  }

  function Num8(t: Option<seq<Octet>>, before: nat): nat {
    if t.Some? then UInt8(StrToL(t.value, 10)) else before
  }

  function Real(t: Option<seq<Octet>>, before: Float): Float {
    if t.Some? then Parsed(t.value) else before
  }

  function Angle(t: Option<seq<Octet>>, half: Option<seq<Octet>>, other: string, before: Float): Float
    requires |other| == 2 && forall i :: 0 <= i < 2 ==> other[i] as int < 256
  {
    var angle := if t.Some? then Degrees(t.value) else before;
    if half.Some? && half.value != [] && half.value[0] in other then Negated(angle) else angle
  }

  function Clock(t: Option<seq<Octet>>, before: Time): Time {
    if t.Some? then UtcTime(Padded(t.value), before) else before
  }

  function Day(t: Option<seq<Octet>>, before: Date): Date {
    if t.Some? then Date(TwoDigits(Padded(t.value), 0), TwoDigits(Padded(t.value), 2), TwoDigits(Padded(t.value), 4))
    else before
  }

  function Status(t: Option<seq<Octet>>, before: bool): bool {
    if t.Some? then t.value != [] && t.value[0] == 'A' else before
  }

  // ----- the five kinds but GSV, of which NmeaSatellites speaks

  function GgaLeaves(f: Fix, a: Sheet): Fix {
    var altitude, separation := Real(a[9], f.altitude), a[11];
    f.(tim := Clock(a[1], f.tim),
       latitude := Angle(a[2], a[3], "Ss", f.latitude),
       longitude := Angle(a[4], a[5], "Ww", f.longitude),
       fix := Num(a[6], f.fix),
       satsInUse := Num8(a[7], f.satsInUse),
       dopH := Real(a[8], f.dopH),
       altitude := if separation.Some? then Sum(altitude, Parsed(separation.value)) else altitude)
  }

  function RmcLeaves(f: Fix, a: Sheet): Fix {
    f.(tim := Clock(a[1], f.tim),
       valid := Status(a[2], f.valid),
       latitude := Angle(a[3], a[4], "Ss", f.latitude),
       longitude := Angle(a[5], a[6], "Ww", f.longitude),
       speed := if a[7].Some? then Knots(a[7].value) else f.speed,
       cog := Real(a[8], f.cog),
       date := Day(a[9], f.date),
       variation := Real(a[10], f.variation))
  }

  function GllLeaves(f: Fix, a: Sheet): Fix {
    f.(latitude := Angle(a[1], a[2], "Ss", f.latitude),
       longitude := Angle(a[3], a[4], "Ww", f.longitude),
       tim := Clock(a[5], f.tim),
       valid := Status(a[6], f.valid))
  }

  function VtgLeaves(f: Fix, a: Sheet): Fix {
    var knots := if a[5].Some? then Knots(a[5].value) else f.speed;
    f.(cog := Real(a[1], f.cog),
       variation := Real(a[3], f.variation),
       speed := if a[7].Some? then KilometresPerHour(a[7].value) else knots)
  }

  /** The twelve satellites of a GSA sentence are its fields 3 to 14. */
  predicate IdLeft(before: map<nat, nat>, after: map<nat, nat>, a: Sheet, e: nat) {
    var id := if e < 12 then a[e + 3] else None;
    if id.Some? then e in after && after[e] == UInt8(StrToL(id.value, 10))
    else (e in after <==> e in before) && (e in after ==> after[e] == before[e])
  }

  ghost predicate IdsLeft(before: map<nat, nat>, after: map<nat, nat>, a: Sheet) {
    forall e: nat :: IdLeft(before, after, a, e)
  }

  function GsaLeaves(f: Fix, a: Sheet, ids: map<nat, nat>): Fix {
    f.(fixMode := Num(a[2], f.fixMode),
       dopP := Real(a[15], f.dopP),
       dopH := Real(a[16], f.dopH),
       dopV := Real(a[17], f.dopV),
       satsIdInUse := ids)
  }

  lemma GgaStep(f: Fix, n: nat, text: Text, a: Sheet, b: Sheet)
    requires n > 0 && FirstOf(a, n, text, b) && CText(Padded(text)) == text
    ensures GgaLeaves(f, a) == GgaLeaves(GgaField(f, n, Padded(text)), b)
  {
    match n
    case 1 => case 2 => case 3 => case 4 => case 5 => case 6 => case 7 => case 8 => case 9 => case 10 => case 11 =>
    case _ =>
  }

  lemma RmcStep(f: Fix, n: nat, text: Text, a: Sheet, b: Sheet)
    requires n > 0 && FirstOf(a, n, text, b) && CText(Padded(text)) == text
    ensures RmcLeaves(f, a) == RmcLeaves(RmcField(f, n, Padded(text)), b)
  {
    match n
    case 1 => case 2 => case 3 => case 4 => case 5 => case 6 => case 7 => case 8 => case 9 => case 10 =>
    case _ =>
  }

  lemma GllStep(f: Fix, n: nat, text: Text, a: Sheet, b: Sheet)
    requires n > 0 && FirstOf(a, n, text, b) && CText(Padded(text)) == text
    ensures GllLeaves(f, a) == GllLeaves(GllField(f, n, Padded(text)), b)
  {
    match n
    case 1 => case 2 => case 3 => case 4 => case 5 => case 6 =>
    case _ =>
  }

  lemma VtgStep(f: Fix, n: nat, text: Text, a: Sheet, b: Sheet)
    requires n > 0 && FirstOf(a, n, text, b) && CText(Padded(text)) == text
    ensures VtgLeaves(f, a) == VtgLeaves(VtgField(f, n, Padded(text)), b)
  {
    match n
    case 1 => case 2 => case 3 => case 4 => case 5 => case 6 => case 7 =>
    case _ =>
  }

  lemma {:induction false} GgaItems(s: Sentence, n: nat, t: seq<Text>)
    requires n > 0 && AllTexts(t) && s.cur == GGA
    ensures ReadItems(s, n, t) == s.(parent := GgaLeaves(s.parent, SheetOf(t, n)))
    decreases |t|
  {
    if t != [] {
      PaddedText(t[0]);
      FirstOfSheet(t, n);
      GgaStep(s.parent, n, t[0], SheetOf(t, n), SheetOf(t[1..], n + 1));
      GgaItems(ReadItem(s, n, t[0]), n + 1, t[1..]);
    }
  }

  lemma {:induction false} RmcItems(s: Sentence, n: nat, t: seq<Text>)
    requires n > 0 && AllTexts(t) && s.cur == RMC
    ensures ReadItems(s, n, t) == s.(parent := RmcLeaves(s.parent, SheetOf(t, n)))
    decreases |t|
  {
    if t != [] {
      PaddedText(t[0]);
      FirstOfSheet(t, n);
      RmcStep(s.parent, n, t[0], SheetOf(t, n), SheetOf(t[1..], n + 1));
      RmcItems(ReadItem(s, n, t[0]), n + 1, t[1..]);
    }
  }

  lemma {:induction false} GllItems(s: Sentence, n: nat, t: seq<Text>)
    requires n > 0 && AllTexts(t) && s.cur == GLL
    ensures ReadItems(s, n, t) == s.(parent := GllLeaves(s.parent, SheetOf(t, n)))
    decreases |t|
  {
    if t != [] {
      PaddedText(t[0]);
      FirstOfSheet(t, n);
      GllStep(s.parent, n, t[0], SheetOf(t, n), SheetOf(t[1..], n + 1));
      GllItems(ReadItem(s, n, t[0]), n + 1, t[1..]);
    }
  }

  lemma {:induction false} VtgItems(s: Sentence, n: nat, t: seq<Text>)
    requires n > 0 && AllTexts(t) && s.cur == VTG
    ensures ReadItems(s, n, t) == s.(parent := VtgLeaves(s.parent, SheetOf(t, n)))
    decreases |t|
  {
    if t != [] {
      PaddedText(t[0]);
      FirstOfSheet(t, n);
      VtgStep(s.parent, n, t[0], SheetOf(t, n), SheetOf(t[1..], n + 1));
      VtgItems(ReadItem(s, n, t[0]), n + 1, t[1..]);
    }
  }

  lemma GsaStep(f: Fix, n: nat, text: Text, a: Sheet, b: Sheet, ids: map<nat, nat>)
    requires n > 0 && FirstOf(a, n, text, b) && CText(Padded(text)) == text
    ensures GsaLeaves(f, a, ids) == GsaLeaves(GsaField(f, n, Padded(text)), b, ids)
  {
    match n
    case 2 => case 15 => case 16 => case 17 =>
    case _ =>
  }

  lemma IdsStep(f: Fix, n: nat, text: Text, a: Sheet, b: Sheet, ids: map<nat, nat>)
    requires n > 0 && FirstOf(a, n, text, b) && CText(Padded(text)) == text
    requires IdsLeft(GsaField(f, n, Padded(text)).satsIdInUse, ids, b)
    ensures IdsLeft(f.satsIdInUse, ids, a)
  {
    forall e: nat
      ensures IdLeft(f.satsIdInUse, ids, a, e)
    {
      assert IdLeft(GsaField(f, n, Padded(text)).satsIdInUse, ids, b, e);
    }
  }

  lemma {:induction false} GsaItems(s: Sentence, n: nat, t: seq<Text>) returns (ids: map<nat, nat>)
    requires n > 0 && AllTexts(t) && s.cur == GSA
    ensures ReadItems(s, n, t) == s.(parent := GsaLeaves(s.parent, SheetOf(t, n), ids))
    ensures IdsLeft(s.parent.satsIdInUse, ids, SheetOf(t, n))
    decreases |t|
  {
    if t == [] {
      ids := s.parent.satsIdInUse;
      forall e: nat
        ensures IdLeft(s.parent.satsIdInUse, ids, SheetOf(t, n), e)
      {
      }
    } else {
      ids := GsaItems(ReadItem(s, n, t[0]), n + 1, t[1..]);
      PaddedText(t[0]);
      FirstOfSheet(t, n);
      GsaStep(s.parent, n, t[0], SheetOf(t, n), SheetOf(t[1..], n + 1), ids);
      IdsStep(s.parent, n, t[0], SheetOf(t, n), SheetOf(t[1..], n + 1), ids);
    }
  }

  /** What a sentence of a kind other than GSV leaves: each of its fields, if it has it, sets
      its own part of the fix, and the rest stays. */
  function Leaves(kind: Kind, f: Fix, a: Sheet, ids: map<nat, nat>): Fix
    requires kind != GSV
  {
    match kind
    case GGA => GgaLeaves(f, a)
    case GSA => GsaLeaves(f, a, ids)
    case RMC => RmcLeaves(f, a)
    case GLL => GllLeaves(f, a)
    case VTG => VtgLeaves(f, a)
    case Unknown => f
  }

  lemma SentenceLeaves(f: Fix, fields: seq<Text>, kind: Kind) returns (ids: map<nat, nat>)
    requires fields != [] && AllTexts(fields[1..]) && kind == KindOf(['$'] + fields[0]) && kind != GSV
    ensures IdsLeft(f.satsIdInUse, ids, SheetOf(fields[1..], 1))
    ensures ReadSentence(f, fields).parent == Leaves(kind, f, SheetOf(fields[1..], 1), ids)
  {
    var s, t := Sentence(kind, 0, 0, f), fields[1..];
    ids := GsaItems(s.(cur := GSA), 1, t);
    match kind
    case GGA => GgaItems(s, 1, t);
    case RMC => RmcItems(s, 1, t);
    case GLL => GllItems(s, 1, t);
    case VTG => VtgItems(s, 1, t);
    case Unknown => UnknownItems(s, 1, t);
    case GSA =>
    case GSV =>
  }

  /** From any state, for the bytes of every sentence of a kind other than GSV: the fix that
      they leave, the time and the date if those of the sentence have all their digits. */
  lemma WholeSentence(exact: bool, g: Gps, fields: seq<Text>, kind: Kind) returns (ids: map<nat, nat>)
    requires Wf(g) && FieldsFit(1, fields) && |fields| <= 256
    requires kind == KindOf(['$'] + fields[0]) && kind != GSV && (exact ==> SentenceTimesFit(fields))
    ensures FitsAll(g, ['$'] + (Join(fields) + ['*']))
    ensures IdsLeft(g.sentence.parent.satsIdInUse, ids, SheetOf(fields[1..], 1))
    ensures SameFix(exact, Feed(g, ['$'] + (Join(fields) + ['*'])).sentence.parent,
                    Leaves(kind, g.sentence.parent, SheetOf(fields[1..], 1), ids))
  {
    var h := SentenceFolds(exact, g, g.sentence.parent, fields);
    FitsAreTexts(1, fields);
    ids := SentenceLeaves(g.sentence.parent, fields, kind);
  }

  lemma {:induction false} UnknownItems(s: Sentence, n: nat, t: seq<Text>)
    requires n > 0 && s.cur == Unknown
    ensures ReadItems(s, n, t) == s
    decreases |t|
  {
    if t != [] {
      UnknownItems(ReadItem(s, n, t[0]), n + 1, t[1..]);
    }
  }

  // ----- fields in decimal

  lemma SheetAt(fields: seq<Text>, k: nat)
    requires 0 < k < 18 && fields != []
    ensures SheetOf(fields[1..], 1)[k] == if k < |fields| then Some(fields[k]) else None
  {
  }

  lemma SaidNumber(fields: seq<Text>, k: nat, n: nat, before: nat)
    requires 0 < k < 18 && FieldSpells(fields, k, n)
    ensures Num(SheetOf(fields[1..], 1)[k], before) == n && Num8(SheetOf(fields[1..], 1)[k], before) == n % 256
  {
    SheetAt(fields, k);
    SpelledValue(fields[k], n);
  }

  /** The text of a time: six digits, or also a point and the digits of a number. */
  ghost predicate SaysTime(text: Text, h: nat, m: nat, s: nat, frac: Option<nat>) {
    && h < 100 && m < 100 && s < 100
    && var clock := TwoText(h) + TwoText(m) + TwoText(s);
       if frac.None? then text == clock
       else exists zeros :: AllZero(zeros) && text == clock + ['.'] + (zeros + Decimal(frac.value))
  }

  lemma SaidTime(text: Text, h: nat, m: nat, s: nat, frac: Option<nat>, before: Time)
    requires SaysTime(text, h, m, s, frac) && Plain(text) && |text| < ITEM_LENGTH
    ensures |text| >= 6
    ensures UtcTime(Padded(text), before) == Time(h, m, s, if frac.Some? then frac.value % 65536 else before.thousand)
  {
    PaddedText(text);
    TextIsHeld(Padded(text), text);
    if frac.None? {
      TimeOfDigits(Padded(text), h, m, s, [], 0, text, before);
    } else {
      var clock := TwoText(h) + TwoText(m) + TwoText(s);
      var zeros :| AllZero(zeros) && text == clock + ['.'] + (zeros + Decimal(frac.value));
      TimeOfDigits(Padded(text), h, m, s, zeros, frac.value, text, before);
    }
  }

  lemma SaidDate(text: Text, day: nat, month: nat, year: nat, before: Date)
    requires day < 100 && month < 100 && year < 100 && text == TwoText(day) + TwoText(month) + TwoText(year)
    requires Plain(text)
    ensures Day(Some(text), before) == Date(day, month, year)
  {
    PaddedText(text);
    TextIsHeld(Padded(text), text);
    DateOfDigits(Padded(text), day, month, year, text);
  }

  /** From any state: a GGA sentence in decimal leaves its time, its fix status and its number
      of satellites in use as those numbers. */
  lemma GgaInDecimal(g: Gps, fields: seq<Text>, h: nat, m: nat, s: nat, frac: Option<nat>, status: nat, inUse: nat)
    requires Wf(g) && FieldsFit(1, fields) && 8 <= |fields| <= 256 && KindOf(['$'] + fields[0]) == GGA
    requires SaysTime(fields[1], h, m, s, frac) && FieldSpells(fields, 6, status) && FieldSpells(fields, 7, inUse)
    ensures FitsAll(g, ['$'] + (Join(fields) + ['*']))
    ensures var before, f := g.sentence.parent, Feed(g, ['$'] + (Join(fields) + ['*'])).sentence.parent;
            && f.fix == status && f.satsInUse == inUse % 256
            && f.tim == Time(h, m, s, if frac.Some? then frac.value % 65536 else before.tim.thousand)
  {
    SaidTime(fields[1], h, m, s, frac, g.sentence.parent.tim);
    var _ := WholeSentence(true, g, fields, GGA);
    SheetAt(fields, 1);
    SaidNumber(fields, 6, status, 0);
    SaidNumber(fields, 7, inUse, 0);
  }

  /** From any state: an RMC sentence in decimal leaves its time and its date. */
  lemma RmcInDecimal(g: Gps, fields: seq<Text>, h: nat, m: nat, s: nat, frac: Option<nat>,
                     day: nat, month: nat, year: nat)
    requires Wf(g) && FieldsFit(1, fields) && 10 <= |fields| <= 256 && KindOf(['$'] + fields[0]) == RMC
    requires SaysTime(fields[1], h, m, s, frac)
    requires day < 100 && month < 100 && year < 100 && fields[9] == TwoText(day) + TwoText(month) + TwoText(year)
    ensures FitsAll(g, ['$'] + (Join(fields) + ['*']))
    ensures var before, f := g.sentence.parent, Feed(g, ['$'] + (Join(fields) + ['*'])).sentence.parent;
            && f.date == Date(day, month, year)
            && f.tim == Time(h, m, s, if frac.Some? then frac.value % 65536 else before.tim.thousand)
  {
    SaidTime(fields[1], h, m, s, frac, g.sentence.parent.tim);
    SaidDate(fields[9], day, month, year, g.sentence.parent.date);
    var _ := WholeSentence(true, g, fields, RMC);
    SheetAt(fields, 1);
    SheetAt(fields, 9);
  }

  /** From any state: a GSA sentence in decimal leaves its fix mode and, in entry e of the
      satellites in use, its field e + 3. */
  lemma GsaInDecimal(g: Gps, fields: seq<Text>, mode: nat, e: nat, id: nat)
    requires Wf(g) && FieldsFit(1, fields) && |fields| <= 256 && KindOf(['$'] + fields[0]) == GSA
    requires FieldSpells(fields, 2, mode) && e < 12 && FieldSpells(fields, e + 3, id)
    ensures FitsAll(g, ['$'] + (Join(fields) + ['*']))
    ensures var f := Feed(g, ['$'] + (Join(fields) + ['*'])).sentence.parent;
            f.fixMode == mode && e in f.satsIdInUse && f.satsIdInUse[e] == id % 256
  {
    var ids := WholeSentence(false, g, fields, GSA);
    SaidNumber(fields, 2, mode, 0);
    SaidNumber(fields, e + 3, id, 0);
    SheetAt(fields, e + 3);
    assert IdLeft(g.sentence.parent.satsIdInUse, ids, SheetOf(fields[1..], 1), e);
  }
}
