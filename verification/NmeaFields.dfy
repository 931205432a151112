/** Fields of NMEA 0183 sentences: numerals, and which field of which sentence sets what. */
module NmeaFields {

  /** One received byte. */
  type Octet = c: char | c as int < 256

  /** The kinds of sentence; `Unknown` stands for none. */
  datatype Kind = Unknown | GGA | GSA | RMC | GSV | GLL | VTG

  const ALL_KINDS: set<Kind> := {GGA, GSA, RMC, GSV, GLL, VTG}

  /** A floating-point value as the expression that computed it; rounding is not modelled. */
  datatype Float =
    | Zero
    | Parsed(text: seq<Octet>)
    | Degrees(text: seq<Octet>)
    | Negated(of: Float)
    | Sum(left: Float, right: Float)
    | Knots(text: seq<Octet>)
    | KilometresPerHour(text: seq<Octet>)

  datatype Time = Time(hour: nat, minute: nat, second: nat, thousand: nat)
  datatype Date = Date(day: nat, month: nat, year: nat)
  datatype Satellite = Satellite(num: nat, elevation: nat, azimuth: nat, snr: nat)

  /** `gps_t`. */
  datatype Fix = Fix(
    latitude: Float, longitude: Float, altitude: Float,
    fix: int, satsInUse: nat, tim: Time, fixMode: int, satsIdInUse: map<nat, nat>,
    dopH: Float, dopP: Float, dopV: Float,
    satsInView: nat, satsDesc: map<nat, Satellite>,
    date: Date, valid: bool, speed: Float, cog: Float, variation: Float)

  // ----- numerals

  function DigitValue(c: Octet): nat {
    if '0' <= c <= '9' then (c - '0') as nat
    else if 'a' <= c <= 'z' then (c - 'a') as nat + 10
    else if 'A' <= c <= 'Z' then (c - 'A') as nat + 10
    else 99
  }

  function Digits(t: seq<Octet>, base: nat, acc: nat): nat {
    if t == [] || DigitValue(t[0]) >= base then acc else Digits(t[1..], base, acc * base + DigitValue(t[0]))
  }

  predicate IsSpace(c: Octet) {
    c == ' ' || '\t' <= c <= '\r'
  }

  function SkipSpace(t: seq<Octet>): seq<Octet> {
    if t != [] && IsSpace(t[0]) then SkipSpace(t[1..]) else t
  }

  function Clamp(n: int): int {
    if n > 0x7FFF_FFFF then 0x7FFF_FFFF else if n < -0x8000_0000 then -0x8000_0000 else n
  }

  /** `strtol` for a 32-bit `long`. */
  function StrToL(t: seq<Octet>, base: nat): int {
    var u := SkipSpace(t);
    var negative := u != [] && u[0] == '-';
    var v := if u != [] && (u[0] == '-' || u[0] == '+') then u[1..] else u;
    var w := if base == 16 && |v| >= 2 && v[0] == '0' && (v[1] == 'x' || v[1] == 'X') then v[2..] else v;
    var n: int := Digits(w, base, 0);
    Clamp(if negative then -n else n)
  }

  function UInt8(n: int): nat {
    n % 256
  }

  // ----- the item buffer

  const ITEM_LENGTH: nat := 16

  type Item = s: seq<Octet> | |s| == ITEM_LENGTH witness seq(ITEM_LENGTH, _ => '\0')

  /** The text of the item: what C reads up to the terminator. */
  function CText(item: seq<Octet>): seq<Octet> {
    if item == [] || item[0] == '\0' then [] else [item[0]] + CText(item[1..])
  }

  function TwoDigits(item: Item, k: nat): nat
    requires k + 1 < ITEM_LENGTH
  {
    UInt8(10 * (item[k] as int - 48) + (item[k + 1] as int - 48))
  }

  function Thousandths(item: Item, i: nat, tmp: nat): nat
    decreases ITEM_LENGTH - i
  {
    if i >= ITEM_LENGTH || item[i] == '\0' then tmp
    else Thousandths(item, i + 1, (10 * tmp + item[i] as int - 48) % 65536)
  }

  /** `parse_utc_time`; it reads the buffer by position, past the terminator if the
      item is short. */
  function UtcTime(item: Item, before: Time): Time {
    Time(TwoDigits(item, 0), TwoDigits(item, 2), TwoDigits(item, 4),
         if item[6] == '.' then Thousandths(item, 7, 0) else before.thousand)
  }

  // ----- which field sets what

  function Signed(value: Float, text: seq<Octet>, upper: Octet, lower: Octet): Float {
    if text != [] && (text[0] == upper || text[0] == lower) then Negated(value) else value
  }

  function GgaField(f: Fix, n: nat, item: Item): Fix {
    var text := CText(item);
    match n
    case 1 => f.(tim := UtcTime(item, f.tim))
    case 2 => f.(latitude := Degrees(text))
    case 3 => f.(latitude := Signed(f.latitude, text, 'S', 's'))
    case 4 => f.(longitude := Degrees(text))
    case 5 => f.(longitude := Signed(f.longitude, text, 'W', 'w'))
    case 6 => f.(fix := StrToL(text, 10))
    case 7 => f.(satsInUse := UInt8(StrToL(text, 10)))
    case 8 => f.(dopH := Parsed(text))
    case 9 => f.(altitude := Parsed(text))
    case 11 => f.(altitude := Sum(f.altitude, Parsed(text)))
    case _ => f
  }

  function GsaField(f: Fix, n: nat, item: Item): Fix {
    var text := CText(item);
    match n
    case 2 => f.(fixMode := StrToL(text, 10))
    case 15 => f.(dopP := Parsed(text))
    case 16 => f.(dopH := Parsed(text))
    case 17 => f.(dopV := Parsed(text))
    case _ =>
      if 3 <= n <= 14 then f.(satsIdInUse := f.satsIdInUse[n - 3 := UInt8(StrToL(text, 10))]) else f
  }

  function RmcField(f: Fix, n: nat, item: Item): Fix {
    var text := CText(item);
    match n
    case 1 => f.(tim := UtcTime(item, f.tim))
    case 2 => f.(valid := text != [] && text[0] == 'A')
    case 3 => f.(latitude := Degrees(text))
    case 4 => f.(latitude := Signed(f.latitude, text, 'S', 's'))
    case 5 => f.(longitude := Degrees(text))
    case 6 => f.(longitude := Signed(f.longitude, text, 'W', 'w'))
    case 7 => f.(speed := Knots(text))
    case 8 => f.(cog := Parsed(text))
    case 9 => f.(date := Date(TwoDigits(item, 0), TwoDigits(item, 2), TwoDigits(item, 4)))
    case 10 => f.(variation := Parsed(text))
    case _ => f
  }

  function GllField(f: Fix, n: nat, item: Item): Fix {
    var text := CText(item);
    match n
    case 1 => f.(latitude := Degrees(text))
    case 2 => f.(latitude := Signed(f.latitude, text, 'S', 's'))
    case 3 => f.(longitude := Degrees(text))
    case 4 => f.(longitude := Signed(f.longitude, text, 'W', 'w'))
    case 5 => f.(tim := UtcTime(item, f.tim))
    case 6 => f.(valid := text != [] && text[0] == 'A')
    case _ => f
  }

  function VtgField(f: Fix, n: nat, item: Item): Fix {
    var text := CText(item);
    match n
    case 1 => f.(cog := Parsed(text))
    case 3 => f.(variation := Parsed(text))
    case 5 => f.(speed := Knots(text))
    case 7 => f.(speed := KilometresPerHour(text))
    case _ => f
  }

  /** GSV items 4 to 19 describe four satellites; an index outside the table is skipped. */
  function GsvField(f: Fix, satNum: nat, n: nat, item: Item): Fix {
    var value := StrToL(CText(item), 10);
    if n == 3 then f.(satsInView := UInt8(value))
    else if 4 <= n <= 19 then
      var index := UInt8(4 * (satNum - 1) + (n - 4) / 4);
      if index < 16 then
        var sat := if index in f.satsDesc then f.satsDesc[index] else Satellite(0, 0, 0, 0);
        var sat' := match (n - 4) % 4
          case 0 => sat.(num := UInt8(value))
          case 1 => sat.(elevation := UInt8(value))
          case 2 => sat.(azimuth := value % 65536)
          case _ => sat.(snr := UInt8(value));
        f.(satsDesc := f.satsDesc[index := sat'])
      else f
    else f
  }

  predicate Contains(text: seq<Octet>, part: seq<Octet>) {
    |part| <= |text| && (text[..|part|] == part || (text != [] && Contains(text[1..], part)))
  }

  /** The kind of sentence that a first item announces. */
  function KindOf(text: seq<Octet>): Kind {
    if Contains(text, "GGA") then GGA
    else if Contains(text, "GSA") then GSA
    else if Contains(text, "RMC") then RMC
    else if Contains(text, "GSV") then GSV
    else if Contains(text, "GLL") then GLL
    else if Contains(text, "VTG") then VTG
    else Unknown
  }

  /** The part of the parser's state that `parse_item` works on. */
  datatype Sentence = Sentence(cur: Kind, satNum: nat, satCount: nat, parent: Fix)

  function ParseItem(s: Sentence, n: nat, item: Item): Sentence {
    if n == 0 && item[0] == '$' then s.(cur := KindOf(CText(item)))
    else match s.cur
      case Unknown => s
      case GGA => s.(parent := GgaField(s.parent, n, item))
      case GSA => s.(parent := GsaField(s.parent, n, item))
      case GSV =>
        if n == 1 then s.(satCount := UInt8(StrToL(CText(item), 10)))
        else if n == 2 then s.(satNum := UInt8(StrToL(CText(item), 10)))
        else s.(parent := GsvField(s.parent, s.satNum, n, item))
      case RMC => s.(parent := RmcField(s.parent, n, item))
      case GLL => s.(parent := GllField(s.parent, n, item))
      case VTG => s.(parent := VtgField(s.parent, n, item))
  }
}
