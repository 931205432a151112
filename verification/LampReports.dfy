/** What the lamp queues for the uplink, told from the events alone. */
module LampReports {
  import opened Hex
  import opened LppWire
  import opened LppDecoder
  import opened LppRoundTrip
  import opened LampFrames
  import opened Lamp
  import opened Options

  /** A frame that asks the lamp `own` for its position: the first request in it is A5, the
      first node that it names is this lamp, and it is no order of light. */
  predicate Asks(own: string, rs: seq<Record>) {
    && FirstBody(rs, 152) == Some([0xA5])
    && FirstBody(rs, 150).Some? && MacText(FirstBody(rs, 150).value) == own
    && !(FirstBody(rs, 135).Some? && FirstBody(rs, 111).Some?)
  }

  /** What each event queues; `events` end with it. */
  function Queued(own: string, events: seq<Event>): seq<Report>
    requires events != []
  {
    match events[|events| - 1]
    case Frame(text) => if Asks(own, FrameRecords(text)) then [Position] else []
    case Tick => if Ticks(events) % 60 == 0 then [Readings] else []
    case Ble(_) => []
  }

  function Reported(own: string, events: seq<Event>): seq<Report> {
    if events == [] then [] else Reported(own, events[..|events| - 1]) + Queued(own, events)
  }

  lemma FrameReports(s: LampState, own: string, text: string)
    requires OnFrame(s, own, text).Some?
    ensures OnFrame(s, own, text).value.reports ==
            s.reports + (if Asks(own, FrameRecords(text)) then [Position] else [])
  {
    var rs := FrameRecords(text);
    RecordsAreWellFormed(BeforeZero(ReadHex(text)));
    LookupSpells(rs, CM_LPP_READ_GPS, "read_gps");
    LookupSpells(rs, CM_LPP_NODE_ID, "nodeid");
    LookupSpells(rs, CM_LPP_COLOR, "color");
    LookupSpells(rs, CM_LPP_LIGHT_CONTROL, "brightness");
    assert s.reports + [] == s.reports;
    FieldsReports(s, own, text, FrameFields(text));
  }

  /** The same by what the handler looks up. */
  lemma FieldsReports(s: LampState, own: string, text: string, fields: seq<Field>)
    requires OnFields(s, own, text, fields).Some?
    ensures OnFields(s, own, text, fields).value.reports ==
            if Lookup(fields, "read_gps").Some? && NumberOf(Lookup(fields, "read_gps").value) == 0xA5 &&
               Lookup(fields, "nodeid") == Some(Text(own)) &&
               !(Lookup(fields, "color").Some? && Lookup(fields, "brightness").Some?)
            then s.reports + [Position] else s.reports
  {
    var color, brightness := Lookup(fields, "color"), Lookup(fields, "brightness");
    if color.Some? && brightness.Some? {
      ControlFrameEffect(s, own, text, NumberOf(color.value), NumberOf(brightness.value),
                         Lookup(fields, "nodeid"), Lookup(fields, "type_control"));
    }
  }

  lemma EventReports(s: LampState, own: string, events: seq<Event>, w: nat)
    requires events != [] && Inv(s) && OnEvent(s, own, events[|events| - 1]).Some?
    requires ClockAt(s, w, Ticks(events[..|events| - 1]))
    ensures OnEvent(s, own, events[|events| - 1]).value.reports == s.reports + Queued(own, events)
  {
    var e := events[|events| - 1];
    assert s.reports + [] == s.reports;
    if e.Frame? {
      FrameReports(s, own, e.text);
    } else if e.Tick? {
      MinuteStep(w, Ticks(events[..|events| - 1]));
    }
  }

  /** Over every run: the reports queued for the uplink are one of the readings at every
      sixtieth tick and one of the position for every frame that asks this lamp for it, in
      the order of the events. */
  lemma {:induction false} ReportsOfRun(flash: Option<Profile>, own: string, events: seq<Event>)
    requires Safe(events) && Boot(flash).status.ledworking < MINUTES
    ensures After(Boot(flash), own, events).reports == Reported(own, events)
  {
    if events != [] {
      var before, e := AfterLast(Boot(flash), own, events);
      ReportsOfRun(flash, own, before);
      LampInvariant(flash, own, before);
      ClockCountsTicks(flash, own, before);
      EventReports(After(Boot(flash), own, before), own, events, Boot(flash).status.ledworking);
    }
  }

  function Requests(own: string, events: seq<Event>): nat {
    if events == [] then 0
    else
      var e := events[|events| - 1];
      Requests(own, events[..|events| - 1]) + (if e.Frame? && Asks(own, FrameRecords(e.text)) then 1 else 0)
  }

  lemma SixtiethTick(n: nat)
    ensures (n + 1) / 60 == n / 60 + (if (n + 1) % 60 == 0 then 1 else 0)
  {
  }

  /** So many they are: a sixtieth of the ticks, and the requests. */
  lemma {:induction false} ReportsAreCounted(own: string, events: seq<Event>)
    ensures |Reported(own, events)| == Ticks(events) / 60 + Requests(own, events)
  {
    if events != [] {
      var before := events[..|events| - 1];
      ReportsAreCounted(own, before);
      SixtiethTick(Ticks(before));
    }
  }

  // ----- from the wire to the lamp

  lemma ReadGpsEmits(code: Byte)
    ensures Emitted(ReadGps(code)) == [Field("read_gps", Number(code))]
  {
  }

  lemma RequestLookups(mac: seq<Byte>, code: Byte, f: seq<Field>)
    requires f == [Field("nodeid", Text(MacText(mac))), Field("read_gps", Number(code))]
    ensures Lookup(f, "nodeid") == Some(Text(MacText(mac))) && Lookup(f, "read_gps") == Some(Number(code))
    ensures Lookup(f, "color").None? && Lookup(f, "brightness").None?
  {
    NamesDiffer();
    var g := f[1..];
    assert g == [Field("read_gps", Number(code))] && g[1..] == [];
    assert Lookup(g, "color") == Lookup(g[1..], "color") && Lookup(g, "brightness") == Lookup(g[1..], "brightness");
    assert Lookup(f, "color") == Lookup(g, "color") && Lookup(f, "brightness") == Lookup(g, "brightness");
  }

  /** A clean frame of a node ID and a position request queues one report exactly if it names
      this lamp and the code is A5, travels on exactly if it names another, and changes
      nothing else. */
  lemma RequestedPosition(s: LampState, own: string, mac: seq<Byte>, code: Byte, text: string, a: Record, b: Record)
    requires |mac| == 6 && a == NodeId(mac) && b == ReadGps(code)
    requires ReadHex(text) == WireAll([a, b]) && 0 !in WireAll([a, b])
    ensures OnFrame(s, own, text) ==
            Some(s.(reports := s.reports + (if MacText(mac) == own && code == 0xA5 then [Position] else []),
                    sent := s.sent + (if MacText(mac) != own then [text] else [])))
  {
    AllZeroFree([a, b]);
    FramesOfRecords(text, [a, b]);
    assert [a, b][..2] == [a, b] && [a, b][1..] == [b] && [b][1..] == [];
    ReadGpsEmits(code);
    assert AllEmitted([b]) == Emitted(b) + AllEmitted([]);
    assert FrameFields(text) == Emitted(a) + Emitted(b);
    RequestLookups(mac, code, FrameFields(text));
    assert s.reports + [] == s.reports && s.sent + [] == s.sent;
  }
}
