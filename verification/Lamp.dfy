/** The lamp: downlink frames, Bluetooth commands and one-second ticks work on one
    profile, its copy in flash, and two PWM channels. */
module Lamp {
  import opened Arithmetic
  import opened Hex
  import opened LppWire
  import opened LppDecoder
  import opened LppRoundTrip
  import opened Led
  import opened MeshId
  import opened GroupCommand
  import opened LampFrames
  import opened Options

  /** `led_status`. */
  datatype Profile = Profile(
    meshid: seq<int>, meshch: nat, mycolor: nat, mybrightness: nat, ledworking: nat,
    maxPwm: nat, lowPwm: nat, model: nat, gen: nat)

  const FACTORY: Profile := Profile([1, 2, 3, 4, 5, 6], 10, 2700, 100, 0, 185, 41, 90, 1)

  /** What the lamp queues for the uplink: its readings, or its position. */
  datatype Report = Readings | Position

  /** `stored` is the blob in flash; `group` the command that the next tick will send to
      the mesh, `sent` the messages sent to the mesh, `reports` the frames queued for the
      uplink.  `litMax` and `litLow` are the limits in force when the brightness duty was
      last set. */
  datatype LampState = LampState(
    status: Profile, stored: Profile, colorDuty: nat, brightnessDuty: nat, litMax: nat, litLow: nat,
    counterSec: nat, group: Option<string>, sent: seq<string>, reports: seq<Report>)

  function SetColor(s: LampState, value: nat): LampState {
    s.(colorDuty := Narrow(ColorDuty(value)))
  }

  function SetBrightness(s: LampState, value: nat): LampState {
    s.(brightnessDuty := Narrow(BrightnessDuty(value, s.status.maxPwm, s.status.lowPwm)),
       litMax := s.status.maxPwm, litLow := s.status.lowPwm)
  }

  /** `save_led`, when the flash write succeeds. */
  function Save(s: LampState): LampState {
    s.(stored := s.status)
  }

  /** Start-up: the stored profile, or the factory one, which is then stored. */
  function Boot(flash: Option<Profile>): LampState {
    var p := if flash.Some? then flash.value else FACTORY;
    var s := LampState(p, p, 0, 0, p.maxPwm, p.lowPwm, 0, None, [], []);
    SetBrightness(SetColor(s, p.mycolor), p.mybrightness)
  }

  /** Set both channels, then the profile, then save. */
  function Apply(s: LampState, color: int, brightness: int): LampState {
    var s1 := SetBrightness(SetColor(s, color % 65536), brightness % 256);
    Save(s1.(status := s.status.(mycolor := color % 65536, mybrightness := brightness % 256)))
  }

  function Forward(s: LampState, msg: string): LampState {
    s.(sent := s.sent + [msg])
  }

  // ----- LoRaWAN frames

  function NumberOf(v: Value): int {
    if v.Number? then v.n else 0
  }

  /** `cm_lorawan_event_handler`; nothing if it follows a null pointer. */
  function OnFrame(s: LampState, own: string, text: string): Option<LampState> {
    OnFields(s, own, text, FrameFields(text))
  }

  function OnFields(s: LampState, own: string, text: string, fields: seq<Field>): Option<LampState> {
    var color, brightness := Lookup(fields, "color"), Lookup(fields, "brightness");
    var nodeid, readGps := Lookup(fields, "nodeid"), Lookup(fields, "read_gps");
    var kind := Lookup(fields, "type_control");
    if color.Some? && brightness.Some? then
      Some(OnControl(s, own, text, NumberOf(color.value), NumberOf(brightness.value), nodeid, kind))
    else if readGps.Some? then
      if nodeid.None? then None else Some(OnReadGps(s, own, text, nodeid.value, NumberOf(readGps.value)))
    else Some(s)
  }

  /** A request for the position of one node. */
  function OnReadGps(s: LampState, own: string, text: string, node: Value, code: int): LampState {
    if node != Text(own) then Forward(s, text)
    else if code == 0xA5 then s.(reports := s.reports + [Position])
    else s
  }

  /** A frame with a colour and a brightness: to one node, to a group, to a node with its
      mesh neighbours, or to the lamp itself. */
  function OnControl(s: LampState, own: string, text: string, color: int, brightness: int,
                     nodeid: Option<Value>, kind: Option<Value>): LampState
  {
    var mine := nodeid == Some(Text(own));
    if nodeid.Some? && kind.Some? then
      if NumberOf(kind.value) == 1 then
        if mine then Apply(s, color, brightness) else Forward(s, text)
      else if NumberOf(kind.value) == 2 && mine then Forward(Apply(s, color, brightness), text)
      else s
    else if nodeid.Some? then
      if mine then Forward(Apply(s, color, brightness), text) else s
    else Apply(s, color, brightness)
  }

  // ----- Bluetooth commands

  datatype BleCommand =
    | WriteLorawan
    | ReadLorawan
    | WriteMesh(id: int, ch: int)
    | ReadMesh
    | TestControl(bright: int, color: int)
    | UpdateFirmware
    | WriteLight(model: int, gen: string, low: int, high: int)
    | ReadLight
    | TestControlGroup(bright: int, color: int)
    | Scan

  /** Sizes that the source's buffers demand. */
  predicate CommandOk(c: BleCommand) {
    match c
    case WriteMesh(id, _) => id < 1000000
    case TestControlGroup(bright, color) => 0 <= bright < 256 && 0 <= color < 65536
    case _ => true
  }

  /** Any other name leaves the generation alone. */
  function GenOf(name: string, gen: nat): nat {
    if name == "DIM" then 2 else if name == "DIMCOLOR" then 1 else gen
  }

  /** New model, limits and generation; the channels stay as they are. */
  function OnWriteLight(s: LampState, model: int, gen: string, low: int, high: int): LampState {
    Save(s.(status := s.status.(model := model % 65536, lowPwm := low % 256, maxPwm := high % 256,
                                gen := GenOf(gen, s.status.gen))))
  }

  function OnBle(s: LampState, c: BleCommand): LampState
    requires CommandOk(c)
  {
    match c
    case WriteMesh(id, ch) =>
      Save(s.(status := s.status.(meshid := Overwritten(s.status.meshid, id), meshch := ch % 256)))
    case ReadMesh => s.(status := s.stored)
    case TestControl(bright, color) => Apply(s, color, bright)
    case TestControlGroup(bright, color) => Apply(s, color, bright).(group := Some(GroupText(color, bright)))
    case ReadLight => s.(status := s.stored)
    case WriteLight(model, gen, low, high) => OnWriteLight(s, model, gen, low, high)
    case Scan => SetBrightness(SetBrightness(SetBrightness(s, 10), 100), s.status.mybrightness)
    case _ => s
  }

  // ----- ticks

  /** The working time wraps at 64 bits. */
  const MINUTES: nat := 0x1_0000_0000_0000_0000

  function OnTick(s: LampState): LampState {
    var s1 :=
      if s.counterSec == 59 then
        Save(s.(status := s.status.(ledworking := (s.status.ledworking + 1) % MINUTES)))
          .(counterSec := 0, reports := s.reports + [Readings])
      else s.(counterSec := s.counterSec + 1);
    if s.group.Some? then Forward(s1, s.group.value).(group := None) else s1
  }

  // ----- runs

  datatype Event = Frame(text: string) | Ble(cmd: BleCommand) | Tick

  /** The state after an event; none if the frame handler fails or the command is outside
      the sizes that the source allows. */
  function OnEvent(s: LampState, own: string, e: Event): Option<LampState> {
    match e
    case Frame(text) => OnFrame(s, own, text)
    case Ble(cmd) => if CommandOk(cmd) then Some(OnBle(s, cmd)) else None
    case Tick => Some(OnTick(s))
  }

  function Run(s: LampState, own: string, events: seq<Event>): Option<LampState> {
    if events == [] then Some(s)
    else
      var before := Run(s, own, events[..|events| - 1]);
      if before.None? then None else OnEvent(before.value, own, events[|events| - 1])
  }

  /** Events that the lamp survives. */
  predicate SafeEvent(e: Event) {
    match e
    case Frame(text) => !Fatal(FrameRecords(text))
    case Ble(cmd) => CommandOk(cmd)
    case Tick => true
  }

  predicate Safe(events: seq<Event>) {
    forall i :: 0 <= i < |events| ==> SafeEvent(events[i])
  }

  /** The handler fails exactly on the frames that are fatal. */
  lemma FrameFailsIff(s: LampState, own: string, text: string)
    ensures OnFrame(s, own, text).None? <==> Fatal(FrameRecords(text))
  {
    FieldsOfRecords(FrameRecords(text));
  }

  /** A run goes on to its end exactly if no event in it is fatal, whatever the state. */
  lemma {:induction false} RunIffSafe(s: LampState, own: string, events: seq<Event>)
    ensures Run(s, own, events).Some? <==> Safe(events)
  {
    if events != [] {
      var n := |events| - 1;
      RunIffSafe(s, own, events[..n]);
      assert events == events[..n] + [events[n]];
      if events[n].Frame? && Run(s, own, events[..n]).Some? {
        FrameFailsIff(Run(s, own, events[..n]).value, own, events[n].text);
      }
    }
  }

  /** The state that a safe run leads to. */
  function After(s: LampState, own: string, events: seq<Event>): LampState
    requires Safe(events)
  {
    RunIffSafe(s, own, events);
    Run(s, own, events).value
  }

  /** The last event of a safe run. */
  lemma AfterLast(s: LampState, own: string, events: seq<Event>) returns (before: seq<Event>, e: Event)
    requires Safe(events) && events != []
    ensures before == events[..|events| - 1] && e == events[|events| - 1] && Safe(before)
    ensures OnEvent(After(s, own, before), own, e) == Some(After(s, own, events))
  {
    before, e := events[..|events| - 1], events[|events| - 1];
    RunIffSafe(s, own, events);
    RunIffSafe(s, own, before);
  }

  function Ticks(events: seq<Event>): nat {
    if events == [] then 0 else Ticks(events[..|events| - 1]) + (if events[|events| - 1].Tick? then 1 else 0)
  }

  /** At every handler boundary: flash and memory agree, the colour channel shows the
      stored colour, and the brightness channel shows the stored brightness under the
      limits in force when it was last set. */
  predicate Inv(s: LampState) {
    && s.stored == s.status
    && s.colorDuty == Narrow(ColorDuty(s.status.mycolor))
    && s.brightnessDuty == Narrow(BrightnessDuty(s.status.mybrightness, s.litMax, s.litLow))
    && s.counterSec < 60
  }

  lemma EventKeepsInv(s: LampState, own: string, e: Event)
    requires Inv(s) && OnEvent(s, own, e).Some?
    ensures Inv(OnEvent(s, own, e).value)
  {
    match e
    case Frame(text) => FrameEffect(s, own, text);
    case Ble(cmd) =>
    case Tick =>
  }

  /** A frame leaves the lamp alone, or sets it as a whole. */
  lemma FrameEffect(s: LampState, own: string, text: string)
    requires OnFrame(s, own, text).Some?
    ensures var s' := OnFrame(s, own, text).value;
            || (s' == s.(sent := s'.sent, reports := s'.reports))
            || (exists c: int, b: int {:trigger Apply(s, c, b)} :: s' == Apply(s, c, b).(sent := s'.sent))
  {
  }

  lemma {:induction false} LampInvariant(flash: Option<Profile>, own: string, events: seq<Event>)
    requires Safe(events)
    ensures Inv(After(Boot(flash), own, events))
  {
    if events != [] {
      var before, e := AfterLast(Boot(flash), own, events);
      LampInvariant(flash, own, before);
      EventKeepsInv(After(Boot(flash), own, before), own, e);
    }
  }

  /** Only a tick moves the clock. */
  lemma ClockOfEvent(s: LampState, own: string, e: Event)
    requires Inv(s) && OnEvent(s, own, e).Some?
    ensures var s' := OnEvent(s, own, e).value;
            if e.Tick? then
              if s.counterSec == 59 then
                s'.counterSec == 0 && s'.status.ledworking == (s.status.ledworking + 1) % MINUTES
              else s'.counterSec == s.counterSec + 1 && s'.status.ledworking == s.status.ledworking
            else s'.counterSec == s.counterSec && s'.status.ledworking == s.status.ledworking
  {
    if e.Frame? {
      FrameEffect(s, own, e.text);
    }
  }

    /** The clock n ticks after it showed working time w. */
  predicate ClockAt(s: LampState, w: nat, n: nat) {
    s.counterSec == n % 60 && s.status.ledworking == (w + n / 60) % MINUTES
  }

  /** n ticks after boot, whatever else happened, the second counter is n mod 60 and the
      working time has grown by n / 60 minutes. */
  lemma {:induction false} ClockCountsTicks(flash: Option<Profile>, own: string, events: seq<Event>)
    requires Safe(events) && Boot(flash).status.ledworking < MINUTES
    ensures ClockAt(After(Boot(flash), own, events), Boot(flash).status.ledworking, Ticks(events))
  {
    if events != [] {
      var before, e := AfterLast(Boot(flash), own, events);
      ClockCountsTicks(flash, own, before);
      LampInvariant(flash, own, before);
      ClockStep(After(Boot(flash), own, before), own, e, Boot(flash).status.ledworking, Ticks(before));
    }
  }

  lemma ClockStep(s: LampState, own: string, e: Event, w: nat, n: nat)
    requires Inv(s) && OnEvent(s, own, e).Some? && ClockAt(s, w, n)
    ensures ClockAt(OnEvent(s, own, e).value, w, if e.Tick? then n + 1 else n)
  {
    ClockOfEvent(s, own, e);
    MinuteStep(w, n);
  }

  lemma MinuteStep(w: nat, n: nat)
    ensures n % 60 == 59 ==> (n + 1) % 60 == 0 && (n + 1) / 60 == n / 60 + 1
    ensures n % 60 != 59 ==> (n + 1) % 60 == n % 60 + 1 && (n + 1) / 60 == n / 60
    ensures ((w + n / 60) % MINUTES + 1) % MINUTES == (w + n / 60 + 1) % MINUTES
  {
  }

  // ----- who obeys a control frame, and who passes it on

  predicate Obeys(own: string, nodeid: Option<Value>, kind: Option<Value>) {
    || nodeid.None?
    || (nodeid.value == Text(own) && (kind.None? || NumberOf(kind.value) == 1 || NumberOf(kind.value) == 2))
  }

  /** A single-lamp frame travels on unless it has arrived; group frames and frames without
      a type travel on from the lamp they name. */
  predicate PassesOn(own: string, nodeid: Option<Value>, kind: Option<Value>) {
    && nodeid.Some?
    && (if kind.Some? && NumberOf(kind.value) == 1 then nodeid.value != Text(own)
        else nodeid.value == Text(own) && (kind.None? || NumberOf(kind.value) == 2))
  }

  lemma ControlFrameEffect(s: LampState, own: string, text: string, color: int, brightness: int,
                           nodeid: Option<Value>, kind: Option<Value>)
    ensures var s' := OnControl(s, own, text, color, brightness, nodeid, kind);
            && s'.status == (if Obeys(own, nodeid, kind)
                             then s.status.(mycolor := color % 65536, mybrightness := brightness % 256) else s.status)
            && s'.sent == (if PassesOn(own, nodeid, kind) then s.sent + [text] else s.sent)
            && s'.reports == s.reports && s'.counterSec == s.counterSec && s'.group == s.group
  {
  }

  lemma LookupFour(a: Field, b: Field, c: Field, d: Field)
    requires a.name != b.name && a.name != c.name && a.name != d.name
    requires b.name != c.name && b.name != d.name && c.name != d.name
    ensures var f := [a, b, c, d];
            && Lookup(f, a.name) == Some(a.value) && Lookup(f, b.name) == Some(b.value)
            && Lookup(f, c.name) == Some(c.value) && Lookup(f, d.name) == Some(d.value)
  {
    assert [a, b, c, d][1..] == [b, c, d] && [b, c, d][1..] == [c, d] && [c, d][1..] == [d];
    assert Lookup([d], d.name) == Some(d.value);
    assert Lookup([c, d], c.name) == Some(c.value) && Lookup([c, d], d.name) == Some(d.value);
  }

  lemma EmittedFour(a: Record, b: Record, c: Record, d: Record)
    ensures AllEmitted([a, b, c, d]) == Emitted(a) + Emitted(b) + Emitted(c) + Emitted(d)
  {
    assert [a, b, c, d][1..] == [b, c, d] && [b, c, d][1..] == [c, d] && [c, d][1..] == [d] && [d][1..] == [];
    assert AllEmitted([d]) == Emitted(d) + AllEmitted([]);
    assert AllEmitted([c, d]) == Emitted(c) + Emitted(d);
    assert AllEmitted([b, c, d]) == Emitted(b) + (Emitted(c) + Emitted(d));
  }

  lemma EmittedOne(mac: seq<Byte>, color: nat, bright: Byte, kind: Byte)
    requires |mac| == 6 && color < 65536
    ensures Emitted(NodeId(mac)) == [Field("nodeid", Text(MacText(mac)))]
    ensures Emitted(Color(color)) == [Field("color", Number(color))]
    ensures Emitted(Light(bright)) == [Field("brightness", Number(bright))]
    ensures Emitted(TypeControl(kind)) == [Field("type_control", Number(kind))]
  {
    assert 256 * (color / 256) + color % 256 == color;
  }

  /** The fields of a frame for one node. */
  lemma AddressedFields(mac: seq<Byte>, color: nat, bright: Byte, kind: Byte)
    requires |mac| == 6 && color < 65536
    ensures AllEmitted([NodeId(mac), Color(color), Light(bright), TypeControl(kind)]) ==
            [Field("nodeid", Text(MacText(mac))), Field("color", Number(color)),
             Field("brightness", Number(bright)), Field("type_control", Number(kind))]
  {
    EmittedFour(NodeId(mac), Color(color), Light(bright), TypeControl(kind));
    EmittedOne(mac, color, bright, kind);
  }

  lemma AddressedLookups(node: Value, color: Value, bright: Value, kind: Value, f: seq<Field>)
    requires f == [Field("nodeid", node), Field("color", color),
                   Field("brightness", bright), Field("type_control", kind)]
    ensures Lookup(f, "nodeid") == Some(node) && Lookup(f, "color") == Some(color)
    ensures Lookup(f, "brightness") == Some(bright) && Lookup(f, "type_control") == Some(kind)
  {
    NamesDiffer();
    LookupFour(Field("nodeid", node), Field("color", color), Field("brightness", bright), Field("type_control", kind));
  }

  lemma ControlOfFields(s: LampState, own: string, text: string, fields: seq<Field>, color: nat, bright: nat,
                        node: Value, kind: Value)
    requires Lookup(fields, "nodeid") == Some(node) && Lookup(fields, "color") == Some(Number(color))
    requires Lookup(fields, "brightness") == Some(Number(bright)) && Lookup(fields, "type_control") == Some(kind)
    ensures OnFields(s, own, text, fields) == Some(OnControl(s, own, text, color, bright, Some(node), Some(kind)))
  {
  }

  lemma FieldsOfCleanFrame(text: string, rs: seq<Record>)
    requires AllWellFormed(rs) && ReadHex(text) == WireAll(rs) && 0 !in WireAll(rs)
    ensures FrameFields(text) == AllEmitted(rs)
  {
    RoundTripIffNoZero(rs);
  }

  /** From the wire to the lamp: a frame that names this lamp, of type 1 or 2 and without a
      zero byte, sets exactly the colour and the brightness that were encoded. */
  lemma AddressedFrameSetsLamp(s: LampState, mac: seq<Byte>, color: nat, bright: Byte, kind: Byte, text: string,
                               rs: seq<Record>)
    requires |mac| == 6 && color < 65536 && (kind == 1 || kind == 2)
    requires rs == [NodeId(mac), Color(color), Light(bright), TypeControl(kind)]
    requires ReadHex(text) == WireAll(rs) && 0 !in WireAll(rs)
    ensures var s' := OnFrame(s, MacText(mac), text);
            s'.Some? && s'.value.status == s.status.(mycolor := color, mybrightness := bright) &&
            s'.value.sent == if kind == 2 then s.sent + [text] else s.sent
  {
    FieldsOfCleanFrame(text, rs);
    AddressedFields(mac, color, bright, kind);
    AddressedEffect(s, MacText(mac), text, AllEmitted(rs), color, bright, kind);
  }

  lemma AddressedEffect(s: LampState, own: string, text: string, f: seq<Field>, color: nat, bright: Byte, kind: Byte)
    requires color < 65536 && (kind == 1 || kind == 2)
    requires f == [Field("nodeid", Text(own)), Field("color", Number(color)),
                   Field("brightness", Number(bright)), Field("type_control", Number(kind))]
    ensures var s' := OnFields(s, own, text, f);
            s'.Some? && s'.value.status == s.status.(mycolor := color, mybrightness := bright) &&
            s'.value.sent == if kind == 2 then s.sent + [text] else s.sent
  {
    AddressedLookups(Text(own), Number(color), Number(bright), Number(kind), f);
    ControlOfFields(s, own, text, f, color, bright, Text(own), Number(kind));
    ControlFrameEffect(s, own, text, color, bright, Some(Text(own)), Some(Number(kind)));
  }

  // ----- the controller

  class LampController {
    /** The lamp's own MAC as text. */
    const own: string
    const meshid: array<int>
    var meshch: nat
    var mycolor: nat
    var mybrightness: nat
    var ledworking: nat
    var maxPwm: nat
    var lowPwm: nat
    var model: nat
    var gen: nat
    var flash: Profile
    var colorDuty: nat
    var brightnessDuty: nat
    ghost var litMax: nat
    ghost var litLow: nat
    var counterSec: nat
    var bleCmdToGr: bool
    var recvbFormBle: string
    var sent: seq<string>
    var reports: seq<Report>

    ghost function Status(): Profile
      reads this, meshid
    {
      Profile(meshid[..], meshch, mycolor, mybrightness, ledworking, maxPwm, lowPwm, model, gen)
    }

    ghost function Abs(): LampState
      reads this, meshid
    {
      LampState(Status(), flash, colorDuty, brightnessDuty, litMax, litLow, counterSec,
                if bleCmdToGr then Some(recvbFormBle) else None, sent, reports)
    }

    /** Six digits in memory and in flash. */
    ghost predicate Valid()
      reads this
    {
      meshid.Length == 6 && |flash.meshid| == 6
    }

    /** `app_main` up to `init_led`. */
    constructor (own: string, stored: Option<Profile>)
      requires stored.Some? ==> |stored.value.meshid| == 6
      ensures Valid() && fresh(meshid) && this.own == own
      ensures Abs() == Boot(stored)
    {
      var p := if stored.Some? then stored.value else FACTORY;
      this.own := own;
      meshid := new int[6](i requires 0 <= i < 6 => p.meshid[i]);
      meshch, mycolor, mybrightness, ledworking := p.meshch, p.mycolor, p.mybrightness, p.ledworking;
      maxPwm, lowPwm, model, gen := p.maxPwm, p.lowPwm, p.model, p.gen;
      flash, counterSec, bleCmdToGr, recvbFormBle, sent, reports := p, 0, false, "", [], [];
      colorDuty, brightnessDuty, litMax, litLow := 0, 0, p.maxPwm, p.lowPwm;
      new;
      assert meshid[..] == p.meshid;
      SetColorChannel(p.mycolor);
      SetBrightnessChannel(p.mybrightness);
    }

    /** `Set_Color`. */
    method SetColorChannel(value: nat)
      requires Valid()
      modifies this`colorDuty
      ensures Valid()
      ensures Abs() == SetColor(old(Abs()), value)
    {
      var v := value;
      if v > 6500 || v < 2700 {
        v := 6500;
      }
      colorDuty := ((v - 2700) * 255 / 3800) % 65536;
    }

    /** `Set_Brightness`. */
    method SetBrightnessChannel(value: nat)
      requires Valid()
      modifies this`brightnessDuty, this`litMax, this`litLow
      ensures Valid()
      ensures Abs() == SetBrightness(old(Abs()), value)
    {
      var v := value;
      if v > 100 || v < 10 {
        v := 100;
      }
      v := 100 - v;
      var val := TruncDiv((v - 10) * (maxPwm - lowPwm), 90) + lowPwm;
      brightnessDuty := val % 65536;
      litMax, litLow := maxPwm, lowPwm;
    }

    method SaveLed()
      requires Valid()
      modifies this`flash
      ensures Valid()
      ensures Abs() == Save(old(Abs()))
    {
      flash := Profile(meshid[..], meshch, mycolor, mybrightness, ledworking, maxPwm, lowPwm, model, gen);
    }

    method ApplySetting(color: int, brightness: int)
      requires Valid()
      modifies this`colorDuty, this`brightnessDuty, this`litMax, this`litLow,
               this`mycolor, this`mybrightness, this`flash
      ensures Valid()
      ensures Abs() == Apply(old(Abs()), color, brightness)
    {
      SetColorChannel(color % 65536);
      SetBrightnessChannel(brightness % 256);
      mycolor := color % 65536;
      mybrightness := brightness % 256;
      SaveLed();
    }

    method RootWriteMsg(value: string)
      requires Valid()
      modifies this`sent
      ensures Valid()
      ensures Abs() == Forward(old(Abs()), value)
    {
      sent := sent + [value];
    }

    /** `cm_lorawan_event_handler`; `alive` is false where the source would follow a null
        pointer. */
    method OnLorawan(eventData: string) returns (alive: bool)
      requires Valid()
      requires |eventData| / 2 <= 50
      modifies this
      ensures Valid()
      ensures alive <==> !Fatal(FrameRecords(eventData))
      ensures if alive then Some(Abs()) == OnFrame(old(Abs()), own, eventData) else Abs() == old(Abs())
    {
      FrameFailsIff(Abs(), own, eventData);
      var _, payload := DecodeText(eventData);
      var color, brightness := Lookup(payload, "color"), Lookup(payload, "brightness");
      var nodeid, readGps := Lookup(payload, "nodeid"), Lookup(payload, "read_gps");
      var typeControl := Lookup(payload, "type_control");
      if color.Some? && brightness.Some? {
        Control(eventData, NumberOf(color.value), NumberOf(brightness.value), nodeid, typeControl);
      } else if readGps.Some? {
        if nodeid.None? {
          return false;
        }
        ReadGps(eventData, nodeid.value, NumberOf(readGps.value));
      }
      alive := true;
    }

    /** The branch of the handler that asks for the position. */
    method ReadGps(eventData: string, node: Value, code: int)
      requires Valid()
      modifies this`sent, this`reports
      ensures Valid()
      ensures Abs() == OnReadGps(old(Abs()), own, eventData, node, code)
    {
      if node == Text(own) {
        if code == 0xA5 {
          reports := reports + [Position];
        }
      } else {
        RootWriteMsg(eventData);
      }
    }

    /** The branches of the handler that have a colour and a brightness. */
    method Control(eventData: string, color: int, brightness: int, nodeid: Option<Value>, typeControl: Option<Value>)
      requires Valid()
      modifies this
      ensures Valid()
      ensures Abs() == OnControl(old(Abs()), own, eventData, color, brightness, nodeid, typeControl)
    {
      if nodeid.Some? && typeControl.Some? {
        if NumberOf(typeControl.value) == 1 {
          if nodeid.value == Text(own) {
            ApplySetting(color, brightness);
          } else {
            RootWriteMsg(eventData);
          }
        } else if NumberOf(typeControl.value) == 2 {
          if nodeid.value == Text(own) {
            ApplySetting(color, brightness);
            RootWriteMsg(eventData);
          }
        }
      } else if nodeid.Some? {
        if nodeid.value == Text(own) {
          ApplySetting(color, brightness);
          RootWriteMsg(eventData);
        }
      } else {
        ApplySetting(color, brightness);
      }
    }

    /** The command cases of `esp_spp_cb`. */
    method OnBluetooth(c: BleCommand)
      requires Valid()
      requires CommandOk(c)
      modifies this, meshid
      ensures Valid()
      ensures Abs() == OnBle(old(Abs()), c)
    {
      match c
      case WriteMesh(id, ch) => WriteMeshProfile(id, ch);
      case ReadMesh => ReadLed();
      case TestControl(bright, color) => ApplySetting(color, bright);
      case TestControlGroup(bright, color) =>
        ApplySetting(color, bright);
        recvbFormBle := PrintGroup(color, bright);
        bleCmdToGr := true;
      case ReadLight => ReadLed();
      case WriteLight(newModel, newGen, low, high) => WriteLightProfile(newModel, newGen, low, high);
      case Scan => Blink();
      case _ =>
    }

    method WriteMeshProfile(id: int, ch: int)
      requires Valid()
      requires id < 1000000
      modifies this`meshch, this`flash, meshid
      ensures Valid()
      ensures Abs() == OnBle(old(Abs()), WriteMesh(id, ch))
    {
      SixDigits();
      WriteDigits(meshid, id);
      meshch := ch % 256;
      SaveLed();
    }

    method WriteLightProfile(newModel: int, newGen: string, low: int, high: int)
      requires Valid()
      modifies this`model, this`lowPwm, this`maxPwm, this`gen, this`flash
      ensures Valid()
      ensures Abs() == OnWriteLight(old(Abs()), newModel, newGen, low, high)
    {
      model := newModel % 65536;
      lowPwm := low % 256;
      maxPwm := high % 256;
      SetGen(newGen);
      SaveLed();
    }

    method SetGen(newGen: string)
      requires Valid()
      modifies this`gen
      ensures Valid()
      ensures gen == GenOf(newGen, old(gen))
    {
      if newGen == "DIM" {
        gen := 2;
      } else if newGen == "DIMCOLOR" {
        gen := 1;
      }
    }

    method Blink()
      requires Valid()
      modifies this`brightnessDuty, this`litMax, this`litLow
      ensures Valid()
      ensures Abs() == OnBle(old(Abs()), Scan)
    {
      var i := 0;
      while i < 5
        invariant 0 <= i <= 5
        invariant Abs() == old(Abs()).(brightnessDuty := brightnessDuty, litMax := litMax, litLow := litLow)
      {
        SetBrightnessChannel(10);
        SetBrightnessChannel(100);
        i := i + 1;
      }
      SetBrightnessChannel(mybrightness);
    }

    method LoadMeshId(ds: seq<int>)
      requires meshid.Length == |ds|
      modifies meshid
      ensures meshid[..] == ds
    {
      forall i | 0 <= i < |ds| {
        meshid[i] := ds[i];
      }
    }

    /** `read_led`. */
    method ReadLed()
      requires Valid()
      modifies this`meshch, this`mycolor, this`mybrightness, this`ledworking, this`maxPwm, this`lowPwm, this`model,
               this`gen, meshid
      ensures Valid()
      ensures Abs() == old(Abs()).(status := old(flash))
    {
      LoadMeshId(flash.meshid);
      meshch, mycolor, mybrightness, ledworking := flash.meshch, flash.mycolor, flash.mybrightness, flash.ledworking;
      maxPwm, lowPwm, model, gen := flash.maxPwm, flash.lowPwm, flash.model, flash.gen;
    }

    /** `streetlight_working`, once a second. */
    method OnSecond()
      requires Valid()
      modifies this
      ensures Valid()
      ensures Abs() == OnTick(old(Abs()))
    {
      if counterSec == 59 {
        ledworking := (ledworking + 1) % MINUTES;
        SaveLed();
        counterSec := 0;
        reports := reports + [Readings];
      } else {
        counterSec := counterSec + 1;
      }
      if bleCmdToGr {
        RootWriteMsg(recvbFormBle);
        bleCmdToGr := false;
      }
    }
  }
}
