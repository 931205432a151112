/** What a run of the lamp leaves behind, told from its events alone. */
module LampHistory {
  import opened Options
  import opened LppWire
  import opened LppDecoder
  import opened GroupCommand
  import opened LampFrames
  import opened Led
  import opened Lamp

  datatype Setting = Setting(color: nat, brightness: nat)

  function SettingOf(s: LampState): Setting {
    Setting(s.status.mycolor, s.status.mybrightness)
  }

  /** The numbers as the profile stores them. */
  function Stored(color: int, brightness: int): Setting {
    Setting(color % 65536, brightness % 256)
  }

  /** The setting that an event orders, if the lamp obeys it. */
  function Ordered(own: string, e: Event): Option<Setting> {
    match e
    case Frame(text) => OrderedBy(own, FrameFields(text))
    case Ble(TestControl(bright, color)) => Some(Stored(color, bright))
    case Ble(TestControlGroup(bright, color)) => Some(Stored(color, bright))
    case _ => None
  }

  function OrderedBy(own: string, fields: seq<Field>): Option<Setting> {
    var color, brightness := Lookup(fields, "color"), Lookup(fields, "brightness");
    if color.Some? && brightness.Some? && Obeys(own, Lookup(fields, "nodeid"), Lookup(fields, "type_control"))
    then Some(Stored(NumberOf(color.value), NumberOf(brightness.value)))
    else None
  }

  function LastOrdered(first: Setting, own: string, events: seq<Event>): Setting {
    if events == [] then first
    else
      var last := Ordered(own, events[|events| - 1]);
      if last.Some? then last.value else LastOrdered(first, own, events[..|events| - 1])
  }

  /** The group command that no tick has sent yet, after an event. */
  function PendingAfter(pending: Option<string>, e: Event): Option<string> {
    match e
    case Frame(_) => pending
    case Tick => None
    case Ble(cmd) => PendingAfterCommand(pending, cmd)
  }

  function PendingAfterCommand(pending: Option<string>, c: BleCommand): Option<string> {
    if c.TestControlGroup? && CommandOk(c) then Some(GroupText(c.color, c.bright)) else pending
  }

  function Pending(events: seq<Event>): Option<string> {
    if events == [] then None else PendingAfter(Pending(events[..|events| - 1]), events[|events| - 1])
  }

  /** Frames that are for others too. */
  predicate Travels(own: string, fields: seq<Field>) {
    var nodeid := Lookup(fields, "nodeid");
    if Lookup(fields, "color").Some? && Lookup(fields, "brightness").Some? then
      PassesOn(own, nodeid, Lookup(fields, "type_control"))
    else Lookup(fields, "read_gps").Some? && nodeid.Some? && nodeid.value != Text(own)
  }

  /** The messages that an event sends to the mesh. */
  function Messages(own: string, e: Event, pending: Option<string>): seq<string> {
    match e
    case Frame(text) => if Travels(own, FrameFields(text)) then [text] else []
    case Tick => if pending.Some? then [pending.value] else []
    case Ble(_) => []
  }

  function Traffic(own: string, events: seq<Event>): seq<string> {
    if events == [] then []
    else
      var before := events[..|events| - 1];
      Traffic(own, before) + Messages(own, events[|events| - 1], Pending(before))
  }

  lemma FieldsEffect(s: LampState, own: string, text: string, fields: seq<Field>)
    requires OnFields(s, own, text, fields).Some?
    ensures var s' := OnFields(s, own, text, fields).value;
            && SettingOf(s') == (if OrderedBy(own, fields).Some? then OrderedBy(own, fields).value else SettingOf(s))
            && s'.sent == s.sent + (if Travels(own, fields) then [text] else [])
            && s'.group == s.group
  {
    var color, brightness := Lookup(fields, "color"), Lookup(fields, "brightness");
    if color.Some? && brightness.Some? {
      ControlFrameEffect(s, own, text, NumberOf(color.value), NumberOf(brightness.value),
                         Lookup(fields, "nodeid"), Lookup(fields, "type_control"));
    }
  }

  lemma EventEffect(s: LampState, own: string, e: Event)
    requires Inv(s) && OnEvent(s, own, e).Some?
    ensures var s' := OnEvent(s, own, e).value;
            SettingOf(s') == if Ordered(own, e).Some? then Ordered(own, e).value else SettingOf(s)
  {
    if e.Frame? {
      FieldsEffect(s, own, e.text, FrameFields(e.text));
    }
  }

  /** Over every run: the stored colour and brightness are those of the last order that
      the lamp obeyed, by whichever way it came, and the colour channel shows that colour. */
  lemma {:induction false} LastOrderWins(flash: Option<Profile>, own: string, events: seq<Event>)
    requires Safe(events)
    ensures var s, last := After(Boot(flash), own, events), LastOrdered(SettingOf(Boot(flash)), own, events);
            SettingOf(s) == last && s.colorDuty == Narrow(ColorDuty(last.color))
  {
    LampInvariant(flash, own, events);
    if events != [] {
      var before, e := AfterLast(Boot(flash), own, events);
      LastOrderWins(flash, own, before);
      LampInvariant(flash, own, before);
      EventEffect(After(Boot(flash), own, before), own, e);
    }
  }

  lemma EventTraffic(s: LampState, own: string, e: Event)
    requires OnEvent(s, own, e).Some?
    ensures var s' := OnEvent(s, own, e).value;
            s'.sent == s.sent + Messages(own, e, s.group) && s'.group == PendingAfter(s.group, e)
  {
    assert s.sent + [] == s.sent;
    if e.Frame? {
      FieldsEffect(s, own, e.text, FrameFields(e.text));
    }
  }

  /** Over every run: the mesh gets the frames that are for others, and at each tick the
      last group command since the tick before, once, in the order of the events. */
  lemma {:induction false} MeshTraffic(flash: Option<Profile>, own: string, events: seq<Event>)
    requires Safe(events)
    ensures var s := After(Boot(flash), own, events);
            s.sent == Traffic(own, events) && s.group == Pending(events)
  {
    if events != [] {
      var before, e := AfterLast(Boot(flash), own, events);
      MeshTraffic(flash, own, before);
      EventTraffic(After(Boot(flash), own, before), own, e);
    }
  }

  // ----- the PWM limits

  datatype Limits = Limits(maxPwm: nat, lowPwm: nat)

  /** The limits that the profile holds. */
  function LimitsOf(s: LampState): Limits {
    Limits(s.status.maxPwm, s.status.lowPwm)
  }

  /** The narrowed duty of a brightness under given limits. */
  function Duty(brightness: nat, l: Limits): nat {
    Narrow(BrightnessDuty(brightness, l.maxPwm, l.lowPwm))
  }

  /** The limits that an event writes. */
  function Written(e: Event): Option<Limits> {
    if e.Ble? && e.cmd.WriteLight? then Some(Limits(e.cmd.high % 256, e.cmd.low % 256)) else None
  }

  function LastWritten(first: Limits, events: seq<Event>): Limits {
    if events == [] then first
    else
      var last := Written(events[|events| - 1]);
      if last.Some? then last.value else LastWritten(first, events[..|events| - 1])
  }

  /** Events that set the brightness channel. */
  predicate SetsBrightness(own: string, e: Event) {
    Ordered(own, e).Some? || (e.Ble? && e.cmd.Scan?)
  }

  /** The limits under which the channel was last set. */
  function InForce(first: Limits, own: string, events: seq<Event>): Limits {
    if events == [] then first
    else if SetsBrightness(own, events[|events| - 1]) then LastWritten(first, events[..|events| - 1])
    else InForce(first, own, events[..|events| - 1])
  }

  /** Limits were written and no brightness has been set since. */
  predicate Waiting(own: string, events: seq<Event>) {
    && events != []
    && var e := events[|events| - 1];
       !SetsBrightness(own, e) && (Written(e).Some? || Waiting(own, events[..|events| - 1]))
  }

  lemma FieldsLimits(s: LampState, own: string, text: string, fields: seq<Field>)
    requires OnFields(s, own, text, fields).Some?
    ensures var s' := OnFields(s, own, text, fields).value;
            && LimitsOf(s') == LimitsOf(s)
            && Limits(s'.litMax, s'.litLow) ==
               if OrderedBy(own, fields).Some? then LimitsOf(s) else Limits(s.litMax, s.litLow)
  {
  }

  lemma EventLimits(s: LampState, own: string, e: Event)
    requires Inv(s) && OnEvent(s, own, e).Some?
    ensures var s' := OnEvent(s, own, e).value;
            && LimitsOf(s') == (if Written(e).Some? then Written(e).value else LimitsOf(s))
            && Limits(s'.litMax, s'.litLow) ==
               if SetsBrightness(own, e) then LimitsOf(s) else Limits(s.litMax, s.litLow)
  {
    if e.Frame? {
      FieldsLimits(s, own, e.text, FrameFields(e.text));
    }
  }

  /** Over every run: the profile holds the last limits written, and the channel was set
      under those in force at the last event that set it. */
  lemma {:induction false} LimitsOfRun(flash: Option<Profile>, own: string, events: seq<Event>)
    requires Safe(events)
    ensures var s, first := After(Boot(flash), own, events), LimitsOf(Boot(flash));
            LimitsOf(s) == LastWritten(first, events) && Limits(s.litMax, s.litLow) == InForce(first, own, events)
  {
    if events != [] {
      var before, e := AfterLast(Boot(flash), own, events);
      LimitsOfRun(flash, own, before);
      LampInvariant(flash, own, before);
      EventLimits(After(Boot(flash), own, before), own, e);
    }
  }

  lemma {:induction false} NothingWaits(first: Limits, own: string, events: seq<Event>)
    requires !Waiting(own, events)
    ensures InForce(first, own, events) == LastWritten(first, events)
  {
    if events != [] && !SetsBrightness(own, events[|events| - 1]) {
      NothingWaits(first, own, events[..|events| - 1]);
    }
  }

  /** Over every run: the brightness channel shows the brightness last ordered, under the
      limits in force when it was last set.  It shows what the profile asks for exactly if
      these limits and the last ones written give that brightness the same duty; in
      particular whenever no limits wait for a brightness. */
  lemma ChannelShowsProfileIff(flash: Option<Profile>, own: string, events: seq<Event>)
    requires Safe(events)
    ensures var s, first := After(Boot(flash), own, events), LimitsOf(Boot(flash));
            var brightness := LastOrdered(SettingOf(Boot(flash)), own, events).brightness;
            var lit, last := InForce(first, own, events), LastWritten(first, events);
            && s.brightnessDuty == Duty(brightness, lit)
            && (s.brightnessDuty == Duty(s.status.mybrightness, LimitsOf(s)) <==>
                Duty(brightness, lit) == Duty(brightness, last))
            && (!Waiting(own, events) ==> s.brightnessDuty == Duty(s.status.mybrightness, LimitsOf(s)))
  {
    LampInvariant(flash, own, events);
    LimitsOfRun(flash, own, events);
    LastOrderWins(flash, own, events);
    if !Waiting(own, events) {
      NothingWaits(LimitsOf(Boot(flash)), own, events);
    }
  }

  /** From the factory setting, new limits of 10 and 100 leave the channel at 25, where the
      profile asks for 0. */
  lemma NewLimitsWait(own: string)
    ensures var s := OnBle(Boot(None), WriteLight(90, "DIM", 10, 100));
            s.brightnessDuty == 25 && Duty(s.status.mybrightness, LimitsOf(s)) == 0
  {
    FactoryDuty();
    var boot := Boot(None);
    LimitsAlone(boot, "DIM", 10, 100);
  }

  lemma FactoryDuty()
    ensures Boot(None).brightnessDuty == 25 && Boot(None).status.mybrightness == 100
    ensures Duty(100, Limits(100, 10)) == 0
  {
    BrightnessEnds(185, 41);
    BrightnessEnds(100, 10);
  }

  /** The command writes the limits and leaves the brightness and its channel. */
  lemma LimitsAlone(s: LampState, gen: string, low: nat, high: nat)
    requires low < 256 && high < 256
    ensures var s' := OnBle(s, WriteLight(90, gen, low, high));
            && s'.brightnessDuty == s.brightnessDuty && s'.status.mybrightness == s.status.mybrightness
            && LimitsOf(s') == Limits(high, low)
  {
  }

  // ----- the timer

  /** All limits that a run writes fit the timer. */
  predicate AllFit(events: seq<Event>) {
    forall e <- events :: Written(e).Some? ==> FitTimer(Written(e).value.maxPwm, Written(e).value.lowPwm)
  }

  lemma {:induction false} LimitsFit(first: Limits, own: string, events: seq<Event>)
    requires FitTimer(first.maxPwm, first.lowPwm) && AllFit(events)
    ensures var last, lit := LastWritten(first, events), InForce(first, own, events);
            FitTimer(last.maxPwm, last.lowPwm) && FitTimer(lit.maxPwm, lit.lowPwm)
  {
    if events != [] {
      LimitsFit(first, own, events[..|events| - 1]);
    }
  }

  lemma DutyFits(brightness: nat, l: Limits)
    requires FitTimer(l.maxPwm, l.lowPwm)
    ensures Duty(brightness, l) <= 255 && Duty(brightness, l) == BrightnessDuty(brightness, l.maxPwm, l.lowPwm)
  {
    BrightnessFitsIff(l.maxPwm, l.lowPwm);
    assert 0 <= BrightnessDuty(brightness, l.maxPwm, l.lowPwm) <= 255;
  }

  /** Over every run whose limits fit: the channel holds the duty of the map itself, within
      the eight bits of the timer. */
  lemma DutyFitsTimer(flash: Option<Profile>, own: string, events: seq<Event>)
    requires Safe(events) && AllFit(events)
    requires FitTimer(Boot(flash).status.maxPwm, Boot(flash).status.lowPwm)
    ensures var s := After(Boot(flash), own, events);
            s.brightnessDuty <= 255 && s.brightnessDuty == BrightnessDuty(s.status.mybrightness, s.litMax, s.litLow)
  {
    LampInvariant(flash, own, events);
    LimitsOfRun(flash, own, events);
    LimitsFit(LimitsOf(Boot(flash)), own, events);
    var s := After(Boot(flash), own, events);
    DutyFits(s.status.mybrightness, Limits(s.litMax, s.litLow));
  }

  // ----- restarts

  lemma {:induction false} LastOrderedAppend(first: Setting, own: string, a: seq<Event>, b: seq<Event>)
    ensures LastOrdered(first, own, a + b) == LastOrdered(LastOrdered(first, own, a), own, b)
    decreases |b|
  {
    if b == [] {
      assert a + b == a;
    } else {
      assert (a + b)[..|a + b| - 1] == a + b[..|b| - 1];
      LastOrderedAppend(first, own, a, b[..|b| - 1]);
    }
  }

  lemma {:induction false} LastWrittenAppend(first: Limits, a: seq<Event>, b: seq<Event>)
    ensures LastWritten(first, a + b) == LastWritten(LastWritten(first, a), b)
    decreases |b|
  {
    if b == [] {
      assert a + b == a;
    } else {
      assert (a + b)[..|a + b| - 1] == a + b[..|b| - 1];
      LastWrittenAppend(first, a, b[..|b| - 1]);
    }
  }

  /** A restart between two runs loses neither orders nor limits, and puts the last limits
      written into force. */
  lemma RestartContinues(flash: Option<Profile>, own: string, a: seq<Event>, b: seq<Event>)
    requires Safe(a) && Safe(b)
    ensures var boot := Boot(flash);
            var s := After(Boot(Some(After(boot, own, a).stored)), own, b);
            && SettingOf(s) == LastOrdered(SettingOf(boot), own, a + b)
            && LimitsOf(s) == LastWritten(LimitsOf(boot), a + b)
            && Limits(s.litMax, s.litLow) == InForce(LastWritten(LimitsOf(boot), a), own, b)
  {
    var flash' := Some(After(Boot(flash), own, a).stored);
    LampInvariant(flash, own, a);
    LastOrderWins(flash, own, a);
    LimitsOfRun(flash, own, a);
    LastOrderWins(flash', own, b);
    LimitsOfRun(flash', own, b);
    LastOrderedAppend(SettingOf(Boot(flash)), own, a, b);
    LastWrittenAppend(LimitsOf(Boot(flash)), a, b);
  }

  lemma MinutesTogether(m: nat, n: nat)
    ensures (m + n) / 60 == m / 60 + n / 60 + (if m % 60 + n % 60 < 60 then 0 else 1)
  {
  }

  lemma WrapsOnce(w: nat, x: nat, y: nat)
    ensures ((w + x) % MINUTES + y) % MINUTES == (w + x + y) % MINUTES
    ensures (w + x) % MINUTES != (w + x + 1) % MINUTES
  {
  }

  /** The working time w goes on by the whole minutes of m and of n ticks, which are those of
      all ticks together exactly if the two remainders make no minute. */
  predicate GoesOn(w: nat, m: nat, n: nat, time: nat) {
    && time == (w + m / 60 + n / 60) % MINUTES
    && (time == (w + (m + n) / 60) % MINUTES <==> m % 60 + n % 60 < 60)
  }

  /** The working time w, n ticks later. */
  predicate WorkedOn(w: nat, n: nat, time: nat) {
    time == (w + n / 60) % MINUTES
  }

  lemma MinutesOfBoth(w: nat, m: nat, n: nat, first: nat, time: nat)
    requires WorkedOn(w, m, first) && WorkedOn(first, n, time)
    ensures GoesOn(w, m, n, time)
  {
    WrapsOnce(w, m / 60, n / 60);
    WrapsOnce(w, m / 60 + n / 60, 0);
    MinutesTogether(m, n);
  }

  /** The working time, and the copy of it that a restart finds. */
  lemma TimeOfRun(flash: Option<Profile>, own: string, events: seq<Event>) returns (p: Profile)
    requires Safe(events) && Boot(flash).status.ledworking < MINUTES
    ensures p == After(Boot(flash), own, events).status == After(Boot(flash), own, events).stored
    ensures WorkedOn(Boot(flash).status.ledworking, Ticks(events), p.ledworking)
    ensures Boot(Some(p)).status == p
  {
    LampInvariant(flash, own, events);
    ClockCountsTicks(flash, own, events);
    p := After(Boot(flash), own, events).status;
  }

  /** The working time goes on over a restart by the whole minutes of both runs; it is that of
      all ticks together exactly if the minute begun before the restart does not complete one
      after it. */
  lemma RestartLosesSeconds(flash: Option<Profile>, own: string, a: seq<Event>, b: seq<Event>)
    requires Safe(a) && Safe(b) && Boot(flash).status.ledworking < MINUTES
    ensures GoesOn(Boot(flash).status.ledworking, Ticks(a), Ticks(b),
                   After(Boot(Some(After(Boot(flash), own, a).stored)), own, b).status.ledworking)
  {
    var p := TimeOfRun(flash, own, a);
    var q := TimeOfRun(Some(p), own, b);
    MinutesOfBoth(Boot(flash).status.ledworking, Ticks(a), Ticks(b), p.ledworking, q.ledworking);
  }

  /** Limits that do not fit reach the channel: in the wrong order they leave it at 283, beyond
      the eight bits of the timer, and a lower limit too small for the span at 65526, which is
      -10 in sixteen bits. */
  lemma BadLimitsReachChannel(s: LampState, color: nat, gen: string)
    requires color < 65536
    ensures OnBle(OnBle(s, WriteLight(90, gen, 255, 0)), TestControl(100, color)).brightnessDuty == 283
    ensures OnBle(OnBle(s, WriteLight(90, gen, 1, 101)), TestControl(100, color)).brightnessDuty == 65526
  {
    LimitsThatDoNotFit();
    LimitsAlone(s, gen, 255, 0);
    LimitsAlone(s, gen, 1, 101);
  }
}
