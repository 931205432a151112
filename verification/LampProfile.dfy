/** The mesh ID, its channel, the model and the generation of the light, told from the events
    alone. */
module LampProfile {
  import opened Arithmetic
  import opened MeshId
  import opened Led
  import opened LampFrames
  import opened Lamp
  import opened LampHistory
  import opened Options

  datatype Mesh = Mesh(number: int, channel: nat)

  datatype Light = Light(model: nat, gen: nat)

  function MeshOf(s: LampState): Mesh {
    Mesh(Spelled(s.status.meshid), s.status.meshch)
  }

  function LightOf(s: LampState): Light {
    Light(s.status.model, s.status.gen)
  }

  /** A written ID replaces as many digits of the old one as it has; a channel is taken in
      eight bits. */
  function MeshAfter(before: Mesh, e: Event): Mesh {
    match e
    case Ble(WriteMesh(id, ch)) =>
      var v := if id > 0 then id else 0;
      var p := Power10(DigitCount(v));
      Mesh(before.number / p * p + v, ch % 256)
    case _ => before
  }

  function LastMesh(first: Mesh, events: seq<Event>): Mesh {
    if events == [] then first
    else MeshAfter(LastMesh(first, events[..|events| - 1]), events[|events| - 1])
  }

  /** A model is taken in sixteen bits; two names stand for a generation, others for none. */
  function LightAfter(before: Light, e: Event): Light {
    match e
    case Ble(WriteLight(model, gen, _, _)) =>
      Light(model % 65536, if gen == "DIM" then 2 else if gen == "DIMCOLOR" then 1 else before.gen)
    case _ => before
  }

  function LastLight(first: Light, events: seq<Event>): Light {
    if events == [] then first
    else LightAfter(LastLight(first, events[..|events| - 1]), events[|events| - 1])
  }

  /** Six decimal digits. */
  predicate SixDigitId(ds: seq<int>) {
    |ds| == 6 && IsDigits(ds)
  }

  lemma OverwrittenMesh(ds: seq<int>, id: int)
    requires SixDigitId(ds) && id < 1000000
    ensures SixDigitId(Overwritten(ds, id))
    ensures var v := if id > 0 then id else 0;
            var p := Power10(DigitCount(v));
            Spelled(Overwritten(ds, id)) == Spelled(ds) / p * p + v
  {
    SixDigits();
    OverwrittenSpells(ds, if id > 0 then id else 0);
  }

  lemma FrameKeepsProfile(s: LampState, own: string, text: string)
    requires OnFrame(s, own, text).Some?
    ensures var p, q := s.status, OnFrame(s, own, text).value.status;
            p.meshid == q.meshid && p.meshch == q.meshch && p.model == q.model && p.gen == q.gen
  {
    FrameEffect(s, own, text);
  }

  lemma EventProfile(s: LampState, own: string, e: Event)
    requires Inv(s) && SixDigitId(s.status.meshid) && OnEvent(s, own, e).Some?
    ensures var s' := OnEvent(s, own, e).value;
            && SixDigitId(s'.status.meshid)
            && MeshOf(s') == MeshAfter(MeshOf(s), e) && LightOf(s') == LightAfter(LightOf(s), e)
  {
    match e
    case Frame(text) => FrameKeepsProfile(s, own, text);
    case Ble(cmd) =>
      if cmd.WriteMesh? {
        OverwrittenMesh(s.status.meshid, cmd.id);
      }
    case Tick =>
  }

  /** Over every run: the stored digits spell the number that the written IDs leave, one after
      the other, and the channel is that of the last one; model and generation are the last
      ones written. */
  lemma {:induction false} ProfileOfRun(flash: Option<Profile>, own: string, events: seq<Event>)
    requires Safe(events) && SixDigitId(Boot(flash).status.meshid)
    ensures var boot, s := Boot(flash), After(Boot(flash), own, events);
            && SixDigitId(s.status.meshid) && s.stored == s.status
            && MeshOf(s) == LastMesh(MeshOf(boot), events) && LightOf(s) == LastLight(LightOf(boot), events)
  {
    LampInvariant(flash, own, events);
    if events != [] {
      var before, e := AfterLast(Boot(flash), own, events);
      ProfileOfRun(flash, own, before);
      LampInvariant(flash, own, before);
      EventProfile(After(Boot(flash), own, before), own, e);
    }
  }

  lemma {:induction false} LastProfileAppend(mesh: Mesh, light: Light, a: seq<Event>, b: seq<Event>)
    ensures LastMesh(mesh, a + b) == LastMesh(LastMesh(mesh, a), b)
    ensures LastLight(light, a + b) == LastLight(LastLight(light, a), b)
    decreases |b|
  {
    if b == [] {
      assert a + b == a;
    } else {
      assert (a + b)[..|a + b| - 1] == a + b[..|b| - 1];
      LastProfileAppend(mesh, light, a, b[..|b| - 1]);
    }
  }

  /** A restart between two runs keeps all of them. */
  lemma RestartKeepsProfile(flash: Option<Profile>, own: string, a: seq<Event>, b: seq<Event>)
    requires Safe(a) && Safe(b) && SixDigitId(Boot(flash).status.meshid)
    ensures var boot := Boot(flash);
            var s := After(Boot(Some(After(boot, own, a).stored)), own, b);
            MeshOf(s) == LastMesh(MeshOf(boot), a + b) && LightOf(s) == LastLight(LightOf(boot), a + b)
  {
    var flash' := Some(After(Boot(flash), own, a).stored);
    ProfileOfRun(flash, own, a);
    ProfileOfRun(flash', own, b);
    LastProfileAppend(MeshOf(Boot(flash)), LightOf(Boot(flash)), a, b);
  }

  // ----- the factory setting

  /** A lamp with nothing stored starts with mesh 123456 on channel 10, a warm colour at full
      brightness, no working time, limits of 185 and 41, model 90 and generation 1. */
  lemma FactoryStart(own: string)
    ensures var s := Boot(None);
            && MeshOf(s) == Mesh(123456, 10) && LightOf(s) == Light(90, 1)
            && SettingOf(s) == Setting(2700, 100) && LimitsOf(s) == Limits(185, 41)
            && s.status.ledworking == 0 && s.colorDuty == 0 && s.brightnessDuty == 25
            && s.stored == s.status && SixDigitId(s.status.meshid)
  {
    ShorterIdKeepsOldDigits();
    BrightnessEnds(185, 41);
  }

  /** One command: 654321 over the factory setting is 654321, in memory and in flash. */
  lemma WholeIdIsWritten(own: string, events: seq<Event>)
    requires events == [Ble(WriteMesh(654321, 7))]
    ensures Safe(events) && MeshOf(After(Boot(None), own, events)) == Mesh(654321, 7)
  {
    FactoryStart(own);
    ProfileOfRun(None, own, events);
    assert events[..0] == [];
    assert LastMesh(Mesh(123456, 10), events) == MeshAfter(LastMesh(Mesh(123456, 10), []), events[0]);
    SixDigits();
    assert DigitCount(654321) == 6 by {
      assert DigitCount(654) == 3;
    }
  }
}
