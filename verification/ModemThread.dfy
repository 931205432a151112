/** The control flow of one task that talks to the LoRaWAN modem.

    `sendCMD` and `lora_init` call each other without bound.  Here a task is a
    work list: the commands it still has to send, in order, and a `Finish` mark
    for every outer `sendCMD` that resumes after a recovery.  One step is one
    action on the UART or on the event group, so the same machine serves the
    recursive methods (Modem) and the interleaved system (ModemSystem).
 */
module ModemThread {

  const MAX_SEND_FAIL: nat := 10

  /** `checked` is the `chk_ret` argument of `sendCMD`. */
  datatype Command = Command(text: string, checked: bool)

  /** The three stored strings that `lora_init` formats into commands. */
  datatype Profile = Profile(devaddr: string, nwkskey: string, appskey: string)

  datatype Item = Send(cmd: Command) | Finish

  /** Where `sendCMD` stands with the command at the head of the work list. */
  datatype Phase = Gate | Clearing | Sending(tries: nat) | Setting

  /** One UART write.  `acked` is `recv_status` when the loop tests it. */
  datatype Write = Write(text: string, checked: bool, acked: bool)

  datatype Thread = Thread(todo: seq<Item>, phase: Phase, log: seq<Write>)

  const AT: Command := Command("AT\n", true)
  const ATZ: Command := Command("ATZ\n", false)

  /** The sixteen checked commands that follow a reset, in program order. */
  ghost predicate ConfigOf(p: Profile, cfg: seq<Item>) {
    && IsConfig(cfg)
    && cfg[0].cmd == AT
    && cfg[1].cmd == Command("AT+CLASS=C\n", true)
    && cfg[2].cmd == Command("AT+DADDR=" + p.devaddr + "\n", true)
    && cfg[3].cmd == Command("AT+NWKSKEY=" + p.nwkskey + "\n", true)
    && cfg[4].cmd == Command("AT+APPSKEY=" + p.appskey + "\n", true)
    && cfg[5].cmd == Command("AT+CFM=0\n", true)
    && cfg[6].cmd == Command("AT+DCS=0\n", true)
    && cfg[7].cmd == Command("AT+TXP=5\n", true)
    && cfg[8].cmd == Command("AT+DR=3\n", true)
    && cfg[9].cmd == Command("AT+ADR=1\n", true)
    && cfg[10].cmd == Command("AT+JN1DL=5000\n", true)
    && cfg[11].cmd == Command("AT+JN2DL=6000\n", true)
    && cfg[12].cmd == Command("AT+RX1DL=1000\n", true)
    && cfg[13].cmd == Command("AT+RX2DL=2000\n", true)
    && cfg[14].cmd == Command("AT+NJM=0\n", true)
    && cfg[15].cmd == Command("AT+NJS=?\n", true)
  }

  /** All that the control flow depends on in a configuration. */
  predicate IsConfig(cfg: seq<Item>) {
    && |cfg| == 16
    && forall k :: 0 <= k < 16 ==> cfg[k].Send? && cfg[k].cmd.checked
  }

  /** The work of one `lora_init`: `lora_rst`, then the configuration. */
  function InitScript(cfg: seq<Item>): seq<Item> {
    [Send(AT), Send(ATZ)] + cfg
  }

  /** The next action, given the answer that the next write would get. */
  function Step(cfg: seq<Item>, t: Thread, ack: bool): Thread
    requires t.todo != []
  {
    var rest := t.todo[1..];
    match t.todo[0]
    case Finish => t.(todo := rest)
    case Send(c) =>
      match t.phase
      case Gate => t.(phase := Clearing)
      case Clearing => t.(phase := Sending(0))
      case Sending(n) =>
        var log := t.log + [Write(c.text, c.checked, ack)];
        if !ack && c.checked && n + 1 < MAX_SEND_FAIL then
          Thread(t.todo, Sending(n + 1), log)
        else if n + 1 >= MAX_SEND_FAIL then
          Thread(InitScript(cfg) + [Send(c), Finish] + rest, Gate, log)
        else
          Thread(t.todo, Setting, log)
      case Setting => Thread(rest, Gate, t.log)
  }

  /** Runs one thread alone, with RECV_BIT set; write number i is answered by ack(i). */
  ghost function Iterate(cfg: seq<Item>, t: Thread, ack: nat -> bool, k: nat): Thread
    decreases k
  {
    if k == 0 || t.todo == [] then t
    else Iterate(cfg, Step(cfg, t, ack(|t.log|)), ack, k - 1)
  }

  ghost predicate Reaches(cfg: seq<Item>, ack: nat -> bool, a: Thread, b: Thread) {
    exists k: nat :: Iterate(cfg, a, ack, k) == b
  }

  lemma {:induction false} IterateAdd(cfg: seq<Item>, t: Thread, ack: nat -> bool, j: nat, k: nat)
    ensures Iterate(cfg, Iterate(cfg, t, ack, j), ack, k) == Iterate(cfg, t, ack, j + k)
    decreases j
  {
    if j != 0 && t.todo != [] {
      IterateAdd(cfg, Step(cfg, t, ack(|t.log|)), ack, j - 1, k);
    }
  }

  lemma ReachesSelf(cfg: seq<Item>, ack: nat -> bool, a: Thread)
    ensures Reaches(cfg, ack, a, a)
  {
    assert Iterate(cfg, a, ack, 0) == a;
  }

  lemma ReachesTrans(cfg: seq<Item>, ack: nat -> bool, a: Thread, b: Thread, c: Thread)
    requires Reaches(cfg, ack, a, b) && Reaches(cfg, ack, b, c)
    ensures Reaches(cfg, ack, a, c)
  {
    var j: nat :| Iterate(cfg, a, ack, j) == b;
    var k: nat :| Iterate(cfg, b, ack, k) == c;
    IterateAdd(cfg, a, ack, j, k);
  }

  lemma ReachesStep(cfg: seq<Item>, ack: nat -> bool, a: Thread, b: Thread)
    requires Reaches(cfg, ack, a, b) && b.todo != []
    ensures Reaches(cfg, ack, a, Step(cfg, b, ack(|b.log|)))
  {
    var c := Step(cfg, b, ack(|b.log|));
    assert Iterate(cfg, b, ack, 1) == Iterate(cfg, c, ack, 0) == c;
    ReachesTrans(cfg, ack, a, b, c);
  }
}
