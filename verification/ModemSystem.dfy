/** The sender tasks and the polling task `readCMD`, interleaved action by action and
    arbitrated by the two event-group bits. */
module ModemSystem {
  import opened ModemThread
  import opened ModemRecovery

  /** Where `readCMD` stands; `Recovering` runs `lora_init` inside its own window. */
  datatype Reader = AtGate | Closing | Polling(tries: nat) | Opening | Recovering(init: Thread)

  datatype System = System(recvBit: bool, sendBit: bool, reader: Reader, senders: seq<Thread>)

  datatype Action =
    | Issue(i: nat, script: seq<Item>)
    | SenderAct(i: nat, ack: bool)
    | ReaderAct(ack: bool)

  /** Waiting for RECV_BIT is the only way a task is held up. */
  predicate Runnable(t: Thread, recvBit: bool) {
    t.todo != [] && (t.phase.Gate? && t.todo[0].Send? ==> recvBit)
  }

  /** SEND_BIT after the next action of a task. */
  function SendBitAfter(t: Thread, sendBit: bool): bool
    requires t.todo != []
  {
    if t.todo[0].Finish? || t.phase.Setting? then true else if t.phase.Clearing? then false else sendBit
  }

  predicate Enabled(s: System, a: Action) {
    match a
    case Issue(i, script) => i < |s.senders| && s.senders[i].todo == [] && s.senders[i].phase == Gate &&
                             forall k :: 0 <= k < |script| ==> script[k].Send?
    case SenderAct(i, _) => i < |s.senders| && Runnable(s.senders[i], s.recvBit)
    case ReaderAct(_) =>
      match s.reader
      case AtGate => s.sendBit
      case Recovering(t) => t.todo == [] || Runnable(t, s.recvBit)
      case _ => true
  }

  function ReaderAfter(cfg: seq<Item>, r: Reader, ack: bool): Reader {
    match r
    case AtGate => Closing
    case Closing => Polling(0)
    case Polling(n) =>
      if !ack && n + 1 < MAX_SEND_FAIL then Polling(n + 1)
      else if n + 1 >= MAX_SEND_FAIL then Recovering(Thread(InitScript(cfg), Gate, []))
      else Opening
    case Opening => AtGate
    case Recovering(t) => if t.todo == [] then Opening else Recovering(Step(cfg, t, ack))
  }

  function Next(cfg: seq<Item>, s: System, a: Action): System
    requires Enabled(s, a)
  {
    match a
    case Issue(i, script) => s.(senders := s.senders[i := s.senders[i].(todo := script)])
    case SenderAct(i, ack) =>
      s.(sendBit := SendBitAfter(s.senders[i], s.sendBit),
         senders := s.senders[i := Step(cfg, s.senders[i], ack)])
    case ReaderAct(ack) =>
      System(if s.reader.Closing? then false else if s.reader.Opening? then true else s.recvBit,
             if s.reader.Recovering? && s.reader.init.todo != [] then SendBitAfter(s.reader.init, s.sendBit)
             else s.sendBit,
             ReaderAfter(cfg, s.reader, ack),
             s.senders)
  }

  /** The state that `init_LoraWAN` leaves behind. */
  predicate Initial(s: System) {
    && s.recvBit && s.sendBit && s.reader == AtGate
    && forall i :: 0 <= i < |s.senders| ==> s.senders[i].todo == [] && s.senders[i].phase == Gate
  }

  ghost predicate IsRun(cfg: seq<Item>, states: seq<System>, acts: seq<Action>) {
    && |states| == |acts| + 1
    && forall i {:trigger acts[i]} :: 0 <= i < |acts| ==>
         Enabled(states[i], acts[i]) && states[i + 1] == Next(cfg, states[i], acts[i])
  }

  lemma RunGrows(cfg: seq<Item>, run: seq<System>, acts: seq<Action>, a: Action)
    requires IsRun(cfg, run, acts) && Enabled(run[|acts|], a)
    ensures IsRun(cfg, run + [Next(cfg, run[|acts|], a)], acts + [a])
  {
    var run', acts' := run + [Next(cfg, run[|acts|], a)], acts + [a];
    forall i | 0 <= i < |acts'|
      ensures Enabled(run'[i], acts'[i]) && run'[i + 1] == Next(cfg, run'[i], acts'[i])
    {
      if i < |acts| {
        assert acts'[i] == acts[i] && run'[i] == run[i] && run'[i + 1] == run[i + 1];
      }
    }
  }

  // ----- RECV_BIT

  /** Between the reader's clear of RECV_BIT and its set. */
  predicate ReaderWindow(r: Reader) {
    r.Polling? || r.Opening? || r.Recovering?
  }

  /** The reader's own `lora_init` has not got past its first wait. */
  predicate Stuck(cfg: seq<Item>, r: Reader) {
    r == Recovering(Thread(InitScript(cfg), Gate, []))
  }

  /** In every interleaving, with any number of senders, RECV_BIT is clear exactly while
      the reader is in its window; and a recovery inside the window never starts. */
  lemma {:induction false} RecvBitIsReaderWindow(cfg: seq<Item>, states: seq<System>, acts: seq<Action>, n: nat)
    requires IsRun(cfg, states, acts) && Initial(states[0]) && n <= |acts|
    ensures states[n].recvBit <==> !ReaderWindow(states[n].reader)
    ensures states[n].reader.Recovering? ==> Stuck(cfg, states[n].reader)
  {
    if n > 0 {
      RecvBitIsReaderWindow(cfg, states, acts, n - 1);
      assert states[n - 1 + 1] == Next(cfg, states[n - 1], acts[n - 1]);
    }
  }

  // ----- recovery of one sender among the others

  /** Sender i is in a call that began with the log `log0`. */
  ghost predicate InCall(cfg: seq<Item>, s: System, i: nat, log0: seq<Write>, done: seq<Served>, goal: Command) {
    i < |s.senders| && log0 <= s.senders[i].log && RecoveryInv(cfg, s.senders[i], |log0|, done, goal)
  }

  lemma ActKeepsCall(cfg: seq<Item>, s: System, a: Action, i: nat, log0: seq<Write>, done: seq<Served>, goal: Command)
      returns (done': seq<Served>)
    requires IsConfig(cfg) && Enabled(s, a) && !(a.Issue? && a.i == i) && InCall(cfg, s, i, log0, done, goal)
    ensures InCall(cfg, Next(cfg, s, a), i, log0, done', goal)
  {
    var t := s.senders[i];
    if a.SenderAct? && a.i == i {
      done' := StepKeepsRecovery(cfg, t, a.ack, |log0|, done, goal);
      assert Next(cfg, s, a).senders[i] == Step(cfg, t, a.ack);
    } else {
      done' := done;
      assert Next(cfg, s, a).senders[i] == t;
    }
  }

  /** Whatever the other tasks do, a call that sender i began at moment m keeps the
      recovery invariant at every later moment until its next call. */
  lemma {:induction false} SenderKeepsRecovery(cfg: seq<Item>, states: seq<System>, acts: seq<Action>, m: nat, n: nat,
                                               i: nat, script: seq<Item>, goal: Command) returns (done: seq<Served>)
    requires IsRun(cfg, states, acts) && m <= n <= |acts| && i < |states[m].senders|
    requires IsConfig(cfg) && IsCall(cfg, script, goal)
    requires states[m].senders[i].todo == script && states[m].senders[i].phase == Gate
    requires forall j :: m <= j < n ==> !(acts[j].Issue? && acts[j].i == i)
    ensures InCall(cfg, states[n], i, states[m].senders[i].log, done, goal)
    decreases n - m
  {
    var log0 := states[m].senders[i].log;
    if m == n {
      done := [];
      CallStarts(cfg, script, log0, goal);
      assert states[m].senders[i] == Thread(script, Gate, log0);
    } else {
      done := SenderKeepsRecovery(cfg, states, acts, m, n - 1, i, script, goal);
      assert states[n - 1 + 1] == Next(cfg, states[n - 1], acts[n - 1]);
      done := ActKeepsCall(cfg, states[n - 1], acts[n - 1], i, log0, done, goal);
    }
  }

  /** In every interleaving, a call that has returned has completed its recoveries. */
  lemma SenderRecoveryComplete(cfg: seq<Item>, states: seq<System>, acts: seq<Action>, m: nat, n: nat, i: nat,
                               script: seq<Item>, goal: Command)
    requires IsRun(cfg, states, acts) && m <= n <= |acts| && i < |states[m].senders|
    requires IsConfig(cfg) && IsCall(cfg, script, goal)
    requires states[m].senders[i].todo == script && states[m].senders[i].phase == Gate
    requires forall j :: m <= j < n ==> !(acts[j].Issue? && acts[j].i == i)
    ensures i < |states[n].senders|
    ensures states[n].senders[i].todo == [] ==>
      var log0, log1 := states[m].senders[i].log, states[n].senders[i].log;
      log0 < log1 && exists done :: CompletesWith(cfg, log1[|log0|..], done, goal)
  {
    var done := SenderKeepsRecovery(cfg, states, acts, m, n, i, script, goal);
    if states[n].senders[i].todo == [] {
      InvariantCompletes(cfg, states[n].senders[i], |states[m].senders[i].log|, done, goal);
    }
  }

  // ----- recovery inside the reader's window

  predicate WaitsAtGate(t: Thread) {
    t.phase.Gate? && t.todo != [] && t.todo[0].Send?
  }

  /** Writes a task can still make without passing a gate. */
  function WritesLeft(t: Thread): nat {
    match t.phase
    case Clearing => MAX_SEND_FAIL
    case Sending(n) => if n < MAX_SEND_FAIL then MAX_SEND_FAIL - n else 1
    case _ => 0
  }

  lemma StuckAct(cfg: seq<Item>, s: System, a: Action, i: nat)
    requires Enabled(s, a) && Stuck(cfg, s.reader) && !s.recvBit && i < |s.senders|
    ensures var s' := Next(cfg, s, a);
            && s'.reader == s.reader && !s'.recvBit && |s'.senders| == |s.senders|
            && (WaitsAtGate(s.senders[i]) ==> s'.senders[i] == s.senders[i])
            && |s'.senders[i].log| + WritesLeft(s'.senders[i]) <= |s.senders[i].log| + WritesLeft(s.senders[i])
  {
  }

  /** Once the reader recovers inside its own window, RECV_BIT stays clear in every later
      state, no `sendCMD` at its gate ever passes it, and no task makes more than the ten
      writes of the attempt it is in. */
  lemma {:induction false} ReaderRecoveryIsFinal(cfg: seq<Item>, states: seq<System>, acts: seq<Action>,
                                                 m: nat, n: nat, i: nat)
    requires IsRun(cfg, states, acts) && Initial(states[0])
    requires m <= n <= |acts| && states[m].reader.Recovering? && i < |states[m].senders|
    ensures states[n].reader == states[m].reader && !states[n].recvBit && |states[n].senders| == |states[m].senders|
    ensures WaitsAtGate(states[m].senders[i]) ==> states[n].senders[i] == states[m].senders[i]
    ensures |states[n].senders[i].log| + WritesLeft(states[n].senders[i]) <=
            |states[m].senders[i].log| + WritesLeft(states[m].senders[i])
    ensures |states[n].senders[i].log| <= |states[m].senders[i].log| + MAX_SEND_FAIL
    decreases n - m
  {
    RecvBitIsReaderWindow(cfg, states, acts, m);
    if m < n {
      ReaderRecoveryIsFinal(cfg, states, acts, m, n - 1, i);
      assert states[n - 1 + 1] == Next(cfg, states[n - 1], acts[n - 1]);
      StuckAct(cfg, states[n - 1], acts[n - 1], i);
    }
  }

  // ----- progress of the reader

  /** The answers to the reader's own actions, in order. */
  function ReaderAnswers(acts: seq<Action>): seq<bool> {
    if acts == [] then []
    else (if acts[0].ReaderAct? then [acts[0].ack] else []) + ReaderAnswers(acts[1..])
  }

  lemma RunTail(cfg: seq<Item>, states: seq<System>, acts: seq<Action>)
    requires IsRun(cfg, states, acts) && acts != []
    ensures IsRun(cfg, states[1..], acts[1..])
    ensures states[1] == Next(cfg, states[0], acts[0]) && Enabled(states[0], acts[0])
  {
    assert states[0 + 1] == Next(cfg, states[0], acts[0]);
    forall i | 0 <= i < |acts[1..]|
      ensures Enabled(states[1..][i], acts[1..][i]) && states[1..][i + 1] == Next(cfg, states[1..][i], acts[1..][i])
    {
      assert states[i + 1 + 1] == Next(cfg, states[i + 1], acts[i + 1]);
    }
  }

  /** A poll number `tries` that is answered before the tenth ends the window: the reader
      sets RECV_BIT with its next action but one. */
  lemma {:induction false} AnsweredPollReopens(cfg: seq<Item>, states: seq<System>, acts: seq<Action>,
                                               tries: nat, k: nat)
      returns (j: nat)
    requires IsRun(cfg, states, acts) && states[0].reader == Polling(tries)
    requires tries + k < MAX_SEND_FAIL - 1 && k + 1 < |ReaderAnswers(acts)| && ReaderAnswers(acts)[k]
    ensures j <= |acts| && states[j].recvBit && |ReaderAnswers(acts[..j])| <= k + 2
    decreases |acts|
  {
    RunTail(cfg, states, acts);
    var j' := 0;
    if !acts[0].ReaderAct? {
      j' := AnsweredPollReopens(cfg, states[1..], acts[1..], tries, k);
    } else if acts[0].ack {
      j' := OpeningReopens(cfg, states[1..], acts[1..]);
    } else {
      j' := AnsweredPollReopens(cfg, states[1..], acts[1..], tries + 1, k - 1);
    }
    j := j' + 1;
    assert acts[..j][1..] == acts[1..][..j'];
  }

  lemma {:induction false} OpeningReopens(cfg: seq<Item>, states: seq<System>, acts: seq<Action>) returns (j: nat)
    requires IsRun(cfg, states, acts) && states[0].reader == Opening && ReaderAnswers(acts) != []
    ensures j <= |acts| && states[j].recvBit && |ReaderAnswers(acts[..j])| <= 1
    decreases |acts|
  {
    RunTail(cfg, states, acts);
    if acts[0].ReaderAct? {
      j := 1;
      assert acts[..1][1..] == [];
    } else {
      var j' := OpeningReopens(cfg, states[1..], acts[1..]);
      j := j' + 1;
      assert acts[..j][1..] == acts[1..][..j'];
    }
  }

  /** Conversely, a window whose first nine polls go unanswered ends in the recovery. */
  lemma {:induction false} UnansweredPollsRecover(cfg: seq<Item>, states: seq<System>, acts: seq<Action>, tries: nat)
      returns (j: nat)
    requires IsRun(cfg, states, acts) && tries < MAX_SEND_FAIL && states[0].reader == Polling(tries)
    requires |ReaderAnswers(acts)| >= MAX_SEND_FAIL - tries
    requires forall k :: 0 <= k < MAX_SEND_FAIL - 1 - tries ==> !ReaderAnswers(acts)[k]
    ensures j <= |acts| && Stuck(cfg, states[j].reader)
    decreases |acts|
  {
    RunTail(cfg, states, acts);
    if !acts[0].ReaderAct? {
      assert ReaderAnswers(acts) == ReaderAnswers(acts[1..]);
      var j' := UnansweredPollsRecover(cfg, states[1..], acts[1..], tries);
      j := j' + 1;
    } else if tries + 1 == MAX_SEND_FAIL {
      j := 1;
    } else {
      assert !ReaderAnswers(acts)[0];
      assert forall k :: 0 <= k < |ReaderAnswers(acts[1..])| ==>
        ReaderAnswers(acts[1..])[k] == ReaderAnswers(acts)[k + 1];
      var j' := UnansweredPollsRecover(cfg, states[1..], acts[1..], tries + 1);
      j := j' + 1;
    }
  }
}
