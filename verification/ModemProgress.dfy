/** What stops the tasks: nothing but the reader's own recovery. */
module ModemProgress {
  import opened ModemThread
  import opened ModemRecovery
  import opened ModemSystem

  /** Some task can act, without any new call. */
  ghost predicate CanGoOn(s: System) {
    exists a: Action :: !a.Issue? && Enabled(s, a)
  }

  /** Sender i waits for RECV_BIT, or has nothing to do. */
  predicate Held(s: System, i: nat) {
    i < |s.senders| && (s.senders[i].todo == [] || WaitsAtGate(s.senders[i]))
  }

  ghost predicate AllHeld(s: System) {
    forall i: nat :: i < |s.senders| ==> Held(s, i)
  }

  predicate Busy(s: System, i: nat) {
    i < |s.senders| && s.senders[i].todo != []
  }

  /** SEND_BIT is clear only while some sender is in a call. */
  ghost predicate SendBitIsOwed(s: System) {
    s.sendBit || exists i: nat :: Busy(s, i)
  }

  /** A sender that ends its work leaves SEND_BIT set. */
  lemma SenderLeavesBit(cfg: seq<Item>, t: Thread, ack: bool, sendBit: bool)
    requires t.todo != []
    ensures Step(cfg, t, ack).todo != [] || SendBitAfter(t, sendBit)
    ensures t.todo[0].Send? && t.phase.Clearing? ==> Step(cfg, t, ack).todo != []
  {
  }

  lemma ActKeepsOwed(cfg: seq<Item>, s: System, a: Action)
    requires Enabled(s, a) && SendBitIsOwed(s) && (s.reader.Recovering? ==> Stuck(cfg, s.reader) && !s.recvBit)
    ensures SendBitIsOwed(Next(cfg, s, a))
  {
    var s' := Next(cfg, s, a);
    match a
    case Issue(i, script) =>
      if j: nat :| Busy(s, j) {
        assert Busy(s', j);
      }
    case SenderAct(i, ack) =>
      SenderLeavesBit(cfg, s.senders[i], ack, s.sendBit);
      if s'.senders[i].todo != [] {
        assert Busy(s', i);
      }
    case ReaderAct(_) =>
      if j: nat :| Busy(s, j) {
        assert Busy(s', j);
      }
  }

  lemma {:induction false} SendBitAlwaysOwed(cfg: seq<Item>, states: seq<System>, acts: seq<Action>, n: nat)
    requires IsRun(cfg, states, acts) && Initial(states[0]) && n <= |acts|
    ensures SendBitIsOwed(states[n])
  {
    if n > 0 {
      SendBitAlwaysOwed(cfg, states, acts, n - 1);
      RecvBitIsReaderWindow(cfg, states, acts, n - 1);
      assert states[n - 1 + 1] == Next(cfg, states[n - 1], acts[n - 1]);
      ActKeepsOwed(cfg, states[n - 1], acts[n - 1]);
    }
  }

  /** In every interleaving with any number of senders: the tasks come to a stop exactly if
      the reader recovers in its own window and every sender waits at its gate or is idle. */
  lemma StopsIff(cfg: seq<Item>, states: seq<System>, acts: seq<Action>, n: nat)
    requires IsRun(cfg, states, acts) && Initial(states[0]) && n <= |acts|
    ensures !CanGoOn(states[n]) <==> states[n].reader.Recovering? && AllHeld(states[n])
  {
    var s := states[n];
    RecvBitIsReaderWindow(cfg, states, acts, n);
    SendBitAlwaysOwed(cfg, states, acts, n);
    if s.reader.Recovering? {
      StuckStopsIff(cfg, s);
    } else if s.reader.AtGate? && !s.sendBit {
      var i: nat :| Busy(s, i);
      assert Enabled(s, SenderAct(i, true));
    } else {
      assert Enabled(s, ReaderAct(true));
    }
  }

  lemma StuckStopsIff(cfg: seq<Item>, s: System)
    requires Stuck(cfg, s.reader) && !s.recvBit
    ensures !CanGoOn(s) <==> AllHeld(s)
  {
    if i: nat :| i < |s.senders| && !Held(s, i) {
      assert Enabled(s, SenderAct(i, true));
    }
    if a: Action :| !a.Issue? && Enabled(s, a) {
      assert !Held(s, a.i);
    }
  }

  // ----- it happens

  /** Nine refused polls more, and the one that decides nothing. */
  lemma {:induction false} PollsUnanswered(cfg: seq<Item>, states: seq<System>, acts: seq<Action>, tries: nat)
      returns (states': seq<System>, acts': seq<Action>)
    requires IsRun(cfg, states, acts) && states[|acts|].reader == Polling(tries) && tries < MAX_SEND_FAIL
    ensures IsRun(cfg, states', acts') && states <= states'
    ensures states'[|acts'|] == states[|acts|].(reader := Recovering(Thread(InitScript(cfg), Gate, [])))
    decreases MAX_SEND_FAIL - tries
  {
    var s := Next(cfg, states[|acts|], ReaderAct(false));
    RunGrows(cfg, states, acts, ReaderAct(false));
    states', acts' := states + [s], acts + [ReaderAct(false)];
    if tries + 1 < MAX_SEND_FAIL {
      states', acts' := PollsUnanswered(cfg, states', acts', tries + 1);
    }
  }

  /** A run from start-up to a stop: the reader opens its window, sender i issues a command,
      and the polls go unanswered. */
  lemma RunToStop(cfg: seq<Item>, s: System, i: nat, c: Command) returns (states: seq<System>, acts: seq<Action>)
    requires Initial(s) && i < |s.senders|
    ensures IsRun(cfg, states, acts) && states[0] == s
    ensures states[|acts|] == System(false, true, Recovering(Thread(InitScript(cfg), Gate, [])),
                                     s.senders[i := s.senders[i].(todo := [Item.Send(c)])])
  {
    states, acts := [s], [];
    RunGrows(cfg, states, acts, ReaderAct(false));
    states, acts := states + [Next(cfg, s, ReaderAct(false))], acts + [ReaderAct(false)];
    RunGrows(cfg, states, acts, ReaderAct(false));
    states, acts := states + [s.(recvBit := false, reader := Polling(0))], acts + [ReaderAct(false)];
    var issue := Issue(i, [Item.Send(c)]);
    RunGrows(cfg, states, acts, issue);
    states, acts := states + [Next(cfg, states[|acts|], issue)], acts + [issue];
    states, acts := PollsUnanswered(cfg, states, acts, 0);
  }

  /** From every start-up state and for every command: a run in which the command is issued,
      nothing can act any more, and in no continuation is it ever written. */
  lemma SendNeverPasses(cfg: seq<Item>, s: System, i: nat, c: Command) returns (states: seq<System>, acts: seq<Action>)
    requires Initial(s) && i < |s.senders|
    ensures IsRun(cfg, states, acts) && states[0] == s && !CanGoOn(states[|acts|])
    ensures i < |states[|acts|].senders| && states[|acts|].senders[i] == s.senders[i].(todo := [Item.Send(c)])
    ensures forall later: seq<System>, more: seq<Action> ::
              IsRun(cfg, later, more) && states <= later && |acts| <= |more| ==>
              i < |later[|more|].senders| && later[|more|].senders[i] == states[|acts|].senders[i]
  {
    states, acts := RunToStop(cfg, s, i, c);
    forall k: nat | k < |s.senders|
      ensures Held(states[|acts|], k)
    {
    }
    StopsIff(cfg, states, acts, |acts|);
    forall later: seq<System>, more: seq<Action> | IsRun(cfg, later, more) && states <= later && |acts| <= |more|
      ensures i < |later[|more|].senders| && later[|more|].senders[i] == states[|acts|].senders[i]
    {
      assert later[|acts|] == states[|acts|] && later[0] == s;
      ReaderRecoveryIsFinal(cfg, later, more, |acts|, |more|, i);
    }
  }
}
