/** `recv_status`: one flag for all tasks, cleared by every `sendCMD` as it begins, before it
    waits, and never by `readCMD`.  A write and the test that follows it are one action. */
module ModemStatus {
  import opened ModemThread
  import opened ModemSystem

  /** `entered` are the senders that have begun a command and wait at its gate. */
  datatype Shared = Shared(sys: System, status: bool, entered: set<nat>, readerEntered: bool)

  /** Whose write the modem answers, however late. */
  datatype Writer = Sender(i: nat) | Reader

  datatype Event = Enter(i: nat) | ReaderEnter | Answer(to: Writer) | Act(a: Action)

  /** Sender i has a command to begin or to wait with. */
  predicate AtGateOf(s: System, i: nat) {
    i < |s.senders| && WaitsAtGate(s.senders[i])
  }

  predicate PassesGate(s: System, a: Action) {
    a.SenderAct? && AtGateOf(s, a.i)
  }

  predicate Possible(s: Shared, e: Event) {
    match e
    case Enter(i) => AtGateOf(s.sys, i) && i !in s.entered
    case ReaderEnter => s.sys.reader.Recovering? && WaitsAtGate(s.sys.reader.init) && !s.readerEntered
    case Answer(_) => true
    case Act(a) =>
      && Enabled(s.sys, a)
      && (a.SenderAct? || a.ReaderAct? ==> a.ack == s.status)
      && (PassesGate(s.sys, a) ==> a.i in s.entered)
  }

  function After(cfg: seq<Item>, s: Shared, e: Event): Shared
    requires Possible(s, e)
  {
    match e
    case Enter(i) => s.(status := false, entered := s.entered + {i})
    case ReaderEnter => s.(status := false, readerEntered := true)
    case Answer(_) => s.(status := true)
    case Act(a) => s.(sys := Next(cfg, s.sys, a),
                      entered := if PassesGate(s.sys, a) then s.entered - {a.i} else s.entered)
  }

  ghost predicate IsHistory(cfg: seq<Item>, states: seq<Shared>, events: seq<Event>) {
    && |states| == |events| + 1
    && forall i {:trigger events[i]} :: 0 <= i < |events| ==>
         Possible(states[i], events[i]) && states[i + 1] == After(cfg, states[i], events[i])
  }

  predicate Clears(e: Event) {
    e.Enter? || e.ReaderEnter?
  }

  // ----- every history is a run of ModemSystem

  function Actions(events: seq<Event>): seq<Action> {
    if events == [] then []
    else
      var e := events[|events| - 1];
      Actions(events[..|events| - 1]) + (if e.Act? then [e.a] else [])
  }

  /** So all that holds of runs holds here: the answers are only chosen by the flag. */
  lemma {:induction false} HistoryIsRun(cfg: seq<Item>, states: seq<Shared>, events: seq<Event>, n: nat)
      returns (run: seq<System>)
    requires IsHistory(cfg, states, events) && n <= |events|
    ensures IsRun(cfg, run, Actions(events[..n])) && run[0] == states[0].sys && run[|run| - 1] == states[n].sys
  {
    if n == 0 {
      run := [states[0].sys];
    } else {
      run := HistoryIsRun(cfg, states, events, n - 1);
      assert states[n - 1 + 1] == After(cfg, states[n - 1], events[n - 1]);
      assert events[..n][..n - 1] == events[..n - 1];
      if events[n - 1].Act? {
        RunGrows(cfg, run, Actions(events[..n - 1]), events[n - 1].a);
        run := run + [Next(cfg, states[n - 1].sys, events[n - 1].a)];
      } else {
        assert Actions(events[..n - 1]) + [] == Actions(events[..n - 1]);
      }
    }
  }

  // ----- what the flag means

  /** An answer at moment j that nothing has cleared by moment n. */
  ghost predicate HeardAt(events: seq<Event>, j: nat, n: nat) {
    j < n <= |events| && events[j].Answer? && forall q {:trigger events[q]} :: j < q < n ==> !Clears(events[q])
  }

  ghost predicate NothingCleared(events: seq<Event>, n: nat) {
    n <= |events| && forall q {:trigger events[q]} :: 0 <= q < n ==> !Clears(events[q])
  }

  /** The flag is set exactly if an answer came, to whomever, that no `sendCMD` has cleared as
      it began; or if it was set at the start and none has begun. */
  lemma {:induction false} StatusMeaning(cfg: seq<Item>, states: seq<Shared>, events: seq<Event>, n: nat)
    requires IsHistory(cfg, states, events) && n <= |events|
    ensures states[n].status <==>
            (exists j: nat :: HeardAt(events, j, n)) || (states[0].status && NothingCleared(events, n))
  {
    if n > 0 {
      StatusMeaning(cfg, states, events, n - 1);
      var e := events[n - 1];
      assert states[n - 1 + 1] == After(cfg, states[n - 1], e);
      if e.Answer? {
        assert HeardAt(events, n - 1, n);
      } else if e.Act? {
        HeardLater(events, n - 1, n);
      }
    }
  }

  lemma HeardLater(events: seq<Event>, m: nat, n: nat)
    requires n == m + 1 <= |events| && events[m].Act?
    ensures (exists j: nat :: HeardAt(events, j, m)) <==> (exists j: nat :: HeardAt(events, j, n))
  {
    if j: nat :| HeardAt(events, j, m) {
      assert HeardAt(events, j, n);
    }
    if j: nat :| HeardAt(events, j, n) {
      assert HeardAt(events, j, m);
    }
  }

  // ----- whose answer a send takes

  /** Sender i began its command at moment e and has waited at its gate until moment g. */
  ghost predicate WaitedSince(events: seq<Event>, states: seq<Shared>, i: nat, e: nat, g: nat) {
    && e < g <= |events| && g < |states| && events[e] == Enter(i)
    && forall q :: e < q <= g ==> i in states[q].entered
  }

  lemma {:induction false} EnteredOnce(cfg: seq<Item>, states: seq<Shared>, events: seq<Event>, i: nat, g: nat)
      returns (e: nat)
    requires IsHistory(cfg, states, events) && g <= |events| && states[0].entered == {} && i in states[g].entered
    ensures WaitedSince(events, states, i, e, g)
  {
    assert states[g - 1 + 1] == After(cfg, states[g - 1], events[g - 1]);
    if i in states[g - 1].entered {
      e := EnteredOnce(cfg, states, events, i, g - 1);
    } else {
      e := g - 1;
    }
  }

  /** Sender i passes its gate at moment g. */
  predicate GatePassed(states: seq<Shared>, events: seq<Event>, i: nat, g: nat) {
    && g < |events| && |states| == |events| + 1
    && events[g].Act? && PassesGate(states[g].sys, events[g].a) && events[g].a.i == i
  }

  /** At every moment from then on the flag is set exactly if some answer, to whomever, came
      after the sender had cleared the flag and has not been cleared by the beginning of
      another command. */
  lemma AcknowledgedIff(cfg: seq<Item>, states: seq<Shared>, events: seq<Event>, i: nat, g: nat, n: nat)
      returns (e: nat)
    requires IsHistory(cfg, states, events) && states[0].entered == {}
    requires GatePassed(states, events, i, g) && g < n <= |events|
    ensures WaitedSince(events, states, i, e, g)
    ensures states[n].status <==> exists j: nat :: e < j < n && HeardAt(events, j, n)
  {
    assert Possible(states[g], events[g]);
    e := EnteredOnce(cfg, states, events, i, g);
    StatusMeaning(cfg, states, events, n);
    assert Clears(events[e]) && !events[e].Answer? && !NothingCleared(events, n);
    if j: nat :| HeardAt(events, j, n) {
      assert events[j].Answer?;
      assert e < j;
    }
  }

  /** None of the writes that sender i has made since it passed its gate is answered. */
  predicate OwnUnanswered(events: seq<Event>, i: nat, g: nat, n: nat) {
    g < n <= |events| && forall q {:trigger events[q]} :: g <= q < n ==> events[q] != Answer(Sender(i))
  }

  /** An answer that a sender takes for its own: it came while the sender waited at its gate,
      or it came in the sender's window and was meant for another write. */
  predicate Foreign(events: seq<Event>, i: nat, g: nat, j: nat) {
    j < |events| && events[j].Answer? && (j < g || events[j].to != Sender(i))
  }

  /** A send none of whose own writes has been answered is taken to be acknowledged exactly if
      a foreign answer came after it had cleared the flag, at its gate or in its window, and
      no command has begun since that answer. */
  lemma ForeignAnswerIff(cfg: seq<Item>, states: seq<Shared>, events: seq<Event>, i: nat, g: nat, n: nat)
      returns (e: nat)
    requires IsHistory(cfg, states, events) && states[0].entered == {}
    requires GatePassed(states, events, i, g) && OwnUnanswered(events, i, g, n)
    ensures WaitedSince(events, states, i, e, g)
    ensures states[n].status <==> exists j: nat :: e < j < n && HeardAt(events, j, n) && Foreign(events, i, g, j)
  {
    e := AcknowledgedIff(cfg, states, events, i, g, n);
    if j: nat :| e < j < n && HeardAt(events, j, n) {
      assert Foreign(events, i, g, j);
    }
  }

  // ----- two runs from start-up

  /** One event more, with the state that it leads to. */
  lemma Further(cfg: seq<Item>, states: seq<Shared>, events: seq<Event>, e: Event, s: Shared)
      returns (states': seq<Shared>, events': seq<Event>)
    requires IsHistory(cfg, states, events) && Possible(states[|events|], e) && s == After(cfg, states[|events|], e)
    ensures IsHistory(cfg, states', events') && states' == states + [s] && events' == events + [e]
  {
    states', events' := states + [s], events + [e];
    forall i | 0 <= i < |events'|
      ensures Possible(states'[i], events'[i]) && states'[i + 1] == After(cfg, states'[i], events'[i])
    {
      if i < |events| {
        assert events'[i] == events[i] && states'[i] == states[i] && states'[i + 1] == states[i + 1];
      }
    }
  }

  /** At the gate: the first command after start-up begins while the reader polls, and takes
      the answer to the poll for its own. */
  lemma PollAnswersSend(cfg: seq<Item>, s: Shared, c: Command) returns (states: seq<Shared>, events: seq<Event>)
    requires Initial(s.sys) && |s.sys.senders| == 1 && s.entered == {} && c.checked
    ensures IsHistory(cfg, states, events) && states[0] == s && |events| == 10
    ensures forall q :: 0 <= q < 10 ==> (events[q].Answer? <==> q == 4)
    ensures events[4] == Answer(Writer.Reader) && GatePassed(states, events, 0, 7)
    ensures events[9] == Act(SenderAct(0, true))
    ensures states[9].sys.senders[0].phase == Sending(0) && states[10].sys.senders[0].phase == Setting
  {
    var script := [Item.Send(c)];
    var act, t := Act(SenderAct(0, true)), s.sys.senders[0].(todo := script);
    var s4 := Shared(System(false, true, Polling(0), [t]), false, {0}, s.readerEntered);
    var s7 := Shared(System(true, true, AtGate, [t]), true, {0}, s.readerEntered);
    states, events := PollBegins(cfg, s, script, s4);
    states, events := PollEnds(cfg, states, events, s4, s7);
    var s8 := s7.(entered := {}, sys := System(true, true, AtGate, [t.(phase := Clearing)]));
    states, events := Further(cfg, states, events, act, s8);
    var s9 := s8.(sys := System(true, false, AtGate, [t.(phase := Sending(0))]));
    states, events := Further(cfg, states, events, act, s9);
    states, events := Further(cfg, states, events, act, After(cfg, s9, act));
  }

  lemma PollEnds(cfg: seq<Item>, states: seq<Shared>, events: seq<Event>, s4: Shared, s7: Shared)
      returns (states': seq<Shared>, events': seq<Event>)
    requires IsHistory(cfg, states, events) && states[|events|] == s4 && s4.sys.reader == Polling(0)
    requires s7 == s4.(status := true, sys := s4.sys.(reader := AtGate, recvBit := true))
    ensures IsHistory(cfg, states', events') && states'[0] == states[0] && states'[|events'|] == s7
    ensures events' == events + [Answer(Writer.Reader), Act(ReaderAct(true)), Act(ReaderAct(true))]
  {
    var wait, s5 := Act(ReaderAct(true)), s4.(status := true);
    states', events' := Further(cfg, states, events, Answer(Writer.Reader), s5);
    states', events' := Further(cfg, states', events', wait, s5.(sys := s5.sys.(reader := Opening)));
    states', events' := Further(cfg, states', events', wait, s7);
  }

  lemma PollBegins(cfg: seq<Item>, s: Shared, script: seq<Item>, s4: Shared)
      returns (states: seq<Shared>, events: seq<Event>)
    requires Initial(s.sys) && |s.sys.senders| == 1 && s.entered == {} && |script| == 1 && script[0].Send?
    requires s4 == Shared(System(false, true, Polling(0), [s.sys.senders[0].(todo := script)]),
                          false, {0}, s.readerEntered)
    ensures IsHistory(cfg, states, events) && |events| == 4 && states[0] == s && states[4] == s4
    ensures forall q :: 0 <= q < 4 ==> !events[q].Answer?
  {
    var poll := Act(ReaderAct(s.status));
    var s1 := s.(sys := System(true, true, Closing, s.sys.senders));
    states, events := Further(cfg, [s], [], poll, s1);
    var s2 := s.(sys := System(false, true, Polling(0), s.sys.senders));
    states, events := Further(cfg, states, events, poll, s2);
    var s3 := s.(sys := s4.sys);
    states, events := Further(cfg, states, events, Act(Issue(0, script)), s3);
    states, events := Further(cfg, states, events, Enter(0), s4);
  }

  /** In the window: of two senders that write at the same time, the one answered answers for
      both.  Nothing is answered while the other waits at its gate. */
  lemma OneAnswerForTwo(cfg: seq<Item>, s: Shared, c: Command) returns (states: seq<Shared>, events: seq<Event>)
    requires Initial(s.sys) && |s.sys.senders| == 2 && s.entered == {} && c.checked
    ensures IsHistory(cfg, states, events) && states[0] == s && |events| == 11
    ensures GatePassed(states, events, 0, 4) && OwnUnanswered(events, 0, 4, 10)
    ensures forall q :: 0 <= q < 4 ==> !events[q].Answer?
    ensures events[8] == Answer(Sender(1)) && events[10] == Act(SenderAct(0, true))
    ensures states[10].sys.senders[0].phase == Sending(0) && states[11].sys.senders[0].phase == Setting
  {
    var script := [Item.Send(c)];
    var a, b := s.sys.senders[0].(todo := script), s.sys.senders[1].(todo := script);
    var s4 := Shared(System(true, true, AtGate, [a, b]), false, {0, 1}, s.readerEntered);
    states, events := BothBegin(cfg, s, script, s4);
    states, events := BothPass(cfg, states, events, a, b, s4, script);
    states, events := BothAccepted(cfg, states, events, c);
  }

  lemma BothBegin(cfg: seq<Item>, s: Shared, script: seq<Item>, s4: Shared)
      returns (states: seq<Shared>, events: seq<Event>)
    requires Initial(s.sys) && |s.sys.senders| == 2 && s.entered == {} && |script| == 1 && script[0].Send?
    requires s4 == Shared(System(true, true, AtGate, [s.sys.senders[0].(todo := script),
                                                      s.sys.senders[1].(todo := script)]),
                          false, {0, 1}, s.readerEntered)
    ensures IsHistory(cfg, states, events) && |events| == 4 && states[0] == s && states[4] == s4
    ensures events == [Act(Issue(0, script)), Act(Issue(1, script)), Enter(0), Enter(1)]
  {
    var s1 := s.(sys := System(true, true, AtGate, [s.sys.senders[0].(todo := script), s.sys.senders[1]]));
    states, events := Further(cfg, [s], [], Act(Issue(0, script)), s1);
    states, events := Further(cfg, states, events, Act(Issue(1, script)), s.(sys := s4.sys));
    states, events := Further(cfg, states, events, Enter(0), s4.(entered := {0}));
    states, events := Further(cfg, states, events, Enter(1), s4);
  }

  lemma BothPass(cfg: seq<Item>, states: seq<Shared>, events: seq<Event>, a: Thread, b: Thread,
                 s4: Shared, script: seq<Item>)
      returns (states': seq<Shared>, events': seq<Event>)
    requires IsHistory(cfg, states, events) && |events| == 4 && states[4] == s4
    requires |script| == 1 && script[0].Send? && a == Thread(script, Gate, a.log) && b == Thread(script, Gate, b.log)
    requires s4 == Shared(System(true, true, AtGate, [a, b]), false, {0, 1}, s4.readerEntered)
    ensures IsHistory(cfg, states', events') && |events'| == 8 && states'[0] == states[0] && states'[4] == s4
    ensures events'[..4] == events && events'[4] == Act(SenderAct(0, false))
    ensures forall q :: 4 <= q < 8 ==> events'[q].Act?
    ensures states'[8] == Shared(System(true, false, AtGate, [a.(phase := Sending(0)), b.(phase := Sending(0))]),
                                 false, {}, s4.readerEntered)
  {
    var first, second := Act(SenderAct(0, false)), Act(SenderAct(1, false));
    var s5 := s4.(entered := {1}, sys := System(true, true, AtGate, [a.(phase := Clearing), b]));
    states', events' := Further(cfg, states, events, first, s5);
    var s6 := s5.(sys := System(true, false, AtGate, [a.(phase := Sending(0)), b]));
    states', events' := Further(cfg, states', events', first, s6);
    var s7 := s6.(entered := {}, sys := System(true, false, AtGate, [a.(phase := Sending(0)), b.(phase := Clearing)]));
    states', events' := Further(cfg, states', events', second, s7);
    var s8 := s7.(sys := System(true, false, AtGate, [a.(phase := Sending(0)), b.(phase := Sending(0))]));
    states', events' := Further(cfg, states', events', second, s8);
  }

  lemma BothAccepted(cfg: seq<Item>, states: seq<Shared>, events: seq<Event>, c: Command)
      returns (states': seq<Shared>, events': seq<Event>)
    requires IsHistory(cfg, states, events) && c.checked && !states[|events|].status
    requires var v := states[|events|].sys.senders;
             |v| == 2 && forall i :: 0 <= i < 2 ==> v[i].todo == [Item.Send(c)] && v[i].phase == Sending(0)
    ensures IsHistory(cfg, states', events') && states <= states'
    ensures events' == events + [Answer(Sender(1)), Act(SenderAct(1, true)), Act(SenderAct(0, true))]
    ensures var now, next := states'[|events| + 2].sys.senders, states'[|events| + 3].sys.senders;
            |now| == 2 && now[0].phase == Sending(0) && |next| == 2 && next[0].phase == Setting
  {
    var s := states[|events|].(status := true);
    states', events' := Further(cfg, states, events, Answer(Sender(1)), s);
    var s' := After(cfg, s, Act(SenderAct(1, true)));
    states', events' := Further(cfg, states', events', Act(SenderAct(1, true)), s');
    var last := Act(SenderAct(0, true));
    states', events' := Further(cfg, states', events', last, After(cfg, s', last));
  }

  /** The reader clears nothing: after an acknowledged write its polls count as answered until
      some command begins. */
  lemma {:induction false} PollsTakeTheFlag(cfg: seq<Item>, states: seq<Shared>, events: seq<Event>, m: nat, n: nat)
    requires IsHistory(cfg, states, events) && m <= n <= |events| && states[m].status
    requires forall q {:trigger events[q]} :: m <= q < n ==> !Clears(events[q])
    ensures states[n].status
    decreases n - m
  {
    if m < n {
      PollsTakeTheFlag(cfg, states, events, m, n - 1);
      assert states[n - 1 + 1] == After(cfg, states[n - 1], events[n - 1]);
    }
  }
}
