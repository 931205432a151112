/** When the write window of a sender and the window of the polling task overlap. */
module ModemOverlap {
  import opened ModemThread
  import opened ModemRecovery
  import opened ModemSystem

  /** Between a sender's clear of SEND_BIT and its set. */
  predicate SenderWindow(t: Thread) {
    t.phase.Sending? || t.phase.Setting?
  }

  predicate InWindow(s: System, k: nat) {
    k < |s.senders| && SenderWindow(s.senders[k])
  }

  /** Sender k and the reader have both passed their waits. */
  predicate PastGates(s: System, k: nat) {
    k < |s.senders| && s.senders[k].phase != Gate && s.reader != AtGate
  }

  predicate Overlap(s: System, k: nat) {
    InWindow(s, k) && ReaderWindow(s.reader)
  }

  /** Both have passed their wait and neither has performed its clear. */
  predicate Race(s: System, k: nat) {
    k < |s.senders| && s.senders[k].phase.Clearing? && s.reader.Closing?
  }

  /** The action of a sender that sets SEND_BIT: the end of a command or of an outer call. */
  predicate SetsSendBit(t: Thread) {
    t.todo != [] && (t.todo[0].Finish? || t.phase.Setting?)
  }

  /** What holds of every thread in every interleaving. */
  predicate AtWork(t: Thread) {
    t.phase != Gate ==> t.todo != [] && t.todo[0].Send?
  }

  ghost predicate AllAtWork(s: System) {
    forall i :: 0 <= i < |s.senders| ==> AtWork(s.senders[i])
  }

  lemma {:induction false} RunKeepsSenders(cfg: seq<Item>, states: seq<System>, acts: seq<Action>, n: nat)
    requires IsRun(cfg, states, acts) && Initial(states[0]) && n <= |acts|
    ensures |states[n].senders| == |states[0].senders| && AllAtWork(states[n])
  {
    if n > 0 {
      RunKeepsSenders(cfg, states, acts, n - 1);
      assert states[n - 1 + 1] == Next(cfg, states[n - 1], acts[n - 1]);
    }
  }

  // ----- one sender

  /** SEND_BIT is clear in the sender's window, and outside it only during a recovery. */
  ghost predicate OneSenderBits(s: System)
    requires |s.senders| == 1
  {
    var t := s.senders[0];
    && (SenderWindow(t) ==> !s.sendBit)
    && (Finish !in t.todo ==> (s.sendBit <==> !SenderWindow(t)))
  }

  lemma FailureMarks(cfg: seq<Item>, t: Thread, ack: bool)
    requires t.todo != [] && t.todo[0].Send? && t.phase.Sending? && t.phase.tries + 1 >= MAX_SEND_FAIL
    ensures Finish in Step(cfg, t, ack).todo
  {
    assert Step(cfg, t, ack).todo[|InitScript(cfg)| + 1] == Finish;
  }

  lemma ActKeepsOneSenderBits(cfg: seq<Item>, s: System, a: Action)
    requires |s.senders| == 1 && OneSenderBits(s) && AllAtWork(s)
    requires (s.recvBit <==> !ReaderWindow(s.reader)) && (s.reader.Recovering? ==> Stuck(cfg, s.reader))
    requires Enabled(s, a)
    ensures OneSenderBits(Next(cfg, s, a))
  {
    var t := s.senders[0];
    match a
    case Issue(_, _) =>
    case ReaderAct(_) =>
    case SenderAct(_, ack) =>
      if t.phase.Sending? && t.phase.tries + 1 >= MAX_SEND_FAIL {
        FailureMarks(cfg, t, ack);
      } else {
        assert t.todo == [t.todo[0]] + t.todo[1..];
      }
  }

  lemma {:induction false} OneSenderBitsHold(cfg: seq<Item>, states: seq<System>, acts: seq<Action>, n: nat)
    requires IsRun(cfg, states, acts) && Initial(states[0]) && |states[0].senders| == 1 && n <= |acts|
    ensures |states[n].senders| == 1 && OneSenderBits(states[n])
  {
    RunKeepsSenders(cfg, states, acts, n);
    if n > 0 {
      OneSenderBitsHold(cfg, states, acts, n - 1);
      RunKeepsSenders(cfg, states, acts, n - 1);
      RecvBitIsReaderWindow(cfg, states, acts, n - 1);
      assert states[n - 1 + 1] == Next(cfg, states[n - 1], acts[n - 1]);
      ActKeepsOneSenderBits(cfg, states[n - 1], acts[n - 1]);
    }
  }

  // ----- any number of senders

  /** Action p set SEND_BIT for another sender, and sender k has been in its window from
      then until moment i. */
  ghost predicate SetByAnother(states: seq<System>, acts: seq<Action>, k: nat, p: nat, i: nat) {
    && p < i < |states| && i <= |acts|
    && acts[p].SenderAct? && acts[p].i != k && acts[p].i < |states[p].senders|
    && SetsSendBit(states[p].senders[acts[p].i])
    && forall q :: p <= q <= i ==> InWindow(states[q], k)
  }

  /** One action back from a moment at which SEND_BIT is set in the window of sender k. */
  lemma WindowStep(cfg: seq<Item>, s: System, a: Action, k: nat)
    requires Enabled(s, a) && AllAtWork(s) && InWindow(Next(cfg, s, a), k) && Next(cfg, s, a).sendBit
    requires s.reader.Recovering? ==> Stuck(cfg, s.reader) && !s.recvBit
    ensures InWindow(s, k)
    ensures s.sendBit || (a.SenderAct? && a.i != k && SetsSendBit(s.senders[a.i]))
  {
  }

  /** SEND_BIT is set in the window of a sender only because another sender set it there. */
  lemma {:induction false} SendBitInWindow(cfg: seq<Item>, states: seq<System>, acts: seq<Action>, n: nat, k: nat)
      returns (p: nat)
    requires IsRun(cfg, states, acts) && Initial(states[0]) && n <= |acts|
    requires InWindow(states[n], k) && states[n].sendBit
    ensures SetByAnother(states, acts, k, p, n)
    decreases n
  {
    RunKeepsSenders(cfg, states, acts, n - 1);
    RecvBitIsReaderWindow(cfg, states, acts, n - 1);
    var s, a := states[n - 1], acts[n - 1];
    assert states[n - 1 + 1] == Next(cfg, s, a);
    WindowStep(cfg, s, a, k);
    if s.sendBit {
      p := SendBitInWindow(cfg, states, acts, n - 1, k);
    } else {
      p := n - 1;
    }
  }

  /** The beginning of an overlap: a race, or a reader that has just been let through by
      another sender while sender k was in its window. */
  ghost predicate OverlapBegins(states: seq<System>, acts: seq<Action>, k: nat, i: nat) {
    && i < |states|
    && (Race(states[i], k) ||
        (states[i].reader.Closing? && exists p :: SetByAnother(states, acts, k, p, i)))
  }

  /** Any number of senders, recovering or not: whenever sender k and the reader are both
      past their gates, they have been so without a break since a moment of one of two
      kinds. */
  lemma {:induction false} OverlapHasCause(cfg: seq<Item>, states: seq<System>, acts: seq<Action>, n: nat, k: nat)
      returns (i: nat)
    requires IsRun(cfg, states, acts) && Initial(states[0]) && n <= |acts|
    requires PastGates(states[n], k)
    ensures 0 < i <= n && OverlapBegins(states, acts, k, i) && !PastGates(states[i - 1], k)
    ensures forall j :: i <= j <= n ==> PastGates(states[j], k)
    ensures Overlap(states[n], k) ==> i < n
    decreases n
  {
    var s, a := states[n - 1], acts[n - 1];
    assert states[n - 1 + 1] == Next(cfg, s, a);
    RunKeepsSenders(cfg, states, acts, n - 1);
    RecvBitIsReaderWindow(cfg, states, acts, n - 1);
    if PastGates(s, k) {
      i := OverlapHasCause(cfg, states, acts, n - 1, k);
    } else {
      i := n;
      if InWindow(states[n], k) {
        var p := SendBitInWindow(cfg, states, acts, n, k);
      }
    }
  }

  /** Conversely, from both kinds of moment the overlap needs no more than the clears that
      the two tasks are about to perform. */
  lemma CauseLeadsToOverlap(cfg: seq<Item>, states: seq<System>, acts: seq<Action>, i: nat, k: nat)
      returns (path: seq<Action>, after: seq<System>)
    requires IsRun(cfg, states, acts) && Initial(states[0]) && i <= |acts| && OverlapBegins(states, acts, k, i)
    ensures |path| <= 2 && IsRun(cfg, after, path) && after[0] == states[i] && Overlap(after[|path|], k)
    ensures forall a <- path :: a.ReaderAct? || (a.SenderAct? && a.i == k)
  {
    var s := states[i];
    RunKeepsSenders(cfg, states, acts, i);
    if Race(s, k) {
      var s1 := Next(cfg, s, SenderAct(k, false));
      path, after := [SenderAct(k, false), ReaderAct(false)], [s, s1, Next(cfg, s1, ReaderAct(false))];
    } else {
      path, after := [ReaderAct(false)], [s, Next(cfg, s, ReaderAct(false))];
    }
  }

  /** With a single sender only the race is left. */
  lemma OverlapNeedsRace(cfg: seq<Item>, states: seq<System>, acts: seq<Action>, n: nat) returns (i: nat)
    requires IsRun(cfg, states, acts) && Initial(states[0]) && |states[0].senders| == 1 && n <= |acts|
    requires PastGates(states[n], 0)
    ensures 0 < i <= n && Race(states[i], 0) && !PastGates(states[i - 1], 0)
    ensures forall j :: i <= j <= n ==> PastGates(states[j], 0)
    ensures Overlap(states[n], 0) ==> i < n
  {
    i := OverlapHasCause(cfg, states, acts, n, 0);
    if !Race(states[i], 0) {
      var p :| SetByAnother(states, acts, 0, p, i);
      RunKeepsSenders(cfg, states, acts, p);
      assert false;
    }
  }

  /** The bits alone do not exclude the two windows: any command issued after start-up
      can meet a read in the same interval. */
  lemma OverlapIsReachable(cfg: seq<Item>, s: System, c: Command) returns (states: seq<System>, acts: seq<Action>)
    requires Initial(s) && |s.senders| == 1
    ensures IsRun(cfg, states, acts) && states[0] == s && |acts| == 5
    ensures Overlap(states[5], 0)
  {
    var script := [Item.Send(c)];
    var s1 := Next(cfg, s, Issue(0, script));
    var s2 := Next(cfg, s1, SenderAct(0, false));
    var s3 := Next(cfg, s2, ReaderAct(false));
    var s4 := Next(cfg, s3, SenderAct(0, false));
    var s5 := Next(cfg, s4, ReaderAct(false));
    states := [s, s1, s2, s3, s4, s5];
    acts := [Issue(0, script), SenderAct(0, false), ReaderAct(false), SenderAct(0, false), ReaderAct(false)];
  }

  /** With a second sender the race is not even needed: the sender that finishes first
      sets SEND_BIT while the other is still in its window. */
  lemma TwoSendersOverlapWithoutRace(cfg: seq<Item>, s: System, c: Command)
      returns (states: seq<System>, acts: seq<Action>)
    requires Initial(s) && |s.senders| == 2
    ensures IsRun(cfg, states, acts) && states[0] == s && |acts| == 10
    ensures Overlap(states[10], 0)
    ensures forall j, i :: 0 <= j <= 10 && 0 <= i < 2 ==> !Race(states[j], i)
  {
    var script := [Item.Send(c)];
    var s1 := Next(cfg, s, Issue(0, script));
    var s2 := Next(cfg, s1, Issue(1, script));
    var s3 := Next(cfg, s2, SenderAct(0, false));
    var s4 := Next(cfg, s3, SenderAct(0, false));
    var s5 := Next(cfg, s4, SenderAct(1, false));
    var s6 := Next(cfg, s5, SenderAct(1, false));
    var s7 := Next(cfg, s6, SenderAct(1, true));
    var s8 := Next(cfg, s7, SenderAct(1, false));
    var s9 := Next(cfg, s8, ReaderAct(false));
    var s10 := Next(cfg, s9, ReaderAct(false));
    states := [s, s1, s2, s3, s4, s5, s6, s7, s8, s9, s10];
    acts := [Issue(0, script), Issue(1, script), SenderAct(0, false), SenderAct(0, false), SenderAct(1, false),
             SenderAct(1, false), SenderAct(1, true), SenderAct(1, false), ReaderAct(false), ReaderAct(false)];
  }
}
