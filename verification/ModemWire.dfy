/** The one UART that all tasks write to, and what the modem has been told. */
module ModemWire {
  import opened ModemThread
  import opened ModemRecovery
  import opened ModemBudget
  import opened ModemResets
  import opened ModemSystem

  /** A write on the wire; polls are by no sender. */
  datatype Sent = BySender(i: nat, write: Write) | Poll(acked: bool)

  /** What the next action of a thread writes. */
  function Written(t: Thread, ack: bool): seq<Write> {
    if t.todo != [] && t.todo[0].Send? && t.phase.Sending? then
      [Write(t.todo[0].cmd.text, t.todo[0].cmd.checked, ack)]
    else []
  }

  lemma StepWrites(cfg: seq<Item>, t: Thread, ack: bool)
    requires t.todo != []
    ensures Step(cfg, t, ack).log == t.log + Written(t, ack)
  {
    if Written(t, ack) == [] {
      assert t.log + [] == t.log;
    }
  }

  function SentBy(s: System, a: Action): seq<Sent> {
    match a
    case Issue(_, _) => []
    case SenderAct(i, ack) =>
      if i < |s.senders| && Written(s.senders[i], ack) != [] then [BySender(i, Written(s.senders[i], ack)[0])] else []
    case ReaderAct(ack) => if s.reader.Polling? then [Poll(ack)] else []
  }

  /** The wire after n actions. */
  function WireOf(states: seq<System>, acts: seq<Action>, n: nat): seq<Sent>
    requires n <= |acts| && n <= |states|
  {
    if n == 0 then [] else WireOf(states, acts, n - 1) + SentBy(states[n - 1], acts[n - 1])
  }

  /** What sender i wrote. */
  function WritesOf(wire: seq<Sent>, i: nat): seq<Write> {
    if wire == [] then []
    else
      var w := wire[|wire| - 1];
      WritesOf(wire[..|wire| - 1], i) + (if w.BySender? && w.i == i then [w.write] else [])
  }

  lemma WritesOfMore(wire: seq<Sent>, w: Sent, i: nat)
    ensures WritesOf(wire + [w], i) == WritesOf(wire, i) + (if w.BySender? && w.i == i then [w.write] else [])
  {
    assert (wire + [w])[..|wire|] == wire;
  }

  /** Each thread's log is its share of the wire. */
  lemma {:induction false} LogIsShare(cfg: seq<Item>, states: seq<System>, acts: seq<Action>, n: nat, i: nat)
    requires IsRun(cfg, states, acts) && n <= |acts| && i < |states[0].senders|
    ensures |states[n].senders| == |states[0].senders|
    ensures states[n].senders[i].log == states[0].senders[i].log + WritesOf(WireOf(states, acts, n), i)
  {
    if n == 0 {
      assert states[0].senders[i].log + [] == states[0].senders[i].log;
    } else {
      LogIsShare(cfg, states, acts, n - 1, i);
      var s, a := states[n - 1], acts[n - 1];
      assert states[n - 1 + 1] == Next(cfg, s, a);
      ShareStep(cfg, s, a, WireOf(states, acts, n - 1), states[0].senders[i].log, i);
    }
  }

  lemma WritesOfOne(w: Sent, i: nat)
    ensures WritesOf([w], i) == if w.BySender? && w.i == i then [w.write] else []
  {
    WritesOfMore([], w, i);
    assert [] + [w] == [w];
  }

  lemma OthersWrite(s: System, a: Action, i: nat)
    requires !(a.SenderAct? && a.i == i)
    ensures WritesOf(SentBy(s, a), i) == []
  {
    if SentBy(s, a) != [] {
      WritesOfOne(SentBy(s, a)[0], i);
    }
  }

  lemma OwnWrites(s: System, i: nat, ack: bool)
    requires i < |s.senders|
    ensures WritesOf(SentBy(s, SenderAct(i, ack)), i) == Written(s.senders[i], ack)
  {
    var w := Written(s.senders[i], ack);
    if w != [] {
      WritesOfOne(BySender(i, w[0]), i);
    }
  }

  lemma OthersKeepThread(cfg: seq<Item>, s: System, a: Action, i: nat)
    requires Enabled(s, a) && i < |s.senders| && !(a.SenderAct? && a.i == i)
    ensures |Next(cfg, s, a).senders| == |s.senders| && Next(cfg, s, a).senders[i].log == s.senders[i].log
  {
  }

  /** An action adds to the log of thread i what it sends for it. */
  lemma LogStep(cfg: seq<Item>, s: System, a: Action, i: nat)
    requires Enabled(s, a) && i < |s.senders|
    ensures |Next(cfg, s, a).senders| == |s.senders|
    ensures Next(cfg, s, a).senders[i].log == s.senders[i].log + WritesOf(SentBy(s, a), i)
  {
    if a.SenderAct? && a.i == i {
      StepWrites(cfg, s.senders[i], a.ack);
      OwnWrites(s, i, a.ack);
    } else {
      OthersKeepThread(cfg, s, a, i);
      OthersWrite(s, a, i);
      assert s.senders[i].log + [] == s.senders[i].log;
    }
  }

  lemma ShareStep(cfg: seq<Item>, s: System, a: Action, wire: seq<Sent>, log0: seq<Write>, i: nat)
    requires Enabled(s, a) && i < |s.senders| && s.senders[i].log == log0 + WritesOf(wire, i)
    ensures Next(cfg, s, a).senders[i].log == log0 + WritesOf(wire + SentBy(s, a), i)
  {
    LogStep(cfg, s, a, i);
    WritesOfConcat(wire, SentBy(s, a), i);
  }

  // ----- one sender, over all its calls

  /** Every call that a run issues is one of the source's. */
  ghost predicate IssuesCalls(cfg: seq<Item>, acts: seq<Action>) {
    forall j {:trigger acts[j]} :: 0 <= j < |acts| && acts[j].Issue? ==>
      exists goal :: IsCall(cfg, acts[j].script, goal)
  }

  /** The writes since start-up, whatever calls they belong to: nothing yet, or a call that
      has returned, or one under way. */
  ghost predicate Always(cfg: seq<Item>, t: Thread, base: nat) {
    && base <= |t.log|
    && ((t.todo == [] && t.phase == Gate && |t.log| == base) ||
        exists done, goal :: RecoveryInv(cfg, t, base, done, goal))
  }

  /** A further call begins where the last one ended. */
  lemma NextCallStarts(cfg: seq<Item>, t: Thread, base: nat, script: seq<Item>, goal: Command)
    requires IsConfig(cfg) && IsCall(cfg, script, goal) && Always(cfg, t, base) && t.todo == [] && t.phase == Gate
    ensures Always(cfg, t.(todo := script), base)
  {
    var t' := t.(todo := script);
    CallStarts(cfg, script, t.log, goal);
    assert t' == Thread(script, Gate, t.log);
    if |t.log| == base {
      assert RecoveryInv(cfg, t', base, [], goal);
    } else {
      var done, last :| RecoveryInv(cfg, t, base, done, last);
      ContinueCall(cfg, t, t', base, done, last, goal);
      assert RecoveryInv(cfg, t', base, done, goal);
    }
  }

  /** What was served stays served when new commands are added. */
  lemma CleanGoesOn(cmds: seq<Command>, log: seq<Write>, done: seq<Served>, last: Command,
                    rem: seq<Command>, goal: Command)
    requires Clean(cmds, log, done, [], [], last) && EndsWith(rem, goal)
    ensures Clean(cmds, log, done, [], rem, goal)
  {
    var served := ServedCommands(done);
    assert served + [] == served;
    assert served <= served + rem;
    assert (served + rem)[|served + rem| - 1] == rem[|rem| - 1];
  }

  lemma ContinueCall(cfg: seq<Item>, t: Thread, t': Thread, base: nat, done: seq<Served>, last: Command, goal: Command)
    requires RecoveryInv(cfg, t, base, done, last) && t.todo == [] && t.phase == Gate
    requires PhaseOk(t') && ResetsConfigured(cfg, t'.todo) && EndsWith(Commands(t'.todo), goal)
    requires t'.phase == Gate && t'.log == t.log
    ensures RecoveryInv(cfg, t', base, done, goal)
  {
    assert Remaining(t') == t'.todo;
    CleanGoesOn(Commands(cfg), t.log[base..], done, last, Commands(t'.todo), goal);
  }

  lemma {:induction false} SenderAlways(cfg: seq<Item>, states: seq<System>, acts: seq<Action>, n: nat, i: nat)
    requires IsRun(cfg, states, acts) && Initial(states[0]) && n <= |acts| && i < |states[0].senders|
    requires IsConfig(cfg) && IssuesCalls(cfg, acts)
    ensures i < |states[n].senders| && Always(cfg, states[n].senders[i], |states[0].senders[i].log|)
  {
    if n > 0 {
      SenderAlways(cfg, states, acts, n - 1, i);
      var s, a := states[n - 1], acts[n - 1];
      assert states[n - 1 + 1] == Next(cfg, s, a);
      assert a.Issue? ==> exists goal :: IsCall(cfg, a.script, goal);
      AlwaysStep(cfg, s, a, i, |states[0].senders[i].log|);
    }
  }

  lemma AlwaysStep(cfg: seq<Item>, s: System, a: Action, i: nat, base: nat)
    requires IsConfig(cfg) && Enabled(s, a) && i < |s.senders| && Always(cfg, s.senders[i], base)
    requires a.Issue? ==> exists goal :: IsCall(cfg, a.script, goal)
    ensures Always(cfg, Next(cfg, s, a).senders[i], base)
  {
    var t := s.senders[i];
    if a.Issue? && a.i == i {
      var goal :| IsCall(cfg, a.script, goal);
      NextCallStarts(cfg, t, base, a.script, goal);
    } else if a.SenderAct? && a.i == i {
      var done, goal :| RecoveryInv(cfg, t, base, done, goal);
      var done' := StepKeepsRecovery(cfg, t, a.ack, base, done, goal);
    }
  }

  // ----- the last reset on the wire

  /** Position w of the wire is a reset by sender i, and no other reset follows. */
  ghost predicate LastReset(wire: seq<Sent>, w: nat, i: nat) {
    && w < |wire| && wire[w].BySender? && wire[w].i == i && !wire[w].write.checked
    && forall k :: w < k < |wire| && wire[k].BySender? ==> wire[k].write.checked
  }

  lemma {:induction false} WritesOfConcat(a: seq<Sent>, b: seq<Sent>, i: nat)
    ensures WritesOf(a + b, i) == WritesOf(a, i) + WritesOf(b, i)
    decreases |b|
  {
    if b == [] {
      assert a + b == a;
    } else {
      var n := |b| - 1;
      assert a + b == (a + b[..n]) + [b[n]] && b == b[..n] + [b[n]];
      WritesOfConcat(a, b[..n], i);
      WritesOfMore(a + b[..n], b[n], i);
      WritesOfMore(b[..n], b[n], i);
    }
  }

  lemma {:induction false} ShareIsChecked(wire: seq<Sent>, i: nat)
    requires forall k :: 0 <= k < |wire| && wire[k].BySender? ==> wire[k].write.checked
    ensures forall k :: 0 <= k < |WritesOf(wire, i)| ==> WritesOf(wire, i)[k].checked
  {
    if wire != [] {
      ShareIsChecked(wire[..|wire| - 1], i);
    }
  }

  lemma {:induction false} SinceResetOf(a: seq<Write>, r: Write, b: seq<Write>)
    requires !r.checked && forall k :: 0 <= k < |b| ==> b[k].checked
    ensures HasReset(a + [r] + b) && SinceReset(a + [r] + b) == b
    decreases |b|
  {
    if b == [] {
      assert a + [r] + b == a + [r];
      SinceResetAppend(a, r);
    } else {
      var n := |b| - 1;
      SinceResetOf(a, r, b[..n]);
      assert a + [r] + b == (a + [r] + b[..n]) + [b[n]];
      assert b == b[..n] + [b[n]];
      SinceResetAppend(a + [r] + b[..n], b[n]);
    }
  }

  /** What sender i wrote after that reset is what its log holds since its last one. */
  lemma ShareSinceReset(wire: seq<Sent>, w: nat, i: nat)
    requires LastReset(wire, w, i)
    ensures HasReset(WritesOf(wire, i)) && SinceReset(WritesOf(wire, i)) == WritesOf(wire[w + 1..], i)
  {
    var before, after := wire[..w], wire[w + 1..];
    assert wire == (before + [wire[w]]) + after;
    WritesOfConcat(before + [wire[w]], after, i);
    WritesOfMore(before, wire[w], i);
    ShareIsChecked(after, i);
    SinceResetOf(WritesOf(before, i), wire[w].write, WritesOf(after, i));
  }

  /** In every interleaving of the source's calls: whenever the sender that last reset the
      modem is idle, what it wrote since then are blocks of acknowledged commands that begin
      with the sixteen configuration commands in order, whoever wrote in between. */
  lemma ModemIsConfigured(cfg: seq<Item>, states: seq<System>, acts: seq<Action>, n: nat, w: nat, i: nat)
      returns (done: seq<Served>)
    requires IsRun(cfg, states, acts) && Initial(states[0]) && n <= |acts| && i < |states[0].senders|
    requires IsConfig(cfg) && IssuesCalls(cfg, acts)
    requires LastReset(WireOf(states, acts, n), w, i)
    requires i < |states[n].senders| && states[n].senders[i].todo == []
    ensures (forall s <- done :: s.cmd.checked && s.fails < MAX_SEND_FAIL - 1)
    ensures WritesOf(WireOf(states, acts, n)[w + 1..], i) == Blocks(done) && Commands(cfg) <= ServedCommands(done)
  {
    var wire, base := WireOf(states, acts, n), |states[0].senders[i].log|;
    LogIsShare(cfg, states, acts, n, i);
    SenderAlways(cfg, states, acts, n, i);
    ShareSinceReset(wire, w, i);
    var t := states[n].senders[i];
    assert t.log[base..] == WritesOf(wire, i);
    var done', goal :| RecoveryInv(cfg, t, base, done', goal);
    InvariantCompletes(cfg, t, base, done', goal);
    done := done';
  }

  // ----- how much one sender writes, over all its calls

  /** All commands that sender i has been asked to send in the first n actions. */
  function Issued(acts: seq<Action>, n: nat, i: nat): seq<Item>
    requires n <= |acts|
  {
    if n == 0 then []
    else Issued(acts, n - 1, i) + (if acts[n - 1].Issue? && acts[n - 1].i == i then acts[n - 1].script else [])
  }

  lemma {:induction false} CountSends(items: seq<Item>)
    requires forall k :: 0 <= k < |items| ==> items[k].Send?
    ensures CountCommands(items, true) + CountCommands(items, false) == |items|
  {
    if items != [] {
      CountSends(items[1..]);
    }
  }

  /** A further call adds its commands to the account. */
  lemma IssueKeepsBudget(t: Thread, base: nat, issued: seq<Item>, script: seq<Item>, recoveries: nat, late: nat)
    requires t.todo == [] && t.phase == Gate && BudgetInv(t, base, issued, recoveries, late)
    ensures BudgetInv(t.(todo := script), base, issued + script, recoveries, late)
  {
    CountAppend(issued, script, true);
    CountAppend(issued, script, false);
  }

  lemma ActKeepsBudget(cfg: seq<Item>, s: System, a: Action, i: nat, base: nat, issued: seq<Item>,
                       recoveries: nat, late: nat)
      returns (recoveries': nat, late': nat)
    requires IsConfig(cfg) && Enabled(s, a) && i < |s.senders|
    requires BudgetInv(s.senders[i], base, issued, recoveries, late)
    ensures i < |Next(cfg, s, a).senders|
    ensures BudgetInv(Next(cfg, s, a).senders[i], base,
                      issued + (if a.Issue? && a.i == i then a.script else []), recoveries', late')
  {
    recoveries', late' := recoveries, late;
    assert issued + [] == issued;
    if a.Issue? && a.i == i {
      IssueKeepsBudget(s.senders[i], base, issued, a.script, recoveries, late);
    } else if a.SenderAct? && a.i == i {
      recoveries', late' := StepKeepsBudget(cfg, s.senders[i], a.ack, base, issued, recoveries, late);
    }
  }

  lemma {:induction false} SenderBudget(cfg: seq<Item>, states: seq<System>, acts: seq<Action>, n: nat, i: nat)
      returns (recoveries: nat, late: nat)
    requires IsRun(cfg, states, acts) && Initial(states[0]) && n <= |acts| && i < |states[0].senders| && IsConfig(cfg)
    ensures i < |states[n].senders|
    ensures BudgetInv(states[n].senders[i], |states[0].senders[i].log|, Issued(acts, n, i), recoveries, late)
  {
    if n == 0 {
      var t := states[0].senders[i];
      assert t.log[|t.log|..] == [];
      recoveries, late := 0, 0;
    } else {
      recoveries, late := SenderBudget(cfg, states, acts, n - 1, i);
      var s, a := states[n - 1], acts[n - 1];
      assert states[n - 1 + 1] == Next(cfg, s, a);
      recoveries, late :=
        ActKeepsBudget(cfg, s, a, i, |states[0].senders[i].log|, Issued(acts, n - 1, i), recoveries, late);
    }
  }

  lemma {:induction false} IssuedAreSends(cfg: seq<Item>, states: seq<System>, acts: seq<Action>, n: nat, i: nat)
    requires IsRun(cfg, states, acts) && n <= |acts|
    ensures forall k :: 0 <= k < |Issued(acts, n, i)| ==> Issued(acts, n, i)[k].Send?
  {
    if n > 0 {
      IssuedAreSends(cfg, states, acts, n - 1, i);
      assert Enabled(states[n - 1], acts[n - 1]);
    }
  }

  /** In every interleaving, at every moment and over all calls: U refused writes of a sender
      allow it at most as many writes as commands were issued to it, plus U + 19 * (U / 9). */
  lemma WireBudget(cfg: seq<Item>, states: seq<System>, acts: seq<Action>, n: nat, i: nat)
    requires IsRun(cfg, states, acts) && Initial(states[0]) && n <= |acts| && i < |states[0].senders| && IsConfig(cfg)
    ensures var writes := WritesOf(WireOf(states, acts, n), i);
            var u := TallyOf(writes).refused;
            |writes| <= |Issued(acts, n, i)| + u + 19 * (u / 9)
  {
    var recoveries, late := SenderBudget(cfg, states, acts, n, i);
    LogIsShare(cfg, states, acts, n, i);
    var writes, base := WritesOf(WireOf(states, acts, n), i), |states[0].senders[i].log|;
    assert states[n].senders[i].log[base..] == writes;
    IssuedAreSends(cfg, states, acts, n, i);
    CountSends(Issued(acts, n, i));
    TallyTotal(writes);
    var tally := TallyOf(writes);
    Affordable(|Issued(acts, n, i)|, tally.refused, tally.acked, tally.resets, recoveries, late);
  }

  // ----- resets on the wire, by their text

  /** Every call that a run issues is one of the source's, and none is for the reset itself. */
  ghost predicate IssuesOtherTexts(cfg: seq<Item>, acts: seq<Action>) {
    forall j {:trigger acts[j]} :: 0 <= j < |acts| && acts[j].Issue? ==> IsOtherCall(cfg, acts[j].script)
  }

  ghost predicate IsOtherCall(cfg: seq<Item>, script: seq<Item>) {
    exists goal :: IsCall(cfg, script, goal) && goal.text != "ATZ\n"
  }

  lemma IssueKeepsResets(p: Profile, cfg: seq<Item>, t: Thread, base: nat, issued: seq<Item>, script: seq<Item>)
    requires ConfigOf(p, cfg) && t.todo == [] && t.phase == Gate && ResetInv(t, base, ResetsIn(issued))
    requires IsOtherCall(cfg, script)
    ensures ResetInv(t.(todo := script), base, ResetsIn(issued + script))
  {
    var goal :| IsCall(cfg, script, goal) && goal.text != "ATZ\n";
    ScriptFits(p, cfg, script, goal);
    ResetsInAppend(issued, script);
  }

  lemma ActKeepsResets(p: Profile, cfg: seq<Item>, s: System, a: Action, i: nat, base: nat, issued: seq<Item>)
    requires ConfigOf(p, cfg) && Enabled(s, a) && i < |s.senders| && ResetInv(s.senders[i], base, ResetsIn(issued))
    requires a.Issue? ==> IsOtherCall(cfg, a.script)
    ensures i < |Next(cfg, s, a).senders|
    ensures ResetInv(Next(cfg, s, a).senders[i], base,
                     ResetsIn(issued + (if a.Issue? && a.i == i then a.script else [])))
  {
    assert issued + [] == issued;
    if a.Issue? && a.i == i {
      IssueKeepsResets(p, cfg, s.senders[i], base, issued, a.script);
    } else if a.SenderAct? && a.i == i {
      StepKeepsResetInv(p, cfg, s.senders[i], a.ack, base, ResetsIn(issued));
    }
  }

  lemma {:induction false} SenderResets(p: Profile, cfg: seq<Item>, states: seq<System>, acts: seq<Action>,
                                        n: nat, i: nat)
    requires IsRun(cfg, states, acts) && Initial(states[0]) && n <= |acts| && i < |states[0].senders|
    requires ConfigOf(p, cfg) && IssuesOtherTexts(cfg, acts)
    ensures i < |states[n].senders|
    ensures ResetInv(states[n].senders[i], |states[0].senders[i].log|, ResetsIn(Issued(acts, n, i)))
  {
    if n == 0 {
      var t := states[0].senders[i];
      assert t.log[|t.log|..] == [];
    } else {
      SenderResets(p, cfg, states, acts, n - 1, i);
      var s, a := states[n - 1], acts[n - 1];
      assert states[n - 1 + 1] == Next(cfg, s, a);
      ActKeepsResets(p, cfg, s, a, i, |states[0].senders[i].log|, Issued(acts, n - 1, i));
    }
  }

  /** In every interleaving and over all calls: an idle sender has written the reset once for
      each `lora_init` that was asked of it and once for each command of its that failed. */
  lemma WireResets(p: Profile, cfg: seq<Item>, states: seq<System>, acts: seq<Action>, n: nat, i: nat)
    requires IsRun(cfg, states, acts) && Initial(states[0]) && n <= |acts| && i < |states[0].senders|
    requires ConfigOf(p, cfg) && IssuesOtherTexts(cfg, acts)
    requires i < |states[n].senders| && states[n].senders[i].todo == []
    ensures var writes := WritesOf(WireOf(states, acts, n), i);
            Resets(writes) == ResetsIn(Issued(acts, n, i)) + Failures(writes)
  {
    SenderResets(p, cfg, states, acts, n, i);
    LogIsShare(cfg, states, acts, n, i);
    assert states[n].senders[i].log[|states[0].senders[i].log|..] == WritesOf(WireOf(states, acts, n), i);
  }

  /** A reset on the wire is just the write whose answer its sender does not await. */
  predicate WireFits(wire: seq<Sent>) {
    forall k :: 0 <= k < |wire| && wire[k].BySender? ==> (IsReset(wire[k].write) <==> !wire[k].write.checked)
  }

  /** What an action sends is a reset exactly if its answer is not awaited. */
  lemma ActFits(s: System, a: Action)
    requires a.SenderAct? && a.i < |s.senders| ==> TextsFit(s.senders[a.i].todo)
    ensures WireFits(SentBy(s, a))
  {
  }

  lemma SenderFits(p: Profile, cfg: seq<Item>, states: seq<System>, acts: seq<Action>, n: nat, i: nat)
    requires IsRun(cfg, states, acts) && Initial(states[0]) && n <= |acts| && i < |states[0].senders|
    requires ConfigOf(p, cfg) && IssuesOtherTexts(cfg, acts)
    ensures i < |states[n].senders| && TextsFit(states[n].senders[i].todo)
  {
    SenderResets(p, cfg, states, acts, n, i);
  }

  lemma FitsTogether(a: seq<Sent>, b: seq<Sent>)
    requires WireFits(a) && WireFits(b)
    ensures WireFits(a + b)
  {
  }

  lemma {:induction false} WireAlwaysFits(p: Profile, cfg: seq<Item>, states: seq<System>, acts: seq<Action>, n: nat)
    requires IsRun(cfg, states, acts) && Initial(states[0]) && n <= |acts|
    requires ConfigOf(p, cfg) && IssuesOtherTexts(cfg, acts)
    ensures |states[n].senders| == |states[0].senders| && WireFits(WireOf(states, acts, n))
  {
    if n > 0 {
      WireAlwaysFits(p, cfg, states, acts, n - 1);
      var s, a := states[n - 1], acts[n - 1];
      assert states[n - 1 + 1] == Next(cfg, s, a);
      if a.SenderAct? {
        SenderFits(p, cfg, states, acts, n - 1, a.i);
      }
      ActFits(s, a);
      FitsTogether(WireOf(states, acts, n - 1), SentBy(s, a));
    }
  }

  /** Position w of the wire is the text of a reset, by sender i, and no other follows. */
  ghost predicate LastResetText(wire: seq<Sent>, w: nat, i: nat) {
    && w < |wire| && wire[w].BySender? && wire[w].i == i && wire[w].write.text == "ATZ\n"
    && forall k :: w < k < |wire| && wire[k].BySender? ==> wire[k].write.text != "ATZ\n"
  }

  /** The same of the wire as it is: whenever the sender that last wrote ATZ is idle, what it
      wrote since then begins with the sixteen configuration commands, acknowledged and in
      order. */
  lemma ConfiguredAfterReset(p: Profile, cfg: seq<Item>, states: seq<System>, acts: seq<Action>,
                             n: nat, w: nat, i: nat) returns (done: seq<Served>)
    requires IsRun(cfg, states, acts) && Initial(states[0]) && n <= |acts| && i < |states[0].senders|
    requires ConfigOf(p, cfg) && IssuesOtherTexts(cfg, acts)
    requires LastResetText(WireOf(states, acts, n), w, i)
    requires i < |states[n].senders| && states[n].senders[i].todo == []
    ensures (forall s <- done :: s.cmd.checked && s.fails < MAX_SEND_FAIL - 1)
    ensures WritesOf(WireOf(states, acts, n)[w + 1..], i) == Blocks(done) && Commands(cfg) <= ServedCommands(done)
  {
    WireAlwaysFits(p, cfg, states, acts, n);
    done := ModemIsConfigured(cfg, states, acts, n, w, i);
  }
}
