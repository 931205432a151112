/** Resets by what is written on the wire, the text ATZ and a newline, and failed commands by
    the answers alone: every tenth attempt in a row that comes after nine refusals. */
module ModemResets {
  import opened ModemThread
  import opened ModemRecovery
  import opened ModemBudget

  predicate IsReset(w: Write) {
    w.text == "ATZ\n"
  }

  function Resets(log: seq<Write>): nat {
    if log == [] then 0
    else Resets(log[..|log| - 1]) + (if IsReset(log[|log| - 1]) then 1 else 0)
  }

  /** The writes after the last reset; all of them if there is none. */
  function AfterLastReset(log: seq<Write>): seq<Write> {
    if log == [] || IsReset(log[|log| - 1]) then []
    else AfterLastReset(log[..|log| - 1]) + [log[|log| - 1]]
  }

  /** Refused attempts of the command that is being written. */
  function Refused(log: seq<Write>): nat {
    if log == [] then 0
    else
      var n, w := Refused(log[..|log| - 1]), log[|log| - 1];
      if !w.checked || w.acked || n == 9 then 0 else n + 1
  }

  /** Commands that have failed: tenth attempts, whether or not they were answered. */
  function Failures(log: seq<Write>): nat {
    if log == [] then 0
    else
      var before := log[..|log| - 1];
      Failures(before) + (if log[|log| - 1].checked && Refused(before) == 9 then 1 else 0)
  }

  /** The only reset among the commands is the one whose answer is not awaited. */
  predicate TextsFit(items: seq<Item>) {
    forall k :: 0 <= k < |items| && items[k].Send? ==> (items[k].cmd.text == "ATZ\n" <==> !items[k].cmd.checked)
  }

  predicate LogFits(log: seq<Write>) {
    forall k :: 0 <= k < |log| ==> (IsReset(log[k]) <==> !log[k].checked)
  }

  function ResetsIn(items: seq<Item>): nat {
    if items == [] then 0
    else (if items[0].Send? && items[0].cmd.text == "ATZ\n" then 1 else 0) + ResetsIn(items[1..])
  }

  lemma {:induction false} ResetsInAppend(a: seq<Item>, b: seq<Item>)
    ensures ResetsIn(a + b) == ResetsIn(a) + ResetsIn(b)
  {
    if a == [] {
      assert a + b == b;
    } else {
      assert (a + b)[1..] == a[1..] + b;
      ResetsInAppend(a[1..], b);
    }
  }

  lemma {:induction false} NoResetsIn(items: seq<Item>)
    requires forall k :: 0 <= k < |items| ==> items[k].Send? && items[k].cmd.text != "ATZ\n"
    ensures ResetsIn(items) == 0
  {
    if items != [] {
      NoResetsIn(items[1..]);
    }
  }

  /** None of the sixteen commands is a reset. */
  lemma ConfigHasNoReset(p: Profile, cfg: seq<Item>)
    requires ConfigOf(p, cfg)
    ensures forall k :: 0 <= k < 16 ==> cfg[k].Send? && cfg[k].cmd.text != "ATZ\n"
  {
    forall k | 0 <= k < 16
      ensures cfg[k].cmd.text != "ATZ\n"
    {
      assert cfg[k].cmd.text[2] != 'Z';
    }
  }

  /** The script of `lora_init` has one reset, its second command. */
  lemma InitHasOneReset(p: Profile, cfg: seq<Item>)
    requires ConfigOf(p, cfg)
    ensures ResetsIn(InitScript(cfg)) == 1 && TextsFit(InitScript(cfg))
    ensures InitScript(cfg)[1] == Send(Command("ATZ\n", false))
  {
    ConfigHasNoReset(p, cfg);
    NoResetsIn(cfg);
    var script := InitScript(cfg);
    assert script[1..] == [script[1]] + cfg && script[1..][1..] == cfg;
    assert forall k :: 2 <= k < 18 ==> script[k] == cfg[k - 2];
    assert "AT\n"[2] != "ATZ\n"[2];
  }

  // ----- the invariant

  /** The account of resets since position `base`, for a task that was asked for `asked`. */
  ghost predicate ResetInv(t: Thread, base: nat, asked: nat) {
    && base <= |t.log|
    && PhaseOk(t)
    && TextsFit(t.todo)
    && LogFits(t.log[base..])
    && Refused(t.log[base..]) == Tries(t)
    && Resets(t.log[base..]) + ResetsIn(Remaining(t)) == asked + Failures(t.log[base..])
  }

  lemma LogMore(log: seq<Write>, w: Write)
    ensures Resets(log + [w]) == Resets(log) + (if IsReset(w) then 1 else 0)
    ensures Refused(log + [w]) == if !w.checked || w.acked || Refused(log) == 9 then 0 else Refused(log) + 1
    ensures Failures(log + [w]) == Failures(log) + (if w.checked && Refused(log) == 9 then 1 else 0)
  {
    assert (log + [w])[..|log|] == log;
  }

  lemma FailureResets(p: Profile, cfg: seq<Item>, c: Command, rest: seq<Item>)
    requires ConfigOf(p, cfg) && TextsFit([Send(c)] + rest)
    ensures var items := InitScript(cfg) + [Send(c), Finish] + rest;
            TextsFit(items) && ResetsIn(items) == 1 + ResetsIn([Send(c)] + rest)
  {
    InitHasOneReset(p, cfg);
    var script, own, before := InitScript(cfg), [Send(c), Finish], [Send(c)] + rest;
    ResetsInAppend(script + own, rest);
    ResetsInAppend(script, own);
    ResetsInAppend([Send(c)], rest);
    assert own[1..] == [Finish] && [Finish][1..] == [] && [Send(c)][1..] == [];
    assert ResetsIn([Finish]) == 0;
    assert before[0] == Send(c);
    assert forall k :: 1 <= k < |before| ==> before[k] == rest[k - 1];
  }

  /** What an action other than a write does. */
  lemma QuietStepResets(cfg: seq<Item>, t: Thread, ack: bool)
    requires t.todo != [] && PhaseOk(t) && !t.phase.Sending? && TextsFit(t.todo)
    ensures var t' := Step(cfg, t, ack);
            && PhaseOk(t') && TextsFit(t'.todo) && t'.log == t.log && Tries(t') == 0
            && ResetsIn(Remaining(t')) == ResetsIn(Remaining(t))
  {
  }

  /** What a write does to the work list. */
  lemma WriteStepResets(p: Profile, cfg: seq<Item>, t: Thread, ack: bool)
    requires ConfigOf(p, cfg) && t.todo != [] && PhaseOk(t) && t.phase.Sending? && TextsFit(t.todo)
    ensures var t', c := Step(cfg, t, ack), t.todo[0].cmd;
            && PhaseOk(t') && TextsFit(t'.todo) && t'.log == t.log + [Write(c.text, c.checked, ack)]
            && Tries(t') == (if !c.checked || ack || t.phase.tries == 9 then 0 else t.phase.tries + 1)
            && ResetsIn(Remaining(t')) == ResetsIn(t.todo) +
               (if c.checked && t.phase.tries == 9 then 1 else if c.checked then 0 else -1)
  {
    var c := t.todo[0].cmd;
    assert t.todo == [Send(c)] + t.todo[1..];
    FailureResets(p, cfg, c, t.todo[1..]);
  }

  lemma FitsMore(log: seq<Write>, w: Write)
    requires LogFits(log) && (IsReset(w) <==> !w.checked)
    ensures LogFits(log + [w])
  {
  }

  lemma WriteKeepsResets(p: Profile, cfg: seq<Item>, t: Thread, ack: bool, base: nat, asked: nat)
    requires ConfigOf(p, cfg) && t.todo != [] && t.phase.Sending? && ResetInv(t, base, asked)
    ensures ResetInv(Step(cfg, t, ack), base, asked)
  {
    var c, t', log := t.todo[0].cmd, Step(cfg, t, ack), t.log[base..];
    var w := Write(c.text, c.checked, ack);
    WriteStepResets(p, cfg, t, ack);
    LogMore(log, w);
    FitsMore(log, w);
    assert t'.log[base..] == log + [w];
    assert Remaining(t) == t.todo;
  }

  lemma StepKeepsResetInv(p: Profile, cfg: seq<Item>, t: Thread, ack: bool, base: nat, asked: nat)
    requires ConfigOf(p, cfg) && t.todo != [] && ResetInv(t, base, asked)
    ensures ResetInv(Step(cfg, t, ack), base, asked)
  {
    if t.phase.Sending? {
      WriteKeepsResets(p, cfg, t, ack, base, asked);
    } else {
      QuietStepResets(cfg, t, ack);
    }
  }

  lemma {:induction false} IterateKeepsResetInv(p: Profile, cfg: seq<Item>, t: Thread, ack: nat -> bool, k: nat,
                                                base: nat, asked: nat)
    requires ConfigOf(p, cfg) && ResetInv(t, base, asked)
    ensures ResetInv(Iterate(cfg, t, ack, k), base, asked)
    decreases k
  {
    if k != 0 && t.todo != [] {
      StepKeepsResetInv(p, cfg, t, ack(|t.log|), base, asked);
      IterateKeepsResetInv(p, cfg, Step(cfg, t, ack(|t.log|)), ack, k - 1, base, asked);
    }
  }

  lemma ScriptFits(p: Profile, cfg: seq<Item>, script: seq<Item>, goal: Command)
    requires ConfigOf(p, cfg) && IsCall(cfg, script, goal) && goal.text != "ATZ\n"
    ensures TextsFit(script)
    ensures ResetsIn(script) == if script == InitScript(cfg) then 1 else 0
  {
    InitHasOneReset(p, cfg);
    if script == [Send(goal)] {
      assert script[1..] == [];
    }
  }

  // ----- by text and by flag

  lemma {:induction false} SameResets(log: seq<Write>)
    requires LogFits(log)
    ensures AfterLastReset(log) == SinceReset(log)
    ensures Resets(log) > 0 <==> HasReset(log)
  {
    if log != [] {
      var n := |log| - 1;
      SameResets(log[..n]);
      SinceResetAppend(log[..n], log[n]);
      assert log == log[..n] + [log[n]];
    }
  }

  /** The writes of a call: resets and failed commands are paired, and after the last reset
      come the blocks of acknowledged commands, the configuration first. */
  ghost predicate ResetsAnswerFailures(cfg: seq<Item>, log: seq<Write>, asked: nat, done: seq<Served>) {
    && Resets(log) == asked + Failures(log)
    && AfterLastReset(log) == Blocks(done)
    && (forall s <- done :: s.cmd.checked && s.fails < 9)
    && (Resets(log) > 0 ==> Commands(cfg) <= ServedCommands(done))
  }

  /** For every pattern of answers and every call whose own command is not the reset: when
      it returns, the text ATZ has been written once for each command that failed, and once
      more by `lora_init`; and after the last such write come the sixteen configuration
      commands, acknowledged and in order, before anything else. */
  lemma ResetsComplete(p: Profile, cfg: seq<Item>, script: seq<Item>, ack: nat -> bool,
                       log0: seq<Write>, log1: seq<Write>, goal: Command) returns (done: seq<Served>)
    requires ConfigOf(p, cfg) && IsCall(cfg, script, goal) && goal.text != "ATZ\n"
    requires Reaches(cfg, ack, Thread(script, Gate, log0), Thread([], Gate, log1))
    ensures log0 <= log1
    ensures ResetsAnswerFailures(cfg, log1[|log0|..], if script == InitScript(cfg) then 1 else 0, done)
  {
    var start := Thread(script, Gate, log0);
    RecoveryComplete(cfg, script, ack, log0, log1, goal);
    var k: nat :| Iterate(cfg, start, ack, k) == Thread([], Gate, log1);
    ScriptFits(p, cfg, script, goal);
    assert log0[|log0|..] == [];
    IterateKeepsResetInv(p, cfg, start, ack, k, |log0|, ResetsIn(script));
    var log := log1[|log0|..];
    SameResets(log);
    done :| CompletesWith(cfg, log, done, goal);
  }

  /** At every moment of such a call: no more resets than failed commands and the one that
      was asked for, and at most the work that is left behind. */
  lemma ResetsSoFar(p: Profile, cfg: seq<Item>, script: seq<Item>, ack: nat -> bool, log0: seq<Write>, k: nat,
                    goal: Command)
    requires ConfigOf(p, cfg) && IsCall(cfg, script, goal) && goal.text != "ATZ\n"
    ensures var log, asked := Iterate(cfg, Thread(script, Gate, log0), ack, k).log,
                              if script == InitScript(cfg) then 1 else 0;
            log0 <= log && Resets(log[|log0|..]) <= asked + Failures(log[|log0|..])
  {
    var start := Thread(script, Gate, log0);
    IterateExtendsLog(cfg, start, ack, k);
    ScriptFits(p, cfg, script, goal);
    assert log0[|log0|..] == [];
    IterateKeepsResetInv(p, cfg, start, ack, k, |log0|, ResetsIn(script));
  }
}
