/** What every step of a modem task keeps: recovery is complete, and the number
    of writes is paid for by unacknowledged ones. */
module ModemRecovery {
  import opened ModemThread

  /** A command that was acknowledged after `fails` unacknowledged attempts. */
  datatype Served = Served(cmd: Command, fails: nat)

  function Refusals(c: Command, n: nat): seq<Write> {
    seq(n, _ => Write(c.text, true, false))
  }

  function Block(s: Served): seq<Write> {
    Refusals(s.cmd, s.fails) + [Write(s.cmd.text, true, true)]
  }

  function Blocks(done: seq<Served>): seq<Write> {
    if done == [] then [] else Blocks(done[..|done| - 1]) + Block(done[|done| - 1])
  }

  function Commands(items: seq<Item>): seq<Command> {
    if items == [] then []
    else if items[0].Finish? then Commands(items[1..])
    else [items[0].cmd] + Commands(items[1..])
  }

  function ServedCommands(done: seq<Served>): seq<Command> {
    seq(|done|, i requires 0 <= i < |done| => done[i].cmd)
  }

  /** True if the log holds a write whose answer is not awaited.  The source makes no such write
      but the reset; ModemResets goes by the text of the reset instead. */
  predicate HasReset(log: seq<Write>) {
    exists i :: 0 <= i < |log| && !log[i].checked
  }

  /** The writes after the last reset. */
  function SinceReset(log: seq<Write>): seq<Write> {
    if log == [] || !log[|log| - 1].checked then []
    else SinceReset(log[..|log| - 1]) + [log[|log| - 1]]
  }

  /** Work that has not yet been answered. */
  function Remaining(t: Thread): seq<Item> {
    if t.phase.Setting? && t.todo != [] then t.todo[1..] else t.todo
  }

  /** A reset in the work list is always followed by the whole configuration. */
  ghost predicate ResetsConfigured(cfg: seq<Item>, items: seq<Item>) {
    forall k :: 0 <= k < |items| && items[k].Send? && !items[k].cmd.checked ==>
      items[k] == Send(ATZ) && k + 16 < |items| && items[k + 1..k + 17] == cfg
  }

  ghost predicate EndsWith(cmds: seq<Command>, goal: Command) {
    cmds != [] && cmds[|cmds| - 1] == goal
  }

  ghost predicate ResetPending(items: seq<Item>) {
    || (items != [] && items[0] == Send(ATZ))
    || (|items| >= 2 && items[0] == Send(AT) && items[1] == Send(ATZ))
  }

  ghost predicate PhaseOk(t: Thread) {
    && (t.phase != Gate ==> t.todo != [] && t.todo[0].Send?)
    && (t.phase.Sending? ==> t.phase.tries < MAX_SEND_FAIL && (t.phase.tries > 0 ==> t.todo[0].cmd.checked))
  }

  /** Unanswered writes of the command at the head of the work list. */
  function Unanswered(t: Thread): seq<Write> {
    if t.phase.Sending? && t.todo != [] && t.todo[0].Send? then Refusals(t.todo[0].cmd, t.phase.tries) else []
  }

  /** No command has failed since the last reset: the log is made of the blocks of
      `done`, and what was served and what remains together start with the
      configuration `cmds`. */
  ghost predicate Clean(cmds: seq<Command>, log: seq<Write>, done: seq<Served>, partial: seq<Write>,
                        remaining: seq<Command>, goal: Command) {
    && (forall s <- done :: s.cmd.checked && s.fails < MAX_SEND_FAIL - 1)
    && SinceReset(log) == Blocks(done) + partial
    && (HasReset(log) ==> cmds <= ServedCommands(done) + remaining)
    && EndsWith(ServedCommands(done) + remaining, goal)
  }

  /** A command has failed and the reset that answers it is still to be written. */
  ghost predicate Dirty(t: Thread, goal: Command) {
    ResetPending(Remaining(t)) && EndsWith(Commands(Remaining(t)), goal)
  }

  ghost predicate CleanThread(cfg: seq<Item>, t: Thread, base: nat, done: seq<Served>, goal: Command)
    requires base <= |t.log|
  {
    Clean(Commands(cfg), t.log[base..], done, Unanswered(t), Commands(Remaining(t)), goal)
  }

  /** The invariant, over the writes made since position `base` of the log. */
  ghost predicate RecoveryInv(cfg: seq<Item>, t: Thread, base: nat, done: seq<Served>, goal: Command) {
    && base <= |t.log|
    && PhaseOk(t)
    && ResetsConfigured(cfg, t.todo)
    && (CleanThread(cfg, t, base, done, goal) || Dirty(t, goal))
  }

  lemma {:induction false} CommandsAppend(a: seq<Item>, b: seq<Item>)
    ensures Commands(a + b) == Commands(a) + Commands(b)
  {
    if a == [] {
      assert a + b == b;
    } else {
      assert (a + b)[1..] == a[1..] + b;
      CommandsAppend(a[1..], b);
    }
  }

  lemma SinceResetAppend(log: seq<Write>, w: Write)
    ensures SinceReset(log + [w]) == if w.checked then SinceReset(log) + [w] else []
    ensures HasReset(log + [w]) == (HasReset(log) || !w.checked)
  {
    var both := log + [w];
    assert both[..|log|] == log;
    assert both[|log|] == w;
    if HasReset(log) {
      var i :| 0 <= i < |log| && !log[i].checked;
      assert both[i] == log[i];
    }
    if HasReset(both) && w.checked {
      var i :| 0 <= i < |both| && !both[i].checked;
      assert log[i] == both[i];
    }
  }

  lemma BlocksAppend(done: seq<Served>, s: Served)
    ensures Blocks(done + [s]) == Blocks(done) + Block(s)
    ensures ServedCommands(done + [s]) == ServedCommands(done) + [s.cmd]
  {
    assert (done + [s])[..|done|] == done;
  }

  lemma SliceOfTail<T>(s: seq<T>, i: nat, j: nat)
    requires i <= j && j + 1 <= |s|
    ensures s[1..][i..j] == s[i + 1..j + 1]
  {
  }

  lemma FailureKeepsResets(cfg: seq<Item>, c: Command, rest: seq<Item>)
    requires IsConfig(cfg) && c.checked && ResetsConfigured(cfg, [Send(c)] + rest)
    ensures ResetsConfigured(cfg, InitScript(cfg) + [Send(c), Finish] + rest)
  {
    var items := InitScript(cfg) + [Send(c), Finish] + rest;
    var before := [Send(c)] + rest;
    forall k | 0 <= k < |items| && items[k].Send? && !items[k].cmd.checked
      ensures items[k] == Send(ATZ) && k + 16 < |items| && items[k + 1..k + 17] == cfg
    {
      if k < 20 {
        assert forall m :: 2 <= m < 18 ==> items[m] == cfg[m - 2];
        assert k == 1;
        assert items[2..18] == cfg;
      } else {
        assert items[k] == before[k - 19];
        assert items[k + 1..k + 17] == before[k - 18..k - 2];
      }
    }
  }

  lemma TailKeepsResets(cfg: seq<Item>, items: seq<Item>)
    requires items != [] && ResetsConfigured(cfg, items)
    ensures ResetsConfigured(cfg, items[1..])
  {
    var rest := items[1..];
    forall k | 0 <= k < |rest| && rest[k].Send? && !rest[k].cmd.checked
      ensures rest[k] == Send(ATZ) && k + 16 < |rest| && rest[k + 1..k + 17] == cfg
    {
      var m := k + 1;
      assert items[m] == rest[k];
      assert items[m + 1..m + 17] == cfg;
      SliceOfTail(items, k + 1, k + 17);
    }
  }

  lemma {:induction false} AllSendsCommands(items: seq<Item>)
    requires forall k :: 0 <= k < |items| ==> items[k].Send?
    ensures |Commands(items)| == |items|
  {
    if items != [] {
      AllSendsCommands(items[1..]);
    }
  }

  lemma ServedSplit(done: seq<Served>, c: Command, rem: seq<Command>, fails: nat)
    ensures ServedCommands(done + [Served(c, fails)]) + rem == ServedCommands(done) + ([c] + rem)
  {
    BlocksAppend(done, Served(c, fails));
  }

  lemma CleanAck(cmds: seq<Command>, log: seq<Write>, done: seq<Served>, c: Command, n: nat,
                 rem: seq<Command>, goal: Command)
    requires c.checked && n < MAX_SEND_FAIL - 1
    requires Clean(cmds, log, done, Refusals(c, n), [c] + rem, goal)
    ensures Clean(cmds, log + [Write(c.text, true, true)], done + [Served(c, n)], [], rem, goal)
  {
    var w, last := Write(c.text, true, true), Served(c, n);
    SinceResetAppend(log, w);
    BlocksAppend(done, last);
    ServedSplit(done, c, rem, n);
    assert SinceReset(log + [w]) == Blocks(done) + Refusals(c, n) + [w];
    assert Blocks(done) + Refusals(c, n) + [w] == Blocks(done) + Block(last);
    assert Blocks(done + [last]) + [] == Blocks(done + [last]);
  }

  lemma CleanRefuse(cmds: seq<Command>, log: seq<Write>, done: seq<Served>, c: Command, n: nat,
                    rem: seq<Command>, goal: Command)
    requires Clean(cmds, log, done, Refusals(c, n), rem, goal)
    ensures Clean(cmds, log + [Write(c.text, true, false)], done, Refusals(c, n + 1), rem, goal)
  {
    var w := Write(c.text, true, false);
    SinceResetAppend(log, w);
    assert Refusals(c, n + 1) == Refusals(c, n) + [w];
  }

  lemma CleanReset(cmds: seq<Command>, log: seq<Write>, w: Write, rem: seq<Command>, goal: Command)
    requires !w.checked && cmds <= rem && EndsWith(rem, goal)
    ensures Clean(cmds, log + [w], [], [], rem, goal)
  {
    SinceResetAppend(log, w);
    assert ServedCommands([]) + rem == rem;
  }

  /** The configuration leads what follows a reset. */
  lemma AfterReset(cfg: seq<Item>, rest: seq<Item>)
    requires IsConfig(cfg) && ResetsConfigured(cfg, [Send(ATZ)] + rest)
    ensures Commands(cfg) <= Commands(rest)
  {
    var items := [Send(ATZ)] + rest;
    assert items[0] == Send(ATZ);
    assert rest[..16] == items[1..17] == cfg;
    assert rest == cfg + rest[16..];
    CommandsAppend(cfg, rest[16..]);
  }

  lemma StepKeepsResets(cfg: seq<Item>, t: Thread, ack: bool)
    requires IsConfig(cfg) && t.todo != [] && PhaseOk(t) && ResetsConfigured(cfg, t.todo)
    ensures ResetsConfigured(cfg, Step(cfg, t, ack).todo)
  {
    TailKeepsResets(cfg, t.todo);
    if t.todo[0].Send? && t.phase.Sending? && t.phase.tries + 1 >= MAX_SEND_FAIL {
      assert t.todo == [t.todo[0]] + t.todo[1..];
      FailureKeepsResets(cfg, t.todo[0].cmd, t.todo[1..]);
    }
  }

  /** A step that writes nothing leaves the answered and the pending work alone. */
  lemma QuietStep(cfg: seq<Item>, t: Thread, ack: bool)
    requires t.todo != [] && PhaseOk(t) && !t.phase.Sending?
    ensures var t' := Step(cfg, t, ack);
            t'.log == t.log && Unanswered(t') == Unanswered(t) == [] &&
            Commands(Remaining(t')) == Commands(Remaining(t)) &&
            (ResetPending(Remaining(t)) ==> ResetPending(Remaining(t')))
  {
  }

  /** Every step keeps the invariant, whatever answer the write gets. */
  lemma StepKeepsRecovery(cfg: seq<Item>, t: Thread, ack: bool, base: nat, done: seq<Served>, goal: Command)
      returns (done': seq<Served>)
    requires IsConfig(cfg) && t.todo != [] && RecoveryInv(cfg, t, base, done, goal)
    ensures RecoveryInv(cfg, Step(cfg, t, ack), base, done', goal)
  {
    done' := done;
    StepKeepsResets(cfg, t, ack);
    if t.phase.Sending? {
      done' := WriteKeepsRecovery(cfg, t, ack, base, done, goal);
    } else {
      QuietStep(cfg, t, ack);
    }
  }

  lemma WriteKeepsRecovery(cfg: seq<Item>, t: Thread, ack: bool, base: nat, done: seq<Served>, goal: Command)
      returns (done': seq<Served>)
    requires IsConfig(cfg) && t.todo != [] && t.phase.Sending? && RecoveryInv(cfg, t, base, done, goal)
    ensures var t' := Step(cfg, t, ack);
            PhaseOk(t') && base <= |t'.log| && (CleanThread(cfg, t', base, done', goal) || Dirty(t', goal))
  {
    var t', c, n, rest := Step(cfg, t, ack), t.todo[0].cmd, t.phase.tries, t.todo[1..];
    var log, rem := t.log[base..], Commands(rest);
    assert t'.log[base..] == log + [Write(c.text, c.checked, ack)];
    assert t.todo == [Send(c)] + rest;
    assert Commands(t.todo) == [c] + rem;
    done' := done;
    if !c.checked {
      done' := [];
      AfterReset(cfg, rest);
      AllSendsCommands(cfg);
      GoalAfterHead(t.todo, c, rest, done, goal);
      CleanReset(Commands(cfg), log, Write(c.text, false, ack), rem, goal);
    } else if n + 1 >= MAX_SEND_FAIL {
      FailureKeepsGoal(cfg, t.todo, c, rest, done, goal);
    } else if CleanThread(cfg, t, base, done, goal) {
      if ack {
        done' := done + [Served(c, n)];
        CleanAck(Commands(cfg), log, done, c, n, rem, goal);
      } else {
        CleanRefuse(Commands(cfg), log, done, c, n, [c] + rem, goal);
      }
    } else {
      DirtyWrite(cfg, t, ack, goal);
    }
  }

  lemma DirtyWrite(cfg: seq<Item>, t: Thread, ack: bool, goal: Command)
    requires t.todo != [] && t.phase.Sending? && t.phase.tries + 1 < MAX_SEND_FAIL && PhaseOk(t) && Dirty(t, goal)
    requires t.todo[0].cmd.checked
    ensures Dirty(Step(cfg, t, ack), goal)
  {
    var t' := Step(cfg, t, ack);
    assert t.todo[0] == Send(AT) && t.todo[1] == Send(ATZ);
    assert Commands(t.todo) == [AT] + Commands(t.todo[1..]);
    assert Commands(t.todo[1..]) == [ATZ] + Commands(t.todo[2..]) by {
      assert t.todo[1..][1..] == t.todo[2..];
    }
  }

  /** The goal lies beyond a reset that stands at the head. */
  lemma GoalAfterHead(todo: seq<Item>, c: Command, rest: seq<Item>, done: seq<Served>, goal: Command)
    requires todo == [Send(c)] + rest && Commands(rest) != []
    requires EndsWith(Commands(todo), goal) || EndsWith(ServedCommands(done) + Commands(todo), goal)
    ensures EndsWith(Commands(rest), goal)
  {
    var rem := Commands(rest);
    assert Commands(todo) == [c] + rem;
    var all := ServedCommands(done) + Commands(todo);
    assert all[|all| - 1] == rem[|rem| - 1];
  }

  lemma FailureKeepsGoal(cfg: seq<Item>, todo: seq<Item>, c: Command, rest: seq<Item>, done: seq<Served>, goal: Command)
    requires todo == [Send(c)] + rest
    requires EndsWith(Commands(todo), goal) || EndsWith(ServedCommands(done) + Commands(todo), goal)
    ensures EndsWith(Commands(InitScript(cfg) + [Send(c), Finish] + rest), goal)
  {
    var rem := Commands(rest);
    assert Commands(todo) == [c] + rem;
    CommandsAppend(InitScript(cfg) + [Send(c), Finish], rest);
    CommandsAppend(InitScript(cfg), [Send(c), Finish]);
    assert [Send(c), Finish][1..] == [Finish];
    assert Commands([Finish]) == [];
    assert Commands([Send(c), Finish]) == [c];
    var all := ServedCommands(done) + Commands(todo);
    assert all[|all| - 1] == Commands(todo)[|Commands(todo)| - 1];
  }

  lemma IterateKeepsRecovery(cfg: seq<Item>, t: Thread, ack: nat -> bool, k: nat, base: nat, done: seq<Served>,
                             goal: Command) returns (done': seq<Served>)
    requires IsConfig(cfg) && RecoveryInv(cfg, t, base, done, goal)
    ensures RecoveryInv(cfg, Iterate(cfg, t, ack, k), base, done', goal)
    decreases k
  {
    done' := done;
    if k != 0 && t.todo != [] {
      var a := ack(|t.log|);
      var t' := Step(cfg, t, a);
      done' := StepKeepsRecovery(cfg, t, a, base, done, goal);
      done' := IterateKeepsRecovery(cfg, t', ack, k - 1, base, done', goal);
    }
  }

  lemma {:induction false} IterateExtendsLog(cfg: seq<Item>, t: Thread, ack: nat -> bool, k: nat)
    ensures t.log <= Iterate(cfg, t, ack, k).log
    decreases k
  {
    if k != 0 && t.todo != [] {
      IterateExtendsLog(cfg, Step(cfg, t, ack(|t.log|)), ack, k - 1);
    }
  }

  /** A call of `sendCMD` on a checked command, or of `lora_init`. */
  ghost predicate IsCall(cfg: seq<Item>, script: seq<Item>, goal: Command) {
    || (script == [Send(goal)] && goal.checked)
    || (script == InitScript(cfg) && IsConfig(cfg) && goal == cfg[15].cmd)
  }

  lemma CallStarts(cfg: seq<Item>, script: seq<Item>, log: seq<Write>, goal: Command)
    requires IsConfig(cfg) && IsCall(cfg, script, goal)
    ensures RecoveryInv(cfg, Thread(script, Gate, log), |log|, [], goal)
    ensures EndsWith(Commands(script), goal)
  {
    assert ServedCommands([]) + Commands(script) == Commands(script);
    if script == [Send(goal)] {
      assert script[1..] == [] && Commands(script) == [goal];
    } else {
      InitEndsConfigured(cfg, script);
    }
    assert log[|log|..] == [];
  }

  /** The script of `lora_init` ends with the last configuration command, and its reset is
      followed by all of them. */
  lemma InitEndsConfigured(cfg: seq<Item>, script: seq<Item>)
    requires IsConfig(cfg) && script == InitScript(cfg)
    ensures EndsWith(Commands(script), cfg[15].cmd) && ResetsConfigured(cfg, script)
  {
    var front, last := [Send(AT), Send(ATZ)] + cfg[..15], [cfg[15]];
    assert script == front + last;
    CommandsAppend(front, last);
    assert last[1..] == [] && Commands(last) == [cfg[15].cmd];
    assert script[2..18] == cfg;
  }

  /** The writes of a call that has returned: after the last reset come the blocks of
      acknowledged commands, the sixteen configuration commands first and in order,
      the call's own command last. */
  ghost predicate CompletesWith(cfg: seq<Item>, log: seq<Write>, done: seq<Served>, goal: Command) {
    && (forall s <- done :: s.cmd.checked && s.fails < MAX_SEND_FAIL - 1)
    && SinceReset(log) == Blocks(done)
    && (HasReset(log) ==> Commands(cfg) <= ServedCommands(done))
    && EndsWith(ServedCommands(done), goal)
  }

  lemma InvariantCompletes(cfg: seq<Item>, t: Thread, base: nat, done: seq<Served>, goal: Command)
    requires RecoveryInv(cfg, t, base, done, goal) && t.todo == []
    ensures CompletesWith(cfg, t.log[base..], done, goal)
    ensures |t.log| > base && t.log[|t.log| - 1] == Write(goal.text, true, true)
  {
    var log := t.log[base..];
    assert ServedCommands(done) + [] == ServedCommands(done) && Blocks(done) + [] == Blocks(done);
    var last := done[|done| - 1];
    assert Blocks(done)[|Blocks(done)| - 1] == Block(last)[|Block(last)| - 1];
    SinceResetIsSuffix(log);
  }

  /** For every pattern of answers: a call that returns has completed its recoveries,
      however deeply they nested, and has ended with an acknowledged write of its own. */
  lemma RecoveryComplete(cfg: seq<Item>, script: seq<Item>, ack: nat -> bool, log0: seq<Write>, log1: seq<Write>,
                         goal: Command)
    requires IsConfig(cfg) && IsCall(cfg, script, goal)
    requires Reaches(cfg, ack, Thread(script, Gate, log0), Thread([], Gate, log1))
    ensures log0 <= log1
    ensures exists done :: CompletesWith(cfg, log1[|log0|..], done, goal)
    ensures |log1| > |log0| && log1[|log1| - 1] == Write(goal.text, true, true)
  {
    var start := Thread(script, Gate, log0);
    var k: nat :| Iterate(cfg, start, ack, k) == Thread([], Gate, log1);
    IterateExtendsLog(cfg, start, ack, k);
    CallStarts(cfg, script, log0, goal);
    var done := IterateKeepsRecovery(cfg, start, ack, k, |log0|, [], goal);
    InvariantCompletes(cfg, Thread([], Gate, log1), |log0|, done, goal);
  }

  lemma {:induction false} SinceResetIsSuffix(log: seq<Write>)
    ensures |SinceReset(log)| <= |log| && SinceReset(log) == log[|log| - |SinceReset(log)|..]
  {
    if log != [] && log[|log| - 1].checked {
      var n := |log| - 1;
      var before := log[..n];
      SinceResetIsSuffix(before);
      var k := n - |SinceReset(before)|;
      assert log == before + [log[n]];
      assert log[k..] == before[k..] + [log[n]];
    } else {
      assert log[|log|..] == [];
    }
  }

  /** If the modem never answers, the call never returns. */
  lemma SilentModemNeverReturns(cfg: seq<Item>, c: Command, log: seq<Write>, k: nat)
    requires c.checked
    ensures Iterate(cfg, Thread([Send(c)], Gate, log), (_: nat) => false, k).todo != []
  {
    SilentIterate(cfg, Thread([Send(c)], Gate, log), k);
  }

  lemma {:induction false} SilentIterate(cfg: seq<Item>, t: Thread, k: nat)
    requires PhaseOk(t) && !t.phase.Setting? && t.todo != [] && t.todo[0].Send? && t.todo[0].cmd.checked
    ensures Iterate(cfg, t, (_: nat) => false, k).todo != []
    decreases k
  {
    if k != 0 {
      SilentIterate(cfg, Step(cfg, t, false), k - 1);
    }
  }
}
