/** How many UART writes a call makes: each recovery is paid for by at least nine
    unacknowledged attempts. */
module ModemBudget {
  import opened ModemThread
  import opened ModemRecovery

  /** Writes of a log by kind: refused and acknowledged checked ones, and resets. */
  datatype Tally = Tally(refused: nat, acked: nat, resets: nat)

  function TallyOf(log: seq<Write>): Tally {
    if log == [] then Tally(0, 0, 0)
    else
      var t, w := TallyOf(log[..|log| - 1]), log[|log| - 1];
      if !w.checked then t.(resets := t.resets + 1)
      else if w.acked then t.(acked := t.acked + 1)
      else t.(refused := t.refused + 1)
  }

  lemma {:induction false} TallyTotal(log: seq<Write>)
    ensures TallyOf(log).refused + TallyOf(log).acked + TallyOf(log).resets == |log|
  {
    if log != [] {
      TallyTotal(log[..|log| - 1]);
    }
  }

  function CountCommands(items: seq<Item>, checked: bool): nat {
    if items == [] then 0
    else (if items[0].Send? && items[0].cmd.checked == checked then 1 else 0) + CountCommands(items[1..], checked)
  }

  lemma {:induction false} CountAppend(a: seq<Item>, b: seq<Item>, checked: bool)
    ensures CountCommands(a + b, checked) == CountCommands(a, checked) + CountCommands(b, checked)
  {
    if a == [] {
      assert a + b == b;
    } else {
      assert (a + b)[1..] == a[1..] + b;
      CountAppend(a[1..], b, checked);
    }
  }

  lemma {:induction false} CountAllChecked(items: seq<Item>)
    requires forall k :: 0 <= k < |items| ==> items[k].Send? && items[k].cmd.checked
    ensures CountCommands(items, true) == |items| && CountCommands(items, false) == 0
  {
    if items != [] {
      CountAllChecked(items[1..]);
    }
  }

  lemma CountInit(cfg: seq<Item>)
    requires IsConfig(cfg)
    ensures CountCommands(InitScript(cfg), true) == 17 && CountCommands(InitScript(cfg), false) == 1
  {
    CountAllChecked(cfg);
    assert InitScript(cfg)[1..] == [Send(ATZ)] + cfg;
    assert InitScript(cfg)[1..][1..] == cfg;
  }

  /** What has been written, and the `c` checked commands and `u` resets that remain. */
  predicate Balanced(tally: Tally, c: nat, u: nat, c0: nat, u0: nat, recoveries: nat, late: nat, tries: nat) {
    && late <= recoveries
    && tally.acked + c == c0 + 17 * recoveries + late
    && tally.resets + u == u0 + recoveries
    && tally.refused >= (MAX_SEND_FAIL - 1) * recoveries + tries
  }

  function Tries(t: Thread): nat {
    if t.phase.Sending? then t.phase.tries else 0
  }

  /** `recoveries` have begun, `late` of them after an answer to the tenth attempt. */
  ghost predicate BudgetInv(t: Thread, base: nat, script: seq<Item>, recoveries: nat, late: nat) {
    && base <= |t.log|
    && PhaseOk(t)
    && Balanced(TallyOf(t.log[base..]), CountCommands(Remaining(t), true), CountCommands(Remaining(t), false),
                CountCommands(script, true), CountCommands(script, false), recoveries, late, Tries(t))
  }

  lemma CountFailure(cfg: seq<Item>, c: Command, rest: seq<Item>, checked: bool)
    requires IsConfig(cfg)
    ensures CountCommands(InitScript(cfg) + [Send(c), Finish] + rest, checked) ==
            (if checked then 17 else 1) + CountCommands([Send(c)] + rest, checked)
  {
    CountInit(cfg);
    CountAppend(InitScript(cfg) + [Send(c), Finish], rest, checked);
    CountAppend(InitScript(cfg), [Send(c), Finish], checked);
    CountAppend([Send(c)], rest, checked);
    assert [Send(c), Finish][1..] == [Finish];
    assert CountCommands([Finish], checked) == 0;
    assert CountCommands([Send(c), Finish], checked) == CountCommands([Send(c)], checked);
  }

  lemma QuietStepKeepsCounts(cfg: seq<Item>, t: Thread, ack: bool, checked: bool)
    requires t.todo != [] && PhaseOk(t) && !t.phase.Sending?
    ensures var t' := Step(cfg, t, ack);
            PhaseOk(t') && t'.log == t.log &&
            CountCommands(Remaining(t'), checked) == CountCommands(Remaining(t), checked)
    ensures Step(cfg, t, ack).phase.Sending? ==> Step(cfg, t, ack).phase.tries == 0
  {
  }

  lemma TallyAppend(log: seq<Write>, w: Write)
    ensures var a, b := TallyOf(log), TallyOf(log + [w]);
            && b.refused == a.refused + (if w.checked && !w.acked then 1 else 0)
            && b.acked == a.acked + (if w.checked && w.acked then 1 else 0)
            && b.resets == a.resets + (if w.checked then 0 else 1)
  {
    assert (log + [w])[..|log|] == log;
  }

  /** What one write does to the work that remains. */
  lemma WriteStepCounts(cfg: seq<Item>, t: Thread, ack: bool, checked: bool)
    requires IsConfig(cfg) && t.todo != [] && PhaseOk(t) && t.phase.Sending?
    ensures var t', c := Step(cfg, t, ack), t.todo[0].cmd;
            && PhaseOk(t') && t'.log == t.log + [Write(c.text, c.checked, ack)]
            && CountCommands(Remaining(t'), checked) ==
               if t.phase.tries + 1 >= MAX_SEND_FAIL then CountCommands(t.todo, checked) + (if checked then 17 else 1)
               else if ack || !c.checked then CountCommands(t.todo, checked) - (if c.checked == checked then 1 else 0)
               else CountCommands(t.todo, checked)
  {
    assert t.todo == [t.todo[0]] + t.todo[1..];
    CountFailure(cfg, t.todo[0].cmd, t.todo[1..], checked);
  }

  /** What a write does to the account: `last` is the tenth attempt. */
  lemma BalanceAfterWrite(t0: Tally, t1: Tally, c: nat, u: nat, c1: nat, u1: nat, c0: nat, u0: nat,
                          recoveries: nat, late: nat, tries: nat, checked: bool, ack: bool, last: bool)
    requires Balanced(t0, c, u, c0, u0, recoveries, late, tries) && (tries > 0 ==> checked)
    requires t1.refused == t0.refused + (if checked && !ack then 1 else 0)
    requires t1.acked == t0.acked + (if checked && ack then 1 else 0)
    requires t1.resets == t0.resets + (if checked then 0 else 1)
    requires last <==> tries + 1 >= MAX_SEND_FAIL
    requires last ==> c1 == c + 17 && u1 == u + 1
    requires !last && (ack || !checked) ==> c1 + (if checked then 1 else 0) == c && u1 + (if checked then 0 else 1) == u
    requires !last && !ack && checked ==> c1 == c && u1 == u
    ensures last ==> Balanced(t1, c1, u1, c0, u0, recoveries + 1, late + (if ack then 1 else 0), 0)
    ensures !last ==> Balanced(t1, c1, u1, c0, u0, recoveries, late, if ack || !checked then 0 else tries + 1)
  {
  }

  /** The phase after a write. */
  lemma TriesAfterWrite(cfg: seq<Item>, t: Thread, ack: bool)
    requires t.todo != [] && PhaseOk(t) && t.phase.Sending?
    ensures Tries(Step(cfg, t, ack)) ==
            if t.phase.tries + 1 >= MAX_SEND_FAIL || ack || !t.todo[0].cmd.checked then 0 else t.phase.tries + 1
  {
  }

  lemma WriteKeepsBudget(cfg: seq<Item>, t: Thread, ack: bool, base: nat, script: seq<Item>, recoveries: nat, late: nat)
      returns (recoveries': nat, late': nat)
    requires IsConfig(cfg) && t.todo != [] && t.phase.Sending? && BudgetInv(t, base, script, recoveries, late)
    ensures BudgetInv(Step(cfg, t, ack), base, script, recoveries', late')
  {
    var c, t', log := t.todo[0].cmd, Step(cfg, t, ack), t.log[base..];
    var last := t.phase.tries + 1 >= MAX_SEND_FAIL;
    WriteStepCounts(cfg, t, ack, true);
    WriteStepCounts(cfg, t, ack, false);
    TriesAfterWrite(cfg, t, ack);
    var w := Write(c.text, c.checked, ack);
    assert t'.log[base..] == log + [w];
    TallyAppend(log, w);
    assert Remaining(t) == t.todo;
    BalanceAfterWrite(TallyOf(log), TallyOf(log + [w]), CountCommands(t.todo, true), CountCommands(t.todo, false),
                      CountCommands(Remaining(t'), true), CountCommands(Remaining(t'), false),
                      CountCommands(script, true), CountCommands(script, false),
                      recoveries, late, t.phase.tries, c.checked, ack, last);
    recoveries' := if last then recoveries + 1 else recoveries;
    late' := if last && ack then late + 1 else late;
  }

  lemma StepKeepsBudget(cfg: seq<Item>, t: Thread, ack: bool, base: nat, script: seq<Item>, recoveries: nat, late: nat)
      returns (recoveries': nat, late': nat)
    requires IsConfig(cfg) && t.todo != [] && BudgetInv(t, base, script, recoveries, late)
    ensures BudgetInv(Step(cfg, t, ack), base, script, recoveries', late')
  {
    if t.phase.Sending? {
      recoveries', late' := WriteKeepsBudget(cfg, t, ack, base, script, recoveries, late);
    } else {
      recoveries', late' := recoveries, late;
      QuietStepKeepsCounts(cfg, t, ack, true);
      QuietStepKeepsCounts(cfg, t, ack, false);
    }
  }

  lemma IterateKeepsBudget(cfg: seq<Item>, t: Thread, ack: nat -> bool, k: nat, base: nat, script: seq<Item>,
                           recoveries: nat, late: nat) returns (recoveries': nat, late': nat)
    requires IsConfig(cfg) && BudgetInv(t, base, script, recoveries, late)
    ensures BudgetInv(Iterate(cfg, t, ack, k), base, script, recoveries', late')
    decreases k
  {
    recoveries', late' := recoveries, late;
    if k != 0 && t.todo != [] {
      recoveries', late' := StepKeepsBudget(cfg, t, ack(|t.log|), base, script, recoveries, late);
      recoveries', late' :=
        IterateKeepsBudget(cfg, Step(cfg, t, ack(|t.log|)), ack, k - 1, base, script, recoveries', late');
    }
  }

  /** The account of a call that has issued n commands, one of them a reset if it is an
      initialisation. */
  lemma Affordable(n: nat, refused: nat, acked: nat, resets: nat, recoveries: nat, late: nat)
    requires acked + resets <= n + 18 * recoveries + late && late <= recoveries && refused >= 9 * recoveries
    ensures refused + acked + resets <= n + refused + 19 * (refused / 9)
  {
    assert refused / 9 >= recoveries;
  }

  /** At every moment of a call that has issued `script`, whether or not it ever returns,
      U refused writes allow at most |script| + U + 19 * (U / 9) writes. */
  lemma WriteBudget(cfg: seq<Item>, script: seq<Item>, ack: nat -> bool, log0: seq<Write>, k: nat, goal: Command)
    requires IsConfig(cfg) && IsCall(cfg, script, goal)
    ensures var log := Iterate(cfg, Thread(script, Gate, log0), ack, k).log;
            log0 <= log &&
            var u := TallyOf(log[|log0|..]).refused;
            |log| - |log0| <= |script| + u + 19 * (u / 9)
  {
    var start := Thread(script, Gate, log0);
    var t := Iterate(cfg, start, ack, k);
    BudgetStarts(cfg, script, log0, goal);
    var r, late := IterateKeepsBudget(cfg, start, ack, k, |log0|, script, 0, 0);
    IterateExtendsLog(cfg, start, ack, k);
    var log := t.log[|log0|..];
    TallyTotal(log);
    Affordable(|script|, TallyOf(log).refused, TallyOf(log).acked, TallyOf(log).resets, r, late);
  }

  lemma BudgetStarts(cfg: seq<Item>, script: seq<Item>, log0: seq<Write>, goal: Command)
    requires IsConfig(cfg) && IsCall(cfg, script, goal)
    ensures BudgetInv(Thread(script, Gate, log0), |log0|, script, 0, 0)
    ensures CountCommands(script, true) + CountCommands(script, false) == |script|
  {
    assert log0[|log0|..] == [];
    if script == [Send(goal)] {
      assert script[1..] == [];
    } else {
      CountInit(cfg);
    }
  }

  /** The budget of a single checked command, as the number of its writes on return:
      exactly one per refusal, one for itself, and eighteen or nineteen per recovery. */
  lemma WritesOfReturnedSend(cfg: seq<Item>, c: Command, ack: nat -> bool, log0: seq<Write>, log1: seq<Write>)
      returns (recoveries: nat, late: nat)
    requires IsConfig(cfg) && c.checked
    requires Reaches(cfg, ack, Thread([Send(c)], Gate, log0), Thread([], Gate, log1))
    ensures log0 <= log1 && late <= recoveries
    ensures var tally := TallyOf(log1[|log0|..]);
            && |log1| - |log0| == 1 + tally.refused + 18 * recoveries + late
            && tally.resets == recoveries
            && 9 * recoveries <= tally.refused
  {
    var start := Thread([Send(c)], Gate, log0);
    var k: nat :| Iterate(cfg, start, ack, k) == Thread([], Gate, log1);
    recoveries, late := IterateKeepsBudget(cfg, start, ack, k, |log0|, [Send(c)], 0, 0);
    IterateExtendsLog(cfg, start, ack, k);
    TallyTotal(log1[|log0|..]);
  }

  lemma {:induction false} ResetsAreInLog(log: seq<Write>)
    requires TallyOf(log).resets > 0
    ensures HasReset(log)
  {
    var n := |log| - 1;
    if log[n].checked {
      ResetsAreInLog(log[..n]);
      var i :| 0 <= i < n && !log[..n][i].checked;
      assert !log[i].checked;
    }
  }

  /** A `lora_init` that returns has made its unawaited write and then configured the modem
      completely. */
  lemma InitConfigures(cfg: seq<Item>, ack: nat -> bool, log0: seq<Write>, log1: seq<Write>)
    requires IsConfig(cfg) && Reaches(cfg, ack, Thread(InitScript(cfg), Gate, log0), Thread([], Gate, log1))
    ensures log0 <= log1 && HasReset(log1[|log0|..])
    ensures exists done :: CompletesWith(cfg, log1[|log0|..], done, cfg[15].cmd) &&
                           Commands(cfg) <= ServedCommands(done)
  {
    var start := Thread(InitScript(cfg), Gate, log0);
    RecoveryComplete(cfg, InitScript(cfg), ack, log0, log1, cfg[15].cmd);
    var k: nat :| Iterate(cfg, start, ack, k) == Thread([], Gate, log1);
    CountInit(cfg);
    CallStarts(cfg, InitScript(cfg), log0, cfg[15].cmd);
    var r, late := IterateKeepsBudget(cfg, start, ack, k, |log0|, InitScript(cfg), 0, 0);
    ResetsAreInLog(log1[|log0|..]);
  }
}
