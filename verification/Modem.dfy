/** `sendCMD` and `lora_init` as the source writes them: a retry loop and a full
    re-initialisation that call each other.  Proved to follow the work list of
    ModemThread, and to return whenever the modem answers from some write on. */
module Modem {
  import opened ModemThread
  import opened ModemRecovery
  import opened ModemBudget
  import opened ModemResets

  /** An acknowledged AT, and directly after it the text of a reset. */
  predicate ResetAt(log: seq<Write>, k: nat) {
    0 < k < |log| && log[k - 1] == Write("AT\n", true, true) && log[k].text == "ATZ\n"
  }

  /** That has happened since position `base`. */
  ghost predicate ResetWritten(base: nat, log: seq<Write>) {
    exists k: nat :: base < k && ResetAt(log, k)
  }

  /** What a failed command leaves in the work list, once the modem is configured again. */
  lemma Resumed(cfg: seq<Item>, head: Item, rest: seq<Item>, todo: seq<Item>) returns (resumed: seq<Item>)
    requires IsConfig(cfg) && todo == InitScript(cfg) + [head, Finish] + rest
    ensures InitScript(cfg) <= todo && resumed == todo[18..]
    ensures |resumed| >= 2 && resumed[0] == head && resumed[1] == Finish && resumed[1..][1..] == rest
  {
    resumed := todo[18..];
    assert resumed == [head, Finish] + rest;
  }

  /** From the gate to the first attempt. */
  lemma GatePassed(cfg: seq<Item>, ack: nat -> bool, start: Thread, todo: seq<Item>, log: seq<Write>)
    requires todo != [] && todo[0].Send? && Reaches(cfg, ack, start, Thread(todo, Gate, log))
    ensures Reaches(cfg, ack, start, Thread(todo, Sending(0), log))
  {
    ReachesStep(cfg, ack, start, Thread(todo, Gate, log));
    ReachesStep(cfg, ack, start, Thread(todo, Clearing, log));
  }

  /** The resumed command returns to the one that failed. */
  lemma FinishPassed(cfg: seq<Item>, ack: nat -> bool, start: Thread, todo: seq<Item>, log: seq<Write>)
    requires todo != [] && todo[0].Finish? && Reaches(cfg, ack, start, Thread(todo, Gate, log))
    ensures Reaches(cfg, ack, start, Thread(todo[1..], Gate, log))
  {
    ReachesStep(cfg, ack, start, Thread(todo, Gate, log));
  }

  class ModemDriver {
    /** The answer to write number i: `recv_status` when the loop tests it. */
    const answer: nat -> bool
    const profile: Profile
    /** The commands that `lora_init` formats from the profile. */
    ghost const cfg: seq<Item>
    /** The UART writes so far. */
    var log: seq<Write>
    var recvStatus: bool
    var sendBit: bool
    /** Clear only while `readCMD` is in its window. */
    var recvBit: bool

    constructor (answer: nat -> bool, profile: Profile)
      ensures this.answer == answer && this.profile == profile
      ensures Valid() && log == [] && recvBit && !sendBit
    {
      this.answer := answer;
      this.profile := profile;
      this.cfg := [
        Send(AT), Send(Command("AT+CLASS=C\n", true)),
        Send(Command("AT+DADDR=" + profile.devaddr + "\n", true)),
        Send(Command("AT+NWKSKEY=" + profile.nwkskey + "\n", true)),
        Send(Command("AT+APPSKEY=" + profile.appskey + "\n", true)),
        Send(Command("AT+CFM=0\n", true)), Send(Command("AT+DCS=0\n", true)), Send(Command("AT+TXP=5\n", true)),
        Send(Command("AT+DR=3\n", true)), Send(Command("AT+ADR=1\n", true)), Send(Command("AT+JN1DL=5000\n", true)),
        Send(Command("AT+JN2DL=6000\n", true)), Send(Command("AT+RX1DL=1000\n", true)),
        Send(Command("AT+RX2DL=2000\n", true)), Send(Command("AT+NJM=0\n", true)), Send(Command("AT+NJS=?\n", true))];
      log, recvStatus, sendBit, recvBit := [], false, false, true;
    }

    ghost predicate Valid() {
      ConfigOf(profile, cfg)
    }

    /** Every write from number `n` on is answered. */
    ghost predicate AnswersFrom(n: nat) {
      forall i :: i >= n ==> answer(i)
    }

    /** The call that began in `start` has come to a command boundary with `todo` left. */
    ghost predicate Follows(start: Thread, todo: seq<Item>)
      reads this
    {
      Reaches(cfg, answer, start, Thread(todo, Gate, log))
    }

    ghost function Patience(n: nat): nat
      reads this
    {
      if n <= |log| then 0 else n - |log|
    }

    method SendCmd(data: string, checkRet: bool, ghost start: Thread, ghost todo: seq<Item>, ghost n: nat)
      requires Valid() && recvBit && AnswersFrom(n)
      requires todo != [] && todo[0] == Send(Command(data, checkRet)) && Follows(start, todo)
      modifies `log, `recvStatus, `sendBit
      ensures sendBit && Follows(start, todo[1..]) && old(log) < log
      ensures checkRet ==> log[|log| - 1] == Write(data, true, true)
      ensures !checkRet ==> log == old(log) + [Write(data, false, answer(|old(log)|))]
      decreases Patience(n), 0
    {
      ghost var t;
      recvStatus := false;
      sendBit := false;
      GatePassed(cfg, answer, start, todo, log);
      var sendFail;
      sendFail, t := Attempts(data, checkRet, start, todo);
      if sendFail >= MAX_SEND_FAIL {
        assert !answer(|old(log)| + 8);
        ghost var resumed := Resumed(cfg, todo[0], todo[1..], t.todo);
        LoraInit(start, t.todo, n);
        SendCmd(data, checkRet, start, resumed, n);
        FinishPassed(cfg, answer, start, resumed[1..], log);
      } else {
        ReachesStep(cfg, answer, start, t);
      }
      sendBit := true;
    }

    /** The retry loop: stops at an answer, or after ten attempts, of which the first nine
        went unanswered. */
    method Attempts(data: string, checkRet: bool, ghost start: Thread, ghost todo: seq<Item>)
      returns (sendFail: nat, ghost t: Thread)
      requires Valid() && todo != [] && todo[0] == Send(Command(data, checkRet))
      requires Reaches(cfg, answer, start, Thread(todo, Sending(0), log))
      modifies `log, `recvStatus
      ensures 0 < sendFail <= MAX_SEND_FAIL && |log| == |old(log)| + sendFail && old(log) < log
      ensures sendFail < MAX_SEND_FAIL && checkRet ==> log[|log| - 1] == Write(data, true, true)
      ensures !checkRet ==> sendFail == 1 && log == old(log) + [Write(data, false, answer(|old(log)|))]
      ensures sendFail < MAX_SEND_FAIL ==> t == Thread(todo, Setting, log)
      ensures sendFail == MAX_SEND_FAIL ==> t == Thread(InitScript(cfg) + [todo[0], Finish] + todo[1..], Gate, log)
      ensures Reaches(cfg, answer, start, t)
      ensures sendFail == MAX_SEND_FAIL ==>
        forall i :: |old(log)| <= i < |old(log)| + MAX_SEND_FAIL - 1 ==> !answer(i)
    {
      sendFail := 0;
      t := Thread(todo, Sending(0), log);
      var again := true;
      while again
        invariant sendFail <= MAX_SEND_FAIL && |log| == |old(log)| + sendFail && old(log) <= log
        invariant !again && sendFail < MAX_SEND_FAIL && checkRet ==>
          log != [] && log[|log| - 1] == Write(data, true, true)
        invariant if again then !checkRet ==> log == old(log)
                  else !checkRet ==> log == old(log) + [Write(data, false, answer(|old(log)|))]
        invariant again ==> sendFail < MAX_SEND_FAIL && t == Thread(todo, Sending(sendFail), log)
        invariant !again ==> sendFail > 0
        invariant !again && sendFail < MAX_SEND_FAIL ==> t == Thread(todo, Setting, log)
        invariant !again && sendFail == MAX_SEND_FAIL ==>
          t == Thread(InitScript(cfg) + [todo[0], Finish] + todo[1..], Gate, log)
        invariant Reaches(cfg, answer, start, t)
        invariant again || sendFail == MAX_SEND_FAIL ==>
          forall i :: |old(log)| <= i < |log| && i < |old(log)| + MAX_SEND_FAIL - 1 ==> !answer(i)
        decreases again, MAX_SEND_FAIL - sendFail
      {
        ReachesStep(cfg, answer, start, t);
        recvStatus := answer(|log|);
        t := Step(cfg, t, recvStatus);
        log := log + [Write(data, checkRet, recvStatus)];
        sendFail := sendFail + 1;
        again := !recvStatus && checkRet && sendFail < MAX_SEND_FAIL;
      }
    }

    method LoraRst(ghost start: Thread, ghost todo: seq<Item>, ghost n: nat)
      requires Valid() && recvBit && AnswersFrom(n)
      requires InitScript(cfg) <= todo && Follows(start, todo)
      modifies `log, `recvStatus, `sendBit
      ensures sendBit && Follows(start, todo[2..])
      ensures old(log) < log && Patience(n) <= old(Patience(n))
      ensures |log| > |old(log)| + 1 && log[|log| - 2] == Write("AT\n", true, true)
      ensures log[|log| - 1].text == "ATZ\n" && !log[|log| - 1].checked
      decreases Patience(n), 1
    {
      assert todo[0] == InitScript(cfg)[0] && todo[1] == InitScript(cfg)[1];
      SendCmd("AT\n", true, start, todo, n);
      SendCmd("ATZ\n", false, start, todo[1..], n);
      assert todo[1..][1..] == todo[2..];
    }

    /** Configuration command number k, with the rest of the configuration after it. */
    method Configure(k: nat, data: string, ghost start: Thread, ghost todo: seq<Item>, ghost n: nat)
      requires Valid() && recvBit && AnswersFrom(n)
      requires k < 16 && cfg[k].cmd == Command(data, true)
      requires InitScript(cfg) <= todo && Follows(start, todo[k + 2..])
      modifies `log, `recvStatus, `sendBit
      ensures sendBit && Follows(start, todo[k + 3..])
      ensures old(log) < log && Patience(n) <= old(Patience(n))
      decreases Patience(n), 1
    {
      assert todo[k + 2] == InitScript(cfg)[k + 2] == cfg[k];
      SendCmd(data, true, start, todo[k + 2..], n);
      assert todo[k + 2..][1..] == todo[k + 3..];
    }

    /** Class and keys: the first five configuration commands. */
    method ConfigureIdentity(ghost start: Thread, ghost todo: seq<Item>, ghost n: nat)
      requires Valid() && recvBit && AnswersFrom(n)
      requires InitScript(cfg) <= todo && Follows(start, todo[2..])
      modifies `log, `recvStatus, `sendBit
      ensures sendBit && Follows(start, todo[7..])
      ensures old(log) < log && Patience(n) <= old(Patience(n))
      decreases Patience(n), 2
    {
      Configure(0, "AT\n", start, todo, n);
      Configure(1, "AT+CLASS=C\n", start, todo, n);
      Configure(2, "AT+DADDR=" + profile.devaddr + "\n", start, todo, n);
      Configure(3, "AT+NWKSKEY=" + profile.nwkskey + "\n", start, todo, n);
      Configure(4, "AT+APPSKEY=" + profile.appskey + "\n", start, todo, n);
    }

    /** The next five, for the radio. */
    method ConfigureRadio(ghost start: Thread, ghost todo: seq<Item>, ghost n: nat)
      requires Valid() && recvBit && AnswersFrom(n)
      requires InitScript(cfg) <= todo && Follows(start, todo[7..])
      modifies `log, `recvStatus, `sendBit
      ensures sendBit && Follows(start, todo[12..])
      ensures old(log) < log && Patience(n) <= old(Patience(n))
      decreases Patience(n), 2
    {
      Configure(5, "AT+CFM=0\n", start, todo, n);
      Configure(6, "AT+DCS=0\n", start, todo, n);
      Configure(7, "AT+TXP=5\n", start, todo, n);
      Configure(8, "AT+DR=3\n", start, todo, n);
      Configure(9, "AT+ADR=1\n", start, todo, n);
    }

    /** The last six, for the receive windows and the join mode. */
    method ConfigureWindows(ghost start: Thread, ghost todo: seq<Item>, ghost n: nat)
      requires Valid() && recvBit && AnswersFrom(n)
      requires InitScript(cfg) <= todo && Follows(start, todo[12..])
      modifies `log, `recvStatus, `sendBit
      ensures sendBit && Follows(start, todo[18..])
      ensures old(log) < log && Patience(n) <= old(Patience(n))
      decreases Patience(n), 2
    {
      Configure(10, "AT+JN1DL=5000\n", start, todo, n);
      Configure(11, "AT+JN2DL=6000\n", start, todo, n);
      Configure(12, "AT+RX1DL=1000\n", start, todo, n);
      Configure(13, "AT+RX2DL=2000\n", start, todo, n);
      Configure(14, "AT+NJM=0\n", start, todo, n);
      Configure(15, "AT+NJS=?\n", start, todo, n);
    }

    method LoraInit(ghost start: Thread, ghost todo: seq<Item>, ghost n: nat)
      requires Valid() && recvBit && AnswersFrom(n)
      requires InitScript(cfg) <= todo && Follows(start, todo)
      modifies `log, `recvStatus, `sendBit
      ensures sendBit && Follows(start, todo[18..]) && old(log) < log
      ensures ResetWritten(|old(log)|, log)
      decreases Patience(n), 3
    {
      LoraRst(start, todo, n);
      ghost var reset := log;
      ConfigureIdentity(start, todo, n);
      ConfigureRadio(start, todo, n);
      ConfigureWindows(start, todo, n);
      ghost var k := |reset| - 1;
      assert log[k] == reset[k] && log[k - 1] == reset[k - 1];
      assert ResetAt(log, k);
    }

    /** One round of `readCMD`, undisturbed.  It reopens the gate exactly if one of its
        first nine polls is answered; otherwise it goes on to `lora_init`, whose first
        `sendCMD` waits for the bit that only this task could set. */
    method ReadOnce() returns (reopened: bool)
      requires sendBit && recvBit
      modifies `log, `recvStatus, `recvBit
      ensures reopened == recvBit
      ensures reopened <==> exists i :: |old(log)| <= i < |old(log)| + MAX_SEND_FAIL - 1 && answer(i)
      ensures old(log) < log && |log| <= |old(log)| + MAX_SEND_FAIL
      ensures forall i :: |old(log)| <= i < |log| ==> log[i] == Write("AT+RECVB=?\n", true, answer(i))
    {
      recvBit := false;
      var sendFail := 0;
      var again := true;
      while again
        invariant 0 <= sendFail <= MAX_SEND_FAIL && |log| == |old(log)| + sendFail
        invariant !recvBit
        invariant again ==> sendFail < MAX_SEND_FAIL
        invariant !again ==> sendFail > 0
        invariant old(log) <= log
        invariant forall i :: |old(log)| <= i < |log| ==> log[i] == Write("AT+RECVB=?\n", true, answer(i))
        invariant forall i :: |old(log)| <= i < |log| && (i < |log| - 1 || again) ==> !answer(i)
        invariant !again && sendFail < MAX_SEND_FAIL ==> answer(|log| - 1)
        decreases again, MAX_SEND_FAIL - sendFail
      {
        recvStatus := answer(|log|);
        log := log + [Write("AT+RECVB=?\n", true, recvStatus)];
        sendFail := sendFail + 1;
        again := !recvStatus && sendFail < MAX_SEND_FAIL;
      }
      reopened := sendFail < MAX_SEND_FAIL;
      if reopened {
        recvBit := true;
      }
    }

    /** A top-level `sendCMD`, as the uplink task calls it. */
    method SendOne(data: string, ghost n: nat)
      requires Valid() && recvBit && AnswersFrom(n)
      modifies `log, `recvStatus, `sendBit
      ensures old(log) < log && sendBit
      ensures log[|log| - 1] == Write(data, true, true)
      ensures exists done :: CompletesWith(cfg, log[|old(log)|..], done, Command(data, true))
      ensures data != "ATZ\n" ==> exists done :: ResetsAnswerFailures(cfg, log[|old(log)|..], 0, done)
    {
      ghost var script := [Send(Command(data, true))];
      ghost var start := Thread(script, Gate, log);
      ReachesSelf(cfg, answer, start);
      SendCmd(data, true, start, script, n);
      RecoveryComplete(cfg, script, answer, old(log), log, Command(data, true));
      if data != "ATZ\n" {
        assert |script| == 1 && |InitScript(cfg)| > 1;
        var _ := ResetsComplete(profile, cfg, script, answer, old(log), log, Command(data, true));
      }
    }

    /** A top-level `lora_init`, as start-up and the Bluetooth profile command call it. */
    method InitOne(ghost n: nat)
      requires Valid() && recvBit && AnswersFrom(n)
      modifies `log, `recvStatus, `sendBit
      ensures old(log) < log && sendBit
      ensures exists done :: CompletesWith(cfg, log[|old(log)|..], done, cfg[15].cmd) &&
                             Commands(cfg) <= ServedCommands(done)
      ensures Resets(log[|old(log)|..]) == 1 + Failures(log[|old(log)|..])
      ensures exists done :: ResetsAnswerFailures(cfg, log[|old(log)|..], 1, done)
    {
      ghost var start := Thread(InitScript(cfg), Gate, log);
      ReachesSelf(cfg, answer, start);
      LoraInit(start, InitScript(cfg), n);
      assert InitScript(cfg)[18..] == [];
      RecoveryComplete(cfg, InitScript(cfg), answer, old(log), log, cfg[15].cmd);
      InitConfigures(cfg, answer, old(log), log);
      ConfigHasNoReset(profile, cfg);
      var _ := ResetsComplete(profile, cfg, InitScript(cfg), answer, old(log), log, cfg[15].cmd);
    }
  }
}
