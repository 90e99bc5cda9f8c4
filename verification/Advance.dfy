/**
 Film advance (the step loop of do_advance in tools/pakon_replay.c): start the
 motor, poll until the frame is in position, finalize.
 */
module Advance {
  import opened Bytes
  import opened Session
  import opened DrivenLoop

  const START: seq<byte> := [0x04, 0x03, 0x24, 0x00, 0xa0]
  const FINISH: seq<byte> := [0x04, 0x03, 0x24, 0x00, 0xa2]
  const SUCCESS := 0
  const MAX_POLLS := 5000

  predicate Issues(e: Event, frame: seq<byte>) {
    e.Framed? && e.frame == frame
  }

  /** The poll that ends a wait: the frame is in position, or the poll itself failed. */
  predicate EndsWait(e: Event) {
    e.Framed? && (!e.ok || e.status == SUCCESS)
  }

  /** Polls up to the first that ends the wait, or 5000 that do not. */
  ghost predicate Wait(ev: seq<Event>) {
    0 < |ev| <= MAX_POLLS &&
    (forall k :: 0 <= k < |ev| ==> Issues(ev[k], POLL_HOST)) &&
    (forall k :: 0 <= k < |ev| - 1 ==> !EndsWait(ev[k])) &&
    (|ev| < MAX_POLLS ==> EndsWait(ev[|ev| - 1]))
  }

  /** One acknowledged start, its polls, and the command that stops the motor. */
  ghost predicate WholeStep(ev: seq<Event>) {
    |ev| >= 3 && Issues(ev[0], START) && ev[0].ok && Wait(ev[1..|ev| - 1]) && Issues(ev[|ev| - 1], FINISH)
  }

  /** The events of `steps` whole steps. */
  ghost predicate Steps(ev: seq<Event>, steps: nat)
    decreases steps
  {
    if steps == 0 then ev == []
    else exists m :: 0 <= m <= |ev| && Steps(ev[..m], steps - 1) && WholeStep(ev[m..])
  }

  ghost predicate FailedStart(ev: seq<Event>) {
    |ev| == 1 && Issues(ev[0], START) && !ev[0].ok
  }

  /** Number of commands whose transaction failed. */
  function Failures(ev: seq<Event>): nat {
    if ev == [] then 0
    else
      var e := ev[|ev| - 1];
      Failures(ev[..|ev| - 1]) + if e.Framed? && !e.ok then 1 else 0
  }

  lemma {:induction false} FailuresConcat(a: seq<Event>, b: seq<Event>)
    ensures Failures(a + b) == Failures(a) + Failures(b)
  {
    if b == [] {
      assert a + b == a;
    } else {
      assert (a + b)[..|a + b| - 1] == a + b[..|b| - 1];
      FailuresConcat(a, b[..|b| - 1]);
    }
  }

  lemma FailuresSnoc(ev: seq<Event>, frame: seq<byte>, ok: bool, st: byte)
    ensures Failures(ev + [Framed(frame, ok, st)]) == Failures(ev) + if ok then 0 else 1
  {
    assert (ev + [Framed(frame, ok, st)])[..|ev|] == ev;
  }

  method WaitInPosition(dev: Device) returns (failed: bool, ghost ev: seq<Event>)
    modifies dev`clock, dev`trace
    ensures dev.trace == old(dev.trace) + ev && Wait(ev)
    ensures failed <==> !ev[|ev| - 1].ok
    ensures Failures(ev) == if failed then 1 else 0
  {
    ev, failed := [], false;
    var p := 0;
    while p < MAX_POLLS
      invariant p == |ev| <= MAX_POLLS && !failed
      invariant dev.trace == old(dev.trace) + ev
      invariant forall k :: 0 <= k < |ev| ==> Issues(ev[k], POLL_HOST) && !EndsWait(ev[k])
      invariant Failures(ev) == 0
    {
      var ok, st := dev.Command(POLL_HOST);
      FailuresSnoc(ev, POLL_HOST, ok, st);
      ev := ev + [Framed(POLL_HOST, ok, st)];
      if !ok { failed := true; break; }
      if st == SUCCESS { break; }
      p := p + 1;
    }
  }

  /** One step; `started` is false if the start command failed. */
  method Step(dev: Device) returns (started: bool, errs: nat, ghost ev: seq<Event>)
    modifies dev`clock, dev`trace
    ensures dev.trace == old(dev.trace) + ev
    ensures if started then WholeStep(ev) else FailedStart(ev)
    ensures errs == Failures(ev)
  {
    hide Wait, Failures, WholeStep;
    errs := 0;
    NoFailures();
    var ok, st := dev.Command(START);
    ghost var start := Framed(START, ok, st);
    FailuresSnoc([], START, ok, st);
    if !ok { return false, 1, [start]; }
    var failed, polls := WaitInPosition(dev);
    if failed { errs := errs + 1; }
    var ok', st' := dev.Command(FINISH);
    if !ok' { errs := errs + 1; }
    started := true;
    ev := [start] + polls + [Framed(FINISH, ok', st')];
    StepDone(st, polls, ok', st');
  }

  lemma StepDone(st: byte, polls: seq<Event>, ok: bool, st': byte)
    requires Wait(polls)
    ensures WholeStep([Framed(START, true, st)] + polls + [Framed(FINISH, ok, st')])
    ensures Failures([Framed(START, true, st)] + polls + [Framed(FINISH, ok, st')]) == Failures(polls) + if ok then 0 else 1
  {
    hide Failures;
    var start := Framed(START, true, st);
    var ev := [start] + polls + [Framed(FINISH, ok, st')];
    assert ev[1..|ev| - 1] == polls;
    NoFailures();
    FailuresSnoc([], START, true, st);
    assert [] + [start] == [start];
    FailuresSnoc([start] + polls, FINISH, ok, st');
    FailuresConcat([start], polls);
  }

  lemma NoFailures()
    ensures Failures([]) == 0
    ensures forall e: Event :: [] + [e] == [e]
  {
  }

  /**
   The step loop.  `expired` answers the time check before each step.  The result
   is the number of completed steps, the error count and the return code.
   */
  method AdvanceSteps(dev: Device, count: nat, expired: nat -> bool)
    returns (steps: nat, errs: nat, rc: int, ghost ev: seq<Event>, ghost last: seq<Event>)
    modifies dev`clock, dev`trace
    ensures dev.trace == old(dev.trace) + ev + last
    ensures steps <= count && Steps(ev, steps)
    ensures last == [] || FailedStart(last)
    ensures steps < count <==> rc == 1 || last != []
    ensures rc == 0 || rc == 1
    ensures rc == 1 <==> steps < count && expired(steps)
    ensures forall s :: 0 <= s < steps ==> !expired(s)
    ensures errs == Failures(ev + last)
  {
    hide Steps, WholeStep, Failures;
    steps, errs, rc, ev, last := 0, 0, 0, [], [];
    NoSteps();
    NoFailures();
    while steps < count
      invariant steps <= count && rc == 0 && last == []
      invariant forall s :: 0 <= s < steps ==> !expired(s)
      invariant dev.trace == old(dev.trace) + ev && Steps(ev, steps)
      invariant errs == Failures(ev)
    {
      if expired(steps) {
        rc := 1;
        assert ev + [] == ev;
        return;
      }
      var started, e, step := Step(dev);
      FailuresConcat(ev, step);
      errs := errs + e;
      if !started {
        last := step;
        return;
      }
      AddStep(ev, steps, step);
      ev := ev + step;
      steps := steps + 1;
    }
    assert ev + [] == ev;
  }

  lemma NoSteps()
    ensures Steps([], 0)
  {
  }

  lemma AddStep(ev: seq<Event>, steps: nat, step: seq<Event>)
    requires Steps(ev, steps) && WholeStep(step)
    ensures Steps(ev + step, steps + 1)
  {
    hide WholeStep;
    var all := ev + step;
    assert all[..|ev|] == ev && all[|ev|..] == step;
  }

  // ---- what a trace of steps guarantees ------------------------------------------------------

  lemma LastStep(ev: seq<Event>, steps: nat) returns (m: nat)
    requires Steps(ev, steps)
    ensures steps == 0 ==> ev == []
    ensures steps > 0 ==> m <= |ev| && Steps(ev[..m], steps - 1) && WholeStep(ev[m..])
  {
    hide WholeStep;
    m := 0;
    if steps > 0 {
      m :| 0 <= m <= |ev| && Steps(ev[..m], steps - 1) && WholeStep(ev[m..]);
    }
  }

  lemma {:induction false} StepLength(ev: seq<Event>, steps: nat)
    requires Steps(ev, steps)
    ensures 3 * steps <= |ev| <= (MAX_POLLS + 2) * steps
    decreases steps
  {
    hide Steps, WholeStep;
    var m := LastStep(ev, steps);
    if steps > 0 {
      OneStepLength(ev[m..]);
      StepLength(ev[..m], steps - 1);
    }
  }

  /** The bytes of a step: one start, up to 5000 polls of the host, one stop. */
  lemma StepBytes(step: seq<Event>)
    requires WholeStep(step)
    ensures |step| <= 5002 && step[0].frame == [0x04, 0x03, 0x24, 0x00, 0xa0]
    ensures forall k :: 0 < k < |step| - 1 ==> step[k].Framed? && step[k].frame == [0x03, 0x01, 0x10]
    ensures step[|step| - 1].Framed? && step[|step| - 1].frame == [0x04, 0x03, 0x24, 0x00, 0xa2]
  {
    forall k | 0 < k < |step| - 1 ensures step[k].Framed? && step[k].frame == [0x03, 0x01, 0x10] {
      assert step[1..|step| - 1][k - 1] == step[k];
    }
  }

  /** A poll goes on exactly if it is answered by a frame of two data bytes or more whose second is not 0. */
  lemma PollGoesOnIff(r: Reply)
    ensures !EndsWait(Framed([0x03, 0x01, 0x10], Answered(r), StatusOf(r))) <==>
            Answered(r) && r.bytes[1] >= 2 && r.bytes[3] != 0
  {
    hide Answered, StatusOf;
    StatusMeans(r);
  }

  lemma OneStepLength(step: seq<Event>)
    requires WholeStep(step)
    ensures 3 <= |step| <= MAX_POLLS + 2
  {
  }

  /**
   The motor may be running after these events: a start was sent, and no command
   to stop it has been acknowledged since.  A start whose own transaction failed
   counts if `lost`, as it may have arrived with only its reply lost.
   */
  ghost predicate Running(ev: seq<Event>, lost: bool) {
    ev != [] &&
    var e := ev[|ev| - 1];
    (Issues(e, START) && (e.ok || lost)) || (!(Issues(e, FINISH) && e.ok) && Running(ev[..|ev| - 1], lost))
  }

  /** A start is only ever sent while the motor cannot be running. */
  ghost predicate NeverDoubleStarted(ev: seq<Event>, lost: bool) {
    forall k :: 0 <= k < |ev| && Issues(ev[k], START) ==> !Running(ev[..k], lost)
  }

  ghost predicate Balanced(ev: seq<Event>, lost: bool) {
    NeverDoubleStarted(ev, lost) && !Running(ev, lost)
  }

  /** Every command to stop the motor was acknowledged. */
  ghost predicate StopsAcknowledged(ev: seq<Event>) {
    forall k :: 0 <= k < |ev| && Issues(ev[k], FINISH) ==> ev[k].ok
  }

  lemma OneMore(ev: seq<Event>, e: Event, lost: bool)
    ensures NeverDoubleStarted(ev + [e], lost) <==>
            NeverDoubleStarted(ev, lost) && (Issues(e, START) ==> !Running(ev, lost))
    ensures Running(ev + [e], lost) <==>
            (Issues(e, START) && (e.ok || lost)) || (!(Issues(e, FINISH) && e.ok) && Running(ev, lost))
  {
    var more := ev + [e];
    assert more[..|ev|] == ev && more[|ev|] == e;
    forall k | 0 <= k < |ev| ensures more[k] == ev[k] && more[..k] == ev[..k] {
    }
  }

  lemma {:induction false} PollsKeepRunning(before: seq<Event>, polls: seq<Event>, lost: bool)
    requires forall k :: 0 <= k < |polls| ==> Issues(polls[k], POLL_HOST)
    ensures Running(before + polls, lost) <==> Running(before, lost)
    ensures NeverDoubleStarted(before + polls, lost) <==> NeverDoubleStarted(before, lost)
  {
    if polls == [] {
      assert before + polls == before;
    } else {
      hide Running, NeverDoubleStarted;
      var n := |polls| - 1;
      PollsKeepRunning(before, polls[..n], lost);
      OneMore(before + polls[..n], polls[n], lost);
      assert before + polls == before + polls[..n] + [polls[n]];
    }
  }

  /** What a whole step does: it needs a motor that is off, and leaves it off iff its last command was acknowledged. */
  lemma StepEffect(before: seq<Event>, step: seq<Event>, lost: bool)
    requires WholeStep(step)
    ensures NeverDoubleStarted(before + step, lost) <==> Balanced(before, lost)
    ensures Running(before + step, lost) <==> !step[|step| - 1].ok
  {
    hide NeverDoubleStarted, Running;
    var polls := step[1..|step| - 1];
    OneMore(before, step[0], lost);
    PollsKeepRunning(before + [step[0]], polls, lost);
    OneMore(before + [step[0]] + polls, step[|step| - 1], lost);
    assert before + step == before + [step[0]] + polls + [step[|step| - 1]];
  }

  lemma StepAcknowledged(before: seq<Event>, step: seq<Event>)
    requires WholeStep(step)
    ensures StopsAcknowledged(before + step) <==> StopsAcknowledged(before) && step[|step| - 1].ok
  {
    var all, n := before + step, |step| - 1;
    assert forall k :: 0 <= k < |before| ==> all[k] == before[k];
    assert forall k :: 0 <= k < |step| ==> all[|before| + k] == step[k];
    assert forall k :: 0 < k < n ==> step[k] == step[1..n][k - 1];
    if StopsAcknowledged(all) {
      assert all[|before| + n].ok;
    }
  }

  /** Over whole steps, starts and stops are balanced exactly if every stop was acknowledged. */
  lemma {:induction false} StepsBalancedIff(ev: seq<Event>, steps: nat, lost: bool)
    requires Steps(ev, steps)
    ensures Balanced(ev, lost) <==> StopsAcknowledged(ev)
    decreases steps
  {
    hide Steps, WholeStep;
    var m := LastStep(ev, steps);
    if steps > 0 {
      hide Running, NeverDoubleStarted, StopsAcknowledged;
      StepsBalancedIff(ev[..m], steps - 1, lost);
      StepEffect(ev[..m], ev[m..], lost);
      StepAcknowledged(ev[..m], ev[m..]);
      assert ev == ev[..m] + ev[m..];
    }
  }

  /**
   The same for a whole run.  A failed start at its end leaves the motor off
   unless the start may have arrived all the same.
   */
  lemma RunBalancedIff(ev: seq<Event>, steps: nat, last: seq<Event>, lost: bool)
    requires Steps(ev, steps) && (last == [] || FailedStart(last))
    ensures Balanced(ev + last, lost) <==> StopsAcknowledged(ev) && (lost ==> last == [])
    ensures |ev + last| <= (MAX_POLLS + 2) * steps + 1
  {
    hide NeverDoubleStarted, Running, Steps, StopsAcknowledged;
    StepsBalancedIff(ev, steps, lost);
    StepLength(ev, steps);
    if last == [] {
      assert ev + last == ev;
    } else {
      OneMore(ev, last[0], lost);
      assert ev + last == ev + [last[0]];
    }
  }

  /** A run that reports no error is balanced. */
  lemma NoErrorsBalanced(ev: seq<Event>, steps: nat, last: seq<Event>, lost: bool)
    requires Steps(ev, steps) && (last == [] || FailedStart(last)) && Failures(ev + last) == 0
    ensures Balanced(ev + last, lost)
  {
    hide Steps, Balanced;
    FailuresConcat(ev, last);
    FailedStartCounts(last);
    NoFailureAcknowledged(ev);
    RunBalancedIff(ev, steps, last, lost);
  }

  lemma FailedStartCounts(last: seq<Event>)
    requires last == [] || FailedStart(last)
    ensures last != [] ==> Failures(last) == 1
  {
    if last != [] {
      assert last[..0] == [];
    }
  }

  lemma {:induction false} NoFailureAcknowledged(ev: seq<Event>)
    requires Failures(ev) == 0
    ensures StopsAcknowledged(ev)
  {
    if ev != [] {
      NoFailureAcknowledged(ev[..|ev| - 1]);
    }
  }

  /** A step whose stop command failed is followed by the next start all the same. */
  function Unstopped(): seq<Event> {
    [Framed(START, true, SUCCESS), Framed(POLL_HOST, true, SUCCESS), Framed(FINISH, false, SUCCESS)]
  }

  /** Two such steps are a run of the loop: the second start is sent to a motor that was never told to stop. */
  lemma FailedStopRestarts(lost: bool)
    ensures Steps(Unstopped() + Unstopped(), 2)
    ensures !NeverDoubleStarted(Unstopped() + Unstopped(), lost) && Running(Unstopped() + Unstopped(), lost)
  {
    var step := Unstopped();
    assert WholeStep(step) by {
      assert step[1..2] == [Framed(POLL_HOST, true, SUCCESS)];
    }
    hide WholeStep;
    NoSteps();
    AddStep([], 0, step);
    assert [] + step == step;
    AddStep(step, 1, step);
    StepEffect([], step, lost);
    StepEffect(step, step, lost);
  }

  /** The start at `k` is answered by a stop command at `m`, with nothing but at most 5000 polls between them. */
  predicate Answers(ev: seq<Event>, k: nat, m: nat) {
    k < m < |ev| && m - k <= MAX_POLLS + 1 && Issues(ev[m], FINISH) &&
    forall j :: k < j < m ==> Issues(ev[j], POLL_HOST)
  }

  /** Acknowledged or not, a stop command follows every acknowledged start before the next start and before the end. */
  lemma {:induction false} StartsFinalized(ev: seq<Event>, steps: nat, k: nat) returns (m: nat)
    requires Steps(ev, steps) && k < |ev| && Issues(ev[k], START)
    ensures Answers(ev, k, m)
    decreases steps
  {
    hide Steps;
    var b := LastStep(ev, steps);
    var before, step := ev[..b], ev[b..];
    if k < b {
      m := StartsFinalized(before, steps - 1, k);
      assert forall j :: 0 <= j < b ==> before[j] == ev[j];
    } else {
      m := |ev| - 1;
      assert forall j :: 0 <= j < |step| ==> step[j] == ev[b + j];
      assert forall j :: b < j < m ==> ev[j] == step[1..|step| - 1][j - b - 1];
      assert k == b;
    }
  }
}
