/**
 The poll-driven scan (tools/pakon_replay.c, do_scan_sm): the script up to the
 65th image read after motor start, then the driven image phase, then the
 teardown of the script or, if it has none, a bare stop.
 */
module DrivenScan {
  import opened Bytes
  import opened CText
  import opened Script
  import opened Session
  import opened Chunks
  import opened Replay
  import opened Scan
  import opened DrivenLoop

  const TAKEOVER_READS := 64
  const STOP_READOUT: seq<byte> := [0x04, 0x03, 0x20, 0x00, 0x92]
  const STOP_MOTOR: seq<byte> := [0x04, 0x03, 0x24, 0x00, 0xa2]

  /** Some line is exactly the motor-start command. */
  ghost predicate MotorSeen(lines: seq<string>) {
    lines != [] && (MotorSeen(lines[..|lines| - 1]) || ParseLine(lines[|lines| - 1]) == Send(MOTOR_START))
  }

  /** Image reads after the first motor start. */
  ghost function ReadsAfterMotor(lines: seq<string>): nat {
    if lines == [] then 0
    else
      var before := lines[..|lines| - 1];
      ReadsAfterMotor(before) + if ParseLine(lines[|lines| - 1]).Image? && MotorSeen(before) then 1 else 0
  }

  /** The image read at which the driven phase takes over. */
  ghost predicate TakesOver(lines: seq<string>, k: nat) {
    k < |lines| && ParseLine(lines[k]).Image? && MotorSeen(lines[..k]) && ReadsAfterMotor(lines[..k]) >= TAKEOVER_READS
  }

  /** Replay of the script proper ends at line `at`, for a reason, and no earlier. */
  ghost predicate SetupEnds(lines: seq<string>, at: nat) {
    at <= |lines| && NoneBad(lines[..at]) && (forall k :: 0 <= k < at ==> !TakesOver(lines, k)) &&
    (at < |lines| ==> TakesOver(lines, at) || ParseLine(lines[at]).Bad?)
  }

  ghost predicate BareStop(tail: seq<Event>) {
    |tail| == 2 && tail[0].Framed? && tail[0].frame == STOP_READOUT && tail[1].Framed? && tail[1].frame == STOP_MOTOR
  }

  /** What a run does: `setup`, the driven phase `loop`, which ends by `stop`, and `tail`. */
  ghost predicate DrivenOutcome(lines: seq<string>, rc: int, at: nat, stop: Stop,
    setup: seq<Event>, loop: seq<Event>, tail: seq<Event>)
  {
    SetupEnds(lines, at) && Ran(lines[..at], setup) && OnlyPolls(loop) &&
    if at < |lines| && ParseLine(lines[at]).Bad? then rc == 1 && loop == [] && tail == []
    else
      rc == 0 &&
      if stop.Running? then tail == []     // still in the driven phase
      else if Teardown(lines) != [] then Exactly(tail, Teardown(lines))
      else BareStop(tail)
  }

  // ---- phase 1 ----------------------------------------------------------------------------

  /** The state after the lines `done`. */
  ghost predicate SetUp(done: seq<string>, ev: seq<Event>, passed: bool, count: nat) {
    Ran(done, ev) && NoneBad(done) && passed == MotorSeen(done) && count == ReadsAfterMotor(done)
  }

  lemma SetupCommand(done: seq<string>, line: string, ev: seq<Event>, passed: bool, count: nat, e: Event)
    requires SetUp(done, ev, passed, count) && CarriesData(e)
    requires (e.Sent? || e.Transfer?) && Operation(e) == ParseLine(line)
    ensures SetUp(done + [line], ev + [e], passed || ParseLine(line) == Send(MOTOR_START), count)
  {
    hide ParseLine, CarriesData, Ran;
    RanEvent(done, line, ev, e);
    NoneBadMore(done, line);
    assert (done + [line])[..|done|] == done;
  }

  lemma SetupSilent(done: seq<string>, line: string, ev: seq<Event>, passed: bool, count: nat)
    requires SetUp(done, ev, passed, count) && ParseLine(line).Skip?
    ensures SetUp(done + [line], ev, passed, count)
  {
    hide ParseLine, Ran;
    RanSilent(done, line, ev);
    NoneBadMore(done, line);
    assert (done + [line])[..|done|] == done;
  }

  lemma SetupImage(done: seq<string>, line: string, ev: seq<Event>, passed: bool, count: nat, e: Event)
    requires SetUp(done, ev, passed, count) && e.Read? && ParseLine(line) == Image(e.want)
    ensures SetUp(done + [line], ev + [e], passed, if passed then count + 1 else count)
  {
    hide ParseLine;
    RanEvent(done, line, ev, e);
    NoneBadMore(done, line);
    assert (done + [line])[..|done|] == done;
  }

  lemma StartSetup()
    ensures SetUp([], [], false, 0)
  {
    NothingRan();
  }

  /** Lines other than image reads; `ok` is false at an unreadable line. */
  method SetupLine(dev: Device, line: string, buf: array<byte>, passed: bool, ghost count: nat,
        ghost done: seq<string>, ghost ev: seq<Event>)
    returns (ok: bool, passed': bool, ghost more: seq<Event>)
    requires buf.Length == BUFFER && SetUp(done, ev, passed, count)
    requires Word(line) == [] || Word(line)[0] != 'M'
    modifies dev`clock, dev`trace, buf
    ensures ok <==> !ParseLine(line).Bad?
    ensures dev.trace == old(dev.trace) + more && ImageBytes(more) == []
    ensures if ok then SetUp(done + [line], ev + more, passed', count) else more == []
  {
    hide ScanSetup, HexBytes, SetUp;
    ok, passed', more := true, passed, [];
    assert ev + [] == ev;
    var p := Word(line);
    if p == [] || p[0] == '#' || p[0] == '\n' {
      SetupSilent(done, line, ev, passed, count);
    } else if p[0] == 'O' {
      var n := HexBytesInto(p[1..], buf);
      if n < 0 { return false, passed, []; }
      var motor := buf[..n] == MOTOR_START;
      ghost var frame := buf[..n];
      var sent := dev.Exchange(buf, n);
      SetupCommand(done, line, ev, passed, count, Sent(frame, sent));
      Unseen(false, ev, Sent(frame, sent));
      more := [Sent(frame, sent)];
      if motor { passed' := true; }
    } else if p[0] == 'C' {
      var read, e := ControlLine(dev, p[1..], buf);
      if !read { return false, passed, []; }
      SetupCommand(done, line, ev, passed, count, e);
      Unseen(false, ev, e);
      more := [e];
    } else {
      SetupSilent(done, line, ev, passed, count);
    }
  }

  method SetupImageLine(dev: Device, line: string, buf: array<byte>, passed: bool, count: nat,
        ghost done: seq<string>, ghost ev: seq<Event>)
    returns (count': nat, ghost e: Event)
    requires buf.Length == BUFFER && SetUp(done, ev, passed, count)
    requires Word(line) != [] && Word(line)[0] == 'M'
    modifies dev`clock, dev`trace, dev`image, dev`imgBytes, buf
    ensures dev.trace == old(dev.trace) + [e] && e.Read? && dev.image == old(dev.image) + e.bytes
    ensures dev.imgBytes == old(dev.imgBytes) + |e.bytes|
    ensures SetUp(done + [line], ev + [e], passed, count')
  {
    hide StrToUL, Word, SetUp;
    IsImage(line);
    var p := Word(line);
    var got, result := ImageLine(dev, p[1..], buf);
    e := Read(Min(StrToUL(p[1..]), BUFFER), result, buf[..got]);
    SetupImage(done, line, ev, passed, count, e);
    count' := if passed then count + 1 else count;
  }

  /** Phase 1: replay lines until the takeover, an unreadable line or the end. */
  method ReplaySetup(dev: Device, lines: seq<string>) returns (bad: bool, ghost at: nat, ghost ev: seq<Event>)
    modifies dev
    ensures dev.trace == old(dev.trace) + ev && dev.image == old(dev.image) + ImageBytes(ev)
    ensures dev.imgBytes == old(dev.imgBytes) + |ImageBytes(ev)|
    ensures SetupEnds(lines, at) && Ran(lines[..at], ev)
    ensures bad <==> at < |lines| && ParseLine(lines[at]).Bad?
  {
    hide ParseLine, Word, SetUp, ImageBytes, NoneBad, MotorSeen, ReadsAfterMotor, Ran;
    var buf := new byte[BUFFER];
    var i, passed := 0, false;
    var count: nat := 0;
    bad, ev := false, [];
    StartSetup();
    NoImageBytes();
    while i < |lines|
      invariant i <= |lines| && fresh(buf) && !bad
      invariant dev.trace == old(dev.trace) + ev && dev.image == old(dev.image) + ImageBytes(ev)
      invariant dev.imgBytes == old(dev.imgBytes) + |ImageBytes(ev)|
      invariant SetUp(lines[..i], ev, passed, count)
      invariant forall k :: 0 <= k < i ==> !TakesOver(lines, k)
    {
      var line := lines[i];
      var p := Word(line);
      assert lines[..i + 1] == lines[..i] + [line];
      Counted(lines, i, ev, passed, count);
      if p != [] && p[0] == 'M' {
        IsImage(line);
        if passed && count >= TAKEOVER_READS {
          at := i;
          return;
        }
        ghost var e;
        count, e := SetupImageLine(dev, line, buf, passed, count, lines[..i], ev);
        ImageBytesMore(ev, e);
        ev := ev + [e];
      } else {
        NotImage(line);
        var ok, a, more := SetupLine(dev, line, buf, passed, count, lines[..i], ev);
        ImageBytesConcat(ev, more);
        if !ok {
          at := i;
          return true, at, ev;
        }
        passed, ev := a, ev + more;
      }
      i := i + 1;
    }
    Counted(lines, i, ev, passed, count);
    at := i;
  }

  lemma Counted(lines: seq<string>, i: nat, ev: seq<Event>, passed: bool, count: nat)
    requires i <= |lines| && SetUp(lines[..i], ev, passed, count)
    ensures NoneBad(lines[..i]) && Ran(lines[..i], ev)
    ensures passed == MotorSeen(lines[..i]) && count == ReadsAfterMotor(lines[..i])
  {
  }

  // ---- the driver ----------------------------------------------------------------------------

  /** The driven phase after `setup`, in a file that had `bytes` bytes: whole windows up to the first that ends it. */
  ghost predicate DrivenPhase(loop: seq<Event>, maxMb: nat, bytes: nat, setup: seq<Event>, stop: Stop, turns: nat, budget: nat) {
    var cap, before := CapBytes(maxMb), bytes + |ImageBytes(setup)|;
    Windows(loop, cap, before, turns) && turns <= budget &&
    if stop.Running? then turns == budget && GoesOn(loop, cap, before)
    else Stopped(stop, loop, cap, before + |ImageBytes(loop)|)
  }

  method DoScanSm(dev: Device, script: string, maxMb: nat, budget: nat, ghost b: nat)
    returns (rc: int, ghost at: nat, stop: Stop, turns: nat,
          ghost setup: seq<Event>, ghost loop: seq<Event>, ghost tail: seq<Event>)
    modifies dev
    ensures dev.trace == old(dev.trace) + setup + loop + tail
    ensures dev.image == old(dev.image) + ImageBytes(setup) + ImageBytes(loop)
    ensures DrivenOutcome(Pieces(script), rc, at, stop, setup, loop, tail)
    ensures dev.imgBytes == old(dev.imgBytes) + |ImageBytes(setup)| + |ImageBytes(loop)|
    ensures rc == 0 ==> DrivenPhase(loop, maxMb, old(dev.imgBytes), setup, stop, turns, budget)
    ensures rc == 0 && CapBytes(maxMb) > 0 && BusyBounded(dev.reply, b) && budget >= Enough(CapBytes(maxMb), 0, b)
            ==> !stop.Running?
  {
    hide Stopped, CapBytes, Enough, BusyBounded, Windows, GoesOn;
    hide Pieces, SetupEnds, Ran, OnlyPolls, ImageBytes, Teardown, Commands, CarriesData;
    var lines := Pieces(script);
    var bad;
    bad, at, setup := ReplaySetup(dev, lines);
    rc, stop, turns, loop, tail := 0, Running, 0, [], [];
    AtStart();
    if bad {
      rc := 1;
      return;
    }
    var filmSeen;
    EnoughFromEmpty(CapBytes(maxMb), dev.imgBytes, b);
    stop, filmSeen, turns, loop := ScanLoop(dev, maxMb, budget, b);
    if stop.Running? { return; }
    var td;
    td, tail := ReplayTeardown(dev, script);
    if td == 0 {
      var ok := dev.Post(STOP_READOUT);
      var ok' := dev.Post(STOP_MOTOR);
      tail := tail + [Framed(STOP_READOUT, ok, 0), Framed(STOP_MOTOR, ok', 0)];
    }
  }

  // ---- which commands a run issues --------------------------------------------------------------

  lemma {:induction false} PollsAreNoCommands(ev: seq<Event>)
    requires OnlyPolls(ev)
    ensures Commands(ev) == []
  {
    if ev != [] {
      assert ReadOrPoll(ev[|ev| - 1]);
      PollsAreNoCommands(ev[..|ev| - 1]);
    }
  }

  lemma {:induction false} BareStopNoCommands(tail: seq<Event>)
    requires BareStop(tail)
    ensures Commands(tail) == []
  {
    assert tail[..1][..0] == [] && Commands(tail[..1]) == [];
  }

  /** A finished run issues the setup commands and then the teardown, around a phase of polls only. */
  lemma DrivenCommands(lines: seq<string>, at: nat, stop: Stop, setup: seq<Event>, loop: seq<Event>, tail: seq<Event>)
    requires DrivenOutcome(lines, 0, at, stop, setup, loop, tail) && !stop.Running?
    ensures Commands(loop) == [] && Carried(setup) == Asked(lines[..at])
    ensures |setup| == |Asked(lines[..at])| && (Teardown(lines) != [] ==> |tail| == |Teardown(lines)|)
    ensures Commands(setup + loop + tail) == ScriptCommands(lines[..at]) + Teardown(lines)
    ensures Teardown(lines) == [] ==> BareStop(tail)
  {
    hide ParseLine, Teardown, ScriptCommands, Commands, OnlyPolls, SetupEnds, BareStop;
    NothingElse(setup);
    PollsAreNoCommands(loop);
    CommandsConcat(setup, loop);
    CommandsConcat(setup + loop, tail);
    if Teardown(lines) == [] {
      BareStopNoCommands(tail);
    }
  }

  /** The line at `j` starts the motor. */
  predicate StartsAt(lines: seq<string>, j: nat) {
    j < |lines| && ParseLine(lines[j]) == Send([0x04, 0x03, 0x24, 0x00, 0xa0])
  }

  /** The reads after motor start are the image lines with such a line somewhere before them. */
  predicate ReadAfterStart(lines: seq<string>, k: nat) {
    k < |lines| && ParseLine(lines[k]).Image? && exists j :: 0 <= j < k && StartsAt(lines, j)
  }

  lemma {:induction false} MotorSeenIff(lines: seq<string>)
    ensures MotorSeen(lines) <==> exists j :: 0 <= j < |lines| && StartsAt(lines, j)
  {
    hide ParseLine;
    if lines != [] {
      var n := |lines| - 1;
      var front := lines[..n];
      MotorSeenIff(front);
      assert forall j: nat :: j < n ==> (StartsAt(lines, j) <==> StartsAt(front, j));
      if MotorSeen(front) {
        var j :| 0 <= j < n && StartsAt(front, j);
        assert StartsAt(lines, j);
      }
      assert ParseLine(lines[n]) == Send(MOTOR_START) <==> StartsAt(lines, n);
    }
  }

  lemma ReadBefore(lines: seq<string>, n: nat, k: nat)
    requires k < n <= |lines|
    ensures ReadAfterStart(lines, k) <==> ReadAfterStart(lines[..n], k)
  {
    hide ParseLine;
    assert forall j: nat :: j < n ==> (StartsAt(lines, j) <==> StartsAt(lines[..n], j));
  }

  lemma ReadsMore(lines: seq<string>)
    requires lines != []
    ensures var front := lines[..|lines| - 1];
            ReadsAfterMotor(lines) ==
            ReadsAfterMotor(front) + if ParseLine(lines[|lines| - 1]).Image? && MotorSeen(front) then 1 else 0
  {
    hide ParseLine, MotorSeen;
  }

  lemma {:induction false} ReadsCount(lines: seq<string>)
    ensures ReadsAfterMotor(lines) == |set k: nat | k < |lines| && ReadAfterStart(lines, k)|
  {
    hide ParseLine, MotorSeen;
    var found := set k: nat | k < |lines| && ReadAfterStart(lines, k);
    if lines == [] {
      assert found == {};
    } else {
      var n := |lines| - 1;
      var front := lines[..n];
      ReadsCount(front);
      ReadsMore(lines);
      MotorSeenIff(front);
      assert forall j: nat :: j < n ==> (StartsAt(lines, j) <==> StartsAt(front, j));
      hide StartsAt, ReadsAfterMotor;
      forall k: nat | k < n ensures ReadAfterStart(lines, k) <==> ReadAfterStart(front, k) {
        ReadBefore(lines, n, k);
      }
      var before := set k: nat | k < |front| && ReadAfterStart(front, k);
      var last := if ReadAfterStart(lines, n) then {n} else {};
      assert found == before + last && before !! last;
      assert ReadAfterStart(lines, n) <==> ParseLine(lines[n]).Image? && MotorSeen(front);
    }
  }

  /** The two commands sent when the script has no teardown. */
  lemma BareStopBytes(tail: seq<Event>)
    requires BareStop(tail)
    ensures |tail| == 2 && tail[0].frame == [0x04, 0x03, 0x20, 0x00, 0x92] && tail[1].frame == [0x04, 0x03, 0x24, 0x00, 0xa2]
  {
  }

  /** There is a takeover exactly when 65 image reads follow motor start. */
  lemma {:induction false} TakeoverIff(lines: seq<string>)
    ensures (exists k :: TakesOver(lines, k)) <==> ReadsAfterMotor(lines) > 64
  {
    hide ParseLine, MotorSeen;
    if lines != [] {
      var n := |lines| - 1;
      var before := lines[..n];
      TakeoverIff(before);
      assert forall k: nat :: k < n ==> lines[..k] == before[..k];
      if exists k :: TakesOver(before, k) {
        var k :| TakesOver(before, k);
        assert TakesOver(lines, k);
      }
      if exists k :: TakesOver(lines, k) {
        var k: nat :| TakesOver(lines, k);
        assert k < n ==> TakesOver(before, k);
      }
      if ParseLine(lines[n]).Image? && MotorSeen(before) && ReadsAfterMotor(before) >= TAKEOVER_READS {
        assert TakesOver(lines, n);
      }
    }
  }

  /** With 65 image reads after motor start, setup and teardown are disjoint stretches of the script. */
  lemma TakeoverIssuesOnce(lines: seq<string>, at: nat, stop: Stop, setup: seq<Event>, loop: seq<Event>, tail: seq<Event>)
    requires DrivenOutcome(lines, 0, at, stop, setup, loop, tail) && !stop.Running?
    requires ReadsAfterMotor(lines) > 64
    ensures at <= LastImage(lines) && TakesOver(lines, at)
    ensures Commands(setup + loop + tail) == ScriptCommands(lines[..at]) + ScriptCommands(lines[LastImage(lines) + 1..])
    ensures ScriptCommands(lines) ==
            ScriptCommands(lines[..at]) + Skipped(lines, at) + ScriptCommands(lines[LastImage(lines) + 1..])
  {
    hide ParseLine, ScriptCommands, Commands, Ran, MotorSeen, ReadsAfterMotor;
    TakeoverIff(lines);
    var k :| TakesOver(lines, k);
    DrivenCommands(lines, at, stop, setup, loop, tail);
    var last := LastImage(lines);
    SplitScript(lines, last + 1);
    SplitScript(lines[..last + 1], at);
    assert lines[..last + 1][..at] == lines[..at] && lines[..last + 1][at..] == lines[at..last + 1];
  }

  /** Without them phase 1 works off the whole script. */
  lemma NoTakeoverReplaysAll(lines: seq<string>, at: nat)
    requires SetupEnds(lines, at) && ReadsAfterMotor(lines) <= 64
    ensures at < |lines| ==> ParseLine(lines[at]).Bad?
  {
    hide ParseLine, MotorSeen, ReadsAfterMotor, TakesOver;
    TakeoverIff(lines);
  }

  lemma SplitScript(lines: seq<string>, m: nat)
    requires m <= |lines|
    ensures ScriptCommands(lines) == ScriptCommands(lines[..m]) + ScriptCommands(lines[m..])
  {
    hide ScriptCommands;
    ScriptCommandsConcat(lines[..m], lines[m..]);
    assert lines[..m] + lines[m..] == lines;
  }

  /** Without them the whole script has already been replayed, and its tail is issued a second time. */
  lemma NoTakeoverIssuesTwice(lines: seq<string>, at: nat, stop: Stop, setup: seq<Event>, loop: seq<Event>, tail: seq<Event>)
    requires DrivenOutcome(lines, 0, at, stop, setup, loop, tail) && !stop.Running?
    requires ReadsAfterMotor(lines) <= 64
    ensures at == |lines|
    ensures Commands(setup + loop + tail) ==
            ScriptCommands(lines[..LastImage(lines) + 1]) + ScriptCommands(lines[LastImage(lines) + 1..]) + Teardown(lines)
  {
    hide ParseLine, ScriptCommands, Commands, Ran, SetupEnds, ReadsAfterMotor, Teardown, OnlyPolls, Exactly, BareStop;
    NoTakeoverReplaysAll(lines, at);
    SetupIsPrefix(lines, at);
    DrivenCommands(lines, at, stop, setup, loop, tail);
    assert lines[..at] == lines;
    SplitScript(lines, LastImage(lines) + 1);
  }

  lemma SetupIsPrefix(lines: seq<string>, at: nat)
    requires SetupEnds(lines, at)
    ensures at <= |lines|
  {
  }
}
