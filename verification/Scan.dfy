/**
 Verbatim replay of a scan script (tools/pakon_replay.c, do_scan): the whole
 script, or, with automatic stop, the script up to the end of the film and then
 its teardown.
 */
module Scan {
  import opened Bytes
  import opened CText
  import opened Script
  import opened Session
  import opened Chunks
  import opened Replay

  /** How a run ends: at the end of the script, at an unreadable line, or at the end of the film. */
  datatype End = Finished | BadLine(at: nat) | EarlyStop(at: nat)

  /** The chunks the end-of-roll watch is shown. */
  ghost function Watched(autostop: bool, ev: seq<Event>): seq<seq<byte>> {
    if autostop then ArmedChunks(ev) else []
  }

  /** The lines `done` have been worked off, with the events `ev`, and the film goes on. */
  ghost predicate Going(autostop: bool, done: seq<string>, ev: seq<Event>, armed: bool) {
    Ran(done, ev) && NoneBad(done) && (armed <==> autostop && Armed(ev)) && RollGoesOn(Watched(autostop, ev))
  }

  /** The first image read at which the film is over: a white chunk that ends the roll, and none before. */
  ghost predicate StopsAt(lines: seq<string>, k: nat, ev: seq<Event>) {
    k < |lines| && ParseLine(lines[k]).Image? && Ran(lines[..k + 1], ev) && NoneBad(lines[..k]) &&
    ev != [] && ev[|ev| - 1].Read? && EndOfRoll(ArmedChunks(ev)) && RollGoesOn(ArmedChunks(ev[..|ev| - 1]))
  }

  /** These commands and nothing else, each transfer with the data of its line. */
  ghost predicate Exactly(ev: seq<Event>, ops: seq<Op>) {
    Commands(ev) == ops && |ev| == |ops| && forall k :: 0 <= k < |ev| ==> CarriesData(ev[k])
  }

  /** What a run does: `ev` while replaying lines, `tail` in the teardown. */
  ghost predicate Outcome(lines: seq<string>, autostop: bool, rc: int, end: End, ev: seq<Event>, tail: seq<Event>) {
    match end
    case Finished =>
      rc == 0 && tail == [] && NoneBad(lines) && Ran(lines, ev) && RollGoesOn(Watched(autostop, ev))
    case BadLine(b) =>
      rc == 1 && tail == [] && b < |lines| && ParseLine(lines[b]).Bad? && NoneBad(lines[..b]) && Ran(lines[..b], ev) &&
      RollGoesOn(Watched(autostop, ev))
    case EarlyStop(k) =>
      rc == 0 && autostop && StopsAt(lines, k, ev) && Exactly(tail, Teardown(lines))
  }

  // ---- steps ---------------------------------------------------------------------------

  lemma StartGoing(autostop: bool)
    ensures Going(autostop, [], [], false) && Watched(autostop, []) == []
  {
    hide EndOfRoll, NoneBad, Ran, RollGoesOn;
    NothingRan();
    NoChunks();
  }

  lemma NothingRan()
    ensures Ran([], []) && NoneBad([])
  {
    hide ParseLine, CarriesData;
  }

  lemma GoSilent(autostop: bool, done: seq<string>, line: string, ev: seq<Event>, armed: bool)
    requires Going(autostop, done, ev, armed) && ParseLine(line).Skip?
    ensures Going(autostop, done + [line], ev, armed)
  {
    hide ParseLine, Ran, RollGoesOn;
    RanSilent(done, line, ev);
    NoneBadMore(done, line);
  }

  lemma NoneBadMore(done: seq<string>, line: string)
    requires NoneBad(done) && !ParseLine(line).Bad?
    ensures NoneBad(done + [line])
  {
    hide ParseLine;
  }

  lemma GoCommand(autostop: bool, done: seq<string>, line: string, ev: seq<Event>, armed: bool, e: Event)
    requires Going(autostop, done, ev, armed) && CarriesData(e)
    requires (e.Sent? || e.Transfer?) && Operation(e) == ParseLine(line)
    ensures Going(autostop, done + [line], ev + [e], armed || (autostop && e.Sent? && MOTOR_START <= e.frame))
  {
    hide ParseLine, RollGoesOn, CarriesData;
    RanEvent(done, line, ev, e);
    NoneBadMore(done, line);
    OneEvent(done, line, ev, e);
    assert ArmedChunks(ev + [e]) == ArmedChunks(ev);
  }

  /** An image read changes what is watched only by a non-empty chunk after arming. */
  lemma GoImage(autostop: bool, done: seq<string>, line: string, ev: seq<Event>, armed: bool, e: Event)
    requires Going(autostop, done, ev, armed) && e.Read? && ParseLine(line) == Image(e.want)
    ensures Watched(autostop, ev + [e]) ==
            if armed && e.bytes != [] then Watched(autostop, ev) + [e.bytes] else Watched(autostop, ev)
    ensures Ran(done + [line], ev + [e]) && (ev + [e])[..|ev|] == ev
    ensures (armed && e.bytes != [] ==> !EndOfRoll(Watched(autostop, ev + [e])))
            ==> Going(autostop, done + [line], ev + [e], armed)
  {
    hide ParseLine, RollGoesOn, EndOfRoll;
    OneEvent(done, line, ev, e);
    RanEvent(done, line, ev, e);
    NoneBadMore(done, line);
    if armed && e.bytes != [] && !EndOfRoll(Watched(autostop, ev + [e])) {
      RollOn(Watched(autostop, ev), e.bytes);
    }
  }

  // ---- the driver ------------------------------------------------------------------------

  /** The motor-start test on the first five bytes about to be sent. */
  method StartsMotor(buf: array<byte>, n: nat) returns (yes: bool)
    requires n <= buf.Length
    ensures yes <==> MOTOR_START <= buf[..n]
  {
    var s := buf[..n];
    yes := n >= 5 && buf[0] == 0x04 && buf[1] == 0x03 && buf[2] == 0x24 && buf[3] == 0x00 && buf[4] == 0xa0;
    if n >= 5 {
      assert s[..5] == [buf[0], buf[1], buf[2], buf[3], buf[4]];
    }
  }

  /** O and C lines and lines that say nothing; `ok` is false at an unreadable line. */
  method ScanCommand(dev: Device, line: string, buf: array<byte>, autostop: bool, armed: bool,
        ghost done: seq<string>, ghost ev: seq<Event>)
    returns (ok: bool, armed': bool, ghost more: seq<Event>)
    requires buf.Length == BUFFER && Going(autostop, done, ev, armed) && !ParseLine(line).Image?
    modifies dev`clock, dev`trace, buf
    ensures ok <==> !ParseLine(line).Bad?
    ensures dev.trace == old(dev.trace) + more && ImageBytes(more) == []
    ensures if ok then Going(autostop, done + [line], ev + more, armed') else more == []
    ensures Watched(autostop, ev + more) == Watched(autostop, ev)
  {
    hide ScanSetup, HexBytes, Going;
    ok, armed', more := true, armed, [];
    assert ev + [] == ev;
    var p := Word(line);
    if p == [] || p[0] == '#' || p[0] == '\n' {
      GoSilent(autostop, done, line, ev, armed);
    } else if p[0] == 'O' {
      var n := HexBytesInto(p[1..], buf);
      if n < 0 { return false, armed, []; }
      var motor := StartsMotor(buf, n);
      if autostop && !armed && motor { armed' := true; }
      ghost var frame := buf[..n];
      var sent := dev.Exchange(buf, n);
      GoCommand(autostop, done, line, ev, armed, Sent(frame, sent));
      Unseen(autostop, ev, Sent(frame, sent));
      more := [Sent(frame, sent)];
    } else if p[0] == 'C' {
      var read, e := ControlLine(dev, p[1..], buf);
      if !read { return false, armed, []; }
      GoCommand(autostop, done, line, ev, armed, e);
      Unseen(autostop, ev, e);
      more := [e];
    } else {
      GoSilent(autostop, done, line, ev, armed);
    }
  }

  /** Commands bring no image data. */
  lemma Unseen(autostop: bool, ev: seq<Event>, e: Event)
    requires !e.Read?
    ensures Watched(autostop, ev + [e]) == Watched(autostop, ev) && ImageBytes([e]) == []
  {
    assert (ev + [e])[..|ev|] == ev && [e][..0] == [];
  }

  /** An M line; `over` at the end of the film. */
  method ScanImage(dev: Device, line: string, buf: array<byte>, watch: RollWatch, autostop: bool, armed: bool,
        ghost done: seq<string>, ghost ev: seq<Event>)
    returns (over: bool, ghost e: Event)
    requires buf.Length == BUFFER && Going(autostop, done, ev, armed)
    requires Word(line) != [] && Word(line)[0] == 'M'
    requires watch.Valid() && watch.trailWhite < TRAIL_WHITE && watch.chunks == Watched(autostop, ev)
    modifies dev`clock, dev`trace, dev`image, dev`imgBytes, buf, watch
    ensures e.Read? && dev.trace == old(dev.trace) + [e] && dev.image == old(dev.image) + e.bytes
    ensures watch.Valid() && watch.chunks == Watched(autostop, ev + [e])
    ensures over ==> armed && EndOfRoll(Watched(autostop, ev + [e])) && Ran(done + [line], ev + [e])
    ensures !over ==> Going(autostop, done + [line], ev + [e], armed) && watch.trailWhite < TRAIL_WHITE
  {
    hide StrToUL, Word, EndOfRoll, Watched, Ran;
    var p := Word(line);
    IsImage(line);
    var got, result := ImageLine(dev, p[1..], buf);
    e := Read(Min(StrToUL(p[1..]), BUFFER), result, buf[..got]);
    GoImage(autostop, done, line, ev, armed, e);
    over := false;
    if autostop && armed && got > 0 {
      over := watch.Feed(buf, got);
    }
  }

  method DoScan(dev: Device, script: string, autostop: bool)
    returns (rc: int, ghost end: End, ghost ev: seq<Event>, ghost tail: seq<Event>)
    modifies dev
    ensures dev.trace == old(dev.trace) + ev + tail
    ensures dev.image == old(dev.image) + ImageBytes(ev)
    ensures Outcome(Pieces(script), autostop, rc, end, ev, tail)
  {
    hide Pieces, ParseLine, Going, Word, ImageBytes, Watched, Outcome, Ran, EndOfRoll, StopsAt, Commands, Teardown, CarriesData;
    var lines := Pieces(script);
    var buf := new byte[BUFFER];
    var watch := new RollWatch();
    var armed, i := false, 0;
    rc, end, ev, tail := 0, Finished, [], [];
    StartGoing(autostop);
    NoImageBytes();
    while i < |lines|
      invariant i <= |lines| && fresh(buf) && fresh(watch)
      invariant dev.trace == old(dev.trace) + ev && dev.image == old(dev.image) + ImageBytes(ev)
      invariant Going(autostop, lines[..i], ev, armed)
      invariant watch.Valid() && watch.trailWhite < TRAIL_WHITE && watch.chunks == Watched(autostop, ev)
    {
      var line := lines[i];
      var p := Word(line);
      assert lines[..i + 1] == lines[..i] + [line];
      if p != [] && p[0] == 'M' {
        var over, e := ScanImage(dev, line, buf, watch, autostop, armed, lines[..i], ev);
        ImageBytesMore(ev, e);
        if over {
          StopsHere(autostop, lines, i, ev, armed, e);
          ev := ev + [e];
          var td;
          td, tail := ReplayTeardown(dev, script);
          rc, end := 0, EarlyStop(i);
          OutcomeStopped(lines, i, ev, tail);
          return;
        }
        ev := ev + [e];
      } else {
        NotImage(line);
        var ok, a, more := ScanCommand(dev, line, buf, autostop, armed, lines[..i], ev);
        ImageBytesConcat(ev, more);
        if !ok {
          rc, end := 1, BadLine(i);
          OutcomeBad(autostop, lines, i, ev, armed);
          return;
        }
        armed, ev := a, ev + more;
      }
      i := i + 1;
    }
    OutcomeFinished(autostop, lines, ev, armed);
  }

  lemma NoImageBytes()
    ensures ImageBytes([]) == []
  {
  }

  lemma StopsHere(autostop: bool, lines: seq<string>, k: nat, ev: seq<Event>, armed: bool, e: Event)
    requires k < |lines| && Going(autostop, lines[..k], ev, armed) && armed
    requires Word(lines[k]) != [] && Word(lines[k])[0] == 'M' && e.Read?
    requires EndOfRoll(Watched(autostop, ev + [e])) && Ran(lines[..k + 1], ev + [e])
    ensures autostop && StopsAt(lines, k, ev + [e])
  {
    hide EndOfRoll, RollGoesOn, Ran, ArmedChunks;
    IsImage(lines[k]);
    assert (ev + [e])[..|ev|] == ev;
  }

  lemma OutcomeStopped(lines: seq<string>, k: nat, ev: seq<Event>, tail: seq<Event>)
    requires StopsAt(lines, k, ev) && Exactly(tail, Teardown(lines))
    ensures Outcome(lines, true, 0, EarlyStop(k), ev, tail)
  {
  }

  lemma OutcomeBad(autostop: bool, lines: seq<string>, b: nat, ev: seq<Event>, armed: bool)
    requires b < |lines| && Going(autostop, lines[..b], ev, armed) && ParseLine(lines[b]).Bad?
    ensures Outcome(lines, autostop, 1, BadLine(b), ev, [])
  {
  }

  lemma OutcomeFinished(autostop: bool, lines: seq<string>, ev: seq<Event>, armed: bool)
    requires Going(autostop, lines[..|lines|], ev, armed)
    ensures Outcome(lines, autostop, 0, Finished, ev, [])
  {
    assert lines[..|lines|] == lines;
  }

  lemma IsImage(line: string)
    requires Word(line) != [] && Word(line)[0] == 'M'
    ensures ParseLine(line) == Image(Min(StrToUL(Word(line)[1..]), BUFFER))
  {
  }

  lemma NotImage(line: string)
    requires Word(line) == [] || Word(line)[0] != 'M'
    ensures !ParseLine(line).Image?
  {
  }

  lemma ImageBytesMore(ev: seq<Event>, e: Event)
    ensures ImageBytes(ev + [e]) == ImageBytes(ev) + (if e.Read? then e.bytes else [])
  {
    assert (ev + [e])[..|ev|] == ev;
  }

  // ---- which commands a run issues ---------------------------------------------------------

  lemma {:induction false} ScriptCommandsConcat(s: seq<string>, t: seq<string>)
    ensures ScriptCommands(s + t) == ScriptCommands(s) + ScriptCommands(t)
  {
    hide ParseLine;
    if t == [] {
      assert s + t == s;
    } else {
      assert (s + t)[..|s + t| - 1] == s + t[..|t| - 1];
      ScriptCommandsConcat(s, t[..|t| - 1]);
    }
  }

  /** The commands between a line and the last image read, which an early stop leaves out. */
  function Skipped(lines: seq<string>, k: nat): seq<Op>
    requires k <= LastImage(lines)
  {
    ScriptCommands(lines[k..LastImage(lines) + 1])
  }

  /**
   A run stopped at line `k` issues the script's commands with one stretch cut
   out: those before `k`, then those after the last image read, each once.
   */
  lemma EarlyStopCommands(lines: seq<string>, k: nat, ev: seq<Event>, tail: seq<Event>)
    requires Outcome(lines, true, 0, EarlyStop(k), ev, tail)
    ensures k <= LastImage(lines)
    ensures Carried(ev) == Asked(lines[..k + 1])
    ensures |ev + tail| == |Asked(lines[..k + 1])| + |Teardown(lines)|
    ensures Commands(ev + tail) == ScriptCommands(lines[..k]) + ScriptCommands(lines[LastImage(lines) + 1..])
    ensures ScriptCommands(lines) ==
            ScriptCommands(lines[..k]) + Skipped(lines, k) + ScriptCommands(lines[LastImage(lines) + 1..])
  {
    hide ParseLine, ScriptCommands, Commands, EndOfRoll, RollGoesOn;
    CommandsConcat(ev, tail);
    NothingElse(ev);
    var last := LastImage(lines);
    assert k <= last;
    assert lines[..k + 1] == lines[..k] + [lines[k]];
    SilentLine(lines[..k], lines[k]);
    ScriptCommandsConcat(lines[..k], lines[k..last + 1]);
    ScriptCommandsConcat(lines[..last + 1], lines[last + 1..]);
    assert lines[..k] + lines[k..last + 1] == lines[..last + 1];
    assert lines[..last + 1] + lines[last + 1..] == lines;
  }

  /** A run that is not stopped issues the whole script, reads and commands in their order. */
  lemma FullRunCommands(lines: seq<string>, autostop: bool, ev: seq<Event>, tail: seq<Event>)
    requires Outcome(lines, autostop, 0, Finished, ev, tail)
    ensures Commands(ev + tail) == ScriptCommands(lines) && Carried(ev + tail) == Asked(lines)
    ensures |ev + tail| == |Asked(lines)|
  {
    hide ParseLine, ScriptCommands, RollGoesOn;
    NothingElse(ev);
    assert ev + [] == ev;
  }

  /** Without automatic stop only an unreadable line keeps a run from the end of the script. */
  lemma EndOfRun(lines: seq<string>, autostop: bool, rc: int, end: End, ev: seq<Event>, tail: seq<Event>)
    requires Outcome(lines, autostop, rc, end, ev, tail)
    ensures end.EarlyStop? ==> autostop
    ensures rc == 1 <==> end.BadLine?
    ensures NoneBad(lines) ==> !end.BadLine?
    ensures end.EarlyStop? <==> autostop && EndOfRoll(ArmedChunks(ev))
  {
    hide ParseLine, Ran, EndOfRoll;
    var chunks := ArmedChunks(ev);
    assert chunks[..|chunks|] == chunks;
  }
}
