/**
 Verbatim replay of a scan script with end-of-roll detection, and the replay of
 the script's teardown (tools/pakon_replay.c, do_scan and sm_replay_teardown).
 */
module Replay {
  import opened Bytes
  import opened CText
  import opened Script
  import opened Session
  import opened Chunks

  const MOTOR_START: seq<byte> := [0x04, 0x03, 0x24, 0x00, 0xa0]

  // ---- what a script asks for ------------------------------------------------------

  /** The commands of some lines, in order. */
  function ScriptCommands(lines: seq<string>): seq<Op> {
    if lines == [] then []
    else
      ScriptCommands(lines[..|lines| - 1]) +
      var op := ParseLine(lines[|lines| - 1]);
      if op.Send? || op.Control? then [op] else []
  }

  ghost predicate NoneBad(lines: seq<string>) {
    forall k :: 0 <= k < |lines| ==> !ParseLine(lines[k]).Bad?
  }

  /** Index of the last image read, or -1. */
  function LastImage(lines: seq<string>): (n: int)
    ensures -1 <= n < |lines|
    ensures n >= 0 ==> ParseLine(lines[n]).Image?
    ensures forall k :: n < k < |lines| ==> !ParseLine(lines[k]).Image?
  {
    if lines == [] then -1
    else if ParseLine(lines[|lines| - 1]).Image? then |lines| - 1
    else LastImage(lines[..|lines| - 1])
  }

  /** The commands after the last image read: the sequence that stops the engines. */
  function Teardown(lines: seq<string>): seq<Op> {
    if LastImage(lines) < 0 then [] else ScriptCommands(lines[LastImage(lines) + 1..])
  }

  // ---- what a run shows --------------------------------------------------------------

  /** A motor-start command was sent; extra bytes after the five are not looked at. */
  ghost predicate Armed(ev: seq<Event>) {
    ev != [] &&
    (Armed(ev[..|ev| - 1]) || (ev[|ev| - 1].Sent? && MOTOR_START <= ev[|ev| - 1].frame))
  }

  /** The non-empty image chunks received after motor start. */
  ghost function ArmedChunks(ev: seq<Event>): seq<seq<byte>> {
    if ev == [] then []
    else
      var before := ev[..|ev| - 1];
      ArmedChunks(before) +
      match ev[|ev| - 1]
      case Read(_, _, bytes) => if Armed(before) && bytes != [] then [bytes] else []
      case _ => []
  }

  /** All that some lines ask for, commands and image reads, in order. */
  function Asked(lines: seq<string>): seq<Op> {
    if lines == [] then []
    else
      Asked(lines[..|lines| - 1]) +
      var op := ParseLine(lines[|lines| - 1]);
      if op.Skip? || op.Bad? then [] else [op]
  }

  /** The script operation an event carries out, if any. */
  function Operation(e: Event): Op {
    match e
    case Sent(frame, _) => Send(frame)
    case Transfer(setup, supplied, _, _) => Control(setup, supplied)
    case Read(want, _, _) => Image(want)
    case Framed(_, _, _) => Skip
  }

  /** All operations carried out, in order. */
  ghost function Carried(ev: seq<Event>): seq<Op> {
    if ev == [] then []
    else
      Carried(ev[..|ev| - 1]) +
      var op := Operation(ev[|ev| - 1]);
      if op.Skip? then [] else [op]
  }

  /** What holds of the events of a run that has worked off `lines`: each operation asked for, in order, and no other. */
  ghost predicate Ran(lines: seq<string>, ev: seq<Event>) {
    Carried(ev) == Asked(lines) && Commands(ev) == ScriptCommands(lines) &&
    forall k :: 0 <= k < |ev| ==> CarriesData(ev[k]) && !ev[k].Framed?
  }

  /** Nothing but the operations carried out has happened. */
  lemma {:induction false} NothingElse(ev: seq<Event>)
    requires forall k :: 0 <= k < |ev| ==> !ev[k].Framed?
    ensures |Carried(ev)| == |ev|
  {
    if ev != [] {
      NothingElse(ev[..|ev| - 1]);
    }
  }

  lemma OneOperation(lines: seq<string>, line: string, ev: seq<Event>, e: Event)
    requires Carried(ev) == Asked(lines) && Operation(e) == ParseLine(line) && !ParseLine(line).Skip?
    ensures Carried(ev + [e]) == Asked(lines + [line])
  {
    hide ParseLine;
    assert (lines + [line])[..|lines|] == lines && (ev + [e])[..|ev|] == ev;
  }

  lemma NoOperation(lines: seq<string>, line: string)
    requires ParseLine(line).Skip? || ParseLine(line).Bad?
    ensures Asked(lines + [line]) == Asked(lines)
  {
    hide ParseLine;
    assert (lines + [line])[..|lines|] == lines;
  }

  lemma OneEvent(lines: seq<string>, line: string, ev: seq<Event>, e: Event)
    requires Ran(lines, ev) && CarriesData(e)
    ensures (lines + [line])[..|lines|] == lines && (ev + [e])[..|ev|] == ev
    ensures Commands(ev + [e]) == Commands(ev) + (match e
              case Sent(frame, _) => [Send(frame)]
              case Transfer(setup, supplied, _, _) => [Control(setup, supplied)]
              case _ => [])
    ensures ScriptCommands(lines + [line]) == ScriptCommands(lines) +
              (if ParseLine(line).Send? || ParseLine(line).Control? then [ParseLine(line)] else [])
    ensures ImageBytes(ev + [e]) == ImageBytes(ev) + (if e.Read? then e.bytes else [])
    ensures Armed(ev + [e]) <==> Armed(ev) || (e.Sent? && MOTOR_START <= e.frame)
    ensures ArmedChunks(ev + [e]) == ArmedChunks(ev) + (if e.Read? && Armed(ev) && e.bytes != [] then [e.bytes] else [])
    ensures forall k :: 0 <= k < |ev + [e]| ==> CarriesData((ev + [e])[k])
  {
    hide ParseLine, CarriesData;
    assert (lines + [line])[..|lines|] == lines && (ev + [e])[..|ev|] == ev;
  }

  lemma SilentLine(lines: seq<string>, line: string)
    requires !ParseLine(line).Send? && !ParseLine(line).Control?
    ensures ScriptCommands(lines + [line]) == ScriptCommands(lines)
  {
    hide ParseLine;
    assert (lines + [line])[..|lines|] == lines;
  }

  // ---- one line at a time ---------------------------------------------------------------

  /** A C line: the fields, the bytes to send, and the transfer; false if the fields are unreadable. */
  method ControlLine(dev: Device, arg: string, buf: array<byte>) returns (ok: bool, ghost e: Event)
    requires buf.Length == BUFFER
    modifies dev`clock, dev`trace, buf
    ensures ok <==> ScanSetup(arg).Some?
    ensures !ok ==> dev.trace == old(dev.trace)
    ensures ok ==> dev.trace == old(dev.trace) + [e] && e.Transfer? && CarriesData(e)
    ensures ok ==> e.setup == ScanSetup(arg).value.0
    ensures ok ==> e.supplied == match HexBytes(ScanSetup(arg).value.1, BUFFER) case Some(bs) => bs case None => []
  {
    hide ScanSetup, HexBytes;
    e := Sent([], false);
    match ScanSetup(arg) {
      case None => return false, e;
      case Some((setup, rest)) =>
        var dn := HexBytesInto(rest, buf);
        if dn < 0 { dn := 0; }
        ghost var payload := buf[..setup.length];
        ghost var supplied := buf[..dn];
        var done := dev.ControlTransfer(setup, supplied, buf);
        e := Transfer(setup, supplied, payload, done);
        ok := true;
    }
  }

  /** The image part of an M line. */
  method ImageLine(dev: Device, arg: string, buf: array<byte>) returns (got: nat, result: Result)
    requires buf.Length == BUFFER
    modifies dev`clock, dev`trace, dev`image, dev`imgBytes, buf
    ensures got <= buf.Length
    ensures dev.trace == old(dev.trace) + [Read(Min(StrToUL(arg), BUFFER), result, buf[..got])]
    ensures dev.image == old(dev.image) + buf[..got] && dev.imgBytes == old(dev.imgBytes) + got
  {
    hide StrToUL;
    var want := StrToUL(arg);
    if want > BUFFER { want := BUFFER; }
    result, got := dev.Receive(buf, 0, want);
    assert buf[0..0 + got] == buf[..got];
    if got > 0 {
      dev.Save(buf, got);
    } else {
      assert dev.image == dev.image + buf[..0];
    }
  }

  // ---- teardown ----------------------------------------------------------------------------

  ghost predicate NoReads(ev: seq<Event>) {
    forall k :: 0 <= k < |ev| ==> !ev[k].Read?
  }

  method FindLastImage(lines: seq<string>) returns (last: int)
    ensures last == LastImage(lines)
  {
    last := -1;
    var ln := 0;
    while ln < |lines|
      invariant ln <= |lines| && last == LastImage(lines[..ln])
    {
      var p := Word(lines[ln]);
      assert lines[..ln + 1][..ln] == lines[..ln];
      if p != [] && p[0] == 'M' { last := ln; }
      ln := ln + 1;
    }
    assert lines[..|lines|] == lines;
  }

  /** Replay every command after the last image read; the number of them, 0 without image reads. */
  method ReplayTeardown(dev: Device, script: string) returns (replayed: nat, ghost ev: seq<Event>)
    modifies dev`clock, dev`trace
    ensures dev.trace == old(dev.trace) + ev && NoReads(ev)
    ensures Commands(ev) == Teardown(Pieces(script)) && replayed == |Teardown(Pieces(script))| == |ev|
    ensures forall k :: 0 <= k < |ev| ==> CarriesData(ev[k])
  {
    hide Pieces, ParseLine;
    var lines := Pieces(script);
    var last := FindLastImage(lines);
    ev, replayed := [], 0;
    if last < 0 { return; }
    ghost var tail := lines[last + 1..];
    var buf := new byte[BUFFER];
    var cur := 0;
    assert tail[..0] == [];
    while cur < |lines|
      invariant cur <= |lines| && fresh(buf)
      invariant dev.trace == old(dev.trace) + ev && NoReads(ev)
      invariant Ran(tail[..Max(cur - last - 1, 0)], ev) && replayed == |Commands(ev)| == |ev|
    {
      hide Ran, Commands, LastImage;
      var line := lines[cur];
      cur := cur + 1;
      if cur - 1 <= last { continue; }
      ghost var done := tail[..cur - last - 2];
      assert tail[..cur - last - 1] == done + [line];
      ghost var more;
      more, replayed := TeardownLine(dev, line, buf, done, ev, replayed);
      ev := ev + more;
    }
    assert tail[..|tail|] == tail;
  }

  /** One line of the teardown; unreadable lines are passed over. */
  method TeardownLine(dev: Device, line: string, buf: array<byte>, ghost done: seq<string>, ghost ev: seq<Event>, count: nat)
    returns (ghost more: seq<Event>, count': nat)
    requires buf.Length == BUFFER && Ran(done, ev) && count == |Commands(ev)| && !ParseLine(line).Image?
    modifies dev`clock, dev`trace, buf
    ensures dev.trace == old(dev.trace) + more && NoReads(more)
    ensures Ran(done + [line], ev + more) && count' == |Commands(ev + more)| && |more| == count' - count
  {
    hide ScanSetup, HexBytes, Ran;
    assert ev + [] == ev;
    more, count' := [], count;
    var p := Word(line);
    if p != [] && p[0] == 'O' {
      var n := HexBytesInto(p[1..], buf);
      if n >= 0 {
        ghost var frame := buf[..n];
        var ok := dev.Exchange(buf, n);
        RanEvent(done, line, ev, Sent(frame, ok));
        more, count' := [Sent(frame, ok)], count + 1;
        return;
      }
    } else if p != [] && p[0] == 'C' {
      var ok, e := ControlLine(dev, p[1..], buf);
      if ok {
        RanEvent(done, line, ev, e);
        more, count' := [e], count + 1;
        return;
      }
    }
    RanSilent(done, line, ev);
  }

  /** A line and the event it caused. */
  lemma RanEvent(done: seq<string>, line: string, ev: seq<Event>, e: Event)
    requires Ran(done, ev) && CarriesData(e) && Operation(e) == ParseLine(line) && !ParseLine(line).Skip?
    ensures Ran(done + [line], ev + [e]) && |Commands(ev + [e])| == |Commands(ev)| + if e.Read? then 0 else 1
  {
    hide ParseLine, CarriesData;
    OneOperation(done, line, ev, e);
    OneEvent(done, line, ev, e);
  }

  lemma RanSilent(done: seq<string>, line: string, ev: seq<Event>)
    requires Ran(done, ev) && (ParseLine(line).Skip? || ParseLine(line).Bad?)
    ensures Ran(done + [line], ev)
  {
    hide ParseLine, CarriesData;
    NoOperation(done, line);
    SilentLine(done, line);
  }

  // ---- after motor start ------------------------------------------------------------------

  /** The event at `k` sends a motor-start command. */
  predicate ArmsAt(ev: seq<Event>, k: nat) {
    k < |ev| && ev[k].Sent? && [0x04, 0x03, 0x24, 0x00, 0xa0] <= ev[k].frame
  }

  lemma {:induction false} ArmedIff(ev: seq<Event>)
    ensures Armed(ev) <==> exists k :: 0 <= k < |ev| && ArmsAt(ev, k)
  {
    if ev != [] {
      var n := |ev| - 1;
      ArmedIff(ev[..n]);
      assert forall k: nat :: k < n ==> (ArmsAt(ev, k) <==> ArmsAt(ev[..n], k));
      if Armed(ev[..n]) {
        var k :| 0 <= k < n && ArmsAt(ev[..n], k);
        assert ArmsAt(ev, k);
      }
      assert ev[n].Sent? && MOTOR_START <= ev[n].frame <==> ArmsAt(ev, n);
    }
  }

  function Joined(chunks: seq<seq<byte>>): seq<byte> {
    if chunks == [] then [] else Joined(chunks[..|chunks| - 1]) + chunks[|chunks| - 1]
  }

  lemma JoinedMore(chunks: seq<seq<byte>>, c: seq<byte>)
    ensures Joined(chunks + [c]) == Joined(chunks) + c
  {
    assert (chunks + [c])[..|chunks|] == chunks;
  }

  /** The chunks the watch is shown are not empty, and together they are the image bytes that came after motor start. */
  lemma {:induction false} ArmedChunksJoin(ev: seq<Event>, k: nat)
    requires ArmsAt(ev, k) && forall j :: 0 <= j < k ==> !ArmsAt(ev, j)
    ensures [] !in ArmedChunks(ev) && Joined(ArmedChunks(ev)) == ImageBytes(ev[k..])
  {
    hide Armed, ImageBytes, Joined, ArmedChunks;
    var n := |ev| - 1;
    var before, e := ev[..n], ev[n];
    ArmedIff(before);
    assert forall j: nat :: j < n ==> (ArmsAt(ev, j) <==> ArmsAt(before, j));
    hide ArmsAt;
    ChunkAfter(before, e);
    assert ev == before + [e];
    if k == n {
      NotArmedYet(before);
      assert !e.Read? by { ArmsNotRead(ev, k); }
      NoChunkYet(ev, k);
    } else {
      ArmedChunksJoin(before, k);
      assert ev[k..] == before[k..] + [e];
      ImageBytesSnoc(before[k..], e);
      if e.Read? && e.bytes != [] {
        JoinedMore(ArmedChunks(before), e.bytes);
      }
    }
  }

  lemma ArmsNotRead(ev: seq<Event>, k: nat)
    requires ArmsAt(ev, k)
    ensures !ev[k].Read?
  {
  }

  lemma NoChunkYet(ev: seq<Event>, k: nat)
    requires k == |ev| - 1 && !ev[k].Read?
    ensures Joined([]) == [] && ImageBytes(ev[k..]) == []
  {
    assert ev[k..] == [ev[k]];
    assert [ev[k]][..0] == [];
  }

  lemma ChunkAfter(before: seq<Event>, e: Event)
    ensures ArmedChunks(before + [e]) ==
            if e.Read? && Armed(before) && e.bytes != [] then ArmedChunks(before) + [e.bytes] else ArmedChunks(before)
  {
    hide Armed;
    assert (before + [e])[..|before|] == before;
  }

  lemma {:induction false} NotArmedYet(ev: seq<Event>)
    requires !Armed(ev)
    ensures ArmedChunks(ev) == []
  {
    if ev != [] {
      NotArmedYet(ev[..|ev| - 1]);
    }
  }
}
