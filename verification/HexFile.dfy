/**
 A whole Intel HEX text (pakon_hex_parse_mem, src/pakon_hex.c).  The text is cut
 into lines, the legal lines up to the end-of-file record are reported to a
 callback, and the memory the callback would fill is compared with the
 addressing rules of sections 3 to 5 of Intel's specification.
 */
module HexFile {
  import opened Bytes
  import opened CText
  import opened HexRecord

  const DATA := 0
  const EOF := 1
  const ESA := 2
  const ELA := 4

  const LINE_BUFFER := 1024

  // ---- lines -------------------------------------------------------------------

  /** What the line buffer holds of a raw line, as a C string. */
  function View(raw: string): string {
    CString(raw[..Min(|raw|, LINE_BUFFER - 1)])
  }

  function AfterLine(text: string): (rest: string)
    requires text != []
    ensures |rest| < |text|
  {
    text[Min(LineEnd(text) + 1, |text|)..]
  }

  function Lines(text: string): seq<string> {
    if text == [] then [] else [View(text[..LineEnd(text)])] + Lines(AfterLine(text))
  }

  // ---- meaning of lines ----------------------------------------------------------

  /** Addressing mode set by the last extended-address record. */
  /** A line ends at its line feed; of a longer one the first 1023 characters are looked at. */
  lemma FirstLine(line: string, rest: string)
    requires '\n' !in line
    ensures Lines(line + "\n" + rest) == [CString(line[..Min(|line|, 1023)])] + Lines(rest)
    ensures line != "" ==> Lines(line) == [CString(line[..Min(|line|, 1023)])]
  {
    var text := line + "\n" + rest;
    assert text[|line|] == '\n' && text[..|line|] == line;
    FirstFeed(text, |line|);
    assert text[|line| + 1..] == rest;
    if line != "" {
      NoFeed(line);
      assert line[..|line|] == line && line[|line|..] == [];
      assert Lines([]) == [];
    }
  }

  lemma {:induction false} FirstFeed(text: string, n: nat)
    requires n < |text| && text[n] == '\n' && '\n' !in text[..n]
    ensures LineEnd(text) == n
  {
    if n > 0 {
      assert text[..n][0] == text[0] && text[..n][1..] == text[1..][..n - 1];
      FirstFeed(text[1..], n - 1);
    }
  }

  lemma NoFeed(text: string)
    requires '\n' !in text
    ensures LineEnd(text) == |text|
  {
  }

  datatype Mode = Linear(u: uint16) | Segment(u: uint16)

  function Base(m: Mode): (b: nat)
    ensures b <= 0xFFFF_0000
  {
    match m case Linear(u) => u * 0x1_0000 case Segment(u) => u * 16
  }

  datatype Kind = Blank | Data(addr: uint16, data: seq<byte>) | Rebase(mode: Mode) | End | Illegal

  ghost function KindOf(line: string): Kind {
    if Spaces(line, 0, |line|) then Blank
    else match RecordOf(line)
      case None => Illegal
      case Some(r) => RecordKind(r)
  }

  function RecordKind(r: Record): Kind {
    if r.typ == DATA then Data(r.addr, r.data)
    else if r.typ == EOF then End
    else if r.typ == ESA && |r.data| == 2 then Rebase(Segment(256 * (r.data[0] as int) + r.data[1]))
    else if r.typ == ELA && |r.data| == 2 then Rebase(Linear(256 * (r.data[0] as int) + r.data[1]))
    else Illegal
  }

  /** What the record types mean. */
  lemma RecordTypes(addr: uint16, typ: byte, data: seq<byte>)
    ensures RecordKind(Record(addr, 0, data)) == Data(addr, data) && RecordKind(Record(addr, 1, data)) == End
    ensures |data| == 2 ==>
              RecordKind(Record(addr, 2, data)) == Rebase(Segment(256 * data[0] as int + data[1])) &&
              RecordKind(Record(addr, 4, data)) == Rebase(Linear(256 * data[0] as int + data[1]))
    ensures |data| != 2 ==> RecordKind(Record(addr, 2, data)) == RecordKind(Record(addr, 4, data)) == Illegal
    ensures typ != 0 && typ != 1 && typ != 2 && typ != 4 ==> RecordKind(Record(addr, typ, data)) == Illegal
  {
  }

  predicate Stops(k: Kind) {
    k.End? || k.Illegal?
  }

  /** Index of the first line that ends the parse, or the number of lines. */
  ghost function StopAt(lines: seq<string>): (n: nat)
    ensures n <= |lines|
    ensures forall k :: 0 <= k < n ==> !Stops(KindOf(lines[k]))
    ensures n < |lines| ==> Stops(KindOf(lines[n]))
  {
    if lines == [] || Stops(KindOf(lines[0])) then 0 else 1 + StopAt(lines[1..])
  }

  /** The mode in force after some lines: that of the last extended-address record. */
  ghost function ModeAfter(lines: seq<string>): Mode {
    if lines == [] then Linear(0)
    else match KindOf(lines[|lines| - 1])
      case Rebase(m) => m
      case _ => ModeAfter(lines[..|lines| - 1])
  }

  datatype Call = Call(addr: nat, data: seq<byte>)

  /** One call per data record, in order, at the base in force plus its own address. */
  ghost function Calls(lines: seq<string>): seq<Call> {
    if lines == [] then []
    else
      var before := lines[..|lines| - 1];
      match KindOf(lines[|lines| - 1])
      case Data(addr, data) => Calls(before) + [Call(Base(ModeAfter(before)) + addr, data)]
      case _ => Calls(before)
  }

  // ---- the parser ------------------------------------------------------------------

  datatype Status = OK | FIRMWARE | ABORTED(code: int)

  ghost predicate NoneRefused(calls: seq<Call>, verdict: seq<Call> -> int) {
    forall k :: 0 < k <= |calls| ==> verdict(calls[..k]) == 0
  }

  /** Copy a line up to its newline, as far as the buffer holds it. */
  method CopyLine(text: string, from: nat, linebuf: array<char>) returns (i: nat, j: nat)
    requires from < |text| && linebuf.Length == LINE_BUFFER
    modifies linebuf
    ensures from <= i <= |text| && (i < |text| ==> text[i] == '\n')
    ensures '\n' !in text[from..][..i - from]
    ensures j == Min(i - from, LINE_BUFFER - 1) && linebuf[..j] == text[from..][..j]
  {
    ghost var line := text[from..];
    i, j := from, 0;
    while i < |text| && text[i] != '\n'
      invariant from <= i <= |text| && j == Min(i - from, LINE_BUFFER - 1)
      invariant linebuf[..j] == line[..j]
      invariant '\n' !in line[..i - from]
    {
      if j + 1 < linebuf.Length {
        linebuf[j] := text[i];
        j := j + 1;
      }
      i := i + 1;
    }
  }

  /** The next line into `linebuf`, NUL-terminated; `next` is the position after it. */
  method CollectLine(text: string, from: nat, linebuf: array<char>) returns (next: nat)
    requires from < |text| && linebuf.Length == LINE_BUFFER
    modifies linebuf
    ensures from < next <= |text|
    ensures Lines(text[from..]) == [CString(linebuf[..])] + Lines(text[next..])
  {
    hide CString, Lines, LineEnd, AfterLine;
    var i, j := CopyLine(text, from, linebuf);
    linebuf[j] := 0 as char;
    LineTaken(text, from, i, j, linebuf[..]);
    next := if i < |text| then i + 1 else i;
    NextPosition(text, from, i);
  }

  lemma NextPosition(text: string, from: nat, i: nat)
    requires from <= i <= |text| && from < |text| && (i < |text| ==> text[i] == '\n')
    ensures from < Min(i + 1, |text|)
  {
  }

  lemma LineTaken(text: string, from: nat, i: nat, j: nat, buf: string)
    requires from <= i <= |text| && from < |text| && (i < |text| ==> text[i] == '\n')
    requires '\n' !in text[from..][..i - from]
    requires |buf| == LINE_BUFFER && j == Min(i - from, LINE_BUFFER - 1)
    requires buf[..j] == text[from..][..j] && buf[j] == 0 as char
    ensures Lines(text[from..]) == [CString(buf)] + Lines(text[Min(i + 1, |text|)..])
  {
    hide CString;
    var line := text[from..];
    LineEndIs(line, i - from);
    CStringStops(buf, j);
    assert line[..LineEnd(line)][..j] == line[..j];
    assert text[Min(i + 1, |text|)..] == AfterLine(line);
  }

  lemma {:induction false} CStringStops(s: string, j: nat)
    requires j < |s| && s[j] == 0 as char
    ensures CString(s) == CString(s[..j])
  {
    if j > 0 && s[0] != 0 as char {
      assert s[1..][..j - 1] == s[..j][1..];
      CStringStops(s[1..], j - 1);
    }
  }

  /** One line through the record scanner and the record-type switch. */
  method Classify(line: string, rec: RecordBuffer) returns (kind: Kind)
    requires rec.data.Length == 255
    modifies rec, rec.data
    ensures kind == KindOf(line)
  {
    hide RecordOf;
    var s := SkipSpaces(line, 0);
    if s == |line| { return Blank; }
    assert !Spaces(line, 0, |line|);
    var ok := ParseLine(line, rec);
    if !ok { return Illegal; }
    if rec.typ == DATA { return Data(rec.addr, rec.data[..rec.len]); }
    if rec.typ == EOF { return End; }
    if (rec.typ != ESA && rec.typ != ELA) || rec.len != 2 { return Illegal; }
    var u := 256 * (rec.data[0] as int) + rec.data[1];
    return Rebase(if rec.typ == ESA then Segment(u) else Linear(u));
  }

  /** The possible results of a parse whose lines are `lines`. */
  ghost predicate Outcome(lines: seq<string>, verdict: seq<Call> -> int, st: Status, calls: seq<Call>) {
    var n := StopAt(lines);
    match st
    case ABORTED(code) =>
      calls != [] && calls <= Calls(lines[..n]) && code == verdict(calls) != 0 &&
      NoneRefused(calls[..|calls| - 1], verdict)
    case OK => n < |lines| && KindOf(lines[n]).End? && calls == Calls(lines[..n]) && NoneRefused(calls, verdict)
    case FIRMWARE => (n < |lines| ==> KindOf(lines[n]).Illegal?) && calls == Calls(lines[..n]) &&
                     NoneRefused(calls, verdict)
  }

  ghost predicate NoneStops(lines: seq<string>) {
    forall k :: 0 <= k < |lines| ==> !Stops(KindOf(lines[k]))
  }

  /** The parser has passed the lines `done` and is at position `i`. */
  ghost predicate Progress(text: string, verdict: seq<Call> -> int, i: nat, done: seq<string>, base: nat, calls: seq<Call>) {
    i <= |text| && Lines(text) == done + Lines(text[i..]) && NoneStops(done) &&
    calls == Calls(done) && base == Base(ModeAfter(done)) && NoneRefused(calls, verdict)
  }

  /** What a line of the given kind brings, with `done` including that line. */
  ghost predicate Follows(text: string, verdict: seq<Call> -> int, kind: Kind, next: nat, done: seq<string>,
                          base: nat, calls: seq<Call>) {
    match kind
    case Blank => Progress(text, verdict, next, done, base, calls)
    case Rebase(mode) => Progress(text, verdict, next, done, Base(mode), calls)
    case Data(addr, data) =>
      var more := calls + [Call(base + addr, data)];
      base + addr < 0x1_0000_0000 &&
      if verdict(more) == 0 then Progress(text, verdict, next, done, base, more)
      else Outcome(Lines(text), verdict, ABORTED(verdict(more)), more)
    case End => Outcome(Lines(text), verdict, OK, calls)
    case Illegal => Outcome(Lines(text), verdict, FIRMWARE, calls)
  }

  /** The record-type switch of the parser; `done` are the lines up to and with this one. */
  method React(kind: Kind, base: nat, calls: seq<Call>, verdict: seq<Call> -> int,
        ghost text: string, ghost next: nat, ghost done: seq<string>)
    returns (stop: bool, st: Status, base': nat, calls': seq<Call>)
    requires Follows(text, verdict, kind, next, done, base, calls)
    ensures if stop then Outcome(Lines(text), verdict, st, calls') else Progress(text, verdict, next, done, base', calls')
  {
    hide Progress, Outcome, Lines;
    stop, st, base', calls' := false, OK, base, calls;
    match kind {
      case Blank =>
      case Rebase(mode) => base' := Base(mode);
      case Data(addr, data) =>
        var address := (base + addr) % 0x1_0000_0000;
        calls' := calls + [Call(address, data)];
        var code := verdict(calls');
        if code != 0 { stop, st := true, ABORTED(code); }
      case End => stop := true;
      case Illegal => stop, st := true, FIRMWARE;
    }
  }

  /** Parse `text`, calling back for each data record; `verdict` answers the calls made so far. */
  method ParseMem(text: string, verdict: seq<Call> -> int) returns (st: Status, calls: seq<Call>)
    ensures Outcome(Lines(text), verdict, st, calls)
  {
    var base: nat, i: nat := 0, 0;
    var linebuf := new char[LINE_BUFFER];
    var rec := new RecordBuffer();
    calls := [];
    ghost var done: seq<string> := [];
    Begin(text, verdict);
    hide Progress, Outcome, Follows, KindOf, Lines, CString;
    while i < |text|
      invariant i <= |text| && fresh(linebuf) && fresh(rec) && fresh(rec.data)
      invariant linebuf.Length == LINE_BUFFER && rec.data.Length == 255
      invariant Progress(text, verdict, i, done, base, calls)
      decreases |text| - i
    {
      var next := CollectLine(text, i, linebuf);
      var line := CString(linebuf[..]);
      OneLine(text, verdict, i, done, base, calls, line, next);
      i, done := next, done + [line];
      var kind := Classify(line, rec);
      var stop;
      stop, st, base, calls := React(kind, base, calls, verdict, text, i, done);
      if stop { return; }
    }
    Exhausted(text, verdict, i, done, base, calls);
    st := FIRMWARE;
  }

  lemma StartCalls()
    ensures Calls([]) == [] && ModeAfter([]) == Linear(0) && NoneStops([])
  {
  }

  lemma Begin(text: string, verdict: seq<Call> -> int)
    ensures Progress(text, verdict, 0, [], 0, [])
  {
    assert text[0..] == text;
  }

  lemma OneLine(text: string, verdict: seq<Call> -> int, i: nat, done: seq<string>, base: nat, calls: seq<Call>,
                line: string, next: nat)
    requires Progress(text, verdict, i, done, base, calls) && i <= next <= |text|
    requires Lines(text[i..]) == [line] + Lines(text[next..])
    ensures Follows(text, verdict, KindOf(line), next, done + [line], base, calls)
  {
    hide KindOf, StopAt, Calls, ModeAfter, Lines, NoneStops, NoneRefused;
    var rest := Lines(text[next..]);
    var kind := KindOf(line);
    NextLine(done, line, rest);
    if kind.Data? {
      var more := calls + [Call(base + kind.addr, kind.data)];
      OneMore(calls, Call(base + kind.addr, kind.data), verdict);
      if verdict(more) != 0 {
        Upto(done + [line], rest);
      }
    } else if Stops(kind) {
      StopHere(done, line, rest);
    }
  }

  lemma Exhausted(text: string, verdict: seq<Call> -> int, i: nat, done: seq<string>, base: nat, calls: seq<Call>)
    requires Progress(text, verdict, i, done, base, calls) && i == |text|
    ensures Outcome(Lines(text), verdict, FIRMWARE, calls)
  {
    hide KindOf, StopAt, Calls, ModeAfter, NoneStops, NoneRefused;
    assert text[i..] == [];
    StopNowhere(done);
  }

  lemma NextLine(done: seq<string>, line: string, rest: seq<string>)
    ensures done + ([line] + rest) == done + [line] + rest
    ensures NoneStops(done) && !Stops(KindOf(line)) ==> NoneStops(done + [line])
    ensures Calls(done + [line]) == match KindOf(line)
              case Data(addr, data) => Calls(done) + [Call(Base(ModeAfter(done)) + addr, data)]
              case _ => Calls(done)
    ensures ModeAfter(done + [line]) == match KindOf(line) case Rebase(m) => m case _ => ModeAfter(done)
  {
    hide KindOf, Calls, ModeAfter;
    var kind := KindOf(line);
    if kind.Data? {
      NextData(done, line, kind.addr, kind.data);
    } else {
      NextNoCall(done, line);
    }
    NextMode(done, line);
  }

  /** A data line adds one call. */
  lemma NextData(done: seq<string>, line: string, addr: uint16, data: seq<byte>)
    requires KindOf(line) == Data(addr, data)
    ensures Calls(done + [line]) == Calls(done) + [Call(Base(ModeAfter(done)) + addr, data)]
  {
    hide KindOf, ModeAfter, Base;
    assert (done + [line])[..|done|] == done;
  }

  /** Other lines add none. */
  lemma NextNoCall(done: seq<string>, line: string)
    requires !KindOf(line).Data?
    ensures Calls(done + [line]) == Calls(done)
  {
    hide KindOf, ModeAfter, Base;
    assert (done + [line])[..|done|] == done;
  }

  lemma NextMode(done: seq<string>, line: string)
    ensures ModeAfter(done + [line]) == match KindOf(line) case Rebase(m) => m case _ => ModeAfter(done)
  {
    hide KindOf;
    assert (done + [line])[..|done|] == done;
  }

  lemma OneMore(calls: seq<Call>, c: Call, verdict: seq<Call> -> int)
    requires NoneRefused(calls, verdict)
    ensures (calls + [c])[..|calls|] == calls
    ensures verdict(calls + [c]) == 0 ==> NoneRefused(calls + [c], verdict)
  {
    var more := calls + [c];
    forall k | 0 < k <= |more| && verdict(more) == 0 ensures verdict(more[..k]) == 0 {
      if k < |more| {
        assert more[..k] == calls[..k];
      } else {
        assert more[..k] == more;
      }
    }
  }

  lemma {:induction false} StopHere(done: seq<string>, line: string, rest: seq<string>)
    requires NoneStops(done) && Stops(KindOf(line))
    ensures StopAt(done + ([line] + rest)) == |done|
    ensures (done + ([line] + rest))[..|done|] == done && (done + ([line] + rest))[|done|] == line
  {
    var lines := done + ([line] + rest);
    assert forall k :: 0 <= k < |done| ==> lines[k] == done[k];
    assert lines[|done|] == line;
  }

  lemma StopNowhere(done: seq<string>)
    requires NoneStops(done)
    ensures done + Lines([]) == done && StopAt(done) == |done| && done[..|done|] == done
  {
  }

  lemma {:induction false} Upto(done: seq<string>, rest: seq<string>)
    requires NoneStops(done)
    ensures |done| <= StopAt(done + rest)
    ensures Calls(done) <= Calls((done + rest)[..StopAt(done + rest)])
  {
    var lines := done + rest;
    var n := StopAt(lines);
    assert forall k :: 0 <= k < |done| ==> lines[k] == done[k];
    assert lines[..|done|] == done;
    CallsGrow(lines, |done|, n);
  }

  /** One line more, no call less. */
  lemma CallsMore(lines: seq<string>, n: nat)
    requires n < |lines|
    ensures Calls(lines[..n]) <= Calls(lines[..n + 1])
  {
    hide KindOf, Calls;
    var before, line := lines[..n], lines[n];
    var kind := KindOf(line);
    if kind.Data? {
      NextData(before, line, kind.addr, kind.data);
    } else {
      NextNoCall(before, line);
    }
    assert lines[..n + 1] == before + [line];
  }

  lemma {:induction false} CallsGrow(lines: seq<string>, m: nat, n: nat)
    requires m <= n <= |lines|
    ensures Calls(lines[..m]) <= Calls(lines[..n])
  {
    hide Calls;
    if m < n {
      CallsGrow(lines, m, n - 1);
      CallsMore(lines, n - 1);
    }
  }

  /** A text parses to OK iff an end-of-file record is reached with only legal lines before it. */
  lemma {:induction false} OkIff(lines: seq<string>)
    ensures (StopAt(lines) < |lines| && KindOf(lines[StopAt(lines)]).End?)
            <==> exists e :: 0 <= e < |lines| && KindOf(lines[e]).End? && forall k :: 0 <= k < e ==> !KindOf(lines[k]).Illegal?
  {
    hide KindOf;
    var n := StopAt(lines);
    forall e | 0 <= e < |lines| && KindOf(lines[e]).End? && forall k :: 0 <= k < e ==> !KindOf(lines[k]).Illegal?
      ensures n < |lines| && KindOf(lines[n]).End?
    {
      assert n <= e;
    }
  }

  // ---- the memory image ----------------------------------------------------------------

  type Memory = map<nat, byte>

  function Store(m: Memory, addr: nat, data: seq<byte>): Memory {
    if data == [] then m
    else Store(m, addr, data[..|data| - 1])[addr + |data| - 1 := data[|data| - 1]]
  }

  /** Memory after a callback that copies each block to its address. */
  function Stored(calls: seq<Call>): Memory {
    if calls == [] then map[]
    else Store(Stored(calls[..|calls| - 1]), calls[|calls| - 1].addr, calls[|calls| - 1].data)
  }

  /** Where byte `i` of a data record goes: sections 3 (linear) and 4 (segmented) of the specification. */
  function IntelAddress(m: Mode, offset: uint16, i: nat): nat {
    match m
    case Linear(u) => (u * 0x1_0000 + offset + i) % 0x1_0000_0000
    case Segment(u) => u * 16 + (offset + i) % 0x1_0000
  }

  function IntelStore(mem: Memory, m: Mode, offset: uint16, data: seq<byte>): Memory {
    if data == [] then mem
    else IntelStore(mem, m, offset, data[..|data| - 1])[IntelAddress(m, offset, |data| - 1) := data[|data| - 1]]
  }

  ghost function IntelMemory(lines: seq<string>): Memory {
    if lines == [] then map[]
    else
      var before := lines[..|lines| - 1];
      match KindOf(lines[|lines| - 1])
      case Data(addr, data) => IntelStore(IntelMemory(before), ModeAfter(before), addr, data)
      case _ => IntelMemory(before)
  }

  /** The record stays inside its 64K segment, or inside the 4G linear space. */
  predicate StaysInside(m: Mode, offset: uint16, len: nat) {
    offset + len <= 0x1_0000 || (m.Linear? && m.u < 0xFFFF && len <= 0x1_0000)
  }

  /** A contiguous block is what the specification asks for exactly when the record stays inside. */
  lemma {:induction false} ContiguousIff(m: Mode, offset: uint16, len: nat)
    requires len <= 255
    ensures StaysInside(m, offset, len) <==>
            forall i :: 0 <= i < len ==> IntelAddress(m, offset, i) == Base(m) + offset + i
  {
    if !StaysInside(m, offset, len) {
      assert IntelAddress(m, offset, len - 1) != Base(m) + offset + (len - 1);
    }
  }

  lemma {:induction false} StoreIsIntel(mem: Memory, m: Mode, offset: uint16, data: seq<byte>)
    requires |data| <= 255 && StaysInside(m, offset, |data|)
    ensures IntelStore(mem, m, offset, data) == Store(mem, Base(m) + offset, data)
  {
    if data != [] {
      ContiguousIff(m, offset, |data|);
      StoreIsIntel(mem, m, offset, data[..|data| - 1]);
    }
  }

  /** The specification addresses no byte beyond the segment, or beyond 4G in the last linear bank. */
  lemma {:induction false} IntelStaysBelow(m: Mode, offset: uint16, data: seq<byte>, limit: nat)
    requires forall i :: 0 <= i < |data| ==> IntelAddress(m, offset, i) < limit
    ensures forall a :: a in IntelStore(map[], m, offset, data) ==> a < limit
  {
    hide IntelAddress;
    if data != [] {
      var n := |data| - 1;
      IntelStaysBelow(m, offset, data[..n], limit);
      assert IntelAddress(m, offset, n) < limit;
    }
  }

  /** One record is stored as the specification prescribes exactly when it stays inside. */
  lemma RecordIsIntelIff(m: Mode, offset: uint16, data: seq<byte>)
    requires 0 < |data| <= 255
    ensures Store(map[], Base(m) + offset, data) == IntelStore(map[], m, offset, data) <==> StaysInside(m, offset, |data|)
  {
    if StaysInside(m, offset, |data|) {
      StoreIsIntel(map[], m, offset, data);
    } else {
      IntelStaysBelow(m, offset, data, Base(m) + 0x1_0000);
      var last := Base(m) + offset + |data| - 1;
      assert last in Store(map[], Base(m) + offset, data);
      assert last >= Base(m) + 0x1_0000;
    }
  }

  ghost predicate AllInside(lines: seq<string>) {
    forall k :: 0 <= k < |lines| ==>
      match KindOf(lines[k])
      case Data(addr, data) => StaysInside(ModeAfter(lines[..k]), addr, |data|)
      case _ => true
  }

  /** The callback fills memory as the specification prescribes. */
  lemma {:induction false} MemoryIsIntel(lines: seq<string>)
    requires AllInside(lines)
    ensures Stored(Calls(lines)) == IntelMemory(lines)
  {
    hide KindOf, StaysInside;
    if lines != [] {
      var n := |lines| - 1;
      InsideBefore(lines);
      MemoryIsIntel(lines[..n]);
      match KindOf(lines[n]) {
        case Data(addr, data) =>
          DataIsShort(lines[n], addr, data);
          StoreIsIntel(IntelMemory(lines[..n]), ModeAfter(lines[..n]), addr, data);
          StoredSnoc(Calls(lines[..n]), Call(Base(ModeAfter(lines[..n])) + addr, data));
        case _ =>
      }
    }
  }

  lemma InsideBefore(lines: seq<string>)
    requires lines != [] && AllInside(lines)
    ensures AllInside(lines[..|lines| - 1])
    ensures match KindOf(lines[|lines| - 1])
      case Data(addr, data) => StaysInside(ModeAfter(lines[..|lines| - 1]), addr, |data|)
      case _ => true
  {
    hide KindOf, StaysInside, ModeAfter;
    var before := lines[..|lines| - 1];
    forall k | 0 <= k < |before| ensures before[k] == lines[k] && before[..k] == lines[..k] {
    }
  }

  lemma StoredSnoc(calls: seq<Call>, c: Call)
    ensures Stored(calls + [c]) == Store(Stored(calls), c.addr, c.data)
  {
    assert (calls + [c])[..|calls|] == calls;
  }

  lemma DataIsShort(line: string, addr: uint16, data: seq<byte>)
    requires KindOf(line) == Data(addr, data)
    ensures |data| <= 255
  {
    match RecordOf(line) case Some(r) => assert Denotes(line, r); case None =>
  }
}
