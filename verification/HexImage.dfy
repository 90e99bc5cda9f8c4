/**
 Writing a memory image as Intel HEX and reading it back.  The writer puts an
 extended-linear-address record before every data record, as section 3 of the
 specification allows.
 */
module HexImage {
  import opened Bytes
  import opened CText
  import opened HexRecord
  import opened HexFile

  predicate Writable(b: Call) {
    b.addr < 0x1_0000_0000 && |b.data| <= 255
  }

  function BankRecord(b: Call): Record
    requires Writable(b)
  {
    var hi := b.addr / 0x1_0000;
    Record(0, 4, [hi / 256, hi % 256])
  }

  function DataRecord(b: Call): Record
    requires Writable(b)
  {
    Record(b.addr % 0x1_0000, 0, b.data)
  }

  function BlockLines(blocks: seq<Call>): (lines: seq<string>)
    requires forall b :: b in blocks ==> Writable(b)
  {
    if blocks == [] then []
    else
      var b := blocks[|blocks| - 1];
      BlockLines(blocks[..|blocks| - 1]) + [Encode(BankRecord(b)), Encode(DataRecord(b))]
  }

  function ImageLines(blocks: seq<Call>): seq<string>
    requires forall b :: b in blocks ==> Writable(b)
  {
    BlockLines(blocks) + [Encode(Record(0, 1, []))]
  }

  function Text(lines: seq<string>): string {
    if lines == [] then "" else lines[0] + "\n" + Text(lines[1..])
  }

  // ---- the line cutter undoes Text ------------------------------------------------

  predicate Clean(line: string) {
    |line| < LINE_BUFFER && '\n' !in line && 0 as char !in line
  }

  lemma FirstLine(line: string, rest: string)
    requires Clean(line)
    ensures Lines(line + "\n" + rest) == [line] + Lines(rest)
  {
    var text := line + "\n" + rest;
    assert text[..|line|] == line && text[|line| + 1..] == rest;
    LineEndIs(text, |line|);
    assert line[..|line|] == line;
  }

  lemma {:induction false} LinesOfText(lines: seq<string>)
    requires forall k :: 0 <= k < |lines| ==> Clean(lines[k])
    ensures Lines(Text(lines)) == lines
  {
    hide Lines, Clean;
    if lines == [] {
      NoLines();
    } else {
      FirstLine(lines[0], Text(lines[1..]));
      LinesOfText(lines[1..]);
    }
  }

  lemma NoLines()
    ensures Lines("") == []
  {
  }

  lemma EncodeClean(r: Record)
    requires Fits(r)
    ensures Clean(Encode(r))
  {
  }

  lemma {:induction false} BlockLinesClean(blocks: seq<Call>)
    requires forall b :: b in blocks ==> Writable(b)
    ensures forall k :: 0 <= k < |BlockLines(blocks)| ==> Clean(BlockLines(blocks)[k])
  {
    if blocks != [] {
      var b, init := blocks[|blocks| - 1], blocks[..|blocks| - 1];
      BlockLinesClean(init);
      EncodeClean(BankRecord(b));
      EncodeClean(DataRecord(b));
    }
  }

  // ---- each line is read as it was written -----------------------------------------

  lemma KindOfEncoded(r: Record)
    requires Fits(r)
    ensures KindOf(Encode(r)) == RecordKind(r)
  {
    var line := Encode(r);
    EncodeDenotes(r);
    assert line[0] == ':' && !IsSpace(line[0]);
  }

  lemma {:induction false} BlockLinesRead(blocks: seq<Call>)
    requires forall b :: b in blocks ==> Writable(b)
    ensures Calls(BlockLines(blocks)) == blocks
    ensures NoneStops(BlockLines(blocks))
  {
    hide Calls, NoneStops, Encode;
    if blocks == [] {
      StartCalls();
    } else {
      var b, init := blocks[|blocks| - 1], blocks[..|blocks| - 1];
      BlockLinesRead(init);
      BlockRead(BlockLines(init), b);
      assert BlockLines(blocks) == BlockLines(init) + [Encode(BankRecord(b))] + [Encode(DataRecord(b))];
    }
  }

  lemma BlockRead(before: seq<string>, b: Call)
    requires Writable(b) && NoneStops(before)
    ensures var lines := before + [Encode(BankRecord(b))] + [Encode(DataRecord(b))];
            Calls(lines) == Calls(before) + [b] && NoneStops(lines)
  {
    hide KindOf, Calls, ModeAfter, NoneStops, Encode;
    var bank, data := Encode(BankRecord(b)), Encode(DataRecord(b));
    KindOfEncoded(BankRecord(b));
    KindOfEncoded(DataRecord(b));
    NextLine(before, bank, []);
    NextLine(before + [bank], data, []);
  }

  /** The parser reports exactly the blocks that were written, and then the end of file. */
  lemma {:induction false} BlocksRoundTrip(blocks: seq<Call>)
    requires forall b :: b in blocks ==> Writable(b)
    ensures var lines := Lines(Text(ImageLines(blocks)));
            var n := StopAt(lines);
            n < |lines| && KindOf(lines[n]).End? && Calls(lines[..n]) == blocks
  {
    hide KindOf, Calls, StopAt, Lines, Encode;
    var end := Record(0, 1, []);
    BlockLinesClean(blocks);
    EncodeClean(end);
    LinesOfText(ImageLines(blocks));
    BlockLinesRead(blocks);
    KindOfEncoded(end);
    StopHere(BlockLines(blocks), Encode(end), []);
    assert [Encode(end)] + [] == [Encode(end)];
  }

  // ---- memory images -----------------------------------------------------------------

  /** Some order in which to write out a memory, one byte per block. */
  ghost function BlocksOf(mem: Memory): (blocks: seq<Call>)
    requires forall a :: a in mem ==> a < 0x1_0000_0000
    ensures forall b :: b in blocks ==> Writable(b)
    ensures Stored(blocks) == mem
    decreases |mem|
  {
    if mem == map[] then []
    else
      var a :| a in mem;
      Shrinks(mem, a);
      var init := BlocksOf(mem - {a});
      StoreLast(init, a, mem[a]);
      init + [Call(a, [mem[a]])]
  }

  lemma StoreLast(init: seq<Call>, a: nat, v: byte)
    ensures Stored(init + [Call(a, [v])]) == Stored(init)[a := v]
  {
    assert (init + [Call(a, [v])])[..|init|] == init;
    assert [v][..0] == [];
    assert Store(Stored(init), a, [v]) == Store(Stored(init), a, [])[a := v];
  }

  lemma Shrinks(mem: Memory, a: nat)
    requires a in mem
    ensures |mem - {a}| < |mem| && (mem - {a})[a := mem[a]] == mem
  {
    assert (mem - {a}).Keys == mem.Keys - {a};
    assert |(mem - {a}).Keys| == |mem.Keys| - 1;
  }

  /** Any 32-bit memory image, written as HEX and parsed with a storing callback, comes back. */
  lemma ImageRoundTrip(mem: Memory, verdict: seq<Call> -> int, st: Status, calls: seq<Call>)
    requires forall a :: a in mem ==> a < 0x1_0000_0000
    requires forall cs :: verdict(cs) == 0
    requires Outcome(Lines(Text(ImageLines(BlocksOf(mem)))), verdict, st, calls)
    ensures st == OK && Stored(calls) == mem
  {
    BlocksRoundTrip(BlocksOf(mem));
  }

  // ---- a record that crosses its segment -----------------------------------------------

  /** Two bytes at offset FFFF of segment 1000. */
  function Crossing(): seq<string> {
    [Encode(Record(0, 2, [0x10, 0x00])), Encode(Record(0xFFFF, 0, [1, 2])), Encode(Record(0, 1, []))]
  }

  lemma CrossingRead()
    ensures var lines := Lines(Text(Crossing()));
            lines == Crossing() && |lines| == 3 && StopAt(lines) == 2 && KindOf(lines[2]).End?
    ensures KindOf(Crossing()[0]) == Rebase(Segment(0x1000)) && KindOf(Crossing()[1]) == Data(0xFFFF, [1, 2])
  {
    hide KindOf, Lines, Encode, Calls, ModeAfter;
    var esa, data, end := Record(0, 2, [0x10, 0x00]), Record(0xFFFF, 0, [1, 2]), Record(0, 1, []);
    EncodeClean(esa);
    EncodeClean(data);
    EncodeClean(end);
    LinesOfText(Crossing());
    KindOfEncoded(esa);
    KindOfEncoded(data);
    KindOfEncoded(end);
    var before := [Encode(esa), Encode(data)];
    assert NoneStops(before);
    StopHere(before, Encode(end), []);
    assert before + ([Encode(end)] + []) == Crossing();
  }

  /** The parser accepts this text, and stores its second byte elsewhere than the specification asks. */
  lemma CrossingDiffers()
    ensures var lines := Lines(Text(Crossing()));
            StopAt(lines) == 2 && 2 < |lines| && KindOf(lines[2]).End? &&
            Stored(Calls(lines[..2])) == map[0x1_FFFF := 1, 0x2_0000 := 2] &&
            IntelMemory(lines[..2]) == map[0x1_FFFF := 1, 0x1_0000 := 2]
  {
    CrossingRead();
    hide KindOf, Lines, Crossing;
    var a, b := Crossing()[0], Crossing()[1];
    assert Crossing()[..2] == [] + [a] + [b];
    StartCalls();
    NextLine([], a, []);
    NextLine([a], b, []);
    assert [] + [a] == [a];
    var c := Call(0x1_FFFF, [1, 2]);
    assert Calls([a] + [b]) == [c];
    StoredSnoc([], c);
    assert [] + [c] == [c];
    assert ([a] + [b])[..1] == [a] && [a][..0] == [];
    assert [1, 2][..1] == [1] && [1][..0] == [];
    assert Store(map[], 0x1_FFFF, [1]) == map[0x1_FFFF := 1];
    assert IntelMemory([a]) == map[];
    assert IntelStore(map[], Segment(0x1000), 0xFFFF, [1]) == map[0x1_FFFF := 1];
  }
}
