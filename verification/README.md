# Pakon F-135 driver: verified models

Dafny 4.11 models of the parts of the Pakon F-135 film-scanner driver in which a
simple requirement is reached through loops, counters and byte arithmetic, with
proofs that the code as written meets it or, where it does not, of the exact
condition under which it does.

## What is modelled

* **Scan replay** (`tools/pakon_replay.c`). `Session` is the device: an arbitrary
  sequence of replies, a ghost trace of everything sent and received, and the image
  file. `Script` reads script lines as the C library does, `Chunks` classifies
  image chunks and watches for the end of the roll, `Replay` and `Scan` are the
  verbatim replay with automatic stop and teardown, `DrivenLoop` and `DrivenScan`
  the poll-driven scan, `Advance` the film advance. The main results are about
  whole runs over any device: which operations a run carries out and in which
  order, when exactly it stops, what is in the file, and a termination measure.
* **Intel HEX** (`src/pakon_hex.c`). `HexRecord` is one line against the record
  format of section 2 of Intel's Hexadecimal Object File Format Specification,
  Revision A (1988); `HexFile` is a whole text against sections 3, 4, 5 and 8;
  `HexImage` is the round trip of memory images. As in the code, the
  start-address records of sections 6 and 7 are illegal.
* **Capture to script** (`tools/analyze_capture.py`). `Pcapng` walks a capture file
  (draft-ietf-opsawg-pcapng, sections 3.1 and 4.1 to 4.3), `Capture` writes
  well-formed files and proves what the walk makes of them, `Usbmon` the same
  from the fields of the URBs, `Extract` and `ScriptPrint` print the operation
  script and prove what the C reader makes of it, and `ScriptNumbers` says how that
  reader takes numbers.
* **Calibration** (`src/pakon_calib.c`, `src/pakon_proto.c`). `Proto` is the command
  frame, `Configure` the register table, `CalibMath` the feedback arithmetic with
  C's truncating division, `CalibMeasure` the measurement, `CalibRun` the two
  loops over a device, `CalibLaws` and `GainLaws` what follows for the reported
  result. The register file after a run depends on which of the failed commands
  arrived all the same; what is said of it holds for every such choice.
* **Image geometry** (`tools/pakon_image.py`). `MarkerAlign` finds the row origin,
  `Leads` measures the line leads by correlation and `LeadBands` says what it sees of the pixels, `Register` registers the three
  sensor lines and chains measuring, validating and registering, `FrameCells`
  cuts the film into frames.

Code that updates state in the source is a class or a method with loops here, and
is proved against a specification given as functions and predicates on values; the
laws are lemmas about that specification.  Where a specification rests on named
constants or on a layout of bytes, a lemma says what it means in literal numbers over
raw bytes, words or pixels (`Chunks.WhiteMeans`, `Session.StatusMeans`,
`HexFile.RecordTypes`, `Usbmon.UrbReads`, `LeadBands.RavelAt` and their like).

## Where the code falls short of its documentation or of what one expects

* The trailing-white count is described as consecutive white chunks. Dim chunks
  neither count nor reset it; only film resets it. `Chunks.InterruptedEndsRoll` is an
  end of roll without 24 white chunks in a row, and `Chunks.EndsWhiteIff` says exactly
  when there are.
* The film flag is described as set by the first chunk that is not white. It is set
  by the first chunk that passes the film test and is not white: `Chunks.DimSetsNoFlag`,
  with the exact condition in `Chunks.FlagIsNotWhiteIff`.
* The driven scan is described as taking over at the first image read after motor
  start. It replays 64 reads first and takes over at the 65th; a script without that
  many is replayed to its end, and its tail is then issued a second time
  (`DrivenScan.NoTakeoverIssuesTwice`).
* The offset and gain flags read as if they described the reported values. They are
  latched over the rounds (`CalibLaws.FlagIsLatched`, `CalibLaws.FlagMayMislead`).
* The calibration loops ignore the result of a register write and measure anyway.
  `CalibLaws.UnacknowledgedRun` is a complete dark phase in which every command failed
  and, if none arrived, no register changed.
  `CalibRun.DarkAtGainZeroIff` and `CalibRun.HeldInRoundIff` say exactly when the
  registers are known to hold what the loop assumes.
* The reported offsets are not limited to what the register can hold, nor are they the
  ones the last means were measured with (`CalibLaws.ReportedNotInForce`);
  `CalibLaws.OffsetInForceIff` says exactly when the two agree.
* The gain step is described as accounting for the gain already applied. On a sensor of
  the documented form it does so by forgetting it: it asks for the same gain again,
  whatever that gain achieved (`GainLaws.ExactStepIgnoresGain`), because the factor that is
  wanted is written as if it were a gain. So the loop reaches its target exactly for
  light of 1000..1024 or at least 63000 (`GainLaws.ConvergesIff`), and not, for example,
  for 32000 (`GainLaws.NeverReached`).
* The upper white tolerance, 66048, cannot be exceeded by a 16-bit peak
  (`CalibMath.WhiteIff`).
* A printed script does not always read back: the reader's line buffer holds 1023
  characters. `ScriptPrint.RoundTripIff` gives the exact condition on each operation,
  and `ScriptPrint.PrintThenRead` what is read otherwise.
* A HEX record that crosses the end of its segment is written as one contiguous
  block. `HexFile.RecordIsIntelIff` says exactly when that is what the specification
  asks, and `HexImage.CrossingDiffers` is a text for which it is not.
* An advance step whose stop command fails is counted as an error, and the next
  start is sent all the same (`Advance.FailedStopRestarts`). `Advance.RunBalancedIff`
  says exactly when starts and stops are balanced.
* The last cut row may lie beyond the last row of the ribbon
  (`FrameCells.CutBeyondRibbon`); `FrameCells.CutsInRange` says exactly when.

## Model

| member | source | states |
|---|---|---|
| `Session.Device.Exchange` | tools/pakon_replay.c:447-451 | sends exactly the first n bytes of the buffer, as one exchange that succeeds iff the device's reply does |
| `Session.Device.Receive` | tools/pakon_replay.c:468-469 | a bulk read delivers at most the bytes asked for, places them at the given position and leaves the rest of the buffer alone |
| `Session.Device.ControlTransfer` | tools/pakon_replay.c:498-503 | a control transfer offers the number of bytes its setup announces, beginning with the bytes of the script line |
| `Session.Device.Command` | src/pakon_cmd.c:5-35 | a framed command succeeds iff its one reply arrives and is a self-consistent frame; its status is the one in that frame |
| `Session.Device.Post` | tools/pakon_replay.c:836-837 | a command sent without asking for a reply succeeds iff its transfer does |
| `Session.AnsweredMeans` | src/pakon_cmd.c:5-35 | over the raw reply: it is accepted iff the transfer succeeded and its first 36 bytes at most are a type, a count of at most 34 and exactly that many bytes |
| `Session.StatusMeans` | include/pakon_proto.h:154-158 | the status is byte 3 of the reply if the count is at least 2, else 0 |
| `Chunks.ChunkIsWhite` | tools/pakon_replay.c:302-312 | true iff at least 60 percent of the little-endian samples exceed 40000; an odd last byte counts for nothing and an empty chunk is not white |
| `Chunks.ChunkHasFilm` | tools/pakon_replay.c:321-331 | true iff at least 10 percent of the samples exceed 8000, for every chunk |
| `Chunks.WhiteMeans` | tools/pakon_replay.c:302-312 | white iff there are samples and 100 times the number of positions i with `s[2i] + 256 s[2i+1] > 40000` is at least 60 times the number of samples |
| `Chunks.HasFilmMeans` | tools/pakon_replay.c:321-331 | the same for 8000 and 10 |
| `Chunks.WhitePassesFilmTest` | tools/pakon_replay.c:314-320 | every white chunk also passes the film test, so only the order of the tests separates them |
| `Chunks.KindsPartition` | tools/pakon_replay.c:475-491 | testing white first puts every chunk in exactly one of the kinds white, film and dim |
| `Chunks.RollWatch.Feed` | tools/pakon_replay.c:474-492 | the counters stay tied to the whole history of chunks, and `done` holds iff this chunk is the 24th white one since the last film chunk; dim chunks neither count nor reset |
| `Chunks.WatchMoves` | tools/pakon_replay.c:475-488 | the update of the two variables keeps their meaning, and the counter reaches 24 exactly at the end of the roll |
| `Chunks.FilmSeenIff` | tools/pakon_replay.c:483-487 | what the film flag stands for: some chunk so far was film |
| `Chunks.FlagIsNotWhiteIff` | tools/pakon_replay.c:269-272 | the flag says that some chunk was not white, as documented, iff some chunk was film or none was dim |
| `Chunks.DimSetsNoFlag` | tools/pakon_replay.c:269-272 | a single dim chunk is not white and does not set it |
| `Chunks.EndsWhiteIff` | tools/pakon_replay.c:280-282 | where the watch ends the roll, the last 24 chunks are all white, as documented, iff no dim chunk follows the first white one behind the last film chunk |
| `Chunks.InterruptedEndsRoll` | tools/pakon_replay.c:280-282 | film, 23 white chunks, a dim one and a white one end the roll, and the last 24 are not all white |
| `Script.HexBytesInto` | tools/pakon_replay.c:249-263 | fills the buffer with exactly the byte string the text spells, or returns -1 iff a character is no digit, a digit is left over or the buffer is too small |
| `ScriptNumbers.DataEndsWithLine` | tools/pakon_replay.c:249-263 | blanks between the digits do not matter, and a line feed or carriage return ends the data |
| `ScriptNumbers.DecimalText` | tools/pakon_replay.c:466 | decimal text of any number reads as that number, up to the largest 64-bit one |
| `ScriptNumbers.HexText0x` | tools/pakon_replay.c:466 | so does hexadecimal text behind 0x |
| `ScriptNumbers.OctalText` | tools/pakon_replay.c:466 | and octal text behind 0 |
| `ScriptNumbers.HexField` | tools/pakon_replay.c:495 | a field of a control line is hexadecimal, with or without 0x, and keeps its low 32 bits |
| `Replay.ControlLine` | tools/pakon_replay.c:493-503 | a C line is refused iff its five fields cannot be read; otherwise exactly that transfer is made with exactly the bytes the line spells, none if they are unreadable |
| `Replay.ImageLine` | tools/pakon_replay.c:465-473 | reads the stated number of bytes, at most 65536, and appends what arrives, and nothing else, to the image file |
| `Replay.FindLastImage` | tools/pakon_replay.c:679-685 | the index of the last image read, -1 if there is none |
| `Replay.ReplayTeardown` | tools/pakon_replay.c:674-719 | issues exactly the commands behind the last image read, in order, reads no image data, passes over unreadable lines, and returns how many commands were issued |
| `Replay.ArmedIff` | tools/pakon_replay.c:435-441 | the watch is armed iff some frame sent begins with the bytes 04 03 24 00 a0 |
| `Replay.ArmedChunksJoin` | tools/pakon_replay.c:465-492 | no chunk shown to the watch is empty, and joined they are the image bytes received after the first such frame |
| `Scan.StartsMotor` | tools/pakon_replay.c:435-441 | true iff the frame begins with the five motor-start bytes |
| `Scan.ScanImage` | tools/pakon_replay.c:465-492 | one image read: what arrives goes to the file and, once armed, to the watch; the run is over iff the watch says so |
| `Scan.DoScan` | tools/pakon_replay.c:426-517 | whole runs over any device: the operations carried out are those of the script, in order and with nothing sent or read besides, up to the end, to the first unreadable line (return code 1), or to the first image read that ends the roll; in the last case exactly the teardown follows; the file holds exactly what was received |
| `Scan.EarlyStopCommands` | tools/pakon_replay.c:474-513 | a run stopped early issues the script's commands with one stretch cut out: those before the stopping read, then those after the last image read, so the teardown runs once and nothing twice |
| `Scan.FullRunCommands` | tools/pakon_replay.c:426-505 | a run not stopped issues the whole script, reads and commands interleaved as written |
| `Scan.EndOfRun` | tools/pakon_replay.c:474-517 | a run ends early iff automatic stop is on and the armed chunks end the roll; the return code is 1 iff it ends at an unreadable line |
| `DrivenLoop.Turn` | tools/pakon_replay.c:600-664 | one window: a read of 20480 bytes, and one HOST poll iff it is empty; data is saved and shown to the watch, a poll counts as idle unless it says busy |
| `DrivenLoop.ScanLoop` | tools/pakon_replay.c:584-666 | any run is whole windows, sends HOST polls only and writes exactly the bytes received; at the head of every window the roll goes on, idle windows are below 2 after film and below 24 before, and the bytes are below the cap once data has come, so the reason it stops for is the first that occurs; a capped run ends with at most max(initial bytes, cap-1)+20480 bytes, and terminates if busy streaks are bounded and the cap is positive |
| `DrivenLoop.IdleCounts` | tools/pakon_replay.c:626-655 | the idle count is the number of polls that did not answer busy since the last data |
| `DrivenLoop.SaysBusyIff` | tools/pakon_replay.c:626-640 | busy means a reply whose second data byte is 0x80 |
| `DrivenLoop.WindowsAndLimits` | tools/pakon_replay.c:586-655 | reads of 20480 bytes, polls 03 01 10, and the limits of 24 idle windows before film and 2 after it |
| `DrivenLoop.CapExactIff` | tools/pakon_replay.c:593 | the cap is the number of megabytes asked for iff that is below 2^44, and there is none at the multiples of 2^44 |
| `DrivenLoop.MeasureChunk` | tools/pakon_replay.c:604-628 | a chunk below the cap lowers the termination measure whatever it does to idle windows and streaks |
| `DrivenLoop.MeasureIdle` | tools/pakon_replay.c:644-663 | an idle window lowers the measure although the allowance of busy polls is renewed |
| `DrivenLoop.MeasureBusy` | tools/pakon_replay.c:637-642 | a busy answer, which leaves every counter alone, lowers the measure as long as the streak is within its bound |
| `DrivenScan.ReplaySetup` | tools/pakon_replay.c:758-809 | carries out the script, and nothing besides, up to the first image read with at least 64 reads since motor start, to an unreadable line, or to the end, and no earlier |
| `DrivenScan.DoScanSm` | tools/pakon_replay.c:758-841 | whole runs: setup, then whole windows of reads and polls up to the first that ends the phase, then exactly the teardown, or the bare 92/a2 pair if the teardown is empty; the file holds the bytes of both phases in order |
| `DrivenScan.DrivenCommands` | tools/pakon_replay.c:812-841 | the commands of a finished run are those of the setup followed by the teardown; the driven phase issues none |
| `DrivenScan.TakeoverIff` | tools/pakon_replay.c:781-787 | the driven phase takes over within the script iff 65 image reads follow motor start |
| `DrivenScan.ReadsCount` | tools/pakon_replay.c:770-787 | the reads counted are the image lines with a line `O 04032400a0` somewhere before them |
| `DrivenScan.TakeoverIssuesOnce` | tools/pakon_replay.c:781-841 | with those 65 reads the setup and the teardown are disjoint stretches of the script, so nothing is issued twice |
| `DrivenScan.NoTakeoverIssuesTwice` | tools/pakon_replay.c:809-833 | without them the whole script has been replayed and its tail is issued a second time |
| `Advance.WaitInPosition` | tools/pakon_replay.c:215-222 | between 1 and 5000 HOST polls, ending with the first that fails or reports success |
| `Advance.Step` | tools/pakon_replay.c:210-229 | a start that is acknowledged is followed by its polls and the finalize command; one that fails is followed by nothing; every failed transaction is counted |
| `Advance.AdvanceSteps` | tools/pakon_replay.c:202-232 | the trace is whole steps, optionally ending with one failed start; return code 1 iff steps are left and the time has run out, which it had not before any earlier step; otherwise steps are left only after a failed start; the error count is the number of failed commands |
| `Advance.StepLength` | tools/pakon_replay.c:202-232 | n steps take between 3n and 5002n commands |
| `Advance.StepBytes` | tools/pakon_replay.c:182-232 | the bytes of a step: 04 03 24 00 a0, at most 5000 times 03 01 10, 04 03 24 00 a2 |
| `Advance.PollGoesOnIff` | tools/pakon_replay.c:214-225 | polling goes on iff the reply has a second data byte that is not 0 |
| `Advance.StepsBalancedIff` | tools/pakon_replay.c:202-232 | over any number of steps, no start is sent while the motor may be running and it is off at the end iff every stop command was acknowledged |
| `Advance.RunBalancedIff` | tools/pakon_replay.c:202-232 | the same for a whole run; if a failed start may have arrived all the same, the run must also not end with one |
| `Advance.NoErrorsBalanced` | tools/pakon_replay.c:202-232 | a run that counts no error is balanced |
| `Advance.FailedStopRestarts` | tools/pakon_replay.c:224-229 | a two-step run whose stop commands fail: the second start is sent to a running motor, which still runs at the end |
| `Advance.StartsFinalized` | tools/pakon_replay.c:210-227 | every acknowledged start is followed by a stop command, acknowledged or not, with at most 5000 polls and nothing else between them |
| `HexRecord.ByteAt` | src/pakon_hex.c:18-26 | the value of the two digits at the cursor, moving it past them, or no value and the cursor unmoved |
| `HexRecord.ReadData` | src/pakon_hex.c:57-65 | fills the data with the announced bytes and adds them to the sum, or stops at the first that is missing |
| `HexRecord.ParseLine` | src/pakon_hex.c:28-89 | accepts a line iff it is white space, one record in the encoding of section 2 of Intel's Hexadecimal Object File Format Specification with either case of digits, and white space; the record returned is the one it denotes |
| `HexRecord.DenotesOne` | src/pakon_hex.c:33-86 | a line denotes at most one record |
| `HexRecord.WireIff` | src/pakon_hex.c:31-78 | the bytes of a record, exactly: count, address with the high byte first, type, data, and a sum that is a multiple of 256 |
| `HexRecord.DenotesIff` | src/pakon_hex.c:31-90 | a line denotes a record iff it is white space, a colon, the digit pairs of those bytes, white space |
| `HexRecord.EncodeDenotes` | src/pakon_hex.c:28-89 | the encoding of a record denotes that record, so parsing inverts encoding |
| `HexRecord.RespellKeepsRecord` | src/pakon_hex.c:9-15 | spelling a byte of a record with other digits of the same value, such as capitals, leaves the record the line denotes |
| `HexRecord.CorruptionRejected` | src/pakon_hex.c:67-77 | replacing any one byte of an accepted record, the count and the checksum included, by a different byte makes the line illegal |
| `HexFile.CollectLine` | src/pakon_hex.c:103-111 | takes the text up to and with the next newline and leaves its first 1023 characters, up to a NUL, in the buffer |
| `HexFile.FirstLine` | src/pakon_hex.c:92-112 | the first line of a text is what stands before its first line feed, cut at 1023 characters and at a NUL |
| `HexFile.Classify` | src/pakon_hex.c:113-148 | sorts a line as blank, data, rebase, end or illegal by the record it denotes; an extended-address record must carry two bytes |
| `HexFile.RecordTypes` | include/pakon_hex.h:22-28 | type 0 is data and 1 the end; types 2 and 4 with two bytes set a segment and a linear base; every other type or length is illegal |
| `HexFile.React` | src/pakon_hex.c:125-148 | one record moves the parser from one line to the next or ends it with the right status and calls |
| `HexFile.ParseMem` | src/pakon_hex.c:91-159 | for every text and callback: the calls are the data records before the first end or illegal line, in order, each at the base last set plus its address without wrapping around, up to the first refusal; the status says which of these ended the parse |
| `HexFile.OkIff` | src/pakon_hex.c:154-158 | a parse not refused is OK iff an end-of-file record is reached with no illegal line before it |
| `HexFile.ContiguousIff` | src/pakon_hex.c:126-132 | writing a record as one block agrees with the per-byte addresses that sections 3 and 4 of Intel's Hexadecimal Object File Format Specification give iff the record stays inside its segment, or the 32-bit space in linear mode |
| `HexFile.RecordIsIntelIff` | src/pakon_hex.c:126-132 | a record is stored as sections 3 and 4 prescribe iff it stays inside |
| `HexFile.MemoryIsIntel` | src/pakon_hex.c:91-159 | if all records stay inside, the memory a storing callback ends with is the one the specification prescribes |
| `HexImage.CrossingDiffers` | src/pakon_hex.c:126-140 | a text the parser accepts, two bytes at offset FFFF of segment 1000, whose second byte is stored at 20000 and not at 10000 as section 4 prescribes |
| `HexImage.BlocksRoundTrip` | src/pakon_hex.c:91-159 | any list of blocks, written with extended-address and data records and parsed, is reported as exactly that list |
| `HexImage.ImageRoundTrip` | src/pakon_hex.c:91-159 | any 32-bit memory image, written as HEX and parsed with a storing callback, comes back |
| `Extract.ExtractScan` | tools/analyze_capture.py:371-392 | writes one line per relevant transfer of the device, in order, after the comment lines, and counts the lines by kind |
| `Extract.TallyCounts` | tools/analyze_capture.py:371-392 | the three counts are the numbers of operations of each kind |
| `ScriptPrint.PrintThenRead` | tools/analyze_capture.py:377-391 | for every list of operations, whatever their sizes, exactly what the replay parser reads from the printed text |
| `ScriptPrint.RoundTripIff` | tools/pakon_replay.c:403-404 | the text reads back as the operations printed iff each fits the line buffer: O up to 510 bytes, C data up to 500 bytes, M up to 65536 |
| `ScriptPrint.LongSendRejected` | tools/pakon_replay.c:426-433 | an O line of more than 510 bytes is cut at 1023 characters and then refused as a whole |
| `ScriptPrint.OverflowSkipped` | tools/pakon_replay.c:426-429 | what the line buffer cuts off a line of digits is read as further lines that say nothing |
| `ScriptNumbers.PrintedLines` | tools/analyze_capture.py:377-383 | an image read and a command letter by letter: M 20480, O 031f |
| `ScriptNumbers.PrintedFields` | tools/analyze_capture.py:386-390 | the place of each field of a control line |
| `Extract.CaptureReplays` | tools/analyze_capture.py:353-393 | the script of a capture reads back as its operations iff all of them fit |
| `Pcapng.WalkFindsComplete` | tools/analyze_capture.py:241-262 | in a file cut anywhere the walk finds exactly the complete blocks, of either byte order |
| `Pcapng.ParsePcapng` | tools/analyze_capture.py:228-263 | refuses iff the file is shorter than 12 bytes or does not start with the section type; otherwise the records of the blocks found, in order, unless a block is too short for its fixed fields |
| `Capture.OrderRecognised` | tools/analyze_capture.py:232-235 | a section header written in either byte order is recognised in that order |
| `Capture.CutFileParses` | tools/analyze_capture.py:228-263 | a well-formed one-section file cut anywhere after 12 bytes parses to one record per complete packet block with a usbmon header, with exactly the captured bytes and the header length of its own interface |
| `Capture.WholePayload` | tools/analyze_capture.py:195-225 | a packet holding its whole payload keeps exactly the bytes behind the usbmon header |
| `Capture.CaptureToReplay` | tools/analyze_capture.py:353-393 | capture file to script to replay tool: the operations read are those of the captured transfers |
| `Usbmon.UrbReads` | tools/analyze_capture.py:190-223 | a usbmon packet written field by field, in either byte order and with the 48- or 64-byte header, is read as the record of those fields |
| `Usbmon.ReplayedOp` | tools/analyze_capture.py:376-390 | in terms of those fields: only submissions (0x53) of the device count; endpoint 0x86 is an image read of the URB length, endpoint 1 with data a command, requests A4 and A9 with setup bytes a control transfer |
| `Usbmon.UrbFileParses` | tools/analyze_capture.py:226-263 | a file of such packets, cut anywhere, parses to the records of the complete ones, field by field |
| `Usbmon.UrbFileReplays` | tools/analyze_capture.py:226-393 | from the URBs on the wire, through capture file and script, to the operations the replay tool reads |
| `Pcapng.HeaderLengths` | tools/analyze_capture.py:254-257 | link type 189 has 48-byte headers; all others and undescribed interfaces have 64 |
| `Proto.WireInverse` | src/pakon_proto.c:59-93 | wire form and frame determine each other, in both directions |
| `Proto.Packet.Build` | src/pakon_proto.c:46-57 | refused iff the data is too long, and then nothing changes; otherwise the packet holds the type and data with zeros behind |
| `Proto.Packet.Serialize` | src/pakon_proto.c:59-76 | writes the wire form of the packet at the front of the buffer and nothing behind it, iff it fits |
| `Proto.Packet.Parse` | src/pakon_proto.c:78-93 | accepts iff the bytes are one self-consistent frame and then holds exactly that frame |
| `Configure.OffsetRoundTrip` | src/pakon_calib.c:38-45 | decoding the sign-magnitude field gives the offset limited to -255..255 |
| `Configure.BuildWrite` | src/pakon_calib.c:16-29 | a register-write frame for the two known banks, refused for every other |
| `Configure.WriteRegister` | src/pakon_calib.c:190-197 | sends the one frame that writes this register with this value, and nothing else; accepted iff that command is |
| `Configure.ConfigureAll` | src/pakon_calib.c:141-176 | sends the 17 writes in table order and nothing else up to the first that fails; OK iff all 17 were sent and accepted |
| `Configure.WriteBytes` | src/pakon_calib.c:16-29 | the eight bytes of a register write |
| `Configure.ConfigurationOrder` | src/pakon_calib.c:148-166 | the bank and register of each of the 17 writes |
| `Configure.Ascending` | src/pakon_calib.c:148-166 | the 17 (bank, register) pairs are strictly increasing, so none is written twice |
| `Configure.SoleWriteIff` | src/pakon_calib.c:190-197 | a register written once in a run holds that value afterwards, whatever it held before and whichever failed commands arrived, iff the write was acknowledged |
| `Configure.TableAppliedIff` | src/pakon_calib.c:167-174 | after the writes of a table without repetitions every entry is in place, whatever was there and whichever failed commands arrived, iff all were acknowledged |
| `Configure.OthersUnchanged` | src/pakon_calib.c:148-174 | registers the table does not name keep their values, whichever commands arrived |
| `Configure.ConfigurationHoldsIff` | src/pakon_calib.c:141-176 | the device certainly holds the configuration, gain clamped to 0..63, exposure to 0..4095, offset to -255..255 after decoding, iff all 17 writes were sent and acknowledged |
| `Configure.AcknowledgedConfigures` | src/pakon_calib.c:141-176 | the direction a caller uses: after OK the configuration holds for any earlier register contents |
| `Configure.ConfigurationTouchesNoOther` | src/pakon_calib.c:148-174 | every register outside the table keeps its value, after any number of the writes and whichever of them arrived |
| `CalibMath.StepZeroIff` | src/pakon_calib.c:62-69 | the correction is zero iff the mean is 262..338, with C's truncating division |
| `CalibMath.ConvergedIsFixed` | src/pakon_calib.c:54-69 | a channel within tolerance is not moved |
| `CalibMath.StepRange` | src/pakon_calib.c:62-69 | one correction is between -1698 and 7 for every 16-bit mean |
| `CalibMath.WhiteIff` | src/pakon_calib.c:54-60 | on 16-bit peaks the white test is `peak >= 64000`: the upper limit is out of reach |
| `CalibMath.StepImproves` | src/pakon_calib.c:62-69 | on a linear sensor of slope up to 76 a correction never increases the error, and strictly shrinks it from 39 on |
| `CalibMath.NeverWorseIff` | src/pakon_calib.c:62-69 | 76 is the exact limit of that |
| `CalibMath.NoOvershootIff` | src/pakon_calib.c:62-69 | no correction overshoots the target iff the slope is at most 38 |
| `CalibMath.GainNextIff` | src/pakon_calib.c:71-85 | the step in whole numbers: gain `n` follows iff `n` is `64 * 64000 / ((64 - gain) * peak)` rounded to the nearest whole number, halves upward, and limited to 63 |
| `CalibMath.GainAntitone` | src/pakon_calib.c:78-85 | a brighter peak never asks for more gain |
| `CalibMeasure.Deinterleave` | src/pakon_calib.c:87-102 | each present channel array begins with exactly the pixels of its place in the B, R, G order; what lies behind them is untouched, and absent arrays are skipped |
| `CalibMeasure.ChannelMean` | src/pakon_calib.c:104-110 | the truncated average of the window, 0 if it is empty |
| `CalibMeasure.ChannelPeak` | src/pakon_calib.c:112-119 | the greatest sample of the window, 0 if it is empty |
| `CalibMeasure.GreatestIsMax` | src/pakon_calib.c:112-119 | that value bounds every sample and is attained |
| `CalibMeasure.Measure` | src/pakon_calib.c:268-300 | per channel the truncated average of the truncated line averages and the greatest sample over all measured lines, zeros if the window or the data is empty |
| `CalibMeasure.MeanWithinTwo` | src/pakon_calib.c:290-297 | the two truncations lose less than two: mean <= average < mean + 2, and the mean lies between any lower bound of the samples and the peak |
| `CalibMeasure.MeasuredMeans` | src/pakon_calib.c:268-300 | for whole measurements the peak is the exact maximum and the mean is in (average - 2, average] |
| `CalibMeasure.SampleIsPixel` | src/pakon_calib.c:268-300 | the samples measured are, line by line, the words at byte `16000 * line + 6 * column` plus 2, 4 or 0 for red, green and blue |
| `CalibMeasure.PeakBoundsPixels` | src/pakon_calib.c:268-300 | no pixel of the window in any measured line exceeds the reported peak |
| `CalibMeasure.PeakIsPixel` | src/pakon_calib.c:268-300 | and some pixel has it |
| `CalibMeasure.LinesMeasured` | src/pakon_calib.c:274-284 | all whole lines of 16000 bytes are measured, or the start of one of at least 6 |
| `CalibMeasure.MeasuredRange` | src/pakon_calib.c:268-300 | mean <= peak <= 65535 for every buffer |
| `CalibRun.WriteThree` | src/pakon_calib.c:325-336 | sends the writes of the three registers in order, whatever the replies, and nothing else |
| `CalibRun.Acquire` | src/pakon_calib.c:220-239 | bursts of both kicks and one read of all that is missing, until everything is there, five reads in a row were empty or a transfer failed, and not longer; the buffer holds the bytes received in order |
| `CalibRun.GaveUpIff` | src/pakon_calib.c:232-236 | an acquisition is given up at the fifth empty read since the last one with data, or at a failed one |
| `CalibRun.BurstBytes` | src/pakon_calib.c:183-187 | the bytes of the two kicks and the length asked for |
| `CalibRun.Warmup` | src/pakon_calib.c:247-265 | one acquisition, and a second iff the first was not bright |
| `CalibRun.ProgramAndMeasure` | src/pakon_calib.c:333-338 | exactly the three register writes, then the acquisition, and the measurement is that of the bytes acquired |
| `CalibRun.DarkPhase` | src/pakon_calib.c:324-356 | gains to zero, then at most 8 rounds and nothing besides: each programs the offsets corrected by the means measured from the bytes of the round before, stops at the first round with all channels in tolerance, reports the offsets corrected once more, the last means and the latched flag |
| `CalibRun.DarkAtGainZeroIff` | src/pakon_calib.c:325-338 | at every image read of the dark phase all three gains are zero, whatever they were and whichever failed commands arrived, iff the three gain writes were acknowledged |
| `CalibRun.GainPhase` | src/pakon_calib.c:359-410 | exposure, control and warm-up, then at most 4 rounds and nothing besides: each programs the gains computed from the peaks of the round before; reports the gains in force for the reported peaks and the latched flag |
| `CalibRun.GainStartBytes` | src/pakon_calib.c:362-373 | the bytes that program exposure and control before the warm-up, with the C conversion of the exposure to int |
| `CalibRun.HeldInRoundIff` | src/pakon_calib.c:333-337 | at every image read of a round, and at its end, the registers hold the setting of that round, whatever they held and whichever failed commands arrived, iff its three writes were acknowledged |
| `CalibRun.RoundBytes` | src/pakon_calib.c:333-336 | the bytes of a round's writes: registers 5 to 7 of bank 0x84 with sign and magnitude, or 2 to 4 with gains of 0 to 63 |
| `CalibRun.LastRoundHeld` | src/pakon_calib.c:333-354 | if the writes of the last round were acknowledged, the reported measurement was read with the registers at that round's setting, for a whole run |
| `CalibRun.Calibrate` | src/pakon_calib.c:302-413 | with the defaults filled in, runs the phases asked for in that order and reports each; a phase left out leaves zeros |
| `CalibRun.OptionsMean` | src/pakon_calib.c:307-321 | what each option of zero stands for, and the limit of 64 lines |
| `CalibLaws.CalibrationAtGainZeroIff` | src/pakon_calib.c:302-338 | so it is for a calibration with any options: its dark phase measures at gain zero iff the three gain writes were acknowledged |
| `CalibLaws.UnacknowledgedRun` | src/pakon_calib.c:325-354 | a complete dark phase, with its reported outcome, in which every command and read failed: if none of its writes arrived, the registers kept whatever they held up to its last image read |
| `CalibLaws.ConvergedOffsetsStand` | src/pakon_calib.c:339-353 | the last correction leaves the loop's offsets as they are iff every reported mean is in 262..338, and so whenever the loop ends with all channels in tolerance |
| `CalibLaws.OffsetInForceIff` | src/pakon_calib.c:333-353 | the offset field held the reported offset while the reported mean was measured iff the mean is in 262..338 and the setting within -255..255, or the setting was below -255 and is reported as -255 |
| `CalibLaws.ReportedNotInForce` | src/pakon_calib.c:333-355 | a converged run that reports -1598 although the field held -255 |
| `CalibLaws.OffsetRange` | src/pakon_calib.c:332-354 | over all 16-bit measurements reported offsets stay in -13484..156 |
| `CalibLaws.OffsetRangeTight` | src/pakon_calib.c:332-354 | both ends are reached |
| `CalibLaws.FlagIsLatched` | src/pakon_calib.c:330-355 | the flag is set iff each channel was within 268..332 in some round; ending in tolerance sets it |
| `CalibLaws.FlagMayMislead` | src/pakon_calib.c:330-355 | a run that sets the flag and reports means that are all out of tolerance |
| `CalibLaws.ErrorNeverGrows` | src/pakon_calib.c:332-347 | on a linear sensor of slope up to 76 the error never grows over the rounds of a run |
| `CalibLaws.ErrorShrinks` | src/pakon_calib.c:332-347 | rounds 39 or more off bring the next one strictly closer, and for slopes up to 38 without overshoot |
| `CalibLaws.GainsFit` | src/pakon_calib.c:396-407 | reported gains fit the register, so encoding them changes nothing |
| `CalibLaws.WhiteFlag` | src/pakon_calib.c:392-409 | the flag is set iff each channel's peak reached 64000 in some round |
| `GainLaws.ExactStepIgnoresGain` | docs/REGISTERS.md:206-222 | on a sensor exactly proportional to light and factor the step asks for the same gain whatever gain is in force, namely the one a factor of 1 gives: the gain already applied is not built upon |
| `GainLaws.ExactRunSettles` | src/pakon_calib.c:384-409 | so on such a sensor every round after the first has that gain |
| `GainLaws.ChannelConvergesIff` | src/pakon_calib.c:384-409 | on a sensor whose peak is the whole part of `64 * x / (64 - gain)`, at most 65535, a channel reaches the target in some round iff its light `x` is in 1000..1024 or at least 63000 |
| `GainLaws.ConvergesIff` | src/pakon_calib.c:384-411 | the reported flag of such a run is set iff the light of all three channels is in those intervals |
| `GainLaws.NeverReached` | src/pakon_calib.c:384-411 | a run at light 32000: gain 2 in every round after the first, peak 33032, flag not set |
| `GainLaws.GainSettlesIff` | src/pakon_calib.c:384-409 | on that sensor the gain stays the same from round 1 on iff the light is not one of twelve values, for which round 2 raises it by one |
| `GainLaws.NeverSettled` | src/pakon_calib.c:384-411 | a run at one of them, light 2032, that swings between gain 31 and 32 |
| `MarkerAlign.SampleAt` | tools/pakon_image.py:113 | the sampled rows are exactly those at multiples of the stride |
| `MarkerAlign.ArgMax` | tools/pakon_image.py:115 | the first greatest element, as argmax breaks ties |
| `MarkerAlign.MarkerFound` | tools/pakon_image.py:113-118 | if the marker is set in every line and every other position is clear in some sampled row, the marker's column is found |
| `MarkerAlign.AlignIff` | tools/pakon_image.py:101-118 | a column is taken as the marker iff its low bit is set in at least 60 percent of the rows at multiples of the stride, in more than for any column before it and in no fewer than for any other; otherwise the picture is untouched |
| `MarkerAlign.ColumnOf` | tools/pakon_image.py:101-118 | where a column of a capture that starts k words into a line lies in which line |
| `MarkerAlign.AlignmentIgnoresStart` | tools/pakon_image.py:101-118 | aligned element (i, j) is word j of line i+1 if j < k and of line i otherwise, so columns do not depend on k and rows shear by at most one line |
| `MarkerAlign.ChannelsIgnoreStart` | tools/pakon_image.py:729-732 | every channel sample is the same pixel and colour whatever the start of the capture |
| `Leads.CauchySchwarz` | tools/pakon_image.py:267-271 | the square of the inner product is at most the product of the norms |
| `Leads.CorrelationBounds` | tools/pakon_image.py:269-271 | no score is above one or below minus one |
| `Leads.PerfectIffProportional` | tools/pakon_image.py:267-271 | a score of one means exactly that the centred bands are positive multiples of each other |
| `Leads.VLead` | tools/pakon_image.py:253-274 | the smallest shift of highest score in the range, 0 if no shift has a score |
| `LeadBands.CenteredTotal` | tools/pakon_image.py:267-268 | the vectors compared sum to zero |
| `LeadBands.CenteredDifferences` | tools/pakon_image.py:267-268 | and keep all differences of the samples |
| `LeadBands.RavelAt` | tools/pakon_image.py:259-268 | element by element, the samples are the words of the rows in the columns 0, 3, 6, ... |
| `LeadBands.FlatIff` | tools/pakon_image.py:267-271 | a vector has no length iff all its samples are equal |
| `LeadBands.FlatMeasuresZero` | tools/pakon_image.py:253-274 | if all sampled words of the base window are equal the lead is 0 |
| `LeadBands.BrightnessIgnored` | tools/pakon_image.py:262-273 | a constant added to all words of the channel, or of the reference, changes no score |
| `Leads.ExactShiftMeasured` | tools/pakon_image.py:253-274 | if the band is a non-constant exact shift by d, d has the highest possible score; the result scores the same and is not larger, and it is d iff no smaller shift is perfect |
| `Register.ValidatedArePlausible` | tools/pakon_image.py:299-306 | the leads used are always in the plausible ranges, and are the measured ones iff those are |
| `Register.PlausibleHeight` | tools/pakon_image.py:326-329 | plausible leads cost at most 22 rows in all zones together, and exactly 22 if the largest blue lead occurs |
| `Register.CommonWindow` | tools/pakon_image.py:326-329 | the registered rows are exactly the scene lines recorded by every channel of every zone, so the window is the largest possible |
| `Register.RegisteredShowsScene` | tools/pakon_image.py:326-338 | if each zone's channels record the scene with the zone's leads, row y of the result is scene line MaxLead + y in all channels of all zones, and all slices are in range |
| `Register.PermutedZonesShowScene` | tools/pakon_image.py:326-338 | the same with permutations: each zone's red, green and blue come from the planes its permutation names, straight where there is none |
| `Register.MissingPermutation` | tools/pakon_image.py:331-332 | a list of permutations shorter than the zones is an error |
| `Register.TooShortHasNoRows` | tools/pakon_image.py:326-338 | if no scene line is in all channels there is an error or a picture without rows |
| `Register.FlatBandFallsBack` | tools/pakon_image.py:262-306 | if the words in the columns 0, 3, 6, ... of the base window are all equal, the lead measures 0 and the constants 0, -8, -16 are used |
| `Register.GreySceneMeasured` | tools/pakon_image.py:253-274 | on a grey scene a lead that is in range, varied and not imitated by a smaller shift is measured exactly |
| `Register.MeasuredRegistration` | tools/pakon_image.py:253-338 | measuring, validating and registering such a scene gives it back line for line |
| `FrameCells.SortedSet` | tools/pakon_image.py:564 | strictly increasing with exactly the elements given |
| `FrameCells.SnapIsDip` | tools/pakon_image.py:556-561 | a tooth moves to the first least sample within 12 percent of the pitch, at least 2 samples |
| `FrameCells.BoundsIff` | tools/pakon_image.py:563-564 | the cell bounds are the ends of the film and where the comb's teeth have moved |
| `FrameCells.Filter` | tools/pakon_image.py:572-582 | a cell is kept iff it is at least 0.55 P wide and lies, inclusively, between two wide cells of sufficient detail |
| `FrameCells.KeptIff` | tools/pakon_image.py:567-582 | in numbers: 100 times the length is at least 55 times the pitch, and cells of 45 percent of the median detail stand at or on both sides |
| `FrameCells.InteriorSurvives` | tools/pakon_image.py:567-582 | a wide dark cell between two kept cells is kept |
| `FrameCells.CutRows` | tools/pakon_image.py:572-588 | the cuts made from the kept cells, or the whole ribbon if none is kept, and the pitch in rows |
| `FrameCells.CutsHoldCells` | tools/pakon_image.py:587 | one cut more than kept cells, strictly increasing, the first at the first kept start; cut k+1 is the end of kept cell k, which lies behind cut k |
| `FrameCells.InnerCellsWide` | tools/pakon_image.py:558-565 | snapping a comb of pitch at least 9 samples leaves narrow cells only at the two ends |
| `FrameCells.CombCutsAreCells` | tools/pakon_image.py:553-588 | hence the cut intervals are exactly the kept cells, without gap or overlap |
| `FrameCells.SamplesCover` | tools/pakon_image.py:496-502 | the profile covers all rows and exceeds them by less than a step, not at all iff the step divides their number |
| `FrameCells.SampleLimits` | tools/pakon_image.py:496 | a ribbon of 8000 rows or more is sampled down to 8000 to 15999 samples, a shorter one not at all |
| `FrameCells.CutsInRange` | tools/pakon_image.py:587 | all cuts are at most the number of rows iff the step divides it or the cell at the end of the profile is not kept; beyond it they are less than a step |
| `FrameCells.CutBeyondRibbon` | tools/pakon_image.py:533-587 | a blank ribbon of 17001 rows, for which the comb search takes its shortest pitch at phase 0: all seven cells are kept and the last cut is row 17002 |

## Left out

- USB enumeration, claiming, transfers and firmware download: the device is an arbitrary sequence of replies of which at most the requested bytes reach the host.
- Session.Device.Command: the send and the receive of one command are one reply of the device; a short send is one of the failures. The time-outs passed along are not modelled.
- Session.Device.ControlTransfer: the bytes offered beyond those of the script line are whatever the buffer held before; only the first ones are stated (`Session.CarriesData`).
- DrivenLoop.ScanLoop: runs for a given number of windows, because the loop of the source need not end when the device stays busy forever; every run of the source is covered by some number, and a sufficient number is proved for a positive cap and bounded busy streaks.
- Advance.AdvanceSteps: the wall clock is a parameter that answers the check before each step.
- The printed and returned counters of scans (commands, reads, errors), logging, tracing, `--drain`, argument parsing, opening of files, and running out of memory.
- Script.HexBytesInto: text is taken in the C locale; `sscanf` and `strtoul` follow a C library that reads "0x" without a digit behind it as 0.
- HexFile.ParseMem: the text is given; reading it from a file is not modelled.
- Pcapng.ParsePcapng: time stamps, bus numbers, URB identifiers and transfer-type names of a record are not kept, since the script does not use them; files with several sections are read with the byte order of the first, as the code does, and nothing more is proved of them.
- Extract.ExtractScan: the device is given, not chosen as the one with most image reads; the wording of the comment lines is a parameter.
- CalibMath.GainNextIff: gain factors are real numbers, not doubles.
- CalibRun.HeldInRoundIff: an acknowledged write is taken to have reached the register it names; what the device does between a write and a read is not modelled.
- GainLaws.ChannelConvergesIff: the sensor is the one the documentation assumes, without noise; nothing is claimed of the real one.
- CalibRun.Warmup: the level it returns is only logged and is not stated.
- Leads.VLead: averages, norms and correlations are exact; correlations are compared by their signed squares, which order them in the same way.
- Leads.Band: the band bounds `0.35 * n` and `0.65 * n` are exact; in floating point the lower one comes out one row lower for some heights, such as 180, 340 and 360.
- MarkerAlign.MarkerFound: fractions of rows are compared exactly.
- FrameCells.Filter: the fractions 0.55, 0.45 and 0.12 are exact; the detail values and their median are given.
- FrameCells.CombCutsAreCells: the pitch, the phase and the start of the film are given; the searches that find them by autocorrelation are floating-point heuristics. A pitch below 9 samples is outside the range the caller searches on a ribbon of less than two million rows.
- Register.RegisteredShowsScene: the optional correction between two sensor taps is not modelled.
- Colour science, rendering, automatic cropping, the web service, the text readers for tshark and usbmon, firmware scripts, the raw converter, the probe and the EEPROM dump.
