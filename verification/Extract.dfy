/**
 From captured transfers to a script file (tools/analyze_capture.py,
 extract_scan).  The file written is proved to read back, in the replay tool, as
 the operations of the chosen device in capture order.
 */
module Extract {
  import opened Bytes
  import opened CText
  import opened Script
  import opened ScriptPrint

  /** The fields of a captured transfer that the printer looks at. */
  datatype Rec = Rec(urb: char, ep: byte, dev: byte, urbLen: Option<nat>, setup: Option<Setup>, data: seq<byte>)

  const DEFAULT_READ := 20480

  /** The operation a transfer stands for, if it is a submission of the device and of a kind that is replayed. */
  function OpOf(r: Rec, device: byte): (op: Option<Op>)
    ensures op.Some? ==> Printable(op.value)
  {
    if r.dev != device || r.urb != 'S' then None
    else if r.ep == 0x01 && r.data != [] then Some(Send(r.data))
    else if r.ep == 0x86 then Some(Image(match r.urbLen case Some(n) => n case None => DEFAULT_READ))
    else match r.setup
      case Some(s) => if s.request == 0xA4 || s.request == 0xA9 then Some(Control(s, r.data)) else None
      case None => None
  }

  function OpsFrom(recs: seq<Rec>, device: byte): (ops: seq<Op>)
    ensures forall k :: 0 <= k < |ops| ==> Printable(ops[k])
  {
    if recs == [] then []
    else
      var before := OpsFrom(recs[..|recs| - 1], device);
      match OpOf(recs[|recs| - 1], device)
      case Some(op) => before + [op]
      case None => before
  }

  lemma {:induction false} PrintSnoc(ops: seq<Op>, op: Op)
    requires Printable(op) && forall k :: 0 <= k < |ops| ==> Printable(ops[k])
    ensures Print(ops + [op]) == Print(ops) + PrintBody(op) + "\n"
  {
    hide PrintBody;
    if ops == [] {
      assert [] + [op] == [op] && [op][1..] == [];
    } else {
      var all, rest := ops + [op], Print(ops[1..]);
      assert all[1..] == ops[1..] + [op] && all[0] == ops[0];
      PrintSnoc(ops[1..], op);
      Join(PrintBody(ops[0]) + "\n", rest, PrintBody(op), "\n");
    }
  }

  lemma Join(a: string, b: string, c: string, d: string)
    ensures a + (b + c + d) == a + b + c + d
  {
  }

  /** A line the replay tool ignores; its wording is of no consequence. */
  predicate IsComment(line: string) {
    OneLine(line) && 0 < |line| < LINE_MAX && line[0] == '#'
  }

  function Header(comments: seq<string>): string {
    if comments == [] then "" else comments[0] + "\n" + Header(comments[1..])
  }

  lemma CommentSkipped(line: string, rest: string)
    requires IsComment(line)
    ensures Ops(line + "\n" + rest) == Ops(rest)
  {
    ShortLine(line, rest);
    WordIs(line + "\n");
    OpsOfCons(line + "\n", Pieces(rest));
  }

  lemma {:induction false} HeaderSkipped(comments: seq<string>, rest: string)
    requires forall k :: 0 <= k < |comments| ==> IsComment(comments[k])
    ensures Ops(Header(comments) + rest) == Ops(rest)
  {
    hide Ops, IsComment;
    if comments == [] {
      assert Header(comments) + rest == rest;
    } else {
      HeaderSkipped(comments[1..], rest);
      CommentSkipped(comments[0], Header(comments[1..]) + rest);
      assert Header(comments) + rest == comments[0] + "\n" + (Header(comments[1..]) + rest);
    }
  }

  /** Numbers of O, M and C lines. */
  function Tally(ops: seq<Op>): (nat, nat, nat) {
    if ops == [] then (0, 0, 0)
    else
      var t := Tally(ops[..|ops| - 1]);
      match ops[|ops| - 1]
      case Send(_) => (t.0 + 1, t.1, t.2)
      case Image(_) => (t.0, t.1 + 1, t.2)
      case Control(_, _) => (t.0, t.1, t.2 + 1)
      case _ => t
  }

  predicate IsKind(op: Op, kind: nat) {
    if kind == 0 then op.Send? else if kind == 1 then op.Image? else op.Control?
  }

  function KindAt(ops: seq<Op>, kind: nat): set<nat> {
    set k: nat | k < |ops| && IsKind(ops[k], kind)
  }

  lemma KindMore(ops: seq<Op>, kind: nat)
    requires ops != []
    ensures var n := |ops| - 1;
            |KindAt(ops, kind)| == |KindAt(ops[..n], kind)| + if IsKind(ops[n], kind) then 1 else 0
  {
    hide IsKind;
    var n := |ops| - 1;
    assert KindAt(ops, kind) == KindAt(ops[..n], kind) + if IsKind(ops[n], kind) then {n} else {};
  }

  /** The counts are those of the operations of each kind: commands, image reads, control transfers. */
  lemma {:induction false} TallyCounts(ops: seq<Op>)
    ensures Tally(ops) == (|KindAt(ops, 0)|, |KindAt(ops, 1)|, |KindAt(ops, 2)|)
  {
    hide KindAt;
    if ops == [] {
      assert KindAt(ops, 0) == {} && KindAt(ops, 1) == {} && KindAt(ops, 2) == {} by { NoKind(); }
    } else {
      TallyCounts(ops[..|ops| - 1]);
      KindMore(ops, 0);
      KindMore(ops, 1);
      KindMore(ops, 2);
    }
  }

  lemma NoKind()
    ensures KindAt([], 0) == {} && KindAt([], 1) == {} && KindAt([], 2) == {}
  {
  }

  /** What has been written and counted so far. */
  ghost predicate Written(comments: seq<string>, ops: seq<Op>, text: string, nO: nat, nM: nat, nC: nat) {
    (forall k :: 0 <= k < |ops| ==> Printable(ops[k])) &&
    text == Header(comments) + Print(ops) && (nO, nM, nC) == Tally(ops)
  }

  /** Write the script, after some comment lines, and count its lines by kind. */
  method ExtractScan(recs: seq<Rec>, device: byte, comments: seq<string>) returns (text: string, nO: nat, nM: nat, nC: nat)
    ensures text == Header(comments) + Print(OpsFrom(recs, device))
    ensures (nO, nM, nC) == Tally(OpsFrom(recs, device))
  {
    text, nO, nM, nC := Header(comments), 0, 0, 0;
    Start(comments);
    hide Written, PrintBody, Header, Print, Tally, OpsFrom;
    for i := 0 to |recs|
      invariant Written(comments, OpsFrom(recs[..i], device), text, nO, nM, nC)
    {
      var r := recs[i];
      ghost var ops := OpsFrom(recs[..i], device);
      NextRecord(recs, i, device);
      if r.dev != device || r.urb != 'S' { continue; }
      if r.ep == 0x01 && r.data != [] {
        Snoc(comments, ops, Send(r.data), text, nO, nM, nC);
        text, nO := text + PrintBody(Send(r.data)) + "\n", nO + 1;
      } else if r.ep == 0x86 {
        var n := if r.urbLen.Some? then r.urbLen.value else DEFAULT_READ;
        Snoc(comments, ops, Image(n), text, nO, nM, nC);
        text, nM := text + PrintBody(Image(n)) + "\n", nM + 1;
      } else if r.setup.Some? && (r.setup.value.request == 0xA4 || r.setup.value.request == 0xA9) {
        Snoc(comments, ops, Control(r.setup.value, r.data), text, nO, nM, nC);
        text, nC := text + PrintBody(Control(r.setup.value, r.data)) + "\n", nC + 1;
      }
    }
    assert recs[..|recs|] == recs;
    Finish(comments, OpsFrom(recs, device), text, nO, nM, nC);
  }

  lemma NextRecord(recs: seq<Rec>, i: nat, device: byte)
    requires i < |recs|
    ensures OpsFrom(recs[..i + 1], device) == match OpOf(recs[i], device)
              case Some(op) => OpsFrom(recs[..i], device) + [op]
              case None => OpsFrom(recs[..i], device)
  {
    hide OpOf;
    assert recs[..i + 1][..i] == recs[..i];
  }

  lemma Start(comments: seq<string>)
    ensures Written(comments, [], Header(comments), 0, 0, 0)
    ensures forall device: byte :: OpsFrom([], device) == []
  {
  }

  lemma Finish(comments: seq<string>, ops: seq<Op>, text: string, nO: nat, nM: nat, nC: nat)
    requires Written(comments, ops, text, nO, nM, nC)
    ensures (forall k :: 0 <= k < |ops| ==> Printable(ops[k])) && text == Header(comments) + Print(ops)
    ensures (nO, nM, nC) == Tally(ops)
  {
  }

  lemma Snoc(comments: seq<string>, ops: seq<Op>, op: Op, text: string, nO: nat, nM: nat, nC: nat)
    requires (op.Send? || op.Image? || op.Control?) && Printable(op) && Written(comments, ops, text, nO, nM, nC)
    ensures Written(comments, ops + [op], text + PrintBody(op) + "\n", nO + (if op.Send? then 1 else 0),
                    nM + (if op.Image? then 1 else 0), nC + (if op.Control? then 1 else 0))
  {
    hide Print, PrintBody, Header;
    assert (ops + [op])[..|ops|] == ops;
    PrintSnoc(ops, op);
    Join(Header(comments), Print(ops), PrintBody(op), "\n");
  }

  /** The script of a capture reads back as the captured operations iff all of them fit the buffers. */
  lemma CaptureReplays(recs: seq<Rec>, device: byte, comments: seq<string>)
    requires forall k :: 0 <= k < |comments| ==> IsComment(comments[k])
    requires PrintableAll(OpsFrom(recs, device))
    ensures var ops := OpsFrom(recs, device);
            Ops(Header(comments) + Print(ops)) == ReadBackAll(ops) &&
            (Ops(Header(comments) + Print(ops)) == ops <==> forall k :: 0 <= k < |ops| ==> FitsBuffers(ops[k]))
  {
    var ops := OpsFrom(recs, device);
    HeaderSkipped(comments, Print(ops));
    PrintThenRead(ops);
    RoundTripIff(ops);
  }
}
