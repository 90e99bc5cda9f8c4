/**
 The device as the replay tool sees it: an arbitrary sequence of replies, one per
 transaction, and a record of everything that was sent and received.
 */
module Session {
  import opened Bytes
  import opened Script
  import Proto

  datatype Result = OK | TIMEOUT | FAILED

  datatype Reply = Reply(result: Result, bytes: seq<byte>)

  /** One transaction with the device. */
  datatype Event =
    | Sent(frame: seq<byte>, ok: bool)
    | Transfer(setup: Setup, supplied: seq<byte>, payload: seq<byte>, ok: bool)
    | Read(want: nat, result: Result, bytes: seq<byte>)
    | Framed(frame: seq<byte>, ok: bool, status: byte)

  /** At most `max` bytes of a reply reach the host. */
  function Got(r: Reply, max: nat): (b: seq<byte>)
    ensures |b| <= max
  {
    r.bytes[..Min(|r.bytes|, max)]
  }

  /** `pakon_cmd` succeeds when the reply arrives and is one self-consistent frame. */
  predicate Answered(r: Reply) {
    r.result.OK? && Proto.IsWire(Got(r, Proto.PACKET_SIZE))
  }

  function StatusOf(r: Reply): byte {
    if Answered(r) then Proto.Status(Proto.FrameOf(Got(r, Proto.PACKET_SIZE))) else 0
  }

  /** A reply of at most 36 bytes is one frame: type, count of at most 34, and as many bytes as the count says. */
  lemma AnsweredMeans(r: Reply)
    ensures var raw := r.bytes[..Min(|r.bytes|, 36)];
            Answered(r) <==> r.result.OK? && 2 <= |raw| && |raw| == 2 + raw[1] as int && raw[1] <= 34
  {
  }

  /** The status is the byte behind the echoed address, 0 where there is none. */
  lemma StatusMeans(r: Reply)
    ensures Answered(r) ==> StatusOf(r) == if r.bytes[1] >= 2 then r.bytes[3] else 0
    ensures !Answered(r) ==> StatusOf(r) == 0
  {
  }

  /** Bytes read from a two-byte reply. */
  lemma ShortReply(typ: byte, addr: byte, status: byte)
    ensures Answered(Reply(OK, [typ, 2, addr, status])) && StatusOf(Reply(OK, [typ, 2, addr, status])) == status
  {
    var bytes := [typ, 2, addr, status];
    assert bytes[..4] == bytes;
  }

  class Device {
    const reply: nat -> Reply
    var clock: nat
    ghost var trace: seq<Event>
    var image: seq<byte>      // what was written to the image file
    var imgBytes: nat         // how much of it

    constructor (reply: nat -> Reply)
      ensures this.reply == reply && clock == 0 && trace == [] && image == []
      ensures imgBytes == 0
    {
      this.reply := reply;
      clock, trace, image, imgBytes := 0, [], [], 0;
    }

    method Fill(buf: array<byte>, at: nat, bytes: seq<byte>)
      requires at + |bytes| <= buf.Length
      modifies buf
      ensures buf[at..at + |bytes|] == bytes
      ensures forall k :: 0 <= k < buf.Length && !(at <= k < at + |bytes|) ==> buf[k] == old(buf[k])
    {
      forall k | 0 <= k < |bytes| { buf[at + k] := bytes[k]; }
    }

    /** Send the first `n` bytes of `buf` and read the reply over them. */
    method Exchange(buf: array<byte>, n: nat) returns (ok: bool)
      requires n <= buf.Length
      modifies this`clock, this`trace, buf
      ensures clock == old(clock) + 1 && ok == reply(old(clock)).result.OK?
      ensures trace == old(trace) + [Sent(old(buf[..n]), ok)]
    {
      var r := reply(clock);
      clock := clock + 1;
      ok := r.result.OK?;
      trace := trace + [Sent(buf[..n], ok)];
      if ok { Fill(buf, 0, Got(r, buf.Length)); }
    }

    /** A bulk read of the image endpoint into `buf` from `at` on. */
    method Receive(buf: array<byte>, at: nat, want: nat) returns (result: Result, got: nat)
      requires at + want <= buf.Length
      modifies this`clock, this`trace, buf
      ensures clock == old(clock) + 1 && result == reply(old(clock)).result && got <= want
      ensures buf[at..at + got] == Got(reply(old(clock)), want)
      ensures forall k :: 0 <= k < buf.Length && !(at <= k < at + got) ==> buf[k] == old(buf[k])
      ensures trace == old(trace) + [Read(want, result, buf[at..at + got])]
    {
      var r := reply(clock);
      clock := clock + 1;
      var bytes := Got(r, want);
      Fill(buf, at, bytes);
      trace := trace + [Read(want, r.result, bytes)];
      return r.result, |bytes|;
    }

    /** `fwrite` of a received chunk. */
    method Save(buf: array<byte>, got: nat)
      requires got <= buf.Length
      modifies this`image, this`imgBytes
      ensures image == old(image) + buf[..got] && imgBytes == old(imgBytes) + got
    {
      image := image + buf[..got];
      imgBytes := imgBytes + got;
    }

    /** A control transfer with `setup.length` bytes of `buf`, of which `supplied` were just put there. */
    method ControlTransfer(setup: Setup, ghost supplied: seq<byte>, buf: array<byte>) returns (ok: bool)
      requires setup.length <= buf.Length && |supplied| <= buf.Length && supplied == buf[..|supplied|]
      modifies this`clock, this`trace, buf
      ensures clock == old(clock) + 1 && ok == reply(old(clock)).result.OK?
      ensures trace == old(trace) + [Transfer(setup, supplied, old(buf[..setup.length]), ok)]
    {
      var r := reply(clock);
      clock := clock + 1;
      ok := r.result.OK?;
      trace := trace + [Transfer(setup, supplied, buf[..setup.length], ok)];
      if ok && setup.requestType >= 0x80 { Fill(buf, 0, Got(r, setup.length)); }
    }

    /** `pakon_cmd`: one framed command and its parsed reply. */
    method Command(frame: seq<byte>) returns (ok: bool, status: byte)
      modifies this`clock, this`trace
      ensures clock == old(clock) + 1 && ok == Answered(reply(old(clock))) && status == StatusOf(reply(old(clock)))
      ensures trace == old(trace) + [Framed(frame, ok, status)]
    {
      var r := reply(clock);
      clock := clock + 1;
      ok, status := Answered(r), StatusOf(r);
      trace := trace + [Framed(frame, ok, status)];
    }

    /** `pakon_cmd` without a reply packet: the command is sent and no reply is read. */
    method Post(frame: seq<byte>) returns (ok: bool)
      modifies this`clock, this`trace
      ensures clock == old(clock) + 1 && ok == reply(old(clock)).result.OK?
      ensures trace == old(trace) + [Framed(frame, ok, 0)]
    {
      ok := reply(clock).result.OK?;
      clock := clock + 1;
      trace := trace + [Framed(frame, ok, 0)];
    }
  }

  // ---- projections of a trace --------------------------------------------------------

  /** The script commands among the events, in order. */
  ghost function Commands(trace: seq<Event>): seq<Op> {
    if trace == [] then []
    else
      Commands(trace[..|trace| - 1]) +
      match trace[|trace| - 1]
      case Sent(frame, _) => [Send(frame)]
      case Transfer(setup, supplied, _, _) => [Control(setup, supplied)]
      case _ => []
  }

  /** What one event received from the image endpoint. */
  ghost function Received(e: Event): seq<byte> {
    match e case Read(_, _, bytes) => bytes case _ => []
  }

  /** Everything received from the image endpoint. */
  ghost function ImageBytes(trace: seq<Event>): seq<byte> {
    if trace == [] then [] else ImageBytes(trace[..|trace| - 1]) + Received(trace[|trace| - 1])
  }

  lemma {:induction false} CommandsConcat(s: seq<Event>, t: seq<Event>)
    ensures Commands(s + t) == Commands(s) + Commands(t)
  {
    if t == [] {
      assert s + t == s;
    } else {
      assert (s + t)[..|s + t| - 1] == s + t[..|t| - 1];
      CommandsConcat(s, t[..|t| - 1]);
    }
  }

  lemma ImageBytesSnoc(ev: seq<Event>, e: Event)
    ensures ImageBytes(ev + [e]) == ImageBytes(ev) + Received(e)
  {
    hide Received;
    assert (ev + [e])[..|ev|] == ev;
  }

  lemma Regroup<T>(a: seq<T>, b: seq<T>, c: seq<T>)
    ensures a + (b + c) == (a + b) + c
  {
  }

  lemma {:induction false} ImageBytesConcat(s: seq<Event>, t: seq<Event>)
    ensures ImageBytes(s + t) == ImageBytes(s) + ImageBytes(t)
  {
    if t == [] {
      assert s + t == s && ImageBytes(t) == [];
    } else {
      var front, e := t[..|t| - 1], t[|t| - 1];
      assert t == front + [e];
      hide ImageBytes, Received;
      ImageBytesConcat(s, front);
      ImageBytesSnoc(s + front, e);
      ImageBytesSnoc(front, e);
      Regroup(s, front, [e]);
      Regroup(ImageBytes(s), ImageBytes(front), Received(e));
    }
  }

  /** A control transfer carries the bytes of its script line as far as its length goes. */
  ghost predicate CarriesData(e: Event) {
    e.Transfer? ==>
      |e.payload| == e.setup.length &&
      forall k :: 0 <= k < |e.supplied| && k < |e.payload| ==> e.payload[k] == e.supplied[k]
  }
}
