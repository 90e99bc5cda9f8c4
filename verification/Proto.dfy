/**
 The command frame (src/pakon_proto.c): a packet record filled in place, its wire
 form of two header bytes and the payload, and the parser of replies.
 */
module Proto {
  import opened Bytes

  const DATA_MAX := 34
  const PACKET_SIZE := 36

  datatype Code = OK | PARAM | PROTO

  /** A frame as a value: what a packet record means. */
  datatype Frame = Frame(typ: byte, data: seq<byte>)

  predicate Fits(f: Frame) {
    |f.data| <= DATA_MAX
  }

  function Wire(f: Frame): seq<byte>
    requires Fits(f)
  {
    [f.typ, |f.data|] + f.data
  }

  /** A byte string that is one self-consistent frame. */
  predicate IsWire(raw: seq<byte>) {
    |raw| >= 2 && raw[1] <= DATA_MAX && |raw| == 2 + raw[1] as int
  }

  function FrameOf(raw: seq<byte>): (f: Frame)
    requires IsWire(raw)
    ensures Fits(f)
  {
    Frame(raw[0], raw[2..])
  }

  /** Wire form and frame determine each other. */
  lemma WireInverse(raw: seq<byte>, f: Frame)
    requires Fits(f)
    ensures IsWire(raw) && FrameOf(raw) == f <==> raw == Wire(f)
  {
    if IsWire(raw) && FrameOf(raw) == f {
      assert raw == [raw[0], raw[1]] + raw[2..];
    }
  }

  /** `pakon_packet_status`: the byte after the address, or 0. */
  function Status(f: Frame): byte {
    if |f.data| >= 2 then f.data[1] else 0
  }

  class Packet {
    var typ: byte
    var count: byte
    const data: array<byte>

    constructor ()
      ensures data.Length == DATA_MAX && fresh(data)
      ensures Holds(Frame(0, []))
    {
      typ, count := 0, 0;
      data := new byte[DATA_MAX](_ => 0);
    }

    /** The record holds `f`, zero-padded. */
    ghost predicate Holds(f: Frame)
      requires data.Length == DATA_MAX
      reads this, data
    {
      Fits(f) && typ == f.typ && count == |f.data| && data[..count] == f.data &&
      forall k :: count as int <= k < DATA_MAX ==> data[k] == 0
    }

    method Clear()
      requires data.Length == DATA_MAX
      modifies this, data
      ensures Holds(Frame(0, []))
    {
      typ, count := 0, 0;
      forall k | 0 <= k < DATA_MAX { data[k] := 0; }
    }

    method Copy(src: seq<byte>)
      requires data.Length == DATA_MAX && |src| <= DATA_MAX
      modifies data
      ensures data[..|src|] == src && forall k :: |src| <= k < DATA_MAX ==> data[k] == old(data[k])
    {
      forall k | 0 <= k < |src| { data[k] := src[k]; }
    }

    /** `pakon_packet_build`. */
    method Build(newType: byte, src: seq<byte>) returns (r: Code)
      requires data.Length == DATA_MAX
      modifies this, data
      ensures r == if |src| <= DATA_MAX then OK else PARAM
      ensures r.OK? ==> Holds(Frame(newType, src))
      ensures !r.OK? ==> typ == old(typ) && count == old(count) && data[..] == old(data[..])
    {
      if |src| > DATA_MAX { return PARAM; }
      Clear();
      typ, count := newType, |src|;
      Copy(src);
      return OK;
    }

    /** `pakon_packet_serialize` into a caller's buffer. */
    method Serialize(out: array<byte>) returns (r: Code, n: nat)
      requires data.Length == DATA_MAX && out != data
      modifies out
      ensures r == if count > DATA_MAX then PROTO else if out.Length < 2 + count as int then PARAM else OK
      ensures r.OK? ==> n == 2 + count as int && out[..n] == Wire(Frame(typ, data[..count])) && out[n..] == old(out[n..])
      ensures !r.OK? ==> n == 0 && out[..] == old(out[..])
    {
      if count > DATA_MAX { return PROTO, 0; }
      n := 2 + count as int;
      if out.Length < n { return PARAM, 0; }
      out[0], out[1] := typ, count;
      forall k | 0 <= k < count { out[2 + k] := data[k]; }
      return OK, n;
    }

    /** `pakon_packet_parse`. */
    method Parse(raw: seq<byte>) returns (r: Code)
      requires data.Length == DATA_MAX
      modifies this, data
      ensures r == if IsWire(raw) then OK else PROTO
      ensures r.OK? ==> Holds(FrameOf(raw))
    {
      if |raw| < 2 { return PROTO; }
      if raw[1] > DATA_MAX || |raw| != 2 + raw[1] as int { return PROTO; }
      Clear();
      typ, count := raw[0], raw[1];
      Copy(raw[2..]);
      return OK;
    }
  }
}
