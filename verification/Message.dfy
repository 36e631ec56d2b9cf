/** The aaws_message object: the sending calls on its header and payload, and
    the accessors that loop over a received buffer. */
module Messages {
  import opened ByteStrings
  import opened Frame
  import B = Builder

  class Message {
    var header: Head
    var payload: Bytes
    /** _use_ex_msg_ptr: the message was received, and wire is its buffer. */
    const received: bool
    const wire: Bytes

    ghost predicate Valid()
      reads this
    {
      B.Valid(Contents())
    }

    ghost function Contents(): B.Draft
      reads this
    {
      B.Draft(header, payload)
    }

    /** A message to send; the C++ placeholder holds 40 bytes of no particular value. */
    constructor Sender(placeholder: Bytes)
      requires |placeholder| == HEAD
      ensures Valid() && Contents() == B.Fresh(placeholder) && !received
    {
      header, payload, received, wire := NewHead(), placeholder, false, [];
    }

    /** A received message. */
    constructor Receiver(buffer: Bytes, placeholder: Bytes)
      requires |placeholder| == HEAD
      ensures Valid() && received && wire == buffer
    {
      header, payload, received, wire := NewHead(), placeholder, true, buffer;
    }

    method AppendOption(o: Opt)
      requires Valid()
      modifies this
      ensures Valid() && Contents() == B.AppendOption(old(Contents()), o)
    {
      payload := payload + OptRecord(o);
      header := header.(optcnt := Wrap8(header.optcnt + 1));
      header := header.(optlen := Wrap32(header.optlen + |o.data| + OPH));
    }

    method AppendExh(e: Ext)
      requires Valid()
      modifies this
      ensures Valid() && Contents() == B.AppendExh(old(Contents()), e)
    {
      payload := payload + ExtRecord(e);
      header := header.(exhcnt := Wrap8(header.exhcnt + 1));
      header := header.(exhlen := Wrap32(header.exhlen + |e.data| + EXH));
    }

    method Submit(m: Byte, sequence: U32)
      requires Valid()
      modifies this
      ensures Valid() && Contents() == B.Submit(old(Contents()), m, sequence)
    {
      header := header.(payloadMethod := m);
      header := header.(seqence := sequence);
      header := header.(payloadLen := Wrap32(HEAD + header.exhlen + header.optlen));
      payload := HeadBytes(header) + payload[HEAD..];
    }

    /** get_payload. */
    method GetPayload() returns (b: Bytes)
      ensures b == if received then wire else payload
    {
      b := if received then wire else payload;
    }

    // The record accessors read behind the header, which is only the buffer of
    // the message when it was received.

    /** The list forms of get_exh, get_exh_payload and get_exh_8bit, appending to
        exs; ok is false when a read would leave the buffer. */
    method GetExhs(exs: seq<Bytes>, p: Part) returns (ok: bool, out: seq<Bytes>)
      requires received
      ensures ok <==> Exhs(wire, p).Walked?
      ensures ok ==> out == exs + Exhs(wire, p).pieces
    {
      if |wire| < HEAD {
        return false, exs;
      }
      ExhLoopIsWalk(wire, HEAD, ExhCount(wire), p, exs);
      ok, out := CollectExhs(wire, HEAD, ExhCount(wire), p, exs);
    }

    static method CollectExhs(b: Bytes, first: U32, n: nat, p: Part, exs: seq<Bytes>)
      returns (ok: bool, out: seq<Bytes>)
      ensures ok <==> ExhLoop(b, first, n, p, exs).Walked?
      ensures ok ==> out == ExhLoop(b, first, n, p, exs).pieces
    {
      var offset: U32 := first;
      out := exs;
      for i := 0 to n
        invariant ExhLoop(b, offset, n - i, p, out) == ExhLoop(b, first, n, p, exs)
      {
        if offset + 4 > |b| {
          return false, out;
        }
        var len := U16At(b, offset + 2);
        if offset + PartStart(p) + PartSize(p, len) > |b| {
          return false, out;
        }
        out := out + [Copy(b, offset + PartStart(p), PartSize(p, len))];
        offset := Wrap32(offset + EXH + len);
      }
      return true, out;
    }

    /** The indexed forms of get_exh, get_exh_payload and get_exh_8bit. */
    method GetExh(id: int, p: Part) returns (r: Fetch)
      requires received
      ensures r == ExhFetch(wire, id, p)
    {
      if |wire| < HEAD {
        return Beyond;
      }
      if id >= ExhCount(wire) || id < 0 {
        return Missing;
      }
      var offset: U32 := HEAD;
      for i := 0 to id
        invariant ExhSeek(wire, offset, id - i) == ExhSeek(wire, HEAD, id)
      {
        if offset + 4 > |wire| {
          return Beyond;
        }
        offset := Wrap32(offset + EXH + U16At(wire, offset + 2));
      }
      return ExhPiece(wire, offset, p);
    }

    /** The list form of get_option, appending to opts. */
    method GetOptions(opts: seq<Bytes>) returns (ok: bool, out: seq<Bytes>)
      requires received
      ensures ok <==> Opts(wire).Walked?
      ensures ok ==> out == opts + Opts(wire).pieces
    {
      if |wire| < HEAD {
        return false, opts;
      }
      OptLoopIsWalk(wire, OptStart(wire), OptCount(wire), opts);
      ok, out := CollectOptions(wire, OptStart(wire), OptCount(wire), opts);
    }

    static method CollectOptions(b: Bytes, first: U32, n: nat, opts: seq<Bytes>) returns (ok: bool, out: seq<Bytes>)
      ensures ok <==> OptLoop(b, first, n, opts).Walked?
      ensures ok ==> out == OptLoop(b, first, n, opts).pieces
    {
      var offset: U32 := first;
      out := opts;
      for i := 0 to n
        invariant OptLoop(b, offset, n - i, out) == OptLoop(b, first, n, opts)
      {
        if offset + 8 > |b| {
          return false, out;
        }
        var size: U32 := Wrap32(U32At(b, offset + 4) + OPH);
        if offset + size > |b| {
          return false, out;
        }
        out := out + [Copy(b, offset, size)];
        offset := Wrap32(offset + size);
      }
      return true, out;
    }

    /** The indexed form of get_option, with the header pointer it computes. */
    method GetOption(id: int) returns (r: Fetch)
      requires received
      ensures r == OptFetch(wire, id)
    {
      if |wire| < HEAD {
        return Beyond;
      }
      if id >= OptCount(wire) || id < 0 {
        return Missing;
      }
      var first: U32 := OptStart(wire);
      var offset: U32, head: nat := first, first;
      for i := 0 to id
        invariant OptSeek(wire, offset, head, id - i) == OptSeek(wire, first, first, id)
      {
        if head + 8 > |wire| {
          return Beyond;
        }
        offset := Wrap32(offset + U32At(wire, head + 4) + OPH);
        head := HEAD * offset;
      }
      if head + 8 > |wire| || offset + U32At(wire, head + 4) + OPH > |wire| {
        return Beyond;
      }
      return Found(Copy(wire, offset, U32At(wire, head + 4) + OPH));
    }
  }
}
