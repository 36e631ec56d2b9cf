/** The AAWS frame: a 40-byte header, extension records (10-byte header and
    data) and option records (8-byte header and data), in the layout the C++
    structs have in memory. */
module Frame {
  import opened ByteStrings

  const HEAD: nat := 40
  const EXH: nat := 10
  const OPH: nat := 8

  /** AAWS_HEAD. */
  datatype Head = Head(
    magic: Bytes,
    version: U32,
    payloadLen: U32,
    payloadMethod: Byte,
    exhcnt: Byte,
    optcnt: Byte,
    hdrsv1: Byte,
    exhlen: U32,
    optlen: U32,
    exhcrc32: U32,
    optcrc32: U32,
    seqence: U32,
    hdrsv: Bytes
  )

  predicate ValidHead(h: Head) {
    |h.magic| == 4 && |h.hdrsv| == 4
  }

  /** The default constructor: magic "ADAS", everything else zero. */
  function NewHead(): (h: Head)
    ensures ValidHead(h)
  {
    Head([65, 68, 65, 83], 0, 0, 0, 0, 0, 0, 0, 0, 0, 0, 0, [0, 0, 0, 0])
  }

  /** The header in memory is ten words without padding. */
  function HeadWord(h: Head, i: nat): (w: Bytes)
    requires ValidHead(h) && i < 10
    ensures |w| == 4
  {
    if i == 0 then h.magic
    else if i == 1 then Le32(h.version)
    else if i == 2 then Le32(h.payloadLen)
    else if i == 3 then [h.payloadMethod, h.exhcnt, h.optcnt, h.hdrsv1]
    else if i == 4 then Le32(h.exhlen)
    else if i == 5 then Le32(h.optlen)
    else if i == 6 then Le32(h.exhcrc32)
    else if i == 7 then Le32(h.optcrc32)
    else if i == 8 then Le32(h.seqence)
    else h.hdrsv
  }

  function FirstWords(h: Head, n: nat): (b: Bytes)
    requires ValidHead(h) && n <= 10
    ensures |b| == 4 * n
  {
    if n == 0 then [] else FirstWords(h, n - 1) + HeadWord(h, n - 1)
  }

  function HeadBytes(h: Head): (b: Bytes)
    requires ValidHead(h)
    ensures |b| == HEAD
  {
    FirstWords(h, 10)
  }

  /** The header a receiver sees at the start of its buffer. */
  function HeadOf(b: Bytes): (h: Head)
    requires |b| >= HEAD
    ensures ValidHead(h)
  {
    Head(b[0..4], U32At(b, 4), U32At(b, 8), b[12], b[13], b[14], b[15],
         U32At(b, 16), U32At(b, 20), U32At(b, 24), U32At(b, 28), U32At(b, 32), b[36..40])
  }

  /** The header fields that the walks use, read one at a time. */
  function ExhCount(b: Bytes): Byte
    requires |b| >= HEAD
  {
    b[13]
  }

  function OptCount(b: Bytes): Byte
    requires |b| >= HEAD
  {
    b[14]
  }

  function OptStart(b: Bytes): U32
    requires |b| >= HEAD
  {
    Wrap32(HEAD + U32At(b, 16))
  }

  lemma {:induction false} WordAt(h: Head, n: nat, rest: Bytes, i: nat)
    requires ValidHead(h) && i < n <= 10
    ensures (FirstWords(h, n) + rest)[4 * i..4 * i + 4] == HeadWord(h, i)
  {
    var front, last := FirstWords(h, n - 1), HeadWord(h, n - 1);
    InTheMiddle(front, last, rest);
    if i < n - 1 {
      WordAt(h, n - 1, last + rest, i);
    }
  }

  /** Word i of the header, when that is a number. */
  lemma NumberAt(h: Head, rest: Bytes, i: nat, n: U32)
    requires ValidHead(h) && i < 10 && HeadWord(h, i) == Le32(n)
    ensures U32At(HeadBytes(h) + rest, 4 * i) == n
  {
    WordAt(h, 10, rest, i);
    U32Slice(HeadBytes(h) + rest, 4 * i);
    Le32RoundTrip(n);
  }

  lemma TagsAt(h: Head, rest: Bytes)
    requires ValidHead(h)
    ensures var b := HeadBytes(h) + rest;
            b[0..4] == h.magic && b[12..16] == [h.payloadMethod, h.exhcnt, h.optcnt, h.hdrsv1] && b[36..40] == h.hdrsv
  {
    WordAt(h, 10, rest, 0);
    WordAt(h, 10, rest, 3);
    WordAt(h, 10, rest, 9);
  }

  lemma HeadRoundTrip(h: Head, rest: Bytes)
    requires ValidHead(h)
    ensures HeadOf(HeadBytes(h) + rest) == h
  {
    var b := HeadBytes(h) + rest;
    TagsAt(h, rest);
    assert b[12] == b[12..16][0] && b[13] == b[12..16][1] && b[14] == b[12..16][2] && b[15] == b[12..16][3];
    NumberAt(h, rest, 1, h.version);
    NumberAt(h, rest, 2, h.payloadLen);
    NumberAt(h, rest, 4, h.exhlen);
    NumberAt(h, rest, 5, h.optlen);
    NumberAt(h, rest, 6, h.exhcrc32);
    NumberAt(h, rest, 7, h.optcrc32);
    NumberAt(h, rest, 8, h.seqence);
  }

  /** An extension as the sender gives it; the pads are the two bytes of
      AAWS_EXH that alignment leaves unset. */
  datatype Ext = Ext(tag: Byte, data: Bytes, pad1: Byte, pad9: Byte)

  /** An option as the sender gives it. */
  datatype Opt = Opt(tag: Byte, format: Byte, data: Bytes)

  function ExtRecord(e: Ext): (r: Bytes)
    ensures |r| == EXH + |e.data|
  {
    var len := Wrap16(|e.data|);
    [e.tag, e.pad1] + Le16(len) + [0, 0, 0, 0, 0, e.pad9] + e.data
  }

  function OptRecord(o: Opt): (r: Bytes)
    ensures |r| == OPH + |o.data|
  {
    var len := Wrap32(|o.data|);
    [o.tag, o.format, 0, 0] + Le32(len) + o.data
  }

  function ExtRecords(es: seq<Ext>): seq<Bytes> {
    seq(|es|, i requires 0 <= i < |es| => ExtRecord(es[i]))
  }

  function OptRecords(os: seq<Opt>): seq<Bytes> {
    seq(|os|, i requires 0 <= i < |os| => OptRecord(os[i]))
  }

  // ---------------------------------------------------------------- reading

  /** What a walk over the buffer yields: the pieces and the offset after the
      last record, or Outside when a read would leave the buffer. */
  datatype Walk = Outside | Walked(pieces: seq<Bytes>, end: U32)

  /** What an accessor by index yields; Missing is the C++ return value -1. */
  datatype Fetch = Beyond | Missing | Found(piece: Bytes)

  /** The three ways an extension record is handed out: get_exh,
      get_exh_payload and get_exh_8bit. */
  datatype Part = Whole | Body | Header

  function PartStart(p: Part): nat {
    if p == Body then EXH else 0
  }

  /** The size of the part, for a record with len bytes of data. */
  function PartSize(p: Part, len: nat): nat {
    match p
    case Whole => EXH + len
    case Body => len
    case Header => EXH
  }

  /** A walk with more pieces put in front. */
  function Behind(front: seq<Bytes>, w: Walk): Walk {
    match w
    case Outside => Outside
    case Walked(pieces, end) => Walked(front + pieces, end)
  }

  lemma BehindTwice(front: seq<Bytes>, piece: Bytes, w: Walk)
    ensures Behind(front, Behind([piece], w)) == Behind(front + [piece], w)
  {
    if w.Walked? {
      assert front + ([piece] + w.pieces) == (front + [piece]) + w.pieces;
    }
  }

  /** The loop of the list forms of get_exh, get_exh_payload and get_exh_8bit. */
  function ExhWalk(b: Bytes, off: U32, n: nat, p: Part): Walk
    decreases n
  {
    if n == 0 then Walked([], off)
    else if off + 4 > |b| then Outside
    else
      var len := U16At(b, off + 2);
      if off + PartStart(p) + PartSize(p, len) > |b| then Outside
      else
        Behind([Copy(b, off + PartStart(p), PartSize(p, len))], ExhWalk(b, Wrap32(off + EXH + len), n - 1, p))
  }

  /** The loop of the list form of get_option; the record size is a uint32_t. */
  function OptWalk(b: Bytes, off: U32, n: nat): Walk
    decreases n
  {
    if n == 0 then Walked([], off)
    else if off + 8 > |b| then Outside
    else
      var size := Wrap32(U32At(b, off + 4) + OPH);
      if off + size > |b| then Outside
      else
        Behind([Copy(b, off, size)], OptWalk(b, Wrap32(off + size), n - 1))
  }

  /** ExhWalk with the collected pieces as an argument: the shape of the loop. */
  function ExhLoop(b: Bytes, off: U32, n: nat, p: Part, out: seq<Bytes>): Walk
    decreases n
  {
    if n == 0 then Walked(out, off)
    else if off + 4 > |b| then Outside
    else
      var len := U16At(b, off + 2);
      if off + PartStart(p) + PartSize(p, len) > |b| then Outside
      else ExhLoop(b, Wrap32(off + EXH + len), n - 1, p, out + [Copy(b, off + PartStart(p), PartSize(p, len))])
  }

  lemma {:induction false} ExhLoopIsWalk(b: Bytes, off: U32, n: nat, p: Part, out: seq<Bytes>)
    ensures ExhLoop(b, off, n, p, out) == Behind(out, ExhWalk(b, off, n, p))
    decreases n
  {
    if n == 0 {
      assert out + [] == out;
    } else if off + 4 <= |b| && off + PartStart(p) + PartSize(p, U16At(b, off + 2)) <= |b| {
      var len := U16At(b, off + 2);
      var piece, next := Copy(b, off + PartStart(p), PartSize(p, len)), Wrap32(off + EXH + len);
      ExhLoopIsWalk(b, next, n - 1, p, out + [piece]);
      BehindTwice(out, piece, ExhWalk(b, next, n - 1, p));
    }
  }

  function OptLoop(b: Bytes, off: U32, n: nat, out: seq<Bytes>): Walk
    decreases n
  {
    if n == 0 then Walked(out, off)
    else if off + 8 > |b| then Outside
    else
      var size := Wrap32(U32At(b, off + 4) + OPH);
      if off + size > |b| then Outside
      else OptLoop(b, Wrap32(off + size), n - 1, out + [Copy(b, off, size)])
  }

  lemma {:induction false} OptLoopIsWalk(b: Bytes, off: U32, n: nat, out: seq<Bytes>)
    ensures OptLoop(b, off, n, out) == Behind(out, OptWalk(b, off, n))
    decreases n
  {
    if n == 0 {
      assert out + [] == out;
    } else if off + 8 <= |b| && off + Wrap32(U32At(b, off + 4) + OPH) <= |b| {
      var size := Wrap32(U32At(b, off + 4) + OPH);
      OptLoopIsWalk(b, Wrap32(off + size), n - 1, out + [Copy(b, off, size)]);
      BehindTwice(out, Copy(b, off, size), OptWalk(b, Wrap32(off + size), n - 1));
    }
  }

  function Exhs(b: Bytes, p: Part): Walk {
    if |b| < HEAD then Outside else ExhWalk(b, HEAD, ExhCount(b), p)
  }

  function Opts(b: Bytes): Walk {
    if |b| < HEAD then Outside else OptWalk(b, OptStart(b), OptCount(b))
  }

  datatype Place = Nowhere | At(off: U32)

  /** The skipping loop of the indexed extension accessors. */
  function ExhSeek(b: Bytes, off: U32, k: nat): Place
    decreases k
  {
    if k == 0 then At(off)
    else if off + 4 > |b| then Nowhere
    else ExhSeek(b, Wrap32(off + EXH + U16At(b, off + 2)), k - 1)
  }

  function ExhPiece(b: Bytes, off: U32, p: Part): Fetch {
    if off + 4 > |b| || off + PartStart(p) + PartSize(p, U16At(b, off + 2)) > |b| then Beyond
    else Found(Copy(b, off + PartStart(p), PartSize(p, U16At(b, off + 2))))
  }

  /** The indexed forms of get_exh, get_exh_payload and get_exh_8bit. */
  function ExhFetch(b: Bytes, id: int, p: Part): Fetch {
    if |b| < HEAD then Beyond
    else if id >= ExhCount(b) || id < 0 then Missing
    else
      match ExhSeek(b, HEAD, id)
      case Nowhere => Beyond
      case At(off) => ExhPiece(b, off, p)
  }

  datatype OptPlace = NoOption | OptAt(off: U32, head: nat)

  /** The skipping loop of the indexed get_option: the next header is looked up
      at ph + offset, which steps over offset whole headers, not offset bytes. */
  function OptSeek(b: Bytes, off: U32, head: nat, k: nat): OptPlace
    decreases k
  {
    if k == 0 then OptAt(off, head)
    else if head + 8 > |b| then NoOption
    else
      var next := Wrap32(off + U32At(b, head + 4) + OPH);
      OptSeek(b, next, HEAD * next, k - 1)
  }

  /** The indexed form of get_option. */
  function OptFetch(b: Bytes, id: int): Fetch {
    if |b| < HEAD then Beyond
    else if id >= OptCount(b) || id < 0 then Missing
    else
      var first := OptStart(b);
      match OptSeek(b, first, first, id)
      case NoOption => Beyond
      case OptAt(off, head) =>
        if head + 8 > |b| || off + U32At(b, head + 4) + OPH > |b| then Beyond
        else Found(Copy(b, off, U32At(b, head + 4) + OPH))
  }
}
