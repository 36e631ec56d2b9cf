/** The receiver against the sender: what is read back from a built message. */
module Codec {
  import opened Options
  import opened ByteStrings
  import opened Frame
  import B = Builder

  // --------------------------------------- walking over well-shaped records

  /** A record whose length field says how long its data is. */
  predicate ExtShaped(r: Bytes) {
    |r| >= EXH && U16At(r, 2) == |r| - EXH
  }

  predicate OptShaped(r: Bytes) {
    |r| >= OPH && U32At(r, 4) == |r| - OPH
  }

  /** What an accessor of the given form hands out for an extension record. */
  function Cut(r: Bytes, p: Part): Bytes
    requires ExtShaped(r)
  {
    Copy(r, PartStart(p), PartSize(p, |r| - EXH))
  }

  function Cuts(rs: seq<Bytes>, p: Part): (cs: seq<Bytes>)
    requires forall i | 0 <= i < |rs| :: ExtShaped(rs[i])
    ensures |cs| == |rs| && forall i | 0 <= i < |rs| :: cs[i] == Cut(rs[i], p)
  {
    if rs == [] then [] else [Cut(rs[0], p)] + Cuts(rs[1..], p)
  }

  lemma ExhHere(b: Bytes, off: nat, r: Bytes, p: Part)
    requires ExtShaped(r) && Stands(b, off, r)
    ensures U16At(b, off + 2) == |r| - EXH
    ensures Copy(b, off + PartStart(p), PartSize(p, |r| - EXH)) == Cut(r, p)
  {
    StandsPart(b, off, r, PartStart(p), PartSize(p, |r| - EXH));
    StandsIndex(b, off, r, 2);
    StandsIndex(b, off, r, 3);
  }

  lemma OptHere(b: Bytes, off: nat, r: Bytes)
    requires OptShaped(r) && Stands(b, off, r)
    ensures U32At(b, off + 4) == |r| - OPH
  {
    StandsIndex(b, off, r, 4);
    StandsIndex(b, off, r, 5);
    StandsIndex(b, off, r, 6);
    StandsIndex(b, off, r, 7);
  }

  lemma ExhWalkStep(b: Bytes, off: nat, n: nat, p: Part, len: nat, rest: Walk)
    requires n > 0 && off + EXH + len <= |b| && off + EXH + len < WRAP32
    requires U16At(b, off + 2) == len && ExhWalk(b, off + EXH + len, n - 1, p) == rest
    ensures ExhWalk(b, off, n, p) == Behind([Copy(b, off + PartStart(p), PartSize(p, len))], rest)
  {
  }

  lemma OptWalkStep(b: Bytes, off: nat, n: nat, len: nat, rest: Walk)
    requires n > 0 && off + OPH + len <= |b| && off + OPH + len < WRAP32
    requires U32At(b, off + 4) == len && OptWalk(b, off + OPH + len, n - 1) == rest
    ensures OptWalk(b, off, n) == Behind([Copy(b, off, OPH + len)], rest)
  {
  }

  /** The extension walk recovers every record in order and stops right behind them. */
  lemma {:induction false} ExhWalkBuilt(b: Bytes, off: nat, rs: seq<Bytes>, p: Part)
    requires forall i | 0 <= i < |rs| :: ExtShaped(rs[i])
    requires Stands(b, off, Flatten(rs)) && off + |Flatten(rs)| < WRAP32
    ensures ExhWalk(b, off, |rs|, p) == Walked(Cuts(rs, p), off + |Flatten(rs)|)
    decreases |rs|
  {
    if rs != [] {
      var r, rest := rs[0], rs[1..];
      StandsSplit(b, off, r, Flatten(rest));
      ExhHere(b, off, r, p);
      ExhWalkBuilt(b, off + |r|, rest, p);
      ExhWalkStep(b, off, |rs|, p, |r| - EXH, Walked(Cuts(rest, p), off + |Flatten(rs)|));
    }
  }

  /** The option walk recovers every record in order and stops right behind them. */
  lemma {:induction false} OptWalkBuilt(b: Bytes, off: nat, rs: seq<Bytes>)
    requires forall i | 0 <= i < |rs| :: OptShaped(rs[i])
    requires Stands(b, off, Flatten(rs)) && off + |Flatten(rs)| < WRAP32
    ensures OptWalk(b, off, |rs|) == Walked(rs, off + |Flatten(rs)|)
    decreases |rs|
  {
    if rs != [] {
      var r, rest := rs[0], rs[1..];
      StandsSplit(b, off, r, Flatten(rest));
      OptHere(b, off, r);
      OptWalkBuilt(b, off + |r|, rest);
      OptWalkStep(b, off, |rs|, |r| - OPH, Walked(rest, off + |Flatten(rs)|));
      assert rs == [r] + rest;
    }
  }

  // ----------------------------------------- what any walk says about a buffer

  /** A walk yields the number of pieces asked for, each no longer than its
      length field can say. */
  lemma {:induction false} ExhWalkSizes(b: Bytes, off: U32, n: nat)
    requires ExhWalk(b, off, n, Whole).Walked?
    ensures |ExhWalk(b, off, n, Whole).pieces| == n
    ensures forall i | 0 <= i < n :: |ExhWalk(b, off, n, Whole).pieces[i]| < EXH + WRAP16
    decreases n
  {
    if n > 0 {
      ExhWalkSizes(b, Wrap32(off + EXH + U16At(b, off + 2)), n - 1);
    }
  }

  lemma StandsFirst(b: Bytes, off: nat, size: nat, rest: Bytes)
    requires off + size <= |b| && Stands(b, off + size, rest)
    ensures Stands(b, off, Copy(b, off, size) + rest)
  {
    StandsSplit(b, off, Copy(b, off, size), rest);
  }

  /** Where offsets do not wrap, the pieces are the bytes of the buffer in order. */
  lemma {:induction false} ExhWalkSound(b: Bytes, off: U32, n: nat)
    requires ExhWalk(b, off, n, Whole).Walked? && off <= |b|
    requires off + |Flatten(ExhWalk(b, off, n, Whole).pieces)| < WRAP32
    ensures Stands(b, off, Flatten(ExhWalk(b, off, n, Whole).pieces))
    decreases n
  {
    if n > 0 {
      var size := EXH + U16At(b, off + 2);
      var rest := ExhWalk(b, Wrap32(off + size), n - 1, Whole).pieces;
      assert ExhWalk(b, off, n, Whole).pieces == [Copy(b, off, size)] + rest;
      ExhWalkSound(b, off + size, n - 1);
      StandsFirst(b, off, size, Flatten(rest));
    }
  }

  lemma {:induction false} OptWalkSound(b: Bytes, off: U32, n: nat)
    requires OptWalk(b, off, n).Walked? && off <= |b|
    requires off + |Flatten(OptWalk(b, off, n).pieces)| < WRAP32
    ensures Stands(b, off, Flatten(OptWalk(b, off, n).pieces))
    decreases n
  {
    if n > 0 {
      var size := Wrap32(U32At(b, off + 4) + OPH);
      var rest := OptWalk(b, Wrap32(off + size), n - 1).pieces;
      assert OptWalk(b, off, n).pieces == [Copy(b, off, size)] + rest;
      OptWalkSound(b, off + size, n - 1);
      StandsFirst(b, off, size, Flatten(rest));
    }
  }

  // -------------------------------------------------------------- round trip

  /** Everything the receiver can learn about a message. */
  datatype Received = Received(
    payloadMethod: int,
    sequence: int,
    payloadLen: int,
    exhcnt: int,
    optcnt: int,
    exhlen: int,
    optlen: int,
    exhs: seq<Bytes>,
    opts: seq<Bytes>
  )

  function Decode(b: Bytes): Option<Received> {
    match (Exhs(b, Whole), Opts(b))
    case (Walked(es, _), Walked(os, _)) =>
      var h := HeadOf(b);
      Some(Received(h.payloadMethod, h.seqence, h.payloadLen, h.exhcnt, h.optcnt, h.exhlen, h.optlen, es, os))
    case _ => None
  }

  /** What the sender put in, with true counts and lengths. */
  function Sent(ops: seq<B.Op>, m: Byte, q: U32): Received {
    Received(m, q, HEAD + |B.ExhArea(ops)| + |B.OptArea(ops)|, |B.Exts(ops)|, |B.Options(ops)|,
             |B.ExhArea(ops)|, |B.OptArea(ops)|, ExtRecords(B.Exts(ops)), OptRecords(B.Options(ops)))
  }

  ghost predicate SmallExts(es: seq<Ext>) {
    forall i | 0 <= i < |es| :: |es[i].data| < WRAP16
  }

  /** The message fits the widths of the header fields. */
  ghost predicate Fits(ops: seq<B.Op>) {
    && |B.Exts(ops)| < WRAP8
    && |B.Options(ops)| < WRAP8
    && SmallExts(B.Exts(ops))
    && HEAD + |B.ExhArea(ops)| + |B.OptArea(ops)| < WRAP32
  }

  /** The extension records precede the option records in the bytes. */
  predicate InOrder(ops: seq<B.Op>) {
    B.Tail(ops) == B.ExhArea(ops) + B.OptArea(ops)
  }

  /** A buffer that holds these records in order and a header that says so. */
  ghost predicate Carries(b: Bytes, h: Head, ers: seq<Bytes>, ors: seq<Bytes>) {
    && |b| == HEAD + |Flatten(ers)| + |Flatten(ors)| < WRAP32
    && HeadOf(b) == h
    && h.exhcnt == |ers| && h.optcnt == |ors| && h.exhlen == |Flatten(ers)| && h.payloadLen == |b|
    && Stands(b, HEAD, Flatten(ers)) && Stands(b, HEAD + |Flatten(ers)|, Flatten(ors))
    && (forall i | 0 <= i < |ers| :: ExtShaped(ers[i]))
    && (forall i | 0 <= i < |ors| :: OptShaped(ors[i]))
  }

  lemma CarriedExhs(b: Bytes, h: Head, ers: seq<Bytes>, ors: seq<Bytes>, p: Part)
    requires Carries(b, h, ers, ors)
    ensures Exhs(b, p) == Walked(Cuts(ers, p), HEAD + h.exhlen)
  {
    ExhWalkBuilt(b, HEAD, ers, p);
  }

  lemma CarriedOpts(b: Bytes, h: Head, ers: seq<Bytes>, ors: seq<Bytes>)
    requires Carries(b, h, ers, ors)
    ensures Opts(b) == Walked(ors, h.payloadLen)
  {
    OptWalkBuilt(b, HEAD + h.exhlen, ors);
  }

  lemma {:induction false} ShapesOf(es: seq<Ext>, os: seq<Opt>)
    requires SmallExts(es) && |Flatten(OptRecords(os))| < WRAP32
    ensures forall i | 0 <= i < |es| :: ExtShaped(ExtRecords(es)[i])
    ensures forall i | 0 <= i < |os| :: OptShaped(OptRecords(os)[i])
  {
    forall i | 0 <= i < |es|
      ensures ExtShaped(ExtRecords(es)[i])
    {
      ExtShapedIf(es[i]);
    }
    forall i | 0 <= i < |os|
      ensures OptShaped(OptRecords(os)[i])
    {
      PartOfFlatten(OptRecords(os), i);
      OptShapedIf(os[i]);
    }
  }

  lemma ExtShapedIf(e: Ext)
    requires |e.data| < WRAP16
    ensures ExtShaped(ExtRecord(e))
  {
    var r := ExtRecord(e);
    U16Slice(r, 2);
    assert r[2..4] == Le16(|e.data|);
    Le16RoundTrip(|e.data|);
  }

  lemma OptShapedIf(o: Opt)
    requires |o.data| < WRAP32
    ensures OptShaped(OptRecord(o))
  {
    var r := OptRecord(o);
    U32Slice(r, 4);
    assert r[4..8] == Le32(|o.data|);
    Le32RoundTrip(|o.data|);
  }

  lemma {:induction false} PartOfFlatten(rs: seq<Bytes>, i: nat)
    requires i < |rs|
    ensures |rs[i]| <= |Flatten(rs)|
  {
    if i > 0 {
      PartOfFlatten(rs[1..], i - 1);
    }
  }

  /** The header a submit leaves for these calls. */
  ghost predicate HeadFor(h: Head, ops: seq<B.Op>, m: Byte, q: U32) {
    && h.payloadMethod == m && h.seqence == q
    && h.payloadLen == Wrap32(HEAD + |B.ExhArea(ops)| + |B.OptArea(ops)|)
    && B.Counts(h, |B.Exts(ops)|, |B.Options(ops)|, |B.ExhArea(ops)|, |B.OptArea(ops)|)
  }

  lemma SubmitHead(d: B.Draft, m: Byte, q: U32)
    requires B.Valid(d)
    ensures var r := B.Submit(d, m, q);
            && |r.payload| == |d.payload| && r.payload[HEAD..] == d.payload[HEAD..]
            && HeadOf(r.payload) == r.head
  {
    HeadRoundTrip(B.Submit(d, m, q).head, d.payload[HEAD..]);
  }

  lemma {:induction false} SubmitHeadFor(d: B.Draft, ops: seq<B.Op>, m: Byte, q: U32)
    requires B.Valid(d)
    requires B.Counts(d.head, |B.Exts(ops)|, |B.Options(ops)|, |B.ExhArea(ops)|, |B.OptArea(ops)|)
    ensures HeadFor(B.Submit(d, m, q).head, ops, m, q)
  {
    B.SumWraps(|B.ExhArea(ops)|, |B.OptArea(ops)|, HEAD);
  }

  /** The header in front of a built buffer, and the bytes behind it. */
  lemma {:induction false} WireParts(junk: Bytes, ops: seq<B.Op>, m: Byte, q: U32)
    requires |junk| == HEAD
    ensures var b := B.Wire(junk, ops, m, q);
            && |b| == HEAD + |B.ExhArea(ops)| + |B.OptArea(ops)|
            && b[HEAD..] == B.Tail(ops)
            && HeadFor(HeadOf(b), ops, m, q)
  {
    var d := B.Build(B.Fresh(junk), ops);
    B.BuildTail(B.Fresh(junk), ops);
    B.BuildCounts(B.Fresh(junk), ops);
    B.TailLength(ops);
    SubmitHead(d, m, q);
    SubmitHeadFor(d, ops, m, q);
  }

  lemma CountsUnwrapped(h: Head, ne: nat, no: nat, el: nat, ol: nat)
    requires B.Counts(h, ne, no, el, ol) && ne < WRAP8 && no < WRAP8 && el < WRAP32 && ol < WRAP32
    ensures h.exhcnt == ne && h.optcnt == no && h.exhlen == el && h.optlen == ol
  {
  }

  /** In a message that fits, no field has wrapped. */
  lemma {:induction false} FitsUnwrapped(h: Head, ops: seq<B.Op>, m: Byte, q: U32)
    requires HeadFor(h, ops, m, q) && Fits(ops)
    ensures h.exhcnt == |B.Exts(ops)| && h.optcnt == |B.Options(ops)|
    ensures h.exhlen == |B.ExhArea(ops)| && h.optlen == |B.OptArea(ops)|
    ensures h.payloadLen == HEAD + |B.ExhArea(ops)| + |B.OptArea(ops)|
  {
    CountsUnwrapped(h, |B.Exts(ops)|, |B.Options(ops)|, |B.ExhArea(ops)|, |B.OptArea(ops)|);
  }

  lemma {:induction false} CarriesWire(b: Bytes, ops: seq<B.Op>, m: Byte, q: U32)
    requires |b| == HEAD + |B.ExhArea(ops)| + |B.OptArea(ops)| && b[HEAD..] == B.Tail(ops)
    requires HeadFor(HeadOf(b), ops, m, q) && Fits(ops) && InOrder(ops)
    ensures Carries(b, HeadOf(b), ExtRecords(B.Exts(ops)), OptRecords(B.Options(ops)))
  {
    FitsUnwrapped(HeadOf(b), ops, m, q);
    ShapesOf(B.Exts(ops), B.Options(ops));
    StandsToEnd(b, HEAD, B.Tail(ops));
    StandsSplit(b, HEAD, B.ExhArea(ops), B.OptArea(ops));
  }

  /** A built message that fits and is in order: both walks recover its records,
      the extension walk stops where the options start, and the option walk stops
      at the end of the buffer, which is payloadLen. */
  lemma {:induction false} WalksMeet(junk: Bytes, ops: seq<B.Op>, m: Byte, q: U32, p: Part)
    requires |junk| == HEAD && Fits(ops) && InOrder(ops)
    ensures var b := B.Wire(junk, ops, m, q);
            && |b| >= HEAD
            && Carries(b, HeadOf(b), ExtRecords(B.Exts(ops)), OptRecords(B.Options(ops)))
            && Exhs(b, p) == Walked(Cuts(ExtRecords(B.Exts(ops)), p), HEAD + HeadOf(b).exhlen)
            && Opts(b) == Walked(OptRecords(B.Options(ops)), HeadOf(b).payloadLen)
            && HeadOf(b).payloadLen == |b|
  {
    var b := B.Wire(junk, ops, m, q);
    WireParts(junk, ops, m, q);
    CarriesWire(b, ops, m, q);
    CarriedExhs(b, HeadOf(b), ExtRecords(B.Exts(ops)), OptRecords(B.Options(ops)), p);
    CarriedOpts(b, HeadOf(b), ExtRecords(B.Exts(ops)), OptRecords(B.Options(ops)));
  }

  lemma CutsWhole(rs: seq<Bytes>)
    requires forall i | 0 <= i < |rs| :: ExtShaped(rs[i])
    ensures Cuts(rs, Whole) == rs
  {
    forall i | 0 <= i < |rs|
      ensures Cuts(rs, Whole)[i] == rs[i]
    {
      CopyIsSlice(rs[i], 0, |rs[i]|);
    }
  }

  /** A buffer decoded as sent comes from a message that fits its header fields. */
  lemma {:induction false} DecodedFits(b: Bytes, ops: seq<B.Op>, m: Byte, q: U32)
    requires |b| >= HEAD && HeadFor(HeadOf(b), ops, m, q) && Decode(b) == Some(Sent(ops, m, q))
    ensures Fits(ops)
  {
    ExhWalkSizes(b, HEAD, ExhCount(b));
    var es := B.Exts(ops);
    forall i | 0 <= i < |es|
      ensures |es[i].data| < WRAP16
    {
      assert |ExtRecords(es)[i]| == EXH + |es[i].data|;
    }
  }

  lemma AreasCover(b: Bytes, x: Bytes, y: Bytes)
    requires |b| == HEAD + |x| + |y| && Stands(b, HEAD, x) && Stands(b, HEAD + |x|, y)
    ensures b[HEAD..] == x + y
  {
    StandsSplit(b, HEAD, x, y);
    StandsToEnd(b, HEAD, x + y);
  }

  lemma ExhPiecesStand(b: Bytes, off: U32, n: nat, ers: seq<Bytes>, e: U32)
    requires off <= |b| && off + |Flatten(ers)| < WRAP32 && ExhWalk(b, off, n, Whole) == Walked(ers, e)
    ensures Stands(b, off, Flatten(ers))
  {
    ExhWalkSound(b, off, n);
  }

  lemma OptPiecesStand(b: Bytes, off: U32, n: nat, ors: seq<Bytes>, o: U32)
    requires off <= |b| && off + |Flatten(ors)| < WRAP32 && OptWalk(b, off, n) == Walked(ors, o)
    ensures Stands(b, off, Flatten(ors))
  {
    OptWalkSound(b, off, n);
  }

  lemma {:induction false} DecodedExhArea(b: Bytes, ops: seq<B.Op>, m: Byte, q: U32)
    requires |b| >= HEAD && Decode(b) == Some(Sent(ops, m, q)) && HEAD + |B.ExhArea(ops)| < WRAP32
    ensures Stands(b, HEAD, B.ExhArea(ops))
  {
    ExhPiecesStand(b, HEAD, ExhCount(b), ExtRecords(B.Exts(ops)), Exhs(b, Whole).end);
  }

  lemma {:induction false} DecodedOptArea(b: Bytes, ops: seq<B.Op>, m: Byte, q: U32)
    requires |b| == HEAD + |B.ExhArea(ops)| + |B.OptArea(ops)| < WRAP32 && Decode(b) == Some(Sent(ops, m, q))
    ensures Stands(b, HEAD + |B.ExhArea(ops)|, B.OptArea(ops))
  {
    OptPiecesStand(b, HEAD + |B.ExhArea(ops)|, OptCount(b), OptRecords(B.Options(ops)), Opts(b).end);
  }

  /** ... and is in order. */
  lemma {:induction false} DecodedInOrder(b: Bytes, ops: seq<B.Op>, m: Byte, q: U32)
    requires |b| == HEAD + |B.ExhArea(ops)| + |B.OptArea(ops)| && b[HEAD..] == B.Tail(ops)
    requires Decode(b) == Some(Sent(ops, m, q)) && Fits(ops)
    ensures InOrder(ops)
  {
    DecodedExhArea(b, ops, m, q);
    DecodedOptArea(b, ops, m, q);
    AreasCover(b, B.ExhArea(ops), B.OptArea(ops));
  }

  lemma DecodeIs(b: Bytes, h: Head, ers: seq<Bytes>, ors: seq<Bytes>)
    requires Carries(b, h, ers, ors)
    ensures Decode(b) == Some(Received(h.payloadMethod, h.seqence, h.payloadLen, h.exhcnt, h.optcnt,
                                       h.exhlen, h.optlen, ers, ors))
  {
    CarriedExhs(b, h, ers, ors, Whole);
    CarriedOpts(b, h, ers, ors);
    CutsWhole(ers);
  }

  lemma ReceivedIsSent(h: Head, ops: seq<B.Op>, m: Byte, q: U32)
    requires HeadFor(h, ops, m, q) && Fits(ops)
    ensures Received(h.payloadMethod, h.seqence, h.payloadLen, h.exhcnt, h.optcnt, h.exhlen, h.optlen,
                     ExtRecords(B.Exts(ops)), OptRecords(B.Options(ops))) == Sent(ops, m, q)
  {
    FitsUnwrapped(h, ops, m, q);
  }

  lemma {:induction false} DecodesAsSent(b: Bytes, ops: seq<B.Op>, m: Byte, q: U32)
    requires |b| == HEAD + |B.ExhArea(ops)| + |B.OptArea(ops)| && b[HEAD..] == B.Tail(ops)
    requires HeadFor(HeadOf(b), ops, m, q) && Fits(ops) && InOrder(ops)
    ensures Decode(b) == Some(Sent(ops, m, q))
  {
    CarriesWire(b, ops, m, q);
    DecodeIs(b, HeadOf(b), ExtRecords(B.Exts(ops)), OptRecords(B.Options(ops)));
    ReceivedIsSent(HeadOf(b), ops, m, q);
  }

  /** The round trip: for any calls in any order and a final submit, the receiver
      recovers the method, the sequence number, all counts and lengths and every
      record in order exactly when the message fits the header fields and its
      extension records come before its option records. */
  lemma {:induction false} RoundTripExactly(junk: Bytes, ops: seq<B.Op>, m: Byte, q: U32)
    requires |junk| == HEAD
    ensures Decode(B.Wire(junk, ops, m, q)) == Some(Sent(ops, m, q)) <==> Fits(ops) && InOrder(ops)
  {
    var b := B.Wire(junk, ops, m, q);
    WireParts(junk, ops, m, q);
    if Fits(ops) && InOrder(ops) {
      DecodesAsSent(b, ops, m, q);
    } else if Decode(b) == Some(Sent(ops, m, q)) {
      DecodedFits(b, ops, m, q);
      DecodedInOrder(b, ops, m, q);
    }
  }

  /** Appending every extension before any option is enough for the order. */
  lemma {:induction false} ExtsFirstRoundTrip(junk: Bytes, ops: seq<B.Op>, m: Byte, q: U32)
    requires |junk| == HEAD && B.ExtsFirst(ops)
    ensures Decode(B.Wire(junk, ops, m, q)) == Some(Sent(ops, m, q)) <==> Fits(ops)
  {
    B.ExtsFirstLayout(ops);
    RoundTripExactly(junk, ops, m, q);
  }

  lemma OptionThenExtension(o: Opt, e: Ext)
    ensures var ops := [B.AddOpt(o), B.AddExh(e)];
            && B.Exts(ops) == [e] && B.Options(ops) == [o]
            && B.ExhArea(ops) == ExtRecord(e) && B.OptArea(ops) == OptRecord(o)
            && B.Tail(ops) == OptRecord(o) + ExtRecord(e)
  {
    var one: seq<B.Op>, ops: seq<B.Op> := [B.AddOpt(o)], [B.AddOpt(o), B.AddExh(e)];
    assert ops[..1] == one && one[..0] == [];
    B.AreaSnoc(one);
    B.AreaSnoc(ops);
    assert B.ExhArea([]) == [] && B.OptArea([]) == [];
    assert B.Tail(one) == OptRecord(o);
  }

  /** An extension appended after an option is not found again, however well
      the message fits, unless the two records happen to begin alike. */
  lemma {:induction false} OrderMatters(junk: Bytes, o: Opt, e: Ext, m: Byte, q: U32)
    requires |junk| == HEAD && (o.tag != e.tag || o.format != e.pad1)
    ensures var ops := [B.AddOpt(o), B.AddExh(e)];
            && Decode(B.Wire(junk, ops, m, q)) != Some(Sent(ops, m, q))
            && (Fits(ops) <==> |e.data| < WRAP16 && HEAD + EXH + |e.data| + OPH + |o.data| < WRAP32)
  {
    var ops := [B.AddOpt(o), B.AddExh(e)];
    OptionThenExtension(o, e);
    RecordsDiffer(OptRecord(o), ExtRecord(e));
    assert !InOrder(ops);
    RoundTripExactly(junk, ops, m, q);
  }

  lemma RecordsDiffer(x: Bytes, y: Bytes)
    requires |x| >= 2 && |y| >= 2 && (x[0] != y[0] || x[1] != y[1])
    ensures x + y != y + x
  {
    assert (x + y)[0] == x[0] && (y + x)[0] == y[0];
    assert (x + y)[1] == x[1] && (y + x)[1] == y[1];
  }

  lemma ExtRecordInjective(e: Ext, f: Ext)
    requires ExtRecord(e) == ExtRecord(f)
    ensures e == f
  {
    assert e.data == ExtRecord(e)[EXH..] && f.data == ExtRecord(f)[EXH..];
    assert e.tag == ExtRecord(e)[0] && e.pad1 == ExtRecord(e)[1] && e.pad9 == ExtRecord(e)[9];
    assert f.tag == ExtRecord(f)[0] && f.pad1 == ExtRecord(f)[1] && f.pad9 == ExtRecord(f)[9];
  }

  lemma OptRecordInjective(o: Opt, p: Opt)
    requires OptRecord(o) == OptRecord(p)
    ensures o == p
  {
    assert o.data == OptRecord(o)[OPH..] && p.data == OptRecord(p)[OPH..];
    assert o.tag == OptRecord(o)[0] && o.format == OptRecord(o)[1];
    assert p.tag == OptRecord(p)[0] && p.format == OptRecord(p)[1];
  }

  lemma RecordsInjective(es1: seq<Ext>, es2: seq<Ext>, os1: seq<Opt>, os2: seq<Opt>)
    requires ExtRecords(es1) == ExtRecords(es2) && OptRecords(os1) == OptRecords(os2)
    ensures es1 == es2 && os1 == os2
  {
    assert |ExtRecords(es1)| == |es1| && |ExtRecords(es2)| == |es2|;
    assert |OptRecords(os1)| == |os1| && |OptRecords(os2)| == |os2|;
    forall i | 0 <= i < |es1|
      ensures es1[i] == es2[i]
    {
      assert ExtRecords(es1)[i] == ExtRecords(es2)[i];
      ExtRecordInjective(es1[i], es2[i]);
    }
    forall i | 0 <= i < |os1|
      ensures os1[i] == os2[i]
    {
      assert OptRecords(os1)[i] == OptRecords(os2)[i];
      OptRecordInjective(os1[i], os2[i]);
    }
  }

  /** The buffer is a header made of the counts and the submit, then the records. */
  lemma {:induction false} WireFromParts(junk: Bytes, ops: seq<B.Op>, m: Byte, q: U32) returns (h: Head)
    requires |junk| == HEAD
    ensures ValidHead(h) && B.Wire(junk, ops, m, q) == HeadBytes(h) + B.Tail(ops)
    ensures B.Blank(h) == NewHead() && HeadFor(h, ops, m, q)
  {
    var d := B.Build(B.Fresh(junk), ops);
    B.BuildTail(B.Fresh(junk), ops);
    B.BuildBlank(B.Fresh(junk), ops);
    B.BuildCounts(B.Fresh(junk), ops);
    SubmitHeadFor(d, ops, m, q);
    h := B.Submit(d, m, q).head;
  }

  lemma {:induction false} SameHead(h1: Head, h2: Head, ops1: seq<B.Op>, ops2: seq<B.Op>, m: Byte, q: U32)
    requires B.Blank(h1) == B.Blank(h2) && HeadFor(h1, ops1, m, q) && HeadFor(h2, ops2, m, q)
    requires B.Exts(ops1) == B.Exts(ops2) && B.Options(ops1) == B.Options(ops2)
    ensures h1 == h2
  {
    assert B.ExhArea(ops1) == B.ExhArea(ops2) && B.OptArea(ops1) == B.OptArea(ops2);
  }

  lemma {:induction false} SameWire(junk1: Bytes, ops1: seq<B.Op>, junk2: Bytes, ops2: seq<B.Op>, m: Byte, q: U32)
    requires |junk1| == HEAD && InOrder(ops1) && |junk2| == HEAD && InOrder(ops2)
    requires B.Exts(ops1) == B.Exts(ops2) && B.Options(ops1) == B.Options(ops2)
    ensures B.Wire(junk1, ops1, m, q) == B.Wire(junk2, ops2, m, q)
  {
    var h1 := WireFromParts(junk1, ops1, m, q);
    var h2 := WireFromParts(junk2, ops2, m, q);
    SameHead(h1, h2, ops1, ops2, m, q);
  }

  /** Two messages that fit and are in order have the same bytes exactly when they
      are the same message: placeholders and earlier submits leave no trace. */
  lemma {:induction false} EncodingInjective(junk1: Bytes, ops1: seq<B.Op>, m1: Byte, q1: U32,
                                             junk2: Bytes, ops2: seq<B.Op>, m2: Byte, q2: U32)
    requires |junk1| == HEAD && Fits(ops1) && InOrder(ops1)
    requires |junk2| == HEAD && Fits(ops2) && InOrder(ops2)
    ensures B.Wire(junk1, ops1, m1, q1) == B.Wire(junk2, ops2, m2, q2) <==>
            m1 == m2 && q1 == q2 && B.Exts(ops1) == B.Exts(ops2) && B.Options(ops1) == B.Options(ops2)
  {
    RoundTripExactly(junk1, ops1, m1, q1);
    RoundTripExactly(junk2, ops2, m2, q2);
    if B.Wire(junk1, ops1, m1, q1) == B.Wire(junk2, ops2, m2, q2) {
      assert Sent(ops1, m1, q1) == Sent(ops2, m2, q2);
      RecordsInjective(B.Exts(ops1), B.Exts(ops2), B.Options(ops1), B.Options(ops2));
    } else if m1 == m2 && q1 == q2 && B.Exts(ops1) == B.Exts(ops2) && B.Options(ops1) == B.Options(ops2) {
      SameWire(junk1, ops1, junk2, ops2, m1, q1);
    }
  }

  // ------------------------------------------------------------ byte layout

  lemma HeadLayout(b: Bytes)
    requires |b| >= 40
    ensures var h := HeadOf(b);
            && b[0..4] == h.magic && b[36..40] == h.hdrsv
            && b[12] == h.payloadMethod && b[13] == h.exhcnt && b[14] == h.optcnt && b[15] == h.hdrsv1
            && LittleEndian(b, 4, h.version) && LittleEndian(b, 8, h.payloadLen)
            && LittleEndian(b, 16, h.exhlen) && LittleEndian(b, 20, h.optlen)
            && LittleEndian(b, 24, h.exhcrc32) && LittleEndian(b, 28, h.optcrc32) && LittleEndian(b, 32, h.seqence)
  {
  }

  /** The first 40 bytes sent: "ADAS", version 0, the length, the method, both
      counts, a zero, both area lengths, both checksums zero, the sequence number
      and four zeros; every number has its lowest byte first. */
  lemma {:induction false} WireLayout(junk: Bytes, ops: seq<B.Op>, m: Byte, q: U32)
    requires |junk| == 40
    ensures var b := B.Wire(junk, ops, m, q);
            && |b| == 40 + |B.ExhArea(ops)| + |B.OptArea(ops)|
            && b[0..4] == [65, 68, 65, 83] && LittleEndian(b, 4, 0) && LittleEndian(b, 8, Wrap32(|b|))
            && b[12] == m && b[13] == Wrap8(|B.Exts(ops)|) && b[14] == Wrap8(|B.Options(ops)|) && b[15] == 0
            && LittleEndian(b, 16, Wrap32(|B.ExhArea(ops)|)) && LittleEndian(b, 20, Wrap32(|B.OptArea(ops)|))
            && LittleEndian(b, 24, 0) && LittleEndian(b, 28, 0) && LittleEndian(b, 32, q)
            && b[36..40] == [0, 0, 0, 0] && b[40..] == B.Tail(ops)
  {
    var b := B.Wire(junk, ops, m, q);
    WireParts(junk, ops, m, q);
    var h := WireFromParts(junk, ops, m, q);
    HeadRoundTrip(h, B.Tail(ops));
    HeadLayout(b);
  }

  /** An extension record: type, alignment, length, five reserved zeros, alignment, data. */
  lemma ExtRecordLayout(e: Ext)
    ensures var r := ExtRecord(e);
            && |r| == 10 + |e.data| && r[0] == e.tag && r[1] == e.pad1
            && (r[2] as int) + 0x100 * (r[3] as int) == Wrap16(|e.data|)
            && r[4..9] == [0, 0, 0, 0, 0] && r[9] == e.pad9 && r[10..] == e.data
  {
    var r := ExtRecord(e);
    Le16RoundTrip(Wrap16(|e.data|));
    assert r[2] == Le16(Wrap16(|e.data|))[0] && r[3] == Le16(Wrap16(|e.data|))[1];
  }

  /** An option record: type, format, two reserved zeros, length, data. */
  lemma OptRecordLayout(o: Opt)
    ensures var r := OptRecord(o);
            && |r| == 8 + |o.data| && r[0] == o.tag && r[1] == o.format && r[2..4] == [0, 0]
            && LittleEndian(r, 4, Wrap32(|o.data|)) && r[8..] == o.data
  {
    var r, n := OptRecord(o), Le32(Wrap32(|o.data|));
    Le32RoundTrip(Wrap32(|o.data|));
    assert r[4..8] == n;
    assert r[4] == r[4..8][0] && r[5] == r[4..8][1] && r[6] == r[4..8][2] && r[7] == r[4..8][3];
  }
}
