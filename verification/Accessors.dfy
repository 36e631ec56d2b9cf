/** The indexed accessors against the list accessors. */
module Accessors {
  import opened ByteStrings
  import opened Frame
  import B = Builder
  import opened Codec

  // -------------------------------------------------------------- extensions

  lemma {:induction false} WalkCount(b: Bytes, off: U32, n: nat, p: Part)
    requires ExhWalk(b, off, n, p).Walked?
    ensures |ExhWalk(b, off, n, p).pieces| == n
    decreases n
  {
    if n > 0 {
      WalkCount(b, Wrap32(off + EXH + U16At(b, off + 2)), n - 1, p);
    }
  }

  lemma WalkFirst(b: Bytes, off: U32, n: nat, p: Part)
    requires n > 0 && ExhWalk(b, off, n, p).Walked?
    ensures off + 4 <= |b|
    ensures ExhPiece(b, off, p) == Found(ExhWalk(b, off, n, p).pieces[0])
    ensures var rest := ExhWalk(b, Wrap32(off + EXH + U16At(b, off + 2)), n - 1, p);
            rest.Walked? && ExhWalk(b, off, n, p).pieces[1..] == rest.pieces
  {
  }

  lemma {:induction false} SeekAgrees(b: Bytes, off: U32, n: nat, p: Part, id: nat)
    requires ExhWalk(b, off, n, p).Walked? && id < n == |ExhWalk(b, off, n, p).pieces|
    ensures ExhSeek(b, off, id).At?
    ensures ExhPiece(b, ExhSeek(b, off, id).off, p) == Found(ExhWalk(b, off, n, p).pieces[id])
    decreases n
  {
    WalkFirst(b, off, n, p);
    if id > 0 {
      var pieces := ExhWalk(b, off, n, p).pieces;
      var next := Wrap32(off + EXH + U16At(b, off + 2));
      SeekAgrees(b, next, n - 1, p, id - 1);
      assert pieces[1..][id - 1] == pieces[id];
    }
  }

  /** For any buffer, built or not, over which the list form stays inside: each
      indexed form of get_exh, get_exh_payload and get_exh_8bit hands out the
      entry of the list for a valid id, and answers -1 for every other. */
  lemma IndexedExhAgrees(b: Bytes, p: Part, id: int)
    requires Exhs(b, p).Walked?
    ensures ExhFetch(b, id, p) == if 0 <= id < |Exhs(b, p).pieces| then Found(Exhs(b, p).pieces[id]) else Missing
  {
    WalkCount(b, HEAD, ExhCount(b), p);
    if 0 <= id < ExhCount(b) {
      SeekAgrees(b, HEAD, ExhCount(b), p, id);
    }
  }

  lemma {:induction false} PartsWalk(b: Bytes, off: U32, n: nat, p: Part)
    requires ExhWalk(b, off, n, Whole).Walked?
    ensures ExhWalk(b, off, n, p).Walked?
    decreases n
  {
    if n > 0 {
      PartsWalk(b, Wrap32(off + EXH + U16At(b, off + 2)), n - 1, p);
    }
  }

  lemma PieceParts(b: Bytes, off: U32)
    requires ExhPiece(b, off, Whole).Found? && ExhPiece(b, off, Header).Found? && ExhPiece(b, off, Body).Found?
    ensures ExhPiece(b, off, Whole).piece == ExhPiece(b, off, Header).piece + ExhPiece(b, off, Body).piece
  {
    CopySplit(b, off, EXH, U16At(b, off + 2));
  }

  /** The three list forms show the same records: get_exh is header and payload. */
  lemma WholeIsHeaderAndBody(b: Bytes, i: nat)
    requires Exhs(b, Whole).Walked? && i < |Exhs(b, Whole).pieces|
    ensures Exhs(b, Header).Walked? && Exhs(b, Body).Walked?
    ensures |Exhs(b, Header).pieces| == |Exhs(b, Body).pieces| == |Exhs(b, Whole).pieces|
    ensures Exhs(b, Whole).pieces[i] == Exhs(b, Header).pieces[i] + Exhs(b, Body).pieces[i]
  {
    PartsInWalk(b, HEAD, ExhCount(b), i);
  }

  lemma PartsInWalk(b: Bytes, off: U32, n: nat, i: nat)
    requires ExhWalk(b, off, n, Whole).Walked? && i < |ExhWalk(b, off, n, Whole).pieces|
    ensures ExhWalk(b, off, n, Header).Walked? && ExhWalk(b, off, n, Body).Walked?
    ensures var h, d, w := ExhWalk(b, off, n, Header).pieces, ExhWalk(b, off, n, Body).pieces,
                           ExhWalk(b, off, n, Whole).pieces;
            |h| == |d| == |w| && w[i] == h[i] + d[i]
  {
    PartsWalk(b, off, n, Header);
    PartsWalk(b, off, n, Body);
    WalkCount(b, off, n, Whole);
    WalkCount(b, off, n, Header);
    WalkCount(b, off, n, Body);
    SeekAgrees(b, off, n, Whole, i);
    SeekAgrees(b, off, n, Header, i);
    SeekAgrees(b, off, n, Body, i);
    PieceParts(b, ExhSeek(b, off, i).off);
  }

  // ----------------------------------------------------------------- options

  /** A buffer some fitting, ordered message was sent as. */
  ghost predicate Built(b: Bytes) {
    exists junk: Bytes, ops: seq<B.Op>, m: Byte, q: U32 ::
      |junk| == HEAD && Fits(ops) && InOrder(ops) && b == B.Wire(junk, ops, m, q)
  }

  /** The indexed get_option hands out entry id of the list. */
  ghost predicate OptionAgrees(b: Bytes, id: nat) {
    Opts(b).Walked? && id < |Opts(b).pieces| ==> OptFetch(b, id) == Found(Opts(b).pieces[id])
  }

  lemma FirstOptionHere(b: Bytes, h: Head, ers: seq<Bytes>, ors: seq<Bytes>)
    requires Carries(b, h, ers, ors) && ors != []
    ensures OptFetch(b, 0) == Found(ors[0])
  {
    var off := HEAD + h.exhlen;
    StandsSplit(b, off, ors[0], Flatten(ors[1..]));
    OptHere(b, off, ors[0]);
  }

  lemma {:induction false} FirstOptionAgrees(b: Bytes)
    requires Built(b)
    ensures OptionAgrees(b, 0)
  {
    var junk: Bytes, ops: seq<B.Op>, m: Byte, q: U32 :|
      |junk| == HEAD && Fits(ops) && InOrder(ops) && b == B.Wire(junk, ops, m, q);
    WalksMeet(junk, ops, m, q, Whole);
    var ors := OptRecords(B.Options(ops));
    if ors != [] {
      FirstOptionHere(b, HeadOf(b), ExtRecords(B.Exts(ops)), ors);
    }
  }

  // A message of n empty options: every byte after the header is zero.

  const NIL: Opt := Opt(0, 0, [])

  function EmptyOptions(n: nat): seq<B.Op> {
    if n == 0 then [] else EmptyOptions(n - 1) + [B.AddOpt(NIL)]
  }

  lemma EmptyOptionsLast(n: nat)
    requires n > 0
    ensures var ops := EmptyOptions(n);
            ops != [] && ops[..|ops| - 1] == EmptyOptions(n - 1) && ops[|ops| - 1] == B.AddOpt(NIL)
  {
  }

  lemma {:induction false} EmptyOptionsItems(n: nat)
    ensures B.Exts(EmptyOptions(n)) == [] && |B.Options(EmptyOptions(n))| == n && B.ExtsFirst(EmptyOptions(n))
  {
    if n > 0 {
      EmptyOptionsItems(n - 1);
      EmptyOptionsLast(n);
    }
  }

  predicate Zeros(b: Bytes, n: nat) {
    |b| == n && forall k | 0 <= k < n :: b[k] == 0
  }

  lemma {:induction false} EmptyOptionsBytes(n: nat)
    ensures Zeros(B.Tail(EmptyOptions(n)), OPH * n)
  {
    if n > 0 {
      EmptyOptionsBytes(n - 1);
      EmptyOptionsLast(n);
      assert B.Tail(EmptyOptions(n)) == B.Tail(EmptyOptions(n - 1)) + OptRecord(NIL);
      NilRecord();
      ZerosAppend(B.Tail(EmptyOptions(n - 1)), OPH * (n - 1), OptRecord(NIL), OPH);
    }
  }

  lemma ZerosAppend(x: Bytes, n: nat, y: Bytes, k: nat)
    requires Zeros(x, n) && Zeros(y, k)
    ensures Zeros(x + y, n + k)
  {
  }

  lemma NilRecord()
    ensures Zeros(OptRecord(NIL), OPH)
  {
  }

  lemma EmptyOptionsFit(n: nat)
    requires n < WRAP8
    ensures Fits(EmptyOptions(n)) && InOrder(EmptyOptions(n))
    ensures B.ExhArea(EmptyOptions(n)) == [] && |B.OptArea(EmptyOptions(n))| == OPH * n
  {
    var ops := EmptyOptions(n);
    EmptyOptionsItems(n);
    EmptyOptionsBytes(n);
    assert ExtRecords([]) == [];
    B.TailLength(ops);
    B.ExtsFirstLayout(ops);
  }

  /** In a short buffer of zeros the second header is looked for 40 times too far. */
  lemma SeekOvershoots(b: Bytes, id: nat)
    requires HEAD + OPH * (id + 1) == |b| && 1 <= id < 0xFF
    requires forall k | HEAD <= k < |b| :: b[k] == 0
    ensures match OptSeek(b, HEAD, HEAD, id)
            case NoOption => true
            case OptAt(_, head) => head + 8 > |b|
  {
    assert U32At(b, HEAD + 4) == 0;
    if id >= 2 && HEAD * (HEAD + OPH) + 8 <= |b| {
      assert U32At(b, HEAD * (HEAD + OPH) + 4) == 0;
      assert OptSeek(b, HEAD + 2 * OPH, HEAD * (HEAD + 2 * OPH), id - 2) == NoOption;
    }
  }

  lemma OvershotDisagrees(b: Bytes, h: Head, ers: seq<Bytes>, ors: seq<Bytes>, id: nat)
    requires Carries(b, h, ers, ors) && Flatten(ers) == [] && |ors| == id + 1 && 1 <= id < 0xFF
    requires |b| == HEAD + OPH * (id + 1) && forall k | HEAD <= k < |b| :: b[k] == 0
    ensures OptFetch(b, id) == Beyond && Opts(b) == Walked(ors, h.payloadLen)
  {
    SeekOvershoots(b, id);
    CarriedOpts(b, h, ers, ors);
  }

  lemma {:induction false} EmptyWireBytes(junk: Bytes, n: nat)
    requires |junk| == HEAD && n < WRAP8
    ensures var b := B.Wire(junk, EmptyOptions(n), 0, 0);
            |b| == HEAD + OPH * n && forall k | HEAD <= k < |b| :: b[k] == 0
  {
    var b := B.Wire(junk, EmptyOptions(n), 0, 0);
    EmptyOptionsFit(n);
    EmptyOptionsBytes(n);
    WireParts(junk, EmptyOptions(n), 0, 0);
    TailZeros(b, OPH * n);
  }

  lemma TailZeros(b: Bytes, n: nat)
    requires |b| >= HEAD && Zeros(b[HEAD..], n)
    ensures forall k | HEAD <= k < |b| :: b[k] == 0
  {
    forall k | HEAD <= k < |b|
      ensures b[k] == 0
    {
      assert b[k] == b[HEAD..][k - HEAD];
    }
  }

  lemma {:induction false} EmptyWireCarries(junk: Bytes, n: nat)
    requires |junk| == HEAD && n < WRAP8
    ensures var ops := EmptyOptions(n);
            var b := B.Wire(junk, ops, 0, 0);
            |b| >= HEAD && Carries(b, HeadOf(b), ExtRecords(B.Exts(ops)), OptRecords(B.Options(ops)))
  {
    EmptyOptionsFit(n);
    WalksMeet(junk, EmptyOptions(n), 0, 0, Whole);
  }

  lemma {:induction false} EmptyWireIsBuilt(junk: Bytes, n: nat)
    requires |junk| == HEAD && n < WRAP8
    ensures Built(B.Wire(junk, EmptyOptions(n), 0, 0))
  {
    EmptyOptionsFit(n);
  }

  lemma EmptyRecords(n: nat) returns (ers: seq<Bytes>, ors: seq<Bytes>)
    requires n < WRAP8
    ensures ers == ExtRecords(B.Exts(EmptyOptions(n))) && ors == OptRecords(B.Options(EmptyOptions(n)))
    ensures Flatten(ers) == [] && |ors| == n
  {
    EmptyOptionsFit(n);
    EmptyOptionsItems(n);
    ers, ors := ExtRecords(B.Exts(EmptyOptions(n))), OptRecords(B.Options(EmptyOptions(n)));
  }

  lemma {:induction false} ZeroMessage(n: nat) returns (b: Bytes, ers: seq<Bytes>, ors: seq<Bytes>)
    requires n < WRAP8
    ensures Built(b)
    ensures |b| == HEAD + OPH * n && forall k | HEAD <= k < |b| :: b[k] == 0
    ensures Carries(b, HeadOf(b), ers, ors) && Flatten(ers) == [] && |ors| == n
  {
    var junk := seq(HEAD, _ => 0);
    b := B.Wire(junk, EmptyOptions(n), 0, 0);
    EmptyWireIsBuilt(junk, n);
    EmptyWireBytes(junk, n);
    EmptyWireCarries(junk, n);
    ers, ors := EmptyRecords(n);
  }

  /** For any id but 0, a message of id + 1 empty options, all of which the list
      form finds, sends the indexed form outside the buffer. */
  lemma {:induction false} LaterOptionFails(id: nat) returns (b: Bytes)
    requires 1 <= id < 0xFF
    ensures Built(b) && OptFetch(b, id) == Beyond
    ensures Opts(b).Walked? && id < |Opts(b).pieces| && !OptionAgrees(b, id)
  {
    var ers, ors;
    b, ers, ors := ZeroMessage(id + 1);
    OvershotDisagrees(b, HeadOf(b), ers, ors, id);
  }

  /** The indexed get_option agrees with the list form on every well-formed
      message exactly for id 0: for any other id that a message can have, some
      message makes it leave the buffer. */
  lemma IndexedOptionAgreesOnlyAtZero(id: nat)
    requires id < 0xFF
    ensures (forall b: Bytes | Built(b) :: OptionAgrees(b, id)) <==> id == 0
  {
    if id == 0 {
      forall b: Bytes | Built(b)
        ensures OptionAgrees(b, 0)
      {
        FirstOptionAgrees(b);
      }
    } else {
      var b := LaterOptionFails(id);
    }
  }

  // ----------------------------------------------------------------- offsets

  /** Behind i records of a built message the indexed extension loop stands at
      the base plus the sizes of those records. */
  lemma {:induction false} ExhOffset(b: Bytes, off: nat, rs: seq<Bytes>, i: nat)
    requires forall j | 0 <= j < |rs| :: ExtShaped(rs[j])
    requires Stands(b, off, Flatten(rs)) && off + |Flatten(rs)| < WRAP32 && i <= |rs|
    ensures |Flatten(rs[..i])| <= |Flatten(rs)|
    ensures ExhSeek(b, off, i) == At(off + |Flatten(rs[..i])|)
    decreases i
  {
    if i > 0 {
      var r, rest := rs[0], rs[1..];
      StandsSplit(b, off, r, Flatten(rest));
      ExhHere(b, off, r, Whole);
      ExhOffset(b, off + |r|, rest, i - 1);
      assert rs[..i][1..] == rest[..i - 1];
    }
  }

  /** The loop of the indexed get_option with the header looked up offset bytes
      behind the start, as the other indexed accessors do. */
  function OptSeekBytes(b: Bytes, off: U32, k: nat): Place
    decreases k
  {
    if k == 0 then At(off)
    else if off + 8 > |b| then Nowhere
    else OptSeekBytes(b, Wrap32(off + U32At(b, off + 4) + OPH), k - 1)
  }

  lemma {:induction false} OptOffset(b: Bytes, off: nat, rs: seq<Bytes>, i: nat)
    requires forall j | 0 <= j < |rs| :: OptShaped(rs[j])
    requires Stands(b, off, Flatten(rs)) && off + |Flatten(rs)| < WRAP32 && i <= |rs|
    ensures |Flatten(rs[..i])| <= |Flatten(rs)|
    ensures OptSeekBytes(b, off, i) == At(off + |Flatten(rs[..i])|)
    decreases i
  {
    if i > 0 {
      var r, rest := rs[0], rs[1..];
      StandsSplit(b, off, r, Flatten(rest));
      OptHere(b, off, r);
      OptOffset(b, off + |r|, rest, i - 1);
      assert rs[..i][1..] == rest[..i - 1];
    }
  }

  lemma {:induction false} RecordStands(b: Bytes, off: nat, rs: seq<Bytes>, i: nat)
    requires Stands(b, off, Flatten(rs)) && i < |rs|
    ensures Stands(b, off + |Flatten(rs[..i])|, rs[i])
    decreases i
  {
    StandsSplit(b, off, rs[0], Flatten(rs[1..]));
    if i > 0 {
      RecordStands(b, off + |rs[0]|, rs[1..], i - 1);
      assert rs[..i][1..] == rs[1..][..i - 1];
    }
  }

  /** The option record the loop stands at, and its length field. */
  predicate OptionHere(b: Bytes, at: Place, r: Bytes) {
    at.At? && at.off + 8 <= |b| && Stands(b, at.off, r) && |r| == U32At(b, at.off + 4) + OPH
  }

  lemma OptionFrom(b: Bytes, off: nat, rs: seq<Bytes>, id: nat)
    requires forall j | 0 <= j < |rs| :: OptShaped(rs[j])
    requires Stands(b, off, Flatten(rs)) && off + |Flatten(rs)| < WRAP32 && id < |rs|
    ensures OptionHere(b, OptSeekBytes(b, off, id), rs[id])
  {
    OptOffset(b, off, rs, id);
    RecordStands(b, off, rs, id);
    OptHere(b, off + |Flatten(rs[..id])|, rs[id]);
  }

  lemma CarriedOption(b: Bytes, h: Head, ers: seq<Bytes>, ors: seq<Bytes>, id: nat)
    requires Carries(b, h, ers, ors) && id < |ors|
    ensures OptionHere(b, OptSeekBytes(b, OptStart(b), id), ors[id])
  {
    assert OptStart(b) == HEAD + h.exhlen;
    OptionFrom(b, HEAD + h.exhlen, ors, id);
  }

  /** Counted in bytes, the indexed get_option would find every option that the
      list form does. */
  lemma {:induction false} ByteStepWouldAgree(junk: Bytes, ops: seq<B.Op>, m: Byte, q: U32, id: nat)
    requires |junk| == HEAD && Fits(ops) && InOrder(ops) && id < |B.Options(ops)|
    ensures var b := B.Wire(junk, ops, m, q);
            && |b| >= HEAD && Opts(b).Walked? && |Opts(b).pieces| == |B.Options(ops)|
            && OptionHere(b, OptSeekBytes(b, OptStart(b), id), Opts(b).pieces[id])
  {
    var b := B.Wire(junk, ops, m, q);
    WalksMeet(junk, ops, m, q, Whole);
    CarriedOption(b, HeadOf(b), ExtRecords(B.Exts(ops)), OptRecords(B.Options(ops)), id);
  }

  // ------------------------------------------------------ what is handed out

  lemma CutParts(e: Ext)
    requires |e.data| < WRAP16
    ensures ExtShaped(ExtRecord(e)) && Cut(ExtRecord(e), Whole) == ExtRecord(e)
    ensures Cut(ExtRecord(e), Body) == e.data && Cut(ExtRecord(e), Header) == ExtRecord(e)[..10]
  {
    var r := ExtRecord(e);
    ExtShapedIf(e);
    CopyIsSlice(r, 0, |r|);
    CopyIsSlice(r, 10, |e.data|);
    CopyIsSlice(r, 0, 10);
  }

  /** From a built message the indexed accessors hand out the whole record of
      extension i, the data it was appended with, and its first ten bytes. */
  lemma {:induction false} ReceivedExtension(junk: Bytes, ops: seq<B.Op>, m: Byte, q: U32, i: nat)
    requires |junk| == HEAD && Fits(ops) && InOrder(ops) && i < |B.Exts(ops)|
    ensures var b, e := B.Wire(junk, ops, m, q), B.Exts(ops)[i];
            && ExhFetch(b, i, Whole) == Found(ExtRecord(e))
            && ExhFetch(b, i, Body) == Found(e.data)
            && ExhFetch(b, i, Header) == Found(ExtRecord(e)[..10])
  {
    ReceivedPart(junk, ops, m, q, i, Whole);
    ReceivedPart(junk, ops, m, q, i, Body);
    ReceivedPart(junk, ops, m, q, i, Header);
    CutParts(B.Exts(ops)[i]);
  }

  lemma {:induction false} ReceivedPart(junk: Bytes, ops: seq<B.Op>, m: Byte, q: U32, i: nat, p: Part)
    requires |junk| == HEAD && Fits(ops) && InOrder(ops) && i < |B.Exts(ops)|
    ensures ExtShaped(ExtRecord(B.Exts(ops)[i]))
    ensures ExhFetch(B.Wire(junk, ops, m, q), i, p) == Found(Cut(ExtRecord(B.Exts(ops)[i]), p))
  {
    WalksMeet(junk, ops, m, q, p);
    IndexedExhAgrees(B.Wire(junk, ops, m, q), p, i);
  }

  // ------------------------------------------- the indexed get_option as it is

  /** Where the indexed get_option looks for header i, having reached these
      offsets: the first one in bytes, every later one in units of 40 bytes. */
  ghost function HeadAt(offs: seq<U32>, i: nat): nat
    requires i < |offs|
  {
    if i == 0 then offs[0] else 40 * (offs[i] as int)
  }

  /** The offsets it goes through: each is the one before plus the size of the
      record whose header it has looked at. */
  ghost predicate Chain(b: Bytes, offs: seq<U32>) {
    && |b| >= 40 && |offs| >= 1 && offs[0] == Wrap32(40 + U32At(b, 16))
    && forall i | 0 <= i < |offs| - 1 ::
         HeadAt(offs, i) + 8 <= |b| && offs[i + 1] == Wrap32(offs[i] + U32At(b, HeadAt(offs, i) + 4) + 8)
  }

  lemma {:induction false} SeekFollows(b: Bytes, offs: seq<U32>, i: nat, k: nat)
    requires Chain(b, offs) && i + k == |offs| - 1
    ensures OptSeek(b, offs[i], HeadAt(offs, i), k) == OptAt(offs[|offs| - 1], HeadAt(offs, |offs| - 1))
    decreases k
  {
    if k > 0 {
      assert HeadAt(offs, i) + 8 <= |b| && offs[i + 1] == Wrap32(offs[i] + U32At(b, HeadAt(offs, i) + 4) + 8);
      SeekFollows(b, offs, i + 1, k - 1);
    }
  }

  lemma {:induction false} SeekStops(b: Bytes, offs: seq<U32>, i: nat, k: nat)
    requires Chain(b, offs) && i < |offs| && i + k > |offs| - 1
    requires HeadAt(offs, |offs| - 1) + 8 > |b|
    ensures OptSeek(b, offs[i], HeadAt(offs, i), k) == NoOption
    decreases |offs| - i
  {
    if i < |offs| - 1 {
      assert HeadAt(offs, i) + 8 <= |b| && offs[i + 1] == Wrap32(offs[i] + U32At(b, HeadAt(offs, i) + 4) + 8);
      SeekStops(b, offs, i + 1, k - 1);
    }
  }

  /** What the indexed get_option returns, for any buffer and any id: the bytes at
      the offset reached, as many as the header looked at last says; -1 for an id
      that is no option; and no answer when a header or the record leaves the buffer. */
  lemma {:induction false} IndexedOptionReads(b: Bytes, id: int, offs: seq<U32>)
    requires Chain(b, offs) && |offs| - 1 <= id < b[14]
    requires |offs| - 1 < id ==> HeadAt(offs, |offs| - 1) + 8 > |b|
    ensures var off, head := offs[|offs| - 1], HeadAt(offs, |offs| - 1);
            OptFetch(b, id) ==
            if head + 8 > |b| || off + 8 + U32At(b, head + 4) > |b| then Beyond
            else Found(b[off..off + 8 + U32At(b, head + 4)])
  {
    if |offs| - 1 == id {
      SeekFollows(b, offs, 0, id);
      var off, head := offs[|offs| - 1], HeadAt(offs, |offs| - 1);
      if head + 8 <= |b| && off + 8 + U32At(b, head + 4) <= |b| {
        ReadsAt(b, off, head);
      }
    } else {
      SeekStops(b, offs, 0, id);
    }
  }

  lemma ReadsAt(b: Bytes, off: nat, head: nat)
    requires head + 8 <= |b| && off + 8 + U32At(b, head + 4) <= |b|
    ensures Copy(b, off, U32At(b, head + 4) + OPH) == b[off..off + 8 + U32At(b, head + 4)]
  {
    CopyIsSlice(b, off, U32At(b, head + 4) + OPH);
  }

  lemma IndexedOptionMissing(b: Bytes, id: int)
    requires |b| >= 40
    ensures OptFetch(b, id) == Missing <==> id < 0 || id >= b[14]
  {
  }

  /** An empty option, then one with 2000 zero bytes: the list form hands the
      second out whole, the indexed form answers with its first eight bytes. */
  function Long(): Opt {
    Opt(0, 0, seq(2000, _ => 0))
  }

  function LongCalls(): seq<B.Op> {
    [B.AddOpt(NIL), B.AddOpt(Long())]
  }

  lemma LongTail()
    ensures var ops := LongCalls();
            && B.Exts(ops) == [] && B.Options(ops) == [NIL, Long()] && B.ExtsFirst(ops)
            && B.Tail(ops) == OptRecord(NIL) + OptRecord(Long())
            && |B.ExhArea(ops)| == 0 && |B.OptArea(ops)| == 2016
  {
    var one: seq<B.Op>, ops: seq<B.Op> := [B.AddOpt(NIL)], LongCalls();
    assert ops[..1] == one && one[..0] == [];
    assert B.Tail(one) == OptRecord(NIL);
    B.AreaSnoc(one);
    B.AreaSnoc(ops);
    assert B.ExhArea([]) == [] && B.OptArea([]) == [];
  }

  lemma ZerosAround(b: Bytes)
    requires |b| == 2056 && b[40..] == OptRecord(NIL) + OptRecord(Long())
    ensures forall k | 40 <= k < 48 || 56 <= k < 2056 :: b[k] == 0
  {
    NilRecord();
    OptRecordLayout(Long());
    forall k | 40 <= k < 48 || 56 <= k < 2056
      ensures b[k] == 0
    {
      assert b[k] == b[40..][k - 40];
      if k >= 56 {
        assert b[k] == OptRecord(Long())[8..][k - 56];
      }
    }
  }

  lemma LongFits()
    ensures Fits(LongCalls()) && InOrder(LongCalls())
  {
    LongTail();
    B.ExtsFirstLayout(LongCalls());
  }

  lemma {:induction false} LongIsBuilt(junk: Bytes)
    requires |junk| == HEAD
    ensures Built(B.Wire(junk, LongCalls(), 0, 0))
  {
    LongFits();
  }

  lemma {:induction false} LongOptions(junk: Bytes)
    requires |junk| == HEAD
    ensures Opts(B.Wire(junk, LongCalls(), 0, 0)).Walked?
    ensures Opts(B.Wire(junk, LongCalls(), 0, 0)).pieces == OptRecords([NIL, Long()])
  {
    LongFits();
    LongTail();
    WalksMeet(junk, LongCalls(), 0, 0, Whole);
  }

  lemma {:induction false} LongBytes(junk: Bytes)
    requires |junk| == HEAD
    ensures var b := B.Wire(junk, LongCalls(), 0, 0);
            |b| == 2056 && b[40..] == OptRecord(NIL) + OptRecord(Long()) && U32At(b, 16) == 0 && b[14] == 2
  {
    var b := B.Wire(junk, LongCalls(), 0, 0);
    LongFits();
    LongTail();
    WireParts(junk, LongCalls(), 0, 0);
    FitsUnwrapped(HeadOf(b), LongCalls(), 0, 0);
  }

  lemma {:induction false} IndexedOptionCutsShort(junk: Bytes) returns (b: Bytes)
    requires |junk| == HEAD
    ensures Built(b) && |b| == 2056 && OptFetch(b, 1) == Found(b[48..56])
    ensures Opts(b).Walked? && |Opts(b).pieces| == 2 && |Opts(b).pieces[1]| == 2008
  {
    b := B.Wire(junk, LongCalls(), 0, 0);
    LongIsBuilt(junk);
    LongOptions(junk);
    LongBytes(junk);
    CutShortReads(b);
    OptRecordLayout(Long());
  }

  lemma CutShortReads(b: Bytes)
    requires |b| == 2056 && b[40..] == OptRecord(NIL) + OptRecord(Long()) && U32At(b, 16) == 0 && b[14] == 2
    ensures OptFetch(b, 1) == Found(b[48..56])
  {
    ZerosAround(b);
    assert U32At(b, 44) == 0 && U32At(b, 1924) == 0;
    var offs: seq<U32> := [40, 48];
    assert Chain(b, offs);
    IndexedOptionReads(b, 1, offs);
  }
}
