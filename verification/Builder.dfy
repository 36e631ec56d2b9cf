/** The sending side of a message as a value: the header being filled in and the
    payload growing behind a 40-byte placeholder.  Counters and lengths wrap at
    the widths of their C++ fields. */
module Builder {
  import opened ByteStrings
  import opened Frame

  datatype Draft = Draft(head: Head, payload: Bytes)

  predicate Valid(d: Draft) {
    ValidHead(d.head) && |d.payload| >= HEAD
  }

  /** A fresh sender; the C++ placeholder is 40 bytes of no particular value. */
  function Fresh(junk: Bytes): (d: Draft)
    requires |junk| == HEAD
    ensures Valid(d)
  {
    Draft(NewHead(), junk)
  }

  function AppendExh(d: Draft, e: Ext): Draft {
    Draft(d.head.(exhcnt := Wrap8(d.head.exhcnt + 1),
                  exhlen := Wrap32(d.head.exhlen + |e.data| + EXH)),
          d.payload + ExtRecord(e))
  }

  function AppendOption(d: Draft, o: Opt): Draft {
    Draft(d.head.(optcnt := Wrap8(d.head.optcnt + 1),
                  optlen := Wrap32(d.head.optlen + |o.data| + OPH)),
          d.payload + OptRecord(o))
  }

  /** submit: completes the header and copies it over the placeholder. */
  function Submit(d: Draft, m: Byte, sequence: U32): Draft
    requires Valid(d)
  {
    var head := d.head.(payloadMethod := m, seqence := sequence,
                        payloadLen := Wrap32(HEAD + d.head.exhlen + d.head.optlen));
    Draft(head, HeadBytes(head) + d.payload[HEAD..])
  }

  // ------------------------------------------------------- sequences of calls

  datatype Op = AddExh(ext: Ext) | AddOpt(opt: Opt) | DoSubmit(m: Byte, sequence: U32)

  function Apply(d: Draft, op: Op): (r: Draft)
    requires Valid(d)
    ensures Valid(r)
  {
    match op
    case AddExh(e) => AppendExh(d, e)
    case AddOpt(o) => AppendOption(d, o)
    case DoSubmit(m, q) => Submit(d, m, q)
  }

  function Build(d: Draft, ops: seq<Op>): (r: Draft)
    requires Valid(d)
    ensures Valid(r)
  {
    if ops == [] then d else Apply(Build(d, ops[..|ops| - 1]), ops[|ops| - 1])
  }

  lemma BuildSnoc(d: Draft, ops: seq<Op>, op: Op)
    requires Valid(d)
    ensures Build(d, ops + [op]) == Apply(Build(d, ops), op)
  {
    assert (ops + [op])[..|ops|] == ops;
  }

  /** The buffer handed to the receiver: some calls, then a final submit. */
  function Wire(junk: Bytes, ops: seq<Op>, m: Byte, q: U32): Bytes
    requires |junk| == HEAD
  {
    Submit(Build(Fresh(junk), ops), m, q).payload
  }

  // --------------------------------------------- what the calls put in, in order

  function Exts(ops: seq<Op>): seq<Ext> {
    if ops == [] then []
    else Exts(ops[..|ops| - 1]) + (if ops[|ops| - 1].AddExh? then [ops[|ops| - 1].ext] else [])
  }

  function Options(ops: seq<Op>): seq<Opt> {
    if ops == [] then []
    else Options(ops[..|ops| - 1]) + (if ops[|ops| - 1].AddOpt? then [ops[|ops| - 1].opt] else [])
  }

  function RecordOf(op: Op): Bytes {
    match op
    case AddExh(e) => ExtRecord(e)
    case AddOpt(o) => OptRecord(o)
    case DoSubmit(_, _) => []
  }

  /** The records in the order of the calls. */
  function Tail(ops: seq<Op>): Bytes {
    if ops == [] then [] else Tail(ops[..|ops| - 1]) + RecordOf(ops[|ops| - 1])
  }

  function ExhArea(ops: seq<Op>): Bytes {
    Flatten(ExtRecords(Exts(ops)))
  }

  function OptArea(ops: seq<Op>): Bytes {
    Flatten(OptRecords(Options(ops)))
  }

  /** No extension is appended after an option. */
  predicate ExtsFirst(ops: seq<Op>) {
    ops == [] || (ExtsFirst(ops[..|ops| - 1]) && (ops[|ops| - 1].AddExh? ==> Options(ops[..|ops| - 1]) == []))
  }

  // ------------------------------------------------------------------ lemmas

  lemma AreaSnoc(ops: seq<Op>)
    requires ops != []
    ensures var front, op := ops[..|ops| - 1], ops[|ops| - 1];
            && ExhArea(ops) == ExhArea(front) + (if op.AddExh? then ExtRecord(op.ext) else [])
            && OptArea(ops) == OptArea(front) + (if op.AddOpt? then OptRecord(op.opt) else [])
  {
    var front, op := ops[..|ops| - 1], ops[|ops| - 1];
    if op.AddExh? {
      assert ExtRecords(Exts(ops)) == ExtRecords(Exts(front)) + [ExtRecord(op.ext)];
      FlattenSnoc(ExtRecords(Exts(front)), ExtRecord(op.ext));
    } else {
      assert Exts(ops) == Exts(front);
    }
    if op.AddOpt? {
      assert OptRecords(Options(ops)) == OptRecords(Options(front)) + [OptRecord(op.opt)];
      FlattenSnoc(OptRecords(Options(front)), OptRecord(op.opt));
    } else {
      assert Options(ops) == Options(front);
    }
  }

  /** In whatever order the records came, their bytes are those of the two areas. */
  lemma {:induction false} TailLength(ops: seq<Op>)
    ensures |Tail(ops)| == |ExhArea(ops)| + |OptArea(ops)|
  {
    if ops != [] {
      TailLength(ops[..|ops| - 1]);
      AreaSnoc(ops);
    }
  }

  lemma Regroup(x: Bytes, y: Bytes, r: Bytes)
    ensures (x + y) + r == x + (y + r)
    ensures x + [] == x && y + [] == y && [] + r == r
  {
  }

  /** Appending extensions first puts the extension area before the option area. */
  lemma {:induction false} ExtsFirstLayout(ops: seq<Op>)
    requires ExtsFirst(ops)
    ensures Tail(ops) == ExhArea(ops) + OptArea(ops)
  {
    if ops != [] {
      var front, op := ops[..|ops| - 1], ops[|ops| - 1];
      ExtsFirstLayout(front);
      AreaSnoc(ops);
      Regroup(ExhArea(front), OptArea(front), RecordOf(op));
      if op.AddExh? {
        assert OptArea(front) == [];
      }
    }
  }

  lemma SumWraps(a: nat, b: nat, c: nat)
    ensures Wrap32(c + Wrap32(a) + Wrap32(b)) == Wrap32(c + a + b)
  {
    WrapSum(a, c + Wrap32(b), WRAP32);
    WrapSum(b, c + a, WRAP32);
  }

  /** One call adds its record to the payload, behind what is there. */
  lemma ApplyTail(d: Draft, op: Op)
    requires Valid(d)
    ensures Apply(d, op).payload[HEAD..] == d.payload[HEAD..] + RecordOf(op)
  {
  }

  lemma {:induction false} BuildTail(d: Draft, ops: seq<Op>)
    requires Valid(d) && |d.payload| == HEAD
    ensures Build(d, ops).payload[HEAD..] == Tail(ops)
  {
    if ops != [] {
      BuildTail(d, ops[..|ops| - 1]);
      ApplyTail(Build(d, ops[..|ops| - 1]), ops[|ops| - 1]);
    }
  }

  /** The header after some calls: counters and lengths modulo their widths. */
  ghost predicate Counts(h: Head, ne: nat, no: nat, el: nat, ol: nat) {
    h.exhcnt == Wrap8(ne) && h.optcnt == Wrap8(no) && h.exhlen == Wrap32(el) && h.optlen == Wrap32(ol)
  }

  lemma ApplyCounts(d: Draft, op: Op, ne: nat, no: nat, el: nat, ol: nat)
    requires Valid(d) && Counts(d.head, ne, no, el, ol)
    ensures match op
            case AddExh(e) => Counts(Apply(d, op).head, ne + 1, no, el + |ExtRecord(e)|, ol)
            case AddOpt(o) => Counts(Apply(d, op).head, ne, no + 1, el, ol + |OptRecord(o)|)
            case DoSubmit(_, _) => Counts(Apply(d, op).head, ne, no, el, ol)
  {
    match op {
      case AddExh(e) =>
        WrapSum(ne, 1, WRAP8);
        WrapSum(el, |ExtRecord(e)|, WRAP32);
      case AddOpt(o) =>
        WrapSum(no, 1, WRAP8);
        WrapSum(ol, |OptRecord(o)|, WRAP32);
      case DoSubmit(_, _) =>
    }
  }

  lemma {:induction false} BuildCounts(d: Draft, ops: seq<Op>)
    requires Valid(d) && d.head == NewHead()
    ensures Counts(Build(d, ops).head, |Exts(ops)|, |Options(ops)|, |ExhArea(ops)|, |OptArea(ops)|)
  {
    if ops != [] {
      var front := ops[..|ops| - 1];
      BuildCounts(d, front);
      AreaSnoc(ops);
      ApplyCounts(Build(d, front), ops[|ops| - 1], |Exts(front)|, |Options(front)|, |ExhArea(front)|, |OptArea(front)|);
    }
  }

  /** The header without what the calls fill in. */
  function Blank(h: Head): Head {
    h.(payloadLen := 0, payloadMethod := 0, exhcnt := 0, optcnt := 0, exhlen := 0, optlen := 0, seqence := 0)
  }

  lemma {:induction false} BuildBlank(d: Draft, ops: seq<Op>)
    requires Valid(d)
    ensures Blank(Build(d, ops).head) == Blank(d.head)
  {
    if ops != [] {
      BuildBlank(d, ops[..|ops| - 1]);
    }
  }

  lemma LengthsAgree(d: Draft, el: nat, ol: nat)
    requires Valid(d) && |d.payload| == HEAD + el + ol
    requires d.head.exhlen == Wrap32(el) && d.head.optlen == Wrap32(ol)
    ensures Wrap32(|d.payload|) == Wrap32(HEAD + d.head.exhlen + d.head.optlen)
    ensures |d.payload| < WRAP32 ==> d.head.exhlen == el && d.head.optlen == ol
  {
    SumWraps(el, ol, HEAD);
  }

  /** The builder's length bookkeeping, for any interleaving of calls: the
      payload is as long as the header says, modulo the width of the fields. */
  lemma {:induction false} PayloadLength(junk: Bytes, ops: seq<Op>)
    requires |junk| == HEAD
    ensures var r := Build(Fresh(junk), ops);
            Wrap32(|r.payload|) == Wrap32(HEAD + r.head.exhlen + r.head.optlen)
    ensures var r := Build(Fresh(junk), ops);
            |r.payload| < WRAP32 ==> |r.payload| == HEAD + r.head.exhlen + r.head.optlen
  {
    BuildTail(Fresh(junk), ops);
    BuildCounts(Fresh(junk), ops);
    TailLength(ops);
    LengthsAgree(Build(Fresh(junk), ops), |ExhArea(ops)|, |OptArea(ops)|);
  }

  // -------------------------------------------------------------- resubmission

  function DropSubmits(ops: seq<Op>): seq<Op> {
    if ops == [] then []
    else DropSubmits(ops[..|ops| - 1]) + (if ops[|ops| - 1].DoSubmit? then [] else [ops[|ops| - 1]])
  }

  /** Equal up to what submit writes. */
  ghost predicate SameUnsubmitted(c: Draft, d: Draft) {
    && Valid(c) && Valid(d)
    && c.payload[HEAD..] == d.payload[HEAD..]
    && c.head.(payloadMethod := 0, seqence := 0, payloadLen := 0)
       == d.head.(payloadMethod := 0, seqence := 0, payloadLen := 0)
  }

  lemma AppendKeepsSame(c: Draft, d: Draft, op: Op)
    requires SameUnsubmitted(c, d)
    ensures if op.DoSubmit? then SameUnsubmitted(Apply(c, op), d)
            else SameUnsubmitted(Apply(c, op), Apply(d, op))
  {
    ApplyTail(c, op);
    ApplyTail(d, op);
  }

  lemma {:induction false} SubmitsDoNotMatter(d: Draft, ops: seq<Op>)
    requires Valid(d)
    ensures SameUnsubmitted(Build(d, ops), Build(d, DropSubmits(ops)))
  {
    if ops != [] {
      var front, op := ops[..|ops| - 1], ops[|ops| - 1];
      SubmitsDoNotMatter(d, front);
      AppendKeepsSame(Build(d, front), Build(d, DropSubmits(front)), op);
      if op.DoSubmit? {
        assert DropSubmits(ops) == DropSubmits(front);
      } else {
        BuildSnoc(d, DropSubmits(front), op);
      }
    }
  }

  lemma SubmitForgets(c: Draft, d: Draft, m: Byte, q: U32)
    requires SameUnsubmitted(c, d)
    ensures Submit(c, m, q) == Submit(d, m, q)
  {
  }

  /** Submitting early, appending more and submitting again ends in the same
      object and the same bytes as submitting once at the end. */
  lemma {:induction false} LastSubmitAbsorbs(junk: Bytes, ops: seq<Op>, m: Byte, q: U32)
    requires |junk| == HEAD
    ensures Submit(Build(Fresh(junk), ops), m, q) == Submit(Build(Fresh(junk), DropSubmits(ops)), m, q)
  {
    SubmitsDoNotMatter(Fresh(junk), ops);
    SubmitForgets(Build(Fresh(junk), ops), Build(Fresh(junk), DropSubmits(ops)), m, q);
  }
}
