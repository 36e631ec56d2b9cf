/** End-to-end routing: from what a sender appended to the uri the receiver's
    router finds. */
module RoutingTheorems {
  import opened Options
  import opened ByteStrings
  import opened Frame
  import B = Builder
  import opened Codec
  import opened Accessors
  import opened Routing
  import opened PoolQueues
  import opened Messages

  lemma OptRecordFields(o: Opt)
    requires |o.data| < WRAP32
    ensures U32At(OptRecord(o), 4) == |o.data| && OptRecord(o)[1] == o.format
    ensures Copy(OptRecord(o), OPH, |o.data|) == o.data
  {
    OptShapedIf(o);
    CopyIsSlice(OptRecord(o), OPH, |o.data|);
  }

  lemma ExtRecordBody(e: Ext)
    requires |e.data| < WRAP16
    ensures ExtShaped(ExtRecord(e)) && Cut(ExtRecord(e), Body) == e.data
  {
    ExtShapedIf(e);
    CopyIsSlice(ExtRecord(e), EXH, |e.data|);
  }

  /** The loop over the received options finds the first JSON option that was appended. */
  lemma {:induction false} OptionsRoute(os: seq<Opt>, parse: Bytes -> Parsed)
    requires forall i | 0 <= i < |os| :: |os[i].data| < WRAP32
    ensures RouteOptions(OptRecords(os), parse) == Some(FirstJson(os, parse))
  {
    if os != [] {
      OptRecordFields(os[0]);
      assert OptRecords(os)[1..] == OptRecords(os[1..]);
      OptionsRoute(os[1..], parse);
    }
  }

  lemma CarriedRoute(b: Bytes, h: Head, es: seq<Ext>, os: seq<Opt>, parse: Bytes -> Parsed)
    requires Carries(b, h, ExtRecords(es), OptRecords(os)) && SmallExts(es) && os != []
    ensures Route(b, parse) == Some(Destination(es, os, parse))
  {
    var ers, ors := ExtRecords(es), OptRecords(os);
    FirstOptionHere(b, h, ers, ors);
    if es != [] {
      CarriedExhs(b, h, ers, ors, Body);
      IndexedExhAgrees(b, Body, 0);
      ExtRecordBody(es[0]);
    } else {
      CarriedOpts(b, h, ers, ors);
      OptionSizes(os);
      OptionsRoute(os, parse);
    }
  }

  lemma OptionSizes(os: seq<Opt>)
    requires |Flatten(OptRecords(os))| < WRAP32
    ensures forall i | 0 <= i < |os| :: |os[i].data| < WRAP32
  {
    forall i | 0 <= i < |os|
      ensures |os[i].data| < WRAP32
    {
      PartOfFlatten(OptRecords(os), i);
    }
  }

  lemma NoOptionNoRoute(b: Bytes, parse: Bytes -> Parsed)
    requires |b| >= HEAD && OptCount(b) == 0
    ensures Route(b, parse) == None
  {
  }

  /** For every message that fits and is in order: get_uri finds the destination
      the sender named when there is at least one option, and otherwise reads
      outside a string before it has looked at anything. */
  lemma {:induction false} RoutesAsSent(junk: Bytes, ops: seq<B.Op>, m: Byte, q: U32, parse: Bytes -> Parsed)
    requires |junk| == HEAD && Fits(ops) && InOrder(ops)
    ensures Route(B.Wire(junk, ops, m, q), parse) ==
            if B.Options(ops) == [] then None
            else Some(Destination(B.Exts(ops), B.Options(ops), parse))
  {
    var b := B.Wire(junk, ops, m, q);
    WalksMeet(junk, ops, m, q, Whole);
    if B.Options(ops) == [] {
      NoOptionNoRoute(b, parse);
    } else {
      CarriedRoute(b, HeadOf(b), B.Exts(ops), B.Options(ops), parse);
    }
  }

  /** The data that decide a message: those of the first extension, or, without
      extensions, of the first option in format 3. */
  ghost predicate DecidedBy(es: seq<Ext>, os: seq<Opt>, d: Bytes) {
    if es != [] then d == es[0].data
    else
      exists k ::
        && 0 <= k < |os| && os[k].format == 3 && d == os[k].data
        && forall i | 0 <= i < k :: os[i].format != 3
  }

  lemma {:induction false} FirstJsonAt(os: seq<Opt>, k: nat, parse: Bytes -> Parsed)
    requires k < |os| && os[k].format == 3 && forall i | 0 <= i < k :: os[i].format != 3
    ensures FirstJson(os, parse) == match parse(os[k].data)
                                    case Uri(u) => u
                                    case _ => ""
  {
    if k > 0 {
      FirstJsonAt(os[1..], k - 1, parse);
    }
  }

  lemma DestinationIsDecided(es: seq<Ext>, os: seq<Opt>, d: Bytes, parse: Bytes -> Parsed)
    requires DecidedBy(es, os, d)
    ensures Destination(es, os, parse) == match parse(d)
                                          case Uri(u) => u
                                          case _ => ""
  {
    if es == [] {
      var k :| 0 <= k < |os| && os[k].format == 3 && d == os[k].data && forall i | 0 <= i < k :: os[i].format != 3;
      FirstJsonAt(os, k, parse);
    }
  }

  /** What get_uri answers for a built message with an option: the service_uri
      that the deciding data name, or the empty string when they are no JSON or
      name none.  Nothing else in the message matters. */
  lemma {:induction false} RouteIsDecided(junk: Bytes, ops: seq<B.Op>, m: Byte, q: U32, d: Bytes,
                                          parse: Bytes -> Parsed)
    requires |junk| == HEAD && Fits(ops) && InOrder(ops) && B.Options(ops) != []
    requires DecidedBy(B.Exts(ops), B.Options(ops), d)
    ensures Route(B.Wire(junk, ops, m, q), parse) == match parse(d)
                                                     case Uri(u) => Some(u)
                                                     case NoUri => Some("")
                                                     case NotJson => Some("")
  {
    RoutesAsSent(junk, ops, m, q, parse);
    DestinationIsDecided(B.Exts(ops), B.Options(ops), d, parse);
  }

  /** Among messages with at least one option the first extension decides alone:
      what else was appended, and every other option and extension, is ignored. */
  lemma {:induction false} ExtensionDecidesAlone(junk: Bytes, ops: seq<B.Op>, m: Byte, q: U32, e: Ext,
                                                 parse: Bytes -> Parsed)
    requires |junk| == HEAD && Fits(ops) && InOrder(ops)
    requires B.Options(ops) != [] && B.Exts(ops) != [] && B.Exts(ops)[0] == e
    ensures Route(B.Wire(junk, ops, m, q), parse) == match parse(e.data)
                                                     case Uri(u) => Some(u)
                                                     case _ => Some("")
  {
    RouteIsDecided(junk, ops, m, q, e.data, parse);
  }

  /** In a message without extensions the first option in format 3 decides, even
      when it is not JSON or names no uri: nothing after it is looked at. */
  lemma {:induction false} FirstJsonDecidesAlone(junk: Bytes, ops: seq<B.Op>, m: Byte, q: U32, k: nat,
                                                 parse: Bytes -> Parsed)
    requires |junk| == HEAD && Fits(ops) && InOrder(ops)
    requires B.Exts(ops) == [] && k < |B.Options(ops)| && B.Options(ops)[k].format == 3
    requires forall i | 0 <= i < k :: B.Options(ops)[i].format != 3
    ensures Route(B.Wire(junk, ops, m, q), parse) == match parse(B.Options(ops)[k].data)
                                                     case Uri(u) => Some(u)
                                                     case _ => Some("")
  {
    RouteIsDecided(junk, ops, m, q, B.Options(ops)[k].data, parse);
  }

  /** Without extensions and options in format 3 the uri is empty. */
  lemma {:induction false} NoJsonNoUri(junk: Bytes, ops: seq<B.Op>, m: Byte, q: U32, parse: Bytes -> Parsed)
    requires |junk| == HEAD && Fits(ops) && InOrder(ops) && B.Exts(ops) == [] && B.Options(ops) != []
    requires forall i | 0 <= i < |B.Options(ops)| :: B.Options(ops)[i].format != 3
    ensures Route(B.Wire(junk, ops, m, q), parse) == Some("")
  {
    RoutesAsSent(junk, ops, m, q, parse);
    NothingFound(B.Options(ops), parse);
  }

  lemma {:induction false} NothingFound(os: seq<Opt>, parse: Bytes -> Parsed)
    requires forall i | 0 <= i < |os| :: os[i].format != 3
    ensures FirstJson(os, parse) == ""
  {
    if os != [] {
      NothingFound(os[1..], parse);
    }
  }

  /** End to end: a message that fits, is in order and has an option is submitted,
      its payload crosses the connection, and the receiving side queues one normal
      task for the service whose uri the deciding data name, or refuses it. */
  method SendAndDispatch<S(==)>(sender: Message, ghost junk: Bytes, ghost ops: seq<B.Op>, m: Byte, q: U32,
                                mgr: ServiceMgr<S>, session: nat, placeholder: Bytes)
    returns (rc: Option<int>, got: Message)
    requires |junk| == HEAD && Fits(ops) && InOrder(ops) && B.Options(ops) != [] && |placeholder| == HEAD
    requires !sender.received && sender.Contents() == B.Build(B.Fresh(junk), ops)
    modifies sender, mgr.pool`normalQueue, mgr.pool`timerQueue, mgr.pool`highestQueue, mgr.pool`detached
    ensures got.received && got.wire == B.Wire(junk, ops, m, q) == sender.payload
    ensures mgr.pool.timerQueue == old(mgr.pool.timerQueue) && mgr.pool.highestQueue == old(mgr.pool.highestQueue)
    ensures mgr.pool.detached == old(mgr.pool.detached)
    ensures forall d, u | DecidedBy(B.Exts(ops), B.Options(ops), d) && mgr.router.parse(d) == Uri(u) ::
              Dispatches(rc, u, mgr.services, session, got, old(mgr.pool.normalQueue), mgr.pool.normalQueue)
    ensures (forall d | DecidedBy(B.Exts(ops), B.Options(ops), d) :: !mgr.router.parse(d).Uri?) ==>
              Dispatches(rc, "", mgr.services, session, got, old(mgr.pool.normalQueue), mgr.pool.normalQueue)
  {
    sender.Submit(m, q);
    var b := sender.GetPayload();
    RoutesAsSent(junk, ops, m, q, mgr.router.parse);
    rc, got := mgr.OnMessage(session, b, placeholder);
    ghost var es, os, parse := B.Exts(ops), B.Options(ops), mgr.router.parse;
    assert mgr.pool.Contents().normal == mgr.pool.normalQueue;
    assert Dispatches(rc, Destination(es, os, parse), mgr.services, session, got,
                      old(mgr.pool.normalQueue), mgr.pool.normalQueue);
    forall d | DecidedBy(es, os, d)
      ensures Destination(es, os, parse) == match parse(d)
                                            case Uri(u) => u
                                            case _ => ""
    {
      DestinationIsDecided(es, os, d, parse);
    }
    if forall d :: !DecidedBy(es, os, d) {
      UndecidedIsEmpty(es, os, parse);
    }
  }

  /** commit's answer and the normal queue, for a message that names uri. */
  ghost predicate Dispatches<S>(rc: Option<int>, uri: string, services: map<string, S>, session: nat, got: Message,
                                before: seq<ServiceCall<S>>, now: seq<ServiceCall<S>>) {
    if uri in services then rc == Some(0) && now == before + [ServiceCall(services[uri], session, got)]
    else rc == Some(-1) && now == before
  }

  lemma UndecidedIsEmpty(es: seq<Ext>, os: seq<Opt>, parse: Bytes -> Parsed)
    requires forall d :: !DecidedBy(es, os, d)
    ensures Destination(es, os, parse) == ""
  {
    if es != [] {
      assert DecidedBy(es, os, es[0].data);
    } else {
      NoneDecides(os, |os|);
      NothingFound(os, parse);
    }
  }

  lemma {:induction false} NoneDecides(os: seq<Opt>, k: nat)
    requires k <= |os| && forall d :: !DecidedBy([], os, d)
    ensures forall i | 0 <= i < k :: os[i].format != 3
  {
    if k > 0 {
      NoneDecides(os, k - 1);
      assert !DecidedBy([], os, os[k - 1].data);
    }
  }
}
