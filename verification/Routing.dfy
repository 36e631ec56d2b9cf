/** Where a message goes: the uri the router finds in it and what commit does
    with it. */
module Routing {
  import opened Options
  import opened ByteStrings
  import opened Frame
  import opened PoolQueues
  import opened ThreadPools
  import opened Messages

  /** What the JSON reader makes of some bytes: no JSON, JSON without a
      service_uri member, or JSON with one. */
  datatype Parsed = NotJson | NoUri | Uri(uri: string)

  /** The format code of JSON options. */
  const JSON: Byte := 3

  function UriOf(j: Parsed): string {
    if j.Uri? then j.uri else ""
  }

  // ------------------------------------------------------------ specification

  /** The uri of a message, in terms of what the sender put in: the first
      extension decides alone when there is one, otherwise the first option in
      JSON format decides alone. */
  function Destination(es: seq<Ext>, os: seq<Opt>, parse: Bytes -> Parsed): string {
    if es != [] then UriOf(parse(es[0].data)) else FirstJson(os, parse)
  }

  function FirstJson(os: seq<Opt>, parse: Bytes -> Parsed): string {
    if os == [] then ""
    else if os[0].format == JSON then UriOf(parse(os[0].data))
    else FirstJson(os[1..], parse)
  }

  // ------------------------------------------------------ what the code reads

  /** The loop over the option strings; None when a read leaves a string. */
  function RouteOptions(opts: seq<Bytes>, parse: Bytes -> Parsed): Option<string> {
    if opts == [] then Some("")
    else if |opts[0]| < OPH || OPH + U32At(opts[0], 4) > |opts[0]| then None
    else if opts[0][1] != JSON then RouteOptions(opts[1..], parse)
    else Some(UriOf(parse(Copy(opts[0], OPH, U32At(opts[0], 4)))))
  }

  /** dump_msg prints option 0; with no option it reads a header out of an empty string. */
  predicate DumpStaysInside(b: Bytes) {
    OptFetch(b, 0).Found?
  }

  /** get_uri on a received buffer; None when some read leaves it. */
  function Route(b: Bytes, parse: Bytes -> Parsed): Option<string> {
    if !DumpStaysInside(b) then None
    else if ExhCount(b) > 0 then
      match ExhFetch(b, 0, Body)
      case Found(p) => Some(UriOf(parse(p)))
      case _ => None
    else
      match Opts(b)
      case Outside => None
      case Walked(opts, _) => RouteOptions(opts, parse)
  }

  // ------------------------------------------------------------------ methods

  class ServiceRouter {
    /** The JSON reader, as a function of the bytes it is given. */
    const parse: Bytes -> Parsed

    constructor (parse: Bytes -> Parsed)
      ensures this.parse == parse
    {
      this.parse := parse;
    }

    /** get_uri. */
    method GetUri(msg: Message) returns (r: Option<string>)
      requires msg.received
      ensures r == Route(msg.wire, parse)
    {
      var dumped := msg.GetOption(0);
      if !dumped.Found? {
        return None;
      }
      if ExhCount(msg.wire) > 0 {
        var payload := msg.GetExh(0, Body);
        if !payload.Found? {
          return None;
        }
        return Some(UriOf(parse(payload.piece)));
      }
      var ok, opts := msg.GetOptions([]);
      if !ok {
        return None;
      }
      assert opts == Opts(msg.wire).pieces;
      r := FirstUri(opts);
    }

    /** The loop over the option list. */
    method FirstUri(opts: seq<Bytes>) returns (r: Option<string>)
      ensures r == RouteOptions(opts, parse)
    {
      for i := 0 to |opts|
        invariant RouteOptions(opts[i..], parse) == RouteOptions(opts, parse)
      {
        var opt := opts[i];
        assert opts[i..][0] == opt && opts[i..][1..] == opts[i + 1..];
        if |opt| < OPH || OPH + U32At(opt, 4) > |opt| {
          return None;
        }
        if opt[1] != JSON {
          continue;
        }
        return Some(UriOf(parse(Copy(opt, OPH, U32At(opt, 4)))));
      }
      return Some("");
    }
  }

  /** The bound call that commit queues. */
  datatype ServiceCall<S> = ServiceCall(service: S, session: nat, msg: Message)

  class ServiceMgr<S(==)> {
    var services: map<string, S>
    const router: ServiceRouter
    const pool: ThreadPool<ServiceCall<S>>

    constructor (router: ServiceRouter, pool: ThreadPool<ServiceCall<S>>)
      ensures this.router == router && this.pool == pool && services == map[]
    {
      this.router, this.pool, services := router, pool, map[];
    }

    method Regist(uri: string, s: S) returns (rc: int)
      modifies `services
      ensures rc == 0 && services == old(services)[uri := s]
    {
      services := services[uri := s];
      return 0;
    }

    /** unregist erases only a uri that is not there, so it never removes anything. */
    method Unregist(uri: string) returns (rc: int)
      modifies `services
      ensures rc == 0 && services == old(services)
    {
      if uri !in services {
        services := services - {uri};
      }
      return 0;
    }

    method GetService(uri: string) returns (s: Option<S>)
      ensures s == if uri in services then Some(services[uri]) else None
    {
      if uri in services {
        return Some(services[uri]);
      }
      return None;
    }

    /** commit: one normal task for the service the message names, or -1 and
        nothing queued; None when get_uri reads outside the message. */
    method Commit(session: nat, msg: Message) returns (rc: Option<int>)
      requires msg.received
      modifies pool`normalQueue, pool`timerQueue, pool`highestQueue, pool`detached
      ensures pool.detached == old(pool.detached)
      ensures match Route(msg.wire, router.parse)
              case None => rc == None && pool.Contents() == old(pool.Contents())
              case Some(uri) =>
                if uri in services then
                  rc == Some(0) &&
                  pool.Contents() == old(pool.Contents()).(normal := old(pool.normalQueue) +
                                       [ServiceCall(services[uri], session, msg)])
                else rc == Some(-1) && pool.Contents() == old(pool.Contents())
    {
      var uri := router.GetUri(msg);
      if uri.None? {
        return None;
      }
      var ps := GetService(uri.value);
      if ps.None? {
        return Some(-1);
      }
      pool.AddTask(Normal, ServiceCall(ps.value, session, msg));
      return Some(0);
    }

    /** on_message of the server: wraps the buffer and commits it. */
    method OnMessage(session: nat, buffer: Bytes, placeholder: Bytes) returns (rc: Option<int>, msg: Message)
      requires |placeholder| == HEAD
      modifies pool`normalQueue, pool`timerQueue, pool`highestQueue, pool`detached
      ensures fresh(msg) && msg.received && msg.wire == buffer
      ensures pool.detached == old(pool.detached)
      ensures match Route(buffer, router.parse)
              case None => rc == None && pool.Contents() == old(pool.Contents())
              case Some(uri) =>
                if uri in services then
                  rc == Some(0) &&
                  pool.Contents() == old(pool.Contents()).(normal := old(pool.normalQueue) +
                                       [ServiceCall(services[uri], session, msg)])
                else rc == Some(-1) && pool.Contents() == old(pool.Contents())
    {
      msg := new Message.Receiver(buffer, placeholder);
      rc := Commit(session, msg);
    }
  }
}
