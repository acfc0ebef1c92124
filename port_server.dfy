/**
 * The port server's request handler: a request body holds a process id in
 * decimal; the handler checks the pid, asks the pool for a port on its
 * behalf and answers with the port number followed by a newline. Three
 * counters record how requests ended.
 *
 * What `os.kill(pid, 0)` does for a pid is the parameter `probe`; the
 * pool's own operating-system queries are the parameters `isFree` and
 * `startTimeOf`.
 */
module PortServer {
  import opened Common
  import PortRanges
  import PP = PortPool

  /**
   * What `os.kill(pid, 0)` does: it returns (the process exists), raises
   * `ProcessLookupError` (there is none), or raises anything else, such as
   * `OverflowError` for a pid beyond the C `int` range or `PermissionError`
   * for another user's process.
   */
  datatype KillProbe = Signalled | NoSuchProcess | KillFailed

  /**
   * `_should_allocate_port`: never for an invalid pid or for init; otherwise
   * only for a live process. None is an exception of `os.kill` other than
   * `ProcessLookupError`, which the guard does not catch.
   */
  function ShouldAllocatePort(pid: int, probe: int -> KillProbe): (r: Option<bool>)
    ensures pid <= 1 ==> r == Some(false)
    ensures pid > 1 ==> (r == Some(true) <==> probe(pid) == Signalled)
    ensures pid > 1 ==> (r == Some(false) <==> probe(pid) == NoSuchProcess)
    ensures r.None? <==> pid > 1 && probe(pid) == KillFailed
  {
    if pid <= 0 then Some(false)
    else if pid == 1 then Some(false)
    else match probe(pid)
      case Signalled => Some(true)
      case NoSuchProcess => Some(false)
      case KillFailed => None
  }

  /** An exception that leaves `handle_port_request`. */
  datatype HandlerError =
    | KillError                    // raised by `os.kill` inside `_should_allocate_port`
    | PoolFailure(error: PP.PoolError) // the pool's RuntimeError

  /** What `handle_port_request` gives back. */
  datatype Response =
    | NoResponse               // returns None: unparsable request or denied pid
    | EmptyReply               // returns '': no port could be allocated
    | Reply(bytes: string)     // the port in decimal followed by '\n'
    | Raised(error: HandlerError) // an exception propagates

  /** The handler's three counters. */
  datatype Stats = Stats(totalAllocations: nat, deniedAllocations: nat, clientRequestErrors: nat)

  function CounterSum(s: Stats): nat
  {
    s.totalAllocations + s.deniedAllocations + s.clientRequestErrors
  }

  /** The outcome of one request: the response and the new pool and counter state. */
  datatype Handled = Handled(response: Response, queue: seq<PP.PortInfo>, portsChecked: int, stats: Stats)

  /**
   * One request, on values: the queue and counter of the pool and the
   * handler's counters before the request, and what they become.
   */
  function HandleRequest(queue: seq<PP.PortInfo>, portsChecked: int, stats: Stats, clientData: string,
                         probe: int -> KillProbe, isFree: int -> bool, startTimeOf: int -> int): (h: Handled)
    // a raised error leaves the counters and the pool alone; any other request moves exactly one counter up by one
    ensures h.response.Raised? ==> h.stats == stats && h.queue == queue && h.portsChecked == portsChecked
    ensures !h.response.Raised? ==>
      && CounterSum(h.stats) == CounterSum(stats) + 1
      && h.stats.totalAllocations >= stats.totalAllocations
      && h.stats.deniedAllocations >= stats.deniedAllocations
      && h.stats.clientRequestErrors >= stats.clientRequestErrors
    ensures h.stats.clientRequestErrors == stats.clientRequestErrors + 1 <==> ParseInt(clientData).None?
    ensures h.stats.totalAllocations == stats.totalAllocations + 1 <==> h.response.Reply?
    // ... the two exceptions: os.kill failing otherwise than for a missing process, and an empty pool
    ensures h.response == Raised(KillError) <==>
      ParseInt(clientData).Some? && ShouldAllocatePort(ParseInt(clientData).value, probe).None?
    ensures h.response == Raised(PoolFailure(PP.NoPortsManaged)) <==>
      ParseInt(clientData).Some? && ShouldAllocatePort(ParseInt(clientData).value, probe) == Some(true) && queue == []
    ensures h.response.Raised? ==> h.response == Raised(KillError) || h.response == Raised(PoolFailure(PP.NoPortsManaged))
    // ... and the pool is only consulted for an acceptable pid
    ensures ParseInt(clientData).None? || ShouldAllocatePort(ParseInt(clientData).value, probe) == Some(false) ==>
      h.response == NoResponse && h.queue == queue && h.portsChecked == portsChecked
  {
    match ParseInt(clientData)
    case None =>
      Handled(NoResponse, queue, portsChecked, stats.(clientRequestErrors := stats.clientRequestErrors + 1))
    case Some(pid) =>
      match ShouldAllocatePort(pid, probe)
      case None => Handled(Raised(KillError), queue, portsChecked, stats)
      case Some(false) =>
        Handled(NoResponse, queue, portsChecked, stats.(deniedAllocations := stats.deniedAllocations + 1))
      case Some(true) =>
        if |queue| == 0 then
          Handled(Raised(PoolFailure(PP.NoPortsManaged)), queue, portsChecked, stats)
        else
          var s := PP.ScanQueue(queue, pid, isFree, startTimeOf);
          if s.port > 0 then
            Handled(Reply(NatToDecimal(s.port) + "\n"), s.entries, s.checked,
                    stats.(totalAllocations := stats.totalAllocations + 1))
          else
            Handled(EmptyReply, s.entries, s.checked, stats.(deniedAllocations := stats.deniedAllocations + 1))
  }

  /**
   * A reply reads back, with `int()`, as a valid port that the requester
   * now owns at the front of the queue, and its record was the first
   * candidate that could be handed out.
   */
  lemma ReplyIsAllocatedPort(queue: seq<PP.PortInfo>, portsChecked: int, stats: Stats, clientData: string,
                             probe: int -> KillProbe, isFree: int -> bool, startTimeOf: int -> int)
    requires PP.PortsInRange(queue)
    ensures var h := HandleRequest(queue, portsChecked, stats, clientData, probe, isFree, startTimeOf);
      h.response.Reply? ==>
        && |queue| > 0 && ParseInt(clientData).Some? && ParseInt(clientData).value > 1
        && var pid := ParseInt(clientData).value;
           var s := PP.ScanQueue(queue, pid, isFree, startTimeOf);
           && ParseInt(h.response.bytes) == Some(s.port)
           && PortRanges.MinPort <= s.port <= PortRanges.MaxPort
           && queue[|queue| - s.checked].port == s.port
           && PP.Allocatable(queue[|queue| - s.checked], isFree, startTimeOf)
           && h.queue[0] == PP.PortInfo(s.port, pid, startTimeOf(pid))
  {
    var h := HandleRequest(queue, portsChecked, stats, clientData, probe, isFree, startTimeOf);
    if h.response.Reply? {
      var pid := ParseInt(clientData).value;
      var s := PP.ScanQueue(queue, pid, isFree, startTimeOf);
      PP.ScanSuccess(queue, pid, isFree, startTimeOf);
      ParseIntOfDecimalLine(s.port);
    }
  }

  /** An empty reply is given exactly when an acceptable request finds nothing to hand out; the queue is then as before. */
  lemma EmptyReplyWhenNoneAllocatable(queue: seq<PP.PortInfo>, portsChecked: int, stats: Stats, clientData: string,
                                      probe: int -> KillProbe, isFree: int -> bool, startTimeOf: int -> int)
    requires PP.PortsInRange(queue)
    ensures var h := HandleRequest(queue, portsChecked, stats, clientData, probe, isFree, startTimeOf);
      h.response == EmptyReply <==>
        && ParseInt(clientData).Some? && ShouldAllocatePort(ParseInt(clientData).value, probe) == Some(true)
        && |queue| > 0
        && forall i :: 0 <= i < |queue| ==> !PP.Allocatable(queue[i], isFree, startTimeOf)
    ensures var h := HandleRequest(queue, portsChecked, stats, clientData, probe, isFree, startTimeOf);
      h.response == EmptyReply ==> h.queue == queue && h.portsChecked == |queue|
  {
    if ParseInt(clientData).Some? && |queue| > 0 {
      PP.ScanFailure(queue, ParseInt(clientData).value, isFree, startTimeOf);
    }
  }

  /** No request adds, drops or changes a managed port number; ports stay in [1, 65535]. */
  lemma RequestKeepsPorts(queue: seq<PP.PortInfo>, portsChecked: int, stats: Stats, clientData: string,
                          probe: int -> KillProbe, isFree: int -> bool, startTimeOf: int -> int)
    requires PP.PortsInRange(queue)
    ensures var h := HandleRequest(queue, portsChecked, stats, clientData, probe, isFree, startTimeOf);
      multiset(PP.Ports(h.queue)) == multiset(PP.Ports(queue)) && PP.PortsInRange(h.queue)
  {
    if ParseInt(clientData).Some? && |queue| > 0 {
      PP.ScanKeepsPorts(queue, ParseInt(clientData).value, isFree, startTimeOf);
    }
  }

  /** The queue records for freshly added ports: no owner, no start time. */
  function Unowned(ports: seq<int>): (q: seq<PP.PortInfo>)
    ensures |q| == |ports|
    ensures forall i :: 0 <= i < |ports| ==> q[i] == PP.PortInfo(ports[i], 0, 0)
  {
    seq(|ports|, i requires 0 <= i < |ports| => PP.PortInfo(ports[i], 0, 0))
  }

  predicate InPortRange(port: int)
  {
    PortRanges.MinPort <= port <= PortRanges.MaxPort
  }

  /** `_PortServerRequestHandler`. */
  class PortServerRequestHandler {
    const pool: PP.PortPool
    var totalAllocations: nat
    var deniedAllocations: nat
    var clientRequestErrors: nat

    ghost predicate Valid()
      reads this, pool
    {
      pool.Valid()
    }

    function Counters(): Stats
      reads this
    {
      Stats(totalAllocations, deniedAllocations, clientRequestErrors)
    }

    /** A handler over an empty pool with all counters at zero. */
    constructor ()
      ensures Valid() && fresh(pool)
      ensures pool.queue == [] && pool.portsCheckedForLastRequest == 0
      ensures Counters() == Stats(0, 0, 0)
    {
      pool := new PP.PortPool();
      totalAllocations := 0;
      deniedAllocations := 0;
      clientRequestErrors := 0;
    }

    /**
     * `__init__`: a handler whose pool holds the given ports, in order, or
     * the ValueError of the first port outside [1, 65535].
     */
    static method Create(portsToServe: seq<int>) returns (r: Result<PortServerRequestHandler, PP.PoolError>)
      ensures r.Ok? <==> forall i :: 0 <= i < |portsToServe| ==> InPortRange(portsToServe[i])
      ensures r.Ok? ==>
        && fresh(r.value) && fresh(r.value.pool) && r.value.Valid()
        && r.value.pool.queue == Unowned(portsToServe)
        && r.value.pool.portsCheckedForLastRequest == 0
        && r.value.Counters() == Stats(0, 0, 0)
      ensures r.Err? ==>
        exists i :: 0 <= i < |portsToServe| && !InPortRange(portsToServe[i])
          && (forall j :: 0 <= j < i ==> InPortRange(portsToServe[j]))
          && r.error == PP.PortOutOfRange(portsToServe[i])
    {
      var handler := new PortServerRequestHandler();
      for i := 0 to |portsToServe|
        invariant fresh(handler) && fresh(handler.pool) && handler.Valid()
        invariant handler.pool.queue == Unowned(portsToServe[..i])
        invariant handler.pool.portsCheckedForLastRequest == 0
        invariant handler.Counters() == Stats(0, 0, 0)
        invariant forall j :: 0 <= j < i ==> InPortRange(portsToServe[j])
      {
        var added := handler.pool.AddPortToFreePool(portsToServe[i]);
        if added.Fail? {
          return Err(added.error);
        }
        assert Unowned(portsToServe[..i + 1]) == Unowned(portsToServe[..i]) + [PP.PortInfo(portsToServe[i], 0, 0)];
      }
      assert portsToServe[..|portsToServe|] == portsToServe;
      r := Ok(handler);
    }

    /**
     * `handle_port_request`: parse the pid, deny invalid or absent
     * processes, otherwise allocate from the pool and reply with the port.
     */
    method HandlePortRequest(clientData: string, probe: int -> KillProbe, isFree: int -> bool,
                             startTimeOf: int -> int) returns (response: Response)
      requires Valid()
      modifies this, pool
      ensures Valid()
      ensures var h := HandleRequest(old(pool.queue), old(pool.portsCheckedForLastRequest), old(Counters()),
                                     clientData, probe, isFree, startTimeOf);
        && response == h.response
        && pool.queue == h.queue
        && pool.portsCheckedForLastRequest == h.portsChecked
        && Counters() == h.stats
    {
      var parsed := ParseInt(clientData);
      if parsed.None? {
        clientRequestErrors := clientRequestErrors + 1;
        return NoResponse;
      }
      var pid := parsed.value;
      var allocate := ShouldAllocatePort(pid, probe);
      if allocate.None? {
        return Raised(KillError);
      }
      if !allocate.value {
        deniedAllocations := deniedAllocations + 1;
        return NoResponse;
      }
      var outcome := pool.GetPortForProcess(pid, isFree, startTimeOf);
      if outcome.Err? {
        return Raised(PoolFailure(outcome.error));
      }
      var port := outcome.value;
      if port > 0 {
        totalAllocations := totalAllocations + 1;
        return Reply(NatToDecimal(port) + "\n");
      }
      deniedAllocations := deniedAllocations + 1;
      response := EmptyReply;
    }
  }
}
