/**
 * The port server's pool: a rotating queue of port assignments. A request
 * examines at most one full turn of the queue, moving each candidate from
 * the back to the front, and hands out the first port whose previous owner
 * is gone (or that never had one) and that the operating system reports
 * free.
 *
 * The operating system is not modelled: whether a port can be bound
 * (`isFree`) and the start time of a process as read from /proc
 * (`startTimeOf`, 0 when unreadable) are parameters of the request.
 */
module PortPool {
  import opened Common
  import PortRanges

  /**
   * `_PortInfo`: port number, owning pid (0 if unassigned) and the owner's
   * start time. The pool alone holds these records, so they are values here
   * and an owner update replaces the record in the queue.
   */
  datatype PortInfo = PortInfo(port: int, pid: int, startTime: int)

  datatype PoolError =
    | NoPortsManaged          // RuntimeError('No ports being managed.')
    | PortOutOfRange(port: int) // ValueError('Port must be in the [1, 65535] range, ...')

  // ---------------------------------------------------------------------
  // Specification on values
  // ---------------------------------------------------------------------

  /** The queue after `k` moves of its last element to the front. */
  function RotateRight<T>(s: seq<T>, k: nat): (r: seq<T>)
    requires k <= |s|
    ensures |r| == |s|
    ensures forall i :: 0 <= i < k ==> r[i] == s[|s| - k + i]
    ensures forall i :: k <= i < |s| ==> r[i] == s[i - k]
  {
    s[|s| - k..] + s[..|s| - k]
  }

  /** The entry's previous owner is gone: it never had one, or the owner's start time changed. */
  predicate Reclaimable(e: PortInfo, startTimeOf: int -> int)
  {
    e.startTime == 0 || e.startTime != startTimeOf(e.pid)
  }

  predicate Allocatable(e: PortInfo, isFree: int -> bool, startTimeOf: int -> int)
  {
    Reclaimable(e, startTimeOf) && isFree(e.port)
  }

  /**
   * The number (1-based) of the first examined candidate that can be handed
   * out, starting with the `k`-th; `|q| + 1` when none of them can. The
   * `j`-th candidate examined is `q[|q| - j]`.
   */
  function FirstHit(q: seq<PortInfo>, isFree: int -> bool, startTimeOf: int -> int, k: nat): (c: nat)
    requires 1 <= k <= |q| + 1
    ensures k <= c <= |q| + 1
    ensures c <= |q| ==> Allocatable(q[|q| - c], isFree, startTimeOf)
    ensures forall i :: |q| - c < i <= |q| - k ==> !Allocatable(q[i], isFree, startTimeOf)
    decreases |q| + 1 - k
  {
    if k > |q| then k
    else if Allocatable(q[|q| - k], isFree, startTimeOf) then k
    else FirstHit(q, isFree, startTimeOf, k + 1)
  }

  /** What one `get_port_for_process` call on a non-empty queue leaves behind. */
  datatype Scan = Scan(entries: seq<PortInfo>, port: int, checked: nat)

  /** The specification of `get_port_for_process` on the queue's value. */
  function ScanQueue(q: seq<PortInfo>, pid: int, isFree: int -> bool, startTimeOf: int -> int): Scan
    requires |q| > 0
  {
    var c := FirstHit(q, isFree, startTimeOf, 1);
    if c <= |q| then
      var rotated := RotateRight(q, c);
      Scan(rotated[0 := rotated[0].(pid := pid, startTime := startTimeOf(pid))], q[|q| - c].port, c)
    else
      Scan(RotateRight(q, |q|), 0, |q|)
  }

  function Ports(q: seq<PortInfo>): (ps: seq<int>)
    ensures |ps| == |q| && forall i :: 0 <= i < |q| ==> ps[i] == q[i].port
  {
    seq(|q|, i requires 0 <= i < |q| => q[i].port)
  }

  predicate PortsInRange(q: seq<PortInfo>)
  {
    forall i :: 0 <= i < |q| ==> PortRanges.MinPort <= q[i].port <= PortRanges.MaxPort
  }

  ghost predicate NoneAllocatableFrom(q: seq<PortInfo>, from: int, isFree: int -> bool, startTimeOf: int -> int)
  {
    forall i :: 0 <= i < |q| && from <= i ==> !Allocatable(q[i], isFree, startTimeOf)
  }

  /** First-hit characterisation: no earlier candidate qualifies and the `c`-th does (or c is past the end). */
  lemma {:induction false} FirstHitIs(q: seq<PortInfo>, isFree: int -> bool, startTimeOf: int -> int, k: nat, c: nat)
    requires 1 <= k <= c <= |q| + 1
    requires forall i :: |q| - c < i <= |q| - k ==> !Allocatable(q[i], isFree, startTimeOf)
    requires c <= |q| ==> Allocatable(q[|q| - c], isFree, startTimeOf)
    ensures FirstHit(q, isFree, startTimeOf, k) == c
    decreases c - k
  {
    if k < c {
      FirstHitIs(q, isFree, startTimeOf, k + 1, c);
    }
  }

  /** The scan's value when the `c`-th candidate is the first that can be handed out. */
  lemma ScanHit(q: seq<PortInfo>, pid: int, isFree: int -> bool, startTimeOf: int -> int, c: nat)
    requires 1 <= c <= |q|
    requires NoneAllocatableFrom(q, |q| - c + 1, isFree, startTimeOf)
    requires Allocatable(q[|q| - c], isFree, startTimeOf)
    ensures var rotated := RotateRight(q, c);
      ScanQueue(q, pid, isFree, startTimeOf)
        == Scan(rotated[0 := rotated[0].(pid := pid, startTime := startTimeOf(pid))], q[|q| - c].port, c)
    ensures PortsInRange(q) ==> PortsInRange(ScanQueue(q, pid, isFree, startTimeOf).entries)
  {
    FirstHitIs(q, isFree, startTimeOf, 1, c);
    ScanKeepsPorts(q, pid, isFree, startTimeOf);
  }

  /** The scan's value when no candidate can be handed out. */
  lemma ScanMiss(q: seq<PortInfo>, pid: int, isFree: int -> bool, startTimeOf: int -> int)
    requires |q| > 0 && NoneAllocatableFrom(q, 0, isFree, startTimeOf)
    ensures ScanQueue(q, pid, isFree, startTimeOf) == Scan(q, 0, |q|)
  {
    FirstHitIs(q, isFree, startTimeOf, 1, |q| + 1);
    FullTurnRestoresOrder(q);
  }

  /** A full unsuccessful turn puts every entry back where it was. */
  lemma FullTurnRestoresOrder<T>(s: seq<T>)
    ensures RotateRight(s, |s|) == s
  {
    assert s[..0] == [];
  }

  /** One more move of the last element to the front. */
  lemma RotateStep<T>(s: seq<T>, k: nat)
    requires k < |s|
    ensures var r := RotateRight(s, k); [r[|r| - 1]] + r[..|r| - 1] == RotateRight(s, k + 1)
  {
    var r := RotateRight(s, k);
    var t := [r[|r| - 1]] + r[..|r| - 1];
    assert |t| == |s|;
    forall i | 0 <= i < |s| ensures t[i] == RotateRight(s, k + 1)[i] {
      if i > 0 {
        assert t[i] == r[i - 1];
      }
    }
  }

  lemma {:induction false} RotatePreservesPorts(q: seq<PortInfo>, k: nat)
    requires k <= |q|
    ensures multiset(Ports(RotateRight(q, k))) == multiset(Ports(q))
  {
    var n := |q|;
    var a, b := q[n - k..], q[..n - k];
    assert q == b + a;
    assert Ports(b + a) == Ports(b) + Ports(a);
    assert Ports(a + b) == Ports(a) + Ports(b);
  }

  /** A request keeps the queue's length and its multiset of ports and examines between 1 and |q| candidates. */
  lemma ScanKeepsPorts(q: seq<PortInfo>, pid: int, isFree: int -> bool, startTimeOf: int -> int)
    requires |q| > 0
    ensures var s := ScanQueue(q, pid, isFree, startTimeOf);
      && |s.entries| == |q|
      && multiset(Ports(s.entries)) == multiset(Ports(q))
      && 1 <= s.checked <= |q|
      && (PortsInRange(q) ==> PortsInRange(s.entries))
  {
    var s := ScanQueue(q, pid, isFree, startTimeOf);
    var c := FirstHit(q, isFree, startTimeOf, 1);
    if c <= |q| {
      RotatePreservesPorts(q, c);
      var rotated := RotateRight(q, c);
      assert Ports(s.entries) == Ports(rotated);
    } else {
      FullTurnRestoresOrder(q);
    }
    if PortsInRange(q) {
      forall i | 0 <= i < |s.entries|
        ensures PortRanges.MinPort <= s.entries[i].port <= PortRanges.MaxPort
      {
        assert Ports(s.entries)[i] in multiset(Ports(q));
        var j :| 0 <= j < |q| && Ports(q)[j] == s.entries[i].port;
      }
    }
  }

  /**
   * A request fails (returns 0) exactly when no entry can be handed out; it
   * then has examined every entry and left the queue exactly as it was, so
   * no owner changed.
   */
  lemma ScanFailure(q: seq<PortInfo>, pid: int, isFree: int -> bool, startTimeOf: int -> int)
    requires |q| > 0 && PortsInRange(q)
    ensures var s := ScanQueue(q, pid, isFree, startTimeOf);
      && (s.port == 0 <==> forall i :: 0 <= i < |q| ==> !Allocatable(q[i], isFree, startTimeOf))
      && (s.port == 0 ==> s.entries == q && s.checked == |q|)
  {
    var c := FirstHit(q, isFree, startTimeOf, 1);
    if c > |q| {
      FullTurnRestoresOrder(q);
    }
  }

  /**
   * On success the handed-out port belongs to an entry that could be handed
   * out, no candidate examined before it could, that entry is now at the
   * front owned by the requester, and every other entry is unchanged.
   */
  lemma ScanSuccess(q: seq<PortInfo>, pid: int, isFree: int -> bool, startTimeOf: int -> int)
    requires |q| > 0 && PortsInRange(q)
    requires ScanQueue(q, pid, isFree, startTimeOf).port != 0
    ensures var s := ScanQueue(q, pid, isFree, startTimeOf);
      var hit := |q| - s.checked;
      && 0 <= hit < |q|
      && q[hit].port == s.port
      && Allocatable(q[hit], isFree, startTimeOf)
      && (forall i :: hit < i < |q| ==> !Allocatable(q[i], isFree, startTimeOf))
      && s.entries[0] == PortInfo(s.port, pid, startTimeOf(pid))
      && (forall i :: 0 < i < |q| ==> s.entries[i] == RotateRight(q, s.checked)[i])
  {
  }

  // ---------------------------------------------------------------------
  // The pool object
  // ---------------------------------------------------------------------

  /** `_PortPool`. */
  class PortPool {
    /** The deque of `_PortInfo` records; allocation takes candidates from the right end. */
    var queue: seq<PortInfo>
    var portsCheckedForLastRequest: int

    ghost predicate Valid()
      reads this
    {
      PortsInRange(queue)
    }

    constructor ()
      ensures Valid() && queue == [] && portsCheckedForLastRequest == 0
    {
      queue := [];
      portsCheckedForLastRequest := 0;
    }

    /** `num_ports`, the `len()` of the queue: how many ports are managed, duplicates included. */
    function NumPorts(): (n: nat)
      reads this
      ensures n == |queue|
      ensures n == |multiset(Ports(queue))|
    {
      |queue|
    }

    /** `add_port_to_free_pool`: append an unowned record, or raise for a port outside [1, 65535]. */
    method AddPortToFreePool(port: int) returns (r: Outcome<PoolError>)
      requires Valid()
      modifies this
      ensures Valid() && portsCheckedForLastRequest == old(portsCheckedForLastRequest)
      ensures port < PortRanges.MinPort || port > PortRanges.MaxPort ==>
        r == Fail(PortOutOfRange(port)) && queue == old(queue)
      ensures PortRanges.MinPort <= port <= PortRanges.MaxPort ==>
        && r == Pass
        && NumPorts() == old(NumPorts()) + 1
        && queue == old(queue) + [PortInfo(port, 0, 0)]
    {
      if port < PortRanges.MinPort || port > PortRanges.MaxPort {
        return Fail(PortOutOfRange(port));
      }
      var portInfo := PortInfo(port, 0, 0);
      queue := queue + [portInfo];
      r := Pass;
    }

    /**
     * `get_port_for_process`: raise on an empty queue; otherwise move
     * candidates from the back to the front for at most one full turn, and
     * hand out the first one whose owner is gone and whose port is free,
     * recording the requester as its owner; 0 when there is none.
     */
    method GetPortForProcess(pid: int, isFree: int -> bool, startTimeOf: int -> int) returns (r: Result<int, PoolError>)
      requires Valid()
      modifies this
      ensures Valid()
      ensures old(|queue|) == 0 ==>
        r == Err(NoPortsManaged) && queue == old(queue)
        && portsCheckedForLastRequest == old(portsCheckedForLastRequest)
      ensures old(|queue|) > 0 ==>
        var s := ScanQueue(old(queue), pid, isFree, startTimeOf);
        r == Ok(s.port) && queue == s.entries && portsCheckedForLastRequest == s.checked
    {
      if |queue| == 0 {
        return Err(NoPortsManaged);
      }
      ghost var q0 := queue;
      var checkCount := 0;
      var maxPortsToTest := |queue|;
      while checkCount < maxPortsToTest
        invariant 0 <= checkCount <= maxPortsToTest == |q0|
        invariant queue == RotateRight(q0, checkCount)
        invariant NoneAllocatableFrom(q0, |q0| - checkCount, isFree, startTimeOf)
        invariant portsCheckedForLastRequest == old(portsCheckedForLastRequest)
        decreases maxPortsToTest - checkCount
      {
        RotateStep(q0, checkCount);
        var candidate := queue[|queue| - 1];
        assert candidate == q0[|q0| - 1 - checkCount];
        queue := [candidate] + queue[..|queue| - 1];
        checkCount := checkCount + 1;
        if candidate.startTime == 0 || candidate.startTime != startTimeOf(candidate.pid) {
          if isFree(candidate.port) {
            queue := queue[0 := candidate.(pid := pid, startTime := startTimeOf(pid))];
            portsCheckedForLastRequest := checkCount;
            ScanHit(q0, pid, isFree, startTimeOf, checkCount);
            return Ok(candidate.port);
          }
        }
        assert !Allocatable(q0[|q0| - checkCount], isFree, startTimeOf);
      }
      portsCheckedForLastRequest := checkCount;
      ScanMiss(q0, pid, isFree, startTimeOf);
      FullTurnRestoresOrder(q0);
      r := Ok(0);
    }
  }
}
