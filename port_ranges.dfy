/**
 * The port server's `--portserver_static_pool` parser: a comma separated
 * list of inclusive `N-P` ranges becomes a set of port numbers; items that
 * do not parse or reach outside [1, 65535] are skipped.
 */
module PortRanges {
  import opened Common

  const MinPort := 1
  const MaxPort := 65535

  /** How one comma separated item is treated. */
  datatype RangeItem =
    | Unparsable                            // no '-', or either side is not an integer
    | OutOfBounds(start: int, end: int)     // start < 1 or end > 65535
    | Range(start: int, end: int)           // contributes start..end inclusive

  /** One item, split on its first '-' and range-checked. */
  function ClassifyRange(rangeStr: string): (r: RangeItem)
    ensures r.Range? ==> MinPort <= r.start && r.end <= MaxPort
    ensures r.OutOfBounds? ==> r.start < MinPort || r.end > MaxPort
    ensures r.Unparsable? <==> '-' !in rangeStr || ParseInt(SplitOnce(rangeStr, '-').value.0).None?
                                                 || ParseInt(SplitOnce(rangeStr, '-').value.1).None?
    ensures !r.Unparsable? ==>
      && r.start == ParseInt(SplitOnce(rangeStr, '-').value.0).value
      && r.end == ParseInt(SplitOnce(rangeStr, '-').value.1).value
    ensures !r.Unparsable? ==> (r.Range? <==> MinPort <= r.start && r.end <= MaxPort)
  {
    match SplitOnce(rangeStr, '-')
    case None => Unparsable
    case Some((a, b)) =>
      match (ParseInt(a), ParseInt(b))
      case (Some(start), Some(end)) =>
        if start < MinPort || end > MaxPort then OutOfBounds(start, end) else Range(start, end)
      case _ => Unparsable
  }

  /** Python `set(range(start, end + 1))`. */
  function InclusiveRange(start: int, end: int): (r: set<int>)
    ensures forall p :: p in r <==> start <= p <= end
    decreases end - start
  {
    if start > end then {} else InclusiveRange(start, end - 1) + {end}
  }

  /** The ports one item contributes: `range(start, end + 1)`, empty when start > end. */
  function ItemPorts(rangeStr: string): set<int>
  {
    match ClassifyRange(rangeStr)
    case Range(start, end) => InclusiveRange(start, end)
    case _ => {}
  }

  /** The union of the items' contributions, in the order the loop takes them. */
  function UnionPorts(items: seq<string>): set<int>
    decreases |items|
  {
    if items == [] then {} else UnionPorts(items[..|items| - 1]) + ItemPorts(items[|items| - 1])
  }

  /** `_parse_port_ranges`: the loop over the comma separated items. */
  method ParsePortRanges(poolStr: string) returns (ports: set<int>)
    ensures ports == UnionPorts(Split(poolStr, ','))
    ensures forall p :: p in ports ==> MinPort <= p <= MaxPort
  {
    ports := {};
    var items := Split(poolStr, ',');
    for i := 0 to |items|
      invariant ports == UnionPorts(items[..i])
    {
      UnionPortsStep(items, i);
      match ClassifyRange(items[i]) {
        case Range(start, end) =>
          ports := ports + InclusiveRange(start, end);
        case _ =>
      }
    }
    assert items[..|items|] == items;
    ParsedPortsInBounds(poolStr);
  }

  /** One more item adds its own contribution to the union. */
  lemma UnionPortsStep(items: seq<string>, i: nat)
    requires i < |items|
    ensures UnionPorts(items[..i + 1]) == UnionPorts(items[..i]) + ItemPorts(items[i])
  {
    assert items[..i + 1][..i] == items[..i];
  }

  /** A port is in the union exactly when some well-formed, in-bounds item's range covers it. */
  lemma {:induction false} UnionPortsMembership(items: seq<string>, p: int)
    ensures p in UnionPorts(items) <==>
      exists i :: 0 <= i < |items| && ClassifyRange(items[i]).Range?
                  && ClassifyRange(items[i]).start <= p <= ClassifyRange(items[i]).end
    decreases |items|
  {
    if items != [] {
      var init := items[..|items| - 1];
      UnionPortsMembership(init, p);
      if p in UnionPorts(items) {
        if p in UnionPorts(init) {
          var i :| 0 <= i < |init| && ClassifyRange(init[i]).Range?
                   && ClassifyRange(init[i]).start <= p <= ClassifyRange(init[i]).end;
          assert items[i] == init[i];
        } else {
          assert ClassifyRange(items[|items| - 1]).Range?;
        }
      } else {
        forall i | 0 <= i < |items| && ClassifyRange(items[i]).Range?
          ensures !(ClassifyRange(items[i]).start <= p <= ClassifyRange(items[i]).end)
        {
          if i < |items| - 1 {
            assert items[i] == init[i];
          }
        }
      }
    }
  }

  /** Every port the parser returns is a valid port number. */
  lemma ParsedPortsInBounds(poolStr: string)
    ensures forall p :: p in UnionPorts(Split(poolStr, ',')) ==> MinPort <= p <= MaxPort
  {
    forall p | p in UnionPorts(Split(poolStr, ','))
      ensures MinPort <= p <= MaxPort
    {
      UnionPortsMembership(Split(poolStr, ','), p);
    }
  }
}
