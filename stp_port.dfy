/**
 * orca_nw_lib/stp_port.py: the raw spanning-tree interface list of a device
 * mapped to STP_PORT records, and the store read that shapes them for callers.
 */
module StpPort {
  import opened Wrappers
  import opened RawData

  /**
   * The `config` container of one `openconfig-spanning-tree:interface` element.
   * An element without `config` reads as a config in which every key is absent.
   */
  datatype RawStpConfig = RawStpConfig(
    edgePort: Option<Value>,
    linkType: Option<Value>,
    guard: Option<Value>,
    bpduFilter: Option<Value>,
    bpduGuard: Option<Value>,
    bpduGuardPortShutdown: Option<Value>,
    portfast: Option<Value>,
    uplinkFast: Option<Value>,
    cost: Option<Value>,
    portPriority: Option<Value>,
    stpEnabled: Option<Value>)

  datatype RawStpPort = RawStpPort(name: Option<Value>, config: RawStpConfig)

  /** The STP_PORT node as the mapper builds it. */
  datatype StpPort = StpPort(
    ifName: Option<Value>,
    edgePort: Option<Value>,
    linkType: Option<Value>,
    guard: Option<Value>,
    bpduFilter: Option<Value>,
    bpduGuard: Option<Value>,
    bpduGuardPortShutdown: Option<Value>,
    portfast: Option<Value>,
    uplinkFast: Option<Value>,
    cost: Option<Value>,
    portPriority: Option<Value>,
    stpEnabled: Option<Value>)

  /** One mapped port with its member list (always the one shared, empty list). */
  datatype StpPortEntry = StpPortEntry(port: StpPort, members: seq<string>)

  /**
   * The record one loop iteration builds; `edgePortStr` stands for the
   * edge-port converter of common.py, which is not part of this model.
   */
  function StpRecord(p: RawStpPort, edgePortStr: Value -> Value): StpPort {
    var c := p.config;
    StpPort(
      p.name,
      if Truthy(c.edgePort) then Some(edgePortStr(c.edgePort.value)) else None,
      if Truthy(c.linkType) then c.linkType else None,
      if Truthy(c.guard) then c.guard else None,
      c.bpduFilter,
      c.bpduGuard,
      c.bpduGuardPortShutdown,
      c.portfast,
      c.uplinkFast,
      c.cost,
      c.portPriority,
      c.stpEnabled)
  }

  /**
   * `edge_port`, `link_type` and `guard` are None whenever the raw value is
   * falsy; otherwise `edge_port` is converted and the other two are copied.
   * The nine other fields are copied as they are, None when absent.
   */
  lemma StpRecordFields(p: RawStpPort, edgePortStr: Value -> Value)
    ensures var r, c := StpRecord(p, edgePortStr), p.config;
      && r.ifName == p.name
      && (Truthy(c.edgePort) <==> r.edgePort.Some?)
      && (r.edgePort.Some? ==> r.edgePort.value == edgePortStr(c.edgePort.value))
      && (Truthy(c.linkType) ==> r.linkType == c.linkType) && (!Truthy(c.linkType) ==> r.linkType == None)
      && (Truthy(c.guard) ==> r.guard == c.guard) && (!Truthy(c.guard) ==> r.guard == None)
      && r.bpduFilter == c.bpduFilter && r.bpduGuard == c.bpduGuard
      && r.bpduGuardPortShutdown == c.bpduGuardPortShutdown && r.portfast == c.portfast
      && r.uplinkFast == c.uplinkFast && r.cost == c.cost && r.portPriority == c.portPriority
      && r.stpEnabled == c.stpEnabled
  {
  }

  /**
   * `_create_stp_port_graph_object`: when the fetch raises, no records and no
   * error; otherwise one record per element, in order, each with an empty
   * member list. A missing interface list yields no records.
   */
  method CreateStpPortObjects(fetched: Result<Option<seq<RawStpPort>>, Error>, edgePortStr: Value -> Value)
    returns (entries: seq<StpPortEntry>)
    ensures fetched.Err? ==> entries == []
    ensures fetched.Ok? ==> |entries| == |OrEmpty(fetched.value)|
    ensures fetched.Ok? ==> forall k :: 0 <= k < |entries| ==>
      entries[k] == StpPortEntry(StpRecord(OrEmpty(fetched.value)[k], edgePortStr), [])
  {
    entries := [];
    if fetched.Err? {
      return;
    }
    var members: seq<string> := [];
    var ports := OrEmpty(fetched.value);
    var i := 0;
    while i < |ports|
      invariant 0 <= i <= |ports|
      invariant |entries| == i
      invariant forall k :: 0 <= k < i ==> entries[k] == StpPortEntry(StpRecord(ports[k], edgePortStr), members)
    {
      entries := entries + [StpPortEntry(StpRecord(ports[i], edgePortStr), members)];
      i := i + 1;
    }
  }

  /** What the STP store query returns: nothing, one node, or a list of nodes. */
  datatype StpStoreReply = NoPort | OnePort(port: StpPort) | PortList(ports: seq<StpPort>)

  datatype StpReply = OneView(port: StpPort) | ListView(ports: seq<StpPort>)

  /**
   * `get_stp_port_members`: None when the store's answer is falsy (nothing, or
   * an empty list), the properties of every node for a list, and the one node's
   * properties otherwise.
   */
  function StpPortMembers(stored: StpStoreReply): (r: Option<StpReply>)
    ensures r.None? <==> stored.NoPort? || stored == PortList([])
    ensures stored.PortList? && stored.ports != [] ==> r == Some(ListView(stored.ports))
    ensures stored.OnePort? ==> r == Some(OneView(stored.port))
  {
    match stored
    case NoPort => None
    case OnePort(p) => Some(OneView(p))
    case PortList(ps) => if ps == [] then None else Some(ListView(ps))
  }
}
