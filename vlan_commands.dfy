/**
 * orca_nw_lib/vlan.py above the mapper: discovery of one device's VLANs into
 * the store, the VLAN commands that always rediscover in `finally`, and the
 * member read `get_vlan_members`.
 */
module VlanCommands {
  import opened Wrappers
  import opened RawData
  import opened Vlan
  import opened VlanDb
  import opened InterfaceDb
  import opened Store

  /**
   * `discover_vlan` for one stored device, on values: the snapshot is built
   * from the fetched details, then reconciled into the device's VLANs. A
   * fetch or mapper exception escapes before the store is touched.
   */
  function Discovered(
    dv: DeviceVlans,
    ifnames: set<string>,
    fetched: Result<RawVlanDetails, Error>,
    ipFetch: Option<Value> -> Result<RawIpDetails, Error>,
    disableToken: string): (r: Partial)
    ensures r.err.None? ==> fetched.Ok? && VlanSnapshot(fetched.value, ipFetch, disableToken).Ok?
    ensures fetched.Err? ==> r == Partial(dv, Some(fetched.error))
    ensures fetched.Ok? && VlanSnapshot(fetched.value, ipFetch, disableToken).Err? ==>
      r == Partial(dv, Some(VlanSnapshot(fetched.value, ipFetch, disableToken).error))
  {
    if fetched.Err? then Partial(dv, Some(fetched.error))
    else
      match VlanSnapshot(fetched.value, ipFetch, disableToken)
      case Err(e) => Partial(dv, Some(e))
      case Ok(entries) => VlanDb.InsertVlans(dv, entries, ifnames)
  }

  /** The VLAN_LIST names of a fetched snapshot. */
  function ListedNames(details: RawVlanDetails): set<Option<Value>> {
    set k | 0 <= k < |OrEmpty(details.vlans)| :: OrEmpty(details.vlans)[k].name
  }

  /** The VLAN_LIST entries carry pairwise distinct names, as the device's keyed list does. */
  predicate DistinctListed(details: RawVlanDetails) {
    forall i, j :: 0 <= i < j < |OrEmpty(details.vlans)| ==> OrEmpty(details.vlans)[i].name != OrEmpty(details.vlans)[j].name
  }

  /**
   * `discover_vlan(device_ip)`: the device lookup is `device` (null when it is
   * not stored, whose `mgt_ip` then raises), `fetched` the VLAN details the
   * device returns, `ipFetch` its IPv4 details per VLAN name.
   */
  method DiscoverVlan(
    device: Device?,
    fetched: Result<RawVlanDetails, Error>,
    ipFetch: Option<Value> -> Result<RawIpDetails, Error>,
    disableToken: string)
    returns (err: Option<Error>)
    modifies device
    requires device != null ==> device.Valid()
    ensures device == null ==> err == Some(NoneHasNoAttribute)
    ensures device != null ==> device.Valid() && device.interfaces == old(device.interfaces)
    ensures device != null ==>
      var p := Discovered(old(device.vlans), NameSet(device.interfaces), fetched, ipFetch, disableToken);
      device.vlans == p.dv && err == p.err
  {
    if device == null {
      return Some(NoneHasNoAttribute);
    }
    var snapshot := CreateVlanObjects(fetched, ipFetch, disableToken);
    if snapshot.Err? {
      return Some(snapshot.error);
    }
    err := device.InsertVlans(snapshot.value);
  }

  /**
   * `del_vlan`, `config_vlan`, `add_vlan_mem` and `del_vlan_mem`: the device
   * call's outcome is `deviceError`; the rediscovery in `finally` runs
   * whether or not it raised. The call's exception is re-raised unless the
   * rediscovery raised one of its own, which replaces it.
   */
  method VlanCommand(
    device: Device?,
    deviceError: Option<Error>,
    fetched: Result<RawVlanDetails, Error>,
    ipFetch: Option<Value> -> Result<RawIpDetails, Error>,
    disableToken: string)
    returns (err: Option<Error>)
    modifies device
    requires device != null ==> device.Valid()
    ensures device == null ==> err == Some(NoneHasNoAttribute)
    ensures device != null ==> device.Valid() && device.interfaces == old(device.interfaces)
    ensures device != null ==>
      var p := Discovered(old(device.vlans), NameSet(device.interfaces), fetched, ipFetch, disableToken);
      device.vlans == p.dv && err == Reraise(deviceError, p.err)
  {
    var discoveryError := DiscoverVlan(device, fetched, ipFetch, disableToken);
    err := Reraise(deviceError, discoveryError);
  }

  /**
   * `get_vlan_members`: each member interface of the VLAN to its edge's
   * tagging_mode, one interface at a time; the VLAN is looked up again for
   * every member, which with an empty name gives the list of all VLANs.
   */
  method GetVlanMembers(device: Device?, name: Option<Value>) returns (r: Result<map<string, Option<Value>>, Error>)
    ensures r == VlanMembers(if device == null then None else Some(device.vlans), name)
  {
    var dv := if device == null then None else Some(device.vlans);
    var members := MemberInterfaces(dv, name);
    var pending := if members.None? then {} else members.value;
    var result := map[];
    while pending != {}
      invariant members.None? ==> pending == {} && result == map[]
      invariant members.Some? ==> pending <= members.value == PriorEdges(dv.value, name).Keys
      invariant members.Some? ==> result == map n | n in members.value - pending :: PriorEdges(dv.value, name)[n]
      invariant members.Some? && !Truthy(name) ==> pending == members.value
      decreases pending
    {
      if !Truthy(name) {
        return Err(ListHasNoAttribute);
      }
      var n :| n in pending;
      result := result[n := dv.value.edges[name][n]];
      pending := pending - {n};
    }
    if members.Some? && members.value == {} {
      assert result == map[];
    } else if members.Some? {
      assert result == PriorEdges(dv.value, name);
    }
    r := Ok(result);
  }

  /** A completed discovery leaves the device exactly the VLANs the VLAN_LIST names. */
  lemma DiscoveredNames(
    dv: DeviceVlans,
    ifnames: set<string>,
    fetched: Result<RawVlanDetails, Error>,
    ipFetch: Option<Value> -> Result<RawIpDetails, Error>,
    disableToken: string)
    requires WellFormed(dv)
    requires Discovered(dv, ifnames, fetched, ipFetch, disableToken).err.None?
    ensures fetched.Ok?
    ensures Discovered(dv, ifnames, fetched, ipFetch, disableToken).dv.nodes.Keys == ListedNames(fetched.value)
  {
    var entries := VlanSnapshot(fetched.value, ipFetch, disableToken).value;
    var list := OrEmpty(fetched.value.vlans);
    SnapshotEntries(fetched.value, ipFetch, disableToken);
    InsertedNames(dv, entries, ifnames);
    assert SnapshotNames(entries) == ListedNames(fetched.value) by {
      forall e | e in entries
        ensures e.vlan.name in ListedNames(fetched.value)
      {
        var k :| 0 <= k < |entries| && entries[k] == e;
        assert list[k].name == e.vlan.name;
      }
      forall k | 0 <= k < |list|
        ensures list[k].name in SnapshotNames(entries)
      {
        assert entries[k] in entries;
      }
    }
  }

  /**
   * Rediscovering a VLAN that is already stored refreshes vlanid, mtu and
   * the statuses, but keeps the stored ip_address, sag_ip_address and
   * autostate, whatever the device now reports for them; a VLAN that was not
   * stored is stored as the snapshot built it.
   */
  lemma RediscoveredVlan(
    dv: DeviceVlans,
    ifnames: set<string>,
    fetched: Result<RawVlanDetails, Error>,
    ipFetch: Option<Value> -> Result<RawIpDetails, Error>,
    disableToken: string,
    k: nat)
    requires WellFormed(dv)
    requires Discovered(dv, ifnames, fetched, ipFetch, disableToken).err.None?
    requires DistinctListed(fetched.value) && k < |OrEmpty(fetched.value.vlans)|
    ensures |VlanSnapshot(fetched.value, ipFetch, disableToken).value| == |OrEmpty(fetched.value.vlans)|
    ensures var name := OrEmpty(fetched.value.vlans)[k].name;
      var r := Discovered(dv, ifnames, fetched, ipFetch, disableToken).dv;
      var built := VlanSnapshot(fetched.value, ipFetch, disableToken).value[k].vlan;
      && name in r.nodes
      && (name in dv.nodes ==> r.nodes[name] == built.(ipAddress := dv.nodes[name].ipAddress,
                                                        sagIpAddress := dv.nodes[name].sagIpAddress,
                                                        autostate := dv.nodes[name].autostate))
      && (name !in dv.nodes ==> r.nodes[name] == built)
  {
    var entries := VlanSnapshot(fetched.value, ipFetch, disableToken).value;
    var list := OrEmpty(fetched.value.vlans);
    SnapshotEntries(fetched.value, ipFetch, disableToken);
    assert DistinctNames(entries) by {
      forall i, j | 0 <= i < j < |entries|
        ensures entries[i].vlan.name != entries[j].vlan.name
      {
        assert entries[i].vlan.name == list[i].name && entries[j].vlan.name == list[j].name;
      }
    }
    InsertedVlans(dv, entries, ifnames);
    assert entries[k].vlan.name == list[k].name;
  }
}
