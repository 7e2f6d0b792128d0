/**
 * A device node of the store and what hangs off it: its interfaces, in store
 * order, and its VLANs by name with their member edges. The methods are the
 * store operations of orca_nw_lib/vlan_db.py and orca_nw_lib/interface_db.py
 * for a device that is stored, each proved against the value-level
 * definitions in VlanDb and InterfaceDb (which also cover a device that is
 * not stored).
 */
module Store {
  import opened Wrappers
  import opened RawData
  import opened Vlan
  import opened VlanDb
  import opened InterfaceDb

  class Device {
    /** The device's interfaces, in store order. */
    var interfaces: seq<IfNode>
    /** The device's VLANs and their member edges. */
    var vlans: DeviceVlans

    /** Interface names are unique; VLANs are stored under their names. */
    ghost predicate Valid()
      reads this
    {
      UniqueNames(interfaces) && WellFormed(vlans)
    }

    /** A device with nothing under it. */
    constructor ()
      ensures Valid()
      ensures interfaces == [] && vlans == DeviceVlans(map[], map[])
    {
      interfaces := [];
      vlans := DeviceVlans(map[], map[]);
    }

    /**
     * `get_interface_of_device_from_db`: the interface with that name, or
     * None when it is not stored.
     */
    function GetInterface(name: Option<Value>): (r: Option<Interface>)
      reads this
      ensures r.Some? <==> Resolves(name, NameSet(interfaces))
      ensures r.Some? ==> Some(Str(r.value.name)) == name
    {
      if name.Some? && name.value.Str? then
        match FindByName(interfaces, name.value.s)
        case Some(j) => Some(interfaces[j].props)
        case None => None
      else None
    }

    /**
     * One pass of the upsert loop of `insert_vlan_in_db`: store the VLAN (an
     * existing one updated in place), then connect its member rows.
     */
    method UpsertVlan(e: VlanEntry) returns (err: Option<Error>)
      modifies this
      requires Valid()
      ensures Valid()
      ensures interfaces == old(interfaces)
      ensures vlans == UpsertEntry(old(vlans), e, NameSet(interfaces)).dv
      ensures err == UpsertEntry(old(vlans), e, NameSet(interfaces)).err
    {
      var dv := vlans;
      var name := e.vlan.name;
      UpsertEntryFrame(dv, e, NameSet(interfaces));
      if Truthy(name) {
        var node := if name in dv.nodes then CopyVlanProps(dv.nodes[name], e.vlan) else e.vlan;
        vlans := DeviceVlans(dv.nodes[name := node], dv.edges[name := PriorEdges(dv, name)]);
        err := ConnectVlanMembers(name, e.members);
        assert vlans.edges == dv.edges[name := vlans.edges[name]];
      } else if dv.nodes != map[] {
        err := Some(ListHasNoAttribute);
      } else {
        vlans := DeviceVlans(dv.nodes[name := e.vlan], dv.edges[name := map[]]);
        if e.members == [] {
          err := None;
        } else {
          var intf := GetInterface(e.members[0].ifname);
          err := if intf.Some? then Some(ListHasNoAttribute) else Some(NoneHasNoAttribute);
        }
      }
    }

    /**
     * The member loop of `insert_vlan_in_db`: each row's interface is looked
     * up and the edge to it saved with the row's tagging_mode, until a row
     * fails to resolve.
     */
    method ConnectVlanMembers(name: Option<Value>, members: seq<RawMember>) returns (err: Option<Error>)
      modifies this
      requires Valid() && name in vlans.nodes
      ensures Valid()
      ensures interfaces == old(interfaces)
      ensures var c := ConnectMembers(old(vlans).edges[name], members, NameSet(interfaces));
        vlans == DeviceVlans(old(vlans).nodes, old(vlans).edges[name := c.edges]) && err == c.err
    {
      var dv := vlans;
      ghost var ifnames := NameSet(interfaces);
      var edges := dv.edges[name];
      var current := edges;
      assert dv.edges[name := current] == dv.edges;
      var i := 0;
      while i < |members|
        invariant 0 <= i <= |members|
        invariant interfaces == old(interfaces)
        invariant ConnectMembers(edges, members[..i], ifnames) == Connected(current, None)
        invariant vlans == DeviceVlans(dv.nodes, dv.edges[name := current])
      {
        var m := members[i];
        assert members[..i + 1][..i] == members[..i];
        var intf := GetInterface(m.ifname);
        if intf.None? {
          // `mem_rel` is None here and setting its tagging_mode raises
          MemberFailurePersists(edges, members, ifnames, i + 1);
          return Some(NoneHasNoAttribute);
        }
        current := current[intf.value.name := m.taggingMode];
        vlans := DeviceVlans(dv.nodes, dv.edges[name := current]);
        i := i + 1;
      }
      assert members[..i] == members;
      err := None;
    }

    /**
     * `insert_vlan_in_db`: the upsert loop over the snapshot, stopping at the
     * first exception with what was written kept; then the prune loop over the
     * device's stored VLANs, deleting each one the snapshot does not name.
     */
    method InsertVlans(entries: seq<VlanEntry>) returns (err: Option<Error>)
      modifies this
      requires Valid()
      ensures Valid()
      ensures interfaces == old(interfaces)
      ensures vlans == VlanDb.InsertVlans(old(vlans), entries, NameSet(interfaces)).dv
      ensures err == VlanDb.InsertVlans(old(vlans), entries, NameSet(interfaces)).err
    {
      ghost var dv0 := vlans;
      ghost var ifnames := NameSet(interfaces);
      var i := 0;
      while i < |entries|
        invariant 0 <= i <= |entries|
        invariant Valid()
        invariant interfaces == old(interfaces)
        invariant UpsertAll(dv0, entries[..i], ifnames) == Partial(vlans, None)
      {
        assert entries[..i + 1][..i] == entries[..i];
        err := UpsertVlan(entries[i]);
        if err.Some? {
          UpsertFailurePersists(dv0, entries, ifnames, i + 1);
          return;
        }
        i := i + 1;
      }
      assert entries[..i] == entries;
      PruneVlans(set e | e in entries :: e.vlan.name);
      err := None;
    }

    /**
     * The prune loop of `insert_vlan_in_db`: every stored VLAN whose name is
     * not kept is deleted. The source tests whether the stored node is a key
     * of the snapshot dict, which rests on the graph library's node equality;
     * here the test is by name.
     */
    method PruneVlans(names: set<Option<Value>>)
      modifies this
      requires Valid()
      ensures Valid()
      ensures interfaces == old(interfaces)
      ensures vlans == Prune(old(vlans), names)
    {
      ghost var dv0 := vlans;
      var pending := vlans.nodes.Keys;
      PruneKeepsAll(dv0, names + pending);
      while pending != {}
        invariant Valid()
        invariant interfaces == old(interfaces)
        invariant vlans == Prune(dv0, names + pending)
        decreases pending
      {
        var name :| name in pending;
        if name !in names {
          PruneStep(dv0, names + pending, name);
          DelVlanFromDb(this, name);
          assert (names + pending) - {name} == names + (pending - {name});
        } else {
          assert names + pending == names + (pending - {name});
        }
        pending := pending - {name};
      }
      assert names + pending == names;
    }

    /**
     * `set_interface_config_in_db`: the named interface gets the given
     * arguments; nothing happens when it is not stored.
     */
    method SetInterfaceConfig(name: string, c: InterfaceConfig)
      modifies this
      requires Valid()
      ensures Valid()
      ensures vlans == old(vlans)
      ensures FindByName(old(interfaces), name).Some? ==>
        var j := FindByName(old(interfaces), name).value;
        interfaces == old(interfaces)[j := IfNode(ApplyConfig(old(interfaces)[j].props, c), old(interfaces)[j].subs)]
      ensures FindByName(old(interfaces), name).None? ==> interfaces == old(interfaces)
    {
      var found := FindByName(interfaces, name);
      if found.Some? {
        var j := found.value;
        var updated := interfaces[j := IfNode(ApplyConfig(interfaces[j].props, c), interfaces[j].subs)];
        assert forall k :: 0 <= k < |updated| ==> updated[k].props.name == interfaces[k].props.name;
        interfaces := updated;
      }
    }

    /**
     * `insert_device_interfaces_in_db`: each interface is updated in place
     * or added, and its sub-interfaces replaced by the given ones.
     */
    method InsertDeviceInterfaces(entries: seq<InterfaceEntry>)
      modifies this
      requires Valid()
      ensures Valid()
      ensures vlans == old(vlans)
      ensures interfaces == UpsertInterfaces(old(interfaces), entries)
    {
      var i := 0;
      while i < |entries|
        invariant 0 <= i <= |entries|
        invariant vlans == old(vlans)
        invariant interfaces == UpsertInterfaces(old(interfaces), entries[..i])
        invariant Valid()
      {
        assert entries[..i + 1][..i] == entries[..i];
        var e := entries[i];
        UpsertInterfaceShape(interfaces, e);
        var found := FindByName(interfaces, e.intf.name);
        if found.Some? {
          var j := found.value;
          interfaces := interfaces[j := IfNode(CopyIntfcProps(interfaces[j].props, e.intf), e.subs)];
        } else {
          interfaces := interfaces + [IfNode(e.intf, e.subs)];
        }
        i := i + 1;
      }
      assert entries[..i] == entries;
    }

    /**
     * `get_sub_interface_of_device_from_db`: walks the interfaces in order
     * and returns the first sub-interface with that ip_address.
     */
    method SubInterfaceOfDevice(ip: string) returns (r: Result<Option<SubInterface>, Error>)
      ensures r == SubInterfaceByIp(interfaces, ip)
    {
      var nodes := interfaces;
      var i := 0;
      while i < |nodes|
        invariant 0 <= i <= |nodes|
        invariant SubInterfaceByIp(nodes, ip) == SubInterfaceByIp(nodes[i..], ip)
      {
        var hits := SubsWithIp(nodes[i].subs, ip);
        if |hits| > 1 {
          return Err(MultipleNodes);
        }
        if |hits| == 1 {
          return Ok(Some(hits[0]));
        }
        assert nodes[i..][1..] == nodes[i + 1..];
        i := i + 1;
      }
      r := Ok(None);
    }
  }

  /**
   * `del_vlan_from_db`: deletes that VLAN of the device with its edges;
   * nothing when the device (null here) or the VLAN is not stored.
   */
  method DelVlanFromDb(device: Device?, name: Option<Value>)
    modifies device
    requires device != null ==> device.Valid()
    ensures device != null ==> device.Valid() && device.interfaces == old(device.interfaces)
    ensures device != null ==> device.vlans == DeleteVlan(old(device.vlans), name)
  {
    if device != null {
      DeleteVlanOnlyThat(device.vlans, name);
      if name in device.vlans.nodes {
        device.vlans := DeviceVlans(device.vlans.nodes - {name}, device.vlans.edges - {name});
      }
    }
  }

  /** Once a member row fails to resolve, the rest of the member loop is skipped. */
  lemma {:induction false} MemberFailurePersists(edges: map<string, Option<Value>>, members: seq<RawMember>, ifnames: set<string>, i: nat)
    requires i <= |members|
    requires ConnectMembers(edges, members[..i], ifnames).err.Some?
    ensures ConnectMembers(edges, members, ifnames) == ConnectMembers(edges, members[..i], ifnames)
    decreases |members| - i
  {
    if i < |members| {
      assert members[..i + 1][..i] == members[..i];
      MemberFailurePersists(edges, members, ifnames, i + 1);
    } else {
      assert members[..i] == members;
    }
  }

  /** Once an upsert raises, the rest of the upsert loop and the prune are skipped. */
  lemma {:induction false} UpsertFailurePersists(dv: DeviceVlans, entries: seq<VlanEntry>, ifnames: set<string>, i: nat)
    requires i <= |entries|
    requires UpsertAll(dv, entries[..i], ifnames).err.Some?
    ensures UpsertAll(dv, entries, ifnames) == UpsertAll(dv, entries[..i], ifnames)
    ensures VlanDb.InsertVlans(dv, entries, ifnames) == UpsertAll(dv, entries[..i], ifnames)
    decreases |entries| - i
  {
    if i < |entries| {
      assert entries[..i + 1][..i] == entries[..i];
      UpsertFailurePersists(dv, entries, ifnames, i + 1);
    } else {
      assert entries[..i] == entries;
    }
  }
}
