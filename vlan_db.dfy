/**
 * orca_nw_lib/vlan_db.py: how a device's VLAN snapshot is reconciled into the
 * store, stated on values. The store itself, which these functions specify,
 * is the class in store.dfy.
 */
module VlanDb {
  import opened Wrappers
  import opened RawData
  import opened Vlan

  /**
   * `copy_vlan_obj_prop`: vlanid, name, mtu, admin and oper status come from
   * the source; ip_address, sag_ip_address and autostate keep the target's.
   */
  function CopyVlanProps(target: Vlan, source: Vlan): (r: Vlan)
    ensures r.vlanid == source.vlanid && r.name == source.name && r.mtu == source.mtu
    ensures r.adminStatus == source.adminStatus && r.operStatus == source.operStatus
    ensures r.ipAddress == target.ipAddress && r.sagIpAddress == target.sagIpAddress && r.autostate == target.autostate
  {
    target.(vlanid := source.vlanid, name := source.name, mtu := source.mtu,
            adminStatus := source.adminStatus, operStatus := source.operStatus)
  }

  /**
   * Copying is a full replacement exactly when the two records already agree
   * on the three fields it leaves alone, and copying twice is copying once.
   */
  lemma CopyVlanPropsReplaces(target: Vlan, source: Vlan)
    ensures CopyVlanProps(target, source) == source <==>
      target.ipAddress == source.ipAddress && target.sagIpAddress == source.sagIpAddress && target.autostate == source.autostate
    ensures CopyVlanProps(CopyVlanProps(target, source), source) == CopyVlanProps(target, source)
  {
  }

  /**
   * The VLANs stored for one device, by name, and each one's member edges,
   * from interface name to the edge's tagging_mode.
   */
  datatype DeviceVlans = DeviceVlans(
    nodes: map<Option<Value>, Vlan>,
    edges: map<Option<Value>, map<string, Option<Value>>>)

  /** Every stored VLAN has an edge map and is stored under its own name. */
  predicate WellFormed(dv: DeviceVlans) {
    dv.nodes.Keys == dv.edges.Keys && forall n :: n in dv.nodes ==> dv.nodes[n].name == n
  }

  /** `getInterfaceOfDeviceFromDB` finds an interface for a member row's ifname. */
  predicate Resolves(ifname: Option<Value>, ifnames: set<string>) {
    ifname.Some? && ifname.value.Str? && ifname.value.s in ifnames
  }

  /** Every member row resolves to an interface of the device. */
  predicate MembersResolve(members: seq<RawMember>, ifnames: set<string>) {
    forall k :: 0 <= k < |members| ==> Resolves(members[k].ifname, ifnames)
  }

  /** The interface names the member rows resolve to. */
  function MemberNames(members: seq<RawMember>, ifnames: set<string>): set<string> {
    set m | m in members && Resolves(m.ifname, ifnames) :: m.ifname.value.s
  }

  /** Member row `i` is the last row naming its interface. */
  predicate LastNaming(members: seq<RawMember>, i: int)
    requires 0 <= i < |members|
  {
    forall j :: i < j < |members| ==> members[j].ifname != members[i].ifname
  }

  /** A store change that may stop part way: what was written, and the exception, if any. */
  datatype Connected = Connected(edges: map<string, Option<Value>>, err: Option<Error>)
  datatype Partial = Partial(dv: DeviceVlans, err: Option<Error>)

  /**
   * The member loop of `insert_vlan_in_db`: each row connects the VLAN to its
   * interface and saves the row's tagging_mode on the edge; the first row that
   * resolves to no interface leaves `mem_rel` None and raises there.
   */
  function ConnectMembers(edges: map<string, Option<Value>>, members: seq<RawMember>, ifnames: set<string>): Connected {
    if members == [] then Connected(edges, None)
    else
      var prev := ConnectMembers(edges, members[..|members| - 1], ifnames);
      var m := members[|members| - 1];
      if prev.err.Some? then prev
      else if Resolves(m.ifname, ifnames) then Connected(prev.edges[m.ifname.value.s := m.taggingMode], None)
      else Connected(prev.edges, Some(NoneHasNoAttribute))
  }

  /** The loop succeeds exactly when every row resolves; otherwise it raises on the None relationship. */
  lemma {:induction false} ConnectMembersOk(edges: map<string, Option<Value>>, members: seq<RawMember>, ifnames: set<string>)
    ensures var c := ConnectMembers(edges, members, ifnames);
      && (c.err.None? <==> MembersResolve(members, ifnames))
      && (c.err.Some? ==> c.err == Some(NoneHasNoAttribute))
  {
    if members != [] {
      var init := members[..|members| - 1];
      ConnectMembersOk(edges, init, ifnames);
      assert forall k :: 0 <= k < |init| ==> init[k] == members[k];
    }
  }

  /**
   * Whether or not the loop completes, it only adds edges to interfaces the
   * rows name; an edge to any other interface keeps its tagging_mode.
   */
  lemma {:induction false} ConnectMembersFrame(edges: map<string, Option<Value>>, members: seq<RawMember>, ifnames: set<string>)
    ensures var c := ConnectMembers(edges, members, ifnames);
      && c.edges.Keys <= edges.Keys + MemberNames(members, ifnames)
      && forall n :: n in edges && n !in MemberNames(members, ifnames) ==> n in c.edges && c.edges[n] == edges[n]
  {
    if members != [] {
      var init := members[..|members| - 1];
      ConnectMembersFrame(edges, init, ifnames);
      assert members == init + [members[|members| - 1]];
      assert MemberNames(init, ifnames) <= MemberNames(members, ifnames);
    }
  }

  /** After a complete loop the VLAN has an edge to exactly the interfaces it had and those the rows name. */
  lemma {:induction false} ConnectMembersKeys(edges: map<string, Option<Value>>, members: seq<RawMember>, ifnames: set<string>)
    requires ConnectMembers(edges, members, ifnames).err.None?
    ensures ConnectMembers(edges, members, ifnames).edges.Keys == edges.Keys + MemberNames(members, ifnames)
  {
    if members != [] {
      var init := members[..|members| - 1];
      var last := members[|members| - 1];
      var prev := ConnectMembers(edges, init, ifnames);
      assert prev.err.None? && Resolves(last.ifname, ifnames);
      assert ConnectMembers(edges, members, ifnames).edges.Keys == prev.edges.Keys + {last.ifname.value.s};
      ConnectMembersKeys(edges, init, ifnames);
      assert members == init + [last];
      MemberNamesSnoc(init, last, ifnames);
    }
  }

  /** One more resolving row adds its interface's name. */
  lemma MemberNamesSnoc(init: seq<RawMember>, last: RawMember, ifnames: set<string>)
    requires Resolves(last.ifname, ifnames)
    ensures MemberNames(init + [last], ifnames) == MemberNames(init, ifnames) + {last.ifname.value.s}
  {
    assert forall m :: m in init + [last] <==> m in init || m == last;
  }

  /**
   * After a complete loop the edge to each interface a row names carries the
   * tagging_mode of the last row that names it.
   */
  lemma {:induction false} ConnectMembersEdges(edges: map<string, Option<Value>>, members: seq<RawMember>, ifnames: set<string>)
    requires ConnectMembers(edges, members, ifnames).err.None?
    ensures var r := ConnectMembers(edges, members, ifnames).edges;
      forall k :: 0 <= k < |members| && Resolves(members[k].ifname, ifnames) && LastNaming(members, k) ==>
        members[k].ifname.value.s in r && r[members[k].ifname.value.s] == members[k].taggingMode
  {
    if members != [] {
      var init := members[..|members| - 1];
      var last := members[|members| - 1];
      assert ConnectMembers(edges, init, ifnames).err.None?;
      ConnectMembersEdges(edges, init, ifnames);
      forall k | 0 <= k < |init| && Resolves(members[k].ifname, ifnames) && LastNaming(members, k)
        ensures var r := ConnectMembers(edges, members, ifnames).edges;
          members[k].ifname.value.s in r && r[members[k].ifname.value.s] == members[k].taggingMode
      {
        assert init[k] == members[k];
        assert last.ifname != members[k].ifname;
        assert forall j :: k < j < |init| ==> init[j] == members[j];
        assert LastNaming(init, k);
      }
    }
  }

  /** The edges a VLAN of the given name already has. */
  function PriorEdges(dv: DeviceVlans, name: Option<Value>): map<string, Option<Value>> {
    if name in dv.edges then dv.edges[name] else map[]
  }

  /** The node a snapshot VLAN leaves in the store: the existing one updated in place, or itself. */
  function StoredNode(dv: DeviceVlans, e: VlanEntry): Vlan {
    if e.vlan.name in dv.nodes then CopyVlanProps(dv.nodes[e.vlan.name], e.vlan) else e.vlan
  }

  /**
   * One pass of the upsert loop. A truthy name upserts the VLAN and connects
   * its members. A falsy name makes `get_vlan_obj_from_db` return the list of
   * all the device's VLANs: if that list is non-empty, copying properties onto
   * it raises; if it is empty, the VLAN is saved and the list holding it is
   * then used as the VLAN, which raises at the first member row.
   */
  function UpsertEntry(dv: DeviceVlans, e: VlanEntry, ifnames: set<string>): Partial {
    var name := e.vlan.name;
    if Truthy(name) then
      var c := ConnectMembers(PriorEdges(dv, name), e.members, ifnames);
      Partial(DeviceVlans(dv.nodes[name := StoredNode(dv, e)], dv.edges[name := c.edges]), c.err)
    else if dv.nodes != map[] then Partial(dv, Some(ListHasNoAttribute))
    else
      var saved := DeviceVlans(dv.nodes[name := e.vlan], dv.edges[name := map[]]);
      if e.members == [] then Partial(saved, None)
      else if Resolves(e.members[0].ifname, ifnames) then Partial(saved, Some(ListHasNoAttribute))
      else Partial(saved, Some(NoneHasNoAttribute))
  }

  /** The upsert loop over the snapshot; what was written before an exception stays written. */
  function UpsertAll(dv: DeviceVlans, entries: seq<VlanEntry>, ifnames: set<string>): Partial {
    if entries == [] then Partial(dv, None)
    else
      var prev := UpsertAll(dv, entries[..|entries| - 1], ifnames);
      if prev.err.Some? then prev else UpsertEntry(prev.dv, entries[|entries| - 1], ifnames)
  }

  /** The names the snapshot holds. */
  function SnapshotNames(entries: seq<VlanEntry>): set<Option<Value>> {
    set e | e in entries :: e.vlan.name
  }

  /**
   * The prune loop: every stored VLAN whose name is not in the snapshot is
   * deleted with its edges. The source tests whether the stored node is a key
   * of the snapshot dict, which rests on the graph library's node equality;
   * here the test is by name.
   */
  function Prune(dv: DeviceVlans, keep: set<Option<Value>>): DeviceVlans {
    DeviceVlans(
      map n | n in dv.nodes && n in keep :: dv.nodes[n],
      map n | n in dv.edges && n in keep :: dv.edges[n])
  }

  /** `insert_vlan_in_db`: upsert every snapshot VLAN, then, if nothing raised, prune. */
  function InsertVlans(dv: DeviceVlans, entries: seq<VlanEntry>, ifnames: set<string>): Partial {
    var p := UpsertAll(dv, entries, ifnames);
    if p.err.Some? then p else Partial(Prune(p.dv, SnapshotNames(entries)), None)
  }

  /** `del_vlan_from_db` on a device's VLANs. */
  function DeleteVlan(dv: DeviceVlans, name: Option<Value>): DeviceVlans {
    DeviceVlans(dv.nodes - {name}, dv.edges - {name})
  }

  /** Deleting removes that VLAN and its edges, keeps every other one, and does nothing when it is absent. */
  lemma DeleteVlanOnlyThat(dv: DeviceVlans, name: Option<Value>)
    requires WellFormed(dv)
    ensures WellFormed(DeleteVlan(dv, name))
    ensures DeleteVlan(dv, name).nodes.Keys == dv.nodes.Keys - {name}
    ensures forall n :: n in dv.nodes && n != name ==>
      DeleteVlan(dv, name).nodes[n] == dv.nodes[n] && DeleteVlan(dv, name).edges[n] == dv.edges[n]
    ensures name !in dv.nodes ==> DeleteVlan(dv, name) == dv
  {
  }

  /** One upsert touches no VLAN but its own, and keeps the store well formed. */
  lemma UpsertEntryFrame(dv: DeviceVlans, e: VlanEntry, ifnames: set<string>)
    requires WellFormed(dv)
    ensures var p := UpsertEntry(dv, e, ifnames);
      && WellFormed(p.dv)
      && dv.nodes.Keys <= p.dv.nodes.Keys <= dv.nodes.Keys + {e.vlan.name}
      && (p.err.None? ==> e.vlan.name in p.dv.nodes)
      && forall n :: n in dv.nodes && n != e.vlan.name ==> p.dv.nodes[n] == dv.nodes[n] && p.dv.edges[n] == dv.edges[n]
  {
    var name := e.vlan.name;
    if Truthy(name) {
      var c := ConnectMembers(PriorEdges(dv, name), e.members, ifnames);
      assert UpsertEntry(dv, e, ifnames) == Partial(DeviceVlans(dv.nodes[name := StoredNode(dv, e)], dv.edges[name := c.edges]), c.err);
    } else if dv.nodes == map[] {
      assert UpsertEntry(dv, e, ifnames).dv == DeviceVlans(map[name := e.vlan], dv.edges[name := map[]]);
    }
  }

  /**
   * The upsert loop touches no VLAN outside the snapshot, never loses one, and
   * when it completes every snapshot name is stored.
   */
  lemma {:induction false} UpsertAllFrame(dv: DeviceVlans, entries: seq<VlanEntry>, ifnames: set<string>)
    requires WellFormed(dv)
    ensures var p := UpsertAll(dv, entries, ifnames);
      && WellFormed(p.dv)
      && dv.nodes.Keys <= p.dv.nodes.Keys <= dv.nodes.Keys + SnapshotNames(entries)
      && (p.err.None? ==> SnapshotNames(entries) <= p.dv.nodes.Keys)
      && forall n :: n in dv.nodes && n !in SnapshotNames(entries) ==>
           p.dv.nodes[n] == dv.nodes[n] && p.dv.edges[n] == dv.edges[n]
  {
    if entries != [] {
      var init := entries[..|entries| - 1];
      var last := entries[|entries| - 1];
      UpsertAllFrame(dv, init, ifnames);
      assert entries == init + [last];
      assert SnapshotNames(entries) == SnapshotNames(init) + {last.vlan.name};
      var prev := UpsertAll(dv, init, ifnames);
      if prev.err.None? {
        UpsertEntryFrame(prev.dv, last, ifnames);
      }
    }
  }

  /** After a completed insert the device holds exactly the snapshot's VLANs. */
  lemma InsertedNames(dv: DeviceVlans, entries: seq<VlanEntry>, ifnames: set<string>)
    requires WellFormed(dv)
    requires InsertVlans(dv, entries, ifnames).err.None?
    ensures WellFormed(InsertVlans(dv, entries, ifnames).dv)
    ensures InsertVlans(dv, entries, ifnames).dv.nodes.Keys == SnapshotNames(entries)
  {
    UpsertAllFrame(dv, entries, ifnames);
  }

  /** One upsert pass completes only if its member rows resolve; with a truthy name that is also enough. */
  lemma UpsertEntryCompletes(dv: DeviceVlans, e: VlanEntry, ifnames: set<string>)
    ensures UpsertEntry(dv, e, ifnames).err.None? ==> MembersResolve(e.members, ifnames)
    ensures Truthy(e.vlan.name) && MembersResolve(e.members, ifnames) ==> UpsertEntry(dv, e, ifnames).err.None?
  {
    if Truthy(e.vlan.name) {
      ConnectMembersOk(PriorEdges(dv, e.vlan.name), e.members, ifnames);
    }
  }

  /**
   * An insert completes only if every member row of every snapshot VLAN
   * resolves to an interface of the device; when every snapshot name is
   * truthy, that is also enough.
   */
  lemma {:induction false} InsertCompletesIffResolved(dv: DeviceVlans, entries: seq<VlanEntry>, ifnames: set<string>)
    ensures InsertVlans(dv, entries, ifnames).err.None? ==>
      forall k :: 0 <= k < |entries| ==> MembersResolve(entries[k].members, ifnames)
    ensures (forall k :: 0 <= k < |entries| ==> Truthy(entries[k].vlan.name) && MembersResolve(entries[k].members, ifnames)) ==>
      InsertVlans(dv, entries, ifnames).err.None?
  {
    if entries != [] {
      var init := entries[..|entries| - 1];
      var last := entries[|entries| - 1];
      var prev := UpsertAll(dv, init, ifnames);
      var p := UpsertAll(dv, entries, ifnames);
      assert InsertVlans(dv, entries, ifnames).err == p.err;
      assert InsertVlans(dv, init, ifnames).err == prev.err;
      assert p == if prev.err.Some? then prev else UpsertEntry(prev.dv, last, ifnames);
      InsertCompletesIffResolved(dv, init, ifnames);
      UpsertEntryCompletes(prev.dv, last, ifnames);
      assert forall k :: 0 <= k < |init| ==> init[k] == entries[k];
    }
  }

  /** Snapshot names are pairwise distinct, as a device's VLAN_LIST keys are. */
  predicate DistinctNames(entries: seq<VlanEntry>) {
    forall i, j :: 0 <= i < j < |entries| ==> entries[i].vlan.name != entries[j].vlan.name
  }

  /** The two stores hold the same VLAN, with the same edges, under this name, or neither holds it. */
  predicate AgreeAt(a: DeviceVlans, b: DeviceVlans, name: Option<Value>) {
    && (name in a.nodes <==> name in b.nodes)
    && (name in a.nodes ==> a.nodes[name] == b.nodes[name] && PriorEdges(a, name) == PriorEdges(b, name))
  }

  /**
   * The store holds a snapshot VLAN as an upsert onto the original store
   * leaves it: the existing node with its properties copied, or the VLAN
   * itself when it is new, with the edges the member loop left on its prior
   * edges.
   */
  predicate HoldsUpserted(dv: DeviceVlans, p: DeviceVlans, e: VlanEntry, ifnames: set<string>) {
    && e.vlan.name in p.nodes && e.vlan.name in p.edges
    && p.nodes[e.vlan.name] == StoredNode(dv, e)
    && p.edges[e.vlan.name] == ConnectMembers(PriorEdges(dv, e.vlan.name), e.members, ifnames).edges
  }

  /** A completed upsert of a VLAN stores what the store it started from dictates for that name. */
  lemma UpsertEntryValue(dv: DeviceVlans, prev: DeviceVlans, e: VlanEntry, ifnames: set<string>)
    requires WellFormed(dv) && WellFormed(prev) && AgreeAt(prev, dv, e.vlan.name)
    requires dv.nodes.Keys <= prev.nodes.Keys
    requires UpsertEntry(prev, e, ifnames).err.None?
    ensures HoldsUpserted(dv, UpsertEntry(prev, e, ifnames).dv, e, ifnames)
  {
    if !Truthy(e.vlan.name) {
      assert prev.nodes == map[];
      assert e.vlan.name !in dv.nodes;
    }
  }

  /** After a completed upsert loop over distinct names, each snapshot VLAN is held as upserted onto the original store. */
  lemma {:induction false} UpsertAllValues(dv: DeviceVlans, entries: seq<VlanEntry>, ifnames: set<string>)
    requires WellFormed(dv) && DistinctNames(entries)
    requires UpsertAll(dv, entries, ifnames).err.None?
    ensures forall k :: 0 <= k < |entries| ==> HoldsUpserted(dv, UpsertAll(dv, entries, ifnames).dv, entries[k], ifnames)
  {
    if entries != [] {
      var init := entries[..|entries| - 1];
      var last := entries[|entries| - 1];
      assert entries == init + [last];
      var name := last.vlan.name;
      var prev := UpsertAll(dv, init, ifnames);
      assert prev.err.None?;
      var p := UpsertEntry(prev.dv, last, ifnames).dv;
      assert UpsertAll(dv, entries, ifnames).dv == p;
      assert forall k :: 0 <= k < |init| ==> init[k] == entries[k];
      assert forall k :: 0 <= k < |init| ==> init[k].vlan.name != name;
      assert HoldsUpserted(dv, p, last, ifnames) by {
        UpsertAllFrame(dv, init, ifnames);
        assert name !in SnapshotNames(init) by {
          forall e | e in init
            ensures e.vlan.name != name
          {
            var k :| 0 <= k < |init| && init[k] == e;
          }
        }
        UpsertEntryValue(dv, prev.dv, last, ifnames);
      }
      assert forall n :: n in prev.dv.nodes && n != name ==>
        n in prev.dv.edges && n in p.nodes && n in p.edges && p.nodes[n] == prev.dv.nodes[n] && p.edges[n] == prev.dv.edges[n]
      by {
        UpsertAllFrame(dv, init, ifnames);
        UpsertEntryFrame(prev.dv, last, ifnames);
      }
      UpsertAllValues(dv, init, ifnames);
      HoldsUpsertedStep(dv, prev.dv, p, init, last, ifnames);
    }
  }

  /** One upsert keeps every VLAN it does not touch held as it was. */
  lemma HoldsUpsertedStep(dv: DeviceVlans, prev: DeviceVlans, p: DeviceVlans, init: seq<VlanEntry>, last: VlanEntry, ifnames: set<string>)
    requires forall k :: 0 <= k < |init| ==> HoldsUpserted(dv, prev, init[k], ifnames) && init[k].vlan.name != last.vlan.name
    requires forall n :: n in prev.nodes && n != last.vlan.name ==>
      n in prev.edges && n in p.nodes && n in p.edges && p.nodes[n] == prev.nodes[n] && p.edges[n] == prev.edges[n]
    requires HoldsUpserted(dv, p, last, ifnames)
    ensures forall k :: 0 <= k < |init + [last]| ==> HoldsUpserted(dv, p, (init + [last])[k], ifnames)
  {
    forall k | 0 <= k < |init + [last]|
      ensures HoldsUpserted(dv, p, (init + [last])[k], ifnames)
    {
      if k < |init| {
        assert (init + [last])[k] == init[k];
      }
    }
  }

  /**
   * A completed insert of distinct names: each snapshot VLAN is stored once,
   * updated in place when its name was already stored and added otherwise,
   * with an edge to every interface its member rows name carrying the last
   * such row's tagging_mode; every edge it had before keeps its interface and,
   * where no row names that interface, its tagging_mode.
   */
  lemma InsertedVlans(dv: DeviceVlans, entries: seq<VlanEntry>, ifnames: set<string>)
    requires WellFormed(dv) && DistinctNames(entries)
    requires InsertVlans(dv, entries, ifnames).err.None?
    ensures forall k :: 0 <= k < |entries| ==> StoredAsInserted(dv, InsertVlans(dv, entries, ifnames).dv, entries[k], ifnames)
  {
    var p := UpsertAll(dv, entries, ifnames).dv;
    var r := InsertVlans(dv, entries, ifnames).dv;
    assert r == Prune(p, SnapshotNames(entries));
    UpsertAllValues(dv, entries, ifnames);
    InsertCompletesIffResolved(dv, entries, ifnames);
    forall k | 0 <= k < |entries|
      ensures StoredAsInserted(dv, r, entries[k], ifnames)
    {
      var e := entries[k];
      var prior := PriorEdges(dv, e.vlan.name);
      assert HoldsUpserted(dv, p, e, ifnames);
      assert e.vlan.name in SnapshotNames(entries);
      assert MembersResolve(e.members, ifnames);
      ConnectMembersOk(prior, e.members, ifnames);
      ConnectMembersKeys(prior, e.members, ifnames);
      ConnectMembersEdges(prior, e.members, ifnames);
      ConnectMembersFrame(prior, e.members, ifnames);
    }
  }

  /** Pruning with every stored name kept changes nothing. */
  lemma PruneKeepsAll(dv: DeviceVlans, keep: set<Option<Value>>)
    requires WellFormed(dv) && dv.nodes.Keys <= keep
    ensures Prune(dv, keep) == dv
  {
  }

  /** The prune loop one name at a time: deleting a name drops it from the names kept. */
  lemma PruneStep(dv: DeviceVlans, keep: set<Option<Value>>, name: Option<Value>)
    ensures DeleteVlan(Prune(dv, keep), name) == Prune(dv, keep - {name})
  {
  }

  /** The edges the member rows set, keyed by interface, the last row naming an interface winning. */
  function MemberUpdates(members: seq<RawMember>, ifnames: set<string>): map<string, Option<Value>> {
    if members == [] then map[]
    else
      var prev := MemberUpdates(members[..|members| - 1], ifnames);
      var m := members[|members| - 1];
      if Resolves(m.ifname, ifnames) then prev[m.ifname.value.s := m.taggingMode] else prev
  }

  /** A member loop whose rows all resolve completes, leaving the edges it had overridden by the rows' edges. */
  lemma {:induction false} ConnectMembersUnion(edges: map<string, Option<Value>>, members: seq<RawMember>, ifnames: set<string>)
    requires MembersResolve(members, ifnames)
    ensures ConnectMembers(edges, members, ifnames) == Connected(edges + MemberUpdates(members, ifnames), None)
  {
    if members == [] {
      assert edges + map[] == edges;
    } else {
      var init := members[..|members| - 1];
      var m := members[|members| - 1];
      assert MembersResolve(init, ifnames) by {
        assert forall k :: 0 <= k < |init| ==> init[k] == members[k];
      }
      ConnectMembersUnion(edges, init, ifnames);
      assert Resolves(m.ifname, ifnames);
      var u := MemberUpdates(init, ifnames);
      assert (edges + u)[m.ifname.value.s := m.taggingMode] == edges + u[m.ifname.value.s := m.taggingMode];
    }
  }

  /** Running a member loop whose rows all resolve a second time over its own result changes nothing. */
  lemma ConnectMembersTwice(edges: map<string, Option<Value>>, members: seq<RawMember>, ifnames: set<string>)
    requires MembersResolve(members, ifnames)
    ensures ConnectMembers(ConnectMembers(edges, members, ifnames).edges, members, ifnames) == ConnectMembers(edges, members, ifnames)
  {
    var u := MemberUpdates(members, ifnames);
    ConnectMembersUnion(edges, members, ifnames);
    ConnectMembersUnion(edges + u, members, ifnames);
    assert (edges + u) + u == edges + u;
  }

  /**
   * Once a store holds a VLAN, an upsert loop over rows that all resolve
   * raises at the first snapshot VLAN with a falsy name: looking that name up
   * returns the non-empty list of VLANs.
   */
  lemma {:induction false} UpsertAllFalsyRaises(dv: DeviceVlans, entries: seq<VlanEntry>, ifnames: set<string>)
    requires WellFormed(dv) && dv.nodes != map[]
    requires forall k :: 0 <= k < |entries| ==> MembersResolve(entries[k].members, ifnames)
    requires exists k :: 0 <= k < |entries| && !Truthy(entries[k].vlan.name)
    ensures UpsertAll(dv, entries, ifnames).err == Some(ListHasNoAttribute)
  {
    var init := entries[..|entries| - 1];
    var last := entries[|entries| - 1];
    var prev := UpsertAll(dv, init, ifnames);
    assert forall k :: 0 <= k < |init| ==> init[k] == entries[k];
    if exists k :: 0 <= k < |init| && !Truthy(init[k].vlan.name) {
      UpsertAllFalsyRaises(dv, init, ifnames);
    } else {
      assert !Truthy(last.vlan.name);
      InsertCompletesIffResolved(dv, init, ifnames);
      assert InsertVlans(dv, init, ifnames).err == prev.err;
      UpsertAllFrame(dv, init, ifnames);
      var n :| n in dv.nodes;
      assert n in prev.dv.nodes;
    }
  }

  /** A VLAN held as upserted onto `dv` in `r` is held unchanged in `p` when `p` upserts it again onto `r`. */
  lemma ReupsertedAt(dv: DeviceVlans, r: DeviceVlans, p: DeviceVlans, e: VlanEntry, ifnames: set<string>)
    requires HoldsUpserted(dv, r, e, ifnames) && HoldsUpserted(r, p, e, ifnames)
    requires MembersResolve(e.members, ifnames)
    ensures p.nodes[e.vlan.name] == r.nodes[e.vlan.name] && p.edges[e.vlan.name] == r.edges[e.vlan.name]
  {
    var n := e.vlan.name;
    if n in dv.nodes {
      CopyVlanPropsReplaces(dv.nodes[n], e.vlan);
    } else {
      CopyVlanPropsReplaces(e.vlan, e.vlan);
    }
    ConnectMembersTwice(PriorEdges(dv, n), e.members, ifnames);
  }

  /** Every snapshot VLAN held as upserted onto `dv` in `r` is held unchanged in `p` when `p` upserts the snapshot again onto `r`. */
  lemma ReupsertedAll(dv: DeviceVlans, r: DeviceVlans, p: DeviceVlans, entries: seq<VlanEntry>, ifnames: set<string>)
    requires r.nodes.Keys == SnapshotNames(entries)
    requires forall k :: 0 <= k < |entries| ==>
      MembersResolve(entries[k].members, ifnames) && HoldsUpserted(dv, r, entries[k], ifnames) && HoldsUpserted(r, p, entries[k], ifnames)
    ensures forall n :: n in r.nodes ==>
      n in r.edges && n in p.nodes && n in p.edges && p.nodes[n] == r.nodes[n] && p.edges[n] == r.edges[n]
  {
    forall n | n in r.nodes
      ensures n in r.edges && n in p.nodes && n in p.edges && p.nodes[n] == r.nodes[n] && p.edges[n] == r.edges[n]
    {
      var k :| 0 <= k < |entries| && entries[k].vlan.name == n;
      ReupsertedAt(dv, r, p, entries[k], ifnames);
    }
  }

  /** Two well-formed stores with the same names, holding the same VLAN and edges under each, are equal. */
  lemma SameStore(a: DeviceVlans, b: DeviceVlans)
    requires WellFormed(a) && WellFormed(b) && a.nodes.Keys == b.nodes.Keys
    requires forall n :: n in b.nodes ==> a.nodes[n] == b.nodes[n] && a.edges[n] == b.edges[n]
    ensures a == b
  {
    assert a.nodes == b.nodes;
    assert a.edges == b.edges;
  }

  /**
   * Upserting a snapshot of truthy, distinct names whose rows all resolve onto
   * a store that already holds exactly those VLANs as upserted onto `dv`,
   * then pruning, completes and changes nothing.
   */
  lemma ReinsertOnto(dv: DeviceVlans, r: DeviceVlans, entries: seq<VlanEntry>, ifnames: set<string>)
    requires WellFormed(r) && DistinctNames(entries) && r.nodes.Keys == SnapshotNames(entries)
    requires forall k :: 0 <= k < |entries| ==>
      Truthy(entries[k].vlan.name) && MembersResolve(entries[k].members, ifnames) && HoldsUpserted(dv, r, entries[k], ifnames)
    ensures InsertVlans(r, entries, ifnames) == Partial(r, None)
  {
    var u := UpsertAll(r, entries, ifnames);
    assert u.err.None? by {
      InsertCompletesIffResolved(r, entries, ifnames);
    }
    var p := u.dv;
    assert WellFormed(p) && p.nodes.Keys == r.nodes.Keys by {
      UpsertAllFrame(r, entries, ifnames);
    }
    assert Prune(p, SnapshotNames(entries)) == p by {
      PruneKeepsAll(p, SnapshotNames(entries));
    }
    UpsertAllValues(r, entries, ifnames);
    ReupsertedAll(dv, r, p, entries, ifnames);
    SameStore(p, r);
  }

  /** Re-inserting the snapshot an insert of truthy, distinct names completed with leaves the store as it is. */
  lemma ReinsertSame(dv: DeviceVlans, entries: seq<VlanEntry>, ifnames: set<string>)
    requires WellFormed(dv) && DistinctNames(entries)
    requires forall k :: 0 <= k < |entries| ==> Truthy(entries[k].vlan.name)
    requires InsertVlans(dv, entries, ifnames).err.None?
    ensures InsertVlans(InsertVlans(dv, entries, ifnames).dv, entries, ifnames) == Partial(InsertVlans(dv, entries, ifnames).dv, None)
  {
    var r := InsertVlans(dv, entries, ifnames).dv;
    InsertCompletesIffResolved(dv, entries, ifnames);
    InsertedNames(dv, entries, ifnames);
    UpsertAllValues(dv, entries, ifnames);
    assert forall k :: 0 <= k < |entries| ==> HoldsUpserted(dv, r, entries[k], ifnames);
    ReinsertOnto(dv, r, entries, ifnames);
  }

  /**
   * Discovering an unchanged snapshot again: when every snapshot name is
   * truthy, the second insert completes and leaves the store exactly as the
   * first one left it. A completed insert that saved a VLAN with a falsy name
   * makes the second one raise instead.
   */
  lemma InsertIdempotent(dv: DeviceVlans, entries: seq<VlanEntry>, ifnames: set<string>)
    requires WellFormed(dv) && DistinctNames(entries)
    requires InsertVlans(dv, entries, ifnames).err.None?
    ensures var r := InsertVlans(dv, entries, ifnames).dv;
      (forall k :: 0 <= k < |entries| ==> Truthy(entries[k].vlan.name)) ==> InsertVlans(r, entries, ifnames) == Partial(r, None)
    ensures (exists k :: 0 <= k < |entries| && !Truthy(entries[k].vlan.name)) ==>
      InsertVlans(InsertVlans(dv, entries, ifnames).dv, entries, ifnames).err == Some(ListHasNoAttribute)
  {
    var r := InsertVlans(dv, entries, ifnames).dv;
    if exists k :: 0 <= k < |entries| && !Truthy(entries[k].vlan.name) {
      var k :| 0 <= k < |entries| && !Truthy(entries[k].vlan.name);
      InsertCompletesIffResolved(dv, entries, ifnames);
      InsertedNames(dv, entries, ifnames);
      assert entries[k].vlan.name in r.nodes;
      UpsertAllFalsyRaises(r, entries, ifnames);
    } else {
      ReinsertSame(dv, entries, ifnames);
    }
  }

  /** What `get_vlan_obj_from_db` returns: all the device's VLANs, or the one with the name, if any. */
  datatype VlanQuery = AllVlans(vlans: map<Option<Value>, Vlan>) | OneVlan(vlan: Option<Vlan>)

  /**
   * `get_vlan_obj_from_db` on the device's VLANs (None when the device is not
   * stored, which raises): an empty or missing name asks for all of them; any
   * other name for the VLAN stored under it, or None.
   */
  function QueryVlans(dv: Option<DeviceVlans>, name: Option<Value>): (r: Result<VlanQuery, Error>)
    ensures r.Err? <==> dv.None?
    ensures r.Ok? && !Truthy(name) ==> r.value == AllVlans(dv.value.nodes)
    ensures r.Ok? && Truthy(name) ==> r.value.OneVlan? && (r.value.vlan.Some? <==> name in dv.value.nodes)
    ensures r.Ok? && Truthy(name) && r.value.vlan.Some? ==> r.value.vlan.value == dv.value.nodes[name]
  {
    if dv.None? then Err(NoneHasNoAttribute)
    else if !Truthy(name) then Ok(AllVlans(dv.value.nodes))
    else Ok(OneVlan(if name in dv.value.nodes then Some(dv.value.nodes[name]) else None))
  }

  /**
   * `get_vlan_mem_ifcs_from_db`: the names of the interfaces the VLAN has
   * edges to, or None when the device or the VLAN is not stored.
   */
  function MemberInterfaces(dv: Option<DeviceVlans>, name: Option<Value>): (r: Option<set<string>>)
    ensures r.None? <==> dv.None? || name !in dv.value.nodes
  {
    if dv.Some? && name in dv.value.nodes then Some(PriorEdges(dv.value, name).Keys) else None
  }

  /**
   * After a completed insert of distinct names, a snapshot VLAN's member
   * interfaces are the ones it had before plus every interface its member rows
   * name: member edges the snapshot no longer has are never removed.
   */
  lemma MemberInterfacesAfterInsert(dv: DeviceVlans, entries: seq<VlanEntry>, ifnames: set<string>, k: nat)
    requires WellFormed(dv) && DistinctNames(entries) && k < |entries|
    requires InsertVlans(dv, entries, ifnames).err.None?
    ensures MemberInterfaces(Some(InsertVlans(dv, entries, ifnames).dv), entries[k].vlan.name)
      == Some(PriorEdges(dv, entries[k].vlan.name).Keys + MemberNames(entries[k].members, ifnames))
  {
    var r := InsertVlans(dv, entries, ifnames).dv;
    assert StoredAsInserted(dv, r, entries[k], ifnames) by {
      InsertedVlans(dv, entries, ifnames);
    }
  }

  /**
   * `get_vlan_members`: each member interface's name to its edge's
   * tagging_mode, nothing when the VLAN has no members or is not stored. With
   * an empty name and members the lookup of the VLAN returns the list of all
   * VLANs, which raises.
   */
  function VlanMembers(dv: Option<DeviceVlans>, name: Option<Value>): (r: Result<map<string, Option<Value>>, Error>)
    ensures r.Err? ==> !Truthy(name)
    ensures r.Ok? ==> forall n :: n in r.value ==> MemberInterfaces(dv, name).Some? && n in MemberInterfaces(dv, name).value
    ensures MemberInterfaces(dv, name).None? ==> r == Ok(map[])
    ensures Truthy(name) && MemberInterfaces(dv, name).Some? ==> r.Ok? && r.value.Keys == MemberInterfaces(dv, name).value
    ensures !Truthy(name) && MemberInterfaces(dv, name).Some? && MemberInterfaces(dv, name).value != {} ==> r.Err?
  {
    var members := MemberInterfaces(dv, name);
    if members.None? || members.value == {} then Ok(map[])
    else if !Truthy(name) then Err(ListHasNoAttribute)
    else Ok(PriorEdges(dv.value, name))
  }

  /**
   * What a completed insert leaves for the snapshot VLAN `e` in `r`, starting
   * from `dv`: the stored VLAN updated in place, or `e`'s own record when the
   * name was new; edges to the interfaces it had plus every interface its
   * member rows name, each named one carrying the tagging_mode of the last row
   * naming it and every other one the tagging_mode it had.
   */
  predicate StoredAsInserted(dv: DeviceVlans, r: DeviceVlans, e: VlanEntry, ifnames: set<string>) {
    var name, members := e.vlan.name, e.members;
    && name in r.nodes && name in r.edges
    && r.nodes[name] == (if name in dv.nodes then CopyVlanProps(dv.nodes[name], e.vlan) else e.vlan)
    && r.edges[name].Keys == PriorEdges(dv, name).Keys + MemberNames(members, ifnames)
    && (forall i :: 0 <= i < |members| && LastNaming(members, i) ==>
         Resolves(members[i].ifname, ifnames) && r.edges[name][members[i].ifname.value.s] == members[i].taggingMode)
    && forall n :: n in PriorEdges(dv, name) && n !in MemberNames(members, ifnames) ==>
         r.edges[name][n] == PriorEdges(dv, name)[n]
  }

  /**
   * After a completed insert of distinct names, reading a snapshot VLAN's
   * members gives its previous member interfaces and those its member rows
   * name: each named one with the tagging_mode of the last row naming it, every
   * other one with the tagging_mode it had.
   */
  lemma MembersAfterInsert(dv: DeviceVlans, entries: seq<VlanEntry>, ifnames: set<string>, k: nat)
    requires WellFormed(dv) && DistinctNames(entries) && k < |entries| && Truthy(entries[k].vlan.name)
    requires InsertVlans(dv, entries, ifnames).err.None?
    ensures var r := VlanMembers(Some(InsertVlans(dv, entries, ifnames).dv), entries[k].vlan.name);
      var members := entries[k].members;
      var prior := PriorEdges(dv, entries[k].vlan.name);
      && r.Ok?
      && r.value.Keys == prior.Keys + MemberNames(members, ifnames)
      && (forall i :: 0 <= i < |members| && LastNaming(members, i) ==>
           && Resolves(members[i].ifname, ifnames)
           && members[i].ifname.value.s in r.value
           && r.value[members[i].ifname.value.s] == members[i].taggingMode)
      && forall n :: n in prior && n !in MemberNames(members, ifnames) ==> r.value[n] == prior[n]
  {
    var r := InsertVlans(dv, entries, ifnames).dv;
    var name := entries[k].vlan.name;
    assert StoredAsInserted(dv, r, entries[k], ifnames) by {
      InsertedVlans(dv, entries, ifnames);
    }
    assert VlanMembers(Some(r), name) == Ok(r.edges[name]) by {
      if r.edges[name].Keys == {} {
        assert r.edges[name] == map[];
      }
    }
  }

  /** `get_vlan_db_obj`'s record for a VLAN_LIST entry: vlanid and name only. */
  function TwinVlan(raw: RawVlan): Vlan {
    Vlan(raw.vlanid, raw.name, None, None, None, None, None, None)
  }

  /** `get_vlan_db_obj` on a fetched snapshot. */
  function TwinSnapshot(details: RawVlanDetails): seq<VlanEntry> {
    var list := OrEmpty(details.vlans);
    Assemble(seq(|list|, k requires 0 <= k < |list| => TwinVlan(list[k])), OrEmpty(details.table), OrEmpty(details.members))
  }

  /**
   * The older mapper joins the TABLE rows and groups the member rows exactly
   * as the newer one does: when both succeed on the same snapshot they agree
   * entry by entry on vlanid, name, mtu, admin and oper status and members,
   * and on autostate whenever a TABLE row names the VLAN; the older one never
   * sets the address fields.
   */
  lemma TwinAgrees(details: RawVlanDetails, ipFetch: Option<Value> -> Result<RawIpDetails, Error>, disableToken: string)
    requires VlanSnapshot(details, ipFetch, disableToken).Ok?
    ensures var twin, mapped := TwinSnapshot(details), VlanSnapshot(details, ipFetch, disableToken).value;
      && |twin| == |mapped| == |OrEmpty(details.vlans)|
      && forall k :: 0 <= k < |twin| ==>
        && twin[k].vlan.vlanid == mapped[k].vlan.vlanid && twin[k].vlan.name == mapped[k].vlan.name
        && twin[k].vlan.mtu == mapped[k].vlan.mtu && twin[k].vlan.adminStatus == mapped[k].vlan.adminStatus
        && twin[k].vlan.operStatus == mapped[k].vlan.operStatus && twin[k].members == mapped[k].members
        && (LastMatch(OrEmpty(details.table), twin[k].vlan.name).Some? ==> twin[k].vlan.autostate == mapped[k].vlan.autostate)
        && twin[k].vlan.ipAddress == None && twin[k].vlan.sagIpAddress == None
  {
    SnapshotEntries(details, ipFetch, disableToken);
  }

  /** `get_vlan_db_obj`: the fetch (which may raise), the records, the TABLE join and the member grouping. */
  method GetVlanDbObj(fetched: Result<RawVlanDetails, Error>) returns (r: Result<seq<VlanEntry>, Error>)
    ensures fetched.Err? ==> r == Err(fetched.error)
    ensures fetched.Ok? ==> r == Ok(TwinSnapshot(fetched.value))
  {
    if fetched.Err? {
      return Err(fetched.error);
    }
    var list := OrEmpty(fetched.value.vlans);
    var vlans: seq<Vlan> := [];
    var i := 0;
    while i < |list|
      invariant 0 <= i <= |list|
      invariant vlans == seq(i, k requires 0 <= k < i => TwinVlan(list[k]))
    {
      vlans := vlans + [Vlan(list[i].vlanid, list[i].name, None, None, None, None, None, None)];
      i := i + 1;
    }
    var joined := JoinTable(vlans, OrEmpty(fetched.value.table));
    var entries := GroupMembers(joined, OrEmpty(fetched.value.members));
    assert forall k :: 0 <= k < |joined| ==> joined[k].name == vlans[k].name;
    assert entries == Assemble(vlans, OrEmpty(fetched.value.table), OrEmpty(fetched.value.members));
    r := Ok(entries);
  }
}
