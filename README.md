# orca_nw_lib discovery core, modelled in Dafny

orca_nw_lib keeps a graph store of SONiC switches. It reads a device's
configuration over gNMI, maps the JSON it gets back to graph nodes (VLANs,
port groups, STP ports, interfaces), and reconciles those nodes into the store.
Every command that changes a VLAN or a port group on a device then
rediscovers that device in a `finally` block. This project models:

- the mappers that turn raw device JSON into records:
  - VLANs: `_create_vlan_db_obj`, and its twin `get_vlan_db_obj`;
  - port groups: `_create_port_group_graph_objects`;
  - STP ports: `_create_stp_port_graph_object`;
- the store operations for VLANs and interfaces: upsert, member edges, prune, delete, lookups, configuration update;
- the enum/OpenConfig string codec in `common.py`;
- the commands and reads built on top of them.

The raw JSON is typed records whose fields are `Option<Value>`, where `Value` is a string, an integer or a boolean. A key that is absent reads as `None`, and Python truthiness is `RawData.Truthy`. A Python exception is an `Error` value; the model keeps which kind it is, not its message. A loop that raises part way is modelled as a `Partial`: what was written before the exception stays written, and the exception is carried alongside.

A stored device is a `Store.Device` object. Its fields are its interfaces, in store order, and its VLANs by name, together with the member edges and their `tagging_mode`. Every store method is proved against a value-level definition in `VlanDb` or `InterfaceDb`, and the properties are proved about those definitions. The device lookup `get_device_db_obj` is a `Device?` parameter: `null` means the device is not stored.

Where the written description of the system and the code disagree, the model follows the code:
- `insert_vlan_in_db` raises on a member row whose interface is not stored, rather than skipping it. The relationship is `None`, and the code then sets `tagging_mode` on it.
- `copy_vlan_obj_prop` does not copy `ip_address`, `sag_ip_address` or `autostate`. A VLAN that is already stored therefore keeps those three properties across every rediscovery (`VlanCommands.RediscoveredVlan`).
- The VLAN_TABLE join overwrites `autostate` with the table row's value, even when the row has none.

Modules: `Wrappers` (Option, Result), `Text` (`str`/`int` of integers, `split`, `replace`), `RawData`, `Common`, `Vlan`, `VlanDb`, `InterfaceDb`, `Store`, `VlanCommands`, `PortGroup`, `StpPort`.

## Model

| member | source | states |
|---|---|---|
| Common.SpeedStrFromOCStr | orca_nw_lib/common.py:40-41 | succeeds exactly when the string holds a ':'; the result holds no ':'; with no ':', indexing `[1]` raises IndexError |
| Common.SpeedOcValRoundTrip | orca_nw_lib/common.py:13-17 | stripping `get_oc_val()` of every Speed gives back `str(speed)` |
| Common.FecStrFromOCStr | orca_nw_lib/common.py:33-35 | None or "" gives None; otherwise it succeeds exactly when a ':' is present, and the result holds no ':' |
| Common.FecOcValRoundTrip | orca_nw_lib/common.py:26-27 | stripping `get_oc_val()` of every PortFec gives back its name |
| Common.FecFromName | orca_nw_lib/common.py:29-31 | a member is returned only for its own name; None exactly when no member has that name |
| Common.FecNameRoundTrip | orca_nw_lib/common.py:37-38 | `get_enum_from_str(str(f)) == f` for every PortFec |
| Common.TagModeEquality | orca_nw_lib/common.py:48-57 | two tagging modes are equal exactly when their names are; equal modes hash alike |
| RawData.MapEachOkIffAll | orca_nw_lib/vlan.py:43-68 | a mapping loop completes exactly when no element raises |
| RawData.MapEachFirstError | orca_nw_lib/portgroup.py:35-62 | a mapping loop that raises raises the exception of the first element that raises, every earlier one having succeeded |
| Vlan.FirstCompleteAddressIsFirst | orca_nw_lib/vlan.py:54-58 | the address picked is `ip/prefix` of the first entry with both parts truthy; None exactly when no entry has both |
| Vlan.FirstAddress | orca_nw_lib/vlan.py:54-58 | the break loop returns that first complete address |
| Vlan.BuildBaseVlans | orca_nw_lib/vlan.py:43-68 | one record per VLAN_LIST entry, in order, or the first per-VLAN IP fetch error |
| Vlan.LastMatchIsLast | orca_nw_lib/vlan.py:70-76 | the table row that wins for a VLAN is the last row with its name; there is none exactly when no row has it |
| Vlan.JoinTable | orca_nw_lib/vlan.py:70-76 | the nested loop leaves each VLAN as the last matching table row sets it, in the same order and number |
| Vlan.MembersOfExactly | orca_nw_lib/vlan.py:78-84 | a VLAN's member rows are exactly the VLAN_MEMBER_LIST rows with its name, each as many times as the list holds it |
| Vlan.MembersOfConcat | orca_nw_lib/vlan.py:78-84 | member rows keep their original order: the rows of two lists in a row are the first list's rows followed by the second's |
| Vlan.GroupMembers | orca_nw_lib/vlan.py:78-84 | each VLAN is paired with its own member rows, in VLAN_LIST order |
| Vlan.SnapshotEntries | orca_nw_lib/vlan.py:43-84 | a snapshot has one entry per VLAN_LIST entry, in order, with the entry's name and vlanid, the IP picks, the autostate default or table value, and its member rows |
| Vlan.SnapshotRaises | orca_nw_lib/vlan.py:43-45 | the mapper raises exactly when some VLAN's IP fetch raises |
| Vlan.CreateVlanObjects | orca_nw_lib/vlan.py:41-86 | a fetch error escapes; otherwise the result is the snapshot of the fetched details |
| VlanDb.CopyVlanProps | orca_nw_lib/vlan_db.py:76-80 | vlanid, name, mtu and both statuses come from the source; ip_address, sag_ip_address and autostate stay the target's |
| VlanDb.CopyVlanPropsReplaces | orca_nw_lib/vlan_db.py:76-80 | the copy equals the source exactly when the three uncopied properties already agree; copying twice is copying once |
| VlanDb.ConnectMembersOk | orca_nw_lib/vlan_db.py:106-116 | the member loop completes exactly when every row's ifname names a stored interface |
| VlanDb.ConnectMembersFrame | orca_nw_lib/vlan_db.py:106-116 | the loop keeps every edge it had and adds only edges to resolved interfaces |
| VlanDb.ConnectMembersKeys | orca_nw_lib/vlan_db.py:106-116 | after a completed loop the VLAN has edges to exactly the interfaces it had and those its rows name |
| VlanDb.ConnectMembersEdges | orca_nw_lib/vlan_db.py:106-116 | after a completed loop each member interface's edge holds the tagging_mode of the last row naming it |
| VlanDb.DeleteVlanOnlyThat | orca_nw_lib/vlan_db.py:19-22 | deleting removes that VLAN with its edges, keeps every other VLAN, and does nothing when it is absent |
| VlanDb.UpsertEntryFrame | orca_nw_lib/vlan_db.py:95-116 | one upsert pass touches no VLAN but its own and keeps the store well formed |
| VlanDb.UpsertAllFrame | orca_nw_lib/vlan_db.py:95-116 | the upsert loop never loses a stored VLAN, adds only snapshot names, leaves VLANs the snapshot does not name as they were, and when it completes holds every snapshot name |
| VlanDb.UpsertAllValues | orca_nw_lib/vlan_db.py:95-116 | after a completed upsert loop each snapshot VLAN is stored updated in place (or as built, if new), with its member edges connected onto its previous edges |
| VlanDb.InsertedNames | orca_nw_lib/vlan_db.py:117-121 | after a completed insert the device holds exactly the VLANs the snapshot names |
| VlanDb.InsertCompletesIffResolved | orca_nw_lib/vlan_db.py:95-116 | an insert that completes had every member row resolve; with truthy names and resolving rows it always completes |
| VlanDb.InsertedVlans | orca_nw_lib/vlan_db.py:95-121 | after a completed insert each VLAN holds the snapshot's values, with the three uncopied properties of an existing VLAN kept; its edges go to its previous interfaces plus those its rows name, each named one with the last naming row's tagging_mode and every other one with the tagging_mode it had |
| VlanDb.ConnectMembersUnion | orca_nw_lib/vlan_db.py:106-116 | a member loop whose rows all resolve completes and leaves the previous edges overridden by the rows' edges, the last row naming an interface winning |
| VlanDb.ConnectMembersTwice | orca_nw_lib/vlan_db.py:106-116 | running the member loop again over its own result changes nothing |
| VlanDb.UpsertAllFalsyRaises | orca_nw_lib/vlan_db.py:95-100 | once the device holds a VLAN, a snapshot with a falsy name raises AttributeError on the list `get_vlan_obj_from_db` returns |
| VlanDb.InsertIdempotent | orca_nw_lib/vlan_db.py:95-121 | inserting the same snapshot a second time completes and leaves the store exactly as the first insert left it, when every name is truthy; with a falsy name the second insert raises |
| VlanDb.PruneKeepsAll | orca_nw_lib/vlan_db.py:119-121 | pruning with every stored name kept changes nothing |
| VlanDb.PruneStep | orca_nw_lib/vlan_db.py:119-121 | deleting one name after a prune is pruning without that name: the prune loop one VLAN at a time |
| VlanDb.QueryVlans | orca_nw_lib/vlan_db.py:36-41 | fails exactly when the device is not stored; a falsy name gives all VLANs; otherwise the VLAN of that name, present exactly when stored |
| VlanDb.MemberInterfaces | orca_nw_lib/vlan_db.py:57-62 | None exactly when the device or the VLAN is not stored; otherwise the VLAN's member interfaces |
| VlanDb.MemberInterfacesAfterInsert | orca_nw_lib/vlan_db.py:57-62 | after a completed insert a snapshot VLAN's member interfaces are its previous ones plus those its member rows name; no member edge is removed |
| VlanDb.VlanMembers | orca_nw_lib/vlan.py:171-178 | a VLAN that is not stored gives an empty map; with a truthy name the keys are exactly the member interfaces; a falsy name with members raises, and only a falsy name raises |
| VlanDb.MembersAfterInsert | orca_nw_lib/vlan.py:171-178 | after a completed insert, reading a VLAN's members gives exactly its previous member interfaces and those its rows name: each named one with the last naming row's tagging_mode, every other one with its previous tagging_mode |
| VlanDb.TwinAgrees | orca_nw_lib/vlan_db.py:140-166 | the twin mapper agrees with `_create_vlan_db_obj` entry by entry on vlanid, name, mtu, both statuses and member rows, and on autostate whenever a table row names the VLAN; it never sets the IP fields |
| VlanDb.GetVlanDbObj | orca_nw_lib/vlan_db.py:140-166 | a fetch error escapes; otherwise the records, join and grouping of the twin mapper |
| InterfaceDb.ApplyConfig | orca_nw_lib/interface_db.py:160-209 | every argument left out (and an empty LLDP list) leaves its property alone; the given mtu and LLDP list are stored; properties that are not arguments never change |
| InterfaceDb.ApplyConfigStoredForms | orca_nw_lib/interface_db.py:177-204 | speed and fec are stored as their member names (the FEC name lookup gives the member back), autoneg and link_training as 'on' for True and 'off' for False, enable and description as given, adv_speeds as its `str` |
| InterfaceDb.ApplyConfigIdempotent | orca_nw_lib/interface_db.py:159-210 | applying a configuration twice is applying it once; a call with no arguments changes nothing |
| InterfaceDb.CopyIntfcProps | orca_nw_lib/interface_db.py:111-126 | the sixteen listed properties come from the source and the LLDP neighbours stay the target's |
| InterfaceDb.FindByName | orca_nw_lib/interface_db.py:35-40 | the position found holds an interface of that name; None exactly when no interface has it |
| InterfaceDb.FindByNameUnique | orca_nw_lib/interface_db.py:35-40 | with unique names the lookup finds the one interface with that name |
| InterfaceDb.UpsertInterfaceShape | orca_nw_lib/interface_db.py:226-250 | one pass keeps names unique, keeps every position's name, and leaves other interfaces as they were |
| InterfaceDb.UpsertInterfaceNames | orca_nw_lib/interface_db.py:226-234 | one pass adds its own name to the stored names and no other |
| InterfaceDb.UpsertInterfacesKeep | orca_nw_lib/interface_db.py:226-250 | the loop keeps names unique, never removes or reorders an interface, and leaves interfaces it does not name as they were |
| InterfaceDb.UpsertInterfacesUnique | orca_nw_lib/interface_db.py:226-234 | names stay unique through the loop |
| InterfaceDb.UpsertInterfacesNames | orca_nw_lib/interface_db.py:226-234 | the stored names afterwards are the names before plus the input names |
| InterfaceDb.UpsertInterfacesValues | orca_nw_lib/interface_db.py:226-250 | each input interface is stored with its copied properties (LLDP neighbours kept if it existed) and exactly its given sub-interfaces |
| InterfaceDb.InterfaceNames | orca_nw_lib/interface_db.py:263-264 | the interface names in store order; None exactly when the device is not stored or has no interfaces |
| InterfaceDb.SubsWithIpExactly | orca_nw_lib/interface_db.py:54-56 | the candidates are exactly the sub-interfaces with that ip_address |
| InterfaceDb.SubInterfaceByIpNone | orca_nw_lib/interface_db.py:54-56 | no result exactly when no interface has a sub-interface with that ip_address |
| InterfaceDb.SubInterfaceByIpFirst | orca_nw_lib/interface_db.py:54-56 | a result comes from the first interface holding that ip_address, and has it |
| InterfaceDb.SubInterfaceByIpRaises | orca_nw_lib/interface_db.py:54-56 | the lookup raises only when that first interface holds the ip_address on several sub-interfaces |
| Store.Device.GetInterface | orca_nw_lib/interface_db.py:35-40 | an interface is returned exactly when one of that name is stored, and it has that name |
| Store.Device.UpsertVlan | orca_nw_lib/vlan_db.py:95-116 | one pass stores the VLAN and its member edges as `VlanDb.UpsertEntry` defines; interfaces unchanged |
| Store.Device.ConnectVlanMembers | orca_nw_lib/vlan_db.py:106-116 | the member loop changes only that VLAN's edges, as `VlanDb.ConnectMembers` defines |
| Store.Device.InsertVlans | orca_nw_lib/vlan_db.py:95-121 | the device's VLANs become `VlanDb.InsertVlans` of the old ones, with the same error; interfaces unchanged |
| Store.Device.PruneVlans | orca_nw_lib/vlan_db.py:119-121 | the stored VLANs become the old ones without those whose name is not kept |
| Store.DelVlanFromDb | orca_nw_lib/vlan_db.py:19-22 | a stored device loses that VLAN and its edges, as `VlanDb.DeleteVlan` defines |
| Store.Device.SetInterfaceConfig | orca_nw_lib/interface_db.py:159-210 | the interface of that name gets `ApplyConfig`; nothing changes when it is not stored |
| Store.Device.InsertDeviceInterfaces | orca_nw_lib/interface_db.py:226-250 | the device's interfaces become `InterfaceDb.UpsertInterfaces` of the old ones |
| Store.Device.SubInterfaceOfDevice | orca_nw_lib/interface_db.py:54-56 | the walk returns `SubInterfaceByIp` of the device's interfaces |
| VlanCommands.Discovered | orca_nw_lib/vlan.py:215-219 | a completed discovery had a fetch and a snapshot that succeeded; a fetch or mapper exception leaves the store untouched |
| VlanCommands.DiscoverVlan | orca_nw_lib/vlan.py:215-219 | a device that is not stored raises; otherwise its VLANs become `Discovered` of the old ones |
| VlanCommands.VlanCommand | orca_nw_lib/vlan.py:130-136 | the rediscovery always runs (also for config_vlan 140-146, add_vlan_mem 151-157, del_vlan_mem 193-199); the command's exception is re-raised unless rediscovery raised its own |
| VlanCommands.GetVlanMembers | orca_nw_lib/vlan.py:171-178 | the loop returns `VlanDb.VlanMembers` of the stored device |
| VlanCommands.DiscoveredNames | orca_nw_lib/vlan_db.py:117-121 | after a completed discovery the device holds exactly the VLANs the device's VLAN_LIST names |
| VlanCommands.RediscoveredVlan | orca_nw_lib/vlan_db.py:95-103 | rediscovering a stored VLAN refreshes vlanid, mtu and statuses but keeps ip_address, sag_ip_address and autostate; a new VLAN is stored as built |
| PortGroup.StripEach | orca_nw_lib/portgroup.py:42-44 | valid_speeds succeeds exactly when every element has a ':'; same length, each element stripped |
| PortGroup.MissingValidSpeedsRaises | orca_nw_lib/portgroup.py:42-44 | a missing valid-speeds list raises, since the comprehension iterates over None |
| PortGroup.MemberRangeShape | orca_nw_lib/portgroup.py:48-53 | the range has last - first + 1 names (none when last < first); the k-th is `Ethernet<first + k>` |
| PortGroup.MemberNumberOfName | orca_nw_lib/portgroup.py:50-51 | the number parsed back from `Ethernet<n>` is n |
| PortGroup.CanonicalRangeEnds | orca_nw_lib/portgroup.py:48-53 | with canonical start and end names, the members run from the start name to the end name |
| PortGroup.RangeExample | orca_nw_lib/portgroup.py:48-53 | Ethernet0 to Ethernet3 expands to four names in order |
| PortGroup.ExpandMemberRange | orca_nw_lib/portgroup.py:48-53 | the range loop builds exactly the member range |
| PortGroup.MappedGroupFields | orca_nw_lib/portgroup.py:36-62 | a mapped group copies the id, strips speed, default speed and each valid speed, and expands the member range |
| PortGroup.CreatePortGroupObjects | orca_nw_lib/portgroup.py:35-64 | one entry per raw group, in order, or the first group's exception |
| PortGroup.DiscoverPortGroups | orca_nw_lib/portgroup.py:109-115 | a device that is not stored raises before the fetch; a fetch error escapes; otherwise the mapped groups |
| PortGroup.SetPortGroupSpeed | orca_nw_lib/portgroup.py:119-128 | the rediscovery always runs; the command's exception is re-raised unless rediscovery raised its own |
| PortGroup.PortGroupMembers | orca_nw_lib/portgroup.py:78-83 | the properties of each stored member, in order, or an empty list when there are none |
| PortGroup.GetPortGroups | orca_nw_lib/portgroup.py:86-106 | an id the store lacks raises; a found group comes with its member names; with no id, every stored group in order with its member names |
| StpPort.StpRecordFields | orca_nw_lib/stp_port.py:36-54 | edge_port, link_type and guard are None exactly when falsy (edge_port converted); the other nine fields are copied |
| StpPort.CreateStpPortObjects | orca_nw_lib/stp_port.py:26-57 | a fetch error gives no records; otherwise one record per port, in order, each with an empty member list |
| StpPort.StpPortMembers | orca_nw_lib/stp_port.py:145-150 | None exactly when there is no port or an empty list; otherwise the one port or the list |

## Left out

- The gNMI fetches and device calls are parameters: the fetched JSON, the per-VLAN IPv4 fetch, and the device call's outcome. Their wire format and the gRPC error types are not modelled.
- `get_device_db_obj` is not modelled: a stored device is a `Store.Device` reference, and `null` stands for a device that is not stored.
- The bulk discovery over all devices (no `device_ip`) at vlan.py:215-222, stp_port.py:71-78 and portgroup.py:111-116 is not modelled; only discovery of one given device is.
- The graph library is not modelled. Nodes are values, not objects, and the mapper dicts keyed by fresh node objects are sequences with one entry per raw entry.
- Store.Device.PruneVlans: the source keeps a stored VLAN when the node is a key of the snapshot dict, which depends on the graph library's node equality. The model keeps it when its name is in the snapshot.
- Member interfaces and edges are a set and a map: the order in which the store's `all()` returns them is not modelled.
- InterfaceDb.UpsertInterfaceShape: `disconnect_all()` runs before `subInterfaces.all()`, so the delete loop finds nothing. The old sub-interface nodes stay in the store, detached. The model keeps only attached sub-interfaces, and no modelled read reaches the detached ones.
- Store.Device.InsertDeviceInterfaces: the store's insertion order for a new interface is modelled as appending it.
- Python equality across value kinds (`True == 1`) is not modelled: `Value` equality is exact.
- A JSON `null` where the source reads `.get(k, [])` or `.get(k, {})` would raise in Python. The model reads it as the empty default.
- PortGroup.MemberNumber: Python's `int()` also accepts surrounding whitespace and `_` digit separators. The model accepts only an optional sign followed by ASCII digits.
- The STP edge-port converter and the `VlanAutoState.disable` string are parameters (`edgePortStr`, `disableToken`), since their definitions are not part of this model.
- Logging and the logging decorator are not modelled.
- `get_vlan` and `_getJson` (vlan.py:89-115) are not modelled: they only reformat the stored VLANs and their member names.
- `get_sub_interface_of_intfc_from_db` and `get_sub_interface_from_db` (interface_db.py:59-97) are not modelled.
- PortGroup.MappedGroupFields: portgroup.py:37, 43 and 45 call `Speed.getSpeedStrFromOCStr`, which the `Speed` class in `common.py` does not define, so as written the mapper raises AttributeError on every port group. `PortGroup.MappedGroupFields` and `PortGroup.CreatePortGroupObjects` use the module-level `getSpeedStrFromOCStr` (common.py:40-41) instead, and so model the mapper as evidently intended.
- VlanDb.Resolves: vlan_db.py:4 imports `getInterfaceOfDeviceFromDB`, which `interface_db.py` does not define. The model gives it the lookup by name of `get_interface_of_device_from_db` (interface_db.py:23-40).
- `insert_device_port_groups_in_db`, which stores the port groups `discover_port_groups` maps (portgroup.py:113-115), is not part of this model: `PortGroup.DiscoverPortGroups` and `PortGroup.SetPortGroupSpeed` return the snapshot handed to it.
- Python exception classes become the kinds of `RawData.Error`, such as AttributeError on None or IndexError; messages are not kept.
