/**
 * orca_nw_lib/interface_db.py: interface records, the partial configuration
 * update, the property copy and the interface upsert, stated on values. The
 * store these functions specify is the class in store.dfy.
 */
module InterfaceDb {
  import opened Wrappers
  import opened RawData
  import opened Common

  /**
   * An Interface node: its name, the fifteen further properties that
   * `copy_intfc_object_props` copies, and the LLDP neighbours it does not.
   */
  datatype Interface = Interface(
    name: string,
    enabled: Option<Value>,
    mtu: Option<Value>,
    fec: Option<Value>,
    speed: Option<Value>,
    operSts: Option<Value>,
    adminSts: Option<Value>,
    description: Option<Value>,
    lastChng: Option<Value>,
    macAddr: Option<Value>,
    alias: Option<Value>,
    lanes: Option<Value>,
    validSpeeds: Option<Value>,
    advSpeeds: Option<Value>,
    linkTraining: Option<Value>,
    autoneg: Option<Value>,
    lldpNbrs: Option<seq<Value>>)

  /** A SubInterface node: the ip_address it is looked up by, and its other properties. */
  datatype SubInterface = SubInterface(ipAddress: Option<Value>, props: map<string, Value>)

  /** An interface as stored: its properties and the sub-interfaces attached to it, in order. */
  datatype IfNode = IfNode(props: Interface, subs: seq<SubInterface>)

  /** The keyword arguments of `set_interface_config_in_db`; None is an argument left out. */
  datatype InterfaceConfig = InterfaceConfig(
    enable: Option<bool>,
    mtu: Option<Value>,
    speed: Option<Speed>,
    description: Option<string>,
    fec: Option<PortFec>,
    autoneg: Option<bool>,
    advSpeeds: Option<Value>,
    linkTraining: Option<bool>,
    lldpNbrs: Option<seq<Value>>)

  /** How a boolean switch is stored: 'on' or 'off'. */
  function OnOff(b: bool): Value {
    Str(if b then "on" else "off")
  }

  /** The stored form of a given switch argument. */
  function SwitchArg(b: Option<bool>): (r: Option<Value>)
    ensures r.None? <==> b.None?
  {
    if b.Some? then Some(OnOff(b.value)) else None
  }

  /** The property after an update: the given value, else the one stored. */
  function Updated(given: Option<Value>, stored: Option<Value>): (r: Option<Value>)
    ensures given.None? ==> r == stored
    ensures given.Some? ==> r == given
  {
    if given.Some? then given else stored
  }

  /**
   * The update `set_interface_config_in_db` makes to a found interface. Every
   * argument given (not None) is stored, even 0 or False; the LLDP neighbours
   * only when the list is non-empty; nothing else changes.
   */
  function ApplyConfig(i: Interface, c: InterfaceConfig): (r: Interface)
    ensures r.name == i.name && r.operSts == i.operSts && r.adminSts == i.adminSts && r.lastChng == i.lastChng
    ensures r.macAddr == i.macAddr && r.alias == i.alias && r.lanes == i.lanes && r.validSpeeds == i.validSpeeds
    ensures c.enable.None? ==> r.enabled == i.enabled
    ensures c.mtu.None? ==> r.mtu == i.mtu
    ensures c.speed.None? ==> r.speed == i.speed
    ensures c.description.None? ==> r.description == i.description
    ensures c.fec.None? ==> r.fec == i.fec
    ensures c.autoneg.None? ==> r.autoneg == i.autoneg
    ensures c.advSpeeds.None? ==> r.advSpeeds == i.advSpeeds
    ensures c.linkTraining.None? ==> r.linkTraining == i.linkTraining
    ensures c.lldpNbrs.None? || c.lldpNbrs.value == [] ==> r.lldpNbrs == i.lldpNbrs
    ensures c.mtu.Some? ==> r.mtu == c.mtu
    ensures c.lldpNbrs.Some? && c.lldpNbrs.value != [] ==> r.lldpNbrs == c.lldpNbrs
  {
    var enabled := Updated(if c.enable.Some? then Some(Bool(c.enable.value)) else None, i.enabled);
    var speed := Updated(if c.speed.Some? then Some(Str(SpeedName(c.speed.value))) else None, i.speed);
    var description := Updated(if c.description.Some? then Some(Str(c.description.value)) else None, i.description);
    var fec := Updated(if c.fec.Some? then Some(Str(FecName(c.fec.value))) else None, i.fec);
    var advSpeeds := Updated(if c.advSpeeds.Some? then Some(Str(Show(c.advSpeeds.value))) else None, i.advSpeeds);
    var lldpNbrs := if c.lldpNbrs.Some? && c.lldpNbrs.value != [] then c.lldpNbrs else i.lldpNbrs;
    Interface(i.name, enabled, Updated(c.mtu, i.mtu), fec, speed, i.operSts, i.adminSts, description, i.lastChng,
              i.macAddr, i.alias, i.lanes, i.validSpeeds, advSpeeds, Updated(SwitchArg(c.linkTraining), i.linkTraining),
              Updated(SwitchArg(c.autoneg), i.autoneg), lldpNbrs)
  }

  /**
   * The stored forms read back: the speed and FEC as their member names (so
   * the FEC name lookup recovers the member), the switches as 'on' for True
   * and 'off' for False, and the advertised speeds as their `str`.
   */
  lemma ApplyConfigStoredForms(i: Interface, c: InterfaceConfig)
    ensures var r := ApplyConfig(i, c);
      && (c.speed.Some? ==> r.speed == Some(Str(SpeedName(c.speed.value))))
      && (c.fec.Some? ==> r.fec.Some? && r.fec.value.Str? && FecFromName(r.fec.value.s) == c.fec)
      && (c.autoneg.Some? ==> (r.autoneg == Some(Str("on")) <==> c.autoneg.value) && (r.autoneg == Some(Str("off")) <==> !c.autoneg.value))
      && (c.linkTraining.Some? ==> (r.linkTraining == Some(Str("on")) <==> c.linkTraining.value) && (r.linkTraining == Some(Str("off")) <==> !c.linkTraining.value))
      && (c.enable.Some? ==> r.enabled == Some(Bool(c.enable.value)))
      && (c.description.Some? ==> r.description == Some(Str(c.description.value)))
      && (c.advSpeeds.Some? ==> r.advSpeeds == Some(Str(Show(c.advSpeeds.value))))
  {
    if c.fec.Some? {
      FecNameRoundTrip(c.fec.value);
    }
  }

  /** Applying the same configuration twice is applying it once; a call with no arguments changes nothing. */
  lemma ApplyConfigIdempotent(i: Interface, c: InterfaceConfig)
    ensures ApplyConfig(ApplyConfig(i, c), c) == ApplyConfig(i, c)
    ensures ApplyConfig(i, InterfaceConfig(None, None, None, None, None, None, None, None, Some([]))) == i
  {
  }

  /** `copy_intfc_object_props`: the sixteen listed properties come from the source, the LLDP neighbours stay. */
  function CopyIntfcProps(target: Interface, source: Interface): (r: Interface)
    ensures r.lldpNbrs == target.lldpNbrs
    ensures r.(lldpNbrs := source.lldpNbrs) == source
  {
    target.(
      name := source.name, enabled := source.enabled, mtu := source.mtu, fec := source.fec,
      speed := source.speed, operSts := source.operSts, adminSts := source.adminSts,
      description := source.description, lastChng := source.lastChng, macAddr := source.macAddr,
      alias := source.alias, lanes := source.lanes, validSpeeds := source.validSpeeds,
      advSpeeds := source.advSpeeds, linkTraining := source.linkTraining, autoneg := source.autoneg)
  }

  /** No two interfaces of a device share a name. */
  predicate UniqueNames(nodes: seq<IfNode>) {
    forall i, j :: 0 <= i < j < |nodes| ==> nodes[i].props.name != nodes[j].props.name
  }

  /** The names of the stored interfaces, as a set. */
  function NameSet(nodes: seq<IfNode>): set<string> {
    set j | 0 <= j < |nodes| :: nodes[j].props.name
  }

  /** `get_interface_of_device_from_db` on the device's interfaces: the position of the one with that name. */
  function FindByName(nodes: seq<IfNode>, name: string): (r: Option<nat>)
    ensures r.Some? ==> r.value < |nodes| && nodes[r.value].props.name == name
    ensures r.None? <==> name !in NameSet(nodes)
  {
    if nodes == [] then None
    else if nodes[0].props.name == name then Some(0)
    else match FindByName(nodes[1..], name)
      case None => None
      case Some(j) => Some(j + 1)
  }

  /** With unique names the lookup is exact: the position it finds is the only one with that name. */
  lemma FindByNameUnique(nodes: seq<IfNode>, name: string, j: nat)
    requires UniqueNames(nodes) && j < |nodes| && nodes[j].props.name == name
    ensures FindByName(nodes, name) == Some(j)
  {
  }

  /** One entry of the dict `insert_device_interfaces_in_db` receives: an interface and its sub-interfaces. */
  datatype InterfaceEntry = InterfaceEntry(intf: Interface, subs: seq<SubInterface>)

  /**
   * One pass of the upsert loop: an interface already stored under that name
   * has its properties copied in place, a new one is appended; either way its
   * sub-interfaces become exactly the given ones. (The source detaches the old
   * sub-interfaces before its delete loop runs, so that loop finds none and
   * they stay in the store unattached, where no modelled read reaches them.)
   */
  function UpsertInterface(nodes: seq<IfNode>, e: InterfaceEntry): seq<IfNode> {
    match FindByName(nodes, e.intf.name)
    case Some(j) => nodes[j := IfNode(CopyIntfcProps(nodes[j].props, e.intf), e.subs)]
    case None => nodes + [IfNode(e.intf, e.subs)]
  }

  /** The upsert loop of `insert_device_interfaces_in_db`. */
  function UpsertInterfaces(nodes: seq<IfNode>, entries: seq<InterfaceEntry>): seq<IfNode> {
    if entries == [] then nodes
    else UpsertInterface(UpsertInterfaces(nodes, entries[..|entries| - 1]), entries[|entries| - 1])
  }

  /** The names the entries carry. */
  function EntryNames(entries: seq<InterfaceEntry>): set<string> {
    set k | 0 <= k < |entries| :: entries[k].intf.name
  }

  /**
   * One upsert keeps names unique, keeps every stored interface at its
   * position with its name, and leaves every interface but its own as it was.
   */
  lemma UpsertInterfaceShape(nodes: seq<IfNode>, e: InterfaceEntry)
    requires UniqueNames(nodes)
    ensures UniqueNames(UpsertInterface(nodes, e))
    ensures |nodes| <= |UpsertInterface(nodes, e)|
    ensures forall j :: 0 <= j < |nodes| ==> UpsertInterface(nodes, e)[j].props.name == nodes[j].props.name
    ensures forall j :: 0 <= j < |nodes| && nodes[j].props.name != e.intf.name ==> UpsertInterface(nodes, e)[j] == nodes[j]
  {
    match FindByName(nodes, e.intf.name)
    case Some(j) =>
      assert CopyIntfcProps(nodes[j].props, e.intf).name == e.intf.name;
    case None =>
  }

  /** One upsert adds its own name to the stored names and no other. */
  lemma UpsertInterfaceNames(nodes: seq<IfNode>, e: InterfaceEntry)
    ensures NameSet(UpsertInterface(nodes, e)) == NameSet(nodes) + {e.intf.name}
  {
    var r := UpsertInterface(nodes, e);
    match FindByName(nodes, e.intf.name)
    case Some(j) =>
      assert CopyIntfcProps(nodes[j].props, e.intf).name == e.intf.name;
      assert forall k :: 0 <= k < |r| ==> r[k].props.name == nodes[k].props.name;
    case None =>
      assert forall k :: 0 <= k < |nodes| ==> r[k] == nodes[k];
      assert r[|nodes|].props.name == e.intf.name;
  }

  /**
   * After the upsert loop names are still unique and the interfaces stored
   * before keep their positions and names; those the input does not name are
   * untouched.
   */
  lemma {:induction false} UpsertInterfacesKeep(nodes: seq<IfNode>, entries: seq<InterfaceEntry>)
    requires UniqueNames(nodes)
    ensures UniqueNames(UpsertInterfaces(nodes, entries))
    ensures |nodes| <= |UpsertInterfaces(nodes, entries)|
    ensures forall j :: 0 <= j < |nodes| ==> UpsertInterfaces(nodes, entries)[j].props.name == nodes[j].props.name
    ensures forall j :: 0 <= j < |nodes| && nodes[j].props.name !in EntryNames(entries) ==>
      UpsertInterfaces(nodes, entries)[j] == nodes[j]
  {
    if entries != [] {
      var init := entries[..|entries| - 1];
      var last := entries[|entries| - 1];
      var mid := UpsertInterfaces(nodes, init);
      UpsertInterfacesKeep(nodes, init);
      UpsertInterfaceShape(mid, last);
      EntryNamesInit(entries);
    }
  }

  /** Names stay unique through the upsert loop. */
  lemma UpsertInterfacesUnique(nodes: seq<IfNode>, entries: seq<InterfaceEntry>)
    requires UniqueNames(nodes)
    ensures UniqueNames(UpsertInterfaces(nodes, entries))
  {
    UpsertInterfacesKeep(nodes, entries);
  }

  /** After the upsert loop the stored names are the names stored before and the input names, each once. */
  lemma {:induction false} UpsertInterfacesNames(nodes: seq<IfNode>, entries: seq<InterfaceEntry>)
    ensures NameSet(UpsertInterfaces(nodes, entries)) == NameSet(nodes) + EntryNames(entries)
  {
    if entries != [] {
      var init := entries[..|entries| - 1];
      var last := entries[|entries| - 1];
      UpsertInterfacesNames(nodes, init);
      UpsertInterfaceNames(UpsertInterfaces(nodes, init), last);
      EntryNamesInit(entries);
    }
  }

  lemma EntryNamesInit(entries: seq<InterfaceEntry>)
    requires entries != []
    ensures EntryNames(entries) == EntryNames(entries[..|entries| - 1]) + {entries[|entries| - 1].intf.name}
  {
    var init := entries[..|entries| - 1];
    assert forall k :: 0 <= k < |init| ==> init[k] == entries[k];
  }

  /** Entry names are pairwise distinct, as the keys of a device's interface list are. */
  predicate DistinctEntries(entries: seq<InterfaceEntry>) {
    forall i, j :: 0 <= i < j < |entries| ==> entries[i].intf.name != entries[j].intf.name
  }

  /** Dropping the last of distinct entries leaves distinct entries, none carrying its name. */
  lemma DistinctEntriesInit(entries: seq<InterfaceEntry>)
    requires DistinctEntries(entries) && entries != []
    ensures DistinctEntries(entries[..|entries| - 1])
    ensures entries[|entries| - 1].intf.name !in EntryNames(entries[..|entries| - 1])
  {
  }

  /** The node an entry leaves in the store, given the interfaces stored before the loop. */
  function StoredInterface(nodes: seq<IfNode>, e: InterfaceEntry): IfNode {
    match FindByName(nodes, e.intf.name)
    case Some(j) => IfNode(CopyIntfcProps(nodes[j].props, e.intf), e.subs)
    case None => IfNode(e.intf, e.subs)
  }

  /**
   * After the upsert loop over distinct names, the interface stored under each
   * input name is the existing one with its properties copied, or the input
   * one when it is new, and its sub-interfaces are exactly the input's.
   */
  lemma {:induction false} UpsertInterfacesValues(nodes: seq<IfNode>, entries: seq<InterfaceEntry>)
    requires UniqueNames(nodes) && DistinctEntries(entries)
    ensures var r := UpsertInterfaces(nodes, entries);
      forall k :: 0 <= k < |entries| ==>
        && FindByName(r, entries[k].intf.name).Some?
        && r[FindByName(r, entries[k].intf.name).value] == StoredInterface(nodes, entries[k])
  {
    if entries != [] {
      var init := entries[..|entries| - 1];
      var last := entries[|entries| - 1];
      var prev := UpsertInterfaces(nodes, init);
      assert forall k :: 0 <= k < |init| ==> init[k] == entries[k];
      DistinctEntriesInit(entries);
      UpsertInterfacesValues(nodes, init);
      UpsertInterfacesUnique(nodes, init);
      var r := UpsertInterface(prev, last);
      assert UpsertInterfaces(nodes, entries) == r;
      forall k | 0 <= k < |entries|
        ensures FindByName(r, entries[k].intf.name).Some?
        ensures r[FindByName(r, entries[k].intf.name).value] == StoredInterface(nodes, entries[k])
      {
        if k < |init| {
          assert entries[k] == init[k];
          EarlierEntryKept(prev, last, init[k].intf.name);
        } else {
          LastEntryStored(nodes, init, last);
        }
      }
    }
  }

  /** A later pass for another name leaves the interface stored under this one where and as it was. */
  lemma EarlierEntryKept(prev: seq<IfNode>, e: InterfaceEntry, name: string)
    requires UniqueNames(prev) && name != e.intf.name && FindByName(prev, name).Some?
    ensures FindByName(UpsertInterface(prev, e), name) == FindByName(prev, name)
    ensures UpsertInterface(prev, e)[FindByName(prev, name).value] == prev[FindByName(prev, name).value]
  {
    UpsertInterfaceShape(prev, e);
    FindByNameUnique(UpsertInterface(prev, e), name, FindByName(prev, name).value);
  }

  /** The last pass stores its entry as the interfaces before the loop dictate, when no earlier pass named it. */
  lemma LastEntryStored(nodes: seq<IfNode>, init: seq<InterfaceEntry>, e: InterfaceEntry)
    requires UniqueNames(nodes) && e.intf.name !in EntryNames(init)
    ensures var r := UpsertInterface(UpsertInterfaces(nodes, init), e);
      && FindByName(r, e.intf.name).Some?
      && r[FindByName(r, e.intf.name).value] == StoredInterface(nodes, e)
  {
    var prev := UpsertInterfaces(nodes, init);
    UpsertInterfacesKeep(nodes, init);
    UpsertInterfacesNames(nodes, init);
    var r := UpsertInterface(prev, e);
    UpsertInterfaceShape(prev, e);
    match FindByName(nodes, e.intf.name)
    case Some(j) =>
      FindByNameUnique(prev, e.intf.name, j);
      FindByNameUnique(r, e.intf.name, j);
    case None =>
      assert FindByName(prev, e.intf.name).None?;
      FindByNameUnique(r, e.intf.name, |prev|);
  }

  /** `get_all_interfaces_name_of_device_from_db`: the names in store order, or None when there are none. */
  function InterfaceNames(nodes: Option<seq<IfNode>>): (r: Option<seq<string>>)
    ensures r.None? <==> nodes.None? || nodes.value == []
    ensures r.Some? ==> |r.value| == |nodes.value| && forall j :: 0 <= j < |r.value| ==> r.value[j] == nodes.value[j].props.name
  {
    if nodes.None? || nodes.value == [] then None
    else Some(seq(|nodes.value|, j requires 0 <= j < |nodes.value| => nodes.value[j].props.name))
  }

  /** The sub-interfaces of one interface with the given ip_address. */
  function SubsWithIp(subs: seq<SubInterface>, ip: string): seq<SubInterface> {
    if subs == [] then []
    else (if subs[0].ipAddress == Some(Str(ip)) then [subs[0]] else []) + SubsWithIp(subs[1..], ip)
  }

  /** Exactly the sub-interfaces with that ip_address are kept. */
  lemma {:induction false} SubsWithIpExactly(subs: seq<SubInterface>, ip: string)
    ensures forall s :: s in SubsWithIp(subs, ip) <==> s in subs && s.ipAddress == Some(Str(ip))
  {
    if subs != [] {
      SubsWithIpExactly(subs[1..], ip);
      assert subs == [subs[0]] + subs[1..];
    }
  }

  /**
   * `get_sub_interface_of_device_from_db`: across the interfaces in order, the
   * first one holding a sub-interface with that ip_address gives the result;
   * `get_or_none` raises when that interface holds several.
   */
  function SubInterfaceByIp(nodes: seq<IfNode>, ip: string): Result<Option<SubInterface>, Error> {
    if nodes == [] then Ok(None)
    else
      var hits := SubsWithIp(nodes[0].subs, ip);
      if |hits| == 1 then Ok(Some(hits[0]))
      else if |hits| > 1 then Err(MultipleNodes)
      else SubInterfaceByIp(nodes[1..], ip)
  }

  /** There is no result exactly when no interface holds a sub-interface with that ip_address. */
  lemma {:induction false} SubInterfaceByIpNone(nodes: seq<IfNode>, ip: string)
    ensures SubInterfaceByIp(nodes, ip) == Ok(None) <==> forall j :: 0 <= j < |nodes| ==> SubsWithIp(nodes[j].subs, ip) == []
  {
    if nodes != [] {
      SubInterfaceByIpNone(nodes[1..], ip);
      assert forall j :: 0 <= j < |nodes| - 1 ==> nodes[1..][j] == nodes[j + 1];
    }
  }

  /**
   * A result is the one sub-interface with that ip_address on an interface
   * such that no earlier interface holds one.
   */
  lemma {:induction false} SubInterfaceByIpFirst(nodes: seq<IfNode>, ip: string)
    requires SubInterfaceByIp(nodes, ip).Ok? && SubInterfaceByIp(nodes, ip).value.Some?
    ensures var s := SubInterfaceByIp(nodes, ip).value.value;
      && s.ipAddress == Some(Str(ip))
      && exists j :: 0 <= j < |nodes| && s in nodes[j].subs && SubsWithIp(nodes[j].subs, ip) == [s] &&
                     forall i :: 0 <= i < j ==> SubsWithIp(nodes[i].subs, ip) == []
  {
    var s := SubInterfaceByIp(nodes, ip).value.value;
    var hits := SubsWithIp(nodes[0].subs, ip);
    SubsWithIpExactly(nodes[0].subs, ip);
    if |hits| == 1 {
      assert hits[0] in hits;
      assert 0 < |nodes| && s in nodes[0].subs && SubsWithIp(nodes[0].subs, ip) == [s];
    } else {
      var rest := nodes[1..];
      SubInterfaceByIpFirst(rest, ip);
      var j :| 0 <= j < |rest| && s in rest[j].subs && SubsWithIp(rest[j].subs, ip) == [s] &&
               forall i :: 0 <= i < j ==> SubsWithIp(rest[i].subs, ip) == [];
      assert forall i :: 0 < i < j + 1 ==> nodes[i] == rest[i - 1];
      assert nodes[j + 1] == rest[j];
    }
  }

  /** The lookup raises only when the first interface holding that ip_address holds it on several sub-interfaces. */
  lemma {:induction false} SubInterfaceByIpRaises(nodes: seq<IfNode>, ip: string)
    requires SubInterfaceByIp(nodes, ip).Err?
    ensures exists j :: 0 <= j < |nodes| && |SubsWithIp(nodes[j].subs, ip)| > 1 &&
                        forall i :: 0 <= i < j ==> SubsWithIp(nodes[i].subs, ip) == []
  {
    var hits := SubsWithIp(nodes[0].subs, ip);
    if |hits| == 0 {
      var rest := nodes[1..];
      SubInterfaceByIpRaises(rest, ip);
      var j :| 0 <= j < |rest| && |SubsWithIp(rest[j].subs, ip)| > 1 &&
               forall i :: 0 <= i < j ==> SubsWithIp(rest[i].subs, ip) == [];
      assert forall i :: 0 < i < j + 1 ==> nodes[i] == rest[i - 1];
      assert nodes[j + 1] == rest[j];
    }
  }
}
