/**
 * orca_nw_lib/vlan.py, the mapper: the raw VLAN tables of a device joined into
 * Vlan records, each paired with the VLAN_MEMBER_LIST rows that name it.
 */
module Vlan {
  import opened Wrappers
  import opened RawData

  /**
   * A `sonic-vlan:VLAN_LIST` entry. `autostate` distinguishes an absent key
   * (None) from a null one (Some(None)): only absence takes the default.
   */
  datatype RawVlan = RawVlan(vlanid: Option<Value>, name: Option<Value>, autostate: Option<Option<Value>>)

  /** A `sonic-vlan:VLAN_TABLE_LIST` row. */
  datatype RawVlanRow = RawVlanRow(
    name: Option<Value>,
    mtu: Option<Value>,
    adminStatus: Option<Value>,
    operStatus: Option<Value>,
    autostate: Option<Value>)

  /** A `sonic-vlan:VLAN_MEMBER_LIST` row; the mapper passes it on untouched. */
  datatype RawMember = RawMember(name: Option<Value>, ifname: Option<Value>, taggingMode: Option<Value>)

  /** The three tables of one VLAN fetch; each may be missing. */
  datatype RawVlanDetails = RawVlanDetails(
    vlans: Option<seq<RawVlan>>,
    table: Option<seq<RawVlanRow>>,
    members: Option<seq<RawMember>>)

  /** The `config` of one IPv4 `address` entry; a missing key reads as falsy. */
  datatype RawAddress = RawAddress(ip: Option<Value>, prefixLength: Option<Value>)

  /** The IPv4 details fetched per VLAN: its addresses and its static anycast gateways. */
  datatype RawIpDetails = RawIpDetails(addresses: seq<RawAddress>, anycastGateways: seq<Value>)

  /** The Vlan node as the mappers build it. */
  datatype Vlan = Vlan(
    vlanid: Option<Value>,
    name: Option<Value>,
    ipAddress: Option<string>,
    sagIpAddress: Option<Value>,
    autostate: Option<Value>,
    mtu: Option<Value>,
    adminStatus: Option<Value>,
    operStatus: Option<Value>)

  /** One mapped VLAN with its member rows. */
  datatype VlanEntry = VlanEntry(vlan: Vlan, members: seq<RawMember>)

  /** An address whose ip and prefix-length are both truthy. */
  predicate IsComplete(a: RawAddress) {
    Truthy(a.ip) && Truthy(a.prefixLength)
  }

  /** `f"{ip}/{pfx}"`. */
  function AddressString(a: RawAddress): string
    requires IsComplete(a)
  {
    Show(a.ip.value) + "/" + Show(a.prefixLength.value)
  }

  /** The address the source's break-out loop picks. */
  function FirstCompleteAddress(addrs: seq<RawAddress>): Option<string> {
    if addrs == [] then None
    else if IsComplete(addrs[0]) then Some(AddressString(addrs[0]))
    else FirstCompleteAddress(addrs[1..])
  }

  /**
   * The picked address is the first complete one, formatted `ip/prefix`;
   * there is none exactly when no address is complete.
   */
  lemma {:induction false} FirstCompleteAddressIsFirst(addrs: seq<RawAddress>)
    ensures FirstCompleteAddress(addrs).None? <==> forall k :: 0 <= k < |addrs| ==> !IsComplete(addrs[k])
    ensures FirstCompleteAddress(addrs).Some? ==>
      exists k :: 0 <= k < |addrs| && IsComplete(addrs[k]) &&
                  FirstCompleteAddress(addrs).value == AddressString(addrs[k]) &&
                  forall j :: 0 <= j < k ==> !IsComplete(addrs[j])
  {
    if addrs != [] && !IsComplete(addrs[0]) {
      var rest := addrs[1..];
      FirstCompleteAddressIsFirst(rest);
      assert forall k :: 0 <= k < |rest| ==> rest[k] == addrs[k + 1];
      if FirstCompleteAddress(rest).Some? {
        var k :| 0 <= k < |rest| && IsComplete(rest[k]) &&
                 FirstCompleteAddress(rest).value == AddressString(rest[k]) &&
                 forall j :: 0 <= j < k ==> !IsComplete(rest[j]);
        assert forall j :: 0 <= j < k + 1 ==> !IsComplete(addrs[j]) by {
          forall j | 0 < j < k + 1 ensures !IsComplete(addrs[j]) {
            assert addrs[j] == rest[j - 1];
          }
        }
        assert IsComplete(addrs[k + 1]) && FirstCompleteAddress(addrs).value == AddressString(addrs[k + 1]);
      } else {
        forall k | 0 <= k < |addrs| ensures !IsComplete(addrs[k]) {
          if k > 0 {
            assert addrs[k] == rest[k - 1];
          }
        }
      }
    }
  }

  /** The Vlan built for one VLAN_LIST entry, before the table join. */
  function BaseVlan(raw: RawVlan, ip: RawIpDetails, disableToken: string): Vlan {
    Vlan(
      raw.vlanid,
      raw.name,
      FirstCompleteAddress(ip.addresses),
      if |ip.anycastGateways| > 0 then Some(ip.anycastGateways[0]) else None,
      if raw.autostate.None? then Some(Str(disableToken)) else raw.autostate.value,
      None,
      None,
      None)
  }

  /** One VLAN_LIST entry: its IPv4 details are fetched by name, which may raise. */
  function MapRawVlan(raw: RawVlan, ipFetch: Option<Value> -> Result<RawIpDetails, Error>, disableToken: string): Result<Vlan, Error> {
    var ip :- ipFetch(raw.name);
    Ok(BaseVlan(raw, ip, disableToken))
  }

  function RawVlanMapper(ipFetch: Option<Value> -> Result<RawIpDetails, Error>, disableToken: string): RawVlan -> Result<Vlan, Error> {
    raw => MapRawVlan(raw, ipFetch, disableToken)
  }

  /** The four fields a TABLE row sets on a Vlan with its name. */
  function ApplyRow(v: Vlan, row: RawVlanRow): Vlan {
    v.(mtu := row.mtu, adminStatus := row.adminStatus, operStatus := row.operStatus, autostate := row.autostate)
  }

  /** The last TABLE row with the given name. */
  function LastMatch(rows: seq<RawVlanRow>, name: Option<Value>): Option<RawVlanRow> {
    if rows == [] then None
    else if rows[|rows| - 1].name == name then Some(rows[|rows| - 1])
    else LastMatch(rows[..|rows| - 1], name)
  }

  /** A Vlan after the join: the last row with its name wins; without one it is left as it is. */
  function Joined(v: Vlan, rows: seq<RawVlanRow>): Vlan {
    match LastMatch(rows, v.name)
    case None => v
    case Some(row) => ApplyRow(v, row)
  }

  /**
   * The row the join applies carries the Vlan's name and no later row does;
   * there is none exactly when no row carries the name.
   */
  lemma {:induction false} LastMatchIsLast(rows: seq<RawVlanRow>, name: Option<Value>)
    ensures LastMatch(rows, name).None? <==> forall k :: 0 <= k < |rows| ==> rows[k].name != name
    ensures LastMatch(rows, name).Some? ==>
      exists k :: 0 <= k < |rows| && rows[k] == LastMatch(rows, name).value && rows[k].name == name &&
                  forall j :: k < j < |rows| ==> rows[j].name != name
  {
    if rows != [] {
      var n := |rows| - 1;
      if rows[n].name == name {
        assert rows[n] == LastMatch(rows, name).value;
      } else {
        var init := rows[..n];
        LastMatchIsLast(init, name);
        assert forall k :: 0 <= k < |init| ==> init[k] == rows[k];
        if LastMatch(init, name).Some? {
          var k :| 0 <= k < |init| && init[k] == LastMatch(init, name).value && init[k].name == name &&
                   forall j :: k < j < |init| ==> init[j].name != name;
          assert rows[k] == LastMatch(rows, name).value && forall j :: k < j < |rows| ==> rows[j].name != name;
        }
      }
    }
  }

  /** Adding one more row to the join. */
  lemma JoinedStep(v: Vlan, rows: seq<RawVlanRow>, i: nat)
    requires i < |rows|
    ensures Joined(v, rows[..i]).name == v.name
    ensures Joined(v, rows[..i + 1]) ==
      if rows[i].name == v.name then ApplyRow(Joined(v, rows[..i]), rows[i]) else Joined(v, rows[..i])
  {
    assert rows[..i + 1][..i] == rows[..i];
  }

  /** The VLAN_MEMBER_LIST rows naming a VLAN, in their original order. */
  function MembersOf(rows: seq<RawMember>, name: Option<Value>): seq<RawMember> {
    if rows == [] then []
    else if rows[|rows| - 1].name == name then MembersOf(rows[..|rows| - 1], name) + [rows[|rows| - 1]]
    else MembersOf(rows[..|rows| - 1], name)
  }

  /**
   * A VLAN's member list holds exactly the member rows with its name, each as
   * many times as VLAN_MEMBER_LIST holds it.
   */
  lemma {:induction false} MembersOfExactly(rows: seq<RawMember>, name: Option<Value>)
    ensures forall m :: m in MembersOf(rows, name) <==> m in rows && m.name == name
    ensures forall m :: multiset(MembersOf(rows, name))[m] == if m.name == name then multiset(rows)[m] else 0
    ensures |MembersOf(rows, name)| <= |rows|
  {
    if rows != [] {
      var init := rows[..|rows| - 1];
      MembersOfExactly(init, name);
      assert rows == init + [rows[|rows| - 1]];
      assert multiset(rows) == multiset(init) + multiset{rows[|rows| - 1]};
    }
  }

  /**
   * The member rows keep their original order: the member list of two row
   * lists in a row is the member list of the first followed by that of the second.
   */
  lemma {:induction false} MembersOfConcat(a: seq<RawMember>, b: seq<RawMember>, name: Option<Value>)
    ensures MembersOf(a + b, name) == MembersOf(a, name) + MembersOf(b, name)
  {
    if b == [] {
      assert a + b == a;
    } else {
      var init := b[..|b| - 1];
      MembersOfConcat(a, init, name);
      assert (a + b)[..|a + b| - 1] == a + init;
    }
  }

  /** The mapped entries: each base Vlan joined with the TABLE rows and paired with its member rows. */
  function Assemble(base: seq<Vlan>, rows: seq<RawVlanRow>, members: seq<RawMember>): (r: seq<VlanEntry>)
    ensures |r| == |base|
  {
    seq(|base|, k requires 0 <= k < |base| => VlanEntry(Joined(base[k], rows), MembersOf(members, base[k].name)))
  }

  /** `_create_vlan_db_obj` on a fetched snapshot. */
  function VlanSnapshot(details: RawVlanDetails, ipFetch: Option<Value> -> Result<RawIpDetails, Error>, disableToken: string): Result<seq<VlanEntry>, Error> {
    var base :- MapEach(OrEmpty(details.vlans), RawVlanMapper(ipFetch, disableToken));
    Ok(Assemble(base, OrEmpty(details.table), OrEmpty(details.members)))
  }

  /**
   * One entry per VLAN_LIST entry, in order, with vlanid and name copied, the
   * first complete address, the first anycast gateway, and mtu, admin and oper
   * status from the last TABLE row with its name; autostate comes from that row
   * when there is one, else from the entry, else the disable token.
   */
  lemma SnapshotEntries(details: RawVlanDetails, ipFetch: Option<Value> -> Result<RawIpDetails, Error>, disableToken: string)
    requires VlanSnapshot(details, ipFetch, disableToken).Ok?
    ensures var list, rows := OrEmpty(details.vlans), OrEmpty(details.table);
      var r := VlanSnapshot(details, ipFetch, disableToken).value;
      && |r| == |list|
      && forall k :: 0 <= k < |list| ==>
        var v, raw := r[k].vlan, list[k];
        var ip := ipFetch(raw.name);
        var row := LastMatch(rows, raw.name);
        && ip.Ok?
        && v.vlanid == raw.vlanid && v.name == raw.name
        && v.ipAddress == FirstCompleteAddress(ip.value.addresses)
        && v.sagIpAddress == (if ip.value.anycastGateways == [] then None else Some(ip.value.anycastGateways[0]))
        && (row.Some? ==> v.mtu == row.value.mtu && v.adminStatus == row.value.adminStatus &&
                          v.operStatus == row.value.operStatus && v.autostate == row.value.autostate)
        && (row.None? ==> v.mtu == None && v.adminStatus == None && v.operStatus == None &&
                          v.autostate == if raw.autostate.None? then Some(Str(disableToken)) else raw.autostate.value)
        && r[k].members == MembersOf(OrEmpty(details.members), raw.name)
  {
    var list := OrEmpty(details.vlans);
    MapEachEntries(list, RawVlanMapper(ipFetch, disableToken));
  }

  /** The mapper raises exactly when the IPv4 fetch raises for some VLAN. */
  lemma SnapshotRaises(details: RawVlanDetails, ipFetch: Option<Value> -> Result<RawIpDetails, Error>, disableToken: string)
    ensures VlanSnapshot(details, ipFetch, disableToken).Err? <==>
      exists k :: 0 <= k < |OrEmpty(details.vlans)| && ipFetch(OrEmpty(details.vlans)[k].name).Err?
  {
    MapEachOkIffAll(OrEmpty(details.vlans), RawVlanMapper(ipFetch, disableToken));
  }

  /** The break-out loop at lines 54-58. */
  method FirstAddress(addrs: seq<RawAddress>) returns (r: Option<string>)
    ensures r == FirstCompleteAddress(addrs)
  {
    r := None;
    var i := 0;
    while i < |addrs|
      invariant 0 <= i <= |addrs|
      invariant FirstCompleteAddress(addrs) == FirstCompleteAddress(addrs[i..])
    {
      if IsComplete(addrs[i]) {
        r := Some(AddressString(addrs[i]));
        break;
      }
      assert addrs[i..][1..] == addrs[i + 1..];
      i := i + 1;
    }
  }

  /** The loop at lines 43-68: one Vlan per VLAN_LIST entry, each after its IPv4 fetch. */
  method BuildBaseVlans(list: seq<RawVlan>, ipFetch: Option<Value> -> Result<RawIpDetails, Error>, disableToken: string)
    returns (r: Result<seq<Vlan>, Error>)
    ensures r == MapEach(list, RawVlanMapper(ipFetch, disableToken))
  {
    var f := RawVlanMapper(ipFetch, disableToken);
    var vlans: seq<Vlan> := [];
    var i := 0;
    while i < |list|
      invariant 0 <= i <= |list|
      invariant MapEach(list[..i], f) == Ok(vlans)
    {
      assert list[..i + 1][..i] == list[..i];
      var raw := list[i];
      var ip := ipFetch(raw.name);
      if ip.Err? {
        MapEachErrorPersists(list, f, i + 1);
        return Err(ip.error);
      }
      var address := FirstAddress(ip.value.addresses);
      var sag := if ip.value.anycastGateways != [] then Some(ip.value.anycastGateways[0]) else None;
      var autostate := if raw.autostate.None? then Some(Str(disableToken)) else raw.autostate.value;
      vlans := vlans + [Vlan(raw.vlanid, raw.name, address, sag, autostate, None, None, None)];
      i := i + 1;
    }
    assert list[..i] == list;
    r := Ok(vlans);
  }

  /** The nested loop at lines 70-76: every TABLE row updates every Vlan with its name. */
  method JoinTable(vlans: seq<Vlan>, rows: seq<RawVlanRow>) returns (joined: seq<Vlan>)
    ensures |joined| == |vlans|
    ensures forall k :: 0 <= k < |vlans| ==> joined[k] == Joined(vlans[k], rows)
  {
    joined := vlans;
    var i := 0;
    while i < |rows|
      invariant 0 <= i <= |rows|
      invariant |joined| == |vlans|
      invariant forall k :: 0 <= k < |vlans| ==> joined[k] == Joined(vlans[k], rows[..i])
    {
      var row := rows[i];
      var j := 0;
      while j < |joined|
        invariant 0 <= j <= |joined| == |vlans|
        invariant forall k :: 0 <= k < j ==> joined[k] == Joined(vlans[k], rows[..i + 1])
        invariant forall k :: j <= k < |vlans| ==> joined[k] == Joined(vlans[k], rows[..i])
      {
        JoinedStep(vlans[j], rows, i);
        if joined[j].name == row.name {
          joined := joined[j := ApplyRow(joined[j], row)];
        }
        j := j + 1;
      }
      i := i + 1;
    }
    assert rows[..i] == rows;
  }

  /** The nested loop at lines 78-84: each Vlan paired with the member rows naming it. */
  method GroupMembers(vlans: seq<Vlan>, rows: seq<RawMember>) returns (entries: seq<VlanEntry>)
    ensures |entries| == |vlans|
    ensures forall k :: 0 <= k < |vlans| ==> entries[k] == VlanEntry(vlans[k], MembersOf(rows, vlans[k].name))
  {
    entries := [];
    var i := 0;
    while i < |vlans|
      invariant 0 <= i <= |vlans|
      invariant |entries| == i
      invariant forall k :: 0 <= k < i ==> entries[k] == VlanEntry(vlans[k], MembersOf(rows, vlans[k].name))
    {
      var v := vlans[i];
      var members: seq<RawMember> := [];
      var j := 0;
      while j < |rows|
        invariant 0 <= j <= |rows|
        invariant members == MembersOf(rows[..j], v.name)
      {
        assert rows[..j + 1][..j] == rows[..j];
        if v.name == rows[j].name {
          members := members + [rows[j]];
        }
        j := j + 1;
      }
      assert rows[..j] == rows;
      entries := entries + [VlanEntry(v, members)];
      i := i + 1;
    }
  }

  /**
   * `_create_vlan_db_obj`: the VLAN fetch (which may raise), the base records,
   * the TABLE join and the member grouping. A missing VLAN_LIST yields no entries.
   */
  method CreateVlanObjects(
    fetched: Result<RawVlanDetails, Error>,
    ipFetch: Option<Value> -> Result<RawIpDetails, Error>,
    disableToken: string)
    returns (r: Result<seq<VlanEntry>, Error>)
    ensures fetched.Err? ==> r == Err(fetched.error)
    ensures fetched.Ok? ==> r == VlanSnapshot(fetched.value, ipFetch, disableToken)
  {
    if fetched.Err? {
      return Err(fetched.error);
    }
    var details := fetched.value;
    var base := BuildBaseVlans(OrEmpty(details.vlans), ipFetch, disableToken);
    if base.Err? {
      return Err(base.error);
    }
    var joined := JoinTable(base.value, OrEmpty(details.table));
    var entries := GroupMembers(joined, OrEmpty(details.members));
    assert forall k :: 0 <= k < |joined| ==> joined[k].name == base.value[k].name;
    assert entries == Assemble(base.value, OrEmpty(details.table), OrEmpty(details.members));
    r := Ok(entries);
  }
}
