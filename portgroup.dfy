/**
 * orca_nw_lib/portgroup.py: the raw port-group list of a device mapped to
 * PortGroup records and their member interfaces, the store reads that shape
 * port groups for callers, and the speed command that always rediscovers.
 */
module PortGroup {
  import opened Wrappers
  import opened Text
  import opened RawData
  import opened Common

  /**
   * The `state` container of one `openconfig-port-group:port-group` entry.
   * An entry without `state` reads as a state in which every key is absent.
   */
  datatype RawPortGroupState = RawPortGroupState(
    id: Option<Value>,
    defaultSpeed: Option<string>,
    memberIfStart: Option<string>,
    memberIfEnd: Option<string>,
    validSpeeds: Option<seq<string>>,
    speed: Option<string>)

  /** The PortGroup node as the mapper builds it: speeds already stripped of their OpenConfig prefix. */
  datatype PortGroup = PortGroup(
    portGroupId: Option<Value>,
    speed: string,
    validSpeeds: seq<string>,
    defaultSpeed: string)

  /** One mapped port group with the names of its member interfaces. */
  datatype PortGroupEntry = PortGroupEntry(group: PortGroup, members: seq<string>)

  const ETHERNET := "Ethernet"

  /** `f"Ethernet{n}"`. */
  function EthernetName(n: int): string {
    ETHERNET + IntToString(n)
  }

  /** `int(name.replace("Ethernet", ""))`, with the AttributeError a missing name raises. */
  function MemberNumber(name: Option<string>): Result<int, Error> {
    if name.None? then Err(NoneHasNoAttribute)
    else
      var n := ParseInt(RemoveAll(name.value, ETHERNET));
      if n.None? then Err(InvalidLiteral) else Ok(n.value)
  }

  /** `getSpeedStrFromOCStr` applied to a looked-up value; None has no `split`. */
  function StripOc(oc: Option<string>): Result<string, Error> {
    if oc.None? then Err(NoneHasNoAttribute) else SpeedStrFromOCStr(oc.value)
  }

  /** The `valid_speeds` comprehension: every element stripped, in order. */
  function StripEach(ocs: seq<string>): (r: Result<seq<string>, Error>)
    ensures r.Ok? <==> forall k :: 0 <= k < |ocs| ==> SpeedStrFromOCStr(ocs[k]).Ok?
    ensures r.Ok? ==> |r.value| == |ocs|
    ensures r.Ok? ==> forall k :: 0 <= k < |ocs| ==> SpeedStrFromOCStr(ocs[k]) == Ok(r.value[k])
  {
    if ocs == [] then Ok([])
    else
      var head :- SpeedStrFromOCStr(ocs[0]);
      var tail :- StripEach(ocs[1..]);
      Ok([head] + tail)
  }

  /** The member names `Ethernet<first>` .. `Ethernet<last>`: `range(first, last + 1)`. */
  function MemberRange(first: int, last: int): seq<string>
    decreases last - first
  {
    if last < first then [] else MemberRange(first, last - 1) + [EthernetName(last)]
  }

  /** What one loop iteration reads before it expands the member range. */
  datatype GroupHeader = GroupHeader(group: PortGroup, first: int, last: int)

  /** portgroup.py:36-51: the state reads and the two `int(...)` conversions, in the order the source evaluates them. */
  function ReadGroupState(st: RawPortGroupState): Result<GroupHeader, Error> {
    var defaultSpeed :- StripOc(st.defaultSpeed);
    var validSpeeds :- if st.validSpeeds.None? then Err(NotIterable) else StripEach(st.validSpeeds.value);
    var speed :- StripOc(st.speed);
    var first :- MemberNumber(st.memberIfStart);
    var last :- MemberNumber(st.memberIfEnd);
    Ok(GroupHeader(PortGroup(st.id, speed, validSpeeds, defaultSpeed), first, last))
  }

  /** The record and member list the mapper builds for one raw entry. */
  function MapPortGroup(st: RawPortGroupState): Result<PortGroupEntry, Error> {
    var h :- ReadGroupState(st);
    Ok(PortGroupEntry(h.group, MemberRange(h.first, h.last)))
  }

  /** The whole mapper: entries in raw order; the first entry that raises aborts it. */
  function MapPortGroups(groups: seq<RawPortGroupState>): Result<seq<PortGroupEntry>, Error> {
    MapEach(groups, MapPortGroup)
  }

  /** The member list holds `Ethernet<n>` for every n from first to last, ascending. */
  lemma {:induction false} MemberRangeShape(first: int, last: int)
    ensures |MemberRange(first, last)| == if last < first then 0 else last - first + 1
    ensures forall k :: 0 <= k < |MemberRange(first, last)| ==> MemberRange(first, last)[k] == EthernetName(first + k)
    decreases last - first
  {
    if last >= first {
      var init := MemberRange(first, last - 1);
      MemberRangeShape(first, last - 1);
      assert MemberRange(first, last) == init + [EthernetName(last)];
      assert |init| == last - first;
    }
  }

  /** `int("Ethernet{n}".replace("Ethernet", "")) == n`. */
  lemma MemberNumberOfName(n: int)
    ensures MemberNumber(Some(EthernetName(n))) == Ok(n)
  {
    var digits := IntToString(n);
    var s := EthernetName(n);
    assert s[..|ETHERNET|] == ETHERNET && s[|ETHERNET|..] == digits;
    IntToStringChars(n);
    RemoveAllAbsent(digits, ETHERNET);
    ParseIntToString(n);
  }

  /**
   * With canonical `member-if-start`/`member-if-end` names the member list runs
   * from the one to the other, end - start + 1 names long.
   */
  lemma CanonicalRangeEnds(st: RawPortGroupState, first: int, last: int)
    requires st.memberIfStart == Some(EthernetName(first)) && st.memberIfEnd == Some(EthernetName(last))
    requires first <= last
    requires MapPortGroup(st).Ok?
    ensures var m := MapPortGroup(st).value.members;
      |m| == last - first + 1 && m[0] == st.memberIfStart.value && m[|m| - 1] == st.memberIfEnd.value
  {
    MemberNumberOfName(first);
    MemberNumberOfName(last);
    MemberRangeShape(first, last);
  }

  /** The concrete range `Ethernet0`..`Ethernet3`. */
  lemma RangeExample()
    ensures MemberRange(0, 3) == ["Ethernet0", "Ethernet1", "Ethernet2", "Ethernet3"]
  {
    MemberRangeShape(0, 3);
    assert EthernetName(0) == "Ethernet0" && EthernetName(1) == "Ethernet1";
    assert EthernetName(2) == "Ethernet2" && EthernetName(3) == "Ethernet3";
  }

  /**
   * A mapped entry copies the state's id, strips `speed`, `default-speed` and
   * every `valid-speeds` element (same length, same order), and expands the range.
   */
  lemma MappedGroupFields(st: RawPortGroupState)
    requires MapPortGroup(st).Ok?
    ensures var e := MapPortGroup(st).value;
      && e.group.portGroupId == st.id
      && StripOc(st.speed) == Ok(e.group.speed)
      && StripOc(st.defaultSpeed) == Ok(e.group.defaultSpeed)
      && st.validSpeeds.Some? && |e.group.validSpeeds| == |st.validSpeeds.value|
      && (forall k :: 0 <= k < |st.validSpeeds.value| ==>
            SpeedStrFromOCStr(st.validSpeeds.value[k]) == Ok(e.group.validSpeeds[k]))
      && e.members == MemberRange(MemberNumber(st.memberIfStart).value, MemberNumber(st.memberIfEnd).value)
  {
  }

  /** A missing `valid-speeds` list raises: the comprehension iterates over None. */
  lemma MissingValidSpeedsRaises(st: RawPortGroupState)
    requires StripOc(st.defaultSpeed).Ok? && st.validSpeeds.None?
    ensures MapPortGroup(st) == Err(NotIterable)
  {
  }

  /** The range loop at lines 48-53. */
  method ExpandMemberRange(first: int, last: int) returns (members: seq<string>)
    ensures members == MemberRange(first, last)
  {
    members := [];
    var n := first;
    while n <= last
      invariant first <= n && (n <= last + 1 || n == first)
      invariant members == MemberRange(first, n - 1)
      decreases last - n
    {
      members := members + [EthernetName(n)];
      n := n + 1;
    }
  }

  /**
   * `_create_port_group_graph_objects`: a missing or null port-group list
   * yields no entries.
   */
  method CreatePortGroupObjects(groups: Option<seq<RawPortGroupState>>) returns (r: Result<seq<PortGroupEntry>, Error>)
    ensures r == MapPortGroups(OrEmpty(groups))
  {
    var raw := OrEmpty(groups);
    var entries: seq<PortGroupEntry> := [];
    var i := 0;
    while i < |raw|
      invariant 0 <= i <= |raw|
      invariant MapPortGroups(raw[..i]) == Ok(entries)
    {
      assert raw[..i + 1][..i] == raw[..i];
      var header := ReadGroupState(raw[i]);
      if header.Err? {
        MapEachErrorPersists(raw, MapPortGroup, i + 1);
        return Err(header.error);
      }
      var members := ExpandMemberRange(header.value.first, header.value.last);
      entries := entries + [PortGroupEntry(header.value.group, members)];
      i := i + 1;
    }
    assert raw[..i] == raw;
    r := Ok(entries);
  }

  /**
   * `discover_port_groups` for one device: `stored` says whether the device
   * lookup found it (reading `mgt_ip` of None raises before any fetch); then
   * the port-group fetch and the mapper.
   */
  method DiscoverPortGroups(stored: bool, fetched: Result<Option<seq<RawPortGroupState>>, Error>) returns (r: Result<seq<PortGroupEntry>, Error>)
    ensures !stored ==> r == Err(NoneHasNoAttribute)
    ensures stored && fetched.Err? ==> r == Err(fetched.error)
    ensures stored && fetched.Ok? ==> r == MapPortGroups(OrEmpty(fetched.value))
  {
    if !stored {
      return Err(NoneHasNoAttribute);
    }
    if fetched.Err? {
      return Err(fetched.error);
    }
    r := CreatePortGroupObjects(fetched.value);
  }

  /**
   * `set_port_group_speed`: the device call's outcome is `deviceError`; the
   * rediscovery in `finally` always runs, and `handed` is the snapshot it gives
   * to the port-group store (None when the lookup, fetching or mapping
   * raised). The call's error is re-raised unless the rediscovery raised one of
   * its own.
   */
  method SetPortGroupSpeed(deviceError: Option<Error>, stored: bool, fetched: Result<Option<seq<RawPortGroupState>>, Error>)
    returns (err: Option<Error>, handed: Option<seq<PortGroupEntry>>)
    ensures var d := if !stored then Err(NoneHasNoAttribute) else if fetched.Err? then Err(fetched.error) else MapPortGroups(OrEmpty(fetched.value));
      && handed == (if d.Ok? then Some(d.value) else None)
      && err == (if d.Err? then Some(d.error) else deviceError)
  {
    var discovered := DiscoverPortGroups(stored, fetched);
    handed := if discovered.Ok? then Some(discovered.value) else None;
    err := Reraise(deviceError, if discovered.Err? then Some(discovered.error) else None);
  }

  /**
   * `get_port_group_members`: the properties (`props`, the node's
   * `__properties__`) of each stored member, in order, or an empty list when
   * there are none.
   */
  method PortGroupMembers<T, U>(stored: Option<seq<T>>, props: T -> U) returns (members: seq<U>)
    ensures stored.None? ==> members == []
    ensures stored.Some? ==> |members| == |stored.value|
    ensures stored.Some? ==> forall k :: 0 <= k < |stored.value| ==> members[k] == props(stored.value[k])
  {
    members := [];
    if stored.Some? && stored.value != [] {
      var i := 0;
      while i < |stored.value|
        invariant 0 <= i <= |stored.value|
        invariant members == seq(i, k requires 0 <= k < i => props(stored.value[k]))
      {
        members := members + [props(stored.value[i])];
        i := i + 1;
      }
    }
  }

  /** A port group's properties with the names of its members. */
  datatype PortGroupView = PortGroupView(props: PortGroup, memIntfs: Option<seq<string>>)

  datatype PortGroupsReply = OneGroup(view: PortGroupView) | AllGroups(views: seq<PortGroupView>)

  /**
   * `get_port_groups`: `found` is what the store returns for the requested id,
   * `stored` what it returns for the whole device, and `memberNames` its member
   * names per group id. Asking for an id the store does not hold raises:
   * `db_output` is then None and the source calls `.get` on it.
   */
  method GetPortGroups(
    id: Option<Value>,
    found: Option<PortGroup>,
    stored: Option<seq<PortGroup>>,
    memberNames: Option<Value> -> Option<seq<string>>)
    returns (r: Result<PortGroupsReply, Error>)
    ensures Truthy(id) && found.None? ==> r == Err(NoneHasNoAttribute)
    ensures Truthy(id) && found.Some? ==>
      r == Ok(OneGroup(PortGroupView(found.value, memberNames(found.value.portGroupId))))
    ensures !Truthy(id) ==> r.Ok? && r.value.AllGroups? && |r.value.views| == |OrEmpty(stored)|
    ensures !Truthy(id) ==> forall k :: 0 <= k < |OrEmpty(stored)| ==>
      r.value.views[k] == PortGroupView(OrEmpty(stored)[k], memberNames(OrEmpty(stored)[k].portGroupId))
  {
    if Truthy(id) {
      if found.None? {
        return Err(NoneHasNoAttribute);
      }
      return Ok(OneGroup(PortGroupView(found.value, memberNames(found.value.portGroupId))));
    }
    var groups := OrEmpty(stored);
    var views: seq<PortGroupView> := [];
    var i := 0;
    while i < |groups|
      invariant 0 <= i <= |groups|
      invariant |views| == i
      invariant forall k :: 0 <= k < i ==> views[k] == PortGroupView(groups[k], memberNames(groups[k].portGroupId))
    {
      views := views + [PortGroupView(groups[i], memberNames(groups[i].portGroupId))];
      i := i + 1;
    }
    r := Ok(AllGroups(views));
  }
}
