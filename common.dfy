/**
 * The enumerations of orca_nw_lib/common.py and their OpenConfig string forms:
 * a member's OpenConfig value is its module prefix, ':' and its name, and the
 * helpers that read device data strip that prefix again.
 */
module Common {
  import opened Wrappers
  import opened Text
  import opened RawData

  /** Port speeds. */
  datatype Speed = Speed1GB | Speed5GB | Speed10GB | Speed25GB | Speed40GB | Speed50GB | Speed100GB

  /** `str(speed)`: the member name. */
  function SpeedName(s: Speed): string {
    match s
    case Speed1GB => "SPEED_1GB"
    case Speed5GB => "SPEED_5GB"
    case Speed10GB => "SPEED_10GB"
    case Speed25GB => "SPEED_25GB"
    case Speed40GB => "SPEED_40GB"
    case Speed50GB => "SPEED_50GB"
    case Speed100GB => "SPEED_100GB"
  }

  const SPEED_OC_MODULE := "openconfig-if-ethernet"

  /** `Speed.get_oc_val()`. */
  function SpeedOcVal(s: Speed): string {
    SPEED_OC_MODULE + ":" + SpeedName(s)
  }

  /** Forward error correction modes. */
  datatype PortFec = FecRS | FecFC | FecDisabled | FecAuto

  /** `str(fec)`: the member name. */
  function FecName(f: PortFec): string {
    match f
    case FecRS => "FEC_RS"
    case FecFC => "FEC_FC"
    case FecDisabled => "FEC_DISABLED"
    case FecAuto => "FEC_AUTO"
  }

  const FEC_OC_MODULE := "openconfig-platform-types"

  /** `PortFec.get_oc_val()`. */
  function FecOcVal(f: PortFec): string {
    FEC_OC_MODULE + ":" + FecName(f)
  }

  /** `PortFec.get_enum_from_str(name)`: the member called `name`, if there is one. */
  function FecFromName(name: string): (r: Option<PortFec>)
    ensures r.Some? ==> FecName(r.value) == name
    ensures r.None? ==> forall f: PortFec :: FecName(f) != name
  {
    if name == "FEC_RS" then Some(FecRS)
    else if name == "FEC_FC" then Some(FecFC)
    else if name == "FEC_DISABLED" then Some(FecDisabled)
    else if name == "FEC_AUTO" then Some(FecAuto)
    else None
  }

  /**
   * `getSpeedStrFromOCStr(oc_str)`, i.e. `oc_str.split(":")[1]`: the segment
   * after the first ':'; IndexError when there is no ':'.
   */
  function SpeedStrFromOCStr(oc: string): (r: Result<string, Error>)
    ensures r.Ok? <==> ':' in oc
    ensures r.Ok? ==> ':' !in r.value
    ensures r.Err? ==> r.error == IndexOutOfRange
  {
    SplitSingleIffNoSep(oc, ':');
    SplitSegmentsHaveNoSep(oc, ':');
    var parts := Split(oc, ':');
    if |parts| < 2 then Err(IndexOutOfRange) else Ok(parts[1])
  }

  /**
   * `PortFec.getFecStrFromOCStr(oc_str)`: None for a missing or empty string,
   * otherwise the segment after the first ':' (IndexError when there is none).
   */
  function FecStrFromOCStr(oc: Option<string>): (r: Result<Option<string>, Error>)
    ensures oc.None? || oc == Some("") ==> r == Ok(None)
    ensures oc.Some? && oc.value != "" ==> (r.Ok? <==> ':' in oc.value)
    ensures r.Ok? && r.value.Some? ==> ':' !in r.value.value
  {
    if oc.None? || oc.value == "" then Ok(None)
    else
      var seg :- SpeedStrFromOCStr(oc.value);
      Ok(Some(seg))
  }

  /** Between the first and the second ':' (or the end) lies exactly what both helpers return. */
  lemma SecondSegment(a: string, b: string, rest: string)
    requires ':' !in a && ':' !in b
    requires rest == [] || rest[0] == ':'
    ensures SpeedStrFromOCStr(a + ":" + b + rest) == Ok(b)
  {
    assert a + ":" + b + rest == a + [':'] + (b + rest);
    SplitAtFirstSep(a, b + rest, ':');
    if rest == [] {
      assert b + rest == b;
      SplitWithoutSep(b, ':');
    } else {
      assert b + rest == b + [':'] + rest[1..];
      SplitAtFirstSep(b, rest[1..], ':');
    }
  }

  lemma SpeedNameHasNoColon(s: Speed)
    ensures ':' !in SpeedName(s)
  {
  }

  lemma FecNameHasNoColon(f: PortFec)
    ensures ':' !in FecName(f)
  {
  }

  /** Stripping a speed's OpenConfig value gives back its name. */
  lemma SpeedOcValRoundTrip(s: Speed)
    ensures SpeedStrFromOCStr(SpeedOcVal(s)) == Ok(SpeedName(s))
  {
    SpeedNameHasNoColon(s);
    assert ':' !in SPEED_OC_MODULE;
    assert SpeedOcVal(s) + [] == SpeedOcVal(s);
    SecondSegment(SPEED_OC_MODULE, SpeedName(s), []);
  }

  /** Stripping an FEC mode's OpenConfig value gives back its name. */
  lemma FecOcValRoundTrip(f: PortFec)
    ensures FecStrFromOCStr(Some(FecOcVal(f))) == Ok(Some(FecName(f)))
  {
    FecNameHasNoColon(f);
    assert ':' !in FEC_OC_MODULE;
    assert FecOcVal(f) + [] == FecOcVal(f);
    SecondSegment(FEC_OC_MODULE, FecName(f), []);
  }

  /** Looking a member's name up gives back the member. */
  lemma FecNameRoundTrip(f: PortFec)
    ensures FecFromName(FecName(f)) == Some(f)
  {
  }

  /** VLAN membership tagging modes. */
  datatype VlanTagMode = Tagged | Untagged

  /** `str(mode)`: the member name. */
  function TagModeName(m: VlanTagMode): string {
    match m
    case Tagged => "tagged"
    case Untagged => "untagged"
  }

  /** `VlanTagMode.__hash__`, given Python's string hash. */
  function TagModeHash(m: VlanTagMode, strHash: string -> int): int {
    strHash(TagModeName(m))
  }

  /** `VlanTagMode.__eq__` compares names; equal modes hash equally. */
  lemma TagModeEquality(a: VlanTagMode, b: VlanTagMode, strHash: string -> int)
    ensures a == b <==> TagModeName(a) == TagModeName(b)
    ensures a == b ==> TagModeHash(a, strHash) == TagModeHash(b, strHash)
  {
  }
}
