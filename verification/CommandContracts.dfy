/** The command contracts: what `prepare` accepts for a vehicle, and the payload it then sends. */
module CommandContracts {
  import opened Wrappers
  import opened Payloads
  import opened Permissions
  import opened Scheduling

  const AIR_KEYS := {"circle", "mode", "operate", "position", "temperature", "windlevel", "wshld"}
  const CHARGE_KEYS := {"chargeEnable", "chargesoc", "circulation", "cycles", "endtime", "recharge", "starttime"}
  const BUNDLE_KEYS := {"air_condition", "seat_setting", "steeringWheelHeatCtrl", "rearMirrorHeating", "syn_path"}
  const APPOINTMENT_KEYS := {"days", "set_id", "start_time", "update_time"}
  const FAN_TOP_MEASURED := 9
  const EARLIEST_UPDATE := 946684800000
  const LATEST_UPDATE := 4102444800000

  // ----- climate

  function Entry(v: Value, key: string): Value {
    if v.Obj? && key in v.fields then v.fields[key] else Null
  }

  /** The highest fan level for a car with this configuration: 7, or its declared top up to nine. */
  function FanTop(config: Value): (top: int)
    ensures 7 <= top <= FAN_TOP_MEASURED
  {
    var fan := if Entry(config, "valid") == Bool(true) then Entry(Entry(config, "HVAC"), "fan") else Null;
    var low, high := Positive(Entry(fan, "min")), Positive(Entry(fan, "max"));
    if low.Some? && high.Some? && low.value <= high.value then
      var top := if high.value < 7 then 7 else high.value;
      if top < FAN_TOP_MEASURED then top else FAN_TOP_MEASURED
    else 7
  }

  function FanTopOf(v: Vehicle): int {
    FanTop(if "funcConfig" in v.raw then v.raw["funcConfig"] else Null)
  }

  /** A fan level in the very text `str` writes for it. */
  predicate FanLevel(v: Value, top: int) {
    v.Str? && Positive(v).Some? && Positive(v).value <= top && v == Str(Decimal(Positive(v).value))
  }

  const BARE_OFF := Obj(map["operate" := Str("off")])

  predicate FullAir(w: World, v: Vehicle, state: Value) {
    && Fields(state, AIR_KEYS, {})
    && OneOf(state.fields["operate"], {"auto", "manual", "off", "close"})
    && OneOf(state.fields["mode"], {"cold", "hot", "wind", "nohotcold"})
    && OneOf(state.fields["circle"], {"in", "out"})
    && state.fields["position"] == Str("all")
    && FanLevel(state.fields["windlevel"], FanTopOf(v))
    && OneOf(state.fields["wshld"], {"0", "1", "2"})
    && Finite(w, state.fields["temperature"], 16, 32)
  }

  /** The corrections a full climate body receives. */
  function Corrected(fields: map<string, Value>): map<string, Value>
    requires "operate" in fields && "mode" in fields
  {
    if OneOf(fields["operate"], {"off", "close"}) then fields["operate" := Str("off")]
    else if fields["mode"] == Str("wind") then fields["mode" := Str("nohotcold")]
    else fields
  }

  function Air(w: World, v: Vehicle, state: Value): Option<Value> {
    if state == BARE_OFF then Some(state)
    else if FullAir(w, v, state) then Some(Obj(Corrected(state.fields)))
    else None
  }

  // ----- payloads returned as they come

  predicate Navigation(w: World, state: Value) {
    && Fields(state, {"address", "addressname", "latitude", "longitude", "linenum"}, {"addresskey", "config"})
    && (forall k <- ["address", "addressname", "addresskey", "config"] :: k in state.fields ==> Plain(state.fields[k], 512))
    && Finite(w, state.fields["latitude"], -90, 90)
    && Finite(w, state.fields["longitude"], -180, 180)
    && state.fields["linenum"] == Str("0")
  }

  predicate ClockDigit(w: World, c: char) {
    '0' <= c <= '9' || w.otherDigit(c)
  }

  /** `HH:MM`, hours to 23 and minutes to 59; unrestricted digits may be any decimal digits. */
  predicate ClockTime(w: World, v: Value) {
    && v.Str? && |v.s| == 5 && v.s[2] == ':'
    && ((v.s[0] in {'0', '1'} && ClockDigit(w, v.s[1])) || (v.s[0] == '2' && '0' <= v.s[1] <= '3'))
    && '0' <= v.s[3] <= '5' && ClockDigit(w, v.s[4])
  }

  /** Seven flags separated by commas. */
  predicate WeekdayMask(text: string) {
    && |text| == 13
    && forall i :: 0 <= i < 13 ==> if i % 2 == 0 then text[i] in {'0', '1'} else text[i] == ','
  }

  predicate Charge(w: World, state: Value) {
    && Fields(state, CHARGE_KEYS, {})
    && state.fields["chargeEnable"] in {Int(0), Int(1)}
    && state.fields["circulation"].Int? && state.fields["recharge"].Int?
    && state.fields["chargesoc"].Int? && 50 <= state.fields["chargesoc"].n <= 100
    && ClockTime(w, state.fields["starttime"]) && ClockTime(w, state.fields["endtime"])
    && state.fields["cycles"].Str? && WeekdayMask(state.fields["cycles"].s)
    && (state.fields["chargeEnable"] == Int(1) ==> '1' in state.fields["cycles"].s)
  }

  // ----- seats

  predicate KnownRudder(v: Vehicle) {
    OneOf(v.rudder, {"left", "right"})
  }

  /** The physical front seat a position names on this vehicle. */
  function SeatPosition(v: Vehicle, position: Value): Option<string> {
    if OneOf(position, {"driver", "copilot"}) then
      if !KnownRudder(v) then None
      else if (position == Str("driver")) == (v.rudder == Str("left")) then Some("left_front")
      else Some("right_front")
    else if OneOf(position, {"left_front", "right_front"}) then Some(position.s)
    else None
  }

  /** Whether a physical front seat is the driver's, for the choice between abilities 42 and 43. */
  predicate DriverSeat(v: Vehicle, seat: string) {
    (seat == "left_front") == (v.rudder == Str("left"))
  }

  function VentilationAbility(v: Vehicle, seat: string): int {
    if DriverSeat(v, seat) then 42 else 43
  }

  predicate SeatLevel(v: Vehicle, position: string, code: Value) {
    && OneOf(code, {"0", "1", "2", "3", "11", "12", "13"})
    && (code != Str("0") ==>
          && SeatPosition(v, Str(position)).Some?
          && (if OneOf(code, {"11", "12", "13"})
              then RequireAbility(v, "370", VentilationAbility(v, SeatPosition(v, Str(position)).value))
              else Require(v, "301")))
  }

  predicate SeatSetting(v: Vehicle, state: Value) {
    && Fields(state, {"driver", "copilot", "left_rear", "right_rear"}, {})
    && state.fields["left_rear"] == Str("0") && state.fields["right_rear"] == Str("0")
    && SeatLevel(v, "driver", state.fields["driver"]) && SeatLevel(v, "copilot", state.fields["copilot"])
  }

  // ----- preparation bundles

  /** One item of a bundle, without its `enable` flag. */
  function BundleItem(w: World, v: Vehicle, key: string, item: Value): Option<Value> {
    if key == "air_condition" then
      if Require(v, "170") then Air(w, v, item) else None
    else if key == "syn_path" then
      if Require(v, "180") && Navigation(w, item) then Some(item) else None
    else if key == "steeringWheelHeatCtrl" then
      if Require(v, "320") && Fields(item, {"level"}, {}) && OneOf(item.fields["level"], {"1", "2"}) then Some(item) else None
    else if key == "rearMirrorHeating" then
      if Require(v, "440") && Fields(item, {"value"}, {}) && OneOf(item.fields["value"], {"1", "2"}) then Some(item) else None
    else if key == "seat_setting" then
      if SeatSetting(v, item) then Some(item) else None
    else None
  }

  /** One part of a bundle: explicitly enabled, and an item that is prepared. */
  function BundlePart(w: World, v: Vehicle, key: string, part: Value): Option<Value> {
    if !(part.Obj? && "enable" in part.fields && part.fields["enable"] == Bool(true)) then None
    else
      match BundleItem(w, v, key, Obj(part.fields - {"enable"}))
      case Some(Obj(fields)) => Some(Obj(fields["enable" := Bool(true)]))
      case _ => None
  }

  /** Every part prepared under its own key, unless one of them is refused. */
  function AllParts(parts: map<string, Value>, prepare: (string, Value) -> Option<Value>): Option<map<string, Value>> {
    if exists k <- parts.Keys :: prepare(k, parts[k]).None? then None
    else Some(map k | k in parts.Keys :: prepare(k, parts[k]).value)
  }

  /** The loop over the parts of a bundle. */
  method EachPart(parts: map<string, Value>, prepare: (string, Value) -> Option<Value>)
    returns (prepared: Option<map<string, Value>>)
    ensures prepared == AllParts(parts, prepare)
  {
    var out: map<string, Value> := map[];
    var left := parts.Keys;
    while left != {}
      invariant left <= parts.Keys && out.Keys == parts.Keys - left
      invariant forall k <- out.Keys :: prepare(k, parts[k]) == Some(out[k])
      decreases left
    {
      var key :| key in left;
      var part := prepare(key, parts[key]);
      if part.None? {
        return None;
      }
      out := out[key := part.value];
      left := left - {key};
    }
    assert forall k <- parts.Keys :: k in out.Keys && prepare(k, parts[k]) == Some(out[k]);
    assert AllParts(parts, prepare).value == out;
    return Some(out);
  }

  function PartPreparer(w: World, v: Vehicle): (string, Value) -> Option<Value> {
    (key: string, part: Value) => BundlePart(w, v, key, part)
  }

  function Bundle(w: World, v: Vehicle, state: Value): Option<Value> {
    if !Fields(state, {}, BUNDLE_KEYS) || state.fields.Keys == {} then None
    else
      match AllParts(state.fields, PartPreparer(w, v))
      case Some(out) => Some(Obj(out))
      case None => None
  }

  method PrepareBundle(w: World, v: Vehicle, state: Value) returns (prepared: Option<Value>)
    ensures prepared == Bundle(w, v, state)
  {
    if !Fields(state, {}, BUNDLE_KEYS) || state.fields.Keys == {} {
      return None;
    }
    var out := EachPart(state.fields, PartPreparer(w, v));
    return if out.Some? then Some(Obj(out.value)) else None;
  }

  // ----- appointments

  predicate Weekdays(v: Value) {
    && v.List?
    && (forall i :: 0 <= i < |v.items| ==> v.items[i].Int? && 0 <= v.items[i].n <= 6)
    && (forall i, j :: 0 <= i < j < |v.items| ==> v.items[i] != v.items[j])
  }

  /** A start that names exactly one instant of the vehicle's zone, not past unless the days repeat. */
  predicate StartTime(w: World, start: Value, days: seq<Value>) {
    && start.Str? && w.zone.Some? && w.wall(start.s).Some? && w.now.Some?
    && LocalStart(w.zone.value, w.wall(start.s).value).Some?
    && (days == [] ==> w.now.value < LocalStart(w.zone.value, w.wall(start.s).value).value)
  }

  function EntryKeys(cmd: string): set<string> {
    APPOINTMENT_KEYS + if cmd == "171" then {"on"} + AIR_KEYS else {"enable", "datacontent"}
  }

  /** What every entry needs whatever it appoints. */
  predicate EntryFrame(w: World, cmd: string, entry: Value) {
    && Fields(entry, EntryKeys(cmd), {"name", "desc"})
    && Plain(entry.fields["set_id"], 128) && entry.fields["set_id"].s != ""
    && Weekdays(entry.fields["days"])
    && StartTime(w, entry.fields["start_time"], entry.fields["days"].items)
    && Finite(w, entry.fields["update_time"], EARLIEST_UPDATE, LATEST_UPDATE)
  }

  function Restricted(fields: map<string, Value>, keys: set<string>): map<string, Value>
    requires keys <= fields.Keys
  {
    map k | k in keys :: fields[k]
  }

  function AirPreparer(w: World, v: Vehicle): Value -> Option<Value> {
    (state: Value) => Air(w, v, state)
  }

  function BundlePreparer(w: World, v: Vehicle): Value -> Option<Value> {
    (state: Value) => Bundle(w, v, state)
  }

  /** A climate appointment: an enable flag and the seven climate keys among the entry's own. */
  function ClimateEntry(air: Value -> Option<Value>, entry: map<string, Value>): Option<map<string, Value>>
    requires "on" in entry && AIR_KEYS <= entry.Keys
  {
    if !OneOf(entry["on"], {"0", "1"}) then None
    else
      match air(Obj(Restricted(entry, AIR_KEYS)))
      case Some(Obj(prepared)) => Some(entry + prepared)
      case _ => None
  }

  /** A preparation appointment: an enable flag and a bundle. */
  function BundleEntry(bundle: Value -> Option<Value>, entry: map<string, Value>): Option<map<string, Value>>
    requires "enable" in entry && "datacontent" in entry
  {
    if !entry["enable"].Bool? then None
    else
      match bundle(entry["datacontent"])
      case Some(content) => Some(entry["datacontent" := content])
      case None => None
  }

  /** The part of an entry's preparation that does not look at its frame. */
  function EntryFields(w: World, v: Vehicle, cmd: string, f: map<string, Value>): Option<map<string, Value>>
    requires EntryKeys(cmd) <= f.Keys
  {
    if cmd == "171" then ClimateEntry(AirPreparer(w, v), f) else BundleEntry(BundlePreparer(w, v), f)
  }

  function AppointmentEntry(w: World, v: Vehicle, cmd: string, entry: Value): Option<Value> {
    if !EntryFrame(w, cmd, entry) then None
    else
      match EntryFields(w, v, cmd, entry.fields)
      case Some(fields) => Some(Obj(fields))
      case None => None
  }

  /** Whether no two entries have the same identifier. */
  predicate DistinctIds(entries: seq<Value>) {
    forall i, j :: 0 <= i < j < |entries| ==> Entry(entries[i], "set_id") != Entry(entries[j], "set_id")
  }

  /** Every entry prepared in its place, unless one is refused or repeats an identifier. */
  function AllEntries(entries: seq<Value>, prepare: Value -> Option<Value>): (all: Option<seq<Value>>)
    ensures all.Some? ==> |all.value| == |entries|
  {
    if !DistinctIds(entries) || exists i :: 0 <= i < |entries| && prepare(entries[i]).None? then None
    else Some(seq(|entries|, i requires 0 <= i < |entries| => prepare(entries[i]).value))
  }

  /** The loop over the entries, with the identifiers met so far. */
  method EachEntry(entries: seq<Value>, prepare: Value -> Option<Value>) returns (all: Option<seq<Value>>)
    ensures all == AllEntries(entries, prepare)
  {
    var result: seq<Value> := [];
    var ids: set<Value> := {};
    for i := 0 to |entries|
      invariant |result| == i
      invariant forall k :: 0 <= k < i ==> prepare(entries[k]) == Some(result[k])
      invariant forall k :: 0 <= k < i ==> Entry(entries[k], "set_id") in ids
      invariant forall id <- ids :: exists k :: 0 <= k < i && Entry(entries[k], "set_id") == id
      invariant forall k, l :: 0 <= k < l < i ==> Entry(entries[k], "set_id") != Entry(entries[l], "set_id")
    {
      var id := Entry(entries[i], "set_id");
      if id in ids {
        return None;
      }
      var entry := prepare(entries[i]);
      if entry.None? {
        return None;
      }
      ids := ids + {id};
      result := result + [entry.value];
    }
    assert DistinctIds(entries);
    assert result == AllEntries(entries, prepare).value;
    return Some(result);
  }

  function EntryPreparer(w: World, v: Vehicle, cmd: string): Value -> Option<Value> {
    (entry: Value) => AppointmentEntry(w, v, cmd, entry)
  }

  const MOST_APPOINTMENTS := 20

  function Appointment(w: World, v: Vehicle, cmd: string, state: Value): Option<Value> {
    if !Fields(state, {"controls"}, {}) || !state.fields["controls"].List?
       || |state.fields["controls"].items| > MOST_APPOINTMENTS
    then None
    else
      match AllEntries(state.fields["controls"].items, EntryPreparer(w, v, cmd))
      case Some(all) => Some(Obj(map["controls" := List(all)]))
      case None => None
  }

  method PrepareAppointment(w: World, v: Vehicle, cmd: string, state: Value) returns (prepared: Option<Value>)
    ensures prepared == Appointment(w, v, cmd, state)
  {
    if !Fields(state, {"controls"}, {}) || !state.fields["controls"].List?
       || |state.fields["controls"].items| > MOST_APPOINTMENTS
    {
      return None;
    }
    var all := EachEntry(state.fields["controls"].items, EntryPreparer(w, v, cmd));
    return if all.Some? then Some(Obj(map["controls" := List(all.value)])) else None;
  }

  // ----- the commands

  /** The commands with one field of fixed values: the field and the values. */
  function Simple(cmd: string): Option<(string, set<string>)> {
    if cmd == "110" then Some(("value", {"lock", "unlock"}))
    else if cmd == "120" then Some(("value", {"true"}))
    else if cmd == "130" then Some(("value", {"true", "false"}))
    else if cmd == "160" then Some(("value", {"ptcon", "ptcoff"}))
    else if cmd == "192" then Some(("operation", {"unlock"}))
    else if cmd == "193" then Some(("value", {"start", "stop"}))
    else if cmd == "240" then Some(("value", {"0", "10"}))
    else if cmd == "320" then Some(("level", {"1", "2"}))
    else if cmd == "440" then Some(("value", {"1", "2"}))
    else if cmd == "220" then Some(("value", {"0", "1"}))
    else None
  }

  /** The abilities any one of which a command with this payload needs; `None` when no seat is named. */
  function AbilitiesFor(v: Vehicle, cmd: string, state: Value): Option<set<int>>
    requires RuleOf(cmd).Some?
  {
    if cmd == "370" then
      if !KnownRudder(v) then None
      else
        match SeatPosition(v, Entry(state, "position"))
        case Some(seat) => Some({VentilationAbility(v, seat)})
        case None => None
    else if cmd == "193" && Entry(state, "value") == Str("stop") then Some({88})
    else Some(RuleOf(cmd).value.abilities)
  }

  function WindowTop(v: Vehicle): nat {
    if Declared(v, {36}) then 100 else 10
  }

  predicate WindowValue(v: Value, top: nat) {
    exists i: nat :: i <= top && v == Str(Decimal(i))
  }

  function Seat(v: Vehicle, state: Value): Option<Value> {
    if !Fields(state, {"position", "level"}, {}) || !OneOf(state.fields["level"], {"0", "1", "2", "3"}) then None
    else
      match SeatPosition(v, state.fields["position"])
      case Some(seat) => Some(Obj(map["position" := Str(seat), "level" := state.fields["level"]]))
      case None => None
  }

  /** The shapes of payload rules. */
  datatype Kind = Fixed(field: string, values: set<string>) | Windows | Seats | Climate | Destination | ChargePlan
                | Preparation | Appointments | NoKind

  function KindOf(cmd: string): Kind {
    if Simple(cmd).Some? then Fixed(Simple(cmd).value.0, Simple(cmd).value.1)
    else if cmd == "230" then Windows
    else if cmd == "301" || cmd == "370" then Seats
    else if cmd == "170" then Climate
    else if cmd == "180" then Destination
    else if cmd == "190" then ChargePlan
    else if cmd == "360" then Preparation
    else if cmd == "171" || cmd == "361" then Appointments
    else NoKind
  }

  function BodyOfKind(w: World, v: Vehicle, cmd: string, kind: Kind, state: Value): Option<Value> {
    match kind
    case Fixed(field, values) =>
      if Fields(state, {field}, {}) && OneOf(state.fields[field], values) then Some(state) else None
    case Windows =>
      if Fields(state, {"value"}, {}) && WindowValue(state.fields["value"], WindowTop(v)) then Some(state) else None
    case Seats => Seat(v, state)
    case Climate => Air(w, v, state)
    case Destination => if Navigation(w, state) then Some(state) else None
    case ChargePlan => if Charge(w, state) then Some(state) else None
    case Preparation => Bundle(w, v, state)
    case Appointments => Appointment(w, v, cmd, state)
    case NoKind => None
  }

  /** The payload rule of a command, permission aside. */
  function Body(w: World, v: Vehicle, cmd: string, state: Value): Option<Value> {
    BodyOfKind(w, v, cmd, KindOf(cmd), state)
  }

  /** The payload sent for a command, or `None` when nothing is sent. */
  function Prepare(w: World, v: Vehicle, cmd: string, state: Value): Option<Value> {
    if RuleOf(cmd).None? || !state.Obj? then None
    else
      match AbilitiesFor(v, cmd, state)
      case None => None
      case Some(abilities) =>
        if Permits(v, cmd, RuleOf(cmd).value, abilities) then Body(w, v, cmd, state) else None
  }
}
