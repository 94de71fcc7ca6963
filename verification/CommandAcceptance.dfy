/** What each command accepts, and on which permissions, in terms of the payload's own texts and numbers. */
module CommandAcceptance {
  import opened Wrappers
  import opened Payloads
  import opened Permissions
  import opened CommandContracts
  import opened Scheduling
  import opened VehicleData

  // ----- commands with one field

  /** The field and the texts of every command of this kind. */
  lemma FixedFields()
    ensures Simple("110") == Some(("value", {"lock", "unlock"})) && Simple("120") == Some(("value", {"true"}))
    ensures Simple("130") == Some(("value", {"true", "false"})) && Simple("160") == Some(("value", {"ptcon", "ptcoff"}))
    ensures Simple("192") == Some(("operation", {"unlock"})) && Simple("193") == Some(("value", {"start", "stop"}))
  {
  }

  lemma MoreFixedFields()
    ensures Simple("240") == Some(("value", {"0", "10"})) && Simple("320") == Some(("level", {"1", "2"}))
    ensures Simple("440") == Some(("value", {"1", "2"})) && Simple("220") == Some(("value", {"0", "1"}))
  {
  }

  lemma OthersAreNotFixed(cmd: string)
    ensures Simple(cmd).Some? ==>
              cmd in ["110", "120", "130", "160", "192", "193", "220", "240", "320", "440"]
  {
  }

  lemma OneField(state: Value, field: string, values: set<string>)
    ensures Fields(state, {field}, {}) && OneOf(state.fields[field], values)
       <==> exists text <- values :: state == Obj(map[field := Str(text)])
  {
    if Fields(state, {field}, {}) && OneOf(state.fields[field], values) {
      var text := state.fields[field].s;
      assert state.fields == map[field := Str(text)];
      assert text in values && state == Obj(map[field := Str(text)]);
    }
  }

  /** Such a command takes exactly an object of that field and one of the texts, and sends it as it is. */
  lemma FixedCommandsTake(w: World, v: Vehicle, cmd: string, state: Value)
    requires Simple(cmd).Some?
    ensures var (field, values) := Simple(cmd).value;
            && (Body(w, v, cmd, state).Some? <==> exists text <- values :: state == Obj(map[field := Str(text)]))
            && (Body(w, v, cmd, state).Some? ==> Body(w, v, cmd, state) == Some(state))
  {
    var (field, values) := Simple(cmd).value;
    OneField(state, field, values);
  }

  // ----- windows and seats

  function Position(n: nat): Value { Obj(map["value" := Str(Decimal(n))]) }

  /** Windows take exactly a whole number from 0 to the top of the declared scale, in its decimal text. */
  lemma WindowsTake(w: World, v: Vehicle, state: Value)
    ensures BodyOfKind(w, v, "230", Windows, state).Some?
       <==> exists n: nat :: n <= (if Declared(v, {36}) then 100 else 10) && state == Position(n)
    ensures BodyOfKind(w, v, "230", Windows, state).Some? ==> BodyOfKind(w, v, "230", Windows, state) == Some(state)
  {
    if Fields(state, {"value"}, {}) && WindowValue(state.fields["value"], WindowTop(v)) {
      var n: nat :| n <= WindowTop(v) && state.fields["value"] == Str(Decimal(n));
      assert state.fields == map["value" := Str(Decimal(n))];
      assert state == Position(n);
    }
    if n: nat :| n <= WindowTop(v) && state == Position(n) {
      assert WindowValue(state.fields["value"], WindowTop(v));
    }
  }

  function SeatState(position: string, level: string): Value {
    Obj(map["position" := Str(position), "level" := Str(level)])
  }

  /** Whether a front seat is named, by side or, where the driving side is known, by who sits there. */
  predicate NamesFrontSeat(v: Vehicle, position: string) {
    || position == "left_front" || position == "right_front"
    || ((position == "driver" || position == "copilot") && (v.rudder == Str("left") || v.rudder == Str("right")))
  }

  predicate IsSeatState(v: Vehicle, state: Value, position: string, level: string) {
    && state == SeatState(position, level) && NamesFrontSeat(v, position)
    && (level == "0" || level == "1" || level == "2" || level == "3")
  }

  /** Seat commands take exactly a named front seat and a level from 0 to 3. */
  lemma SeatsTake(v: Vehicle, state: Value)
    ensures Seat(v, state).Some? <==>
              exists position, level :: IsSeatState(v, state, position, level)
  {
    if Seat(v, state).Some? {
      var position, level := state.fields["position"].s, state.fields["level"].s;
      assert state.fields == map["position" := Str(position), "level" := Str(level)];
      assert IsSeatState(v, state, position, level);
    }
  }

  /** The ventilation of the driver's seat is ability 42, that of the other 43, on either driving side. */
  lemma VentilationAbilities(v: Vehicle)
    requires v.rudder == Str("left") || v.rudder == Str("right")
    ensures SeatPosition(v, Str("driver")).Some? && SeatPosition(v, Str("copilot")).Some?
    ensures VentilationAbility(v, SeatPosition(v, Str("driver")).value) == 42
    ensures VentilationAbility(v, SeatPosition(v, Str("copilot")).value) == 43
    ensures SeatPosition(v, Str("left_front")) == Some("left_front")
    ensures SeatPosition(v, Str("right_front")) == Some("right_front")
    ensures VentilationAbility(v, "left_front") == (if v.rudder == Str("left") then 42 else 43)
    ensures VentilationAbility(v, "right_front") == (if v.rudder == Str("left") then 43 else 42)
  {
  }

  // ----- climate

  /** The decimal text of a level from 1 to a top. */
  ghost predicate IsLevel(v: Value, top: int) {
    exists n: nat :: 1 <= n <= top && v == Str(Decimal(n))
  }

  lemma FanLevelsAreDecimals(v: Value, top: int)
    requires top <= 9
    ensures FanLevel(v, top) <==> IsLevel(v, top)
  {
    if n: nat :| 1 <= n <= top && v == Str(Decimal(n)) {
      DigitsOfDecimal(n);
      assert |Decimal(n)| == 1;
    }
  }

  predicate IsWithin(w: World, v: Value, low: real, high: real) {
    Number(w, v).Some? && low <= Number(w, v).value <= high
  }

  /** One of three texts, or of two if the last is repeated. */
  predicate IsText(v: Value, a: string, b: string, c: string) {
    v == Str(a) || v == Str(b) || v == Str(c)
  }

  /** A full climate body: seven keys, the documented texts, a fan level of the car, and 16 to 32 degrees. */
  ghost predicate IsFullClimate(w: World, v: Vehicle, f: map<string, Value>) {
    && f.Keys == {"circle", "mode", "operate", "position", "temperature", "windlevel", "wshld"}
    && (IsText(f["operate"], "auto", "manual", "off") || f["operate"] == Str("close"))
    && (IsText(f["mode"], "cold", "hot", "wind") || f["mode"] == Str("nohotcold"))
    && IsText(f["circle"], "in", "out", "out")
    && f["position"] == Str("all")
    && IsText(f["wshld"], "0", "1", "2")
    && IsLevel(f["windlevel"], FanTopOf(v))
    && IsWithin(w, f["temperature"], 16.0, 32.0)
  }

  lemma OneOfFour(v: Value, a: string, b: string, c: string, d: string)
    ensures OneOf(v, {a, b, c, d}) <==> IsText(v, a, b, c) || v == Str(d)
  {
  }

  lemma FullBodiesAreFull(w: World, v: Vehicle, f: map<string, Value>)
    ensures FullAir(w, v, Obj(f)) <==> IsFullClimate(w, v, f)
  {
    assert Fields(Obj(f), AIR_KEYS, {}) <==> f.Keys == AIR_KEYS;
    if f.Keys == AIR_KEYS {
      OneOfFour(f["operate"], "auto", "manual", "off", "close");
      OneOfFour(f["mode"], "cold", "hot", "wind", "nohotcold");
      FanLevelsAreDecimals(f["windlevel"], FanTopOf(v));
    }
  }

  /** The climate takes exactly a bare `off` and full bodies. */
  lemma ClimateTakes(w: World, v: Vehicle, state: Value)
    ensures Air(w, v, state).Some? <==>
              state == Obj(map["operate" := Str("off")]) || (state.Obj? && IsFullClimate(w, v, state.fields))
  {
    if state.Obj? {
      FullBodiesAreFull(w, v, state.fields);
    }
  }

  // ----- navigation and charging

  /** A text without control characters, no longer than a limit. */
  predicate IsPlainText(v: Value, limit: nat) {
    match v
    case Str(s) => |s| <= limit && forall i :: 0 <= i < |s| ==> ' ' <= s[i]
    case _ => false
  }

  /** Navigation takes an address, a name, a place on the globe and line 0, and two more plain texts if given. */
  lemma NavigationTakes(w: World, state: Value)
    ensures Navigation(w, state) <==>
              && state.Obj?
              && {"address", "addressname", "latitude", "longitude", "linenum"} <= state.fields.Keys
              && state.fields.Keys <= {"address", "addressname", "latitude", "longitude", "linenum", "addresskey", "config"}
              && IsPlainText(state.fields["address"], 512) && IsPlainText(state.fields["addressname"], 512)
              && ("addresskey" in state.fields ==> IsPlainText(state.fields["addresskey"], 512))
              && ("config" in state.fields ==> IsPlainText(state.fields["config"], 512))
              && IsWithin(w, state.fields["latitude"], -90.0, 90.0)
              && IsWithin(w, state.fields["longitude"], -180.0, 180.0)
              && state.fields["linenum"] == Str("0")
  {
    var keys := ["address", "addressname", "addresskey", "config"];
    assert keys[0] == "address" && keys[1] == "addressname" && keys[2] == "addresskey" && keys[3] == "config";
    assert forall k :: k in keys <==> k == "address" || k == "addressname" || k == "addresskey" || k == "config";
  }

  /** A number below a hundred in two digits. */
  function TwoDigits(n: nat): string
    requires n < 100
  {
    [Digit(n / 10), Digit(n % 10)]
  }

  ghost predicate IsClock(text: string) {
    exists h: nat, m: nat :: h < 24 && m < 60 && text == TwoDigits(h) + ":" + TwoDigits(m)
  }

  lemma TwoDigitsBack(a: char, b: char)
    requires '0' <= a <= '9' && '0' <= b <= '9'
    ensures TwoDigits((a as int - '0' as int) * 10 + (b as int - '0' as int)) == [a, b]
  {
  }

  /** Times of day are those from 00:00 to 23:59, where no other digits than 0 to 9 are used. */
  lemma ClockTimesAreTimes(w: World, text: string)
    requires forall i :: 0 <= i < |text| ==> !w.otherDigit(text[i])
    ensures ClockTime(w, Str(text)) <==> IsClock(text)
  {
    if ClockTime(w, Str(text)) {
      var h := (text[0] as int - '0' as int) * 10 + (text[1] as int - '0' as int);
      var m := (text[3] as int - '0' as int) * 10 + (text[4] as int - '0' as int);
      TwoDigitsBack(text[0], text[1]);
      TwoDigitsBack(text[3], text[4]);
      assert text == [text[0], text[1]] + ":" + [text[3], text[4]];
      assert text == TwoDigits(h) + ":" + TwoDigits(m);
    }
    if h: nat, m: nat :| h < 24 && m < 60 && text == TwoDigits(h) + ":" + TwoDigits(m) {
      assert text[0] == Digit(h / 10) && text[1] == Digit(h % 10) && text[2] == ':';
      assert text[3] == Digit(m / 10) && text[4] == Digit(m % 10);
    }
  }

  /** A charge plan: a switch, two integers, a target of 50 to 100, two times, and a mask with a day if it is on. */
  lemma ChargePlansTake(w: World, state: Value)
    ensures Charge(w, state) <==>
              && state.Obj?
              && state.fields.Keys
                 == {"chargeEnable", "chargesoc", "circulation", "cycles", "endtime", "recharge", "starttime"}
              && (state.fields["chargeEnable"] == Int(0) || state.fields["chargeEnable"] == Int(1))
              && state.fields["circulation"].Int? && state.fields["recharge"].Int?
              && state.fields["chargesoc"].Int? && 50 <= state.fields["chargesoc"].n <= 100
              && ClockTime(w, state.fields["starttime"]) && ClockTime(w, state.fields["endtime"])
              && state.fields["cycles"].Str? && ParseDays(state.fields["cycles"].s).Some?
              && (state.fields["chargeEnable"] == Int(1) ==> true in ParseDays(state.fields["cycles"].s).value)
  {
    if state.Obj? && state.fields.Keys == CHARGE_KEYS && state.fields["cycles"].Str? {
      AcceptedMasksAreReadable(state.fields["cycles"].s);
    }
  }

  // ----- preparation bundles

  predicate IsOneOrTwo(item: Value, field: string) {
    item == Obj(map[field := Str("1")]) || item == Obj(map[field := Str("2")])
  }

  /**
   * Off needs nothing. Heating, levels 1 to 3, needs the permission of seat heating, and ventilation, levels 11
   * to 13, that of the seat's own ability; either needs a known driving side.
   */
  predicate IsPermittedLevel(v: Vehicle, level: Value, ability: int) {
    || level == Str("0")
    || ((v.rudder == Str("left") || v.rudder == Str("right"))
        && ((IsText(level, "1", "2", "3") && Require(v, "301"))
            || (IsText(level, "11", "12", "13") && RequireAbility(v, "370", ability))))
  }

  /** Both front seats at a permitted level, and the rear ones off. */
  predicate IsSeatPair(v: Vehicle, item: Value) {
    && item.Obj? && item.fields.Keys == {"driver", "copilot", "left_rear", "right_rear"}
    && item.fields["left_rear"] == Str("0") && item.fields["right_rear"] == Str("0")
    && IsPermittedLevel(v, item.fields["driver"], 42) && IsPermittedLevel(v, item.fields["copilot"], 43)
  }

  /** What a part of a bundle needs besides its own form: the permission of the command it stands for. */
  predicate IsPermittedItem(w: World, v: Vehicle, key: string, item: Value) {
    || (key == "air_condition" && Require(v, "170") && Air(w, v, item).Some?)
    || (key == "syn_path" && Require(v, "180") && Navigation(w, item))
    || (key == "steeringWheelHeatCtrl" && Require(v, "320") && IsOneOrTwo(item, "level"))
    || (key == "rearMirrorHeating" && Require(v, "440") && IsOneOrTwo(item, "value"))
    || (key == "seat_setting" && IsSeatPair(v, item))
  }

  lemma SeatLevelsTake(v: Vehicle, level: Value)
    ensures SeatLevel(v, "driver", level) <==> IsPermittedLevel(v, level, 42)
    ensures SeatLevel(v, "copilot", level) <==> IsPermittedLevel(v, level, 43)
  {
    if KnownRudder(v) {
      VentilationAbilities(v);
    }
  }

  lemma SeatSettingsTake(v: Vehicle, item: Value)
    ensures SeatSetting(v, item) <==> IsSeatPair(v, item)
  {
    if item.Obj? && "driver" in item.fields && "copilot" in item.fields {
      SeatLevelsTake(v, item.fields["driver"]);
      SeatLevelsTake(v, item.fields["copilot"]);
    }
  }

  /** An item of a bundle is accepted exactly if it is a known one with its own permission. */
  lemma BundleItemsTake(w: World, v: Vehicle, key: string, item: Value)
    ensures BundleItem(w, v, key, item).Some? <==> IsPermittedItem(w, v, key, item)
    ensures BundleItem(w, v, key, item).Some? && key != "air_condition" ==> BundleItem(w, v, key, item) == Some(item)
    ensures BundleItem(w, v, key, item).Some? && key == "air_condition" ==>
              BundleItem(w, v, key, item) == Air(w, v, item)
  {
    SeatSettingsTake(v, item);
    OneField(item, "level", {"1", "2"});
    OneField(item, "value", {"1", "2"});
  }

  /** A part is accepted exactly if it is enabled and its item, without the flag, is accepted. */
  lemma BundlePartsTake(w: World, v: Vehicle, key: string, part: Value)
    ensures BundlePart(w, v, key, part).Some? <==>
              && part.Obj? && "enable" in part.fields && part.fields["enable"] == Bool(true)
              && BundleItem(w, v, key, Obj(part.fields - {"enable"})).Some?
              && BundleItem(w, v, key, Obj(part.fields - {"enable"})).value.Obj?
    ensures BundlePart(w, v, key, part).Some? ==>
              BundlePart(w, v, key, part)
                == Some(Obj(BundleItem(w, v, key, Obj(part.fields - {"enable"})).value.fields["enable" := Bool(true)]))
  {
  }

  /** All parts are prepared exactly if each is, and each is prepared on its own. */
  lemma PartsTogether(parts: map<string, Value>, prepare: (string, Value) -> Option<Value>)
    ensures AllParts(parts, prepare).Some? <==> forall k <- parts.Keys :: prepare(k, parts[k]).Some?
    ensures AllParts(parts, prepare).Some? ==>
              && AllParts(parts, prepare).value.Keys == parts.Keys
              && forall k <- parts.Keys :: prepare(k, parts[k]) == Some(AllParts(parts, prepare).value[k])
  {
  }

  /** A bundle is accepted exactly if it is not empty and all its parts are, and each stays under its own key. */
  lemma BundlesTake(w: World, v: Vehicle, state: Value)
    ensures Bundle(w, v, state).Some? <==>
              && state.Obj? && state.fields != map[]
              && state.fields.Keys
                 <= {"air_condition", "seat_setting", "steeringWheelHeatCtrl", "rearMirrorHeating", "syn_path"}
              && forall key <- state.fields.Keys :: BundlePart(w, v, key, state.fields[key]).Some?
    ensures Bundle(w, v, state).Some? ==>
              && Bundle(w, v, state).value.Obj?
              && Bundle(w, v, state).value.fields.Keys == state.fields.Keys
              && forall key <- state.fields.Keys ::
                   BundlePart(w, v, key, state.fields[key]) == Some(Bundle(w, v, state).value.fields[key])
  {
    if state.Obj? {
      assert state.fields.Keys == {} <==> state.fields == map[];
      PartsTogether(state.fields, PartPreparer(w, v));
    }
  }

  // ----- appointments

  /** The days of an appointment: numbers from 0 to 6, none twice. */
  predicate IsWeek(v: Value) {
    match v
    case List(items) =>
      && (forall item <- items :: item.Int? && 0 <= item.n <= 6)
      && (forall i, j :: 0 <= i < |items| && 0 <= j < |items| && items[i] == items[j] ==> i == j)
    case _ => false
  }

  lemma WeeksAreWeekdays(v: Value)
    ensures Weekdays(v) <==> IsWeek(v)
  {
    if v.List? {
      forall i | 0 <= i < |v.items| ensures v.items[i] in v.items {}
    }
  }

  /**
   * A start is accepted exactly if the clock has a time zone and the start is the wall time of exactly one
   * instant of the vehicle's zone, which lies ahead unless the appointment repeats.
   */
  lemma StartsAreUniqueAndAhead(w: World, start: Value, days: seq<Value>)
    requires w.zone.Some? ==> WellFormed(w.zone.value)
    ensures StartTime(w, start, days) <==>
              && w.zone.Some? && w.now.Some? && start.Str? && w.wall(start.s).Some?
              && exists u :: OnlyInstant(w.zone.value, w.wall(start.s).value, u) && (days != [] || w.now.value < u)
  {
    if w.zone.Some? && start.Str? && w.wall(start.s).Some? {
      AcceptedIffUnique(w.zone.value, w.wall(start.s).value);
    }
  }

  /** What every entry needs: all keys and no others, an identifier, days, a start, and a time of change. */
  lemma EntryFramesTake(w: World, cmd: string, entry: Value)
    ensures EntryFrame(w, cmd, entry) <==>
              && entry.Obj?
              && EntryKeys(cmd) <= entry.fields.Keys <= EntryKeys(cmd) + {"name", "desc"}
              && IsPlainText(entry.fields["set_id"], 128) && entry.fields["set_id"] != Str("")
              && IsWeek(entry.fields["days"])
              && StartTime(w, entry.fields["start_time"], entry.fields["days"].items)
              && IsWithin(w, entry.fields["update_time"], 946684800000.0, 4102444800000.0)
  {
    assert {"days", "set_id", "start_time", "update_time"} <= EntryKeys(cmd);
    if entry.Obj? && EntryKeys(cmd) <= entry.fields.Keys {
      WeeksAreWeekdays(entry.fields["days"]);
    }
  }

  /** The keys of a climate entry are those of the body besides its own; a bundle's stands under one key. */
  lemma KeysOfEntries()
    ensures EntryKeys("171") == {"days", "set_id", "start_time", "update_time", "on", "circle", "mode", "operate",
                                 "position", "temperature", "windlevel", "wshld"}
    ensures EntryKeys("361") == {"days", "set_id", "start_time", "update_time", "enable", "datacontent"}
  {
  }

  /** A climate entry needs its switch and an accepted body, and carries the body as it is sent. */
  lemma ClimateEntriesTake(w: World, v: Vehicle, entry: Value)
    ensures AppointmentEntry(w, v, "171", entry).Some? <==>
              && EntryFrame(w, "171", entry)
              && IsText(entry.fields["on"], "0", "1", "1")
              && Air(w, v, Obj(Restricted(entry.fields, AIR_KEYS))).Some?
    ensures AppointmentEntry(w, v, "171", entry).Some? ==>
              && Air(w, v, Obj(Restricted(entry.fields, AIR_KEYS))).value.Obj?
              && AppointmentEntry(w, v, "171", entry)
                 == Some(Obj(entry.fields + Air(w, v, Obj(Restricted(entry.fields, AIR_KEYS))).value.fields))
  {
  }

  /** A preparation entry needs its switch and an accepted bundle, and carries the bundle as it is sent. */
  lemma BundleEntriesTake(w: World, v: Vehicle, entry: Value)
    ensures AppointmentEntry(w, v, "361", entry).Some? <==>
              && EntryFrame(w, "361", entry)
              && (entry.fields["enable"] == Bool(true) || entry.fields["enable"] == Bool(false))
              && Bundle(w, v, entry.fields["datacontent"]).Some?
    ensures AppointmentEntry(w, v, "361", entry).Some? ==>
              AppointmentEntry(w, v, "361", entry)
                == Some(Obj(entry.fields["datacontent" := Bundle(w, v, entry.fields["datacontent"]).value]))
  {
  }

  lemma EntriesTogether(entries: seq<Value>, prepare: Value -> Option<Value>)
    ensures AllEntries(entries, prepare).Some? <==>
              && (forall i :: 0 <= i < |entries| ==> prepare(entries[i]).Some?)
              && forall i, j :: 0 <= i < j < |entries| ==> Entry(entries[i], "set_id") != Entry(entries[j], "set_id")
    ensures AllEntries(entries, prepare).Some? ==>
              forall i :: 0 <= i < |entries| ==> prepare(entries[i]) == Some(AllEntries(entries, prepare).value[i])
  {
  }

  /** Appointments are at most twenty accepted entries with identifiers of their own, each sent in its place. */
  lemma AppointmentsTake(w: World, v: Vehicle, cmd: string, entries: seq<Value>)
    ensures var sent := Appointment(w, v, cmd, Obj(map["controls" := List(entries)]));
            && (sent.Some? <==>
                  && |entries| <= 20
                  && (forall i :: 0 <= i < |entries| ==> AppointmentEntry(w, v, cmd, entries[i]).Some?)
                  && forall i, j :: 0 <= i < j < |entries| ==> Entry(entries[i], "set_id") != Entry(entries[j], "set_id"))
            && (sent.Some? ==>
                  && sent.value.Obj? && sent.value.fields.Keys == {"controls"} && sent.value.fields["controls"].List?
                  && |sent.value.fields["controls"].items| == |entries|
                  && forall i :: 0 <= i < |entries| ==>
                       AppointmentEntry(w, v, cmd, entries[i]) == Some(sent.value.fields["controls"].items[i]))
  {
    EntriesTogether(entries, EntryPreparer(w, v, cmd));
  }

  /** Nothing but an object with a list of controls makes appointments. */
  lemma OnlyControlsAreAppointments(w: World, v: Vehicle, cmd: string, state: Value)
    ensures Appointment(w, v, cmd, state).Some? ==> exists entries :: state == Obj(map["controls" := List(entries)])
  {
    if Appointment(w, v, cmd, state).Some? {
      var entries := state.fields["controls"].items;
      assert state.fields == map["controls" := List(entries)];
    }
  }

  // ----- all commands

  /** The kind of payload behind each command. */
  lemma KindsOfCommands()
    ensures KindOf("230") == Windows && KindOf("301") == Seats && KindOf("370") == Seats && KindOf("170") == Climate
  {
  }

  lemma KindsOfLists()
    ensures KindOf("171") == Appointments && KindOf("361") == Appointments && KindOf("360") == Preparation
  {
  }

  lemma KindsOfPlans()
    ensures KindOf("180") == Destination && KindOf("190") == ChargePlan
  {
  }

  /** Which abilities a payload asks for: the seat's own for ventilation, 88 for a stop of command 193. */
  lemma AbilitiesAskedFor(v: Vehicle, cmd: string, state: Value)
    requires RuleOf(cmd).Some?
    ensures cmd == "370" ==>
              AbilitiesFor(v, cmd, state)
                == if (v.rudder == Str("left") || v.rudder == Str("right")) && SeatPosition(v, Entry(state, "position")).Some?
                   then Some({VentilationAbility(v, SeatPosition(v, Entry(state, "position")).value)})
                   else None
    ensures cmd == "193" && Entry(state, "value") == Str("stop") ==> AbilitiesFor(v, cmd, state) == Some({88})
    ensures cmd != "370" && !(cmd == "193" && Entry(state, "value") == Str("stop")) ==>
              AbilitiesFor(v, cmd, state) == Some(RuleOf(cmd).value.abilities)
  {
  }

  /** A payload is sent exactly if its command has a rule, it is an object, it is permitted, and its body is accepted. */
  lemma WhatIsSent(w: World, v: Vehicle, cmd: string, state: Value)
    ensures Prepare(w, v, cmd, state).Some? <==>
              && RuleOf(cmd).Some? && state.Obj? && AbilitiesFor(v, cmd, state).Some?
              && Permits(v, cmd, RuleOf(cmd).value, AbilitiesFor(v, cmd, state).value)
              && Body(w, v, cmd, state).Some?
    ensures Prepare(w, v, cmd, state).Some? ==> Prepare(w, v, cmd, state) == Body(w, v, cmd, state)
  {
  }
}
