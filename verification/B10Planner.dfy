/** The offline planner for the B10: capability and operating gates, and the payloads tried on the car. */
module B10Planner {
  import opened Wrappers
  import opened Payloads
  import opened Permissions
  import opened CommandContracts

  /** A capability snapshot. Codes are positive, and absent lists hold none. */
  datatype Snapshot = Snapshot(vin: string, model: string, abilities: set<int>, rights: set<int>,
                               moduleRights: set<int>, owner: Option<bool>, complete: bool, observedAt: int,
                               rightsPresent: bool, moduleRightsPresent: bool)

  predicate WellFormed(s: Snapshot) {
    && (forall c <- s.abilities + s.rights + s.moduleRights :: c > 0)
    && (!s.rightsPresent ==> s.rights == {}) && (!s.moduleRightsPresent ==> s.moduleRights == {})
  }

  datatype OperatingState = OperatingState(vin: string, observedAt: Option<int>, driving: Option<bool>, on3: Option<bool>)

  /** The limits a caller sets; a limit that is not positive is refused. */
  datatype Limits = Limits(capabilityAge: int, stateAge: int, allowStaleParked: bool)

  function Evaluate(s: Snapshot, abilities: set<int>, right: int, now: int, maxAge: int): Option<Decision> {
    if abilities == {} || right <= 0 || (exists code <- abilities :: code <= 0) || maxAge <= 0 then None
    else if now < s.observedAt then Some(Decision(Unknown, SnapshotFromFuture))
    else if now - s.observedAt > maxAge then Some(Decision(Unknown, SnapshotExpired))
    else if !s.complete then Some(Decision(Unknown, SnapshotIncomplete))
    else
      Some(PermissionDecision(s.owner, exists code <- abilities :: code in s.abilities, right in s.rights,
                              CONTROL_MODULE in s.moduleRights, s.rightsPresent, s.moduleRightsPresent))
  }

  function Operating(state: OperatingState, now: int, limits: Limits): Option<Decision> {
    if limits.stateAge <= 0 then None
    else if state.observedAt.None? then Some(Decision(Unknown, StateTimestampMissing))
    else if now < state.observedAt.value || state.observedAt.value <= 0 then Some(Decision(Unknown, StateTimestampInvalid))
    else if state.driving == Some(true) || state.on3 == Some(true) then
      Some(Decision(TemporarilyUnavailable, OperatingStateBlocks))
    else if state.driving.None? || state.on3.None? then Some(Decision(Unknown, OperatingStateIncomplete))
    else if now - state.observedAt.value > limits.stateAge then
      if limits.allowStaleParked then Some(Decision(Available, LastKnownParked)) else Some(Decision(Unknown, StateNotFresh))
    else Some(Decision(Available, Stationary))
  }

  /** When a snapshot is unknown, why; and when it decides, what it says of the abilities, the right and the module. */
  lemma WhatSnapshotsSay(s: Snapshot, abilities: set<int>, right: int, now: int, maxAge: int)
    ensures var decision := Evaluate(s, abilities, right, now, maxAge);
            var valid := abilities != {} && right >= 1 && maxAge >= 1 && forall code <- abilities :: code >= 1;
            var timely := s.observedAt <= now <= s.observedAt + maxAge;
            && (decision.None? <==> !valid)
            && (decision == Some(Decision(Unknown, SnapshotFromFuture)) <==> valid && now < s.observedAt)
            && (decision == Some(Decision(Unknown, SnapshotExpired)) <==> valid && s.observedAt + maxAge < now)
            && (decision == Some(Decision(Unknown, SnapshotIncomplete)) <==> valid && timely && !s.complete)
            && (valid && timely && s.complete ==>
                  decision == Some(PermissionDecision(s.owner, abilities * s.abilities != {}, right in s.rights,
                                                      200 in s.moduleRights, s.rightsPresent, s.moduleRightsPresent)))
  {
    if code :| code in abilities && code in s.abilities {
      assert code in abilities * s.abilities;
    }
  }

  /** Why a car's state does not let a command through, and on which grounds it does. */
  lemma WhatStatesSay(state: OperatingState, now: int, limits: Limits)
    ensures var decision := Operating(state, now, limits);
            var valid := limits.stateAge >= 1;
            var timed := valid && state.observedAt.Some? && 0 < state.observedAt.value <= now;
            var moving := (state.driving.Some? && state.driving.value) || (state.on3.Some? && state.on3.value);
            var parked := timed && !moving && state.driving.Some? && state.on3.Some?;
            && (decision.None? <==> !valid)
            && (decision == Some(Decision(Unknown, StateTimestampMissing)) <==> valid && state.observedAt.None?)
            && (decision == Some(Decision(Unknown, StateTimestampInvalid)) <==>
                  valid && state.observedAt.Some? && !timed)
            && (decision == Some(Decision(TemporarilyUnavailable, OperatingStateBlocks)) <==> timed && moving)
            && (decision == Some(Decision(Unknown, OperatingStateIncomplete)) <==>
                  timed && !moving && (state.driving.None? || state.on3.None?))
            && (decision == Some(Decision(Available, Stationary)) <==>
                  parked && now - state.observedAt.value <= limits.stateAge)
            && (decision == Some(Decision(Available, LastKnownParked)) <==>
                  parked && now - state.observedAt.value > limits.stateAge && limits.allowStaleParked)
            && (decision == Some(Decision(Unknown, StateNotFresh)) <==>
                  parked && now - state.observedAt.value > limits.stateAge && !limits.allowStaleParked)
  {
  }

  function FrontSeatVentilation(s: Snapshot, state: OperatingState, position: Value, rudder: Value, now: int,
                                limits: Limits): Option<Decision>
  {
    if !OneOf(position, {"left_front", "right_front"}) || limits.stateAge <= 0 || state.vin != s.vin then None
    else if s.model != "B10" then Some(Decision(Unknown, ModelContractUnverified))
    else if !OneOf(rudder, {"left", "right"}) then Some(Decision(Unknown, RudderUnknown))
    else
      var driver := position == (if rudder == Str("left") then Str("left_front") else Str("right_front"));
      match Evaluate(s, {if driver then 42 else 43}, 370, now, limits.capabilityAge)
      case None => None
      case Some(decision) => if decision.state.Available? then Operating(state, now, limits) else Some(decision)
  }

  /** The command of an action, except seat ventilation. */
  function CommandOf(action: string): Option<string> {
    if action == "doors" then Some("110")
    else if action == "trunk" then Some("130")
    else if action == "windows" then Some("230")
    else if action == "climate" then Some("170")
    else if action == "seat_heat" then Some("301")
    else if action == "wheel_heat" then Some("320")
    else None
  }

  datatype Payload = Payload(command: string, state: Value)

  function Climate(mode: string, operate: string, temperature: string): Value {
    Obj(map["circle" := Str("in"), "mode" := Str(mode), "operate" := Str(operate), "position" := Str("all"),
            "temperature" := Str(temperature), "windlevel" := Str("3"), "wshld" := Str("0")])
  }

  /** The payloads physically tried, or a refusal. */
  function PrepareB10(action: string, value: Value, position: Value): Option<Payload> {
    if !position.Null? && action != "seat_heat" && action != "seat_ventilation" then None
    else if action == "windows" then
      if value in {Int(0), Int(20), Int(50), Int(100)} then
        Some(Payload("230", Obj(map["value" := Str(Decimal(value.n / 10))])))
      else None
    else if action == "doors" then
      if OneOf(value, {"lock", "unlock"}) then Some(Payload("110", Obj(map["value" := value]))) else None
    else if action == "trunk" then
      if value.Bool? then Some(Payload("130", Obj(map["value" := Str(if value.b then "true" else "false")]))) else None
    else if action == "seat_heat" || action == "seat_ventilation" then
      if OneOf(position, {"left_front", "right_front"}) && value in {Int(0), Int(1)} then
        Some(Payload(if action == "seat_heat" then "301" else "370",
                     Obj(map["position" := position, "level" := Str(Decimal(value.n))])))
      else None
    else if action == "wheel_heat" then
      if value.Bool? then Some(Payload("320", Obj(map["level" := Str(if value.b then "2" else "1")]))) else None
    else if action == "climate" then
      if value == Str("off") then Some(Payload("170", BARE_OFF))
      else if value == Str("auto22") then Some(Payload("170", Climate("nohotcold", "auto", "22")))
      else if value == Str("cold22") then Some(Payload("170", Climate("cold", "manual", "22")))
      else if value == Str("hot26") then Some(Payload("170", Climate("hot", "manual", "26")))
      else if value == Str("ventilation26") then Some(Payload("170", Climate("nohotcold", "manual", "26")))
      else None
    else None
  }

  /** The commands behind the actions. */
  lemma CommandsOfActions(action: string)
    ensures CommandOf("doors") == Some("110") && CommandOf("trunk") == Some("130") && CommandOf("windows") == Some("230")
    ensures CommandOf("climate") == Some("170") && CommandOf("seat_heat") == Some("301")
    ensures CommandOf("wheel_heat") == Some("320")
    ensures CommandOf(action).Some? ==>
              action in ["doors", "trunk", "windows", "climate", "seat_heat", "wheel_heat"]
  {
  }

  function OneText(key: string, text: string): Value { Obj(map[key := Str(text)]) }

  /** A door payload carries the very word asked for. */
  lemma DoorsCarryTheWord(value: Value, position: Value)
    ensures PrepareB10("doors", value, position)
         == if position == Null && (value == Str("lock") || value == Str("unlock"))
            then Some(Payload("110", OneText("value", value.s))) else None
  {
  }

  /** A trunk payload says "true" to open and "false" to close. */
  lemma TrunksCarryTheFlag(value: Value, position: Value)
    ensures PrepareB10("trunk", value, position).Some? <==> position == Null && value.Bool?
    ensures PrepareB10("trunk", Bool(true), Null) == Some(Payload("130", OneText("value", "true")))
    ensures PrepareB10("trunk", Bool(false), Null) == Some(Payload("130", OneText("value", "false")))
  {
  }

  /** A window payload carries a tenth of the percentage asked for, which is 0, 20, 50 or 100. */
  lemma WindowsCarryTenths(value: Value, position: Value)
    ensures PrepareB10("windows", value, position).Some? <==>
              position == Null && value.Int? && (value.n == 0 || value.n == 20 || value.n == 50 || value.n == 100)
    ensures PrepareB10("windows", value, position).Some? ==>
              exists text :: PrepareB10("windows", value, position) == Some(Payload("230", OneText("value", text)))
                             && PlainDigits(text) && 10 * DigitsValue(text) == value.n && Decimal(DigitsValue(text)) == text
  {
    if PrepareB10("windows", value, position).Some? {
      DigitsOfDecimal(value.n / 10);
      assert PrepareB10("windows", value, position)
          == Some(Payload("230", OneText("value", Decimal(value.n / 10))));
    }
  }

  /** A seat payload names the seat asked for and carries its level, off or on. */
  lemma SeatsCarryPositionAndLevel(action: string, value: Value, position: Value)
    requires action == "seat_heat" || action == "seat_ventilation"
    ensures PrepareB10(action, value, position).Some? <==>
              (position == Str("left_front") || position == Str("right_front")) && (value == Int(0) || value == Int(1))
    ensures PrepareB10(action, value, position).Some? ==>
              PrepareB10(action, value, position)
                == Some(Payload(if action == "seat_heat" then "301" else "370",
                                Obj(map["position" := position, "level" := Str(if value == Int(0) then "0" else "1")])))
  {
    assert Decimal(0) == "0" && Decimal(1) == "1";
  }

  /** A wheel payload says "2" to heat and "1" to stop. */
  lemma WheelsCarryTheFlag(value: Value, position: Value)
    ensures PrepareB10("wheel_heat", value, position).Some? <==> position == Null && value.Bool?
    ensures PrepareB10("wheel_heat", Bool(true), Null) == Some(Payload("320", OneText("level", "2")))
    ensures PrepareB10("wheel_heat", Bool(false), Null) == Some(Payload("320", OneText("level", "1")))
  {
  }

  /** A climate body as tried: inside air, all seats, fan level 3, no defrosting, and what the word asks for. */
  lemma ClimateBodies(mode: string, operate: string, temperature: string)
    ensures var state := Climate(mode, operate, temperature);
            && state.Obj? && state.fields.Keys == AIR_KEYS
            && state.fields["operate"] == Str(operate) && state.fields["mode"] == Str(mode)
            && state.fields["temperature"] == Str(temperature)
            && state.fields["circle"] == Str("in") && state.fields["position"] == Str("all")
            && state.fields["windlevel"] == Str("3") && state.fields["wshld"] == Str("0")
  {
  }

  /** What each climate word sends. */
  lemma ClimateWords()
    ensures PrepareB10("climate", Str("off"), Null) == Some(Payload("170", OneText("operate", "off")))
    ensures PrepareB10("climate", Str("auto22"), Null) == Some(Payload("170", Climate("nohotcold", "auto", "22")))
    ensures PrepareB10("climate", Str("cold22"), Null) == Some(Payload("170", Climate("cold", "manual", "22")))
    ensures PrepareB10("climate", Str("hot26"), Null) == Some(Payload("170", Climate("hot", "manual", "26")))
    ensures PrepareB10("climate", Str("ventilation26"), Null) == Some(Payload("170", Climate("nohotcold", "manual", "26")))
  {
  }

  /** There are no other climate words. */
  lemma OnlyTheseClimateWords(value: Value, position: Value)
    ensures PrepareB10("climate", value, position).Some? ==>
              && position == Null && value.Str?
              && value.s in ["off", "auto22", "cold22", "hot26", "ventilation26"]
  {
  }

  /** Nothing is tried for another action, nor for a position where none is due. */
  lemma NothingElseIsTried(action: string, value: Value, position: Value)
    ensures PrepareB10(action, value, position).Some? ==>
              && (action == "seat_ventilation" || CommandOf(action).Some?)
              && (position != Null ==> action == "seat_heat" || action == "seat_ventilation")
  {
  }

  datatype Plan = Plan(decision: Decision, payload: Option<Payload>)

  /** A plan, or `None` when the call itself is refused. */
  function PlanB10(s: Snapshot, state: OperatingState, action: string, now: int, limits: Limits, value: Value,
                   position: Value, rudder: Value): Option<Plan>
  {
    if state.vin != s.vin || limits.stateAge <= 0 then None
    else if s.model != "B10" then Some(Plan(Decision(Unknown, ModelContractUnverified), None))
    else if action != "seat_ventilation" && CommandOf(action).None? then
      Some(Plan(Decision(Unknown, CommandContractUnverified), None))
    else
      var gate :=
        if action == "seat_ventilation" then FrontSeatVentilation(s, state, position, rudder, now, limits)
        else
          var rule := RuleOf(CommandOf(action).value).value;
          Evaluate(s, rule.abilities, rule.right, now, limits.capabilityAge);
      match (gate, Operating(state, now, limits))
      case (Some(decision), Some(operating)) =>
        if !decision.state.Available? then Some(Plan(decision, None))
        else if !operating.state.Available? then Some(Plan(operating, None))
        else
          (match PrepareB10(action, value, position)
           case Some(payload) => Some(Plan(operating, Some(payload)))
           case None => None)
      case _ => None
  }

  /** Whether the planner emits this payload. */
  predicate Emits(s: Snapshot, state: OperatingState, action: string, now: int, limits: Limits, value: Value,
                  position: Value, rudder: Value, payload: Payload)
  {
    var plan := PlanB10(s, state, action, now, limits, value, position, rudder);
    plan.Some? && plan.value.payload == Some(payload)
  }

  // ----- the planner refines the contracts

  /**
   * A vehicle and a snapshot of the same car: the contract reads the snapshot's owner and abilities from it, it
   * has the same rights, and the same lists are present.
   */
  ghost predicate Corresponds(s: Snapshot, v: Vehicle) {
    && WellFormed(s) && s.owner == Some(Owner(v))
    && (forall code :: Declared(v, {code}) <==> code in s.abilities)
    && v.rights == s.rights && v.moduleRights == s.moduleRights
    && ListPresent(v, "rightList") == s.rightsPresent
    && ListPresent(v, "moduleRights") == s.moduleRightsPresent
  }

  /** Declaring any of several codes is declaring one of them. */
  lemma DeclaredIsAny(v: Vehicle, codes: set<int>)
    ensures Declared(v, codes) <==> exists code <- codes :: Declared(v, {code})
  {
    if Declared(v, codes) {
      if "abilities" in v.raw && v.raw["abilities"].List? {
        var code :| code in codes && Lists(v.raw["abilities"].items, code);
        assert Declared(v, {code});
      } else {
        var code :| code in codes && code in v.abilities;
        assert Declared(v, {code});
      }
    }
  }

  /** Fresh and complete: the snapshot's decision is its permission decision. */
  predicate Current(s: Snapshot, now: int, maxAge: int) {
    maxAge > 0 && s.observedAt <= now <= s.observedAt + maxAge && s.complete
  }

  /**
   * For a known owner and a current snapshot, planner and contract agree on availability, except that the
   * planner also asks for the ability where the contract knows it to be no usable gate.
   */
  lemma AvailabilityParity(s: Snapshot, v: Vehicle, cmd: string, abilities: set<int>, now: int, maxAge: int)
    requires Corresponds(s, v) && RuleOf(cmd).Some?
    requires abilities != {} && forall code <- abilities :: code > 0
    ensures var decision := Evaluate(s, abilities, RuleOf(cmd).value.right, now, maxAge);
            decision.Some? && decision.value.state.Available? <==>
              && Current(s, now, maxAge)
              && Permits(v, cmd, RuleOf(cmd).value, abilities)
              && exists code <- abilities :: code in s.abilities
  {
    PermitsMeans(v, cmd, RuleOf(cmd).value, abilities);
    DeclaredIsAny(v, abilities);
    assert Declared(v, abilities) <==> exists code <- abilities :: code in s.abilities;
  }

  /**
   * On a current snapshot the two decisions are of the same kind unless the car lacks the ability and the
   * contract does not ask for it. They also give the same reason unless, besides, a shared car has the ability
   * and lacks a list that decides: the planner calls it missing, the contract denied.
   */
  lemma WherePlannerAndContractDiffer(s: Snapshot, v: Vehicle, cmd: string, abilities: set<int>, now: int, maxAge: int)
    requires Corresponds(s, v) && RuleOf(cmd).Some?
    requires abilities != {} && (forall code <- abilities :: code > 0) && Current(s, now, maxAge)
    ensures var planned := Evaluate(s, abilities, RuleOf(cmd).value.right, now, maxAge);
            var contracted := DecisionFor(v, cmd, RuleOf(cmd).value, abilities);
            var able := exists code <- abilities :: code in s.abilities;
            && planned.Some?
            && (planned.value.state == contracted.state <==> able || !AbilityNotGated(cmd))
            && (planned.value.reason == contracted.reason <==>
                  if !able then !AbilityNotGated(cmd)
                  else s.owner.value || (s.moduleRightsPresent && (CONTROL_MODULE !in s.moduleRights || s.rightsPresent)))
  {
    DeclaredIsAny(v, abilities);
    assert Declared(v, abilities) <==> exists code <- abilities :: code in s.abilities;
  }

  /** For instance the climate of an owned car that does not declare its ability: one refuses, the other permits. */
  lemma OwnedCarWithoutClimateAbility(now: int)
    ensures var s := Snapshot("vin", "B10", {10}, {}, {}, Some(true), true, now, false, false);
            var v := Vehicle("vin", Some(false), Str("left"), map["vin" := Str("vin")], {10}, {}, {});
            && Corresponds(s, v)
            && Evaluate(s, {6}, 170, now, 1) == Some(Decision(Unsupported, AbilityAbsent))
            && DecisionFor(v, "170", RuleOf("170").value, {6}) == Decision(Available, ExplicitAbilityAndPermission)
  {
  }

  /** For instance the locks of a shared car whose entry has neither list. */
  lemma SharedCarWithoutLists(now: int)
    ensures var s := Snapshot("vin", "B10", {10}, {}, {}, Some(false), true, now, false, false);
            var v := Vehicle("vin", Some(true), Str("left"), map["abilities" := List([Int(10)])], {}, {}, {});
            && Corresponds(s, v)
            && Evaluate(s, {10}, 110, now, 1) == Some(Decision(Forbidden, ControlModuleMissing))
            && DecisionFor(v, "110", RuleOf("110").value, {10}) == Decision(Forbidden, ControlModuleDenied)
  {
    var v := Vehicle("vin", Some(true), Str("left"), map["abilities" := List([Int(10)])], {}, {}, {});
    var items := v.raw["abilities"].items;
    assert Positive(items[0]) == Some(10);
    forall code ensures Declared(v, {code}) <==> code == 10 {
      assert Lists(items, code) <==> code == 10;
    }
    assert 10 in {10} && Declared(v, {10});
  }

  /** A fixpoint of its command's body rule. */
  predicate Settled(w: World, v: Vehicle, payload: Payload) {
    payload.state.Obj? && Body(w, v, payload.command, payload.state) == Some(payload.state)
  }

  lemma TriedText(w: World, v: Vehicle, cmd: string, field: string, values: set<string>, text: Value)
    requires Simple(cmd) == Some((field, values)) && OneOf(text, values)
    ensures Settled(w, v, Payload(cmd, Obj(map[field := text])))
  {
  }

  lemma TriedWindows(w: World, v: Vehicle, n: nat)
    requires n <= 10
    ensures Settled(w, v, Payload("230", Obj(map["value" := Str(Decimal(n))])))
  {
    assert WindowValue(Str(Decimal(n)), WindowTop(v));
  }

  lemma TriedSeats(w: World, v: Vehicle, cmd: string, position: Value, level: Value)
    requires cmd == "301" || cmd == "370"
    requires OneOf(position, {"left_front", "right_front"}) && OneOf(level, {"0", "1"})
    ensures Settled(w, v, Payload(cmd, Obj(map["position" := position, "level" := level])))
  {
    var state := Obj(map["position" := position, "level" := level]);
    assert SeatPosition(v, position) == Some(position.s);
    assert Seat(v, state) == Some(state);
  }

  lemma DigitsValues()
    ensures PlainDigits("3") && DigitsValue("3") == 3 && Decimal(3) == "3"
    ensures PlainDigits("22") && DigitsValue("22") == 22
    ensures PlainDigits("26") && DigitsValue("26") == 26
  {
    assert "22"[..1] == "2" && "26"[..1] == "2" && "2"[..0] == "" && "3"[..0] == "";
    assert DigitsValue("2") == 2;
  }

  lemma TriedTemperature(w: World, text: string)
    requires text == "22" || text == "26"
    ensures Finite(w, Str(text), 16, 32)
  {
    DigitsValues();
  }

  lemma TriedFanLevel(v: Vehicle)
    ensures FanLevel(Str("3"), FanTopOf(v))
  {
    DigitsValues();
    assert Positive(Str("3")) == Some(3);
  }

  /** A full climate body in a mode that needs no correction. */
  predicate PlainClimate(w: World, v: Vehicle, state: Value) {
    && state.Obj? && state.fields.Keys == AIR_KEYS
    && OneOf(state.fields["operate"], {"auto", "manual"}) && OneOf(state.fields["mode"], {"nohotcold", "cold", "hot"})
    && state.fields["circle"] == Str("in") && state.fields["position"] == Str("all")
    && FanLevel(state.fields["windlevel"], FanTopOf(v)) && state.fields["wshld"] == Str("0")
    && Finite(w, state.fields["temperature"], 16, 32)
  }

  lemma PlainClimateSettles(w: World, v: Vehicle, state: Value)
    requires PlainClimate(w, v, state)
    ensures Air(w, v, state) == Some(state)
  {
    assert FullAir(w, v, state);
    assert "mode" in state.fields && "mode" !in BARE_OFF.fields;
    assert Corrected(state.fields) == state.fields;
  }

  lemma AirIsTheBody(w: World, v: Vehicle, state: Value)
    requires state.Obj? && Air(w, v, state) == Some(state)
    ensures Settled(w, v, Payload("170", state))
  {
  }

  /** The climate bodies tried on the car are full bodies that need no correction. */
  lemma TriedClimates(w: World, v: Vehicle, mode: string, operate: string, temperature: string)
    requires OneOf(Str(mode), {"nohotcold", "cold", "hot"}) && OneOf(Str(operate), {"auto", "manual"})
    requires Finite(w, Str(temperature), 16, 32)
    ensures PlainClimate(w, v, Climate(mode, operate, temperature))
  {
    TriedFanLevel(v);
    assert Climate(mode, operate, temperature).fields.Keys == AIR_KEYS;
  }

  lemma PlannedSeats(w: World, v: Vehicle, action: string, value: Value, position: Value)
    requires action == "seat_heat" || action == "seat_ventilation"
    requires PrepareB10(action, value, position).Some?
    ensures Settled(w, v, PrepareB10(action, value, position).value)
  {
    assert Decimal(0) == "0" && Decimal(1) == "1";
    TriedSeats(w, v, if action == "seat_heat" then "301" else "370", position, Str(Decimal(value.n)));
  }

  lemma PlannedClimate(w: World, v: Vehicle, mode: string, operate: string, temperature: string)
    requires OneOf(Str(mode), {"nohotcold", "cold", "hot"}) && OneOf(Str(operate), {"auto", "manual"})
    requires temperature == "22" || temperature == "26"
    ensures Settled(w, v, Payload("170", Climate(mode, operate, temperature)))
  {
    var state := Climate(mode, operate, temperature);
    TriedTemperature(w, temperature);
    TriedClimates(w, v, mode, operate, temperature);
    PlainClimateSettles(w, v, state);
    AirIsTheBody(w, v, state);
  }

  lemma PlannedClimates(w: World, v: Vehicle, value: Value)
    requires PrepareB10("climate", value, Null).Some?
    ensures Settled(w, v, PrepareB10("climate", value, Null).value)
  {
    if value == Str("auto22") { PlannedClimate(w, v, "nohotcold", "auto", "22"); }
    else if value == Str("cold22") { PlannedClimate(w, v, "cold", "manual", "22"); }
    else if value == Str("hot26") { PlannedClimate(w, v, "hot", "manual", "26"); }
    else if value == Str("ventilation26") { PlannedClimate(w, v, "nohotcold", "manual", "26"); }
    else { AirIsTheBody(w, v, BARE_OFF); }
  }

  lemma PlannedTexts(w: World, v: Vehicle, action: string, value: Value)
    requires action == "doors" || action == "trunk" || action == "wheel_heat"
    requires PrepareB10(action, value, Null).Some?
    ensures Settled(w, v, PrepareB10(action, value, Null).value)
  {
    if action == "doors" { TriedText(w, v, "110", "value", {"lock", "unlock"}, value); }
    else if action == "trunk" { TriedText(w, v, "130", "value", {"true", "false"}, Str(if value.b then "true" else "false")); }
    else { TriedText(w, v, "320", "level", {"1", "2"}, Str(if value.b then "2" else "1")); }
  }

  lemma PlannedWindows(w: World, v: Vehicle, value: Value)
    requires PrepareB10("windows", value, Null).Some?
    ensures Settled(w, v, PrepareB10("windows", value, Null).value)
  {
    TriedWindows(w, v, value.n / 10);
  }

  /** Every payload tried on the car is a fixpoint of its command's body rule, on every vehicle. */
  lemma TriedBodies(w: World, v: Vehicle, action: string, value: Value, position: Value)
    requires PrepareB10(action, value, position).Some?
    ensures Settled(w, v, PrepareB10(action, value, position).value)
  {
    if action == "seat_heat" || action == "seat_ventilation" {
      PlannedSeats(w, v, action, value, position);
    } else {
      assert position == Null;
      if action == "climate" { PlannedClimates(w, v, value); }
      else if action == "windows" { PlannedWindows(w, v, value); }
      else { PlannedTexts(w, v, action, value); }
    }
  }

  lemma TriedCommands(action: string, value: Value, position: Value)
    requires PrepareB10(action, value, position).Some?
    ensures var payload := PrepareB10(action, value, position).value;
            && (action == "seat_ventilation" ==> payload.command == "370" && Entry(payload.state, "position") == position)
            && (action != "seat_ventilation" ==> CommandOf(action) == Some(payload.command))
  {
  }

  /** A decision that lets a command through. */
  predicate LetsThrough(decision: Option<Decision>) {
    decision.Some? && decision.value.state.Available?
  }

  /** The capability gate of an action. */
  predicate Gate(s: Snapshot, state: OperatingState, action: string, now: int, limits: Limits, position: Value,
                 rudder: Value)
  {
    if action == "seat_ventilation" then LetsThrough(FrontSeatVentilation(s, state, position, rudder, now, limits))
    else
      && CommandOf(action).Some?
      && var rule := RuleOf(CommandOf(action).value).value;
         LetsThrough(Evaluate(s, rule.abilities, rule.right, now, limits.capabilityAge))
  }

  /** Ventilation is let through for a front seat of a B10 with a known side, by the seat's own ability, when parked. */
  lemma WhenVentilationIsLetThrough(s: Snapshot, state: OperatingState, position: Value, rudder: Value, now: int,
                                    limits: Limits)
    ensures var ability := if (position == Str("left_front")) == (rudder == Str("left")) then 42 else 43;
            LetsThrough(FrontSeatVentilation(s, state, position, rudder, now, limits)) <==>
              && (position == Str("left_front") || position == Str("right_front"))
              && (rudder == Str("left") || rudder == Str("right"))
              && s.vin == state.vin && s.model == "B10"
              && LetsThrough(Evaluate(s, {ability}, 370, now, limits.capabilityAge))
              && LetsThrough(Operating(state, now, limits))
  {
  }

  lemma VentilationPassedItsGates(s: Snapshot, state: OperatingState, now: int, limits: Limits, position: Value,
                                  rudder: Value, v: Vehicle)
    requires v.rudder == rudder && LetsThrough(FrontSeatVentilation(s, state, position, rudder, now, limits))
    ensures KnownRudder(v) && OneOf(position, {"left_front", "right_front"})
    ensures LetsThrough(Evaluate(s, {VentilationAbility(v, position.s)}, 370, now, limits.capabilityAge))
  {
  }

  /** A permitted fixpoint is prepared as it is. */
  lemma SettledIsPrepared(w: World, v: Vehicle, payload: Payload, abilities: set<int>)
    requires Settled(w, v, payload) && RuleOf(payload.command).Some?
    requires AbilitiesFor(v, payload.command, payload.state) == Some(abilities)
    requires Permits(v, payload.command, RuleOf(payload.command).value, abilities)
    ensures Prepare(w, v, payload.command, payload.state) == Some(payload.state)
  {
  }

  lemma CommandRules(action: string, v: Vehicle, state: Value)
    requires CommandOf(action).Some?
    ensures var cmd := CommandOf(action).value;
            && RuleOf(cmd).Some? && RuleOf(cmd).value.abilities != {}
            && (forall code <- RuleOf(cmd).value.abilities :: code > 0)
            && AbilitiesFor(v, cmd, state) == Some(RuleOf(cmd).value.abilities)
  {
  }

  lemma NamedSeats(v: Vehicle, state: Value, position: Value)
    requires KnownRudder(v) && OneOf(position, {"left_front", "right_front"}) && Entry(state, "position") == position
    ensures RuleOf("370") == Some(Rule(370, {42}))
    ensures AbilitiesFor(v, "370", state) == Some({VentilationAbility(v, position.s)})
  {
    assert SeatPosition(v, position) == Some(position.s);
  }

  lemma VentilationIsPrepared(w: World, s: Snapshot, v: Vehicle, now: int, limits: Limits, payload: Payload, position: Value)
    requires Corresponds(s, v) && KnownRudder(v) && OneOf(position, {"left_front", "right_front"})
    requires Settled(w, v, payload) && payload.command == "370" && Entry(payload.state, "position") == position
    requires LetsThrough(Evaluate(s, {VentilationAbility(v, position.s)}, 370, now, limits.capabilityAge))
    ensures Prepare(w, v, payload.command, payload.state) == Some(payload.state)
  {
    var ability := VentilationAbility(v, position.s);
    NamedSeats(v, payload.state, position);
    AvailabilityParity(s, v, "370", {ability}, now, limits.capabilityAge);
    SettledIsPrepared(w, v, payload, {ability});
  }

  lemma CommandIsPrepared(w: World, s: Snapshot, v: Vehicle, state: OperatingState, action: string, now: int,
                          limits: Limits, payload: Payload, position: Value)
    requires Corresponds(s, v) && Settled(w, v, payload) && action != "seat_ventilation"
    requires Gate(s, state, action, now, limits, position, v.rudder) && CommandOf(action) == Some(payload.command)
    ensures Prepare(w, v, payload.command, payload.state) == Some(payload.state)
  {
    CommandRules(action, v, payload.state);
    var abilities := RuleOf(payload.command).value.abilities;
    AvailabilityParity(s, v, payload.command, abilities, now, limits.capabilityAge);
    SettledIsPrepared(w, v, payload, abilities);
  }

  lemma GatedPayloadsAreAccepted(w: World, s: Snapshot, v: Vehicle, state: OperatingState, action: string, now: int,
                                 limits: Limits, payload: Payload, position: Value)
    requires Corresponds(s, v) && Settled(w, v, payload)
    requires Gate(s, state, action, now, limits, position, v.rudder)
    requires action == "seat_ventilation" ==> payload.command == "370" && Entry(payload.state, "position") == position
    requires action != "seat_ventilation" ==> CommandOf(action) == Some(payload.command)
    ensures Prepare(w, v, payload.command, payload.state) == Some(payload.state)
  {
    if action == "seat_ventilation" {
      VentilationPassedItsGates(s, state, now, limits, position, v.rudder, v);
      VentilationIsPrepared(w, s, v, now, limits, payload, position);
    } else {
      CommandIsPrepared(w, s, v, state, action, now, limits, payload, position);
    }
  }

  /** What an emitted payload has passed. */
  lemma PlanPassedItsGates(s: Snapshot, state: OperatingState, action: string, now: int, limits: Limits, value: Value,
                           position: Value, rudder: Value, payload: Payload)
    requires Emits(s, state, action, now, limits, value, position, rudder, payload)
    ensures PrepareB10(action, value, position) == Some(payload) && s.model == "B10" && s.vin == state.vin
    ensures LetsThrough(Operating(state, now, limits)) && Gate(s, state, action, now, limits, position, rudder)
  {
  }

  /**
   * A payload is emitted exactly if the snapshot and the state are of one B10, the capability gate of the action
   * and the operating gate are open, and it is what was tried for the value asked for.
   */
  lemma WhenPayloadsAreEmitted(s: Snapshot, state: OperatingState, action: string, now: int, limits: Limits,
                               value: Value, position: Value, rudder: Value, payload: Payload)
    ensures Emits(s, state, action, now, limits, value, position, rudder, payload) <==>
              && s.vin == state.vin && s.model == "B10"
              && Gate(s, state, action, now, limits, position, rudder)
              && LetsThrough(Operating(state, now, limits))
              && PrepareB10(action, value, position) == Some(payload)
  {
  }

  lemma TriedPayloadsAreAccepted(w: World, s: Snapshot, v: Vehicle, state: OperatingState, action: string, now: int,
                                 limits: Limits, value: Value, position: Value, payload: Payload)
    requires Corresponds(s, v) && Gate(s, state, action, now, limits, position, v.rudder)
    requires PrepareB10(action, value, position) == Some(payload)
    ensures Prepare(w, v, payload.command, payload.state) == Some(payload.state)
  {
    TriedCommands(action, value, position);
    TriedBodies(w, v, action, value, position);
    GatedPayloadsAreAccepted(w, s, v, state, action, now, limits, payload, position);
  }

  /**
   * Every payload the planner emits is accepted unchanged by the command contract of the same car, whatever
   * the rest of the world is. For seat ventilation the car has the driving side the planner was told.
   */
  lemma PlannedPayloadsAreAccepted(w: World, s: Snapshot, v: Vehicle, state: OperatingState, action: string, now: int,
                                   limits: Limits, value: Value, position: Value, rudder: Value, payload: Payload)
    requires Corresponds(s, v) && (action == "seat_ventilation" ==> v.rudder == rudder)
    requires Emits(s, state, action, now, limits, value, position, rudder, payload)
    ensures Prepare(w, v, payload.command, payload.state) == Some(payload.state)
  {
    PlanPassedItsGates(s, state, action, now, limits, value, position, rudder, payload);
    TriedPayloadsAreAccepted(w, s, v, state, action, now, limits, value, position, payload);
  }

  /** What an operating decision needs to let a command through: a car known to be parked, seen recently enough. */
  lemma OperatingMeans(state: OperatingState, now: int, limits: Limits)
    ensures LetsThrough(Operating(state, now, limits)) <==>
              && limits.stateAge > 0
              && state.driving.Some? && !state.driving.value && state.on3.Some? && !state.on3.value
              && state.observedAt.Some? && 0 < state.observedAt.value <= now
              && (now - state.observedAt.value <= limits.stateAge || limits.allowStaleParked)
  {
  }

  /** The planner emits a payload only for a car known to be parked, and on current capability data of a known owner. */
  lemma PlansOnlyForParkedCars(s: Snapshot, state: OperatingState, action: string, now: int, limits: Limits, value: Value,
                               position: Value, rudder: Value, payload: Payload)
    requires Emits(s, state, action, now, limits, value, position, rudder, payload)
    ensures state.driving.Some? && !state.driving.value && state.on3.Some? && !state.on3.value
    ensures state.observedAt.Some? && 0 < state.observedAt.value <= now
    ensures now - state.observedAt.value <= limits.stateAge || limits.allowStaleParked
    ensures Current(s, now, limits.capabilityAge) && s.owner.Some? && s.model == "B10" && s.vin == state.vin
  {
    PlanPassedItsGates(s, state, action, now, limits, value, position, rudder, payload);
    OperatingMeans(state, now, limits);
  }
}
