/** The permission rule shared by the command contracts and the planner, and the vehicle it is asked of. */
module Permissions {
  import opened Wrappers
  import opened Payloads

  datatype Availability = Available | Unsupported | Forbidden | Unknown | TemporarilyUnavailable

  datatype Reason = AbilityAbsent | OwnershipUnknown | ControlModuleMissing | ControlModuleDenied
                  | AccountRightMissing | AccountRightDenied | ExplicitAbilityAndPermission
                  | SnapshotFromFuture | SnapshotExpired | SnapshotIncomplete | ModelContractUnverified
                  | RudderUnknown | CommandContractUnverified | StateTimestampMissing | StateTimestampInvalid
                  | OperatingStateBlocks | OperatingStateIncomplete | StateNotFresh | LastKnownParked | Stationary

  datatype Decision = Decision(state: Availability, reason: Reason)

  function PermissionDecision(owner: Option<bool>, abilitySupported: bool, rightAllowed: bool, moduleAllowed: bool,
                              rightsPresent: bool, moduleRightsPresent: bool): Decision
  {
    if !abilitySupported then Decision(Unsupported, AbilityAbsent)
    else if owner.None? then Decision(Unknown, OwnershipUnknown)
    else if !moduleRightsPresent && !owner.value then Decision(Forbidden, ControlModuleMissing)
    else if moduleRightsPresent && !moduleAllowed then Decision(Forbidden, ControlModuleDenied)
    else if !rightsPresent && !owner.value then Decision(Forbidden, AccountRightMissing)
    else if rightsPresent && !rightAllowed then Decision(Forbidden, AccountRightDenied)
    else Decision(Available, ExplicitAbilityAndPermission)
  }

  /** Which decision a permission comes to: the kinds in order, then the list whose absence or content decides. */
  lemma WhyPermissionIsDenied(owner: Option<bool>, able: bool, right: bool, control: bool, rights: bool, modules: bool)
    ensures var decision := PermissionDecision(owner, able, right, control, rights, modules);
            var shared := able && owner == Some(false);
            var past := able && owner.Some? && (if modules then control else owner.value);
            && (decision == Decision(Unsupported, AbilityAbsent) <==> !able)
            && (decision == Decision(Unknown, OwnershipUnknown) <==> able && owner.None?)
            && (decision == Decision(Forbidden, ControlModuleMissing) <==> shared && !modules)
            && (decision == Decision(Forbidden, ControlModuleDenied) <==> able && owner.Some? && modules && !control)
            && (decision == Decision(Forbidden, AccountRightMissing) <==> shared && past && !rights)
            && (decision == Decision(Forbidden, AccountRightDenied) <==> past && rights && !right)
            && (decision == Decision(Available, ExplicitAbilityAndPermission) <==>
                  past && (if rights then right else owner.value))
  {
  }

  const CONTROL_MODULE := 200

  /** The right and the abilities behind a command; any one ability will do, and none means none is known. */
  datatype Rule = Rule(right: int, abilities: set<int>)

  function RuleOf(cmd: string): Option<Rule> {
    if cmd == "110" then Some(Rule(110, {10}))
    else if cmd == "120" then Some(Rule(120, {11}))
    else if cmd == "130" then Some(Rule(130, {3}))
    else if cmd == "160" then Some(Rule(190, {10}))
    else if cmd == "170" then Some(Rule(170, {6}))
    else if cmd == "171" then Some(Rule(171, {9}))
    else if cmd == "180" then Some(Rule(180, {52}))
    else if cmd == "190" then Some(Rule(340, {35}))
    else if cmd == "192" then Some(Rule(192, {48}))
    else if cmd == "193" then Some(Rule(193, {82}))
    else if cmd == "230" then Some(Rule(230, {12, 36}))
    else if cmd == "240" then Some(Rule(161, {13}))
    else if cmd == "301" then Some(Rule(301, {21}))
    else if cmd == "320" then Some(Rule(320, {15}))
    else if cmd == "360" then Some(Rule(360, {38}))
    else if cmd == "361" then Some(Rule(361, {38}))
    else if cmd == "370" then Some(Rule(370, {42}))
    else if cmd == "440" then Some(Rule(440, {19}))
    else if cmd == "220" then Some(Rule(220, {}))
    else None
  }

  /** The documented right and abilities of every command. */
  lemma RulesTo190()
    ensures RuleOf("110") == Some(Rule(110, {10}))
            && RuleOf("120") == Some(Rule(120, {11}))
            && RuleOf("130") == Some(Rule(130, {3}))
            && RuleOf("160") == Some(Rule(190, {10}))
            && RuleOf("170") == Some(Rule(170, {6}))
            && RuleOf("171") == Some(Rule(171, {9}))
            && RuleOf("180") == Some(Rule(180, {52}))
            && RuleOf("190") == Some(Rule(340, {35}))
  {
  }

  lemma Rules192To301()
    ensures RuleOf("192") == Some(Rule(192, {48}))
            && RuleOf("193") == Some(Rule(193, {82}))
            && RuleOf("230") == Some(Rule(230, {12, 36}))
            && RuleOf("240") == Some(Rule(161, {13}))
            && RuleOf("301") == Some(Rule(301, {21}))
  {
  }

  lemma Rules320To361()
    ensures RuleOf("320") == Some(Rule(320, {15}))
            && RuleOf("360") == Some(Rule(360, {38}))
            && RuleOf("361") == Some(Rule(361, {38}))
  {
  }

  lemma RulesFrom370()
    ensures RuleOf("370") == Some(Rule(370, {42}))
            && RuleOf("440") == Some(Rule(440, {19}))
  {
  }

  /** Command 220, for which no ability is known. */
  lemma RuleOfSentry()
    ensures RuleOf("220") == Some(Rule(220, {}))
  {
  }

  /** No other command has a rule. */
  lemma OtherCommandsHaveNone(cmd: string)
    ensures RuleOf(cmd).Some? ==>
              cmd in ["110", "120", "130", "160", "170", "171", "180", "190", "192", "193", "230", "240",
                      "301", "320", "360", "361", "370", "440", "220"]
  {
  }

  /** Commands whose documented ability is measured not to be a usable gate. */
  predicate AbilityNotGated(cmd: string) {
    cmd == "170" || cmd == "171"
  }

  /** A vehicle: identity, ownership, driving side, its own cloud entry, and the codes parsed from it. */
  datatype Vehicle = Vehicle(vin: string, isShared: Option<bool>, rudder: Value, raw: map<string, Value>,
                             abilities: set<int>, rights: set<int>, moduleRights: set<int>)

  /** Whether the entry has a list under this key: a null one counts as absent. */
  predicate ListPresent(v: Vehicle, key: string) {
    key in v.raw && !v.raw[key].Null?
  }

  predicate Owner(v: Vehicle) {
    v.isShared == Some(false) && "vin" in v.raw && v.raw["vin"] == Str(v.vin)
  }

  predicate AllPositive(items: seq<Value>) {
    forall i :: 0 <= i < |items| ==> Positive(items[i]).Some?
  }

  predicate Lists(items: seq<Value>, code: int) {
    exists i :: 0 <= i < |items| && Positive(items[i]) == Some(code)
  }

  /** Whether the vehicle's own entry declares one of the codes; an unreadable list declares none. */
  predicate Declared(v: Vehicle, codes: set<int>) {
    if "abilities" in v.raw && v.raw["abilities"].List? then
      AllPositive(v.raw["abilities"].items) && exists code <- codes :: Lists(v.raw["abilities"].items, code)
    else exists code <- codes :: code in v.abilities
  }

  /** The decision on a rule, `abilities` standing in for the rule's own when given. */
  function DecisionFor(v: Vehicle, cmd: string, rule: Rule, abilities: set<int>): Decision {
    var rightsPresent := !(Owner(v) && !ListPresent(v, "rightList"));
    var modulesPresent := !(Owner(v) && !ListPresent(v, "moduleRights"));
    PermissionDecision(Some(Owner(v)),
                       abilities == {} || AbilityNotGated(cmd) || Declared(v, abilities),
                       !rightsPresent || rule.right in v.rights,
                       !modulesPresent || CONTROL_MODULE in v.moduleRights,
                       rightsPresent, modulesPresent)
  }

  predicate Permits(v: Vehicle, cmd: string, rule: Rule, abilities: set<int>) {
    DecisionFor(v, cmd, rule, abilities).state == Available
  }

  predicate Require(v: Vehicle, cmd: string) {
    RuleOf(cmd).Some? && Permits(v, cmd, RuleOf(cmd).value, RuleOf(cmd).value.abilities)
  }

  predicate RequireAbility(v: Vehicle, cmd: string, ability: int) {
    RuleOf(cmd).Some? && Permits(v, cmd, RuleOf(cmd).value, {ability})
  }

  // ----- more declared capabilities never permit less

  predicate SameEntry(v: Vehicle, more: Vehicle, key: string) {
    (key in v.raw <==> key in more.raw) && (key in v.raw ==> v.raw[key] == more.raw[key])
  }

  /** The second list has the first's items, in any places, and only readable ones besides. */
  predicate ExtendsList(items: seq<Value>, more: seq<Value>) {
    && (forall i :: 0 <= i < |items| ==> items[i] in more)
    && (forall j :: 0 <= j < |more| ==> more[j] in items || Positive(more[j]).Some?)
  }

  /**
   * `more` is the same vehicle with codes added: identity, ownership, driving side, list presence and fan
   * configuration are as before, and every readable code is still there and still readable.
   */
  predicate Extends(v: Vehicle, more: Vehicle) {
    && v.vin == more.vin && v.isShared == more.isShared && v.rudder == more.rudder
    && SameEntry(v, more, "vin") && SameEntry(v, more, "funcConfig")
    && ListPresent(v, "rightList") == ListPresent(more, "rightList")
    && ListPresent(v, "moduleRights") == ListPresent(more, "moduleRights")
    && v.abilities <= more.abilities && v.rights <= more.rights && v.moduleRights <= more.moduleRights
    && ("abilities" in v.raw && v.raw["abilities"].List? <==> "abilities" in more.raw && more.raw["abilities"].List?)
    && ("abilities" in v.raw && v.raw["abilities"].List? ==>
          ExtendsList(v.raw["abilities"].items, more.raw["abilities"].items))
  }

  lemma DeclaredGrows(v: Vehicle, more: Vehicle, codes: set<int>)
    requires Extends(v, more) && Declared(v, codes)
    ensures Declared(more, codes)
  {
    if "abilities" in v.raw && v.raw["abilities"].List? {
      var items, longer := v.raw["abilities"].items, more.raw["abilities"].items;
      var code :| code in codes && Lists(items, code);
      var i :| 0 <= i < |items| && Positive(items[i]) == Some(code);
      var j :| 0 <= j < |longer| && longer[j] == items[i];
      assert Lists(longer, code);
    }
  }

  lemma PermitsGrows(v: Vehicle, more: Vehicle, cmd: string, rule: Rule, abilities: set<int>)
    requires Extends(v, more) && Permits(v, cmd, rule, abilities)
    ensures Permits(more, cmd, rule, abilities)
  {
    if abilities != {} && !AbilityNotGated(cmd) {
      DeclaredGrows(v, more, abilities);
    }
  }

  /** Whether the authenticated entry identifies the caller as the owner of this very car. */
  predicate IsOwned(v: Vehicle) {
    v.isShared == Some(false) && "vin" in v.raw && v.raw["vin"] == Str(v.vin)
  }

  /** Whether an entry says something under a key. */
  predicate Says(v: Vehicle, key: string) {
    key in v.raw && v.raw[key] != Null
  }

  /**
   * What a permission comes to: the ability unless none gates the command, and the right and the control
   * module unless an owner's entry omits their list. Climate is not gated by its ability.
   */
  lemma PermitsMeans(v: Vehicle, cmd: string, rule: Rule, abilities: set<int>)
    ensures Permits(v, cmd, rule, abilities) <==>
              && (abilities == {} || cmd == "170" || cmd == "171" || Declared(v, abilities))
              && ((IsOwned(v) && !Says(v, "rightList")) || rule.right in v.rights)
              && ((IsOwned(v) && !Says(v, "moduleRights")) || 200 in v.moduleRights)
  {
  }

  /** The same of a command's own rule, and of one ability in its place. */
  lemma RequireMeans(v: Vehicle, cmd: string, right: int, abilities: set<int>, ability: int)
    requires RuleOf(cmd) == Some(Rule(right, abilities))
    ensures var listed := ((IsOwned(v) && !Says(v, "rightList")) || right in v.rights)
                          && ((IsOwned(v) && !Says(v, "moduleRights")) || 200 in v.moduleRights);
            && (Require(v, cmd) <==>
                  listed && (abilities == {} || cmd == "170" || cmd == "171" || Declared(v, abilities)))
            && (RequireAbility(v, cmd, ability) <==>
                  listed && (cmd == "170" || cmd == "171" || Declared(v, {ability})))
  {
    PermitsMeans(v, cmd, Rule(right, abilities), abilities);
    PermitsMeans(v, cmd, Rule(right, abilities), {ability});
  }

  /** A car declares what its entry's list reads as, if all of it is readable; without a list, what was parsed. */
  lemma WhatIsDeclared(v: Vehicle, code: int)
    ensures "abilities" !in v.raw || !v.raw["abilities"].List? ==> (Declared(v, {code}) <==> code in v.abilities)
    ensures "abilities" in v.raw && v.raw["abilities"].List? ==>
              (Declared(v, {code}) <==>
                 && (forall item <- v.raw["abilities"].items :: Positive(item) != None)
                 && exists item <- v.raw["abilities"].items :: Positive(item) == Some(code))
  {
    if "abilities" in v.raw && v.raw["abilities"].List? {
      var items := v.raw["abilities"].items;
      forall i | 0 <= i < |items| ensures items[i] in items {}
      assert code in {code};
      if item :| item in items && Positive(item) == Some(code) {
        var i :| 0 <= i < |items| && items[i] == item;
        assert Lists(items, code);
      }
    }
  }
}
