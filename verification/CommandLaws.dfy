/** Laws of `Prepare`: it settles in one pass, it keeps shape, and more declared capabilities never refuse more. */
module CommandLaws {
  import opened Wrappers
  import opened Payloads
  import opened Permissions
  import opened CommandContracts

  // ----- one pass settles

  predicate FieldsNormalize(f: map<string, Value>, g: map<string, Value>) {
    f.Keys == g.Keys && forall k <- f.Keys :: Normalizes(k, f[k], g[k])
  }

  lemma OneFieldNormalizes(f: map<string, Value>, key: string, b: Value)
    requires key in f && Normalizes(key, f[key], b)
    ensures FieldsNormalize(f, f[key := b])
  {
    forall k | k in f.Keys ensures Normalizes(k, f[k], f[key := b][k]) {
      NormalizesItself(k, f[k]);
    }
  }

  lemma CorrectedSettles(f: map<string, Value>)
    requires "operate" in f && "mode" in f
    ensures FieldsNormalize(f, Corrected(f))
    ensures Corrected(Corrected(f)) == Corrected(f)
  {
    NormalizesItself("operate", f["operate"]);
    if OneOf(f["operate"], {"off", "close"}) {
      OneFieldNormalizes(f, "operate", Str("off"));
    } else if f["mode"] == Str("wind") {
      OneFieldNormalizes(f, "mode", Str("nohotcold"));
    } else {
      NormalizesItself("", Obj(f));
    }
  }

  lemma CorrectedStaysFull(w: World, v: Vehicle, state: Value)
    requires FullAir(w, v, state)
    ensures FullAir(w, v, Obj(Corrected(state.fields)))
  {
  }

  lemma AirSettles(w: World, v: Vehicle, state: Value)
    ensures Air(w, v, state).Some? ==>
              && Air(w, v, state).value.Obj? && state.Obj?
              && Air(w, v, Air(w, v, state).value) == Air(w, v, state)
              && FieldsNormalize(state.fields, Air(w, v, state).value.fields)
  {
    if state == BARE_OFF {
      NormalizesItself("", state);
    } else if FullAir(w, v, state) {
      CorrectedSettles(state.fields);
      CorrectedStaysFull(w, v, state);
      assert "mode" in Corrected(state.fields) && "mode" !in BARE_OFF.fields;
    }
  }

  lemma BundleItemSettles(w: World, v: Vehicle, key: string, item: Value)
    ensures BundleItem(w, v, key, item).Some? ==>
              && BundleItem(w, v, key, item).value.Obj? && item.Obj?
              && BundleItem(w, v, key, BundleItem(w, v, key, item).value) == BundleItem(w, v, key, item)
              && FieldsNormalize(item.fields, BundleItem(w, v, key, item).value.fields)
  {
    AirSettles(w, v, item);
    NormalizesItself("", item);
  }

  lemma EnableGoesBack(f: map<string, Value>, g: map<string, Value>)
    requires "enable" in f && f["enable"] == Bool(true) && FieldsNormalize(f - {"enable"}, g)
    ensures g["enable" := Bool(true)] - {"enable"} == g
    ensures FieldsNormalize(f, g["enable" := Bool(true)])
  {
    var out := g["enable" := Bool(true)];
    forall k | k in f.Keys ensures k in out.Keys && Normalizes(k, f[k], out[k]) {
      if k != "enable" {
        assert k in (f - {"enable"}).Keys;
      }
    }
  }

  lemma BundlePartSettles(w: World, v: Vehicle, key: string, part: Value)
    ensures var once := BundlePart(w, v, key, part);
            once.Some? ==> BundlePart(w, v, key, once.value) == once && Normalizes(key, part, once.value)
  {
    if BundlePart(w, v, key, part).Some? {
      var f := part.fields;
      var item := Obj(f - {"enable"});
      BundleItemSettles(w, v, key, item);
      var g := BundleItem(w, v, key, item).value.fields;
      EnableGoesBack(f, g);
    }
  }

  predicate SettlesUnder(prepare: (string, Value) -> Option<Value>, key: string, a: Value) {
    prepare(key, a).Some? ==>
      prepare(key, prepare(key, a).value) == prepare(key, a) && Normalizes(key, a, prepare(key, a).value)
  }

  /** If every part settles, so do all of them together. */
  lemma PartsSettle(parts: map<string, Value>, prepare: (string, Value) -> Option<Value>)
    requires forall k, a :: prepare(k, a).Some? ==> SettlesUnder(prepare, k, a)
    ensures AllParts(parts, prepare).Some? ==>
              && FieldsNormalize(parts, AllParts(parts, prepare).value)
              && AllParts(AllParts(parts, prepare).value, prepare) == AllParts(parts, prepare)
  {
    if AllParts(parts, prepare).Some? {
      var out := AllParts(parts, prepare).value;
      forall k | k in parts.Keys ensures Normalizes(k, parts[k], out[k]) && prepare(k, out[k]) == Some(out[k]) {
        assert prepare(k, parts[k]).Some?;
        assert SettlesUnder(prepare, k, parts[k]);
      }
      assert AllParts(out, prepare).value == out;
    }
  }

  lemma BundleSettles(w: World, v: Vehicle, key: string, state: Value)
    ensures var once := Bundle(w, v, state);
            once.Some? ==> Bundle(w, v, once.value) == once && Normalizes(key, state, once.value)
  {
    var prepare := PartPreparer(w, v);
    forall k, a ensures SettlesUnder(prepare, k, a) {
      BundlePartSettles(w, v, k, a);
    }
    if Bundle(w, v, state).Some? {
      PartsSettle(state.fields, prepare);
    }
  }

  /** Changing a field that the frame of an entry does not read keeps the frame. */
  lemma FrameStays(w: World, cmd: string, f: map<string, Value>, g: map<string, Value>)
    requires EntryFrame(w, cmd, Obj(f)) && f.Keys == g.Keys
    requires forall k <- APPOINTMENT_KEYS :: f[k] == g[k]
    ensures EntryFrame(w, cmd, Obj(g))
  {
    assert f["set_id"] == g["set_id"] && f["days"] == g["days"] && f["start_time"] == g["start_time"]
           && f["update_time"] == g["update_time"];
  }

  /** A preparer of objects whose results are normalised and prepared as they are. */
  predicate ObjectSettles(prepare: Value -> Option<Value>, a: Value) {
    prepare(a).Some? ==>
      && a.Obj? && prepare(a).value.Obj?
      && prepare(prepare(a).value) == prepare(a)
      && FieldsNormalize(a.fields, prepare(a).value.fields)
  }

  /** Putting a normalised part back into a map normalises the map and leaves the other keys alone. */
  lemma Overlaid(f: map<string, Value>, part: map<string, Value>, normal: map<string, Value>, others: set<string>)
    requires part.Keys <= f.Keys && (forall k <- part.Keys :: part[k] == f[k]) && FieldsNormalize(part, normal)
    requires part.Keys !! others
    ensures FieldsNormalize(f, f + normal)
    ensures forall k <- others :: k in f ==> (f + normal)[k] == f[k]
  {
    forall k | k in f.Keys ensures Normalizes(k, f[k], (f + normal)[k]) {
      if k !in part.Keys {
        NormalizesItself(k, f[k]);
      }
    }
  }

  lemma FrameIsNoClimate()
    ensures AIR_KEYS !! APPOINTMENT_KEYS
  {
  }

  lemma ClimateEntrySettles(air: Value -> Option<Value>, f: map<string, Value>)
    requires "on" in f && AIR_KEYS <= f.Keys && ClimateEntry(air, f).Some?
    requires ObjectSettles(air, Obj(Restricted(f, AIR_KEYS)))
    ensures var g := ClimateEntry(air, f).value;
            && FieldsNormalize(f, g) && ClimateEntry(air, g) == Some(g)
            && (forall k <- APPOINTMENT_KEYS :: k in f ==> g[k] == f[k])
  {
    var part := Restricted(f, AIR_KEYS);
    var prepared := air(Obj(part)).value.fields;
    FrameIsNoClimate();
    assert part.Keys == AIR_KEYS;
    Overlaid(f, part, prepared, APPOINTMENT_KEYS);
    var g := f + prepared;
    assert Restricted(g, AIR_KEYS) == prepared;
    assert "on" !in prepared;
    assert g + prepared == g;
  }

  lemma BundleEntrySettles(bundle: Value -> Option<Value>, f: map<string, Value>)
    requires "enable" in f && "datacontent" in f && BundleEntry(bundle, f).Some?
    requires ObjectSettles(bundle, f["datacontent"])
    ensures var g := BundleEntry(bundle, f).value;
            && FieldsNormalize(f, g) && BundleEntry(bundle, g) == Some(g)
            && (forall k <- APPOINTMENT_KEYS :: k in f ==> g[k] == f[k])
  {
    var content := bundle(f["datacontent"]).value;
    OneFieldNormalizes(f, "datacontent", content);
    assert "datacontent" !in APPOINTMENT_KEYS;
    assert f["datacontent" := content]["datacontent" := content] == f["datacontent" := content];
  }

  lemma FieldsSettle(w: World, v: Vehicle, cmd: string, f: map<string, Value>)
    requires EntryKeys(cmd) <= f.Keys && EntryFields(w, v, cmd, f).Some?
    ensures var g := EntryFields(w, v, cmd, f).value;
            && FieldsNormalize(f, g) && EntryFields(w, v, cmd, g) == Some(g)
            && (forall k <- APPOINTMENT_KEYS :: g[k] == f[k])
  {
    if cmd == "171" {
      AirSettles(w, v, Obj(Restricted(f, AIR_KEYS)));
      ClimateEntrySettles(AirPreparer(w, v), f);
    } else {
      BundleSettles(w, v, "datacontent", f["datacontent"]);
      BundleEntrySettles(BundlePreparer(w, v), f);
    }
  }

  lemma EntrySettled(w: World, v: Vehicle, cmd: string, entry: Value)
    requires AppointmentEntry(w, v, cmd, entry).Some?
    ensures var once := AppointmentEntry(w, v, cmd, entry);
            && AppointmentEntry(w, v, cmd, once.value) == once
            && Normalizes("controls", entry, once.value)
            && Entry(once.value, "set_id") == Entry(entry, "set_id")
  {
    var f := entry.fields;
    FieldsSettle(w, v, cmd, f);
    FrameStays(w, cmd, f, AppointmentEntry(w, v, cmd, entry).value.fields);
    assert "set_id" in APPOINTMENT_KEYS;
  }

  predicate EntrySettles(prepare: Value -> Option<Value>, a: Value) {
    prepare(a).Some? ==>
      && prepare(prepare(a).value) == prepare(a)
      && Normalizes("controls", a, prepare(a).value)
      && Entry(prepare(a).value, "set_id") == Entry(a, "set_id")
  }

  lemma EntriesSettle(entries: seq<Value>, prepare: Value -> Option<Value>)
    requires forall a :: EntrySettles(prepare, a)
    ensures AllEntries(entries, prepare).Some? ==>
              && AllEntries(AllEntries(entries, prepare).value, prepare) == AllEntries(entries, prepare)
              && Normalizes("controls", List(entries), List(AllEntries(entries, prepare).value))
  {
    if AllEntries(entries, prepare).Some? {
      var out := AllEntries(entries, prepare).value;
      forall i | 0 <= i < |entries|
        ensures prepare(out[i]) == Some(out[i]) && Normalizes("controls", entries[i], out[i])
        ensures Entry(out[i], "set_id") == Entry(entries[i], "set_id")
      {
        assert EntrySettles(prepare, entries[i]);
      }
      assert DistinctIds(out);
      assert AllEntries(out, prepare).value == out;
    }
  }

  lemma AppointmentSettles(w: World, v: Vehicle, cmd: string, state: Value)
    ensures var once := Appointment(w, v, cmd, state);
            once.Some? ==> Appointment(w, v, cmd, once.value) == once && Normalizes("", state, once.value)
  {
    var prepare := EntryPreparer(w, v, cmd);
    forall a ensures EntrySettles(prepare, a) {
      if AppointmentEntry(w, v, cmd, a).Some? {
        EntrySettled(w, v, cmd, a);
      }
    }
    if Appointment(w, v, cmd, state).Some? {
      EntriesSettle(state.fields["controls"].items, prepare);
    }
  }

  lemma SeatSettles(v: Vehicle, state: Value)
    ensures var once := Seat(v, state);
            once.Some? ==>
              && Seat(v, once.value) == once && Normalizes("", state, once.value)
              && SeatPosition(v, Entry(once.value, "position")) == SeatPosition(v, Entry(state, "position"))
  {
    if Seat(v, state).Some? {
      var seat := SeatPosition(v, state.fields["position"]).value;
      assert seat == "left_front" || seat == "right_front";
      NormalizesItself("position", state.fields["position"]);
      NormalizesItself("level", state.fields["level"]);
    }
  }

  lemma KindSettles(w: World, v: Vehicle, cmd: string, kind: Kind, state: Value)
    ensures var once := BodyOfKind(w, v, cmd, kind, state);
            once.Some? ==> BodyOfKind(w, v, cmd, kind, once.value) == once && Normalizes("", state, once.value)
  {
    match kind
    case Seats => SeatSettles(v, state);
    case Climate => AirSettles(w, v, state);
    case Preparation => BundleSettles(w, v, "", state);
    case Appointments => AppointmentSettles(w, v, cmd, state);
    case _ => NormalizesItself("", state);
  }

  lemma BodySettles(w: World, v: Vehicle, cmd: string, state: Value)
    ensures var once := Body(w, v, cmd, state);
            once.Some? ==> Body(w, v, cmd, once.value) == once && Normalizes("", state, once.value)
  {
    KindSettles(w, v, cmd, KindOf(cmd), state);
  }

  /** The abilities a payload asks for do not change when it is normalised. */
  lemma AbilitiesSettle(w: World, v: Vehicle, cmd: string, state: Value)
    requires RuleOf(cmd).Some? && Body(w, v, cmd, state).Some?
    ensures AbilitiesFor(v, cmd, Body(w, v, cmd, state).value) == AbilitiesFor(v, cmd, state)
  {
    if cmd == "370" {
      SeatSettles(v, state);
    } else if cmd == "193" {
      assert Body(w, v, cmd, state) == Some(state);
    }
  }

  /**
   * Preparing is idempotent, for every command, vehicle and fixed time: an accepted payload's output is
   * accepted again and comes back as it is.
   */
  lemma PrepareIsIdempotent(w: World, v: Vehicle, cmd: string, state: Value)
    requires Prepare(w, v, cmd, state).Some?
    ensures Prepare(w, v, cmd, Prepare(w, v, cmd, state).value) == Prepare(w, v, cmd, state)
  {
    BodySettles(w, v, cmd, state);
    AbilitiesSettle(w, v, cmd, state);
  }

  /**
   * What is sent has the payload's keys and list lengths at every level, and differs from it only in the
   * climate corrections and in driver or copilot seats named by side.
   */
  lemma PrepareKeepsShape(w: World, v: Vehicle, cmd: string, state: Value)
    requires Prepare(w, v, cmd, state).Some?
    ensures Normalizes("", state, Prepare(w, v, cmd, state).value)
  {
    BodySettles(w, v, cmd, state);
  }

  // ----- more capabilities, same payloads

  lemma AirGrows(w: World, v: Vehicle, more: Vehicle, state: Value)
    requires Extends(v, more)
    ensures Air(w, more, state) == Air(w, v, state)
  {
    assert FanTopOf(v) == FanTopOf(more);
  }

  lemma RequireGrows(v: Vehicle, more: Vehicle, cmd: string)
    requires Extends(v, more) && Require(v, cmd)
    ensures Require(more, cmd)
  {
    PermitsGrows(v, more, cmd, RuleOf(cmd).value, RuleOf(cmd).value.abilities);
  }

  lemma SeatLevelGrows(v: Vehicle, more: Vehicle, position: string, code: Value)
    requires Extends(v, more) && SeatLevel(v, position, code)
    ensures SeatLevel(more, position, code)
  {
    if code != Str("0") {
      if OneOf(code, {"11", "12", "13"}) {
        var ability := VentilationAbility(v, SeatPosition(v, Str(position)).value);
        PermitsGrows(v, more, "370", RuleOf("370").value, {ability});
      } else {
        RequireGrows(v, more, "301");
      }
    }
  }

  lemma BundleItemGrows(w: World, v: Vehicle, more: Vehicle, key: string, item: Value)
    requires Extends(v, more) && BundleItem(w, v, key, item).Some?
    ensures BundleItem(w, more, key, item) == BundleItem(w, v, key, item)
  {
    AirGrows(w, v, more, item);
    if key == "air_condition" { RequireGrows(v, more, "170"); }
    else if key == "syn_path" { RequireGrows(v, more, "180"); }
    else if key == "steeringWheelHeatCtrl" { RequireGrows(v, more, "320"); }
    else if key == "rearMirrorHeating" { RequireGrows(v, more, "440"); }
    else {
      SeatLevelGrows(v, more, "driver", item.fields["driver"]);
      SeatLevelGrows(v, more, "copilot", item.fields["copilot"]);
    }
  }

  lemma BundlePartGrows(w: World, v: Vehicle, more: Vehicle, key: string, part: Value)
    requires Extends(v, more) && BundlePart(w, v, key, part).Some?
    ensures BundlePart(w, more, key, part) == BundlePart(w, v, key, part)
  {
    BundleItemGrows(w, v, more, key, Obj(part.fields - {"enable"}));
  }

  predicate Agree(p: (string, Value) -> Option<Value>, q: (string, Value) -> Option<Value>, k: string, a: Value) {
    q(k, a) == p(k, a)
  }

  /** If one preparer accepts all that another does, with the same results, so it is for all parts together. */
  lemma PartsGrow(parts: map<string, Value>, p: (string, Value) -> Option<Value>, q: (string, Value) -> Option<Value>)
    requires forall k, a :: p(k, a).Some? ==> Agree(p, q, k, a)
    requires AllParts(parts, p).Some?
    ensures AllParts(parts, q) == AllParts(parts, p)
  {
    forall k | k in parts.Keys ensures q(k, parts[k]) == p(k, parts[k]) {
      assert p(k, parts[k]).Some?;
      assert Agree(p, q, k, parts[k]);
    }
    assert AllParts(parts, q).value == AllParts(parts, p).value;
  }

  lemma BundleGrows(w: World, v: Vehicle, more: Vehicle, state: Value)
    requires Extends(v, more) && Bundle(w, v, state).Some?
    ensures Bundle(w, more, state) == Bundle(w, v, state)
  {
    var p, q := PartPreparer(w, v), PartPreparer(w, more);
    forall k, a | p(k, a).Some? ensures Agree(p, q, k, a) {
      BundlePartGrows(w, v, more, k, a);
    }
    PartsGrow(state.fields, p, q);
  }

  lemma EntryAgrees(cmd: string, f: map<string, Value>, p: Value -> Option<Value>, q: Value -> Option<Value>)
    requires EntryKeys(cmd) <= f.Keys
    requires cmd == "171" ==> q(Obj(Restricted(f, AIR_KEYS))) == p(Obj(Restricted(f, AIR_KEYS)))
    requires cmd != "171" && p(f["datacontent"]).Some? ==> q(f["datacontent"]) == p(f["datacontent"])
    ensures cmd == "171" ==> ClimateEntry(q, f) == ClimateEntry(p, f)
    ensures cmd != "171" && BundleEntry(p, f).Some? ==> BundleEntry(q, f) == BundleEntry(p, f)
  {
  }

  lemma EntryGrows(w: World, v: Vehicle, more: Vehicle, cmd: string, entry: Value)
    requires Extends(v, more) && AppointmentEntry(w, v, cmd, entry).Some?
    ensures AppointmentEntry(w, more, cmd, entry) == AppointmentEntry(w, v, cmd, entry)
  {
    var f := entry.fields;
    if cmd == "171" {
      AirGrows(w, v, more, Obj(Restricted(f, AIR_KEYS)));
      EntryAgrees(cmd, f, AirPreparer(w, v), AirPreparer(w, more));
    } else {
      if Bundle(w, v, f["datacontent"]).Some? {
        BundleGrows(w, v, more, f["datacontent"]);
      }
      EntryAgrees(cmd, f, BundlePreparer(w, v), BundlePreparer(w, more));
    }
  }

  lemma EntriesGrow(entries: seq<Value>, p: Value -> Option<Value>, q: Value -> Option<Value>)
    requires AllEntries(entries, p).Some?
    requires forall i :: 0 <= i < |entries| && p(entries[i]).Some? ==> q(entries[i]) == p(entries[i])
    ensures AllEntries(entries, q) == AllEntries(entries, p)
  {
    forall i | 0 <= i < |entries| ensures q(entries[i]) == p(entries[i]) {
      assert p(entries[i]).Some?;
    }
    assert AllEntries(entries, q).value == AllEntries(entries, p).value;
  }

  lemma AppointmentGrows(w: World, v: Vehicle, more: Vehicle, cmd: string, state: Value)
    requires Extends(v, more) && Appointment(w, v, cmd, state).Some?
    ensures Appointment(w, more, cmd, state) == Appointment(w, v, cmd, state)
  {
    var entries := state.fields["controls"].items;
    var p, q := EntryPreparer(w, v, cmd), EntryPreparer(w, more, cmd);
    forall i | 0 <= i < |entries| && p(entries[i]).Some? ensures q(entries[i]) == p(entries[i]) {
      EntryGrows(w, v, more, cmd, entries[i]);
    }
    EntriesGrow(entries, p, q);
  }

  lemma KindGrows(w: World, v: Vehicle, more: Vehicle, cmd: string, kind: Kind, state: Value)
    requires Extends(v, more) && BodyOfKind(w, v, cmd, kind, state).Some?
    ensures BodyOfKind(w, more, cmd, kind, state) == BodyOfKind(w, v, cmd, kind, state)
  {
    match kind
    case Windows =>
      if Declared(v, {36}) {
        DeclaredGrows(v, more, {36});
      }
    case Climate => AirGrows(w, v, more, state);
    case Preparation => BundleGrows(w, v, more, state);
    case Appointments => AppointmentGrows(w, v, more, cmd, state);
    case _ =>
  }

  lemma BodyGrows(w: World, v: Vehicle, more: Vehicle, cmd: string, state: Value)
    requires Extends(v, more) && Body(w, v, cmd, state).Some?
    ensures Body(w, more, cmd, state) == Body(w, v, cmd, state)
  {
    KindGrows(w, v, more, cmd, KindOf(cmd), state);
  }

  /**
   * Preparing is monotone in capability data: on a vehicle that declares more, every payload accepted
   * before is accepted with the same output, through nested bundles and appointments.
   */
  lemma PrepareGrows(w: World, v: Vehicle, more: Vehicle, cmd: string, state: Value)
    requires Extends(v, more) && Prepare(w, v, cmd, state).Some?
    ensures Prepare(w, more, cmd, state) == Prepare(w, v, cmd, state)
  {
    var abilities := AbilitiesFor(v, cmd, state).value;
    assert AbilitiesFor(more, cmd, state) == Some(abilities);
    PermitsGrows(v, more, cmd, RuleOf(cmd).value, abilities);
    BodyGrows(w, v, more, cmd, state);
  }

  // ----- what is sent

  /** `sent` is the climate body `state` with the corrections made, and nothing else changed. */
  ghost predicate AirCorrected(state: Value, sent: Value) {
    && (Entry(sent, "operate") == Str("off") <==> OneOf(Entry(state, "operate"), {"off", "close"}))
    && Entry(sent, "operate") != Str("close")
    && (Entry(sent, "mode") == Str("wind") ==> Entry(sent, "operate") == Str("off"))
    && (Entry(sent, "mode") != Entry(state, "mode") ==>
          Entry(state, "mode") == Str("wind") && Entry(sent, "mode") == Str("nohotcold"))
    && (Entry(sent, "operate") != Entry(state, "operate") ==> Entry(state, "operate") == Str("close"))
    && (forall key :: key != "operate" && key != "mode" ==> Entry(sent, key) == Entry(state, key))
  }

  lemma AirIsCorrected(w: World, v: Vehicle, state: Value)
    requires Air(w, v, state).Some?
    ensures AirCorrected(state, Air(w, v, state).value)
  {
  }

  /** The seat named by `sent` is the one `state` means on this vehicle. */
  predicate SeatNamed(v: Vehicle, state: Value, sent: Value) {
    && OneOf(Entry(sent, "position"), {"left_front", "right_front"})
    && Entry(sent, "level") == Entry(state, "level")
    && (Entry(state, "position") == Str("driver") ==>
          (Entry(sent, "position") == Str("left_front") <==> v.rudder == Str("left")))
    && (Entry(state, "position") == Str("copilot") ==>
          (Entry(sent, "position") == Str("left_front") <==> v.rudder == Str("right")))
    && (OneOf(Entry(state, "position"), {"left_front", "right_front"}) ==> Entry(sent, "position") == Entry(state, "position"))
  }

  lemma SeatIsNamed(v: Vehicle, state: Value)
    requires Seat(v, state).Some?
    ensures SeatNamed(v, state, Seat(v, state).value)
  {
  }

  lemma BodyOfClimate(w: World, v: Vehicle, state: Value)
    ensures Body(w, v, "170", state) == Air(w, v, state)
  {
  }

  lemma BodyOfSeats(w: World, v: Vehicle, cmd: string, state: Value)
    requires cmd == "301" || cmd == "370"
    ensures Body(w, v, cmd, state) == Seat(v, state)
  {
  }

  lemma AcceptedIsTheBody(w: World, v: Vehicle, cmd: string, state: Value)
    requires Prepare(w, v, cmd, state).Some?
    ensures Prepare(w, v, cmd, state) == Body(w, v, cmd, state)
  {
  }

  /**
   * A climate body goes out with `off` exactly if the caller asked for `off` or `close`, never with `close`,
   * never with an active `wind` mode, and otherwise as the caller wrote it.
   */
  lemma ClimateIsCorrected(w: World, v: Vehicle, state: Value)
    requires Prepare(w, v, "170", state).Some?
    ensures AirCorrected(state, Prepare(w, v, "170", state).value)
  {
    AcceptedIsTheBody(w, v, "170", state);
    BodyOfClimate(w, v, state);
    AirIsCorrected(w, v, state);
  }

  /** Seat commands go out naming a physical seat, and the driver's is on the side of the wheel. */
  lemma SeatsArePhysical(w: World, v: Vehicle, cmd: string, state: Value)
    requires cmd == "301" || cmd == "370"
    requires Prepare(w, v, cmd, state).Some?
    ensures SeatNamed(v, state, Prepare(w, v, cmd, state).value)
  {
    AcceptedIsTheBody(w, v, cmd, state);
    BodyOfSeats(w, v, cmd, state);
    SeatIsNamed(v, state);
  }

  lemma DecimalOfFew(n: nat)
    requires 1 <= n <= FAN_TOP_MEASURED
    ensures Positive(Str(Decimal(n))) == Some(n)
  {
    DigitsOfDecimal(n);
    assert |Decimal(n)| == 1;
  }

  /**
   * The fan levels a climate body may carry: 1 to 7 on every car, and up to 9 those within a readable
   * declared range.
   */
  lemma FanLevelsFollowTheCar(config: Value, n: nat)
    requires n >= 1
    ensures var fan := Entry(Entry(config, "HVAC"), "fan");
            var low, high := Positive(Entry(fan, "min")), Positive(Entry(fan, "max"));
            FanLevel(Str(Decimal(n)), FanTop(config)) <==>
              || n <= 7
              || (n <= FAN_TOP_MEASURED && Entry(config, "valid") == Bool(true)
                    && low.Some? && high.Some? && low.value <= high.value && n <= high.value)
  {
    DigitsOfDecimal(n);
    if n <= FAN_TOP_MEASURED {
      DecimalOfFew(n);
    }
  }

  lemma WindowScale(n: nat, top: nat)
    ensures WindowValue(Str(Decimal(n)), top) <==> n <= top
  {
    if i: nat :| i <= top && Str(Decimal(n)) == Str(Decimal(i)) {
      DigitsOfDecimal(i);
      DigitsOfDecimal(n);
    }
  }

  /** A window position is accepted exactly up to the top of the scale the car declares. */
  lemma WindowsFollowTheDeclaredScale(w: World, v: Vehicle, n: nat)
    ensures Body(w, v, "230", Obj(map["value" := Str(Decimal(n))])).Some? <==>
              n <= (if Declared(v, {36}) then 100 else 10)
  {
    var state := Obj(map["value" := Str(Decimal(n))]);
    assert Body(w, v, "230", state).Some? <==> WindowValue(state.fields["value"], WindowTop(v));
    WindowScale(n, WindowTop(v));
  }
}
