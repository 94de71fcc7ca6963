/** The weekday mask of a charge plan as the configuration reader sees it. */
module VehicleData {
  import opened Wrappers
  import opened Payloads
  import opened CommandContracts

  const DAYS := 7

  /** The flags of a mask, Sunday first, if it splits into seven of them. */
  function ParseDays(cycles: string): (days: Option<seq<bool>>)
    ensures days.Some? ==> |days.value| == DAYS
  {
    var parts := Split(cycles, ',');
    if |parts| == DAYS && forall i :: 0 <= i < DAYS ==> (parts[i] == "0" || parts[i] == "1") then
      Some(seq(DAYS, i requires 0 <= i < DAYS => parts[i] == "1"))
    else None
  }

  function Flag(on: bool): char { if on then '1' else '0' }

  /** Flags written as a mask. */
  function Mask(days: seq<bool>): string
    requires |days| > 0
  {
    if |days| == 1 then [Flag(days[0])] else [Flag(days[0]), ','] + Mask(days[1..])
  }

  /** Flags as the parts of a mask. */
  function Parts(days: seq<bool>): (parts: seq<string>)
    ensures |parts| == |days|
  {
    if days == [] then [] else [[Flag(days[0])]] + Parts(days[1..])
  }

  lemma {:induction false} PartAt(days: seq<bool>, i: nat)
    requires i < |days|
    ensures Parts(days)[i] == [Flag(days[i])]
  {
    if i > 0 {
      PartAt(days[1..], i - 1);
    }
  }

  lemma {:induction false} MaskSplits(days: seq<bool>)
    requires |days| > 0
    ensures Split(Mask(days), ',') == Parts(days)
  {
    var first := [Flag(days[0])];
    assert ',' !in first;
    if |days| == 1 {
      assert Parts(days[1..]) == [];
      SplitNothing(first, ',');
    } else {
      MaskSplits(days[1..]);
      SplitAfter(first, ',', Mask(days[1..]));
      assert Mask(days) == first + [','] + Mask(days[1..]);
    }
  }

  /** A mask written from seven flags reads back as those flags. */
  lemma MaskReadsBack(days: seq<bool>)
    requires |days| == DAYS
    ensures ParseDays(Mask(days)) == Some(days)
  {
    MaskSplits(days);
    forall i | 0 <= i < DAYS ensures Parts(days)[i] == (if days[i] then "1" else "0") {
      PartAt(days, i);
    }
    assert ParseDays(Mask(days)).value == days;
  }

  lemma {:induction false} MaskShape(days: seq<bool>)
    requires |days| > 0
    ensures |Mask(days)| == 2 * |days| - 1
    ensures forall i :: 0 <= i < |Mask(days)| ==> Mask(days)[i] == if i % 2 == 0 then Flag(days[i / 2]) else ','
  {
    if |days| > 1 {
      MaskShape(days[1..]);
      forall i | 0 <= i < |Mask(days)|
        ensures Mask(days)[i] == if i % 2 == 0 then Flag(days[i / 2]) else ','
      {
        if i >= 2 {
          assert Mask(days)[i] == Mask(days[1..])[i - 2];
          assert days[1..][(i - 2) / 2] == days[i / 2];
        }
      }
    }
  }

  /** Parts that are all single flags are a mask: the flags determine the text. */
  lemma {:induction false} PartsMakeTheMask(text: string, days: seq<bool>)
    requires |days| > 0 && Split(text, ',') == Parts(days)
    ensures text == Mask(days)
  {
    if |days| == 1 {
      SplitWhole(text, ',');
      PartAt(days, 0);
    } else {
      var rest := SplitFirst(text, ',');
      PartsMakeTheMask(rest, days[1..]);
    }
  }

  lemma ReadableIsAMask(cycles: string)
    requires ParseDays(cycles).Some?
    ensures cycles == Mask(ParseDays(cycles).value)
  {
    var days := ParseDays(cycles).value;
    var parts := Split(cycles, ',');
    forall i | 0 <= i < DAYS ensures parts[i] == Parts(days)[i] {
      assert parts[i] == "0" || parts[i] == "1";
      PartAt(days, i);
    }
    assert parts == Parts(days);
    PartsMakeTheMask(cycles, days);
  }

  lemma MasksAreAccepted(days: seq<bool>)
    requires |days| == DAYS
    ensures WeekdayMask(Mask(days))
    ensures '1' in Mask(days) <==> true in days
  {
    MaskShape(days);
    if true in days {
      var i :| 0 <= i < DAYS && days[i];
      assert Mask(days)[2 * i] == '1';
    }
    if '1' in Mask(days) {
      var i :| 0 <= i < |Mask(days)| && Mask(days)[i] == '1';
      assert days[i / 2];
    }
  }

  lemma AcceptedIsAMask(cycles: string) returns (days: seq<bool>)
    requires WeekdayMask(cycles)
    ensures |days| == DAYS && cycles == Mask(days)
  {
    days := seq(DAYS, i requires 0 <= i < DAYS => cycles[2 * i] == '1');
    MaskShape(days);
    forall i | 0 <= i < 13 ensures cycles[i] == Mask(days)[i] {
      assert i % 2 == 0 ==> 2 * (i / 2) == i;
    }
  }

  /** The charge contract accepts exactly the masks the configuration reader can read. */
  lemma AcceptedMasksAreReadable(cycles: string)
    ensures WeekdayMask(cycles) <==> ParseDays(cycles).Some?
    ensures ParseDays(cycles).Some? ==> cycles == Mask(ParseDays(cycles).value)
    ensures ParseDays(cycles).Some? ==> ('1' in cycles <==> true in ParseDays(cycles).value)
  {
    if WeekdayMask(cycles) {
      var days := AcceptedIsAMask(cycles);
      MaskReadsBack(days);
    }
    if ParseDays(cycles).Some? {
      ReadableIsAMask(cycles);
      MasksAreAccepted(ParseDays(cycles).value);
    }
  }

  /** An accepted charge plan that is switched on charges on some day the configuration will show. */
  lemma EnabledPlansHaveADay(w: World, state: Value)
    requires Charge(w, state)
    ensures ParseDays(state.fields["cycles"].s).Some?
    ensures state.fields["chargeEnable"] == Int(1) ==> true in ParseDays(state.fields["cycles"].s).value
  {
    AcceptedMasksAreReadable(state.fields["cycles"].s);
  }
}
