/**
 * Wall-clock times in a zone with offset changes. A zone is its initial offset and its sorted
 * transitions; a wall time is looked up with the `fold` rule of PEP 495.
 */
module Scheduling {
  import opened Wrappers

  /** From this UTC second on, local time is UTC plus the offset. */
  datatype Transition = Transition(utc: int, offset: int)

  const DAY := 86400

  datatype Zone = Zone(initial: int, transitions: seq<Transition>)

  /** The offset in effect after the first `count` transitions. */
  function OffsetAfter(z: Zone, count: nat): int
    requires count <= |z.transitions|
  {
    if count == 0 then z.initial else z.transitions[count - 1].offset
  }

  /** The wall-clock interval a transition skips or repeats. */
  function Lower(z: Zone, i: nat): int
    requires i < |z.transitions|
  {
    var before, after := OffsetAfter(z, i), OffsetAfter(z, i + 1);
    z.transitions[i].utc + if before < after then before else after
  }

  function Upper(z: Zone, i: nat): (upper: int)
    requires i < |z.transitions|
    ensures Lower(z, i) <= upper
  {
    var before, after := OffsetAfter(z, i), OffsetAfter(z, i + 1);
    z.transitions[i].utc + if before < after then after else before
  }

  /** Transitions in order, and no two skipped or repeated intervals meet. */
  ghost predicate WellFormed(z: Zone) {
    && (forall i: nat, j: nat :: i < j < |z.transitions| ==> z.transitions[i].utc < z.transitions[j].utc)
    && (forall i: nat, j: nat :: i < j < |z.transitions| ==> Upper(z, i) <= Lower(z, j))
  }

  // ----- UTC to wall

  /** How many transitions an instant has passed, counted from the last. */
  function Passed(z: Zone, u: int, count: nat): (passed: nat)
    requires count <= |z.transitions|
    ensures passed <= count
  {
    if count == 0 then 0
    else if z.transitions[count - 1].utc <= u then count
    else Passed(z, u, count - 1)
  }

  function PassedAt(z: Zone, u: int): (passed: nat)
    ensures passed <= |z.transitions|
  {
    Passed(z, u, |z.transitions|)
  }

  function WallAt(z: Zone, u: int): int {
    u + OffsetAfter(z, PassedAt(z, u))
  }

  // ----- wall to UTC

  /** The wall time from which a lookup with this fold counts a transition as passed. */
  function Bound(z: Zone, i: nat, fold: nat): int
    requires i < |z.transitions|
  {
    if fold == 0 then Upper(z, i) else Lower(z, i)
  }

  function PassedOnWall(z: Zone, wall: int, fold: nat, count: nat): (passed: nat)
    requires count <= |z.transitions|
    ensures passed <= count
  {
    if count == 0 then 0
    else if Bound(z, count - 1, fold) <= wall then count
    else PassedOnWall(z, wall, fold, count - 1)
  }

  function Lookup(z: Zone, wall: int, fold: nat): (passed: nat)
    ensures passed <= |z.transitions|
  {
    PassedOnWall(z, wall, fold, |z.transitions|)
  }

  /** The instant a wall time with this fold denotes. */
  function Instant(z: Zone, wall: int, fold: nat): int {
    wall - OffsetAfter(z, Lookup(z, wall, fold))
  }

  /** Whether the instant shows that wall time again. */
  predicate RoundTrips(z: Zone, wall: int, fold: nat) {
    WallAt(z, Instant(z, wall, fold)) == wall
  }

  /** The instant of an appointment's wall time, refused when it does not exist or is ambiguous. */
  function LocalStart(z: Zone, wall: int): Option<int> {
    var first, second := Instant(z, wall, 0), Instant(z, wall, 1);
    if RoundTrips(z, wall, 0) then
      if RoundTrips(z, wall, 1) && first != second then None else Some(first)
    else if RoundTrips(z, wall, 1) then Some(second)
    else None
  }

  /** The same, as the source runs it: both folds are tried and the surviving offsets compared. */
  method TryBothFolds(z: Zone, wall: int) returns (start: Option<int>)
    ensures start == LocalStart(z, wall)
  {
    var candidates: seq<int> := [];
    for fold := 0 to 2
      invariant fold == 0 ==> candidates == []
      invariant fold == 1 ==> candidates == if RoundTrips(z, wall, 0) then [Instant(z, wall, 0)] else []
      invariant fold == 2 ==>
        candidates == (if RoundTrips(z, wall, 0) then [Instant(z, wall, 0)] else [])
                      + (if RoundTrips(z, wall, 1) then [Instant(z, wall, 1)] else [])
    {
      var candidate := Instant(z, wall, fold);
      if WallAt(z, candidate) == wall {
        candidates := candidates + [candidate];
      }
    }
    if |candidates| == 0 || (|candidates| == 2 && wall - candidates[0] != wall - candidates[1]) {
      return None;
    }
    return Some(candidates[0]);
  }

  // ----- both lookups as segments between neighbouring transitions

  /** `u` lies between transition `k - 1` and transition `k`. */
  predicate InSegment(z: Zone, u: int, k: nat)
    requires k <= |z.transitions|
  {
    && (k > 0 ==> z.transitions[k - 1].utc <= u)
    && (k < |z.transitions| ==> u < z.transitions[k].utc)
  }

  predicate OnWall(z: Zone, wall: int, fold: nat, k: nat)
    requires k <= |z.transitions|
  {
    && (k > 0 ==> Bound(z, k - 1, fold) <= wall)
    && (k < |z.transitions| ==> wall < Bound(z, k, fold))
  }

  lemma {:induction false} PassedIsSegment(z: Zone, u: int, count: nat)
    requires count <= |z.transitions|
    requires count < |z.transitions| ==> u < z.transitions[count].utc
    ensures InSegment(z, u, Passed(z, u, count))
  {
    if count > 0 && u < z.transitions[count - 1].utc {
      PassedIsSegment(z, u, count - 1);
    }
  }

  lemma SegmentIsPassed(z: Zone, u: int, k: nat)
    requires WellFormed(z) && k <= |z.transitions| && InSegment(z, u, k)
    ensures PassedAt(z, u) == k
  {
    PassedIsSegment(z, u, |z.transitions|);
  }

  /** An instant shows the UTC second plus the offset of the latest transition that is not after it. */
  lemma WhatAnInstantShows(z: Zone, u: int, k: nat)
    requires WellFormed(z) && k <= |z.transitions|
    requires (k > 0 ==> z.transitions[k - 1].utc <= u) && (k < |z.transitions| ==> u < z.transitions[k].utc)
    ensures WallAt(z, u) == u + if k == 0 then z.initial else z.transitions[k - 1].offset
  {
    SegmentIsPassed(z, u, k);
  }

  lemma {:induction false} LookupIsOnWall(z: Zone, wall: int, fold: nat, count: nat)
    requires count <= |z.transitions|
    requires count < |z.transitions| ==> wall < Bound(z, count, fold)
    ensures OnWall(z, wall, fold, PassedOnWall(z, wall, fold, count))
  {
    if count > 0 && wall < Bound(z, count - 1, fold) {
      LookupIsOnWall(z, wall, fold, count - 1);
    }
  }

  lemma Ordered(z: Zone, i: int, j: int)
    requires WellFormed(z)
    ensures 0 <= i < j < |z.transitions| ==> Upper(z, i) <= Lower(z, j)
  {
  }

  // ----- acceptance means that exactly one instant shows the wall time

  ghost predicate OnlyInstant(z: Zone, wall: int, u: int) {
    WallAt(z, u) == wall && forall v :: WallAt(z, v) == wall ==> v == u
  }

  /** The wall times of a segment begin and end inside the intervals of its two transitions. */
  lemma SegmentOnWall(z: Zone, u: int)
    ensures var k, wall := PassedAt(z, u), WallAt(z, u);
            && (k > 0 ==> Lower(z, k - 1) <= wall)
            && (k < |z.transitions| ==> wall < Upper(z, k))
  {
    PassedIsSegment(z, u, |z.transitions|);
  }

  /** The earlier lookup has passed no transition that an instant showing the wall time has not. */
  lemma EarlyLookupIsBefore(z: Zone, wall: int, u: int)
    requires WellFormed(z) && WallAt(z, u) == wall
    ensures Lookup(z, wall, 0) <= PassedAt(z, u)
  {
    var j: int, early: int := PassedAt(z, u), Lookup(z, wall, 0);
    SegmentOnWall(z, u);
    LookupIsOnWall(z, wall, 0, |z.transitions|);
    Ordered(z, j, early - 1);
  }

  lemma LateLookupIsAfter(z: Zone, wall: int, u: int)
    requires WellFormed(z) && WallAt(z, u) == wall
    ensures PassedAt(z, u) <= Lookup(z, wall, 1)
  {
    var j: int, late: int := PassedAt(z, u), Lookup(z, wall, 1);
    SegmentOnWall(z, u);
    LookupIsOnWall(z, wall, 1, |z.transitions|);
    Ordered(z, late, j - 1);
  }

  /** The two lookups bracket the segment of every instant that shows the wall time. */
  lemma SegmentIsBracketed(z: Zone, wall: int, u: int)
    requires WellFormed(z) && WallAt(z, u) == wall
    ensures Lookup(z, wall, 0) <= PassedAt(z, u) <= Lookup(z, wall, 1)
  {
    EarlyLookupIsBefore(z, wall, u);
    LateLookupIsAfter(z, wall, u);
  }

  /** The later lookup has passed at most one transition more than the earlier one. */
  lemma LookupsAreClose(z: Zone, wall: int)
    requires WellFormed(z)
    ensures Lookup(z, wall, 0) <= Lookup(z, wall, 1) <= Lookup(z, wall, 0) + 1
  {
    var early: int, late: int := Lookup(z, wall, 0), Lookup(z, wall, 1);
    LookupIsOnWall(z, wall, 0, |z.transitions|);
    LookupIsOnWall(z, wall, 1, |z.transitions|);
    Ordered(z, late, early - 1);
    Ordered(z, early, late - 1);
  }

  /** Outside every skipped or repeated interval both lookups agree on the only instant. */
  lemma PlainTime(z: Zone, wall: int)
    requires WellFormed(z) && Lookup(z, wall, 0) == Lookup(z, wall, 1)
    ensures Instant(z, wall, 0) == Instant(z, wall, 1) && OnlyInstant(z, wall, Instant(z, wall, 0))
  {
    LookupIsOnWall(z, wall, 0, |z.transitions|);
    LookupIsOnWall(z, wall, 1, |z.transitions|);
    var u := Instant(z, wall, 0);
    SegmentIsPassed(z, u, Lookup(z, wall, 0));
    forall v | WallAt(z, v) == wall ensures v == u {
      SegmentIsBracketed(z, wall, v);
    }
  }

  /** The interval of transition `k` around a wall time on which the lookups disagree. */
  lemma DisagreementIsInterval(z: Zone, wall: int)
    requires WellFormed(z) && Lookup(z, wall, 1) == Lookup(z, wall, 0) + 1
    ensures var k := Lookup(z, wall, 0);
            && Lower(z, k) <= wall < Upper(z, k)
            && (k > 0 ==> Upper(z, k - 1) <= wall)
            && (k + 1 < |z.transitions| ==> wall < Lower(z, k + 1))
  {
    LookupIsOnWall(z, wall, 0, |z.transitions|);
    LookupIsOnWall(z, wall, 1, |z.transitions|);
  }

  /** In a skipped interval no instant shows the wall time. */
  lemma GapHasNone(z: Zone, wall: int, u: int)
    requires WellFormed(z) && Lookup(z, wall, 1) == Lookup(z, wall, 0) + 1
    requires OffsetAfter(z, Lookup(z, wall, 0)) <= OffsetAfter(z, Lookup(z, wall, 1))
    ensures WallAt(z, u) != wall
  {
    if WallAt(z, u) == wall {
      DisagreementIsInterval(z, wall);
      SegmentIsBracketed(z, wall, u);
      PassedIsSegment(z, u, |z.transitions|);
    }
  }

  /** In a repeated interval exactly two instants do. */
  lemma OverlapHasTwo(z: Zone, wall: int, u: int)
    requires WellFormed(z) && Lookup(z, wall, 1) == Lookup(z, wall, 0) + 1
    requires OffsetAfter(z, Lookup(z, wall, 0)) > OffsetAfter(z, Lookup(z, wall, 1))
    ensures Instant(z, wall, 0) < Instant(z, wall, 1)
    ensures WallAt(z, u) == wall <==> u == Instant(z, wall, 0) || u == Instant(z, wall, 1)
  {
    DisagreementIsInterval(z, wall);
    var k := Lookup(z, wall, 0);
    SegmentIsPassed(z, Instant(z, wall, 0), k);
    SegmentIsPassed(z, Instant(z, wall, 1), k + 1);
    if WallAt(z, u) == wall {
      SegmentIsBracketed(z, wall, u);
    }
  }

  /** A wall time is accepted if and only if exactly one instant shows it, and that instant is returned. */
  lemma AcceptedIffUnique(z: Zone, wall: int)
    requires WellFormed(z)
    ensures LocalStart(z, wall).Some? <==> exists u :: OnlyInstant(z, wall, u)
    ensures LocalStart(z, wall).Some? ==> OnlyInstant(z, wall, LocalStart(z, wall).value)
  {
    LookupsAreClose(z, wall);
    var first, second := Instant(z, wall, 0), Instant(z, wall, 1);
    if Lookup(z, wall, 0) == Lookup(z, wall, 1) {
      PlainTime(z, wall);
    } else if OffsetAfter(z, Lookup(z, wall, 0)) <= OffsetAfter(z, Lookup(z, wall, 1)) {
      forall u ensures !OnlyInstant(z, wall, u) { GapHasNone(z, wall, u); }
      GapHasNone(z, wall, first);
      GapHasNone(z, wall, second);
    } else {
      OverlapHasTwo(z, wall, first);
      OverlapHasTwo(z, wall, second);
      forall u ensures !OnlyInstant(z, wall, u) {}
    }
  }

  lemma OutsideInterval(z: Zone, wall: int, k: nat)
    requires WellFormed(z) && Lookup(z, wall, 0) == Lookup(z, wall, 1) && k < |z.transitions|
    ensures !(Lower(z, k) <= wall < Upper(z, k))
  {
    var early: int := Lookup(z, wall, 0);
    LookupIsOnWall(z, wall, 0, |z.transitions|);
    LookupIsOnWall(z, wall, 1, |z.transitions|);
    Ordered(z, k, early - 1);
    Ordered(z, early, k);
  }

  /** Refused times are those of skipped or repeated intervals: no others are. */
  lemma RefusedInIntervalsOnly(z: Zone, wall: int)
    requires WellFormed(z)
    ensures LocalStart(z, wall).None? <==> exists k: nat :: k < |z.transitions| && Lower(z, k) <= wall < Upper(z, k)
  {
    LookupsAreClose(z, wall);
    var early := Lookup(z, wall, 0);
    if early == Lookup(z, wall, 1) {
      PlainTime(z, wall);
      forall k: nat | k < |z.transitions| ensures !(Lower(z, k) <= wall < Upper(z, k)) {
        OutsideInterval(z, wall, k);
      }
    } else {
      DisagreementIsInterval(z, wall);
      AcceptedIffUnique(z, wall);
      if OffsetAfter(z, early) <= OffsetAfter(z, early + 1) {
        forall u ensures !OnlyInstant(z, wall, u) { GapHasNone(z, wall, u); }
      } else {
        OverlapHasTwo(z, wall, Instant(z, wall, 0));
        OverlapHasTwo(z, wall, Instant(z, wall, 1));
        forall u ensures !OnlyInstant(z, wall, u) {}
      }
    }
  }

  // ----- a wall time as a boundary between instants

  predicate SplitBy(z: Zone, wall: int, k: nat)
    requires k < |z.transitions|
  {
    Lower(z, k) < wall < Upper(z, k)
  }

  /** Whether some transition skips or repeats what lies on both sides of a wall time. */
  predicate Splits(z: Zone, wall: int) {
    exists k: nat :: k < |z.transitions| && SplitBy(z, wall, k)
  }

  /** An instant after the segment looked up shows the wall time or a later one. */
  lemma LaterSegmentShowsMore(z: Zone, wall: int, t: int)
    requires WellFormed(z) && !Splits(z, wall) && Lookup(z, wall, 0) < PassedAt(z, t)
    ensures Instant(z, wall, 0) <= t && wall <= WallAt(z, t)
  {
    var early := Lookup(z, wall, 0);
    LookupIsOnWall(z, wall, 0, |z.transitions|);
    PassedIsSegment(z, t, |z.transitions|);
    SegmentOnWall(z, t);
    assert !SplitBy(z, wall, early);
    Ordered(z, early, PassedAt(z, t) - 1);
  }

  lemma EarlierSegmentShowsLess(z: Zone, wall: int, t: int)
    requires WellFormed(z) && PassedAt(z, t) < Lookup(z, wall, 0)
    ensures t < Instant(z, wall, 0) && WallAt(z, t) < wall
  {
    LookupIsOnWall(z, wall, 0, |z.transitions|);
    PassedIsSegment(z, t, |z.transitions|);
    SegmentOnWall(z, t);
    Ordered(z, PassedAt(z, t), Lookup(z, wall, 0) - 1);
  }

  /** If none does, the first instant looked up for it divides all instants by what they show. */
  lemma WholeTimeDivides(z: Zone, wall: int, t: int)
    requires WellFormed(z) && !Splits(z, wall)
    ensures Instant(z, wall, 0) <= t <==> wall <= WallAt(z, t)
  {
    if Lookup(z, wall, 0) < PassedAt(z, t) {
      LaterSegmentShowsMore(z, wall, t);
    } else if PassedAt(z, t) < Lookup(z, wall, 0) {
      EarlierSegmentShowsLess(z, wall, t);
    }
  }

  lemma SplitTimeIsLookedUp(z: Zone, wall: int, k: nat)
    requires WellFormed(z) && k < |z.transitions| && SplitBy(z, wall, k)
    ensures Lookup(z, wall, 0) == k
  {
    var early: int, after: int := Lookup(z, wall, 0), k;
    LookupIsOnWall(z, wall, 0, |z.transitions|);
    Ordered(z, early, after);
    Ordered(z, after, early - 1);
  }

  /** If one does, some instant is on the wrong side. */
  lemma SplitTimeMisplaces(z: Zone, wall: int) returns (t: int)
    requires WellFormed(z) && Splits(z, wall)
    ensures !(Instant(z, wall, 0) <= t <==> wall <= WallAt(z, t))
  {
    var k: nat :| k < |z.transitions| && SplitBy(z, wall, k);
    t := z.transitions[k].utc;
    SegmentIsPassed(z, t, k + 1);
    SplitTimeIsLookedUp(z, wall, k);
  }

  lemma InOrderOnUtc(z: Zone, i: int, j: int)
    requires WellFormed(z)
    ensures 0 <= i <= j < |z.transitions| ==> z.transitions[i].utc <= z.transitions[j].utc
  {
  }

  /** From a transition on, instants show at least what its offset makes of its own. */
  lemma ShownAfterTransition(z: Zone, k: nat, t: int)
    requires WellFormed(z) && k < |z.transitions| && z.transitions[k].utc <= t
    ensures z.transitions[k].utc + OffsetAfter(z, k + 1) <= WallAt(z, t)
  {
    PassedIsSegment(z, t, |z.transitions|);
    SegmentOnWall(z, t);
    if PassedAt(z, t) <= k {
      InOrderOnUtc(z, PassedAt(z, t), k);
    } else {
      Ordered(z, k, PassedAt(z, t) - 1);
    }
  }

  /** What the offset of a transition makes of a wall time its interval has inside, before the next one begins. */
  lemma InsideSecondSegment(z: Zone, wall: int, k: nat)
    requires WellFormed(z) && k < |z.transitions| && SplitBy(z, wall, k)
    requires OffsetAfter(z, k + 1) < OffsetAfter(z, k)
    ensures WallAt(z, wall - OffsetAfter(z, k + 1)) == wall
  {
    Ordered(z, k, k + 1);
    SegmentIsPassed(z, wall - OffsetAfter(z, k + 1), k + 1);
  }

  predicate TameAt(z: Zone, k: nat)
    requires k < |z.transitions|
  {
    && OffsetAfter(z, k + 1) <= OffsetAfter(z, k) + DAY
    && (k + 1 < |z.transitions| ==> z.transitions[k].utc + DAY <= z.transitions[k + 1].utc)
  }

  /** Offsets move forward by a day at most, and the next transition is at least a day away. */
  predicate Tame(z: Zone) {
    forall k: nat :: k < |z.transitions| ==> TameAt(z, k)
  }

  /** A transition that the lookup of a wall time has passed is not after its instant. */
  lemma PassedBeforeInstant(z: Zone, wall: int)
    requires Lookup(z, wall, 0) > 0
    ensures z.transitions[Lookup(z, wall, 0) - 1].utc <= Instant(z, wall, 0)
  {
    LookupIsOnWall(z, wall, 0, |z.transitions|);
  }

  lemma LookupsGrow(z: Zone, a: int, b: int)
    requires WellFormed(z) && a <= b
    ensures Lookup(z, a, 0) <= Lookup(z, b, 0)
  {
    LookupIsOnWall(z, a, 0, |z.transitions|);
    LookupIsOnWall(z, b, 0, |z.transitions|);
    Ordered(z, Lookup(z, b, 0), Lookup(z, a, 0) - 1);
  }

  /** An unsplit wall time's instant is not after the transition that follows it. */
  lemma UnsplitBeforeNext(z: Zone, wall: int)
    requires !Splits(z, wall) && Lookup(z, wall, 0) < |z.transitions|
    ensures Instant(z, wall, 0) <= z.transitions[Lookup(z, wall, 0)].utc
  {
    LookupIsOnWall(z, wall, 0, |z.transitions|);
    assert !SplitBy(z, wall, Lookup(z, wall, 0));
  }

  /** The instants of an unsplit wall time and any later one are in order. */
  lemma UnsplitComesFirst(z: Zone, a: int, b: int)
    requires WellFormed(z) && a <= b && !Splits(z, a)
    ensures Instant(z, a, 0) <= Instant(z, b, 0)
  {
    LookupsGrow(z, a, b);
    if Lookup(z, a, 0) < Lookup(z, b, 0) {
      UnsplitBeforeNext(z, a);
      PassedBeforeInstant(z, b);
      InOrderOnUtc(z, Lookup(z, a, 0), Lookup(z, b, 0) - 1);
    }
  }

  /** In a tame zone a day never passes two transitions from a wall time that one of them splits. */
  lemma TameDayPassesOne(z: Zone, wall: int, k: nat)
    requires WellFormed(z) && Tame(z) && k < |z.transitions| && SplitBy(z, wall, k)
    requires OffsetAfter(z, k) < OffsetAfter(z, k + 1)
    ensures Lookup(z, wall + DAY, 0) <= k + 1
  {
    assert TameAt(z, k);
    LookupIsOnWall(z, wall + DAY, 0, |z.transitions|);
    Ordered(z, k + 1, Lookup(z, wall + DAY, 0) - 1);
  }

  /** In a tame zone, so are those of any wall time and the one a day later. */
  lemma TameDaysAreOrdered(z: Zone, wall: int)
    requires WellFormed(z) && Tame(z)
    ensures Instant(z, wall, 0) <= Instant(z, wall + DAY, 0)
  {
    if Splits(z, wall) {
      var k: nat :| k < |z.transitions| && SplitBy(z, wall, k);
      SplitTimeIsLookedUp(z, wall, k);
      LookupsGrow(z, wall, wall + DAY);
      assert TameAt(z, k);
      if OffsetAfter(z, k) < OffsetAfter(z, k + 1) {
        TameDayPassesOne(z, wall, k);
      } else if k < Lookup(z, wall + DAY, 0) {
        PassedBeforeInstant(z, wall + DAY);
        InOrderOnUtc(z, k, Lookup(z, wall + DAY, 0) - 1);
      }
    } else {
      UnsplitComesFirst(z, wall, wall + DAY);
    }
  }
}
