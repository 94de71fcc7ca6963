/**
 * The account certificate manager: renewal with a safety margin, a cooldown after failures, fallback to
 * the old lease, explicit invalidation and close. Clock readings and provider answers are inputs.
 */
module Certificates {
  import opened Wrappers

  /** What the checks on a loaded certificate and key can see. */
  datatype Certificate = Certificate(notBefore: int, notAfter: int, pairMatches: bool, isAuthority: bool,
                                     allowsClients: bool)

  /** The provider raises, gives unusable material, or a certificate whose files can be stored or not. */
  datatype Supply = Raises | Unloadable | Loaded(certificate: Certificate, storable: bool)

  /** A lease is the generation directory holding its files, and the certificate's end. */
  datatype Lease = Lease(generation: nat, expiresAt: int)

  /** The manager's fields; `issued` counts fresh directory names and `disk` is what exists of them. */
  datatype State = State(margin: int, cooldown: int, current: Option<Lease>, retryAt: Option<int>,
                         closed: bool, refreshFailed: bool, issued: nat, disk: set<nat>)

  datatype Outcome = Leased(lease: Lease) | Unavailable | ClockRefused

  /** One `ensure`: the new state, the answer, the last reading taken, and what the provider was asked. */
  datatype Step = Step(after: State, outcome: Outcome, last: Option<int>, calledAt: Option<int>, failedAt: Option<int>)

  predicate Configured(margin: int, cooldown: int) {
    margin >= 0 && cooldown > 0
  }

  function Initial(margin: int, cooldown: int): State {
    State(margin, cooldown, None, None, false, false, 0, {})
  }

  /** Whether `_prepare` accepts the material at this instant and stores it. */
  predicate Prepares(supply: Supply, now: int, margin: int) {
    && supply.Loaded?
    && supply.certificate.notBefore <= now
    && now + margin < supply.certificate.notAfter
    && supply.certificate.pairMatches
    && !supply.certificate.isAuthority
    && supply.certificate.allowsClients
    && supply.storable
  }

  predicate Outlasts(current: Option<Lease>, t: int) {
    current.Some? && t < current.value.expiresAt
  }

  /** `ensure` with the readings it would take before, after and in the failure handling of the provider call. */
  function Ensure(s: State, first: Reading, supply: Supply, second: Reading, third: Reading): Step {
    if s.closed then Step(s, Unavailable, None, None, None)
    else if first.Naive? then Step(s, ClockRefused, None, None, None)
    else if Outlasts(s.current, first.t + s.margin) then
      Step(s, Leased(s.current.value), Some(first.t), None, None)
    else if s.retryAt.Some? && first.t < s.retryAt.value then
      Step(s, if Outlasts(s.current, first.t) then Leased(s.current.value) else Unavailable, Some(first.t), None, None)
    else if second.At? && Prepares(supply, second.t, s.margin) then
      var lease := Lease(s.issued, supply.certificate.notAfter);
      Step(s.(current := Some(lease), retryAt := None, refreshFailed := false, issued := s.issued + 1,
              disk := s.disk + {s.issued}),
           Leased(lease), Some(second.t), Some(first.t), None)
    else if third.Naive? then Step(s, ClockRefused, None, Some(first.t), None)
    else
      Step(s.(retryAt := Some(third.t + s.cooldown), refreshFailed := true),
           if Outlasts(s.current, third.t) then Leased(s.current.value) else Unavailable,
           Some(third.t), Some(first.t), Some(third.t))
  }

  /** `invalidate`: the argument is one of the issued lease objects, or an object that never was. */
  predicate Rejects(s: State, expected: Option<nat>) {
    !s.closed && s.current.Some? && expected == Some(s.current.value.generation)
  }

  function Invalidate(s: State, expected: Option<nat>): State {
    if Rejects(s, expected) then s.(current := None, retryAt := None) else s
  }

  function Close(s: State): State {
    if s.closed then s else s.(closed := true, disk := {})
  }

  // ----- the class

  class CertificateLease {
    const generation: nat
    const expiresAt: int

    constructor (generation: nat, expiresAt: int)
      ensures this.generation == generation && this.expiresAt == expiresAt
    {
      this.generation, this.expiresAt := generation, expiresAt;
    }
  }

  class AccountCertificateManager {
    const margin: int
    const cooldown: int
    var current: CertificateLease?
    var retryAt: Option<int>
    var closed: bool
    var lastRefreshFailed: bool
    // Stands for the fresh names of temporary directories.
    var issued: nat
    ghost var disk: set<nat>

    ghost function Abstract(): State
      reads this
    {
      State(margin, cooldown, if current == null then None else Some(Lease(current.generation, current.expiresAt)),
            retryAt, closed, lastRefreshFailed, issued, disk)
    }

    constructor (renewBefore: int, retryAfter: int)
      ensures Abstract() == Initial(renewBefore, retryAfter)
    {
      margin, cooldown := renewBefore, retryAfter;
      current, retryAt, closed, lastRefreshFailed := null, None, false, false;
      issued, disk := 0, {};
    }

    /** A manager, unless its margin or its cooldown is refused. */
    static method Create(renewBefore: int, retryAfter: int) returns (manager: AccountCertificateManager?)
      ensures manager != null <==> renewBefore >= 0 && retryAfter >= 1
      ensures manager != null ==> fresh(manager) && manager.Abstract() == Initial(renewBefore, retryAfter)
    {
      manager := null;
      if Configured(renewBefore, retryAfter) {
        manager := new AccountCertificateManager(renewBefore, retryAfter);
      }
    }

    /** A valid lease, the same object while it lasts, or the reason there is none. */
    method EnsureLease(first: Reading, supply: Supply, second: Reading, third: Reading)
      returns (lease: CertificateLease?, clockRefused: bool)
      modifies this
      ensures var step := Ensure(old(Abstract()), first, supply, second, third);
              && Abstract() == step.after
              && clockRefused == step.outcome.ClockRefused?
              && (lease != null <==> step.outcome.Leased?)
              && (lease != null ==> step.outcome.lease == Lease(lease.generation, lease.expiresAt))
              && (lease != null ==> lease == current && (lease == old(current) || fresh(lease)))
              && (lease == null ==> current == old(current))
    {
      lease, clockRefused := null, false;
      if closed {
        return;
      }
      if first.Naive? {
        return null, true;
      }
      var now := first.t;
      if current != null && current.expiresAt > now + margin {
        return current, false;
      }
      if retryAt.Some? && now < retryAt.value {
        if current != null && current.expiresAt > now {
          return current, false;
        }
        return;
      }
      if second.At? && Prepares(supply, second.t, margin) {
        lease := new CertificateLease(issued, supply.certificate.notAfter);
        disk := disk + {issued};
        issued := issued + 1;
        current := lease;
        retryAt := None;
        lastRefreshFailed := false;
        return;
      }
      if third.Naive? {
        return null, true;
      }
      now := third.t;
      retryAt := Some(now + cooldown);
      lastRefreshFailed := true;
      if current != null && current.expiresAt > now {
        lease := current;
      }
    }

    /** Only the very object last issued can be invalidated; any other leaves everything as it is. */
    method InvalidateLease(expected: CertificateLease) returns (done: bool)
      modifies this
      ensures done <==> !old(closed) && old(current) == expected
      ensures done ==> Abstract() == Invalidate(old(Abstract()), Some(expected.generation)) && current == null
      ensures !done ==> Abstract() == old(Abstract()) && current == old(current)
    {
      if closed || current != expected {
        return false;
      }
      current := null;
      retryAt := None;
      return true;
    }

    method CloseManager()
      modifies this
      ensures Abstract() == Close(old(Abstract())) && current == old(current)
    {
      if !closed {
        disk := {};
        closed := true;
      }
    }
  }

  // ----- runs

  datatype Event =
    | Ensuring(first: Reading, supply: Supply, second: Reading, third: Reading)
    | Invalidating(expected: Option<nat>)
    | Closing

  function EnsureStep(s: State, event: Event): Step
    requires event.Ensuring?
  {
    Ensure(s, event.first, event.supply, event.second, event.third)
  }

  function Apply(s: State, event: Event): State {
    match event
    case Ensuring(_, _, _, _) => EnsureStep(s, event).after
    case Invalidating(expected) => Invalidate(s, expected)
    case Closing => Close(s)
  }

  /** The state after the first `n` events of a run. */
  function After(s: State, run: seq<Event>, n: nat): State
    requires n <= |run|
  {
    if n == 0 then s else Apply(After(s, run, n - 1), run[n - 1])
  }

  /** The step that event `i` of a run takes. */
  function StepAt(s: State, run: seq<Event>, i: nat): Step
    requires i < |run| && run[i].Ensuring?
  {
    EnsureStep(After(s, run, i), run[i])
  }

  predicate InvalidatesAt(s: State, run: seq<Event>, i: nat)
    requires i < |run|
  {
    run[i].Invalidating? && Rejects(After(s, run, i), run[i].expected)
  }

  /** The lease event `i` hands out, if any. */
  function LeasedAt(s: State, run: seq<Event>, i: nat): Option<Lease>
    requires i < |run|
  {
    if run[i].Ensuring? && StepAt(s, run, i).outcome.Leased? then Some(StepAt(s, run, i).outcome.lease) else None
  }

  /** The generations of the leases handed out by the first `n` events. */
  function Handed(s: State, run: seq<Event>, n: nat): set<nat>
    requires n <= |run|
  {
    if n == 0 then {}
    else
      Handed(s, run, n - 1)
      + match LeasedAt(s, run, n - 1) case Some(lease) => {lease.generation} case None => {}
  }

  predicate ClosedWithin(run: seq<Event>, n: nat)
    requires n <= |run|
  {
    exists i :: 0 <= i < n && run[i] == Closing
  }

  // ----- every lease returned is unexpired

  /** In any state, a lease handed out outlasts the last clock reading the call took. */
  lemma LeasesAreUnexpired(s: State, first: Reading, supply: Supply, second: Reading, third: Reading)
    requires s.margin >= 0
    ensures var step := Ensure(s, first, supply, second, third);
            step.outcome.Leased? ==> step.last.Some? && step.last.value < step.outcome.lease.expiresAt
  {
  }

  // ----- what a call does

  /** A certificate good now and past the margin, for its own key, a leaf, open to clients, whose files are stored. */
  predicate IsGood(supply: Supply, now: int, margin: int) {
    match supply
    case Raises => false
    case Unloadable => false
    case Loaded(Certificate(notBefore, notAfter, pairMatches, isAuthority, allowsClients), storable) =>
      notBefore <= now < notAfter - margin && pairMatches && !isAuthority && allowsClients && storable
  }

  /** There is no lease in use that lasts beyond the margin from `t`, and no cooldown runs. */
  predicate NeedsProvider(s: State, t: int) {
    && (s.current.None? || s.current.value.expiresAt <= t + s.margin)
    && (s.retryAt.None? || s.retryAt.value <= t)
  }

  /** An open manager asks the provider exactly when it needs to by its first reading, and no closed one does. */
  lemma WhenTheProviderIsAsked(s: State, first: Reading, supply: Supply, second: Reading, third: Reading)
    ensures var step := Ensure(s, first, supply, second, third);
            step.calledAt == if !s.closed && first.At? && NeedsProvider(s, first.t) then Some(first.t) else None
  {
  }

  /** A call that asks issues a new lease exactly for a good certificate, by a fresh reading after the answer. */
  lemma WhenALeaseIsIssued(s: State, first: Reading, supply: Supply, second: Reading, third: Reading)
    ensures var step := Ensure(s, first, supply, second, third);
            var issued := step.calledAt.Some? && second.At? && IsGood(supply, second.t, s.margin);
            && (issued ==>
                  && step.outcome == Leased(Lease(s.issued, supply.certificate.notAfter))
                  && step.after == s.(current := Some(step.outcome.lease), retryAt := None, refreshFailed := false,
                                      issued := s.issued + 1, disk := s.disk + {s.issued}))
            && (!issued && step.calledAt.Some? && third.At? ==>
                  step.after == s.(retryAt := Some(third.t + s.cooldown), refreshFailed := true))
            && (!issued && (step.calledAt.None? || third.Naive?) ==> step.after == s)
  {
  }

  /** The reading that decides a call: the first, or after the provider's answer the second or the third. */
  function Deciding(s: State, first: Reading, supply: Supply, second: Reading, third: Reading): Reading {
    if Ensure(s, first, supply, second, third).calledAt.None? then first
    else if second.At? && IsGood(supply, second.t, s.margin) then second
    else third
  }

  /**
   * Whenever the lease in use outlasts the deciding reading, an open manager hands out a lease: that very one,
   * unless a new one was issued. It fails only when it is closed, when no lease in use lasts, or when the clock
   * is refused; and the clock is refused exactly when the deciding reading has no time zone.
   */
  lemma LastingLeasesAreHandedOut(s: State, first: Reading, supply: Supply, second: Reading, third: Reading)
    requires s.margin >= 0
    ensures var step := Ensure(s, first, supply, second, third);
            var deciding := Deciding(s, first, supply, second, third);
            var issued := step.after.issued != s.issued;
            && (step.outcome.Leased? <==>
                  && !s.closed && deciding.At?
                  && (issued || (s.current.Some? && deciding.t < s.current.value.expiresAt)))
            && (step.outcome.Leased? && !issued ==> Some(step.outcome.lease) == s.current)
            && (step.outcome.ClockRefused? <==> !s.closed && deciding.Naive?)
            && (step.outcome.Unavailable? <==>
                  s.closed || (deciding.At? && !issued && (s.current.None? || s.current.value.expiresAt <= deciding.t)))
            && (!s.closed && deciding.At? ==> step.last == Some(deciding.t))
  {
  }

  /** Event `i` issues a lease. */
  predicate IssuesAt(s: State, run: seq<Event>, i: nat)
    requires i < |run|
  {
    run[i].Ensuring? && StepAt(s, run, i).after.issued != After(s, run, i).issued
  }

  /** Event `i` is a failed call, and no lease has been issued since. */
  ghost predicate FailedSince(s: State, run: seq<Event>, n: nat, i: nat)
    requires n <= |run|
  {
    && i < n && run[i].Ensuring? && StepAt(s, run, i).failedAt.Some?
    && forall k: nat :: i < k < n ==> !IssuesAt(s, run, k)
  }

  /** Over every run, the last refresh counts as failed exactly if some call failed with no lease issued since. */
  lemma {:induction false} LastRefreshFailed(margin: int, cooldown: int, run: seq<Event>, n: nat)
    requires n <= |run|
    ensures After(Initial(margin, cooldown), run, n).refreshFailed
       <==> exists i: nat :: FailedSince(Initial(margin, cooldown), run, n, i)
  {
    var s := Initial(margin, cooldown);
    if n > 0 {
      var m := n - 1;
      LastRefreshFailed(margin, cooldown, run, m);
      if run[m].Ensuring? && StepAt(s, run, m).failedAt.Some? {
        assert FailedSince(s, run, n, m);
      } else if IssuesAt(s, run, m) {
        forall i: nat ensures !FailedSince(s, run, n, i) {}
      } else {
        assert After(s, run, n).refreshFailed == After(s, run, m).refreshFailed;
        if i: nat :| FailedSince(s, run, m, i) {
          assert FailedSince(s, run, n, i);
        }
        if i: nat :| FailedSince(s, run, n, i) {
          assert FailedSince(s, run, m, i);
        }
      }
    }
  }

  // ----- directories on disk

  /** The disk holds what was handed out, numbered as issued, and the lease in use is among it. */
  ghost predicate Kept(s: State, handed: set<nat>) {
    && s.disk == (if s.closed then {} else handed)
    && (forall g :: g in handed <==> 0 <= g < s.issued)
    && (s.current.Some? ==> s.current.value.generation < s.issued)
  }

  lemma EnsuringKeeps(s: State, event: Event, handed: set<nat>)
    requires event.Ensuring? && Kept(s, handed)
    ensures var step := EnsureStep(s, event);
            && step.after.closed == s.closed
            && Kept(step.after, handed + if step.outcome.Leased? then {step.outcome.lease.generation} else {})
  {
    var step := EnsureStep(s, event);
    if step.outcome.Leased? && step.after.issued == s.issued {
      assert handed + {step.outcome.lease.generation} == handed;
    } else if !step.outcome.Leased? {
      assert handed + {} == handed;
    }
  }

  lemma OthersKeep(s: State, event: Event, handed: set<nat>)
    requires !event.Ensuring? && Kept(s, handed)
    ensures Kept(Apply(s, event), handed)
    ensures Apply(s, event).closed == (s.closed || event == Closing)
  {
  }

  /** Until close the generations on disk are exactly those of the leases handed out; after it there are none. */
  lemma {:induction false} DiskHoldsTheLeases(margin: int, cooldown: int, run: seq<Event>, n: nat)
    requires n <= |run|
    ensures var s := After(Initial(margin, cooldown), run, n);
            && s.closed == ClosedWithin(run, n)
            && s.disk == (if s.closed then {} else Handed(Initial(margin, cooldown), run, n))
            && (forall g :: g in Handed(Initial(margin, cooldown), run, n) <==> 0 <= g < s.issued)
            && (s.current.Some? ==> s.current.value.generation < s.issued)
  {
    if n > 0 {
      var start := Initial(margin, cooldown);
      DiskHoldsTheLeases(margin, cooldown, run, n - 1);
      assert ClosedWithin(run, n) <==> ClosedWithin(run, n - 1) || run[n - 1] == Closing;
      var before, handed := After(start, run, n - 1), Handed(start, run, n - 1);
      if run[n - 1].Ensuring? {
        EnsuringKeeps(before, run[n - 1], handed);
      } else {
        OthersKeep(before, run[n - 1], handed);
        assert handed + {} == handed;
      }
    }
  }

  /** After a close `ensure` always fails, whatever the clock and the provider do. */
  lemma ClosedNeverLeases(margin: int, cooldown: int, run: seq<Event>, i: nat, j: nat)
    requires i < j < |run| && run[i] == Closing && run[j].Ensuring?
    ensures StepAt(Initial(margin, cooldown), run, j).outcome == Unavailable
    ensures StepAt(Initial(margin, cooldown), run, j).calledAt == None
  {
    DiskHoldsTheLeases(margin, cooldown, run, j);
  }

  // ----- an invalidated lease never comes back

  lemma {:induction false} RevokedStaysGone(margin: int, cooldown: int, run: seq<Event>, i: nat, n: nat)
    requires i < n <= |run| && InvalidatesAt(Initial(margin, cooldown), run, i)
    ensures var s := After(Initial(margin, cooldown), run, n);
            && run[i].expected.value < s.issued
            && (s.current.Some? ==> s.current.value.generation != run[i].expected.value)
  {
    DiskHoldsTheLeases(margin, cooldown, run, i);
    if n > i + 1 {
      RevokedStaysGone(margin, cooldown, run, i, n - 1);
    }
  }

  /** A successfully invalidated lease is never handed out again. */
  lemma InvalidatedNeverReturns(margin: int, cooldown: int, run: seq<Event>, i: nat, j: nat)
    requires i < j < |run| && InvalidatesAt(Initial(margin, cooldown), run, i)
    ensures LeasedAt(Initial(margin, cooldown), run, j).Some? ==>
              LeasedAt(Initial(margin, cooldown), run, j).value.generation != run[i].expected.value
  {
    RevokedStaysGone(margin, cooldown, run, i, j);
  }

  lemma {:induction false} AfterPrefix(s: State, run: seq<Event>, other: seq<Event>, n: nat)
    requires n <= |run| && n <= |other| && run[..n] == other[..n]
    ensures After(s, run, n) == After(s, other, n)
  {
    if n > 0 {
      assert run[..n - 1] == run[..n][..n - 1] == other[..n][..n - 1] == other[..n - 1];
      AfterPrefix(s, run, other, n - 1);
      assert run[n - 1] == run[..n][n - 1] == other[..n][n - 1];
    }
  }

  /** The run without event `i`. */
  function Without(run: seq<Event>, i: nat): seq<Event>
    requires i < |run|
  {
    run[..i] + run[i + 1..]
  }

  lemma {:induction false} StateWithoutStale(s: State, run: seq<Event>, i: nat, j: nat)
    requires i < j <= |run| && run[i].Invalidating? && !InvalidatesAt(s, run, i)
    ensures After(s, run, j) == After(s, Without(run, i), j - 1)
  {
    var other := Without(run, i);
    if j == i + 1 {
      AfterPrefix(s, run, other, i);
    } else {
      StateWithoutStale(s, run, i, j - 1);
      assert other[j - 2] == run[j - 1];
    }
  }

  /**
   * An invalidation that does not name the lease in use might as well not have been asked for: every later
   * state and every later answer of the run is the same without it.
   */
  lemma StaleInvalidationIsInert(s: State, run: seq<Event>, i: nat, j: nat)
    requires i < j <= |run| && run[i].Invalidating? && !InvalidatesAt(s, run, i)
    ensures After(s, run, j) == After(s, Without(run, i), j - 1)
    ensures j < |run| ==> LeasedAt(s, run, j) == LeasedAt(s, Without(run, i), j - 1)
  {
    StateWithoutStale(s, run, i, j);
    assert j < |run| ==> Without(run, i)[j - 1] == run[j];
  }

  // ----- the cooldown

  predicate NotAfter(a: Reading, b: Reading) {
    a.At? && b.At? ==> a.t <= b.t
  }

  predicate InOrder(a: Reading, b: Reading, c: Reading) {
    NotAfter(a, b) && NotAfter(b, c) && NotAfter(a, c)
  }

  /** No aware reading of a later event, or a later reading of the same event, is earlier. */
  ghost predicate ClockNeverRunsBack(run: seq<Event>) {
    && (forall i :: 0 <= i < |run| && run[i].Ensuring? ==> InOrder(run[i].first, run[i].second, run[i].third))
    && (forall i, j :: 0 <= i < j < |run| && run[i].Ensuring? && run[j].Ensuring? ==>
          && NotAfter(run[i].first, run[j].first)
          && NotAfter(run[i].second, run[j].first)
          && NotAfter(run[i].third, run[j].first))
  }

  function FailureAt(s: State, run: seq<Event>, i: nat): Option<int>
    requires i < |run|
  {
    if run[i].Ensuring? then StepAt(s, run, i).failedAt else None
  }

  function CallAt(s: State, run: seq<Event>, i: nat): Option<int>
    requires i < |run|
  {
    if run[i].Ensuring? then StepAt(s, run, i).calledAt else None
  }

  lemma {:induction false} CooldownIsFixed(s: State, run: seq<Event>, n: nat)
    requires n <= |run|
    ensures After(s, run, n).cooldown == s.cooldown
  {
    if n > 0 {
      CooldownIsFixed(s, run, n - 1);
    }
  }

  lemma QuietEventKeepsCooldown(s: State, run: seq<Event>, n: nat)
    requires n < |run| && !InvalidatesAt(s, run, n) && CallAt(s, run, n).None?
    ensures After(s, run, n + 1).retryAt == After(s, run, n).retryAt
  {
  }

  /** A failure's cooldown stands until the provider is called again or a lease is invalidated. */
  lemma {:induction false} FailureHoldsOff(s: State, run: seq<Event>, i: nat, n: nat)
    requires i < n <= |run| && FailureAt(s, run, i).Some?
    requires forall k: nat :: i < k < n ==> !InvalidatesAt(s, run, k) && CallAt(s, run, k).None?
    ensures After(s, run, n).retryAt == Some(FailureAt(s, run, i).value + s.cooldown)
  {
    CooldownIsFixed(s, run, i);
    if n > i + 1 {
      FailureHoldsOff(s, run, i, n - 1);
      QuietEventKeepsCooldown(s, run, n - 1);
    }
  }

  /** The first event after `i` that calls the provider, at `j` at the latest. */
  lemma {:induction false} NextCall(s: State, run: seq<Event>, i: nat, j: nat) returns (k: nat)
    requires i < j < |run| && CallAt(s, run, j).Some?
    ensures i < k <= j && CallAt(s, run, k).Some?
    ensures forall m: nat :: i < m < k ==> CallAt(s, run, m).None?
    decreases j - i
  {
    if CallAt(s, run, i + 1).Some? {
      k := i + 1;
    } else {
      k := NextCall(s, run, i + 1, j);
    }
  }

  /**
   * With no invalidation in between, the next provider call after a failure starts at least the cooldown
   * after it, whatever the clock does.
   */
  lemma NextCallWaits(s: State, run: seq<Event>, i: nat, j: nat)
    requires i < j < |run| && FailureAt(s, run, i).Some? && CallAt(s, run, j).Some?
    requires forall k: nat :: i < k < j ==> !InvalidatesAt(s, run, k) && CallAt(s, run, k).None?
    ensures FailureAt(s, run, i).value + s.cooldown <= CallAt(s, run, j).value
  {
    FailureHoldsOff(s, run, i, j);
  }

  /** So does every later one that does not start before a call in between. */
  lemma CallsAreSpaced(s: State, run: seq<Event>, i: nat, j: nat)
    requires i < j < |run| && FailureAt(s, run, i).Some? && CallAt(s, run, j).Some?
    requires forall k: nat :: i < k < j ==> !InvalidatesAt(s, run, k)
    requires forall k: nat :: i < k < j && CallAt(s, run, k).Some? ==> CallAt(s, run, k).value <= CallAt(s, run, j).value
    ensures FailureAt(s, run, i).value + s.cooldown <= CallAt(s, run, j).value
  {
    var k := NextCall(s, run, i, j);
    NextCallWaits(s, run, i, k);
  }

  /** How many failures the first `n` events record. */
  function Failures(s: State, run: seq<Event>, n: nat): nat
    requires n <= |run|
  {
    if n == 0 then 0 else Failures(s, run, n - 1) + if FailureAt(s, run, n - 1).Some? then 1 else 0
  }

  /** How many of them invalidate a lease. */
  function Invalidations(s: State, run: seq<Event>, n: nat): nat
    requires n <= |run|
  {
    if n == 0 then 0 else Invalidations(s, run, n - 1) + if InvalidatesAt(s, run, n - 1) then 1 else 0
  }

  /** Failures from event `i` up to event `j`, less the invalidations in between. */
  function Waits(s: State, run: seq<Event>, i: nat, j: nat): int
    requires i <= j <= |run|
  {
    Failures(s, run, j) - Failures(s, run, i) - (Invalidations(s, run, j) - Invalidations(s, run, i))
  }

  predicate Fits(waits: int, cooldown: int, span: int) {
    waits * cooldown <= span
  }

  lemma Scaled(a: int, b: int, c: int)
    requires a <= b && c > 0
    ensures a * c <= b * c
  {
  }

  lemma OneMoreGap(gaps: int, invalidated: nat, cooldown: int, span: int, gap: int)
    requires cooldown > 0 && Fits(gaps, cooldown, span) && 0 <= gap && (invalidated == 0 ==> cooldown <= gap)
    ensures Fits(gaps + 1 - invalidated, cooldown, span + gap)
  {
    if invalidated == 0 {
      assert (gaps + 1) * cooldown == gaps * cooldown + cooldown;
    } else {
      Scaled(gaps + 1 - invalidated, gaps, cooldown);
    }
  }

  lemma CallsKeepOrder(s: State, run: seq<Event>, i: nat, j: nat)
    requires i < j < |run| && ClockNeverRunsBack(run) && CallAt(s, run, j).Some?
    ensures forall k: nat :: i < k < j && CallAt(s, run, k).Some? ==> CallAt(s, run, k).value <= CallAt(s, run, j).value
  {
    forall k: nat | i < k < j && CallAt(s, run, k).Some? ensures CallAt(s, run, k).value <= CallAt(s, run, j).value {
      assert NotAfter(run[k].first, run[j].first);
    }
  }

  lemma {:induction false} InvalidationsGrow(s: State, run: seq<Event>, i: nat, j: nat)
    requires i <= j <= |run|
    ensures Invalidations(s, run, i) <= Invalidations(s, run, j)
  {
    if i < j {
      InvalidationsGrow(s, run, i, j - 1);
    }
  }

  lemma {:induction false} NoneInvalidated(s: State, run: seq<Event>, i: nat, j: nat)
    requires i <= j <= |run| && Invalidations(s, run, i) == Invalidations(s, run, j)
    ensures forall k: nat :: i < k < j ==> !InvalidatesAt(s, run, k)
  {
    if i < j {
      InvalidationsGrow(s, run, i, j - 1);
      NoneInvalidated(s, run, i, j - 1);
    }
  }

  /** A failure is never earlier than one before it, and a cooldown later if nothing was invalidated. */
  lemma FailureGap(s: State, run: seq<Event>, k: nat, j: nat)
    requires k < j < |run| && ClockNeverRunsBack(run) && s.cooldown > 0
    requires FailureAt(s, run, k).Some? && FailureAt(s, run, j).Some?
    ensures FailureAt(s, run, k).value <= FailureAt(s, run, j).value
    ensures Invalidations(s, run, j) == Invalidations(s, run, k) ==>
              FailureAt(s, run, k).value + s.cooldown <= FailureAt(s, run, j).value
  {
    assert NotAfter(run[k].third, run[j].first);
    assert InOrder(run[j].first, run[j].second, run[j].third);
    if Invalidations(s, run, j) == Invalidations(s, run, k) {
      NoneInvalidated(s, run, k, j);
      CallsKeepOrder(s, run, k, j);
      CallsAreSpaced(s, run, k, j);
    }
  }

  /** The failure just before a later one. */
  lemma {:induction false} PreviousFailure(s: State, run: seq<Event>, i: nat, j: nat) returns (k: nat)
    requires i < j < |run| && FailureAt(s, run, i).Some?
    ensures i <= k < j && FailureAt(s, run, k).Some?
    ensures Failures(s, run, j) == Failures(s, run, k) + 1
    ensures Invalidations(s, run, i) <= Invalidations(s, run, k) <= Invalidations(s, run, j)
    decreases j
  {
    if FailureAt(s, run, j - 1).Some? {
      k := j - 1;
    } else {
      k := PreviousFailure(s, run, i, j - 1);
    }
    InvalidationsGrow(s, run, i, k);
    InvalidationsGrow(s, run, k, j);
  }

  lemma WaitsAfterOneMore(s: State, run: seq<Event>, i: nat, k: nat, j: nat)
    requires i <= k < j <= |run| && Failures(s, run, j) == Failures(s, run, k) + 1
    ensures Waits(s, run, i, j) == Waits(s, run, i, k) + 1 - (Invalidations(s, run, j) - Invalidations(s, run, k))
  {
  }

  /** Counting from a failure: every further one waited for the cooldown, or used up an invalidation. */
  lemma {:induction false} FailuresFrom(s: State, run: seq<Event>, i: nat, j: nat)
    requires i <= j < |run| && ClockNeverRunsBack(run) && s.cooldown > 0
    requires FailureAt(s, run, i).Some? && FailureAt(s, run, j).Some?
    ensures Fits(Waits(s, run, i, j), s.cooldown, FailureAt(s, run, j).value - FailureAt(s, run, i).value)
    decreases j - i
  {
    if i < j {
      var k := PreviousFailure(s, run, i, j);
      FailuresFrom(s, run, i, k);
      FailureGap(s, run, k, j);
      WaitsAfterOneMore(s, run, i, k, j);
      OneMoreGap(Waits(s, run, i, k), Invalidations(s, run, j) - Invalidations(s, run, k), s.cooldown,
                 FailureAt(s, run, k).value - FailureAt(s, run, i).value,
                 FailureAt(s, run, j).value - FailureAt(s, run, k).value);
    }
  }

  lemma Quotient(gaps: int, span: int, cooldown: int)
    requires cooldown > 0 && Fits(gaps, cooldown, span)
    ensures gaps <= span / cooldown
  {
    if gaps > span / cooldown {
      Scaled(span / cooldown + 1, gaps, cooldown);
    }
  }

  /**
   * Over any stretch of a run between two failures that spans a time `T`, failures number at most
   * `T / cooldown` plus one, plus one for each invalidation in it.
   */
  lemma FailuresAreBounded(s: State, run: seq<Event>, i: nat, j: nat)
    requires i <= j < |run| && ClockNeverRunsBack(run) && s.cooldown > 0
    requires FailureAt(s, run, i).Some? && FailureAt(s, run, j).Some?
    ensures var span := FailureAt(s, run, j).value - FailureAt(s, run, i).value;
            Failures(s, run, j + 1) - Failures(s, run, i)
              <= span / s.cooldown + 1 + (Invalidations(s, run, j) - Invalidations(s, run, i))
  {
    FailuresFrom(s, run, i, j);
    var span := FailureAt(s, run, j).value - FailureAt(s, run, i).value;
    Quotient(Waits(s, run, i, j), span, s.cooldown);
  }

  // ----- calls that bring no lease

  /** Event `i` asks the provider and issues no lease. */
  predicate UnsuccessfulAt(s: State, run: seq<Event>, i: nat)
    requires i < |run|
  {
    CallAt(s, run, i).Some? && StepAt(s, run, i).after.issued == After(s, run, i).issued
  }

  /**
   * An unsuccessful call starts the cooldown if and only if the reading taken in handling it is aware;
   * otherwise the clock's refusal is all that comes of it.
   */
  lemma CooldownStartsIffAware(s: State, run: seq<Event>, i: nat)
    requires i < |run| && UnsuccessfulAt(s, run, i)
    ensures FailureAt(s, run, i).Some? <==> run[i].third.At?
    ensures run[i].third.At? ==> StepAt(s, run, i).after.retryAt == Some(run[i].third.t + After(s, run, i).cooldown)
    ensures run[i].third.Naive? ==>
              StepAt(s, run, i).after == After(s, run, i) && StepAt(s, run, i).outcome == ClockRefused
  {
  }

  function Unsuccessful(s: State, run: seq<Event>, n: nat): nat
    requires n <= |run|
  {
    if n == 0 then 0 else Unsuccessful(s, run, n - 1) + if UnsuccessfulAt(s, run, n - 1) then 1 else 0
  }

  /** Unsuccessful calls that start no cooldown. */
  function Unarmed(s: State, run: seq<Event>, n: nat): nat
    requires n <= |run|
  {
    if n == 0 then 0
    else Unarmed(s, run, n - 1) + if UnsuccessfulAt(s, run, n - 1) && run[n - 1].third.Naive? then 1 else 0
  }

  lemma {:induction false} UnsuccessfulAreFailuresOrUnarmed(s: State, run: seq<Event>, n: nat)
    requires n <= |run|
    ensures Unsuccessful(s, run, n) == Failures(s, run, n) + Unarmed(s, run, n)
  {
    if n > 0 {
      UnsuccessfulAreFailuresOrUnarmed(s, run, n - 1);
      if UnsuccessfulAt(s, run, n - 1) {
        CooldownStartsIffAware(s, run, n - 1);
      }
    }
  }

  /** The first failure from event `i` on, if there is one before `n`; until then none is counted. */
  lemma {:induction false} FirstFailure(s: State, run: seq<Event>, i: nat, n: nat) returns (p: nat)
    requires i <= n <= |run|
    ensures i <= p <= n && Failures(s, run, p) == Failures(s, run, i)
    ensures p < n ==> FailureAt(s, run, p).Some?
    decreases n - i
  {
    if i == n || FailureAt(s, run, i).Some? {
      p := i;
    } else {
      p := FirstFailure(s, run, i + 1, n);
    }
  }

  /** The last failure from event `p`, itself one, on and before `n`; after it none is counted. */
  lemma {:induction false} LastFailure(s: State, run: seq<Event>, p: nat, n: nat) returns (q: nat)
    requires p < n <= |run| && FailureAt(s, run, p).Some?
    ensures p <= q < n && FailureAt(s, run, q).Some? && Failures(s, run, q + 1) == Failures(s, run, n)
    decreases n
  {
    if FailureAt(s, run, n - 1).Some? {
      q := n - 1;
    } else {
      q := LastFailure(s, run, p, n - 1);
    }
  }

  /** All failures of a stretch of a run fall between two instants. */
  ghost predicate FailuresBetween(s: State, run: seq<Event>, i: nat, n: nat, from: int, to: int)
    requires i <= n <= |run|
  {
    from <= to && forall k: nat :: i <= k < n && FailureAt(s, run, k).Some? ==> from <= FailureAt(s, run, k).value <= to
  }

  lemma QuotientGrows(a: int, b: int, c: int)
    requires a <= b && c > 0
    ensures a / c <= b / c
  {
    if a / c > b / c {
      Scaled(b / c + 1, a / c, c);
    }
  }

  lemma FailuresFitASpan(s: State, run: seq<Event>, p: nat, q: nat, from: int, to: int)
    requires p <= q < |run| && ClockNeverRunsBack(run) && s.cooldown > 0
    requires FailureAt(s, run, p).Some? && FailureAt(s, run, q).Some?
    requires from <= FailureAt(s, run, p).value && FailureAt(s, run, q).value <= to
    ensures Failures(s, run, q + 1) - Failures(s, run, p)
              <= (to - from) / s.cooldown + 1 + (Invalidations(s, run, q) - Invalidations(s, run, p))
  {
    FailuresAreBounded(s, run, p, q);
    QuotientGrows(FailureAt(s, run, q).value - FailureAt(s, run, p).value, to - from, s.cooldown);
  }

  /** Over any stretch, failures within a span `T` number at most `T / cooldown` plus one, plus the invalidations. */
  lemma FailuresWithinASpan(s: State, run: seq<Event>, i: nat, n: nat, from: int, to: int)
    requires i <= n <= |run| && ClockNeverRunsBack(run) && s.cooldown > 0
    requires FailuresBetween(s, run, i, n, from, to)
    ensures Failures(s, run, n) - Failures(s, run, i)
              <= (to - from) / s.cooldown + 1 + (Invalidations(s, run, n) - Invalidations(s, run, i))
  {
    InvalidationsGrow(s, run, i, n);
    QuotientGrows(0, to - from, s.cooldown);
    var p := FirstFailure(s, run, i, n);
    if p < n {
      var q := LastFailure(s, run, p, n);
      InvalidationsGrow(s, run, i, p);
      InvalidationsGrow(s, run, q, n);
      FailuresFitASpan(s, run, p, q, from, to);
    }
  }

  /**
   * So over any stretch whose failures span `T`, unsuccessful calls number at most `T / cooldown` plus one, plus
   * one for each invalidation and one for each of them whose handling met a clock without a time zone.
   */
  lemma UnsuccessfulCallsAreBounded(s: State, run: seq<Event>, i: nat, n: nat, from: int, to: int)
    requires i <= n <= |run| && ClockNeverRunsBack(run) && s.cooldown > 0
    requires FailuresBetween(s, run, i, n, from, to)
    ensures Unsuccessful(s, run, n) - Unsuccessful(s, run, i)
              <= (to - from) / s.cooldown + 1 + (Invalidations(s, run, n) - Invalidations(s, run, i))
                 + (Unarmed(s, run, n) - Unarmed(s, run, i))
  {
    FailuresWithinASpan(s, run, i, n, from, to);
    UnsuccessfulAreFailuresOrUnarmed(s, run, i);
    UnsuccessfulAreFailuresOrUnarmed(s, run, n);
  }

  // ----- where the plain bound fails

  /** A call that fails at an instant, after which the clock gives a reading without a time zone. */
  function Unaware(t: int): Event { Ensuring(At(t), Raises, At(t), Naive) }

  /** Any number of such calls can be made at one instant: the cooldown never starts. */
  lemma {:induction false} UnarmedCallsAreUnbounded(margin: int, cooldown: int, t: int, run: seq<Event>, n: nat)
    requires n <= |run| && forall i :: 0 <= i < |run| ==> run[i] == Unaware(t)
    ensures ClockNeverRunsBack(run)
    ensures After(Initial(margin, cooldown), run, n) == Initial(margin, cooldown)
    ensures Unsuccessful(Initial(margin, cooldown), run, n) == n && Failures(Initial(margin, cooldown), run, n) == 0
  {
    if n > 0 {
      UnarmedCallsAreUnbounded(margin, cooldown, t, run, n - 1);
    }
  }

  /** A lease that needs renewing at once, a failure to renew it, its invalidation, and another failure. */
  function RevokedBetweenFailures(margin: int, t: int): seq<Event> {
    var certificate := Certificate(t, t + margin + 1, true, false, true);
    [Ensuring(At(t), Loaded(certificate, true), At(t), At(t)),
     Ensuring(At(t + 1), Raises, At(t + 1), At(t + 1)),
     Invalidating(Some(0)),
     Ensuring(At(t + 1), Raises, At(t + 1), At(t + 1))]
  }

  /** Two failures at one instant: an invalidation between them ends the cooldown of the first. */
  lemma InvalidationEndsTheCooldown(margin: int, cooldown: int, t: int)
    requires Configured(margin, cooldown)
    ensures var s, run := Initial(margin, cooldown), RevokedBetweenFailures(margin, t);
            && ClockNeverRunsBack(run)
            && InvalidatesAt(s, run, 2)
            && FailureAt(s, run, 1) == FailureAt(s, run, 3) == Some(t + 1)
            && Failures(s, run, 4) - Failures(s, run, 1) == 2
  {
    var s, run := Initial(margin, cooldown), RevokedBetweenFailures(margin, t);
    var lease := Lease(0, t + margin + 1);
    var one := State(margin, cooldown, Some(lease), None, false, false, 1, {0});
    assert s.disk + {0} == {0};
    assert After(s, run, 0) == s;
    assert After(s, run, 1) == one;
    assert After(s, run, 2) == one.(retryAt := Some(t + 1 + cooldown), refreshFailed := true);
    assert After(s, run, 3) == one.(current := None, refreshFailed := true);
    assert Failures(s, run, 2) == Failures(s, run, 1) + 1;
    assert Failures(s, run, 3) == Failures(s, run, 2);
    assert Failures(s, run, 4) == Failures(s, run, 3) + 1;
  }

  lemma {:induction false} NothingInUse(s: State, run: seq<Event>, i: nat, n: nat)
    requires i < n <= |run| && InvalidatesAt(s, run, i)
    requires forall k: nat :: i < k < n ==> run[k].Invalidating?
    ensures var after := After(s, run, n); !after.closed && after.current.None? && after.retryAt.None?
  {
    if n > i + 1 {
      NothingInUse(s, run, i, n - 1);
    }
  }

  /** After a successful invalidation the very next `ensure` with an aware reading asks the provider at once. */
  lemma InvalidationCallsAtOnce(s: State, run: seq<Event>, i: nat, j: nat)
    requires i < j < |run| && InvalidatesAt(s, run, i)
    requires forall k: nat :: i < k < j ==> run[k].Invalidating?
    requires run[j].Ensuring? && run[j].first.At?
    ensures CallAt(s, run, j) == Some(run[j].first.t)
  {
    NothingInUse(s, run, i, j);
  }
}
