/**
 * Readers and writers of one session store under every interleaving. A read captures the stored session,
 * then sends its requests one after the other; a late rejection may arrive after a replacement.
 */
module CloudReads {
  import opened Wrappers
  import Sessions

  /** Sessions are objects: each has its own identity, and its expiry never changes. */
  type SessionId = nat

  type Expiries = SessionId -> Option<int>

  const MOST_REQUESTS := 101

  // ----- one response

  datatype Code = Value(n: int) | NoCode

  datatype Envelope = Envelope(codes: seq<Code>, hasData: bool)

  datatype Response = NoResponse | Response(status: int, tooLarge: bool, envelope: Option<Envelope>)

  datatype Verdict = Accepted | Unauthorized(invalidates: bool) | Failed

  /** What a response means to the client. */
  function Interpret(response: Response): Verdict {
    if response.NoResponse? then Failed
    else if response.status == 401 then Unauthorized(true)
    else if response.status == 403 then Unauthorized(false)
    else if !(200 <= response.status < 300) || response.tooLarge || response.envelope.None? then Failed
    else
      var codes := response.envelope.value.codes;
      if codes == [] || exists c <- codes :: c != Value(0) then Failed
      else if response.envelope.value.hasData then Accepted
      else Failed
  }

  /** Whether a response is the answer to a request that carried a session no longer good. */
  predicate IsRejection(response: Response) {
    response.Response? && response.status == 401
  }

  /** A status in the two hundreds, a body within bounds, data, and one result code or more, all of them zero. */
  predicate IsAnswer(response: Response) {
    && response.Response? && 200 <= response.status <= 299 && !response.tooLarge
    && response.envelope.Some? && response.envelope.value.hasData
    && |response.envelope.value.codes| >= 1
    && forall i :: 0 <= i < |response.envelope.value.codes| ==> response.envelope.value.codes[i] == Value(0)
  }

  /**
   * Status 401 asks to drop the session, 403 only to authenticate, an answer is accepted, and everything else
   * fails.
   */
  lemma WhatResponsesMean(response: Response)
    ensures Interpret(response) == Unauthorized(true) <==> IsRejection(response)
    ensures Interpret(response) == Unauthorized(false) <==> response.Response? && response.status == 403
    ensures Interpret(response) == Accepted <==> IsAnswer(response)
  {
    if response.Response? && response.envelope.Some? {
      var codes := response.envelope.value.codes;
      forall i | 0 <= i < |codes| ensures codes[i] in codes {}
    }
  }

  // ----- the system

  datatype Phase = Ready | Waiting | Finished | Stopped

  /** A read under way: the session it captured, the requests sent, and how many it makes at most. */
  datatype Reader = Reader(session: SessionId, sent: nat, plan: nat, phase: Phase)

  /** A request put on the wire. */
  datatype Entry = Entry(reader: nat, session: SessionId, at: int, number: nat)

  /** Reads that found no usable session appear in `refused`, the others in `readers`. */
  datatype State = State(store: Option<SessionId>, readers: map<nat, Reader>, refused: set<nat>, log: seq<Entry>)

  /** A request is sendable if its origin, path, nonce and parameters pass their checks. */
  datatype Step =
    | Replace(session: SessionId)
    | Begin(reader: nat, now: int, plan: nat)
    | Send(reader: nat, now: int, sendable: bool)
    | Receive(reader: nat, response: Response, more: bool)

  const EMPTY := State(None, map[], {}, [])

  predicate Unexpired(expiries: Expiries, session: SessionId, now: int) {
    expiries(session).None? || now < expiries(session).value
  }

  predicate Waits(s: State, reader: nat) {
    reader in s.readers && s.readers[reader].phase == Waiting
  }

  /** One atomic step. A step that is not enabled changes nothing. */
  function Apply(expiries: Expiries, s: State, step: Step): State {
    match step
    case Replace(session) => s.(store := Some(session))
    case Begin(reader, now, plan) =>
      if reader in s.readers || reader in s.refused || !(1 <= plan <= MOST_REQUESTS) then s
      else if s.store.None? || !Unexpired(expiries, s.store.value, now) then s.(refused := s.refused + {reader})
      else s.(readers := s.readers[reader := Reader(s.store.value, 0, plan, Ready)])
    case Send(reader, now, sendable) =>
      if !(reader in s.readers && s.readers[reader].phase == Ready) then s
      else
        var r := s.readers[reader];
        if !Unexpired(expiries, r.session, now) || !sendable then s.(readers := s.readers[reader := r.(phase := Stopped)])
        else
          s.(readers := s.readers[reader := r.(sent := r.sent + 1, phase := Waiting)],
             log := s.log + [Entry(reader, r.session, now, r.sent)])
    case Receive(reader, response, more) =>
      if !Waits(s, reader) then s
      else
        var r := s.readers[reader];
        match Interpret(response)
        case Accepted =>
          s.(readers := s.readers[reader := r.(phase := if more && r.sent < r.plan then Ready else Finished)])
        case Unauthorized(invalidates) =>
          s.(readers := s.readers[reader := r.(phase := Stopped)],
             store := if invalidates then Sessions.Kept(s.store, r.session) else s.store)
        case Failed => s.(readers := s.readers[reader := r.(phase := Stopped)])
  }

  function After(expiries: Expiries, run: seq<Step>, n: nat): State
    requires n <= |run|
  {
    if n == 0 then EMPTY else Apply(expiries, After(expiries, run, n - 1), run[n - 1])
  }

  /** Step `i` delivers a 401 to a request that carried `session`. */
  predicate RejectsAt(expiries: Expiries, run: seq<Step>, i: nat, session: SessionId)
    requires i < |run|
  {
    && run[i].Receive?
    && IsRejection(run[i].response)
    && Waits(After(expiries, run, i), run[i].reader)
    && After(expiries, run, i).readers[run[i].reader].session == session
  }

  // ----- what the store holds

  /** `session` was installed at step `i`, by the last installation so far, and not rejected since. */
  ghost predicate InstalledSince(expiries: Expiries, run: seq<Step>, n: nat, i: nat, session: SessionId)
    requires n <= |run|
  {
    && i < n && run[i] == Replace(session)
    && (forall k: nat :: i < k < n ==> !run[k].Replace? && !RejectsAt(expiries, run, k, session))
  }

  /**
   * Over every run: the store holds a session exactly if the last installation put it there and no 401
   * has come back since to a request that carried it.
   */
  lemma {:induction false} StoreHoldsTheLastInstalled(expiries: Expiries, run: seq<Step>, n: nat, session: SessionId)
    requires n <= |run|
    ensures After(expiries, run, n).store == Some(session) <==>
              exists i: nat :: InstalledSince(expiries, run, n, i, session)
  {
    if n > 0 {
      StoreHoldsTheLastInstalled(expiries, run, n - 1, session);
      var before, step := After(expiries, run, n - 1), run[n - 1];
      if step.Receive? {
        WhatResponsesMean(step.response);
      }
      if step.Replace? {
        if step.session == session {
          assert InstalledSince(expiries, run, n, n - 1, session);
        } else {
          forall i: nat ensures !InstalledSince(expiries, run, n, i, session) {}
        }
      } else if RejectsAt(expiries, run, n - 1, session) {
        forall i: nat ensures !InstalledSince(expiries, run, n, i, session) {}
      } else {
        assert After(expiries, run, n).store == Some(session) <==> before.store == Some(session);
        var m := n - 1;
        if i: nat :| InstalledSince(expiries, run, m, i, session) {
          assert InstalledSince(expiries, run, n, i, session);
        }
        if i: nat :| InstalledSince(expiries, run, n, i, session) {
          assert InstalledSince(expiries, run, m, i, session);
        }
      }
    }
  }

  /** A session leaves the store only by a replacement, or by a 401 to a request carrying that very session. */
  lemma LostOnlyToItsOwnRejection(expiries: Expiries, run: seq<Step>, i: nat)
    requires i < |run|
    ensures var before, after := After(expiries, run, i).store, After(expiries, run, i + 1).store;
            before.Some? && after != before ==>
              (run[i].Replace? && after == Some(run[i].session)) ||
              (RejectsAt(expiries, run, i, before.value) && after == None)
  {
    if run[i].Receive? {
      WhatResponsesMean(run[i].response);
    }
  }

  /** A 401 to a request that carried another session leaves the store alone, and so does every 403. */
  lemma ReplacementsSurvive(expiries: Expiries, run: seq<Step>, i: nat)
    requires i < |run| && run[i].Receive?
    requires var before := After(expiries, run, i).store;
             || before.None?
             || !RejectsAt(expiries, run, i, before.value)
             || run[i].response.NoResponse? || run[i].response.status == 403
    ensures After(expiries, run, i + 1).store == After(expiries, run, i).store
  {
    WhatResponsesMean(run[i].response);
  }

  // ----- what a read sends

  /** The requests of one reader, in the order sent. */
  function Requests(log: seq<Entry>, reader: nat): seq<Entry> {
    if log == [] then []
    else
      var front := Requests(log[..|log| - 1], reader);
      if log[|log| - 1].reader == reader then front + [log[|log| - 1]] else front
  }

  /** A reader's requests so far: numbered from zero, all with its session, each while that was unexpired. */
  ghost predicate SentInOrder(expiries: Expiries, requests: seq<Entry>, r: Reader) {
    && |requests| == r.sent <= r.plan <= MOST_REQUESTS
    && (r.phase == Ready ==> r.sent < r.plan)
    && forall k :: 0 <= k < |requests| ==>
         && requests[k].number == k
         && requests[k].session == r.session
         && Unexpired(expiries, r.session, requests[k].at)
  }

  lemma RequestsExtend(log: seq<Entry>, entry: Entry, reader: nat)
    ensures Requests(log + [entry], reader)
         == if entry.reader == reader then Requests(log, reader) + [entry] else Requests(log, reader)
  {
    assert (log + [entry])[..|log|] == log;
  }

  /** What holds of every reader's requests in every state reached. */
  ghost predicate InOrder(expiries: Expiries, s: State, reader: nat) {
    if reader in s.readers then SentInOrder(expiries, Requests(s.log, reader), s.readers[reader])
    else Requests(s.log, reader) == []
  }

  lemma SendKeepsOrder(expiries: Expiries, s: State, step: Step, reader: nat)
    requires step.Send? && InOrder(expiries, s, reader)
    ensures InOrder(expiries, Apply(expiries, s, step), reader)
  {
    if step.reader in s.readers {
      var r := s.readers[step.reader];
      RequestsExtend(s.log, Entry(step.reader, r.session, step.now, r.sent), reader);
    }
  }

  lemma OthersKeepOrder(expiries: Expiries, s: State, step: Step, reader: nat)
    requires !step.Send? && InOrder(expiries, s, reader)
    ensures InOrder(expiries, Apply(expiries, s, step), reader)
  {
  }

  /**
   * Over every run, each read sends at most 101 requests, all with the one session it captured, numbered
   * in order, and each only while that session was unexpired at the clock reading for that request.
   */
  lemma {:induction false} ReadsKeepOneSession(expiries: Expiries, run: seq<Step>, n: nat, reader: nat)
    requires n <= |run|
    ensures InOrder(expiries, After(expiries, run, n), reader)
  {
    if n > 0 {
      ReadsKeepOneSession(expiries, run, n - 1, reader);
      if run[n - 1].Send? {
        SendKeepsOrder(expiries, After(expiries, run, n - 1), run[n - 1], reader);
      } else {
        OthersKeepOrder(expiries, After(expiries, run, n - 1), run[n - 1], reader);
      }
    }
  }

  /** The session a read uses is the one the store held when the read began, unexpired at that reading. */
  lemma {:induction false} CapturedAtItsStart(expiries: Expiries, run: seq<Step>, n: nat, reader: nat) returns (i: nat)
    requires n <= |run| && reader in After(expiries, run, n).readers
    ensures i < n && run[i].Begin? && run[i].reader == reader
    ensures After(expiries, run, i).store == Some(After(expiries, run, n).readers[reader].session)
    ensures Unexpired(expiries, After(expiries, run, n).readers[reader].session, run[i].now)
  {
    var before := After(expiries, run, n - 1);
    if reader in before.readers {
      i := CapturedAtItsStart(expiries, run, n - 1, reader);
    } else {
      i := n - 1;
    }
  }

  predicate Over(phase: Phase) {
    phase == Finished || phase == Stopped
  }

  lemma EndedStaysEnded(expiries: Expiries, s: State, step: Step, reader: nat)
    requires reader in s.readers && Over(s.readers[reader].phase)
    ensures reader in Apply(expiries, s, step).readers
    ensures Apply(expiries, s, step).readers[reader] == s.readers[reader]
  {
  }

  lemma EndedSendsNothing(expiries: Expiries, s: State, step: Step, reader: nat)
    requires reader in s.readers && Over(s.readers[reader].phase)
    ensures Requests(Apply(expiries, s, step).log, reader) == Requests(s.log, reader)
  {
    if step.Send? && step.reader in s.readers {
      var r := s.readers[step.reader];
      RequestsExtend(s.log, Entry(step.reader, r.session, step.now, r.sent), reader);
    }
  }

  /** After its first error, or its last page, a read sends nothing more. */
  lemma {:induction false} NothingAfterTheEnd(expiries: Expiries, run: seq<Step>, i: nat, n: nat, reader: nat)
    requires i <= n <= |run|
    requires reader in After(expiries, run, i).readers && Over(After(expiries, run, i).readers[reader].phase)
    ensures reader in After(expiries, run, n).readers
    ensures After(expiries, run, n).readers[reader] == After(expiries, run, i).readers[reader]
    ensures Requests(After(expiries, run, n).log, reader) == Requests(After(expiries, run, i).log, reader)
  {
    if i < n {
      NothingAfterTheEnd(expiries, run, i, n - 1, reader);
      EndedStaysEnded(expiries, After(expiries, run, n - 1), run[n - 1], reader);
      EndedSendsNothing(expiries, After(expiries, run, n - 1), run[n - 1], reader);
    }
  }

  /** From the first response that is not accepted on, through the rest of every run, a read sends nothing. */
  lemma ErrorsEndTheRead(expiries: Expiries, run: seq<Step>, i: nat, n: nat)
    requires i < n <= |run| && run[i].Receive? && Waits(After(expiries, run, i), run[i].reader)
    requires !IsAnswer(run[i].response)
    ensures var reader := run[i].reader;
            && reader in After(expiries, run, n).readers && After(expiries, run, n).readers[reader].phase == Stopped
            && Requests(After(expiries, run, n).log, reader) == Requests(After(expiries, run, i).log, reader)
  {
    WhatResponsesMean(run[i].response);
    NothingAfterTheEnd(expiries, run, i + 1, n, run[i].reader);
  }

  // ----- reads go on when they can

  /**
   * A read begins exactly if it plans for 1 to 101 requests and the store holds a session unexpired by its
   * reading.
   */
  lemma BeginsIfAvailable(expiries: Expiries, s: State, reader: nat, now: int, plan: nat)
    requires reader !in s.readers && reader !in s.refused
    ensures var after := Apply(expiries, s, Begin(reader, now, plan));
            && (reader in after.readers <==>
                  1 <= plan <= 101 && s.store.Some? && (expiries(s.store.value).None? || now < expiries(s.store.value).value))
            && (reader in after.readers ==> after.readers[reader] == Reader(s.store.value, 0, plan, Ready))
            && after.store == s.store && after.log == s.log
  {
  }

  /**
   * A read that is ready sends its next request, with its session, exactly if that is unexpired and nothing
   * stands against it.
   */
  lemma SendsIfReady(expiries: Expiries, s: State, reader: nat, now: int, sendable: bool)
    requires reader in s.readers && s.readers[reader].phase == Ready
    ensures var r, after := s.readers[reader], Apply(expiries, s, Send(reader, now, sendable));
            && reader in after.readers && after.store == s.store
            && (if sendable && (expiries(r.session).None? || now < expiries(r.session).value) then
                  && after.log == s.log + [Entry(reader, r.session, now, r.sent)]
                  && after.readers[reader].phase == Waiting && after.readers[reader].sent == r.sent + 1
                else after.log == s.log && after.readers[reader].phase == Stopped)
  {
  }

  /** An answer lets a read go on exactly if more is wanted and planned for; it never changes the store. */
  lemma AnswersLetReadsGoOn(expiries: Expiries, s: State, reader: nat, response: Response, more: bool)
    requires Waits(s, reader) && IsAnswer(response)
    ensures var r, after := s.readers[reader], Apply(expiries, s, Receive(reader, response, more));
            && reader in after.readers && after.store == s.store && after.log == s.log
            && after.readers[reader].session == r.session && after.readers[reader].sent == r.sent
            && after.readers[reader].phase == if more && r.sent < r.plan then Ready else Finished
  {
    WhatResponsesMean(response);
  }
}
