/** A history listing as a read of the session store: what the pagination asks for is what the read sends. */
module HistoryReads {
  import CloudReads
  import History

  /** The route is asked for first, then up to as many pages as the listing allows. */
  function PlanOf(maxPages: nat): nat { maxPages + 1 }

  /**
   * The answer to request number `sent` is the route, which resolves if it is accepted, or page `sent - 1` and
   * the listing's verdict on it.
   */
  ghost predicate Answers<Row>(sent: nat, response: CloudReads.Response, more: bool,
                               view: History.View<Row>, fingerprint: History.Fingerprint<Row>)
  {
    if sent <= 1 then CloudReads.IsAnswer(response) ==> more
    else
      && (CloudReads.IsAnswer(response) <==> !view(sent - 1).Silent?)
      && (more <==> !History.Stops(view, fingerprint)(sent - 1))
  }

  ghost predicate ListingStep<Row>(expiries: CloudReads.Expiries, run: seq<CloudReads.Step>, i: nat, reader: nat,
                                   view: History.View<Row>, fingerprint: History.Fingerprint<Row>, maxPages: nat)
    requires i < |run|
  {
    var before := CloudReads.After(expiries, run, i);
    match run[i]
    case Begin(r, _, plan) => r == reader ==> plan == PlanOf(maxPages)
    case Receive(r, response, more) =>
      r == reader && CloudReads.Waits(before, reader) ==>
        Answers(before.readers[reader].sent, response, more, view, fingerprint)
    case _ => true
  }

  /**
   * The steps of `reader` are those of a listing: it plans for its page limit, the first response is the route,
   * the response after that is page 1, and so on. A page is answered exactly if the server answers it,
   * and another one is wanted exactly if the listing does not stop there.
   */
  ghost predicate Lists<Row>(expiries: CloudReads.Expiries, run: seq<CloudReads.Step>, reader: nat,
                             view: History.View<Row>, fingerprint: History.Fingerprint<Row>, maxPages: nat)
  {
    forall i :: 0 <= i < |run| ==> ListingStep(expiries, run, i, reader, view, fingerprint, maxPages)
  }

  /** How far a reader may be when the listing stops with page `last`. */
  predicate OnCourse(r: CloudReads.Reader, last: nat) {
    match r.phase
    case Ready => r.sent <= last
    case Waiting => 1 <= r.sent <= last + 1
    case Finished => r.sent == last + 1
    case Stopped => r.sent <= last + 1
  }

  /** Pages before the last asked for do not stop the listing; the last does, or is the limit. */
  lemma LastPage<Row>(view: History.View<Row>, fingerprint: History.Fingerprint<Row>, maxPages: nat, n: nat)
    requires 1 <= maxPages && 1 <= n <= History.Run(view, fingerprint, maxPages).1
    ensures History.Run(view, fingerprint, maxPages).1 <= maxPages
    ensures n == History.Run(view, fingerprint, maxPages).1
       <==> History.Stops(view, fingerprint)(n) || n == maxPages
  {
    var stops := History.Stops(view, fingerprint);
    var stop := History.FirstStop(stops, 1, maxPages);
    if n < stop {
      History.NotBeforeFirstStop(stops, 1, maxPages, n);
    }
  }

  lemma ReceiveStaysOnCourse<Row>(r: CloudReads.Reader, response: CloudReads.Response, more: bool,
                                  view: History.View<Row>, fingerprint: History.Fingerprint<Row>, maxPages: nat)
    requires 1 <= maxPages && r.phase == CloudReads.Waiting && r.plan == PlanOf(maxPages)
    requires Answers(r.sent, response, more, view, fingerprint)
    requires OnCourse(r, History.Run(view, fingerprint, maxPages).1)
    requires CloudReads.IsAnswer(response)
    ensures OnCourse(r.(phase := if more && r.sent < r.plan then CloudReads.Ready else CloudReads.Finished),
                     History.Run(view, fingerprint, maxPages).1)
  {
    LastPage(view, fingerprint, maxPages, 1);
    if r.sent >= 2 {
      LastPage(view, fingerprint, maxPages, r.sent - 1);
    }
  }

  lemma {:induction false} ListingsStayOnCourse<Row>(expiries: CloudReads.Expiries, run: seq<CloudReads.Step>, n: nat,
                                                     reader: nat, view: History.View<Row>,
                                                     fingerprint: History.Fingerprint<Row>, maxPages: nat)
    requires n <= |run| && 1 <= maxPages && Lists(expiries, run, reader, view, fingerprint, maxPages)
    ensures var s := CloudReads.After(expiries, run, n);
            reader in s.readers ==>
              && s.readers[reader].plan == PlanOf(maxPages)
              && OnCourse(s.readers[reader], History.Run(view, fingerprint, maxPages).1)
  {
    if n > 0 {
      ListingsStayOnCourse(expiries, run, n - 1, reader, view, fingerprint, maxPages);
      var before, step := CloudReads.After(expiries, run, n - 1), run[n - 1];
      assert ListingStep(expiries, run, n - 1, reader, view, fingerprint, maxPages);
      if step.Receive? && step.reader == reader && CloudReads.Waits(before, reader) {
        CloudReads.WhatResponsesMean(step.response);
        if CloudReads.IsAnswer(step.response) {
          ReceiveStaysOnCourse(before.readers[reader], step.response, step.more, view, fingerprint, maxPages);
        }
      }
    }
  }

  /**
   * Over every interleaving, a listing sends the route request and no more page requests than the pagination
   * asks for, and when it finishes exactly as many; all of them carry its one session.
   */
  lemma ListingsSendWhatTheyAskFor<Row>(expiries: CloudReads.Expiries, run: seq<CloudReads.Step>, n: nat, reader: nat,
                                        view: History.View<Row>, fingerprint: History.Fingerprint<Row>, maxPages: nat)
    requires n <= |run| && 1 <= maxPages && Lists(expiries, run, reader, view, fingerprint, maxPages)
    requires reader in CloudReads.After(expiries, run, n).readers
    ensures var s := CloudReads.After(expiries, run, n);
            var sent := CloudReads.Requests(s.log, reader);
            && |sent| <= 1 + History.Run(view, fingerprint, maxPages).1 <= 1 + maxPages
            && (s.readers[reader].phase == CloudReads.Finished ==>
                  |sent| == 1 + History.Run(view, fingerprint, maxPages).1)
            && forall k :: 0 <= k < |sent| ==> sent[k].number == k && sent[k].session == s.readers[reader].session
  {
    ListingsStayOnCourse(expiries, run, n, reader, view, fingerprint, maxPages);
    CloudReads.ReadsKeepOneSession(expiries, run, n, reader);
    LastPage(view, fingerprint, maxPages, 1);
  }

  /** A finished listing of an honest server has asked for the route and for every page its rows fill. */
  lemma HonestListingsAskForEveryPage<Row>(expiries: CloudReads.Expiries, run: seq<CloudReads.Step>, n: nat,
                                           reader: nat, view: History.View<Row>,
                                           fingerprint: History.Fingerprint<Row>, maxPages: nat,
                                           rows: seq<Row>, pages: nat)
    requires n <= |run| && 1 <= maxPages && Lists(expiries, run, reader, view, fingerprint, maxPages)
    requires History.Honest(view, fingerprint, rows, pages)
    requires var s := CloudReads.After(expiries, run, n);
             reader in s.readers && s.readers[reader].phase == CloudReads.Finished
    ensures |CloudReads.Requests(CloudReads.After(expiries, run, n).log, reader)|
         == 1 + History.Smaller(History.PagesNeeded(|rows|), maxPages)
  {
    ListingsSendWhatTheyAskFor(expiries, run, n, reader, view, fingerprint, maxPages);
    History.HonestServersAreListed(view, fingerprint, rows, pages, maxPages);
  }
}
