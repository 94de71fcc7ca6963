/** Bounded history pagination against an arbitrary server, and the calendar window it asks for. */
module History {
  import opened Wrappers
  import opened Scheduling

  const PAGE_SIZE := 20

  /** A metadata field of a page: an integer, or anything else. */
  datatype Field = Number(n: int) | NotAnInteger

  /** The page's `list`: its elements, `None` standing for one that is no object; or no list at all. */
  datatype Listing<+Row> = Items(items: seq<Option<Row>>) | NotAList

  datatype Page<+Row> = Page(pageNum: Field, pageSize: Field, totalPage: Field, total: Field, list: Listing<Row>)

  /** The answer to a page request; the request itself may fail. */
  datatype Reply<+Row> = Answer(page: Page<Row>) | NoAnswer

  type Server<Row> = nat -> Reply<Row>

  type Fingerprint<!Row> = Row -> string

  datatype Problem = InvalidPageMetadata | UnexpectedPageMetadata | InvalidRecordList

  datatype Reason = RepeatedPage | TotalsChanged | DuplicateRecords | Empty | InconsistentTotals
                  | RecordCountMismatch | EmptyPageBeforeTotal | Complete | PageLimit

  datatype Outcome<+Row> =
    | Listed(records: seq<Row>, complete: bool, reason: Reason)
    | Protocol(problem: Problem)
    | Unanswered

  type PageRows<+Row> = rows: seq<Row> | |rows| <= PAGE_SIZE witness []

  /** What a page request comes to: a usable page, one that fails its checks, or none. */
  datatype Checked<+Row> = Usable(rows: PageRows<Row>, total: nat, pages: nat) | Refused(problem: Problem) | Silent

  /** What every page request of a server comes to. */
  type View<Row> = nat -> Checked<Row>

  predicate Counted(field: Field) {
    field.Number? && field.n >= 0
  }

  predicate AllObjects<Row>(elements: seq<Option<Row>>) {
    forall i :: 0 <= i < |elements| ==> elements[i].Some?
  }

  function Objects<Row>(elements: seq<Option<Row>>): (rows: seq<Row>)
    requires AllObjects(elements)
    ensures |rows| == |elements|
  {
    seq(|elements|, i requires 0 <= i < |elements| => elements[i].value)
  }

  /** The checks one page must pass before it is looked at. */
  function Check<Row>(page: Page<Row>, number: nat): (checked: Checked<Row>)
  {
    if !(Counted(page.pageNum) && Counted(page.pageSize) && Counted(page.totalPage) && Counted(page.total)) then
      Refused(InvalidPageMetadata)
    else if page.pageNum.n != number || page.pageSize.n != PAGE_SIZE then Refused(UnexpectedPageMetadata)
    else if page.list.NotAList? || |page.list.items| > PAGE_SIZE
            || !AllObjects(page.list.items)
    then Refused(InvalidRecordList)
    else Usable(Objects(page.list.items), page.total.n, page.totalPage.n)
  }

  /** A field that is a whole number, zero or more. */
  predicate IsCount(field: Field) {
    match field
    case Number(n) => 0 <= n
    case NotAnInteger => false
  }

  /** All four metadata fields are counts. */
  predicate HasCounts<Row>(page: Page<Row>) {
    IsCount(page.pageNum) && IsCount(page.pageSize) && IsCount(page.totalPage) && IsCount(page.total)
  }

  /** The page is the one asked for, of the size asked for. */
  predicate IsPage<Row>(page: Page<Row>, number: nat) {
    page.pageNum == Number(number) && page.pageSize == Number(20)
  }

  /** The page lists twenty objects at most, and nothing else. */
  predicate ListsObjects<Row>(page: Page<Row>) {
    && page.list.Items? && |page.list.items| <= 20
    && forall i :: 0 <= i < |page.list.items| ==> page.list.items[i] != None
  }

  /** Which pages are usable, for what; and which are refused, why. */
  lemma WhichPagesAreUsable<Row>(page: Page<Row>, number: nat)
    ensures var checked := Check(page, number);
            && (checked.Usable? <==> HasCounts(page) && IsPage(page, number) && ListsObjects(page))
            && (checked.Usable? ==>
                  && |checked.rows| == |page.list.items|
                  && (forall i :: 0 <= i < |checked.rows| ==> page.list.items[i] == Some(checked.rows[i]))
                  && page.total == Number(checked.total) && page.totalPage == Number(checked.pages))
            && (checked == Refused(InvalidPageMetadata) <==> !HasCounts(page))
            && (checked == Refused(UnexpectedPageMetadata) <==> HasCounts(page) && !IsPage(page, number))
            && (checked == Refused(InvalidRecordList) <==>
                  HasCounts(page) && IsPage(page, number) && !ListsObjects(page))
  {
  }

  /** A server's pages after their checks. */
  function ViewOf<Row>(server: Server<Row>): View<Row> {
    (n: nat) => match server(n) case NoAnswer => Silent case Answer(page) => Check(page, n)
  }

  /** What the loop sees of page `n`: nothing without an answer, and the answer's page checked for that number. */
  lemma WhatIsSeen<Row>(server: Server<Row>, n: nat)
    ensures ViewOf(server)(n) == Silent <==> server(n) == NoAnswer
    ensures server(n).Answer? ==> ViewOf(server)(n) == Check(server(n).page, n)
  {
  }

  function Pages(total: nat): nat { (total + PAGE_SIZE - 1) / PAGE_SIZE }

  /** As many pages as hold the rows, and no more, twenty to a page. */
  lemma PagesAreFilled(total: nat)
    ensures total <= 20 * Pages(total) < total + 20
  {
  }

  // ----- what a server's pages amount to, independently of the loop

  /** Page `n`, if it is answered and passes the checks. */
  ghost predicate Valid<Row>(view: View<Row>, n: nat) {
    view(n).Usable?
  }

  ghost function RowsOf<Row>(view: View<Row>, n: nat): (rows: seq<Row>)
    ensures |rows| <= PAGE_SIZE
  {
    if Valid(view, n) then view(n).rows else []
  }

  /** The total and the page count that page `n` declares. */
  ghost function Declared<Row>(view: View<Row>, n: nat): (nat, nat)
    requires Valid(view, n)
  {
    (view(n).total, view(n).pages)
  }

  /** The rows of pages 1 to `n`, in order. */
  ghost function Gathered<Row>(view: View<Row>, n: nat): seq<Row> {
    if n == 0 then [] else Gathered(view, n - 1) + RowsOf(view, n)
  }

  ghost function PagePrints<Row>(view: View<Row>, fingerprint: Fingerprint<Row>, n: nat): seq<string> {
    Mapped(RowsOf(view, n), fingerprint)
  }

  /** Pages 1 to `last` agree, hold as many distinct rows as declared, and are as many as that takes. */
  ghost predicate Coherent<Row>(view: View<Row>, fingerprint: Fingerprint<Row>, last: nat) {
    && last >= 1
    && (forall n :: 1 <= n <= last ==> Valid(view, n))
    && (forall n :: 1 <= n <= last ==> Declared(view, n) == Declared(view, 1))
    && Distinct(Mapped(Gathered(view, last), fingerprint))
    && var (total, pages) := Declared(view, 1);
       && |Gathered(view, last)| == total
       && (if total == 0 then last == 1 && pages <= 1 else last == pages == Pages(total))
  }

  /** The fingerprints of pages 1 to `n`, in order. */
  ghost function AllPrints<Row>(view: View<Row>, fingerprint: Fingerprint<Row>, n: nat): seq<string> {
    if n == 0 then [] else AllPrints(view, fingerprint, n - 1) + PagePrints(view, fingerprint, n)
  }

  /** No fingerprint occurs twice on pages 1 to `n`. */
  ghost predicate Unrepeated<Row>(view: View<Row>, fingerprint: Fingerprint<Row>, n: nat) {
    |Elements(AllPrints(view, fingerprint, n))| == |AllPrints(view, fingerprint, n)|
  }

  lemma {:induction false} AllPrintsAre<Row>(view: View<Row>, fingerprint: Fingerprint<Row>, n: nat)
    ensures AllPrints(view, fingerprint, n) == Mapped(Gathered(view, n), fingerprint)
  {
    if n > 0 {
      AllPrintsAre(view, fingerprint, n - 1);
    }
  }

  ghost function PagesSeen<Row>(view: View<Row>, fingerprint: Fingerprint<Row>, n: nat): set<seq<string>> {
    if n == 0 then {} else PagesSeen(view, fingerprint, n - 1) + {PagePrints(view, fingerprint, n)}
  }

  // ----- the verdict on each page, and the run

  /** Whether page `n` has rows and is, fingerprint by fingerprint, a page met before. */
  ghost predicate Repeats<Row>(view: View<Row>, fingerprint: Fingerprint<Row>, n: nat)
    requires n >= 1
  {
    RowsOf(view, n) != [] && PagePrints(view, fingerprint, n) in PagesSeen(view, fingerprint, n - 1)
  }

  lemma {:induction false} PagesSeenMeans<Row>(view: View<Row>, fingerprint: Fingerprint<Row>, n: nat, p: seq<string>)
    ensures p in PagesSeen(view, fingerprint, n)
       <==> exists m :: 1 <= m < n + 1 && PagePrints(view, fingerprint, m) == p
  {
    if n > 0 {
      PagesSeenMeans(view, fingerprint, n - 1, p);
    }
  }

  /** A page repeats exactly if it has rows and an earlier page has the same fingerprints in the same order. */
  lemma RepeatsMeans<Row>(view: View<Row>, fingerprint: Fingerprint<Row>, n: nat)
    requires n >= 1
    ensures Repeats(view, fingerprint, n) <==>
              && RowsOf(view, n) != []
              && exists m :: 1 <= m < n && PagePrints(view, fingerprint, m) == PagePrints(view, fingerprint, n)
  {
    PagesSeenMeans(view, fingerprint, n - 1, PagePrints(view, fingerprint, n));
  }

  /** Whether page `n` declares other totals than the page before it. */
  ghost predicate Changes<Row>(view: View<Row>, n: nat) {
    n > 1 && Valid(view, n - 1) && Valid(view, n) && Declared(view, n - 1) != Declared(view, n)
  }

  /** The decision on a usable page, given what all pages so far hold. */
  function Judged<Row>(records: seq<Row>, empty: bool, total: nat, pages: nat, number: nat,
                       repeated: bool, changed: bool, duplicate: bool): Option<Outcome<Row>>
  {
    if repeated then Some(Listed(records, false, RepeatedPage))
    else if changed then Some(Listed(records, false, TotalsChanged))
    else if duplicate then Some(Listed(records, false, DuplicateRecords))
    else if total == 0 then
      if |records| == 0 && pages <= 1 then Some(Listed(records, true, Empty))
      else Some(Listed(records, false, InconsistentTotals))
    else if pages != Pages(total) then Some(Listed(records, false, InconsistentTotals))
    else if |records| > total then Some(Listed(records, false, RecordCountMismatch))
    else if empty && |records| < total then Some(Listed(records, false, EmptyPageBeforeTotal))
    else if number >= pages then
      Some(if |records| == total then Listed(records, true, Complete)
           else Listed(records, false, RecordCountMismatch))
    else None
  }

  /** What the loop decides on page `n`, if it stops there. */
  ghost function Verdict<Row>(view: View<Row>, fingerprint: Fingerprint<Row>, n: nat): Option<Outcome<Row>>
    requires n >= 1
  {
    match view(n)
    case Silent => Some(Unanswered)
    case Refused(problem) => Some(Protocol(problem))
    case Usable(rows, total, pages) =>
      Judged(Gathered(view, n), rows == [], total, pages, n, Repeats(view, fingerprint, n),
             Changes(view, n), !Unrepeated(view, fingerprint, n))
  }

  /** Whether the loop stops on page `n`. */
  ghost function Stops<Row>(view: View<Row>, fingerprint: Fingerprint<Row>): nat -> bool {
    (n: nat) => n >= 1 && Verdict(view, fingerprint, n).Some?
  }

  /** The first page from `n` on at which a loop stops, or the one past the limit. */
  ghost function FirstStop(stops: nat -> bool, n: nat, maxPages: nat): (stop: nat)
    requires n <= maxPages + 1
    ensures n <= stop <= maxPages + 1
    ensures stop <= maxPages ==> stops(stop)
    decreases maxPages + 1 - n
  {
    if n > maxPages || stops(n) then n else FirstStop(stops, n + 1, maxPages)
  }

  lemma {:induction false} NotBeforeFirstStop(stops: nat -> bool, n: nat, maxPages: nat, m: nat)
    requires n <= m <= maxPages && m < FirstStop(stops, n, maxPages)
    ensures !stops(m)
    decreases maxPages + 1 - n
  {
    if n < m {
      NotBeforeFirstStop(stops, n + 1, maxPages, m);
    }
  }

  /** The stop is the first page that stops: nothing else satisfies what it does. */
  lemma FirstStopIs(stops: nat -> bool, maxPages: nat, m: nat)
    requires 1 <= m <= maxPages + 1
    requires forall k: nat :: 1 <= k < m ==> !stops(k)
    requires m <= maxPages ==> stops(m)
    ensures FirstStop(stops, 1, maxPages) == m
  {
    var stop := FirstStop(stops, 1, maxPages);
    if m < stop {
      NotBeforeFirstStop(stops, 1, maxPages, m);
    }
  }

  /** The outcome of a listing, and how many pages were asked for. */
  ghost function Run<Row>(view: View<Row>, fingerprint: Fingerprint<Row>, maxPages: nat): (Outcome<Row>, nat)
    requires 1 <= maxPages
  {
    var stop := FirstStop(Stops(view, fingerprint), 1, maxPages);
    if stop <= maxPages then (Verdict(view, fingerprint, stop).value, stop)
    else (Listed(Gathered(view, maxPages), false, PageLimit), maxPages)
  }

  /** The loop's accumulator, its two seen-sets and its baseline. */
  datatype Progress<!Row> = Progress(records: seq<Row>, seenRecords: set<string>, seenPages: set<seq<string>>,
                                     baseline: Option<(nat, nat)>)

  /** What they hold once pages 1 to `n` have passed. */
  ghost predicate Holds<Row>(view: View<Row>, fingerprint: Fingerprint<Row>, n: nat, p: Progress<Row>) {
    && p.records == Gathered(view, n)
    && Unrepeated(view, fingerprint, n)
    && p.seenRecords == Elements(AllPrints(view, fingerprint, n))
    && p.seenPages == PagesSeen(view, fingerprint, n)
    && (if n == 0 then p.baseline == None else Valid(view, n) && p.baseline == Some(Declared(view, n)))
  }

  lemma UnrepeatedAppend<T>(front: seq<T>, back: seq<T>)
    requires |Elements(front)| == |front|
    ensures Elements(front + back) == Elements(front) + Elements(back)
    ensures |Elements(back)| != |back| || Elements(front) * Elements(back) != {}
       <==> |Elements(front + back)| != |front + back|
  {
    DistinctBySize(back);
    var f, b := Elements(front), Elements(back);
    assert Elements(front + back) == f + b;
    assert |f + b| + |f * b| == |f| + |b|;
  }

  /** One turn of the loop. */
  method TakePage<Row>(view: View<Row>, fingerprint: Fingerprint<Row>, number: nat, before: Progress<Row>)
    returns (after: Progress<Row>, stop: Option<Outcome<Row>>)
    requires number >= 1 && Holds(view, fingerprint, number - 1, before)
    ensures stop == Verdict(view, fingerprint, number)
    ensures stop.None? ==> Holds(view, fingerprint, number, after)
  {
    after := before;
    var checked := view(number);
    if checked.Silent? {
      return after, Some(Unanswered);
    }
    if checked.Refused? {
      return after, Some(Protocol(checked.problem));
    }
    var rows, total, pages := checked.rows, checked.total, checked.pages;
    var prints := Mapped(rows, fingerprint);
    var repeated := rows != [] && prints in before.seenPages;
    var duplicate := |Elements(prints)| != |prints| || before.seenRecords * Elements(prints) != {};
    var changed := before.baseline.Some? && before.baseline.value != (total, pages);
    UnrepeatedAppend(AllPrints(view, fingerprint, number - 1), PagePrints(view, fingerprint, number));
    after := Progress(before.records + rows, before.seenRecords + Elements(prints), before.seenPages + {prints},
                      Some((total, pages)));
    stop := Judged(after.records, rows == [], total, pages, number, repeated, changed, duplicate);
  }

  /** The pagination loop. */
  method ListPages<Row>(view: View<Row>, fingerprint: Fingerprint<Row>, maxPages: nat)
    returns (outcome: Outcome<Row>, requests: nat)
    requires 1 <= maxPages
    ensures (outcome, requests) == Run(view, fingerprint, maxPages)
  {
    ghost var stops := Stops(view, fingerprint);
    var progress: Progress<Row> := Progress([], {}, {}, None);
    for number := 1 to maxPages + 1
      invariant Holds(view, fingerprint, number - 1, progress)
      invariant forall m: nat :: 1 <= m < number ==> !stops(m)
    {
      var stop;
      progress, stop := TakePage(view, fingerprint, number, progress);
      if stop.Some? {
        FirstStopIs(stops, maxPages, number);
        return stop.value, number;
      }
    }
    FirstStopIs(stops, maxPages, maxPages + 1);
    return Listed(progress.records, false, PageLimit), maxPages;
  }

  /** A listing of up to `maxPages` pages of any server. */
  method ListHistory<Row>(server: Server<Row>, fingerprint: Fingerprint<Row>, maxPages: int)
    returns (listing: Option<(Outcome<Row>, nat)>)
    ensures listing == if 1 <= maxPages <= 100 then Some(Run(ViewOf(server), fingerprint, maxPages)) else None
  {
    if !(1 <= maxPages <= 100) {
      return None;
    }
    var outcome, requests := ListPages(ViewOf(server), fingerprint, maxPages);
    listing := Some((outcome, requests));
  }

  // ----- soundness: complete exactly when the server was coherent

  lemma {:induction false} GatheredBound<Row>(view: View<Row>, n: nat, m: nat)
    requires n <= m
    ensures |Gathered(view, n)| <= |Gathered(view, m)| <= |Gathered(view, n)| + PAGE_SIZE * (m - n)
  {
    if n < m {
      GatheredBound(view, n, m - 1);
    }
  }

  lemma {:induction false} UnrepeatedPrefix<Row>(view: View<Row>, fingerprint: Fingerprint<Row>, n: nat, m: nat)
    requires n <= m && Unrepeated(view, fingerprint, m)
    ensures Unrepeated(view, fingerprint, n)
  {
    if n < m {
      var front, back := AllPrints(view, fingerprint, m - 1), PagePrints(view, fingerprint, m);
      DistinctBySize(front + back);
      DistinctBySize(front);
      assert forall i :: 0 <= i < |front| ==> (front + back)[i] == front[i];
      UnrepeatedPrefix(view, fingerprint, n, m - 1);
    }
  }

  lemma {:induction false} SeenPageIsPart<Row>(view: View<Row>, fingerprint: Fingerprint<Row>, n: nat, page: seq<string>)
    requires page in PagesSeen(view, fingerprint, n)
    ensures forall p :: p in page ==> p in AllPrints(view, fingerprint, n)
  {
    if n > 0 && page != PagePrints(view, fingerprint, n) {
      SeenPageIsPart(view, fingerprint, n - 1, page);
    }
  }

  /** A repeated page repeats fingerprints, so unrepeated fingerprints exclude it. */
  lemma NoRepeatedPage<Row>(view: View<Row>, fingerprint: Fingerprint<Row>, n: nat)
    requires n >= 1 && Unrepeated(view, fingerprint, n)
    ensures !Repeats(view, fingerprint, n)
  {
    var front, page := AllPrints(view, fingerprint, n - 1), PagePrints(view, fingerprint, n);
    UnrepeatedPrefix(view, fingerprint, n - 1, n);
    UnrepeatedAppend(front, page);
    if page != [] {
      assert page[0] !in Elements(front) * Elements(page);
      if page in PagesSeen(view, fingerprint, n - 1) {
        SeenPageIsPart(view, fingerprint, n - 1, page);
      }
    }
  }

  lemma CoherentIsUnrepeated<Row>(view: View<Row>, fingerprint: Fingerprint<Row>, last: nat)
    ensures Distinct(Mapped(Gathered(view, last), fingerprint)) <==> Unrepeated(view, fingerprint, last)
  {
    AllPrintsAre(view, fingerprint, last);
    DistinctBySize(AllPrints(view, fingerprint, last));
  }

  /** Before its last page a coherent server never makes the loop stop. */
  lemma CoherentGoesOn<Row>(view: View<Row>, fingerprint: Fingerprint<Row>, last: nat, n: nat)
    requires Coherent(view, fingerprint, last) && 1 <= n < last
    ensures Verdict(view, fingerprint, n) == None
  {
    CoherentIsUnrepeated(view, fingerprint, last);
    UnrepeatedPrefix(view, fingerprint, n, last);
    NoRepeatedPage(view, fingerprint, n);
    GatheredBound(view, n, last);
    GatheredBound(view, 0, n - 1);
    assert Valid(view, n) && Declared(view, n) == Declared(view, 1);
    if n > 1 {
      assert Declared(view, n - 1) == Declared(view, 1);
    }
  }

  /** On its last page it makes the loop stop with everything. */
  lemma CoherentCompletes<Row>(view: View<Row>, fingerprint: Fingerprint<Row>, last: nat)
    requires Coherent(view, fingerprint, last)
    ensures var records := Gathered(view, last);
            Verdict(view, fingerprint, last) == Some(Listed(records, true, if records == [] then Empty else Complete))
  {
    CoherentIsUnrepeated(view, fingerprint, last);
    NoRepeatedPage(view, fingerprint, last);
    assert Valid(view, last) && Declared(view, last) == Declared(view, 1);
    if last > 1 {
      assert Declared(view, last - 1) == Declared(view, 1);
    }
  }

  lemma JudgedPasses<Row>(records: seq<Row>, empty: bool, total: nat, pages: nat, number: nat,
                          repeated: bool, changed: bool, duplicate: bool)
    requires Judged(records, empty, total, pages, number, repeated, changed, duplicate).None?
    ensures !repeated && !changed && !duplicate && total > 0 && number < pages == Pages(total)
  {
  }

  lemma JudgedComplete<Row>(records: seq<Row>, empty: bool, total: nat, pages: nat, number: nat,
                            repeated: bool, changed: bool, duplicate: bool)
    requires var judged := Judged(records, empty, total, pages, number, repeated, changed, duplicate);
             judged.Some? && judged.value.Listed? && judged.value.complete
    ensures !repeated && !changed && !duplicate && |records| == total
    ensures if total == 0 then pages <= 1 else number >= pages == Pages(total)
  {
  }

  /** Whether the loop goes on after page `n`. */
  ghost predicate Passes<Row>(view: View<Row>, fingerprint: Fingerprint<Row>, n: nat) {
    n >= 1 && Verdict(view, fingerprint, n).None?
  }

  lemma PassedPage<Row>(view: View<Row>, fingerprint: Fingerprint<Row>, n: nat)
    requires Passes(view, fingerprint, n)
    ensures Valid(view, n) && !Changes(view, n) && Unrepeated(view, fingerprint, n)
    ensures view(n).total > 0 && n < view(n).pages == Pages(view(n).total)
  {
    JudgedPasses(Gathered(view, n), view(n).rows == [], view(n).total, view(n).pages, n,
                 Repeats(view, fingerprint, n), Changes(view, n), !Unrepeated(view, fingerprint, n));
  }

  lemma CompletingPage<Row>(view: View<Row>, fingerprint: Fingerprint<Row>, n: nat)
    requires n >= 1
    requires var verdict := Verdict(view, fingerprint, n);
             verdict.Some? && verdict.value.Listed? && verdict.value.complete
    ensures Valid(view, n) && !Changes(view, n) && Unrepeated(view, fingerprint, n)
    ensures |Gathered(view, n)| == view(n).total
    ensures if view(n).total == 0 then view(n).pages <= 1 else n >= view(n).pages == Pages(view(n).total)
  {
    JudgedComplete(Gathered(view, n), view(n).rows == [], view(n).total, view(n).pages, n,
                   Repeats(view, fingerprint, n), Changes(view, n), !Unrepeated(view, fingerprint, n));
  }

  /** Every page the loop has passed is valid and declares what the first one does. */
  lemma {:induction false} PassedPageAgrees<Row>(view: View<Row>, fingerprint: Fingerprint<Row>, n: nat, m: nat)
    requires 1 <= m <= n && forall k: nat :: 1 <= k <= n ==> Passes(view, fingerprint, k)
    ensures Valid(view, 1) && Valid(view, m) && Declared(view, m) == Declared(view, 1)
  {
    PassedPage(view, fingerprint, m);
    if m > 1 {
      PassedPageAgrees(view, fingerprint, n, m - 1);
    }
  }

  /** Pages that agree on totals which their distinct rows fill are coherent. */
  lemma AgreeingPagesAreCoherent<Row>(view: View<Row>, fingerprint: Fingerprint<Row>, last: nat, total: nat, pages: nat)
    requires last >= 1
    requires forall n: nat :: 1 <= n <= last ==> Valid(view, n) && Declared(view, n) == (total, pages)
    requires Distinct(Mapped(Gathered(view, last), fingerprint)) && |Gathered(view, last)| == total
    requires if total == 0 then last == 1 && pages <= 1 else last == pages == Pages(total)
    ensures Coherent(view, fingerprint, last)
  {
    assert Valid(view, 1) && Declared(view, 1) == (total, pages);
  }

  /** So does the page after them, if it changes nothing. */
  lemma NextPageAgrees<Row>(view: View<Row>, fingerprint: Fingerprint<Row>, last: nat, m: nat)
    requires 1 <= m <= last && forall k: nat :: 1 <= k < last ==> Passes(view, fingerprint, k)
    requires Valid(view, last) && !Changes(view, last)
    ensures Valid(view, m) && Declared(view, m) == Declared(view, last)
  {
    if last > 1 {
      PassedPageAgrees(view, fingerprint, last - 1, last - 1);
      if m < last {
        PassedPageAgrees(view, fingerprint, last - 1, m);
      }
    }
  }

  /** A complete listing after passed pages comes from a coherent server. */
  lemma CompletedMeansCoherent<Row>(view: View<Row>, fingerprint: Fingerprint<Row>, last: nat)
    requires last >= 1 && forall m: nat :: 1 <= m < last ==> Passes(view, fingerprint, m)
    requires var verdict := Verdict(view, fingerprint, last);
             verdict.Some? && verdict.value.Listed? && verdict.value.complete
    ensures Coherent(view, fingerprint, last)
  {
    CompletingPage(view, fingerprint, last);
    CoherentIsUnrepeated(view, fingerprint, last);
    var (total, pages) := Declared(view, last);
    forall m: nat | 1 <= m <= last ensures Valid(view, m) && Declared(view, m) == (total, pages) {
      NextPageAgrees(view, fingerprint, last, m);
    }
    if last > 1 {
      PassedPage(view, fingerprint, last - 1);
      assert Declared(view, last - 1) == (total, pages);
    }
    AgreeingPagesAreCoherent(view, fingerprint, last, total, pages);
  }

  /** Page `n` declares other totals than the usable page before it. */
  ghost predicate TotalsDiffer<Row>(view: View<Row>, n: nat) {
    n > 1 && view(n - 1).Usable? && view(n).Usable?
    && (view(n - 1).total != view(n).total || view(n - 1).pages != view(n).pages)
  }

  /** Page `n` has rows, with the fingerprints of an earlier page in the same order. */
  ghost predicate SameAsEarlier<Row>(view: View<Row>, fingerprint: Fingerprint<Row>, n: nat) {
    && RowsOf(view, n) != []
    && exists m :: 1 <= m < n && PagePrints(view, fingerprint, m) == PagePrints(view, fingerprint, n)
  }

  /** No fingerprint occurs twice up to page `n`. */
  ghost predicate AllDiffer<Row>(view: View<Row>, fingerprint: Fingerprint<Row>, n: nat) {
    Distinct(Mapped(Gathered(view, n), fingerprint))
  }

  /** Nothing is wrong with page `n` as a successor of the pages before it. */
  ghost predicate Fresh<Row>(view: View<Row>, fingerprint: Fingerprint<Row>, n: nat) {
    !SameAsEarlier(view, fingerprint, n) && !TotalsDiffer(view, n) && AllDiffer(view, fingerprint, n)
  }

  /** The totals that page `n` declares fit each other and, if they are zero, its lack of rows. */
  ghost predicate TotalsFit<Row>(view: View<Row>, n: nat)
    requires view(n).Usable?
  {
    if view(n).total == 0 then Gathered(view, n) == [] && view(n).pages <= 1
    else 20 * (view(n).pages - 1) < view(n).total <= 20 * view(n).pages
  }

  /** The reason for which a listing stops at usable page `n`, if it does. */
  ghost function ReasonAt<Row>(view: View<Row>, fingerprint: Fingerprint<Row>, n: nat): Option<Reason>
    requires n >= 1 && view(n).Usable?
  {
    match Verdict(view, fingerprint, n)
    case Some(Listed(_, _, reason)) => Some(reason)
    case _ => None
  }

  lemma JudgedReasons<Row>(records: seq<Row>, empty: bool, total: nat, pages: nat, number: nat,
                           repeated: bool, changed: bool, duplicate: bool)
    ensures var judged := Judged(records, empty, total, pages, number, repeated, changed, duplicate);
            var fits := if total == 0 then records == [] && pages <= 1 else 20 * (pages - 1) < total <= 20 * pages;
            var sound := !repeated && !changed && !duplicate;
            && (judged.Some? ==> judged.value.Listed? && (judged.value.complete <==> judged.value.reason in {Empty, Complete}))
            && (judged.Some? && judged.value.reason == RepeatedPage <==> repeated)
            && (judged.Some? && judged.value.reason == TotalsChanged <==> !repeated && changed)
            && (judged.Some? && judged.value.reason == DuplicateRecords <==> !repeated && !changed && duplicate)
            && (judged.Some? && judged.value.reason == InconsistentTotals <==> sound && !fits)
            && (judged.Some? && judged.value.reason == Empty <==> sound && fits && total == 0)
            && (judged.Some? && judged.value.reason == EmptyPageBeforeTotal <==>
                  sound && fits && empty && |records| < total)
            && (judged.Some? && judged.value.reason == RecordCountMismatch <==>
                  sound && fits && total > 0
                  && (|records| > total || (!empty && number >= pages && |records| < total)))
            && (judged.Some? && judged.value.reason == Complete <==>
                  sound && fits && total > 0 && |records| == total && number >= pages)
            && (judged.None? <==>
                  sound && fits && total > 0 && number < pages && |records| <= total && (empty ==> |records| == total))
  {
    PagesAreFilled(total);
  }

  /** For each reason, exactly which usable pages make a listing stop with it; and which let it go on. */
  lemma WhenListingsStop<Row>(view: View<Row>, fingerprint: Fingerprint<Row>, n: nat)
    requires n >= 1 && view(n).Usable?
    ensures var reason, gathered, total := ReasonAt(view, fingerprint, n), |Gathered(view, n)|, view(n).total;
            var fits := Fresh(view, fingerprint, n) && TotalsFit(view, n);
            && (reason == Some(RepeatedPage) <==> SameAsEarlier(view, fingerprint, n))
            && (reason == Some(TotalsChanged) <==> !SameAsEarlier(view, fingerprint, n) && TotalsDiffer(view, n))
            && (reason == Some(DuplicateRecords) <==>
                  !SameAsEarlier(view, fingerprint, n) && !TotalsDiffer(view, n) && !AllDiffer(view, fingerprint, n))
            && (reason == Some(InconsistentTotals) <==> Fresh(view, fingerprint, n) && !TotalsFit(view, n))
            && (reason == Some(Empty) <==> fits && total == 0)
            && (reason == Some(EmptyPageBeforeTotal) <==> fits && view(n).rows == [] && gathered < total)
            && (reason == Some(RecordCountMismatch) <==>
                  fits && total > 0
                  && (gathered > total || (view(n).rows != [] && n >= view(n).pages && gathered < total)))
            && (reason == Some(Complete) <==> fits && total > 0 && gathered == total && n >= view(n).pages)
            && (reason == None <==>
                  fits && total > 0 && n < view(n).pages && gathered <= total && (view(n).rows == [] ==> gathered == total))
            && reason != Some(PageLimit)
  {
    RepeatsMeans(view, fingerprint, n);
    CoherentIsUnrepeated(view, fingerprint, n);
    JudgedReasons(Gathered(view, n), view(n).rows == [], view(n).total, view(n).pages, n,
                  Repeats(view, fingerprint, n), Changes(view, n), !Unrepeated(view, fingerprint, n));
  }

  /**
   * A listing asks for pages in order up to the first that is not answered, is refused or stops it, and reports
   * that; if there is none within the limit it reports the limit.
   */
  lemma ListingsStopAtTheFirst<Row>(view: View<Row>, fingerprint: Fingerprint<Row>, maxPages: nat)
    requires maxPages >= 1
    ensures var (outcome, requests) := Run(view, fingerprint, maxPages);
            && 1 <= requests <= maxPages
            && (forall n: nat :: 1 <= n < requests ==> Passes(view, fingerprint, n))
            && (if Passes(view, fingerprint, requests) then
                  requests == maxPages && outcome.Listed? && outcome.reason == PageLimit && !outcome.complete
                else match view(requests)
                  case Silent => outcome == Unanswered
                  case Refused(problem) => outcome == Protocol(problem)
                  case Usable(_, _, _) =>
                    outcome.Listed? && ReasonAt(view, fingerprint, requests) == Some(outcome.reason)
                    && (outcome.complete <==> outcome.reason in {Empty, Complete}))
  {
    var stops := Stops(view, fingerprint);
    var stop := FirstStop(stops, 1, maxPages);
    forall n: nat | 1 <= n < stop ensures Passes(view, fingerprint, n) {
      NotBeforeFirstStop(stops, 1, maxPages, n);
    }
    var requests := Run(view, fingerprint, maxPages).1;
    if view(requests).Usable? {
      JudgedReasons(Gathered(view, requests), view(requests).rows == [], view(requests).total, view(requests).pages,
                    requests, Repeats(view, fingerprint, requests), Changes(view, requests),
                    !Unrepeated(view, fingerprint, requests));
    }
  }

  lemma StopsAtTheLastPage<Row>(view: View<Row>, fingerprint: Fingerprint<Row>, maxPages: nat, last: nat)
    requires maxPages >= 1 && Coherent(view, fingerprint, last)
    ensures FirstStop(Stops(view, fingerprint), 1, maxPages) == if last <= maxPages then last else maxPages + 1
  {
    var stops := Stops(view, fingerprint);
    forall m: nat | 1 <= m < last ensures !stops(m) {
      CoherentGoesOn(view, fingerprint, last, m);
    }
    CoherentCompletes(view, fingerprint, last);
    assert stops(last);
    FirstStopIs(stops, maxPages, if last <= maxPages then last else maxPages + 1);
  }

  /**
   * A listing is complete if and only if the server was coherent within the page limit; it then holds
   * every row of the coherent pages in order, and exactly those pages were asked for.
   */
  lemma CompleteIffCoherent<Row>(view: View<Row>, fingerprint: Fingerprint<Row>, maxPages: nat)
    requires maxPages >= 1
    ensures var (outcome, requests) := Run(view, fingerprint, maxPages);
            && (outcome.Listed? && outcome.complete <==>
                exists last: nat :: last <= maxPages && Coherent(view, fingerprint, last))
            && (forall last: nat :: last <= maxPages && Coherent(view, fingerprint, last) ==>
                  requests == last && outcome.Listed? && outcome.records == Gathered(view, last))
  {
    var stops := Stops(view, fingerprint);
    var stop := FirstStop(stops, 1, maxPages);
    var (outcome, requests) := Run(view, fingerprint, maxPages);
    forall last: nat | last <= maxPages && Coherent(view, fingerprint, last)
      ensures stop == last && outcome == Verdict(view, fingerprint, last).value
      ensures outcome.Listed? && outcome.complete && outcome.records == Gathered(view, last)
    {
      StopsAtTheLastPage(view, fingerprint, maxPages, last);
      CoherentCompletes(view, fingerprint, last);
    }
    if outcome.Listed? && outcome.complete {
      forall m: nat | 1 <= m < stop ensures Passes(view, fingerprint, m) {
        NotBeforeFirstStop(stops, 1, maxPages, m);
      }
      CompletedMeansCoherent(view, fingerprint, stop);
    }
  }

  lemma JudgedKeepsRecords<Row>(records: seq<Row>, empty: bool, total: nat, pages: nat, number: nat,
                                repeated: bool, changed: bool, duplicate: bool)
    ensures var judged := Judged(records, empty, total, pages, number, repeated, changed, duplicate);
            judged.Some? ==> judged.value.Listed? && judged.value.records == records
  {
  }

  lemma VerdictHoldsThePages<Row>(view: View<Row>, fingerprint: Fingerprint<Row>, n: nat)
    requires n >= 1 && Verdict(view, fingerprint, n).Some? && Verdict(view, fingerprint, n).value.Listed?
    ensures Verdict(view, fingerprint, n).value.records == Gathered(view, n)
  {
    if view(n).Usable? {
      JudgedKeepsRecords(Gathered(view, n), view(n).rows == [], view(n).total, view(n).pages, n,
                         Repeats(view, fingerprint, n), Changes(view, n), !Unrepeated(view, fingerprint, n));
    }
  }

  /** Whatever a listing's reason, its records are the rows of the pages asked for, in order. */
  lemma RecordsAreThePages<Row>(view: View<Row>, fingerprint: Fingerprint<Row>, maxPages: nat)
    requires maxPages >= 1
    ensures var (outcome, requests) := Run(view, fingerprint, maxPages);
            && 1 <= requests <= maxPages
            && (outcome.Listed? ==> outcome.records == Gathered(view, requests))
  {
    var stops := Stops(view, fingerprint);
    var stop := FirstStop(stops, 1, maxPages);
    if stop <= maxPages && Verdict(view, fingerprint, stop).value.Listed? {
      VerdictHoldsThePages(view, fingerprint, stop);
    }
  }

  // ----- a complete listing is the whole set

  lemma {:induction false} OnceEach<T>(items: seq<T>)
    requires Distinct(items)
    ensures multiset(items) == multiset(Elements(items))
  {
    if items != [] {
      var front, last := items[..|items| - 1], items[|items| - 1];
      OnceEach(front);
      assert items == front + [last];
      assert Elements(items) == Elements(front) + {last};
      assert last !in Elements(front);
    }
  }

  /** Distinct items of a set, as many as the set has, are the whole set. */
  lemma Pigeonhole<T>(items: seq<T>, all: set<T>)
    requires Distinct(items) && |items| == |all| && forall x :: x in items ==> x in all
    ensures multiset(items) == multiset(all)
  {
    DistinctBySize(items);
    var found := Elements(items);
    assert |all - found| == |all| - |found|;
    assert found == all;
    OnceEach(items);
  }

  lemma {:induction false} GatheredIn<Row>(view: View<Row>, n: nat, all: set<Row>)
    requires forall m: nat, row: Row :: 1 <= m <= n && row in RowsOf(view, m) ==> row in all
    ensures forall row :: row in Gathered(view, n) ==> row in all
  {
    if n > 0 {
      GatheredIn(view, n - 1, all);
    }
  }

  /**
   * If the rows of the pages asked for belong to a set of the declared size, a complete listing is that whole
   * set, each row once.
   */
  lemma CompleteIsTheWholeSet<Row>(view: View<Row>, fingerprint: Fingerprint<Row>, maxPages: nat, all: set<Row>)
    requires maxPages >= 1
    requires var (outcome, requests) := Run(view, fingerprint, maxPages);
             && outcome.Listed? && outcome.complete && Valid(view, 1) && Declared(view, 1).0 == |all|
             && forall n: nat, row: Row :: 1 <= n <= requests && row in RowsOf(view, n) ==> row in all
    ensures multiset(Run(view, fingerprint, maxPages).0.records) == multiset(all)
  {
    CompleteIffCoherent(view, fingerprint, maxPages);
    var last: nat :| last <= maxPages && Coherent(view, fingerprint, last);
    var records := Gathered(view, last);
    GatheredIn(view, last, all);
    forall i, j | 0 <= i < j < |records| ensures records[i] != records[j] {
      assert Mapped(records, fingerprint)[i] != Mapped(records, fingerprint)[j];
    }
    Pigeonhole(records, all);
  }

  // ----- completeness against an honest server

  function Smaller(a: nat, b: nat): nat { if a < b then a else b }

  /** The rows an honest server puts on page `n`. */
  function Slice<Row>(rows: seq<Row>, n: nat): PageRows<Row>
    requires n >= 1
  {
    rows[Smaller(PAGE_SIZE * (n - 1), |rows|)..Smaller(PAGE_SIZE * n, |rows|)]
  }

  /** A server that holds `rows`, fingerprints distinct, and pages them out; it may call no rows one page. */
  ghost predicate Honest<Row>(view: View<Row>, fingerprint: Fingerprint<Row>, rows: seq<Row>, pages: nat) {
    && Distinct(Mapped(rows, fingerprint))
    && (pages == Pages(|rows|) || (|rows| == 0 && pages == 1))
    && forall n: nat :: n >= 1 ==> view(n) == Usable(Slice(rows, n), |rows|, pages)
  }

  lemma HonestPages<Row>(view: View<Row>, fingerprint: Fingerprint<Row>, rows: seq<Row>, pages: nat, n: nat)
    requires Honest(view, fingerprint, rows, pages) && n >= 1
    ensures Valid(view, n) && Declared(view, n) == (|rows|, pages) && RowsOf(view, n) == Slice(rows, n)
  {
    assert view(n) == Usable(Slice(rows, n), |rows|, pages);
  }

  /** The first rows, as many as fill `n` pages. */
  function FirstRows<Row>(rows: seq<Row>, n: nat): seq<Row> {
    rows[..Smaller(PAGE_SIZE * n, |rows|)]
  }

  lemma SlicesJoin<Row>(rows: seq<Row>, n: nat)
    requires n >= 1
    ensures FirstRows(rows, n - 1) + Slice(rows, n) == FirstRows(rows, n)
  {
    var from, to := Smaller(PAGE_SIZE * (n - 1), |rows|), Smaller(PAGE_SIZE * n, |rows|);
    assert rows[..to] == rows[..from] + rows[from..to];
  }

  lemma {:induction false} HonestGathers<Row>(view: View<Row>, fingerprint: Fingerprint<Row>, rows: seq<Row>,
                                              pages: nat, n: nat)
    requires Honest(view, fingerprint, rows, pages)
    ensures Gathered(view, n) == FirstRows(rows, n)
  {
    if n > 0 {
      HonestGathers(view, fingerprint, rows, pages, n - 1);
      HonestPages(view, fingerprint, rows, pages, n);
      SlicesJoin(rows, n);
    }
  }

  function PagesNeeded(total: nat): nat { if total == 0 then 1 else Pages(total) }

  /** A page that states its number, its size and its totals, and lists objects, is seen as it stands. */
  lemma PlainPageIsUsable<Row>(server: Server<Row>, n: nat, rows: PageRows<Row>, total: nat, pages: nat)
    requires server(n) == Answer(Page(Number(n), Number(PAGE_SIZE), Number(pages), Number(total),
                                      Items(seq(|rows|, i requires 0 <= i < |rows| => Some(rows[i])))))
    ensures ViewOf(server)(n) == Usable(rows, total, pages)
  {
    var items := server(n).page.list.items;
    assert Objects(items) == rows;
  }

  lemma PagesHoldAll<Row>(rows: seq<Row>)
    ensures FirstRows(rows, PagesNeeded(|rows|)) == rows
    ensures PagesNeeded(|rows|) >= 1
  {
  }

  /** The pages an honest server's rows fill are coherent, and hold all of them. */
  lemma HonestIsCoherent<Row>(view: View<Row>, fingerprint: Fingerprint<Row>, rows: seq<Row>, pages: nat)
    requires Honest(view, fingerprint, rows, pages)
    ensures Gathered(view, PagesNeeded(|rows|)) == rows
    ensures Coherent(view, fingerprint, PagesNeeded(|rows|))
  {
    var last := PagesNeeded(|rows|);
    HonestGathers(view, fingerprint, rows, pages, last);
    PagesHoldAll(rows);
    forall n: nat | 1 <= n <= last ensures Valid(view, n) && Declared(view, n) == (|rows|, pages) {
      HonestPages(view, fingerprint, rows, pages, n);
    }
    AgreeingPagesAreCoherent(view, fingerprint, last, |rows|, pages);
  }

  lemma PagesShort(total: nat, maxPages: nat)
    requires maxPages < PagesNeeded(total) && maxPages >= 1
    ensures PAGE_SIZE * maxPages < total
  {
  }

  /** What a run comes to when a coherent last page is within the limit. */
  lemma CoherentRun<Row>(view: View<Row>, fingerprint: Fingerprint<Row>, last: nat, maxPages: nat)
    requires 1 <= maxPages && Coherent(view, fingerprint, last)
    ensures Run(view, fingerprint, maxPages)
         == if last <= maxPages then
              (Listed(Gathered(view, last), true, if Gathered(view, last) == [] then Empty else Complete), last)
            else (Listed(Gathered(view, maxPages), false, PageLimit), maxPages)
  {
    StopsAtTheLastPage(view, fingerprint, maxPages, last);
    CoherentCompletes(view, fingerprint, last);
  }

  /**
   * An honest server's rows are all returned in order, after as many requests as they fill pages, when
   * the limit allows; otherwise the rows of the first pages are, marked as cut at the limit.
   */
  lemma HonestServersAreListed<Row>(view: View<Row>, fingerprint: Fingerprint<Row>, rows: seq<Row>,
                                    pages: nat, maxPages: nat)
    requires maxPages >= 1 && Honest(view, fingerprint, rows, pages)
    ensures var (outcome, requests) := Run(view, fingerprint, maxPages);
            if PagesNeeded(|rows|) <= maxPages then
              && outcome == Listed(rows, true, if rows == [] then Empty else Complete)
              && requests == PagesNeeded(|rows|)
            else
              && PAGE_SIZE * maxPages < |rows|
              && outcome == Listed(rows[..PAGE_SIZE * maxPages], false, PageLimit)
              && requests == maxPages
  {
    HonestIsCoherent(view, fingerprint, rows, pages);
    CoherentRun(view, fingerprint, PagesNeeded(|rows|), maxPages);
    if maxPages < PagesNeeded(|rows|) {
      PagesShort(|rows|, maxPages);
      HonestGathers(view, fingerprint, rows, pages, maxPages);
    }
  }

  // ----- the calendar window

  /** The instant at which a day begins on the wall clock. */
  function Midnight(z: Zone, day: int): int {
    Instant(z, day * DAY, 0)
  }

  /** The seconds from the first midnight to just before the one after the last day. */
  function Window(z: Zone, start: int, end: int): Option<(int, int)> {
    if end < start then None
    else
      var first, last := Midnight(z, start), Midnight(z, end + 1) - 1;
      if last < first then None else Some((first, last))
  }

  predicate Within(t: int, window: Option<(int, int)>) {
    window.Some? && window.value.0 <= t <= window.value.1
  }

  lemma WithinMeans(z: Zone, start: int, end: int, t: int)
    requires start <= end
    ensures Within(t, Window(z, start, end)) <==> Midnight(z, start) <= t < Midnight(z, end + 1)
  {
  }

  /** The wall date an instant falls on. */
  function DateAt(z: Zone, t: int): int {
    WallAt(z, t) / DAY
  }

  lemma DateBounds(wall: int, day: int)
    ensures day * DAY <= wall <==> day <= wall / DAY
  {
  }

  /** A midnight that no transition skips over or repeats, other than from its very start or to its very end. */
  predicate Whole(z: Zone, day: int) {
    !Splits(z, day * DAY)
  }

  lemma WholeWindowHoldsItsDates(z: Zone, start: int, end: int, t: int)
    requires WellFormed(z) && start <= end && Whole(z, start) && Whole(z, end + 1)
    ensures Within(t, Window(z, start, end)) <==> start <= DateAt(z, t) <= end
  {
    WithinMeans(z, start, end, t);
    WholeTimeDivides(z, start * DAY, t);
    WholeTimeDivides(z, (end + 1) * DAY, t);
    DateBounds(WallAt(z, t), start);
    DateBounds(WallAt(z, t), end + 1);
  }

  /** A second on which a window and its dates disagree. */
  ghost predicate Misplaced(z: Zone, start: int, end: int, t: int) {
    !(Within(t, Window(z, start, end)) <==> start <= DateAt(z, t) <= end)
  }

  lemma MisplacedMeans(z: Zone, start: int, end: int, t: int)
    requires start <= end
    ensures Misplaced(z, start, end, t) <==>
              !(Midnight(z, start) <= t < Midnight(z, end + 1)
                <==> start * DAY <= WallAt(z, t) < (end + 1) * DAY)
  {
    WithinMeans(z, start, end, t);
    DateBounds(WallAt(z, t), start);
    DateBounds(WallAt(z, t), end + 1);
  }

  /** The first midnight is skipped over: the transition's second, or the window's first, is misplaced. */
  lemma StartSkipped(z: Zone, start: int, end: int, k: nat) returns (t: int)
    requires WellFormed(z) && start <= end && Window(z, start, end).Some?
    requires k < |z.transitions| && SplitBy(z, start * DAY, k) && OffsetAfter(z, k) < OffsetAfter(z, k + 1)
    ensures Misplaced(z, start, end, t)
  {
    SplitTimeIsLookedUp(z, start * DAY, k);
    var transition := z.transitions[k].utc;
    t := if Upper(z, k) < (end + 1) * DAY then transition else Midnight(z, start);
    SegmentIsPassed(z, transition, k + 1);
    ShownAfterTransition(z, k, Midnight(z, start));
    MisplacedMeans(z, start, end, t);
  }

  lemma EndIsAfterTransition(z: Zone, end: int, k: nat)
    requires WellFormed(z) && k < |z.transitions| && Upper(z, k) <= (end + 1) * DAY
    requires OffsetAfter(z, k + 1) < OffsetAfter(z, k)
    ensures z.transitions[k].utc < Midnight(z, end + 1)
  {
    var wall := (end + 1) * DAY;
    SegmentIsPassed(z, z.transitions[k].utc, k + 1);
    LookupIsOnWall(z, wall, 0, |z.transitions|);
    Ordered(z, Lookup(z, wall, 0), k);
    if k + 1 < Lookup(z, wall, 0) {
      EarlierSegmentShowsLess(z, wall, z.transitions[k].utc);
    }
  }

  /** It is repeated around: the transition's second, or the midnight's second occurrence, is misplaced. */
  lemma StartRepeated(z: Zone, start: int, end: int, k: nat) returns (t: int)
    requires WellFormed(z) && start <= end && Window(z, start, end).Some?
    requires k < |z.transitions| && SplitBy(z, start * DAY, k) && OffsetAfter(z, k + 1) < OffsetAfter(z, k)
    ensures Misplaced(z, start, end, t)
  {
    SplitTimeIsLookedUp(z, start * DAY, k);
    var transition := z.transitions[k].utc;
    SegmentIsPassed(z, transition, k + 1);
    if (end + 1) * DAY < Upper(z, k) {
      t := start * DAY - OffsetAfter(z, k + 1);
      InsideSecondSegment(z, start * DAY, k);
      SplitTimeIsLookedUp(z, (end + 1) * DAY, k);
    } else {
      t := transition;
      EndIsAfterTransition(z, end, k);
    }
    MisplacedMeans(z, start, end, t);
  }

  /** The midnight after the last date is skipped over. */
  lemma EndSkipped(z: Zone, start: int, end: int, k: nat) returns (t: int)
    requires WellFormed(z) && start <= end && Window(z, start, end).Some?
    requires k < |z.transitions| && SplitBy(z, (end + 1) * DAY, k) && OffsetAfter(z, k) < OffsetAfter(z, k + 1)
    ensures Misplaced(z, start, end, t)
  {
    SplitTimeIsLookedUp(z, (end + 1) * DAY, k);
    var transition := z.transitions[k].utc;
    t := if Midnight(z, start) <= transition then transition else Midnight(z, start);
    ShownAfterTransition(z, k, t);
    MisplacedMeans(z, start, end, t);
  }

  /** It is repeated around, and the first midnight is not: the transition's second is misplaced. */
  lemma EndRepeated(z: Zone, start: int, end: int, k: nat) returns (t: int)
    requires WellFormed(z) && start <= end && Whole(z, start)
    requires k < |z.transitions| && SplitBy(z, (end + 1) * DAY, k) && OffsetAfter(z, k + 1) < OffsetAfter(z, k)
    ensures Misplaced(z, start, end, t)
  {
    SplitTimeIsLookedUp(z, (end + 1) * DAY, k);
    t := z.transitions[k].utc;
    SegmentIsPassed(z, t, k + 1);
    assert !SplitBy(z, start * DAY, k);
    MisplacedMeans(z, start, end, t);
  }

  lemma SplitWindowMisplaces(z: Zone, start: int, end: int) returns (t: int)
    requires WellFormed(z) && start <= end && Window(z, start, end).Some?
    requires !Whole(z, start) || !Whole(z, end + 1)
    ensures Misplaced(z, start, end, t)
  {
    if !Whole(z, start) {
      var k: nat :| k < |z.transitions| && SplitBy(z, start * DAY, k);
      if OffsetAfter(z, k) < OffsetAfter(z, k + 1) {
        t := StartSkipped(z, start, end, k);
      } else {
        t := StartRepeated(z, start, end, k);
      }
    } else {
      var k: nat :| k < |z.transitions| && SplitBy(z, (end + 1) * DAY, k);
      if OffsetAfter(z, k) < OffsetAfter(z, k + 1) {
        t := EndSkipped(z, start, end, k);
      } else {
        t := EndRepeated(z, start, end, k);
      }
    }
  }

  /**
   * A calendar window holds exactly the seconds that show one of its dates if and only if its two midnights are
   * whole. A date between them may be skipped altogether.
   */
  lemma WindowHoldsItsDates(z: Zone, start: int, end: int)
    requires WellFormed(z) && start <= end
    ensures Whole(z, start) && Whole(z, end + 1) ==> forall t :: !Misplaced(z, start, end, t)
    ensures Window(z, start, end).Some? ==>
              ((forall t :: !Misplaced(z, start, end, t)) <==> Whole(z, start) && Whole(z, end + 1))
  {
    if Whole(z, start) && Whole(z, end + 1) {
      forall t ensures !Misplaced(z, start, end, t) {
        WholeWindowHoldsItsDates(z, start, end, t);
      }
    } else if Window(z, start, end).Some? {
      var t := SplitWindowMisplaces(z, start, end);
    }
  }

  /** A range is refused if it is in disorder, or if no second shows one of its dates. */
  lemma RefusedRangesShowNothing(z: Zone, start: int, end: int)
    requires WellFormed(z)
    ensures end < start ==> Window(z, start, end).None?
    ensures start <= end && Whole(z, start) && Whole(z, end + 1) ==>
              (Window(z, start, end).None? <==> forall t :: !(start <= DateAt(z, t) <= end))
  {
    if start <= end && Whole(z, start) && Whole(z, end + 1) {
      forall t ensures Within(t, Window(z, start, end)) <==> start <= DateAt(z, t) <= end {
        WholeWindowHoldsItsDates(z, start, end, t);
      }
      WithinMeans(z, start, end, Midnight(z, start));
    }
  }

  /** The date an instant falls on is the number of whole days of 86400 seconds in what it shows. */
  lemma DatesAreDays(z: Zone, t: int)
    ensures DateAt(z, t) * 86400 <= WallAt(z, t) < (DateAt(z, t) + 1) * 86400
  {
  }

  /** Clocks go from 23:30 to 00:30: the second after shows the new day, outside the window of that day. */
  lemma SkippedMidnightLosesTime()
    ensures var z := Zone(0, [Transition(84600, 3600)]);
            && WellFormed(z) && Window(z, 1, 1).Some?
            && DateAt(z, 84600) == 1 && !Within(84600, Window(z, 1, 1))
  {
    var z := Zone(0, [Transition(84600, 3600)]);
    assert PassedAt(z, 84600) == 1;
    assert Lookup(z, DAY, 0) == 0 && Lookup(z, 2 * DAY, 0) == 1;
  }

  /** Neighbouring windows join into the window of the joined range, without overlap. */
  lemma WindowsJoin(z: Zone, a: int, b: int, c: int, t: int)
    requires WellFormed(z) && a <= b < c && Whole(z, a) && Whole(z, b + 1) && Whole(z, c + 1)
    ensures Within(t, Window(z, a, c)) <==> Within(t, Window(z, a, b)) || Within(t, Window(z, b + 1, c))
    ensures !(Within(t, Window(z, a, b)) && Within(t, Window(z, b + 1, c)))
  {
    WholeWindowHoldsItsDates(z, a, c, t);
    WholeWindowHoldsItsDates(z, a, b, t);
    WholeWindowHoldsItsDates(z, b + 1, c, t);
  }

  /** A midnight divides the instants by date if and only if it is whole. */
  lemma MidnightDividesIffWhole(z: Zone, day: int)
    requires WellFormed(z)
    ensures Whole(z, day) <==> forall t :: Midnight(z, day) <= t <==> day <= DateAt(z, t)
  {
    if Whole(z, day) {
      forall t ensures Midnight(z, day) <= t <==> day <= DateAt(z, t) {
        WholeTimeDivides(z, day * DAY, t);
        DateBounds(WallAt(z, t), day);
      }
    } else {
      var t := SplitTimeMisplaces(z, day * DAY);
      DateBounds(WallAt(z, t), day);
      assert !(Midnight(z, day) <= t <==> day <= DateAt(z, t));
    }
  }

  /** A whole midnight comes before every later one. */
  lemma WholeMidnightsAreOrdered(z: Zone, day: int, later: int)
    requires WellFormed(z) && Whole(z, day) && day <= later
    ensures Midnight(z, day) <= Midnight(z, later)
  {
    UnsplitComesFirst(z, day * DAY, later * DAY);
  }

  /** So does every midnight in a tame zone. */
  lemma TameMidnightsAreOrdered(z: Zone, day: int)
    requires WellFormed(z) && Tame(z)
    ensures Midnight(z, day) <= Midnight(z, day + 1)
  {
    TameDaysAreOrdered(z, day * DAY);
  }

  /** The days whose midnight is whole, or all of them in a tame zone. */
  ghost predicate Regular(z: Zone, start: int, end: int) {
    Tame(z) || forall d :: start <= d <= end ==> Whole(z, d)
  }

  /** Cutting off the first day of a range cuts its window in two. */
  lemma FirstDayIsCutOff(z: Zone, start: int, end: int, t: int)
    requires start < end && Midnight(z, start) <= Midnight(z, start + 1) <= Midnight(z, end + 1)
    ensures Within(t, Window(z, start, end)) <==> Within(t, Window(z, start, start)) || Within(t, Window(z, start + 1, end))
    ensures !(Within(t, Window(z, start, start)) && Within(t, Window(z, start + 1, end)))
  {
    WithinMeans(z, start, end, t);
    WithinMeans(z, start, start, t);
    WithinMeans(z, start + 1, end, t);
  }

  lemma RegularMidnightsAreOrdered(z: Zone, start: int, end: int)
    requires WellFormed(z) && start <= end && Regular(z, start, end)
    ensures Midnight(z, start) <= Midnight(z, start + 1)
  {
    if Tame(z) {
      TameMidnightsAreOrdered(z, start);
    } else {
      WholeMidnightsAreOrdered(z, start, start + 1);
    }
  }

  /** Each second of a range lies in the window of exactly one of its days, skipped days included. */
  lemma {:induction false} DaysTileTheWindow(z: Zone, start: int, end: int, t: int)
    requires WellFormed(z) && start <= end && Regular(z, start, end)
    ensures Midnight(z, start) <= Midnight(z, end + 1)
    ensures Within(t, Window(z, start, end)) <==> exists d :: start <= d <= end && Within(t, Window(z, d, d))
    ensures forall d, e :: start <= d < e <= end ==> !(Within(t, Window(z, d, d)) && Within(t, Window(z, e, e)))
    decreases end - start
  {
    RegularMidnightsAreOrdered(z, start, end);
    if start < end {
      DaysTileTheWindow(z, start + 1, end, t);
      FirstDayIsCutOff(z, start, end, t);
    }
  }
}
