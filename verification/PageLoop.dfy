/** The paid page loop: cursors followed one admission at a time. */
module PageLoop {
  import opened PyValues
  import opened PaidGovernor

  type Url = string

  /** One statement of a response; None is a column that is missing or no text. */
  datatype Item = Item(
    ticker: Option<string>, period: Option<string>, reportPeriod: Option<string>,
    fiscalPeriod: Option<string>, currency: Option<string>)

  datatype Cursor = NoCursor | Next(url: Url) | NotText

  /** A decoded body: no object with a list under the response key, or the list and cursor. */
  datatype Document = NoRows | Rows(items: seq<Item>, next: Cursor)

  /** What the provider answers at a URL. A 429 may carry a Retry-After, already in seconds. */
  datatype Answer = Json(document: Document) | TooMany(retryAfter: Option<real>) | Failed(code: string)

  datatype Query = Query(ticker: string, period: string, limit: int)

  /** The world outside: answers by URL, the canonical-date check, and the cursor-URL check. */
  datatype World = World(fetch: Url -> Answer, isoDate: string -> bool, cursorUrl: Url -> bool)

  datatype Failure = RefusedBy(why: Refusal) | RateLimited | Dispatch(code: string) | ResponseInvalid
      | PaginationInvalid

  datatype Result = Ok(rows: seq<Item>) | Err(why: Failure)

  predicate Text(field: Option<string>) {
    field.Some? && field.value != ""
  }

  predicate ValidItem(item: Item, q: Query, w: World) {
    item.ticker == Some(q.ticker) && item.period == Some(q.period)
    && Text(item.reportPeriod) && Text(item.fiscalPeriod) && Text(item.currency)
    && w.isoDate(item.reportPeriod.value)
  }

  predicate ValidPage(a: Answer, q: Query, w: World) {
    a.Json? && a.document.Rows? && forall i :: 0 <= i < |a.document.items| ==> ValidItem(a.document.items[i], q, w)
  }

  /** A row is of the ticker and period asked for and names its report period, a date, its fiscal period
      and its currency. */
  ghost predicate NamesAll(item: Item, q: Query, w: World) {
    exists period, fiscal, currency ::
      && item == Item(Some(q.ticker), Some(q.period), Some(period), Some(fiscal), Some(currency))
      && period != "" && fiscal != "" && currency != "" && w.isoDate(period)
  }

  lemma ValidItemMeans(item: Item, q: Query, w: World)
    ensures ValidItem(item, q, w) <==> NamesAll(item, q, w)
  {
    if ValidItem(item, q, w) {
      assert item == Item(Some(q.ticker), Some(q.period), Some(item.reportPeriod.value), Some(item.fiscalPeriod.value),
                          Some(item.currency.value));
    }
  }

  /** The rows of the pages fetched so far, in order. */
  function Gathered(trail: seq<Url>, w: World): seq<Item> {
    if trail == [] then []
    else
      var a := w.fetch(trail[|trail| - 1]);
      Gathered(trail[..|trail| - 1], w) + (if a.Json? && a.document.Rows? then a.document.items else [])
  }

  ghost predicate DistinctPeriods(items: seq<Item>) {
    forall i, j :: 0 <= i < j < |items| ==> items[i].reportPeriod != items[j].reportPeriod
  }

  ghost predicate DistinctUrls(trail: seq<Url>) {
    forall i, j :: 0 <= i < j < |trail| ==> trail[i] != trail[j]
  }

  /** The loop may leave page i for the next one: it is not finished there, the page had rows,
      and its cursor is an acceptable one. */
  predicate Continues(trail: seq<Url>, i: nat, q: Query, w: World)
    requires i < |trail| && ValidPage(w.fetch(trail[i]), q, w)
  {
    var page := w.fetch(trail[i]).document;
    |Gathered(trail[..i + 1], w)| < q.limit && page.items != [] && page.next.Next? && w.cursorUrl(page.next.url)
  }

  predicate Finishes(trail: seq<Url>, q: Query, w: World)
    requires trail != [] && ValidPage(w.fetch(trail[|trail| - 1]), q, w)
  {
    |Gathered(trail, w)| >= q.limit || w.fetch(trail[|trail| - 1]).document.next.NoCursor?
  }

  predicate Linked(trail: seq<Url>, i: nat, q: Query, w: World)
    requires i + 1 < |trail|
  {
    ValidPage(w.fetch(trail[i]), q, w) && Continues(trail, i, q, w) && trail[i + 1]
        == w.fetch(trail[i]).document.next.url
  }

  /** A chain of pages from the first URL, each reached by the cursor of the one before. */
  ghost predicate Chain(trail: seq<Url>, first: Url, q: Query, w: World) {
    trail != [] && trail[0] == first && forall i: nat :: i + 1 < |trail| ==> Linked(trail, i, q, w)
  }

  /** A chain that answers the query: distinct pages, distinct periods, valid to the end. */
  ghost predicate Answers(trail: seq<Url>, first: Url, q: Query, w: World) {
    Chain(trail, first, q, w) && DistinctUrls(trail) && DistinctPeriods(Gathered(trail, w))
    && ValidPage(w.fetch(trail[|trail| - 1]), q, w) && Finishes(trail, q, w)
  }

  // ---------- chains ----------

  lemma GatherOne(trail: seq<Url>, url: Url, w: World)
    requires w.fetch(url).Json? && w.fetch(url).document.Rows?
    ensures Gathered(trail + [url], w) == Gathered(trail, w) + w.fetch(url).document.items
  {
    assert (trail + [url])[..|trail|] == trail;
  }

  lemma {:induction false} GatheredGrows(trail: seq<Url>, n: nat, w: World)
    requires n <= |trail|
    ensures Gathered(trail[..n], w) <= Gathered(trail, w)
  {
    if n < |trail| {
      assert trail[..|trail| - 1][..n] == trail[..n];
      GatheredGrows(trail[..|trail| - 1], n, w);
    } else {
      assert trail[..n] == trail;
    }
  }

  /** Two chains from one URL run along each other: the world decides every next step. */
  lemma {:induction false} ChainsAgree(a: seq<Url>, b: seq<Url>, first: Url, q: Query, w: World, n: nat)
    requires Chain(a, first, q, w) && Chain(b, first, q, w) && n < |a| && n < |b|
    ensures a[..n + 1] == b[..n + 1]
  {
    if n == 0 {
    } else {
      ChainsAgree(a, b, first, q, w, n - 1);
      assert a[n - 1] == a[..n][n - 1] == b[..n][n - 1] == b[n - 1];
      assert Linked(a, n - 1, q, w) && Linked(b, n - 1, q, w);
      assert a[..n + 1] == a[..n] + [a[n]] && b[..n + 1] == b[..n] + [b[n]];
    }
  }

  /** A chain that goes on from another one leaves its last page by the cursor. */
  lemma NextOfChain(t: seq<Url>, c: seq<Url>, first: Url, q: Query, w: World)
    requires Chain(t, first, q, w) && 0 < |c| < |t| && t[..|c|] == c
    ensures ValidPage(w.fetch(c[|c| - 1]), q, w) && Continues(c, |c| - 1, q, w)
    ensures DistinctUrls(t) ==> w.fetch(c[|c| - 1]).document.next.url !in c
  {
    var n := |c| - 1;
    assert forall i :: 0 <= i < |c| ==> t[..|c|][i] == t[i] == c[i];
    assert Linked(t, n, q, w) && t[..n + 1] == c && c[..n + 1] == c;
  }

  /** At most one chain answers a query. */
  lemma AnswerIsUnique(a: seq<Url>, b: seq<Url>, first: Url, q: Query, w: World)
    requires Answers(a, first, q, w) && Answers(b, first, q, w)
    ensures a == b
  {
    if |a| <= |b| {
      AnswerIsNotShorter(a, b, first, q, w);
    } else {
      AnswerIsNotShorter(b, a, first, q, w);
    }
  }

  lemma AnswerIsNotShorter(a: seq<Url>, b: seq<Url>, first: Url, q: Query, w: World)
    requires Answers(a, first, q, w) && Chain(b, first, q, w) && |a| <= |b|
    ensures a == b
  {
    var n := |a| - 1;
    ChainsAgree(a, b, first, q, w, n);
    assert a[..n + 1] == a && b[..|a|] == a;
    if |a| < |b| {
      NextOfChain(b, a, first, q, w);
    } else {
      assert b[..|b|] == b;
    }
  }

  /** Whatever answers a query runs along every chain of it. */
  lemma AnswerExtends(t: seq<Url>, c: seq<Url>, first: Url, q: Query, w: World)
    requires Answers(t, first, q, w) && Chain(c, first, q, w)
    ensures |c| <= |t| && t[..|c|] == c && (|t| == |c| ==> t == c)
  {
    if |t| < |c| {
      AnswerIsNotShorter(t, c, first, q, w);
    } else {
      ChainsAgree(t, c, first, q, w, |c| - 1);
      assert c[..|c|] == c;
      assert t[..|t|] == t;
    }
  }

  lemma NothingAnswersPast(c: seq<Url>, first: Url, q: Query, w: World)
    requires Chain(c, first, q, w) && !ValidPage(w.fetch(c[|c| - 1]), q, w)
    ensures forall t :: !Answers(t, first, q, w)
  {
    forall t ensures !Answers(t, first, q, w) {
      if Answers(t, first, q, w) {
        AnswerExtends(t, c, first, q, w);
        if |c| < |t| { NextOfChain(t, c, first, q, w); }
      }
    }
  }

  lemma NothingAnswersBeyond(c: seq<Url>, first: Url, q: Query, w: World)
    requires Chain(c, first, q, w) && ValidPage(w.fetch(c[|c| - 1]), q, w) && !Finishes(c, q, w)
    requires !Continues(c, |c| - 1, q, w) || w.fetch(c[|c| - 1]).document.next.url in c
    ensures forall t :: !Answers(t, first, q, w)
  {
    forall t ensures !Answers(t, first, q, w) {
      if Answers(t, first, q, w) {
        AnswerExtends(t, c, first, q, w);
        if |c| < |t| { NextOfChain(t, c, first, q, w); }
      }
    }
  }

  lemma NothingAnswersRepeats(c: seq<Url>, first: Url, q: Query, w: World)
    requires Chain(c, first, q, w) && !DistinctPeriods(Gathered(c, w))
    ensures forall t :: !Answers(t, first, q, w)
  {
    forall t ensures !Answers(t, first, q, w) {
      if Answers(t, first, q, w) {
        AnswerExtends(t, c, first, q, w);
        GatheredGrows(t, |c|, w);
      }
    }
  }

  lemma ChainMore(c: seq<Url>, first: Url, q: Query, w: World)
    requires Chain(c, first, q, w) && ValidPage(w.fetch(c[|c| - 1]), q, w) && Continues(c, |c| - 1, q, w)
    ensures Chain(c + [w.fetch(c[|c| - 1]).document.next.url], first, q, w)
  {
    var d := c + [w.fetch(c[|c| - 1]).document.next.url];
    forall i: nat | i + 1 < |d|
      ensures Linked(d, i, q, w)
    {
      assert d[..i + 1] == c[..i + 1] && d[i] == c[i];
      assert i + 1 < |c| ==> Linked(c, i, q, w);
    }
  }

  /** A chain of k + 1 pages has gathered at least k rows before its last page. */
  lemma {:induction false} ChainGathers(trail: seq<Url>, first: Url, q: Query, w: World, n: nat)
    requires Chain(trail, first, q, w) && n < |trail|
    ensures |Gathered(trail[..n], w)| >= n
    ensures n > 0 ==> |Gathered(trail[..n], w)| < q.limit
  {
    if n == 0 {
    } else {
      ChainGathers(trail, first, q, w, n - 1);
      assert Linked(trail, n - 1, q, w);
      assert trail[..n] == trail[..n - 1] + [trail[n - 1]];
      GatherOne(trail[..n - 1], trail[n - 1], w);
    }
  }

  /** A chain never dispatches more pages than the query asks for rows. */
  lemma ChainIsBounded(trail: seq<Url>, first: Url, q: Query, w: World)
    requires Chain(trail, first, q, w) && q.limit > 0
    ensures |trail| <= q.limit
  {
    ChainGathers(trail, first, q, w, |trail| - 1);
  }

  // ---------- the client ----------

  datatype Page = Got(document: Document) | Broke(why: Failure)

  lemma OneMore(ops: seq<Op>, op: Op)
    ensures Run(ops + [op]) == Step(Run(ops), op).ledger
    ensures forall key :: |Admissions(ops + [op], key)| == |Admissions(ops, key)| + if Admits(Run(ops), op, key)
        then 1 else 0
  {
    assert (ops + [op])[..|ops|] == ops;
  }

  /** What a 429 makes the client tell the governor. */
  function Reported(key: Key, a: Answer, later: real): seq<Op> {
    if a.TooMany? && a.retryAfter.Some? then [OpDefer(key, a.retryAfter.value, later)] else []
  }

  /** What comes of a dispatched page; the report of a 429 fails on an unreadable clock. */
  function PageOf(a: Answer, later: real): Page {
    match a
    case Json(document) => Got(document)
    case Failed(code) => Broke(Dispatch(code))
    case TooMany(retryAfter) =>
      if retryAfter.Some? && retryAfter.value >= 0.0 && later < 0.0 then Broke(RefusedBy(GovernorUnavailable))
      else Broke(RateLimited)
  }

  /** The reservations of the first n pages; each page reads the clock twice. */
  function Reserved(key: Key, policy: Policy, clock: nat -> real, n: nat): (ops: seq<Op>)
    ensures |ops| == n
  {
    seq(n, i requires 0 <= i < n => OpReserve(key, policy, clock(2 * i)))
  }

  lemma OneMoreReserved(before: seq<Op>, key: Key, policy: Policy, clock: nat -> real, n: nat)
    ensures before + Reserved(key, policy, clock, n + 1)
            == before + Reserved(key, policy, clock, n) + [OpReserve(key, policy, clock(2 * n))]
  {
  }

  /** A chain breaks at its last page: the page itself failed, a row is not valid, a report period comes
      again, or the loop is neither finished nor led on to a page not yet seen. */
  ghost predicate BreaksWith(trail: seq<Url>, first: Url, q: Query, w: World, later: real, why: Failure) {
    && Chain(trail, first, q, w)
    && var a := w.fetch(trail[|trail| - 1]);
       if !a.Json? then PageOf(a, later) == Broke(why)
       else if !ValidPage(a, q, w) then why == ResponseInvalid
       else
         && why == PaginationInvalid
         && (!DistinctPeriods(Gathered(trail, w))
             || (!Finishes(trail, q, w) && (!Continues(trail, |trail| - 1, q, w) || a.document.next.url in trail)))
  }

  lemma NothingGathered(w: World)
    ensures Gathered([], w) == []
  {
  }

  lemma DeferOutcomes(l: Ledger, key: Key, seconds: real, now: real)
    requires key != ""
    ensures var outcome := DeferStep(l, key, seconds, now).outcome;
            outcome.Refused? <==> seconds >= 0.0 && now < 0.0
    ensures DeferStep(l, key, seconds, now).outcome.Refused? ==>
              DeferStep(l, key, seconds, now).outcome.why == GovernorUnavailable
  {
  }

  lemma ReserveOutcomes(l: Ledger, key: Key, policy: Policy, now: real)
    ensures ReserveStep(l, key, policy, now).outcome.Admitted? || ReserveStep(l, key, policy, now).outcome.Refused?
  {
  }

  lemma StartsEmpty(first: Url, q: Query, w: World)
    ensures Chain([first], first, q, w) && DistinctPeriods([]) && PeriodsOf({}, [])
  {
  }

  ghost predicate PeriodsOf(periods: set<Option<string>>, items: seq<Item>) {
    forall p :: p in periods <==> exists i :: 0 <= i < |items| && items[i].reportPeriod == p
  }

  lemma PeriodsMore(periods: set<Option<string>>, items: seq<Item>, item: Item)
    requires PeriodsOf(periods, items) && DistinctPeriods(items)
    ensures PeriodsOf(periods + {item.reportPeriod}, items + [item])
    ensures DistinctPeriods(items + [item]) <==> item.reportPeriod !in periods
  {
    var more := items + [item];
    assert more[|items|] == item && forall i :: 0 <= i < |items| ==> more[i] == items[i];
    if item.reportPeriod in periods {
      var i :| 0 <= i < |items| && items[i].reportPeriod == item.reportPeriod;
      assert more[i].reportPeriod == more[|items|].reportPeriod;
    }
  }

  lemma RepeatStays(items: seq<Item>, n: nat)
    requires n <= |items| && !DistinctPeriods(items[..n])
    ensures !DistinctPeriods(items)
  {
  }

  /** Take one page's periods, stopping at the first that was seen before. */
  method TakePeriods(seen: set<Option<string>>, ghost rows: seq<Item>, items: seq<Item>)
    returns (ok: bool, periods: set<Option<string>>)
    requires PeriodsOf(seen, rows) && DistinctPeriods(rows)
    ensures ok <==> DistinctPeriods(rows + items)
    ensures ok ==> PeriodsOf(periods, rows + items)
  {
    hide DistinctPeriods, PeriodsOf;
    periods := seen;
    assert rows + items[..0] == rows;
    for k := 0 to |items|
      invariant DistinctPeriods(rows + items[..k]) && PeriodsOf(periods, rows + items[..k])
    {
      assert rows + items[..k + 1] == rows + items[..k] + [items[k]];
      PeriodsMore(periods, rows + items[..k], items[k]);
      if items[k].reportPeriod in periods {
        assert (rows + items)[..|rows| + k + 1] == rows + items[..k + 1];
        RepeatStays(rows + items, |rows| + k + 1);
        return false, periods;
      }
      periods := periods + {items[k].reportPeriod};
    }
    assert items[..|items|] == items;
    ok := true;
  }

  class FinancialDatasetsClient {
    const apiKey: Key
    const policy: Policy
    const governor: FinancialDatasetsGovernor

    constructor (apiKey: Key, policy: Policy, governor: FinancialDatasetsGovernor)
      ensures this.apiKey == apiKey && this.policy == policy && this.governor == governor
    {
      this.apiKey, this.policy, this.governor := apiKey, policy, governor;
    }

    /** One admission, then one dispatch; a 429 that names a time is reported to the governor. */
    method RequestPage(url: Url, w: World, now: real, later: real, ghost before: seq<Op>)
      returns (page: Page, dispatched: bool, ghost ops: seq<Op>)
      requires governor.Tables() == Run(before)
      modifies governor
      ensures governor.Tables() == Run(ops)
      ensures ops == before + [OpReserve(apiKey, policy, now)]
                     + if dispatched then Reported(apiKey, w.fetch(url), later) else []
      ensures |Admissions(ops, apiKey)| == |Admissions(before, apiKey)| + if dispatched then 1 else 0
      ensures var outcome := ReserveStep(Run(before), apiKey, policy, now).outcome;
              if dispatched then outcome == Admitted && page == PageOf(w.fetch(url), later)
              else outcome.Refused? && page == Broke(RefusedBy(outcome.why))
    {
      hide ReserveStep, DeferStep;
      dispatched := false;
      var op := OpReserve(apiKey, policy, now);
      OneMore(before, op);
      ReservationLaw(before, apiKey, policy, now);
      var outcome := governor.Reserve(apiKey, policy, now);
      ops := before + [op];
      ReserveOutcomes(Run(before), apiKey, policy, now);
      if outcome != Admitted {
        assert ops + [] == ops;
        return Broke(RefusedBy(outcome.why)), dispatched, ops;
      }
      dispatched := true;
      match w.fetch(url) {
        case Json(document) => page := Got(document);
        case Failed(code) => page := Broke(Dispatch(code));
        case TooMany(retryAfter) =>
          page := Broke(RateLimited);
          if retryAfter.Some? {
            ghost var defer := OpDefer(apiKey, retryAfter.value, later);
            OneMore(ops, defer);
            DeferOutcomes(Run(ops), apiKey, retryAfter.value, later);
            outcome := governor.Defer(apiKey, retryAfter.value, later);
            ops := ops + [defer];
            if outcome.Refused? {
              page := Broke(RefusedBy(outcome.why));
            }
          }
      }
      assert before + [op] + [] == before + [op];
    }

    /** The page loop. Each page costs exactly one reservation at its turn, no URL is asked for twice, the
        rows come back exactly when some chain of pages answers the query, and every failure is of the
        page where the chain stops. */
    method Request(first: Url, q: Query, w: World, clock: nat -> real, ghost before: seq<Op>)
      returns (result: Result, refused: bool, ghost trail: seq<Url>, ghost ops: seq<Op>)
      requires q.limit > 0 && governor.Tables() == Run(before)
      modifies governor
      ensures governor.Tables() == Run(ops)
      ensures |Admissions(ops, apiKey)| == |Admissions(before, apiKey)| + |trail|
      ensures |trail| <= q.limit && DistinctUrls(trail)
      ensures result.Ok? ==> && Answers(trail, first, q, w)
                             && |result.rows| <= q.limit && result.rows <= Gathered(trail, w)
                             && (|result.rows| == q.limit || result.rows == Gathered(trail, w))
      ensures result.Err? && !refused ==> forall t :: !Answers(t, first, q, w)
      ensures !refused ==> trail != [] && ops == before + Reserved(apiKey, policy, clock, |trail|)
                                            + Reported(apiKey, w.fetch(trail[|trail| - 1]), clock(2 * |trail| - 1))
      ensures !refused && result.Err? ==> BreaksWith(trail, first, q, w, clock(2 * |trail| - 1), result.why)
      ensures refused ==> && ops == before + Reserved(apiKey, policy, clock, |trail| + 1)
                          && var paid := before + Reserved(apiKey, policy, clock, |trail|);
                             var outcome := ReserveStep(Run(paid), apiKey, policy, clock(2 * |trail|)).outcome;
                             outcome.Refused? && result == Err(RefusedBy(outcome.why))
    {
      hide Linked, ValidItem, DistinctPeriods, PeriodsOf, Run, Admissions, ReserveStep, Gathered;
      var url := first;
      StartsEmpty(first, q, w);
      NothingGathered(w);
      var rows: seq<Item> := [];
      var periods: set<Option<string>> := {};
      var visited: set<Url> := {};
      trail, ops, refused := [], before, false;
      var tick := 0;
      while true
        invariant governor.Tables() == Run(ops) && tick == 2 * |trail|
        invariant ops == before + Reserved(apiKey, policy, clock, |trail|)
        invariant |Admissions(ops, apiKey)| == |Admissions(before, apiKey)| + |trail|
        invariant Chain(trail + [url], first, q, w) && DistinctUrls(trail + [url])
        invariant forall u :: u in visited <==> u in trail
        invariant rows == Gathered(trail, w) && DistinctPeriods(rows) && |rows| < q.limit
        invariant PeriodsOf(periods, rows)
        decreases q.limit - |rows|
      {
        ghost var longer := trail + [url];
        assert DistinctUrls(trail) by { assert forall i :: 0 <= i < |trail| ==> longer[i] == trail[i]; }
        ChainIsBounded(longer, first, q, w);
        visited := visited + {url};
        ghost var paid := ops;
        var page, dispatched;
        page, dispatched, ops := RequestPage(url, w, clock(tick), clock(tick + 1), ops);
        OneMoreReserved(before, apiKey, policy, clock, |trail|);
        tick := tick + 2;
        if !dispatched {
          assert ops == paid + [OpReserve(apiKey, policy, clock(2 * |trail|))];
          return Err(page.why), true, trail, ops;
        }
        if page.Broke? {
          NothingAnswersPast(longer, first, q, w);
          return Err(page.why), false, longer, ops;
        }
        if page.document.NoRows? || exists i :: 0 <= i < |page.document.items| && !ValidItem(page.document.items[i],
            q, w) {
          NothingAnswersPast(longer, first, q, w);
          return Err(ResponseInvalid), false, longer, ops;
        }
        var items := page.document.items;
        GatherOne(trail, url, w);
        var ok;
        ok, periods := TakePeriods(periods, rows, items);
        if !ok {
          NothingAnswersRepeats(longer, first, q, w);
          return Err(PaginationInvalid), false, longer, ops;
        }
        rows := rows + items;
        trail := longer;
        var next := page.document.next;
        assert trail[..|trail|] == trail;
        if |rows| >= q.limit || next.NoCursor? {
          result := Ok(if |rows| <= q.limit then rows else rows[..q.limit]);
          return;
        }
        if items == [] || !next.Next? || !w.cursorUrl(next.url) || next.url in visited {
          NothingAnswersBeyond(trail, first, q, w);
          return Err(PaginationInvalid), false, trail, ops;
        }
        ChainMore(trail, first, q, w);
        url := next.url;
      }
    }
  }
}
