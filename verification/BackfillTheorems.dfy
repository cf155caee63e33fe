/** What one backfill run does for each ticker of its scope, told from the answers and the tables
    before it. */
module BackfillTheorems {
  import opened PyValues
  import opened PriceTable
  import opened PriceBackfill

  /** The label rows are stored under. */
  function Label(interval: string): string {
    if interval == "15 mins" then "15min" else interval
  }

  predicate Storable(row: Row) {
    -9_223_372_036_854_775_808 <= row.bar.volume <= 9_223_372_036_854_775_807
  }

  /** The rows that are stored: all before the first volume that does not fit. */
  ghost predicate StoredPart(rows: seq<Row>, part: seq<Row>) {
    && part <= rows && (forall i :: 0 <= i < |part| ==> Storable(part[i]))
    && (|part| < |rows| ==> !Storable(rows[|part|]))
  }

  /** The bar of the first row listed for an instant. */
  ghost predicate FirstListed(rows: seq<Row>, at: Instant, bar: Bar) {
    exists i :: FirstAt(rows, i, at) && rows[i].bar == bar
  }

  predicate FirstAt(rows: seq<Row>, i: int, at: Instant) {
    0 <= i < |rows| && rows[i].at == at && forall j :: 0 <= j < i ==> rows[j].at != at
  }

  predicate Mentions(rows: seq<Row>, at: Instant) {
    exists i :: 0 <= i < |rows| && rows[i].at == at
  }

  /** The ticker's rows after are those before and, under the interval, the first listed of the new ones. */
  ghost predicate Stores(before: Prices, after: Prices, t: Ticker, interval: string, rows: seq<Row>) {
    && (forall k: PriceKey | k.ticker == t ::
          k in after <==> k in before || (k.interval == interval && Mentions(rows, k.at)))
    && (forall k | k in before && k.ticker == t && k in after :: after[k] == before[k])
    && (forall k | k in after && k.ticker == t && k !in before :: FirstListed(rows, k.at, after[k]))
  }

  function NewRows(before: Prices, after: Prices, t: Ticker): set<PriceKey> {
    set k | k in after && k !in before && k.ticker == t
  }

  predicate DayHeld(p: Prices, t: Ticker, interval: string, day: Day) {
    exists k :: k in p && k.ticker == t && k.interval == interval && day * 86400 <= k.at < (day + 1) * 86400
  }

  predicate AllDaysHeld(p: Prices, t: Ticker, interval: string, days: seq<Day>) {
    forall i :: 0 <= i < |days| ==> DayHeld(p, t, interval, days[i])
  }

  /** The later of the stored frontier and the latest row. */
  ghost predicate Frontier(kept: Option<Instant>, rows: seq<Row>, now: Option<Instant>) {
    && (now.None? <==> kept.None? && rows == [])
    && (now.Some? ==> now == kept || Mentions(rows, now.value))
    && (now.Some? && kept.Some? ==> kept.value <= now.value)
    && (now.Some? ==> forall i :: 0 <= i < |rows| ==> rows[i].at <= now.value)
  }

  predicate NotReported(r: Rollup, t: Ticker) {
    t !in r.errors && t !in r.unresolved
  }

  /** The run failed for the ticker: the error is reported and entered, success and frontier stay. */
  predicate Fails(s: State, r: State, job: Job, t: Ticker, error: string) {
    var key := MetaKey(job.provider, t, job.interval);
    && t in r.rollup.errors && r.rollup.errors[t] == error && t !in r.rollup.unresolved
    && key in r.meta && r.meta[key] == Meta(LastSuccess(s, key), LastBar(s, key), Some(error), 0)
  }

  /** How the ticker fares, by its answer. */
  ghost predicate Fares(s: State, r: State, job: Job, t: Ticker) {
    var key := MetaKey(job.provider, t, job.interval);
    var answer := if t in job.answers then job.answers[t] else Fetched([], []);
    match answer
    case FetchFailed(_, error) => Stores(s.prices, r.prices, t, "", []) && Fails(s, r, job, t, error)
    case Fetched(gaps, rows) =>
      && StoredPart(rows, Bound(rows)) && Stores(s.prices, r.prices, t, Label(job.interval), Bound(rows))
      && if Bound(rows) != rows then Fails(s, r, job, t, "Python int too large to convert to SQLite INTEGER")
         else
           && key in r.meta && Frontier(LastBar(s, key), rows, r.meta[key].lastBar)
           && r.meta[key].rowsAdded == |NewRows(s.prices, r.prices, t)|
           && if AllDaysHeld(r.prices, t, Label(job.interval), gaps) then
                && NotReported(r.rollup, t)
                && r.meta[key].lastError == None && r.meta[key].lastSuccess == Some(job.now)
              else
                && t in r.rollup.errors && r.rollup.errors[t] == "price_day_unresolved_after_fetch"
                && t in r.rollup.unresolved && r.meta[key].lastError == Some(r.rollup.errors[t])
                && r.meta[key].lastSuccess == LastSuccess(s, key)
  }

  // ---------- one ticker at a time ----------

  ghost predicate SameRows(p: Prices, q: Prices, t: Ticker) {
    forall k: PriceKey | k.ticker == t :: (k in p <==> k in q) && (k in p ==> p[k] == q[k])
  }

  predicate SameReport(a: Rollup, b: Rollup, t: Ticker) {
    && (t in a.errors <==> t in b.errors) && (t in a.errors ==> a.errors[t] == b.errors[t])
    && (t in a.unresolved <==> t in b.unresolved)
  }

  ghost predicate SameFor(s: State, r: State, job: Job, t: Ticker) {
    && SameRows(s.prices, r.prices, t) && SameReport(s.rollup, r.rollup, t)
    && SameEntry(s, r, MetaKey(job.provider, t, job.interval))
  }

  lemma {:induction false} InsertLeavesOthers(p: Prices, c: Ticker, interval: string, rows: seq<Row>, t: Ticker)
    requires c != t
    ensures SameRows(p, InsertAll(p, c, interval, rows), t)
  {
    if rows == [] {
    } else {
      InsertLeavesOthers(p, c, interval, rows[..|rows| - 1], t);
    }
  }

  lemma OtherTicker(s: State, job: Job, c: Ticker, t: Ticker)
    requires c != t
    ensures SameFor(s, CommitOne(s, job, c), job, t)
  {
    hide InsertAll, Bound, Covered, Latest;
    if AnswerFor(job, c).Fetched? {
      InsertLeavesOthers(s.prices, c, DbInterval(job.interval), Bound(AnswerFor(job, c).rows), t);
    }
  }

  lemma {:induction false} OtherTickers(s: State, job: Job, scope: seq<Ticker>, t: Ticker)
    requires t !in scope
    ensures SameFor(s, CommitAll(s, job, scope), job, t)
  {
    hide CommitOne;
    if scope == [] {
    } else {
      var n := |scope| - 1;
      OtherTickers(s, job, scope[..n], t);
      OtherTicker(CommitAll(s, job, scope[..n]), job, scope[n], t);
    }
  }

  lemma {:induction false} InsertStores(p: Prices, t: Ticker, interval: string, rows: seq<Row>)
    ensures Stores(p, InsertAll(p, t, interval, rows), t, interval, rows)
  {
    if rows == [] {
    } else {
      var n := |rows| - 1;
      var init, row := rows[..n], rows[n];
      var q := InsertAll(p, t, interval, init);
      InsertStores(p, t, interval, init);
      assert rows == init + [row];
      StoresOneMore(p, q, t, interval, init, row);
    }
  }

  lemma StoresOneMore(p: Prices, q: Prices, t: Ticker, interval: string, rows: seq<Row>, row: Row)
    requires Stores(p, q, t, interval, rows)
    ensures Stores(p, InsertOne(q, KeyOf(t, interval, row), row.bar), t, interval, rows + [row])
  {
    var more, r, key := rows + [row], InsertOne(q, KeyOf(t, interval, row), row.bar), KeyOf(t, interval, row);
    forall at ensures Mentions(more, at) <==> Mentions(rows, at) || at == row.at {
      assert more[|rows|] == row;
      if Mentions(rows, at) {
        var i :| 0 <= i < |rows| && rows[i].at == at;
        assert more[i].at == at;
      }
    }
    forall k | k in r && k.ticker == t && k !in p ensures FirstListed(more, k.at, r[k]) {
      if k in q {
        var i :| FirstAt(rows, i, k.at) && rows[i].bar == q[k];
        assert FirstAt(more, i, k.at) && more[i].bar == q[k];
      } else {
        assert k == key && !Mentions(rows, row.at);
        assert FirstAt(more, |rows|, row.at) && more[|rows|].bar == r[k];
      }
    }
  }

  lemma DaysHeldMeans(p: Prices, t: Ticker, interval: string, days: seq<Day>)
    ensures Covered(p, t, interval, days) <==> AllDaysHeld(p, t, interval, days)
  {
    forall day ensures HasDay(p, t, interval, day) <==> DayHeld(p, t, interval, day) {
    }
  }

  lemma FrontierMeans(kept: Option<Instant>, rows: seq<Row>)
    ensures Frontier(kept, rows, Newer(kept, Latest(rows)))
    ensures Frontier(None, rows, Latest(rows))
  {
    LatestIsMax(rows);
  }

  lemma NewRowsAre(p: Prices, t: Ticker, interval: string, rows: seq<Row>)
    ensures var q := InsertAll(p, t, interval, rows); |q| >= |p| && |NewRows(p, q, t)| == |q| - |p|
  {
    hide InsertAll;
    var q := InsertAll(p, t, interval, rows);
    InsertKeeps(p, t, interval, rows);
    forall k | k in q && k !in p ensures k.ticker == t {
      InsertAdds(p, t, interval, rows, k);
    }
    assert NewRows(p, q, t) == q.Keys - p.Keys;
    assert q.Keys == p.Keys + (q.Keys - p.Keys);
  }

  /** The commit of one ticker. */
  lemma CommitOneFares(s: State, job: Job, t: Ticker)
    requires NotReported(s.rollup, t)
    ensures Fares(s, CommitOne(s, job, t), job, t)
  {
    hide InsertAll, Bound, Covered, Latest, Stores, StoredPart, Frontier, AllDaysHeld, NewRows;
    var r := CommitOne(s, job, t);
    match AnswerFor(job, t)
    case FetchFailed(_, _) => StoresNothing(s.prices, t);
    case Fetched(gaps, rows) =>
      var interval := DbInterval(job.interval);
      BoundIsStoredPart(rows);
      InsertStores(s.prices, t, interval, Bound(rows));
      DaysHeldMeans(r.prices, t, interval, gaps);
      NewRowsAre(s.prices, t, interval, Bound(rows));
      FrontierMeans(LastBar(s, MetaKey(job.provider, t, job.interval)), rows);
  }

  lemma StoresNothing(p: Prices, t: Ticker)
    ensures Stores(p, p, t, "", [])
  {
  }

  lemma BoundIsStoredPart(rows: seq<Row>)
    ensures StoredPart(rows, Bound(rows)) && (Bound(rows) == rows <==> |Bound(rows)| == |rows|)
  {
    assert Bound(rows) <= rows;
  }

  lemma StoresFor(p: Prices, q: Prices, r: Prices, t: Ticker)
    requires SameRows(q, r, t)
    ensures forall interval, rows :: Stores(p, q, t, interval, rows) ==> Stores(p, r, t, interval, rows)
    ensures NewRows(p, q, t) == NewRows(p, r, t)
  {
    hide Mentions, FirstListed;
  }

  lemma StoresFrom(p: Prices, q: Prices, r: Prices, t: Ticker)
    requires SameRows(p, q, t)
    ensures forall interval, rows :: Stores(q, r, t, interval, rows) ==> Stores(p, r, t, interval, rows)
    ensures NewRows(q, r, t) == NewRows(p, r, t)
  {
    hide Mentions, FirstListed;
  }

  lemma FaresFor(s: State, q: State, r: State, job: Job, t: Ticker)
    requires Fares(s, q, job, t) && SameFor(q, r, job, t)
    ensures Fares(s, r, job, t)
  {
    hide StoredPart, Bound, Frontier, Stores, NewRows, SameRows, AllDaysHeld;
    DaysAlike(q.prices, r.prices, t, Label(job.interval));
    StoresFor(s.prices, q.prices, r.prices, t);
  }

  lemma FaresFrom(s: State, q: State, r: State, job: Job, t: Ticker)
    requires SameFor(s, q, job, t) && Fares(q, r, job, t)
    ensures Fares(s, r, job, t)
  {
    hide StoredPart, Bound, Frontier, Stores, NewRows, SameRows, AllDaysHeld;
    StoresFrom(s.prices, q.prices, r.prices, t);
  }

  lemma DaysAlike(p: Prices, q: Prices, t: Ticker, interval: string)
    requires SameRows(p, q, t)
    ensures forall days :: AllDaysHeld(p, t, interval, days) <==> AllDaysHeld(q, t, interval, days)
  {
    forall day ensures DayHeld(p, t, interval, day) <==> DayHeld(q, t, interval, day) {
    }
  }

  /** Every ticker of the scope fares by its own answer, whatever the others do. */
  lemma {:induction false} TickerIsExact(s: State, job: Job, scope: seq<Ticker>, t: Ticker)
    requires Distinct(scope) && t in scope && NotReported(s.rollup, t)
    ensures Fares(s, CommitAll(s, job, scope), job, t)
  {
    hide CommitOne, Fares, SameFor, SameReport;
    var n := |scope| - 1;
    var c := scope[n];
    var q := CommitAll(s, job, scope[..n]);
    assert scope == scope[..n] + [c];
    if t == c {
      assert c !in scope[..n];
      OtherTickers(s, job, scope[..n], t);
      NotReportedStill(s, q, job, t);
      CommitOneFares(q, job, t);
      FaresFrom(s, q, CommitOne(q, job, t), job, t);
    } else {
      TickerIsExact(s, job, scope[..n], t);
      OtherTicker(q, job, c, t);
      FaresFor(s, q, CommitOne(q, job, c), job, t);
    }
  }

  lemma NotReportedStill(s: State, q: State, job: Job, t: Ticker)
    requires SameFor(s, q, job, t) && NotReported(s.rollup, t)
    ensures NotReported(q.rollup, t)
  {
  }

  // ---------- the totals ----------

  function GapDays(job: Job, scope: seq<Ticker>): nat {
    if scope == [] then 0
    else
      var t := scope[|scope| - 1];
      GapDays(job, scope[..|scope| - 1]) + if t in job.answers then |job.answers[t].gaps| else 0
  }

  /** The rows the run's entries of these tickers report. */
  function RowsEntered(r: State, job: Job, scope: seq<Ticker>): nat {
    if scope == [] then 0
    else
      var key := MetaKey(job.provider, scope[|scope| - 1], job.interval);
      RowsEntered(r, job, scope[..|scope| - 1]) + if key in r.meta then r.meta[key].rowsAdded else 0
  }

  lemma {:induction false} EntriesStay(q: State, r: State, job: Job, scope: seq<Ticker>, c: Ticker)
    requires c !in scope && r == CommitOne(q, job, c)
    ensures RowsEntered(r, job, scope) == RowsEntered(q, job, scope)
  {
    hide CommitOne;
    if scope == [] {
    } else {
      var n := |scope| - 1;
      assert scope == scope[..n] + [scope[n]];
      EntriesStay(q, r, job, scope[..n], c);
      OtherTicker(q, job, c, scope[n]);
    }
  }

  lemma CommitOneTotals(s: State, job: Job, t: Ticker)
    ensures var r, key := CommitOne(s, job, t), MetaKey(job.provider, t, job.interval);
            && r.rollup.scanned == s.rollup.scanned + 1
            && r.rollup.gapsFound == s.rollup.gapsFound + (if t in job.answers then |job.answers[t].gaps| else 0)
            && key in r.meta && r.rollup.rowsAdded == s.rollup.rowsAdded + r.meta[key].rowsAdded
  {
    hide Judge;
  }

  /** The totals of a run: the tickers scanned, all gap days, and the rows its entries report. */
  lemma {:induction false} TotalsAreExact(s: State, job: Job, scope: seq<Ticker>)
    requires Distinct(scope) && s.rollup == EMPTY_ROLLUP
    ensures var r := CommitAll(s, job, scope);
            && r.rollup.scanned == |scope| && r.rollup.gapsFound == GapDays(job, scope)
            && r.rollup.rowsAdded == RowsEntered(r, job, scope)
  {
    hide CommitOne;
    if scope == [] {
    } else {
      var n := |scope| - 1;
      var q, r := CommitAll(s, job, scope[..n]), CommitAll(s, job, scope);
      assert scope == scope[..n] + [scope[n]] && scope[n] !in scope[..n];
      TotalsAreExact(s, job, scope[..n]);
      EntriesStay(q, r, job, scope[..n], scope[n]);
      CommitOneTotals(q, job, scope[n]);
    }
  }
}
