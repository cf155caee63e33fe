/** A provider top-up of the price table: fold the aliases, resolve the scope, insert what is
    missing, and account for every ticker. */
module PriceBackfill {
  import opened PyValues
  import opened PriceTable

  datatype Row = Row(at: Instant, bar: Bar)

  /** What one ticker's fetch left in the buffer; the gap days are counted either way. */
  datatype Answer =
    | Fetched(gaps: seq<Day>, rows: seq<Row>)
    | FetchFailed(gaps: seq<Day>, error: string)

  datatype MetaKey = MetaKey(provider: string, ticker: Ticker, interval: string)
  datatype Meta = Meta(lastSuccess: Option<Instant>, lastBar: Option<Instant>, lastError: Option<string>,
      rowsAdded: nat)

  datatype Rollup = Rollup(
    scanned: nat, succeeded: nat, gapsFound: nat, rowsAdded: nat,
    errors: map<Ticker, string>, unresolved: set<Ticker>)

  const EMPTY_ROLLUP := Rollup(0, 0, 0, 0, map[], {})

  datatype Status = Succeeded | Partial | Failed

  datatype State = State(prices: Prices, meta: map<MetaKey, Meta>, rollup: Rollup)

  /** One run: the provider asked, the interval label, the clock, and the buffered answers. */
  datatype Job = Job(provider: string, interval: string, now: Instant, answers: map<Ticker, Answer>)

  const NO_ANSWER := Fetched([], [])
  const UNRESOLVED := "price_day_unresolved_after_fetch"
  const OVERFLOW := "Python int too large to convert to SQLite INTEGER"

  function AnswerFor(job: Job, t: Ticker): Answer {
    if t in job.answers then job.answers[t] else NO_ANSWER
  }

  function DbInterval(interval: string): string {
    if interval == "15 mins" then "15min" else interval
  }

  /** The first ten characters of a stored instant. */
  function DayOf(at: Instant): Day {
    at / 86400
  }

  // ---------- scope ----------

  function Resolve(aliases: map<Ticker, Ticker>, t: Ticker): Ticker {
    if t in aliases then aliases[t] else t
  }

  function AliasMap(aliases: seq<Alias>): map<Ticker, Ticker> {
    if aliases == [] then map[]
    else
      var a := aliases[|aliases| - 1];
      AliasMap(aliases[..|aliases| - 1])[a.name := a.canonical]
  }

  function ScopeOf(raw: seq<Ticker>, upper: Ticker -> Ticker, aliases: map<Ticker, Ticker>): seq<Ticker> {
    if raw == [] then []
    else
      var before := ScopeOf(raw[..|raw| - 1], upper, aliases);
      var c := Resolve(aliases, upper(raw[|raw| - 1]));
      if c in before then before else before + [c]
  }

  /** The scope holds every resolved ticker, once. */
  lemma {:induction false} ScopeIsResolved(raw: seq<Ticker>, upper: Ticker -> Ticker, aliases: map<Ticker, Ticker>)
    ensures Distinct(ScopeOf(raw, upper, aliases))
    ensures forall c :: c in ScopeOf(raw, upper, aliases) <==> exists t :: t in raw && c == Resolve(aliases, upper(t))
    ensures raw != [] ==> ScopeOf(raw, upper, aliases) != []
  {
    if raw == [] {
    } else {
      var init, last := raw[..|raw| - 1], raw[|raw| - 1];
      ScopeIsResolved(init, upper, aliases);
      assert raw == init + [last];
    }
  }

  // ---------- insert or ignore ----------

  /** Volumes are bound as 64-bit integers; a wider one raises while the batch is running. */
  predicate Fits(bar: Bar) {
    -0x8000_0000_0000_0000 <= bar.volume < 0x8000_0000_0000_0000
  }

  predicate AllFit(rows: seq<Row>) {
    forall i :: 0 <= i < |rows| ==> Fits(rows[i].bar)
  }

  function KeyOf(t: Ticker, interval: string, row: Row): PriceKey {
    PriceKey(t, row.at, interval)
  }

  /** Present rows win, and so does the first of two new ones. */
  function InsertOne(p: Prices, k: PriceKey, bar: Bar): Prices {
    if k in p then p else p[k := bar]
  }

  function InsertAll(p: Prices, t: Ticker, interval: string, rows: seq<Row>): Prices {
    if rows == [] then p
    else
      var row := rows[|rows| - 1];
      InsertOne(InsertAll(p, t, interval, rows[..|rows| - 1]), KeyOf(t, interval, row), row.bar)
  }

  /** The rows bound before the batch raises. */
  function Bound(rows: seq<Row>): (r: seq<Row>)
    ensures r <= rows && AllFit(r)
    ensures |r| < |rows| ==> !Fits(rows[|r|].bar)
  {
    if rows == [] || !Fits(rows[0].bar) then [] else [rows[0]] + Bound(rows[1..])
  }

  predicate Lists(t: Ticker, interval: string, rows: seq<Row>, k: PriceKey) {
    exists i :: 0 <= i < |rows| && KeyOf(t, interval, rows[i]) == k
  }

  lemma {:induction false} InsertKeeps(p: Prices, t: Ticker, interval: string, rows: seq<Row>)
    ensures forall k | k in p :: k in InsertAll(p, t, interval, rows) && InsertAll(p, t, interval, rows)[k] == p[k]
    ensures |InsertAll(p, t, interval, rows)| >= |p|
  {
    if rows == [] {
    } else {
      InsertKeeps(p, t, interval, rows[..|rows| - 1]);
    }
  }

  lemma {:induction false} InsertAdds(p: Prices, t: Ticker, interval: string, rows: seq<Row>, k: PriceKey)
    ensures k in InsertAll(p, t, interval, rows) <==> k in p || Lists(t, interval, rows, k)
  {
    if rows == [] {
    } else {
      var n := |rows| - 1;
      var init := rows[..n];
      InsertAdds(p, t, interval, init, k);
      if i :| 0 <= i < |rows| && KeyOf(t, interval, rows[i]) == k {
        if i < n { assert KeyOf(t, interval, init[i]) == k; }
      }
      if i :| 0 <= i < n && KeyOf(t, interval, init[i]) == k {
        assert KeyOf(t, interval, rows[i]) == k;
      }
    }
  }

  /** A new row gets the first bar listed for its instant. */
  lemma {:induction false} InsertTakesFirst(p: Prices, t: Ticker, interval: string, rows: seq<Row>, i: nat)
    requires i < |rows|
    requires KeyOf(t, interval, rows[i]) !in p
    requires forall j :: 0 <= j < i ==> KeyOf(t, interval, rows[j]) != KeyOf(t, interval, rows[i])
    ensures KeyOf(t, interval, rows[i]) in InsertAll(p, t, interval, rows)
    ensures InsertAll(p, t, interval, rows)[KeyOf(t, interval, rows[i])] == rows[i].bar
  {
    var n := |rows| - 1;
    if i == n {
      InsertAdds(p, t, interval, rows[..n], KeyOf(t, interval, rows[n]));
    } else {
      InsertTakesFirst(p, t, interval, rows[..n], i);
    }
  }

  // ---------- one ticker's commit ----------

  function Latest(rows: seq<Row>): Option<Instant> {
    if rows == [] then None
    else
      var before := Latest(rows[..|rows| - 1]);
      var at := rows[|rows| - 1].at;
      if before.Some? && before.value > at then before else Some(at)
  }

  predicate HasDay(p: Prices, t: Ticker, interval: string, day: Day) {
    exists k :: k in p && k.ticker == t && k.interval == interval && DayOf(k.at) == day
  }

  predicate Covered(p: Prices, t: Ticker, interval: string, targets: seq<Day>) {
    forall i :: 0 <= i < |targets| ==> HasDay(p, t, interval, targets[i])
  }

  function Newer(kept: Option<Instant>, seen: Option<Instant>): Option<Instant> {
    match (kept, seen)
    case (_, None) => kept
    case (None, _) => seen
    case (Some(a), Some(b)) => if b > a then seen else kept
  }

  function Upserted(meta: map<MetaKey, Meta>, key: MetaKey, lastBar: Option<Instant>, added: nat,
      error: Option<string>, now: Instant): map<MetaKey, Meta>
  {
    var success := if error.Some? then None else Some(now);
    meta[key :=
      if key in meta then
        Meta(if success.Some? then success else meta[key].lastSuccess, Newer(meta[key].lastBar, lastBar), error, added)
      else Meta(success, lastBar, error, added)]
  }

  /** How one ticker fared: the table with its rows, and what is reported of it. */
  datatype Verdict = Verdict(prices: Prices, lastBar: Option<Instant>, added: nat, error: Option<string>, missing: bool)

  function Judge(p: Prices, job: Job, t: Ticker): Verdict {
    match AnswerFor(job, t)
    case FetchFailed(_, error) => Verdict(p, None, 0, Some(error), false)
    case Fetched(gaps, rows) =>
      var prices := InsertAll(p, t, DbInterval(job.interval), Bound(rows));
      if |Bound(rows)| < |rows| then Verdict(prices, None, 0, Some(OVERFLOW), false)
      else
        InsertKeeps(p, t, DbInterval(job.interval), Bound(rows));
        var added := |prices| - |p|;
        if Covered(prices, t, DbInterval(job.interval), gaps) then Verdict(prices, Latest(rows), added, None, false)
        else Verdict(prices, Latest(rows), added, Some(UNRESOLVED), true)
  }

  function Booked(r: Rollup, t: Ticker, gaps: nat, v: Verdict): Rollup {
    r.(scanned := r.scanned + 1, gapsFound := r.gapsFound + gaps, rowsAdded := r.rowsAdded + v.added,
       succeeded := if v.error.Some? then r.succeeded else r.succeeded + 1,
       errors := if v.error.Some? then r.errors[t := v.error.value] else r.errors,
       unresolved := if v.missing then r.unresolved + {t} else r.unresolved)
  }

  function CommitOne(s: State, job: Job, t: Ticker): State {
    var v := Judge(s.prices, job, t);
    State(v.prices,
      Upserted(s.meta, MetaKey(job.provider, t, job.interval), v.lastBar, v.added, v.error, job.now),
      Booked(s.rollup, t, |AnswerFor(job, t).gaps|, v))
  }

  function CommitAll(s: State, job: Job, scope: seq<Ticker>): State {
    if scope == [] then s
    else CommitOne(CommitAll(s, job, scope[..|scope| - 1]), job, scope[|scope| - 1])
  }

  function StatusOf(scanned: nat, issues: nat): Option<Status> {
    if scanned == 0 || issues > scanned then None
    else if issues == 0 then Some(Succeeded)
    else if issues == scanned then Some(Failed)
    else Some(Partial)
  }

  datatype Outcome = EmptyScope | InvalidCounts | Finished(rollup: Rollup, status: Status)

  // ---------- what a commit does to the tables ----------

  /** Nothing stored is altered, however the tickers fare. */
  lemma {:induction false} CommitKeepsRows(s: State, job: Job, scope: seq<Ticker>)
    ensures forall k | k in s.prices ::
              k in CommitAll(s, job, scope).prices && CommitAll(s, job, scope).prices[k] == s.prices[k]
  {
    if scope == [] {
    } else {
      var t := scope[|scope| - 1];
      CommitKeepsRows(s, job, scope[..|scope| - 1]);
      var q := CommitAll(s, job, scope[..|scope| - 1]);
      match AnswerFor(job, t) {
        case FetchFailed(_, _) =>
        case Fetched(_, rows) => InsertKeeps(q.prices, t, DbInterval(job.interval), Bound(rows));
      }
    }
  }

  /** The instants a ticker's answer stores: up to the first volume that cannot be bound. */
  predicate Supplies(job: Job, k: PriceKey) {
    AnswerFor(job, k.ticker).Fetched?
    && Lists(k.ticker, DbInterval(job.interval), Bound(AnswerFor(job, k.ticker).rows), k)
  }

  lemma CommitOneAdds(s: State, job: Job, t: Ticker, k: PriceKey)
    ensures k in CommitOne(s, job, t).prices <==> k in s.prices || (k.ticker == t && Supplies(job, k))
  {
    match AnswerFor(job, t) {
      case FetchFailed(_, _) =>
      case Fetched(_, rows) => InsertAdds(s.prices, t, DbInterval(job.interval), Bound(rows), k);
    }
  }

  lemma {:induction false} CommitAdds(s: State, job: Job, scope: seq<Ticker>, k: PriceKey)
    ensures k in CommitAll(s, job, scope).prices <==> k in s.prices || (k.ticker in scope && Supplies(job, k))
  {
    if scope == [] {
    } else {
      hide CommitOne, Supplies;
      var n := |scope| - 1;
      CommitAdds(s, job, scope[..n], k);
      CommitOneAdds(CommitAll(s, job, scope[..n]), job, scope[n], k);
      assert scope == scope[..n] + [scope[n]];
    }
  }

  // ---------- counting the rows ----------

  /** The batch raises part-way: some of its rows are stored and none is counted. */
  predicate RaisesLate(job: Job, t: Ticker) {
    AnswerFor(job, t).Fetched? && 0 < |Bound(AnswerFor(job, t).rows)| < |AnswerFor(job, t).rows|
  }

  function Growth(before: State, after: State): int {
    |after.prices| - |before.prices|
  }

  function CountedGrowth(before: State, after: State): int {
    after.rollup.rowsAdded - before.rollup.rowsAdded
  }

  lemma CommitOneCounts(s: State, job: Job, t: Ticker)
    ensures CountedGrowth(s, CommitOne(s, job, t)) <= Growth(s, CommitOne(s, job, t))
    ensures !RaisesLate(job, t) ==> CountedGrowth(s, CommitOne(s, job, t)) == Growth(s, CommitOne(s, job, t))
  {
    match AnswerFor(job, t) {
      case FetchFailed(_, _) =>
      case Fetched(_, rows) => InsertKeeps(s.prices, t, DbInterval(job.interval), Bound(rows));
    }
  }

  lemma {:induction false} CommitCounts(s: State, job: Job, scope: seq<Ticker>)
    ensures CountedGrowth(s, CommitAll(s, job, scope)) <= Growth(s, CommitAll(s, job, scope))
    ensures (forall t :: t in scope ==> !RaisesLate(job, t)) ==>
              CountedGrowth(s, CommitAll(s, job, scope)) == Growth(s, CommitAll(s, job, scope))
  {
    if scope == [] {
    } else {
      hide CommitOne, RaisesLate;
      CommitCounts(s, job, scope[..|scope| - 1]);
      CommitOneCounts(CommitAll(s, job, scope[..|scope| - 1]), job, scope[|scope| - 1]);
    }
  }

  lemma Grows(p: Prices, q: Prices, k: PriceKey)
    requires p.Keys <= q.Keys && k in q && k !in p
    ensures |q| > |p|
  {
    assert q.Keys == p.Keys + (q.Keys - p.Keys);
    assert k in q.Keys - p.Keys;
  }

  lemma LateRaiseUndercounts(s: State, job: Job, t: Ticker)
    requires RaisesLate(job, t) && forall k | k in s.prices :: k.ticker != t
    ensures CountedGrowth(s, CommitOne(s, job, t)) < Growth(s, CommitOne(s, job, t))
  {
    hide InsertAll, Covered, Latest, Upserted;
    var rows := AnswerFor(job, t).rows;
    var interval := DbInterval(job.interval);
    var k := KeyOf(t, interval, Bound(rows)[0]);
    InsertKeeps(s.prices, t, interval, Bound(rows));
    InsertAdds(s.prices, t, interval, Bound(rows), k);
    Grows(s.prices, InsertAll(s.prices, t, interval, Bound(rows)), k);
  }

  lemma {:induction false} CommitUndercounts(s: State, job: Job, scope: seq<Ticker>, i: nat)
    requires Distinct(scope) && i < |scope| && RaisesLate(job, scope[i])
    requires forall k | k in s.prices :: k.ticker != scope[i]
    ensures CountedGrowth(s, CommitAll(s, job, scope)) < Growth(s, CommitAll(s, job, scope))
  {
    hide CommitOne, RaisesLate, Supplies;
    var n := |scope| - 1;
    var q := CommitAll(s, job, scope[..n]);
    if i == n {
      CommitCounts(s, job, scope[..n]);
      forall k | k in q.prices ensures k.ticker != scope[n] {
        CommitAdds(s, job, scope[..n], k);
      }
      LateRaiseUndercounts(q, job, scope[n]);
    } else {
      CommitUndercounts(s, job, scope[..n], i);
      CommitOneCounts(q, job, scope[n]);
    }
  }

  /** The reported row count is the growth of the table, whatever was stored, exactly when no
      batch raises after its first row. */
  lemma RowsAddedIsGrowth(job: Job, scope: seq<Ticker>)
    requires Distinct(scope)
    ensures (forall s: State :: CountedGrowth(s, CommitAll(s, job, scope)) == Growth(s, CommitAll(s, job, scope)))
            <==> (forall t :: t in scope ==> !RaisesLate(job, t))
  {
    hide CommitAll, RaisesLate;
    if forall t :: t in scope ==> !RaisesLate(job, t) {
      forall s: State
        ensures CountedGrowth(s, CommitAll(s, job, scope)) == Growth(s, CommitAll(s, job, scope))
      {
        CommitCounts(s, job, scope);
      }
    } else {
      var t :| t in scope && RaisesLate(job, t);
      var i: nat :| i < |scope| && scope[i] == t;
      CommitUndercounts(State(map[], map[], EMPTY_ROLLUP), job, scope, i);
    }
  }

  // ---------- the frontier ----------

  function LastBar(s: State, key: MetaKey): Option<Instant> {
    if key in s.meta then s.meta[key].lastBar else None
  }

  predicate NotBehind(a: Option<Instant>, b: Option<Instant>) {
    b.Some? ==> a.Some? && a.value >= b.value
  }

  predicate Addressed(job: Job, scope: seq<Ticker>, key: MetaKey) {
    key.provider == job.provider && key.interval == job.interval && key.ticker in scope
  }

  lemma {:induction false} LatestIsMax(rows: seq<Row>)
    ensures Latest(rows).None? <==> rows == []
    ensures forall i :: 0 <= i < |rows| ==> rows[i].at <= Latest(rows).value
    ensures rows != [] ==> exists i :: 0 <= i < |rows| && rows[i].at == Latest(rows).value
  {
    if rows == [] {
    } else {
      var n := |rows| - 1;
      LatestIsMax(rows[..n]);
      if n > 0 && Latest(rows[..n]).value > rows[n].at {
        var i :| 0 <= i < n && rows[..n][i].at == Latest(rows[..n]).value;
        assert rows[i].at == Latest(rows).value;
      } else {
        assert rows[n].at == Latest(rows).value;
      }
    }
  }

  predicate Reaches(s: State, job: Job, key: MetaKey) {
    AnswerFor(job, key.ticker).Fetched? && AllFit(AnswerFor(job, key.ticker).rows) ==>
      forall i :: 0 <= i < |AnswerFor(job, key.ticker).rows| ==>
        NotBehind(LastBar(s, key), Some(AnswerFor(job, key.ticker).rows[i].at))
  }

  predicate SameEntry(s: State, r: State, key: MetaKey) {
    (key in r.meta <==> key in s.meta) && (key in s.meta ==> r.meta[key] == s.meta[key])
  }

  lemma FrontierStep(s: State, job: Job, t: Ticker, key: MetaKey)
    ensures NotBehind(LastBar(CommitOne(s, job, t), key), LastBar(s, key))
    ensures key != MetaKey(job.provider, t, job.interval) ==> SameEntry(s, CommitOne(s, job, t), key)
    ensures key == MetaKey(job.provider, t, job.interval) ==> Reaches(CommitOne(s, job, t), job, key)
  {
    hide Bound, InsertAll, Covered;
    if AnswerFor(job, t).Fetched? {
      LatestIsMax(AnswerFor(job, t).rows);
    }
  }

  /** Only the run's own entries change; a frontier never moves back, and reaches every row of
      an answer that was stored whole. */
  lemma {:induction false} FrontierAdvances(s: State, job: Job, scope: seq<Ticker>, key: MetaKey)
    ensures NotBehind(LastBar(CommitAll(s, job, scope), key), LastBar(s, key))
    ensures !Addressed(job, scope, key) ==> SameEntry(s, CommitAll(s, job, scope), key)
    ensures Addressed(job, scope, key) ==> Reaches(CommitAll(s, job, scope), job, key)
  {
    hide CommitOne;
    if scope == [] {
    } else {
      var n := |scope| - 1;
      assert scope == scope[..n] + [scope[n]];
      FrontierAdvances(s, job, scope[..n], key);
      FrontierStep(CommitAll(s, job, scope[..n]), job, scope[n], key);
    }
  }

  // ---------- accounting for the tickers ----------

  predicate Balanced(r: Rollup) {
    r.succeeded + |r.errors| == r.scanned && r.unresolved <= r.errors.Keys
  }

  /** A ticker is an error when its fetch failed, when its batch raised, or when one of its
      missing days has no row even in the final table. */
  predicate Troubled(job: Job, t: Ticker, last: Prices) {
    match AnswerFor(job, t)
    case FetchFailed(_, _) => true
    case Fetched(gaps, rows) => |Bound(rows)| < |rows| || !Covered(last, t, DbInterval(job.interval), gaps)
  }

  lemma CoveredAlike(p: Prices, q: Prices, t: Ticker, interval: string, targets: seq<Day>)
    requires forall k: PriceKey | k.ticker == t :: k in p <==> k in q
    ensures Covered(p, t, interval, targets) == Covered(q, t, interval, targets)
  {
  }

  function LastSuccess(s: State, key: MetaKey): Option<Instant> {
    if key in s.meta then s.meta[key].lastSuccess else None
  }

  /** The run's entry for a ticker says what the rollup says of it. */
  predicate Agrees(s: State, r: State, job: Job, t: Ticker) {
    var key := MetaKey(job.provider, t, job.interval);
    key in r.meta
    && r.meta[key].lastError == (if t in r.rollup.errors then Some(r.rollup.errors[t]) else None)
    && r.meta[key].lastSuccess == (if t in r.rollup.errors then LastSuccess(s, key) else Some(job.now))
  }

  lemma MissingIsAnError(p: Prices, job: Job, t: Ticker)
    ensures Judge(p, job, t).missing ==> Judge(p, job, t).error.Some?
  {
  }

  lemma BookedBalances(r: Rollup, t: Ticker, gaps: nat, v: Verdict)
    requires Balanced(r) && t !in r.errors && (v.missing ==> v.error.Some?)
    ensures Balanced(Booked(r, t, gaps, v))
    ensures Booked(r, t, gaps, v).errors.Keys == r.errors.Keys + if v.error.Some? then {t} else {}
    ensures forall x :: x in r.errors ==> Booked(r, t, gaps, v).errors[x] == r.errors[x]
  {
    if v.error.Some? {
      assert r.errors[t := v.error.value].Keys == r.errors.Keys + {t};
    }
  }

  lemma CommitOneAgrees(s: State, job: Job, t: Ticker)
    requires t !in s.rollup.errors
    ensures Agrees(s, CommitOne(s, job, t), job, t)
  {
    hide Judge, Newer, AnswerFor;
  }

  lemma CommitOneAccounts(s: State, job: Job, t: Ticker)
    requires Balanced(s.rollup) && t !in s.rollup.errors
    ensures var r := CommitOne(s, job, t).rollup;
            Balanced(r) && r.scanned == s.rollup.scanned + 1 && r.errors.Keys <= s.rollup.errors.Keys + {t}
            && forall x :: x in s.rollup.errors ==> x in r.errors && r.errors[x] == s.rollup.errors[x]
  {
    hide Judge, Upserted, Balanced, AnswerFor;
    MissingIsAnError(s.prices, job, t);
    BookedBalances(s.rollup, t, |AnswerFor(job, t).gaps|, Judge(s.prices, job, t));
  }

  lemma CommitOneTroubled(s: State, job: Job, t: Ticker)
    requires t !in s.rollup.errors
    ensures t in CommitOne(s, job, t).rollup.errors <==> Troubled(job, t, CommitOne(s, job, t).prices)
  {
    hide Bound, InsertAll, Covered, Latest, Upserted;
  }

  lemma AgreesStill(s: State, q: State, r: State, job: Job, t: Ticker)
    requires Agrees(q, r, job, t) && SameEntry(s, q, MetaKey(job.provider, t, job.interval))
    ensures Agrees(s, r, job, t)
  {
  }

  lemma AgreesAlike(s: State, q: State, r: State, job: Job, t: Ticker)
    requires Agrees(s, q, job, t) && SameEntry(q, r, MetaKey(job.provider, t, job.interval))
    requires t in r.rollup.errors <==> t in q.rollup.errors
    requires t in q.rollup.errors ==> r.rollup.errors[t] == q.rollup.errors[t]
    ensures Agrees(s, r, job, t)
  {
  }

  lemma {:induction false} CommitAccounts(s: State, job: Job, scope: seq<Ticker>)
    requires Distinct(scope) && s.rollup == EMPTY_ROLLUP
    ensures var r := CommitAll(s, job, scope).rollup;
            Balanced(r) && r.scanned == |scope| && forall t :: t in r.errors ==> t in scope
  {
    hide CommitOne, Balanced;
    if scope != [] {
      var n := |scope| - 1;
      CommitAccounts(s, job, scope[..n]);
      assert scope == scope[..n] + [scope[n]] && scope[n] !in scope[..n];
      CommitOneAccounts(CommitAll(s, job, scope[..n]), job, scope[n]);
    } else {
      EmptyBalances();
    }
  }

  lemma EmptyBalances()
    ensures Balanced(EMPTY_ROLLUP)
  {
  }

  lemma {:induction false} MetaTellsErrors(s: State, job: Job, scope: seq<Ticker>, t: Ticker)
    requires Distinct(scope) && s.rollup == EMPTY_ROLLUP && t in scope
    ensures Agrees(s, CommitAll(s, job, scope), job, t)
  {
    hide CommitOne, Agrees, Balanced;
    var n := |scope| - 1;
    var c := scope[n];
    var q, r := CommitAll(s, job, scope[..n]), CommitAll(s, job, scope);
    assert scope == scope[..n] + [c] && c !in scope[..n];
    CommitAccounts(s, job, scope[..n]);
    if t == c {
      FrontierAdvances(s, job, scope[..n], MetaKey(job.provider, c, job.interval));
      CommitOneAgrees(q, job, c);
      AgreesStill(s, q, r, job, c);
    } else {
      MetaTellsErrors(s, job, scope[..n], t);
      FrontierStep(q, job, c, MetaKey(job.provider, t, job.interval));
      CommitOneAccounts(q, job, c);
      AgreesAlike(s, q, r, job, t);
    }
  }

  lemma {:induction false} ErrorsExactly(s: State, job: Job, scope: seq<Ticker>, t: Ticker)
    requires Distinct(scope) && s.rollup == EMPTY_ROLLUP
    ensures t in CommitAll(s, job, scope).rollup.errors
            <==> t in scope && Troubled(job, t, CommitAll(s, job, scope).prices)
  {
    hide CommitOne, Covered, Supplies;
    if scope == [] {
    } else {
      var n := |scope| - 1;
      var c := scope[n];
      var q, r := CommitAll(s, job, scope[..n]), CommitAll(s, job, scope);
      assert scope == scope[..n] + [c] && c !in scope[..n];
      CommitAccounts(s, job, scope[..n]);
      CommitOneAccounts(q, job, c);
      if t != c {
        ErrorsExactly(s, job, scope[..n], t);
        forall k: PriceKey | k.ticker == t ensures k in q.prices <==> k in r.prices {
          CommitOneAdds(q, job, c, k);
        }
        if AnswerFor(job, t).Fetched? {
          CoveredAlike(q.prices, r.prices, t, DbInterval(job.interval), AnswerFor(job, t).gaps);
        }
      } else {
        CommitOneTroubled(q, job, c);
      }
    }
  }

  // ---------- running it again ----------

  /** One run: the fold, then the commit. */
  function RunOnce(p: Prices, meta: map<MetaKey, Meta>, aliases: seq<Alias>, job: Job, scope: seq<Ticker>): State {
    CommitAll(State(FoldAll(p, aliases), meta, EMPTY_ROLLUP), job, scope)
  }

  lemma SecondRunAddsNothing(p: Prices, meta: map<MetaKey, Meta>, aliases: seq<Alias>, job: Job, scope: seq<Ticker>)
    requires forall c | c in scope :: Followed(c, aliases) == c
    ensures var first := RunOnce(p, meta, aliases, job, scope);
            var second := RunOnce(first.prices, first.meta, aliases, job, scope);
            second.rollup.rowsAdded == 0 && second.prices == FoldAll(first.prices, aliases)
  {
    hide CommitAll, FoldAll, Followed, Supplies;
    var first := RunOnce(p, meta, aliases, job, scope);
    var s := State(FoldAll(first.prices, aliases), first.meta, EMPTY_ROLLUP);
    var second := CommitAll(s, job, scope);
    forall k ensures k in second.prices <==> k in s.prices {
      CommitAdds(s, job, scope, k);
      if k.ticker in scope && Supplies(job, k) {
        CommitAdds(State(FoldAll(p, aliases), meta, EMPTY_ROLLUP), job, scope, k);
        FoldKeepsImage(first.prices, aliases, k);
        assert k.(ticker := k.ticker) == k;
      }
    }
    CommitKeepsRows(s, job, scope);
    assert second.prices == s.prices;
    CommitCounts(s, job, scope);
  }

  /** A run repeated with the same answers adds nothing, for all tables and answers, exactly
      when the fold leaves every ticker of the scope where it is. */
  lemma RepeatAddsNothing(aliases: seq<Alias>, scope: seq<Ticker>)
    ensures (forall p, meta, job ::
              var first := RunOnce(p, meta, aliases, job, scope);
              RunOnce(first.prices, first.meta, aliases, job, scope).rollup.rowsAdded == 0)
            <==> (forall c | c in scope :: Followed(c, aliases) == c)
  {
    hide CommitAll, FoldAll, Followed;
    if forall c | c in scope :: Followed(c, aliases) == c {
      forall p, meta, job
        ensures var first := RunOnce(p, meta, aliases, job, scope);
                RunOnce(first.prices, first.meta, aliases, job, scope).rollup.rowsAdded == 0
      {
        SecondRunAddsNothing(p, meta, aliases, job, scope);
      }
    } else {
      var c :| c in scope && Followed(c, aliases) != c;
      var row := Row(0, Bar(1.0, 1.0, 1.0, 1.0, 1));
      var job := Job("polygon", "15min", 0, map[c := Fetched([], [row])]);
      var k := KeyOf(c, "15min", row);
      assert Bound([row]) == [row];
      assert KeyOf(c, "15min", [row][0]) == k;
      assert Supplies(job, k);
      SecondRunAdds(aliases, job, scope, k);
    }
  }

  /** When no canonical spelling is itself an alias, the scope a run resolves is one the fold
      leaves where it is. */
  lemma ResolvedScopeStays(raw: seq<Ticker>, upper: Ticker -> Ticker, aliases: seq<Alias>)
    requires forall i :: 0 <= i < |aliases| ==> !IsAlias(aliases, aliases[i].canonical)
    ensures forall c | c in ScopeOf(raw, upper, AliasMap(aliases)) :: Followed(c, aliases) == c
  {
    var scope := ScopeOf(raw, upper, AliasMap(aliases));
    ScopeIsResolved(raw, upper, AliasMap(aliases));
    forall c | c in scope ensures Followed(c, aliases) == c {
      var t :| t in raw && c == Resolve(AliasMap(aliases), upper(t));
      AliasMapIs(aliases, upper(t));
      FollowedUntouched(c, aliases);
    }
  }

  lemma {:induction false} AliasMapIs(aliases: seq<Alias>, t: Ticker)
    ensures t in AliasMap(aliases) ==>
              exists i :: 0 <= i < |aliases| && aliases[i].name == t && aliases[i].canonical == AliasMap(aliases)[t]
    ensures t !in AliasMap(aliases) ==> forall i :: 0 <= i < |aliases| ==> aliases[i].name != t
  {
    if aliases == [] {
    } else {
      var n := |aliases| - 1;
      AliasMapIs(aliases[..n], t);
      assert forall i :: 0 <= i < n ==> aliases[..n][i] == aliases[i];
    }
  }

  lemma SecondRunAdds(aliases: seq<Alias>, job: Job, scope: seq<Ticker>, k: PriceKey)
    requires k.ticker in scope && Followed(k.ticker, aliases) != k.ticker && Supplies(job, k)
    requires forall x :: Supplies(job, x) ==> x == k
    requires forall t :: t in scope ==> !RaisesLate(job, t)
    ensures var first := RunOnce(map[], map[], aliases, job, scope);
            RunOnce(first.prices, first.meta, aliases, job, scope).rollup.rowsAdded > 0
  {
    hide CommitAll, FoldAll, Followed, Supplies, RaisesLate;
    var folded := FoldAll(map[], aliases);
    FoldMapsKeys(map[], aliases);
    var first := RunOnce(map[], map[], aliases, job, scope);
    forall x ensures x in first.prices <==> x == k {
      CommitAdds(State(folded, map[], EMPTY_ROLLUP), job, scope, x);
    }
    var s := State(FoldAll(first.prices, aliases), first.meta, EMPTY_ROLLUP);
    if k in s.prices {
      var x := FoldInventsNothing(first.prices, aliases, k);
      assert false;
    }
    CommitAdds(s, job, scope, k);
    CommitKeepsRows(s, job, scope);
    Grows(s.prices, CommitAll(s, job, scope).prices, k);
    CommitCounts(s, job, scope);
  }

  // ---------- the job ----------

  class PriceStore {
    var prices: Prices
    var meta: map<MetaKey, Meta>
    var aliases: seq<Alias>

    ghost function Table(r: Rollup): State
      reads this
    {
      State(prices, meta, r)
    }

    /** Local preparation: fold the stored rows, then resolve and deduplicate the scope. */
    method Prepare(raw: seq<Ticker>, upper: Ticker -> Ticker) returns (scope: seq<Ticker>)
      modifies this`prices
      ensures prices == FoldAll(old(prices), aliases)
      ensures scope == ScopeOf(raw, upper, AliasMap(aliases))
    {
      var reconciled;
      prices, reconciled := Canonicalize(prices, aliases);
      var names := map[];
      for i := 0 to |aliases|
        invariant names == AliasMap(aliases[..i])
      {
        assert aliases[..i + 1][..i] == aliases[..i];
        names := names[aliases[i].name := aliases[i].canonical];
      }
      assert aliases[..|aliases|] == aliases;
      scope := [];
      for i := 0 to |raw|
        invariant scope == ScopeOf(raw[..i], upper, names)
      {
        assert raw[..i + 1][..i] == raw[..i];
        var t := upper(raw[i]);
        var c := if t in names then names[t] else t;
        if c !in scope {
          scope := scope + [c];
        }
      }
      assert raw[..|raw|] == raw;
    }

    /** The batch insert; the count is of rows really added, and is lost when a value cannot
        be bound, though the rows before it stay. */
    method InsertRows(t: Ticker, interval: string, rows: seq<Row>) returns (added: Option<nat>)
      modifies this`prices
      ensures prices == InsertAll(old(prices), t, interval, Bound(rows))
      ensures added.Some? <==> AllFit(rows)
      ensures added.Some? ==> added.value == |prices| - |old(prices)|
    {
      var count := 0;
      BoundOfFitting(rows);
      for i := 0 to |rows|
        invariant AllFit(rows[..i])
        invariant prices == InsertAll(old(prices), t, interval, rows[..i])
        invariant count == |prices| - |old(prices)|
      {
        assert rows[..i + 1][..i] == rows[..i];
        if rows[i].bar.volume < -0x8000_0000_0000_0000 || rows[i].bar.volume >= 0x8000_0000_0000_0000 {
          BoundStops(rows, i);
          return None;
        }
        var k := PriceKey(t, rows[i].at, interval);
        if k !in prices {
          prices := prices[k := rows[i].bar];
          count := count + 1;
        }
      }
      assert rows[..|rows|] == rows;
      added := Some(count);
    }

    method UpsertMeta(key: MetaKey, lastBar: Option<Instant>, added: nat, error: Option<string>, now: Instant)
      modifies this`meta
      ensures meta == Upserted(old(meta), key, lastBar, added, error, now)
    {
      var success := if error.Some? then None else Some(now);
      if key in meta {
        var row := meta[key];
        var frontier := row.lastBar;
        if lastBar.Some? {
          if frontier.None? || lastBar.value > frontier.value {
            frontier := lastBar;
          }
        }
        meta := meta[key := Meta(if success.Some? then success else row.lastSuccess, frontier, error, added)];
      } else {
        meta := meta[key := Meta(success, lastBar, error, added)];
      }
    }

    method CommitTicker(job: Job, t: Ticker, rollup: Rollup) returns (r: Rollup)
      modifies this`prices, this`meta
      ensures Table(r) == CommitOne(old(Table(rollup)), job, t)
    {
      hide InsertAll, HasDay, Fits, Latest, Upserted;
      var key := MetaKey(job.provider, t, job.interval);
      var answer := if t in job.answers then job.answers[t] else NO_ANSWER;
      r := rollup.(scanned := rollup.scanned + 1, gapsFound := rollup.gapsFound + |answer.gaps|);
      if answer.FetchFailed? {
        r := r.(errors := r.errors[t := answer.error]);
        UpsertMeta(key, None, 0, Some(answer.error), job.now);
        return;
      }
      var interval := if job.interval == "15 mins" then "15min" else job.interval;
      BoundOfFitting(answer.rows);
      var added := InsertRows(t, interval, answer.rows);
      if added.None? {
        r := r.(errors := r.errors[t := OVERFLOW]);
        UpsertMeta(key, None, 0, Some(OVERFLOW), job.now);
        return;
      }
      r := r.(rowsAdded := r.rowsAdded + added.value);
      if exists i :: 0 <= i < |answer.gaps| && !HasDay(prices, t, interval, answer.gaps[i]) {
        r := r.(errors := r.errors[t := UNRESOLVED], unresolved := r.unresolved + {t});
        UpsertMeta(key, Latest(answer.rows), added.value, Some(UNRESOLVED), job.now);
      } else {
        r := r.(succeeded := r.succeeded + 1);
        UpsertMeta(key, Latest(answer.rows), added.value, None, job.now);
      }
    }

    /** The commit loop over the scope, then the closing count and status. */
    method Commit(job: Job, scope: seq<Ticker>) returns (r: Rollup, status: Option<Status>)
      requires Distinct(scope)
      modifies this`prices, this`meta
      ensures Table(r) == CommitAll(old(Table(EMPTY_ROLLUP)), job, scope)
      ensures status == StatusOf(|scope|, |r.errors|)
    {
      r := EMPTY_ROLLUP;
      for i := 0 to |scope|
        invariant Table(r) == CommitAll(old(Table(EMPTY_ROLLUP)), job, scope[..i])
      {
        assert scope[..i + 1][..i] == scope[..i];
        r := CommitTicker(job, scope[i], r);
      }
      assert scope[..|scope|] == scope;
      CommitAccounts(old(Table(EMPTY_ROLLUP)), job, scope);
      var issues := |r.errors|;
      r := r.(succeeded := r.scanned - issues);
      if r.scanned == 0 || issues > r.scanned {
        status := None;
      } else if issues == 0 {
        status := Some(Succeeded);
      } else if issues == r.scanned {
        status := Some(Failed);
      } else {
        status := Some(Partial);
      }
    }

    method Backfill(raw: seq<Ticker>, upper: Ticker -> Ticker, job: Job) returns (outcome: Outcome)
      modifies this`prices, this`meta
      ensures raw == [] ==> outcome == EmptyScope && prices == old(prices) && meta == old(meta)
      ensures raw != [] ==>
                && outcome.Finished?
                && (outcome.status == Succeeded <==> outcome.rollup.errors == map[])
                && (outcome.status == Failed <==>
                      forall c | c in ScopeOf(raw, upper, AliasMap(aliases)) :: c in outcome.rollup.errors)
                && Table(outcome.rollup)
                   == RunOnce(old(prices), old(meta), aliases, job, ScopeOf(raw, upper, AliasMap(aliases)))
    {
      hide CommitAll, FoldAll, ScopeOf, AliasMap, Distinct;
      if raw == [] {
        return EmptyScope;
      }
      ScopeIsResolved(raw, upper, AliasMap(aliases));
      var scope := Prepare(raw, upper);
      CommitAccounts(Table(EMPTY_ROLLUP), job, scope);
      var r, status := Commit(job, scope);
      AllAreErrors(r.errors, scope);
      outcome := if status.None? then InvalidCounts else Finished(r, status.value);
    }
  }

  /** As many errors as tickers are all of them. */
  lemma AllAreErrors(errors: map<Ticker, string>, scope: seq<Ticker>)
    requires Distinct(scope) && forall t :: t in errors ==> t in scope
    ensures |errors| == |scope| <==> forall c | c in scope :: c in errors
    ensures |errors| == 0 <==> errors == map[]
  {
    hide Distinct;
    ghost var all, keys := (set c | c in scope), errors.Keys;
    SizeOfDistinct(scope);
    assert keys <= all && |keys| == |errors|;
    if c :| c in all && c !in keys {
      SubsetSize(keys, all - {c});
    } else {
      assert keys == all;
    }
  }

  lemma {:induction false} SizeOfDistinct(scope: seq<Ticker>)
    requires Distinct(scope)
    ensures |set c | c in scope| == |scope|
  {
    if scope == [] {
    } else {
      var n := |scope| - 1;
      SizeOfDistinct(scope[..n]);
      assert scope == scope[..n] + [scope[n]];
      assert (set c | c in scope) == (set c | c in scope[..n]) + {scope[n]};
    }
  }

  lemma SubsetSize<T>(a: set<T>, b: set<T>)
    requires a <= b
    ensures |a| <= |b|
  {
    assert b == a + (b - a);
  }

  lemma {:induction false} BoundOfFitting(rows: seq<Row>)
    ensures AllFit(rows) <==> Bound(rows) == rows
    ensures AllFit(rows) <==> |Bound(rows)| == |rows|
  {
    if rows != [] && Fits(rows[0].bar) {
      BoundOfFitting(rows[1..]);
      assert AllFit(rows) <==> AllFit(rows[1..]);
    }
  }

  lemma {:induction false} BoundStops(rows: seq<Row>, i: nat)
    requires i < |rows| && AllFit(rows[..i]) && !Fits(rows[i].bar)
    ensures Bound(rows) == rows[..i]
  {
    if i == 0 {
    } else {
      assert rows[1..][..i - 1] == rows[..i][1..];
      BoundStops(rows[1..], i - 1);
      assert rows[..i] == [rows[0]] + rows[1..][..i - 1];
      assert Fits(rows[..i][0].bar);
    }
  }
}
