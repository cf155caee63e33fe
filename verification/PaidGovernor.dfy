/** Admission of paid requests: a daily budget, a rolling minute and a provider deferral. */
module PaidGovernor {
  import opened PyValues

  type Key = string

  datatype Policy = Policy(dailyRequestLimit: int, requestsPerMinute: int)

  datatype Refusal =
    | CredentialMissing | GovernorUnavailable | ClockRegressed | BudgetExhausted | RateLimitedNow

  datatype Outcome = Admitted | Deferred | Ignored | Refused(why: Refusal)

  datatype Account = Account(day: int, attempts: nat, lastSeen: real, blockedUntil: real)
  datatype Start = Start(key: Key, at: real)
  datatype Ledger = Ledger(accounts: map<Key, Account>, starts: seq<Start>)

  const EMPTY_LEDGER := Ledger(map[], [])
  const MINUTE := 60.0

  /** The UTC date of a clock reading, as a day number. */
  function Day(now: real): int {
    (now / 86400.0).Floor
  }

  predicate ReadableClock(now: real) {
    now >= 0.0
  }

  function StartsOf(starts: seq<Start>, key: Key): seq<real> {
    if starts == [] then []
    else
      var init := StartsOf(starts[..|starts| - 1], key);
      var last := starts[|starts| - 1];
      if last.key == key then init + [last.at] else init
  }

  function Above(times: seq<real>, t: real): seq<real> {
    if times == [] then []
    else
      var init := Above(times[..|times| - 1], t);
      var last := times[|times| - 1];
      if last > t then init + [last] else init
  }

  /** Delete the rows of one key that are not after t. */
  function Prune(starts: seq<Start>, key: Key, t: real): seq<Start> {
    if starts == [] then []
    else
      var init := Prune(starts[..|starts| - 1], key, t);
      var last := starts[|starts| - 1];
      if last.key == key && last.at <= t then init else init + [last]
  }

  function AttemptsOn(l: Ledger, key: Key, day: int): nat {
    if key in l.accounts && l.accounts[key].day == day then l.accounts[key].attempts else 0
  }

  /** Why a reservation is refused, in the order of the checks. */
  function RefusalOf(l: Ledger, key: Key, policy: Policy, now: real): Option<Refusal> {
    if key == "" then Some(CredentialMissing)
    else if !ReadableClock(now) || now >= END_OF_CALENDAR then Some(GovernorUnavailable)
    else if key in l.accounts && now < l.accounts[key].lastSeen then Some(ClockRegressed)
    else if AttemptsOn(l, key, Day(now)) >= policy.dailyRequestLimit then Some(BudgetExhausted)
    else if key in l.accounts && l.accounts[key].blockedUntil > now then Some(RateLimitedNow)
    else if |Above(StartsOf(l.starts, key), now - MINUTE)| >= policy.requestsPerMinute then Some(RateLimitedNow)
    else None
  }

  datatype StepResult = StepResult(ledger: Ledger, outcome: Outcome)

  function ReserveStep(l: Ledger, key: Key, policy: Policy, now: real): StepResult {
    match RefusalOf(l, key, policy, now)
    case Some(why) => StepResult(l, Refused(why))
    case None =>
      var blocked := if key in l.accounts then l.accounts[key].blockedUntil else 0.0;
      StepResult(
        Ledger(l.accounts[key := Account(Day(now), AttemptsOn(l, key, Day(now)) + 1, now, blocked)],
               Prune(l.starts, key, now - MINUTE) + [Start(key, now)]),
        Admitted)
  }

  function DeferStep(l: Ledger, key: Key, seconds: real, now: real): StepResult {
    if key == "" then StepResult(l, Refused(CredentialMissing))
    else if seconds < 0.0 then StepResult(l, Ignored)
    else if !ReadableClock(now) then StepResult(l, Refused(GovernorUnavailable))
    else if key in l.accounts then
      var a := l.accounts[key];
      StepResult(l.(accounts := l.accounts[key := a.(blockedUntil := MaxReal(a.blockedUntil, now + seconds))]),
          Deferred)
    else StepResult(l, Deferred)
  }

  // ---------- the governor ----------

  class FinancialDatasetsGovernor {
    var accounts: map<Key, Account>
    var starts: seq<Start>

    ghost function Tables(): Ledger
      reads this
    {
      Ledger(accounts, starts)
    }

    constructor ()
      ensures Tables() == EMPTY_LEDGER
    {
      accounts, starts := map[], [];
    }

    method CountStarts(key: Key, after: real) returns (count: nat)
      ensures count == |Above(StartsOf(starts, key), after)|
    {
      count := 0;
      for i := 0 to |starts|
        invariant count == |Above(StartsOf(starts[..i], key), after)|
      {
        assert starts[..i + 1][..i] == starts[..i];
        if starts[i].key == key && starts[i].at > after {
          count := count + 1;
        }
        assert starts[i].key == key ==>
            (StartsOf(starts[..i], key) + [starts[i].at])[..|StartsOf(starts[..i], key)|] == StartsOf(starts[..i], key);
      }
      assert starts[..|starts|] == starts;
    }

    method DeleteOldStarts(key: Key, upTo: real)
      modifies this`starts
      ensures starts == Prune(old(starts), key, upTo)
    {
      var kept: seq<Start> := [];
      for i := 0 to |starts|
        invariant starts == old(starts) && kept == Prune(starts[..i], key, upTo)
      {
        assert starts[..i + 1][..i] == starts[..i];
        if !(starts[i].key == key && starts[i].at <= upTo) {
          kept := kept + [starts[i]];
        }
      }
      assert starts[..|starts|] == starts;
      starts := kept;
    }

    method Reserve(key: Key, policy: Policy, now: real) returns (outcome: Outcome)
      modifies this
      ensures StepResult(Tables(), outcome) == ReserveStep(old(Tables()), key, policy, now)
    {
      hide Day, Prune, Above, StartsOf;
      if key == "" {
        return Refused(CredentialMissing);
      }
      if now < 0.0 || now >= END_OF_CALENDAR {
        return Refused(GovernorUnavailable);
      }
      var day := Day(now);
      var used, blockedUntil := 0, 0.0;
      if key in accounts {
        var row := accounts[key];
        if now < row.lastSeen {
          return Refused(ClockRegressed);
        }
        used := if row.day == day then row.attempts else 0;
        blockedUntil := row.blockedUntil;
      }
      if used >= policy.dailyRequestLimit {
        return Refused(BudgetExhausted);
      }
      if blockedUntil > now {
        return Refused(RateLimitedNow);
      }
      var count := CountStarts(key, now - MINUTE);
      if count >= policy.requestsPerMinute {
        return Refused(RateLimitedNow);
      }
      if key in accounts {
        accounts := accounts[key := accounts[key].(day := day, attempts := used + 1, lastSeen := now)];
      } else {
        accounts := accounts[key := Account(day, 1, now, 0.0)];
      }
      DeleteOldStarts(key, now - MINUTE);
      starts := starts + [Start(key, now)];
      outcome := Admitted;
    }

    method Defer(key: Key, seconds: real, now: real) returns (outcome: Outcome)
      modifies this`accounts
      ensures StepResult(Tables(), outcome) == DeferStep(old(Tables()), key, seconds, now)
    {
      if key == "" {
        return Refused(CredentialMissing);
      }
      if seconds < 0.0 {
        return Ignored;
      }
      if now < 0.0 {
        return Refused(GovernorUnavailable);
      }
      if key in accounts {
        var row := accounts[key];
        accounts := accounts[key := row.(blockedUntil := MaxReal(row.blockedUntil, now + seconds))];
      }
      outcome := Deferred;
    }
  }

  // ---------- runs ----------

  datatype Op = OpReserve(key: Key, policy: Policy, now: real) | OpDefer(key: Key, seconds: real, now: real)

  function Step(l: Ledger, op: Op): StepResult {
    match op
    case OpReserve(key, policy, now) => ReserveStep(l, key, policy, now)
    case OpDefer(key, seconds, now) => DeferStep(l, key, seconds, now)
  }

  function Run(ops: seq<Op>): Ledger {
    if ops == [] then EMPTY_LEDGER else Step(Run(ops[..|ops| - 1]), ops[|ops| - 1]).ledger
  }

  predicate Admits(l: Ledger, op: Op, key: Key) {
    op.OpReserve? && op.key == key && Step(l, op).outcome == Admitted
  }

  /** The clock readings at which a run admitted requests for a key. */
  function Admissions(ops: seq<Op>, key: Key): seq<real> {
    if ops == [] then []
    else
      var init, last := ops[..|ops| - 1], ops[|ops| - 1];
      Admissions(init, key) + (if Admits(Run(init), last, key) then [last.now] else [])
  }

  function OnDay(times: seq<real>, day: int): nat {
    if times == [] then 0
    else OnDay(times[..|times| - 1], day) + (if Day(times[|times| - 1]) == day then 1 else 0)
  }

  /** How many of the times fall into the 60 seconds that end at t. */
  function InWindow(times: seq<real>, t: real): nat {
    if times == [] then 0
    else
      var last := times[|times| - 1];
      InWindow(times[..|times| - 1], t) + (if t - 60.0 < last <= t then 1 else 0)
  }

  // ---------- tables of one key ----------

  lemma {:induction false} PruneStarts(starts: seq<Start>, key: Key, t: real, other: Key)
    ensures StartsOf(Prune(starts, key, t), other) ==
            if other == key then Above(StartsOf(starts, key), t) else StartsOf(starts, other)
  {
    if starts == [] {
    } else {
      var init, last := starts[..|starts| - 1], starts[|starts| - 1];
      PruneStarts(init, key, t, other);
      var p := Prune(init, key, t);
      assert (p + [last])[..|p|] == p;
      var s := StartsOf(init, key);
      assert (s + [last.at])[..|s|] == s;
    }
  }

  lemma AppendStart(starts: seq<Start>, s: Start, key: Key)
    ensures StartsOf(starts + [s], key) == StartsOf(starts, key) + (if s.key == key then [s.at] else [])
  {
    assert (starts + [s])[..|starts|] == starts;
  }

  ghost predicate Ascending(times: seq<real>) {
    forall i, j :: 0 <= i < j < |times| ==> times[i] <= times[j]
  }

  lemma {:induction false} AboveIsWindow(times: seq<real>, t: real)
    requires forall i :: 0 <= i < |times| ==> times[i] <= t
    ensures InWindow(times, t) == |Above(times, t - MINUTE)|
  {
    if times == [] {
    } else {
      AboveIsWindow(times[..|times| - 1], t);
    }
  }

  lemma {:induction false} WindowMoves(times: seq<real>, t: real, u: real)
    requires forall i :: 0 <= i < |times| ==> times[i] <= t
    requires t <= u
    ensures InWindow(times, u) <= InWindow(times, t)
  {
    if times == [] {
    } else {
      WindowMoves(times[..|times| - 1], t, u);
    }
  }

  lemma {:induction false} AboveAgain(times: seq<real>, s: real, t: real)
    requires s <= t
    ensures Above(Above(times, s), t) == Above(times, t)
  {
    if times == [] {
    } else {
      var init := times[..|times| - 1];
      AboveAgain(init, s, t);
      var a := Above(init, s);
      assert (a + [times[|times| - 1]])[..|a|] == a;
    }
  }

  lemma AppendTime(times: seq<real>, x: real, day: int, t: real)
    ensures OnDay(times + [x], day) == OnDay(times, day) + (if Day(x) == day then 1 else 0)
    ensures InWindow(times + [x], t) == InWindow(times, t) + (if t - MINUTE < x <= t then 1 else 0)
  {
    assert (times + [x])[..|times|] == times;
  }

  lemma {:induction false} NoneOnLaterDay(times: seq<real>, day: int)
    requires forall i :: 0 <= i < |times| ==> Day(times[i]) < day
    ensures OnDay(times, day) == 0
  {
    if times == [] {
    } else {
      NoneOnLaterDay(times[..|times| - 1], day);
    }
  }

  lemma DayMonotone(a: real, b: real)
    requires a <= b
    ensures Day(a) <= Day(b)
  {
    assert a / 86400.0 <= b / 86400.0;
  }

  // ---------- the ledger invariant ----------

  /** What the two tables say about a key, given every admission so far. */
  ghost predicate Records(l: Ledger, key: Key, times: seq<real>) {
    && Ascending(times)
    && (times == [] ==> key !in l.accounts && StartsOf(l.starts, key) == [])
    && (times != [] ==>
          var last := times[|times| - 1];
          && key in l.accounts && l.accounts[key].lastSeen == last && l.accounts[key].day == Day(last)
          && l.accounts[key].attempts == OnDay(times, Day(last))
          && StartsOf(l.starts, key) == Above(times, last - MINUTE))
  }

  /** The attempts that count today are today's admissions. */
  lemma AttemptsCountToday(l: Ledger, key: Key, times: seq<real>, now: real)
    requires Records(l, key, times)
    requires times != [] ==> times[|times| - 1] <= now
    ensures AttemptsOn(l, key, Day(now)) == OnDay(times, Day(now))
  {
    hide Day, Above, StartsOf;
    if times != [] {
      var last := times[|times| - 1];
      DayMonotone(last, now);
      if Day(last) < Day(now) {
        forall i | 0 <= i < |times| ensures Day(times[i]) < Day(now) {
          DayMonotone(times[i], last);
        }
        NoneOnLaterDay(times, Day(now));
      }
    }
  }

  /** The rows that count for the last minute are the admissions of the last minute. */
  lemma StartsCountMinute(l: Ledger, key: Key, times: seq<real>, now: real)
    requires Records(l, key, times)
    requires times != [] ==> times[|times| - 1] <= now
    ensures Above(StartsOf(l.starts, key), now - MINUTE) == Above(times, now - MINUTE)
  {
    hide Day, OnDay, StartsOf;
    if times != [] {
      AboveAgain(times, times[|times| - 1] - MINUTE, now - MINUTE);
    }
  }

  lemma ReserveRecords(l: Ledger, key: Key, times: seq<real>, policy: Policy, now: real)
    requires Records(l, key, times)
    requires RefusalOf(l, key, policy, now).None?
    ensures Records(ReserveStep(l, key, policy, now).ledger, key, times + [now])
    ensures forall i :: 0 <= i < |times| ==> times[i] <= now
    ensures |Above(times, now - MINUTE)| < policy.requestsPerMinute
    ensures OnDay(times, Day(now)) < policy.dailyRequestLimit
  {
    hide Day, OnDay, Above, StartsOf, Prune, AttemptsOn;
    assert times != [] ==> times[|times| - 1] <= now;
    AttemptsCountToday(l, key, times, now);
    StartsCountMinute(l, key, times, now);
    AppendCounts(times, now);
    PruneStarts(l.starts, key, now - MINUTE, key);
    AppendStart(Prune(l.starts, key, now - MINUTE), Start(key, now), key);
  }

  lemma AppendCounts(times: seq<real>, x: real)
    ensures Above(times + [x], x - MINUTE) == Above(times, x - MINUTE) + [x]
    ensures OnDay(times + [x], Day(x)) == OnDay(times, Day(x)) + 1
  {
    assert (times + [x])[..|times|] == times;
  }

  /** An operation on another key leaves a key's rows alone. */
  lemma OtherKeyUntouched(l: Ledger, op: Op, key: Key)
    requires op.key != key
    ensures var l' := Step(l, op).ledger;
            && (key in l'.accounts <==> key in l.accounts)
            && (key in l.accounts ==> l'.accounts[key] == l.accounts[key])
            && StartsOf(l'.starts, key) == StartsOf(l.starts, key)
  {
    if op.OpReserve? {
      PruneStarts(l.starts, op.key, op.now - MINUTE, key);
      AppendStart(Prune(l.starts, op.key, op.now - MINUTE), Start(op.key, op.now), key);
    }
  }

  /** A refusal leaves both tables as they were. */
  lemma RefusalChangesNothing(l: Ledger, op: Op)
    requires Step(l, op).outcome != Admitted && Step(l, op).outcome != Deferred
    ensures Step(l, op).ledger == l
  {
  }

  lemma {:induction false} RunRecords(ops: seq<Op>, key: Key)
    ensures Records(Run(ops), key, Admissions(ops, key))
  {
    if ops == [] {
    } else {
      var init, last := ops[..|ops| - 1], ops[|ops| - 1];
      RunRecords(init, key);
      StepRecords(Run(init), last, key, Admissions(init, key));
    }
  }

  lemma StepRecords(l: Ledger, op: Op, key: Key, times: seq<real>)
    requires Records(l, key, times)
    ensures Records(Step(l, op).ledger, key, times + (if Admits(l, op, key) then [op.now] else []))
  {
    assert times + [] == times;
    if op.key != key {
      OtherKeyUntouched(l, op, key);
    } else if Admits(l, op, key) {
      ReserveRecords(l, key, times, op.policy, op.now);
    }
  }

  // ---------- the promises ----------

  /** Every reservation for the key is made under limits no larger than these. */
  ghost predicate Under(ops: seq<Op>, key: Key, daily: int, perMinute: int) {
    forall i :: 0 <= i < |ops| && ops[i].OpReserve? && ops[i].key == key ==>
      ops[i].policy.dailyRequestLimit <= daily && ops[i].policy.requestsPerMinute <= perMinute
  }

  /** Whatever the clock reads and whatever else happens: each UTC day holds at most the daily
      limit, and each window of a minute at most the rate, although old rows are deleted. */
  lemma {:induction false} LimitsHold(ops: seq<Op>, key: Key, daily: nat, perMinute: nat, day: int, t: real)
    requires Under(ops, key, daily, perMinute)
    ensures OnDay(Admissions(ops, key), day) <= daily
    ensures InWindow(Admissions(ops, key), t) <= perMinute
  {
    hide Day, RefusalOf, Run, ReserveStep, InWindow, OnDay, Records;
    if ops == [] {
      NothingCounts(day, t);
    } else {
      var init, last := ops[..|ops| - 1], ops[|ops| - 1];
      LimitsHold(init, key, daily, perMinute, day, t);
      RunRecords(init, key);
      if Admits(Run(init), last, key) {
        AdmissionKeepsLimits(Run(init), key, Admissions(init, key), last.policy, last.now, daily, perMinute, day, t);
      } else {
        assert Admissions(ops, key) == Admissions(init, key);
      }
    }
  }

  lemma NothingCounts(day: int, t: real)
    ensures OnDay([], day) == 0 && InWindow([], t) == 0
  {
  }

  lemma AdmissionKeepsLimits(l: Ledger, key: Key, times: seq<real>, policy: Policy, now: real,
                             daily: nat, perMinute: nat, day: int, t: real)
    requires Records(l, key, times) && ReserveStep(l, key, policy, now).outcome == Admitted
    requires policy.dailyRequestLimit <= daily && policy.requestsPerMinute <= perMinute
    requires OnDay(times, day) <= daily && InWindow(times, t) <= perMinute
    ensures OnDay(times + [now], day) <= daily
    ensures InWindow(times + [now], t) <= perMinute
  {
    hide Day, RefusalOf, Records, OnDay, InWindow, Above;
    ReserveRecords(l, key, times, policy, now);
    AppendTime(times, now, day, t);
    AboveIsWindow(times, now);
    if t >= now {
      WindowMoves(times, now, t);
    }
  }

  /** The stored attempts are the admissions of the stored day. */
  lemma AttemptsAreAdmissions(ops: seq<Op>, key: Key)
    ensures var times := Admissions(ops, key);
            && (key in Run(ops).accounts <==> times != [])
            && (times != [] ==> var a := Run(ops).accounts[key];
                  a.day == Day(times[|times| - 1]) && a.attempts == OnDay(times, a.day))
  {
    RunRecords(ops, key);
  }

  /** A later deadline never shrinks. */
  lemma {:induction false} DeadlinesStay(ops: seq<Op>, more: seq<Op>, key: Key)
    requires key in Run(ops).accounts
    ensures key in Run(ops + more).accounts
    ensures Run(ops + more).accounts[key].blockedUntil >= Run(ops).accounts[key].blockedUntil
    decreases |more|
  {
    if more == [] {
      assert ops + more == ops;
    } else {
      var all := ops + more;
      var init := more[..|more| - 1];
      assert all[..|all| - 1] == ops + init;
      DeadlinesStay(ops, init, key);
      var op := all[|all| - 1];
      if op.key != key {
        OtherKeyUntouched(Run(ops + init), op, key);
      }
    }
  }

  /** A deferral recorded for a known key holds to the end of every run: nothing is admitted
      for the key before the deadline. */
  lemma DeferralHolds(ops: seq<Op>, key: Key, seconds: real, now: real, more: seq<Op>, policy: Policy, later: real)
    requires key in Run(ops).accounts && key != "" && seconds >= 0.0 && now >= 0.0
    requires later < now + seconds
    ensures ReserveStep(Run(ops + [OpDefer(key, seconds, now)] + more), key, policy, later).outcome != Admitted
  {
    var deferred := ops + [OpDefer(key, seconds, now)];
    assert deferred[..|deferred| - 1] == ops;
    DeadlinesStay(deferred, more, key);
  }

  /** A deferral is recorded exactly when the key already has an account row; for an unknown
      key it is silently lost. */
  lemma DeferralIsRecordedForKnownKeys(l: Ledger, key: Key, seconds: real, now: real)
    requires key != "" && seconds >= 0.0 && now >= 0.0
    ensures var l' := DeferStep(l, key, seconds, now).ledger;
            (key in l'.accounts && l'.accounts[key].blockedUntil >= now + seconds) <==> key in l.accounts
    ensures key !in l.accounts ==> DeferStep(l, key, seconds, now).ledger == l
  {
  }

  // ---------- the exact law ----------

  /** The day number is the number of whole days of 86 400 seconds. */
  lemma DayMeans(now: real)
    ensures Day(now) as real * 86400.0 <= now < (Day(now) + 1) as real * 86400.0
  {
    var q := now / 86400.0;
    assert q * 86400.0 == now;
    assert q.Floor as real <= q < (q.Floor + 1) as real;
  }

  /** A deferral that was recorded: it came after the key's first admission. */
  predicate RecordedDeferral(ops: seq<Op>, i: int, key: Key) {
    && 0 <= i < |ops| && ops[i].OpDefer? && ops[i].key == key && key != ""
    && ops[i].seconds >= 0.0 && ops[i].now >= 0.0 && Admissions(ops[..i], key) != []
  }

  /** Some recorded deferral of the key reaches past t. */
  ghost predicate DeferredPast(ops: seq<Op>, key: Key, t: real) {
    exists i :: RecordedDeferral(ops, i, key) && ops[i].now + ops[i].seconds > t
  }

  lemma DeferredPastLonger(ops: seq<Op>, op: Op, key: Key, t: real)
    ensures DeferredPast(ops + [op], key, t) <==>
              || DeferredPast(ops, key, t)
              || (&& op.OpDefer? && op.key == key && key != "" && op.seconds >= 0.0 && op.now >= 0.0
                  && Admissions(ops, key) != [] && op.now + op.seconds > t)
  {
    hide Admissions;
    var all := ops + [op];
    assert all[..|ops|] == ops;
    forall i | 0 <= i < |ops| ensures RecordedDeferral(all, i, key) <==> RecordedDeferral(ops, i, key) {
      assert all[..i] == ops[..i];
    }
    if DeferredPast(ops, key, t) {
      var i :| RecordedDeferral(ops, i, key) && ops[i].now + ops[i].seconds > t;
      assert RecordedDeferral(all, i, key) && all[i] == ops[i];
    }
    if DeferredPast(all, key, t) {
      var i :| RecordedDeferral(all, i, key) && all[i].now + all[i].seconds > t;
      assert i < |ops| ==> RecordedDeferral(ops, i, key) && ops[i] == all[i];
    }
    assert RecordedDeferral(all, |ops|, key) <==>
           && op.OpDefer? && op.key == key && key != "" && op.seconds >= 0.0 && op.now >= 0.0 && Admissions(ops,
              key) != [];
  }

  /** The stored deadline is past t exactly when a recorded deferral reaches past t. */
  lemma {:induction false} DeadlineIsRecorded(ops: seq<Op>, key: Key, t: real)
    requires t >= 0.0
    ensures key in Run(ops).accounts && Run(ops).accounts[key].blockedUntil > t <==> DeferredPast(ops, key, t)
  {
    hide Day, AttemptsOn, RefusalOf, Prune, DeferredPast, Admissions;
    if ops == [] {
      NothingDeferred(key, t);
    } else {
      var init, op := ops[..|ops| - 1], ops[|ops| - 1];
      assert ops == init + [op];
      DeadlineIsRecorded(init, key, t);
      DeferredPastLonger(init, op, key, t);
      AttemptsAreAdmissions(init, key);
      if op.key != key {
        OtherKeyUntouched(Run(init), op, key);
      }
    }
  }

  lemma NothingDeferred(key: Key, t: real)
    ensures !DeferredPast([], key, t)
  {
  }

  /** Every reservation of every run, told from what was admitted and deferred before it. */
  lemma ReservationLaw(ops: seq<Op>, key: Key, policy: Policy, now: real)
    ensures var outcome, times := ReserveStep(Run(ops), key, policy, now).outcome, Admissions(ops, key);
            if key == "" then outcome == Refused(CredentialMissing)
            else if !(0.0 <= now < 253_402_300_800.0) then outcome == Refused(GovernorUnavailable)
            else if times != [] && now < times[|times| - 1] then outcome == Refused(ClockRegressed)
            else if OnDay(times, Day(now)) >= policy.dailyRequestLimit then outcome == Refused(BudgetExhausted)
            else if DeferredPast(ops, key, now) || InWindow(times, now) >= policy.requestsPerMinute then
              outcome == Refused(RateLimitedNow)
            else outcome == Admitted
  {
    hide Day, AttemptsOn, Above, StartsOf, Prune, OnDay, InWindow, DeferredPast, Run, Admissions;
    var times := Admissions(ops, key);
    RunRecords(ops, key);
    if now >= 0.0 {
      DeadlineIsRecorded(ops, key, now);
    }
    if times == [] || times[|times| - 1] <= now {
      AttemptsCountToday(Run(ops), key, times, now);
      StartsCountMinute(Run(ops), key, times, now);
      AboveIsWindow(times, now);
    }
  }

  predicate LetsThrough(ops: seq<Op>, key: Key, policy: Policy, later: real) {
    ReserveStep(Run(ops), key, policy, later).outcome == Admitted
  }

  /** A deferral is honoured, to the end of every run and under every policy and clock, exactly
      when the key had an account row; otherwise some request gets through while it lasts. */
  lemma DeferralIsHonouredExactly(ops: seq<Op>, key: Key, seconds: real, now: real)
    requires key != "" && seconds > 0.0 && 0.0 <= now < END_OF_CALENDAR
    ensures (forall more, policy, later | later < now + seconds ::
               !LetsThrough(ops + [OpDefer(key, seconds, now)] + more, key, policy, later))
            <==> key in Run(ops).accounts
    ensures (forall more, policy, later | now <= later < now + seconds ::
               !LetsThrough(ops + [OpDefer(key, seconds, now)] + more, key, policy, later))
            <==> key in Run(ops).accounts
  {
    hide ReserveStep, DeferStep;
    var deferred := ops + [OpDefer(key, seconds, now)];
    if key in Run(ops).accounts {
      forall more, policy, later | later < now + seconds
        ensures !LetsThrough(deferred + more, key, policy, later)
      {
        DeferralHolds(ops, key, seconds, now, more, policy, later);
      }
    } else {
      UnknownKeyGetsThrough(ops, key, seconds, now);
      assert deferred + [] == deferred;
      assert LetsThrough(deferred + [], key, Policy(1, 1), now);
    }
  }

  lemma UnknownKeyGetsThrough(ops: seq<Op>, key: Key, seconds: real, now: real)
    requires key != "" && seconds > 0.0 && 0.0 <= now < END_OF_CALENDAR && key !in Run(ops).accounts
    ensures LetsThrough(ops + [OpDefer(key, seconds, now)], key, Policy(1, 1), now)
  {
    hide ReserveStep, Day;
    var deferred := ops + [OpDefer(key, seconds, now)];
    assert deferred[..|ops|] == ops;
    RunRecords(ops, key);
    DeferralIsRecordedForKnownKeys(Run(ops), key, seconds, now);
    NewKeyIsAdmitted(Run(ops), key, now);
  }

  lemma NewKeyIsAdmitted(l: Ledger, key: Key, now: real)
    requires key != "" && 0.0 <= now < END_OF_CALENDAR && key !in l.accounts && StartsOf(l.starts, key) == []
    ensures ReserveStep(l, key, Policy(1, 1), now).outcome == Admitted
  {
    hide Day;
  }

  /** For instance: a deferral of a minute before the first request does not stop that request. */
  lemma LostDeferral(policy: Policy)
    requires policy.dailyRequestLimit > 0 && policy.requestsPerMinute > 0
    ensures Admissions([OpDefer("k", 60.0, 0.0), OpReserve("k", policy, 0.0)], "k") == [0.0]
  {
    var ops := [OpDefer("k", 60.0, 0.0), OpReserve("k", policy, 0.0)];
    assert ops[..1] == [OpDefer("k", 60.0, 0.0)];
    assert ops[..1][..0] == [];
    assert Run(ops[..1]) == EMPTY_LEDGER;
    assert Admissions(ops[..1], "k") == [];
    assert Day(0.0) == 0;
  }
}
