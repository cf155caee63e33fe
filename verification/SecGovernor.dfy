/** Spacing of SEC request starts through one shared instant. Times are in seconds. */
module SecGovernor {
  import opened PyValues

  const INTERVAL := 0.2
  const MICROSECOND := 0.000_001
  const MAX_LEAD := 30.0

  /** The guaranteed distance between two starts. */
  const SPACING := INTERVAL - MICROSECOND

  function Ceiling(x: real): int { -((-x).Floor) }

  /** `round`: to the nearest integer, a half to the even one. */
  function Rounded(x: real): (n: int)
    ensures x - 0.5 <= n as real <= x + 0.5
  {
    var below := x.Floor;
    var rest := x - below as real;
    if rest < 0.5 || (rest == 0.5 && below % 2 == 0) then below else below + 1
  }

  /** The stored form of an instant: rounded up to a microsecond. None when it has no date. */
  function FormatInstant(value: real): Option<real> {
    var safe := Ceiling(value * 1_000_000.0) as real / 1_000_000.0;
    if safe < END_OF_CALENDAR then Some(safe) else None
  }

  /** One call: the clock as read before waiting and as read after. */
  datatype Call = Call(now: real, started: real)

  datatype Outcome = Started(waitMs: int) | Unavailable

  /** What the state file holds: nothing, or one instant. */
  type State = Option<real>

  function Wait(state: State, now: real): real {
    if state.Some? then MaxReal(0.0, state.value + INTERVAL - now) else 0.0
  }

  /** The checks made before the file is touched. */
  predicate MayWrite(state: State, c: Call) {
    && 0.0 <= c.now < END_OF_CALENDAR
    && (state.Some? ==> state.value - c.now <= MAX_LEAD)
    && c.started + MICROSECOND >= c.now + Wait(state, c.now)
  }

  datatype StepResult = StepResult(state: State, outcome: Outcome)

  /** The file is emptied before the new instant is formatted. */
  function Step(state: State, c: Call): StepResult {
    if !MayWrite(state, c) then StepResult(state, Unavailable)
    else match FormatInstant(c.started)
      case None => StepResult(None, Unavailable)
      case Some(stored) => StepResult(Some(stored), Started(Rounded(Wait(state, c.now) * 1000.0)))
  }

  class SecRequestGovernor {
    var state: State

    constructor ()
      ensures state == None
    {
      state := None;
    }

    method ReserveRequestStart(c: Call) returns (outcome: Outcome)
      modifies this
      ensures StepResult(state, outcome) == Step(old(state), c)
    {
      var previous := state;
      if c.now < 0.0 || c.now >= END_OF_CALENDAR {
        return Unavailable;
      }
      if previous.Some? && previous.value - c.now > MAX_LEAD {
        return Unavailable;
      }
      var wait := if previous.Some? then MaxReal(0.0, previous.value + INTERVAL - c.now) else 0.0;
      if c.started + MICROSECOND < c.now + wait {
        return Unavailable;
      }
      state := None;
      var stored := FormatInstant(c.started);
      if stored.None? {
        return Unavailable;
      }
      state := stored;
      outcome := Started(Rounded(wait * 1000.0));
    }
  }

  function Run(calls: seq<Call>): State {
    if calls == [] then None else Step(Run(calls[..|calls| - 1]), calls[|calls| - 1]).state
  }

  /** The instants at which requests were let through. */
  function Starts(calls: seq<Call>): seq<real> {
    if calls == [] then []
    else
      var init, last := calls[..|calls| - 1], calls[|calls| - 1];
      Starts(init) + (if Step(Run(init), last).outcome.Started? then [last.started] else [])
  }

  lemma RoundsUp(value: real)
    ensures FormatInstant(value).Some? ==> value <= FormatInstant(value).value < value + MICROSECOND
    ensures FormatInstant(value).None? ==> value + MICROSECOND > END_OF_CALENDAR
  {
    var n := Ceiling(value * 1_000_000.0);
    assert n as real >= value * 1_000_000.0 > n as real - 1.0;
  }

  /** Whatever the clock reads, the next start is far enough from the stored instant. */
  lemma NextStartIsSpaced(state: State, c: Call)
    requires state.Some? && Step(state, c).outcome.Started?
    ensures c.started >= state.value + SPACING
  {
  }

  /** A call empties the file exactly when it passes the checks and reads an instant past the
      end of the calendar; every other refusal leaves the file alone. */
  lemma WipesExactly(state: State, c: Call)
    ensures Step(state, c).outcome.Unavailable? ==>
              Step(state, c).state == if MayWrite(state, c) then None else state
    ensures Step(state, c).outcome.Unavailable? && MayWrite(state, c) <==>
            MayWrite(state, c) && Ceiling(c.started * 1_000_000.0) as real / 1_000_000.0 >= END_OF_CALENDAR
  {
  }

  /** No call of the run emptied the file. */
  ghost predicate NeverWiped(calls: seq<Call>) {
    forall n :: 0 <= n < |calls| ==> !Wipes(Run(calls[..n]), calls[n])
  }

  predicate Wipes(state: State, c: Call) {
    MayWrite(state, c) && FormatInstant(c.started).None?
  }

  /** The file holds the last start, rounded up. */
  ghost predicate Remembers(state: State, starts: seq<real>) {
    starts != [] ==> state.Some? && starts[|starts| - 1] <= state.value
  }

  ghost predicate Spaced(starts: seq<real>) {
    forall i :: 0 <= i < |starts| - 1 ==> starts[i + 1] - starts[i] >= SPACING
  }

  lemma NextStartKeepsDistance(state: State, starts: seq<real>, c: Call)
    requires Spaced(starts) && Remembers(state, starts) && !Wipes(state, c)
    ensures var more := starts + (if Step(state, c).outcome.Started? then [c.started] else []);
            Spaced(more) && Remembers(Step(state, c).state, more)
  {
    hide FormatInstant;
    if Step(state, c).outcome.Started? {
      RoundsUp(c.started);
      if starts != [] { NextStartIsSpaced(state, c); }
    } else {
      assert starts + [] == starts;
    }
  }

  /** Under any clock: as long as no call empties the file, consecutive starts keep their distance. */
  lemma {:induction false} StartsAreSpaced(calls: seq<Call>)
    requires NeverWiped(calls)
    ensures Spaced(Starts(calls)) && Remembers(Run(calls), Starts(calls))
  {
    hide Step, Wipes, Spaced, Remembers;
    if calls != [] {
      var init, last := calls[..|calls| - 1], calls[|calls| - 1];
      assert forall n :: 0 <= n < |init| ==> init[..n] == calls[..n] && init[n] == calls[n];
      StartsAreSpaced(init);
      assert !Wipes(Run(calls[..|init|]), calls[|init|]);
      NextStartKeepsDistance(Run(init), Starts(init), last);
    } else {
      NoStarts();
    }
  }

  lemma NoStarts()
    ensures Spaced([]) && Remembers(None, [])
  {
  }

  lemma {:induction false} SpacedFar(starts: seq<real>, i: nat, j: nat)
    requires Spaced(starts) && i <= j < |starts|
    ensures starts[j] - starts[i] >= (j - i) as real * SPACING
    decreases j
  {
    if i >= j {
    } else {
      SpacedFar(starts, i, j - 1);
      assert (j - i) as real == (j - 1 - i) as real + 1.0;
      assert (j - i) as real * SPACING == (j - 1 - i) as real * SPACING + SPACING;
      assert starts[j - 1 + 1] - starts[j - 1] >= SPACING;
    }
  }

  /** An interval of length T holds at most T / SPACING + 1 starts. */
  lemma RateIsBounded(calls: seq<Call>, i: nat, j: nat, from: real, length: real)
    requires NeverWiped(calls) && i <= j < |Starts(calls)|
    requires from <= Starts(calls)[i] && Starts(calls)[j] <= from + length
    ensures (j - i + 1) as real <= length / SPACING + 1.0
  {
    StartsAreSpaced(calls);
    SpacedFar(Starts(calls), i, j);
    var n := (j - i) as real;
    assert n * SPACING <= length;
    assert n == n * SPACING / SPACING;
  }

  /** Wiped or not: an instant in the file is the last start, rounded up, and every start has
      a stored form. */
  lemma {:induction false} FileIsLastStart(calls: seq<Call>)
    ensures Run(calls).Some? ==> Starts(calls) != [] && Remembers(Run(calls), Starts(calls))
    ensures forall i :: 0 <= i < |Starts(calls)| ==>
              Starts(calls)[i] >= -MICROSECOND && FormatInstant(Starts(calls)[i]).Some?
  {
    if calls == [] {
    } else {
      FileIsLastStart(calls[..|calls| - 1]);
      RoundsUp(calls[|calls| - 1].started);
    }
  }

  // ---------- the exact law ----------

  /** v is the first whole microsecond not before x. */
  predicate FirstMicrosecond(x: real, v: real) {
    x <= v < x + 0.000_001 && v * 1_000_000.0 == (v * 1_000_000.0).Floor as real
  }

  /** The instant, rounded up, still has a date. */
  ghost predicate HasDate(x: real) {
    exists v :: FirstMicrosecond(x, v) && v < 253_402_300_800.0
  }

  /** n is the integer nearest to x; of two equally near the even one. */
  predicate Nearest(x: real, n: int) {
    n as real - 0.5 <= x <= n as real + 0.5 && (x == n as real - 0.5 || x == n as real + 0.5 ==> n % 2 == 0)
  }

  lemma RoundedIsNearest(x: real)
    ensures Nearest(x, Rounded(x))
  {
  }

  lemma OneFirstMicrosecond(x: real, v: real, w: real)
    requires FirstMicrosecond(x, v) && FirstMicrosecond(x, w)
    ensures v == w
  {
    var n, m := (v * 1_000_000.0).Floor, (w * 1_000_000.0).Floor;
    assert (n - m) as real == (v - w) * 1_000_000.0;
    assert -1.0 < (n - m) as real < 1.0;
  }

  lemma FormatMeans(x: real)
    ensures match FormatInstant(x)
            case Some(v) => FirstMicrosecond(x, v) && HasDate(x)
            case None => !HasDate(x)
  {
    var n := Ceiling(x * 1_000_000.0);
    var v := n as real / 1_000_000.0;
    CeilingOf(x);
    assert v * 1_000_000.0 == n as real;
    assert FirstMicrosecond(x, v);
    if w :| FirstMicrosecond(x, w) && w < 253_402_300_800.0 {
      OneFirstMicrosecond(x, v, w);
    }
  }

  lemma CeilingOf(x: real)
    ensures var v := Ceiling(x * 1_000_000.0) as real / 1_000_000.0; x <= v < x + 0.000_001
  {
    var n := Ceiling(x * 1_000_000.0);
    assert n as real >= x * 1_000_000.0 > n as real - 1.0;
  }

  /** The last start the file has not lost since. */
  function LastKept(calls: seq<Call>): Option<real> {
    if calls == [] then None
    else
      var init, last := calls[..|calls| - 1], calls[|calls| - 1];
      if Step(Run(init), last).outcome.Started? then Some(last.started)
      else if Wipes(Run(init), last) then None
      else LastKept(init)
  }

  lemma {:induction false} FileHoldsLastKept(calls: seq<Call>)
    ensures match LastKept(calls)
            case None => Run(calls) == None
            case Some(start) => Run(calls).Some? && FirstMicrosecond(start, Run(calls).value)
  {
    hide FormatInstant, FirstMicrosecond, HasDate, Rounded;
    if calls == [] {
    } else {
      FileHoldsLastKept(calls[..|calls| - 1]);
      FormatMeans(calls[|calls| - 1].started);
    }
  }

  /** The call may start: its clock reads a date, at most 30 seconds before the last kept start, and
      after the wait it reads no earlier, a microsecond aside, than it did before and than 0.2 seconds
      past that start. */
  predicate MayStart(kept: Option<real>, v: real, c: Call) {
    && 0.0 <= c.now < 253_402_300_800.0 && c.started + 0.000_001 >= c.now
    && (kept.Some? ==> v - c.now <= 30.0 && c.started + 0.000_001 >= v + 0.2)
  }

  /** Every call of every run, told from the starts before it: when it is let through, the wait it
      reports in milliseconds, and when it empties the file. */
  lemma CallLaw(calls: seq<Call>, c: Call) returns (v: real)
    ensures var kept := LastKept(calls);
            && (kept.Some? ==> FirstMicrosecond(kept.value, v))
            && (Step(Run(calls), c).outcome.Started? <==> MayStart(kept, v, c) && HasDate(c.started))
            && (Step(Run(calls), c).outcome.Started? ==>
                  Nearest(if kept.Some? && v + 0.2 > c.now then (v + 0.2 - c.now) * 1000.0 else 0.0,
                          Step(Run(calls), c).outcome.waitMs))
            && (Wipes(Run(calls), c) <==> MayStart(kept, v, c) && !HasDate(c.started))
  {
    hide FormatInstant, FirstMicrosecond, HasDate, Rounded, Nearest, Run, LastKept;
    FileHoldsLastKept(calls);
    FormatMeans(c.started);
    v := Run(calls).GetOr(0.0);
    RoundedIsNearest(Wait(Run(calls), c.now) * 1000.0);
  }

  /** In any run that has started something, the next start can come too early exactly when
      the file is empty. */
  lemma TooEarlyExactly(calls: seq<Call>)
    requires Starts(calls) != []
    ensures var last := Starts(calls)[|Starts(calls)| - 1];
            (exists c :: Step(Run(calls), c).outcome.Started? && c.started < last + SPACING) <==> Run(calls).None?
  {
    hide FormatInstant;
    var last := Starts(calls)[|Starts(calls)| - 1];
    FileIsLastStart(calls);
    if Run(calls).None? {
      assert Step(None, Call(0.0, last)).outcome.Started?;
    } else {
      forall c | Step(Run(calls), c).outcome.Started? ensures c.started >= last + SPACING {
        NextStartIsSpaced(Run(calls), c);
      }
    }
  }

  /** For instance: a clock that jumps past the end of the calendar while waiting empties the
      file, and two starts then come at the same instant. */
  lemma ClockJumpLosesSpacing()
    ensures var calls := [Call(0.0, 0.0), Call(1.0, END_OF_CALENDAR), Call(0.0, 0.0)];
            Starts(calls) == [0.0, 0.0]
  {
    var calls := [Call(0.0, 0.0), Call(1.0, END_OF_CALENDAR), Call(0.0, 0.0)];
    assert calls[..2] == [Call(0.0, 0.0), Call(1.0, END_OF_CALENDAR)];
    assert calls[..2][..1] == [Call(0.0, 0.0)];
    assert [Call(0.0, 0.0)][..0] == [];
    assert Ceiling(0.0) == 0;
    assert Step(None, Call(0.0, 0.0)) == StepResult(Some(0.0), Started(0));
    assert Ceiling(END_OF_CALENDAR * 1_000_000.0) == 253_402_300_800_000_000;
    assert Step(Some(0.0), Call(1.0, END_OF_CALENDAR)) == StepResult(None, Unavailable);
    assert Run(calls[..2][..1]) == Some(0.0) && Starts(calls[..2][..1]) == [0.0];
    assert Run(calls[..2]) == None && Starts(calls[..2]) == [0.0];
  }
}
