/** The one-pass selection of relevant passages, against what it selects. */
module PassageSelection {
  import opened SourceText

  /** Units k to keep: the first two, the last two, and everything within two of a match. */
  ghost predicate Kept(hits: seq<bool>, k: nat) {
    k < 2 || k + 2 >= |hits| || NearHit(hits, |hits|, k)
  }

  ghost predicate NearHit(hits: seq<bool>, seen: nat, k: nat)
    requires seen <= |hits|
  {
    exists m :: 0 <= m < seen && hits[m] && k <= m + 2 && m <= k + 2
  }

  /** What is kept once the first `seen` units have been read. */
  ghost predicate KeptSoFar(hits: seq<bool>, seen: nat, k: nat)
    requires seen <= |hits|
  {
    k < 2 || NearHit(hits, seen, k)
  }

  /** Sorted, non-empty and strictly separated. */
  ghost predicate Separated(ranges: seq<Span>) {
    && (forall r :: 0 <= r < |ranges| ==> ranges[r].start < ranges[r].end)
    && (forall r :: 0 <= r < |ranges| - 1 ==> ranges[r].end < ranges[r + 1].start)
  }

  ghost predicate In(ranges: seq<Span>, p: nat) {
    exists r :: 0 <= r < |ranges| && ranges[r].start <= p < ranges[r].end
  }

  function Max(a: nat, b: nat): nat { if a < b then b else a }

  function Last(ranges: seq<Span>): Span
    requires ranges != []
  {
    ranges[|ranges| - 1]
  }

  /** Add a passage: join it to the last one when they touch. */
  function Include(ranges: seq<Span>, start: nat, end: nat): seq<Span> {
    if ranges != [] && start <= Last(ranges).end
    then ranges[..|ranges| - 1] + [Span(Last(ranges).start, Max(end, Last(ranges).end))]
    else ranges + [Span(start, end)]
  }

  /** The page positions of a run of units. */
  function Place(units: seq<Span>, run: Span): Span
    requires run.start < run.end <= |units|
  {
    Span(units[run.start].start, units[run.end - 1].end)
  }

  ghost predicate Places(units: seq<Span>, runs: seq<Span>, ranges: seq<Span>) {
    && |ranges| == |runs|
    && forall r :: 0 <= r < |runs| ==> runs[r].start < runs[r].end <= |units| && ranges[r] == Place(units, runs[r])
  }

  lemma {:induction false} SeparatedOrder(ranges: seq<Span>, a: nat, b: nat)
    requires Separated(ranges) && a < b < |ranges|
    ensures ranges[a].end < ranges[b].start
    decreases b
  {
    if a + 1 < b {
      SeparatedOrder(ranges, a, b - 1);
    }
  }

  lemma {:induction false} TilesOrder(units: seq<Span>, from: nat, len: nat, a: nat, b: nat)
    requires Tiles(units, from, len) && a < b < |units|
    ensures units[a].end <= units[b].start
    decreases b
  {
    if a + 1 < b {
      TilesOrder(units, from, len, a, b - 1);
    }
  }

  lemma PlacesAppend(units: seq<Span>, runs: seq<Span>, ranges: seq<Span>, run: Span)
    requires Places(units, runs, ranges) && run.start < run.end <= |units|
    ensures Places(units, runs + [run], ranges + [Place(units, run)])
  {
    hide Place;
  }

  lemma PlacesInit(units: seq<Span>, runs: seq<Span>, ranges: seq<Span>)
    requires Places(units, runs, ranges) && runs != []
    ensures Places(units, runs[..|runs| - 1], ranges[..|ranges| - 1])
    ensures Last(runs).start < Last(runs).end <= |units| && Last(ranges) == Place(units, Last(runs))
  {
    hide Place;
  }

  /** Joining runs of units and joining their positions is the same thing. */
  lemma IncludePlaces(units: seq<Span>, from: nat, len: nat, runs: seq<Span>, ranges: seq<Span>, a: nat, b: nat)
    requires Tiles(units, from, len) && Places(units, runs, ranges) && a < b <= |units|
    ensures Places(units, Include(runs, a, b), Include(ranges, units[a].start, units[b - 1].end))
  {
    hide Tiles, Places;
    assert |runs| == |ranges| by { PlacesSize(units, runs, ranges); }
    if runs == [] {
      PlacesAppend(units, runs, ranges, Span(a, b));
    } else {
      PlacesInit(units, runs, ranges);
      var run := Last(runs);
      StartBeforeEnd(units, from, len, a, run.end - 1);
      if run.end < a {
        PlacesAppend(units, runs, ranges, Span(a, b));
      } else {
        var joined := Span(run.start, Max(b, run.end));
        if b < run.end {
          EndOrder(units, from, len, b - 1, run.end - 1);
        } else {
          EndOrder(units, from, len, run.end - 1, b - 1);
        }
        PlacesAppend(units, runs[..|runs| - 1], ranges[..|ranges| - 1], joined);
      }
    }
  }

  lemma PlacesSize(units: seq<Span>, runs: seq<Span>, ranges: seq<Span>)
    requires Places(units, runs, ranges)
    ensures |runs| == |ranges|
  {
  }

  lemma EndOrder(units: seq<Span>, from: nat, len: nat, a: nat, b: nat)
    requires Tiles(units, from, len) && a <= b < |units|
    ensures units[a].end <= units[b].end && units[a].start <= units[b].start
  {
    if a < b {
      TilesOrder(units, from, len, a, b);
    }
  }

  /** A unit touches the end of another exactly when it is not more than one further on. */
  lemma StartBeforeEnd(units: seq<Span>, from: nat, len: nat, a: nat, b: nat)
    requires Tiles(units, from, len) && a < |units| && b < |units|
    ensures units[a].start <= units[b].end <==> a <= b + 1
  {
    if a <= b {
      EndOrder(units, from, len, a, b);
    } else if a > b + 1 {
      TilesOrder(units, from, len, b + 1, a);
    }
  }

  /** Adding a run that does not reach behind the last one keeps the runs separated and adds
      exactly its units. */
  lemma IncludeAdds(runs: seq<Span>, a: nat, b: nat)
    requires Separated(runs) && a < b
    requires runs != [] ==> Last(runs).end <= b && (a <= Last(runs).end ==> Last(runs).start <= a)
    ensures Separated(Include(runs, a, b))
    ensures Include(runs, a, b) != [] && Last(Include(runs, a, b)).end == b
    ensures forall k: nat :: In(Include(runs, a, b), k) <==> In(runs, k) || a <= k < b
  {
    var out := Include(runs, a, b);
    forall k: nat
      ensures In(out, k) <==> In(runs, k) || a <= k < b
    {
      if In(runs, k) {
        var r :| 0 <= r < |runs| && runs[r].start <= k < runs[r].end;
        assert out[r].start <= k < out[r].end;
      } else if a <= k < b {
        assert Last(out).start <= k < Last(out).end;
      }
      if In(out, k) && !(a <= k < b) {
        var r :| 0 <= r < |out| && out[r].start <= k < out[r].end;
        assert runs[r].start <= k < runs[r].end;
      }
    }
  }

  /** The runs read so far: separated, inside what was read, and exactly the kept units. */
  ghost predicate Reads(runs: seq<Span>, hits: seq<bool>, seen: nat)
    requires seen <= |hits|
  {
    && Separated(runs)
    && (runs != [] ==> Last(runs).end <= seen)
    && forall k: nat :: In(runs, k) <==> k < seen && KeptSoFar(hits, seen, k)
  }

  /** The last run begins at a kept unit behind one that is not kept. */
  lemma LastRunBegins(runs: seq<Span>, hits: seq<bool>, seen: nat)
    requires seen <= |hits| && Reads(runs, hits, seen) && runs != [] && Last(runs).start > 0
    ensures Last(runs).start < seen && KeptSoFar(hits, seen, Last(runs).start)
    ensures !KeptSoFar(hits, seen, Last(runs).start - 1)
  {
    var lo := Last(runs).start;
    assert In(runs, lo);
    if r :| 0 <= r < |runs| - 1 && runs[r].start <= lo - 1 < runs[r].end {
      SeparatedOrder(runs, r, |runs| - 1);
    }
    assert In(runs, lo - 1) <==> lo - 1 < seen && KeptSoFar(hits, seen, lo - 1);
  }

  /** Whatever starts the last run is near the front or a match, so reaching two units back
      never reaches behind it. */
  lemma NotBehindLastRun(runs: seq<Span>, hits: seq<bool>, seen: nat, a: nat)
    requires seen <= |hits| && Reads(runs, hits, seen)
    requires seen <= a + 2
    ensures runs != [] ==> a <= Last(runs).end ==> Last(runs).start <= a
  {
    hide Reads;
    if runs != [] && Last(runs).start > 0 {
      LastRunBegins(runs, hits, seen);
    }
  }

  function Back(i: nat): nat { if i < 2 then 0 else i - 2 }

  /** One step of the reader, on runs of units. */
  function ReadUnit(runs: seq<Span>, hit: bool, follow: nat, i: nat): seq<Span> {
    if hit then Include(runs, Back(i), i + 1)
    else if follow > 0 || i < 2 then Include(runs, i, i + 1)
    else runs
  }

  function Follow(hits: seq<bool>, seen: nat): nat
    requires seen <= |hits|
  {
    if seen >= 1 && hits[seen - 1] then 2 else if seen >= 2 && hits[seen - 2] then 1 else 0
  }

  lemma ReadUnitReads(runs: seq<Span>, hits: seq<bool>, i: nat)
    requires i < |hits| && Reads(runs, hits, i)
    ensures Reads(ReadUnit(runs, hits[i], Follow(hits, i), i), hits, i + 1)
  {
    hide Include, Separated, In;
    var out := ReadUnit(runs, hits[i], Follow(hits, i), i);
    NotBehindLastRun(runs, hits, i, Back(i));
    NotBehindLastRun(runs, hits, i, i);
    if hits[i] {
      IncludeAdds(runs, Back(i), i + 1);
    } else if Follow(hits, i) > 0 || i < 2 {
      IncludeAdds(runs, i, i + 1);
    }
    forall k: nat
      ensures In(out, k) <==> k < i + 1 && KeptSoFar(hits, i + 1, k)
    {
      SeenOneMore(hits, i, k);
    }
  }

  lemma SeenOneMore(hits: seq<bool>, i: nat, k: nat)
    requires i < |hits|
    ensures NearHit(hits, i + 1, k) <==> NearHit(hits, i, k) || (hits[i] && k <= i + 2 && i <= k + 2)
    ensures NearHit(hits, i, i) <==> Follow(hits, i) > 0
  {
    if NearHit(hits, i + 1, k) {
      var m :| 0 <= m < i + 1 && hits[m] && k <= m + 2 && m <= k + 2;
    }
  }

  /** Including the last two units at the end completes the selection. */
  lemma TailCompletes(runs: seq<Span>, hits: seq<bool>)
    requires hits != [] && Reads(runs, hits, |hits|)
    ensures var out := Include(runs, Back(|hits|), |hits|);
            Separated(out) && forall k: nat :: In(out, k) <==> k < |hits| && Kept(hits, k)
  {
    NotBehindLastRun(runs, hits, |hits|, Back(|hits|));
    IncludeAdds(runs, Back(|hits|), |hits|);
  }

  /** A passage that begins with a whole unit. */
  ghost predicate BeginsWithUnit(range: Span, units: seq<Span>) {
    exists k :: 0 <= k < |units| && range.start == units[k].start && units[k].end <= range.end
  }

  /** The passages are separated, each begins with a whole unit, and a position of unit k is
      in one exactly when k is kept. */
  ghost predicate Selects(ranges: seq<Span>, units: seq<Span>, hits: seq<bool>)
    requires |hits| == |units|
  {
    && Separated(ranges)
    && (forall r :: 0 <= r < |ranges| ==> BeginsWithUnit(ranges[r], units))
    && forall k, p: nat :: 0 <= k < |units| && units[k].start <= p < units[k].end ==> (In(ranges, p) <==> Kept(hits, k))
  }

  lemma PlacedSelection(units: seq<Span>, len: nat, hits: seq<bool>, runs: seq<Span>, ranges: seq<Span>)
    requires Tiles(units, 0, len) && |hits| == |units| && Places(units, runs, ranges)
    requires Separated(runs) && forall k: nat :: In(runs, k) <==> k < |hits| && Kept(hits, k)
    ensures Selects(ranges, units, hits)
    ensures forall r :: 0 <= r < |ranges| ==> ranges[r].end <= len
  {
    forall r | 0 <= r < |ranges|
      ensures ranges[r].start < ranges[r].end <= len && BeginsWithUnit(ranges[r], units)
    {
      if runs[r].start < runs[r].end - 1 {
        TilesOrder(units, 0, len, runs[r].start, runs[r].end - 1);
      }
      assert ranges[r].start == units[runs[r].start].start && units[runs[r].start].end <= ranges[r].end;
    }
    forall r | 0 <= r < |ranges| - 1
      ensures ranges[r].end < ranges[r + 1].start
    {
      StartBeforeEnd(units, 0, len, runs[r + 1].start, runs[r].end - 1);
    }
    forall k, p: nat | 0 <= k < |units| && units[k].start <= p < units[k].end
      ensures In(ranges, p) <==> Kept(hits, k)
    {
      PositionInRun(units, len, runs, ranges, k, p);
    }
  }

  lemma PositionInRun(units: seq<Span>, len: nat, runs: seq<Span>, ranges: seq<Span>, k: nat, p: nat)
    requires Tiles(units, 0, len) && Places(units, runs, ranges)
    requires k < |units| && units[k].start <= p < units[k].end
    ensures In(ranges, p) <==> In(runs, k)
  {
    forall r | 0 <= r < |runs|
      ensures ranges[r].start <= p < ranges[r].end <==> runs[r].start <= k < runs[r].end
    {
      var run := runs[r];
      if k < run.start {
        TilesOrder(units, 0, len, k, run.start);
      } else if run.start < k {
        TilesOrder(units, 0, len, run.start, k);
      }
      if k < run.end - 1 {
        TilesOrder(units, 0, len, k, run.end - 1);
      } else if run.end - 1 < k {
        TilesOrder(units, 0, len, run.end - 1, k);
      }
    }
    if In(ranges, p) {
      var r :| 0 <= r < |ranges| && ranges[r].start <= p < ranges[r].end;
      assert runs[r].start <= k < runs[r].end;
    }
    if In(runs, k) {
      var r :| 0 <= r < |runs| && runs[r].start <= k < runs[r].end;
      assert ranges[r].start <= p < ranges[r].end;
    }
  }

  lemma NothingRead(units: seq<Span>, hits: seq<bool>)
    ensures Reads([], hits, 0) && Places(units, [], [])
  {
    assert forall k: nat :: !In([], k);
  }

  /** The loop over the units: `history` holds the last two, `follow` how many more to keep. */
  method SelectPassages(units: seq<Span>, relevant: Span -> bool, len: nat) returns (ranges: seq<Span>)
    requires Tiles(units, 0, len)
    ensures var hits := Hits(units, relevant);
            if exists k :: 0 <= k < |hits| && hits[k]
            then Selects(ranges, units, hits) && forall r :: 0 <= r < |ranges| ==> ranges[r].end <= len
            else ranges == [Span(0, len)]
  {
    hide Reads, Places, In, Tiles, Include, Selects, Separated, Kept;
    var history: seq<Span>, follow: nat, matched := [], 0, false;
    ranges := [];
    ghost var hits := Hits(units, relevant);
    ghost var runs: seq<Span> := [];
    NothingRead(units, hits);
    for i := 0 to |units|
      invariant history == units[Back(i)..i]
      invariant follow == Follow(hits, i)
      invariant matched <==> exists k :: 0 <= k < i && hits[k]
      invariant Places(units, runs, ranges) && Reads(runs, hits, i)
    {
      var unit := units[i];
      ReadUnitReads(runs, hits, i);
      if relevant(unit) {
        IncludePlaces(units, 0, len, runs, ranges, Back(i), i + 1);
        ranges := Include(ranges, if history != [] then history[0].start else unit.start, unit.end);
        follow, matched := 2, true;
      } else if follow > 0 {
        IncludePlaces(units, 0, len, runs, ranges, i, i + 1);
        ranges := Include(ranges, unit.start, unit.end);
        follow := follow - 1;
      } else if i < 2 {
        IncludePlaces(units, 0, len, runs, ranges, i, i + 1);
        ranges := Include(ranges, unit.start, unit.end);
      }
      runs := ReadUnit(runs, hits[i], Follow(hits, i), i);
      history := history + [unit];
      if |history| > 2 {
        history := history[1..];
      }
    }
    if !matched {
      ranges := [Span(0, len)];
      return;
    }
    if history != [] {
      TailCompletes(runs, hits);
      IncludePlaces(units, 0, len, runs, ranges, Back(|units|), |units|);
      ranges := Include(ranges, history[0].start, history[|history| - 1].end);
      runs := Include(runs, Back(|units|), |units|);
    }
    PlacedSelection(units, len, hits, runs, ranges);
  }

  function Hits(units: seq<Span>, relevant: Span -> bool): (hits: seq<bool>)
    ensures |hits| == |units| && forall k :: 0 <= k < |hits| ==> hits[k] == relevant(units[k])
  {
    seq(|units|, k requires 0 <= k < |units| => relevant(units[k]))
  }

  // ---------- the selection is determined by what it keeps ----------

  lemma InTail(a: seq<Span>, p: nat)
    requires Separated(a) && a != []
    ensures In(a[1..], p) <==> In(a, p) && a[0].end <= p
    ensures In(a, p) ==> a[0].start <= p
    ensures a[0].start <= p < a[0].end ==> In(a, p)
    ensures !In(a, a[0].end)
  {
    if In(a, p) {
      var r :| 0 <= r < |a| && a[r].start <= p < a[r].end;
      if r > 0 {
        SeparatedOrder(a, 0, r);
        assert a[1..][r - 1] == a[r];
      }
    }
    if In(a[1..], p) {
      var r :| 0 <= r < |a| - 1 && a[1..][r].start <= p < a[1..][r].end;
      assert a[r + 1] == a[1..][r];
      SeparatedOrder(a, 0, r + 1);
    }
    if In(a, a[0].end) {
      var r :| 0 <= r < |a| && a[r].start <= a[0].end < a[r].end;
      if r > 0 { SeparatedOrder(a, 0, r); }
    }
  }

  lemma {:induction false} SeparatedUnique(a: seq<Span>, b: seq<Span>)
    requires Separated(a) && Separated(b)
    requires forall p: nat :: In(a, p) <==> In(b, p)
    ensures a == b
  {
    assert a != [] ==> In(a, a[0].start);
    assert b != [] ==> In(b, b[0].start);
    if a != [] && b != [] {
      InTail(a, a[0].start); InTail(b, a[0].start);
      InTail(a, b[0].start); InTail(b, b[0].start);
      InTail(a, b[0].end); InTail(b, a[0].end);
      assert a[0] == b[0];
      forall p: nat
        ensures In(a[1..], p) <==> In(b[1..], p)
      {
        InTail(a, p); InTail(b, p);
      }
      SeparatedUnique(a[1..], b[1..]);
      assert a == [a[0]] + a[1..] && b == [b[0]] + b[1..];
    }
  }

  lemma {:induction false} UnitAt(units: seq<Span>, from: nat, len: nat, p: nat) returns (k: nat)
    requires Tiles(units, from, len) && from <= p < len
    ensures k < |units| && units[k].start <= p < units[k].end
  {
    if p < units[0].end {
      k := 0;
    } else {
      var j := UnitAt(units[1..], units[0].end, len, p);
      k := j + 1;
    }
  }

  /** There is exactly one list of passages that keeps what is to be kept. */
  lemma SelectionIsDetermined(units: seq<Span>, len: nat, hits: seq<bool>, a: seq<Span>, b: seq<Span>)
    requires Tiles(units, 0, len) && |hits| == |units|
    requires Selects(a, units, hits) && Selects(b, units, hits)
    requires forall r :: 0 <= r < |a| ==> a[r].end <= len
    requires forall r :: 0 <= r < |b| ==> b[r].end <= len
    ensures a == b
  {
    forall p: nat
      ensures In(a, p) <==> In(b, p)
    {
      if p < len {
        var k := UnitAt(units, 0, len, p);
        assert In(a, p) <==> Kept(hits, k);
      }
    }
    SeparatedUnique(a, b);
  }
}
