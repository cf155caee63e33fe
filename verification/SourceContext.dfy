/** Selected passages as byte ranges of a page, and the strict reader of stored ranges. */
module SourceContexts {
  import opened PyValues
  import opened Utf8
  import opened SourceText
  import opened PassageSelection

  datatype Mime = Prose | Structured

  /** A captured page. `intact` says that the capture digest matches; `textDigest` is the
      recorded digest of the text. */
  datatype Page = Page(text: string, mime: Mime, textDigest: string, intact: bool)

  datatype Result<+T> = Ok(value: T) | Err(error: SourceError)
  datatype SourceError = SourceIntegrity | SourceTextEmpty | SourceContextInvalid

  datatype SourceContext = SourceContext(textDigest: string, sourceBytes: nat, ranges: seq<Span>)

  /** `_source_bytes`; the digest function is a parameter. */
  function SourceBytes(sha: Bytes -> string, page: Page): Result<Bytes> {
    if !page.intact || sha(Encode(page.text)) != page.textDigest then Err(SourceIntegrity) else Ok(Encode(page.text))
  }

  /** The capture is intact and the text has the recorded digest. */
  predicate Trusted(sha: Bytes -> string, page: Page) {
    page.intact && sha(Encode(page.text)) == page.textDigest
  }

  // ---------- selection ----------

  /** The bytes a run of characters takes. */
  function BytesOf(text: string, run: Span): Span
    requires run.start <= run.end <= |text|
  {
    Span(ByteLen(text[..run.start]), ByteLen(text[..run.end]))
  }

  ghost predicate Inside(ranges: seq<Span>, len: nat) {
    forall r :: 0 <= r < |ranges| ==> ranges[r].start < ranges[r].end <= len
  }

  /** Character ranges to byte ranges, each measured from the end of the one before. */
  method ByteRanges(text: string, ranges: seq<Span>) returns (out: seq<Span>)
    requires Separated(ranges) && Inside(ranges, |text|)
    ensures |out| == |ranges| && forall r :: 0 <= r < |ranges| ==> out[r] == BytesOf(text, ranges[r])
  {
    out := [];
    var previousChar: nat, previousByte: nat := 0, 0;
    for r := 0 to |ranges|
      invariant |out| == r && forall q :: 0 <= q < r ==> out[q] == BytesOf(text, ranges[q])
      invariant previousChar <= |text| && previousByte == ByteLen(text[..previousChar])
      invariant r < |ranges| ==> previousChar <= ranges[r].start
    {
      hide Encode;
      var run := ranges[r];
      EncodeSlice(text, previousChar, run.start);
      EncodeSlice(text, run.start, run.end);
      var left := previousByte + ByteLen(text[previousChar..run.start]);
      var right := left + ByteLen(text[run.start..run.end]);
      out := out + [Span(left, right)];
      previousChar, previousByte := run.end, right;
    }
  }

  /** `select_source_context`, with relevance as an arbitrary predicate on units. */
  method SelectSourceContext(sha: Bytes -> string, page: Page, relevant: Span -> bool)
    returns (context: Result<SourceContext>)
    ensures !Trusted(sha, page) ==> context == Err(SourceIntegrity)
    ensures Trusted(sha, page) && page.text == "" ==> context == Err(SourceTextEmpty)
    ensures Trusted(sha, page) && page.text != "" ==> context.Ok? && IsSelection(page, relevant, context.value)
  {
    hide Encode, EncodeChar, UnitsFrom;
    var encoded := SourceBytes(sha, page);
    if encoded.Err? {
      return Err(SourceIntegrity);
    }
    WholeText(page.text);
    if |encoded.value| == 0 {
      return Err(SourceTextEmpty);
    }
    var whole := SourceContext(page.textDigest, ByteLen(page.text), [Span(0, ByteLen(page.text))]);
    assert ByteRangesOf(page.text, whole.ranges, [Span(0, |page.text|)]);
    if page.mime == Structured {
      return Ok(whole);
    }
    var units := Units(page.text);
    UnitsTile(page.text, 0, 0);
    var ranges := SelectPassages(units, relevant, |page.text|);
    var bytes := ByteRanges(page.text, ranges);
    context := Ok(SourceContext(page.textDigest, ByteLen(page.text), bytes));
    assert ByteRangesOf(page.text, bytes, ranges);
  }

  lemma WholeText(text: string)
    ensures text == "" <==> ByteLen(text) == 0
    ensures text != "" ==> BytesOf(text, Span(0, |text|)) == Span(0, ByteLen(text))
  {
    assert text[..|text|] == text;
  }

  ghost predicate ByteRangesOf(text: string, bytes: seq<Span>, ranges: seq<Span>) {
    && Separated(ranges) && Inside(ranges, |text|)
    && |bytes| == |ranges| && forall r :: 0 <= r < |ranges| ==> bytes[r] == BytesOf(text, ranges[r])
  }

  /** The character runs to be selected: everything for a structured record or when nothing
      matches, else the kept units. */
  ghost predicate SelectedRuns(page: Page, relevant: Span -> bool, ranges: seq<Span>) {
    var units := UnitsFrom(page.text, 0, 0);
    var hits := Hits(units, relevant);
    if page.mime == Prose && exists k :: 0 <= k < |hits| && hits[k] then Selects(ranges, units, hits)
    else ranges == [Span(0, |page.text|)]
  }

  ghost predicate IsSelection(page: Page, relevant: Span -> bool, c: SourceContext) {
    && c.textDigest == page.textDigest && c.sourceBytes == ByteLen(page.text)
    && exists ranges :: SelectedRuns(page, relevant, ranges) && ByteRangesOf(page.text, c.ranges, ranges)
  }

  // ---------- stored form ----------

  /** The stored value: any object with the four expected keys, or something else. */
  datatype Material = Material(version: Value, textDigest: Value, sourceBytes: Value, ranges: Value) | OtherMaterial

  function RangeValue(run: Span): Value {
    VList([VInt(run.start), VInt(run.end)])
  }

  function ToMaterial(c: SourceContext): Material {
    Material(VInt(1), VStr(c.textDigest), VInt(c.sourceBytes),
             VList(seq(|c.ranges|, r requires 0 <= r < |c.ranges| => RangeValue(c.ranges[r]))))
  }

  /** The text of a byte range decodes and is not blank. */
  predicate Quotable(encoded: Bytes, run: Span) {
    && run.start < run.end <= |encoded|
    && Decode(encoded[run.start..run.end]).Some?
    && Strip(Decode(encoded[run.start..run.end]).value) != ""
  }

  /** A two-element list of integers that is a range inside the page. */
  function ReadRange(v: Value, len: nat): Option<Span> {
    if v.VList? && |v.items| == 2 && v.items[0].VInt? && v.items[1].VInt? && 0 <= v.items[0].n < v.items[1].n <= len
    then Some(Span(v.items[0].n, v.items[1].n)) else None
  }

  ghost predicate AcceptedRanges(values: seq<Value>, encoded: Bytes, ranges: seq<Span>) {
    && |ranges| == |values| && Separated(ranges)
    && forall r :: 0 <= r < |values| ==> ReadRange(values[r], |encoded|) == Some(ranges[r]) && Quotable(encoded,
       ranges[r])
  }

  /** `SourceContext.from_material`: accepted exactly when every part is well typed and the
      ranges are sorted, separated and quotable. */
  method FromMaterial(sha: Bytes -> string, m: Material, page: Page) returns (c: Result<SourceContext>)
    ensures !Trusted(sha, page) ==> c == Err(SourceIntegrity)
    ensures Trusted(sha, page) && c.Err? ==>
              c == Err(SourceContextInvalid) &&
              !exists ranges :: ranges != [] && AcceptsAs(m, page, ranges)
    ensures c.Ok? ==> c.value == SourceContext(page.textDigest, ByteLen(page.text), c.value.ranges)
                      && c.value.ranges != [] && AcceptsAs(m, page, c.value.ranges)
  {
    hide Encode, EncodeChar, Decode, Strip;
    var encoded := SourceBytes(sha, page);
    if encoded.Err? {
      return Err(SourceIntegrity);
    }
    if !m.Material? || m.version != VInt(1) || m.textDigest != VStr(page.textDigest)
       || m.sourceBytes != VInt(|encoded.value|) || !m.ranges.VList? || m.ranges.items == [] {
      return Err(SourceContextInvalid);
    }
    var values := m.ranges.items;
    var previousEnd: int := -1;
    var ranges: seq<Span> := [];
    for r := 0 to |values|
      invariant AcceptedRanges(values[..r], encoded.value, ranges)
      invariant previousEnd == if ranges == [] then -1 else Last(ranges).end
    {
      assert values[..r + 1] == values[..r] + [values[r]];
      var run := ReadRange(values[r], |encoded.value|);
      if run.None? || run.value.start <= previousEnd {
        RefusedAt(values, encoded.value, r, ranges);
        return Err(SourceContextInvalid);
      }
      if !Quotable(encoded.value, run.value) {
        RefusedAt(values, encoded.value, r, ranges);
        return Err(SourceContextInvalid);
      }
      ranges := ranges + [run.value];
      previousEnd := run.value.end;
    }
    assert values[..|values|] == values;
    c := Ok(SourceContext(page.textDigest, |encoded.value|, ranges));
  }

  ghost predicate AcceptsAs(m: Material, page: Page, ranges: seq<Span>) {
    && m.Material? && m.version == VInt(1) && m.textDigest == VStr(page.textDigest)
    && m.sourceBytes == VInt(ByteLen(page.text)) && m.ranges.VList?
    && AcceptedRanges(m.ranges.items, Encode(page.text), ranges)
  }

  lemma AcceptedPrefix(values: seq<Value>, encoded: Bytes, ranges: seq<Span>, r: nat)
    requires AcceptedRanges(values, encoded, ranges) && r <= |values|
    ensures AcceptedRanges(values[..r], encoded, ranges[..r])
  {
    hide ReadRange, Quotable;
  }

  lemma AcceptedUnique(values: seq<Value>, encoded: Bytes, a: seq<Span>, b: seq<Span>)
    requires AcceptedRanges(values, encoded, a) && AcceptedRanges(values, encoded, b)
    ensures a == b
  {
    hide ReadRange, Quotable;
    assert forall r :: 0 <= r < |a| ==> a[r] == b[r];
  }

  /** Once an element is refused, no list of ranges makes the whole value acceptable. */
  lemma RefusedAt(values: seq<Value>, encoded: Bytes, r: nat, ranges: seq<Span>)
    requires r < |values| && AcceptedRanges(values[..r], encoded, ranges)
    requires var run := ReadRange(values[r], |encoded|);
             run.None? || (ranges != [] && run.value.start <= Last(ranges).end) || !Quotable(encoded, run.value)
    ensures !exists all :: AcceptedRanges(values, encoded, all)
  {
    hide ReadRange, Quotable;
    forall all
      ensures !AcceptedRanges(values, encoded, all)
    {
      if AcceptedRanges(values, encoded, all) {
        AcceptedPrefix(values, encoded, all, r);
        AcceptedUnique(values[..r], encoded, ranges, all[..r]);
      }
    }
  }

  // ---------- round trip ----------

  lemma {:induction false} LStripBlank(s: string)
    ensures LStrip(s) == "" <==> forall p :: 0 <= p < |s| ==> IsSpace(s[p])
  {
    if s != "" && IsSpace(s[0]) {
      LStripBlank(s[1..]);
      assert forall p :: 1 <= p < |s| ==> s[p] == s[1..][p - 1];
    }
  }

  /** A text that is not all white space keeps something when stripped. */
  lemma StripKeepsInk(s: string)
    ensures Strip(s) != "" <==> exists p :: 0 <= p < |s| && !IsSpace(s[p])
  {
    hide IsSpace;
    LStripBlank(s);
    var left := LStrip(s);
    if left != "" {
      InkSurvivesRight(left);
    }
  }

  lemma {:induction false} InkSurvivesRight(s: string)
    requires s != "" && !IsSpace(s[0])
    ensures RStrip(s) != ""
  {
    hide IsSpace;
    if IsSpace(s[|s| - 1]) {
      InkSurvivesRight(s[..|s| - 1]);
    }
  }

  /** The passage text of a selected run is the run itself. */
  lemma PassageText(text: string, run: Span)
    requires run.start < run.end <= |text|
    ensures var bytes := BytesOf(text, run);
            && bytes.start < bytes.end <= ByteLen(text)
            && Decode(Encode(text)[bytes.start..bytes.end]) == Some(text[run.start..run.end])
  {
    hide Encode, Decode;
    EncodeSlice(text, run.start, run.end);
    EncodeSlice(text, run.end, |text|);
    PrefixGrows(text, run.start, run.end);
    assert text[..|text|] == text;
    DecodeEncode(text[run.start..run.end]);
  }

  lemma ByteRangesSeparated(text: string, bytes: seq<Span>, ranges: seq<Span>)
    requires ByteRangesOf(text, bytes, ranges)
    ensures Separated(bytes)
  {
    hide Encode;
    forall r | 0 <= r < |bytes|
      ensures bytes[r].start < bytes[r].end
    {
      PrefixGrows(text, ranges[r].start, ranges[r].end);
    }
    forall r | 0 <= r < |bytes| - 1
      ensures bytes[r].end < bytes[r + 1].start
    {
      PrefixGrows(text, ranges[r].end, ranges[r + 1].start);
    }
  }

  ghost predicate AllInked(text: string, ranges: seq<Span>)
    requires Inside(ranges, |text|)
  {
    forall r :: 0 <= r < |ranges| ==> Inked(text, ranges[r].start, ranges[r].end)
  }

  /** The strict reader accepts what was selected exactly when no passage is blank. */
  lemma RoundTripExactly(page: Page, c: SourceContext, ranges: seq<Span>)
    requires c.textDigest == page.textDigest && c.sourceBytes == ByteLen(page.text)
    requires ByteRangesOf(page.text, c.ranges, ranges)
    ensures AcceptsAs(ToMaterial(c), page, c.ranges) <==> AllInked(page.text, ranges)
  {
    hide Encode, Decode, Strip, IsSpace, BytesOf;
    ByteRangesSeparated(page.text, c.ranges, ranges);
    var values := ToMaterial(c).ranges.items;
    forall r | 0 <= r < |ranges|
      ensures ReadRange(values[r], ByteLen(page.text)) == Some(c.ranges[r])
      ensures Quotable(Encode(page.text), c.ranges[r]) <==> Inked(page.text, ranges[r].start, ranges[r].end)
    {
      PassageText(page.text, ranges[r]);
      InkOfRun(page.text, ranges[r]);
      assert values[r] == RangeValue(c.ranges[r]);
    }
  }

  lemma InkOfRun(text: string, run: Span)
    requires run.start <= run.end <= |text|
    ensures Strip(text[run.start..run.end]) != "" <==> Inked(text, run.start, run.end)
  {
    hide IsSpace, Strip;
    var passage := text[run.start..run.end];
    StripKeepsInk(passage);
    if Inked(text, run.start, run.end) {
      var p :| run.start <= p < run.end && !IsSpace(text[p]);
      assert !IsSpace(passage[p - run.start]);
    }
    if p :| 0 <= p < |passage| && !IsSpace(passage[p]) {
      assert !IsSpace(text[run.start + p]);
    }
  }

  /** Page text as extraction leaves it: prose normalised, structured records stripped. */
  ghost predicate ExtractedText(page: Page) {
    page.text != "" && if page.mime == Prose then NormalText(page.text) else Strip(page.text) == page.text
  }

  /** For extracted text every selection survives being stored and read back. */
  lemma ExtractedTextRoundTrips(page: Page, relevant: Span -> bool, c: SourceContext)
    requires ExtractedText(page)
    requires IsSelection(page, relevant, c)
    ensures c.ranges != [] && AcceptsAs(ToMaterial(c), page, c.ranges)
  {
    hide Encode, Decode, IsSpace, BytesOf, UnitsFrom, AcceptedRanges, Kept, NormalText;
    var ranges :| SelectedRuns(page, relevant, ranges) && ByteRangesOf(page.text, c.ranges, ranges);
    SelectionIsInked(page, relevant, ranges);
    RoundTripExactly(page, c, ranges);
  }

  lemma SelectionIsInked(page: Page, relevant: Span -> bool, ranges: seq<Span>)
    requires ExtractedText(page)
    requires SelectedRuns(page, relevant, ranges) && Inside(ranges, |page.text|)
    ensures ranges != [] && AllInked(page.text, ranges)
  {
    hide IsSpace, UnitsFrom, Kept, LStrip, RStrip, Selects, NormalText;
    var hits := Hits(UnitsFrom(page.text, 0, 0), relevant);
    if page.mime == Prose && exists k :: 0 <= k < |hits| && hits[k] {
      SelectedRunsAreInked(page.text, hits, ranges);
    } else {
      ExtractedTextIsInked(page);
    }
  }

  lemma ExtractedTextIsInked(page: Page)
    requires ExtractedText(page)
    ensures Inked(page.text, 0, |page.text|)
  {
    hide IsSpace, LStrip, RStrip;
    assert !IsSpace(page.text[0]);
  }

  lemma SelectedRunsAreInked(text: string, hits: seq<bool>, ranges: seq<Span>)
    requires NormalText(text) && |hits| == |UnitsFrom(text, 0, 0)| && hits != []
    requires Selects(ranges, UnitsFrom(text, 0, 0), hits) && Inside(ranges, |text|)
    ensures ranges != [] && AllInked(text, ranges)
  {
    hide IsSpace, UnitsFrom, Kept;
    var units := UnitsFrom(text, 0, 0);
    UnitsTile(text, 0, 0);
    UnitsAreInked(text, 0, 0);
    forall r | 0 <= r < |ranges|
      ensures Inked(text, ranges[r].start, ranges[r].end)
    {
      var k :| 0 <= k < |units| && ranges[r].start == units[k].start && units[k].end <= ranges[r].end;
      assert units[k] in units;
      var p :| units[k].start <= p < units[k].end && !IsSpace(text[p]);
    }
    assert In(ranges, units[0].start) by { FirstUnitKept(hits); }
  }

  lemma FirstUnitKept(hits: seq<bool>)
    ensures Kept(hits, 0)
  {
  }

  // ---------- what an accepted context can say ----------

  /** Whatever the strict reader accepts quotes the page: each range is the bytes of a run of
      the page's characters, and its passage is that run. */
  lemma AcceptedQuotesPage(m: Material, page: Page, ranges: seq<Span>, r: nat) returns (i: nat, j: nat)
    requires AcceptsAs(m, page, ranges) && r < |ranges|
    ensures i < j <= |page.text| && ranges[r] == BytesOf(page.text, Span(i, j))
    ensures Decode(Encode(page.text)[ranges[r].start..ranges[r].end]) == Some(page.text[i..j])
  {
    hide Encode, Decode, Strip;
    i, j := DecodedSliceIsText(page.text, ranges[r].start, ranges[r].end);
  }

  /** The context that selects these runs of the page's characters. */
  function ContextOf(page: Page, runs: seq<Span>): SourceContext
    requires forall r :: 0 <= r < |runs| ==> runs[r].start <= runs[r].end <= |page.text|
  {
    SourceContext(page.textDigest, ByteLen(page.text),
                  seq(|runs|, r requires 0 <= r < |runs| => BytesOf(page.text, runs[r])))
  }

  /** A stored value is some runs of the page's characters: sorted, separated, none blank, one at least. */
  ghost predicate StoresRuns(m: Material, page: Page, runs: seq<Span>, ranges: seq<Span>) {
    && runs != [] && Separated(runs) && Inside(runs, |page.text|) && AllInked(page.text, runs)
    && m == ToMaterial(ContextOf(page, runs)) && ranges == ContextOf(page, runs).ranges
  }

  /** The strict reader accepts exactly the values that a context of such runs is stored as. */
  lemma AcceptedExactly(m: Material, page: Page, ranges: seq<Span>)
    requires ranges != []
    ensures AcceptsAs(m, page, ranges) <==>
              exists runs :: StoresRuns(m, page, runs, ranges)
  {
    hide Encode, Decode, Strip, IsSpace, BytesOf, StoresRuns, AcceptsAs;
    if AcceptsAs(m, page, ranges) {
      var runs := AcceptedRuns(m, page, ranges);
    }
    if runs :| StoresRuns(m, page, runs, ranges) {
      StoredIsAccepted(m, page, runs, ranges);
    }
  }

  lemma StoredIsAccepted(m: Material, page: Page, runs: seq<Span>, ranges: seq<Span>)
    requires StoresRuns(m, page, runs, ranges)
    ensures AcceptsAs(m, page, ranges)
  {
    hide Encode, Decode, Strip, IsSpace, BytesOf, AcceptsAs;
    RoundTripExactly(page, ContextOf(page, runs), runs);
  }

  lemma AcceptedRuns(m: Material, page: Page, ranges: seq<Span>) returns (runs: seq<Span>)
    requires ranges != [] && AcceptsAs(m, page, ranges)
    ensures StoresRuns(m, page, runs, ranges)
  {
    hide Encode, Decode, Strip, IsSpace, BytesOf, AcceptsAs, Inked;
    runs := RunsBehind(m, page, ranges, |ranges|);
    assert ranges[..|ranges|] == ranges;
    assert ContextOf(page, runs).ranges == ranges;
    RunsAreSeparated(m, page, ranges, runs);
    AcceptedIsStored(m, page, ranges);
    assert ByteRangesOf(page.text, ranges, runs);
    RoundTripExactly(page, ContextOf(page, runs), runs);
  }

  lemma {:induction false} RunsBehind(m: Material, page: Page, ranges: seq<Span>, n: nat) returns (runs: seq<Span>)
    requires AcceptsAs(m, page, ranges) && n <= |ranges|
    ensures |runs| == n && Inside(runs, |page.text|)
    ensures forall r :: 0 <= r < n ==> ranges[r] == BytesOf(page.text, runs[r])
  {
    hide Encode, BytesOf, AcceptsAs;
    if n == 0 {
      runs := [];
    } else {
      runs := RunsBehind(m, page, ranges, n - 1);
      var i, j := AcceptedQuotesPage(m, page, ranges, n - 1);
      runs := runs + [Span(i, j)];
    }
  }

  lemma RunsAreSeparated(m: Material, page: Page, ranges: seq<Span>, runs: seq<Span>)
    requires AcceptsAs(m, page, ranges) && |runs| == |ranges| && Inside(runs, |page.text|)
    requires forall r :: 0 <= r < |runs| ==> ranges[r] == BytesOf(page.text, runs[r])
    ensures Separated(runs)
  {
    hide Encode, ReadRange, Quotable;
    forall r | 0 <= r < |runs| - 1 ensures runs[r].end < runs[r + 1].start {
      assert ranges[r].end < ranges[r + 1].start;
      if runs[r + 1].start < runs[r].end {
        PrefixGrows(page.text, runs[r + 1].start, runs[r].end);
      }
    }
  }

  lemma AcceptedIsStored(m: Material, page: Page, ranges: seq<Span>)
    requires AcceptsAs(m, page, ranges)
    ensures m == ToMaterial(SourceContext(page.textDigest, ByteLen(page.text), ranges))
  {
    hide Encode, Quotable;
    var values := m.ranges.items;
    var stored := ToMaterial(SourceContext(page.textDigest, ByteLen(page.text), ranges)).ranges.items;
    forall r | 0 <= r < |values| ensures values[r] == stored[r] {
      var v := values[r];
      assert v.items == [v.items[0], v.items[1]];
    }
    assert values == stored;
  }

  /** `SourceContext.contains`. */
  predicate Contains(ranges: seq<Span>, start: nat, end: nat) {
    exists r :: 0 <= r < |ranges| && ranges[r].start <= start < end <= ranges[r].end
  }

  /** A citation is inside a context exactly when every one of its bytes was supplied. */
  lemma ContainsIsCoverage(ranges: seq<Span>, start: nat, end: nat)
    requires Separated(ranges) && start < end
    ensures Contains(ranges, start, end) <==> forall p: nat :: start <= p < end ==> In(ranges, p)
  {
    if forall p: nat :: start <= p < end ==> In(ranges, p) {
      assert In(ranges, start);
      var r :| 0 <= r < |ranges| && ranges[r].start <= start < ranges[r].end;
      if ranges[r].end < end {
        assert In(ranges, ranges[r].end);
        var q :| 0 <= q < |ranges| && ranges[q].start <= ranges[r].end < ranges[q].end;
        if q < r { SeparatedOrder(ranges, q, r); } else if r < q { SeparatedOrder(ranges, r, q); }
      }
    }
  }
}
