/** Page text: its normal form, and its division into units. */
module SourceText {
  import opened PyValues

  // ---------- normal form ----------

  /** `\r\n` and lone `\r` become `\n`. */
  function UnixBreaks(s: string): string {
    if s == "" then ""
    else if s[0] == '\r' then
      if |s| > 1 && s[1] == '\n' then "\n" + UnixBreaks(s[2..]) else "\n" + UnixBreaks(s[1..])
    else [s[0]] + UnixBreaks(s[1..])
  }

  predicate InlineSpace(c: char) {
    IsSpace(c) && c != '\n'
  }

  /** Every run of white space other than line breaks becomes one space. */
  function SingleSpaces(s: string): string {
    if s == "" then ""
    else if InlineSpace(s[0]) then
      if |s| > 1 && InlineSpace(s[1]) then SingleSpaces(s[1..]) else " " + SingleSpaces(s[1..])
    else [s[0]] + SingleSpaces(s[1..])
  }

  /** What is left after the spaces and line breaks at the front. */
  function SkipBlank(s: string): (r: string)
    ensures |r| <= |s|
    ensures r == s[|s| - |r|..]
    ensures r != "" ==> r[0] != ' ' && r[0] != '\n'
  {
    if s != "" && (s[0] == ' ' || s[0] == '\n') then SkipBlank(s[1..]) else s
  }

  function SkipSpaces(s: string): (r: string)
    ensures |r| <= |s|
    ensures r != "" ==> r[0] != ' '
  {
    if s != "" && s[0] == ' ' then SkipSpaces(s[1..]) else s
  }

  /** A run of spaces and line breaks that holds a line break becomes that line break. */
  function SingleBreaks(s: string): string
    decreases |s|
  {
    if s == "" then ""
    else
      var rest := SkipSpaces(s);
      if rest != "" && rest[0] == '\n' then "\n" + SingleBreaks(SkipBlank(rest[1..]))
      else [s[0]] + SingleBreaks(s[1..])
  }

  /** `_normalize_text`. */
  function NormalizeText(s: string): string {
    Strip(SingleBreaks(SingleSpaces(UnixBreaks(s))))
  }

  /** White space is single spaces and single line breaks, never two in a row and never at an end. */
  ghost predicate NormalText(s: string) {
    && (s != "" ==> !IsSpace(s[0]) && !IsSpace(s[|s| - 1]))
    && Spaced(s)
  }

  ghost predicate Spaced(s: string) {
    && (forall i :: 0 <= i < |s| && IsSpace(s[i]) ==> s[i] == ' ' || s[i] == '\n')
    && (forall i :: 0 <= i < |s| - 1 && IsSpace(s[i]) ==> !IsSpace(s[i + 1]))
  }

  lemma {:induction false} SingleSpacesLeaves(s: string)
    ensures var r := SingleSpaces(s);
            && (s == "" <==> r == "")
            && (forall i :: 0 <= i < |r| && IsSpace(r[i]) ==> r[i] == ' ' || r[i] == '\n')
            && (forall i :: 0 <= i < |r| - 1 && r[i] == ' ' ==> r[i + 1] != ' ')
            && (s != "" ==> (r[0] == ' ' <==> InlineSpace(s[0])))
  {
    hide IsSpace;
    BlankChars();
    if s == "" {
    } else {
      SingleSpacesLeaves(s[1..]);
    }
  }

  lemma BlankChars()
    ensures IsSpace(' ') && IsSpace('\n')
  {
  }

  /** Single spaces only, as the second pass leaves them. */
  ghost predicate SingleSpaced(s: string) {
    && (forall i :: 0 <= i < |s| && IsSpace(s[i]) ==> s[i] == ' ' || s[i] == '\n')
    && (forall i :: 0 <= i < |s| - 1 && s[i] == ' ' ==> s[i + 1] != ' ')
  }

  lemma PrependSpaced(c: char, r: string)
    requires Spaced(r)
    requires IsSpace(c) ==> (c == ' ' || c == '\n') && (r == "" || !IsSpace(r[0]))
    ensures Spaced([c] + r)
  {
    hide IsSpace;
  }

  lemma SuffixSingleSpaced(s: string, k: nat)
    requires SingleSpaced(s) && k <= |s|
    ensures SingleSpaced(s[k..])
  {
    hide IsSpace;
  }

  lemma {:induction false} SingleBreaksLeaves(s: string)
    requires SingleSpaced(s)
    ensures Spaced(SingleBreaks(s))
    ensures s != "" && !IsSpace(s[0]) ==> SingleBreaks(s) != "" && SingleBreaks(s)[0] == s[0]
    decreases |s|
  {
    hide IsSpace, Spaced;
    BlankChars();
    if s == "" {
      EmptyIsSpaced();
    } else {
      var rest := SkipSpaces(s);
      SkipSpacesIsSuffix(s);
      if rest != "" && rest[0] == '\n' {
        var tail := SkipBlank(rest[1..]);
        assert tail == s[|s| - |tail|..];
        SuffixSingleSpaced(s, |s| - |tail|);
        SingleBreaksLeaves(tail);
        PrependSpaced('\n', SingleBreaks(tail));
      } else {
        SuffixSingleSpaced(s, 1);
        SingleBreaksLeaves(s[1..]);
        if s[0] == ' ' && |s| > 1 {
          assert SkipSpaces(s) == SkipSpaces(s[1..]) == s[1..];
        }
        PrependSpaced(s[0], SingleBreaks(s[1..]));
      }
    }
  }

  lemma EmptyIsSpaced()
    ensures Spaced("")
  {
  }

  lemma {:induction false} SkipSpacesIsSuffix(s: string)
    ensures SkipSpaces(s) == s[|s| - |SkipSpaces(s)|..]
  {
    if s != "" && s[0] == ' ' {
      SkipSpacesIsSuffix(s[1..]);
    }
  }

  /** The normaliser always produces normal text. */
  lemma NormalizeGivesNormalText(s: string)
    ensures NormalText(NormalizeText(s))
  {
    var spaced := SingleSpaces(UnixBreaks(s));
    SingleSpacesLeaves(UnixBreaks(s));
    SingleBreaksLeaves(spaced);
    StripKeepsSpaced(SingleBreaks(spaced));
  }

  lemma {:induction false} LStripIsSuffix(s: string)
    ensures LStrip(s) == s[|s| - |LStrip(s)|..]
  {
    if s != "" && IsSpace(s[0]) {
      LStripIsSuffix(s[1..]);
    }
  }

  lemma {:induction false} RStripIsPrefix(s: string)
    ensures RStrip(s) == s[..|RStrip(s)|]
  {
    if s != "" && IsSpace(s[|s| - 1]) {
      RStripIsPrefix(s[..|s| - 1]);
    }
  }

  lemma StripKeepsSpaced(s: string)
    requires Spaced(s)
    ensures Spaced(Strip(s))
  {
    LStripIsSuffix(s);
    RStripIsPrefix(LStrip(s));
  }

  lemma {:induction false} NormalPassesKeep(s: string)
    requires Spaced(s)
    ensures UnixBreaks(s) == s && SingleSpaces(s) == s
  {
    hide IsSpace;
    BlankChars();
    if s == "" {
    } else {
      assert IsSpace('\r') by { CarriageReturnIsSpace(); }
      NormalPassesKeep(s[1..]);
      assert s == [s[0]] + s[1..];
    }
  }

  lemma CarriageReturnIsSpace()
    ensures IsSpace('\r')
  {
  }

  lemma {:induction false} SingleBreaksKeeps(s: string)
    requires Spaced(s)
    ensures SingleBreaks(s) == s
    decreases |s|
  {
    hide IsSpace;
    BlankChars();
    if s == "" {
    } else {
      SingleBreaksKeeps(s[1..]);
      assert s == [s[0]] + s[1..];
    }
  }

  /** Normal text is exactly the text the normaliser leaves alone. */
  lemma NormalizeFixesNormalText(s: string)
    ensures NormalText(s) <==> NormalizeText(s) == s
  {
    if NormalText(s) {
      NormalPassesKeep(s);
      SingleBreaksKeeps(s);
    } else {
      NormalizeGivesNormalText(s);
    }
  }

  // ---------- what normalising keeps ----------

  /** What stands between two visible characters: nothing, white space, or white space with a line
      break in it. */
  datatype Gap = Joined | Blank | Broken
  datatype Glyph = Glyph(gap: Gap, c: char)

  function Wider(gap: Gap, c: char): Gap {
    if c == '\n' || c == '\r' then Broken else if gap == Broken then Broken else Blank
  }

  /** The visible characters of a text, each with the gap before it. */
  function Glyphs(s: string, gap: Gap): seq<Glyph> {
    if s == "" then []
    else if IsSpace(s[0]) then Glyphs(s[1..], Wider(gap, s[0]))
    else [Glyph(gap, s[0])] + Glyphs(s[1..], Joined)
  }

  function Written(glyphs: seq<Glyph>): string {
    if glyphs == [] then ""
    else
      var g := glyphs[0];
      (match g.gap case Joined => [g.c] case Blank => [' ', g.c] case Broken => ['\n', g.c]) + Written(glyphs[1..])
  }

  /** The gap before the first visible character does not count. */
  function Inner(glyphs: seq<Glyph>): seq<Glyph> {
    if glyphs == [] then [] else [Glyph(Joined, glyphs[0].c)] + glyphs[1..]
  }

  lemma {:induction false} UnixBreaksKeeps(s: string, gap: Gap)
    ensures Glyphs(UnixBreaks(s), gap) == Glyphs(s, gap)
    ensures '\r' !in UnixBreaks(s)
    decreases |s|
  {
    hide IsSpace;
    BlankChars();
    CarriageReturnIsSpace();
    if s == "" {
    } else if s[0] == '\r' {
      if |s| > 1 && s[1] == '\n' {
        UnixBreaksKeeps(s[2..], Broken);
        assert s[1..][1..] == s[2..] && s[1..][0] == '\n';
        assert ("\n" + UnixBreaks(s[2..]))[1..] == UnixBreaks(s[2..]);
      } else {
        UnixBreaksKeeps(s[1..], Broken);
        assert ("\n" + UnixBreaks(s[1..]))[1..] == UnixBreaks(s[1..]);
      }
    } else {
      UnixBreaksKeeps(s[1..], if IsSpace(s[0]) then Wider(gap, s[0]) else Joined);
      assert ([s[0]] + UnixBreaks(s[1..]))[1..] == UnixBreaks(s[1..]);
    }
  }

  lemma {:induction false} SingleSpacesKeeps(s: string, gap: Gap)
    requires '\r' !in s
    ensures Glyphs(SingleSpaces(s), gap) == Glyphs(s, gap)
    decreases |s|
  {
    hide IsSpace;
    BlankChars();
    if s == "" {
    } else {
      SingleSpacesKeeps(s[1..], if IsSpace(s[0]) then Wider(gap, s[0]) else Joined);
      if InlineSpace(s[0]) {
        if |s| > 1 && InlineSpace(s[1]) {
          SingleSpacesKeeps(s[1..], gap);
        } else {
          assert (" " + SingleSpaces(s[1..]))[1..] == SingleSpaces(s[1..]);
        }
      } else {
        assert ([s[0]] + SingleSpaces(s[1..]))[1..] == SingleSpaces(s[1..]);
      }
    }
  }

  lemma {:induction false} SkippedBlank(s: string)
    ensures Glyphs(SkipBlank(s), Broken) == Glyphs(s, Broken)
  {
    hide IsSpace;
    BlankChars();
    if s != "" && (s[0] == ' ' || s[0] == '\n') {
      SkippedBlank(s[1..]);
    }
  }

  lemma {:induction false} SkippedSpaces(s: string, gap: Gap)
    requires SkipSpaces(s) != "" && SkipSpaces(s)[0] == '\n'
    ensures Glyphs(SkipSpaces(s)[1..], Broken) == Glyphs(s, gap)
  {
    hide IsSpace;
    BlankChars();
    if s[0] == ' ' {
      SkippedSpaces(s[1..], Wider(gap, ' '));
    }
  }

  lemma {:induction false} SingleBreaksKeepsGlyphs(s: string, gap: Gap)
    ensures Glyphs(SingleBreaks(s), gap) == Glyphs(s, gap)
    decreases |s|
  {
    hide IsSpace, SkipBlank, SkipSpaces;
    BlankChars();
    if s == "" {
    } else {
      var rest := SkipSpaces(s);
      if rest != "" && rest[0] == '\n' {
        var tail := SkipBlank(rest[1..]);
        SkippedSpaces(s, gap);
        SkippedBlank(rest[1..]);
        SingleBreaksKeepsGlyphs(tail, Broken);
        assert ("\n" + SingleBreaks(tail))[1..] == SingleBreaks(tail);
      } else {
        SingleBreaksKeepsGlyphs(s[1..], if IsSpace(s[0]) then Wider(gap, s[0]) else Joined);
        assert ([s[0]] + SingleBreaks(s[1..]))[1..] == SingleBreaks(s[1..]);
      }
    }
  }

  lemma {:induction false} GapBefore(front: string, s: string, a: Gap, b: Gap)
    requires AllSpace(front)
    ensures Inner(Glyphs(front + s, a)) == Inner(Glyphs(s, b))
    decreases |front| + |s|
  {
    hide IsSpace;
    if front != "" {
      assert (front + s)[1..] == front[1..] + s;
      GapBefore(front[1..], s, Wider(a, front[0]), b);
    } else {
      assert front + s == s;
      if s != "" && IsSpace(s[0]) {
        assert "" + s[1..] == s[1..];
        GapBefore("", s[1..], Wider(a, s[0]), Wider(b, s[0]));
      }
    }
  }

  lemma {:induction false} NothingBehind(s: string, back: string, gap: Gap)
    requires AllSpace(back)
    ensures Glyphs(s + back, gap) == Glyphs(s, gap)
    decreases |s| + |back|
  {
    hide IsSpace;
    if s != "" {
      assert (s + back)[1..] == s[1..] + back;
      NothingBehind(s[1..], back, if IsSpace(s[0]) then Wider(gap, s[0]) else Joined);
    } else if back != "" {
      assert s + back == back && "" + back[1..] == back[1..];
      NothingBehind("", back[1..], Wider(gap, back[0]));
    }
  }

  /** Normal text is what is written for its glyphs. */
  lemma {:induction false} NormalIsWritten(s: string)
    requires Spaced(s) && (s != "" ==> !IsSpace(s[|s| - 1]))
    ensures Written(Glyphs(s, Joined)) == s
    decreases |s|
  {
    hide IsSpace;
    if s == "" {
    } else if IsSpace(s[0]) {
      assert s[1..][1..] == s[2..];
      NormalIsWritten(s[2..]);
      assert s == [s[0], s[1]] + s[2..];
    } else {
      NormalIsWritten(s[1..]);
      assert s == [s[0]] + s[1..];
    }
  }

  /** Normalising keeps the visible characters in order. Two that stood together still do; where white
      space stood between two, one space stands, or one line break if the white space held any; and
      nothing else is written. */
  lemma NormalizeKeepsInk(s: string)
    ensures NormalizeText(s) == Written(Inner(Glyphs(s, Joined)))
  {
    hide IsSpace, UnixBreaks, SingleSpaces, SingleBreaks, Strip, Glyphs, Written;
    var unix := UnixBreaks(s);
    var spaced := SingleSpaces(unix);
    var broken := SingleBreaks(spaced);
    UnixBreaksKeeps(s, Joined);
    SingleSpacesKeeps(unix, Joined);
    SingleBreaksKeepsGlyphs(spaced, Joined);
    var front, back := StripMeans(broken);
    var text := Strip(broken);
    assert broken == front + (text + back);
    GapBefore(front, text + back, Joined, Joined);
    NothingBehind(text, back, Joined);
    NormalizeGivesNormalText(s);
    NormalIsWritten(text);
    FirstIsJoined(text);
  }

  lemma FirstIsJoined(s: string)
    requires s != "" ==> !IsSpace(s[0])
    ensures Inner(Glyphs(s, Joined)) == Glyphs(s, Joined)
  {
  }

  // ---------- units ----------

  datatype Span = Span(start: nat, end: nat)

  /** The end of the run of line breaks at i. */
  function BreakRunEnd(s: string, i: nat): (e: nat)
    requires i <= |s|
    ensures i <= e <= |s|
    ensures forall k :: i <= k < e ==> s[k] == '\n'
    ensures e < |s| ==> s[e] != '\n'
    decreases |s| - i
  {
    if i < |s| && s[i] == '\n' then BreakRunEnd(s, i + 1) else i
  }

  /** The end of the run of white space at i. */
  function SpaceRunEnd(s: string, i: nat): (e: nat)
    requires i <= |s|
    ensures i <= e <= |s|
    ensures forall k :: i <= k < e ==> IsSpace(s[k])
    ensures e < |s| ==> !IsSpace(s[e])
    decreases |s| - i
  {
    if i < |s| && IsSpace(s[i]) then SpaceRunEnd(s, i + 1) else i
  }

  predicate SentenceEnd(c: char) { c == '.' || c == '!' || c == '?' }
  predicate WideSentenceEnd(c: char) { c == '\U{3002}' || c == '\U{FF01}' || c == '\U{FF1F}' }
  predicate SentenceStart(c: char) { 'A' <= c <= 'Z' || '0' <= c <= '9' }

  /** The end of the boundary that matches at i, if one does: a run of line breaks, else the
      white space between a sentence end and a sentence start, else the empty place after a
      full-width sentence end. */
  function BoundaryEnd(s: string, i: nat): (e: Option<nat>)
    requires i <= |s|
    ensures e.Some? ==> i <= e.value <= |s|
  {
    if i < |s| && s[i] == '\n' then Some(BreakRunEnd(s, i))
    else
      var e := SpaceRunEnd(s, i);
      if i > 0 && SentenceEnd(s[i - 1]) && i < e < |s| && SentenceStart(s[e]) then Some(e)
      else if i > 0 && WideSentenceEnd(s[i - 1]) then Some(i)
      else None
  }

  /** The units from `start` on, with the next boundary looked for at i. */
  function UnitsFrom(s: string, start: nat, i: nat): seq<Span>
    requires start <= i <= |s| + 1 && start <= |s|
    decreases |s| + 1 - i
  {
    if i > |s| then (if start < |s| then [Span(start, |s|)] else [])
    else match BoundaryEnd(s, i)
      case None => UnitsFrom(s, start, i + 1)
      case Some(e) =>
        var next := if e > i then e else i + 1;
        if e > start then [Span(start, e)] + UnitsFrom(s, e, next) else UnitsFrom(s, start, next)
  }

  /** `_units`: the scan over boundaries. An empty boundary is not found twice. */
  method Units(s: string) returns (units: seq<Span>)
    ensures units == UnitsFrom(s, 0, 0)
  {
    units := [];
    var start, i := 0, 0;
    while i <= |s|
      invariant start <= i <= |s| + 1 && start <= |s|
      invariant UnitsFrom(s, 0, 0) == units + UnitsFrom(s, start, i)
      decreases |s| + 1 - i
    {
      var boundary := BoundaryEnd(s, i);
      if boundary.None? {
        i := i + 1;
      } else {
        var e := boundary.value;
        var next := if e > i then e else i + 1;
        if e > start {
          assert units + ([Span(start, e)] + UnitsFrom(s, e, next)) == (units + [Span(start, e)]) + UnitsFrom(s, e,
              next);
          units := units + [Span(start, e)];
          start := e;
        }
        i := next;
      }
    }
    if start < |s| {
      units := units + [Span(start, |s|)];
    }
  }

  /** The units tile s[from..]: non-empty, in order, without gaps. */
  ghost predicate Tiles(units: seq<Span>, from: nat, len: nat) {
    && (forall k :: 0 <= k < |units| ==> units[k].start < units[k].end <= len)
    && (forall k :: 0 <= k < |units| - 1 ==> units[k].end == units[k + 1].start)
    && (if units == [] then from == len else units[0].start == from && units[|units| - 1].end == len)
  }

  lemma {:induction false} UnitsTile(s: string, start: nat, i: nat)
    requires start <= i <= |s| + 1 && start <= |s|
    ensures Tiles(UnitsFrom(s, start, i), start, |s|)
    decreases |s| + 1 - i
  {
    hide BoundaryEnd, Tiles;
    if i > |s| {
      LastTile(start, |s|);
    } else {
      match BoundaryEnd(s, i)
      case None => UnitsTile(s, start, i + 1);
      case Some(e) =>
        var next := if e > i then e else i + 1;
        if e > start {
          UnitsTile(s, e, next);
          FirstTile(Span(start, e), UnitsFrom(s, e, next), |s|);
        } else {
          UnitsTile(s, start, next);
        }
    }
  }

  lemma LastTile(start: nat, len: nat)
    requires start <= len
    ensures Tiles(if start < len then [Span(start, len)] else [], start, len)
  {
  }

  lemma FirstTile(u: Span, rest: seq<Span>, len: nat)
    requires u.start < u.end <= len && Tiles(rest, u.end, len)
    ensures Tiles([u] + rest, u.start, len)
  {
  }

  /** Some character of the span is not white space. */
  ghost predicate Inked(s: string, from: nat, to: nat)
    requires from <= to <= |s|
  {
    exists p :: from <= p < to && !IsSpace(s[p])
  }

  /** A unit can only start here when it starts the text, follows white space, or follows a
      full-width sentence end that no line break follows. */
  ghost predicate FreshStart(s: string, start: nat)
    requires start <= |s|
  {
    start == 0 || start == |s| || IsSpace(s[start - 1]) || (WideSentenceEnd(s[start - 1]) && s[start] != '\n')
  }

  /** In normal text no unit is blank. */
  lemma {:induction false} UnitsAreInked(s: string, start: nat, i: nat)
    requires NormalText(s)
    requires start <= i <= |s| + 1 && start <= |s|
    requires FreshStart(s, start)
    ensures forall u | u in UnitsFrom(s, start, i) :: u.start < u.end <= |s| && Inked(s, u.start, u.end)
    decreases |s| + 1 - i
  {
    hide IsSpace, SentenceEnd, SentenceStart;
    if i > |s| {
      if start < |s| { assert !IsSpace(s[|s| - 1]); }
    } else {
      match BoundaryEnd(s, i)
      case None => UnitsAreInked(s, start, i + 1);
      case Some(e) =>
        var next := if e > i then e else i + 1;
        if e > start {
          BoundaryStartsFresh(s, i);
          UnitInked(s, start, i);
          UnitsAreInked(s, e, next);
        } else {
          UnitsAreInked(s, start, next);
        }
    }
  }

  lemma BoundaryStartsFresh(s: string, i: nat)
    requires i <= |s| && BoundaryEnd(s, i).Some?
    ensures FreshStart(s, BoundaryEnd(s, i).value)
  {
    BlankChars();
  }

  lemma UnitInked(s: string, start: nat, i: nat)
    requires start <= i <= |s| && NormalText(s) && FreshStart(s, start)
    requires BoundaryEnd(s, i).Some? && start < BoundaryEnd(s, i).value
    ensures Inked(s, start, BoundaryEnd(s, i).value)
  {
    hide IsSpace, SentenceStart;
    BlankChars();
    PunctuationIsInk();
    if IsSpace(s[start]) {
      assert WideSentenceEnd(s[start - 1]) && s[start] == ' ' && !IsSpace(s[start + 1]);
      assert i != start;
    }
  }

  lemma PunctuationIsInk()
    ensures forall c :: SentenceEnd(c) || WideSentenceEnd(c) ==> !IsSpace(c)
  {
  }

  // ---------- where a text is cut ----------

  function Ends(units: seq<Span>): set<nat> {
    set u | u in units :: u.end
  }

  predicate SpaceOnly(s: string, i: int, p: int)
    requires 0 <= i <= p <= |s|
  {
    forall k :: i <= k < p ==> IsSpace(s[k])
  }

  /** White space from i up to p parts a sentence from the next: it stands between a full stop, exclamation
      or question mark and a capital or a digit, and does not begin with a line break. */
  predicate SentenceGap(s: string, i: int, p: int) {
    && 0 < i < p < |s| && s[i - 1] in {'.', '!', '?'} && s[i] != '\n' && SpaceOnly(s, i, p)
    && (65 <= s[p] as int <= 90 || 48 <= s[p] as int <= 57)
  }

  ghost predicate InsideGap(s: string, p: int) {
    exists i, q :: i < p < q && SentenceGap(s, i, q)
  }

  /** A full-width sentence end that no line break follows. */
  predicate BehindWide(s: string, p: int) {
    0 < p < |s| && s[p - 1] in {'\U{3002}', '\U{FF01}', '\U{FF1F}'} && s[p] != '\n'
  }

  /** A place where a unit ends: at the end of a gap between sentences, behind a full-width sentence end,
      or behind a run of line breaks that is not part of such a gap. */
  ghost predicate BetweenUnits(s: string, p: int) {
    0 < p < |s|
    && ((exists i :: SentenceGap(s, i, p)) || BehindWide(s, p)
        || (s[p - 1] == '\n' && s[p] != '\n' && !InsideGap(s, p)))
  }

  /** Where the scanner stands: behind no open end, and in no gap. */
  ghost predicate ScansFrom(s: string, start: nat, i: nat) {
    && start <= i <= |s| + 1 && start <= |s| && !InsideGap(s, i)
    && (forall p | start < p < i :: !BetweenUnits(s, p))
    && (start < i && BetweenUnits(s, i) ==> BehindWide(s, i))
  }

  lemma BoundaryMeans(s: string, i: nat)
    requires i < |s| && !InsideGap(s, i)
    ensures match BoundaryEnd(s, i)
            case None => s[i] != '\n' && !BehindWide(s, i) && forall p :: !SentenceGap(s, i, p)
            case Some(e) =>
              if s[i] == '\n' then i < e && (forall k :: i <= k < e ==> s[k] == '\n') && (e < |s| ==> s[e] != '\n')
              else if e > i then SentenceGap(s, i, e)
              else BehindWide(s, i) && forall p :: !SentenceGap(s, i, p)
  {
    hide IsSpace, SpaceRunEnd, BreakRunEnd;
    if s[i] != '\n' {
      var e := SpaceRunEnd(s, i);
      forall p | SentenceGap(s, i, p) ensures p == e {
        GapEnds(s, i, p, e);
      }
    }
  }

  lemma GapEnds(s: string, i: nat, p: int, e: nat)
    requires SentenceGap(s, i, p) && i <= e <= |s| && SpaceOnly(s, i, e) && (e < |s| ==> !IsSpace(s[e]))
    ensures p == e
  {
    hide IsSpace;
    SentenceStartIsInk(s[p]);
  }

  lemma SentenceStartIsInk(c: char)
    requires 65 <= c as int <= 90 || 48 <= c as int <= 57
    ensures !IsSpace(c)
  {
  }

  lemma EndsCons(u: Span, rest: seq<Span>)
    ensures Ends([u] + rest) == {u.end} + Ends(rest)
  {
    assert forall v :: v in [u] + rest <==> v == u || v in rest;
    assert forall v :: v in rest ==> v.end in Ends(rest);
  }

  lemma NoBoundary(s: string, start: nat, i: nat)
    requires i < |s| && ScansFrom(s, start, i) && BoundaryEnd(s, i).None?
    ensures ScansFrom(s, start, i + 1)
  {
    hide BoundaryEnd, IsSpace, SpaceOnly;
    BoundaryMeans(s, i);
  }

  lemma BreakBoundary(s: string, start: nat, i: nat, e: nat)
    requires i < |s| && ScansFrom(s, start, i) && s[i] == '\n' && BoundaryEnd(s, i) == Some(e)
    ensures i < e && ScansFrom(s, e, e)
    ensures forall p | start < p < e :: !BetweenUnits(s, p)
    ensures e < |s| ==> BetweenUnits(s, e)
  {
    hide BoundaryEnd, IsSpace;
    BoundaryMeans(s, i);
    assert s[e - 1] == '\n' && !InsideGap(s, e);
    forall p | i < p < e ensures !BetweenUnits(s, p) {
      assert s[p] == '\n' && s[p - 1] == '\n';
    }
  }

  lemma SentenceBoundary(s: string, start: nat, i: nat, e: nat)
    requires i < |s| && ScansFrom(s, start, i) && s[i] != '\n' && BoundaryEnd(s, i) == Some(e) && e > i
    ensures i < e < |s| && ScansFrom(s, e, e) && BetweenUnits(s, e)
    ensures forall p | start < p < e :: !BetweenUnits(s, p)
  {
    hide BoundaryEnd, IsSpace;
    BoundaryMeans(s, i);
    SentenceStartIsInk(s[e]);
    WideIsInk();
    forall p | i < p < e ensures !BetweenUnits(s, p) {
      assert IsSpace(s[p]) && IsSpace(s[p - 1]);
      SpaceStartsNothing(s, p);
    }
    assert !IsSpace(s[e]) && !InsideGap(s, e);
  }

  lemma SpaceStartsNothing(s: string, p: int)
    requires 0 <= p < |s| && IsSpace(s[p])
    ensures forall a :: !SentenceGap(s, a, p)
  {
  }

  lemma WideIsInk()
    ensures forall c :: c in {'\U{3002}', '\U{FF01}', '\U{FF1F}'} ==> !IsSpace(c)
  {
  }

  lemma WideBoundary(s: string, start: nat, i: nat)
    requires i < |s| && ScansFrom(s, start, i) && s[i] != '\n' && BoundaryEnd(s, i) == Some(i)
    ensures BehindWide(s, i) && BetweenUnits(s, i) && ScansFrom(s, i, i + 1)
  {
    hide BoundaryEnd, IsSpace;
    BoundaryMeans(s, i);
  }

  /** The scanner cuts every text exactly at its cuts. */
  lemma {:induction false} UnitsEndAtCuts(s: string, start: nat, i: nat)
    requires ScansFrom(s, start, i)
    ensures forall p | start < p < |s| :: p in Ends(UnitsFrom(s, start, i)) <==> BetweenUnits(s, p)
    ensures forall p | p in Ends(UnitsFrom(s, start, i)) :: start < p
    decreases |s| + 1 - i
  {
    hide IsSpace, BoundaryEnd, BetweenUnits, InsideGap, BehindWide;
    if i >= |s| {
      UnitsTile(s, start, i);
      LastUnit(s, start, i);
      LastScan(s, start, i);
    } else {
      match BoundaryEnd(s, i)
      case None =>
        NoBoundary(s, start, i);
        UnitsEndAtCuts(s, start, i + 1);
      case Some(e) =>
        if s[i] == '\n' {
          BreakBoundary(s, start, i, e);
        } else if e > i {
          SentenceBoundary(s, start, i, e);
        } else {
          WideBoundary(s, start, i);
        }
        var next := if e > i then e else i + 1;
        UnitsEndAtCuts(s, e, next);
        if e > start {
          EndsCons(Span(start, e), UnitsFrom(s, e, next));
        }
    }
  }

  lemma LastUnit(s: string, start: nat, i: nat)
    requires start <= |s| <= i <= |s| + 1
    ensures forall p | p in Ends(UnitsFrom(s, start, i)) :: p == |s| && start < p
  {
    assert UnitsFrom(s, start, |s| + 1) == if start < |s| then [Span(start, |s|)] else [];
  }

  lemma LastScan(s: string, start: nat, i: nat)
    requires ScansFrom(s, start, i) && i >= |s|
    ensures forall p | start < p < |s| :: !BetweenUnits(s, p)
  {
  }

  /** The units of a text tile it, and end exactly at its cuts and at its end; in normal text none is
      blank. */
  lemma UnitsAreExact(s: string)
    ensures var units := UnitsFrom(s, 0, 0);
            && Tiles(units, 0, |s|)
            && (forall p: nat :: p in Ends(units) <==> (p == |s| && s != "") || BetweenUnits(s, p))
            && (NormalText(s) ==> forall u | u in units :: u.start < u.end <= |s| && Inked(s, u.start, u.end))
  {
    hide IsSpace, UnitsFrom, BetweenUnits;
    var units := UnitsFrom(s, 0, 0);
    UnitsTile(s, 0, 0);
    ScanStarts(s);
    UnitsEndAtCuts(s, 0, 0);
    forall p: nat ensures p in Ends(units) <==> (p == |s| && s != "") || BetweenUnits(s, p) {
      if p == |s| && s != "" {
        assert units[|units| - 1] in units;
      } else if p >= |s| || p == 0 {
        NotBetween(s, p);
      }
    }
    if NormalText(s) { UnitsAreInked(s, 0, 0); }
  }

  lemma ScanStarts(s: string)
    ensures ScansFrom(s, 0, 0)
  {
  }

  lemma NotBetween(s: string, p: int)
    requires !(0 < p < |s|)
    ensures !BetweenUnits(s, p)
  {
  }
}
