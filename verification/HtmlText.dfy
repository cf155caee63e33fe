/** The text extractor for HTML: an index of open tags, against a backward search. */
module HtmlText {
  import opened PyValues

  const SKIP: set<string> := {"head", "script", "style", "template", "noscript", "svg", "canvas"}
  const VOID: set<string> := {
    "area", "base", "br", "col", "embed", "hr", "img", "input", "link", "meta", "param", "source", "track", "wbr"}
  const BREAK: set<string> := {
    "p", "div", "br", "li", "tr", "td", "h1", "h2", "h3", "h4", "section", "article"}

  type Attributes = map<string, Option<string>>

  datatype Event =
    | StartTag(tag: string, attributes: Attributes)
    | StartEndTag(tag: string, attributes: Attributes)
    | EndTag(tag: string)
    | Data(text: string)

  predicate IsTrueText(s: string) {
    |s| == 4 && (s[0] == 't' || s[0] == 'T') && (s[1] == 'r' || s[1] == 'R')
    && (s[2] == 'u' || s[2] == 'U') && (s[3] == 'e' || s[3] == 'E')
  }

  /** The element hides its content by itself. */
  predicate HidesItself(tag: string, attributes: Attributes) {
    || tag in SKIP || "hidden" in attributes
    || ("aria-hidden" in attributes && attributes["aria-hidden"].Some? && IsTrueText(attributes["aria-hidden"].value))
  }

  // ---------- the reference parser ----------

  /** An open element; `hides` says whether it hides its content by itself. */
  datatype Element = Element(tag: string, hides: bool)
  datatype Reference = Reference(open: seq<Element>, parts: seq<string>)

  const START := Reference([], [])

  predicate Invisible(open: seq<Element>) {
    exists i :: 0 <= i < |open| && open[i].hides
  }

  /** Where the innermost open element with this tag is, found from the top down. */
  function Innermost(open: seq<Element>, tag: string): (i: Option<nat>)
    ensures i.Some? ==> i.value < |open| && open[i.value].tag == tag
    ensures forall k :: 0 <= k < |open| && open[k].tag == tag ==> i.Some? && k <= i.value
  {
    if open == [] then None
    else if open[|open| - 1].tag == tag then Some(|open| - 1)
    else Innermost(open[..|open| - 1], tag)
  }

  function BreakIf(parts: seq<string>, tag: string, visible: bool): seq<string> {
    if tag in BREAK && visible then parts + ["\n"] else parts
  }

  function RefStart(r: Reference, tag: string, attributes: Attributes): Reference {
    var hides := HidesItself(tag, attributes);
    Reference(if tag in VOID then r.open else r.open + [Element(tag, hides)],
              BreakIf(r.parts, tag, !Invisible(r.open) && !hides))
  }

  function RefEnd(r: Reference, tag: string): Reference {
    var open := match Innermost(r.open, tag) case None => r.open case Some(i) => r.open[..i];
    Reference(open, BreakIf(r.parts, tag, !Invisible(open)))
  }

  function RefStep(r: Reference, e: Event): Reference {
    match e
    case StartTag(tag, attributes) => RefStart(r, tag, attributes)
    case StartEndTag(tag, attributes) =>
      var started := RefStart(r, tag, attributes);
      if tag in VOID then started else RefEnd(started, tag)
    case EndTag(tag) => RefEnd(r, tag)
    case Data(text) => if Invisible(r.open) then r else r.(parts := r.parts + [text])
  }

  function RefRun(events: seq<Event>): Reference {
    if events == [] then START else RefStep(RefRun(events[..|events| - 1]), events[|events| - 1])
  }

  // ---------- what a page shows, told from its tags ----------

  /** A start tag that opens an element; a void element is never open. */
  predicate Opens(e: Event) {
    e.StartTag? && e.tag !in VOID
  }

  /** The element of the start tag at `i` is still open before event `n`. */
  ghost predicate OpenAt(events: seq<Event>, i: int, n: int)
    decreases n, 0
  {
    0 <= i < n <= |events| && Opens(events[i]) && forall j | i < j < n :: !Closes(events, j, i)
  }

  /** The end tag at `j` closes the innermost open element of its name and everything opened after it. */
  ghost predicate Closes(events: seq<Event>, j: int, i: int)
    requires 0 <= i < j < |events|
    decreases j, 1
  {
    && events[j].EndTag?
    && (exists m :: 0 <= m <= i && OpenAt(events, m, j) && events[m].tag == events[j].tag)
    && (forall m | i < m < j && OpenAt(events, m, j) :: events[m].tag != events[j].tag)
  }

  predicate IsAriaTrue(v: Option<string>) {
    v.Some? && |v.value| == 4 && forall k :: 0 <= k < 4 ==> IsLetter(v.value[k], "true"[k])
  }

  /** The element of a start tag hides its content. */
  predicate Hides(tag: string, attributes: Attributes) {
    || tag in SKIP || "hidden" in attributes
    || ("aria-hidden" in attributes && IsAriaTrue(attributes["aria-hidden"]))
  }

  /** Some element open before event `n` hides its content. */
  ghost predicate HiddenAt(events: seq<Event>, n: int) {
    exists i :: OpenAt(events, i, n) && Hides(events[i].tag, events[i].attributes)
  }

  /** What event `n` adds to the text: visible data itself, and a line break for the start tag and
      for the end tag of a visible block element; an empty-element tag is both at once. */
  ghost function Shown(events: seq<Event>, n: int): seq<string>
    requires 0 <= n < |events|
  {
    match events[n]
    case Data(text) => if HiddenAt(events, n) then [] else [text]
    case StartTag(tag, attributes) =>
      if tag in BREAK && !HiddenAt(events, n) && !Hides(tag, attributes) then ["\n"] else []
    case EndTag(tag) => if tag in BREAK && !HiddenAt(events, n + 1) then ["\n"] else []
    case StartEndTag(tag, attributes) =>
      if tag !in BREAK || HiddenAt(events, n) then []
      else if tag in VOID then if Hides(tag, attributes) then [] else ["\n"]
      else if Hides(tag, attributes) then ["\n"] else ["\n", "\n"]
  }

  /** What the first `n` events show, in order. */
  ghost function PageText(events: seq<Event>, n: nat): seq<string>
    requires n <= |events|
  {
    if n == 0 then [] else PageText(events, n - 1) + Shown(events, n - 1)
  }

  /** The reference parser's stack holds the elements that are open, outermost first. */
  ghost predicate StackIs(events: seq<Event>, n: nat, open: seq<Element>, starts: seq<nat>) {
    && n <= |events| && |starts| == |open|
    && (forall a, b :: 0 <= a < b < |starts| ==> starts[a] < starts[b])
    && (forall i: nat :: i in starts <==> OpenAt(events, i, n))
    && (forall a :: 0 <= a < |starts| ==> starts[a] < n && ElementOf(events[starts[a]], open[a]))
  }

  predicate ElementOf(e: Event, open: Element) {
    e.StartTag? && open == Element(e.tag, Hides(e.tag, e.attributes))
  }

  lemma HidesMeans(tag: string, attributes: Attributes)
    ensures HidesItself(tag, attributes) <==> Hides(tag, attributes)
  {
    hide SKIP;
    if "aria-hidden" in attributes && attributes["aria-hidden"].Some? {
      var v := attributes["aria-hidden"].value;
      assert |v| == 4 ==> (IsAriaTrue(Some(v)) <==>
                             && IsLetter(v[0], "true"[0]) && IsLetter(v[1], "true"[1])
                             && IsLetter(v[2], "true"[2]) && IsLetter(v[3], "true"[3]));
    }
  }

  lemma StillOpen(events: seq<Event>, i: int, n: nat)
    requires n < |events|
    ensures OpenAt(events, i, n + 1) <==>
              (OpenAt(events, i, n) && !Closes(events, n, i)) || (i == n && Opens(events[n]))
  {
  }

  lemma StackHides(events: seq<Event>, n: nat, open: seq<Element>, starts: seq<nat>)
    requires StackIs(events, n, open, starts)
    ensures Invisible(open) <==> HiddenAt(events, n)
  {
    hide Hides;
    if Invisible(open) {
      var a :| 0 <= a < |open| && open[a].hides;
      assert starts[a] in starts && ElementOf(events[starts[a]], open[a]);
    }
    if HiddenAt(events, n) {
      var i: nat :| OpenAt(events, i, n) && Hides(events[i].tag, events[i].attributes);
      assert i in starts;
      var a :| 0 <= a < |starts| && starts[a] == i;
      assert ElementOf(events[starts[a]], open[a]);
    }
  }

  lemma StackGrows(events: seq<Event>, n: nat, open: seq<Element>, starts: seq<nat>)
    requires n < |events| && Opens(events[n]) && StackIs(events, n, open, starts)
    ensures StackIs(events, n + 1, open + [Element(events[n].tag, Hides(events[n].tag, events[n].attributes))],
                    starts + [n])
  {
    hide Hides, OpenAt, Closes, Opens;
    var more := starts + [n];
    OnlyEndTagsClose(events, n, n);
    forall i: nat ensures i in more <==> OpenAt(events, i, n + 1) {
      StillOpen(events, i, n);
      OnlyEndTagsClose(events, n, i);
      assert i in more <==> i in starts || i == n;
    }
  }

  lemma OnlyEndTagsClose(events: seq<Event>, n: nat, i: nat)
    requires n < |events|
    ensures events[n].EndTag? ==> !Opens(events[n])
    ensures OpenAt(events, i, n) && !events[n].EndTag? ==> !Closes(events, n, i)
    ensures Opens(events[n]) ==> events[n].StartTag?
    ensures OpenAt(events, i, n) ==> i < n
  {
  }

  lemma StackStays(events: seq<Event>, n: nat, open: seq<Element>, starts: seq<nat>)
    requires n < |events| && !Opens(events[n]) && StackIs(events, n, open, starts)
    requires events[n].EndTag? ==> Innermost(open, events[n].tag).None?
    ensures StackIs(events, n + 1, open, starts)
  {
    hide Hides, OpenAt, Closes, Opens;
    forall i: nat ensures OpenAt(events, i, n) <==> OpenAt(events, i, n + 1) {
      StillOpen(events, i, n);
      OnlyEndTagsClose(events, n, i);
      if OpenAt(events, i, n) && events[n].EndTag? {
        ClosesMeans(events, n, open, starts, i);
      }
    }
  }

  lemma StackShrinks(events: seq<Event>, n: nat, open: seq<Element>, starts: seq<nat>)
    requires n < |events| && events[n].EndTag? && StackIs(events, n, open, starts)
    requires Innermost(open, events[n].tag).Some?
    ensures var k := Innermost(open, events[n].tag).value;
            k < |starts| && StackIs(events, n + 1, open[..k], starts[..k])
  {
    hide Hides, OpenAt, Closes, Opens;
    var k := Innermost(open, events[n].tag).value;
    forall i: nat ensures i in starts[..k] <==> OpenAt(events, i, n + 1) {
      StillOpen(events, i, n);
      OnlyEndTagsClose(events, n, i);
      if OpenAt(events, i, n) {
        ClosesMeans(events, n, open, starts, i);
      }
    }
  }

  /** An end tag closes the elements from the innermost one of its name upwards. */
  lemma ClosesMeans(events: seq<Event>, n: nat, open: seq<Element>, starts: seq<nat>, i: nat)
    requires n < |events| && events[n].EndTag? && StackIs(events, n, open, starts) && OpenAt(events, i, n)
    ensures match Innermost(open, events[n].tag)
            case None => !Closes(events, n, i)
            case Some(k) => (Closes(events, n, i) <==> starts[k] <= i)
                            && (i < starts[k] <==> i in starts[..k])
  {
    hide Hides, OpenAt, Opens;
    var tag := events[n].tag;
    forall m: nat | OpenAt(events, m, n)
      ensures m < n && exists a :: 0 <= a < |starts| && starts[a] == m && open[a].tag == events[m].tag
    {
      assert m in starts;
    }
    match Innermost(open, tag)
    case None =>
    case Some(k) =>
      assert starts[k] in starts && ElementOf(events[starts[k]], open[k]);
  }

  lemma EmptyElement(open: seq<Element>, tag: string, hides: bool)
    ensures Innermost(open + [Element(tag, hides)], tag) == Some(|open|)
    ensures (open + [Element(tag, hides)])[..|open|] == open
  {
  }

  /** One event keeps the stack in step. */
  lemma StackStep(events: seq<Event>, n: nat, r: Reference, starts: seq<nat>) returns (next: seq<nat>)
    requires n < |events| && StackIs(events, n, r.open, starts)
    ensures StackIs(events, n + 1, RefStep(r, events[n]).open, next)
  {
    hide Hides, HidesItself, BREAK, VOID, OpenAt, Closes, Invisible, StackIs, Innermost;
    var e := events[n];
    if e.StartTag? || e.StartEndTag? {
      HidesMeans(e.tag, e.attributes);
      EmptyElement(r.open, e.tag, HidesItself(e.tag, e.attributes));
    }
    if Opens(e) {
      StackGrows(events, n, r.open, starts);
      next := starts + [n];
    } else if e.EndTag? && Innermost(r.open, e.tag).Some? {
      StackShrinks(events, n, r.open, starts);
      next := starts[..Innermost(r.open, e.tag).value];
    } else {
      StackStays(events, n, r.open, starts);
      next := starts;
    }
  }

  /** One event adds what it shows. */
  lemma StepShows(events: seq<Event>, n: nat, r: Reference, starts: seq<nat>, next: seq<nat>)
    requires n < |events| && StackIs(events, n, r.open, starts)
    requires StackIs(events, n + 1, RefStep(r, events[n]).open, next)
    ensures RefStep(r, events[n]).parts == r.parts + Shown(events, n)
  {
    hide Hides, HidesItself, BREAK, VOID, HiddenAt, Invisible, StackIs, Innermost;
    var e := events[n];
    StackHides(events, n, r.open, starts);
    StackHides(events, n + 1, RefStep(r, e).open, next);
    if e.StartTag? || e.StartEndTag? {
      HidesMeans(e.tag, e.attributes);
      EmptyElement(r.open, e.tag, HidesItself(e.tag, e.attributes));
    }
  }

  /** The reference parser, event by event: what is open, and what is shown. */
  lemma {:induction false} PageIsShown(events: seq<Event>, n: nat) returns (starts: seq<nat>)
    requires n <= |events|
    ensures var r := RefRun(events[..n]);
            StackIs(events, n, r.open, starts) && r.parts == PageText(events, n)
  {
    hide RefStep, StackIs, Shown;
    if n == 0 {
      starts := [];
      NothingOpen(events);
    } else {
      var before := PageIsShown(events, n - 1);
      assert events[..n][..n - 1] == events[..n - 1];
      var r := RefRun(events[..n - 1]);
      starts := StackStep(events, n - 1, r, before);
      StepShows(events, n - 1, r, before, starts);
    }
  }

  lemma NothingOpen(events: seq<Event>)
    ensures StackIs(events, 0, [], [])
  {
  }

  lemma {:induction false} TextGrows(events: seq<Event>, n: nat, m: nat)
    requires n <= m <= |events|
    ensures PageText(events, n) <= PageText(events, m)
  {
    if n < m {
      TextGrows(events, n, m - 1);
    }
  }

  /** What an event shows stands in the text at its place. */
  lemma ShownInPlace(events: seq<Event>, n: nat)
    requires n < |events|
    ensures var text, at := PageText(events, |events|), |PageText(events, n)|;
            && at + |Shown(events, n)| == |PageText(events, n + 1)| <= |text|
            && forall k :: 0 <= k < |Shown(events, n)| ==> text[at + k] == Shown(events, n)[k]
  {
    hide Shown;
    TextGrows(events, n + 1, |events|);
    assert PageText(events, n + 1) == PageText(events, n) + Shown(events, n);
  }

  lemma ShowsBreaks(events: seq<Event>, n: nat)
    requires n < |events|
    ensures events[n].Data? && !HiddenAt(events, n) ==> Shown(events, n) == [events[n].text]
    ensures BlockBoundary(events, n) ==> Shown(events, n) != []
    ensures !events[n].Data? ==> forall k :: 0 <= k < |Shown(events, n)| ==> Shown(events, n)[k] == "\n"
  {
    hide HiddenAt, BREAK, VOID, Hides;
  }

  /** A visible block element begins or ends here. */
  ghost predicate BlockBoundary(events: seq<Event>, n: int)
    requires 0 <= n < |events|
  {
    var e := events[n];
    match e
    case Data(_) => false
    case StartTag(tag, attributes) => tag in BREAK && !HiddenAt(events, n) && !Hides(tag, attributes)
    case EndTag(tag) => tag in BREAK && !HiddenAt(events, n + 1)
    case StartEndTag(tag, attributes) =>
      tag in BREAK && !HiddenAt(events, n) && (tag in VOID ==> !Hides(tag, attributes))
  }

  /** Two pieces of text that are both shown keep their order, and where a visible block element
      begins or ends between them, a line break stands between them. */
  lemma BlocksSeparateText(events: seq<Event>, i: nat, j: nat, k: nat)
    requires i < j < k < |events| && events[i].Data? && events[k].Data?
    requires !HiddenAt(events, i) && !HiddenAt(events, k)
    ensures var text, a, b := PageText(events, |events|), |PageText(events, i)|, |PageText(events, k)|;
            && a < b < |text| && text[a] == events[i].text && text[b] == events[k].text
            && (BlockBoundary(events, j) ==> exists c :: a < c < b && text[c] == "\n")
  {
    hide HiddenAt, PageText, Shown, BREAK, VOID, Hides;
    var text := PageText(events, |events|);
    ShownInPlace(events, i);
    ShownInPlace(events, j);
    ShownInPlace(events, k);
    ShowsBreaks(events, i);
    ShowsBreaks(events, j);
    ShowsBreaks(events, k);
    TextGrows(events, i + 1, j);
    TextGrows(events, j + 1, k);
    assert Shown(events, i)[0] == events[i].text && Shown(events, k)[0] == events[k].text;
    if BlockBoundary(events, j) {
      assert text[|PageText(events, j)| + 0] == Shown(events, j)[0];
    }
  }

  // ---------- the index ----------

  datatype Open = Open(tag: string, hidden: bool)

  /** The stack positions of a tag, in ascending order. */
  function Indices(stack: seq<Open>, tag: string): (r: seq<nat>)
    ensures forall k :: 0 <= k < |r| ==> r[k] < |stack| && stack[r[k]].tag == tag
    ensures forall a, b :: 0 <= a < b < |r| ==> r[a] < r[b]
    ensures forall i :: 0 <= i < |stack| && stack[i].tag == tag ==> i in r
  {
    if stack == [] then []
    else
      var last := |stack| - 1;
      var init := Indices(stack[..last], tag);
      if stack[last].tag == tag then init + [last] else init
  }

  /** Dropping one element drops the last position of its tag and of no other. */
  lemma IndicesOfPrefix(stack: seq<Open>, n: nat, tag: string)
    requires n < |stack|
    ensures Indices(stack[..n + 1], tag) == Indices(stack[..n], tag) + (if stack[n].tag == tag then [n] else [])
  {
    assert stack[..n + 1][..n] == stack[..n];
  }

  function CountTag(stack: seq<Open>, from: nat, to: nat, tag: string): (n: nat)
    requires from <= to <= |stack|
  {
    if from == to then 0 else CountTag(stack, from, to - 1, tag) + (if stack[to - 1].tag == tag then 1 else 0)
  }

  lemma {:induction false} IndicesSplit(stack: seq<Open>, from: nat, to: nat, tag: string)
    requires from <= to <= |stack|
    ensures |Indices(stack[..to], tag)| == |Indices(stack[..from], tag)| + CountTag(stack, from, to, tag)
    ensures Indices(stack[..from], tag) <= Indices(stack[..to], tag)
  {
    if from >= to {
    } else {
      IndicesSplit(stack, from, to - 1, tag);
      IndicesOfPrefix(stack, to - 1, tag);
    }
  }

  /** The hidden flag is inherited from below. */
  ghost predicate Agrees(stack: seq<Open>, open: seq<Element>) {
    && |stack| == |open|
    && (forall i :: 0 <= i < |stack| ==> stack[i].tag == open[i].tag)
    && (forall i :: 0 <= i < |stack| ==> (stack[i].hidden <==> Invisible(open[..i + 1])))
  }

  lemma TopDecides(stack: seq<Open>, open: seq<Element>)
    requires Agrees(stack, open)
    ensures Invisible(open) <==> stack != [] && stack[|stack| - 1].hidden
  {
    if stack != [] {
      assert open[..|stack| - 1 + 1] == open;
    }
  }

  lemma AgreesPush(stack: seq<Open>, open: seq<Element>, tag: string, hides: bool)
    requires Agrees(stack, open)
    ensures Agrees(stack + [Open(tag, Invisible(open) || hides)], open + [Element(tag, hides)])
  {
    var open' := open + [Element(tag, hides)];
    assert forall k {:trigger open'[..k]} :: 0 <= k <= |open| ==> open'[..k] == open[..k];
    assert open'[..|open| + 1] == open';
    assert Invisible(open') <==> Invisible(open) || hides by {
      if Invisible(open) {
        var i :| 0 <= i < |open| && open[i].hides;
        assert open'[i].hides;
      }
      if hides { assert open'[|open|].hides; }
    }
  }

  lemma AgreesPrefix(stack: seq<Open>, open: seq<Element>, n: nat)
    requires Agrees(stack, open) && n <= |stack|
    ensures Agrees(stack[..n], open[..n])
  {
    assert forall k {:trigger open[..k]} :: 0 <= k <= n ==> open[..n][..k] == open[..k];
  }

  /** The last indexed position is what the backward search finds. */
  lemma IndexFindsInnermost(stack: seq<Open>, open: seq<Element>, tag: string)
    requires Agrees(stack, open)
    ensures var r := Indices(stack, tag);
            Innermost(open, tag) == if r == [] then None else Some(r[|r| - 1])
  {
    var r := Indices(stack, tag);
    var i := Innermost(open, tag);
    if i.Some? {
      assert stack[i.value].tag == tag;
      assert i.value in r;
    }
  }

  class SourceTextParser {
    var stack: seq<Open>
    var positions: map<string, seq<nat>>
    var parts: seq<string>

    /** The index lists exactly the positions of every tag it knows, and knows every open tag. */
    ghost predicate Valid()
      reads this
    {
      Indexed(stack, positions)
    }

    /** The parser is where the reference parser is. */
    ghost predicate Matches(r: Reference)
      reads this
    {
      Valid() && Agrees(stack, r.open) && parts == r.parts
    }

    constructor ()
      ensures Matches(START)
    {
      stack, positions, parts := [], map[], [];
    }

    predicate Hidden()
      reads this
    {
      stack != [] && stack[|stack| - 1].hidden
    }

    method HandleStartTag(tag: string, attributes: Attributes, ghost r: Reference)
      requires Matches(r)
      modifies this
      ensures Matches(RefStart(r, tag, attributes))
    {
      hide SKIP, VOID, BREAK, IsTrueText, Indices, Agrees, Invisible;
      TopDecides(stack, r.open);
      var hidden := Hidden() || HidesItself(tag, attributes);
      if tag in BREAK && !hidden {
        parts := parts + ["\n"];
      }
      if tag !in VOID {
        AgreesPush(stack, r.open, tag, HidesItself(tag, attributes));
        IndexedPush(stack, positions, tag, hidden);
        positions := positions[tag := (if tag in positions then positions[tag] else []) + [|stack|]];
        stack := stack + [Open(tag, hidden)];
      }
    }

    method HandleEndTag(tag: string, ghost r: Reference)
      requires Matches(r)
      modifies this
      ensures Matches(RefEnd(r, tag))
    {
      hide SKIP, VOID, BREAK, Indices, Agrees, Invisible, Indexed, Popped;
      IndexFindsInnermost(stack, r.open, tag);
      KnownPositions(stack, positions, tag);
      if tag in positions && positions[tag] != [] {
        var index := positions[tag][|positions[tag]| - 1];
        ghost var before := positions;
        NonePopped(stack, before, index);
        for k := index to |stack|
          invariant stack == old(stack) && parts == old(parts)
          invariant Popped(stack, before, positions, index, k)
        {
          var open := stack[k].tag;
          PopOne(stack, before, positions, index, k);
          positions := positions[open := positions[open][..|positions[open]| - 1]];
        }
        AllPopped(stack, before, positions, index);
        AgreesPrefix(stack, r.open, index);
        stack := stack[..index];
      }
      TopDecides(stack, RefEnd(r, tag).open);
      if tag in BREAK && !Hidden() {
        parts := parts + ["\n"];
      }
    }

    method HandleStartEndTag(tag: string, attributes: Attributes, ghost r: Reference)
      requires Matches(r)
      modifies this
      ensures Matches(RefStep(r, StartEndTag(tag, attributes)))
    {
      HandleStartTag(tag, attributes, r);
      if tag !in VOID {
        HandleEndTag(tag, RefStart(r, tag, attributes));
      }
    }

    method HandleData(data: string, ghost r: Reference)
      requires Matches(r)
      modifies this`parts
      ensures Matches(RefStep(r, Data(data)))
    {
      hide Indices, Agrees, Invisible, Indexed;
      TopDecides(stack, r.open);
      if stack == [] || !stack[|stack| - 1].hidden {
        parts := parts + [data];
      }
    }
  }

  /** Feeding a document gives exactly what its events show. */
  method ExtractText(events: seq<Event>) returns (parts: seq<string>)
    ensures parts == PageText(events, |events|)
  {
    var parser := new SourceTextParser();
    for i := 0 to |events|
      invariant fresh(parser) && parser.Matches(RefRun(events[..i]))
    {
      assert events[..i + 1][..i] == events[..i];
      ghost var r := RefRun(events[..i]);
      match events[i]
      case StartTag(tag, attributes) => parser.HandleStartTag(tag, attributes, r);
      case StartEndTag(tag, attributes) => parser.HandleStartEndTag(tag, attributes, r);
      case EndTag(tag) => parser.HandleEndTag(tag, r);
      case Data(text) => parser.HandleData(text, r);
    }
    ghost var _ := PageIsShown(events, |events|);
    parts := parser.parts;
  }

  ghost predicate Indexed(stack: seq<Open>, positions: map<string, seq<nat>>) {
    && (forall tag | tag in positions :: positions[tag] == Indices(stack, tag))
    && (forall i :: 0 <= i < |stack| ==> stack[i].tag in positions)
  }

  lemma KnownPositions(stack: seq<Open>, positions: map<string, seq<nat>>, tag: string)
    requires Indexed(stack, positions)
    ensures Indices(stack, tag) == if tag in positions then positions[tag] else []
    ensures tag in positions && positions[tag] != [] ==> positions[tag][|positions[tag]| - 1] < |stack|
  {
    var r := Indices(stack, tag);
    assert r != [] ==> stack[r[0]].tag in positions;
  }

  lemma IndexedPush(stack: seq<Open>, positions: map<string, seq<nat>>, tag: string, hidden: bool)
    requires Indexed(stack, positions)
    ensures Indexed(stack + [Open(tag, hidden)],
                    positions[tag := (if tag in positions then positions[tag] else []) + [|stack|]])
  {
    hide Indices;
    var stack' := stack + [Open(tag, hidden)];
    var positions' := positions[tag := (if tag in positions then positions[tag] else []) + [|stack|]];
    KnownPositions(stack, positions, tag);
    forall t | t in positions'
      ensures positions'[t] == Indices(stack', t)
    {
      assert stack'[..|stack|] == stack && stack'[..|stack| + 1] == stack';
      IndicesOfPrefix(stack', |stack|, t);
    }
  }

  /** Positions after the elements from `index` up to k have each given up their last entry. */
  ghost predicate Popped(stack: seq<Open>, before: map<string, seq<nat>>, now: map<string, seq<nat>>, index: nat,
      k: nat)
    requires index <= k <= |stack|
  {
    && Indexed(stack, before) && now.Keys == before.Keys
    && forall tag | tag in before :: PoppedTag(stack, before[tag], now[tag], index, k, tag)
  }

  predicate PoppedTag(stack: seq<Open>, before: seq<nat>, now: seq<nat>, index: nat, k: nat, tag: string)
    requires index <= k <= |stack|
  {
    var n := CountTag(stack, index, k, tag);
    n <= |before| && now == before[..|before| - n]
  }

  lemma PopOneTag(stack: seq<Open>, before: seq<nat>, now: seq<nat>, index: nat, k: nat, tag: string)
    requires index <= k < |stack| && before == Indices(stack, tag)
    requires PoppedTag(stack, before, now, index, k, tag)
    ensures stack[k].tag == tag ==> now != [] && PoppedTag(stack, before, now[..|now| - 1], index, k + 1, tag)
    ensures stack[k].tag != tag ==> PoppedTag(stack, before, now, index, k + 1, tag)
  {
    hide Indices;
    assert stack[..|stack|] == stack;
    IndicesSplit(stack, index, k + 1, tag);
    IndicesSplit(stack, k + 1, |stack|, tag);
  }

  lemma PopOne(stack: seq<Open>, before: map<string, seq<nat>>, now: map<string, seq<nat>>, index: nat, k: nat)
    requires index <= k < |stack| && Popped(stack, before, now, index, k)
    ensures var open := stack[k].tag;
            && open in now && now[open] != []
            && Popped(stack, before, now[open := now[open][..|now[open]| - 1]], index, k + 1)
  {
    hide Indices, PoppedTag;
    forall tag | tag in before
      ensures stack[k].tag == tag ==> now[tag] != [] && PoppedTag(stack, before[tag], now[tag][..|now[tag]| - 1],
          index, k + 1, tag)
      ensures stack[k].tag != tag ==> PoppedTag(stack, before[tag], now[tag], index, k + 1, tag)
    {
      PopOneTag(stack, before[tag], now[tag], index, k, tag);
    }
  }

  lemma NonePopped(stack: seq<Open>, before: map<string, seq<nat>>, index: nat)
    requires Indexed(stack, before) && index <= |stack|
    ensures Popped(stack, before, before, index, index)
  {
    hide Indices, Indexed;
  }

  lemma AllPopped(stack: seq<Open>, before: map<string, seq<nat>>, now: map<string, seq<nat>>, index: nat)
    requires index <= |stack| && Popped(stack, before, now, index, |stack|)
    ensures Indexed(stack[..index], now)
  {
    hide Indices, PoppedTag;
    forall tag | tag in now
      ensures now[tag] == Indices(stack[..index], tag)
    {
      AllPoppedTag(stack, before[tag], now[tag], index, tag);
    }
  }

  lemma AllPoppedTag(stack: seq<Open>, before: seq<nat>, now: seq<nat>, index: nat, tag: string)
    requires index <= |stack| && before == Indices(stack, tag)
    requires PoppedTag(stack, before, now, index, |stack|, tag)
    ensures now == Indices(stack[..index], tag)
  {
    hide Indices;
    assert stack[..|stack|] == stack;
    IndicesSplit(stack, index, |stack|, tag);
  }
}
