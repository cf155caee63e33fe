/** The tokenizer behind the schema fingerprint, on ASCII text. */
module SqlTokens {
  import opened PyValues

  datatype Token = Quoted(text: string) | Word(text: string) | Symbol(text: string)

  predicate QuoteChar(c: char) { c == '\'' || c == '"' || c == '`' || c == '[' }

  function Closing(c: char): char { if c == '[' then ']' else c }

  predicate WordChar(c: char) {
    'a' <= c <= 'z' || 'A' <= c <= 'Z' || '0' <= c <= '9' || c == '_' || c == '$'
  }

  /** Where a quoted token ends: after its closing mark, a doubled mark being content, or at
      the end of the text. */
  function QuoteEnd(s: string, closing: char, end: nat): (e: nat)
    requires end <= |s|
    ensures end <= e <= |s|
    decreases |s| - end
  {
    if end == |s| then |s|
    else if s[end] != closing then QuoteEnd(s, closing, end + 1)
    else if end + 1 < |s| && s[end + 1] == closing then QuoteEnd(s, closing, end + 2)
    else end + 1
  }

  function WordEnd(s: string, end: nat): (e: nat)
    requires end <= |s|
    ensures end <= e <= |s|
    ensures forall i :: end <= i < e ==> WordChar(s[i])
    ensures e < |s| ==> !WordChar(s[e])
    decreases |s| - end
  {
    if end < |s| && WordChar(s[end]) then WordEnd(s, end + 1) else end
  }

  /** The tokens of a text, one at a time from the front. */
  function Tokens(s: string): seq<Token>
    decreases |s|
  {
    if s == "" then []
    else if IsSpace(s[0]) then Tokens(s[1..])
    else if QuoteChar(s[0]) then
      var e := QuoteEnd(s, Closing(s[0]), 1);
      [Quoted(s[..e])] + Tokens(s[e..])
    else if WordChar(s[0]) then
      var e := WordEnd(s, 1);
      [Word(Lower(s[..e]))] + Tokens(s[e..])
    else [Symbol([s[0]])] + Tokens(s[1..])
  }

  // ---------- the scanner ----------

  lemma {:induction false} QuoteEndShift(s: string, from: nat, closing: char, end: nat)
    requires from <= end <= |s|
    ensures QuoteEnd(s[from..], closing, end - from) == QuoteEnd(s, closing, end) - from
    decreases |s| - end
  {
    if end >= |s| {
    } else {
      if s[end] != closing {
        QuoteEndShift(s, from, closing, end + 1);
      } else if end + 1 < |s| && s[end + 1] == closing {
        QuoteEndShift(s, from, closing, end + 2);
      }
    }
  }

  lemma {:induction false} WordEndShift(s: string, from: nat, end: nat)
    requires from <= end <= |s|
    ensures WordEnd(s[from..], end - from) == WordEnd(s, end) - from
    decreases |s| - end
  {
    if end < |s| && WordChar(s[end]) {
      WordEndShift(s, from, end + 1);
    }
  }

  /** The loop inside a quotation that opens at index. */
  method ScanQuotation(sql: string, index: nat, closing: char) returns (end: nat)
    requires index < |sql|
    ensures end == QuoteEnd(sql, closing, index + 1)
  {
    end := index + 1;
    while end < |sql|
      invariant index < end <= |sql|
      invariant QuoteEnd(sql, closing, end) == QuoteEnd(sql, closing, index + 1)
    {
      if sql[end] != closing {
        end := end + 1;
      } else if end + 1 < |sql| && sql[end + 1] == closing {
        end := end + 2;
      } else {
        return end + 1;
      }
    }
  }

  method ScanWord(sql: string, index: nat) returns (end: nat)
    requires index < |sql|
    ensures end == WordEnd(sql, index + 1)
  {
    end := index + 1;
    while end < |sql| && WordChar(sql[end])
      invariant index < end <= |sql|
      invariant WordEnd(sql, end) == WordEnd(sql, index + 1)
    {
      end := end + 1;
    }
  }

  // ---------- how the text is cut ----------

  /** Letters, digits, the underscore and the dollar sign. */
  predicate InWord(c: char) {
    var code := c as int;
    65 <= code <= 90 || 97 <= code <= 122 || 48 <= code <= 57 || c in {'_', '$'}
  }

  lemma WordCharMeans(c: char)
    ensures WordChar(c) <==> InWord(c)
  {
  }

  /** The mark that closes a quotation opened by c, if c opens one. */
  function ClosedBy(c: char): Option<char> {
    if c == '\'' || c == '"' || c == '`' then Some(c) else if c == '[' then Some(']') else None
  }

  function Marks(s: string, from: nat, to: nat, mark: char): nat
    requires from <= to <= |s|
  {
    if from == to then 0 else Marks(s, from, to - 1, mark) + if s[to - 1] == mark then 1 else 0
  }

  /** The marks since the opening one do not pair up, and no further mark follows. */
  predicate StopsAt(s: string, i: nat, mark: char, e: int) {
    i < e <= |s| && Marks(s, i + 1, e, mark) % 2 == 1 && (e == |s| || s[e] != mark)
  }

  /** A quotation that opens at i ends at its first stop, or with the text. */
  ghost predicate QuotationSpan(s: string, i: nat, mark: char, e: nat) {
    if exists m :: StopsAt(s, i, mark, m) then
      StopsAt(s, i, mark, e) && forall m | StopsAt(s, i, mark, m) :: e <= m
    else e == |s|
  }

  lemma {:induction false} QuoteEndMeans(s: string, i: nat, mark: char, end: nat)
    requires i < end <= |s| && Marks(s, i + 1, end, mark) % 2 == 0
    requires forall m | StopsAt(s, i, mark, m) :: end < m
    ensures QuotationSpan(s, i, mark, QuoteEnd(s, mark, end))
    decreases |s| - end
  {
    if end == |s| {
    } else if s[end] != mark {
      QuoteEndMeans(s, i, mark, end + 1);
    } else if end + 1 < |s| && s[end + 1] == mark {
      QuoteEndMeans(s, i, mark, end + 2);
    } else {
      assert StopsAt(s, i, mark, end + 1);
    }
  }

  datatype Span = Span(start: nat, end: nat)

  /** A piece of the text is this token: a whole quotation, a longest run of word characters in small
      letters, or one other visible character. */
  ghost predicate IsToken(s: string, at: Span, t: Token) {
    && at.start < at.end <= |s|
    && var c := s[at.start];
       match t
       case Quoted(text) =>
         ClosedBy(c).Some? && QuotationSpan(s, at.start, ClosedBy(c).value, at.end) && text == s[at.start..at.end]
       case Word(text) =>
         && (forall i :: at.start <= i < at.end ==> InWord(s[i])) && text == Lower(s[at.start..at.end])
         && (at.start > 0 ==> !InWord(s[at.start - 1])) && (at.end < |s| ==> !InWord(s[at.end]))
       case Symbol(text) =>
         at.end == at.start + 1 && text == [c] && !IsSpace(c) && ClosedBy(c).None? && !InWord(c)
  }

  ghost predicate InSpan(spans: seq<Span>, i: int) {
    exists k :: 0 <= k < |spans| && spans[k].start <= i < spans[k].end
  }

  /** The tokens cover the text from n on, one behind the other, but for white space. */
  ghost predicate IsCut(s: string, n: nat, tokens: seq<Token>, spans: seq<Span>) {
    && |spans| == |tokens|
    && (forall k :: 0 <= k < |spans| ==> n <= spans[k].start && IsToken(s, spans[k], tokens[k]))
    && (forall k :: 0 <= k < |spans| - 1 ==> spans[k].end <= spans[k + 1].start)
    && (forall i :: n <= i < |s| ==> IsSpace(s[i]) || InSpan(spans, i))
  }

  lemma CutGrows(s: string, n: nat, e: nat, t: Token, tokens: seq<Token>, spans: seq<Span>)
    requires n < e <= |s| && IsToken(s, Span(n, e), t) && IsCut(s, e, tokens, spans)
    ensures IsCut(s, n, [t] + tokens, [Span(n, e)] + spans)
  {
    hide IsToken, IsSpace;
    var all := [Span(n, e)] + spans;
    forall i | n <= i < |s| ensures IsSpace(s[i]) || InSpan(all, i) {
      if i < e {
        assert all[0].start <= i < all[0].end;
      } else if InSpan(spans, i) {
        var k :| 0 <= k < |spans| && spans[k].start <= i < spans[k].end;
        assert all[k + 1] == spans[k];
      }
    }
  }

  lemma FirstIsToken(s: string, n: nat) returns (e: nat, t: Token)
    requires n < |s| && !IsSpace(s[n]) && (n > 0 && InWord(s[n]) ==> !InWord(s[n - 1]))
    ensures n < e <= |s| && IsToken(s, Span(n, e), t) && Tokens(s[n..]) == [t] + Tokens(s[e..])
    ensures e < |s| && InWord(s[e]) ==> !InWord(s[e - 1])
  {
    hide IsSpace, QuoteChar, WordChar, InWord, IsToken;
    var c := s[n];
    WordCharMeans(c);
    if QuoteChar(c) {
      e, t := QuotationIsToken(s, n);
    } else if WordChar(c) {
      e, t := WordIsToken(s, n);
    } else {
      e, t := SymbolIsToken(s, n);
    }
  }

  lemma QuotationIsToken(s: string, n: nat) returns (e: nat, t: Token)
    requires n < |s| && !IsSpace(s[n]) && QuoteChar(s[n])
    ensures n < e <= |s| && IsToken(s, Span(n, e), t) && Tokens(s[n..]) == [t] + Tokens(s[e..])
    ensures e < |s| ==> !InWord(s[e - 1])
  {
    hide IsSpace, QuoteEnd, QuoteChar, InWord, QuotationSpan, ClosedBy, Closing;
    var mark := Closing(s[n]);
    e := QuoteEnd(s, mark, n + 1);
    t := Quoted(s[n..e]);
    MarkIsPlain(s[n]);
    QuoteEndShift(s, n, mark, n + 1);
    NothingStops(s, n, mark);
    QuoteEndMeans(s, n, mark, n + 1);
    QuoteEndsWithMark(s, mark, n + 1);
    var rest := s[n..];
    assert rest[..e - n] == s[n..e] && rest[e - n..] == s[e..];
  }

  lemma MarkIsPlain(c: char)
    requires QuoteChar(c)
    ensures ClosedBy(c) == Some(Closing(c)) && !InWord(Closing(c))
  {
  }

  lemma NothingStops(s: string, n: nat, mark: char)
    requires n < |s|
    ensures Marks(s, n + 1, n + 1, mark) == 0 && forall m | StopsAt(s, n, mark, m) :: n + 1 < m
  {
  }

  lemma WordIsToken(s: string, n: nat) returns (e: nat, t: Token)
    requires n < |s| && !IsSpace(s[n]) && !QuoteChar(s[n]) && WordChar(s[n])
    requires n > 0 && InWord(s[n]) ==> !InWord(s[n - 1])
    ensures n < e <= |s| && IsToken(s, Span(n, e), t) && Tokens(s[n..]) == [t] + Tokens(s[e..])
    ensures e < |s| ==> !InWord(s[e])
  {
    hide IsSpace, WordEnd, QuoteChar, WordChar, InWord, LowerChar;
    e := WordEnd(s, n + 1);
    t := Word(Lower(s[n..e]));
    WordEndShift(s, n, n + 1);
    forall i | n <= i <= e && i < |s| ensures WordChar(s[i]) <==> InWord(s[i]) {
      WordCharMeans(s[i]);
    }
    var rest := s[n..];
    assert rest[..e - n] == s[n..e] && rest[e - n..] == s[e..];
  }

  lemma SymbolIsToken(s: string, n: nat) returns (e: nat, t: Token)
    requires n < |s| && !IsSpace(s[n]) && !QuoteChar(s[n]) && !WordChar(s[n])
    ensures e == n + 1 && IsToken(s, Span(n, e), t) && Tokens(s[n..]) == [t] + Tokens(s[e..])
    ensures !InWord(s[n])
  {
    hide IsSpace;
    e, t := n + 1, Symbol([s[n]]);
    WordCharMeans(s[n]);
    assert s[n..][1..] == s[e..];
  }

  lemma {:induction false} QuoteEndsWithMark(s: string, mark: char, end: nat)
    requires end <= |s|
    ensures QuoteEnd(s, mark, end) < |s| ==> QuoteEnd(s, mark, end) > end && s[QuoteEnd(s, mark, end) - 1] == mark
    decreases |s| - end
  {
    if end == |s| {
    } else if s[end] != mark {
      QuoteEndsWithMark(s, mark, end + 1);
    } else if end + 1 < |s| && s[end + 1] == mark {
      QuoteEndsWithMark(s, mark, end + 2);
    }
  }

  /** The tokens of a text are its quotations, its longest words and its other visible characters, in
      the order of the text, and nothing but white space lies between them. */
  lemma {:induction false} TokensAreCut(s: string, n: nat) returns (spans: seq<Span>)
    requires n <= |s| && (0 < n < |s| && InWord(s[n]) ==> !InWord(s[n - 1]))
    ensures IsCut(s, n, Tokens(s[n..]), spans)
    decreases |s| - n
  {
    hide IsSpace, InWord, IsToken, QuoteEnd, WordEnd;
    if n == |s| {
      spans := [];
    } else if IsSpace(s[n]) {
      SpaceIsNotInWord(s[n]);
      spans := TokensAreCut(s, n + 1);
      assert s[n..][1..] == s[n + 1..];
    } else {
      var e, t := FirstIsToken(s, n);
      var rest := TokensAreCut(s, e);
      spans := [Span(n, e)] + rest;
      CutGrows(s, n, e, t, Tokens(s[e..]), rest);
    }
  }

  lemma SpaceIsNotInWord(c: char)
    requires IsSpace(c)
    ensures !InWord(c)
  {
    WordCharMeans(c);
  }

  lemma TokenStep(tokens: seq<Token>, t: Token, sql: string, index: nat, end: nat)
    requires index < end <= |sql|
    ensures tokens + ([t] + Tokens(sql[end..])) == (tokens + [t]) + Tokens(sql[end..])
    ensures sql[index..][..end - index] == sql[index..end] && sql[index..][end - index..] == sql[end..]
  {
  }

  /** `_sql_tokens`: an index-driven loop over the text. */
  method Scan(sql: string) returns (tokens: seq<Token>)
    ensures tokens == Tokens(sql) && exists spans :: IsCut(sql, 0, tokens, spans)
  {
    hide IsSpace, WordChar, QuoteChar, LowerChar, Closing, Lower, QuoteEnd, WordEnd, IsCut;
    tokens := [];
    var index := 0;
    while index < |sql|
      invariant index <= |sql|
      invariant tokens + Tokens(sql[index..]) == Tokens(sql)
    {
      var c := sql[index];
      var end := index + 1;
      if IsSpace(c) {
        assert sql[index..][1..] == sql[end..];
      } else if QuoteChar(c) {
        end := ScanQuotation(sql, index, Closing(c));
        QuoteEndShift(sql, index, Closing(c), index + 1);
        TokenStep(tokens, Quoted(sql[index..end]), sql, index, end);
        tokens := tokens + [Quoted(sql[index..end])];
      } else if WordChar(c) {
        end := ScanWord(sql, index);
        WordEndShift(sql, index, index + 1);
        TokenStep(tokens, Word(Lower(sql[index..end])), sql, index, end);
        tokens := tokens + [Word(Lower(sql[index..end]))];
      } else {
        TokenStep(tokens, Symbol([c]), sql, index, end);
        tokens := tokens + [Symbol([c])];
      }
      index := end;
    }
    assert sql[|sql|..] == "" && sql[0..] == sql;
    ghost var _ := TokensAreCut(sql, 0);
  }

  // ---------- rendering ----------

  /** The token texts, joined by single spaces. */
  function Render(tokens: seq<Token>): string {
    if tokens == [] then ""
    else if |tokens| == 1 then tokens[0].text
    else tokens[0].text + " " + Render(tokens[1..])
  }

  /** A closed quotation ends at the same place whatever follows, unless it is its own mark. */
  lemma {:induction false} QuoteEndIsLocal(s: string, closing: char, end: nat, r: string)
    requires end <= |s|
    requires var e := QuoteEnd(s, closing, end); e < |s| ==> r == "" || r[0] != closing
    ensures var e := QuoteEnd(s, closing, end);
            (e < |s| || r == "") && end <= e ==> QuoteEnd(s[..e] + r, closing, end) == e
    decreases |s| - end
  {
    var e := QuoteEnd(s, closing, end);
    if end < |s| && (e < |s| || r == "") {
      if s[end] != closing {
        QuoteEndIsLocal(s, closing, end + 1, r);
      } else if end + 1 < |s| && s[end + 1] == closing {
        QuoteEndIsLocal(s, closing, end + 2, r);
      }
    }
  }

  lemma {:induction false} WordEndIsLocal(w: string, r: string, end: nat)
    requires end <= |w| && (forall i :: 0 <= i < |w| ==> WordChar(w[i]))
    requires r == "" || !WordChar(r[0])
    ensures WordEnd(w + r, end) == |w|
    decreases |w| - end
  {
    if end >= |w| {
    } else {
      WordEndIsLocal(w, r, end + 1);
    }
  }

  lemma LowerIsIdempotent(s: string)
    ensures Lower(Lower(s)) == Lower(s)
  {
  }

  lemma SpaceIsNoMark()
    ensures IsSpace(' ') && !WordChar(' ') && forall c :: QuoteChar(c) ==> Closing(c) != ' '
  {
  }

  /** A word character is neither space nor mark, in either case. */
  lemma WordCharsStay(c: char)
    requires WordChar(c)
    ensures WordChar(LowerChar(c)) && !IsSpace(LowerChar(c)) && !QuoteChar(LowerChar(c))
  {
  }

  /** Tokenizing a text that begins with a token's text and a space gives that token first. */
  lemma FirstToken(s: string, more: string)
    requires s != "" && !IsSpace(s[0])
    requires Tokens(s) != [] && (more == "" || (|Tokens(s)| > 1 && more[0] == ' '))
    ensures Tokens(Tokens(s)[0].text + more) == [Tokens(s)[0]] + Tokens(more)
  {
    hide IsSpace, WordChar, QuoteChar, LowerChar;
    SpaceIsNoMark();
    var text := Tokens(s)[0].text;
    if QuoteChar(s[0]) {
      var closing := Closing(s[0]);
      var e := QuoteEnd(s, closing, 1);
      if e == |s| { assert s[e..] == ""; }
      QuoteEndIsLocal(s, closing, 1, more);
      assert (text + more)[..e] == text && (text + more)[e..] == more;
    } else if WordChar(s[0]) {
      var e := WordEnd(s, 1);
      forall i | 0 <= i < e
        ensures WordChar(text[i]) && !IsSpace(text[i]) && !QuoteChar(text[i])
      {
        WordCharsStay(s[i]);
      }
      WordEndIsLocal(text, more, 1);
      LowerIsIdempotent(s[..e]);
      assert (text + more)[..e] == text && (text + more)[e..] == more;
    } else {
      assert (text + more)[1..] == more;
    }
  }

  lemma SpaceIsSkipped(s: string)
    ensures Tokens(" " + s) == Tokens(s)
  {
    assert (" " + s)[1..] == s;
  }

  lemma RenderGoesOn(s: string, ts: seq<Token>)
    requires s != "" && !IsSpace(s[0]) && ts == Tokens(s) && ts != []
    requires Tokens(Render(ts[1..])) == ts[1..]
    ensures Tokens(Render(ts)) == ts
  {
    hide IsSpace, Tokens;
    if |ts| == 1 {
      NoTokens();
      FirstToken(s, "");
      assert ts[0].text + "" == ts[0].text && ts[1..] == [];
    } else {
      var more := " " + Render(ts[1..]);
      FirstToken(s, more);
      SpaceIsSkipped(Render(ts[1..]));
      assert ts[0].text + more == Render(ts);
    }
  }

  lemma NoTokens()
    ensures Tokens("") == []
  {
  }

  /** Rendering and tokenizing again gives the same tokens. */
  lemma {:induction false} RenderRoundTrips(s: string)
    ensures Tokens(Render(Tokens(s))) == Tokens(s)
    decreases |s|
  {
    hide IsSpace, WordChar, QuoteChar, LowerChar, QuoteEnd, WordEnd;
    SpaceIsNoMark();
    if s == "" {
    } else {
      if IsSpace(s[0]) {
        RenderRoundTrips(s[1..]);
      } else {
        var ts := Tokens(s);
        var n := if QuoteChar(s[0]) then QuoteEnd(s, Closing(s[0]), 1) else if WordChar(s[0]) then WordEnd(s, 1) else 1;
        assert ts[1..] == Tokens(s[n..]);
        RenderRoundTrips(s[n..]);
        RenderGoesOn(s, ts);
      }
    }
  }

  // ---------- what is lost ----------

  /** The text without white space outside quotation, in lower case outside quotation; `inside`
      is the mark that closes the current quotation. */
  function Essence(s: string, inside: Option<char>): string {
    if s == "" then ""
    else match inside
      case None =>
        if IsSpace(s[0]) then Essence(s[1..], None)
        else if QuoteChar(s[0]) then [s[0]] + Essence(s[1..], Some(Closing(s[0])))
        else [LowerChar(s[0])] + Essence(s[1..], None)
      case Some(closing) =>
        if s[0] != closing then [s[0]] + Essence(s[1..], inside)
        else if |s| > 1 && s[1] == closing then s[..2] + Essence(s[2..], inside)
        else [s[0]] + Essence(s[1..], None)
  }

  function Texts(tokens: seq<Token>): string {
    if tokens == [] then "" else tokens[0].text + Texts(tokens[1..])
  }

  lemma {:induction false} EssenceOfQuotation(s: string, closing: char, end: nat)
    requires end <= |s|
    ensures var e := QuoteEnd(s, closing, end);
            Essence(s[end..], Some(closing)) == s[end..e] + Essence(s[e..], None)
    decreases |s| - end
  {
    hide IsSpace, QuoteChar, LowerChar;
    var e := QuoteEnd(s, closing, end);
    if end == |s| {
      assert s[end..] == "";
    } else if s[end] != closing {
      EssenceOfQuotation(s, closing, end + 1);
      assert s[end..][1..] == s[end + 1..];
      assert s[end..e] == [s[end]] + s[end + 1..e];
    } else if end + 1 < |s| && s[end + 1] == closing {
      EssenceOfQuotation(s, closing, end + 2);
      assert s[end..][2..] == s[end + 2..];
      assert s[end..e] == s[end..][..2] + s[end + 2..e];
    } else {
      assert s[end..][1..] == s[end + 1..];
      assert s[end..e] == [s[end]];
    }
  }

  lemma {:induction false} EssenceOfWord(s: string, end: nat)
    requires end <= |s|
    ensures var e := WordEnd(s, end);
            Essence(s[end..], None) == Lower(s[end..e]) + Essence(s[e..], None)
    decreases |s| - end
  {
    hide IsSpace, QuoteChar, LowerChar, WordChar;
    var e := WordEnd(s, end);
    if end < |s| && WordChar(s[end]) {
      WordCharIsPlain(s[end]);
      EssenceOfWord(s, end + 1);
      assert s[end..][1..] == s[end + 1..];
      assert Lower(s[end..e]) == [LowerChar(s[end])] + Lower(s[end + 1..e]);
    } else {
      assert Lower(s[end..e]) == "";
    }
  }

  lemma WordCharIsPlain(c: char)
    requires WordChar(c)
    ensures !IsSpace(c) && !QuoteChar(c)
  {
  }

  /** The tokens lose exactly white space and letter case outside quotation. */
  lemma {:induction false} TokensKeepEssence(s: string)
    ensures Texts(Tokens(s)) == Essence(s, None)
    decreases |s|
  {
    hide IsSpace, QuoteChar, LowerChar, WordChar, QuoteEnd, WordEnd;
    if s == "" {
    } else {
      if IsSpace(s[0]) {
        TokensKeepEssence(s[1..]);
      } else if QuoteChar(s[0]) {
        var e := QuoteEnd(s, Closing(s[0]), 1);
        EssenceOfQuotation(s, Closing(s[0]), 1);
        TokensKeepEssence(s[e..]);
        assert s[..e] == [s[0]] + s[1..e];
        assert Tokens(s)[1..] == Tokens(s[e..]);
      } else if WordChar(s[0]) {
        var e := WordEnd(s, 1);
        EssenceOfWord(s, 1);
        TokensKeepEssence(s[e..]);
        assert Lower(s[..e]) == [LowerChar(s[0])] + Lower(s[1..e]);
        assert Tokens(s)[1..] == Tokens(s[e..]);
      } else {
        TokensKeepEssence(s[1..]);
        SymbolIsPlain(s[0]);
        assert Tokens(s)[1..] == Tokens(s[1..]);
      }
    }
  }

  lemma SymbolIsPlain(c: char)
    requires !WordChar(c)
    ensures LowerChar(c) == c
  {
  }
}
