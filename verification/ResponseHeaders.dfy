/** What the headers of a response say: the framing and length of its body, and its encoding. */
module ResponseHeaders {
  import opened PyValues

  datatype ReadError =
    | UnsafeUrl | RequestBudgetExhausted | RedirectLimit | ResponseInvalid | RateLimited | Unavailable
    | FramingInvalid | BodyTooLarge | EncodingUnsupported | BodyIncomplete
    | CompressionInvalid | CompressionIncomplete | DecodedTooLarge

  datatype Result<+T> = Ok(value: T) | Err(error: ReadError)

  datatype Limits = Limits(maxRequests: nat, maxRedirects: nat, maxResponseBytes: nat, maxDecodedBytes: Option<nat>) {
    ghost predicate Valid() {
      maxRequests > 0 && maxResponseBytes > 0 && (maxDecodedBytes.Some? ==> maxDecodedBytes.value > 0)
    }

    function DecodedLimit(): nat {
      if maxDecodedBytes.Some? then maxDecodedBytes.value else maxResponseBytes
    }
  }

  // ---------- the Content-Length header ----------

  function SplitCommas(s: string): (parts: seq<string>)
    ensures |parts| >= 1
  {
    if s == "" then [""]
    else
      var rest := SplitCommas(s[1..]);
      if s[0] == ',' then [""] + rest else [[s[0]] + rest[0]] + rest[1..]
  }

  predicate Digits(s: string) {
    s != "" && forall i :: 0 <= i < |s| ==> '0' <= s[i] <= '9'
  }

  function DropZeros(s: string): (r: string)
    ensures |r| <= |s|
    ensures r != "" ==> r[0] != '0'
    ensures Digits(s) && r != "" ==> Digits(r)
  {
    if s != "" && s[0] == '0' then DropZeros(s[1..]) else s
  }

  /** The digits without leading zeros. */
  function Canonical(s: string): string {
    if DropZeros(s) == "" then "0" else DropZeros(s)
  }

  function Number(s: string): nat
    requires forall i :: 0 <= i < |s| ==> '0' <= s[i] <= '9'
  {
    if s == "" then 0 else Number(s[..|s| - 1]) * 10 + (s[|s| - 1] as int - '0' as int)
  }

  function StrippedParts(header: string): (parts: seq<string>)
    ensures |parts| >= 1
  {
    var raw := SplitCommas(header);
    seq(|raw|, i requires 0 <= i < |raw| => Strip(raw[i]))
  }

  /** The declared length: one number, however often it is repeated. */
  function DeclaredLength(header: string): (r: Result<nat>)
    ensures r.Err? ==> r.error in {ResponseInvalid, FramingInvalid, BodyTooLarge}
  {
    var parts := StrippedParts(header);
    if exists p | p in parts :: !Digits(p) then Err(ResponseInvalid)
    else
      var normalized := set p | p in parts :: Canonical(p);
      if |normalized| != 1 then Err(FramingInvalid)
      else
        var value := Canonical(parts[0]);
        if |value| > 20 then Err(BodyTooLarge)
        else
          CanonicalDigits(parts[0]);
          Ok(Number(value))
  }

  lemma CanonicalDigits(s: string)
    requires Digits(s)
    ensures Digits(Canonical(s)) && Number(Canonical(s)) == Number(s)
  {
    DropZerosNumber(s);
  }

  lemma {:induction false} DropZerosNumber(s: string)
    requires forall i :: 0 <= i < |s| ==> '0' <= s[i] <= '9'
    ensures forall i :: 0 <= i < |DropZeros(s)| ==> '0' <= DropZeros(s)[i] <= '9'
    ensures Number(DropZeros(s)) == Number(s)
  {
    if s != "" && s[0] == '0' {
      DropZerosNumber(s[1..]);
      LeadingZero(s);
    }
  }

  lemma {:induction false} LeadingZero(s: string)
    requires s != "" && s[0] == '0'
    requires forall i :: 0 <= i < |s| ==> '0' <= s[i] <= '9'
    ensures Number(s) == Number(s[1..])
  {
    if |s| == 1 {
      assert s[..0] == "" && s[1..] == "";
    } else {
      LeadingZero(s[..|s| - 1]);
      assert s[..|s| - 1][1..] == s[1..][..|s| - 2];
    }
  }

  lemma {:induction false} NumberBounds(s: string)
    requires Digits(s)
    ensures s[0] != '0' ==> Number(s) >= 1
  {
    if |s| <= 1 {
    } else {
      NumberBounds(s[..|s| - 1]);
    }
  }

  /** Equal numbers have equal canonical digits. */
  lemma {:induction false} CanonicalIsUnique(a: string, b: string)
    requires Digits(a) && Digits(b) && a[0] != '0' && b[0] != '0'
    requires Number(a) == Number(b)
    ensures a == b
  {
    var a', b' := a[..|a| - 1], b[..|b| - 1];
    assert Number(a') == Number(b') && a[|a| - 1] == b[|b| - 1];
    if a' == "" || b' == "" {
      if a' != "" { NumberBounds(a'); }
      if b' != "" { NumberBounds(b'); }
    } else {
      CanonicalIsUnique(a', b');
    }
    assert a == a' + [a[|a| - 1]] && b == b' + [b[|b| - 1]];
  }

  lemma SameNumberSameDigits(a: string, b: string)
    requires Digits(a) && Digits(b)
    ensures Canonical(a) == Canonical(b) <==> Number(a) == Number(b)
  {
    CanonicalDigits(a);
    CanonicalDigits(b);
    if Number(a) == Number(b) {
      if DropZeros(a) != "" { NumberBounds(DropZeros(a)); }
      if DropZeros(b) != "" { NumberBounds(DropZeros(b)); }
      if DropZeros(a) != "" && DropZeros(b) != "" {
        DropZerosNumber(a);
        DropZerosNumber(b);
        CanonicalIsUnique(DropZeros(a), DropZeros(b));
      }
    }
  }

  lemma SingletonHasOne<T>(s: set<T>, x: T)
    requires |s| == 1 && x in s
    ensures forall y :: y in s ==> y == x
  {
    assert s - {x} == {} by { assert |s - {x}| == 0; }
    assert forall y :: y in s && y != x ==> y in s - {x};
  }

  /** All members are one number exactly when they have one spelling. */
  lemma OneSpelling(header: string)
    requires forall p | p in StrippedParts(header) :: Digits(p)
    ensures var parts := StrippedParts(header);
            && Digits(parts[0])
            && (|set p | p in parts :: Canonical(p)| == 1 <==>
                  forall p | p in parts :: Digits(p) && Number(p) == Number(parts[0]))
  {
    hide Number, Canonical, StrippedParts;
    var parts := StrippedParts(header);
    var normalized := set p | p in parts :: Canonical(p);
    var first := Canonical(parts[0]);
    assert parts[0] in parts && first in normalized;
    forall p | p in parts ensures Canonical(p) == first <==> Number(p) == Number(parts[0]) {
      SameNumberSameDigits(p, parts[0]);
    }
    if |normalized| == 1 {
      SingletonHasOne(normalized, first);
      forall p | p in parts ensures Canonical(p) == first {
        assert Canonical(p) in normalized;
      }
    }
    if forall p | p in parts :: Number(p) == Number(parts[0]) {
      assert normalized == {first};
    }
  }

  /** A repeated Content-Length counts as one number exactly when every member is a decimal
      number and all are the same number. */
  lemma DeclaredLengthIsTheOneNumber(header: string)
    ensures var parts := StrippedParts(header);
            DeclaredLength(header).Ok? <==>
            && Digits(parts[0]) && (forall p | p in parts :: Digits(p))
            && (forall p | p in parts :: Number(p) == Number(parts[0]))
            && |Canonical(parts[0])| <= 20
    ensures DeclaredLength(header).Ok? ==>
              forall p | p in StrippedParts(header) :: Digits(p) && Number(p) == DeclaredLength(header).value
  {
    hide Number, Canonical, Strip, SplitCommas;
    var parts := StrippedParts(header);
    assert parts[0] in parts;
    if forall p | p in parts :: Digits(p) {
      CanonicalDigits(parts[0]);
      OneSpelling(header);
    }
  }

  // ---------- framing and encoding ----------

  datatype Headers = Headers(transferEncoding: Option<string>, contentLength: Option<string>,
      contentEncoding: Option<string>)

  datatype Framing = Chunked | ContentLength | CloseDelimited
  datatype Encoding = Identity | Gzip | Unsupported

  function EncodingOf(h: Headers): Encoding {
    if h.contentEncoding.None? then Identity
    else
      var value := Lower(Strip(h.contentEncoding.value));
      if value == "identity" then Identity else if value == "gzip" then Gzip else Unsupported
  }

  ghost predicate FramingOk(h: Headers) {
    h.transferEncoding.Some? ==> Lower(Strip(h.transferEncoding.value)) == "chunked" && h.contentLength.None?
  }

  /** Why a body is refused before anything is read, in the order of the checks. */
  ghost function HeaderError(h: Headers, limits: Limits): Option<ReadError> {
    if !FramingOk(h) then Some(FramingInvalid)
    else if h.contentLength.Some? && DeclaredLength(h.contentLength.value).Err? then
      Some(DeclaredLength(h.contentLength.value).error)
    else if h.contentLength.Some? && DeclaredLength(h.contentLength.value).value > limits.maxResponseBytes then
      Some(BodyTooLarge)
    else if EncodingOf(h) == Unsupported then Some(EncodingUnsupported)
    else None
  }

  ghost function LengthIn(h: Headers): Option<nat> {
    if h.contentLength.Some? && DeclaredLength(h.contentLength.value).Ok? then
      Some(DeclaredLength(h.contentLength.value).value)
    else None
  }

  // ---------- what the header texts mean ----------

  /** A piece of a header between commas. */
  predicate Piece(header: string, i: int, k: int) {
    && 0 <= i <= k <= |header| && (i == 0 || header[i - 1] == ',') && (k == |header| || header[k] == ',')
    && forall m :: i <= m < k ==> header[m] != ','
  }

  lemma {:induction false} PiecesAreParts(header: string, i: int, k: int)
    requires Piece(header, i, k)
    ensures header[i..k] in SplitCommas(header) && (i == 0 ==> header[i..k] == SplitCommas(header)[0])
    decreases |header|, 1
  {
    if i > 0 {
      LaterPiece(header, i, k);
      assert forall x :: x in SplitCommas(header)[1..] ==> x in SplitCommas(header);
    } else if header != "" && header[0] != ',' {
      assert Piece(header[1..], 0, k - 1);
      PiecesAreParts(header[1..], 0, k - 1);
      assert header[0..k] == [header[0]] + header[1..][0..k - 1];
    }
  }

  /** A piece behind the first comma is not the first part. */
  lemma {:induction false} LaterPiece(header: string, i: int, k: int)
    requires Piece(header, i, k) && i > 0
    ensures header[i..k] in SplitCommas(header)[1..]
    decreases |header|, 0
  {
    var rest := header[1..];
    var parts := SplitCommas(rest);
    assert rest[i - 1..k - 1] == header[i..k] && Piece(rest, i - 1, k - 1);
    if header[0] == ',' {
      PiecesAreParts(rest, i - 1, k - 1);
      assert SplitCommas(header)[1..] == parts;
    } else {
      LaterPiece(rest, i - 1, k - 1);
      assert SplitCommas(header)[1..] == parts[1..];
    }
  }

  lemma PieceBehind(header: string, i: int, k: int)
    requires header != "" && Piece(header[1..], i, k)
    ensures header[i + 1..k + 1] == header[1..][i..k]
    ensures i > 0 || header[0] == ',' ==> Piece(header, i + 1, k + 1)
    ensures i == 0 && header[0] != ',' ==> Piece(header, 0, k + 1)
  {
    var rest := header[1..];
    assert forall m :: i + 1 <= m < k + 1 ==> header[m] == rest[m - 1];
  }

  lemma {:induction false} PartsArePieces(header: string, n: nat) returns (i: int, k: int)
    requires n < |SplitCommas(header)|
    ensures Piece(header, i, k) && header[i..k] == SplitCommas(header)[n] && (n == 0 <==> i == 0)
  {
    if header == "" {
      i, k := 0, 0;
    } else {
      var rest := header[1..];
      if header[0] == ',' && n == 0 {
        i, k := 0, 0;
      } else {
        var i', k' := PartsArePieces(rest, if header[0] == ',' then n - 1 else n);
        k := k' + 1;
        i := if header[0] != ',' && n == 0 then 0 else i' + 1;
        PieceBehind(header, i', k');
        if i == 0 { assert header[0..k] == [header[0]] + rest[0..k']; }
      }
    }
  }

  /** The least number the reader's own limit of twenty digits leaves out. */
  const TOO_LONG: nat := 100_000_000_000_000_000_000

  function Pow10(n: nat): nat {
    if n == 0 then 1 else 10 * Pow10(n - 1)
  }

  lemma {:induction false} Magnitude(s: string)
    requires Digits(s)
    ensures Number(s) < Pow10(|s|) && (s[0] != '0' ==> Number(s) >= Pow10(|s| - 1))
  {
    if |s| == 1 {
      assert s[..0] == "";
    } else {
      Magnitude(s[..|s| - 1]);
    }
  }

  lemma {:induction false} Pow10Grows(a: nat, b: nat)
    requires a <= b
    ensures Pow10(a) <= Pow10(b)
  {
    if a < b {
      Pow10Grows(a, b - 1);
    }
  }

  lemma TwentyDigits()
    ensures Pow10(20) == TOO_LONG
  {
    assert Pow10(5) == 100_000;
    assert Pow10(10) == 10_000_000_000;
    assert Pow10(15) == 1_000_000_000_000_000;
  }

  /** More than twenty digits, leading zeros aside, is at least that number. */
  lemma LongMeans(s: string)
    requires Digits(s)
    ensures |Canonical(s)| > 20 <==> Number(s) >= TOO_LONG
  {
    hide Number, DropZeros;
    TwentyDigits();
    CanonicalDigits(s);
    var digits := Canonical(s);
    Magnitude(digits);
    if |digits| > 20 {
      Pow10Grows(20, |digits| - 1);
    } else {
      Pow10Grows(|digits|, 20);
    }
  }

  /** A piece of a header is a decimal notation of a number, with any space around it. */
  predicate Notes(text: string, n: nat) {
    var digits := Strip(text);
    IsDecimal(digits) && Number(digits) == n
  }

  /** One decimal digit at least, and nothing else. */
  predicate IsDecimal(s: string) {
    |s| >= 1 && forall i :: 0 <= i < |s| ==> 48 <= s[i] as int <= 57
  }

  /** Every piece of the header notes one number. */
  ghost predicate Declares(header: string, n: nat) {
    forall i, k | Piece(header, i, k) :: Notes(header[i..k], n)
  }

  ghost predicate AllDecimal(header: string) {
    forall i, k | Piece(header, i, k) :: IsDecimal(Strip(header[i..k]))
  }

  lemma PartMeans(header: string, part: string)
    ensures part in StrippedParts(header) <==> exists i, k :: Piece(header, i, k) && Strip(header[i..k]) == part
  {
    hide Strip, SplitCommas;
    var raw := SplitCommas(header);
    if part in StrippedParts(header) {
      var n :| 0 <= n < |raw| && Strip(raw[n]) == part;
      var i, k := PartsArePieces(header, n);
    }
    if i, k :| Piece(header, i, k) && Strip(header[i..k]) == part {
      PiecesAreParts(header, i, k);
      var n :| 0 <= n < |raw| && raw[n] == header[i..k];
      assert StrippedParts(header)[n] == part;
    }
  }

  lemma DecimalMeans(header: string)
    ensures AllDecimal(header) <==> forall p | p in StrippedParts(header) :: Digits(p)
    ensures forall n: nat :: Declares(header, n) <==>
              forall p | p in StrippedParts(header) :: Digits(p) && Number(p) == n
  {
    hide Strip, StrippedParts, Number;
    forall i, k | Piece(header, i, k) ensures Strip(header[i..k]) in StrippedParts(header) {
      PartMeans(header, Strip(header[i..k]));
    }
    forall p | p in StrippedParts(header) ensures exists i, k :: Piece(header, i, k) && Strip(header[i..k]) == p {
      PartMeans(header, p);
    }
  }

  /** The declared length and each refusal of it, told from the text of the header. */
  lemma LengthMeans(header: string)
    ensures match DeclaredLength(header)
            case Ok(n) => Declares(header, n) && n < TOO_LONG
            case Err(ResponseInvalid) => !AllDecimal(header)
            case Err(FramingInvalid) => AllDecimal(header) && forall n: nat :: !Declares(header, n)
            case Err(BodyTooLarge) => exists n: nat :: Declares(header, n) && n >= TOO_LONG
            case Err(_) => false
  {
    hide Number, Canonical, Strip, SplitCommas, AllDecimal, Declares;
    var parts := StrippedParts(header);
    DecimalMeans(header);
    DeclaredLengthIsTheOneNumber(header);
    assert parts[0] in parts;
    if forall p | p in parts :: Digits(p) {
      LongMeans(parts[0]);
      var first := Number(parts[0]);
      assert Declares(header, first) <==> forall p | p in parts :: Number(p) == first;
      OneSpelling(header);
    }
  }

  /** The transfer encoding is none or "chunked", and then no length is given beside it. */
  ghost predicate Framed(h: Headers) {
    h.transferEncoding.Some? ==> Names(h.transferEncoding.value, "chunked") && h.contentLength.None?
  }

  ghost predicate IsPlain(h: Headers) {
    h.contentEncoding.None? || Names(h.contentEncoding.value, "identity")
  }

  ghost predicate IsZipped(h: Headers) {
    h.contentEncoding.Some? && Names(h.contentEncoding.value, "gzip")
  }

  /** A length the headers declare, or none. */
  ghost predicate DeclaresLength(h: Headers, length: Option<nat>) {
    if h.contentLength.None? then length.None?
    else length.Some? && Declares(h.contentLength.value, length.value) && length.value < TOO_LONG
  }

  ghost predicate LengthFits(h: Headers, limits: Limits) {
    h.contentLength.Some? ==> exists n: nat :: DeclaresLength(h, Some(n)) && n <= limits.maxResponseBytes
  }

  lemma PlainIsNotZipped(h: Headers)
    ensures EncodingOf(h) == if IsPlain(h) then Identity else if IsZipped(h) then Gzip else Unsupported
    ensures !(IsPlain(h) && IsZipped(h))
  {
    hide Lower, Strip, Names;
    if h.contentEncoding.Some? {
      NamesMeans(h.contentEncoding.value, "identity");
      NamesMeans(h.contentEncoding.value, "gzip");
    }
  }

  /** Why a body is refused before a byte of it is read, from the texts of the headers; it is not
      refused exactly when none of these applies. */
  lemma HeadersMean(h: Headers, limits: Limits)
    ensures HeaderError(h, limits) ==
            if !Framed(h) then Some(FramingInvalid)
            else if h.contentLength.Some? && !AllDecimal(h.contentLength.value) then Some(ResponseInvalid)
            else if h.contentLength.Some? && !(exists n: nat :: Declares(h.contentLength.value, n)) then
              Some(FramingInvalid)
            else if !LengthFits(h, limits) then Some(BodyTooLarge)
            else if !IsPlain(h) && !IsZipped(h) then Some(EncodingUnsupported)
            else None
    ensures HeaderError(h, limits).None? ==> DeclaresLength(h, LengthIn(h))
    ensures Framed(h) && LengthFits(h, limits) && !IsPlain(h) && !IsZipped(h) ==>
              HeaderError(h, limits) == Some(EncodingUnsupported)
  {
    hide Lower, Strip, Names, DeclaredLength, IsPlain, IsZipped, AllDecimal, Declares;
    PlainIsNotZipped(h);
    if h.transferEncoding.Some? {
      NamesMeans(h.transferEncoding.value, "chunked");
    }
    if h.contentLength.Some? {
      LengthMeans(h.contentLength.value);
      OneNumber(h.contentLength.value);
      var declared := DeclaredLength(h.contentLength.value);
      if declared.Ok? {
        assert DeclaresLength(h, Some(declared.value)) && Declares(h.contentLength.value, declared.value);
      }
    }
  }

  lemma OneNumber(header: string)
    ensures forall a: nat, b: nat :: Declares(header, a) && Declares(header, b) ==> a == b
    ensures forall a: nat :: Declares(header, a) ==> AllDecimal(header)
  {
    hide Strip, Number, Digits;
    var i, k := PartsArePieces(header, 0);
  }
}
