/** Values as Python sees them, and the coercions the profile normaliser applies to them. */
module PyValues {

  datatype Option<+T> = None | Some(value: T) {
    function GetOr(default: T): T {
      if Some? then value else default
    }
  }

  /** A JSON-like value. `VObject` stands for a mapping; only its printed form matters. */
  datatype Value =
    | VNull
    | VBool(b: bool)
    | VInt(n: int)
    | VReal(r: real)
    | VStr(s: string)
    | VList(items: seq<Value>)
    | VObject(repr: string)

  /** The built-in conversions whose code is not part of this model: `int(str)`, `float(str)`
      (None when they raise) and `str(x)` of something that is not already a string. */
  datatype Python = Python(parseInt: string -> Option<int>, parseFloat: string -> Option<real>, show: Value -> string)

  predicate Distinct<T(==)>(s: seq<T>) {
    forall i, j :: 0 <= i < j < |s| ==> s[i] != s[j]
  }

  /** The first instant past the last year a `datetime` can name, in seconds. */
  const END_OF_CALENDAR := 253_402_300_800.0

  function MaxReal(a: real, b: real): real { if a < b then b else a }

  /** `str.lower` on ASCII text. */
  function LowerChar(c: char): char {
    if 'A' <= c <= 'Z' then (c as int + 32) as char else c
  }

  function Lower(s: string): (r: string)
    ensures |r| == |s| && forall i :: 0 <= i < |s| ==> r[i] == LowerChar(s[i])
  {
    seq(|s|, i requires 0 <= i < |s| => LowerChar(s[i]))
  }

  /** `str.isspace` for one character. */
  predicate IsSpace(c: char) {
    || '\t' <= c <= '\r' || '\U{1C}' <= c <= ' ' || c == '\U{85}' || c == '\U{A0}' || c == '\U{1680}'
    || '\U{2000}' <= c <= '\U{200A}' || c == '\U{2028}' || c == '\U{2029}' || c == '\U{202F}'
    || c == '\U{205F}' || c == '\U{3000}'
  }

  function LStrip(s: string): (r: string)
    ensures |r| <= |s|
    ensures r != "" ==> !IsSpace(r[0]) && r[|r| - 1] == s[|s| - 1]
  {
    if s != "" && IsSpace(s[0]) then LStrip(s[1..]) else s
  }

  function RStrip(s: string): (r: string)
    ensures |r| <= |s|
    ensures r != "" ==> !IsSpace(r[|r| - 1]) && r[0] == s[0]
  {
    if s != "" && IsSpace(s[|s| - 1]) then RStrip(s[..|s| - 1]) else s
  }

  /** `s.strip()`: no surrounding space is left, so stripping again changes nothing. */
  function Strip(s: string): (r: string)
    ensures r != "" ==> !IsSpace(r[0]) && !IsSpace(r[|r| - 1])
    ensures s != "" && !IsSpace(s[0]) && !IsSpace(s[|s| - 1]) ==> r == s
  {
    RStrip(LStrip(s))
  }

  predicate AllSpace(s: string) {
    forall i :: 0 <= i < |s| ==> IsSpace(s[i])
  }

  /** Stripping takes away nothing but surrounding space. */
  lemma StripMeans(s: string) returns (front: string, back: string)
    ensures s == front + Strip(s) + back && AllSpace(front) && AllSpace(back)
  {
    hide IsSpace;
    front := LeadingSpace(s);
    var text := LStrip(s);
    back := TrailingSpace(text);
  }

  lemma {:induction false} LeadingSpace(s: string) returns (front: string)
    ensures s == front + LStrip(s) && AllSpace(front)
  {
    hide IsSpace;
    if s != "" && IsSpace(s[0]) {
      var rest := LeadingSpace(s[1..]);
      front := [s[0]] + rest;
    } else {
      front := "";
    }
  }

  lemma {:induction false} TrailingSpace(s: string) returns (back: string)
    ensures s == RStrip(s) + back && AllSpace(back)
  {
    hide IsSpace;
    if s != "" && IsSpace(s[|s| - 1]) {
      var rest := TrailingSpace(s[..|s| - 1]);
      back := rest + [s[|s| - 1]];
      assert s == s[..|s| - 1] + [s[|s| - 1]];
    } else {
      back := "";
    }
  }

  /** Nothing is left exactly of a text that is all space. */
  lemma BlankMeans(s: string)
    ensures Strip(s) == "" <==> AllSpace(s)
  {
    hide IsSpace;
    var front, back := StripMeans(s);
    if Strip(s) != "" {
      assert s[|front|] == Strip(s)[0];
    }
  }

  /** Only one text is left when all surrounding space is taken away. */
  lemma StripOf(front: string, text: string, back: string)
    requires AllSpace(front) && AllSpace(back)
    requires text != "" && !IsSpace(text[0]) && !IsSpace(text[|text| - 1])
    ensures Strip(front + text + back) == text
  {
    hide IsSpace;
    var s := front + text + back;
    var f, b := StripMeans(s);
    var kept := Strip(s);
    BlankMeans(s);
    assert s[|front|] == text[0] && s[|front| + |text| - 1] == text[|text| - 1];
    assert s[|f|] == kept[0] && s[|f| + |kept| - 1] == kept[|kept| - 1];
    assert |f| == |front| by { SamePlace(s, f, front); }
    assert |b| == |back| by {
      assert forall i :: 0 <= i < |b| ==> s[|s| - |b| + i] == b[i];
      assert forall i :: 0 <= i < |back| ==> s[|s| - |back| + i] == back[i];
    }
    assert kept == s[|f|..|s| - |b|];
  }

  lemma SamePlace(s: string, a: string, b: string)
    requires a <= s && b <= s && AllSpace(a) && AllSpace(b) && |a| < |s| && |b| < |s|
    requires !IsSpace(s[|a|]) && !IsSpace(s[|b|])
    ensures |a| == |b|
  {
    hide IsSpace;
    assert forall i :: 0 <= i < |a| ==> IsSpace(s[i]);
    assert forall i :: 0 <= i < |b| ==> IsSpace(s[i]);
  }

  /** A character is a small letter or the capital of it. */
  predicate IsLetter(c: char, small: char) {
    c == small || ('a' <= small <= 'z' && c as int == small as int - 32)
  }

  /** A text names a word: in any case, with any space around it. */
  ghost predicate Names(text: string, word: string) {
    exists i :: NamesAt(text, word, i)
  }

  predicate NamesAt(text: string, word: string, i: int) {
    && 0 <= i <= |text| - |word| && AllSpace(text[..i]) && AllSpace(text[i + |word|..])
    && forall k :: 0 <= k < |word| ==> IsLetter(text[i + k], word[k])
  }

  predicate PlainWord(word: string) {
    word != "" && forall k :: 0 <= k < |word| ==> 'a' <= word[k] <= 'z' || '0' <= word[k] <= '9'
  }

  lemma LetterMeans(c: char, small: char)
    requires 'a' <= small <= 'z' || '0' <= small <= '9'
    ensures LowerChar(c) == small <==> IsLetter(c, small)
    ensures IsLetter(c, small) ==> !IsSpace(c)
  {
  }

  /** Stripped and put into small letters, a text is the word exactly when it names it. */
  lemma NamesMeans(text: string, word: string)
    requires PlainWord(word)
    ensures Lower(Strip(text)) == word <==> Names(text, word)
  {
    hide IsSpace, IsLetter, LowerChar, Strip, NamesAt;
    if Lower(Strip(text)) == word {
      LoweredNames(text, word);
    }
    if Names(text, word) {
      var i :| NamesAt(text, word, i);
      NamedIsLowered(text, word, i);
    }
  }

  lemma LoweredNames(text: string, word: string)
    requires PlainWord(word) && Lower(Strip(text)) == word
    ensures Names(text, word)
  {
    hide IsSpace, IsLetter, LowerChar;
    var front, back := StripMeans(text);
    var i := |front|;
    assert text[..i] == front && text[i + |word|..] == back;
    forall k | 0 <= k < |word| ensures IsLetter(text[i + k], word[k]) {
      assert text[i + k] == Strip(text)[k] && LowerChar(Strip(text)[k]) == word[k];
      LetterMeans(text[i + k], word[k]);
    }
    assert NamesAt(text, word, i);
  }

  lemma NamedIsLowered(text: string, word: string, i: int)
    requires PlainWord(word) && NamesAt(text, word, i)
    ensures Lower(Strip(text)) == word
  {
    hide IsSpace, IsLetter, LowerChar, Strip;
    var n := |word|;
    var kept := text[i..i + n];
    forall k | 0 <= k < n ensures LowerChar(kept[k]) == word[k] && !IsSpace(kept[k]) {
      assert kept[k] == text[i + k];
      LetterMeans(text[i + k], word[k]);
    }
    assert text == text[..i] + kept + text[i + n..];
    StripOf(text[..i], kept, text[i + n..]);
    assert Lower(kept) == word;
  }

  /** `" ".join(s.split())`: surrounding space goes, every inner run of it becomes one blank. */
  function Collapse(s: string): (r: string)
    ensures |r| <= |s|
    ensures forall i :: 0 <= i < |r| && IsSpace(r[i]) ==> r[i] == ' ' && i + 1 < |r| && !IsSpace(r[i + 1])
  {
    var text := LStrip(s);
    if text == "" then "" else CollapseRest(text)
  }

  function CollapseRest(s: string): (r: string)
    ensures |r| <= |s|
    ensures s != "" && !IsSpace(s[0]) ==> r != "" && r[0] == s[0]
    ensures forall i :: 0 <= i < |r| && IsSpace(r[i]) ==> r[i] == ' ' && i + 1 < |r| && !IsSpace(r[i + 1])
    decreases |s|
  {
    if s == "" then ""
    else if IsSpace(s[0]) then
      var rest := LStrip(s[1..]);
      if rest == "" then "" else " " + CollapseRest(rest)
    else [s[0]] + CollapseRest(s[1..])
  }

  predicate Truthy(v: Value) {
    match v
    case VNull => false
    case VBool(b) => b
    case VInt(n) => n != 0
    case VReal(r) => r != 0.0
    case VStr(s) => s != ""
    case VList(items) => items != []
    case VObject(repr) => repr != "{}"
  }

  function Str(py: Python, v: Value): string {
    if v.VStr? then v.s else py.show(v)
  }

  /** `int(x)` drops the fraction: it rounds toward zero. */
  function TruncateReal(r: real): int {
    if r >= 0.0 then r.Floor else -((-r).Floor)
  }

  function ToInt(py: Python, v: Value): Option<int> {
    match v
    case VBool(b) => Some(if b then 1 else 0)
    case VInt(n) => Some(n)
    case VReal(r) => Some(TruncateReal(r))
    case VStr(s) => py.parseInt(s)
    case _ => None
  }

  function ToFloat(py: Python, v: Value): Option<real> {
    match v
    case VBool(b) => Some(if b then 1.0 else 0.0)
    case VInt(n) => Some(n as real)
    case VReal(r) => Some(r)
    case VStr(s) => py.parseFloat(s)
    case _ => None
  }
}

/** The investor profile and its normaliser. */
module InvestorProfiles {
  import opened PyValues

  datatype Field =
    | Enabled | PrimaryPreset | RiskAppetite | RiskCapacity | RiskMismatch | HoldingHorizon
    | DrawdownTolerance | ConcentrationLimit | PreferredEdge | Avoidances | BehavioralFlags
    | FreeformNotes | DefaultStance | SkillMode | LastReviewedAt | UpdatedAt

  /** A key of a payload from outside: the name of a profile field, or any other text. */
  datatype Key = Known(field: Field) | Unknown(name: string)

  type Payload = map<Key, Value>

  const LIST_FIELDS: set<Field> := {PreferredEdge, Avoidances, BehavioralFlags}
  const PRESETS: set<string> := {"growth", "value", "momentum", "income", "event_driven", "balanced", "custom"}
  const STANCES: set<string> := {
    "off", "neutral", "aligned", "complementary", "strict_risk_control", "valuation_rationalist",
    "growth_opportunity"}
  const SKILL_MODES: set<string> := {"off", "suggest_only"}
  const HOLDING_HORIZONS: set<string> := {"intraday", "days_weeks", "months", "multi_year", "mixed"}
  const RISK_MISMATCHES: set<string> := {"none", "appetite_above_capacity", "capacity_above_appetite", "unclear"}
  const MISMATCH_TOLERANCE := 1

  datatype Profile = Profile(
    enabled: Value, primaryPreset: Value, riskAppetite: Value, riskCapacity: Value, riskMismatch: Value,
    holdingHorizon: Value, drawdownTolerance: Value, concentrationLimit: Value, preferredEdge: Value,
    avoidances: Value, behavioralFlags: Value, freeformNotes: Value, defaultStance: Value, skillMode: Value,
    lastReviewedAt: Value, updatedAt: Value)
  {
    /** `getattr(profile, field)`. */
    function Get(f: Field): Value {
      match f
      case Enabled => enabled
      case PrimaryPreset => primaryPreset
      case RiskAppetite => riskAppetite
      case RiskCapacity => riskCapacity
      case RiskMismatch => riskMismatch
      case HoldingHorizon => holdingHorizon
      case DrawdownTolerance => drawdownTolerance
      case ConcentrationLimit => concentrationLimit
      case PreferredEdge => preferredEdge
      case Avoidances => avoidances
      case BehavioralFlags => behavioralFlags
      case FreeformNotes => freeformNotes
      case DefaultStance => defaultStance
      case SkillMode => skillMode
      case LastReviewedAt => lastReviewedAt
      case UpdatedAt => updatedAt
    }
  }

  function Build(g: Field -> Value): (p: Profile)
    ensures forall f: Field :: p.Get(f) == g(f)
  {
    Profile(g(Enabled), g(PrimaryPreset), g(RiskAppetite), g(RiskCapacity), g(RiskMismatch),
            g(HoldingHorizon), g(DrawdownTolerance), g(ConcentrationLimit), g(PreferredEdge),
            g(Avoidances), g(BehavioralFlags), g(FreeformNotes), g(DefaultStance), g(SkillMode),
            g(LastReviewedAt), g(UpdatedAt))
  }

  function DefaultValue(f: Field): Value {
    match f
    case Enabled => VBool(false)
    case PrimaryPreset => VStr("growth")
    case RiskMismatch => VStr("unclear")
    case HoldingHorizon => VStr("mixed")
    case PreferredEdge | Avoidances | BehavioralFlags => VList([])
    case FreeformNotes => VStr("")
    case DefaultStance => VStr("complementary")
    case SkillMode => VStr("off")
    case _ => VNull
  }

  const DEFAULT_PROFILE: Profile := Build(DefaultValue)

  function DeriveMismatch(appetite: Value, capacity: Value): Value {
    if !appetite.VInt? || !capacity.VInt? then VStr("unclear")
    else if appetite.n - capacity.n > MISMATCH_TOLERANCE then VStr("appetite_above_capacity")
    else if capacity.n - appetite.n > MISMATCH_TOLERANCE then VStr("capacity_above_appetite")
    else VStr("none")
  }

  function Choice(py: Python, v: Value, allowed: set<string>): Option<Value> {
    if Str(py, v) in allowed then Some(VStr(Str(py, v))) else None
  }

  function Score(py: Python, v: Value): Option<Value> {
    if v == VNull then Some(VNull)
    else match ToInt(py, v)
      case None => None
      case Some(n) => if 1 <= n <= 10 then Some(VInt(n)) else None
  }

  function Percent(py: Python, v: Value): Option<Value> {
    if v == VNull || v == VStr("") then Some(VNull)
    else match ToFloat(py, v)
      case None => None
      case Some(r) => if 0.0 < r <= 100.0 then Some(VReal(r)) else None
  }

  /** The list normaliser, seen from its last item: an item is kept when its stripped text is
      neither empty nor kept already. */
  function KeptTexts(py: Python, items: seq<Value>): (out: seq<string>)
    ensures CleanTexts(out)
  {
    if items == [] then []
    else
      var out := KeptTexts(py, items[..|items| - 1]);
      var text := Strip(Str(py, items[|items| - 1]));
      if text != "" && text !in out then out + [text] else out
  }

  /** Stripped, non-empty and pairwise distinct. */
  predicate CleanTexts(texts: seq<string>) {
    && (forall i :: 0 <= i < |texts| ==> texts[i] != "" && Strip(texts[i]) == texts[i])
    && (forall i, j :: 0 <= i < j < |texts| ==> texts[i] != texts[j])
  }

  function Texts(texts: seq<string>): (items: seq<Value>)
    ensures |items| == |texts| && forall i :: 0 <= i < |texts| ==> items[i] == VStr(texts[i])
  {
    seq(|texts|, i requires 0 <= i < |texts| => VStr(texts[i]))
  }

  /** The loop of the list normaliser. */
  method NormalizeStrList(py: Python, items: seq<Value>) returns (out: seq<string>)
    ensures out == KeptTexts(py, items)
  {
    out := [];
    for i := 0 to |items|
      invariant out == KeptTexts(py, items[..i])
    {
      assert items[..i + 1][..i] == items[..i];
      var text := Strip(Str(py, items[i]));
      if text != "" && text !in out {
        out := out + [text];
      }
    }
    assert items[..|items|] == items;
  }

  function StrList(py: Python, v: Value): Option<Value> {
    match v
    case VNull => Some(VList([]))
    case VList(items) => Some(VList(Texts(KeptTexts(py, items))))
    case _ => None
  }

  /** How the normaliser treats a field. */
  datatype Kind = Flag | OneOf(allowed: set<string>) | Scored | Percentage | TextList | Notes | Derived | Stamp

  function KindOf(f: Field): Kind {
    match f
    case Enabled => Flag
    case PrimaryPreset => OneOf(PRESETS)
    case RiskAppetite | RiskCapacity => Scored
    case RiskMismatch => Derived
    case HoldingHorizon => OneOf(HOLDING_HORIZONS)
    case DrawdownTolerance | ConcentrationLimit => Percentage
    case PreferredEdge | Avoidances | BehavioralFlags => TextList
    case FreeformNotes => Notes
    case DefaultStance => OneOf(STANCES)
    case SkillMode => OneOf(SKILL_MODES)
    case LastReviewedAt | UpdatedAt => Stamp
  }

  /** What the normaliser makes of the value of one field; None when it raises. */
  function NormalizeAs(py: Python, kind: Kind, v: Value): (r: Option<Value>)
    ensures kind == Derived ==> r.Some?
  {
    match kind
    case Flag => Some(VBool(Truthy(v)))
    case OneOf(allowed) => Choice(py, v, allowed)
    case Scored => Score(py, v)
    case Percentage => Percent(py, v)
    case TextList => StrList(py, v)
    case Notes => Some(VStr(if Truthy(v) then Str(py, v) else ""))
    case Derived => Some(VStr("unclear"))
    case Stamp => Some(v)
  }

  function NormalizeField(py: Python, f: Field, v: Value): (r: Option<Value>)
    ensures f == RiskMismatch ==> r.Some?
  {
    NormalizeAs(py, KindOf(f), v)
  }

  /** The value of a field after the payload has been laid over the existing profile; the
      risk mismatch is never taken from a payload. */
  function Overlaid(payload: Payload, existing: Profile, f: Field): Value {
    if Known(f) in payload && f != RiskMismatch then payload[Known(f)] else existing.Get(f)
  }

  function NormalizedField(py: Python, payload: Payload, existing: Profile, f: Field): Value {
    NormalizeField(py, f, Overlaid(payload, existing, f)).GetOr(VNull)
  }

  /** The value of a field in the normalised profile; the mismatch is derived from the scores. */
  function ResultField(py: Python, payload: Payload, existing: Profile, f: Field): Value {
    if f != RiskMismatch then NormalizedField(py, payload, existing, f)
    else DeriveMismatch(NormalizedField(py, payload, existing, RiskAppetite),
                        NormalizedField(py, payload, existing, RiskCapacity))
  }

  /** `normalize_profile_payload`: None when it raises. */
  function Normalize(py: Python, payload: Payload, existing: Profile): Option<Profile> {
    if exists k | k in payload :: k.Unknown? then None
    else if exists f: Field :: NormalizeField(py, f, Overlaid(payload, existing, f)).None? then None
    else Some(Build(f => ResultField(py, payload, existing, f)))
  }

  /** A value the normaliser leaves as it is. */
  predicate NormalValue(py: Python, f: Field, v: Value) {
    NormalizeField(py, f, v) == Some(v)
  }

  /** A profile the normaliser leaves as it is: the only kind the store ever writes. */
  ghost predicate NormalProfile(py: Python, p: Profile) {
    && (forall f: Field | f != RiskMismatch :: NormalValue(py, f, p.Get(f)))
    && p.Get(RiskMismatch) == DeriveMismatch(p.Get(RiskAppetite), p.Get(RiskCapacity))
  }

  lemma {:induction false} KeptTextsOfClean(py: Python, texts: seq<string>)
    requires CleanTexts(texts)
    ensures KeptTexts(py, Texts(texts)) == texts
  {
    hide Strip, LStrip, RStrip, IsSpace;
    if texts == [] {
    } else {
      var n := |texts| - 1;
      var init := texts[..n];
      assert CleanTexts(init);
      KeptTextsOfClean(py, init);
      var items := Texts(texts);
      assert items[..n] == Texts(init);
      assert Strip(Str(py, items[n])) == texts[n];
      assert texts[n] !in init;
      assert texts == init + [texts[n]];
    }
  }

  /** Normalising is idempotent field by field. */
  lemma NormalizedIsNormal(py: Python, f: Field, v: Value)
    requires NormalizeField(py, f, v).Some?
    ensures f != RiskMismatch ==> NormalValue(py, f, NormalizeField(py, f, v).value)
  {
    if KindOf(f) == TextList {
      var items := if v.VList? then v.items else [];
      KeptTextsOfClean(py, KeptTexts(py, items));
    }
  }

  /** Whether the normaliser accepts what a payload says about a field. */
  predicate Acceptable(py: Python, payload: Payload, f: Field) {
    Known(f) in payload && f != RiskMismatch ==> NormalizeField(py, f, payload[Known(f)]).Some?
  }

  predicate AcceptablePayload(py: Python, payload: Payload) {
    (forall k | k in payload :: k.Known?) && (forall f: Field :: Acceptable(py, payload, f))
  }

  lemma OverlaidField(py: Python, payload: Payload, existing: Profile, f: Field)
    requires NormalProfile(py, existing)
    ensures var r := NormalizeField(py, f, Overlaid(payload, existing, f));
            && (r.Some? <==> Acceptable(py, payload, f))
            && (r.Some? && f != RiskMismatch ==> NormalValue(py, f, r.value))
            && (f != RiskMismatch && Known(f) !in payload ==> r == Some(existing.Get(f)))
  {
    hide NormalizeField;
    assert f != RiskMismatch ==> NormalValue(py, f, existing.Get(f));
    if NormalizeField(py, f, Overlaid(payload, existing, f)).Some? {
      NormalizedIsNormal(py, f, Overlaid(payload, existing, f));
    }
  }

  /** Normalising is field-local: it succeeds exactly when every field of the payload is
      acceptable, leaves the other fields alone, and what it returns is a normal profile. */
  lemma NormalizeIsLocal(py: Python, payload: Payload, existing: Profile)
    requires NormalProfile(py, existing)
    ensures Normalize(py, payload, existing).Some? <==> AcceptablePayload(py, payload)
    ensures Normalize(py, payload, existing).Some? ==>
              var p := Normalize(py, payload, existing).value;
              && NormalProfile(py, p)
              && (forall f: Field | f != RiskMismatch ::
                    if Known(f) in payload then Some(p.Get(f)) == NormalizeField(py, f, payload[Known(f)])
                    else p.Get(f) == existing.Get(f))
  {
    hide NormalizeField, NormalProfile, Profile.Get, Build;
    forall f: Field
      ensures NormalizeField(py, f, Overlaid(payload, existing, f)).Some? <==> Acceptable(py, payload, f)
    {
      OverlaidField(py, payload, existing, f);
    }
    if Normalize(py, payload, existing).Some? {
      NormalizedProfile(py, payload, existing);
    }
  }

  lemma NormalizedProfile(py: Python, payload: Payload, existing: Profile)
    requires NormalProfile(py, existing)
    requires Normalize(py, payload, existing).Some?
    ensures var p := Normalize(py, payload, existing).value;
            && NormalProfile(py, p)
            && (forall f: Field | f != RiskMismatch ::
                  if Known(f) in payload then Some(p.Get(f)) == NormalizeField(py, f, payload[Known(f)])
                  else p.Get(f) == existing.Get(f))
  {
    hide NormalizeField, Profile.Get, Build;
    var p := Normalize(py, payload, existing).value;
    forall f: Field | f != RiskMismatch
      ensures NormalValue(py, f, p.Get(f))
      ensures if Known(f) in payload then Some(p.Get(f)) == NormalizeField(py, f, payload[Known(f)])
              else p.Get(f) == existing.Get(f)
    {
      OverlaidField(py, payload, existing, f);
    }
  }

  lemma DefaultIsNormal(py: Python)
    ensures NormalProfile(py, DEFAULT_PROFILE)
  {
    hide Profile.Get, Build, Strip, KindOf;
    forall f: Field | f != RiskMismatch
      ensures NormalValue(py, f, DefaultValue(f))
    {
      DefaultValueIsNormal(py, f);
    }
  }

  lemma DefaultValueIsNormal(py: Python, f: Field)
    requires f != RiskMismatch
    ensures NormalValue(py, f, DefaultValue(f))
  {
    assert VList(Texts(KeptTexts(py, []))) == VList([]);
  }

  // ---------- what a profile may hold ----------

  /** The legal values of a field, as the schema of a stored profile has them. */
  predicate Legal(f: Field, v: Value) {
    match f
    case Enabled => v.VBool?
    case PrimaryPreset => v.VStr? && v.s in PRESETS
    case RiskAppetite | RiskCapacity => v == VNull || (v.VInt? && 1 <= v.n <= 10)
    case RiskMismatch => v.VStr? && v.s in RISK_MISMATCHES
    case HoldingHorizon => v.VStr? && v.s in HOLDING_HORIZONS
    case DrawdownTolerance | ConcentrationLimit => v == VNull || (v.VReal? && 0.0 < v.r <= 100.0)
    case PreferredEdge | Avoidances | BehavioralFlags => TidyList(v)
    case FreeformNotes => v.VStr?
    case DefaultStance => v.VStr? && v.s in STANCES
    case SkillMode => v.VStr? && v.s in SKILL_MODES
    case LastReviewedAt | UpdatedAt => true
  }

  /** Texts without surrounding space, none empty and none twice. */
  predicate TidyList(v: Value) {
    && v.VList? && (forall i :: 0 <= i < |v.items| ==> v.items[i].VStr? && v.items[i].s != "")
    && (forall i :: 0 <= i < |v.items| ==> !IsSpace(v.items[i].s[0]) && !IsSpace(v.items[i].s[|v.items[i].s| - 1]))
    && (forall i, j :: 0 <= i < j < |v.items| ==> v.items[i] != v.items[j])
  }

  lemma TidyIsNormal(py: Python, v: Value)
    requires TidyList(v)
    ensures StrList(py, v) == Some(v)
  {
    hide IsSpace;
    var texts := seq(|v.items|, i requires 0 <= i < |v.items| => v.items[i].s);
    forall i, j | 0 <= i < j < |texts| ensures texts[i] != texts[j] {
      assert v.items[i] != v.items[j];
    }
    assert CleanTexts(texts);
    KeptTextsOfClean(py, texts);
    assert Texts(texts) == v.items;
  }

  lemma NormalListIsTidy(py: Python, v: Value)
    requires StrList(py, v) == Some(v)
    ensures TidyList(v)
  {
    hide IsSpace, Strip;
    if v.VList? {
      var texts := KeptTexts(py, v.items);
      assert v.items == Texts(texts);
      forall i | 0 <= i < |texts| ensures v.items[i] == VStr(texts[i]) && Strip(texts[i]) == texts[i]
          && texts[i] != "" {
      }
    }
  }

  /** The normaliser leaves exactly the legal values alone. */
  lemma NormalIsLegal(py: Python, f: Field, v: Value)
    requires f != RiskMismatch
    ensures NormalValue(py, f, v) <==> Legal(f, v)
  {
    hide TidyList, KeptTexts, StrList;
    if f in LIST_FIELDS {
      if TidyList(v) { TidyIsNormal(py, v); }
      if StrList(py, v) == Some(v) { NormalListIsTidy(py, v); }
    }
  }

  /** What the risk mismatch says of the two scores. */
  predicate MismatchTells(p: Profile) {
    var appetite, capacity, says := p.riskAppetite, p.riskCapacity, p.riskMismatch;
    && (says == VStr("unclear") <==> appetite == VNull || capacity == VNull)
    && (says == VStr("appetite_above_capacity") <==> appetite.VInt? && capacity.VInt? && appetite.n >= capacity.n + 2)
    && (says == VStr("capacity_above_appetite") <==> appetite.VInt? && capacity.VInt? && capacity.n >= appetite.n + 2)
    && (says == VStr("none") <==>
          appetite.VInt? && capacity.VInt? && capacity.n - 1 <= appetite.n <= capacity.n + 1)
  }

  /** Every value legal, and the mismatch true of the scores. */
  ghost predicate SoundProfile(p: Profile) {
    (forall f: Field :: Legal(f, p.Get(f))) && MismatchTells(p)
  }

  lemma NormalProfileIsSound(py: Python, p: Profile)
    requires NormalProfile(py, p)
    ensures SoundProfile(p)
  {
    hide NormalValue, Legal;
    forall f: Field | f != RiskMismatch ensures Legal(f, p.Get(f)) {
      assert NormalValue(py, f, p.Get(f));
      NormalIsLegal(py, f, p.Get(f));
    }
    ScoreIsLegal(RiskAppetite, p.riskAppetite);
    ScoreIsLegal(RiskCapacity, p.riskCapacity);
    assert p.Get(RiskAppetite) == p.riskAppetite && p.Get(RiskCapacity) == p.riskCapacity;
    assert p.Get(RiskMismatch) == p.riskMismatch;
    MismatchIsLegal(p.riskMismatch);
  }

  lemma ScoreIsLegal(f: Field, v: Value)
    requires f == RiskAppetite || f == RiskCapacity
    ensures Legal(f, v) <==> v == VNull || (v.VInt? && 1 <= v.n <= 10)
  {
  }

  lemma MismatchIsLegal(v: Value)
    ensures Legal(RiskMismatch, v) <==> v.VStr? && v.s in RISK_MISMATCHES
  {
  }

  // ---------- what the normaliser makes of raw values ----------

  /** A raw value reads as a whole number: the fraction of a positive one is dropped. */
  predicate ReadsAsInt(py: Python, v: Value, n: int) {
    match v
    case VBool(b) => n == if b then 1 else 0
    case VInt(i) => n == i
    case VReal(x) => n >= 1 && n as real <= x < n as real + 1.0
    case VStr(s) => py.parseInt(s) == Some(n)
    case _ => false
  }

  predicate ReadsAsReal(py: Python, v: Value, x: real) {
    match v
    case VBool(b) => x == if b then 1.0 else 0.0
    case VInt(i) => x == i as real
    case VReal(r) => x == r
    case VStr(s) => py.parseFloat(s) == Some(x)
    case _ => false
  }

  /** An item of a raw list has a text: its own or its printed one, without surrounding space. */
  ghost predicate HasText(py: Python, item: Value, text: string) {
    Strip(if item.VStr? then item.s else py.show(item)) == text
  }

  ghost predicate TextSeen(py: Python, items: seq<Value>, text: string) {
    exists i :: 0 <= i < |items| && HasText(py, items[i], text)
  }

  /** The first item with the text `a` comes before every item with the text `b`. */
  ghost predicate TextSeenFirst(py: Python, items: seq<Value>, a: string, b: string) {
    exists i :: 0 <= i < |items| && HasText(py, items[i], a) && !TextSeen(py, items[..i + 1], b)
  }

  /** A list keeps exactly the texts of its items that are not empty, each once, in the order in
      which they are first seen. */
  ghost predicate ReadsAsTexts(py: Python, items: seq<Value>, out: seq<Value>) {
    && TidyList(VList(out))
    && (forall t :: VStr(t) in out <==> t != "" && TextSeen(py, items, t))
    && (forall i, j :: 0 <= i < j < |out| ==> TextSeenFirst(py, items, out[i].s, out[j].s))
  }

  /** A raw value of a field reads as a legal one. A missing score or percentage stays missing, and
      so does a percentage given as the empty text; a choice is taken by its name; values Python
      takes for false switch the profile off and leave the notes empty. */
  ghost predicate Reads(py: Python, f: Field, v: Value, r: Value) {
    var printed := if v.VStr? then v.s else py.show(v);
    var nothing := v in {VNull, VBool(false), VInt(0), VReal(0.0), VStr(""), VList([]), VObject("{}")};
    match f
    case Enabled => r == VBool(!nothing)
    case RiskAppetite | RiskCapacity =>
      (v == VNull && r == VNull) || (r.VInt? && 1 <= r.n <= 10 && ReadsAsInt(py, v, r.n))
    case DrawdownTolerance | ConcentrationLimit =>
      if v == VNull || v == VStr("") then r == VNull else r.VReal? && 0.0 < r.r <= 100.0 && ReadsAsReal(py, v, r.r)
    case PrimaryPreset | HoldingHorizon | DefaultStance | SkillMode => Legal(f, r) && r == VStr(printed)
    case PreferredEdge | Avoidances | BehavioralFlags =>
      (v == VNull && r == VList([])) || (v.VList? && r.VList? && ReadsAsTexts(py, v.items, r.items))
    case FreeformNotes => r == VStr(if nothing then "" else printed)
    case LastReviewedAt | UpdatedAt => r == v
    case RiskMismatch => false
  }

  /** The normaliser gives what the raw value reads as, and raises exactly when it reads as nothing. */
  lemma NormalizeMeans(py: Python, f: Field, v: Value)
    requires f != RiskMismatch
    ensures match NormalizeField(py, f, v)
            case Some(r) => Reads(py, f, v, r)
            case None => forall r :: !Reads(py, f, v, r)
  {
    hide ReadsAsTexts, TidyList, KeptTexts;
    if f in LIST_FIELDS && v.VList? {
      KeptTextsAre(py, v.items);
    } else if f == RiskAppetite || f == RiskCapacity {
      ScoreMeans(py, f, v);
    }
  }

  lemma ScoreMeans(py: Python, f: Field, v: Value)
    requires f == RiskAppetite || f == RiskCapacity
    ensures forall r :: NormalizeField(py, f, v) == Some(r) <==> Reads(py, f, v, r)
  {
  }

  lemma NormalListIsTidyOf(texts: seq<string>)
    requires CleanTexts(texts)
    ensures TidyList(VList(Texts(texts)))
  {
    hide IsSpace, LStrip, RStrip, Strip;
    forall i | 0 <= i < |texts| ensures !IsSpace(texts[i][0]) && !IsSpace(texts[i][|texts[i]| - 1]) {
      assert Strip(texts[i]) == texts[i];
    }
  }

  lemma SeenWithLast(py: Python, items: seq<Value>, last: Value, text: string)
    ensures TextSeen(py, items + [last], text) <==> TextSeen(py, items, text) || HasText(py, last, text)
  {
    hide HasText;
    var all := items + [last];
    if TextSeen(py, items, text) {
      var i :| 0 <= i < |items| && HasText(py, items[i], text);
      assert HasText(py, all[i], text);
    }
    assert all[|items|] == last;
  }

  lemma SeenInWhole(py: Python, items: seq<Value>, n: nat, text: string)
    requires n <= |items| && TextSeen(py, items[..n], text)
    ensures TextSeen(py, items, text)
  {
    hide HasText;
    var k :| 0 <= k < n && HasText(py, items[..n][k], text);
    assert items[..n][k] == items[k];
  }

  lemma SeenFirstStays(py: Python, items: seq<Value>, last: Value, a: string, b: string)
    requires TextSeenFirst(py, items, a, b) || (TextSeen(py, items, a) && !TextSeen(py, items, b))
    ensures TextSeenFirst(py, items + [last], a, b)
  {
    hide HasText;
    var i :| 0 <= i < |items| && HasText(py, items[i], a)
             && (TextSeen(py, items, b) ==> !TextSeen(py, items[..i + 1], b));
    assert (items + [last])[..i + 1] == items[..i + 1];
    if TextSeen(py, items[..i + 1], b) {
      SeenInWhole(py, items, i + 1, b);
    }
    assert HasText(py, (items + [last])[i], a);
  }

  lemma {:induction false} KeptInOrder(py: Python, items: seq<Value>)
    ensures var out := KeptTexts(py, items);
            && (forall t :: t in out <==> t != "" && TextSeen(py, items, t))
            && (forall i, j :: 0 <= i < j < |out| ==> TextSeenFirst(py, items, out[i], out[j]))
  {
    hide IsSpace, Strip, CleanTexts, TextSeen, TextSeenFirst;
    if items == [] {
      NothingSeen(py);
    } else {
      var init, last := items[..|items| - 1], items[|items| - 1];
      var kept, out := KeptTexts(py, init), KeptTexts(py, items);
      assert items == init + [last];
      KeptInOrder(py, init);
      forall t ensures t in out <==> t != "" && TextSeen(py, items, t) {
        SeenWithLast(py, init, last, t);
        assert HasText(py, last, t) <==> Strip(Str(py, last)) == t;
      }
      forall i, j | 0 <= i < j < |out| ensures TextSeenFirst(py, items, out[i], out[j]) {
        assert out[i] in kept && (j < |kept| || out[j] !in kept);
        SeenFirstStays(py, init, last, out[i], out[j]);
      }
    }
  }

  lemma NothingSeen(py: Python)
    ensures forall t :: !TextSeen(py, [], t)
  {
  }

  lemma KeptTextsAre(py: Python, items: seq<Value>)
    ensures ReadsAsTexts(py, items, Texts(KeptTexts(py, items)))
  {
    hide KeptTexts, TextSeen, TextSeenFirst, TidyList;
    var texts := KeptTexts(py, items);
    var out := Texts(texts);
    NormalListIsTidyOf(texts);
    KeptInOrder(py, items);
    forall t ensures VStr(t) in out <==> t in texts {
      if t in texts {
        var i :| 0 <= i < |texts| && texts[i] == t;
        assert out[i] == VStr(t);
      }
    }
  }
}
