/** The interview catalogue and the clamping of proposals to covered topics. */
module CalibrationPolicy {
  import opened PyValues
  import opened InvestorProfiles

  datatype Topic =
    | LossResponse | FinancialCapacity | TimeHorizon | SinglePositionLimit
    | RiskAvoidances | BehavioralPatterns | InvestmentApproach | AssistantStyle
    | UnknownTopic(name: string)

  const CATALOGUE: seq<Topic> := [
    LossResponse, FinancialCapacity, TimeHorizon, SinglePositionLimit,
    RiskAvoidances, BehavioralPatterns, InvestmentApproach, AssistantStyle]

  function TopicFields(t: Topic): seq<Field> {
    match t
    case LossResponse => [RiskAppetite, DrawdownTolerance]
    case FinancialCapacity => [RiskCapacity]
    case TimeHorizon => [HoldingHorizon]
    case SinglePositionLimit => [ConcentrationLimit]
    case RiskAvoidances => [Avoidances]
    case BehavioralPatterns => [BehavioralFlags]
    case InvestmentApproach => [PrimaryPreset, PreferredEdge]
    case AssistantStyle => [DefaultStance]
    case UnknownTopic(_) => []
  }

  /** The members of `order` that are selected, in that order. */
  function Select<T(==,!new)>(order: seq<T>, selected: set<T>): (r: seq<T>)
    ensures forall x :: x in r <==> x in order && x in selected
  {
    if order == [] then []
    else (if order[0] in selected then [order[0]] else []) + Select(order[1..], selected)
  }

  function Elements<T>(s: seq<T>): set<T> {
    set x | x in s
  }

  /** First occurrences of the topics outside the catalogue, in source order. */
  function UnknownOnce(source: seq<Topic>): (r: seq<Topic>)
    ensures forall t :: t in r <==> t in source && t !in CATALOGUE
    ensures (forall t :: t in source ==> t in CATALOGUE) ==> r == []
  {
    if source == [] then []
    else
      var rest := UnknownOnce(source[..|source| - 1]);
      var last := source[|source| - 1];
      if last in CATALOGUE || last in rest then rest else rest + [last]
  }

  /** `_ordered_topics`: known topics in catalogue order, then the unknown ones. */
  function OrderedTopics(source: seq<Topic>): (r: seq<Topic>)
    ensures Elements(r) == Elements(source)
  {
    Select(CATALOGUE, Elements(source)) + UnknownOnce(source)
  }

  /** A list of covered topics as the store keeps it. */
  predicate InCatalogueOrder(topics: seq<Topic>) {
    topics == Select(CATALOGUE, Elements(topics))
  }

  /** `fields_for_topics`: the field union in catalogue order. */
  function FieldsOf(topics: seq<Topic>): (r: seq<Field>)
    ensures forall f :: f in r <==> exists t :: t in topics && f in TopicFields(t)
  {
    if topics == [] then [] else TopicFields(topics[0]) + FieldsOf(topics[1..])
  }

  function FieldsForTopics(selected: set<Topic>): (r: seq<Field>)
    ensures forall f :: f in r <==> exists t :: t in CATALOGUE && t in selected && f in TopicFields(t)
  {
    FieldsOf(Select(CATALOGUE, selected))
  }

  const PROPOSABLE: seq<Field> := FieldsOf(CATALOGUE)

  datatype Entry = Entry(field: Field, value: Value)

  /** A partial profile as a dictionary that remembers the order of its keys. */
  type Patch = seq<Entry>

  function PatchFields(patch: Patch): (r: seq<Field>)
    ensures |r| == |patch| && forall i :: 0 <= i < |r| ==> r[i] == patch[i].field
  {
    seq(|patch|, i requires 0 <= i < |patch| => patch[i].field)
  }

  function PatchOf(fields: seq<Field>, p: Profile): (r: Patch)
    ensures PatchFields(r) == fields
    ensures forall i :: 0 <= i < |r| ==> r[i] == Entry(fields[i], p.Get(fields[i]))
  {
    seq(|fields|, i requires 0 <= i < |fields| => Entry(fields[i], p.Get(fields[i])))
  }

  /** The patch as the payload it was written from. */
  function PatchPayload(patch: Patch): (r: Payload)
    ensures forall k :: k in r <==> k.Known? && k.field in PatchFields(patch)
    ensures Distinct(PatchFields(patch)) ==>
              forall i :: 0 <= i < |patch| ==> r[Known(patch[i].field)] == patch[i].value
  {
    if patch == [] then map[]
    else
      var init := patch[..|patch| - 1];
      var last := patch[|patch| - 1];
      assert PatchFields(patch) == PatchFields(init) + [last.field];
      PatchPayload(init)[Known(last.field) := last.value]
  }

  datatype Clamped = Clamped(patch: Option<Patch>, rejected: set<Key>)

  /** The part of a raw patch that covered topics allow. */
  function LegalPart(raw: Payload, legal: seq<Field>): (r: Payload) {
    map k | k in raw && k.Known? && k.field in legal :: raw[k]
  }

  /** `clamp_proposal_patch`; None when normalisation raises. */
  function Clamp(py: Python, raw: Payload, covered: set<Topic>, current: Profile): Option<Clamped> {
    var legal := FieldsForTopics(covered);
    var part := LegalPart(raw, legal);
    var rejected := set k | k in raw && !(k.Known? && k.field in legal);
    if part == map[] then Some(Clamped(None, rejected))
    else match Normalize(py, part, current)
      case None => None
      case Some(normal) =>
        var fields := Select(legal, set f | f in legal && Known(f) in raw);
        Some(Clamped(Some(PatchOf(fields, normal)), rejected))
  }

  predicate ValidAddressed(addressed: Topic, current: Topic) {
    current in CATALOGUE && addressed == current
  }

  predicate ValidNext(next: Option<Topic>, covered: seq<Topic>) {
    next.Some? ==> next.value in CATALOGUE && next.value !in covered
  }

  lemma {:induction false} SelectAgrees<T(!new)>(order: seq<T>, a: set<T>, b: set<T>)
    requires forall x :: x in order ==> (x in a <==> x in b)
    ensures Select(order, a) == Select(order, b)
  {
    if order == [] {
    } else {
      SelectAgrees(order[1..], a, b);
    }
  }

  lemma {:induction false} SelectDistinct<T(!new)>(order: seq<T>, a: set<T>)
    requires Distinct(order)
    ensures Distinct(Select(order, a))
  {
    if order == [] {
    } else {
      SelectDistinct(order[1..], a);
      assert forall x :: x in Select(order[1..], a) ==> x in order[1..];
    }
  }

  /** Each entry of `r` occurs in the source before the next one first does. */
  ghost predicate SeenInOrder(r: seq<Topic>, source: seq<Topic>) {
    forall i, j :: 0 <= i < j < |r| ==> SeenBefore(r[i], r[j], source)
  }

  ghost predicate SeenBefore(a: Topic, b: Topic, source: seq<Topic>) {
    exists k :: 0 <= k < |source| && source[k] == a && b !in source[..k + 1]
  }

  lemma SeenLonger(a: Topic, b: Topic, source: seq<Topic>, last: Topic)
    requires SeenBefore(a, b, source)
    ensures SeenBefore(a, b, source + [last])
  {
    var k :| 0 <= k < |source| && source[k] == a && b !in source[..k + 1];
    assert (source + [last])[..k + 1] == source[..k + 1] && (source + [last])[k] == a;
  }

  lemma SeenAtLast(a: Topic, source: seq<Topic>, last: Topic)
    requires a in source && last !in source
    ensures SeenBefore(a, last, source + [last])
  {
    var k :| 0 <= k < |source| && source[k] == a;
    assert (source + [last])[..k + 1] == source[..k + 1] && (source + [last])[k] == a;
  }

  lemma {:induction false} UnknownOnceIsFirstSeen(source: seq<Topic>)
    ensures Distinct(UnknownOnce(source)) && SeenInOrder(UnknownOnce(source), source)
  {
    hide CATALOGUE, SeenBefore;
    if source == [] {
    } else {
      var init, last := source[..|source| - 1], source[|source| - 1];
      var rest, r := UnknownOnce(init), UnknownOnce(source);
      UnknownOnceIsFirstSeen(init);
      assert source == init + [last];
      forall i, j | 0 <= i < j < |r| ensures SeenBefore(r[i], r[j], source) {
        if j < |rest| {
          SeenLonger(rest[i], rest[j], init, last);
        } else {
          assert rest[i] in rest;
          SeenAtLast(rest[i], init, last);
        }
      }
    }
  }

  lemma {:induction false} UnknownOnceOfOrdered(known: seq<Topic>, rest: seq<Topic>)
    requires (forall t :: t in known ==> t in CATALOGUE) && (forall t :: t in rest ==> t !in CATALOGUE)
        && Distinct(rest)
    ensures UnknownOnce(known + rest) == rest
  {
    hide CATALOGUE;
    if rest == [] {
      assert known + rest == known;
    } else {
      var n := |rest| - 1;
      assert (known + rest)[..|known| + n] == known + rest[..n];
      UnknownOnceOfOrdered(known, rest[..n]);
      assert rest[..n] + [rest[n]] == rest;
    }
  }

  lemma CatalogueIsDistinct()
    ensures Distinct(CATALOGUE)
  {
  }

  /** Whatever topics are given, none comes out twice: the known ones first, in catalogue order,
      then the others in the order they were first seen; ordering again changes nothing. */
  lemma TopicsComeOutInOrder(source: seq<Topic>)
    ensures var r := OrderedTopics(source);
            var known := Select(CATALOGUE, Elements(source));
            && Distinct(r) && known <= r && (forall t :: t in r[|known|..] <==> t in source && t !in CATALOGUE)
            && InCatalogueOrder(known) && SeenInOrder(r[|known|..], source)
            && OrderedTopics(r) == r
  {
    hide CATALOGUE, Select, UnknownOnce, SeenInOrder;
    CatalogueIsDistinct();
    var known, rest := Select(CATALOGUE, Elements(source)), UnknownOnce(source);
    var r := OrderedTopics(source);
    SelectAgrees(CATALOGUE, Elements(source), Elements(known));
    SelectDistinct(CATALOGUE, Elements(source));
    UnknownOnceIsFirstSeen(source);
    UnknownOnceOfOrdered(known, rest);
    DistinctConcat(known, rest);
    assert r[|known|..] == rest;
  }

  /** Ordering is a closure: once in catalogue order, ordering again changes nothing. */
  lemma OrderedIsCatalogueOrder(source: seq<Topic>)
    requires forall t :: t in source ==> t in CATALOGUE
    ensures InCatalogueOrder(OrderedTopics(source))
    ensures InCatalogueOrder(source) ==> OrderedTopics(source) == source
    ensures Distinct(OrderedTopics(source))
  {
    hide CATALOGUE, Select;
    CatalogueIsDistinct();
    SelectAgrees(CATALOGUE, Elements(source), Elements(OrderedTopics(source)));
    SelectDistinct(CATALOGUE, Elements(source));
  }

  /** No field is asked about twice, and none of the reserved ones is ever asked about. */
  lemma ProposableFields(selected: set<Topic>)
    ensures Distinct(FieldsForTopics(selected))
    ensures forall f :: f in FieldsForTopics(selected) ==>
              f !in {Enabled, FreeformNotes, SkillMode, RiskMismatch, LastReviewedAt, UpdatedAt}
  {
    SelectDistinct(CATALOGUE, selected);
    DistinctFields(Select(CATALOGUE, selected));
  }

  lemma OwnFields(t: Topic)
    ensures Distinct(TopicFields(t))
    ensures forall f :: f in TopicFields(t) ==>
              f !in {Enabled, FreeformNotes, SkillMode, RiskMismatch, LastReviewedAt, UpdatedAt}
  {
  }

  lemma {:induction false} DistinctFields(topics: seq<Topic>)
    requires Distinct(topics)
    ensures Distinct(FieldsOf(topics))
    ensures forall f :: f in FieldsOf(topics) ==>
              f !in {Enabled, FreeformNotes, SkillMode, RiskMismatch, LastReviewedAt, UpdatedAt}
  {
    hide TopicFields;
    if topics == [] {
    } else {
      DistinctFields(topics[1..]);
      OwnFields(topics[0]);
      forall f | f in TopicFields(topics[0])
        ensures f !in FieldsOf(topics[1..])
      {
        if f in FieldsOf(topics[1..]) {
          var t :| t in topics[1..] && f in TopicFields(t);
          TopicOwnsField(topics[0], t, f);
        }
      }
      DistinctConcat(TopicFields(topics[0]), FieldsOf(topics[1..]));
    }
  }

  lemma DistinctConcat<T>(a: seq<T>, b: seq<T>)
    requires Distinct(a) && Distinct(b)
    requires forall x | x in a :: x !in b
    ensures Distinct(a + b)
  {
    forall i, j | 0 <= i < j < |a + b|
      ensures (a + b)[i] != (a + b)[j]
    {
      if i < |a| <= j {
        assert a[i] in a && b[j - |a|] in b;
      }
    }
  }

  lemma TopicOwnsField(a: Topic, b: Topic, f: Field)
    requires f in TopicFields(a) && f in TopicFields(b)
    ensures a == b
  {
  }
}
