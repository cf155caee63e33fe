/** What a completion does, told from the provider's result and the rows before it: which results
    are refused and how, and which draft an accepted one leaves. */
module CompletionTheorems {
  import opened PyValues
  import opened InvestorProfiles
  import opened CalibrationPolicy
  import opened ProposalApproval
  import opened CalibrationJournal
  import opened JournalInvariant

  // ---------- the catalogue, field by field ----------

  /** The topic whose coverage opens a field for proposals. */
  function Owner(f: Field): Option<Topic> {
    match f
    case RiskAppetite | DrawdownTolerance => Some(LossResponse)
    case RiskCapacity => Some(FinancialCapacity)
    case HoldingHorizon => Some(TimeHorizon)
    case ConcentrationLimit => Some(SinglePositionLimit)
    case Avoidances => Some(RiskAvoidances)
    case BehavioralFlags => Some(BehavioralPatterns)
    case PrimaryPreset | PreferredEdge => Some(InvestmentApproach)
    case DefaultStance => Some(AssistantStyle)
    case Enabled | FreeformNotes | SkillMode | RiskMismatch | LastReviewedAt | UpdatedAt => None
  }

  /** The place of a topic in the catalogue. */
  function Rank(t: Topic): nat {
    match t
    case LossResponse => 0
    case FinancialCapacity => 1
    case TimeHorizon => 2
    case SinglePositionLimit => 3
    case RiskAvoidances => 4
    case BehavioralPatterns => 5
    case InvestmentApproach => 6
    case AssistantStyle => 7
    case UnknownTopic(_) => 8
  }

  /** The place of a field: by topic, and within it as the topic lists it. The derived mismatch
      comes last. */
  function Position(f: Field): nat {
    match f
    case RiskAppetite => 0
    case DrawdownTolerance => 1
    case RiskCapacity => 2
    case HoldingHorizon => 4
    case ConcentrationLimit => 6
    case Avoidances => 8
    case BehavioralFlags => 10
    case PrimaryPreset => 12
    case PreferredEdge => 13
    case DefaultStance => 14
    case RiskMismatch => 16
    case Enabled | FreeformNotes | SkillMode | LastReviewedAt | UpdatedAt => 18
  }

  predicate FieldsRise(fields: seq<Field>) {
    forall i, j :: 0 <= i < j < |fields| ==> Position(fields[i]) < Position(fields[j])
  }

  predicate TopicsRise(topics: seq<Topic>) {
    forall i, j :: 0 <= i < j < |topics| ==> Rank(topics[i]) < Rank(topics[j])
  }

  lemma OwnerOwns(t: Topic, f: Field)
    ensures f in TopicFields(t) <==> Owner(f) == Some(t)
    ensures f in TopicFields(t) ==> Position(f) / 2 == Rank(t) && t in CATALOGUE
    ensures FieldsRise(TopicFields(t))
  {
  }

  lemma {:induction false} SelectedTopicsRise(topics: seq<Topic>, chosen: set<Topic>)
    requires TopicsRise(topics)
    ensures TopicsRise(Select(topics, chosen))
  {
    hide Rank;
    if topics == [] {
    } else {
      SelectedTopicsRise(topics[1..], chosen);
      var rest := Select(topics[1..], chosen);
      assert forall i :: 0 <= i < |rest| ==> rest[i] in rest;
    }
  }

  lemma {:induction false} SelectedFieldsRise(fields: seq<Field>, chosen: set<Field>)
    requires FieldsRise(fields)
    ensures FieldsRise(Select(fields, chosen))
  {
    hide Position;
    if fields == [] {
    } else {
      SelectedFieldsRise(fields[1..], chosen);
      var rest := Select(fields[1..], chosen);
      assert forall i :: 0 <= i < |rest| ==> rest[i] in rest;
    }
  }

  lemma {:induction false} FieldsOfRisingTopics(topics: seq<Topic>)
    requires TopicsRise(topics)
    ensures FieldsRise(FieldsOf(topics))
  {
    hide Rank, Position, TopicFields;
    if topics == [] {
    } else {
      var own, rest := TopicFields(topics[0]), FieldsOf(topics[1..]);
      FieldsOfRisingTopics(topics[1..]);
      OwnerOwns(topics[0], Enabled);
      forall i, j | 0 <= i < |own| && 0 <= j < |rest| ensures Position(own[i]) < Position(rest[j]) {
        OwnerOwns(topics[0], own[i]);
        assert rest[j] in rest;
        var t :| t in topics[1..] && rest[j] in TopicFields(t);
        OwnerOwns(t, rest[j]);
      }
    }
  }

  lemma FieldsInOrder(covered: set<Topic>)
    ensures FieldsForTopics(covered) == FieldsOf(Select(CATALOGUE, covered))
  {
  }

  lemma CatalogueRises()
    ensures TopicsRise(CATALOGUE)
  {
  }

  /** The catalogue opens exactly the fields owned by a covered topic, in the order of the catalogue. */
  lemma CatalogueOpens(covered: set<Topic>)
    ensures forall f :: f in FieldsForTopics(covered) <==> Owner(f).Some? && Owner(f).value in covered
    ensures FieldsRise(FieldsForTopics(covered))
  {
    hide TopicFields, FieldsForTopics, CATALOGUE, Owner, Position, Rank;
    forall f ensures f in FieldsForTopics(covered) <==> Owner(f).Some? && Owner(f).value in covered {
      if f in FieldsForTopics(covered) {
        var t :| t in CATALOGUE && t in covered && f in TopicFields(t);
        OwnerOwns(t, f);
      }
      if Owner(f).Some? {
        OwnerOwns(Owner(f).value, f);
      }
    }
    CatalogueRises();
    SelectedTopicsRise(CATALOGUE, covered);
    FieldsOfRisingTopics(Select(CATALOGUE, covered));
    FieldsInOrder(covered);
  }

  // ---------- what a result says ----------

  /** A topic is covered after the turn: it was before, or its question has just been answered. */
  predicate NowCovered(t: Turn, s: Session, r: ProviderResult, topic: Topic) {
    topic in s.covered || (t.kind == Answer && r.topicCovered == VBool(true) && topic == t.addressed)
  }

  /** The result gives a value for a field of a covered topic. */
  predicate Offered(t: Turn, s: Session, r: ProviderResult, f: Field) {
    && r.patch.Mapping? && Known(f) in r.patch.entries
    && Owner(f).Some? && NowCovered(t, s, r, Owner(f).value)
  }

  ghost predicate OffersAnything(t: Turn, s: Session, r: ProviderResult) {
    exists f :: Offered(t, s, r, f)
  }

  predicate WellShaped(r: ProviderResult) {
    && r.assistantMessage.VStr? && !AllSpace(r.assistantMessage.s)
    && r.addressedTopic.TopicText? && r.topicCovered.VBool? && !r.nextTopic.NotText?
  }

  /** The result answers the turn's question and asks about an uncovered catalogue topic, or none. */
  predicate OnTopic(t: Turn, s: Session, r: ProviderResult) {
    && r.addressedTopic == TopicText(t.addressed)
    && (r.nextTopic.TopicText? ==> !r.nextTopic.topic.UnknownTopic? && !NowCovered(t, s, r, r.nextTopic.topic))
  }

  predicate Mappings(r: ProviderResult) {
    !r.rationales.NotMapping? && !r.patch.NotMapping?
  }

  /** Every value offered is readable; those of list fields are lists of texts. */
  ghost predicate Readable(py: Python, t: Turn, s: Session, r: ProviderResult) {
    forall f | Offered(t, s, r, f) :: ReadableValue(py, f, r.patch.entries[Known(f)])
  }

  ghost predicate ReadableValue(py: Python, f: Field, v: Value) {
    && (f in {PreferredEdge, Avoidances, BehavioralFlags} ==>
          v.VList? && forall i :: 0 <= i < |v.items| ==> v.items[i].VStr?)
    && exists x :: Reads(py, f, v, x)
  }

  predicate Says(r: ProviderResult, f: Field, text: string) {
    r.rationales.Mapping? && Known(f) in r.rationales.entries && r.rationales.entries[Known(f)] == VStr(text)
  }

  predicate SaysNothing(r: ProviderResult, f: Field) {
    r.rationales.Mapping? && Known(f) in r.rationales.entries ==> r.rationales.entries[Known(f)] == VNull
  }

  /** A field that is offered has a text for its rationale, or none. */
  ghost predicate Explained(t: Turn, s: Session, r: ProviderResult) {
    forall f | Offered(t, s, r, f) :: SaysNothing(r, f) || exists text :: Says(r, f, text)
  }

  /** The draft: exactly the offered fields, in catalogue order, each with the value the offer reads as,
      over the values the profile holds; every other key is rejected, and the rationales are the given
      texts. */
  ghost predicate DraftTells(py: Python, current: Profile, t: Turn, s: Session, r: ProviderResult, patch: Patch,
      base: BaseValues, rationales: map<Field, string>, rejected: set<Key>)
  {
    && (forall f :: f in PatchFields(patch) <==> Offered(t, s, r, f))
    && FieldsRise(PatchFields(patch))
    && (forall i :: 0 <= i < |patch| ==>
          OfferIs(py, r, patch[i].field, patch[i].value))
    && (forall f :: f in base <==> Offered(t, s, r, f))
    && (forall f :: f in base ==> base[f] == current.Get(f))
    && r.patch.Mapping?
    && (forall k :: k in rejected <==> k in r.patch.entries && (k.Known? ==> !Offered(t, s, r, k.field)))
    && (forall f, text :: f in rationales && rationales[f] == text <==> Offered(t, s, r, f) && Says(r, f, text))
  }

  ghost predicate OfferIs(py: Python, r: ProviderResult, f: Field, v: Value) {
    r.patch.Mapping? && Known(f) in r.patch.entries && Reads(py, f, r.patch.entries[Known(f)], v)
  }

  // ---------- the checks on a result ----------

  lemma CoverageMeans(t: Turn, s: Session, r: ProviderResult)
    requires CoverageOk(s.covered) && t.addressed in CATALOGUE && r.addressedTopic == TopicText(t.addressed)
    ensures var covered := CoveredAfter(t, s.covered, r);
            CoverageOk(covered) && TopicsRise(covered) && forall topic :: topic in covered <==> NowCovered(t, s, r,
                topic)
  {
    hide CATALOGUE, Select, UnknownOnce, OrderedTopics;
    var covered := CoveredAfter(t, s.covered, r);
    var more := OrderedTopics(s.covered) + [t.addressed];
    assert KnownTopics(more);
    OrderedIsCatalogueOrder(more);
    OrderedIsCatalogueOrder(OrderedTopics(more));
    forall topic ensures topic in covered <==> NowCovered(t, s, r, topic) {
      assert topic in OrderedTopics(more) <==> topic in Elements(OrderedTopics(more));
      assert topic in more <==> topic in Elements(more);
    }
    OrderedIsCatalogueOrder(s.covered);
    CatalogueRises();
    SelectedTopicsRise(CATALOGUE, Elements(covered));
  }

  /** The checks before the proposal part, in the order they are made. */
  lemma ResultErrorMeans(t: Turn, s: Session, r: ProviderResult)
    requires CoverageOk(s.covered) && t.addressed in CATALOGUE
    ensures ResultError(t, s.covered, r) ==
            if !WellShaped(r) then Some(ResultInvalid)
            else if !OnTopic(t, s, r) then Some(CatalogInvalid)
            else if !Mappings(r) then Some(ResultInvalid) else None
  {
    hide CoveredAfter, NowCovered, CoverageOk, AllSpace, Strip;
    if r.assistantMessage.VStr? {
      BlankMeans(r.assistantMessage.s);
    }
    if r.addressedTopic == TopicText(t.addressed) {
      CoverageMeans(t, s, r);
    }
    assert forall topic: Topic :: topic in CATALOGUE <==> !topic.UnknownTopic?;
  }

  // ---------- the proposal part ----------

  predicate Picked(raw: Payload, legal: seq<Field>, f: Field) {
    f in legal && Known(f) in raw
  }

  /** Clamping to a list of fields that holds no reserved one. */
  lemma ClampMeans(py: Python, raw: Payload, covered: set<Topic>, current: Profile)
    requires NormalProfile(py, current)
    ensures var legal := FieldsForTopics(covered);
            match Clamp(py, raw, covered, current)
            case None => exists f :: Picked(raw, legal, f) && NormalizeField(py, f, raw[Known(f)]).None?
            case Some(Clamped(patch, rejected)) =>
              && (forall f | Picked(raw, legal, f) :: NormalizeField(py, f, raw[Known(f)]).Some?)
              && (forall k :: k in rejected <==> k in raw && (k.Known? ==> !Picked(raw, legal, k.field)))
              && (patch.None? <==> forall f :: !Picked(raw, legal, f))
              && (patch.Some? ==>
                    && (forall f :: f in PatchFields(patch.value) <==> Picked(raw, legal, f))
                    && FieldsRise(PatchFields(patch.value))
                    && forall i :: 0 <= i < |patch.value| ==> TakesValue(py, raw, patch.value[i]))
  {
    hide NormalizeField, Profile.Get, Build, FieldsForTopics, Select, NormalProfile, FieldsRise, Normalize;
    var legal := FieldsForTopics(covered);
    var part := LegalPart(raw, legal);
    ProposableFields(covered);
    CatalogueOpens(covered);
    NormalizeIsLocal(py, part, current);
    forall f: Field ensures Known(f) in part <==> Picked(raw, legal, f) {
    }
    if part != map[] {
      var k :| k in part;
      assert Picked(raw, legal, k.field);
      if Normalize(py, part, current).Some? {
        var normal := Normalize(py, part, current).value;
        var chosen := set f | f in legal && Known(f) in raw;
        SelectedFieldsRise(legal, chosen);
        var patch := PatchOf(Select(legal, chosen), normal);
        forall i | 0 <= i < |patch| ensures TakesValue(py, raw, patch[i]) {
          assert PatchFields(patch)[i] in legal;
        }
      } else {
        var f: Field :| !Acceptable(py, part, f);
        assert Picked(raw, legal, f);
      }
    }
  }

  predicate TakesValue(py: Python, raw: Payload, e: Entry) {
    Known(e.field) in raw && NormalizeField(py, e.field, raw[Known(e.field)]) == Some(e.value)
  }

  lemma ReadableMeans(py: Python, f: Field, v: Value)
    requires Owner(f).Some?
    ensures ReadableValue(py, f, v) <==> (f in LIST_FIELDS ==> TextListValue(v)) && NormalizeField(py, f, v).Some?
    ensures NormalizeField(py, f, v).Some? ==> Reads(py, f, v, NormalizeField(py, f, v).value)
  {
    hide NormalizeField, Reads;
    NormalizeMeans(py, f, v);
  }

  lemma OfferedIsPicked(t: Turn, s: Session, r: ProviderResult)
    requires CoverageOk(s.covered) && t.addressed in CATALOGUE && r.addressedTopic == TopicText(t.addressed)
    requires r.patch.Mapping?
    ensures var legal := FieldsForTopics(Elements(CoveredAfter(t, s.covered, r)));
            forall f :: Offered(t, s, r, f) <==> Picked(r.patch.entries, legal, f)
  {
    hide NowCovered, CoverageOk, CoveredAfter, FieldsForTopics, Owner;
    CoverageMeans(t, s, r);
    CatalogueOpens(Elements(CoveredAfter(t, s.covered, r)));
  }

  predicate DraftWaits(j: Journal, sid: Id) {
    exists p :: p in j.proposals && j.proposals[p].sessionId == sid && j.proposals[p].status == Draft
  }

  /** What the clamped patch of a result holds. */
  ghost predicate PatchTells(py: Python, t: Turn, s: Session, r: ProviderResult, patch: Patch, rejected: set<Key>)
    requires r.patch.Mapping?
  {
    && (forall f :: f in PatchFields(patch) <==> Offered(t, s, r, f))
    && FieldsRise(PatchFields(patch))
    && (forall i :: 0 <= i < |patch| ==> OfferIs(py, r, patch[i].field, patch[i].value))
    && (forall k :: k in rejected <==> k in r.patch.entries && (k.Known? ==> !Offered(t, s, r, k.field)))
  }

  lemma ClampedOffer(py: Python, j: Journal, t: Turn, s: Session, r: ProviderResult)
    requires NormalProfile(py, j.profile) && CoverageOk(s.covered) && t.addressed in CATALOGUE
    requires r.addressedTopic == TopicText(t.addressed) && r.patch.Mapping?
    ensures var covered := Elements(CoveredAfter(t, s.covered, r));
            var clamped := Clamp(py, r.patch.entries, covered, j.profile);
            && (Readable(py, t, s, r) <==> ListsWellTyped(r.patch.entries, FieldsForTopics(covered)) && clamped.Some?)
            && (clamped.Some? ==> (clamped.value.patch.Some? <==> OffersAnything(t, s, r)))
            && (clamped.Some? && clamped.value.patch.Some? ==>
                  PatchTells(py, t, s, r, clamped.value.patch.value, clamped.value.rejected))
  {
    hide NormalProfile, CoverageOk, CoveredAfter, FieldsForTopics, Clamp, Offered, NormalizeField, Reads, TextListValue,
      ReadableValue, CATALOGUE, FieldsRise, Owner;
    var raw := r.patch.entries;
    var covered := CoveredAfter(t, s.covered, r);
    var legal := FieldsForTopics(Elements(covered));
    OfferedIsPicked(t, s, r);
    CatalogueOpens(Elements(covered));
    ClampMeans(py, raw, Elements(covered), j.profile);
    forall f | Picked(raw, legal, f)
      ensures ReadableValue(py, f, raw[Known(f)]) <==>
                (f in LIST_FIELDS ==> TextListValue(raw[Known(f)])) && NormalizeField(py, f, raw[Known(f)]).Some?
      ensures NormalizeField(py, f, raw[Known(f)]).Some? ==>
                Reads(py, f, raw[Known(f)], NormalizeField(py, f, raw[Known(f)]).value)
    {
      ReadableMeans(py, f, raw[Known(f)]);
    }
    var clamped := Clamp(py, raw, Elements(covered), j.profile);
    if clamped.Some? && clamped.value.patch.Some? {
      var patch := clamped.value.patch.value;
      forall i | 0 <= i < |patch| ensures OfferIs(py, r, patch[i].field, patch[i].value) {
        assert TakesValue(py, raw, patch[i]) && PatchFields(patch)[i] in PatchFields(patch);
      }
    }
  }

  lemma SaidMeans(r: ProviderResult, f: Field)
    ensures SaysNothing(r, f) <==> RationaleOf(r, f) == VNull
    ensures forall text :: Says(r, f, text) <==> RationaleOf(r, f) == VStr(text)
    ensures (exists text :: Says(r, f, text)) <==> RationaleOf(r, f).VStr?
  {
    if RationaleOf(r, f).VStr? {
      assert Says(r, f, RationaleOf(r, f).s);
    }
  }

  lemma NothingOffered(t: Turn, s: Session, r: ProviderResult)
    requires !r.patch.Mapping?
    ensures forall f :: !Offered(t, s, r, f)
  {
  }

  /** The verdict on a result that passed the checks before. */
  lemma VerdictMeans(py: Python, j: Journal, t: Turn, s: Session, r: ProviderResult)
    requires NormalProfile(py, j.profile) && CoverageOk(s.covered) && t.addressed in CATALOGUE
    requires r.addressedTopic == TopicText(t.addressed) && Mappings(r)
    ensures var v := DraftVerdict(py, j, t.sessionId, CoveredAfter(t, s.covered, r), r);
            if !Readable(py, t, s, r) then v == Bad(ProposalInvalid)
            else if !OffersAnything(t, s, r) then v == Good(None)
            else if DraftWaits(j, t.sessionId) then v == Bad(ProposalPending)
            else if !Explained(t, s, r) then v == Bad(ResultInvalid)
            else
              && v.Good? && v.draft.Some?
              && var d := v.draft.value;
                 DraftTells(py, j.profile, t, s, r, d.patch, d.base, d.rationales, d.rejected)
  {
    hide NormalProfile, CoverageOk, CoveredAfter, FieldsForTopics, Clamp, Offered, OfferIs, CATALOGUE, Profile.Get,
      FieldsRise, ListsWellTyped, ReadableValue, Says, SaysNothing, RationaleOf;
    if r.patch.Mapping? {
      ClampedOffer(py, j, t, s, r);
      forall f ensures SaysNothing(r, f) <==> RationaleOf(r, f) == VNull
        ensures forall text :: Says(r, f, text) <==> RationaleOf(r, f) == VStr(text)
        ensures (exists text :: Says(r, f, text)) <==> RationaleOf(r, f).VStr?
      {
        SaidMeans(r, f);
      }
    } else {
      NothingOffered(t, s, r);
    }
  }

  // ---------- the whole completion ----------

  /** The refusal fails the turn, and nothing else changes. */
  predicate FailsTurn(j: Journal, turnId: string, e: ErrorCode, text: string, result: StepResult)
    requires turnId in j.turns
  {
    result == StepResult(
                j.(turns := j.turns[turnId := j.turns[turnId].(status := Failed, errorCode := Some(text))]), Refused(e))
  }

  /** The rows of an accepted completion: the provider's text as the assistant's message about the next
      topic, the completed turn, the advanced or closed session, and a draft exactly when the result
      offers a field. Every other row and the profile stay. */
  ghost predicate CompletesTurn(py: Python, j: Journal, turnId: string, r: ProviderResult, k: Journal)
    requires turnId in j.turns && j.turns[turnId].sessionId in j.sessions
  {
    var t := j.turns[turnId];
    var s := j.sessions[t.sessionId];
    var next := if r.nextTopic.TopicText? then Some(r.nextTopic.topic) else None;
    var mid, pid := j.nextId, j.nextId + 1;
    && r.assistantMessage.VStr?
    && k.messages ==
       j.messages[mid := Message(t.sessionId, Assistant, r.assistantMessage.s, Some(turnId), next, None)]
    && k.turns ==
       j.turns[turnId := t.(status := Completed, assistantMessage := Some(mid), nextTopic := next, errorCode := None)]
    && t.sessionId in k.sessions && k.sessions == j.sessions[t.sessionId := k.sessions[t.sessionId]]
    && SessionMovesOn(t, s, r, next, mid, k.sessions[t.sessionId])
    && k.profile == j.profile && k.nextId > pid
    && if OffersAnything(t, s, r) then
         && pid in k.proposals && k.proposals == j.proposals[pid := k.proposals[pid]]
         && DraftRowTells(py, j.profile, t, s, r, k.sessions[t.sessionId].covered, k.proposals[pid])
       else k.proposals == j.proposals
  }

  /** The session asks the next question, or closes when there is none; its covered topics are those
      covered now, in catalogue order. */
  ghost predicate SessionMovesOn(t: Turn, s: Session, r: ProviderResult, next: Option<Topic>, mid: Id, s': Session) {
    && s'.interviewVersion == s.interviewVersion && s'.currentTopic == next
    && s'.currentQuestion == (if next.Some? then Some(mid) else None)
    && s'.status == (if next.Some? then Active else Closed)
    && TopicsRise(s'.covered) && forall topic :: topic in s'.covered <==> NowCovered(t, s, r, topic)
  }

  ghost predicate DraftRowTells(py: Python, current: Profile, t: Turn, s: Session, r: ProviderResult,
      covered: seq<Topic>, p: Proposal)
  {
    && p.sessionId == t.sessionId && p.status == Draft && p.covered == covered && p.raw == map[]
    && p.changed == [] && p.conflicts == []
    && DraftTells(py, current, t, s, r, p.patch, p.base, p.rationales, p.rejected)
  }

  /** The verdict on a result for the question the session is asking. */
  ghost predicate JudgedSo(py: Python, j: Journal, t: Turn, s: Session, r: ProviderResult, v: Verdict) {
    if !WellShaped(r) then v == Bad(ResultInvalid)
    else if !OnTopic(t, s, r) then v == Bad(CatalogInvalid)
    else if !Mappings(r) then v == Bad(ResultInvalid)
    else if !Readable(py, t, s, r) then v == Bad(ProposalInvalid)
    else if OffersAnything(t, s, r) && DraftWaits(j, t.sessionId) then v == Bad(ProposalPending)
    else if OffersAnything(t, s, r) && !Explained(t, s, r) then v == Bad(ResultInvalid)
    else v.Good? && GoodDraft(py, j, t, s, r, v.draft)
  }

  ghost predicate GoodDraft(py: Python, j: Journal, t: Turn, s: Session, r: ProviderResult, draft: Option<DraftData>) {
    if OffersAnything(t, s, r) then
      && draft.Some?
      && DraftTells(py, j.profile, t, s, r, draft.value.patch, draft.value.base, draft.value.rationales,
                    draft.value.rejected)
    else draft.None?
  }

  lemma JudgeMeans(py: Python, j: Journal, t: Turn, s: Session, r: ProviderResult)
    requires NormalProfile(py, j.profile) && CoverageOk(s.covered) && t.addressed in CATALOGUE
    requires s.currentQuestion == Some(t.question) && s.currentTopic == Some(t.addressed)
    ensures JudgedSo(py, j, t, s, r, Judge(py, j, t, s, r))
  {
    hide NormalProfile, CoverageOk, WellShaped, Mappings, Readable, OffersAnything, DraftWaits, Explained, DraftTells,
      ResultError, DraftVerdict, CATALOGUE, NowCovered;
    ResultErrorMeans(t, s, r);
    if WellShaped(r) && OnTopic(t, s, r) && Mappings(r) {
      VerdictMeans(py, j, t, s, r);
    }
  }

  lemma AcceptedRowsTell(py: Python, j: Journal, turnId: string, r: ProviderResult, draft: Option<DraftData>)
    requires turnId in j.turns && j.turns[turnId].sessionId in j.sessions
    requires var t := j.turns[turnId];
             var s := j.sessions[t.sessionId];
             && s.status == Active && CoverageOk(s.covered) && t.addressed in CATALOGUE
             && WellShaped(r) && OnTopic(t, s, r) && GoodDraft(py, j, t, s, r, draft)
    ensures CompletesTurn(py, j, turnId, r, Accept(j, turnId, r, draft))
  {
    hide CoverageOk, AllSpace, CATALOGUE, OffersAnything, DraftTells, CoveredAfter, NowCovered, TopicsRise;
    var t := j.turns[turnId];
    CoverageMeans(t, j.sessions[t.sessionId], r);
  }

  /** A turn that is not running is never completed: nothing changes. */
  lemma CompletionNeedsRunningTurn(py: Python, j: Journal, turnId: string, r: ProviderResult)
    requires Inv(py, j)
    requires turnId in j.turns && IsPending(j.turns[turnId]) ==> j.sessions[j.turns[turnId].sessionId].status != Active
    ensures var result := CompleteTurn(py, j, turnId, r);
            if turnId !in j.turns then result == StepResult(j, Refused(TurnNotFound))
            else if j.turns[turnId].status == Completed then result == StepResult(j, TurnIs(turnId))
            else if j.turns[turnId].status != Pending then result == StepResult(j, Refused(RetryRequired))
            else result == StepResult(j, Refused(SessionNotActive))
  {
    hide Inv, Judge, CATALOGUE;
    InvBasics(py, j);
  }

  lemma RunningTurn(py: Python, j: Journal, turnId: string, r: ProviderResult)
    requires Inv(py, j)
    requires turnId in j.turns && IsPending(j.turns[turnId])
    requires j.sessions[j.turns[turnId].sessionId].status == Active
    ensures var t := j.turns[turnId];
            var s := j.sessions[t.sessionId];
            && NormalProfile(py, j.profile) && CoverageOk(s.covered) && t.addressed in CATALOGUE
            && s.currentQuestion == Some(t.question) && s.currentTopic == Some(t.addressed)
            && match Judge(py, j, t, s, r)
               case Bad(code) =>
                 CompleteTurn(py, j, turnId, r) == StepResult(FailedWith(j, turnId, CodeText(code)), Refused(code))
               case Good(draft) =>
                 r.assistantMessage.VStr? && CompleteTurn(py, j, turnId, r)
                                             == StepResult(Accept(j, turnId, r, draft), TurnIs(turnId))
  {
    hide NormalProfile, ProposalsOk, OneDraftProposal, MessagesOfTurns, AnswersAreStored, OnePendingTurn,
      OneActiveSession, TurnsWereTried, IdsAreUsed, Judge, CoverageOk, CATALOGUE, Accept, FailedWith, CodeText;
    var t := j.turns[turnId];
    if Judge(py, j, t, j.sessions[t.sessionId], r).Good? {
      JudgedGoodHasText(py, j, t, j.sessions[t.sessionId], r);
    }
  }

  /** Completing a running turn, exactly: what each kind of result leads to, from the result and the rows
      alone. */
  lemma CompletionIsExact(py: Python, j: Journal, turnId: string, r: ProviderResult)
    requires Inv(py, j)
    requires turnId in j.turns && IsPending(j.turns[turnId])
    requires j.sessions[j.turns[turnId].sessionId].status == Active
    ensures var t := j.turns[turnId];
            var s := j.sessions[t.sessionId];
            var result := CompleteTurn(py, j, turnId, r);
            if !WellShaped(r) then
              FailsTurn(j, turnId, ResultInvalid, "calibration_result_validation_failed", result)
            else if !OnTopic(t, s, r) then
              FailsTurn(j, turnId, CatalogInvalid, "calibration_catalog_validation_failed", result)
            else if !Mappings(r) then
              FailsTurn(j, turnId, ResultInvalid, "calibration_result_validation_failed", result)
            else if !Readable(py, t, s, r) then
              FailsTurn(j, turnId, ProposalInvalid, "calibration_proposal_validation_failed", result)
            else if OffersAnything(t, s, r) && DraftWaits(j, t.sessionId) then
              FailsTurn(j, turnId, ProposalPending, "calibration_proposal_pending", result)
            else if OffersAnything(t, s, r) && !Explained(t, s, r) then
              FailsTurn(j, turnId, ResultInvalid, "calibration_result_validation_failed", result)
            else result.outcome == TurnIs(turnId) && CompletesTurn(py, j, turnId, r, result.journal)
  {
    hide Inv, CompleteTurn, WellShaped, OnTopic, Mappings, Readable, OffersAnything, DraftWaits, Explained,
      CompletesTurn, Accept, CATALOGUE, GoodDraft, Judge, CoverageOk, NormalProfile;
    InvBasics(py, j);
    var t := j.turns[turnId];
    var s := j.sessions[t.sessionId];
    RunningTurn(py, j, turnId, r);
    JudgeMeans(py, j, t, s, r);
    match Judge(py, j, t, s, r)
    case Bad(_) =>
    case Good(draft) => AcceptedRowsTell(py, j, turnId, r, draft);
  }
}
