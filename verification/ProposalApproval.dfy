/** The checks, the conflict test and the merge of a proposal approval. */
module ProposalApproval {
  import opened PyValues
  import opened InvestorProfiles
  import opened CalibrationPolicy

  /** The values the patched fields had when the proposal was written. */
  type BaseValues = map<Field, Value>

  function BaseOf(patch: Patch, current: Profile): BaseValues {
    map f | f in PatchFields(patch) :: current.Get(f)
  }

  predicate KnownTopics(topics: seq<Topic>) {
    forall t :: t in topics ==> t in CATALOGUE
  }

  predicate KeysInOrder(patch: Patch, covered: seq<Topic>) {
    PatchFields(patch) == Select(FieldsForTopics(Elements(covered)), Elements(PatchFields(patch)))
  }

  /** `_validated_approval_patch` does not raise. */
  predicate Validated(py: Python, patch: Patch, base: BaseValues, covered: seq<Topic>, current: Profile) {
    && patch != [] && covered != [] && KnownTopics(covered) && covered == OrderedTopics(covered)
    && KeysInOrder(patch, covered)
    && base.Keys == Elements(PatchFields(patch))
    && Clamp(py, PatchPayload(patch), Elements(covered), current) == Some(Clamped(Some(patch), {}))
  }

  predicate NormalEntries(py: Python, patch: Patch) {
    forall i :: 0 <= i < |patch| ==> NormalValue(py, patch[i].field, patch[i].value)
  }

  /** The same, without looking at the current profile. */
  ghost predicate WellFormedDraft(py: Python, patch: Patch, base: BaseValues, covered: seq<Topic>) {
    && patch != [] && covered != [] && KnownTopics(covered) && covered == OrderedTopics(covered)
    && KeysInOrder(patch, covered)
    && base.Keys == Elements(PatchFields(patch))
    && NormalEntries(py, patch)
  }

  /** Lists are compared as sets, everything else by type and value. */
  predicate Unmoved(f: Field, current: Value, base: Value) {
    if f in LIST_FIELDS then
      && current.VList? && base.VList?
      && (forall v :: v in current.items ==> v.VStr?) && (forall v :: v in base.items ==> v.VStr?)
      && Elements(current.items) == Elements(base.items)
    else current == base
  }

  /** `_conflict_fields`: the patched fields that moved since the proposal was written. */
  function ConflictFields(current: Profile, patch: Patch, base: BaseValues): (r: seq<Field>)
    requires base.Keys == Elements(PatchFields(patch))
    ensures forall f :: f in r <==> f in PatchFields(patch) && !Unmoved(f, current.Get(f), base[f])
  {
    Select(PatchFields(patch), set f | f in PatchFields(patch) && !Unmoved(f, current.Get(f), base[f]))
  }

  const AUDIT_FIELDS: seq<Field> := PROPOSABLE + [RiskMismatch]

  function ChangedFields(current: Profile, merged: Profile): seq<Field> {
    Select(AUDIT_FIELDS, set f | f in AUDIT_FIELDS && current.Get(f) != merged.Get(f))
  }

  function Reviewed(p: Profile, ts: string): Profile {
    p.(lastReviewedAt := VStr(ts), updatedAt := VStr(ts))
  }

  lemma DistinctKeys(patch: Patch, covered: seq<Topic>)
    requires KeysInOrder(patch, covered)
    ensures Distinct(PatchFields(patch))
    ensures forall f :: f in PatchFields(patch) ==> f in FieldsForTopics(Elements(covered)) && f != RiskMismatch
  {
    ProposableFields(Elements(covered));
    SelectDistinct(FieldsForTopics(Elements(covered)), Elements(PatchFields(patch)));
  }

  /** What `complete_turn` stores as a draft is well formed. */
  lemma ClampWritesDraft(py: Python, raw: Payload, covered: seq<Topic>, current: Profile, patch: Patch,
      rejected: set<Key>)
    requires NormalProfile(py, current)
    requires KnownTopics(covered) && covered == OrderedTopics(covered)
    requires Clamp(py, raw, Elements(covered), current) == Some(Clamped(Some(patch), rejected))
    ensures WellFormedDraft(py, patch, BaseOf(patch, current), covered)
  {
    hide NormalizeField, Profile.Get, Build, CATALOGUE, Select, FieldsForTopics, OrderedTopics;
    var legal := FieldsForTopics(Elements(covered));
    var part := LegalPart(raw, legal);
    var chosen := set f | f in legal && Known(f) in raw;
    ProposableFields(Elements(covered));
    NormalizeIsLocal(py, part, current);
    assert PatchFields(patch) == Select(legal, chosen);
    SelectAgrees(legal, chosen, Elements(PatchFields(patch)));
    assert patch != [] by {
      var k :| k in part;
      assert k.field in PatchFields(patch);
    }
    assert covered != [] by { assert PatchFields(patch)[0] in legal; }
    forall i | 0 <= i < |patch| ensures NormalValue(py, patch[i].field, patch[i].value) {
      assert PatchFields(patch)[i] in legal;
    }
  }

  /** The stored patch, read back as a payload, is all legal and selects its own keys. */
  lemma PatchIsLegal(patch: Patch, covered: seq<Topic>)
    requires KeysInOrder(patch, covered)
    ensures var legal := FieldsForTopics(Elements(covered));
            var payload := PatchPayload(patch);
            && LegalPart(payload, legal) == payload
            && (set k | k in payload && !(k.Known? && k.field in legal)) == {}
            && Select(legal, set f | f in legal && Known(f) in payload) == PatchFields(patch)
            && (patch != [] ==> payload != map[])
  {
    DistinctKeys(patch, covered);
    var legal := FieldsForTopics(Elements(covered));
    var payload := PatchPayload(patch);
    hide FieldsForTopics, PatchPayload;
    assert LegalPart(payload, legal) == payload;
    SelectAgrees(legal, (set f | f in legal && Known(f) in payload), Elements(PatchFields(patch)));
    if patch != [] {
      assert PatchFields(patch)[0] == patch[0].field;
      assert Known(patch[0].field) in payload;
    }
  }

  /** Normalising the stored patch again gives it back exactly when its values are normal. */
  lemma PatchRenormalizes(py: Python, patch: Patch, current: Profile)
    requires NormalProfile(py, current)
    requires Distinct(PatchFields(patch)) && RiskMismatch !in PatchFields(patch)
    ensures NormalEntries(py, patch) <==>
            var r := Normalize(py, PatchPayload(patch), current);
            r.Some? && PatchOf(PatchFields(patch), r.value) == patch
  {
    hide NormalizeField, Profile.Get, Build, Normalize;
    var payload := PatchPayload(patch);
    NormalizeIsLocal(py, payload, current);
    forall i | 0 <= i < |patch|
      ensures Acceptable(py, payload, patch[i].field) <==> NormalizeField(py, patch[i].field, patch[i].value).Some?
      ensures Known(patch[i].field) in payload && payload[Known(patch[i].field)] == patch[i].value
    {
      assert PatchFields(patch)[i] == patch[i].field;
      assert patch[i].field in PatchFields(patch);
    }
    if NormalEntries(py, patch) {
      forall f: Field ensures Acceptable(py, payload, f) {
        if Known(f) in payload {
          var i :| 0 <= i < |patch| && PatchFields(patch)[i] == f;
          assert NormalValue(py, patch[i].field, patch[i].value);
        }
      }
    }
    var r := Normalize(py, payload, current);
    if r.Some? {
      var again := PatchOf(PatchFields(patch), r.value);
      forall i | 0 <= i < |patch|
        ensures NormalValue(py, patch[i].field, patch[i].value) <==> again[i] == patch[i]
      {
        assert again[i] == Entry(patch[i].field, r.value.Get(patch[i].field));
      }
      if again == patch {
        assert NormalEntries(py, patch);
      }
    }
  }

  lemma Reclamps(py: Python, patch: Patch, covered: seq<Topic>, current: Profile)
    requires NormalProfile(py, current)
    requires KeysInOrder(patch, covered) && patch != []
    ensures Clamp(py, PatchPayload(patch), Elements(covered), current) == Some(Clamped(Some(patch), {})) <==>
            NormalEntries(py, patch)
  {
    DistinctKeys(patch, covered);
    PatchIsLegal(patch, covered);
    PatchRenormalizes(py, patch, current);
    hide NormalizeField, Profile.Get, Build, Normalize, FieldsForTopics, PatchPayload, PatchFields, LegalPart, Select,
      NormalProfile, NormalEntries;
  }

  /** A well-formed draft passes the approval checks against every normal profile, whatever
      was edited since; and only a well-formed draft does. */
  lemma DraftPassesForever(py: Python, patch: Patch, base: BaseValues, covered: seq<Topic>, current: Profile)
    requires NormalProfile(py, current)
    ensures Validated(py, patch, base, covered, current) <==> WellFormedDraft(py, patch, base, covered)
  {
    hide Clamp, NormalEntries, NormalProfile;
    if KeysInOrder(patch, covered) && patch != [] {
      Reclamps(py, patch, covered, current);
    }
  }

  lemma ValidatedBase(py: Python, patch: Patch, base: BaseValues, covered: seq<Topic>, current: Profile)
    requires Validated(py, patch, base, covered, current)
    ensures base.Keys == Elements(PatchFields(patch))
  {
  }

  /** The audited fields are all but the three reserved ones and the two time stamps. */
  lemma AuditCoverage(f: Field)
    ensures f in AUDIT_FIELDS <==> f !in {Enabled, FreeformNotes, SkillMode, LastReviewedAt, UpdatedAt}
  {
    hide FieldsOf;
    assert forall t :: t in CATALOGUE <==> !t.UnknownTopic?;
    ghost var owner := match f
      case RiskAppetite | DrawdownTolerance => LossResponse
      case RiskCapacity => FinancialCapacity
      case HoldingHorizon => TimeHorizon
      case ConcentrationLimit => SinglePositionLimit
      case Avoidances => RiskAvoidances
      case BehavioralFlags => BehavioralPatterns
      case PrimaryPreset | PreferredEdge => InvestmentApproach
      case _ => AssistantStyle;
    assert f in TopicFields(owner) ==> f in PROPOSABLE;
  }

  lemma ReviewKeepsNormal(py: Python, p: Profile, ts: string)
    requires NormalProfile(py, p)
    ensures NormalProfile(py, Reviewed(p, ts))
    ensures forall f: Field | f !in {LastReviewedAt, UpdatedAt} :: Reviewed(p, ts).Get(f) == p.Get(f)
    ensures Reviewed(p, ts).lastReviewedAt == Reviewed(p, ts).updatedAt == VStr(ts)
  {
    hide NormalizeAs;
    forall f: Field | f != RiskMismatch ensures NormalValue(py, f, Reviewed(p, ts).Get(f)) {
      if f == LastReviewedAt || f == UpdatedAt {
        StampIsNormal(py, f, VStr(ts));
      } else {
        assert NormalValue(py, f, p.Get(f));
      }
    }
  }

  lemma StampIsNormal(py: Python, f: Field, v: Value)
    requires f == LastReviewedAt || f == UpdatedAt
    ensures NormalValue(py, f, v)
  {
  }

  /** What approving writes. */
  function Approved(py: Python, patch: Patch, current: Profile, ts: string): Option<Profile> {
    match Normalize(py, PatchPayload(patch), current)
    case None => None
    case Some(p) => Some(Reviewed(p, ts))
  }

  /** An approval without conflict is an exact three-way merge: patched fields take the proposed
      values, the mismatch is true of the merged scores, the stamps are the time of approval,
      everything else stays, and the recorded changes are exactly the fields that differ. */
  lemma ApprovalIsMerge(py: Python, patch: Patch, base: BaseValues, covered: seq<Topic>, current: Profile, ts: string)
    requires NormalProfile(py, current)
    requires WellFormedDraft(py, patch, base, covered)
    ensures Approved(py, patch, current, ts).Some?
    ensures var merged := Approved(py, patch, current, ts).value;
            && NormalProfile(py, merged) && MismatchTells(merged)
            && merged.lastReviewedAt == merged.updatedAt == VStr(ts)
            && (forall i :: 0 <= i < |patch| ==> merged.Get(patch[i].field) == patch[i].value)
            && (forall f: Field | f !in PatchFields(patch) && f !in {RiskMismatch, LastReviewedAt, UpdatedAt} ::
                  merged.Get(f) == current.Get(f))
            && (forall f: Field | f !in {LastReviewedAt, UpdatedAt} ::
                  f in ChangedFields(current, merged) <==> current.Get(f) != merged.Get(f))
  {
    hide NormalizeField, Profile.Get, Build, Normalize, NormalProfile, NormalEntries, Select, Reviewed, ChangedFields,
      FieldsForTopics, PatchPayload;
    DistinctKeys(patch, covered);
    PatchRenormalizes(py, patch, current);
    NormalizeIsLocal(py, PatchPayload(patch), current);
    var p := Normalize(py, PatchPayload(patch), current).value;
    ReviewKeepsNormal(py, p, ts);
    ApprovedFields(py, patch, covered, current, p);
    ChangesAreTheDifference(py, patch, covered, current, Reviewed(p, ts));
    NormalProfileIsSound(py, Reviewed(p, ts));
  }

  lemma ApprovedFields(py: Python, patch: Patch, covered: seq<Topic>, current: Profile, p: Profile)
    requires KeysInOrder(patch, covered)
    requires PatchOf(PatchFields(patch), p) == patch
    ensures forall i :: 0 <= i < |patch| ==>
              p.Get(patch[i].field) == patch[i].value && patch[i].field !in {LastReviewedAt, UpdatedAt}
  {
    hide Profile.Get;
    ProposableFields(Elements(covered));
    forall i | 0 <= i < |patch|
      ensures p.Get(patch[i].field) == patch[i].value && patch[i].field !in {LastReviewedAt, UpdatedAt}
    {
      assert PatchFields(patch)[i] == patch[i].field;
      assert PatchOf(PatchFields(patch), p)[i] == patch[i];
      assert patch[i].field in FieldsForTopics(Elements(covered));
    }
  }

  lemma ChangesAreTheDifference(py: Python, patch: Patch, covered: seq<Topic>, current: Profile, merged: Profile)
    requires KeysInOrder(patch, covered)
    requires forall f: Field | f !in PatchFields(patch) && f !in {RiskMismatch, LastReviewedAt, UpdatedAt} ::
               merged.Get(f) == current.Get(f)
    ensures forall f: Field | f !in {LastReviewedAt, UpdatedAt} ::
              f in ChangedFields(current, merged) <==> current.Get(f) != merged.Get(f)
  {
    hide Profile.Get, FieldsForTopics;
    ProposableFields(Elements(covered));
    forall f: Field | f !in {LastReviewedAt, UpdatedAt}
      ensures f in ChangedFields(current, merged) <==> current.Get(f) != merged.Get(f)
    {
      AuditCoverage(f);
      if f in PatchFields(patch) {
        assert f in FieldsForTopics(Elements(covered));
      }
    }
  }
}
