/** What holds of every run of the calibration journal. */
module JournalTheorems {
  import opened PyValues
  import opened InvestorProfiles
  import opened CalibrationPolicy
  import opened ProposalApproval
  import opened CalibrationJournal
  import opened JournalInvariant
  import opened CompletionTheorems
  import opened JournalSteps

  /** The journal after a run of operations on a fresh database; every reachable journal
      satisfies the invariant. */
  ghost function Run(py: Python, ops: seq<Op>): (j: Journal)
    ensures Inv(py, j)
  {
    if ops == [] then
      EmptyJournalIsValid(py);
      EMPTY_JOURNAL
    else
      var j := Run(py, ops[..|ops| - 1]);
      StepKeepsInv(py, j, ops[|ops| - 1]);
      Step(py, j, ops[|ops| - 1]).journal
  }

  // ---------- guards that never fire ----------

  /** In a reachable journal no operation ever finds an active session without its question,
      or a pending turn that lost its question. */
  lemma DeadGuards(py: Python, j: Journal, op: Op)
    requires Inv(py, j)
    ensures Step(py, j, op).outcome != Refused(QuestionIdentityLost)
    ensures Step(py, j, op).outcome != Refused(CurrentQuestionInvalid)
    ensures Step(py, j, op).outcome != Refused(NotGuidedV2)
  {
    hide NormalProfile, ProposalsOk, CoverageOk, OneDraftProposal, MessagesOfTurns, AnswersAreStored, IdsAreUsed,
      OneActiveSession, OnePendingTurn, ActiveSessionsAsk, PendingTurnsMatch, GuidedError, Judge,
      Accept, Normalize, PatchOf, Validated, ConflictFields, ProposalApproval.Approved, WorkFor,
      Strip, Blank, CATALOGUE;
    GuidedErrors(py, j);
    match op
    case OpComplete(turnId, r) =>
      if turnId in j.turns && IsPending(j.turns[turnId]) && GuidedError(j, j.turns[turnId].sessionId).None? {
        DraftVerdictCodes(py, j, turnId, r);
      }
    case _ =>
  }

  /** In every run: one message per turn and role, one pending turn and one draft per session,
      one active session. */
  lemma RowsAreUnique(py: Python, ops: seq<Op>)
    ensures var j := Run(py, ops);
            && (forall a, b | a in j.messages && b in j.messages && j.messages[a].turnId.Some?
                  && j.messages[a].turnId == j.messages[b].turnId && j.messages[a].role == j.messages[b].role :: a == b)
            && OnePendingTurn(j) && OneDraftProposal(j) && OneActiveSession(j)
  {
  }

  lemma GuidedErrors(py: Python, j: Journal)
    requires Inv(py, j)
    ensures forall s :: GuidedError(j, s) !in {Some(CurrentQuestionInvalid), Some(NotGuidedV2),
        Some(QuestionIdentityLost)}
  {
    hide NormalProfile, ProposalsOk, CoverageOk, OneDraftProposal, MessagesOfTurns, AnswersAreStored, IdsAreUsed;
  }

  lemma DraftVerdictCodes(py: Python, j: Journal, turnId: string, r: ProviderResult)
    requires Inv(py, j) && turnId in j.turns && IsPending(j.turns[turnId])
    requires GuidedError(j, j.turns[turnId].sessionId).None?
    ensures Judge(py, j, j.turns[turnId], j.sessions[j.turns[turnId].sessionId], r)
            !in {Bad(QuestionIdentityLost), Bad(CurrentQuestionInvalid), Bad(NotGuidedV2)}
  {
    hide NormalProfile, ProposalsOk, CoverageOk, OneDraftProposal, MessagesOfTurns, AnswersAreStored, IdsAreUsed,
      Clamp, FieldsForTopics, CoveredAfter, CATALOGUE, HasDraft, ListsWellTyped;
  }

  // ---------- proposals ----------

  /** Only a draft can be approved, and it is refused as malformed exactly when it came from the
      older route; a draft a completion wrote never is, whatever profile edits happened since. */
  lemma DraftsStayApprovable(py: Python, j: Journal, pid: Id, ts: string)
    requires Inv(py, j)
    ensures var r := ApproveProposal(py, j, pid, ts);
            if pid !in j.proposals then r == StepResult(j, Refused(ProposalNotFound))
            else if j.proposals[pid].status != Draft then r == StepResult(j, Refused(ProposalNotDraft))
            else if j.proposals[pid].covered == [] then r == StepResult(j, Refused(InvalidGuidedProposal))
            else r.outcome !in {Refused(InvalidGuidedProposal), Refused(ProfileInvalid)}
  {
    hide NormalProfile, WellFormedDraft, ConflictFields, ProposalApproval.Approved, ChangedFields, Clamp,
      OneActiveSession, OnePendingTurn, MessagesOfTurns, AnswersAreStored, ActiveSessionsAsk, PendingTurnsMatch,
      CoverageIsOrdered, TurnsWereTried;
    if DraftError(j, pid).None? {
      var p := j.proposals[pid];
      if p.covered != [] {
        DraftPassesForever(py, p.patch, p.base, p.covered, j.profile);
        ApprovalIsMerge(py, p.patch, p.base, p.covered, j.profile, ts);
      }
    }
  }

  /** The two ways the approval of a guided draft can end. */
  lemma ApprovalEnds(py: Python, j: Journal, pid: Id, ts: string)
    requires Inv(py, j) && DraftError(j, pid).None? && j.proposals[pid].covered != []
    ensures var p := j.proposals[pid];
            && NormalProfile(py, j.profile) && WellFormedDraft(py, p.patch, p.base, p.covered)
            && p.base.Keys == Elements(PatchFields(p.patch))
            && var conflicts := ConflictFields(j.profile, p.patch, p.base);
               var merged := ProposalApproval.Approved(py, p.patch, j.profile, ts);
               if conflicts != [] then
                 ApproveProposal(py, j, pid, ts)
                 == StepResult(j.(proposals := j.proposals[pid := p.(conflicts := conflicts)]),
                     Refused(ProposalConflict))
               else
                 merged.Some? && ApproveProposal(py, j, pid, ts)
                 == StepResult(
                      j.(profile := merged.value, proposals := j.proposals[pid := p.(
                         status := Approved, changed := ChangedFields(j.profile, merged.value))]),
                      ProposalIs(pid))
  {
    hide NormalProfile, WellFormedDraft, ConflictFields, ProposalApproval.Approved, ChangedFields, Clamp,
        OneActiveSession,
      OnePendingTurn, MessagesOfTurns, AnswersAreStored, ActiveSessionsAsk, PendingTurnsMatch, CoverageIsOrdered,
      TurnsWereTried, OneDraftProposal, RowsHaveSessions, IdsAreUsed, MismatchTells, Profile.Get, Validated;
    var p := j.proposals[pid];
    DraftPassesForever(py, p.patch, p.base, p.covered, j.profile);
    ValidatedBase(py, p.patch, p.base, p.covered, j.profile);
    ApprovalIsMerge(py, p.patch, p.base, p.covered, j.profile, ts);
  }

  /** A field still has the value it had: lists of texts by what they hold, everything else as it is. */
  ghost predicate Stands(f: Field, now: Value, before: Value) {
    if f in {PreferredEdge, Avoidances, BehavioralFlags} then
      && now.VList? && before.VList? && (forall v :: v in now.items <==> v in before.items)
      && forall v | v in now.items :: v.VStr?
    else now == before
  }

  lemma StandsIsUnmoved(f: Field, now: Value, before: Value)
    ensures Stands(f, now, before) <==> Unmoved(f, now, before)
  {
    if now.VList? && before.VList? {
      assert forall v :: v in now.items <==> v in Elements(now.items);
      assert forall v :: v in before.items <==> v in Elements(before.items);
    }
  }

  lemma AuditedFieldsRise()
    ensures FieldsRise(AUDIT_FIELDS)
  {
    hide Position;
    CatalogueRises();
    FieldsOfRisingTopics(CATALOGUE);
    assert forall i :: 0 <= i < |PROPOSABLE| ==> PROPOSABLE[i] in PROPOSABLE;
    MismatchComesLast();
  }

  lemma MismatchComesLast()
    ensures forall f :: f in PROPOSABLE ==> Position(f) < Position(RiskMismatch)
  {
    hide Owner, TopicFields, CATALOGUE, Rank, Position;
    forall f | f in PROPOSABLE ensures Position(f) < Position(RiskMismatch) {
      var t :| t in CATALOGUE && f in TopicFields(t);
      OwnerOwns(t, f);
      LastTopic(t);
    }
  }

  lemma LastTopic(t: Topic)
    ensures t in CATALOGUE ==> 2 * Rank(t) + 1 < Position(RiskMismatch)
  {
  }

  /** Approving a guided draft: it succeeds exactly when every patched field still has its base
      value (lists as sets of texts); then the profile takes the patched values and the time of
      approval, keeps every other field but the derived mismatch, which is true of the merged
      scores, and the recorded changes are the difference, in catalogue order. Otherwise the profile
      stays and the proposal stays a draft that names exactly the moved fields. */
  lemma ApprovalIsThreeWayMerge(py: Python, j: Journal, pid: Id, ts: string)
    requires Inv(py, j)
    requires pid in j.proposals && j.proposals[pid].status == Draft && j.proposals[pid].covered != []
    ensures var p := j.proposals[pid];
            var r := ApproveProposal(py, j, pid, ts);
            var k := r.journal;
            && p.base.Keys == Elements(PatchFields(p.patch))
            && pid in k.proposals
            && if forall f | f in PatchFields(p.patch) :: Stands(f, j.profile.Get(f), p.base[f]) then
                 && r.outcome == ProposalIs(pid)
                 && k == j.(profile := k.profile, proposals := j.proposals[pid := p.(
                              status := Approved, changed := k.proposals[pid].changed)])
                 && (forall i :: 0 <= i < |p.patch| ==> k.profile.Get(p.patch[i].field) == p.patch[i].value)
                 && (forall f: Field | f !in PatchFields(p.patch) && f !in {RiskMismatch, LastReviewedAt, UpdatedAt} ::
                       k.profile.Get(f) == j.profile.Get(f))
                 && SoundProfile(k.profile) && k.profile.lastReviewedAt == k.profile.updatedAt == VStr(ts)
                 && FieldsRise(k.proposals[pid].changed)
                 && (forall f: Field :: f in k.proposals[pid].changed <==>
                       f !in {LastReviewedAt, UpdatedAt} && j.profile.Get(f) != k.profile.Get(f))
               else
                 && r.outcome == Refused(ProposalConflict)
                 && k == j.(proposals := j.proposals[pid := p.(conflicts := k.proposals[pid].conflicts)])
                 && FieldsRise(k.proposals[pid].conflicts)
                 && (forall f :: f in k.proposals[pid].conflicts <==>
                       f in PatchFields(p.patch) && !Stands(f, j.profile.Get(f), p.base[f]))
  {
    hide Inv, NormalProfile, SoundProfile, MismatchTells, WellFormedDraft, ApproveProposal, ProposalApproval.Approved,
      ChangedFields, ConflictFields, Unmoved, Stands, Profile.Get, PatchFields, FieldsRise, AUDIT_FIELDS;
    var p := j.proposals[pid];
    ApprovalEnds(py, j, pid, ts);
    ApprovalIsMerge(py, p.patch, p.base, p.covered, j.profile, ts);
    ListsRise(py, p, j.profile, ts);
    forall f | f in PatchFields(p.patch)
      ensures Stands(f, j.profile.Get(f), p.base[f]) <==> Unmoved(f, j.profile.Get(f), p.base[f])
    {
      StandsIsUnmoved(f, j.profile.Get(f), p.base[f]);
    }
    var conflicts := ConflictFields(j.profile, p.patch, p.base);
    if conflicts != [] {
      assert conflicts[0] in conflicts;
    } else {
      NormalProfileIsSound(py, ProposalApproval.Approved(py, p.patch, j.profile, ts).value);
    }
  }

  /** Both recorded lists of fields come in catalogue order. */
  lemma ListsRise(py: Python, p: Proposal, current: Profile, ts: string)
    requires WellFormedDraft(py, p.patch, p.base, p.covered)
    ensures FieldsRise(ConflictFields(current, p.patch, p.base))
    ensures forall merged :: FieldsRise(ChangedFields(current, merged))
    ensures forall merged, f :: f in ChangedFields(current, merged) ==> f !in {LastReviewedAt, UpdatedAt}
  {
    hide FieldsRise, AUDIT_FIELDS, Profile.Get, NormalEntries, FieldsForTopics, Select, Unmoved, KnownTopics;
    var legal := FieldsForTopics(Elements(p.covered));
    CatalogueOpens(Elements(p.covered));
    SelectedFieldsRise(legal, Elements(PatchFields(p.patch)));
    SelectedFieldsRise(PatchFields(p.patch), set f | f in PatchFields(p.patch) && !Unmoved(f, current.Get(f),
        p.base[f]));
    AuditedFieldsRise();
    forall merged ensures FieldsRise(ChangedFields(current, merged))
      ensures forall f :: f in ChangedFields(current, merged) ==> f !in {LastReviewedAt, UpdatedAt}
    {
      SelectedFieldsRise(AUDIT_FIELDS, set f | f in AUDIT_FIELDS && current.Get(f) != merged.Get(f));
      forall f | f in ChangedFields(current, merged) ensures f !in {LastReviewedAt, UpdatedAt} {
        AuditCoverage(f);
      }
    }
  }

  /** In every run the profile is legal and its mismatch is true of its scores. */
  lemma ReachableProfileIsSound(py: Python, ops: seq<Op>)
    ensures SoundProfile(Run(py, ops).profile)
  {
    hide NormalProfile, SoundProfile;
    NormalProfileIsSound(py, Run(py, ops).profile);
  }

  /** A payload the profile editor can save: known fields, each readable; a given mismatch is ignored. */
  ghost predicate Savable(py: Python, payload: Payload) {
    && (forall k | k in payload :: k.Known?)
    && (forall f: Field | f != RiskMismatch && Known(f) in payload :: exists x :: Reads(py, f, payload[Known(f)], x))
  }

  /** Saving a profile, exactly: the given fields take what their values read as, the others stay, the
      mismatch is derived and the stamps are the time of saving; or nothing changes. */
  lemma SaveIsExact(py: Python, j: Journal, payload: Payload, ts: string)
    requires Inv(py, j)
    ensures var r := SaveProfile(py, j, payload, ts);
            if Savable(py, payload) then
              var p := r.journal.profile;
              && r.journal == j.(profile := p) && r.outcome == ProfileIs(p)
              && SoundProfile(p) && p.lastReviewedAt == p.updatedAt == VStr(ts)
              && (forall f: Field | f !in {RiskMismatch, LastReviewedAt, UpdatedAt} ::
                    if Known(f) in payload then Reads(py, f, payload[Known(f)], p.Get(f))
                    else p.Get(f) == j.profile.Get(f))
            else r == StepResult(j, Refused(ProfileInvalid))
  {
    hide NormalProfile, SoundProfile, Reads, NormalizeField, Normalize, Profile.Get, ProposalsOk, CoverageIsOrdered,
      MessagesOfTurns, AnswersAreStored, ActiveSessionsAsk, PendingTurnsMatch, OnePendingTurn, OneDraftProposal,
      OneActiveSession, IdsAreUsed, TurnsWereTried;
    NormalizeIsLocal(py, payload, j.profile);
    forall f: Field | f != RiskMismatch && Known(f) in payload
      ensures match NormalizeField(py, f, payload[Known(f)])
              case Some(x) => Reads(py, f, payload[Known(f)], x)
              case None => forall x :: !Reads(py, f, payload[Known(f)], x)
    {
      NormalizeMeans(py, f, payload[Known(f)]);
    }
    if Normalize(py, payload, j.profile).Some? {
      var p := Normalize(py, payload, j.profile).value;
      ReviewKeepsNormal(py, p, ts);
      NormalProfileIsSound(py, Reviewed(p, ts));
    }
  }

  /** What the older route writes: every field of a saved default profile but the stamps, over no base
      values and no topics, with the payload as it came. */
  ghost predicate LegacyRow(sid: Id, payload: Payload, rationales: map<Field, string>, p: Proposal) {
    && p == Proposal(sid, Draft, p.patch, map[], [], payload, rationales, {}, [], [])
    && Distinct(PatchFields(p.patch))
    && (forall f :: f in PatchFields(p.patch) <==> f !in {LastReviewedAt, UpdatedAt})
  }

  ghost predicate LegacyValue(py: Python, payload: Payload, e: Entry) {
    if e.field == RiskMismatch then e.value.VStr? && e.value.s in RISK_MISMATCHES
    else if Known(e.field) in payload then Reads(py, e.field, payload[Known(e.field)], e.value)
    else e.value == DefaultValue(e.field)
  }

  /** The older route, exactly: a payload that gives the derived mismatch or cannot be read is refused, and
      so is one for an unknown session or for a session with a waiting draft. */
  lemma CreateIsExact(py: Python, j: Journal, sid: Id, payload: Payload, rationales: map<Field, string>)
    ensures var r := CreateProposal(py, j, sid, payload, rationales);
            var pid := j.nextId;
            if Known(RiskMismatch) in payload || !Savable(py, payload) then r == StepResult(j, Refused(ProfileInvalid))
            else if sid !in j.sessions then r == StepResult(j, Refused(SessionNotFound))
            else if DraftWaits(j, sid) then r == StepResult(j, Refused(ProposalPending))
            else
              && r.outcome == ProposalIs(pid) && pid in r.journal.proposals && r.journal.nextId > pid
              && r.journal == j.(proposals := j.proposals[pid := r.journal.proposals[pid]], nextId := r.journal.nextId)
              && var p := r.journal.proposals[pid];
                 LegacyRow(sid, payload, rationales, p)
                 && forall i :: 0 <= i < |p.patch| ==> LegacyValue(py, payload, p.patch[i])
  {
    hide NormalProfile, Reads, NormalizeField, Normalize, Profile.Get, DEFAULT_PROFILE, LegacyValue, LEGACY_FIELDS,
      Distinct, Savable;
    SavableMeans(py, payload);
    LegacyFields();
    if Normalize(py, payload, DEFAULT_PROFILE).Some? {
      var normal := Normalize(py, payload, DEFAULT_PROFILE).value;
      var patch := PatchOf(LEGACY_FIELDS, normal);
      LegacyValues(py, payload, normal);
      assert forall i :: 0 <= i < |patch| ==> LegacyValue(py, payload, patch[i]);
    }
  }

  lemma SavableMeans(py: Python, payload: Payload)
    ensures Normalize(py, payload, DEFAULT_PROFILE).Some? <==> Savable(py, payload)
  {
    hide NormalProfile, Reads, NormalizeField, Normalize, DEFAULT_PROFILE;
    DefaultIsNormal(py);
    NormalizeIsLocal(py, payload, DEFAULT_PROFILE);
    forall f: Field | f != RiskMismatch && Known(f) in payload
      ensures NormalizeField(py, f, payload[Known(f)]).Some? <==> exists x :: Reads(py, f, payload[Known(f)], x)
    {
      NormalizeMeans(py, f, payload[Known(f)]);
    }
  }

  lemma LegacyFields()
    ensures Distinct(LEGACY_FIELDS)
    ensures forall f :: f in LEGACY_FIELDS <==> f !in {LastReviewedAt, UpdatedAt}
  {
    hide Distinct;
    LegacyFieldsOnce();
    forall f ensures f in LEGACY_FIELDS <==> f !in {LastReviewedAt, UpdatedAt} {
      match f
      case Enabled => assert LEGACY_FIELDS[0] == f;
      case PrimaryPreset => assert LEGACY_FIELDS[1] == f;
      case RiskAppetite => assert LEGACY_FIELDS[2] == f;
      case RiskCapacity => assert LEGACY_FIELDS[3] == f;
      case RiskMismatch => assert LEGACY_FIELDS[4] == f;
      case HoldingHorizon => assert LEGACY_FIELDS[5] == f;
      case DrawdownTolerance => assert LEGACY_FIELDS[6] == f;
      case ConcentrationLimit => assert LEGACY_FIELDS[7] == f;
      case PreferredEdge => assert LEGACY_FIELDS[8] == f;
      case Avoidances => assert LEGACY_FIELDS[9] == f;
      case BehavioralFlags => assert LEGACY_FIELDS[10] == f;
      case FreeformNotes => assert LEGACY_FIELDS[11] == f;
      case DefaultStance => assert LEGACY_FIELDS[12] == f;
      case SkillMode => assert LEGACY_FIELDS[13] == f;
      case LastReviewedAt =>
      case UpdatedAt =>
    }
  }

  lemma LegacyFieldsOnce()
    ensures Distinct(LEGACY_FIELDS)
  {
  }

  lemma LegacyValues(py: Python, payload: Payload, normal: Profile)
    requires Normalize(py, payload, DEFAULT_PROFILE) == Some(normal)
    ensures forall f :: LegacyValue(py, payload, Entry(f, normal.Get(f)))
  {
    hide NormalProfile, Reads, NormalizeField, Normalize, DEFAULT_PROFILE, Legal;
    DefaultIsNormal(py);
    NormalizeIsLocal(py, payload, DEFAULT_PROFILE);
    NormalProfileIsSound(py, normal);
    DefaultValues();
    forall f ensures LegacyValue(py, payload, Entry(f, normal.Get(f))) {
      if f == RiskMismatch {
        MismatchIsLegal(normal.Get(f));
      } else if Known(f) in payload {
        NormalizeMeans(py, f, payload[Known(f)]);
      }
    }
  }

  lemma DefaultValues()
    ensures forall f :: DEFAULT_PROFILE.Get(f) == DefaultValue(f)
  {
  }

  // ---------- what no operation ever takes back ----------

  predicate SessionEvolves(s: Session, s': Session) {
    && (s.status != Active ==> s' == s)
    && Elements(s.covered) <= Elements(s'.covered)
  }

  predicate TurnEvolves(t: Turn, t': Turn) {
    && t'.sessionId == t.sessionId && t'.kind == t.kind && t'.question == t.question && t'.addressed == t.addressed
    && t'.userMessage == t.userMessage && t'.attempts >= t.attempts
    && (t.status == Completed ==> t' == t)
  }

  predicate ProposalEvolves(p: Proposal, p': Proposal) {
    && p'.sessionId == p.sessionId && p'.patch == p.patch && p'.base == p.base && p'.covered == p.covered
    && p'.raw == p.raw && p'.rationales == p.rationales && p'.rejected == p.rejected
    && (p.status != Draft ==> p' == p)
  }

  ghost predicate SessionsEvolve(a: map<Id, Session>, b: map<Id, Session>) {
    forall s | s in a :: s in b && SessionEvolves(a[s], b[s])
  }

  ghost predicate MessagesKept(a: map<Id, Message>, b: map<Id, Message>) {
    forall m | m in a :: m in b && b[m] == a[m]
  }

  ghost predicate TurnsEvolve(a: map<string, Turn>, b: map<string, Turn>) {
    forall t | t in a :: t in b && TurnEvolves(a[t], b[t])
  }

  ghost predicate ProposalsEvolve(a: map<Id, Proposal>, b: map<Id, Proposal>) {
    forall p | p in a :: p in b && ProposalEvolves(a[p], b[p])
  }

  /** Messages are permanent, closed sessions, completed turns and decided proposals are
      frozen, and coverage only grows. */
  ghost predicate Evolves(j: Journal, k: Journal) {
    && j.nextId <= k.nextId && SessionsEvolve(j.sessions, k.sessions) && MessagesKept(j.messages, k.messages)
    && TurnsEvolve(j.turns, k.turns) && ProposalsEvolve(j.proposals, k.proposals)
  }

  lemma StepEvolves(py: Python, j: Journal, op: Op)
    requires Inv(py, j)
    ensures Evolves(j, Step(py, j, op).journal)
  {
    hide NormalProfile, ProposalsOk, CoverageOk, OneDraftProposal, MessagesOfTurns, AnswersAreStored,
      OnePendingTurn, OneActiveSession, ActiveSessionsAsk, PendingTurnsMatch, TurnsWereTried,
      Normalize, PatchOf, Validated, ConflictFields, ProposalApproval.Approved, WorkFor, GuidedError, Judge,
      Strip, Blank, CATALOGUE, Reviewed, ReplayBegin, OPENING_MESSAGE, HasDraft, CompleteTurn, StartSession, BeginTurn,
      RetryTurn, Evolves;
    match op
    case OpStart(supersede) => StartEvolves(py, j, supersede);
    case OpBegin(sid, turnId, kind, answer, provider, model) => BeginEvolves(py, j, sid, turnId, kind, answer,
        provider, model);
    case OpRetry(turnId, provider, model) => RetryEvolves(py, j, turnId, provider, model);
    case OpComplete(turnId, r) => CompleteEvolves(py, j, turnId, r);
    case OpClose(_) => TurnStepEvolves(py, j, op);
    case OpAppend(_, _, _) => TurnStepEvolves(py, j, op);
    case OpFail(_, _) => TurnStepEvolves(py, j, op);
    case OpReconcile => TurnStepEvolves(py, j, op);
    case _ => ProposalStepEvolves(py, j, op);
  }

  lemma TurnStepEvolves(py: Python, j: Journal, op: Op)
    requires Inv(py, j) && (op.OpClose? || op.OpAppend? || op.OpFail? || op.OpReconcile?)
    ensures Evolves(j, Step(py, j, op).journal)
  {
    hide NormalProfile, ProposalsOk, CoverageOk, OneDraftProposal, MessagesOfTurns, AnswersAreStored,
      OnePendingTurn, OneActiveSession, ActiveSessionsAsk, PendingTurnsMatch, TurnsWereTried, CoverageIsOrdered,
      Strip, Blank, CATALOGUE, Elements, PendingTurns, ProposalsEvolve;
    EvolvesFromItself(j);
  }

  lemma ProposalStepEvolves(py: Python, j: Journal, op: Op)
    requires Inv(py, j)
    requires op.OpCreateProposal? || op.OpMarkApproved? || op.OpApprove? || op.OpReject? || op.OpSaveProfile?
    ensures Evolves(j, Step(py, j, op).journal)
  {
    hide NormalProfile, ProposalsOk, CoverageOk, OneDraftProposal, MessagesOfTurns, AnswersAreStored,
      OnePendingTurn, OneActiveSession, ActiveSessionsAsk, PendingTurnsMatch, TurnsWereTried, CoverageIsOrdered,
      Normalize, PatchOf, Validated, ConflictFields, ProposalApproval.Approved, CATALOGUE, Reviewed, HasDraft,
          ChangedFields,
      SessionsEvolve, MessagesKept, TurnsEvolve;
    EvolvesFromItself(j);
  }

  lemma StartEvolves(py: Python, j: Journal, supersede: bool)
    requires Inv(py, j)
    ensures Evolves(j, StartSession(j, supersede).journal)
  {
    hide NormalProfile, ProposalsOk, CoverageOk, OneDraftProposal, MessagesOfTurns, AnswersAreStored,
      OnePendingTurn, OneActiveSession, ActiveSessionsAsk, PendingTurnsMatch, TurnsWereTried, OPENING_MESSAGE,
      Elements, GuidedError, CoverageIsOrdered;
    EvolvesFromItself(j);
  }

  lemma BeginEvolves(py: Python, j: Journal, sid: Id, turnId: string, kind: TurnKind, answer: Option<string>,
                     provider: Option<string>, model: Option<string>)
    requires Inv(py, j)
    ensures Evolves(j, BeginTurn(j, sid, turnId, kind, answer, provider, model).journal)
  {
    hide NormalProfile, ProposalsOk, CoverageOk, OneDraftProposal, MessagesOfTurns, AnswersAreStored,
      OnePendingTurn, OneActiveSession, ActiveSessionsAsk, PendingTurnsMatch, TurnsWereTried,
      Strip, Blank, CATALOGUE, WorkFor, ReplayBegin, CoverageIsOrdered, GuidedError, Elements,
      ProposalsEvolve, SessionsEvolve;
    EvolvesFromItself(j);
  }

  lemma RetryEvolves(py: Python, j: Journal, turnId: string, provider: Option<string>, model: Option<string>)
    requires Inv(py, j)
    ensures Evolves(j, RetryTurn(j, turnId, provider, model).journal)
  {
    hide NormalProfile, ProposalsOk, CoverageOk, OneDraftProposal, MessagesOfTurns, AnswersAreStored,
      OnePendingTurn, OneActiveSession, ActiveSessionsAsk, PendingTurnsMatch, TurnsWereTried, WorkFor, GuidedError;
  }

  lemma CompleteEvolves(py: Python, j: Journal, turnId: string, r: ProviderResult)
    requires Inv(py, j)
    ensures Evolves(j, CompleteTurn(py, j, turnId, r).journal)
  {
    hide NormalProfile, ProposalsOk, CoverageIsOrdered, CoverageOk, OneDraftProposal, MessagesOfTurns, AnswersAreStored,
      OnePendingTurn, OneActiveSession, ActiveSessionsAsk, PendingTurnsMatch, TurnsWereTried, Judge,
      OrderedTopics, CATALOGUE, CodeText, GuidedError, AcceptedResult, NextOf;
    if turnId in j.turns && IsPending(j.turns[turnId]) && GuidedError(j, j.turns[turnId].sessionId).None? {
      var t := j.turns[turnId];
      match Judge(py, j, t, j.sessions[t.sessionId], r)
      case Good(draft) =>
        JudgedResult(py, j, turnId, r, draft);
        AcceptedEvolves(py, j, turnId, r, draft);
      case Bad(_) =>
    }
  }

  lemma AcceptedEvolves(py: Python, j: Journal, turnId: string, r: ProviderResult, draft: Option<DraftData>)
    requires Inv(py, j) && AcceptedResult(py, j, turnId, r, draft)
    ensures Evolves(j, Accept(j, turnId, r, draft))
  {
    hide NormalProfile, ProposalsOk, CoverageOk, OneDraftProposal, MessagesOfTurns, AnswersAreStored,
      OnePendingTurn, OneActiveSession, ActiveSessionsAsk, PendingTurnsMatch, TurnsWereTried, WellFormedDraft,
          CATALOGUE,
      Select, UnknownOnce, HasDraft, NextOf, CoverageIsOrdered, KnownTopics, DraftRow;
  }

  lemma EvolvesFromItself(a: Journal)
    ensures Evolves(a, a)
  {
  }

  lemma EvolvesIsTransitive(a: Journal, b: Journal, c: Journal)
    requires Evolves(a, b) && Evolves(b, c)
    ensures Evolves(a, c)
  {
  }

  /** The same over whole runs: whatever happens later, nothing recorded is taken back. */
  lemma {:induction false} RunsOnlyAdd(py: Python, ops: seq<Op>, more: seq<Op>)
    ensures Evolves(Run(py, ops), Run(py, ops + more))
    decreases |more|
  {
    hide Evolves, Inv, Step;
    if more == [] {
      EvolvesFromItself(Run(py, ops));
      assert ops + more == ops;
    } else {
      var init := more[..|more| - 1];
      var all := ops + more;
      assert all[..|all| - 1] == ops + init;
      RunsOnlyAdd(py, ops, init);
      StepEvolves(py, Run(py, ops + init), all[|all| - 1]);
      EvolvesIsTransitive(Run(py, ops), Run(py, ops + init), Run(py, all));
    }
  }

  // ---------- provider calls ----------

  function CallsFor(o: Outcome, turnId: string): nat {
    if o.Working? && o.work.callProvider && o.work.turnId == turnId then 1 else 0
  }

  /** Provider calls a run has authorised for a turn. */
  ghost function Authorised(py: Python, ops: seq<Op>, turnId: string): nat {
    if ops == [] then 0
    else
      var init := ops[..|ops| - 1];
      Authorised(py, init, turnId) + CallsFor(Step(py, Run(py, init), ops[|ops| - 1]).outcome, turnId)
  }

  function Attempts(j: Journal, turnId: string): nat {
    if turnId in j.turns then j.turns[turnId].attempts else 0
  }

  predicate CountsCalls(j: Journal, r: StepResult, turnId: string) {
    Attempts(r.journal, turnId) == Attempts(j, turnId) + CallsFor(r.outcome, turnId)
  }

  lemma StepCountsCalls(py: Python, j: Journal, op: Op, turnId: string)
    requires Inv(py, j)
    ensures CountsCalls(j, Step(py, j, op), turnId)
  {
    hide Inv, CountsCalls, StartSession, CloseSession, AppendMessage, BeginTurn, FailTurn, Reconcile, RetryTurn,
      CompleteTurn, CreateProposal, MarkApproved, ApproveProposal, RejectProposal, SaveProfile;
    InvBasics(py, j);
    match op
    case OpStart(supersede) => StartCountsCalls(py, j, supersede, turnId);
    case OpBegin(sid, id, kind, answer, provider, model) =>
      BeginCountsCalls(py, j, sid, id, kind, answer, provider, model, turnId);
    case OpRetry(id, provider, model) => RetryCountsCalls(py, j, id, provider, model, turnId);
    case OpComplete(id, r) => CompleteCountsCalls(py, j, id, r, turnId);
    case OpClose(_) => TurnStepCountsCalls(py, j, op, turnId);
    case OpAppend(_, _, _) => TurnStepCountsCalls(py, j, op, turnId);
    case OpFail(_, _) => TurnStepCountsCalls(py, j, op, turnId);
    case OpReconcile => TurnStepCountsCalls(py, j, op, turnId);
    case _ => ProposalStepCountsCalls(py, j, op, turnId);
  }

  lemma StartCountsCalls(py: Python, j: Journal, supersede: bool, turnId: string)
    requires Inv(py, j)
    ensures CountsCalls(j, StartSession(j, supersede), turnId)
  {
    hide Inv, GuidedError, OPENING_MESSAGE;
    InvBasics(py, j);
  }

  lemma BeginCountsCalls(py: Python, j: Journal, sid: Id, id: string, kind: TurnKind, answer: Option<string>,
                         provider: Option<string>, model: Option<string>, turnId: string)
    requires Inv(py, j)
    ensures CountsCalls(j, BeginTurn(j, sid, id, kind, answer, provider, model), turnId)
  {
    hide Inv, BeginTurn, AllSpace, IsRequest, OtherPending;
    BeginIsExact(py, j, sid, id, kind, answer, provider, model);
  }

  lemma RetryCountsCalls(py: Python, j: Journal, id: string, provider: Option<string>, model: Option<string>,
      turnId: string)
    requires Inv(py, j)
    ensures CountsCalls(j, RetryTurn(j, id, provider, model), turnId)
  {
    hide Inv, GuidedError;
    InvBasics(py, j);
  }

  lemma CompleteCountsCalls(py: Python, j: Journal, id: string, r: ProviderResult, turnId: string)
    requires Inv(py, j)
    ensures CountsCalls(j, CompleteTurn(py, j, id, r), turnId)
  {
    hide Inv, GuidedError, Judge, CATALOGUE, HasDraft, CoveredAfter, CodeText, NextOf, DraftRow;
    InvBasics(py, j);
  }

  lemma TurnStepCountsCalls(py: Python, j: Journal, op: Op, turnId: string)
    requires Inv(py, j) && (op.OpClose? || op.OpAppend? || op.OpFail? || op.OpReconcile?)
    ensures CountsCalls(j, Step(py, j, op), turnId)
  {
    hide Inv, Strip, Blank, PendingTurns;
    InvBasics(py, j);
  }

  lemma ProposalStepCountsCalls(py: Python, j: Journal, op: Op, turnId: string)
    requires Inv(py, j)
    requires op.OpCreateProposal? || op.OpMarkApproved? || op.OpApprove? || op.OpReject? || op.OpSaveProfile?
    ensures CountsCalls(j, Step(py, j, op), turnId)
  {
    hide Inv, Normalize, PatchOf, Validated, ConflictFields, ProposalApproval.Approved, CATALOGUE, Reviewed, HasDraft,
      ChangedFields;
    InvBasics(py, j);
  }

  /** Every provider call for a turn was authorised by exactly one attempt. */
  lemma {:induction false} AttemptsAreAuthorisedCalls(py: Python, ops: seq<Op>, turnId: string)
    ensures Authorised(py, ops, turnId) == Attempts(Run(py, ops), turnId)
  {
    if ops == [] {
    } else {
      AttemptsAreAuthorisedCalls(py, ops[..|ops| - 1], turnId);
      StepCountsCalls(py, Run(py, ops[..|ops| - 1]), ops[|ops| - 1], turnId);
    }
  }

  // ---------- interview progress ----------

  /** What an accepted completion does to its session: coverage grows by the answered topic
      at most, stays duplicate-free and in catalogue order, the next question is about an
      uncovered topic, and with nothing left to cover the session can only close. */
  lemma CompletionProgress(py: Python, j: Journal, turnId: string, r: ProviderResult)
    requires Inv(py, j)
    requires turnId in j.turns && IsPending(j.turns[turnId])
    requires CompleteTurn(py, j, turnId, r).outcome == TurnIs(turnId)
    ensures var t := j.turns[turnId];
            var s := j.sessions[t.sessionId];
            var s' := CompleteTurn(py, j, turnId, r).journal.sessions[t.sessionId];
            && s.status == Active && s.currentTopic == Some(t.addressed)
            && Elements(s'.covered) ==
               Elements(s.covered) + (if t.kind == Answer && r.topicCovered == VBool(true) then {t.addressed} else {})
            && InCatalogueOrder(s'.covered) && Distinct(s'.covered)
            && (s'.status == Active <==> NextOf(r).Some?)
            && (s'.status == Active ==> s'.currentTopic == NextOf(r) && NextOf(r).value !in s'.covered)
            && ((forall topic :: topic in CATALOGUE ==> topic in s'.covered) ==> s'.status == Closed)
  {
    hide NormalProfile, ProposalsOk, CoverageOk, OneDraftProposal, MessagesOfTurns, AnswersAreStored,
      OnePendingTurn, OneActiveSession, TurnsWereTried, IdsAreUsed, OrderedTopics, DraftVerdict, Select, CATALOGUE,
      InCatalogueOrder, Distinct;
    var t := j.turns[turnId];
    var s := j.sessions[t.sessionId];
    CoverageGrows(t, s.covered, r);
    OrderedCoverage(CoveredAfter(t, s.covered, r));
  }

  lemma OrderedCoverage(covered: seq<Topic>)
    requires CoverageOk(covered)
    ensures InCatalogueOrder(covered) && Distinct(covered)
  {
    OrderedIsCatalogueOrder(covered);
  }

  // ---------- replays ----------

  /** Beginning the same turn again changes nothing and authorises no second call. */
  lemma BeginIsIdempotent(py: Python, j: Journal, sid: Id, turnId: string, kind: TurnKind, answer: Option<string>,
                          p1: Option<string>, m1: Option<string>, p2: Option<string>, m2: Option<string>)
    requires Inv(py, j)
    requires BeginTurn(j, sid, turnId, kind, answer, p1, m1).outcome.Working?
    ensures var r := BeginTurn(j, sid, turnId, kind, answer, p1, m1);
            && TurnsHaveSessions(r.journal)
            && BeginTurn(r.journal, sid, turnId, kind, answer, p2, m2)
               == StepResult(r.journal, Working(r.outcome.work.(callProvider := false)))
  {
    hide NormalProfile, ProposalsOk, CoverageOk, OneDraftProposal, MessagesOfTurns, AnswersAreStored,
      OnePendingTurn, OneActiveSession, TurnsWereTried, IdsAreUsed, OrderedTopics, CATALOGUE, Strip;
  }

  /** Completing a completed turn again changes nothing, whatever the second result says. */
  lemma CompleteIsIdempotent(py: Python, j: Journal, turnId: string, r1: ProviderResult, r2: ProviderResult)
    requires Inv(py, j)
    requires CompleteTurn(py, j, turnId, r1).outcome == TurnIs(turnId)
    ensures var k := CompleteTurn(py, j, turnId, r1).journal;
            TurnsHaveSessions(k) && CompleteTurn(py, k, turnId, r2) == StepResult(k, TurnIs(turnId))
  {
    hide NormalProfile, ProposalsOk, CoverageOk, OneDraftProposal, MessagesOfTurns, AnswersAreStored,
      OnePendingTurn, OneActiveSession, TurnsWereTried, IdsAreUsed, OrderedTopics, CATALOGUE, Judge, CoveredAfter;
  }

  /** A retry undoes a failure: the turn is pending again on the same question, with one more
      attempt, and nothing else moved. */
  lemma RetryUndoesFailure(py: Python, j: Journal, turnId: string, code: string)
    requires Inv(py, j) && BoundedCode(code) != SESSION_SUPERSEDED
    requires turnId in j.turns && IsPending(j.turns[turnId])
    requires j.sessions[j.turns[turnId].sessionId].status == Active
    ensures var k := FailTurn(j, turnId, code).journal;
            && TurnsHaveSessions(k)
            && var r := RetryTurn(k, turnId, None, None);
            && r.outcome.Working? && r.outcome.work.callProvider
            && r.journal == j.(turns := j.turns[turnId := j.turns[turnId].(
                 attempts := j.turns[turnId].attempts + 1, errorCode := None, nextTopic := None,
                     assistantMessage := None)])
  {
    hide NormalProfile, ProposalsOk, CoverageOk, OneDraftProposal, MessagesOfTurns, AnswersAreStored,
      OneActiveSession, TurnsWereTried, IdsAreUsed, OrderedTopics, CATALOGUE, BoundedCode, CoverageIsOrdered;
    var k := FailTurn(j, turnId, code).journal;
    var t := j.turns[turnId];
    assert k.messages == j.messages && k.sessions == j.sessions;
    var again := RetryTurn(k, turnId, None, None).journal;
    assert again.turns == j.turns[turnId := t.(attempts := t.attempts + 1, errorCode := None, nextTopic := None,
        assistantMessage := None)];
  }

  // ---------- refusals ----------

  /** A refusal rolls everything back, with two recorded exceptions: a bad provider result
      fails its turn, and a conflict is noted on its draft. */
  lemma RefusalsRollBack(py: Python, j: Journal, op: Op)
    requires Inv(py, j)
    requires Step(py, j, op).outcome.Refused?
    ensures var r := Step(py, j, op);
            || r.journal == j
            || (&& op.OpComplete? && op.turnId in j.turns && IsPending(j.turns[op.turnId])
                && r.journal == j.(turns := j.turns[op.turnId :=
                     j.turns[op.turnId].(status := Failed, errorCode := Some(CodeText(r.outcome.code)))]))
            || (&& op.OpApprove? && r.outcome.code == ProposalConflict && op.pid in j.proposals
                && r.journal == j.(proposals := j.proposals[op.pid :=
                     j.proposals[op.pid].(conflicts := ConflictsOf(j, op.pid))]))
  {
    hide NormalProfile, CoverageOk, OneDraftProposal, MessagesOfTurns, AnswersAreStored,
      OnePendingTurn, OneActiveSession, ActiveSessionsAsk, PendingTurnsMatch, TurnsWereTried, IdsAreUsed,
      Normalize, PatchOf, ProposalApproval.Approved, GuidedError, Judge, CoverageIsOrdered, ProposalsOk,
      Strip, Blank, CATALOGUE, Reviewed, OPENING_MESSAGE, HasDraft, CodeText, Accept, KnownTopics, OrderedTopics,
          KeysInOrder,
      Clamp;
  }

  function ConflictsOf(j: Journal, pid: Id): seq<Field>
    requires pid in j.proposals
  {
    var p := j.proposals[pid];
    if p.base.Keys == Elements(PatchFields(p.patch)) then ConflictFields(j.profile, p.patch, p.base) else []
  }
}
