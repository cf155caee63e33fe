/** What every reachable journal satisfies, and that every operation keeps it. */
module JournalInvariant {
  import opened PyValues
  import opened InvestorProfiles
  import opened CalibrationPolicy
  import opened ProposalApproval
  import opened CalibrationJournal

  ghost predicate OneActiveSession(j: Journal) {
    forall a, b | a in j.sessions && b in j.sessions && j.sessions[a].status == Active && j.sessions[b].status
        == Active ::
      a == b
  }

  ghost predicate OnePendingTurn(j: Journal) {
    forall a, b | a in j.turns && b in j.turns && IsPending(j.turns[a]) && IsPending(j.turns[b])
                  && j.turns[a].sessionId == j.turns[b].sessionId :: a == b
  }

  ghost predicate OneDraftProposal(j: Journal) {
    forall a, b | a in j.proposals && b in j.proposals && j.proposals[a].status == Draft && j.proposals[b].status
        == Draft
                  && j.proposals[a].sessionId == j.proposals[b].sessionId :: a == b
  }

  /** A message that names a turn is the one that turn's row points at: at most one from the
      user and, once the turn is completed, one from the assistant. */
  ghost predicate MessagesOfTurns(j: Journal) {
    forall m | m in j.messages && j.messages[m].turnId.Some? ::
      var t := j.messages[m].turnId.value;
      && t in j.turns && j.messages[m].sessionId == j.turns[t].sessionId
      && if j.messages[m].role == User then j.turns[t].userMessage == Some(m)
         else j.turns[t].status == Completed && j.turns[t].assistantMessage == Some(m)
  }

  ghost predicate AnswersAreStored(j: Journal) {
    forall t | t in j.turns ::
      if j.turns[t].kind == Answer then
        && j.turns[t].userMessage.Some? && j.turns[t].userMessage.value in j.messages
        && j.messages[j.turns[t].userMessage.value].turnId == Some(t)
        && j.messages[j.turns[t].userMessage.value].role == User
      else j.turns[t].userMessage.None?
  }

  /** The session asks about an uncovered catalogue topic through a stored assistant message. */
  ghost predicate ActiveSessionsAsk(j: Journal) {
    forall s | s in j.sessions && j.sessions[s].status == Active ::
      && GuidedError(j, s).None?
      && j.sessions[s].currentTopic.value !in j.sessions[s].covered
  }

  /** A pending turn of an active session still carries that session's question and topic. */
  ghost predicate PendingTurnsMatch(j: Journal) {
    forall t | t in j.turns && IsPending(j.turns[t]) && j.turns[t].sessionId in j.sessions
               && j.sessions[j.turns[t].sessionId].status == Active ::
      && j.sessions[j.turns[t].sessionId].currentQuestion == Some(j.turns[t].question)
      && j.sessions[j.turns[t].sessionId].currentTopic == Some(j.turns[t].addressed)
  }

  ghost predicate RowsHaveSessions(j: Journal) {
    && TurnsHaveSessions(j)
    && (forall m | m in j.messages :: j.messages[m].sessionId in j.sessions)
    && (forall p | p in j.proposals :: j.proposals[p].sessionId in j.sessions)
  }

  ghost predicate IdsAreUsed(j: Journal) {
    && (forall s | s in j.sessions :: s < j.nextId)
    && (forall m | m in j.messages :: m < j.nextId)
    && (forall p | p in j.proposals :: p < j.nextId)
  }

  predicate CoverageOk(covered: seq<Topic>) {
    KnownTopics(covered) && covered == OrderedTopics(covered)
  }

  ghost predicate CoverageIsOrdered(j: Journal) {
    forall s | s in j.sessions :: CoverageOk(j.sessions[s].covered)
  }

  /** A proposal written by a completion is a well-formed draft; one from the older route has
      no covered topics. */
  ghost predicate ProposalOk(py: Python, p: Proposal) {
    p.covered == [] || WellFormedDraft(py, p.patch, p.base, p.covered)
  }

  ghost predicate ProposalsOk(py: Python, j: Journal) {
    forall p | p in j.proposals :: ProposalOk(py, j.proposals[p])
  }

  ghost predicate TurnsWereTried(j: Journal) {
    forall t | t in j.turns :: j.turns[t].attempts >= 1
  }

  ghost predicate Inv(py: Python, j: Journal) {
    && OneActiveSession(j) && OnePendingTurn(j) && OneDraftProposal(j)
    && MessagesOfTurns(j) && AnswersAreStored(j) && ActiveSessionsAsk(j) && PendingTurnsMatch(j)
    && RowsHaveSessions(j) && IdsAreUsed(j) && CoverageIsOrdered(j)
    && ProposalsOk(py, j) && NormalProfile(py, j.profile) && TurnsWereTried(j)
  }

  lemma InvBasics(py: Python, j: Journal)
    requires Inv(py, j)
    ensures TurnsHaveSessions(j) && OneActiveSession(j)
  {
  }

  lemma EmptyJournalIsValid(py: Python)
    ensures Inv(py, EMPTY_JOURNAL)
  {
    DefaultIsNormal(py);
  }

  /** After a start, the new session is the only active one and no turn of an active session
      is pending. */
  lemma StartedSession(py: Python, j: Journal, supersede: bool)
    requires Inv(py, j)
    requires StartSession(j, supersede).outcome.SessionIs?
    ensures var k := StartSession(j, supersede).journal;
            && (forall s | s in k.sessions :: k.sessions[s].status == Active <==> s == j.nextId)
            && GuidedError(k, j.nextId).None?
            && k.sessions[j.nextId].covered == []
            && (forall t | t in k.turns && IsPending(k.turns[t]) :: k.turns[t].sessionId != j.nextId)
  {
    hide NormalProfile, ProposalsOk, OrderedTopics, CoverageIsOrdered, OPENING_MESSAGE;
  }

  lemma StartKeepsInv(py: Python, j: Journal, supersede: bool)
    requires Inv(py, j)
    ensures Inv(py, StartSession(j, supersede).journal)
  {
    hide NormalProfile, ProposalOk, CoverageOk, OPENING_MESSAGE, GuidedError;
    if StartSession(j, supersede).outcome.SessionIs? {
      StartedSession(py, j, supersede);
      EmptyCoverageIsOk();
      StartKeepsTurns(py, j, supersede);
    }
  }

  lemma EmptyCoverageIsOk()
    ensures CoverageOk([])
  {
    OrderedIsCatalogueOrder([]);
    assert Select(CATALOGUE, {}) == [] by {
      SelectNothing(CATALOGUE);
    }
  }

  lemma {:induction false} SelectNothing<T(!new)>(order: seq<T>)
    ensures Select(order, {}) == []
  {
    if order == [] {
    } else {
      SelectNothing(order[1..]);
    }
  }

  lemma StartKeepsTurns(py: Python, j: Journal, supersede: bool)
    requires Inv(py, j)
    requires StartSession(j, supersede).outcome.SessionIs?
    ensures var k := StartSession(j, supersede).journal;
            && OnePendingTurn(k) && MessagesOfTurns(k) && AnswersAreStored(k) && RowsHaveSessions(k)
               && TurnsWereTried(k)
  {
    hide NormalProfile, ProposalsOk, CoverageIsOrdered, OPENING_MESSAGE, GuidedError, ActiveSessionsAsk,
      PendingTurnsMatch, OneDraftProposal, ProposalOk, CoverageOk;
  }

  lemma CloseKeepsInv(py: Python, j: Journal, sid: Id)
    requires Inv(py, j)
    ensures Inv(py, CloseSession(j, sid).journal)
  {
    hide NormalProfile, ProposalOk, CoverageOk;
  }

  /** A free message names no turn and is nobody's question. */
  lemma AppendedMessage(py: Python, j: Journal, sid: Id, role: Role, content: string)
    requires Inv(py, j)
    ensures var k := AppendMessage(j, sid, role, content).journal;
            MessagesOfTurns(k) && AnswersAreStored(k) && ActiveSessionsAsk(k)
  {
    hide NormalProfile, ProposalsOk, CoverageIsOrdered, Strip, Blank, CATALOGUE, OneActiveSession, OnePendingTurn,
      OneDraftProposal, PendingTurnsMatch, TurnsWereTried;
  }

  lemma AppendKeepsInv(py: Python, j: Journal, sid: Id, role: Role, content: string)
    requires Inv(py, j)
    ensures Inv(py, AppendMessage(j, sid, role, content).journal)
  {
    hide NormalProfile, ProposalOk, CoverageOk, Strip, Blank, MessagesOfTurns, AnswersAreStored, ActiveSessionsAsk;
    AppendedMessage(py, j, sid, role, content);
  }

  lemma BegunTurnMatches(py: Python, j: Journal, sid: Id, turnId: string, kind: TurnKind, answer: Option<string>,
                         provider: Option<string>, model: Option<string>)
    requires Inv(py, j)
    ensures var k := BeginTurn(j, sid, turnId, kind, answer, provider, model).journal;
            PendingTurnsMatch(k) && OnePendingTurn(k)
  {
    hide NormalProfile, ProposalsOk, CoverageIsOrdered, Strip, Blank, WorkFor, ReplayBegin, MessagesOfTurns,
        AnswersAreStored,
      TurnsWereTried, CATALOGUE, OneDraftProposal, ActiveSessionsAsk, IdsAreUsed;
  }

  lemma BegunTurnSessions(py: Python, j: Journal, sid: Id, turnId: string, kind: TurnKind, answer: Option<string>,
                          provider: Option<string>, model: Option<string>)
    requires Inv(py, j)
    ensures var k := BeginTurn(j, sid, turnId, kind, answer, provider, model).journal;
            && OneActiveSession(k) && ActiveSessionsAsk(k)
            && CoverageIsOrdered(k) && OneDraftProposal(k) && ProposalsOk(py, k) && k.profile == j.profile
  {
    hide NormalProfile, ProposalOk, CoverageOk, Strip, Blank, WorkFor, ReplayBegin, MessagesOfTurns, AnswersAreStored,
      TurnsWereTried, CATALOGUE, OnePendingTurn, PendingTurnsMatch;
  }

  lemma BegunTurnRows(py: Python, j: Journal, sid: Id, turnId: string, kind: TurnKind, answer: Option<string>,
                      provider: Option<string>, model: Option<string>)
    requires Inv(py, j)
    ensures var k := BeginTurn(j, sid, turnId, kind, answer, provider, model).journal;
            && MessagesOfTurns(k) && AnswersAreStored(k)
  {
    hide NormalProfile, ProposalsOk, CoverageIsOrdered, TurnsWereTried, Strip, Blank, WorkFor, ReplayBegin,
        OneActiveSession,
      ActiveSessionsAsk, PendingTurnsMatch, OneDraftProposal, OnePendingTurn, CATALOGUE, IsPending;
  }

  lemma BegunTurnKeys(py: Python, j: Journal, sid: Id, turnId: string, kind: TurnKind, answer: Option<string>,
                      provider: Option<string>, model: Option<string>)
    requires Inv(py, j)
    ensures var k := BeginTurn(j, sid, turnId, kind, answer, provider, model).journal;
            && RowsHaveSessions(k) && IdsAreUsed(k) && TurnsWereTried(k)
  {
    hide NormalProfile, ProposalsOk, CoverageIsOrdered, MessagesOfTurns, AnswersAreStored, Strip, Blank, WorkFor,
      ReplayBegin, OneActiveSession, ActiveSessionsAsk, PendingTurnsMatch, OneDraftProposal, OnePendingTurn, CATALOGUE,
      IsPending;
  }

  lemma BeginKeepsInv(py: Python, j: Journal, sid: Id, turnId: string, kind: TurnKind, answer: Option<string>,
                      provider: Option<string>, model: Option<string>)
    requires Inv(py, j)
    ensures Inv(py, BeginTurn(j, sid, turnId, kind, answer, provider, model).journal)
  {
    hide BeginTurn, NormalProfile, OneActiveSession, ActiveSessionsAsk, PendingTurnsMatch, OnePendingTurn,
      CoverageIsOrdered, OneDraftProposal, ProposalsOk, MessagesOfTurns, AnswersAreStored, RowsHaveSessions,
      IdsAreUsed, TurnsWereTried;
    BegunTurnMatches(py, j, sid, turnId, kind, answer, provider, model);
    BegunTurnSessions(py, j, sid, turnId, kind, answer, provider, model);
    BegunTurnRows(py, j, sid, turnId, kind, answer, provider, model);
    BegunTurnKeys(py, j, sid, turnId, kind, answer, provider, model);
  }

  /** The part of the invariant that speaks of turns. */
  ghost predicate TurnRowsOk(j: Journal) {
    OnePendingTurn(j) && MessagesOfTurns(j) && AnswersAreStored(j) && PendingTurnsMatch(j) && TurnsHaveSessions(j)
    && TurnsWereTried(j)
  }

  /** A step that rewrites turns alone has only that part to keep. */
  lemma OtherRowsKept(py: Python, j: Journal, k: Journal)
    requires Inv(py, j) && k == j.(turns := k.turns) && TurnRowsOk(k)
    ensures Inv(py, k)
  {
    hide NormalProfile, ProposalOk, CoverageOk, CATALOGUE, OnePendingTurn, MessagesOfTurns, AnswersAreStored,
      PendingTurnsMatch, TurnsHaveSessions, TurnsWereTried;
  }

  lemma FailedKeepsInv(py: Python, j: Journal, turnId: string, code: string)
    requires Inv(py, j) && turnId in j.turns && IsPending(j.turns[turnId])
    ensures Inv(py, FailedWith(j, turnId, code))
  {
    hide NormalProfile, ProposalsOk, CoverageIsOrdered, ActiveSessionsAsk, OneActiveSession, OneDraftProposal,
        IdsAreUsed;
    OtherRowsKept(py, j, FailedWith(j, turnId, code));
  }

  lemma FailKeepsInv(py: Python, j: Journal, turnId: string, code: string)
    requires Inv(py, j)
    ensures Inv(py, FailTurn(j, turnId, code).journal)
  {
    hide Inv, FailedWith, BoundedCode;
    if turnId in j.turns && IsPending(j.turns[turnId]) {
      FailedKeepsInv(py, j, turnId, BoundedCode(code));
    }
  }

  lemma ReconcileKeepsInv(py: Python, j: Journal)
    requires Inv(py, j)
    ensures Inv(py, Reconcile(j).journal)
  {
    hide NormalProfile, ProposalsOk, CoverageIsOrdered, ActiveSessionsAsk, OneActiveSession, OneDraftProposal,
        IdsAreUsed;
    OtherRowsKept(py, j, Reconcile(j).journal);
  }

  lemma RetryKeepsInv(py: Python, j: Journal, turnId: string, provider: Option<string>, model: Option<string>)
    requires Inv(py, j)
    ensures Inv(py, RetryTurn(j, turnId, provider, model).journal)
  {
    hide NormalProfile, ProposalsOk, CoverageIsOrdered, ActiveSessionsAsk, OneActiveSession, OneDraftProposal,
        IdsAreUsed,
      WorkFor, CATALOGUE;
    OtherRowsKept(py, j, RetryTurn(j, turnId, provider, model).journal);
  }

  lemma CoverageGrows(turn: Turn, covered: seq<Topic>, r: ProviderResult)
    requires CoverageOk(covered)
    requires ResultError(turn, covered, r).None?
    ensures CoverageOk(CoveredAfter(turn, covered, r))
    ensures Elements(CoveredAfter(turn, covered, r)) ==
            Elements(covered) + (if turn.kind == Answer && r.topicCovered == VBool(true) then {turn.addressed} else {})
    ensures NextOf(r).Some? ==> NextOf(r).value in CATALOGUE && NextOf(r).value !in CoveredAfter(turn, covered, r)
  {
    hide Select, UnknownOnce;
    var more := covered + [r.addressedTopic.topic];
    assert KnownTopics(more);
    OrderedIsCatalogueOrder(more);
    OrderedIsCatalogueOrder(OrderedTopics(more));
    assert KnownTopics(OrderedTopics(more)) by {
      assert forall t :: t in OrderedTopics(more) ==> t in Elements(OrderedTopics(more));
      assert forall t :: t in Elements(more) ==> t in more;
    }
  }

  /** The draft a completion writes is well formed, and its session had none. */
  lemma VerdictIsWellFormed(py: Python, j: Journal, sid: Id, covered: seq<Topic>, r: ProviderResult)
    requires NormalProfile(py, j.profile) && CoverageOk(covered)
    ensures match DraftVerdict(py, j, sid, covered, r)
            case Good(Some(d)) => WellFormedDraft(py, d.patch, d.base, covered) && !HasDraft(j, sid)
            case _ => true
  {
    hide Clamp, WellFormedDraft, NormalProfile, FieldsForTopics;
    if r.patch.Mapping? {
      match Clamp(py, r.patch.entries, Elements(covered), j.profile)
      case Some(Clamped(Some(patch), rejected)) =>
        ClampWritesDraft(py, r.patch.entries, covered, j.profile, patch, rejected);
      case _ =>
    }
  }

  /** What an accepted completion relies on. */
  ghost predicate AcceptedResult(py: Python, j: Journal, turnId: string, r: ProviderResult, draft: Option<DraftData>) {
    && turnId in j.turns && IsPending(j.turns[turnId])
    && var t := j.turns[turnId];
    && GuidedError(j, t.sessionId).None?
    && r.assistantMessage.VStr?
    && var covered := CoveredAfter(t, j.sessions[t.sessionId].covered, r);
    && CoverageOk(covered)
    && (NextOf(r).Some? ==> NextOf(r).value in CATALOGUE && NextOf(r).value !in covered)
    && (draft.Some? ==> WellFormedDraft(py, draft.value.patch, draft.value.base, covered) && !HasDraft(j, t.sessionId))
  }

  lemma AcceptedSession(py: Python, j: Journal, turnId: string, r: ProviderResult, draft: Option<DraftData>)
    requires Inv(py, j) && AcceptedResult(py, j, turnId, r, draft)
    ensures var k := Accept(j, turnId, r, draft);
            && ActiveSessionsAsk(k) && PendingTurnsMatch(k) && OneActiveSession(k)
  {
    hide NormalProfile, ProposalsOk, CoverageIsOrdered, CoverageOk, WellFormedDraft, CoveredAfter, OneDraftProposal,
      AnswersAreStored, TurnsWereTried, DraftRow;
  }

  lemma AcceptedRows(py: Python, j: Journal, turnId: string, r: ProviderResult, draft: Option<DraftData>)
    requires Inv(py, j) && AcceptedResult(py, j, turnId, r, draft)
    ensures var k := Accept(j, turnId, r, draft);
            && OnePendingTurn(k) && RowsHaveSessions(k) && IdsAreUsed(k) && TurnsWereTried(k)
  {
    hide NormalProfile, ProposalsOk, CoverageIsOrdered, CoverageOk, WellFormedDraft, CoveredAfter, OneDraftProposal,
      ActiveSessionsAsk, PendingTurnsMatch, GuidedError, OneActiveSession, Advanced, NextOf, CATALOGUE, MessagesOfTurns,
      AnswersAreStored;
  }

  lemma AcceptedMessages(py: Python, j: Journal, turnId: string, r: ProviderResult, draft: Option<DraftData>)
    requires Inv(py, j) && AcceptedResult(py, j, turnId, r, draft)
    ensures var k := Accept(j, turnId, r, draft);
            MessagesOfTurns(k) && AnswersAreStored(k)
  {
    hide NormalProfile, ProposalsOk, CoverageIsOrdered, CoverageOk, WellFormedDraft, CoveredAfter, OneDraftProposal,
      ActiveSessionsAsk, PendingTurnsMatch, GuidedError, OneActiveSession, Advanced, NextOf, CATALOGUE, OnePendingTurn,
      TurnsWereTried;
  }

  lemma AcceptedProposals(py: Python, j: Journal, turnId: string, r: ProviderResult, draft: Option<DraftData>)
    requires Inv(py, j) && AcceptedResult(py, j, turnId, r, draft)
    ensures var k := Accept(j, turnId, r, draft);
            && OneDraftProposal(k) && ProposalsOk(py, k) && CoverageIsOrdered(k) && k.profile == j.profile
  {
    hide NormalProfile, CoverageOk, WellFormedDraft, CoveredAfter, MessagesOfTurns, AnswersAreStored,
      ActiveSessionsAsk, PendingTurnsMatch, GuidedError, OneActiveSession, OnePendingTurn, NextOf, CATALOGUE;
  }

  lemma JudgedGoodHasText(py: Python, j: Journal, turn: Turn, session: Session, r: ProviderResult)
    requires Judge(py, j, turn, session, r).Good?
    ensures r.assistantMessage.VStr?
  {
    hide DraftVerdict;
  }

  lemma JudgedResult(py: Python, j: Journal, turnId: string, r: ProviderResult, draft: Option<DraftData>)
    requires Inv(py, j)
    requires turnId in j.turns && IsPending(j.turns[turnId]) && GuidedError(j, j.turns[turnId].sessionId).None?
    requires Judge(py, j, j.turns[turnId], j.sessions[j.turns[turnId].sessionId], r) == Good(draft)
    ensures AcceptedResult(py, j, turnId, r, draft)
  {
    hide NormalProfile, CoverageOk, WellFormedDraft, ProposalsOk, MessagesOfTurns, AnswersAreStored, ActiveSessionsAsk,
      PendingTurnsMatch, OnePendingTurn, OneDraftProposal, DraftVerdict, CATALOGUE, HasDraft;
    var t := j.turns[turnId];
    var s := j.sessions[t.sessionId];
    CoverageGrows(t, s.covered, r);
    VerdictIsWellFormed(py, j, t.sessionId, CoveredAfter(t, s.covered, r), r);
  }

  lemma CompleteKeepsInv(py: Python, j: Journal, turnId: string, r: ProviderResult)
    requires Inv(py, j)
    ensures Inv(py, CompleteTurn(py, j, turnId, r).journal)
  {
    hide NormalProfile, ProposalsOk, CoverageIsOrdered, MessagesOfTurns, AnswersAreStored, ActiveSessionsAsk,
      PendingTurnsMatch, OnePendingTurn, OneDraftProposal, OneActiveSession, IdsAreUsed, TurnsWereTried,
      Accept, Judge, AcceptedResult, GuidedError, CodeText;
    if turnId in j.turns && IsPending(j.turns[turnId]) && GuidedError(j, j.turns[turnId].sessionId).None? {
      var t := j.turns[turnId];
      match Judge(py, j, t, j.sessions[t.sessionId], r)
      case Bad(code) =>
        FailedKeepsInv(py, j, turnId, CodeText(code));
      case Good(draft) =>
        JudgedResult(py, j, turnId, r, draft);
        AcceptedSession(py, j, turnId, r, draft);
        AcceptedRows(py, j, turnId, r, draft);
        AcceptedMessages(py, j, turnId, r, draft);
        AcceptedProposals(py, j, turnId, r, draft);
    }
  }

  /** Sessions, messages and turns are untouched. */
  predicate SameInterview(j: Journal, k: Journal) {
    k.sessions == j.sessions && k.messages == j.messages && k.turns == j.turns && k.nextId >= j.nextId
  }

  lemma InterviewKept(py: Python, j: Journal, k: Journal)
    requires Inv(py, j) && SameInterview(j, k)
    ensures OneActiveSession(k) && OnePendingTurn(k) && MessagesOfTurns(k) && AnswersAreStored(k)
            && ActiveSessionsAsk(k) && PendingTurnsMatch(k) && CoverageIsOrdered(k) && TurnsWereTried(k)
            && TurnsHaveSessions(k)
  {
    hide NormalProfile, CoverageOk, ProposalsOk, OneDraftProposal, IdsAreUsed;
  }

  lemma CreateProposalKeepsInv(py: Python, j: Journal, sid: Id, payload: Payload, rationales: map<Field, string>)
    requires Inv(py, j)
    ensures Inv(py, CreateProposal(py, j, sid, payload, rationales).journal)
  {
    hide NormalProfile, WellFormedDraft, Normalize, PatchOf, OneActiveSession, OnePendingTurn, MessagesOfTurns,
      AnswersAreStored, ActiveSessionsAsk, PendingTurnsMatch, CoverageIsOrdered, TurnsWereTried;
    InterviewKept(py, j, CreateProposal(py, j, sid, payload, rationales).journal);
  }

  lemma MarkApprovedKeepsInv(py: Python, j: Journal, pid: Id, changed: seq<Field>)
    requires Inv(py, j)
    ensures Inv(py, MarkApproved(j, pid, changed).journal)
  {
    hide NormalProfile, WellFormedDraft, CoverageOk, GuidedError, OneActiveSession, OnePendingTurn, MessagesOfTurns,
      AnswersAreStored, ActiveSessionsAsk, PendingTurnsMatch, CoverageIsOrdered, TurnsWereTried;
    InterviewKept(py, j, MarkApproved(j, pid, changed).journal);
  }

  lemma RejectKeepsInv(py: Python, j: Journal, pid: Id)
    requires Inv(py, j)
    ensures Inv(py, RejectProposal(j, pid).journal)
  {
    hide NormalProfile, WellFormedDraft, CoverageOk, GuidedError, OneActiveSession, OnePendingTurn, MessagesOfTurns,
      AnswersAreStored, ActiveSessionsAsk, PendingTurnsMatch, CoverageIsOrdered, TurnsWereTried;
    InterviewKept(py, j, RejectProposal(j, pid).journal);
  }

  lemma ApprovedProfileIsNormal(py: Python, j: Journal, pid: Id, ts: string)
    requires Inv(py, j)
    ensures NormalProfile(py, ApproveProposal(py, j, pid, ts).journal.profile)
  {
    hide NormalProfile, WellFormedDraft, Validated, ConflictFields, ProposalApproval.Approved, ChangedFields,
      OneActiveSession, OnePendingTurn, MessagesOfTurns, AnswersAreStored, ActiveSessionsAsk, PendingTurnsMatch,
      CoverageIsOrdered, TurnsWereTried, OneDraftProposal, ProposalsOk, IdsAreUsed, RowsHaveSessions;
    if DraftError(j, pid).None? {
      var p := j.proposals[pid];
      if Validated(py, p.patch, p.base, p.covered, j.profile) {
        DraftPassesForever(py, p.patch, p.base, p.covered, j.profile);
        ApprovalIsMerge(py, p.patch, p.base, p.covered, j.profile, ts);
      }
    }
  }

  /** A decision or a note on one proposal: what was proposed, and for which session, stays. */
  predicate DecidesOne(j: Journal, k: Journal, pid: Id) {
    && pid in j.proposals && pid in k.proposals && k.proposals == j.proposals[pid := k.proposals[pid]]
    && var p, p' := j.proposals[pid], k.proposals[pid];
       && p' == p.(status := p'.status, changed := p'.changed, conflicts := p'.conflicts)
       && (p'.status == Draft ==> p.status == Draft)
  }

  lemma ApprovalDecidesOne(py: Python, j: Journal, pid: Id, ts: string)
    ensures var k := ApproveProposal(py, j, pid, ts).journal;
            SameInterview(j, k) && (k.proposals == j.proposals || DecidesOne(j, k, pid))
  {
    hide Validated, ConflictFields, ProposalApproval.Approved, ChangedFields, NormalEntries;
    if DraftError(j, pid).None? {
      var p := j.proposals[pid];
      if Validated(py, p.patch, p.base, p.covered, j.profile) {
        ValidatedBase(py, p.patch, p.base, p.covered, j.profile);
      }
    }
  }

  lemma DecidedProposals(py: Python, j: Journal, k: Journal, pid: Id)
    requires Inv(py, j) && SameInterview(j, k) && (k.proposals == j.proposals || DecidesOne(j, k, pid))
    ensures OneDraftProposal(k) && RowsHaveSessions(k) && IdsAreUsed(k) && ProposalsOk(py, k)
  {
    hide NormalProfile, WellFormedDraft, OneActiveSession, OnePendingTurn, MessagesOfTurns, AnswersAreStored,
      ActiveSessionsAsk, PendingTurnsMatch, CoverageIsOrdered, TurnsWereTried;
  }

  lemma ApproveKeepsInv(py: Python, j: Journal, pid: Id, ts: string)
    requires Inv(py, j)
    ensures Inv(py, ApproveProposal(py, j, pid, ts).journal)
  {
    hide NormalProfile, WellFormedDraft, ApproveProposal, OneActiveSession, OnePendingTurn, MessagesOfTurns,
      AnswersAreStored, ActiveSessionsAsk, PendingTurnsMatch, CoverageIsOrdered, TurnsWereTried, RowsHaveSessions,
      OneDraftProposal, IdsAreUsed, ProposalsOk, SameInterview, DecidesOne;
    ApprovalDecidesOne(py, j, pid, ts);
    DecidedProposals(py, j, ApproveProposal(py, j, pid, ts).journal, pid);
    InterviewKept(py, j, ApproveProposal(py, j, pid, ts).journal);
    ApprovedProfileIsNormal(py, j, pid, ts);
  }

  lemma SaveKeepsInv(py: Python, j: Journal, payload: Payload, ts: string)
    requires Inv(py, j)
    ensures Inv(py, SaveProfile(py, j, payload, ts).journal)
  {
    hide NormalProfile, WellFormedDraft, Normalize, Reviewed, OneActiveSession, OnePendingTurn, MessagesOfTurns,
      AnswersAreStored, ActiveSessionsAsk, PendingTurnsMatch, CoverageIsOrdered, TurnsWereTried;
    InterviewKept(py, j, SaveProfile(py, j, payload, ts).journal);
    if Normalize(py, payload, j.profile).Some? {
      NormalizeIsLocal(py, payload, j.profile);
      ReviewKeepsNormal(py, Normalize(py, payload, j.profile).value, ts);
    }
  }

  /** Every operation keeps the invariant. */
  lemma StepKeepsInv(py: Python, j: Journal, op: Op)
    requires Inv(py, j)
    ensures Inv(py, Step(py, j, op).journal)
  {
    hide Inv, StartSession, CloseSession, AppendMessage, BeginTurn, FailTurn, Reconcile, RetryTurn, CompleteTurn,
      CreateProposal, MarkApproved, ApproveProposal, RejectProposal, SaveProfile;
    match op
    case OpStart(supersede) => StartKeepsInv(py, j, supersede);
    case OpClose(sid) => CloseKeepsInv(py, j, sid);
    case OpAppend(sid, role, content) => AppendKeepsInv(py, j, sid, role, content);
    case OpBegin(sid, turnId, kind, answer, provider, model) =>
      BeginKeepsInv(py, j, sid, turnId, kind, answer, provider, model);
    case OpFail(turnId, code) => FailKeepsInv(py, j, turnId, code);
    case OpReconcile => ReconcileKeepsInv(py, j);
    case OpRetry(turnId, provider, model) => RetryKeepsInv(py, j, turnId, provider, model);
    case OpComplete(turnId, result) => CompleteKeepsInv(py, j, turnId, result);
    case OpCreateProposal(sid, payload, rationales) => CreateProposalKeepsInv(py, j, sid, payload, rationales);
    case OpMarkApproved(pid, changed) => MarkApprovedKeepsInv(py, j, pid, changed);
    case OpApprove(pid, ts) => ApproveKeepsInv(py, j, pid, ts);
    case OpReject(pid) => RejectKeepsInv(py, j, pid);
    case OpSaveProfile(payload, ts) => SaveKeepsInv(py, j, payload, ts);
  }
}
