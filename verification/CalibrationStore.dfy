/** The store: tables updated in place, one method per transaction. */
module CalibrationStores {
  import opened PyValues
  import opened InvestorProfiles
  import opened CalibrationPolicy
  import opened ProposalApproval
  import opened CalibrationJournal
  import opened JournalInvariant

  /** The update that fails the pending turns of one session. */
  function FailPendingOf(turns: map<string, Turn>, a: Id): map<string, Turn> {
    map t | t in turns ::
      if turns[t].sessionId == a && IsPending(turns[t])
      then turns[t].(status := Failed, errorCode := Some(SESSION_SUPERSEDED)) else turns[t]
  }

  /** Sessions, messages, turns and proposals, and the profile row of the same database. */
  class CalibrationStore {
    const py: Python
    var sessions: map<Id, Session>
    var messages: map<Id, Message>
    var turns: map<string, Turn>
    var proposals: map<Id, Proposal>
    var profile: Profile
    var nextId: Id

    ghost function Tables(): Journal
      reads this
    {
      Journal(sessions, messages, turns, proposals, profile, nextId)
    }

    ghost predicate Valid()
      reads this
    {
      Inv(py, Tables())
    }

    constructor (py: Python)
      ensures Valid() && Tables() == EMPTY_JOURNAL && this.py == py
    {
      hide Inv, DEFAULT_PROFILE;
      this.py := py;
      sessions, messages, turns, proposals := map[], map[], map[], map[];
      profile, nextId := DEFAULT_PROFILE, 0;
      new;
      EmptyJournalIsValid(py);
    }

    method FreshId() returns (id: Id)
      modifies this`nextId
      ensures id == old(nextId) && nextId == old(nextId) + 1
    {
      id := nextId;
      nextId := nextId + 1;
    }

    method ActiveSession() returns (active: Option<Id>)
      requires Valid()
      ensures match active
              case Some(s) => s in sessions && sessions[s].status == Active
              case None => forall s | s in sessions :: sessions[s].status != Active
    {
      if s :| s in sessions && sessions[s].status == Active {
        active := Some(s);
      } else {
        active := None;
      }
    }

    method StartSession(supersedeActive: bool) returns (outcome: Outcome)
      requires Valid()
      modifies this
      ensures Valid()
      ensures StepResult(Tables(), outcome) == CalibrationJournal.StartSession(old(Tables()), supersedeActive)
    {
      hide Inv, OPENING_MESSAGE, SupersedeActive, FailPendingOfActive, OneActiveSession;
      StartKeepsInv(py, Tables(), supersedeActive);
      InvBasics(py, Tables());
      var active := ActiveSession();
      if active.Some? && !supersedeActive {
        return Refused(SessionActive);
      }
      SupersedingOne(Tables(), active);
      var sid, mid := nextId, nextId + 1;
      nextId := nextId + 2;
      if active.Some? {
        var a := active.value;
        turns := FailPendingOf(turns, a);
        sessions := sessions[a := sessions[a].(status := Superseded)];
      }
      sessions := sessions[sid := Session(Active, Some(INTERVIEW_VERSION), [], Some(LossResponse), Some(mid))];
      messages := messages[mid := Message(sid, Assistant, OPENING_MESSAGE, None, Some(LossResponse),
          Some(OPENING_PROMPT_ID))];
      outcome := SessionIs(sid);
    }

    method CloseSession(sid: Id) returns (outcome: Outcome)
      requires Valid()
      modifies this`sessions
      ensures Valid()
      ensures StepResult(Tables(), outcome) == CalibrationJournal.CloseSession(old(Tables()), sid)
    {
      hide Inv;
      CloseKeepsInv(py, Tables(), sid);
      if sid !in sessions {
        return Refused(SessionNotFound);
      }
      if sessions[sid].status == Active {
        sessions := sessions[sid := sessions[sid].(status := Closed, currentTopic := None, currentQuestion := None)];
      }
      outcome := SessionIs(sid);
    }

    method AppendMessage(sid: Id, role: Role, content: string) returns (outcome: Outcome)
      requires Valid()
      modifies this`messages, this`nextId
      ensures Valid()
      ensures StepResult(Tables(), outcome) == CalibrationJournal.AppendMessage(old(Tables()), sid, role, content)
    {
      hide Inv;
      AppendKeepsInv(py, Tables(), sid, role, content);
      var text := Strip(content);
      if text == "" {
        return Refused(ContentRequired);
      }
      if sid !in sessions {
        return Refused(SessionNotFound);
      }
      if sessions[sid].status != Active {
        return Refused(SessionNotActive);
      }
      var mid := FreshId();
      messages := messages[mid := Message(sid, role, text, None, None, None)];
      outcome := MessageIs(mid);
    }

    method RequireGuidedSession(sid: Id) returns (error: Option<ErrorCode>)
      ensures error == GuidedError(Tables(), sid)
    {
      if sid !in sessions {
        return Some(SessionNotFound);
      }
      var session := sessions[sid];
      if session.status != Active {
        return Some(SessionNotActive);
      }
      if session.interviewVersion != Some(INTERVIEW_VERSION) {
        return Some(NotGuidedV2);
      }
      if session.currentTopic.None? || session.currentTopic.value !in CATALOGUE || session.currentQuestion.None? {
        return Some(CurrentQuestionInvalid);
      }
      var question := session.currentQuestion.value;
      if question !in messages || messages[question].sessionId != sid
         || messages[question].role != Assistant || messages[question].topic != session.currentTopic {
        return Some(CurrentQuestionInvalid);
      }
      error := None;
    }

    /** The guided request to a provider, rebuilt from the stored rows. */
    method WorkOnTurn(turnId: string, callProvider: bool) returns (work: Work)
      requires turnId in turns && TurnsHaveSessions(Tables())
      ensures work == WorkFor(Tables(), turnId, callProvider)
    {
      var turn := turns[turnId];
      var answer: Option<string> := None;
      if turn.userMessage.Some? && turn.userMessage.value in messages {
        answer := Some(messages[turn.userMessage.value].content);
      }
      work := Work(turnId, callProvider, turn.kind, turn.provider, turn.model, turn.question, turn.addressed,
                   OrderedTopics(sessions[turn.sessionId].covered), answer);
    }

    /** A turn that exists already: the same request again, or another one under its name. */
    method ReplayTurn(sid: Id, turnId: string, kind: TurnKind, answer: Option<string>) returns (outcome: Outcome)
      requires Valid() && turnId in turns && (kind == Answer ==> answer.Some?)
      ensures TurnsHaveSessions(Tables()) && outcome == ReplayBegin(Tables(), sid, turnId, kind, answer)
    {
      hide Inv, WorkFor;
      InvBasics(py, Tables());
      var existing := turns[turnId];
      if existing.sessionId != sid || existing.kind != kind {
        return Refused(TurnIdConflict);
      }
      if kind == Answer {
        if existing.userMessage.None? || existing.userMessage.value !in messages
           || messages[existing.userMessage.value].content != answer.value {
          return Refused(TurnIdConflict);
        }
      }
      if existing.status == Pending || existing.status == Completed {
        var work := WorkOnTurn(turnId, false);
        return Working(work);
      }
      return Refused(RetryRequired);
    }

    method BeginTurn(sid: Id, turnId: string, kind: TurnKind, answer: Option<string>,
                     provider: Option<string>, model: Option<string>) returns (outcome: Outcome)
      requires Valid()
      modifies this`turns, this`messages, this`nextId
      ensures Valid()
      ensures StepResult(Tables(), outcome)
              == CalibrationJournal.BeginTurn(old(Tables()), sid, turnId, kind, answer, provider, model)
    {
      hide Inv, Strip, Blank, WorkFor, GuidedError, CATALOGUE, OneActiveSession;
      BeginKeepsInv(py, Tables(), sid, turnId, kind, answer, provider, model);
      InvBasics(py, Tables());
      GuidedFacts(Tables(), sid);
      if Blank(turnId) {
        return Refused(TurnIdRequired);
      }
      if kind == Answer && (answer.None? || Blank(answer.value)) {
        return Refused(ContentRequired);
      }
      if turnId in turns {
        outcome := ReplayTurn(sid, turnId, kind, answer);
        return;
      }
      var error := RequireGuidedSession(sid);
      if error.Some? {
        return Refused(error.value);
      }
      if exists t :: t in turns && turns[t].sessionId == sid && IsPending(turns[t]) {
        return Refused(TurnPending);
      }
      var session := sessions[sid];
      var question, topic := session.currentQuestion.value, session.currentTopic.value;
      var userMessage: Option<Id> := None;
      if kind == Answer {
        var mid := FreshId();
        userMessage := Some(mid);
        messages := messages[mid := Message(sid, User, answer.value, Some(turnId), Some(topic),
            messages[question].promptId)];
      }
      turns := turns[turnId := Turn(sid, kind, Pending, question, topic, None, provider, model, userMessage, None,
          None, 1)];
      var work := WorkOnTurn(turnId, true);
      outcome := Working(work);
    }

    method FailTurn(turnId: string, code: string) returns (outcome: Outcome)
      requires Valid()
      modifies this`turns
      ensures Valid()
      ensures StepResult(Tables(), outcome) == CalibrationJournal.FailTurn(old(Tables()), turnId, code)
    {
      hide Inv;
      FailKeepsInv(py, Tables(), turnId, code);
      if turnId !in turns {
        return Refused(TurnNotFound);
      }
      var turn := turns[turnId];
      if turn.status == Pending {
        turns := turns[turnId := turn.(status := Failed, errorCode := Some(BoundedCode(code)))];
      } else if turn.status != Failed && turn.status != Interrupted {
        return Refused(TurnNotPending);
      }
      outcome := TurnIs(turnId);
    }

    method ReconcileInterruptedTurns() returns (outcome: Outcome)
      requires Valid()
      modifies this`turns
      ensures Valid()
      ensures StepResult(Tables(), outcome) == Reconcile(old(Tables()))
    {
      hide Inv;
      ReconcileKeepsInv(py, Tables());
      outcome := Reconciled(|set t | t in turns && IsPending(turns[t])|);
      turns := map t | t in turns ::
        if IsPending(turns[t]) then turns[t].(status := Interrupted, errorCode := Some(TURN_INTERRUPTED)) else turns[t];
    }

    method RetryTurn(turnId: string, provider: Option<string>, model: Option<string>) returns (outcome: Outcome)
      requires Valid()
      modifies this`turns
      ensures Valid()
      ensures StepResult(Tables(), outcome) == CalibrationJournal.RetryTurn(old(Tables()), turnId, provider, model)
    {
      hide Inv, WorkFor, GuidedError, CATALOGUE, OneActiveSession;
      RetryKeepsInv(py, Tables(), turnId, provider, model);
      InvBasics(py, Tables());
      if turnId !in turns {
        return Refused(TurnNotFound);
      }
      var turn := turns[turnId];
      if turn.status == Pending || turn.status == Completed {
        var work := WorkOnTurn(turnId, false);
        return Working(work);
      }
      if turn.errorCode == Some(SESSION_SUPERSEDED) {
        return Refused(TurnNotRetryable);
      }
      var error := RequireGuidedSession(turn.sessionId);
      if error.Some? {
        return Refused(error.value);
      }
      var session := sessions[turn.sessionId];
      if session.currentQuestion != Some(turn.question) || session.currentTopic != Some(turn.addressed) {
        return Refused(TurnIdentityChanged);
      }
      if exists o :: o in turns && o != turnId && turns[o].sessionId == turn.sessionId && IsPending(turns[o]) {
        return Refused(TurnPending);
      }
      turn := turn.(status := Pending, errorCode := None, nextTopic := None, assistantMessage := None);
      turn := turn.(provider := Coalesce(provider, turn.provider), model := Coalesce(model, turn.model));
      turn := turn.(attempts := turn.attempts + 1);
      turns := turns[turnId := turn];
      var work := WorkOnTurn(turnId, true);
      outcome := Working(work);
    }

    /** The verdict on a provider result; nothing is written yet. */
    method JudgeResult(turn: Turn, result: ProviderResult) returns (verdict: Verdict)
      requires turn.sessionId in sessions
      ensures verdict == Judge(py, Tables(), turn, sessions[turn.sessionId], result)
    {
      hide Clamp, OrderedTopics, FieldsForTopics, Strip;
      var session := sessions[turn.sessionId];
      if session.currentQuestion != Some(turn.question) || session.currentTopic != Some(turn.addressed) {
        return Bad(QuestionIdentityLost);
      }
      var error := ResultError(turn, session.covered, result);
      if error.Some? {
        return Bad(error.value);
      }
      if !result.patch.Mapping? {
        return Good(None);
      }
      var covered := CoveredAfter(turn, session.covered, result);
      var raw := result.patch.entries;
      if !ListsWellTyped(raw, FieldsForTopics(Elements(covered))) {
        return Bad(ProposalInvalid);
      }
      var clamped := Clamp(py, raw, Elements(covered), profile);
      if clamped.None? {
        return Bad(ProposalInvalid);
      }
      if clamped.value.patch.None? {
        return Good(None);
      }
      var patch := clamped.value.patch.value;
      var fields := PatchFields(patch);
      if exists p :: p in proposals && proposals[p].sessionId == turn.sessionId && proposals[p].status == Draft {
        return Bad(ProposalPending);
      }
      if exists f | f in fields :: !RationaleOf(result, f).VNull? && !RationaleOf(result, f).VStr? {
        return Bad(ResultInvalid);
      }
      var rationales := map f | f in fields && RationaleOf(result, f).VStr? :: RationaleOf(result, f).s;
      verdict := Good(Some(DraftData(patch, BaseOf(patch, profile), rationales, clamped.value.rejected)));
    }

    method CompleteTurn(turnId: string, result: ProviderResult) returns (outcome: Outcome)
      requires Valid()
      modifies this
      ensures Valid()
      ensures StepResult(Tables(), outcome) == CalibrationJournal.CompleteTurn(py, old(Tables()), turnId, result)
    {
      hide Inv, Judge, CoveredAfter;
      CompleteKeepsInv(py, Tables(), turnId, result);
      if turnId !in turns {
        return Refused(TurnNotFound);
      }
      var turn := turns[turnId];
      if turn.status == Completed {
        return TurnIs(turnId);
      }
      if turn.status != Pending {
        return Refused(RetryRequired);
      }
      var error := RequireGuidedSession(turn.sessionId);
      if error.Some? {
        return Refused(error.value);
      }
      var verdict := JudgeResult(turn, result);
      if verdict.Bad? {
        turns := turns[turnId := turn.(status := Failed, errorCode := Some(CodeText(verdict.code)))];
        return Refused(verdict.code);
      }
      JudgedGoodHasText(py, Tables(), turn, sessions[turn.sessionId], result);
      var session := sessions[turn.sessionId];
      var covered := CoveredAfter(turn, session.covered, result);
      var next := NextOf(result);
      var mid := nextId;
      nextId := nextId + 2;
      messages := messages[mid := Message(turn.sessionId, Assistant, result.assistantMessage.s, Some(turnId), next,
          None)];
      if verdict.draft.Some? {
        proposals := proposals[mid + 1 := DraftRow(turn.sessionId, covered, verdict.draft.value)];
      }
      session := session.(covered := covered);
      if next.None? {
        session := session.(status := Closed, currentTopic := None, currentQuestion := None);
      } else {
        session := session.(currentTopic := next, currentQuestion := Some(mid));
      }
      sessions := sessions[turn.sessionId := session];
      turns := turns[turnId := turn.(status := Completed, assistantMessage := Some(mid), nextTopic := next,
          errorCode := None)];
      outcome := TurnIs(turnId);
    }

    method CreateProposal(sid: Id, payload: Payload, rationales: map<Field, string>) returns (outcome: Outcome)
      requires Valid()
      modifies this`proposals, this`nextId
      ensures Valid()
      ensures StepResult(Tables(), outcome)
              == CalibrationJournal.CreateProposal(py, old(Tables()), sid, payload, rationales)
    {
      hide Inv, Normalize, PatchOf, LEGACY_FIELDS, DEFAULT_PROFILE;
      CreateProposalKeepsInv(py, Tables(), sid, payload, rationales);
      if Known(RiskMismatch) in payload {
        return Refused(ProfileInvalid);
      }
      var normal := Normalize(py, payload, DEFAULT_PROFILE);
      if normal.None? {
        return Refused(ProfileInvalid);
      }
      if sid !in sessions {
        return Refused(SessionNotFound);
      }
      if exists p :: p in proposals && proposals[p].sessionId == sid && proposals[p].status == Draft {
        return Refused(ProposalPending);
      }
      var pid := FreshId();
      var patch := PatchOf(LEGACY_FIELDS, normal.value);
      proposals := proposals[pid := Proposal(sid, Draft, patch, map[], [], payload, rationales, {}, [], [])];
      outcome := ProposalIs(pid);
    }

    method MarkProposalApproved(pid: Id, changed: seq<Field>) returns (outcome: Outcome)
      requires Valid()
      modifies this`proposals
      ensures Valid()
      ensures StepResult(Tables(), outcome) == MarkApproved(old(Tables()), pid, changed)
    {
      hide Inv;
      MarkApprovedKeepsInv(py, Tables(), pid, changed);
      if pid !in proposals {
        return Refused(ProposalNotFound);
      }
      if proposals[pid].status != Draft {
        return Refused(ProposalNotDraft);
      }
      var sorted := Select(FIELDS_BY_NAME, Elements(changed));
      proposals := proposals[pid := proposals[pid].(status := Approved, changed := sorted)];
      outcome := ProposalIs(pid);
    }

    method RejectProposal(pid: Id) returns (outcome: Outcome)
      requires Valid()
      modifies this`proposals
      ensures Valid()
      ensures StepResult(Tables(), outcome) == CalibrationJournal.RejectProposal(old(Tables()), pid)
    {
      hide Inv;
      RejectKeepsInv(py, Tables(), pid);
      if pid !in proposals {
        return Refused(ProposalNotFound);
      }
      if proposals[pid].status != Draft {
        return Refused(ProposalNotDraft);
      }
      proposals := proposals[pid := proposals[pid].(status := Rejected)];
      outcome := ProposalIs(pid);
    }

    method ApproveProposal(pid: Id, ts: string) returns (outcome: Outcome)
      requires Valid()
      modifies this`proposals, this`profile
      ensures Valid()
      ensures StepResult(Tables(), outcome) == CalibrationJournal.ApproveProposal(py, old(Tables()), pid, ts)
    {
      hide Inv, Clamp, Normalize, Select, OrderedTopics, Reviewed, Unmoved, ChangedFields, PatchPayload, KnownTopics,
        KeysInOrder, Validated;
      ApproveKeepsInv(py, Tables(), pid, ts);
      if pid !in proposals {
        return Refused(ProposalNotFound);
      }
      var row := proposals[pid];
      if row.status != Draft {
        return Refused(ProposalNotDraft);
      }
      if !Validated(py, row.patch, row.base, row.covered, profile) {
        return Refused(InvalidGuidedProposal);
      }
      ValidatedBase(py, row.patch, row.base, row.covered, profile);
      var conflicts := ConflictFields(profile, row.patch, row.base);
      if conflicts != [] {
        proposals := proposals[pid := row.(conflicts := conflicts)];
        return Refused(ProposalConflict);
      }
      var normal := Normalize(py, PatchPayload(row.patch), profile);
      if normal.None? {
        return Refused(ProfileInvalid);
      }
      var merged := Reviewed(normal.value, ts);
      var changed := ChangedFields(profile, merged);
      profile := merged;
      proposals := proposals[pid := row.(status := Approved, changed := changed)];
      outcome := ProposalIs(pid);
    }

    /** The profile editor's save, on the same database. */
    method SaveProfile(payload: Payload, ts: string) returns (outcome: Outcome)
      requires Valid()
      modifies this`profile
      ensures Valid()
      ensures StepResult(Tables(), outcome) == CalibrationJournal.SaveProfile(py, old(Tables()), payload, ts)
    {
      hide Inv, Normalize;
      SaveKeepsInv(py, Tables(), payload, ts);
      var normal := Normalize(py, payload, profile);
      if normal.None? {
        return Refused(ProfileInvalid);
      }
      profile := Reviewed(normal.value, ts);
      outcome := ProfileIs(profile);
    }
  }

  lemma GuidedFacts(j: Journal, sid: Id)
    ensures GuidedError(j, sid).None? ==>
              && sid in j.sessions && j.sessions[sid].currentTopic.Some? && j.sessions[sid].currentQuestion.Some?
              && j.sessions[sid].currentQuestion.value in j.messages
  {
  }

  /** With at most one active session, superseding it is superseding all active ones. */
  lemma SupersedingOne(j: Journal, active: Option<Id>)
    requires OneActiveSession(j) && TurnsHaveSessions(j)
    requires match active
             case Some(s) => s in j.sessions && j.sessions[s].status == Active
             case None => forall s | s in j.sessions :: j.sessions[s].status != Active
    ensures SupersedeActive(j.sessions) ==
            if active.Some? then j.sessions[active.value := j.sessions[active.value].(status := Superseded)]
                else j.sessions
    ensures FailPendingOfActive(j) == if active.Some? then FailPendingOf(j.turns, active.value) else j.turns
  {
  }
}
