/** The operations around a completion, row by row: what each of them asks of the rows, and which rows
    it writes. */
module JournalSteps {
  import opened PyValues
  import opened InvestorProfiles
  import opened CalibrationPolicy
  import opened ProposalApproval
  import opened CalibrationJournal
  import opened JournalInvariant

  /** A session that is started supersedes the active ones, fails their pending turns for good, and asks
      the opening question; nothing else moves. */
  lemma StartIsExact(j: Journal, supersede: bool)
    ensures var r := StartSession(j, supersede);
            var k := r.journal;
            var sid, mid := j.nextId, j.nextId + 1;
            if !supersede && exists s :: s in j.sessions && j.sessions[s].status == Active then
              r == StepResult(j, Refused(SessionActive))
            else
              && r.outcome == SessionIs(sid) && k.nextId > mid
              && k.proposals == j.proposals && k.profile == j.profile
              && k.messages == j.messages[mid := Message(sid, Assistant, OPENING_MESSAGE, None, Some(LossResponse),
                   Some("loss_response.opening.v1"))]
              && k.sessions.Keys == j.sessions.Keys + {sid} && k.turns.Keys == j.turns.Keys
              && k.sessions[sid] == Session(Active, Some(2), [], Some(LossResponse), Some(mid))
              && (forall s | s in j.sessions && s != sid ::
                    k.sessions[s] == if j.sessions[s].status == Active then j.sessions[s].(status := Superseded)
                                     else j.sessions[s])
              && (forall t | t in j.turns ::
                    k.turns[t] == if j.turns[t].status == Pending && InActiveSession(j, t)
                                  then j.turns[t].(status := Failed,
                                      errorCode := Some("calibration_session_superseded"))
                                  else j.turns[t])
  {
    hide OPENING_MESSAGE;
  }

  predicate InActiveSession(j: Journal, t: string)
    requires t in j.turns
  {
    j.turns[t].sessionId in j.sessions && j.sessions[j.turns[t].sessionId].status == Active
  }

  /** The turn is for this very request: the session, the kind and, for an answer, its text. */
  predicate IsRequest(j: Journal, t: Turn, sid: Id, kind: TurnKind, answer: Option<string>) {
    && t.sessionId == sid && t.kind == kind
    && (kind == Answer ==>
          && answer.Some? && t.userMessage.Some? && t.userMessage.value in j.messages
          && j.messages[t.userMessage.value].content == answer.value)
  }

  /** The work a caller gets says what the turn's rows say. */
  predicate WorkTells(j: Journal, turnId: string, callProvider: bool, work: Work)
    requires turnId in j.turns && TurnsHaveSessions(j)
  {
    var t := j.turns[turnId];
    && work.turnId == turnId && work.callProvider == callProvider && work.kind == t.kind
    && work.provider == t.provider && work.model == t.model && work.question == t.question && work.topic == t.addressed
    && work.covered == j.sessions[t.sessionId].covered
    && work.answer == if t.kind == Answer && t.userMessage.Some? && t.userMessage.value in j.messages
                      then Some(j.messages[t.userMessage.value].content) else None
  }

  predicate OtherPending(j: Journal, sid: Id, turnId: string) {
    exists t :: t in j.turns && t != turnId && j.turns[t].sessionId == sid && j.turns[t].status == Pending
  }

  /** Beginning a turn: the same request again gets the same work and no second call; a new one needs an
      active session without a pending turn, and writes the turn for the question asked and, for an
      answer, the user's message about it. */
  lemma BeginIsExact(py: Python, j: Journal, sid: Id, turnId: string, kind: TurnKind, answer: Option<string>,
                     provider: Option<string>, model: Option<string>)
    requires Inv(py, j)
    ensures TurnsHaveSessions(j)
    ensures var r := BeginTurn(j, sid, turnId, kind, answer, provider, model);
            var k := r.journal;
            if AllSpace(turnId) then r == StepResult(j, Refused(TurnIdRequired))
            else if kind == Answer && (answer.None? || AllSpace(answer.value)) then
              r == StepResult(j, Refused(ContentRequired))
            else if turnId in j.turns then
              && k == j
              && if !IsRequest(j, j.turns[turnId], sid, kind, answer) then r.outcome == Refused(TurnIdConflict)
                 else if j.turns[turnId].status in {Failed, Interrupted} then r.outcome == Refused(RetryRequired)
                 else r.outcome.Working? && WorkTells(j, turnId, false, r.outcome.work)
            else if sid !in j.sessions then r == StepResult(j, Refused(SessionNotFound))
            else if j.sessions[sid].status != Active then r == StepResult(j, Refused(SessionNotActive))
            else if OtherPending(j, sid, turnId) then r == StepResult(j, Refused(TurnPending))
            else Begun(j, k, sid, turnId, kind, answer, provider, model) && TurnsHaveSessions(k)
                 && r.outcome.Working? && WorkTells(k, turnId, true, r.outcome.work)
  {
    hide NormalProfile, ProposalsOk, CoverageIsOrdered, Strip, CATALOGUE, OneDraftProposal, MessagesOfTurns,
      OneActiveSession, OnePendingTurn, PendingTurnsMatch, TurnsWereTried, OrderedTopics, IdsAreUsed, WorkFor,
      ReplayBegin, IsRequest, WorkTells;
    BlankMeans(turnId);
    if answer.Some? { BlankMeans(answer.value); }
    if turnId in j.turns {
      if kind == Answer ==> answer.Some? { ReplayIsExact(py, j, sid, turnId, kind, answer); }
    } else if sid in j.sessions && j.sessions[sid].status == Active {
      assert GuidedError(j, sid).None?;
      if !OtherPending(j, sid, turnId) && !AllSpace(turnId) && BeginTurn(j, sid, turnId, kind, answer, provider,
          model).outcome.Working? {
        BeginKeepsInv(py, j, sid, turnId, kind, answer, provider, model);
        WorkIsTold(py, BeginTurn(j, sid, turnId, kind, answer, provider, model).journal, turnId, true);
      }
    }
  }

  lemma ReplayIsExact(py: Python, j: Journal, sid: Id, turnId: string, kind: TurnKind, answer: Option<string>)
    requires Inv(py, j) && turnId in j.turns && (kind == Answer ==> answer.Some?)
    ensures TurnsHaveSessions(j)
    ensures var outcome := ReplayBegin(j, sid, turnId, kind, answer);
            if !IsRequest(j, j.turns[turnId], sid, kind, answer) then outcome == Refused(TurnIdConflict)
            else if j.turns[turnId].status in {Failed, Interrupted} then outcome == Refused(RetryRequired)
            else outcome.Working? && WorkTells(j, turnId, false, outcome.work)
  {
    hide Inv, WorkFor, WorkTells;
    InvBasics(py, j);
    WorkIsTold(py, j, turnId, false);
  }

  lemma WorkIsTold(py: Python, j: Journal, turnId: string, callProvider: bool)
    requires Inv(py, j) && turnId in j.turns
    ensures TurnsHaveSessions(j) && WorkTells(j, turnId, callProvider, WorkFor(j, turnId, callProvider))
  {
    hide NormalProfile, ProposalsOk, KnownTopics, OneDraftProposal, MessagesOfTurns, OneActiveSession, OnePendingTurn,
      PendingTurnsMatch, TurnsWereTried, OrderedTopics, IdsAreUsed, ActiveSessionsAsk;
    assert CoverageOk(j.sessions[j.turns[turnId].sessionId].covered);
  }

  /** The rows a begun turn adds. */
  predicate Begun(j: Journal, k: Journal, sid: Id, turnId: string, kind: TurnKind, answer: Option<string>,
                  provider: Option<string>, model: Option<string>)
    requires sid in j.sessions
  {
    var s, mid := j.sessions[sid], j.nextId;
    && s.currentQuestion.Some? && s.currentTopic.Some? && s.currentQuestion.value in j.messages
    && k.sessions == j.sessions && k.proposals == j.proposals && k.profile == j.profile
    && k.turns == j.turns[turnId := Turn(sid, kind, Pending, s.currentQuestion.value, s.currentTopic.value, None,
         provider, model, if kind == Answer then Some(mid) else None, None, None, 1)]
    && (kind == Answer ==>
          && answer.Some? && k.nextId > mid
          && k.messages == j.messages[mid := Message(sid, User, answer.value, Some(turnId), s.currentTopic,
               j.messages[s.currentQuestion.value].promptId)])
    && (kind == ProposalRequest ==> k.messages == j.messages && k.nextId >= mid)
  }

  /** Retrying a turn: a running or completed one only gets its work again; a failed or interrupted one is
      pending again, once more attempted, when its session still asks the same question and runs no
      other turn, unless it was superseded. A missing provider or model stays as it was. */
  lemma RetryIsExact(py: Python, j: Journal, turnId: string, provider: Option<string>, model: Option<string>)
    requires Inv(py, j)
    ensures TurnsHaveSessions(j)
    ensures var r := RetryTurn(j, turnId, provider, model);
            if turnId !in j.turns then r == StepResult(j, Refused(TurnNotFound))
            else
              var t := j.turns[turnId];
              var s := j.sessions[t.sessionId];
              if t.status in {Pending, Completed} then
                r.journal == j && r.outcome.Working? && WorkTells(j, turnId, false, r.outcome.work)
              else if t.errorCode == Some("calibration_session_superseded") then
                r == StepResult(j, Refused(TurnNotRetryable))
              else if s.status != Active then r == StepResult(j, Refused(SessionNotActive))
              else if s.currentQuestion != Some(t.question) || s.currentTopic != Some(t.addressed) then
                r == StepResult(j, Refused(TurnIdentityChanged))
              else if OtherPending(j, t.sessionId, turnId) then r == StepResult(j, Refused(TurnPending))
              else
                && r.journal == j.(turns := j.turns[turnId := t.(
                     status := Pending, attempts := t.attempts + 1, errorCode := None, nextTopic := None,
                     assistantMessage := None, provider := if provider.Some? then provider else t.provider,
                     model := if model.Some? then model else t.model)])
                && TurnsHaveSessions(r.journal) && r.outcome.Working?
                && WorkTells(r.journal, turnId, true, r.outcome.work)
  {
    hide NormalProfile, ProposalsOk, CoverageIsOrdered, CATALOGUE, OneDraftProposal, MessagesOfTurns,
      OneActiveSession, OnePendingTurn, PendingTurnsMatch, TurnsWereTried, OrderedTopics, IdsAreUsed, WorkFor,
      AnswersAreStored;
    if turnId in j.turns {
      var t := j.turns[turnId];
      if t.status in {Pending, Completed} {
        WorkIsTold(py, j, turnId, false);
      } else if j.sessions[t.sessionId].status == Active {
        assert GuidedError(j, t.sessionId).None?;
        RetryKeepsInv(py, j, turnId, provider, model);
        if RetryTurn(j, turnId, provider, model).outcome.Working? {
          WorkIsTold(py, RetryTurn(j, turnId, provider, model).journal, turnId, true);
        }
      }
    }
  }

  /** Failing and reconciling: only pending turns change; a failed one carries a code on one line of at
      most 80 characters, the interrupted ones the code for that. */
  lemma FailIsExact(j: Journal, turnId: string, code: string)
    ensures var r := FailTurn(j, turnId, code);
            if turnId !in j.turns then r == StepResult(j, Refused(TurnNotFound))
            else if j.turns[turnId].status == Completed then r == StepResult(j, Refused(TurnNotPending))
            else if j.turns[turnId].status != Pending then r == StepResult(j, TurnIs(turnId))
            else
              && r.outcome == TurnIs(turnId) && turnId in r.journal.turns
              && var said := r.journal.turns[turnId].errorCode;
                 && said.Some? && 0 < |said.value| <= 80 && OneLine(said.value)
                 && (AllSpace(code) ==> said.value == "calibration_responder_failed")
                 && r.journal == j.(turns := j.turns[turnId := j.turns[turnId].(status := Failed, errorCode := said)])
  {
    if turnId in j.turns { CodeIsOneLine(code); }
  }

  /** White space is single blanks. */
  predicate OneLine(s: string) {
    forall i :: 0 <= i < |s| && IsSpace(s[i]) ==> s[i] == ' '
  }

  lemma CodeIsOneLine(code: string)
    ensures OneLine(BoundedCode(code))
    ensures AllSpace(code) ==> BoundedCode(code) == "calibration_responder_failed"
  {
    hide IsSpace;
    DefaultIsOneLine();
    if AllSpace(code) {
      NothingLeft(code);
    }
  }

  lemma DefaultIsOneLine()
    ensures OneLine("calibration_responder_failed")
  {
  }

  lemma {:induction false} NothingLeft(s: string)
    requires AllSpace(s)
    ensures LStrip(s) == ""
  {
    hide IsSpace;
    if s == "" {
    } else {
      NothingLeft(s[1..]);
    }
  }

  lemma ReconcileIsExact(j: Journal)
    ensures var r := Reconcile(j);
            && r.journal == j.(turns := r.journal.turns) && r.journal.turns.Keys == j.turns.Keys
            && r.outcome == Reconciled(|set t | t in j.turns && j.turns[t].status == Pending|)
            && forall t | t in j.turns ::
                 r.journal.turns[t] ==
                 if j.turns[t].status == Pending
                 then j.turns[t].(status := Interrupted, errorCode := Some("calibration_turn_interrupted"))
                 else j.turns[t]
  {
    assert (set t | t in j.turns && j.turns[t].status == Pending) == PendingTurns(j);
  }

  /** Closing ends an active session and leaves any other as it is. */
  lemma CloseIsExact(j: Journal, sid: Id)
    ensures var r := CloseSession(j, sid);
            if sid !in j.sessions then r == StepResult(j, Refused(SessionNotFound))
            else
              && r.outcome == SessionIs(sid)
              && r.journal == if j.sessions[sid].status != Active then j
                              else j.(sessions := j.sessions[sid := j.sessions[sid].(
                                   status := Closed, currentTopic := None, currentQuestion := None)])
  {
  }

  /** A free message is written without the space around it, and only into an active session. */
  lemma AppendIsExact(j: Journal, sid: Id, role: Role, content: string)
    ensures var r := AppendMessage(j, sid, role, content);
            if AllSpace(content) then r == StepResult(j, Refused(ContentRequired))
            else if sid !in j.sessions then r == StepResult(j, Refused(SessionNotFound))
            else if j.sessions[sid].status != Active then r == StepResult(j, Refused(SessionNotActive))
            else
              && r.outcome == MessageIs(j.nextId) && r.journal.nextId > j.nextId
              && j.nextId in r.journal.messages
              && var m := r.journal.messages[j.nextId];
                 && r.journal == j.(messages := j.messages[j.nextId := m], nextId := r.journal.nextId)
                 && m == Message(sid, role, m.content, None, None, None) && IsStripped(content, m.content)
  {
    hide IsSpace, Strip;
    BlankMeans(content);
    var front, back := StripMeans(content);
    if !AllSpace(content) { StrippedIs(content, front, back); }
  }

  /** The text with the surrounding space taken away. */
  ghost predicate IsStripped(whole: string, text: string) {
    && text != "" && !IsSpace(text[0]) && !IsSpace(text[|text| - 1])
    && exists front, back :: whole == front + text + back && AllSpace(front) && AllSpace(back)
  }

  lemma StrippedIs(whole: string, front: string, back: string)
    requires whole == front + Strip(whole) + back && AllSpace(front) && AllSpace(back) && Strip(whole) != ""
    ensures IsStripped(whole, Strip(whole))
  {
    hide IsSpace, LStrip, RStrip;
  }

  /** A decision is made once, on a draft; an approval by hand lists its fields by name. */
  lemma DecisionsAreExact(j: Journal, pid: Id, changed: seq<Field>)
    ensures var error := if pid !in j.proposals then Some(ProposalNotFound)
                         else if j.proposals[pid].status != Draft then Some(ProposalNotDraft) else None;
            var marked, rejected := MarkApproved(j, pid, changed), RejectProposal(j, pid);
            if error.Some? then marked == rejected == StepResult(j, Refused(error.value))
            else
              && rejected == StepResult(j.(proposals := j.proposals[pid := j.proposals[pid].(status := Rejected)]),
                   ProposalIs(pid))
              && marked.outcome == ProposalIs(pid) && pid in marked.journal.proposals
              && var listed := marked.journal.proposals[pid].changed;
                 && marked.journal == j.(proposals := j.proposals[pid :=
                      j.proposals[pid].(status := Approved, changed := listed)])
                 && Distinct(listed) && forall f :: f in listed <==> f in changed
  {
    hide FIELDS_BY_NAME, Distinct;
    NamesAreDistinct();
    SelectDistinct(FIELDS_BY_NAME, Elements(changed));
  }

  lemma NamesAreDistinct()
    ensures Distinct(FIELDS_BY_NAME) && forall f: Field :: f in FIELDS_BY_NAME
  {
    forall f: Field ensures f in FIELDS_BY_NAME {
      match f
      case Avoidances => assert FIELDS_BY_NAME[0] == f;
      case BehavioralFlags => assert FIELDS_BY_NAME[1] == f;
      case ConcentrationLimit => assert FIELDS_BY_NAME[2] == f;
      case DefaultStance => assert FIELDS_BY_NAME[3] == f;
      case DrawdownTolerance => assert FIELDS_BY_NAME[4] == f;
      case Enabled => assert FIELDS_BY_NAME[5] == f;
      case FreeformNotes => assert FIELDS_BY_NAME[6] == f;
      case HoldingHorizon => assert FIELDS_BY_NAME[7] == f;
      case LastReviewedAt => assert FIELDS_BY_NAME[8] == f;
      case PreferredEdge => assert FIELDS_BY_NAME[9] == f;
      case PrimaryPreset => assert FIELDS_BY_NAME[10] == f;
      case RiskAppetite => assert FIELDS_BY_NAME[11] == f;
      case RiskCapacity => assert FIELDS_BY_NAME[12] == f;
      case RiskMismatch => assert FIELDS_BY_NAME[13] == f;
      case SkillMode => assert FIELDS_BY_NAME[14] == f;
      case UpdatedAt => assert FIELDS_BY_NAME[15] == f;
    }
  }
}
