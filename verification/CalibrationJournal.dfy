/** The guided calibration journal as a value, and every public operation as one atomic
    step on it. A transaction that rolls back is a step that returns the journal it got. */
module CalibrationJournal {
  import opened PyValues
  import opened InvestorProfiles
  import opened CalibrationPolicy
  import opened ProposalApproval

  const INTERVIEW_VERSION := 2
  const OPENING_PROMPT_ID := "loss_response.opening.v1"
  const SESSION_SUPERSEDED := "calibration_session_superseded"
  const TURN_INTERRUPTED := "calibration_turn_interrupted"

  /** Fresh identifiers are drawn from a counter. */
  type Id = nat

  datatype SessionStatus = Active | Closed | Superseded

  datatype Session = Session(
    status: SessionStatus,
    interviewVersion: Option<int>,
    covered: seq<Topic>,
    currentTopic: Option<Topic>,
    currentQuestion: Option<Id>)

  datatype Role = User | Assistant

  datatype Message = Message(
    sessionId: Id, role: Role, content: string,
    turnId: Option<string>, topic: Option<Topic>, promptId: Option<string>)

  datatype TurnKind = Answer | ProposalRequest
  datatype TurnStatus = Pending | Completed | Failed | Interrupted

  datatype Turn = Turn(
    sessionId: Id, kind: TurnKind, status: TurnStatus,
    question: Id, addressed: Topic, nextTopic: Option<Topic>,
    provider: Option<string>, model: Option<string>,
    userMessage: Option<Id>, assistantMessage: Option<Id>,
    errorCode: Option<string>, attempts: nat)

  datatype ProposalStatus = Draft | Approved | Rejected

  datatype Proposal = Proposal(
    sessionId: Id, status: ProposalStatus,
    patch: Patch, base: BaseValues, covered: seq<Topic>,
    raw: Payload, rationales: map<Field, string>, rejected: set<Key>,
    changed: seq<Field>, conflicts: seq<Field>)

  datatype Journal = Journal(
    sessions: map<Id, Session>,
    messages: map<Id, Message>,
    turns: map<string, Turn>,
    proposals: map<Id, Proposal>,
    profile: Profile,
    nextId: Id)

  const EMPTY_JOURNAL := Journal(map[], map[], map[], map[], DEFAULT_PROFILE, 0)

  /** The result object a provider returned; nothing about its members is trusted. */
  datatype TopicArg = NoTopic | TopicText(topic: Topic) | NotText
  datatype MappingArg = NoMapping | Mapping(entries: Payload) | NotMapping

  datatype ProviderResult = ProviderResult(
    assistantMessage: Value, addressedTopic: TopicArg, topicCovered: Value,
    nextTopic: TopicArg, patch: MappingArg, rationales: MappingArg)

  datatype ErrorCode =
    | SessionActive | SessionNotFound | SessionNotActive | NotGuidedV2 | CurrentQuestionInvalid
    | TurnIdRequired | ContentRequired | TurnIdConflict | RetryRequired | TurnPending
    | TurnNotFound | TurnNotPending | TurnNotRetryable | TurnIdentityChanged
    | QuestionIdentityLost | ResultInvalid | CatalogInvalid | ProposalInvalid | ProposalPending
    | ProposalNotFound | ProposalNotDraft | InvalidGuidedProposal | ProposalConflict | ProfileInvalid

  /** The code a failing completion writes into its turn. */
  function CodeText(e: ErrorCode): string {
    match e
    case ResultInvalid => "calibration_result_validation_failed"
    case ProposalInvalid => "calibration_proposal_validation_failed"
    case ProposalPending => "calibration_proposal_pending"
    case _ => "calibration_catalog_validation_failed"
  }

  /** What a caller needs to run one provider call for a turn. */
  datatype Work = Work(
    turnId: string, callProvider: bool, kind: TurnKind, provider: Option<string>, model: Option<string>,
    question: Id, topic: Topic, covered: seq<Topic>, answer: Option<string>)

  datatype Outcome =
    | SessionIs(sessionId: Id)
    | MessageIs(messageId: Id)
    | Working(work: Work)
    | TurnIs(turnId: string)
    | Reconciled(count: nat)
    | ProposalIs(proposalId: Id)
    | ProfileIs(profile: Profile)
    | Refused(code: ErrorCode)

  datatype StepResult = StepResult(journal: Journal, outcome: Outcome)

  predicate IsPending(t: Turn) { t.status == Pending }

  function Blank(s: string): bool { Strip(s) == "" }

  // ---------- sessions ----------

  function SupersedeActive(sessions: map<Id, Session>): map<Id, Session> {
    map s | s in sessions ::
      if sessions[s].status == Active then sessions[s].(status := Superseded) else sessions[s]
  }

  function FailPendingOfActive(j: Journal): map<string, Turn> {
    map t | t in j.turns ::
      if IsPending(j.turns[t]) && j.turns[t].sessionId in j.sessions
         && j.sessions[j.turns[t].sessionId].status == Active
      then j.turns[t].(status := Failed, errorCode := Some(SESSION_SUPERSEDED)) else j.turns[t]
  }

  const OPENING_MESSAGE: string :=
    "Suppose an important holding falls 18% over a short period while its "
    + "long-term thesis is not clearly broken. What would you usually do?"

  function StartSession(j: Journal, supersedeActive: bool): StepResult {
    if (exists s :: s in j.sessions && j.sessions[s].status == Active) && !supersedeActive then
      StepResult(j, Refused(SessionActive))
    else
      var sid, mid := j.nextId, j.nextId + 1;
      var session := Session(Active, Some(INTERVIEW_VERSION), [], Some(LossResponse), Some(mid));
      var opening := Message(sid, Assistant, OPENING_MESSAGE, None, Some(LossResponse), Some(OPENING_PROMPT_ID));
      StepResult(
        j.(sessions := SupersedeActive(j.sessions)[sid := session],
           turns := FailPendingOfActive(j),
           messages := j.messages[mid := opening],
           nextId := j.nextId + 2),
        SessionIs(sid))
  }

  function CloseSession(j: Journal, sid: Id): StepResult {
    if sid !in j.sessions then StepResult(j, Refused(SessionNotFound))
    else if j.sessions[sid].status == Active then
      StepResult(
        j.(sessions := j.sessions[sid := j.sessions[sid].(status := Closed, currentTopic := None,
            currentQuestion := None)]),
        SessionIs(sid))
    else StepResult(j, SessionIs(sid))
  }

  function AppendMessage(j: Journal, sid: Id, role: Role, content: string): StepResult {
    if Blank(content) then StepResult(j, Refused(ContentRequired))
    else if sid !in j.sessions then StepResult(j, Refused(SessionNotFound))
    else if j.sessions[sid].status != Active then StepResult(j, Refused(SessionNotActive))
    else
      StepResult(
        j.(messages := j.messages[j.nextId := Message(sid, role, Strip(content), None, None, None)],
           nextId := j.nextId + 1),
        MessageIs(j.nextId))
  }

  // ---------- turns ----------

  /** `_require_guided_session`: the error it raises, if any. */
  function GuidedError(j: Journal, sid: Id): Option<ErrorCode> {
    if sid !in j.sessions then Some(SessionNotFound)
    else
      var s := j.sessions[sid];
      if s.status != Active then Some(SessionNotActive)
      else if s.interviewVersion != Some(INTERVIEW_VERSION) then Some(NotGuidedV2)
      else if s.currentTopic.None? || s.currentTopic.value !in CATALOGUE || s.currentQuestion.None? then
        Some(CurrentQuestionInvalid)
      else
        var q := s.currentQuestion.value;
        if q !in j.messages || j.messages[q].sessionId != sid || j.messages[q].role != Assistant
           || j.messages[q].topic != s.currentTopic
        then Some(CurrentQuestionInvalid) else None
  }

  function AnswerOf(j: Journal, turn: Turn): Option<string> {
    if turn.userMessage.Some? && turn.userMessage.value in j.messages
    then Some(j.messages[turn.userMessage.value].content) else None
  }

  function WorkFor(j: Journal, turnId: string, callProvider: bool): Work
    requires turnId in j.turns && j.turns[turnId].sessionId in j.sessions
  {
    var t := j.turns[turnId];
    Work(turnId, callProvider, t.kind, t.provider, t.model, t.question, t.addressed,
         OrderedTopics(j.sessions[t.sessionId].covered), AnswerOf(j, t))
  }

  /** Every turn belongs to a stored session (a foreign key of the schema). */
  predicate TurnsHaveSessions(j: Journal) {
    forall t | t in j.turns :: j.turns[t].sessionId in j.sessions
  }

  function ReplayBegin(j: Journal, sid: Id, turnId: string, kind: TurnKind, answer: Option<string>): Outcome
    requires turnId in j.turns && TurnsHaveSessions(j)
  {
    var t := j.turns[turnId];
    if t.sessionId != sid || t.kind != kind then Refused(TurnIdConflict)
    else if kind == Answer && (answer.None? || AnswerOf(j, t) != answer) then Refused(TurnIdConflict)
    else if t.status == Pending || t.status == Completed then Working(WorkFor(j, turnId, false))
    else Refused(RetryRequired)
  }

  function BeginTurn(j: Journal, sid: Id, turnId: string, kind: TurnKind, answer: Option<string>,
                     provider: Option<string>, model: Option<string>): StepResult
    requires TurnsHaveSessions(j)
  {
    if Blank(turnId) then StepResult(j, Refused(TurnIdRequired))
    else if kind == Answer && (answer.None? || Blank(answer.value)) then StepResult(j, Refused(ContentRequired))
    else if turnId in j.turns then StepResult(j, ReplayBegin(j, sid, turnId, kind, answer))
    else if GuidedError(j, sid).Some? then StepResult(j, Refused(GuidedError(j, sid).value))
    else if exists t :: t in j.turns && j.turns[t].sessionId == sid && IsPending(j.turns[t]) then
      StepResult(j, Refused(TurnPending))
    else
      var s := j.sessions[sid];
      var q, topic := s.currentQuestion.value, s.currentTopic.value;
      var asked := kind == Answer;
      var turn := Turn(sid, kind, Pending, q, topic, None, provider, model,
                       if asked then Some(j.nextId) else None, None, None, 1);
      var j' := j.(turns := j.turns[turnId := turn],
                   messages := if asked then
                     j.messages[j.nextId := Message(sid, User, answer.value, Some(turnId), Some(topic),
                         j.messages[q].promptId)]
                     else j.messages,
                   nextId := if asked then j.nextId + 1 else j.nextId);
      StepResult(j', Working(WorkFor(j', turnId, true)))
  }

  /** The caller's error code as it is stored: on one line, cut short, never empty. */
  function BoundedCode(code: string): (r: string)
    ensures r != "" && |r| <= 80
  {
    var text := Collapse(code);
    var cut := text[..if |text| < 80 then |text| else 80];
    if cut == "" then "calibration_responder_failed" else cut
  }

  function FailedWith(j: Journal, turnId: string, code: string): Journal
    requires turnId in j.turns
  {
    j.(turns := j.turns[turnId := j.turns[turnId].(status := Failed, errorCode := Some(code))])
  }

  function FailTurn(j: Journal, turnId: string, code: string): StepResult {
    if turnId !in j.turns then StepResult(j, Refused(TurnNotFound))
    else if j.turns[turnId].status == Pending then
      StepResult(FailedWith(j, turnId, BoundedCode(code)), TurnIs(turnId))
    else if j.turns[turnId].status == Completed then StepResult(j, Refused(TurnNotPending))
    else StepResult(j, TurnIs(turnId))
  }

  function PendingTurns(j: Journal): set<string> {
    set t | t in j.turns && IsPending(j.turns[t])
  }

  function Reconcile(j: Journal): StepResult {
    StepResult(
      j.(turns := map t | t in j.turns ::
           if IsPending(j.turns[t]) then j.turns[t].(status := Interrupted, errorCode := Some(TURN_INTERRUPTED))
           else j.turns[t]),
      Reconciled(|PendingTurns(j)|))
  }

  function Coalesce(a: Option<string>, b: Option<string>): Option<string> {
    if a.Some? then a else b
  }

  function RetryTurn(j: Journal, turnId: string, provider: Option<string>, model: Option<string>): StepResult
    requires TurnsHaveSessions(j)
  {
    if turnId !in j.turns then StepResult(j, Refused(TurnNotFound))
    else
      var t := j.turns[turnId];
      if t.status == Pending || t.status == Completed then StepResult(j, Working(WorkFor(j, turnId, false)))
      else if t.errorCode == Some(SESSION_SUPERSEDED) then StepResult(j, Refused(TurnNotRetryable))
      else if GuidedError(j, t.sessionId).Some? then StepResult(j, Refused(GuidedError(j, t.sessionId).value))
      else if j.sessions[t.sessionId].currentQuestion != Some(t.question)
              || j.sessions[t.sessionId].currentTopic != Some(t.addressed) then
        StepResult(j, Refused(TurnIdentityChanged))
      else if exists o :: && o in j.turns && o != turnId
                          && j.turns[o].sessionId == t.sessionId && IsPending(j.turns[o]) then
        StepResult(j, Refused(TurnPending))
      else
        var t' := t.(status := Pending, provider := Coalesce(provider, t.provider), model := Coalesce(model, t.model),
                     errorCode := None, nextTopic := None, assistantMessage := None, attempts := t.attempts + 1);
        var j' := j.(turns := j.turns[turnId := t']);
        StepResult(j', Working(WorkFor(j', turnId, true)))
  }

  // ---------- completion ----------

  function CoveredAfter(turn: Turn, covered: seq<Topic>, r: ProviderResult): seq<Topic> {
    if turn.kind == Answer && r.topicCovered == VBool(true) && r.addressedTopic.TopicText?
    then OrderedTopics(OrderedTopics(covered) + [r.addressedTopic.topic])
    else OrderedTopics(covered)
  }

  function NextOf(r: ProviderResult): Option<Topic> {
    if r.nextTopic.TopicText? then Some(r.nextTopic.topic) else None
  }

  /** The structural and catalogue checks on a result, in the order they are made. */
  function ResultError(turn: Turn, covered: seq<Topic>, r: ProviderResult): Option<ErrorCode> {
    if !r.assistantMessage.VStr? || Blank(r.assistantMessage.s) then Some(ResultInvalid)
    else if !r.addressedTopic.TopicText? || !r.topicCovered.VBool? then Some(ResultInvalid)
    else if r.nextTopic.NotText? then Some(ResultInvalid)
    else if !ValidAddressed(r.addressedTopic.topic, turn.addressed) then Some(CatalogInvalid)
    else if !ValidNext(NextOf(r), CoveredAfter(turn, covered, r)) then Some(CatalogInvalid)
    else if r.rationales.NotMapping? then Some(ResultInvalid)
    else if r.patch.NotMapping? then Some(ResultInvalid)
    else None
  }

  predicate TextListValue(v: Value) {
    v.VList? && forall x :: x in v.items ==> x.VStr?
  }

  predicate ListsWellTyped(raw: Payload, legal: seq<Field>) {
    forall f | f in LIST_FIELDS && f in legal && Known(f) in raw :: TextListValue(raw[Known(f)])
  }

  datatype DraftData = DraftData(patch: Patch, base: BaseValues, rationales: map<Field, string>, rejected: set<Key>)
  datatype Verdict = Bad(code: ErrorCode) | Good(draft: Option<DraftData>)

  function RationaleOf(r: ProviderResult, f: Field): Value {
    if r.rationales.Mapping? && Known(f) in r.rationales.entries then r.rationales.entries[Known(f)] else VNull
  }

  predicate HasDraft(j: Journal, sid: Id) {
    exists p :: p in j.proposals && j.proposals[p].sessionId == sid && j.proposals[p].status == Draft
  }

  /** The proposal part of a result that passed the checks above. */
  function DraftVerdict(py: Python, j: Journal, sid: Id, coveredAfter: seq<Topic>, r: ProviderResult): Verdict {
    if !r.patch.Mapping? then Good(None)
    else
      var raw := r.patch.entries;
      if !ListsWellTyped(raw, FieldsForTopics(Elements(coveredAfter))) then Bad(ProposalInvalid)
      else match Clamp(py, raw, Elements(coveredAfter), j.profile)
        case None => Bad(ProposalInvalid)
        case Some(Clamped(None, _)) => Good(None)
        case Some(Clamped(Some(patch), rejected)) =>
          var fields := PatchFields(patch);
          if HasDraft(j, sid) then Bad(ProposalPending)
          else if exists f | f in fields :: !RationaleOf(r, f).VNull? && !RationaleOf(r, f).VStr?
              then Bad(ResultInvalid)
          else
            var rationales := map f | f in fields && RationaleOf(r, f).VStr? :: RationaleOf(r, f).s;
            Good(Some(DraftData(patch, BaseOf(patch, j.profile), rationales, rejected)))
  }

  function Judge(py: Python, j: Journal, turn: Turn, session: Session, r: ProviderResult): Verdict {
    if session.currentQuestion != Some(turn.question) || session.currentTopic != Some(turn.addressed) then
      Bad(QuestionIdentityLost)
    else if ResultError(turn, session.covered, r).Some? then Bad(ResultError(turn, session.covered, r).value)
    else DraftVerdict(py, j, turn.sessionId, CoveredAfter(turn, session.covered, r), r)
  }

  /** The session after an accepted completion. */
  function Advanced(session: Session, covered: seq<Topic>, next: Option<Topic>, messageId: Id): Session {
    if next.None? then session.(status := Closed, covered := covered, currentTopic := None, currentQuestion := None)
    else session.(covered := covered, currentTopic := next, currentQuestion := Some(messageId))
  }

  function DraftRow(sid: Id, covered: seq<Topic>, d: DraftData): Proposal {
    Proposal(sid, Draft, d.patch, d.base, covered, map[], d.rationales, d.rejected, [], [])
  }

  /** Message, proposal, session and turn rows of an accepted completion. */
  function Accept(j: Journal, turnId: string, r: ProviderResult, draft: Option<DraftData>): Journal
    requires turnId in j.turns && j.turns[turnId].sessionId in j.sessions
    requires r.assistantMessage.VStr?
  {
    var t := j.turns[turnId];
    var s := j.sessions[t.sessionId];
    var covered := CoveredAfter(t, s.covered, r);
    var mid := j.nextId;
    j.(messages := j.messages[mid := Message(t.sessionId, Assistant, r.assistantMessage.s, Some(turnId), NextOf(r),
        None)],
       proposals := if draft.Some? then j.proposals[mid + 1 := DraftRow(t.sessionId, covered, draft.value)]
           else j.proposals,
       sessions := j.sessions[t.sessionId := Advanced(s, covered, NextOf(r), mid)],
       turns := j.turns[turnId := t.(status := Completed, assistantMessage := Some(mid), nextTopic := NextOf(r),
           errorCode := None)],
       nextId := mid + 2)
  }

  function CompleteTurn(py: Python, j: Journal, turnId: string, r: ProviderResult): StepResult
    requires TurnsHaveSessions(j)
  {
    if turnId !in j.turns then StepResult(j, Refused(TurnNotFound))
    else
      var t := j.turns[turnId];
      if t.status == Completed then StepResult(j, TurnIs(turnId))
      else if t.status != Pending then StepResult(j, Refused(RetryRequired))
      else if GuidedError(j, t.sessionId).Some? then StepResult(j, Refused(GuidedError(j, t.sessionId).value))
      else match Judge(py, j, t, j.sessions[t.sessionId], r)
        case Bad(code) =>
          StepResult(FailedWith(j, turnId, CodeText(code)), Refused(code))
        case Good(draft) => StepResult(Accept(j, turnId, r, draft), TurnIs(turnId))
  }

  // ---------- proposals and profile ----------

  const LEGACY_FIELDS: seq<Field> := [
    Enabled, PrimaryPreset, RiskAppetite, RiskCapacity, RiskMismatch, HoldingHorizon, DrawdownTolerance,
    ConcentrationLimit, PreferredEdge, Avoidances, BehavioralFlags, FreeformNotes, DefaultStance, SkillMode]

  function CreateProposal(py: Python, j: Journal, sid: Id, payload: Payload, rationales: map<Field,
      string>): StepResult {
    if Known(RiskMismatch) in payload then StepResult(j, Refused(ProfileInvalid))
    else match Normalize(py, payload, DEFAULT_PROFILE)
      case None => StepResult(j, Refused(ProfileInvalid))
      case Some(normal) =>
        if sid !in j.sessions then StepResult(j, Refused(SessionNotFound))
        else if HasDraft(j, sid) then StepResult(j, Refused(ProposalPending))
        else
          var row := Proposal(sid, Draft, PatchOf(LEGACY_FIELDS, normal), map[], [], payload, rationales, {}, [], []);
          StepResult(j.(proposals := j.proposals[j.nextId := row], nextId := j.nextId + 1), ProposalIs(j.nextId))
  }

  /** The error shared by every operation that needs a draft. */
  function DraftError(j: Journal, pid: Id): Option<ErrorCode> {
    if pid !in j.proposals then Some(ProposalNotFound)
    else if j.proposals[pid].status != Draft then Some(ProposalNotDraft)
    else None
  }

  /** The fields by the names the store uses, sorted. */
  const FIELDS_BY_NAME: seq<Field> := [
    Avoidances, BehavioralFlags, ConcentrationLimit, DefaultStance, DrawdownTolerance, Enabled, FreeformNotes,
    HoldingHorizon, LastReviewedAt, PreferredEdge, PrimaryPreset, RiskAppetite, RiskCapacity, RiskMismatch, SkillMode,
    UpdatedAt]

  function MarkApproved(j: Journal, pid: Id, changed: seq<Field>): StepResult {
    if DraftError(j, pid).Some? then StepResult(j, Refused(DraftError(j, pid).value))
    else
      StepResult(
        j.(proposals := j.proposals[pid := j.proposals[pid].(
             status := Approved, changed := Select(FIELDS_BY_NAME, Elements(changed)))]),
        ProposalIs(pid))
  }

  function RejectProposal(j: Journal, pid: Id): StepResult {
    if DraftError(j, pid).Some? then StepResult(j, Refused(DraftError(j, pid).value))
    else StepResult(j.(proposals := j.proposals[pid := j.proposals[pid].(status := Rejected)]), ProposalIs(pid))
  }

  function ApproveProposal(py: Python, j: Journal, pid: Id, ts: string): StepResult {
    if DraftError(j, pid).Some? then StepResult(j, Refused(DraftError(j, pid).value))
    else
      var p := j.proposals[pid];
      if !Validated(py, p.patch, p.base, p.covered, j.profile) then StepResult(j, Refused(InvalidGuidedProposal))
      else
        var conflicts := ConflictFields(j.profile, p.patch, p.base);
        if conflicts != [] then
          StepResult(j.(proposals := j.proposals[pid := p.(conflicts := conflicts)]), Refused(ProposalConflict))
        else match ProposalApproval.Approved(py, p.patch, j.profile, ts)
          case None => StepResult(j, Refused(ProfileInvalid))
          case Some(merged) =>
            var changed := ChangedFields(j.profile, merged);
            StepResult(
              j.(profile := merged, proposals := j.proposals[pid := p.(status := Approved, changed := changed)]),
              ProposalIs(pid))
  }

  function SaveProfile(py: Python, j: Journal, payload: Payload, ts: string): StepResult {
    match Normalize(py, payload, j.profile)
    case None => StepResult(j, Refused(ProfileInvalid))
    case Some(p) => StepResult(j.(profile := Reviewed(p, ts)), ProfileIs(Reviewed(p, ts)))
  }

  // ---------- runs ----------

  datatype Op =
    | OpStart(supersedeActive: bool)
    | OpClose(sid: Id)
    | OpAppend(sid: Id, role: Role, content: string)
    | OpBegin(sid: Id, turnId: string, kind: TurnKind, answer: Option<string>, provider: Option<string>,
        model: Option<string>)
    | OpFail(turnId: string, code: string)
    | OpReconcile
    | OpRetry(turnId: string, provider: Option<string>, model: Option<string>)
    | OpComplete(turnId: string, result: ProviderResult)
    | OpCreateProposal(sid: Id, payload: Payload, rationales: map<Field, string>)
    | OpMarkApproved(pid: Id, changed: seq<Field>)
    | OpApprove(pid: Id, ts: string)
    | OpReject(pid: Id)
    | OpSaveProfile(payload: Payload, ts: string)

  function Step(py: Python, j: Journal, op: Op): StepResult
    requires TurnsHaveSessions(j)
  {
    match op
    case OpStart(supersede) => StartSession(j, supersede)
    case OpClose(sid) => CloseSession(j, sid)
    case OpAppend(sid, role, content) => AppendMessage(j, sid, role, content)
    case OpBegin(sid, turnId, kind, answer, provider, model) => BeginTurn(j, sid, turnId, kind, answer, provider, model)
    case OpFail(turnId, code) => FailTurn(j, turnId, code)
    case OpReconcile => Reconcile(j)
    case OpRetry(turnId, provider, model) => RetryTurn(j, turnId, provider, model)
    case OpComplete(turnId, result) => CompleteTurn(py, j, turnId, result)
    case OpCreateProposal(sid, payload, rationales) => CreateProposal(py, j, sid, payload, rationales)
    case OpMarkApproved(pid, changed) => MarkApproved(j, pid, changed)
    case OpApprove(pid, ts) => ApproveProposal(py, j, pid, ts)
    case OpReject(pid) => RejectProposal(j, pid)
    case OpSaveProfile(payload, ts) => SaveProfile(py, j, payload, ts)
  }
}
