/** The turns of the admission tasks, what every turn keeps, and what follows for every run. */
module Admission {
  import opened Prelude
  import opened AdmissionState

  /** What the environment contributes to a turn: whether the provider acknowledged, and the fresh session's data. */
  datatype Env = Env(ok: bool, code: nat, maxAttempts: nat, ttl: nat)

  datatype Step =
    | Tick(later: nat)
    | Arrive(work: Work)
    | Hourly
    | Message(user: User)
    | StartExpiry(session: nat)
    | Turn(task: nat, env: Env)

  // ----- turns -----

  predicate FlagKnown(s: State, flag: Flag) {
    exists r | 0 <= r < |s.records| :: s.records[r].flag == flag
  }

  function WithRecord(s: State, record: Record): State {
    s.(ledger := Bump(s.ledger, record.group, Total), records := s.records + [record])
  }

  function WithSession(s: State, session: Session): State {
    s.(sessions := s.sessions + [session])
  }

  function WithAttempt(s: State, i: nat): State
    requires i < |s.sessions|
  {
    s.(sessions := s.sessions[i := s.sessions[i].(attempts := s.sessions[i].attempts + 1)])
  }

  /** What a task does next about the request it just recorded. */
  function RouteNext(route: Route, r: nat): Work {
    match route
    case ApproveNow => Calling(r, true, None)
    case RejectNow => Calling(r, false, None)
    case _ => Idle
  }

  /** The first turn under the approval lock of a join request. */
  function RouteRequest(s: State, t: nat): State
    requires t < |s.tasks| && s.tasks[t].Routing?
  {
    var work := s.tasks[t];
    if FlagKnown(s, work.flag) then Become(s, t, Idle)
    else
      var r := |s.records|;
      var status := if work.route == ToCaptcha then Captcha else Pending;
      var created := WithRecord(s, Record(work.flag, work.group, work.user, status, s.now + work.ttl));
      var routed := Become(created, t, RouteNext(work.route, r));
      if work.route == ToCaptcha then routed.(tasks := routed.tasks + [Issuing(r)]) else routed
  }

  /** An operator's decision under the approval lock. */
  function Operate(s: State, t: nat): State
    requires t < |s.tasks| && s.tasks[t].Operating?
  {
    var work := s.tasks[t];
    if work.record >= |s.records| || s.records[work.record].status != Pending then Become(s, t, Idle)
    else if s.records[work.record].expiresAt <= s.now then Become(SetStatus(s, work.record, Expired), t, Idle)
    else Become(s, t, Calling(work.record, work.approve, None))
  }

  /** Decides a captcha if its request still awaits one, and otherwise closes the session. */
  function BeginDecision(s: State, t: nat, approve: bool, origin: Origin): State
    requires Refs(s) && t < |s.tasks| && origin.session < |s.sessions|
  {
    var r := s.sessions[origin.session].approval;
    if s.records[r].status != Captcha then
      Become(CloseSession(s, origin.session), t, Notifying(r, origin.expiry))
    else Become(s, t, Deciding(approve, origin))
  }

  /** The first turn of an answer under the captcha lock. */
  function Answer(s: State, t: nat): State
    requires Refs(s) && t < |s.tasks| && s.tasks[t].Answering?
  {
    var i := s.tasks[t].session;
    if i >= |s.sessions| || !s.sessions[i].open then Become(s, t, Idle)
    else if s.now > s.sessions[i].expiresAt then BeginDecision(s, t, false, Origin(i, false))
    else
      var session := s.sessions[i];
      var tried := WithAttempt(s, i);
      if s.tasks[t].correct then BeginDecision(tried, t, true, Origin(i, false))
      else if session.maxAttempts <= session.attempts + 1 then BeginDecision(tried, t, false, Origin(i, false))
      else Become(tried, t, Notifying(session.approval, false))
  }

  function Issue(s: State, t: nat): State
    requires t < |s.tasks| && s.tasks[t].Issuing?
  {
    var r := s.tasks[t].record;
    if r >= |s.records| || s.records[r].status != Captcha then Become(s, t, Idle) else Become(s, t, Choosing(r))
  }

  predicate HasOpenSession(s: State, r: nat) {
    exists i | 0 <= i < |s.sessions| :: s.sessions[i].approval == r && s.sessions[i].open
  }

  function Active(s: State, user: User): set<nat> {
    set i | 0 <= i < |s.sessions| && ActiveFor(s, user, i)
  }

  /** The inserted session, closed again at once unless its request still awaits it. */
  function NewSession(s: State, r: nat, env: Env): Session
    requires r < |s.records|
  {
    Session(r, s.records[r].user, env.code, 0, env.maxAttempts, s.now + env.ttl,
            s.records[r].status == Captcha && s.records[r].expiresAt >= s.now)
  }

  /** The turn under the captcha lock of the request and the captcha lock of its user. */
  function Choose(s: State, t: nat, env: Env): State
    requires Refs(s) && t < |s.tasks| && s.tasks[t].Choosing?
  {
    var r := s.tasks[t].record;
    if s.records[r].status != Captcha || s.records[r].expiresAt < s.now || HasOpenSession(s, r) then Become(s, t, Idle)
    else
      var user := s.records[r].user;
      var c := Reconcile(s, user);
      if |Active(c, user)| >= MAX_ACTIVE_CAPTCHA_SESSIONS_PER_USER then
        Become(MarkApprovalPending(c, r), t, Notifying(r, false))
      else if exists i | i in Active(c, user) :: c.sessions[i].code == env.code then
        Become(c, t, Idle)  // no unique code could be allocated: the exception ends the task
      else
        var session := NewSession(c, r, env);
        Become(WithSession(c, session), t, if session.open then Sending(r, |c.sessions|) else Idle)
  }

  function Deliver(s: State, t: nat, env: Env): State
    requires Refs(s) && t < |s.tasks| && s.tasks[t].Sending?
  {
    if env.ok then Become(s, t, Idle)
    else Become(MarkApprovalPending(CloseSession(s, s.tasks[t].session), s.tasks[t].record), t, Idle)
  }

  /** The first turn of a captcha decision under the approval lock. */
  function Decide(s: State, t: nat): State
    requires Refs(s) && t < |s.tasks| && s.tasks[t].Deciding?
  {
    var work := s.tasks[t];
    var r := s.sessions[work.origin.session].approval;
    Become(s, t, if s.records[r].status == Captcha then Calling(r, work.approve, Some(work.origin))
                 else Returning(work.origin))
  }

  /** Where a task goes when its provider call is over. */
  function AfterCall(cause: Option<Origin>): Work {
    if cause.Some? then Returning(cause.value) else Idle
  }

  /** The provider answers. */
  function Respond(s: State, t: nat, env: Env): State
    requires Refs(s) && t < |s.tasks| && s.tasks[t].Calling?
  {
    var work := s.tasks[t];
    if env.ok then
      Become(s.(acks := s.acks + [Ack(work.record, work.approve)]), t,
             Acknowledged(work.record, work.approve, work.cause))
    else Become(MarkActionFailure(s, work.record), t, AfterCall(work.cause))
  }

  /** The unconditional update after an acknowledgement. */
  function Conclude(s: State, t: nat): State
    requires Refs(s) && t < |s.tasks| && s.tasks[t].Acknowledged?
  {
    var work := s.tasks[t];
    var decided := SetStatus(s, work.record, if work.approve then Approved else Rejected);
    var counted := decided.(ledger := Bump(s.ledger, s.records[work.record].group,
                                           if work.approve then Passed else Refused));
    Become(counted, t, AfterCall(work.cause))
  }

  function Return(s: State, t: nat): State
    requires Refs(s) && t < |s.tasks| && s.tasks[t].Returning?
  {
    var origin := s.tasks[t].origin;
    Become(CloseSession(s, origin.session), t, Notifying(s.sessions[origin.session].approval, origin.expiry))
  }

  function Notify(s: State, t: nat): State
    requires t < |s.tasks| && s.tasks[t].Notifying?
  {
    var done := Become(s, t, Idle);
    if s.tasks[t].expiry && s.slots > 0 then done.(slots := s.slots - 1) else done
  }

  function RunTurn(s: State, t: nat, env: Env): (after: State)
    requires Refs(s) && t < |s.tasks|
    ensures |s.tasks| <= |after.tasks|
  {
    match s.tasks[t]
    case Idle => s
    case Routing(_, _, _, _, _) => RouteRequest(s, t)
    case Operating(_, _) => Operate(s, t)
    case Answering(_, _) => Answer(s, t)
    case Issuing(_) => Issue(s, t)
    case Choosing(_) => Choose(s, t, env)
    case Sending(_, _) => Deliver(s, t, env)
    case Deciding(_, _) => Decide(s, t)
    case Returning(_) => Return(s, t)
    case Notifying(_, _) => Notify(s, t)
    case Calling(_, _, _) => Respond(s, t, env)
    case Acknowledged(_, _, _) => Conclude(s, t)
  }

  /** Every request that is due expires, whatever task is working on it. */
  function ExpireOldPending(s: State): State {
    s.(records := seq(|s.records|, r requires 0 <= r < |s.records| =>
      if (s.records[r].status == Pending || s.records[r].status == Captcha) && s.records[r].expiresAt <= s.now
      then s.records[r].(status := Expired) else s.records[r]))
  }

  /** A sweep worker takes an expired session whose captcha lock is free, if a slot is. */
  function BeginExpiry(s: State, i: nat): State
    requires Refs(s) && i < |s.sessions|
  {
    var started := s.(tasks := s.tasks + [Idle], slots := s.slots + 1);
    BeginDecision(started, |s.tasks|, false, Origin(i, true))
  }

  /** Locks are exclusive; a turn that needs one happens only while nobody else holds it. */
  ghost predicate Enabled(s: State, step: Step) {
    && Refs(s)
    && match step
       case Tick(later) => s.now <= later
       case Arrive(work) => work.Routing? || work.Operating? || work.Answering? || work.Issuing?
       case Hourly => true
       case Message(_) => true
       case StartExpiry(i) =>
         && i < |s.sessions| && s.sessions[i].open && s.sessions[i].expiresAt < s.now
         && s.slots < CAPTCHA_EXPIRY_SWEEP_CONCURRENCY
         && CaptchaFree(s, s.sessions[i].approval)
       case Turn(t, env) =>
         && t < |s.tasks|
         && env.maxAttempts > 0
         && match s.tasks[t]
            case Routing(flag, _, _, _, _) => FlagFree(s, flag)
            case Operating(r, _) => r < |s.records| ==> FlagFree(s, s.records[r].flag)
            case Answering(i, _) => i < |s.sessions| ==> CaptchaFree(s, s.sessions[i].approval)
            case Issuing(r) => CaptchaFree(s, r)
            case Deciding(_, origin) => FlagFree(s, s.records[s.sessions[origin.session].approval].flag)
            case _ => true
  }

  ghost function Next(s: State, step: Step): State
    requires Enabled(s, step)
  {
    match step
    case Tick(later) => s.(now := later)
    case Arrive(work) => s.(tasks := s.tasks + [work])
    case Hourly => ExpireOldPending(s)
    case Message(user) => Reconcile(s, user)
    case StartExpiry(i) => BeginExpiry(s, i)
    case Turn(t, env) => RunTurn(s, t, env)
  }

  // ----- invariant -----

  /** A call is about the request of its session, or about one that awaits no captcha. */
  predicate IsCause(s: State, r: nat, cause: Option<Origin>)
    requires r < |s.records|
  {
    match cause
    case Some(origin) => origin.session < |s.sessions| && s.sessions[origin.session].approval == r
    case None => s.records[r].status != Captcha
  }

  predicate WorkRefs(s: State, work: Work) {
    match work
    case Choosing(r) => r < |s.records|
    case Sending(r, i) => r < |s.records| && i < |s.sessions| && s.sessions[i].approval == r
    case Notifying(r, _) => r < |s.records|
    case Deciding(_, origin) => origin.session < |s.sessions|
    case Returning(origin) => origin.session < |s.sessions|
    case Calling(r, _, cause) =>
      r < |s.records| && IsCause(s, r, cause)
    case Acknowledged(r, _, cause) =>
      r < |s.records| && IsCause(s, r, cause)
    case _ => true
  }

  /** Every stored reference is to an existing row. */
  ghost predicate Refs(s: State) {
    && (forall t :: 0 <= t < |s.tasks| ==> WorkRefs(s, s.tasks[t]))
    && (forall i :: 0 <= i < |s.sessions| ==>
          s.sessions[i].approval < |s.records| && s.records[s.sessions[i].approval].user == s.sessions[i].user)
  }

  ghost predicate OneRecordPerFlag(s: State) {
    forall a, b :: 0 <= a < b < |s.records| ==> s.records[a].flag != s.records[b].flag
  }

  ghost predicate Exclusive(s: State) {
    forall a, b :: 0 <= a < b < |s.tasks| ==>
      && (InCall(s.tasks[a]) && InCall(s.tasks[b]) ==> s.tasks[a].record != s.tasks[b].record)
      && (CaptchaHeld(s, s.tasks[a]).Some? ==> CaptchaHeld(s, s.tasks[a]) != CaptchaHeld(s, s.tasks[b]))
  }

  predicate Decided(status: Status) {
    status == Approved || status == Rejected
  }

  function DecisionStatus(approve: bool): Status {
    if approve then Approved else Rejected
  }

  ghost predicate AckOk(s: State, k: nat)
    requires k < |s.acks|
  {
    var ack := s.acks[k];
    && ack.record < |s.records|
    && (|| s.records[ack.record].status == DecisionStatus(ack.approve)
        || exists t :: 0 <= t < |s.tasks| && s.tasks[t].Acknowledged? && s.tasks[t].record == ack.record
                       && s.tasks[t].approve == ack.approve)
  }

  /** A call in flight is about an undecided request, and decided requests are the acknowledged ones. */
  ghost predicate Decisions(s: State) {
    && (forall a, b :: 0 <= a < b < |s.acks| ==> s.acks[a].record != s.acks[b].record)
    && (forall k :: 0 <= k < |s.acks| ==> AckOk(s, k))
    && (forall r :: 0 <= r < |s.records| && Decided(s.records[r].status) ==>
          Ack(r, s.records[r].status == Approved) in s.acks)
    && (forall t :: 0 <= t < |s.tasks| && InCall(s.tasks[t]) && s.tasks[t].record < |s.records| ==>
          && !Decided(s.records[s.tasks[t].record].status)
          && (s.tasks[t].Acknowledged? <==> Ack(s.tasks[t].record, s.tasks[t].approve) in s.acks)
          && (s.tasks[t].Calling? ==> forall k :: 0 <= k < |s.acks| ==> s.acks[k].record != s.tasks[t].record))
  }

  ghost predicate OneOpenSession(s: State) {
    forall i, j :: 0 <= i < j < |s.sessions| && s.sessions[i].open && s.sessions[j].open ==>
      s.sessions[i].approval != s.sessions[j].approval
  }

  predicate Closing(work: Work, i: nat) {
    OriginOf(work).Some? && OriginOf(work).value.session == i
  }

  /** Attempts never exceed their limit, and a session that has reached it is being closed under its lock. */
  ghost predicate AttemptsOk(s: State, i: nat)
    requires i < |s.sessions|
  {
    && s.sessions[i].attempts <= s.sessions[i].maxAttempts
    && (s.sessions[i].open && s.sessions[i].attempts == s.sessions[i].maxAttempts ==>
          exists t :: 0 <= t < |s.tasks| && Closing(s.tasks[t], i))
  }

  ghost predicate Attempts(s: State) {
    forall i :: 0 <= i < |s.sessions| ==> AttemptsOk(s, i)
  }

  predicate InSlot(work: Work) {
    (OriginOf(work).Some? && OriginOf(work).value.expiry) || (work.Notifying? && work.expiry)
  }

  function SlotsTaken(tasks: seq<Work>): nat {
    if tasks == [] then 0
    else SlotsTaken(tasks[..|tasks| - 1]) + (if InSlot(tasks[|tasks| - 1]) then 1 else 0)
  }

  ghost predicate Slots(s: State) {
    s.slots == SlotsTaken(s.tasks) && s.slots <= CAPTCHA_EXPIRY_SWEEP_CONCURRENCY
  }

  predicate Matching(record: Record, group: Option<Group>, status: Option<Status>) {
    (group.Some? ==> record.group == group.value) && (status.Some? ==> record.status == status.value)
  }

  function CountRecords(records: seq<Record>, group: Option<Group>, status: Option<Status>): nat {
    if records == [] then 0
    else
      CountRecords(records[..|records| - 1], group, status)
      + (if Matching(records[|records| - 1], group, status) then 1 else 0)
  }

  /** Every counter row, of a group or global, is the number of records it counts. */
  ghost predicate LedgerAgrees(s: State) {
    forall group: Option<Group> :: RowAgrees(s, group)
  }

  ghost predicate RowAgrees(s: State, group: Option<Group>) {
    && Count(s.ledger, group, Total) == CountRecords(s.records, group, None)
    && Count(s.ledger, group, Passed) == CountRecords(s.records, group, Some(Approved))
    && Count(s.ledger, group, Refused) == CountRecords(s.records, group, Some(Rejected))
  }

  ghost predicate Inv(s: State) {
    && Refs(s)
    && OneRecordPerFlag(s)
    && Exclusive(s)
    && Decisions(s)
    && LedgerAgrees(s)
    && OneOpenSession(s)
    && Attempts(s)
    && Slots(s)
  }

  // ----- what a step may change -----

  ghost predicate RecordEvolves(before: Record, after: Record) {
    && after == before.(status := after.status)
    && (Decided(before.status) ==> after.status == before.status)
    && (after.status == Captcha ==> before.status == Captcha)
  }

  ghost predicate SessionEvolves(before: Session, after: Session) {
    && after == before.(open := after.open, attempts := after.attempts)
    && (after.open ==> before.open)
    && before.attempts <= after.attempts
  }

  /** Decisions are final, captcha is never entered again, and a closed session stays closed. */
  ghost predicate Evolves(s: State, after: State) {
    && s.now <= after.now
    && |s.records| <= |after.records|
    && (forall r :: 0 <= r < |s.records| ==> RecordEvolves(s.records[r], after.records[r]))
    && |s.sessions| <= |after.sessions|
    && (forall i :: 0 <= i < |s.sessions| ==> SessionEvolves(s.sessions[i], after.sessions[i]))
    && s.acks <= after.acks
    && |s.tasks| <= |after.tasks|
  }

  /** Rows change without any decision: statuses move among the undecided ones, sessions close. */
  ghost predicate Undecided(s: State, after: State) {
    && after == s.(records := after.records, sessions := after.sessions)
    && |after.records| == |s.records|
    && (forall r :: 0 <= r < |s.records| ==>
          && RecordEvolves(s.records[r], after.records[r])
          && (Decided(after.records[r].status) ==> Decided(s.records[r].status)))
    && |after.sessions| == |s.sessions|
    && (forall i :: 0 <= i < |s.sessions| ==>
          SessionEvolves(s.sessions[i], after.sessions[i]) && after.sessions[i].attempts == s.sessions[i].attempts)
  }

  lemma UndecidedTransitive(a: State, b: State, c: State)
    requires Undecided(a, b) && Undecided(b, c)
    ensures Undecided(a, c)
  {
    forall r | 0 <= r < |a.records|
      ensures RecordEvolves(a.records[r], c.records[r])
              && (Decided(c.records[r].status) ==> Decided(a.records[r].status))
    {
      assert RecordEvolves(a.records[r], b.records[r]) && RecordEvolves(b.records[r], c.records[r]);
    }
    forall i | 0 <= i < |a.sessions|
      ensures SessionEvolves(a.sessions[i], c.sessions[i]) && c.sessions[i].attempts == a.sessions[i].attempts
    {
      assert SessionEvolves(a.sessions[i], b.sessions[i]) && SessionEvolves(b.sessions[i], c.sessions[i]);
    }
  }

  lemma ReconcileIsUndecided(s: State, user: User)
    ensures Undecided(s, Reconcile(s, user))
  {
    var expired := ExpireRequests(s, user);
    var closed := CloseOrphans(expired, user);
    assert Undecided(s, expired);
    assert Undecided(expired, closed);
    assert Undecided(closed, RetireRest(closed, user));
    UndecidedTransitive(s, expired, closed);
    UndecidedTransitive(s, closed, RetireRest(closed, user));
  }

  lemma {:induction false} UndecidedCounts(a: seq<Record>, b: seq<Record>, group: Option<Group>, status: Option<Status>)
    requires |a| == |b| && (status.Some? ==> Decided(status.value))
    requires forall r :: 0 <= r < |a| ==> RecordEvolves(a[r], b[r]) && (Decided(b[r].status) ==> Decided(a[r].status))
    ensures CountRecords(a, group, status) == CountRecords(b, group, status)
  {
    if |a| > 0 {
      UndecidedCounts(a[..|a| - 1], b[..|b| - 1], group, status);
      assert RecordEvolves(a[|a| - 1], b[|a| - 1]);
    }
  }

  /** Such a change keeps the invariant. */
  lemma UndecidedKeepsInv(s: State, after: State)
    requires Inv(s) && Undecided(s, after)
    ensures Inv(after) && Evolves(s, after)
  {
    forall group: Option<Group>
      ensures RowAgrees(after, group)
    {
      assert RowAgrees(s, group);
      UndecidedCounts(s.records, after.records, group, None);
      UndecidedCounts(s.records, after.records, group, Some(Approved));
      UndecidedCounts(s.records, after.records, group, Some(Rejected));
    }
    forall t | 0 <= t < |s.tasks| ensures CaptchaHeld(after, s.tasks[t]) == CaptchaHeld(s, s.tasks[t]) {
      assert WorkRefs(s, s.tasks[t]);
    }
    forall k | 0 <= k < |after.acks| ensures AckOk(after, k) {
      assert AckOk(s, k);
    }
    forall i | 0 <= i < |after.sessions| ensures AttemptsOk(after, i) {
      assert AttemptsOk(s, i);
    }
  }
}
