/** Every step of the admission tasks keeps the invariant, and what that says about whole runs. */
module AdmissionProofs {
  import opened Prelude
  import opened AdmissionState
  import opened Admission

  // ----- task moves -----

  lemma {:induction false} SlotsAfterMove(tasks: seq<Work>, t: nat, work: Work)
    requires t < |tasks|
    ensures SlotsTaken(tasks[t := work])
         == SlotsTaken(tasks) - (if InSlot(tasks[t]) then 1 else 0) + (if InSlot(work) then 1 else 0)
  {
    var last := |tasks| - 1;
    if t < last {
      SlotsAfterMove(tasks[..last], t, work);
      assert tasks[t := work][..last] == tasks[..last][t := work];
    } else {
      assert tasks[t := work][..last] == tasks[..last];
    }
  }

  /** What a task may turn into: it keeps or gives up its captcha lock, or takes a free one. */
  ghost predicate MayMove(s: State, t: nat, work: Work) {
    && t < |s.tasks|
    && WorkRefs(s, work)
    && (CaptchaHeld(s, work).Some? && CaptchaHeld(s, work) != CaptchaHeld(s, s.tasks[t]) ==>
          CaptchaFree(s, CaptchaHeld(s, work).value))
    && (forall i :: 0 <= i < |s.sessions| && Closing(s.tasks[t], i) && Exhausted(s, i) ==> Closing(work, i))
  }

  predicate Exhausted(s: State, i: nat)
    requires i < |s.sessions|
  {
    s.sessions[i].open && s.sessions[i].attempts == s.sessions[i].maxAttempts
  }

  function Move(s: State, t: nat, work: Work): State
    requires t < |s.tasks|
  {
    var slots := s.slots - (if InSlot(s.tasks[t]) then 1 else 0) + (if InSlot(work) then 1 else 0);
    Become(s, t, work).(slots := if slots < 0 then 0 else slots)
  }

  lemma MoveKeepsLocks(s: State, t: nat, work: Work)
    requires Inv(s) && MayMove(s, t, work)
    requires InCall(work) ==> InCall(s.tasks[t]) && work.record == s.tasks[t].record
    ensures Refs(Move(s, t, work)) && Exclusive(Move(s, t, work))
  {
    var after := Move(s, t, work);
    forall u | 0 <= u < |after.tasks| ensures CaptchaHeld(after, after.tasks[u]) == CaptchaHeld(s, after.tasks[u]) {
    }
  }

  lemma MoveKeepsAttempts(s: State, t: nat, work: Work)
    requires Inv(s) && MayMove(s, t, work)
    ensures Attempts(Move(s, t, work))
  {
    var after := Move(s, t, work);
    forall i | 0 <= i < |after.sessions| ensures AttemptsOk(after, i) {
      assert AttemptsOk(s, i);
      if Exhausted(s, i) {
        var u :| 0 <= u < |s.tasks| && Closing(s.tasks[u], i);
        assert Closing(after.tasks[u], i);
      }
    }
  }

  /** An acknowledgement stays accounted for while the tasks that hold one stay as they are. */
  lemma AckSurvives(s: State, after: State, k: nat)
    requires k < |s.acks| && k < |after.acks| && after.acks[k] == s.acks[k] && AckOk(s, k)
    requires |s.records| <= |after.records| && |s.tasks| <= |after.tasks|
    requires forall r :: 0 <= r < |s.records| && Decided(s.records[r].status) ==>
               after.records[r].status == s.records[r].status
    requires forall t :: 0 <= t < |s.tasks| && s.tasks[t].Acknowledged? ==> after.tasks[t] == s.tasks[t]
    ensures AckOk(after, k)
  {
    var ack := s.acks[k];
    if s.records[ack.record].status != DecisionStatus(ack.approve) {
      var t :| 0 <= t < |s.tasks| && s.tasks[t].Acknowledged? && s.tasks[t].record == ack.record
               && s.tasks[t].approve == ack.approve;
      assert after.tasks[t] == s.tasks[t];
    }
  }

  lemma SlotsTakenAtLeast(tasks: seq<Work>, t: nat)
    requires t < |tasks| && InSlot(tasks[t])
    ensures SlotsTaken(tasks) >= 1
  {
    SlotsAfterMove(tasks, t, Idle);
  }

  lemma LedgerUntouched(s: State, after: State)
    requires LedgerAgrees(s) && after.ledger == s.ledger && after.records == s.records
    ensures LedgerAgrees(after)
  {
    forall group: Option<Group> ensures RowAgrees(after, group) {
      assert RowAgrees(s, group);
    }
  }

  /** A task that is not in a provider call goes on without starting one. */
  lemma MoveKeepsInv(s: State, t: nat, work: Work)
    requires Inv(s) && MayMove(s, t, work)
    requires !InCall(work) && !s.tasks[t].Acknowledged?
    requires InSlot(work) && !InSlot(s.tasks[t]) ==> s.slots < CAPTCHA_EXPIRY_SWEEP_CONCURRENCY
    ensures Inv(Move(s, t, work)) && Evolves(s, Move(s, t, work))
  {
    var after := Move(s, t, work);
    LedgerUntouched(s, after);
    MoveKeepsLocks(s, t, work);
    MoveKeepsAttempts(s, t, work);
    SlotsAfterMove(s.tasks, t, work);
    if InSlot(s.tasks[t]) {
      SlotsTakenAtLeast(s.tasks, t);
    }
    forall k | 0 <= k < |after.acks| ensures AckOk(after, k) {
      AckSurvives(s, after, k);
    }
  }

  /** A task with nothing to close ends. */
  lemma StopKeepsInv(s: State, t: nat)
    requires Inv(s) && t < |s.tasks| && !InCall(s.tasks[t]) && OriginOf(s.tasks[t]).None? && !InSlot(s.tasks[t])
    ensures Inv(Become(s, t, Idle)) && Evolves(s, Become(s, t, Idle))
  {
    assert Move(s, t, Idle) == Become(s, t, Idle);
    MoveKeepsInv(s, t, Idle);
  }

  /** With the approval lock free, a request was acknowledged only if its status says so. */
  lemma FreeMeansUnacknowledged(s: State, r: nat)
    requires Inv(s) && r < |s.records| && FlagFree(s, s.records[r].flag) && !Decided(s.records[r].status)
    ensures forall k :: 0 <= k < |s.acks| ==> s.acks[k].record != r
    ensures forall t :: 0 <= t < |s.tasks| && InCall(s.tasks[t]) ==> s.tasks[t].record != r
  {
    forall k | 0 <= k < |s.acks| ensures s.acks[k].record != r {
      assert AckOk(s, k);
    }
  }

  lemma CallKeepsLocks(s: State, t: nat, work: Work)
    requires Inv(s) && MayMove(s, t, work) && work.Calling?
    requires forall u :: 0 <= u < |s.tasks| && InCall(s.tasks[u]) ==> s.tasks[u].record != work.record
    ensures Refs(Move(s, t, work)) && Exclusive(Move(s, t, work))
  {
    var after := Move(s, t, work);
    forall u | 0 <= u < |after.tasks| ensures CaptchaHeld(after, after.tasks[u]) == CaptchaHeld(s, after.tasks[u]) {
    }
  }

  /** A task that found a request undecided under its free approval lock calls the provider. */
  lemma CallKeepsInv(s: State, t: nat, work: Work)
    requires Inv(s) && MayMove(s, t, work) && work.Calling?
    requires !InCall(s.tasks[t]) && InSlot(work) == InSlot(s.tasks[t])
    requires FlagFree(s, s.records[work.record].flag) && !Decided(s.records[work.record].status)
    ensures Inv(Move(s, t, work)) && Evolves(s, Move(s, t, work))
  {
    var after := Move(s, t, work);
    LedgerUntouched(s, after);
    FreeMeansUnacknowledged(s, work.record);
    MoveKeepsAttempts(s, t, work);
    SlotsAfterMove(s.tasks, t, work);
    if InSlot(s.tasks[t]) {
      SlotsTakenAtLeast(s.tasks, t);
    }
    CallKeepsLocks(s, t, work);
    forall k | 0 <= k < |after.acks| ensures AckOk(after, k) {
      AckSurvives(s, after, k);
    }
  }

  /** A task stays inside its provider call, or leaves it, with rows of requests changing meanwhile. */
  lemma StepInCallKeepsRest(s: State, t: nat, after: State)
    requires Inv(s) && t < |s.tasks| && InCall(s.tasks[t])
    requires |after.records| == |s.records| && after.sessions == s.sessions && after.slots == s.slots
    requires |after.tasks| == |s.tasks|
    requires forall r :: 0 <= r < |s.records| ==>
               && after.records[r] == s.records[r].(status := after.records[r].status)
               && (after.records[r].status == Captcha ==> s.records[r].status == Captcha)
    requires after.tasks == s.tasks[t := after.tasks[t]]
    requires InSlot(after.tasks[t]) == InSlot(s.tasks[t]) && OriginOf(after.tasks[t]) == OriginOf(s.tasks[t])
    requires InCall(after.tasks[t]) ==>
               after.tasks[t].record == s.tasks[t].record && after.tasks[t].cause == s.tasks[t].cause
    requires !InCall(after.tasks[t]) ==> after.tasks[t] == AfterCall(s.tasks[t].cause)
    ensures Refs(after) && OneRecordPerFlag(after) && Exclusive(after) && OneOpenSession(after)
    ensures Attempts(after) && Slots(after)
  {
    SlotsAfterMove(s.tasks, t, after.tasks[t]);
    LocksAfterStep(s, t, after);
    AttemptsAfterStep(s, t, after);
  }

  lemma LocksAfterStep(s: State, t: nat, after: State)
    requires Inv(s) && t < |s.tasks| && InCall(s.tasks[t])
    requires |after.records| == |s.records| && after.sessions == s.sessions && |after.tasks| == |s.tasks|
    requires forall r :: 0 <= r < |s.records| ==>
               && after.records[r] == s.records[r].(status := after.records[r].status)
               && (after.records[r].status == Captcha ==> s.records[r].status == Captcha)
    requires after.tasks == s.tasks[t := after.tasks[t]] && OriginOf(after.tasks[t]) == OriginOf(s.tasks[t])
    requires InCall(after.tasks[t]) ==>
               after.tasks[t].record == s.tasks[t].record && after.tasks[t].cause == s.tasks[t].cause
    requires !InCall(after.tasks[t]) ==> after.tasks[t] == AfterCall(s.tasks[t].cause)
    ensures Refs(after) && Exclusive(after)
  {
    assert WorkRefs(s, s.tasks[t]);
    forall u | 0 <= u < |after.tasks| ensures CaptchaHeld(after, after.tasks[u]) == CaptchaHeld(s, s.tasks[u]) {
    }
  }

  /** A task in a call keeps closing whatever session it was closing. */
  lemma AttemptsAfterStep(s: State, t: nat, after: State)
    requires Inv(s) && t < |s.tasks| && InCall(s.tasks[t])
    requires after.sessions == s.sessions && |after.tasks| == |s.tasks| && after.tasks == s.tasks[t := after.tasks[t]]
    requires OriginOf(after.tasks[t]) == OriginOf(s.tasks[t])
    requires !InCall(after.tasks[t]) ==> after.tasks[t] == AfterCall(s.tasks[t].cause)
    ensures Attempts(after)
  {
    forall i | 0 <= i < |after.sessions| ensures AttemptsOk(after, i) {
      assert AttemptsOk(s, i);
      if Exhausted(s, i) {
        var u :| 0 <= u < |s.tasks| && Closing(s.tasks[u], i);
        assert Closing(after.tasks[u], i);
      }
    }
  }

  /** The provider acknowledges. */
  lemma AcknowledgeKeepsInv(s: State, t: nat, env: Env)
    requires Inv(s) && t < |s.tasks| && s.tasks[t].Calling? && env.ok
    ensures Inv(Respond(s, t, env)) && Evolves(s, Respond(s, t, env))
  {
    var after := Respond(s, t, env);
    LedgerUntouched(s, after);
    StepInCallKeepsRest(s, t, after);
    AcknowledgeKeepsDecisions(s, t, env);
  }

  lemma AcknowledgeKeepsDecisions(s: State, t: nat, env: Env)
    requires Inv(s) && t < |s.tasks| && s.tasks[t].Calling? && env.ok
    ensures Decisions(Respond(s, t, env))
  {
    var work := s.tasks[t];
    var after := Respond(s, t, env);
    assert WorkRefs(s, work);
    forall k | 0 <= k < |after.acks| ensures AckOk(after, k) {
      if k < |s.acks| {
        AckSurvives(s, after, k);
      } else {
        assert after.tasks[t] == Acknowledged(work.record, work.approve, work.cause);
      }
    }
  }

  lemma {:induction false} CountAfterStatus(records: seq<Record>, r: nat, status: Status, group: Option<Group>,
                                            counted: Option<Status>)
    requires r < |records|
    ensures CountRecords(records[r := records[r].(status := status)], group, counted)
         == CountRecords(records, group, counted)
            - (if Matching(records[r], group, counted) then 1 else 0)
            + (if Matching(records[r].(status := status), group, counted) then 1 else 0)
  {
    var last := |records| - 1;
    var after := records[r := records[r].(status := status)];
    if r < last {
      CountAfterStatus(records[..last], r, status, group, counted);
      assert after[..last] == records[..last][r := records[r].(status := status)];
    } else {
      assert after[..last] == records[..last];
    }
  }

  lemma ConcludeKeepsRow(s: State, t: nat, group: Option<Group>)
    requires Refs(s) && t < |s.tasks| && s.tasks[t].Acknowledged? && RowAgrees(s, group)
    requires WorkRefs(s, s.tasks[t]) && !Decided(s.records[s.tasks[t].record].status)
    ensures RowAgrees(Conclude(s, t), group)
  {
    var r, status := s.tasks[t].record, DecisionStatus(s.tasks[t].approve);
    CountAfterStatus(s.records, r, status, group, None);
    CountAfterStatus(s.records, r, status, group, Some(Approved));
    CountAfterStatus(s.records, r, status, group, Some(Rejected));
  }

  lemma ConcludeKeepsLedger(s: State, t: nat)
    requires Inv(s) && t < |s.tasks| && s.tasks[t].Acknowledged?
    ensures LedgerAgrees(Conclude(s, t))
  {
    assert WorkRefs(s, s.tasks[t]);
    forall group: Option<Group> ensures RowAgrees(Conclude(s, t), group) {
      assert RowAgrees(s, group);
      ConcludeKeepsRow(s, t, group);
    }
  }

  lemma ConcludeKeepsDecisions(s: State, t: nat)
    requires Inv(s) && t < |s.tasks| && s.tasks[t].Acknowledged?
    ensures Decisions(Conclude(s, t))
  {
    var work, after := s.tasks[t], Conclude(s, t);
    assert WorkRefs(s, work);
    forall k | 0 <= k < |after.acks| ensures AckOk(after, k) {
      assert AckOk(s, k);
      if s.acks[k].record != work.record && s.records[s.acks[k].record].status != DecisionStatus(s.acks[k].approve) {
        var u :| 0 <= u < |s.tasks| && s.tasks[u].Acknowledged? && s.tasks[u].record == s.acks[k].record
                 && s.tasks[u].approve == s.acks[k].approve;
        assert after.tasks[u] == s.tasks[u];
      }
    }
  }

  /** The record is decided, and counted, in the turn after the acknowledgement. */
  lemma ConcludeKeepsInv(s: State, t: nat)
    requires Inv(s) && t < |s.tasks| && s.tasks[t].Acknowledged?
    ensures Inv(Conclude(s, t)) && Evolves(s, Conclude(s, t))
  {
    assert WorkRefs(s, s.tasks[t]);
    StepInCallKeepsRest(s, t, Conclude(s, t));
    ConcludeKeepsLedger(s, t);
    ConcludeKeepsDecisions(s, t);
  }

  /** The provider failed: the undecided request goes back to the operators. */
  lemma FailureIsUndecided(s: State, r: nat)
    requires r < |s.records|
    ensures Undecided(s, MarkActionFailure(s, r))
  {
  }

  lemma FailureKeepsInv(s: State, t: nat, env: Env)
    requires Inv(s) && t < |s.tasks| && s.tasks[t].Calling? && !env.ok
    ensures Inv(Respond(s, t, env)) && Evolves(s, Respond(s, t, env))
  {
    var work := s.tasks[t];
    assert WorkRefs(s, work);
    var failed := MarkActionFailure(s, work.record);
    FailureIsUndecided(s, work.record);
    UndecidedKeepsInv(s, failed);
    var next := AfterCall(work.cause);
    assert Move(failed, t, next) == Become(failed, t, next);
    MoveKeepsInv(failed, t, next);
  }

  // ----- new rows and new tasks -----

  lemma ArriveKeepsLocks(s: State, work: Work)
    requires Inv(s) && !InCall(work) && OriginOf(work).None? && CaptchaHeld(s, work).None? && WorkRefs(s, work)
    ensures Refs(s.(tasks := s.tasks + [work])) && Exclusive(s.(tasks := s.tasks + [work]))
  {
    var after := s.(tasks := s.tasks + [work]);
    forall u | 0 <= u < |s.tasks| ensures CaptchaHeld(after, s.tasks[u]) == CaptchaHeld(s, s.tasks[u]) {
    }
  }

  lemma ArriveKeepsAttempts(s: State, work: Work)
    requires Inv(s)
    ensures Attempts(s.(tasks := s.tasks + [work]))
  {
    var after := s.(tasks := s.tasks + [work]);
    forall i | 0 <= i < |after.sessions| ensures AttemptsOk(after, i) {
      assert AttemptsOk(s, i);
      if Exhausted(s, i) {
        var u :| 0 <= u < |s.tasks| && Closing(s.tasks[u], i);
        assert Closing(after.tasks[u], i);
      }
    }
  }

  lemma ArriveKeepsDecisions(s: State, work: Work)
    requires Inv(s) && !InCall(work)
    ensures Decisions(s.(tasks := s.tasks + [work]))
  {
    var after := s.(tasks := s.tasks + [work]);
    forall k | 0 <= k < |after.acks| ensures AckOk(after, k) {
      AckSurvives(s, after, k);
    }
  }

  /** A task that holds nothing arrives. */
  lemma ArriveKeepsInv(s: State, work: Work)
    requires Inv(s) && !InCall(work) && OriginOf(work).None? && CaptchaHeld(s, work).None? && !InSlot(work)
    requires WorkRefs(s, work)
    ensures Inv(s.(tasks := s.tasks + [work])) && Evolves(s, s.(tasks := s.tasks + [work]))
  {
    var after := s.(tasks := s.tasks + [work]);
    LedgerUntouched(s, after);
    assert after.tasks[..|after.tasks| - 1] == s.tasks;
    ArriveKeepsLocks(s, work);
    ArriveKeepsAttempts(s, work);
    ArriveKeepsDecisions(s, work);
  }

  lemma RecordKeepsLedger(s: State, record: Record)
    requires LedgerAgrees(s) && !Decided(record.status)
    ensures LedgerAgrees(WithRecord(s, record))
  {
    var after := WithRecord(s, record);
    assert after.records[..|after.records| - 1] == s.records;
    forall group: Option<Group> ensures RowAgrees(after, group) {
      assert RowAgrees(s, group);
    }
  }

  lemma RecordKeepsLocks(s: State, record: Record)
    requires Refs(s) && Exclusive(s)
    ensures Refs(WithRecord(s, record)) && Exclusive(WithRecord(s, record))
  {
    var after := WithRecord(s, record);
    forall t | 0 <= t < |after.tasks|
      ensures WorkRefs(after, after.tasks[t]) && CaptchaHeld(after, after.tasks[t]) == CaptchaHeld(s, s.tasks[t])
    {
      assert WorkRefs(s, s.tasks[t]);
    }
  }

  lemma RecordKeepsDecisions(s: State, record: Record)
    requires Refs(s) && Decisions(s) && !Decided(record.status)
    ensures Decisions(WithRecord(s, record))
  {
    var after := WithRecord(s, record);
    forall t | 0 <= t < |s.tasks| ensures InCall(s.tasks[t]) ==> s.tasks[t].record < |s.records| {
      assert WorkRefs(s, s.tasks[t]);
    }
    forall k | 0 <= k < |after.acks| ensures AckOk(after, k) {
      AckSurvives(s, after, k);
    }
  }

  /** A request is recorded, and counted, in one turn. */
  lemma RecordKeepsInv(s: State, record: Record)
    requires Inv(s) && !FlagKnown(s, record.flag) && !Decided(record.status)
    ensures Inv(WithRecord(s, record)) && Evolves(s, WithRecord(s, record))
  {
    var after := WithRecord(s, record);
    RecordKeepsLedger(s, record);
    RecordKeepsLocks(s, record);
    RecordKeepsDecisions(s, record);
    forall i | 0 <= i < |after.sessions| ensures AttemptsOk(after, i) {
      assert AttemptsOk(s, i);
    }
  }

  lemma SessionKeepsInv(s: State, session: Session)
    requires Inv(s) && session.approval < |s.records| && s.records[session.approval].user == session.user
    requires session.attempts < session.maxAttempts && !HasOpenSession(s, session.approval)
    ensures Inv(WithSession(s, session)) && Evolves(s, WithSession(s, session))
  {
    var after := WithSession(s, session);
    LedgerUntouched(s, after);
    forall t | 0 <= t < |after.tasks|
      ensures WorkRefs(after, after.tasks[t]) && CaptchaHeld(after, after.tasks[t]) == CaptchaHeld(s, s.tasks[t])
    {
      assert WorkRefs(s, s.tasks[t]);
    }
    forall k | 0 <= k < |after.acks| ensures AckOk(after, k) {
      AckSurvives(s, after, k);
    }
    forall i | 0 <= i < |after.sessions| ensures AttemptsOk(after, i) {
      if i < |s.sessions| {
        assert AttemptsOk(s, i);
      }
    }
  }

  /** An attempt that exhausts an open session is made by a task that will close it. */
  lemma AttemptKeepsLocks(s: State, i: nat)
    requires Refs(s) && Exclusive(s) && i < |s.sessions|
    ensures Refs(WithAttempt(s, i)) && Exclusive(WithAttempt(s, i))
  {
    var after := WithAttempt(s, i);
    forall u | 0 <= u < |after.tasks|
      ensures WorkRefs(after, after.tasks[u]) && CaptchaHeld(after, after.tasks[u]) == CaptchaHeld(s, s.tasks[u])
    {
      assert WorkRefs(s, s.tasks[u]);
    }
  }

  lemma AttemptKeepsDecisions(s: State, i: nat)
    requires Decisions(s) && i < |s.sessions|
    ensures Decisions(WithAttempt(s, i))
  {
    forall k | 0 <= k < |s.acks| ensures AckOk(WithAttempt(s, i), k) {
      AckSurvives(s, WithAttempt(s, i), k);
    }
  }

  lemma AttemptKeepsInv(s: State, i: nat, t: nat)
    requires Inv(s) && i < |s.sessions| && t < |s.tasks|
    requires s.sessions[i].attempts < s.sessions[i].maxAttempts
    requires s.sessions[i].open && s.sessions[i].attempts + 1 == s.sessions[i].maxAttempts ==> Closing(s.tasks[t], i)
    ensures Inv(WithAttempt(s, i)) && Evolves(s, WithAttempt(s, i))
  {
    var after := WithAttempt(s, i);
    LedgerUntouched(s, after);
    AttemptKeepsLocks(s, i);
    AttemptKeepsDecisions(s, i);
    forall j | 0 <= j < |after.sessions| ensures AttemptsOk(after, j) {
      assert AttemptsOk(s, j);
    }
  }

  lemma CloseIsUndecided(s: State, i: nat)
    requires i < |s.sessions|
    ensures Undecided(s, CloseSession(s, i))
  {
  }

  // ----- the turns -----

  /** A new request is recorded, and its task goes on under the approval lock it holds. */
  lemma RouteNewKeepsInv(s: State, t: nat, record: Record, next: Work)
    requires Inv(s) && t < |s.tasks| && s.tasks[t].Routing? && !FlagKnown(s, record.flag) && !Decided(record.status)
    requires next == Idle
             || (next.Calling? && next.record == |s.records| && next.cause.None? && record.status != Captcha)
    ensures var after := Become(WithRecord(s, record), t, next);
            Inv(after) && Evolves(s, after)
  {
    var created := WithRecord(s, record);
    RecordKeepsInv(s, record);
    assert Move(created, t, next) == Become(created, t, next);
    if next.Calling? {
      assert FlagFree(created, record.flag) by {
        forall u | 0 <= u < |created.tasks| && InCall(created.tasks[u])
          ensures created.records[created.tasks[u].record].flag != record.flag
        {
          assert WorkRefs(s, s.tasks[u]);
        }
      }
      CallKeepsInv(created, t, next);
    } else {
      MoveKeepsInv(created, t, next);
    }
    EvolvesTransitive(s, created, Move(created, t, next));
  }

  /** A request routed to a captcha starts another task. */
  lemma RouteToCaptchaKeepsInv(s: State, t: nat, record: Record)
    requires Inv(s) && t < |s.tasks| && s.tasks[t].Routing? && !FlagKnown(s, record.flag) && !Decided(record.status)
    ensures var moved := Become(WithRecord(s, record), t, Idle);
            var after := moved.(tasks := moved.tasks + [Issuing(|s.records|)]);
            Inv(after) && Evolves(s, after)
  {
    var moved := Become(WithRecord(s, record), t, Idle);
    RouteNewKeepsInv(s, t, record, Idle);
    ArriveKeepsInv(moved, Issuing(|s.records|));
    EvolvesTransitive(s, moved, moved.(tasks := moved.tasks + [Issuing(|s.records|)]));
  }

  lemma RouteKeepsInv(s: State, t: nat)
    requires Inv(s) && t < |s.tasks| && s.tasks[t].Routing? && FlagFree(s, s.tasks[t].flag)
    ensures Inv(RouteRequest(s, t)) && Evolves(s, RouteRequest(s, t))
  {
    var work := s.tasks[t];
    var status := if work.route == ToCaptcha then Captcha else Pending;
    var record := Record(work.flag, work.group, work.user, status, s.now + work.ttl);
    if FlagKnown(s, work.flag) {
      StopKeepsInv(s, t);
    } else if work.route == ToCaptcha {
      var moved := Become(WithRecord(s, record), t, Idle);
      assert RouteRequest(s, t) == moved.(tasks := moved.tasks + [Issuing(|s.records|)]);
      RouteToCaptchaKeepsInv(s, t, record);
    } else {
      assert RouteRequest(s, t) == Become(WithRecord(s, record), t, RouteNext(work.route, |s.records|));
      RouteNewKeepsInv(s, t, record, RouteNext(work.route, |s.records|));
    }
  }

  lemma EvolvesTransitive(a: State, b: State, c: State)
    requires Evolves(a, b) && Evolves(b, c)
    ensures Evolves(a, c)
  {
    forall r | 0 <= r < |a.records| ensures RecordEvolves(a.records[r], c.records[r]) {
      assert RecordEvolves(a.records[r], b.records[r]) && RecordEvolves(b.records[r], c.records[r]);
    }
    forall i | 0 <= i < |a.sessions| ensures SessionEvolves(a.sessions[i], c.sessions[i]) {
      assert SessionEvolves(a.sessions[i], b.sessions[i]) && SessionEvolves(b.sessions[i], c.sessions[i]);
    }
  }

  /** Rows change without a decision, then the task goes on. */
  lemma ChangeThenMove(s: State, changed: State, t: nat, work: Work)
    requires Inv(s) && Undecided(s, changed) && MayMove(changed, t, work)
    requires !InCall(work) && !s.tasks[t].Acknowledged?
    requires InSlot(work) && !InSlot(s.tasks[t]) ==> s.slots < CAPTCHA_EXPIRY_SWEEP_CONCURRENCY
    ensures Inv(Move(changed, t, work)) && Evolves(s, Move(changed, t, work))
  {
    UndecidedKeepsInv(s, changed);
    MoveKeepsInv(changed, t, work);
    EvolvesTransitive(s, changed, Move(changed, t, work));
  }

  lemma OperateKeepsInv(s: State, t: nat)
    requires Inv(s) && t < |s.tasks| && s.tasks[t].Operating?
    requires s.tasks[t].record < |s.records| ==> FlagFree(s, s.records[s.tasks[t].record].flag)
    ensures Inv(Operate(s, t)) && Evolves(s, Operate(s, t))
  {
    var work := s.tasks[t];
    if work.record >= |s.records| || s.records[work.record].status != Pending {
      StopKeepsInv(s, t);
    } else if s.records[work.record].expiresAt <= s.now {
      var changed := SetStatus(s, work.record, Expired);
      assert Move(changed, t, Idle) == Become(changed, t, Idle);
      ChangeThenMove(s, changed, t, Idle);
    } else {
      var call := Calling(work.record, work.approve, None);
      assert Move(s, t, call) == Become(s, t, call);
      CallKeepsInv(s, t, call);
    }
  }

  /** An open session without attempts left is being closed by a task that holds its captcha lock. */
  lemma ExhaustedIsLocked(s: State, i: nat)
    requires Inv(s) && i < |s.sessions| && Exhausted(s, i)
    ensures !CaptchaFree(s, s.sessions[i].approval)
  {
    assert AttemptsOk(s, i);
    var t :| 0 <= t < |s.tasks| && Closing(s.tasks[t], i);
    assert WorkRefs(s, s.tasks[t]);
    assert CaptchaHeld(s, s.tasks[t]) == Some(s.sessions[i].approval);
  }

  lemma BeginDecisionKeepsInv(s: State, t: nat, approve: bool, origin: Origin)
    requires Inv(s) && t < |s.tasks| && origin.session < |s.sessions|
    requires CaptchaFree(s, s.sessions[origin.session].approval)
    requires !InCall(s.tasks[t]) && OriginOf(s.tasks[t]).None? && !InSlot(s.tasks[t]) && !origin.expiry
    ensures Inv(BeginDecision(s, t, approve, origin)) && Evolves(s, BeginDecision(s, t, approve, origin))
  {
    var r := s.sessions[origin.session].approval;
    if s.records[r].status != Captcha {
      var closed := CloseSession(s, origin.session);
      CloseIsUndecided(s, origin.session);
      assert CaptchaFree(closed, r) by {
        forall u | 0 <= u < |s.tasks| ensures CaptchaHeld(closed, s.tasks[u]) == CaptchaHeld(s, s.tasks[u]) {
        }
      }
      assert Move(closed, t, Notifying(r, false)) == Become(closed, t, Notifying(r, false));
      ChangeThenMove(s, closed, t, Notifying(r, false));
    } else {
      assert Move(s, t, Deciding(approve, origin)) == Become(s, t, Deciding(approve, origin));
      MoveKeepsInv(s, t, Deciding(approve, origin));
    }
  }

  lemma AttemptCommutes(s: State, t: nat, approve: bool, i: nat)
    requires Refs(s) && t < |s.tasks| && i < |s.sessions|
    ensures Refs(WithAttempt(s, i))
    ensures WithAttempt(BeginDecision(s, t, approve, Origin(i, false)), i)
         == BeginDecision(WithAttempt(s, i), t, approve, Origin(i, false))
  {
    assert WithAttempt(BeginDecision(s, t, approve, Origin(i, false)), i).sessions
        == BeginDecision(WithAttempt(s, i), t, approve, Origin(i, false)).sessions;
  }

  /** The deciding attempt: the task commits to closing the session, and the attempt commutes with that. */
  lemma LastAnswerKeepsInv(s: State, t: nat, approve: bool)
    requires Inv(s) && t < |s.tasks| && s.tasks[t].Answering? && s.tasks[t].session < |s.sessions|
    requires var i := s.tasks[t].session;
             && s.sessions[i].open
             && s.sessions[i].attempts < s.sessions[i].maxAttempts
             && CaptchaFree(s, s.sessions[i].approval)
    ensures var i := s.tasks[t].session;
            var after := BeginDecision(WithAttempt(s, i), t, approve, Origin(i, false));
            Inv(after) && Evolves(s, after)
  {
    var i := s.tasks[t].session;
    var begun := BeginDecision(s, t, approve, Origin(i, false));
    BeginDecisionKeepsInv(s, t, approve, Origin(i, false));
    AttemptKeepsInv(begun, i, t);
    EvolvesTransitive(s, begun, WithAttempt(begun, i));
    AttemptCommutes(s, t, approve, i);
  }

  lemma AnswerKeepsInv(s: State, t: nat)
    requires Inv(s) && t < |s.tasks| && s.tasks[t].Answering?
    requires s.tasks[t].session < |s.sessions| ==> CaptchaFree(s, s.sessions[s.tasks[t].session].approval)
    ensures Inv(Answer(s, t)) && Evolves(s, Answer(s, t))
  {
    var i := s.tasks[t].session;
    if i >= |s.sessions| || !s.sessions[i].open {
      StopKeepsInv(s, t);
    } else if s.now > s.sessions[i].expiresAt {
      BeginDecisionKeepsInv(s, t, false, Origin(i, false));
    } else {
      assert s.sessions[i].attempts < s.sessions[i].maxAttempts by {
        assert AttemptsOk(s, i);
        if Exhausted(s, i) {
          ExhaustedIsLocked(s, i);
        }
      }
      if s.tasks[t].correct {
        LastAnswerKeepsInv(s, t, true);
      } else if s.sessions[i].maxAttempts <= s.sessions[i].attempts + 1 {
        LastAnswerKeepsInv(s, t, false);
      } else {
        WrongAnswerKeepsInv(s, t);
      }
    }
  }

  lemma WrongAnswerKeepsInv(s: State, t: nat)
    requires Inv(s) && t < |s.tasks| && s.tasks[t].Answering? && s.tasks[t].session < |s.sessions|
    requires var i := s.tasks[t].session;
             s.sessions[i].attempts + 1 < s.sessions[i].maxAttempts && CaptchaFree(s, s.sessions[i].approval)
    ensures var i := s.tasks[t].session;
            var after := Become(WithAttempt(s, i), t, Notifying(s.sessions[i].approval, false));
            Inv(after) && Evolves(s, after)
  {
    var i := s.tasks[t].session;
    var notify := Notifying(s.sessions[i].approval, false);
    var moved := Become(s, t, notify);
    assert Move(s, t, notify) == moved;
    MoveKeepsInv(s, t, notify);
    AttemptKeepsInv(moved, i, t);
    EvolvesTransitive(s, moved, WithAttempt(moved, i));
    assert WithAttempt(moved, i) == Become(WithAttempt(s, i), t, notify);
  }

  lemma IssueKeepsInv(s: State, t: nat)
    requires Inv(s) && t < |s.tasks| && s.tasks[t].Issuing? && CaptchaFree(s, s.tasks[t].record)
    ensures Inv(Issue(s, t)) && Evolves(s, Issue(s, t))
  {
    var r := s.tasks[t].record;
    var next := if r >= |s.records| || s.records[r].status != Captcha then Idle else Choosing(r);
    assert Move(s, t, next) == Become(s, t, next);
    MoveKeepsInv(s, t, next);
  }

  /** A session is added where none is open, and its task goes on to deliver it. */
  lemma AddSessionKeepsInv(c: State, t: nat, session: Session)
    requires Inv(c) && t < |c.tasks| && c.tasks[t].Choosing? && session.approval == c.tasks[t].record
    requires c.records[session.approval].user == session.user
    requires session.attempts < session.maxAttempts && !HasOpenSession(c, session.approval)
    ensures var next := if session.open then Sending(session.approval, |c.sessions|) else Idle;
            var after := Become(WithSession(c, session), t, next);
            Inv(after) && Evolves(c, after)
  {
    assert WorkRefs(c, c.tasks[t]);
    var added := WithSession(c, session);
    SessionKeepsInv(c, session);
    var next := if session.open then Sending(session.approval, |c.sessions|) else Idle;
    assert Move(added, t, next) == Become(added, t, next);
    MoveKeepsInv(added, t, next);
    EvolvesTransitive(c, added, Move(added, t, next));
  }

  lemma LimitReachedKeepsInv(c: State, t: nat, r: nat)
    requires Inv(c) && t < |c.tasks| && c.tasks[t] == Choosing(r) && r < |c.records|
    ensures var after := Become(MarkApprovalPending(c, r), t, Notifying(r, false));
            Inv(after) && Evolves(c, after)
  {
    var marked := MarkApprovalPending(c, r);
    assert Undecided(c, marked);
    assert Move(marked, t, Notifying(r, false)) == Become(marked, t, Notifying(r, false));
    ChangeThenMove(c, marked, t, Notifying(r, false));
  }

  lemma ChooseKeepsInv(s: State, t: nat, env: Env)
    requires Inv(s) && t < |s.tasks| && s.tasks[t].Choosing? && env.maxAttempts > 0
    ensures Inv(Choose(s, t, env)) && Evolves(s, Choose(s, t, env))
  {
    var r := s.tasks[t].record;
    assert WorkRefs(s, s.tasks[t]);
    if s.records[r].status != Captcha || s.records[r].expiresAt < s.now || HasOpenSession(s, r) {
      StopKeepsInv(s, t);
    } else {
      var user := s.records[r].user;
      var c := Reconcile(s, user);
      ReconcileIsUndecided(s, user);
      UndecidedKeepsInv(s, c);
      assert c.records[r].user == user by {
        assert RecordEvolves(s.records[r], c.records[r]);
      }
      if |Active(c, user)| >= MAX_ACTIVE_CAPTCHA_SESSIONS_PER_USER {
        LimitReachedKeepsInv(c, t, r);
      } else if exists i | i in Active(c, user) :: c.sessions[i].code == env.code {
        StopKeepsInv(c, t);
      } else {
        ClosedStayClosed(s, c, r);
        AddSessionKeepsInv(c, t, NewSession(c, r, env));
      }
      EvolvesTransitive(s, c, Choose(s, t, env));
    }
  }

  lemma ClosedStayClosed(s: State, c: State, r: nat)
    requires Undecided(s, c) && !HasOpenSession(s, r)
    ensures !HasOpenSession(c, r)
  {
    forall i | 0 <= i < |c.sessions| && c.sessions[i].approval == r ensures !c.sessions[i].open {
      assert SessionEvolves(s.sessions[i], c.sessions[i]);
    }
  }

  lemma DeliverKeepsInv(s: State, t: nat, env: Env)
    requires Inv(s) && t < |s.tasks| && s.tasks[t].Sending?
    ensures Inv(Deliver(s, t, env)) && Evolves(s, Deliver(s, t, env))
  {
    var work := s.tasks[t];
    assert WorkRefs(s, work);
    if env.ok {
      StopKeepsInv(s, t);
    } else {
      var closed := CloseSession(s, work.session);
      var changed := MarkApprovalPending(closed, work.record);
      CloseIsUndecided(s, work.session);
      assert Undecided(closed, changed);
      UndecidedTransitive(s, closed, changed);
      assert Move(changed, t, Idle) == Become(changed, t, Idle);
      ChangeThenMove(s, changed, t, Idle);
    }
  }

  lemma DecideKeepsInv(s: State, t: nat)
    requires Inv(s) && t < |s.tasks| && s.tasks[t].Deciding?
    requires FlagFree(s, s.records[s.sessions[s.tasks[t].origin.session].approval].flag)
    ensures Inv(Decide(s, t)) && Evolves(s, Decide(s, t))
  {
    var work := s.tasks[t];
    assert WorkRefs(s, work);
    var r := s.sessions[work.origin.session].approval;
    if s.records[r].status == Captcha {
      var call := Calling(r, work.approve, Some(work.origin));
      assert Move(s, t, call) == Become(s, t, call);
      CallKeepsInv(s, t, call);
    } else {
      assert Move(s, t, Returning(work.origin)) == Become(s, t, Returning(work.origin));
      MoveKeepsInv(s, t, Returning(work.origin));
    }
  }

  lemma ReturnKeepsInv(s: State, t: nat)
    requires Inv(s) && t < |s.tasks| && s.tasks[t].Returning?
    ensures Inv(Return(s, t)) && Evolves(s, Return(s, t))
  {
    var origin := s.tasks[t].origin;
    assert WorkRefs(s, s.tasks[t]);
    var closed := CloseSession(s, origin.session);
    var next := Notifying(s.sessions[origin.session].approval, origin.expiry);
    CloseIsUndecided(s, origin.session);
    assert Move(closed, t, next) == Become(closed, t, next);
    ChangeThenMove(s, closed, t, next);
  }

  lemma NotifyKeepsInv(s: State, t: nat)
    requires Inv(s) && t < |s.tasks| && s.tasks[t].Notifying?
    ensures Inv(Notify(s, t)) && Evolves(s, Notify(s, t))
  {
    if s.tasks[t].expiry {
      SlotsTakenAtLeast(s.tasks, t);
    }
    assert Move(s, t, Idle) == Notify(s, t);
    MoveKeepsInv(s, t, Idle);
  }

  /** The expiry of a session whose request is already decided only closes it. */
  lemma LateExpiryKeepsInv(s: State, t: nat, i: nat, r: nat)
    requires Inv(s) && t < |s.tasks| && s.tasks[t] == Idle && i < |s.sessions| && r == s.sessions[i].approval
    requires CaptchaFree(s, r) && s.records[r].status != Captcha && s.slots < CAPTCHA_EXPIRY_SWEEP_CONCURRENCY
    ensures var after := Move(CloseSession(s, i), t, Notifying(r, true));
            Inv(after) && Evolves(s, after)
  {
    var closed := CloseSession(s, i);
    CloseIsUndecided(s, i);
    assert CaptchaFree(closed, r) by {
      forall u | 0 <= u < |s.tasks| ensures CaptchaHeld(closed, s.tasks[u]) == CaptchaHeld(s, s.tasks[u]) {
      }
    }
    ChangeThenMove(s, closed, t, Notifying(r, true));
  }

  lemma DueExpiryKeepsInv(s: State, t: nat, i: nat)
    requires Inv(s) && t < |s.tasks| && s.tasks[t] == Idle && i < |s.sessions|
    requires CaptchaFree(s, s.sessions[i].approval) && s.slots < CAPTCHA_EXPIRY_SWEEP_CONCURRENCY
    ensures var after := Move(s, t, Deciding(false, Origin(i, true)));
            Inv(after) && Evolves(s, after)
  {
    MoveKeepsInv(s, t, Deciding(false, Origin(i, true)));
  }

  /** The worker's turn is the move of a task that has just arrived. */
  lemma BeginExpiryMoves(s: State, i: nat)
    requires Refs(s) && i < |s.sessions|
    ensures var arrived, r := s.(tasks := s.tasks + [Idle]), s.sessions[i].approval;
            BeginExpiry(s, i)
            == if s.records[r].status != Captcha then Move(CloseSession(arrived, i), |s.tasks|, Notifying(r, true))
               else Move(arrived, |s.tasks|, Deciding(false, Origin(i, true)))
  {
  }

  lemma BeginExpiryKeepsInv(s: State, i: nat)
    requires Inv(s) && Enabled(s, StartExpiry(i))
    ensures Inv(BeginExpiry(s, i)) && Evolves(s, BeginExpiry(s, i))
  {
    var arrived := s.(tasks := s.tasks + [Idle]);
    var t := |s.tasks|;
    ArriveKeepsInv(s, Idle);
    var r := s.sessions[i].approval;
    assert CaptchaFree(arrived, r);
    if s.records[r].status != Captcha {
      LateExpiryKeepsInv(arrived, t, i, r);
    } else {
      DueExpiryKeepsInv(arrived, t, i);
    }
    BeginExpiryMoves(s, i);
    EvolvesTransitive(s, arrived, BeginExpiry(s, i));
  }

  lemma TickKeepsInv(s: State, later: nat)
    requires Inv(s) && s.now <= later
    ensures Inv(s.(now := later)) && Evolves(s, s.(now := later))
  {
    var after := s.(now := later);
    LedgerUntouched(s, after);
    forall k | 0 <= k < |after.acks| ensures AckOk(after, k) {
      AckSurvives(s, after, k);
    }
    forall t | 0 <= t < |s.tasks| ensures CaptchaHeld(after, s.tasks[t]) == CaptchaHeld(s, s.tasks[t]) {
    }
    forall i | 0 <= i < |after.sessions| ensures AttemptsOk(after, i) {
      assert AttemptsOk(s, i);
    }
  }

  lemma TurnKeepsInv(s: State, t: nat, env: Env)
    requires Inv(s) && Enabled(s, Turn(t, env))
    ensures Inv(RunTurn(s, t, env)) && Evolves(s, RunTurn(s, t, env))
  {
    match s.tasks[t]
    case Idle =>
    case Routing(_, _, _, _, _) => RouteKeepsInv(s, t);
    case Operating(_, _) => OperateKeepsInv(s, t);
    case Answering(_, _) => AnswerKeepsInv(s, t);
    case Issuing(_) => IssueKeepsInv(s, t);
    case Choosing(_) => ChooseKeepsInv(s, t, env);
    case Sending(_, _) => DeliverKeepsInv(s, t, env);
    case Deciding(_, _) => DecideKeepsInv(s, t);
    case Returning(_) => ReturnKeepsInv(s, t);
    case Notifying(_, _) => NotifyKeepsInv(s, t);
    case Calling(_, _, _) =>
      if env.ok {
        AcknowledgeKeepsInv(s, t, env);
      } else {
        FailureKeepsInv(s, t, env);
      }
    case Acknowledged(_, _, _) => ConcludeKeepsInv(s, t);
  }

  /** Every step, of whichever task, keeps the invariant and only moves rows forward. */
  lemma StepKeepsInv(s: State, step: Step)
    requires Inv(s) && Enabled(s, step)
    ensures Inv(Next(s, step)) && Evolves(s, Next(s, step))
  {
    match step
    case Tick(later) => TickKeepsInv(s, later);
    case Arrive(work) => ArriveKeepsInv(s, work);
    case Hourly =>
      assert Undecided(s, ExpireOldPending(s));
      UndecidedKeepsInv(s, ExpireOldPending(s));
    case Message(user) =>
      ReconcileIsUndecided(s, user);
      UndecidedKeepsInv(s, Reconcile(s, user));
    case StartExpiry(i) => BeginExpiryKeepsInv(s, i);
    case Turn(t, env) => TurnKeepsInv(s, t, env);
  }
}
