/** How the decisions that are started end, whether the provider acknowledges them or fails. */
module AdmissionDecisions {
  import opened Prelude
  import opened AdmissionState
  import opened Admission
  import opened AdmissionProofs
  import opened AdmissionRuns
  import opened AdmissionCauses
  import opened AdmissionExpiry

  /** A turn in which the provider acknowledges, or fails. */
  function Says(ok: bool): Env {
    Env(ok, 0, 1, 0)
  }

  lemma OneTurn(s: State, t: nat, env: Env)
    requires Enabled(s, Turn(t, env))
    ensures Runs(s, [Turn(t, env)], RunTurn(s, t, env))
  {
    assert [Turn(t, env)][1..] == [] && Runs(RunTurn(s, t, env), [], RunTurn(s, t, env));
  }

  lemma ThenRuns(s: State, t: nat, env: Env, steps: seq<Step>, after: State)
    requires Enabled(s, Turn(t, env)) && Runs(RunTurn(s, t, env), steps, after)
    ensures Runs(s, [Turn(t, env)] + steps, after)
  {
    OneTurn(s, t, env);
    RunsChain(s, [Turn(t, env)], RunTurn(s, t, env), steps, after);
  }

  // ----- the provider call -----

  /** What a provider call leaves: the decision with its acknowledgement, or an undecided request at the operators. */
  ghost predicate CallOver(s: State, r: nat, approve: bool, ok: bool, after: State)
    requires r < |s.records|
  {
    var record := s.records[r];
    && after == s.(records := after.records, acks := after.acks, ledger := after.ledger, tasks := after.tasks)
    && if ok then
         && after.records == s.records[r := record.(status := if approve then Approved else Rejected)]
         && after.acks == s.acks + [Ack(r, approve)]
         && after.ledger == Bump(s.ledger, record.group, if approve then Passed else Refused)
       else
         && after.records == s.records[r := record.(status := if record.status == Expired then Expired else Pending)]
         && after.acks == s.acks && after.ledger == s.ledger
  }

  lemma ConcludesCall(s: State, t: nat)
    requires Refs(s) && t < |s.tasks| && s.tasks[t].Calling? && Refs(Respond(s, t, Says(true)))
    ensures var work, after := s.tasks[t], Conclude(Respond(s, t, Says(true)), t);
            && work.record < |s.records| && CallOver(s, work.record, work.approve, true, after)
            && after.tasks == s.tasks[t := AfterCall(work.cause)]
  {
    assert WorkRefs(s, s.tasks[t]);
  }

  lemma AcknowledgedEnds(s: State, t: nat)
    requires Inv(s) && t < |s.tasks| && s.tasks[t].Calling?
    ensures var work := s.tasks[t];
            && work.record < |s.records|
            && exists after :: Runs(s, [Turn(t, Says(true)), Turn(t, Says(true))], after) && Inv(after)
                            && CallOver(s, work.record, work.approve, true, after)
                            && after.tasks == s.tasks[t := AfterCall(work.cause)]
  {
    var told := Respond(s, t, Says(true));
    StepKeepsInv(s, Turn(t, Says(true)));
    StepKeepsInv(told, Turn(t, Says(true)));
    ConcludesCall(s, t);
    RunsTwoSteps(s, Turn(t, Says(true)), Turn(t, Says(true)));
  }

  lemma FailedEnds(s: State, t: nat)
    requires Inv(s) && t < |s.tasks| && s.tasks[t].Calling?
    ensures var work := s.tasks[t];
            && work.record < |s.records|
            && exists after :: Runs(s, [Turn(t, Says(false))], after) && Inv(after)
                            && CallOver(s, work.record, work.approve, false, after)
                            && after.tasks == s.tasks[t := AfterCall(work.cause)]
  {
    var work := s.tasks[t];
    assert WorkRefs(s, work);
    StepKeepsInv(s, Turn(t, Says(false)));
    OneTurn(s, t, Says(false));
    var after := Respond(s, t, Says(false));
    assert after.records == s.records[work.record := after.records[work.record]];
    assert CallOver(s, work.record, work.approve, false, after);
  }

  /** Every call that is out can be answered, and that ends it. */
  lemma CallEnds(s: State, t: nat, ok: bool) returns (steps: seq<Step>, after: State)
    requires Inv(s) && t < |s.tasks| && s.tasks[t].Calling?
    ensures s.tasks[t].record < |s.records| && Runs(s, steps, after) && Inv(after)
    ensures CallOver(s, s.tasks[t].record, s.tasks[t].approve, ok, after)
    ensures after.tasks == s.tasks[t := if s.tasks[t].cause.Some? then Returning(s.tasks[t].cause.value) else Idle]
  {
    if ok {
      AcknowledgedEnds(s, t);
      steps := [Turn(t, Says(true)), Turn(t, Says(true))];
      after :| Runs(s, steps, after) && Inv(after)
               && CallOver(s, s.tasks[t].record, s.tasks[t].approve, true, after)
               && after.tasks == s.tasks[t := AfterCall(s.tasks[t].cause)];
    } else {
      FailedEnds(s, t);
      steps := [Turn(t, Says(false))];
      after :| Runs(s, steps, after) && Inv(after)
               && CallOver(s, s.tasks[t].record, s.tasks[t].approve, false, after)
               && after.tasks == s.tasks[t := AfterCall(s.tasks[t].cause)];
    }
  }

  // ----- the end of a task that holds a captcha lock -----

  /** A notice, delivered or not, gives the lock back, and the slot of an expiry. */
  lemma NotifyEnds(s: State, t: nat)
    requires Inv(s) && t < |s.tasks| && s.tasks[t].Notifying?
    ensures s.tasks[t].expiry ==> s.slots > 0
    ensures var after := s.(tasks := s.tasks[t := Idle], slots := if s.tasks[t].expiry then s.slots - 1 else s.slots);
            Runs(s, [Turn(t, Says(true))], after) && Inv(after)
  {
    if s.tasks[t].expiry {
      SlotsTakenAtLeast(s.tasks, t);
    }
    StepKeepsInv(s, Turn(t, Says(true)));
    OneTurn(s, t, Says(true));
  }

  /** The session is closed in any case. */
  lemma ReturnEnds(s: State, t: nat)
    requires Inv(s) && t < |s.tasks| && s.tasks[t].Returning?
    ensures var i, expiry := s.tasks[t].origin.session, s.tasks[t].origin.expiry;
            && i < |s.sessions| && (expiry ==> s.slots > 0)
            && var after := s.(sessions := s.sessions[i := s.sessions[i].(open := false)],
                               tasks := s.tasks[t := Idle], slots := if expiry then s.slots - 1 else s.slots);
               Runs(s, [Turn(t, Says(true)), Turn(t, Says(true))], after) && Inv(after)
  {
    assert WorkRefs(s, s.tasks[t]);
    var closed := Return(s, t);
    StepKeepsInv(s, Turn(t, Says(true)));
    NotifyEnds(closed, t);
    RunsTwoSteps(s, Turn(t, Says(true)), Turn(t, Says(true)));
    assert closed.tasks[t := Idle] == s.tasks[t := Idle];
  }

  // ----- a captcha decision -----

  /** While a captcha decision holds its lock, nobody is calling the provider about its request. */
  lemma ApprovalLockIsFree(s: State, t: nat, r: nat)
    requires Inv(s) && t < |s.tasks| && CaptchaHeld(s, s.tasks[t]) == Some(r) && !InCall(s.tasks[t])
    requires r < |s.records| && s.records[r].status == Captcha
    ensures FlagFree(s, s.records[r].flag)
  {
    forall u | 0 <= u < |s.tasks| && InCall(s.tasks[u]) && s.tasks[u].record < |s.records|
      ensures s.records[s.tasks[u].record].flag != s.records[r].flag
    {
      assert WorkRefs(s, s.tasks[u]);
      assert s.tasks[u].record == r ==> CaptchaHeld(s, s.tasks[u]) == Some(r);
    }
  }

  /** Whatever its verdict, a decision about a request that still awaits it calls the provider with that verdict. */
  lemma DecisionCalls(s: State, t: nat)
    requires Inv(s) && t < |s.tasks| && s.tasks[t].Deciding? && Awaited(s, s.tasks[t].origin.session)
    ensures var work, r := s.tasks[t], s.sessions[s.tasks[t].origin.session].approval;
            var after := s.(tasks := s.tasks[t := Calling(r, work.approve, Some(work.origin))]);
            Enabled(s, Turn(t, Says(true))) && RunTurn(s, t, Says(true)) == after && Inv(after)
  {
    assert WorkRefs(s, s.tasks[t]);
    ApprovalLockIsFree(s, t, s.sessions[s.tasks[t].origin.session].approval);
    StepKeepsInv(s, Turn(t, Says(true)));
  }

  /** The decision in full: the call with its outcome, the session closed, the locks and the slot given back. */
  ghost predicate DecisionOver(s: State, t: nat, approve: bool, origin: Origin, ok: bool, after: State)
    requires t < |s.tasks| && origin.session < |s.sessions| && Awaited(s, origin.session)
  {
    var i, r := origin.session, s.sessions[origin.session].approval;
    && CallOver(s, r, approve, ok, after.(sessions := s.sessions, slots := s.slots))
    && after.sessions == s.sessions[i := s.sessions[i].(open := false)]
    && after.tasks == s.tasks[t := Idle]
    && s.slots == after.slots + if origin.expiry then 1 else 0
  }

  /** The call of a captcha decision, and what follows it. */
  lemma DecisionCallEnds(s: State, t: nat, origin: Origin, ok: bool) returns (steps: seq<Step>, after: State)
    requires Inv(s) && t < |s.tasks| && s.tasks[t].Calling? && s.tasks[t].cause == Some(origin)
    requires origin.session < |s.sessions| && Awaited(s, origin.session)
    ensures Runs(s, steps, after) && Inv(after) && DecisionOver(s, t, s.tasks[t].approve, origin, ok, after)
  {
    assert WorkRefs(s, s.tasks[t]);
    var first, over := CallEnds(s, t, ok);
    ReturnEnds(over, t);
    var last := [Turn(t, Says(true)), Turn(t, Says(true))];
    after := over.(sessions := s.sessions[origin.session := s.sessions[origin.session].(open := false)],
                   tasks := over.tasks[t := Idle], slots := if origin.expiry then over.slots - 1 else over.slots);
    RunsChain(s, first, over, last, after);
    steps := first + last;
    assert after.tasks == s.tasks[t := Idle];
  }

  /** Every captcha decision can be carried through; acknowledged it decides its request, and otherwise returns it. */
  lemma DecisionEnds(s: State, t: nat, ok: bool) returns (steps: seq<Step>, after: State)
    requires Inv(s) && t < |s.tasks| && s.tasks[t].Deciding? && Awaited(s, s.tasks[t].origin.session)
    ensures Runs(s, steps, after) && Inv(after)
    ensures DecisionOver(s, t, s.tasks[t].approve, s.tasks[t].origin, ok, after)
  {
    DecisionCalls(s, t);
    var rest, last := DecisionCallEnds(RunTurn(s, t, Says(true)), t, s.tasks[t].origin, ok);
    assert last.tasks == s.tasks[t := Idle];
    ThenRuns(s, t, Says(true), rest, last);
    steps, after := [Turn(t, Says(true))] + rest, last;
  }

  // ----- answers and expiries -----

  lemma DecisiveAnswerBegins(s: State, t: nat)
    requires Refs(s) && t < |s.tasks| && s.tasks[t].Answering? && s.tasks[t].session < |s.sessions|
    requires var i := s.tasks[t].session;
             && s.sessions[i].open && s.now <= s.sessions[i].expiresAt && Awaited(s, i)
             && (s.tasks[t].correct || s.sessions[i].attempts + 1 >= s.sessions[i].maxAttempts)
    ensures var i := s.tasks[t].session;
            Answer(s, t) == Become(WithAttempt(s, i), t, Deciding(s.tasks[t].correct, Origin(i, false)))
  {
  }

  /** An answer that decides a request that awaits it is a decision with one attempt more. */
  lemma DecisiveAnswerEnds(s: State, t: nat, ok: bool) returns (steps: seq<Step>, after: State)
    requires Inv(s) && t < |s.tasks| && s.tasks[t].Answering? && s.tasks[t].session < |s.sessions|
    requires var i := s.tasks[t].session;
             && s.sessions[i].open && s.now <= s.sessions[i].expiresAt && Awaited(s, i)
             && CaptchaFree(s, s.sessions[i].approval)
             && (s.tasks[t].correct || s.sessions[i].attempts + 1 >= s.sessions[i].maxAttempts)
    ensures var i := s.tasks[t].session;
            && Runs(s, steps, after) && Inv(after)
            && DecisionOver(WithAttempt(s, i), t, s.tasks[t].correct, Origin(i, false), ok, after)
  {
    var i := s.tasks[t].session;
    var begun := RunTurn(s, t, Says(true));
    StepKeepsInv(s, Turn(t, Says(true)));
    DecisiveAnswerBegins(s, t);
    var rest, last := DecisionEnds(begun, t, ok);
    assert last.tasks == s.tasks[t := Idle];
    ThenRuns(s, t, Says(true), rest, last);
    steps, after := [Turn(t, Says(true))] + rest, last;
  }

  lemma StaleAnswerCloses(s: State, t: nat)
    requires Refs(s) && t < |s.tasks| && s.tasks[t].Answering? && s.tasks[t].session < |s.sessions|
    requires var i := s.tasks[t].session;
             && s.sessions[i].open && !Awaited(s, i)
             && (s.now > s.sessions[i].expiresAt || s.tasks[t].correct
                 || s.sessions[i].attempts + 1 >= s.sessions[i].maxAttempts)
    ensures var i, session := s.tasks[t].session, s.sessions[s.tasks[t].session];
            var spent := if s.now > session.expiresAt then session.attempts else session.attempts + 1;
            Answer(s, t) == s.(sessions := s.sessions[i := session.(attempts := spent, open := false)],
                               tasks := s.tasks[t := Notifying(session.approval, false)])
  {
    var i := s.tasks[t].session;
    assert Answer(s, t).sessions == s.sessions[i := Answer(s, t).sessions[i]];
  }

  /** An answer that would decide a request that no longer awaits it closes the session, and does nothing else. */
  lemma StaleAnswerEnds(s: State, t: nat) returns (steps: seq<Step>, after: State)
    requires Inv(s) && t < |s.tasks| && s.tasks[t].Answering? && s.tasks[t].session < |s.sessions|
    requires var i := s.tasks[t].session;
             && s.sessions[i].open && !Awaited(s, i) && CaptchaFree(s, s.sessions[i].approval)
             && (s.now > s.sessions[i].expiresAt || s.tasks[t].correct
                 || s.sessions[i].attempts + 1 >= s.sessions[i].maxAttempts)
    ensures Runs(s, steps, after) && Inv(after)
    ensures var i, session := s.tasks[t].session, s.sessions[s.tasks[t].session];
            var spent := if s.now > session.expiresAt then session.attempts else session.attempts + 1;
            after == s.(sessions := s.sessions[i := session.(attempts := spent, open := false)],
                        tasks := s.tasks[t := Idle])
  {
    StaleAnswerCloses(s, t);
    StepKeepsInv(s, Turn(t, Says(true)));
    var told := RunTurn(s, t, Says(true));
    NotifyEnds(told, t);
    after := told.(tasks := told.tasks[t := Idle]);
    ThenRuns(s, t, Says(true), [Turn(t, Says(true))], after);
    steps := [Turn(t, Says(true))] + [Turn(t, Says(true))];
    assert told.tasks[t := Idle] == s.tasks[t := Idle];
  }

  /** An answer that comes too late refuses the request. */
  lemma LateAnswerEnds(s: State, t: nat, ok: bool) returns (steps: seq<Step>, after: State)
    requires Inv(s) && t < |s.tasks| && s.tasks[t].Answering? && s.tasks[t].session < |s.sessions|
    requires var i := s.tasks[t].session;
             && s.sessions[i].open && s.now > s.sessions[i].expiresAt && Awaited(s, i)
             && CaptchaFree(s, s.sessions[i].approval)
    ensures Runs(s, steps, after) && Inv(after)
    ensures DecisionOver(s, t, false, Origin(s.tasks[t].session, false), ok, after)
  {
    var i := s.tasks[t].session;
    var begun := RunTurn(s, t, Says(true));
    StepKeepsInv(s, Turn(t, Says(true)));
    assert begun == Become(s, t, Deciding(false, Origin(i, false)));
    var rest, last := DecisionEnds(begun, t, ok);
    assert last.tasks == s.tasks[t := Idle];
    ThenRuns(s, t, Says(true), rest, last);
    steps, after := [Turn(t, Says(true))] + rest, last;
  }

  /** An expiry that a sweep begins refuses the request, and gives its slot back. */
  lemma ExpiryEnds(s: State, i: nat, ok: bool) returns (steps: seq<Step>, after: State)
    requires Inv(s) && Enabled(s, StartExpiry(i)) && Awaited(s, i)
    ensures Runs(s, steps, after) && Inv(after) && after.slots == s.slots
    ensures var arrived := s.(tasks := s.tasks + [Idle], slots := s.slots + 1);
            DecisionOver(arrived, |s.tasks|, false, Origin(i, true), ok, after)
  {
    var t, step := |s.tasks|, StartExpiry(i);
    var begun := BeginExpiry(s, i);
    StepKeepsInv(s, step);
    assert begun.tasks[t] == Deciding(false, Origin(i, true));
    var rest, last := DecisionEnds(begun, t, ok);
    assert begun.tasks[t := Idle] == s.tasks + [Idle];
    assert ([step] + rest)[1..] == rest;
    steps, after := [step] + rest, last;
  }

  // ----- causes -----

  /** Some run in which the provider acknowledges this decision and the request ends with it. */
  ghost predicate IsCarriedOut(s: State, r: nat, approve: bool) {
    exists steps, after ::
      Runs(s, steps, after) && r < |after.records|
      && after.records[r].status == (if approve then Approved else Rejected) && Ack(r, approve) in after.acks
  }

  lemma DecisionIsCarriedOut(s: State, t: nat)
    requires Inv(s) && t < |s.tasks| && s.tasks[t].Deciding? && Awaited(s, s.tasks[t].origin.session)
    ensures IsCarriedOut(s, s.sessions[s.tasks[t].origin.session].approval, s.tasks[t].approve)
  {
    var steps, after := DecisionEnds(s, t, true);
    assert after.acks[|s.acks|] == Ack(s.sessions[s.tasks[t].origin.session].approval, s.tasks[t].approve);
  }

  lemma CallIsCarriedOut(s: State, t: nat)
    requires Inv(s) && t < |s.tasks| && s.tasks[t].Calling?
    ensures IsCarriedOut(s, s.tasks[t].record, s.tasks[t].approve)
  {
    var steps, after := CallEnds(s, t, true);
    assert after.acks[|s.acks|] == Ack(s.tasks[t].record, s.tasks[t].approve);
  }

  /** Every step that is entitled to a decision starts one that the provider's acknowledgement makes final. */
  lemma CauseDecides(s: State, step: Step, r: nat, approve: bool)
    requires Inv(s) && Enabled(s, step) && Justifies(s, step, r, approve)
    ensures IsCarriedOut(Next(s, step), r, approve)
  {
    var next := Next(s, step);
    StepKeepsInv(s, step);
    match step
    case StartExpiry(i) => DecisionIsCarriedOut(next, |s.tasks|);
    case Turn(t, _) =>
      if s.tasks[t].Answering? {
        DecisionIsCarriedOut(next, t);
      } else {
        CallIsCarriedOut(next, t);
      }
    case _ =>
  }
}
