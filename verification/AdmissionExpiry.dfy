/** What becomes of a request that has expired. */
module AdmissionExpiry {
  import opened Prelude
  import opened AdmissionState
  import opened Admission
  import opened AdmissionProofs
  import opened AdmissionRuns
  import opened AdmissionCauses

  /** A task that is calling the provider about a request, or has its acknowledgement. */
  predicate Calls(work: Work, r: nat, approve: bool) {
    InCall(work) && work.record == r && work.approve == approve
  }

  ghost predicate InFlight(s: State, r: nat, approve: bool) {
    exists t :: 0 <= t < |s.tasks| && Calls(s.tasks[t], r, approve)
  }

  // ----- without a call in flight -----

  /** The request is over, and not with this decision, and nobody is calling the provider to change that. */
  ghost predicate Rests(s: State, r: nat, approve: bool) {
    && r < |s.records|
    && s.records[r].status in {Expired, DecisionStatus(!approve)}
    && !InFlight(s, r, approve)
  }

  /** A turn of any other task leaves a request that is over as it is. */
  lemma OtherTurnsKeepRecord(s: State, t: nat, env: Env, r: nat)
    requires Refs(s) && t < |s.tasks| && !s.tasks[t].Acknowledged? && !s.tasks[t].Choosing?
    requires r < |s.records| && s.records[r].status !in {Pending, Captcha}
    ensures r < |RunTurn(s, t, env).records| && RunTurn(s, t, env).records[r] == s.records[r]
  {
  }

  lemma ReconcileKeepsRecord(s: State, user: User, r: nat)
    requires r < |s.records| && s.records[r].status !in {Pending, Captcha}
    ensures |Reconcile(s, user).records| == |s.records| && Reconcile(s, user).records[r] == s.records[r]
  {
  }

  lemma ChooseKeepsRecord(s: State, t: nat, env: Env, r: nat)
    requires Inv(s) && t < |s.tasks| && s.tasks[t].Choosing?
    requires r < |s.records| && s.records[r].status !in {Pending, Captcha}
    ensures r < |Choose(s, t, env).records| && Choose(s, t, env).records[r] == s.records[r]
  {
    assert WorkRefs(s, s.tasks[t]);
    ReconcileKeepsRecord(s, s.records[s.tasks[t].record].user, r);
  }

  lemma TurnKeepsOutcome(s: State, t: nat, env: Env, r: nat, approve: bool)
    requires Inv(s) && Enabled(s, Turn(t, env)) && Rests(s, r, approve)
    ensures r < |RunTurn(s, t, env).records|
    ensures RunTurn(s, t, env).records[r].status in {Expired, DecisionStatus(!approve)}
  {
    match s.tasks[t]
    case Choosing(_) => ChooseKeepsRecord(s, t, env, r);
    case Acknowledged(_, verdict, _) => assert !Calls(s.tasks[t], r, approve);
    case _ => OtherTurnsKeepRecord(s, t, env, r);
  }

  /** Where calls start: about a new request, a pending one, or one that awaits its captcha. */
  lemma NewCallsAreAboutOthers(s: State, t: nat, env: Env, r: nat, approve: bool)
    requires Refs(s) && t < |s.tasks| && Calls(RunTurn(s, t, env).tasks[t], r, approve)
    requires r < |s.records| && s.records[r].status !in {Pending, Captcha}
    ensures Calls(s.tasks[t], r, approve)
  {
    match s.tasks[t]
    case Routing(_, _, _, _, _) => RouteCallsAboutNew(s, t);
    case Operating(_, _) => OperateCallsAboutPending(s, t);
    case Answering(_, _) => AnswerCallsNobody(s, t);
    case Deciding(_, _) => DecideCallsAboutCaptcha(s, t);
    case Calling(_, _, _) => CallGoesOn(s, t, env, r, approve);
    case _ => OthersDecideNothing(s, t, env);
  }

  lemma RouteCallsAboutNew(s: State, t: nat)
    requires t < |s.tasks| && s.tasks[t].Routing?
    ensures var work := RouteRequest(s, t).tasks[t]; InCall(work) ==> work.record == |s.records|
  {
  }

  lemma OperateCallsAboutPending(s: State, t: nat)
    requires t < |s.tasks| && s.tasks[t].Operating?
    ensures var work := Operate(s, t).tasks[t];
            InCall(work) ==> work.record < |s.records| && s.records[work.record].status == Pending
  {
  }

  lemma DecideCallsAboutCaptcha(s: State, t: nat)
    requires Refs(s) && t < |s.tasks| && s.tasks[t].Deciding?
    ensures var work := Decide(s, t).tasks[t];
            InCall(work) ==> work.record < |s.records| && s.records[work.record].status == Captcha
  {
    assert WorkRefs(s, s.tasks[t]);
  }

  lemma AnswerCallsNobody(s: State, t: nat)
    requires Refs(s) && t < |s.tasks| && s.tasks[t].Answering?
    ensures !InCall(Answer(s, t).tasks[t])
  {
  }

  lemma TurnStartsNoCall(s: State, t: nat, env: Env, r: nat, approve: bool)
    requires Inv(s) && Enabled(s, Turn(t, env)) && Rests(s, r, approve)
    ensures !InFlight(RunTurn(s, t, env), r, approve)
  {
    var after := RunTurn(s, t, env);
    TurnMovesOneTask(s, t, env);
    forall u | 0 <= u < |after.tasks| ensures !Calls(after.tasks[u], r, approve) {
      if u == t && Calls(after.tasks[t], r, approve) {
        NewCallsAreAboutOthers(s, t, env, r, approve);
      }
    }
  }

  lemma StepKeepsRest(s: State, step: Step, r: nat, approve: bool)
    requires Inv(s) && Enabled(s, step) && Rests(s, r, approve)
    ensures Rests(Next(s, step), r, approve)
  {
    match step
    case Turn(t, env) =>
      TurnKeepsOutcome(s, t, env, r, approve);
      TurnStartsNoCall(s, t, env, r, approve);
    case Message(user) => ReconcileKeepsRecord(s, user, r);
    case StartExpiry(i) =>
      var after := BeginExpiry(s, i);
      assert forall u :: 0 <= u < |s.tasks| ==> after.tasks[u] == s.tasks[u];
    case _ =>
  }

  lemma {:induction false} RunKeepsRest(s: State, steps: seq<Step>, t: State, r: nat, approve: bool)
    requires Inv(s) && Runs(s, steps, t) && Rests(s, r, approve)
    ensures Rests(t, r, approve)
    decreases |steps|
  {
    if steps != [] {
      StepKeepsInv(s, steps[0]);
      StepKeepsRest(s, steps[0], r, approve);
      RunKeepsRest(Next(s, steps[0]), steps[1..], t, r, approve);
    }
  }

  /** An expired request about which no call is in flight stays expired, whatever happens. */
  lemma ExpiredStays(s: State, steps: seq<Step>, t: State, r: nat)
    requires Inv(s) && Runs(s, steps, t) && r < |s.records| && s.records[r].status == Expired
    requires !InFlight(s, r, true) && !InFlight(s, r, false)
    ensures r < |t.records| && t.records[r].status == Expired
  {
    RunKeepsRest(s, steps, t, r, true);
    RunKeepsRest(s, steps, t, r, false);
  }

  // ----- with a call in flight -----

  /** A record that some run decides this way. */
  ghost predicate CanBecome(s: State, r: nat, approve: bool) {
    exists steps, t :: Runs(s, steps, t) && r < |t.records| && t.records[r].status == DecisionStatus(approve)
  }

  const ACKNOWLEDGES: Env := Env(true, 0, 1, 0)

  lemma AcknowledgedBecomes(s: State, u: nat)
    requires Inv(s) && u < |s.tasks| && s.tasks[u].Acknowledged?
    ensures CanBecome(s, s.tasks[u].record, s.tasks[u].approve)
  {
    assert WorkRefs(s, s.tasks[u]);
    var step := Turn(u, ACKNOWLEDGES);
    assert Enabled(s, step) && Next(s, step) == Conclude(s, u);
    assert Runs(Next(s, step), [], Next(s, step)) && [step][1..] == [];
    assert Runs(s, [step], Next(s, step));
  }

  lemma StepThenBecomes(s: State, step: Step, r: nat, approve: bool)
    requires Enabled(s, step) && CanBecome(Next(s, step), r, approve)
    ensures CanBecome(s, r, approve)
  {
    var steps, t :| Runs(Next(s, step), steps, t) && r < |t.records| && t.records[r].status == DecisionStatus(approve);
    assert ([step] + steps)[1..] == steps;
    assert Runs(s, [step] + steps, t);
  }

  lemma CallBecomes(s: State, u: nat)
    requires Inv(s) && u < |s.tasks| && InCall(s.tasks[u])
    ensures CanBecome(s, s.tasks[u].record, s.tasks[u].approve)
  {
    if s.tasks[u].Acknowledged? {
      AcknowledgedBecomes(s, u);
    } else {
      var step := Turn(u, ACKNOWLEDGES);
      assert Enabled(s, step) && Next(s, step) == Respond(s, u, ACKNOWLEDGES);
      StepKeepsInv(s, step);
      AcknowledgedBecomes(Next(s, step), u);
      StepThenBecomes(s, step, s.tasks[u].record, s.tasks[u].approve);
    }
  }

  /**
   The unconditional update in full: an expired request is still approved, or rejected, in some run exactly when a
   provider call to do that is in flight.
   */
  lemma ExpiredIsDecidedIff(s: State, r: nat, approve: bool)
    requires Inv(s) && r < |s.records| && s.records[r].status == Expired
    ensures CanBecome(s, r, approve) <==> InFlight(s, r, approve)
  {
    if InFlight(s, r, approve) {
      var u :| 0 <= u < |s.tasks| && Calls(s.tasks[u], r, approve);
      CallBecomes(s, u);
    } else if CanBecome(s, r, approve) {
      var steps, t :| Runs(s, steps, t) && r < |t.records| && t.records[r].status == DecisionStatus(approve);
      RunKeepsRest(s, steps, t, r, approve);
    }
  }

  // ----- a run in which a request expires while its provider call is in flight -----

  /** The request that an automatic approval is about, at some status. */
  function Single(now: nat, record: Record, work: Work, acks: seq<Ack>, ledger: Ledger): State {
    State(now, [record], [], [work], acks, ledger, 0)
  }

  /** A rule routes a new request to approval, and the call goes out. */
  lemma CallGoesOut(now: nat, flag: Flag, group: Group, user: User, ttl: nat, env: Env)
    requires env.maxAttempts > 0
    ensures var record := Record(flag, group, user, Pending, now + ttl);
            Runs(State(now, [], [], [], [], map[], 0),
                 [Arrive(Routing(flag, group, user, ApproveNow, ttl)), Turn(0, env)],
                 Single(now, record, Calling(0, true, None), [], Bump(map[], group, Total)))
  {
    var s := State(now, [], [], [], [], map[], 0);
    var arrived := s.(tasks := [Routing(flag, group, user, ApproveNow, ttl)]);
    assert Next(s, Arrive(Routing(flag, group, user, ApproveNow, ttl))) == arrived;
    RunsTwoSteps(s, Arrive(Routing(flag, group, user, ApproveNow, ttl)), Turn(0, env));
  }

  /** Meanwhile its time passes, and hourly maintenance expires it. */
  lemma RequestExpires(now: nat, record: Record, ledger: Ledger)
    requires record.status == Pending && now <= record.expiresAt
    ensures Runs(Single(now, record, Calling(0, true, None), [], ledger), [Tick(record.expiresAt), Hourly],
                 Single(record.expiresAt, record.(status := Expired), Calling(0, true, None), [], ledger))
  {
    var s := Single(now, record, Calling(0, true, None), [], ledger);
    RunsTwoSteps(s, Tick(record.expiresAt), Hourly);
  }

  /** Then the provider acknowledges, and the unconditional update approves the expired request. */
  lemma AcknowledgedLate(now: nat, record: Record, ledger: Ledger, env: Env)
    requires env.ok && env.maxAttempts > 0 && record.status != Captcha
    ensures Runs(Single(now, record, Calling(0, true, None), [], ledger), [Turn(0, env), Turn(0, env)],
                 Single(now, record.(status := Approved), Idle, [Ack(0, true)], Bump(ledger, record.group, Passed)))
  {
    var s := Single(now, record, Calling(0, true, None), [], ledger);
    assert Next(s, Turn(0, env)) == Single(now, record, Acknowledged(0, true, None), [Ack(0, true)], ledger);
    RunsTwoSteps(s, Turn(0, env), Turn(0, env));
  }

  lemma RunsFourSteps(s: State, a: Step, b: Step, m: State, c: Step, d: Step, t: State)
    requires Runs(s, [a, b], m) && Runs(m, [c, d], t)
    ensures Runs(s, [a, b, c, d], t)
  {
    RunsChain(s, [a, b], m, [c, d], t);
    assert [a, b] + [c, d] == [a, b, c, d];
  }

  /** The first four steps together. */
  lemma ExpiresInFlight(now: nat, flag: Flag, group: Group, user: User, ttl: nat, env: Env)
    requires env.maxAttempts > 0
    ensures Runs(State(now, [], [], [], [], map[], 0),
                 [Arrive(Routing(flag, group, user, ApproveNow, ttl)), Turn(0, env), Tick(now + ttl), Hourly],
                 Single(now + ttl, Record(flag, group, user, Expired, now + ttl), Calling(0, true, None), [],
                        Bump(map[], group, Total)))
  {
    var record, ledger := Record(flag, group, user, Pending, now + ttl), Bump(map[], group, Total);
    CallGoesOut(now, flag, group, user, ttl, env);
    RequestExpires(now, record, ledger);
    RunsFourSteps(State(now, [], [], [], [], map[], 0), Arrive(Routing(flag, group, user, ApproveNow, ttl)),
                  Turn(0, env), Single(now, record, Calling(0, true, None), [], ledger), Tick(now + ttl), Hourly,
                  Single(now + ttl, record.(status := Expired), Calling(0, true, None), [], ledger));
  }

  /** So every request with a rule to approve it has a run in which it expires first and is approved all the same. */
  lemma ExpiredCanStillBeApproved(now: nat, flag: Flag, group: Group, user: User, ttl: nat, env: Env)
    requires env.ok && env.maxAttempts > 0
    ensures var expired, ledger := Record(flag, group, user, Expired, now + ttl), Bump(map[], group, Total);
            var late := Single(now + ttl, expired, Calling(0, true, None), [], ledger);
            && Runs(State(now, [], [], [], [], map[], 0),
                    [Arrive(Routing(flag, group, user, ApproveNow, ttl)), Turn(0, env), Tick(now + ttl), Hourly], late)
            && Runs(late, [Turn(0, env), Turn(0, env)],
                    Single(now + ttl, expired.(status := Approved), Idle, [Ack(0, true)], Bump(ledger, group, Passed)))
  {
    ExpiresInFlight(now, flag, group, user, ttl, env);
    AcknowledgedLate(now + ttl, Record(flag, group, user, Expired, now + ttl), Bump(map[], group, Total), env);
  }
}
