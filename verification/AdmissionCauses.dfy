/** Why a request is approved or refused: behind every decision stands a step that was entitled to start it. */
module AdmissionCauses {
  import opened Prelude
  import opened AdmissionState
  import opened Admission
  import opened AdmissionProofs
  import opened AdmissionRuns

  /** A task on its way to deciding a request. */
  predicate Decides(s: State, work: Work, r: nat, approve: bool) {
    match work
    case Calling(record, verdict, _) => record == r && verdict == approve
    case Acknowledged(record, verdict, _) => record == r && verdict == approve
    case Deciding(verdict, origin) =>
      verdict == approve && origin.session < |s.sessions| && s.sessions[origin.session].approval == r
    case _ => false
  }

  /** The decision is under way, or its provider has acknowledged it. */
  ghost predicate UnderDecision(s: State, r: nat, approve: bool) {
    Ack(r, approve) in s.acks || exists t :: 0 <= t < |s.tasks| && Decides(s, s.tasks[t], r, approve)
  }

  /** The open session of a request that awaits its captcha. */
  predicate Examines(s: State, i: nat, r: nat) {
    && i < |s.sessions| && s.sessions[i].open && s.sessions[i].approval == r
    && r < |s.records| && s.records[r].status == Captcha
  }

  /** The answer that settles a session: the right one in time, or one too late, or the last wrong one. */
  predicate Settles(s: State, i: nat, correct: bool, approve: bool)
    requires i < |s.sessions|
  {
    var late := s.now > s.sessions[i].expiresAt;
    if approve then !late && correct
    else late || (!correct && s.sessions[i].maxAttempts <= s.sessions[i].attempts + 1)
  }

  /**
   What entitles a step to start a decision: the rules routed a new request so, an operator decided a pending request
   that had not expired, an answer settled its session, or the session's time was over.
   */
  ghost predicate Justifies(s: State, step: Step, r: nat, approve: bool) {
    match step
    case StartExpiry(i) => !approve && Examines(s, i, r) && s.sessions[i].expiresAt < s.now
    case Turn(t, _) =>
      && t < |s.tasks|
      && (match s.tasks[t]
          case Routing(flag, _, _, route, _) =>
            r == |s.records| && !FlagKnown(s, flag) && route == (if approve then ApproveNow else RejectNow)
          case Operating(record, verdict) =>
            && record == r && verdict == approve
            && r < |s.records| && s.records[r].status == Pending && s.now < s.records[r].expiresAt
          case Answering(i, correct) => Examines(s, i, r) && Settles(s, i, correct, approve)
          case _ => false)
    case _ => false
  }

  // ----- one step -----

  /** A task that was there before is about the same request as before. */
  lemma SameSubject(s: State, after: State, work: Work, r: nat, approve: bool)
    requires Refs(s) && Evolves(s, after) && WorkRefs(s, work)
    ensures Decides(after, work, r, approve) <==> Decides(s, work, r, approve)
  {
    if work.Deciding? {
      assert SessionEvolves(s.sessions[work.origin.session], after.sessions[work.origin.session]);
    }
  }

  /** Where decisions come from: routing, operators, answers, and decisions that are going on. */
  predicate Starts(work: Work) {
    work.Routing? || work.Operating? || work.Answering? || work.Deciding? || work.Calling?
  }

  /** A task with a decision on its hands. */
  predicate IsDeciding(work: Work) {
    work.Calling? || work.Acknowledged? || work.Deciding?
  }

  lemma ChooseDecidesNothing(s: State, t: nat, env: Env)
    requires Refs(s) && t < |s.tasks| && s.tasks[t].Choosing?
    ensures !IsDeciding(Choose(s, t, env).tasks[t])
  {
  }

  /** Every other turn leaves its task without a decision. */
  lemma OthersDecideNothing(s: State, t: nat, env: Env)
    requires Refs(s) && t < |s.tasks| && !Starts(s.tasks[t])
    ensures !IsDeciding(RunTurn(s, t, env).tasks[t])
  {
    if s.tasks[t].Choosing? {
      ChooseDecidesNothing(s, t, env);
    }
  }

  lemma AnswerNeedsCause(s: State, t: nat, env: Env, r: nat, approve: bool)
    requires Inv(s) && Enabled(s, Turn(t, env)) && s.tasks[t].Answering?
    requires Decides(Answer(s, t), Answer(s, t).tasks[t], r, approve)
    ensures Justifies(s, Turn(t, env), r, approve)
  {
  }

  lemma RouteNeedsCause(s: State, t: nat, env: Env, r: nat, approve: bool)
    requires Inv(s) && Enabled(s, Turn(t, env)) && s.tasks[t].Routing?
    requires Decides(RouteRequest(s, t), RouteRequest(s, t).tasks[t], r, approve)
    ensures Justifies(s, Turn(t, env), r, approve)
  {
  }

  lemma OperateNeedsCause(s: State, t: nat, env: Env, r: nat, approve: bool)
    requires Inv(s) && Enabled(s, Turn(t, env)) && s.tasks[t].Operating?
    requires Decides(Operate(s, t), Operate(s, t).tasks[t], r, approve)
    ensures Justifies(s, Turn(t, env), r, approve)
  {
  }

  lemma DecideGoesOn(s: State, t: nat, r: nat, approve: bool)
    requires Refs(s) && t < |s.tasks| && s.tasks[t].Deciding? && Decides(Decide(s, t), Decide(s, t).tasks[t], r, approve)
    ensures Decides(s, s.tasks[t], r, approve)
  {
    assert WorkRefs(s, s.tasks[t]);
  }

  lemma CallGoesOn(s: State, t: nat, env: Env, r: nat, approve: bool)
    requires Refs(s) && t < |s.tasks| && s.tasks[t].Calling?
    requires Decides(Respond(s, t, env), Respond(s, t, env).tasks[t], r, approve)
    ensures Decides(s, s.tasks[t], r, approve)
  {
    assert WorkRefs(s, s.tasks[t]);
  }

  /** A turn starts a decision only where it is entitled to. */
  lemma TurnNeedsCause(s: State, t: nat, env: Env, r: nat, approve: bool)
    requires Inv(s) && Enabled(s, Turn(t, env))
    requires Decides(RunTurn(s, t, env), RunTurn(s, t, env).tasks[t], r, approve)
    ensures Decides(s, s.tasks[t], r, approve) || Justifies(s, Turn(t, env), r, approve)
  {
    match s.tasks[t]
    case Routing(_, _, _, _, _) => RouteNeedsCause(s, t, env, r, approve);
    case Operating(_, _) => OperateNeedsCause(s, t, env, r, approve);
    case Answering(_, _) => AnswerNeedsCause(s, t, env, r, approve);
    case Deciding(_, _) => DecideGoesOn(s, t, r, approve);
    case Calling(_, _, _) => CallGoesOn(s, t, env, r, approve);
    case _ => OthersDecideNothing(s, t, env);
  }

  /** A turn touches no task but its own, and adds at most the one that issues a challenge. */
  ghost predicate MovesOwnTask(s: State, t: nat, after: State) {
    && |s.tasks| <= |after.tasks|
    && (forall u :: 0 <= u < |s.tasks| && u != t ==> after.tasks[u] == s.tasks[u])
    && (forall u :: |s.tasks| <= u < |after.tasks| ==> after.tasks[u].Issuing?)
  }

  lemma RouteMovesOwnTask(s: State, t: nat)
    requires t < |s.tasks| && s.tasks[t].Routing?
    ensures MovesOwnTask(s, t, RouteRequest(s, t))
  {
  }

  lemma ChooseMovesOwnTask(s: State, t: nat, env: Env)
    requires Refs(s) && t < |s.tasks| && s.tasks[t].Choosing?
    ensures MovesOwnTask(s, t, Choose(s, t, env))
  {
  }

  lemma AnswerMovesOwnTask(s: State, t: nat)
    requires Refs(s) && t < |s.tasks| && s.tasks[t].Answering?
    ensures MovesOwnTask(s, t, Answer(s, t))
  {
  }

  lemma TurnMovesOneTask(s: State, t: nat, env: Env)
    requires Inv(s) && Enabled(s, Turn(t, env))
    ensures MovesOwnTask(s, t, RunTurn(s, t, env))
  {
    match s.tasks[t]
    case Routing(_, _, _, _, _) => RouteMovesOwnTask(s, t);
    case Choosing(_) => ChooseMovesOwnTask(s, t, env);
    case Answering(_, _) => AnswerMovesOwnTask(s, t);
    case _ =>
  }

  lemma TurnAcknowledges(s: State, t: nat, env: Env)
    requires Refs(s) && t < |s.tasks|
    ensures RunTurn(s, t, env).acks == s.acks
            || (s.tasks[t].Calling? && RunTurn(s, t, env).acks == s.acks + [Ack(s.tasks[t].record, s.tasks[t].approve)])
  {
    if s.tasks[t].Choosing? {
      assert WorkRefs(s, s.tasks[t]);
      ReconcileIsUndecided(s, s.records[s.tasks[t].record].user);
    }
  }

  /** An acknowledgement comes from a task that was deciding. */
  lemma AcknowledgedWasDecided(s: State, step: Step, r: nat, approve: bool)
    requires Inv(s) && Enabled(s, step) && Ack(r, approve) in Next(s, step).acks
    ensures UnderDecision(s, r, approve)
  {
    match step
    case Turn(t, env) =>
      TurnAcknowledges(s, t, env);
      assert Ack(r, approve) !in s.acks ==> Decides(s, s.tasks[t], r, approve);
    case Message(user) => ReconcileIsUndecided(s, user);
    case _ =>
  }

  lemma TaskNeedsCause(s: State, step: Step, u: nat, r: nat, approve: bool)
    requires Inv(s) && Enabled(s, step) && Evolves(s, Next(s, step))
    requires u < |Next(s, step).tasks| && Decides(Next(s, step), Next(s, step).tasks[u], r, approve)
    ensures UnderDecision(s, r, approve) || Justifies(s, step, r, approve)
  {
    var after := Next(s, step);
    if u < |s.tasks| && after.tasks[u] == s.tasks[u] {
      assert WorkRefs(s, s.tasks[u]);
      SameSubject(s, after, s.tasks[u], r, approve);
    } else if step.Turn? {
      TurnMovesOneTask(s, step.task, step.env);
      TurnNeedsCause(s, step.task, step.env, r, approve);
    }
  }

  /** No step starts a decision without being entitled to. */
  lemma StepNeedsCause(s: State, step: Step, r: nat, approve: bool)
    requires Inv(s) && Enabled(s, step) && UnderDecision(Next(s, step), r, approve)
    ensures UnderDecision(s, r, approve) || Justifies(s, step, r, approve)
  {
    var after := Next(s, step);
    StepKeepsInv(s, step);
    if Ack(r, approve) in after.acks {
      AcknowledgedWasDecided(s, step, r, approve);
    } else {
      var u :| 0 <= u < |after.tasks| && Decides(after, after.tasks[u], r, approve);
      TaskNeedsCause(s, step, u, r, approve);
    }
  }

  /** And every entitled step does start its decision. */
  lemma CauseStartsDecision(s: State, step: Step, r: nat, approve: bool)
    requires Inv(s) && Enabled(s, step) && Justifies(s, step, r, approve)
    ensures UnderDecision(Next(s, step), r, approve)
  {
    var after := Next(s, step);
    var u := if step.Turn? then step.task else |s.tasks|;
    assert Decides(after, after.tasks[u], r, approve);
  }

  // ----- runs -----

  /** Somewhere in a run a step was entitled to start the decision. */
  ghost predicate Caused(s: State, steps: seq<Step>, r: nat, approve: bool) {
    exists k, before :: 0 <= k < |steps| && Runs(s, steps[..k], before) && Enabled(before, steps[k])
                        && Justifies(before, steps[k], r, approve)
  }

  lemma LaterCause(s: State, steps: seq<Step>, r: nat, approve: bool)
    requires steps != [] && Enabled(s, steps[0]) && Caused(Next(s, steps[0]), steps[1..], r, approve)
    ensures Caused(s, steps, r, approve)
  {
    var rest := steps[1..];
    var k, before :| 0 <= k < |rest| && Runs(Next(s, steps[0]), rest[..k], before) && Enabled(before, rest[k])
                     && Justifies(before, rest[k], r, approve);
    assert steps[..k + 1][1..] == rest[..k];
    assert Runs(s, steps[..k + 1], before) && steps[k + 1] == rest[k];
  }

  lemma {:induction false} RunNeedsCause(s: State, steps: seq<Step>, t: State, r: nat, approve: bool)
    requires Inv(s) && Runs(s, steps, t) && UnderDecision(t, r, approve) && !UnderDecision(s, r, approve)
    ensures Caused(s, steps, r, approve)
    decreases |steps|
  {
    if steps != [] {
      var next := Next(s, steps[0]);
      StepKeepsInv(s, steps[0]);
      if UnderDecision(next, r, approve) {
        StepNeedsCause(s, steps[0], r, approve);
        assert Runs(s, steps[..0], s);
      } else {
        RunNeedsCause(next, steps[1..], t, r, approve);
        LaterCause(s, steps, r, approve);
      }
    }
  }

  /**
   Over all interleavings, a request that nobody was deciding becomes approved only by a rule, an operator or a right
   answer in time, and rejected only by a rule, an operator, a last wrong answer or the end of its session.
   */
  lemma DecisionsHaveCauses(s: State, steps: seq<Step>, t: State, r: nat, approve: bool)
    requires Inv(s) && Runs(s, steps, t) && !UnderDecision(s, r, approve)
    requires r < |t.records| && t.records[r].status == DecisionStatus(approve)
    ensures Caused(s, steps, r, approve)
  {
    RunKeepsInv(s, steps, t);
    RunNeedsCause(s, steps, t, r, approve);
  }
}
