/** What becomes of a captcha session that is answered again and again. */
module AdmissionAnswers {
  import opened Prelude
  import opened AdmissionState
  import opened Admission
  import opened AdmissionProofs
  import opened AdmissionRuns
  import AdmissionCauses
  import opened AdmissionDecisions

  // ----- one schedule -----

  /** These tasks wait to answer a session, in this order. */
  ghost predicate Queued(s: State, i: nat, ts: seq<nat>) {
    && (forall k | 0 <= k < |ts| :: ts[k] < |s.tasks| && s.tasks[ts[k]].Answering? && s.tasks[ts[k]].session == i)
    && (forall j, k | 0 <= j < k < |ts| :: ts[j] != ts[k])
  }

  /** The session can be answered, and nobody is working on its request's captcha. */
  ghost predicate Open(s: State, i: nat) {
    && i < |s.sessions| && s.sessions[i].open && s.now <= s.sessions[i].expiresAt && Awaited(s, i)
    && CaptchaFree(s, s.sessions[i].approval)
  }

  /** The state after a wrong answer that was not the last one. */
  function AfterWrong(s: State, t: nat, i: nat): State
    requires t < |s.tasks| && i < |s.sessions|
  {
    Become(WithAttempt(s, i), t, Idle)
  }

  const ANY: Env := Env(true, 0, 1, 0)

  lemma WrongAnswerCosts(s: State, i: nat, t: nat)
    requires Inv(s) && Open(s, i) && t < |s.tasks| && s.tasks[t] == Answering(i, false)
    requires s.sessions[i].attempts + 1 < s.sessions[i].maxAttempts
    ensures Runs(s, [Turn(t, ANY), Turn(t, ANY)], AfterWrong(s, t, i))
    ensures Inv(AfterWrong(s, t, i)) && Open(AfterWrong(s, t, i), i)
  {
    var told := Become(WithAttempt(s, i), t, Notifying(s.sessions[i].approval, false));
    assert Enabled(s, Turn(t, ANY)) && Next(s, Turn(t, ANY)) == told;
    StepKeepsInv(s, Turn(t, ANY));
    assert Enabled(told, Turn(t, ANY));
    assert told.tasks[t := Idle] == s.tasks[t := Idle];
    assert Next(told, Turn(t, ANY)) == AfterWrong(s, t, i);
    StepKeepsInv(told, Turn(t, ANY));
    RunsTwoSteps(s, Turn(t, ANY), Turn(t, ANY));
    StaysOpen(s, i, t);
  }

  lemma StaysOpen(s: State, i: nat, t: nat)
    requires Refs(s) && Open(s, i) && t < |s.tasks|
    ensures Open(AfterWrong(s, t, i), i)
  {
    var after := AfterWrong(s, t, i);
    forall u | 0 <= u < |after.tasks| ensures CaptchaHeld(after, after.tasks[u]) != Some(after.sessions[i].approval) {
      assert u != t ==> CaptchaHeld(after, after.tasks[u]) == CaptchaHeld(s, s.tasks[u]);
    }
  }

  /** The answer that decides: the first right one, or the one that uses up the last attempt. */
  predicate Decisive(s: State, i: nat, ts: seq<nat>, d: nat)
    requires i < |s.sessions| && d < |ts| && forall k | 0 <= k < |ts| :: ts[k] < |s.tasks| && s.tasks[ts[k]].Answering?
  {
    && (forall k | 0 <= k < d :: !s.tasks[ts[k]].correct)
    && s.sessions[i].attempts + d < s.sessions[i].maxAttempts
    && (s.tasks[ts[d]].correct || s.sessions[i].attempts + d + 1 == s.sessions[i].maxAttempts)
  }

  lemma RestWaits(s: State, i: nat, ts: seq<nat>, d: nat)
    requires i < |s.sessions| && Queued(s, i, ts) && 0 < d < |ts| && Decisive(s, i, ts, d)
    ensures var next := AfterWrong(s, ts[0], i);
            Queued(next, i, ts[1..]) && Decisive(next, i, ts[1..], d - 1)
  {
    var next := AfterWrong(s, ts[0], i);
    forall k | 0 <= k < |ts| - 1 ensures ts[1..][k] == ts[k + 1] && next.tasks[ts[k + 1]] == s.tasks[ts[k + 1]] {
    }
  }

  /**
   One attempt is spent on every answer up to the decisive one. That one decides the request if the provider acknowledges
   and returns it to the operators if not; the session is closed, and nothing else has happened.
   */
  ghost predicate DecidedBy(s: State, i: nat, ts: seq<nat>, d: nat, ok: bool, t: State)
    requires i < |s.sessions| && s.sessions[i].approval < |s.records| && d < |ts|
    requires forall k | 0 <= k < |ts| :: ts[k] < |s.tasks| && s.tasks[ts[k]].Answering?
  {
    var session := s.sessions[i];
    && CallOver(s, session.approval, s.tasks[ts[d]].correct, ok, t.(sessions := s.sessions))
    && t.sessions == s.sessions[i := session.(attempts := session.attempts + d + 1, open := false)]
    && |t.tasks| == |s.tasks|
    && (forall k | 0 <= k <= d :: t.tasks[ts[k]] == Idle)
    && (forall u | 0 <= u < |s.tasks| && u !in ts[..d + 1] :: t.tasks[u] == s.tasks[u])
  }

  lemma DecidedAtOnce(s: State, i: nat, ts: seq<nat>, ok: bool, t: State)
    requires i < |s.sessions| && Awaited(s, i) && Queued(s, i, ts) && ts != []
    requires DecisionOver(WithAttempt(s, i), ts[0], s.tasks[ts[0]].correct, Origin(i, false), ok, t)
    ensures DecidedBy(s, i, ts, 0, ok, t)
  {
    assert t.sessions == s.sessions[i := t.sessions[i]];
    assert ts[..1] == [ts[0]];
  }

  lemma DecidedByRest(s: State, i: nat, ts: seq<nat>, d: nat, ok: bool, t: State)
    requires i < |s.sessions| && Awaited(s, i) && Queued(s, i, ts) && 0 < d < |ts| && Decisive(s, i, ts, d)
    requires Queued(AfterWrong(s, ts[0], i), i, ts[1..]) && DecidedBy(AfterWrong(s, ts[0], i), i, ts[1..], d - 1, ok, t)
    ensures DecidedBy(s, i, ts, d, ok, t)
  {
    var next := AfterWrong(s, ts[0], i);
    FirstIsApart(ts, d);
    assert t.sessions == s.sessions[i := t.sessions[i]];
    forall k | 0 <= k <= d ensures t.tasks[ts[k]] == Idle {
      if k > 0 {
        assert t.tasks[ts[1..][k - 1]] == Idle;
      } else {
        assert t.tasks[ts[0]] == next.tasks[ts[0]];
      }
    }
    forall u | 0 <= u < |s.tasks| && u !in ts[..d + 1] ensures t.tasks[u] == s.tasks[u] {
      assert u !in ts[1..][..d] && u != ts[0];
    }
  }

  lemma FirstIsApart(ts: seq<nat>, d: nat)
    requires 0 < d < |ts| && forall j, k | 0 <= j < k < |ts| :: ts[j] != ts[k]
    ensures forall k | 0 < k < |ts| :: ts[1..][k - 1] == ts[k] && ts[k] != ts[0]
    ensures ts[..d + 1] == [ts[0]] + ts[1..][..d] && ts[0] !in ts[1..][..d]
  {
    var rest := ts[1..];
    assert forall k | 0 <= k < d :: rest[..d][k] == ts[k + 1] != ts[0];
  }

  /**
   However many answers wait for a session, served in order: the first right one within the attempts that are left
   approves its request, and if there is none the one that uses up the last attempt rejects it, unless the provider
   fails, which returns it to the operators; every answer up to that one costs one attempt, and no answer before it does
   anything else.
   */
  lemma {:induction false} FirstDecisiveAnswerDecides(s: State, i: nat, ts: seq<nat>, d: nat, ok: bool)
    returns (steps: seq<Step>, t: State)
    requires Inv(s) && Open(s, i) && Queued(s, i, ts) && d < |ts| && Decisive(s, i, ts, d)
    ensures Runs(s, steps, t) && Inv(t) && DecidedBy(s, i, ts, d, ok, t)
    decreases d
  {
    if d == 0 {
      steps, t := DecisiveAnswerEnds(s, ts[0], ok);
      DecidedAtOnce(s, i, ts, ok, t);
    } else {
      WrongAnswerCosts(s, i, ts[0]);
      RestWaits(s, i, ts, d);
      steps, t := FirstDecisiveAnswerDecides(AfterWrong(s, ts[0], i), i, ts[1..], d - 1, ok);
      DecidedByRest(s, i, ts, d, ok, t);
      var two := [Turn(ts[0], ANY), Turn(ts[0], ANY)];
      RunsChain(s, two, AfterWrong(s, ts[0], i), steps, t);
      steps := two + steps;
    }
  }

  // ----- every run -----

  /** An answer that was judged: whether it was right, and whether its request still awaited it. */
  datatype Answered = Answered(correct: bool, awaited: bool)

  /** A step that judges an answer to an open session in time. */
  predicate Serves(s: State, step: Step, i: nat) {
    && step.Turn? && step.task < |s.tasks| && s.tasks[step.task].Answering? && s.tasks[step.task].session == i
    && i < |s.sessions| && s.sessions[i].open && s.now <= s.sessions[i].expiresAt
  }

  function Judged(s: State, step: Step, i: nat): Answered
    requires Serves(s, step, i)
  {
    Answered(s.tasks[step.task].correct, Awaited(s, i))
  }

  function ServedBy(s: State, step: Step, i: nat): seq<Answered> {
    if Serves(s, step, i) then [Judged(s, step, i)] else []
  }

  /** The verdict of the decision that a judged answer starts, if it starts one. */
  ghost function VerdictBy(s: State, step: Step, i: nat): seq<bool>
    requires Enabled(s, step)
  {
    if Serves(s, step, i) && step.task < |Next(s, step).tasks| && Next(s, step).tasks[step.task].Deciding? then
      [Next(s, step).tasks[step.task].approve]
    else []
  }

  /** The answers to a session that a run judges, in order. */
  ghost function Served(s: State, steps: seq<Step>, i: nat): seq<Answered>
    decreases |steps|
  {
    if steps == [] || !Enabled(s, steps[0]) then []
    else ServedBy(s, steps[0], i) + Served(Next(s, steps[0]), steps[1..], i)
  }

  /** The verdicts of the decisions they start, in order. */
  ghost function Verdicts(s: State, steps: seq<Step>, i: nat): seq<bool>
    decreases |steps|
  {
    if steps == [] || !Enabled(s, steps[0]) then []
    else VerdictBy(s, steps[0], i) + Verdicts(Next(s, steps[0]), steps[1..], i)
  }

  /** An answer that is right, or that uses up the last of the attempts that are left. */
  predicate Decides(answer: Answered, left: nat) {
    answer.correct || left <= 1
  }

  /** No answer before the last decides. */
  predicate OnlyLastDecides(served: seq<Answered>, left: nat) {
    forall k | 0 <= k < |served| - 1 :: !Decides(served[k], if k <= left then left - k else 0)
  }

  predicate LastDecides(served: seq<Answered>, left: nat) {
    served != [] && Decides(served[|served| - 1], if |served| - 1 <= left then left - (|served| - 1) else 0)
  }

  /** What judged answers must have started: a decision as right as the deciding one, if its request awaited it. */
  function Verdict(served: seq<Answered>, left: nat): seq<bool> {
    if LastDecides(served, left) && served[|served| - 1].awaited then [served[|served| - 1].correct] else []
  }

  /** The session is closed, or about to be under its lock. */
  ghost predicate Over(s: State, i: nat)
    requires i < |s.sessions|
  {
    !s.sessions[i].open || exists t :: 0 <= t < |s.tasks| && Closing(s.tasks[t], i)
  }

  function Left(s: State, i: nat): nat
    requires i < |s.sessions|
  {
    if s.sessions[i].attempts <= s.sessions[i].maxAttempts then s.sessions[i].maxAttempts - s.sessions[i].attempts else 0
  }

  /** While a session is being closed its lock is held, so no answer to it is judged. */
  lemma ServedIsNotOver(s: State, step: Step, i: nat)
    requires Inv(s) && Enabled(s, step) && Serves(s, step, i)
    ensures !Over(s, i)
  {
    forall t | 0 <= t < |s.tasks| ensures !Closing(s.tasks[t], i) {
      assert CaptchaHeld(s, s.tasks[t]) != Some(s.sessions[i].approval);
    }
  }

  /** A task that is closing a session goes on with that until it has closed it. */
  lemma ClosingGoesOn(s: State, t: nat, env: Env, i: nat)
    requires Inv(s) && Enabled(s, Turn(t, env)) && i < |s.sessions| && Closing(s.tasks[t], i)
    ensures var after := RunTurn(s, t, env);
            i < |after.sessions| && t < |after.tasks| && (!after.sessions[i].open || Closing(after.tasks[t], i))
  {
  }

  lemma OverStays(s: State, step: Step, i: nat)
    requires Inv(s) && Enabled(s, step) && i < |s.sessions| && Over(s, i)
    ensures i < |Next(s, step).sessions| && Over(Next(s, step), i)
  {
    var after := Next(s, step);
    StepKeepsInv(s, step);
    assert SessionEvolves(s.sessions[i], after.sessions[i]);
    if s.sessions[i].open {
      var t :| 0 <= t < |s.tasks| && Closing(s.tasks[t], i);
      if step.Turn? && step.task == t {
        ClosingGoesOn(s, t, step.env, i);
      } else {
        OthersKeepTask(s, step, t);
        assert Closing(after.tasks[t], i);
      }
    }
  }

  lemma OthersKeepTask(s: State, step: Step, t: nat)
    requires Inv(s) && Enabled(s, step) && t < |s.tasks| && (step.Turn? ==> step.task != t)
    ensures t < |Next(s, step).tasks| && Next(s, step).tasks[t] == s.tasks[t]
  {
    if step.Turn? {
      AdmissionCauses.TurnMovesOneTask(s, step.task, step.env);
    }
  }

  /** Attempts are spent on judged answers and on nothing else. */
  lemma OnlyAnswersCost(s: State, step: Step, i: nat)
    requires Inv(s) && Enabled(s, step) && i < |s.sessions| && !Serves(s, step, i)
    ensures i < |Next(s, step).sessions|
    ensures Next(s, step).sessions[i] == s.sessions[i].(open := Next(s, step).sessions[i].open)
  {
    StepKeepsInv(s, step);
    var after := Next(s, step);
    assert SessionEvolves(s.sessions[i], after.sessions[i]);
    if step.Turn? {
      TurnCosts(s, step.task, step.env, i);
    } else if step.Message? {
      ReconcileIsUndecided(s, step.user);
    }
  }

  lemma AnswerCosts(s: State, t: nat, i: nat)
    requires Refs(s) && t < |s.tasks| && s.tasks[t].Answering? && i < |s.sessions|
    requires !(s.tasks[t].session == i && s.sessions[i].open && s.now <= s.sessions[i].expiresAt)
    ensures i < |Answer(s, t).sessions| && Answer(s, t).sessions[i].attempts == s.sessions[i].attempts
  {
  }

  lemma ChooseCosts(s: State, t: nat, env: Env, i: nat)
    requires Refs(s) && t < |s.tasks| && s.tasks[t].Choosing? && i < |s.sessions|
    ensures i < |Choose(s, t, env).sessions| && Choose(s, t, env).sessions[i].attempts == s.sessions[i].attempts
  {
    assert WorkRefs(s, s.tasks[t]);
    ReconcileIsUndecided(s, s.records[s.tasks[t].record].user);
  }

  lemma TurnCosts(s: State, t: nat, env: Env, i: nat)
    requires Inv(s) && Enabled(s, Turn(t, env)) && i < |s.sessions| && !Serves(s, Turn(t, env), i)
    ensures i < |RunTurn(s, t, env).sessions|
    ensures RunTurn(s, t, env).sessions[i].attempts == s.sessions[i].attempts
  {
    match s.tasks[t]
    case Answering(_, _) => AnswerCosts(s, t, i);
    case Choosing(_) => ChooseCosts(s, t, env, i);
    case _ =>
  }

  /** What judging one answer does. */
  lemma JudgedOnce(s: State, step: Step, i: nat)
    requires Inv(s) && Enabled(s, step) && Serves(s, step, i)
    ensures s.sessions[i].attempts <= s.sessions[i].maxAttempts
    ensures var after, answer := Next(s, step), Judged(s, step, i);
            && i < |after.sessions| && after.sessions[i].attempts == s.sessions[i].attempts + 1
            && after.sessions[i].maxAttempts == s.sessions[i].maxAttempts
            && (Decides(answer, Left(s, i)) ==> Over(after, i))
            && VerdictBy(s, step, i) == Verdict([answer], Left(s, i))
  {
    var after := Next(s, step);
    var t := step.task;
    assert AttemptsOk(s, i);
    if after.tasks[t].Deciding? {
      assert Closing(after.tasks[t], i);
    }
  }

  lemma VerdictOfRest(answer: Answered, rest: seq<Answered>, left: nat)
    requires left > 0 && !Decides(answer, left)
    ensures LastDecides([answer] + rest, left) <==> LastDecides(rest, left - 1)
    ensures Verdict([answer] + rest, left) == Verdict(rest, left - 1)
    ensures OnlyLastDecides(rest, left - 1) ==> OnlyLastDecides([answer] + rest, left)
  {
    var all := [answer] + rest;
    forall k | 0 < k < |all| ensures all[k] == rest[k - 1] {
    }
  }

  lemma {:induction false} NothingServed(s: State, steps: seq<Step>, t: State, i: nat)
    requires Inv(s) && Runs(s, steps, t) && i < |s.sessions| && Over(s, i)
    ensures i < |t.sessions| && Over(t, i) && t.sessions[i].attempts == s.sessions[i].attempts
    ensures Served(s, steps, i) == [] && Verdicts(s, steps, i) == []
    decreases |steps|
  {
    if steps != [] {
      if Serves(s, steps[0], i) {
        ServedIsNotOver(s, steps[0], i);
      }
      StepKeepsInv(s, steps[0]);
      OverStays(s, steps[0], i);
      OnlyAnswersCost(s, steps[0], i);
      NothingServed(Next(s, steps[0]), steps[1..], t, i);
    }
  }

  /** What judged answers cost a session, and what they start. */
  ghost predicate Settles(session: Session, served: seq<Answered>, verdicts: seq<bool>, attempts: nat, over: bool) {
    var left := if session.attempts <= session.maxAttempts then session.maxAttempts - session.attempts else 0;
    && attempts == session.attempts + |served|
    && OnlyLastDecides(served, left)
    && (LastDecides(served, left) ==> over)
    && verdicts == Verdict(served, left)
  }

  ghost predicate Accounted(s: State, steps: seq<Step>, t: State, i: nat)
    requires i < |s.sessions|
  {
    && i < |t.sessions|
    && Settles(s.sessions[i], Served(s, steps, i), Verdicts(s, steps, i), t.sessions[i].attempts, Over(t, i))
  }

  lemma NothingServedFirst(s: State, steps: seq<Step>, i: nat)
    requires steps != [] && Enabled(s, steps[0]) && !Serves(s, steps[0], i)
    ensures Served(s, steps, i) == Served(Next(s, steps[0]), steps[1..], i)
    ensures Verdicts(s, steps, i) == Verdicts(Next(s, steps[0]), steps[1..], i)
  {
  }

  lemma SettlesAlike(before: Session, after: Session, served: seq<Answered>, verdicts: seq<bool>, attempts: nat,
                     over: bool)
    requires after == before.(open := after.open) && Settles(after, served, verdicts, attempts, over)
    ensures Settles(before, served, verdicts, attempts, over)
  {
  }

  lemma SkippedStep(s: State, steps: seq<Step>, t: State, i: nat)
    requires Inv(s) && i < |s.sessions| && steps != [] && Enabled(s, steps[0]) && !Serves(s, steps[0], i)
    requires i < |Next(s, steps[0]).sessions| && Accounted(Next(s, steps[0]), steps[1..], t, i)
    ensures Accounted(s, steps, t, i)
  {
    OnlyAnswersCost(s, steps[0], i);
    NothingServedFirst(s, steps, i);
    SettlesAlike(s.sessions[i], Next(s, steps[0]).sessions[i], Served(s, steps, i), Verdicts(s, steps, i),
                 t.sessions[i].attempts, Over(t, i));
  }

  lemma JudgedFirst(s: State, steps: seq<Step>, i: nat)
    requires steps != [] && Enabled(s, steps[0]) && Serves(s, steps[0], i)
    ensures Served(s, steps, i) == [Judged(s, steps[0], i)] + Served(Next(s, steps[0]), steps[1..], i)
    ensures Verdicts(s, steps, i) == VerdictBy(s, steps[0], i) + Verdicts(Next(s, steps[0]), steps[1..], i)
  {
  }

  lemma SettlesAlone(session: Session, answer: Answered)
    requires session.attempts <= session.maxAttempts && Decides(answer, session.maxAttempts - session.attempts)
    ensures Settles(session, [answer], Verdict([answer], session.maxAttempts - session.attempts), session.attempts + 1,
                    true)
  {
  }

  /** After the answer that decides nothing more is judged. */
  lemma JudgedLast(s: State, steps: seq<Step>, t: State, i: nat)
    requires steps != [] && Enabled(s, steps[0]) && Serves(s, steps[0], i) && Inv(Next(s, steps[0]))
    requires Runs(Next(s, steps[0]), steps[1..], t) && i < |Next(s, steps[0]).sessions| && Over(Next(s, steps[0]), i)
    ensures i < |t.sessions| && Over(t, i) && t.sessions[i].attempts == Next(s, steps[0]).sessions[i].attempts
    ensures Served(s, steps, i) == [Judged(s, steps[0], i)] && Verdicts(s, steps, i) == VerdictBy(s, steps[0], i)
  {
    NothingServed(Next(s, steps[0]), steps[1..], t, i);
    JudgedFirst(s, steps, i);
  }

  lemma DecidingStep(s: State, steps: seq<Step>, t: State, i: nat)
    requires Inv(s) && i < |s.sessions| && steps != [] && Enabled(s, steps[0]) && Serves(s, steps[0], i)
    requires Inv(Next(s, steps[0])) && Runs(Next(s, steps[0]), steps[1..], t)
    requires Decides(Judged(s, steps[0], i), Left(s, i))
    ensures Accounted(s, steps, t, i)
  {
    JudgedOnce(s, steps[0], i);
    JudgedLast(s, steps, t, i);
    SettlesAlone(s.sessions[i], Judged(s, steps[0], i));
  }

  /** A wrong answer before the last attempt goes ahead of the others. */
  lemma SettlesBehind(before: Session, after: Session, answer: Answered, rest: seq<Answered>, verdicts: seq<bool>,
                      attempts: nat, over: bool)
    requires before.attempts < before.maxAttempts == after.maxAttempts && after.attempts == before.attempts + 1
    requires !Decides(answer, before.maxAttempts - before.attempts)
    requires Settles(after, rest, verdicts, attempts, over)
    ensures Settles(before, [answer] + rest, verdicts, attempts, over)
  {
    VerdictOfRest(answer, rest, before.maxAttempts - before.attempts);
  }

  lemma WrongStep(s: State, steps: seq<Step>, t: State, i: nat)
    requires Inv(s) && i < |s.sessions| && steps != [] && Enabled(s, steps[0]) && Serves(s, steps[0], i)
    requires !Decides(Judged(s, steps[0], i), Left(s, i))
    requires i < |Next(s, steps[0]).sessions| && Accounted(Next(s, steps[0]), steps[1..], t, i)
    ensures Accounted(s, steps, t, i)
  {
    JudgedOnce(s, steps[0], i);
    JudgedFirst(s, steps, i);
    SettlesBehind(s.sessions[i], Next(s, steps[0]).sessions[i], Judged(s, steps[0], i),
                  Served(Next(s, steps[0]), steps[1..], i), Verdicts(s, steps, i), t.sessions[i].attempts, Over(t, i));
  }

  /**
   In every run, whatever else happens in between: each answer judged in time costs a session exactly one attempt; only
   the last of them can be right or use up the last attempt, since that one closes the session; and the answers start
   exactly one decision, as right as that one is, if its request still awaited it, and none otherwise.
   */
  lemma {:induction false} AnswersOfEveryRun(s: State, steps: seq<Step>, t: State, i: nat)
    requires Inv(s) && Runs(s, steps, t) && i < |s.sessions|
    ensures Accounted(s, steps, t, i)
    decreases |steps|
  {
    if steps != [] {
      var step, next := steps[0], Next(s, steps[0]);
      StepKeepsInv(s, step);
      if !Serves(s, step, i) {
        AnswersOfEveryRun(next, steps[1..], t, i);
        SkippedStep(s, steps, t, i);
      } else if Decides(Judged(s, step, i), Left(s, i)) {
        DecidingStep(s, steps, t, i);
      } else {
        AnswersOfEveryRun(next, steps[1..], t, i);
        WrongStep(s, steps, t, i);
      }
    }
  }
}
