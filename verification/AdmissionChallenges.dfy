/** How a request gets its challenge, and what becomes of it where none can be given. */
module AdmissionChallenges {
  import opened Prelude
  import opened AdmissionState
  import opened Admission
  import opened AdmissionProofs
  import opened AdmissionRuns
  import opened AdmissionDecisions

  /** The request awaits its challenge, nobody works on it, and it has none yet. */
  ghost predicate AwaitsChallenge(s: State, r: nat) {
    && r < |s.records| && s.records[r].status == Captcha && s.records[r].expiresAt >= s.now
    && CaptchaFree(s, r) && forall i | 0 <= i < |s.sessions| && s.sessions[i].approval == r :: !s.sessions[i].open
  }

  /** Reconciling its user leaves such a request alone. */
  lemma AwaitingIsLeftAlone(s: State, r: nat)
    requires Inv(s) && r < |s.records| && s.records[r].status == Captcha && s.records[r].expiresAt >= s.now
    requires forall i | 0 <= i < |s.sessions| && s.sessions[i].approval == r :: !s.sessions[i].open
    ensures Reconcile(s, s.records[r].user).records[r] == s.records[r]
  {
    var e := Cleaned(s, s.records[r].user);
    assert e.records[r] == s.records[r];
    forall i | 0 <= i < |e.sessions| && e.sessions[i].approval == r ensures !e.sessions[i].open {
    }
  }

  /** Reconciliation looks at the clock and the two tables only. */
  lemma ReconcileIgnoresRest(a: State, b: State, user: User)
    requires b == a.(tasks := b.tasks, acks := b.acks, ledger := b.ledger, slots := b.slots)
    ensures Reconcile(a, user).sessions == Reconcile(b, user).sessions
    ensures Reconcile(a, user).records == Reconcile(b, user).records
    ensures Active(Reconcile(a, user), user) == Active(Reconcile(b, user), user)
  {
    var e, f := Cleaned(a, user), Cleaned(b, user);
    assert ExpireRequests(a, user).records == ExpireRequests(b, user).records;
    assert CloseOrphans(ExpireRequests(a, user), user).sessions == CloseOrphans(ExpireRequests(b, user), user).sessions;
    assert f == e.(tasks := b.tasks, acks := b.acks, ledger := b.ledger, slots := b.slots);
    SelectIgnoresRest(e, f, user, 0);
    assert forall i: nat | i < |e.sessions| :: Retired(e, user, i) == Retired(f, user, i);
    assert RetireRest(e, user).sessions == RetireRest(f, user).sessions;
    assert RetireRest(e, user).records == RetireRest(f, user).records;
  }

  lemma {:induction false} SelectIgnoresRest(a: State, b: State, user: User, n: nat)
    requires b == a.(tasks := b.tasks, acks := b.acks, ledger := b.ledger, slots := b.slots) && n <= |a.sessions|
    ensures Select(a, user, n) == Select(b, user, n)
    decreases |a.sessions| - n
  {
    if n < |a.sessions| {
      SelectIgnoresRest(a, b, user, n + 1);
    }
  }

  /** The task takes the captcha lock. */
  lemma ChallengeBegins(s: State, t: nat, env: Env)
    requires Inv(s) && t < |s.tasks| && s.tasks[t].Issuing? && AwaitsChallenge(s, s.tasks[t].record)
    requires env.maxAttempts > 0
    ensures var chosen := Become(s, t, Choosing(s.tasks[t].record));
            && Runs(s, [Turn(t, env)], chosen) && Inv(chosen)
            && Reconcile(chosen, s.records[s.tasks[t].record].user)
               == Become(Reconcile(s, s.records[s.tasks[t].record].user), t, Choosing(s.tasks[t].record))
  {
    StepKeepsInv(s, Turn(t, env));
    OneTurn(s, t, env);
    ReconcileIgnoresRest(s, RunTurn(s, t, env), s.records[s.tasks[t].record].user);
  }

  /** Another session fits beside those its user can still answer. */
  ghost predicate Fits(c: State, user: User, code: nat) {
    |Active(c, user)| < 5 && forall i | i in Active(c, user) :: c.sessions[i].code != code
  }

  /** The state after the turn that inserts a session into reconciled rows. */
  function AfterInserting(s: State, c: State, t: nat, r: nat, env: Env): State
    requires t < |s.tasks| && r < |s.records|
  {
    var session := Session(r, s.records[r].user, env.code, 0, env.maxAttempts, s.now + env.ttl, true);
    c.(sessions := c.sessions + [session], tasks := s.tasks[t := Sending(r, |c.sessions|)])
  }

  lemma ChooseInserts(s: State, t: nat, env: Env)
    requires Inv(s) && t < |s.tasks| && s.tasks[t].Choosing?
    requires var r := s.tasks[t].record;
             && r < |s.records| && s.records[r].status == Captcha && s.records[r].expiresAt >= s.now
             && (forall i | 0 <= i < |s.sessions| && s.sessions[i].approval == r :: !s.sessions[i].open)
             && Fits(Reconcile(s, s.records[r].user), s.records[r].user, env.code)
    ensures var r, c := s.tasks[t].record, Reconcile(s, s.records[s.tasks[t].record].user);
            Choose(s, t, env) == AfterInserting(s, c, t, r, env)
  {
    AwaitingIsLeftAlone(s, s.tasks[t].record);
  }

  /** The session is inserted. */
  lemma ChallengeIsInserted(s: State, t: nat, env: Env)
    requires Inv(s) && t < |s.tasks| && s.tasks[t].Choosing? && env.maxAttempts > 0
    requires var r := s.tasks[t].record;
             && r < |s.records| && s.records[r].status == Captcha && s.records[r].expiresAt >= s.now
             && (forall i | 0 <= i < |s.sessions| && s.sessions[i].approval == r :: !s.sessions[i].open)
             && Fits(Reconcile(s, s.records[r].user), s.records[r].user, env.code)
    ensures var r, c := s.tasks[t].record, Reconcile(s, s.records[s.tasks[t].record].user);
            Runs(s, [Turn(t, env)], AfterInserting(s, c, t, r, env)) && Inv(AfterInserting(s, c, t, r, env))
  {
    ChooseInserts(s, t, env);
    StepKeepsInv(s, Turn(t, env));
    OneTurn(s, t, env);
  }

  /** Delivered, it stays open; otherwise it is closed again and its request goes to the operators. */
  lemma DeliveryEnds(s: State, t: nat, env: Env)
    requires Inv(s) && t < |s.tasks| && s.tasks[t].Sending? && env.maxAttempts > 0
    requires s.tasks[t].record < |s.records| && s.records[s.tasks[t].record].status == Captcha
    requires s.tasks[t].session < |s.sessions|
    ensures var r, i := s.tasks[t].record, s.tasks[t].session;
            && Enabled(s, Turn(t, env)) && Inv(RunTurn(s, t, env))
            && RunTurn(s, t, env).tasks == s.tasks[t := Idle]
            && RunTurn(s, t, env)
               == if env.ok then s.(tasks := s.tasks[t := Idle])
                  else s.(records := s.records[r := s.records[r].(status := Pending)],
                          sessions := s.sessions[i := s.sessions[i].(open := false)], tasks := s.tasks[t := Idle])
  {
    StepKeepsInv(s, Turn(t, env));
  }

  /** What a challenge that fits leaves. */
  ghost predicate Challenged(c: State, now: nat, r: nat, env: Env, after: State)
    requires r < |c.records|
  {
    && after == c.(records := after.records, sessions := after.sessions, tasks := after.tasks)
    && after.sessions
       == c.sessions + [Session(r, c.records[r].user, env.code, 0, env.maxAttempts, now + env.ttl, env.ok)]
    && after.records == if env.ok then c.records else c.records[r := c.records[r].(status := Pending)]
  }

  lemma InsertedEnds(s: State, c: State, t: nat, r: nat, env: Env) returns (after: State)
    requires t < |s.tasks| && r < |s.records| && env.maxAttempts > 0 && Inv(AfterInserting(s, c, t, r, env))
    requires r < |c.records| && c.records[r] == s.records[r] && s.records[r].status == Captcha
    ensures Runs(AfterInserting(s, c, t, r, env), [Turn(t, env)], after) && Inv(after)
    ensures Challenged(c, s.now, r, env, after) && after.tasks == s.tasks[t := Idle]
  {
    var inserted := AfterInserting(s, c, t, r, env);
    DeliveryEnds(inserted, t, env);
    after := RunTurn(inserted, t, env);
    OneTurn(inserted, t, env);
    assert after.tasks == s.tasks[t := Idle];
    assert after.sessions == c.sessions + [after.sessions[|c.sessions|]];
  }

  /** From the choice on. */
  lemma ChosenEnds(s: State, t: nat, env: Env) returns (steps: seq<Step>, after: State)
    requires Inv(s) && t < |s.tasks| && s.tasks[t].Choosing? && env.maxAttempts > 0
    requires var r := s.tasks[t].record;
             && r < |s.records| && s.records[r].status == Captcha && s.records[r].expiresAt >= s.now
             && (forall i | 0 <= i < |s.sessions| && s.sessions[i].approval == r :: !s.sessions[i].open)
             && Fits(Reconcile(s, s.records[r].user), s.records[r].user, env.code)
    ensures var r, c := s.tasks[t].record, Reconcile(s, s.records[s.tasks[t].record].user);
            && Runs(s, steps, after) && Inv(after) && r < |c.records|
            && Challenged(c, s.now, r, env, after) && after.tasks == s.tasks[t := Idle]
  {
    var r := s.tasks[t].record;
    ChallengeIsInserted(s, t, env);
    AwaitingIsLeftAlone(s, r);
    var c := Reconcile(s, s.records[r].user);
    after := InsertedEnds(s, c, t, r, env);
    RunsChain(s, [Turn(t, env)], AfterInserting(s, c, t, r, env), [Turn(t, env)], after);
    steps := [Turn(t, env)] + [Turn(t, env)];
  }

  /**
   A request that awaits its challenge gets one session with no attempt spent and a code of its own, as far as its user
   has room for it; if the message cannot be delivered, the session is closed and the request goes to the operators.
   */
  lemma ChallengeEnds(s: State, t: nat, env: Env) returns (steps: seq<Step>, after: State)
    requires Inv(s) && t < |s.tasks| && s.tasks[t].Issuing? && AwaitsChallenge(s, s.tasks[t].record)
    requires env.maxAttempts > 0
    requires Fits(Reconcile(s, s.records[s.tasks[t].record].user), s.records[s.tasks[t].record].user, env.code)
    ensures var r, c := s.tasks[t].record, Reconcile(s, s.records[s.tasks[t].record].user);
            && Runs(s, steps, after) && Inv(after) && r < |c.records|
            && Challenged(c, s.now, r, env, after) && after.tasks == s.tasks[t := Idle]
  {
    var r := s.tasks[t].record;
    var c := Reconcile(s, s.records[r].user);
    ChallengeBegins(s, t, env);
    assert Active(Become(c, t, Choosing(r)), s.records[r].user) == Active(c, s.records[r].user);
    var chosen := Become(s, t, Choosing(r));
    var rest, last := ChosenEnds(chosen, t, env);
    assert last.tasks == s.tasks[t := Idle];
    RunsChain(s, [Turn(t, env)], chosen, rest, last);
    steps, after := [Turn(t, env)] + rest, last;
  }

  /** Where its user has no room the request goes to the operators without a session. */
  lemma NoRoomEnds(s: State, t: nat, env: Env) returns (steps: seq<Step>, after: State)
    requires Inv(s) && t < |s.tasks| && s.tasks[t].Choosing? && env.maxAttempts > 0
    requires var r := s.tasks[t].record;
             && r < |s.records| && s.records[r].status == Captcha && s.records[r].expiresAt >= s.now
             && (forall i | 0 <= i < |s.sessions| && s.sessions[i].approval == r :: !s.sessions[i].open)
             && |Active(Reconcile(s, s.records[r].user), s.records[r].user)| >= 5
    ensures var r, c := s.tasks[t].record, Reconcile(s, s.records[s.tasks[t].record].user);
            && Runs(s, steps, after) && Inv(after) && r < |c.records|
            && after.sessions == c.sessions && after.records == c.records[r := c.records[r].(status := Pending)]
            && after.tasks == s.tasks[t := Idle]
  {
    AwaitingIsLeftAlone(s, s.tasks[t].record);
    StepKeepsInv(s, Turn(t, env));
    var told := RunTurn(s, t, env);
    NotifyEnds(told, t);
    after := told.(tasks := told.tasks[t := Idle]);
    ThenRuns(s, t, env, [Turn(t, Says(true))], after);
    steps := [Turn(t, env)] + [Turn(t, Says(true))];
    assert after.tasks == s.tasks[t := Idle];
  }

  // ----- new requests -----

  /** A request with a flag of its own whose approval lock is free. */
  ghost predicate IsNew(s: State, t: nat) {
    && t < |s.tasks| && s.tasks[t].Routing? && FlagFree(s, s.tasks[t].flag)
    && forall r | 0 <= r < |s.records| :: s.records[r].flag != s.tasks[t].flag
  }

  /** The row a new request gets. */
  function RowOf(s: State, work: Work, status: Status): Record
    requires work.Routing?
  {
    Record(work.flag, work.group, work.user, status, s.now + work.ttl)
  }

  /** The state after the turn that records a request for a captcha, and starts the task of its challenge. */
  function AfterAsking(s: State, t: nat): State
    requires t < |s.tasks| && s.tasks[t].Routing?
  {
    s.(records := s.records + [RowOf(s, s.tasks[t], Captcha)], ledger := Bump(s.ledger, s.tasks[t].group, Total),
       tasks := s.tasks[t := Idle] + [Issuing(|s.records|)])
  }

  lemma RouteAsks(s: State, t: nat)
    requires IsNew(s, t) && s.tasks[t].route == ToCaptcha
    ensures RouteRequest(s, t) == AfterAsking(s, t)
  {
  }

  lemma CaptchaIsAsked(s: State, t: nat)
    requires Inv(s) && IsNew(s, t) && s.tasks[t].route == ToCaptcha
    ensures Runs(s, [Turn(t, Says(true))], AfterAsking(s, t)) && Inv(AfterAsking(s, t))
  {
    RouteAsks(s, t);
    StepKeepsInv(s, Turn(t, Says(true)));
    OneTurn(s, t, Says(true));
  }

  /** Nobody has worked on the new request, and it has no session. */
  lemma AskedAwaitsChallenge(s: State, t: nat)
    requires Refs(s) && t < |s.tasks| && s.tasks[t].Routing?
    ensures AwaitsChallenge(AfterAsking(s, t), |s.records|)
  {
    var after := AfterAsking(s, t);
    forall u | 0 <= u < |after.tasks| ensures CaptchaHeld(after, after.tasks[u]) != Some(|s.records|) {
      if u < |s.tasks| && u != t {
        assert WorkRefs(s, s.tasks[u]);
      }
    }
  }

  /** The rows of the new request after the turn that recorded it. */
  function Recorded(s: State, work: Work): State
    requires work.Routing?
  {
    s.(records := s.records + [RowOf(s, work, Captcha)])
  }

  lemma ChallengedAfterAll(s: State, t: nat, asked: State, env: Env, last: State)
    requires Inv(asked) && t < |s.tasks| && s.tasks[t].Routing?
    requires asked == Recorded(s, s.tasks[t]).(ledger := asked.ledger, tasks := asked.tasks)
    requires AwaitsChallenge(asked, |s.records|)
    requires var c := Reconcile(asked, s.tasks[t].user);
             |s.records| < |c.records| && Challenged(c, s.now, |s.records|, env, last)
    ensures |last.records| == |s.records| + 1
    ensures last.records[|s.records|] == RowOf(s, s.tasks[t], if env.ok then Captcha else Pending)
    ensures last.sessions
            == Reconcile(Recorded(s, s.tasks[t]), s.tasks[t].user).sessions
               + [Session(|s.records|, s.tasks[t].user, env.code, 0, env.maxAttempts, s.now + env.ttl, env.ok)]
  {
    AwaitingIsLeftAlone(asked, |s.records|);
    ReconcileIgnoresRest(Recorded(s, s.tasks[t]), asked, s.tasks[t].user);
    ReconcileIsUndecided(asked, s.tasks[t].user);
  }

  lemma FitsWhereRecorded(s: State, t: nat, asked: State, code: nat)
    requires t < |s.tasks| && s.tasks[t].Routing?
    requires asked == Recorded(s, s.tasks[t]).(ledger := asked.ledger, tasks := asked.tasks)
    requires Fits(Reconcile(Recorded(s, s.tasks[t]), s.tasks[t].user), s.tasks[t].user, code)
    ensures Fits(Reconcile(asked, s.tasks[t].user), s.tasks[t].user, code)
  {
    ReconcileIgnoresRest(Recorded(s, s.tasks[t]), asked, s.tasks[t].user);
  }

  /** A request that its rule sends to a captcha is recorded and gets its challenge. */
  lemma RoutedToCaptchaEnds(s: State, t: nat, env: Env) returns (steps: seq<Step>, after: State)
    requires Inv(s) && IsNew(s, t) && s.tasks[t].route == ToCaptcha && env.maxAttempts > 0
    requires Fits(Reconcile(Recorded(s, s.tasks[t]), s.tasks[t].user), s.tasks[t].user, env.code)
    ensures Runs(s, steps, after) && Inv(after) && |after.records| == |s.records| + 1
    ensures after.records[|s.records|] == RowOf(s, s.tasks[t], if env.ok then Captcha else Pending)
    ensures after.sessions
            == Reconcile(Recorded(s, s.tasks[t]), s.tasks[t].user).sessions
               + [Session(|s.records|, s.tasks[t].user, env.code, 0, env.maxAttempts, s.now + env.ttl, env.ok)]
    ensures after.tasks == s.tasks[t := Idle] + [Idle]
  {
    var asked := AfterAsking(s, t);
    CaptchaIsAsked(s, t);
    AskedAwaitsChallenge(s, t);
    FitsWhereRecorded(s, t, asked, env.code);
    var rest, last := ChallengeEnds(asked, |s.tasks|, env);
    ChallengedAfterAll(s, t, asked, env, last);
    RunsChain(s, [Turn(t, Says(true))], asked, rest, last);
    steps, after := [Turn(t, Says(true))] + rest, last;
    assert after.tasks == s.tasks[t := Idle] + [Idle];
  }

  /** The state after the turn that records a request that needs no captcha. */
  function AfterRecording(s: State, t: nat): State
    requires t < |s.tasks| && s.tasks[t].Routing?
  {
    var work, r := s.tasks[t], |s.records|;
    var next := if work.route == ToOperator then Idle else Calling(r, work.route == ApproveNow, None);
    s.(records := s.records + [RowOf(s, work, Pending)], ledger := Bump(s.ledger, work.group, Total),
       tasks := s.tasks[t := next])
  }

  lemma DirectlyRecorded(s: State, t: nat)
    requires Inv(s) && IsNew(s, t) && s.tasks[t].route != ToCaptcha
    ensures Enabled(s, Turn(t, Says(true))) && RunTurn(s, t, Says(true)) == AfterRecording(s, t)
    ensures Inv(AfterRecording(s, t))
  {
    StepKeepsInv(s, Turn(t, Says(true)));
  }

  lemma CalledAfterRecording(s: State, t: nat, ok: bool, last: State)
    requires t < |s.tasks| && s.tasks[t].Routing? && s.tasks[t].route !in {ToCaptcha, ToOperator}
    requires CallOver(AfterRecording(s, t), |s.records|, s.tasks[t].route == ApproveNow, ok, last)
    requires last.tasks == AfterRecording(s, t).tasks[t := Idle]
    ensures last.records == s.records + [RowOf(s, s.tasks[t], if !ok then Pending
                                                              else if s.tasks[t].route == ApproveNow then Approved
                                                              else Rejected)]
    ensures last.acks == s.acks + (if ok then [Ack(|s.records|, s.tasks[t].route == ApproveNow)] else [])
    ensures last.sessions == s.sessions && last.tasks == s.tasks[t := Idle]
  {
  }

  /** Any other new request ends decided by its rule, if the provider acknowledges, and otherwise with the operators. */
  lemma RoutedDirectlyEnds(s: State, t: nat, ok: bool) returns (steps: seq<Step>, after: State)
    requires Inv(s) && IsNew(s, t) && s.tasks[t].route != ToCaptcha
    ensures Runs(s, steps, after) && Inv(after)
    ensures var route := s.tasks[t].route;
            && after.records
               == s.records + [RowOf(s, s.tasks[t], if !ok || route == ToOperator then Pending
                                                    else if route == ApproveNow then Approved else Rejected)]
            && after.acks
               == s.acks + (if !ok || route == ToOperator then [] else [Ack(|s.records|, route == ApproveNow)])
            && after.sessions == s.sessions && after.tasks == s.tasks[t := Idle]
  {
    DirectlyRecorded(s, t);
    var recorded := AfterRecording(s, t);
    if s.tasks[t].route == ToOperator {
      OneTurn(s, t, Says(true));
      steps, after := [Turn(t, Says(true))], recorded;
    } else {
      var rest, last := CallEnds(recorded, t, ok);
      CalledAfterRecording(s, t, ok, last);
      ThenRuns(s, t, Says(true), rest, last);
      steps, after := [Turn(t, Says(true))] + rest, last;
    }
  }

  /** The operator's turn under the approval lock. */
  lemma OperatorMeets(s: State, t: nat)
    requires Inv(s) && t < |s.tasks| && s.tasks[t].Operating?
    requires s.tasks[t].record < |s.records| && FlagFree(s, s.records[s.tasks[t].record].flag)
    ensures Enabled(s, Turn(t, Says(true))) && Inv(RunTurn(s, t, Says(true)))
    ensures var r, approve, after := s.tasks[t].record, s.tasks[t].approve, RunTurn(s, t, Says(true));
            var record := s.records[r];
            if record.status == Pending && s.now < record.expiresAt then
              after == s.(tasks := s.tasks[t := Calling(r, approve, None)])
            else if record.status == Pending then
              after == s.(records := s.records[r := record.(status := Expired)], tasks := s.tasks[t := Idle])
            else after == s.(tasks := s.tasks[t := Idle])
  {
    StepKeepsInv(s, Turn(t, Says(true)));
  }

  /** An operator decides a pending request in time, finds an expired one, or changes nothing. */
  lemma OperatorEnds(s: State, t: nat, ok: bool) returns (steps: seq<Step>, after: State)
    requires Inv(s) && t < |s.tasks| && s.tasks[t].Operating?
    requires s.tasks[t].record < |s.records| && FlagFree(s, s.records[s.tasks[t].record].flag)
    ensures Runs(s, steps, after) && Inv(after) && after.tasks == s.tasks[t := Idle]
    ensures var r := s.tasks[t].record;
            var record := s.records[r];
            if record.status == Pending && s.now < record.expiresAt then
              CallOver(s, r, s.tasks[t].approve, ok, after)
            else if record.status == Pending then
              after == s.(records := s.records[r := record.(status := Expired)], tasks := after.tasks)
            else after == s.(tasks := after.tasks)
  {
    OperatorMeets(s, t);
    var record := s.records[s.tasks[t].record];
    if record.status == Pending && s.now < record.expiresAt {
      var rest, last := CallEnds(s.(tasks := s.tasks[t := Calling(s.tasks[t].record, s.tasks[t].approve, None)]), t, ok);
      assert last.tasks == s.tasks[t := Idle];
      ThenRuns(s, t, Says(true), rest, last);
      steps, after := [Turn(t, Says(true))] + rest, last;
    } else {
      OneTurn(s, t, Says(true));
      steps, after := [Turn(t, Says(true))], RunTurn(s, t, Says(true));
    }
  }
}
