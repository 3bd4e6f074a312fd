/** What holds over every run of the admission tasks. */
module AdmissionRuns {
  import opened Prelude
  import opened AdmissionState
  import opened Admission
  import opened AdmissionProofs

  /** Any interleaving: each step is enabled where it is taken. */
  ghost predicate Runs(s: State, steps: seq<Step>, t: State)
    decreases |steps|
  {
    if steps == [] then s == t
    else Enabled(s, steps[0]) && Runs(Next(s, steps[0]), steps[1..], t)
  }

  lemma RunsTwoSteps(s: State, a: Step, b: Step)
    requires Enabled(s, a) && Enabled(Next(s, a), b)
    ensures Runs(s, [a, b], Next(Next(s, a), b))
  {
    assert [a, b][1..] == [b] && [b][1..] == [];
    assert Runs(Next(Next(s, a), b), [], Next(Next(s, a), b));
    assert Runs(Next(s, a), [b], Next(Next(s, a), b));
  }

  lemma {:induction false} RunsChain(s: State, first: seq<Step>, m: State, second: seq<Step>, t: State)
    requires Runs(s, first, m) && Runs(m, second, t)
    ensures Runs(s, first + second, t)
    decreases |first|
  {
    if first == [] {
      assert first + second == second;
    } else {
      assert (first + second)[1..] == first[1..] + second;
      RunsChain(Next(s, first[0]), first[1..], m, second, t);
    }
  }

  lemma EmptyInv(now: nat)
    ensures Inv(State(now, [], [], [], [], map[], 0))
  {
  }

  lemma EvolvesReflexive(s: State)
    ensures Evolves(s, s)
  {
  }

  lemma {:induction false} RunKeepsInv(s: State, steps: seq<Step>, t: State)
    requires Inv(s) && Runs(s, steps, t)
    ensures Inv(t) && Evolves(s, t)
    decreases |steps|
  {
    if steps == [] {
      EvolvesReflexive(s);
    } else {
      StepKeepsInv(s, steps[0]);
      RunKeepsInv(Next(s, steps[0]), steps[1..], t);
      EvolvesTransitive(s, Next(s, steps[0]), t);
    }
  }

  /**
   In every run a flag has at most one record, and a record at most one acknowledged decision. A decided record stays
   as it is, and captcha is entered only when a record is created.
   */
  lemma OneDecisionPerRequest(s: State, steps: seq<Step>, t: State)
    requires Inv(s) && Runs(s, steps, t)
    ensures forall a, b :: 0 <= a < b < |t.records| ==> t.records[a].flag != t.records[b].flag
    ensures forall a, b :: 0 <= a < b < |t.acks| ==> t.acks[a].record != t.acks[b].record
    ensures |s.records| <= |t.records|
    ensures forall r :: 0 <= r < |s.records| && Decided(s.records[r].status) ==>
              t.records[r].status == s.records[r].status
    ensures forall r :: 0 <= r < |s.records| && s.records[r].status != Captcha ==> t.records[r].status != Captcha
  {
    RunKeepsInv(s, steps, t);
    forall r | 0 <= r < |s.records|
      ensures Decided(s.records[r].status) ==> t.records[r].status == s.records[r].status
      ensures s.records[r].status != Captcha ==> t.records[r].status != Captcha
    {
      assert RecordEvolves(s.records[r], t.records[r]);
    }
  }

  /** Whenever no provider call is in flight, a record is decided exactly as its provider acknowledged. */
  lemma StatusIsAcknowledgement(s: State, steps: seq<Step>, t: State, r: nat, approve: bool)
    requires Inv(s) && Runs(s, steps, t) && r < |t.records|
    requires forall u :: 0 <= u < |t.tasks| ==> !InCall(t.tasks[u])
    ensures t.records[r].status == DecisionStatus(approve) <==> Ack(r, approve) in t.acks
  {
    RunKeepsInv(s, steps, t);
    if Ack(r, approve) in t.acks {
      var k :| 0 <= k < |t.acks| && t.acks[k] == Ack(r, approve);
      assert AckOk(t, k);
    }
  }

  /** At every point between turns, each counter row is the number of records it counts. */
  lemma LedgerOverRuns(s: State, steps: seq<Step>, t: State, group: Option<Group>)
    requires Inv(s) && Runs(s, steps, t)
    ensures Count(t.ledger, group, Total) == CountRecords(t.records, group, None)
    ensures Count(t.ledger, group, Passed) == CountRecords(t.records, group, Some(Approved))
    ensures Count(t.ledger, group, Refused) == CountRecords(t.records, group, Some(Rejected))
  {
    RunKeepsInv(s, steps, t);
    assert RowAgrees(t, group);
  }

  // ----- captcha bounds -----

  ghost predicate Bounded(s: State, user: User) {
    && |Active(s, user)| <= MAX_ACTIVE_CAPTCHA_SESSIONS_PER_USER
    && (forall i, j :: i in Active(s, user) && j in Active(s, user) && i != j ==>
          s.sessions[i].code != s.sessions[j].code)
  }

  /** Time and the evolution of rows only take sessions out of the active ones. */
  lemma ActiveShrinks(s: State, after: State, user: User)
    requires Refs(s) && Evolves(s, after)
    ensures forall i :: i in Active(after, user) && i < |s.sessions| ==>
              i in Active(s, user) && after.sessions[i].code == s.sessions[i].code
  {
    forall i | i in Active(after, user) && i < |s.sessions|
      ensures i in Active(s, user) && after.sessions[i].code == s.sessions[i].code
    {
      assert SessionEvolves(s.sessions[i], after.sessions[i]);
      var r := s.sessions[i].approval;
      assert RecordEvolves(s.records[r], after.records[r]);
    }
  }

  lemma ShrinkingKeepsBounds(s: State, after: State, user: User)
    requires Refs(s) && Evolves(s, after) && |after.sessions| == |s.sessions| && Bounded(s, user)
    ensures Bounded(after, user)
  {
    ActiveShrinks(s, after, user);
    assert Active(after, user) <= Active(s, user);
    SubsetSize(Active(after, user), Active(s, user));
  }

  /** A session is added only below the limit, and with a code of its own. */
  lemma AdditionKeepsBounds(c: State, session: Session, user: User)
    requires Refs(c) && Bounded(c, user)
    requires session.approval < |c.records| && c.records[session.approval].user == session.user
    requires |Active(c, session.user)| < MAX_ACTIVE_CAPTCHA_SESSIONS_PER_USER
    requires forall i :: i in Active(c, session.user) ==> c.sessions[i].code != session.code
    ensures Bounded(WithSession(c, session), user)
  {
    var after := WithSession(c, session);
    var n := |c.sessions|;
    forall i | i in Active(after, user) && i < n ensures i in Active(c, user) {
      assert after.sessions[i] == c.sessions[i];
    }
    assert Active(after, user) <= Active(c, user) + {n};
    SubsetSize(Active(after, user), Active(c, user) + {n});
    if session.user != user {
      assert Active(after, user) <= Active(c, user);
      SubsetSize(Active(after, user), Active(c, user));
    }
  }

  lemma StepKeepsBounds(s: State, step: Step, user: User)
    requires Inv(s) && Enabled(s, step) && Bounded(s, user)
    ensures Bounded(Next(s, step), user)
  {
    StepKeepsInv(s, step);
    var after := Next(s, step);
    if |after.sessions| == |s.sessions| {
      ShrinkingKeepsBounds(s, after, user);
    } else {
      OnlyIssuingAddsSessions(s, step);
      ChooseKeepsBounds(s, step.task, step.env, user);
    }
  }

  lemma OnlyIssuingAddsSessions(s: State, step: Step)
    requires Inv(s) && Enabled(s, step) && |Next(s, step).sessions| != |s.sessions|
    ensures step.Turn? && step.task < |s.tasks| && s.tasks[step.task].Choosing?
    ensures Next(s, step) == Choose(s, step.task, step.env) && |Choose(s, step.task, step.env).sessions| > |s.sessions|
  {
    StepKeepsInv(s, step);
    if step.Message? {
      ReconcileIsUndecided(s, step.user);
    } else if step.Turn? && !s.tasks[step.task].Choosing? {
      OtherTurnsAddNone(s, step.task, step.env);
    }
  }

  lemma AnswerAddsNone(s: State, t: nat)
    requires Refs(s) && t < |s.tasks| && s.tasks[t].Answering?
    ensures |Answer(s, t).sessions| == |s.sessions|
  {
  }

  lemma RouteAddsNone(s: State, t: nat)
    requires t < |s.tasks| && s.tasks[t].Routing?
    ensures |RouteRequest(s, t).sessions| == |s.sessions|
  {
  }

  lemma OperateAddsNone(s: State, t: nat)
    requires t < |s.tasks| && s.tasks[t].Operating?
    ensures |Operate(s, t).sessions| == |s.sessions|
  {
  }

  lemma OtherTurnsAddNone(s: State, t: nat, env: Env)
    requires Refs(s) && t < |s.tasks| && !s.tasks[t].Choosing?
    ensures |RunTurn(s, t, env).sessions| == |s.sessions|
  {
    match s.tasks[t]
    case Answering(_, _) => AnswerAddsNone(s, t);
    case Routing(_, _, _, _, _) => RouteAddsNone(s, t);
    case Operating(_, _) => OperateAddsNone(s, t);
    case _ =>
  }

  lemma ReconciledBounds(s: State, owner: User, user: User)
    requires Inv(s) && Bounded(s, user)
    ensures Inv(Reconcile(s, owner)) && Evolves(s, Reconcile(s, owner)) && Bounded(Reconcile(s, owner), user)
  {
    ReconcileIsUndecided(s, owner);
    UndecidedKeepsInv(s, Reconcile(s, owner));
    ShrinkingKeepsBounds(s, Reconcile(s, owner), user);
  }

  lemma ChooseKeepsBounds(s: State, t: nat, env: Env, user: User)
    requires Inv(s) && t < |s.tasks| && s.tasks[t].Choosing? && Bounded(s, user)
    requires |Choose(s, t, env).sessions| > |s.sessions|
    ensures Bounded(Choose(s, t, env), user)
  {
    var r := s.tasks[t].record;
    assert WorkRefs(s, s.tasks[t]);
    var owner := s.records[r].user;
    var c := Reconcile(s, owner);
    ReconciledBounds(s, owner, user);
    assert RecordEvolves(s.records[r], c.records[r]);
    var session := NewSession(c, r, env);
    AdditionKeepsBounds(c, session, user);
    TasksDoNotMatter(Choose(s, t, env), WithSession(c, session), user);
  }

  lemma TasksDoNotMatter(s: State, other: State, user: User)
    requires s.now == other.now && s.records == other.records && s.sessions == other.sessions && Bounded(other, user)
    ensures Bounded(s, user)
  {
    assert Active(s, user) == Active(other, user) by {
      forall i: nat ensures ActiveFor(s, user, i) == ActiveFor(other, user, i) {
      }
    }
  }

  /**
   From a state whose users are within bounds, no run gives a user more than five active sessions or two with one code,
   an approval more than one open session, a session more attempts than it allows, or the sweeps more than four slots.
   */
  lemma {:induction false} CaptchaBounds(s: State, steps: seq<Step>, t: State)
    requires Inv(s) && Runs(s, steps, t) && (forall user :: Bounded(s, user))
    ensures forall user :: Bounded(t, user)
    ensures forall i, j :: 0 <= i < j < |t.sessions| && t.sessions[i].open && t.sessions[j].open ==>
              t.sessions[i].approval != t.sessions[j].approval
    ensures forall i :: 0 <= i < |t.sessions| ==> t.sessions[i].attempts <= t.sessions[i].maxAttempts
    ensures SlotsTaken(t.tasks) <= CAPTCHA_EXPIRY_SWEEP_CONCURRENCY
    decreases |steps|
  {
    if steps == [] {
      forall i | 0 <= i < |t.sessions| ensures t.sessions[i].attempts <= t.sessions[i].maxAttempts {
        assert AttemptsOk(t, i);
      }
    } else {
      StepKeepsInv(s, steps[0]);
      forall user: User ensures Bounded(Next(s, steps[0]), user) {
        StepKeepsBounds(s, steps[0], user);
      }
      CaptchaBounds(Next(s, steps[0]), steps[1..], t);
    }
  }

  /** So everything that holds of all runs holds from an empty database on. */
  lemma RunsFromEmpty(now: nat, steps: seq<Step>, t: State)
    requires Runs(State(now, [], [], [], [], map[], 0), steps, t)
    ensures Inv(t) && forall user :: Bounded(t, user)
  {
    var empty := State(now, [], [], [], [], map[], 0);
    EmptyInv(now);
    forall user ensures Bounded(empty, user) {
      assert Active(empty, user) == {};
    }
    RunKeepsInv(empty, steps, t);
    CaptchaBounds(empty, steps, t);
  }

  // ----- reconciliation -----

  /** Expiring requests and closing orphans leaves the active sessions as they are. */
  lemma CleanupKeepsActive(s: State, user: User)
    requires Refs(s)
    ensures var e := CloseOrphans(ExpireRequests(s, user), user);
            && Active(e, user) == Active(s, user)
            && forall i :: i in Active(s, user) ==>
                 e.sessions[i] == s.sessions[i] && e.records[s.sessions[i].approval] == s.records[s.sessions[i].approval]
  {
    var e := CloseOrphans(ExpireRequests(s, user), user);
    forall i: nat ensures ActiveFor(e, user, i) == ActiveFor(s, user, i) {
    }
  }

  function Newer(kept: set<nat>, i: nat): set<nat> {
    set k | k in kept && k > i
  }

  /** Newer sessions keep this one out: five of them, or one with the same code. */
  ghost predicate Outranked(s: State, kept: set<nat>, i: nat)
    requires i < |s.sessions| && forall k :: k in kept ==> k < |s.sessions|
  {
    || |Newer(kept, i)| >= MAX_ACTIVE_CAPTCHA_SESSIONS_PER_USER
    || exists k :: k in Newer(kept, i) && s.sessions[k].code == s.sessions[i].code
  }

  /** Older sessions change nothing about which newer ones are kept. */
  lemma {:induction false} NewerKept(s: State, user: User, n: nat, i: nat)
    requires n <= i < |s.sessions|
    ensures Newer(Kept(s, user, n), i) == Kept(s, user, i + 1)
    decreases i - n
  {
    KeptAreAnswerable(s, user, i + 1);
    if n < i {
      NewerKept(s, user, n + 1, i);
    }
    assert Kept(s, user, n) == Kept(s, user, n + 1) || Kept(s, user, n) == Kept(s, user, n + 1) + {n};
  }

  lemma {:induction false} KeptStays(s: State, user: User, n: nat, i: nat)
    requires n <= i < |s.sessions| && i in Kept(s, user, i)
    ensures i in Kept(s, user, n)
    decreases i - n
  {
    if n < i {
      KeptStays(s, user, n + 1, i);
    }
  }

  /** An answerable session that is not kept has newer ones in its way. */
  lemma NotKeptIsOutranked(s: State, user: User, i: nat)
    requires i < |s.sessions| && ActiveFor(s, user, i) && i !in Kept(s, user, 0)
    ensures (forall k :: k in Kept(s, user, 0) ==> k < |s.sessions|) && Outranked(s, Kept(s, user, 0), i)
  {
    KeptAreAnswerable(s, user, 0);
    NewerKept(s, user, 0, i);
    if Keepable(s, Select(s, user, i + 1), i) {
      KeptStays(s, user, 0, i);
    } else {
      SelectIsTallied(s, user, i + 1);
    }
  }

  function Cleaned(s: State, user: User): State {
    CloseOrphans(ExpireRequests(s, user), user)
  }

  lemma CleanedIsProper(s: State, user: User)
    requires Refs(s) && OneOpenSession(s)
    ensures Refs(Cleaned(s, user)) && OneOpenSession(Cleaned(s, user))
  {
  }

  lemma ReconciledIsBounded(s: State, user: User)
    requires Refs(s) && OneOpenSession(s)
    ensures Active(Reconcile(s, user), user) == Kept(Cleaned(s, user), user, 0)
    ensures Bounded(Reconcile(s, user), user)
  {
    var e, c := Cleaned(s, user), Reconcile(s, user);
    CleanedIsProper(s, user);
    KeptIsActive(e, user);
    SelectIsTallied(e, user, 0);
    forall i, j | i in Active(c, user) && j in Active(c, user) && i != j
      ensures c.sessions[i].code != c.sessions[j].code
    {
      assert c.sessions[i] == e.sessions[i] && c.sessions[j] == e.sessions[j];
    }
  }

  lemma NotKeptIsReturned(s: State, user: User, i: nat)
    requires Refs(s) && OneOpenSession(s) && i in Active(s, user) - Active(Reconcile(s, user), user)
    ensures var c := Reconcile(s, user);
            && !c.sessions[i].open && c.records[s.sessions[i].approval].status == Pending
            && Outranked(s, Active(c, user), i)
  {
    var e := Cleaned(s, user);
    ReconciledIsBounded(s, user);
    CleanupKeepsActive(s, user);
    assert i in Active(e, user) && Retired(e, user, i);
    NotKeptIsOutranked(e, user, i);
    KeptAreAnswerable(e, user, 0);
    SameCodesOutrank(s, e, Kept(e, user, 0), i);
  }

  lemma SameCodesOutrank(s: State, e: State, kept: set<nat>, i: nat)
    requires |e.sessions| == |s.sessions| && i < |s.sessions| && forall k :: k in kept ==> k < |s.sessions|
    requires forall k :: 0 <= k < |s.sessions| ==> e.sessions[k].code == s.sessions[k].code
    requires Outranked(e, kept, i)
    ensures Outranked(s, kept, i)
  {
  }

  /**
   Whatever an earlier release left, reconciling a user splits the answerable sessions exactly: the kept ones stay
   open with their requests awaiting them, every other one is closed and its request returned to the operators; at
   most five are kept, with distinct codes, and what is not kept is outranked by newer sessions that are.
   */
  lemma ReconciliationPartitions(s: State, user: User)
    requires Refs(s) && OneOpenSession(s)
    ensures var c := Reconcile(s, user);
            && |c.sessions| == |s.sessions| && |c.records| == |s.records|
            && Bounded(c, user)
            && Active(c, user) <= Active(s, user)
            && (forall i :: i in Active(s, user) - Active(c, user) ==>
                  && !c.sessions[i].open
                  && c.records[s.sessions[i].approval].status == Pending
                  && Outranked(s, Active(c, user), i))
  {
    var c := Reconcile(s, user);
    ReconciledIsBounded(s, user);
    CleanupKeepsActive(s, user);
    KeptAreAnswerable(Cleaned(s, user), user, 0);
    forall i | i in Active(s, user) - Active(c, user)
      ensures !c.sessions[i].open && c.records[s.sessions[i].approval].status == Pending
      ensures Outranked(s, Active(c, user), i)
    {
      NotKeptIsReturned(s, user, i);
    }
  }

  /** A session is answerable while it is open and neither it nor the request that awaits it is out of time. */
  lemma ActiveIsAnswerable(s: State, user: User, i: nat)
    requires Refs(s) && i < |s.sessions|
    ensures i in Active(s, user) <==>
            var session, record := s.sessions[i], s.records[s.sessions[i].approval];
            && session.user == user && session.open && s.now <= session.expiresAt
            && record.status == Captcha && s.now <= record.expiresAt
  {
  }

  /** A request of the user that awaits its captcha and is out of time. */
  predicate TimedOut(s: State, user: User, r: nat)
    requires r < |s.records|
  {
    s.records[r].user == user && s.records[r].status == Captcha && s.records[r].expiresAt < s.now
  }

  /**
   Every row after a reconciliation: requests out of time have expired, those of retired sessions are back with the
   operators and no other has changed; the user's sessions are closed where nothing awaits them and where they were
   retired, and no other session has changed.
   */
  lemma ReconciliationRows(s: State, user: User)
    requires Refs(s) && OneOpenSession(s)
    ensures var c := Reconcile(s, user);
            && |c.records| == |s.records| && |c.sessions| == |s.sessions| && |Active(c, user)| <= 5
            && (forall r | 0 <= r < |s.records| ::
                  c.records[r] == s.records[r].(status :=
                    if TimedOut(s, user, r) then Expired
                    else if exists i | i in Active(s, user) - Active(c, user) :: s.sessions[i].approval == r then Pending
                    else s.records[r].status))
            && (forall i | 0 <= i < |s.sessions| ::
                  var r := s.sessions[i].approval;
                  c.sessions[i] == s.sessions[i].(open :=
                    && s.sessions[i].open && i !in Active(s, user) - Active(c, user)
                    && (s.sessions[i].user == user ==> s.records[r].status == Captcha && !TimedOut(s, user, r))))
  {
    var e, c := Cleaned(s, user), Reconcile(s, user);
    ReconciliationPartitions(s, user);
    ReconciledIsBounded(s, user);
    CleanupKeepsActive(s, user);
    forall i: nat | i < |s.sessions| ensures Retired(e, user, i) <==> i in Active(s, user) - Active(c, user) {
      assert i in Active(e, user) <==> ActiveFor(e, user, i);
    }
    CleanedRows(s, user);
    RetiredRows(e, user);
  }

  lemma CleanedRows(s: State, user: User)
    requires Refs(s)
    ensures var e := Cleaned(s, user);
            && |e.records| == |s.records| && |e.sessions| == |s.sessions|
            && (forall r | 0 <= r < |s.records| ::
                  e.records[r] == s.records[r].(status := if TimedOut(s, user, r) then Expired else s.records[r].status))
            && (forall i | 0 <= i < |s.sessions| ::
                  var r := s.sessions[i].approval;
                  e.sessions[i] == s.sessions[i].(open :=
                    s.sessions[i].open
                    && (s.sessions[i].user == user ==> s.records[r].status == Captcha && !TimedOut(s, user, r))))
  {
  }

  lemma RetiredRows(e: State, user: User)
    ensures var c := RetireRest(e, user);
            && |c.records| == |e.records| && |c.sessions| == |e.sessions|
            && (forall i | 0 <= i < |e.sessions| ::
                  c.sessions[i] == e.sessions[i].(open := e.sessions[i].open && !Retired(e, user, i)))
            && (forall r | 0 <= r < |e.records| ::
                  c.records[r] == e.records[r].(status :=
                    if exists i | 0 <= i < |e.sessions| :: Retired(e, user, i) && e.sessions[i].approval == r then Pending
                    else e.records[r].status))
  {
  }

  lemma KeptIsActive(e: State, user: User)
    requires Refs(e) && OneOpenSession(e)
    ensures Active(RetireRest(e, user), user) == Kept(e, user, 0)
    ensures forall i :: i in Kept(e, user, 0) ==> RetireRest(e, user).sessions[i] == e.sessions[i]
  {
    var c := RetireRest(e, user);
    KeptAreAnswerable(e, user, 0);
    forall i: nat ensures i in Active(c, user) <==> i in Kept(e, user, 0) {
      if i in Kept(e, user, 0) {
        assert ActiveFor(e, user, i);
        forall k | 0 <= k < |e.sessions| && Retired(e, user, k)
          ensures e.sessions[k].approval != e.sessions[i].approval
        {
          assert e.sessions[k].open && e.sessions[i].open;
        }
      } else if i in Active(c, user) {
        assert !Retired(e, user, i);
        assert ActiveFor(e, user, i);
      }
    }
  }
}
