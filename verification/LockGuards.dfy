/** What the locks are for: calls that wait for a provider under one lock never overlap. */
module LockGuards {
  import opened Prelude
  import opened LockOrder

  /** Every call of these operations is made with a lock held. */
  ghost predicate CallsUnder(todo: seq<Op>, held: seq<Lock>, lock: Lock)
    decreases |todo|
  {
    todo != [] ==>
      match todo[0]
      case Acquire(l) => CallsUnder(todo[1..], held + [l], lock)
      case Release(_) => held != [] ==> CallsUnder(todo[1..], held[..|held| - 1], lock)
      case TryAcquire(l, skip) =>
        && CallsUnder(todo[1..], held + [l], lock)
        && (skip < |todo| ==> CallsUnder(todo[1 + skip..], held, lock))
      case Await => lock in held && CallsUnder(todo[1..], held, lock)
  }

  /** Work whose calls are made so, whatever follows it. */
  ghost predicate Guarded(body: seq<Op>, held: seq<Lock>, lock: Lock) {
    forall rest :: CallsUnder(rest, held, lock) ==> CallsUnder(body + rest, held, lock)
  }

  lemma {:induction false} CallsAreGuarded(n: nat, held: seq<Lock>, lock: Lock)
    requires lock in held
    ensures Guarded(Calls(n), held, lock)
  {
    forall rest | CallsUnder(rest, held, lock) ensures CallsUnder(Calls(n) + rest, held, lock) {
      if n == 0 {
        assert Calls(n) + rest == rest;
      } else {
        CallsAreGuarded(n - 1, held, lock);
        assert (Calls(n) + rest)[1..] == Calls(n - 1) + rest;
      }
    }
  }

  lemma SectionIsGuarded(l: Lock, body: seq<Op>, held: seq<Lock>, lock: Lock)
    requires Guarded(body, held + [l], lock)
    ensures Guarded(Section(l, body), held, lock)
  {
    forall rest | CallsUnder(rest, held, lock) ensures CallsUnder(Section(l, body) + rest, held, lock) {
      var inside := held + [l];
      assert inside[..|inside| - 1] == held;
      assert ([Release(l)] + rest)[1..] == rest;
      assert CallsUnder([Release(l)] + rest, inside, lock);
      assert (Section(l, body) + rest)[1..] == body + ([Release(l)] + rest);
    }
  }

  lemma SequenceIsGuarded(first: seq<Op>, second: seq<Op>, held: seq<Lock>, lock: Lock)
    requires Guarded(first, held, lock) && Guarded(second, held, lock)
    ensures Guarded(first + second, held, lock)
  {
    forall rest | CallsUnder(rest, held, lock) ensures CallsUnder(first + second + rest, held, lock) {
      assert first + second + rest == first + (second + rest);
    }
  }

  lemma EmptyIsGuarded(held: seq<Lock>, lock: Lock)
    ensures Guarded([], held, lock)
  {
    forall rest | CallsUnder(rest, held, lock) ensures CallsUnder([] + rest, held, lock) {
      assert [] + rest == rest;
    }
  }

  lemma GuardedCallsUnder(program: seq<Op>, lock: Lock)
    requires Guarded(program, [], lock)
    ensures CallsUnder(program, [], lock)
  {
    assert CallsUnder([], [], lock);
    assert program + [] == program;
  }

  /** A section makes its own calls under its own lock. */
  lemma OwnSection(lock: Lock, calls: nat, held: seq<Lock>)
    ensures Guarded(Section(lock, Calls(calls)), held, lock)
  {
    CallsAreGuarded(calls, held + [lock], lock);
    SectionIsGuarded(lock, Calls(calls), held, lock);
  }

  lemma {:induction false} PunishmentsAreGuarded(group: string, user: string, calls: seq<nat>, held: seq<Lock>, lock: Lock)
    requires lock in held
    ensures Guarded(Punishments(group, user, calls), held, lock)
  {
    if calls == [] {
      EmptyIsGuarded(held, lock);
    } else {
      var inner := Lock.Punishment(group, user);
      CallsAreGuarded(calls[0], held + [inner], lock);
      SectionIsGuarded(inner, Calls(calls[0]), held, lock);
      PunishmentsAreGuarded(group, user, calls[1..], held, lock);
      SequenceIsGuarded(Section(inner, Calls(calls[0])), Punishments(group, user, calls[1..]), held, lock);
    }
  }

  lemma DecideIsGuarded(decision: Decision, calls: nat, held: seq<Lock>, lock: Lock)
    requires lock in held
    ensures Guarded(Decide(decision) + Calls(calls), held, lock)
  {
    match decision {
      case Untouched => EmptyIsGuarded(held, lock);
      case Decided(flag, n) =>
        CallsAreGuarded(n, held + [Approval(flag)], lock);
        SectionIsGuarded(Approval(flag), Calls(n), held, lock);
    }
    CallsAreGuarded(calls, held, lock);
    SequenceIsGuarded(Decide(decision), Calls(calls), held, lock);
  }

  lemma UserSectionIsGuarded(user: string, held: seq<Lock>, lock: Lock)
    ensures Guarded(Section(CaptchaUser(user), []), held, lock)
  {
    EmptyIsGuarded(held + [CaptchaUser(user)], lock);
    SectionIsGuarded(CaptchaUser(user), [], held, lock);
  }

  /** The lock that an activity holds during every call it makes. */
  function GuardOf(activity: Activity): Option<Lock> {
    match activity
    case JoinRequest(_, _) => None  // its first call comes before the lock
    case OperatorDecision(flag, _) => Some(Approval(flag))
    case IssueChallenge(approval, _, _, _) => Some(Captcha(approval))
    case PrivateMessage(_, answered, _, _) => if answered.Some? then Some(Captcha(answered.value)) else None
    case ExpireSession(approval, _, _) => Some(Captcha(approval))
    case Join(group, user, _, _) => Some(MemberJoin(group, user))
    case Punish(group, user, _) => Some(Lock.Punishment(group, user))
    case RunUpdate(_) => Some(Lock.Update)
  }

  lemma IssueIsGuarded(approval: nat, user: string, counted: bool, calls: nat)
    ensures CallsUnder(Program(IssueChallenge(approval, user, counted, calls)), [], Captcha(approval))
  {
    var lock := Captcha(approval);
    var inner := if counted then Section(CaptchaUser(user), []) else [];
    if counted {
      UserSectionIsGuarded(user, [] + [lock], lock);
    } else {
      EmptyIsGuarded([] + [lock], lock);
    }
    CallsAreGuarded(calls, [] + [lock], lock);
    SequenceIsGuarded(inner, Calls(calls), [] + [lock], lock);
    SectionIsGuarded(lock, inner + Calls(calls), [], lock);
    GuardedCallsUnder(Section(lock, inner + Calls(calls)), lock);
  }

  lemma MessageIsGuarded(user: string, approval: nat, decision: Decision, calls: nat)
    ensures CallsUnder(Program(PrivateMessage(user, Some(approval), decision, calls)), [], Captcha(approval))
  {
    var lock := Captcha(approval);
    UserSectionIsGuarded(user, [], lock);
    DecideIsGuarded(decision, calls, [] + [lock], lock);
    SectionIsGuarded(lock, Decide(decision) + Calls(calls), [], lock);
    SequenceIsGuarded(Section(CaptchaUser(user), []), Section(lock, Decide(decision) + Calls(calls)), [], lock);
    GuardedCallsUnder(Program(PrivateMessage(user, Some(approval), decision, calls)), lock);
  }

  lemma ExpiryIsGuarded(approval: nat, decision: Decision, calls: nat)
    ensures CallsUnder(Program(ExpireSession(approval, decision, calls)), [], Captcha(approval))
  {
    var program := Program(ExpireSession(approval, decision, calls));
    var body, lock := Decide(decision) + Calls(calls), Captcha(approval);
    DecideIsGuarded(decision, calls, [lock], lock);
    assert [Release(lock)][1..] == [] && CallsUnder([Release(lock)], [lock], lock);
    assert CallsUnder(body + [Release(lock)], [lock], lock);
    assert [] + [lock] == [lock];
    assert program[1..] == body + [Release(lock)];
    assert program[1 + (|body| + 1)..] == [];
  }

  lemma JoinIsGuarded(group: string, user: string, punishments: seq<nat>, calls: nat)
    ensures CallsUnder(Program(Join(group, user, punishments, calls)), [], MemberJoin(group, user))
  {
    var lock := MemberJoin(group, user);
    PunishmentsAreGuarded(group, user, punishments, [] + [lock], lock);
    CallsAreGuarded(calls, [] + [lock], lock);
    SequenceIsGuarded(Punishments(group, user, punishments), Calls(calls), [] + [lock], lock);
    SectionIsGuarded(lock, Punishments(group, user, punishments) + Calls(calls), [], lock);
    GuardedCallsUnder(Program(Join(group, user, punishments, calls)), lock);
  }

  lemma ProgramsAreGuarded(activity: Activity)
    requires GuardOf(activity).Some?
    ensures CallsUnder(Program(activity), [], GuardOf(activity).value)
  {
    match activity
    case OperatorDecision(flag, calls) =>
      OwnSection(Approval(flag), calls, []);
      GuardedCallsUnder(Program(activity), Approval(flag));
    case IssueChallenge(approval, user, counted, calls) => IssueIsGuarded(approval, user, counted, calls);
    case PrivateMessage(user, answered, decision, calls) => MessageIsGuarded(user, answered.value, decision, calls);
    case ExpireSession(approval, decision, calls) => ExpiryIsGuarded(approval, decision, calls);
    case Join(group, user, punishments, calls) => JoinIsGuarded(group, user, punishments, calls);
    case Punish(group, user, calls) =>
      OwnSection(Lock.Punishment(group, user), calls, []);
      GuardedCallsUnder(Program(activity), Lock.Punishment(group, user));
    case RunUpdate(calls) =>
      OwnSection(Lock.Update, calls, []);
      GuardedCallsUnder(Program(activity), Lock.Update);
  }

  // ----- runs -----

  /** What is left of a guarded task is guarded. */
  lemma TurnStaysGuarded(s: State, i: nat, j: nat, lock: Lock)
    requires Inv(s) && Enabled(s, i) && j < |s.tasks| && CallsUnder(s.tasks[j].todo, s.tasks[j].held, lock)
    ensures CallsUnder(Turn(s, i).tasks[j].todo, Turn(s, i).tasks[j].held, lock)
  {
    assert TaskOk(s, j);
  }

  lemma {:induction false} RunStaysGuarded(s: State, schedule: seq<nat>, t: State, j: nat, lock: Lock)
    requires Inv(s) && Runs(s, schedule, t) && j < |s.tasks| && CallsUnder(s.tasks[j].todo, s.tasks[j].held, lock)
    ensures j < |t.tasks| && CallsUnder(t.tasks[j].todo, t.tasks[j].held, lock)
    decreases |schedule|
  {
    if schedule != [] {
      TurnKeepsInv(s, schedule[0]);
      TurnStaysGuarded(s, schedule[0], j, lock);
      RunStaysGuarded(Turn(s, schedule[0]), schedule[1..], t, j, lock);
    }
  }

  predicate IsCalling(task: Task) {
    task.todo != [] && task.todo[0].Await?
  }

  /**
   Under every schedule of any mix of activities, two that make their calls under one lock never have a call out at the
   same time.
   */
  lemma CallsNeverOverlap(activities: seq<Activity>, s: State, schedule: seq<nat>, t: State, i: nat, j: nat)
    requires s.queues == map[] && |s.tasks| == |activities|
    requires forall k :: 0 <= k < |activities| ==> s.tasks[k] == Task(Program(activities[k]), [], false)
    requires Runs(s, schedule, t) && i < |activities| && j < |activities| && i != j
    requires GuardOf(activities[i]).Some? && GuardOf(activities[i]) == GuardOf(activities[j])
    ensures i < |t.tasks| && j < |t.tasks| && !(IsCalling(t.tasks[i]) && IsCalling(t.tasks[j]))
  {
    var lock := GuardOf(activities[i]).value;
    forall k | 0 <= k < |s.tasks| ensures Disciplined(s.tasks[k].todo, []) {
      ProgramsAreDisciplined(activities[k]);
    }
    InitialInv(s);
    ProgramsAreGuarded(activities[i]);
    ProgramsAreGuarded(activities[j]);
    RunStaysGuarded(s, schedule, t, i, lock);
    RunStaysGuarded(s, schedule, t, j, lock);
    RunKeepsInv(s, schedule, t);
    assert TaskOk(t, i) && TaskOk(t, j);
  }

  /** Once its first call is over, the calls of a join request are made under the lock of its flag as well. */
  lemma JoinRequestIsGuarded(flag: string, calls: nat)
    ensures var program := Program(JoinRequest(flag, calls));
            program[0] == Await && CallsUnder(program[1..], [], Approval(flag))
  {
    OwnSection(Approval(flag), calls, []);
    GuardedCallsUnder(Section(Approval(flag), Calls(calls)), Approval(flag));
    assert Program(JoinRequest(flag, calls))[1..] == Section(Approval(flag), Calls(calls));
  }

  lemma DecisionsAreGuarded(flag: string, calls: nat, held: seq<Lock>)
    ensures Guarded(Decide(Decided(flag, calls)), held, Approval(flag))
  {
    OwnSection(Approval(flag), calls, held);
  }
}
