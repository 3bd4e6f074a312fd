/**
 Guardian's tasks take named locks in a fixed order. Each task is the list of its remaining lock operations and
 provider calls; every lock is the first-in first-out queue that its table implements.
 */
module LockOrder {
  import opened Prelude

  datatype Lock =
    | MemberJoin(group: string, user: string)
    | Captcha(approval: nat)
    | Update
    | Punishment(group: string, user: string)
    | CaptchaUser(user: string)
    | Approval(flag: string)

  const MAX_RANK: nat := 1

  /** Outer locks are taken before inner ones. */
  function Rank(lock: Lock): (rank: nat)
    ensures rank <= MAX_RANK
  {
    if lock.MemberJoin? || lock.Captcha? || lock.Update? then 0 else 1
  }

  /** TryAcquire takes a free lock at once, or skips the given number of operations. */
  datatype Op = Acquire(lock: Lock) | Release(lock: Lock) | TryAcquire(lock: Lock, skip: nat) | Await

  datatype Task = Task(todo: seq<Op>, held: seq<Lock>, queued: bool)

  datatype State = State(tasks: seq<Task>, queues: map<Lock, seq<nat>>) {

    function QueueOf(lock: Lock): seq<nat> {
      if lock in queues then queues[lock] else []
    }
  }

  ghost predicate Above(lock: Lock, held: seq<Lock>) {
    forall h :: h in held ==> Rank(h) < Rank(lock)
  }

  /** Locks are taken in rank order, released in reverse, and all released at the end. */
  ghost predicate Disciplined(todo: seq<Op>, held: seq<Lock>)
    decreases |todo|
  {
    if todo == [] then held == []
    else
      match todo[0]
      case Acquire(lock) => Above(lock, held) && Disciplined(todo[1..], held + [lock])
      case Release(lock) => held != [] && held[|held| - 1] == lock && Disciplined(todo[1..], held[..|held| - 1])
      case TryAcquire(lock, skip) =>
        && Above(lock, held)
        && Disciplined(todo[1..], held + [lock])
        && skip < |todo|
        && Disciplined(todo[1 + skip..], held)
      case Await => Disciplined(todo[1..], held)
  }

  // ----- turns -----

  predicate Waiting(s: State, i: nat)
    requires i < |s.tasks|
  {
    var task := s.tasks[i];
    && task.queued
    && task.todo != [] && task.todo[0].Acquire?
    && var queue := s.QueueOf(task.todo[0].lock);
       queue != [] && queue[0] != i
  }

  predicate Enabled(s: State, i: nat) {
    i < |s.tasks| && s.tasks[i].todo != [] && !Waiting(s, i)
  }

  function Turn(s: State, i: nat): State
    requires Enabled(s, i)
  {
    var task := s.tasks[i];
    match task.todo[0]
    case Acquire(lock) =>
      if !task.queued then
        State(s.tasks[i := task.(queued := true)], s.queues[lock := s.QueueOf(lock) + [i]])
      else
        State(s.tasks[i := Task(task.todo[1..], task.held + [lock], false)], s.queues)
    case Release(lock) =>
      var queue := s.QueueOf(lock);
      State(s.tasks[i := Task(task.todo[1..], if task.held == [] then [] else task.held[..|task.held| - 1], false)],
            s.queues[lock := if queue == [] then [] else queue[1..]])
    case TryAcquire(lock, skip) =>
      if s.QueueOf(lock) == [] then
        State(s.tasks[i := Task(task.todo[1..], task.held + [lock], false)], s.queues[lock := [i]])
      else
        State(s.tasks[i := Task(if skip < |task.todo| then task.todo[1 + skip..] else [], task.held, false)], s.queues)
    case Await =>
      State(s.tasks[i := Task(task.todo[1..], task.held, false)], s.queues)
  }

  // ----- invariant -----

  ghost predicate Strict(held: seq<Lock>) {
    forall a, b :: 0 <= a < b < |held| ==> Rank(held[a]) < Rank(held[b])
  }

  predicate WantsQueued(task: Task, lock: Lock) {
    task.queued && task.todo != [] && task.todo[0] == Acquire(lock)
  }

  ghost predicate TaskOk(s: State, i: nat)
    requires i < |s.tasks|
  {
    var task := s.tasks[i];
    && Disciplined(task.todo, task.held)
    && Strict(task.held)
    && (task.queued ==> task.todo != [] && task.todo[0].Acquire?)
    && (forall lock :: lock in task.held ==> s.QueueOf(lock) != [] && s.QueueOf(lock)[0] == i)
    && (forall lock :: WantsQueued(task, lock) ==> i in s.QueueOf(lock))
  }

  ghost predicate QueueOk(s: State, lock: Lock) {
    var queue := s.QueueOf(lock);
    && (forall a, b :: 0 <= a < b < |queue| ==> queue[a] != queue[b])
    && (forall k :: 0 <= k < |queue| ==>
          && queue[k] < |s.tasks|
          && (lock in s.tasks[queue[k]].held || WantsQueued(s.tasks[queue[k]], lock)))
  }

  ghost predicate Inv(s: State) {
    && (forall i :: 0 <= i < |s.tasks| ==> TaskOk(s, i))
    && (forall lock :: QueueOk(s, lock))
  }

  ghost predicate Initial(s: State) {
    && s.queues == map[]
    && forall i :: 0 <= i < |s.tasks| ==>
         s.tasks[i].held == [] && !s.tasks[i].queued && Disciplined(s.tasks[i].todo, [])
  }

  lemma InitialInv(s: State)
    requires Initial(s)
    ensures Inv(s)
  {
    forall lock ensures QueueOk(s, lock) {
      assert s.QueueOf(lock) == [];
    }
  }

  /** What a turn relies on: the order of the locks held, and the place of the task in its queues. */
  ghost predicate TurnFacts(s: State, i: nat)
    requires Enabled(s, i)
  {
    var task := s.tasks[i];
    match task.todo[0]
    case Acquire(lock) =>
      && lock !in task.held
      && (task.queued ==> s.QueueOf(lock) != [] && s.QueueOf(lock)[0] == i)
      && (!task.queued ==> i !in s.QueueOf(lock))
    case Release(lock) =>
      && task.held != [] && task.held[|task.held| - 1] == lock
      && lock !in task.held[..|task.held| - 1]
      && s.QueueOf(lock) != [] && s.QueueOf(lock)[0] == i
    case TryAcquire(lock, skip) => lock !in task.held && skip < |task.todo|
    case Await => true
  }

  lemma TurnFactsHold(s: State, i: nat)
    requires Inv(s) && Enabled(s, i)
    ensures TurnFacts(s, i)
    ensures s.tasks[i].queued ==> s.tasks[i].todo[0].Acquire?
    ensures Disciplined(Turn(s, i).tasks[i].todo, Turn(s, i).tasks[i].held)
    ensures Strict(Turn(s, i).tasks[i].held)
  {
    assert TaskOk(s, i);
    var task := s.tasks[i];
    if !task.todo[0].Await? {
      assert QueueOk(s, task.todo[0].lock);
    }
    if task.todo[0].Release? {
      var lock := task.todo[0].lock;
      assert lock in task.held;
      forall k | 0 <= k < |task.held| - 1 ensures task.held[k] != lock {
        assert Rank(task.held[k]) < Rank(task.held[|task.held| - 1]);
      }
    }
  }

  lemma OtherQueueAfterTurn(s: State, i: nat, lock: Lock)
    requires Enabled(s, i) && TurnFacts(s, i) && QueueOk(s, lock)
    requires s.tasks[i].queued ==> s.tasks[i].todo[0].Acquire?
    requires s.tasks[i].todo[0].Await? || s.tasks[i].todo[0].lock != lock
    ensures QueueOk(Turn(s, i), lock)
  {
    var after := Turn(s, i);
    assert after.QueueOf(lock) == s.QueueOf(lock);
    if lock in s.tasks[i].held {
      var k :| 0 <= k < |s.tasks[i].held| && s.tasks[i].held[k] == lock;
      assert after.tasks[i].held[k] == lock;
    }
  }

  lemma OwnQueueAfterTurn(s: State, i: nat)
    requires Enabled(s, i) && TurnFacts(s, i) && !s.tasks[i].todo[0].Await?
    requires QueueOk(s, s.tasks[i].todo[0].lock)
    ensures QueueOk(Turn(s, i), s.tasks[i].todo[0].lock)
  {
    var lock, after := s.tasks[i].todo[0].lock, Turn(s, i);
    var queue, shorter := s.QueueOf(lock), after.QueueOf(lock);
    if s.tasks[i].todo[0].Release? {
      assert shorter == queue[1..];
      forall k | 0 <= k < |shorter| ensures shorter[k] != i && shorter[k] == queue[k + 1] {
      }
    }
  }

  lemma TaskAfterTurn(s: State, i: nat, j: nat)
    requires Enabled(s, i) && j < |s.tasks| && TurnFacts(s, i)
    requires TaskOk(s, j)
    requires Disciplined(Turn(s, i).tasks[i].todo, Turn(s, i).tasks[i].held)
    requires Strict(Turn(s, i).tasks[i].held)
    ensures TaskOk(Turn(s, i), j)
  {
    var task, after := s.tasks[i], Turn(s, i);
    forall lock | lock in after.tasks[j].held
      ensures after.QueueOf(lock) != [] && after.QueueOf(lock)[0] == j
    {
      if j == i && lock !in task.held {
        assert lock == task.todo[0].lock;
      }
    }
    forall lock | WantsQueued(after.tasks[j], lock) ensures j in after.QueueOf(lock) {
      assert j != i ==> WantsQueued(s.tasks[j], lock);
      if task.todo[0].Release? && lock == task.todo[0].lock && j != i {
        var k :| 0 <= k < |s.QueueOf(lock)| && s.QueueOf(lock)[k] == j;
        assert after.QueueOf(lock)[k - 1] == j;
      }
    }
  }

  lemma TurnKeepsInv(s: State, i: nat)
    requires Inv(s) && Enabled(s, i)
    ensures Inv(Turn(s, i))
  {
    TurnFactsHold(s, i);
    forall lock ensures QueueOk(Turn(s, i), lock) {
      assert QueueOk(s, lock);
      if s.tasks[i].todo[0].Await? || s.tasks[i].todo[0].lock != lock {
        OtherQueueAfterTurn(s, i, lock);
      } else {
        OwnQueueAfterTurn(s, i);
      }
    }
    forall j | 0 <= j < |s.tasks| ensures TaskOk(Turn(s, i), j) {
      TaskAfterTurn(s, i, j);
    }
  }

  // ----- progress -----

  /** Follows the chain of waiting from a waiter to someone who can take a turn and whom others wait for. */
  lemma {:induction false} HolderCanProceed(s: State, i: nat) returns (j: nat)
    requires Inv(s) && i < |s.tasks| && Waiting(s, i)
    ensures Enabled(s, j)
    ensures exists lock :: s.QueueOf(lock) != [] && s.QueueOf(lock)[0] == j
    decreases MAX_RANK - Rank(s.tasks[i].todo[0].lock)
  {
    var lock := s.tasks[i].todo[0].lock;
    assert QueueOk(s, lock);
    j := s.QueueOf(lock)[0];
    assert TaskOk(s, j);
    if Waiting(s, j) {
      assert Disciplined(s.tasks[j].todo, s.tasks[j].held);
      j := HolderCanProceed(s, j);
    }
  }

  ghost predicate Finished(s: State) {
    forall i :: 0 <= i < |s.tasks| ==> s.tasks[i].todo == []
  }

  /** Nothing is stuck: while a task is unfinished, some task can take a turn. */
  lemma NoDeadlock(s: State)
    requires Inv(s) && !Finished(s)
    ensures exists j :: Enabled(s, j)
  {
    var i :| 0 <= i < |s.tasks| && s.tasks[i].todo != [];
    if Waiting(s, i) {
      var j := HolderCanProceed(s, i);
    } else {
      assert Enabled(s, i);
    }
  }

  /** Whoever holds or awaits a lock still has to release it. */
  lemma QueuedTaskIsUnfinished(s: State, lock: Lock)
    requires Inv(s) && s.QueueOf(lock) != []
    ensures !Finished(s)
  {
    assert QueueOk(s, lock);
    var i := s.QueueOf(lock)[0];
    assert TaskOk(s, i);
    assert s.tasks[i].todo != [];
  }

  // ----- runs -----

  function Weight(task: Task): nat {
    2 * |task.todo| + (if task.queued then 0 else 1)
  }

  function TotalWeight(tasks: seq<Task>): nat {
    if tasks == [] then 0 else Weight(tasks[0]) + TotalWeight(tasks[1..])
  }

  lemma {:induction false} WeightUpdate(tasks: seq<Task>, i: nat, task: Task)
    requires i < |tasks|
    ensures TotalWeight(tasks[i := task]) == TotalWeight(tasks) - Weight(tasks[i]) + Weight(task)
  {
    if i > 0 {
      WeightUpdate(tasks[1..], i - 1, task);
      assert tasks[i := task][1..] == tasks[1..][i - 1 := task];
    } else {
      assert tasks[i := task][1..] == tasks[1..];
    }
  }

  lemma TurnLosesWeight(s: State, i: nat)
    requires Inv(s) && Enabled(s, i)
    ensures TotalWeight(Turn(s, i).tasks) < TotalWeight(s.tasks)
  {
    assert TaskOk(s, i);
    WeightUpdate(s.tasks, i, Turn(s, i).tasks[i]);
  }

  /** A schedule names the task that takes each turn. */
  ghost predicate Runs(s: State, schedule: seq<nat>, t: State)
    decreases |schedule|
  {
    if schedule == [] then s == t
    else Enabled(s, schedule[0]) && Runs(Turn(s, schedule[0]), schedule[1..], t)
  }

  lemma {:induction false} RunKeepsInv(s: State, schedule: seq<nat>, t: State)
    requires Inv(s) && Runs(s, schedule, t)
    ensures Inv(t) && |schedule| + TotalWeight(t.tasks) <= TotalWeight(s.tasks)
    decreases |schedule|
  {
    if schedule != [] {
      TurnKeepsInv(s, schedule[0]);
      TurnLosesWeight(s, schedule[0]);
      RunKeepsInv(Turn(s, schedule[0]), schedule[1..], t);
    }
  }

  /**
   However the turns are scheduled, a run stops after boundedly many of them, and only when every task has finished
   and every lock is free; until then every waiter waits, in the end, for somebody who can take a turn.
   */
  lemma AllTasksFinish(s: State, schedule: seq<nat>, t: State)
    requires Initial(s) && Runs(s, schedule, t)
    ensures |schedule| <= TotalWeight(s.tasks)
    ensures (forall j :: !Enabled(t, j)) ==> Finished(t) && forall lock :: t.QueueOf(lock) == []
    ensures forall i :: 0 <= i < |t.tasks| && Waiting(t, i) ==>
              exists j, lock :: Enabled(t, j) && t.QueueOf(lock) != [] && t.QueueOf(lock)[0] == j
  {
    InitialInv(s);
    RunKeepsInv(s, schedule, t);
    if forall j :: !Enabled(t, j) {
      if !Finished(t) {
        NoDeadlock(t);
      }
      forall lock ensures t.QueueOf(lock) == [] {
        if t.QueueOf(lock) != [] {
          QueuedTaskIsUnfinished(t, lock);
        }
      }
    }
    forall i | 0 <= i < |t.tasks| && Waiting(t, i)
      ensures exists j, lock :: Enabled(t, j) && t.QueueOf(lock) != [] && t.QueueOf(lock)[0] == j
    {
      var j := HolderCanProceed(t, i);
    }
  }

  // ----- the programs Guardian runs -----

  function Calls(n: nat): seq<Op> {
    if n == 0 then [] else [Await] + Calls(n - 1)
  }

  /** A critical section: one lock around inner work. */
  function Section(lock: Lock, body: seq<Op>): seq<Op> {
    [Acquire(lock)] + body + [Release(lock)]
  }

  datatype Decision = Untouched | Decided(flag: string, calls: nat)

  /** Deciding a captcha goes through the approval lock of its request. */
  function Decide(decision: Decision): seq<Op> {
    match decision
    case Untouched => []
    case Decided(flag, calls) => Section(Approval(flag), Calls(calls))
  }

  datatype Activity =
    | JoinRequest(flag: string, calls: nat)
    | OperatorDecision(flag: string, calls: nat)
    | IssueChallenge(approval: nat, user: string, counted: bool, calls: nat)
    | PrivateMessage(user: string, answered: Option<nat>, decision: Decision, calls: nat)
    | ExpireSession(approval: nat, decision: Decision, calls: nat)
    | Join(group: string, user: string, punishments: seq<nat>, calls: nat)
    | Punish(group: string, user: string, calls: nat)
    | RunUpdate(calls: nat)

  function Punishments(group: string, user: string, calls: seq<nat>): seq<Op> {
    if calls == [] then [] else
      Section(Lock.Punishment(group, user), Calls(calls[0])) + Punishments(group, user, calls[1..])
  }

  function Program(activity: Activity): seq<Op> {
    match activity
    case JoinRequest(flag, calls) => [Await] + Section(Approval(flag), Calls(calls))
    case OperatorDecision(flag, calls) => Section(Approval(flag), Calls(calls))
    case IssueChallenge(approval, user, counted, calls) =>
      Section(Captcha(approval), (if counted then Section(CaptchaUser(user), []) else []) + Calls(calls))
    case PrivateMessage(user, answered, decision, calls) =>
      Section(CaptchaUser(user), [])
      + (if answered.None? then Calls(calls) else Section(Captcha(answered.value), Decide(decision) + Calls(calls)))
    case ExpireSession(approval, decision, calls) =>
      var body := Decide(decision) + Calls(calls);
      [TryAcquire(Captcha(approval), |body| + 1)] + body + [Release(Captcha(approval))]
    case Join(group, user, punishments, calls) =>
      Section(MemberJoin(group, user), Punishments(group, user, punishments) + Calls(calls))
    case Punish(group, user, calls) => Section(Lock.Punishment(group, user), Calls(calls))
    case RunUpdate(calls) => Section(Lock.Update, Calls(calls))
  }

  /** Work that leaves the held locks as they were, whatever follows it. */
  ghost predicate Neutral(body: seq<Op>, held: seq<Lock>) {
    forall rest :: Disciplined(rest, held) ==> Disciplined(body + rest, held)
  }

  lemma {:induction false} CallsAreNeutral(n: nat, held: seq<Lock>)
    ensures Neutral(Calls(n), held)
  {
    forall rest | Disciplined(rest, held) ensures Disciplined(Calls(n) + rest, held) {
      if n == 0 {
        assert Calls(n) + rest == rest;
      } else {
        CallsAreNeutral(n - 1, held);
        assert (Calls(n) + rest)[1..] == Calls(n - 1) + rest;
      }
    }
  }

  lemma SectionIsNeutral(lock: Lock, body: seq<Op>, held: seq<Lock>)
    requires Above(lock, held) && Neutral(body, held + [lock])
    ensures Neutral(Section(lock, body), held)
  {
    forall rest | Disciplined(rest, held) ensures Disciplined(Section(lock, body) + rest, held) {
      var inside := held + [lock];
      assert inside[..|inside| - 1] == held;
      assert ([Release(lock)] + rest)[1..] == rest;
      assert Disciplined([Release(lock)] + rest, inside);
      assert (Section(lock, body) + rest)[1..] == body + ([Release(lock)] + rest);
    }
  }

  lemma SequenceIsNeutral(first: seq<Op>, second: seq<Op>, held: seq<Lock>)
    requires Neutral(first, held) && Neutral(second, held)
    ensures Neutral(first + second, held)
  {
    forall rest | Disciplined(rest, held) ensures Disciplined(first + second + rest, held) {
      assert first + second + rest == first + (second + rest);
    }
  }

  lemma {:induction false} PunishmentsAreNeutral(group: string, user: string, calls: seq<nat>, held: seq<Lock>)
    requires Above(Lock.Punishment(group, user), held)
    ensures Neutral(Punishments(group, user, calls), held)
  {
    if calls == [] {
      CallsAreNeutral(0, held);
    } else {
      var lock := Lock.Punishment(group, user);
      CallsAreNeutral(calls[0], held + [lock]);
      SectionIsNeutral(lock, Calls(calls[0]), held);
      PunishmentsAreNeutral(group, user, calls[1..], held);
      SequenceIsNeutral(Section(lock, Calls(calls[0])), Punishments(group, user, calls[1..]), held);
    }
  }

  lemma DecideIsNeutral(decision: Decision, calls: nat, held: seq<Lock>)
    requires decision.Decided? ==> Above(Approval(decision.flag), held)
    ensures Neutral(Decide(decision) + Calls(calls), held)
  {
    CallsAreNeutral(calls, held);
    match decision
    case Untouched => assert Decide(decision) + Calls(calls) == Calls(calls);
    case Decided(flag, n) =>
      CallsAreNeutral(n, held + [Approval(flag)]);
      SectionIsNeutral(Approval(flag), Calls(n), held);
      SequenceIsNeutral(Decide(decision), Calls(calls), held);
  }

  lemma PlainSectionIsNeutral(lock: Lock, calls: nat, held: seq<Lock>)
    requires Above(lock, held)
    ensures Neutral(Section(lock, Calls(calls)), held)
  {
    CallsAreNeutral(calls, held + [lock]);
    SectionIsNeutral(lock, Calls(calls), held);
  }

  lemma NeutralIsDisciplined(program: seq<Op>)
    requires Neutral(program, [])
    ensures Disciplined(program, [])
  {
    assert Disciplined([], []);
    assert program + [] == program;
  }

  lemma JoinRequestIsNeutral(flag: string, calls: nat)
    ensures Neutral([Await] + Section(Approval(flag), Calls(calls)), [])
  {
    PlainSectionIsNeutral(Approval(flag), calls, []);
    CallsAreNeutral(1, []);
    assert Calls(1) == [Await] + Calls(0) == [Await];
    SequenceIsNeutral([Await], Section(Approval(flag), Calls(calls)), []);
  }

  lemma UserSectionIsNeutral(user: string, held: seq<Lock>)
    requires Above(CaptchaUser(user), held)
    ensures Neutral(Section(CaptchaUser(user), []), held)
  {
    assert Section(CaptchaUser(user), []) == Section(CaptchaUser(user), Calls(0));
    PlainSectionIsNeutral(CaptchaUser(user), 0, held);
  }

  lemma IssueIsNeutral(approval: nat, user: string, counted: bool, calls: nat)
    ensures Neutral(Program(IssueChallenge(approval, user, counted, calls)), [])
  {
    var held := [Captcha(approval)];
    CallsAreNeutral(calls, held);
    UserSectionIsNeutral(user, held);
    SequenceIsNeutral(Section(CaptchaUser(user), []), Calls(calls), held);
    var body := (if counted then Section(CaptchaUser(user), []) else []) + Calls(calls);
    assert !counted ==> body == Calls(calls);
    assert [] + held == held;
    SectionIsNeutral(Captcha(approval), body, []);
  }

  lemma MessageIsNeutral(user: string, answered: Option<nat>, decision: Decision, calls: nat)
    ensures Neutral(Program(PrivateMessage(user, answered, decision, calls)), [])
  {
    UserSectionIsNeutral(user, []);
    CallsAreNeutral(calls, []);
    if answered.Some? {
      assert [] + [Captcha(answered.value)] == [Captcha(answered.value)];
      DecideIsNeutral(decision, calls, [Captcha(answered.value)]);
      SectionIsNeutral(Captcha(answered.value), Decide(decision) + Calls(calls), []);
      SequenceIsNeutral(Section(CaptchaUser(user), []),
                        Section(Captcha(answered.value), Decide(decision) + Calls(calls)), []);
    } else {
      SequenceIsNeutral(Section(CaptchaUser(user), []), Calls(calls), []);
    }
  }

  lemma ExpiryIsDisciplined(approval: nat, decision: Decision, calls: nat)
    ensures Disciplined(Program(ExpireSession(approval, decision, calls)), [])
  {
    var program := Program(ExpireSession(approval, decision, calls));
    var body, lock := Decide(decision) + Calls(calls), Captcha(approval);
    DecideIsNeutral(decision, calls, [lock]);
    assert Disciplined([Release(lock)], [lock]);
    assert Disciplined(body + [Release(lock)], [lock]);
    assert [] + [lock] == [lock];
    assert program[1..] == body + [Release(lock)];
    assert program[1 + (|body| + 1)..] == [];
  }

  lemma JoinIsNeutral(group: string, user: string, punishments: seq<nat>, calls: nat)
    ensures Neutral(Program(Join(group, user, punishments, calls)), [])
  {
    var held := [MemberJoin(group, user)];
    assert [] + held == held;
    PunishmentsAreNeutral(group, user, punishments, held);
    CallsAreNeutral(calls, held);
    SequenceIsNeutral(Punishments(group, user, punishments), Calls(calls), held);
    SectionIsNeutral(MemberJoin(group, user), Punishments(group, user, punishments) + Calls(calls), []);
  }

  /** Every activity respects the lock order, so any mix of them runs to completion. */
  lemma ProgramsAreDisciplined(activity: Activity)
    ensures Disciplined(Program(activity), [])
  {
    match activity
    case JoinRequest(flag, calls) =>
      JoinRequestIsNeutral(flag, calls);
      NeutralIsDisciplined(Program(activity));
    case OperatorDecision(flag, calls) =>
      PlainSectionIsNeutral(Approval(flag), calls, []);
      NeutralIsDisciplined(Program(activity));
    case IssueChallenge(approval, user, counted, calls) =>
      IssueIsNeutral(approval, user, counted, calls);
      NeutralIsDisciplined(Program(activity));
    case PrivateMessage(user, answered, decision, calls) =>
      MessageIsNeutral(user, answered, decision, calls);
      NeutralIsDisciplined(Program(activity));
    case ExpireSession(approval, decision, calls) => ExpiryIsDisciplined(approval, decision, calls);
    case Join(group, user, punishments, calls) =>
      JoinIsNeutral(group, user, punishments, calls);
      NeutralIsDisciplined(Program(activity));
    case Punish(group, user, calls) =>
      PlainSectionIsNeutral(Lock.Punishment(group, user), calls, []);
      NeutralIsDisciplined(Program(activity));
    case RunUpdate(calls) =>
      PlainSectionIsNeutral(Lock.Update, calls, []);
      NeutralIsDisciplined(Program(activity));
  }

  /** Deadlock freedom of Guardian itself: any number of activities, scheduled in any way. */
  lemma GuardianNeverDeadlocks(activities: seq<Activity>, s: State, schedule: seq<nat>, t: State)
    requires s.queues == map[] && |s.tasks| == |activities|
    requires forall i :: 0 <= i < |activities| ==> s.tasks[i] == Task(Program(activities[i]), [], false)
    requires Runs(s, schedule, t)
    ensures |schedule| <= TotalWeight(s.tasks)
    ensures Finished(t) || exists j :: Enabled(t, j)
  {
    forall i | 0 <= i < |s.tasks| ensures Disciplined(s.tasks[i].todo, []) {
      ProgramsAreDisciplined(activities[i]);
    }
    AllTasksFinish(s, schedule, t);
    RunKeepsInv(s, schedule, t) by {
      InitialInv(s);
    }
    if !Finished(t) {
      NoDeadlock(t);
    }
  }
}
