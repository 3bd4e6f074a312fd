/** The lock operations that tasks are made of are what the table of named locks does. */
module LockRefinement {
  import opened Prelude
  import opened LockOrder
  import NamedLocks
  import Decimal
  import Text

  type Ticket = NamedLocks.Ticket
  type Call = NamedLocks.Call

  // ----- names -----

  function NameOf(lock: Lock): string {
    match lock
    case MemberJoin(group, user) => "member-join:" + group + ":" + user
    case Captcha(approval) => "captcha:" + Decimal.Numeral(approval)
    case Update => "update:global"
    case Punishment(group, user) => "punishment:" + group + ":" + user
    case CaptchaUser(user) => "captcha-user:" + user
    case Approval(flag) => "approval:" + flag
  }

  /** Groups are numbers, so no group contains the separator. */
  predicate Proper(lock: Lock) {
    (lock.MemberJoin? || lock.Punishment? ==> ':' !in lock.group)
  }

  lemma SamePair(prefix: string, g: string, u: string, h: string, v: string)
    requires ':' !in g && ':' !in h && prefix + g + ":" + u == prefix + h + ":" + v
    ensures g == h && u == v
  {
    var a, b := prefix + g + ":" + u, prefix + h + ":" + v;
    assert a[|prefix|..] == g + ":" + u && b[|prefix|..] == h + ":" + v;
    var rest := a[|prefix|..];
    assert rest[..|g|] == g && rest[..|h|] == h;
    Text.IndexIsFirst(rest, ':', |g|);
    Text.IndexIsFirst(rest, ':', |h|);
    assert rest[|g| + 1..] == u && rest[|h| + 1..] == v;
  }

  /** Different locks have different names. */
  lemma NamesAreDistinct(a: Lock, b: Lock)
    requires Proper(a) && Proper(b) && NameOf(a) == NameOf(b)
    ensures a == b
  {
    assert NameOf(a)[0] == NameOf(b)[0];
    match a
    case MemberJoin(g, u) => SamePair("member-join:", g, u, b.group, b.user);
    case Punishment(g, u) => SamePair("punishment:", g, u, b.group, b.user);
    case Approval(flag) => assert NameOf(a)[9..] == flag && NameOf(b)[9..] == b.flag;
    case Captcha(n) =>
      assert NameOf(a)[7] == NameOf(b)[7];
      assert NameOf(a)[8..] == Decimal.Numeral(n) && NameOf(b)[8..] == Decimal.Numeral(b.approval);
      Decimal.NumeralIsExact(n);
      Decimal.NumeralIsExact(b.approval);
    case CaptchaUser(user) =>
      assert NameOf(a)[7] == NameOf(b)[7];
      assert NameOf(a)[13..] == user && NameOf(b)[13..] == b.user;
    case Update =>
  }

  // ----- the table behind the queues -----

  /** The tasks whose calls stand in a queue. */
  ghost function Owners(queue: seq<Ticket>, owner: seq<nat>): seq<nat>
    requires forall t :: t in queue ==> t < |owner|
  {
    seq(|queue|, k requires 0 <= k < |queue| => assert queue[k] in queue; owner[queue[k]])
  }

  ghost predicate QueueStands(s: State, calls: seq<Call>, owner: seq<nat>, lock: Lock) {
    var queue := NamedLocks.Waiters(calls, NameOf(lock));
    && (forall t :: t in queue ==> t < |owner|)
    && Owners(queue, owner) == s.QueueOf(lock)
  }

  /** Whoever holds a lock runs under its name. */
  ghost predicate HolderRuns(s: State, calls: seq<Call>, i: nat, lock: Lock)
    requires i < |s.tasks|
  {
    lock in s.tasks[i].held ==>
      var queue := NamedLocks.Waiters(calls, NameOf(lock));
      queue != [] && queue[0] < |calls| && calls[queue[0]].stage == NamedLocks.Running
  }

  predicate ProperOp(op: Op) {
    op.Await? || Proper(op.lock)
  }

  /** The queues of a state are those of a table, call by call. */
  ghost predicate Refines(s: State, calls: seq<Call>, owner: seq<nat>) {
    && |owner| == |calls|
    && (forall lock | Proper(lock) :: QueueStands(s, calls, owner, lock))
    && (forall i, lock | 0 <= i < |s.tasks| && Proper(lock) :: HolderRuns(s, calls, i, lock))
  }

  lemma EmptyTableRefines(s: State)
    requires Initial(s)
    ensures Refines(s, [], [])
  {
  }

  lemma OwnersOfMore(queue: seq<Ticket>, owner: seq<nat>, i: nat)
    requires forall t :: t in queue ==> t < |owner|
    ensures Owners(queue, owner + [i]) == Owners(queue, owner)
    ensures Owners(queue + [|owner|], owner + [i]) == Owners(queue, owner) + [i]
  {
    assert forall k | 0 <= k < |queue| :: queue[k] in queue;
    forall t | t in queue + [|owner|] ensures t < |owner + [i]| {
    }
  }

  /** Queues and stages of the other locks stay, so their part of the refinement does. */
  lemma OthersStand(s: State, after: State, calls: seq<Call>, calls': seq<Call>, owner: seq<nat>, owner': seq<nat>,
                    i: nat, lock: Lock, other: Lock)
    requires Refines(s, calls, owner) && Proper(lock) && Proper(other) && other != lock && owner <= owner'
    requires |owner'| == |calls'| && |after.tasks| == |s.tasks| && i < |s.tasks|
    requires after.QueueOf(other) == s.QueueOf(other)
    requires NamedLocks.Waiters(calls', NameOf(other)) == NamedLocks.Waiters(calls, NameOf(other))
    requires forall t | 0 <= t < |calls| && calls[t].name != NameOf(lock) :: calls'[t] == calls[t]
    requires |calls| <= |calls'|
    requires forall j | 0 <= j < |s.tasks| :: other in after.tasks[j].held ==> other in s.tasks[j].held
    ensures QueueStands(after, calls', owner', other)
    ensures forall j | 0 <= j < |s.tasks| :: HolderRuns(after, calls', j, other)
  {
    assert QueueStands(s, calls, owner, other);
    var queue := NamedLocks.Waiters(calls, NameOf(other));
    assert forall k | 0 <= k < |queue| :: queue[k] in queue;
    assert Owners(queue, owner') == Owners(queue, owner);
    forall j | 0 <= j < |s.tasks| ensures HolderRuns(after, calls', j, other) {
      assert HolderRuns(s, calls, j, other);
      if other in after.tasks[j].held {
        NamedLocks.QueueMembers(calls, NameOf(other), |calls|);
        assert queue[0] in queue;
        if NameOf(other) == NameOf(lock) {
          NamesAreDistinct(other, lock);
        }
      }
    }
  }

  /** The turn in which a task calls for a lock is one call of the table. */
  method Enter(table: NamedLocks.LockTable, lock: Lock, ghost s: State, ghost i: nat, ghost owner: seq<nat>)
    returns (t: Ticket, ghost owner': seq<nat>)
    requires table.Valid() && Inv(s) && Refines(s, table.calls, owner) && Enabled(s, i) && Proper(lock)
    requires s.tasks[i].todo[0] == Acquire(lock) && !s.tasks[i].queued
    modifies table
    ensures table.Valid() && Refines(Turn(s, i), table.calls, owner')
    ensures t == |owner| && owner' == owner + [i]
  {
    ghost var before := table.calls;
    t := table.WithLock(NameOf(lock));
    owner' := owner + [i];
    ghost var after := Turn(s, i);
    assert QueueStands(s, before, owner, lock);
    OwnersOfMore(NamedLocks.Waiters(before, NameOf(lock)), owner, i);
    forall other | Proper(other) && other != lock
      ensures QueueStands(after, table.calls, owner', other)
      ensures forall j | 0 <= j < |s.tasks| :: HolderRuns(after, table.calls, j, other)
    {
      if NameOf(other) == NameOf(lock) {
        NamesAreDistinct(other, lock);
      }
      OthersStand(s, after, before, table.calls, owner, owner', i, lock, other);
    }
    forall j | 0 <= j < |s.tasks| ensures HolderRuns(after, table.calls, j, lock) {
      assert HolderRuns(s, before, j, lock);
      assert after.tasks[j].held == s.tasks[j].held;
    }
  }

  ghost predicate IsHead(calls: seq<Call>, lock: Lock, t: Ticket) {
    var queue := NamedLocks.Waiters(calls, NameOf(lock));
    queue != [] && queue[0] == t
  }

  /** Awaiting anything else touches no lock. */
  lemma AwaitRefines(s: State, calls: seq<Call>, owner: seq<nat>, i: nat)
    requires Refines(s, calls, owner) && Enabled(s, i) && s.tasks[i].todo[0].Await?
    ensures Refines(Turn(s, i), calls, owner)
  {
    var after := Turn(s, i);
    forall lock | Proper(lock) ensures QueueStands(after, calls, owner, lock) {
      assert QueueStands(s, calls, owner, lock);
    }
    forall j, lock | 0 <= j < |s.tasks| && Proper(lock) ensures HolderRuns(after, calls, j, lock) {
      assert HolderRuns(s, calls, j, lock);
    }
  }

  /** The first call of a lock's queue, and whose it is. */
  lemma HeadOfQueue(s: State, calls: seq<Call>, owner: seq<nat>, lock: Lock)
    requires Refines(s, calls, owner) && Proper(lock) && s.QueueOf(lock) != []
    ensures var queue := NamedLocks.Waiters(calls, NameOf(lock));
            && queue != [] && queue[0] < |calls| && calls[queue[0]].name == NameOf(lock)
            && owner[queue[0]] == s.QueueOf(lock)[0]
  {
    assert QueueStands(s, calls, owner, lock);
    var queue := NamedLocks.Waiters(calls, NameOf(lock));
    NamedLocks.QueueMembers(calls, NameOf(lock), |calls|);
    assert queue[0] in queue && Owners(queue, owner)[0] == owner[queue[0]];
  }

  /** The turn in which a task goes on with its lock resumes its call, unless that ran already. */
  method Continue(table: NamedLocks.LockTable, lock: Lock, t: Ticket, ghost s: State, ghost i: nat,
                  ghost owner: seq<nat>)
    requires table.Valid() && Inv(s) && Refines(s, table.calls, owner) && Enabled(s, i) && Proper(lock)
    requires s.tasks[i].todo[0] == Acquire(lock) && s.tasks[i].queued
    requires IsHead(table.calls, lock, t)
    modifies table`calls
    ensures table.Valid() && Refines(Turn(s, i), table.calls, owner)
    ensures t < |table.calls| && table.calls[t].stage == NamedLocks.Running && owner[t] == i
  {
    ghost var before := table.calls;
    ghost var queue := NamedLocks.Waiters(before, NameOf(lock));
    TurnFactsHold(s, i);
    HeadOfQueue(s, before, owner, lock);
    NamedLocks.HeadCanProceed(before, NameOf(lock));
    if table.calls[t].stage == NamedLocks.Waiting {
      table.Resume(t);
    }
    ghost var after := Turn(s, i);
    assert QueueStands(s, before, owner, lock);
    forall other | Proper(other) && other != lock
      ensures QueueStands(after, table.calls, owner, other)
      ensures forall j | 0 <= j < |s.tasks| :: HolderRuns(after, table.calls, j, other)
    {
      OthersStand(s, after, before, table.calls, owner, owner, i, lock, other);
    }
  }

  /** When the head of a queue releases, the rest of the queue stands behind the rest of the tasks. */
  lemma ReleasedStands(s: State, calls: seq<Call>, calls': seq<Call>, owner: seq<nat>, i: nat, lock: Lock)
    requires Inv(s) && Refines(s, calls, owner) && Enabled(s, i) && Proper(lock)
    requires s.tasks[i].todo[0] == Release(lock) && s.QueueOf(lock) != [] && s.QueueOf(lock)[0] == i
    requires NamedLocks.Waiters(calls, NameOf(lock)) != []
    requires NamedLocks.Waiters(calls', NameOf(lock)) == NamedLocks.Waiters(calls, NameOf(lock))[1..]
    ensures QueueStands(Turn(s, i), calls', owner, lock)
    ensures forall j | 0 <= j < |s.tasks| :: HolderRuns(Turn(s, i), calls', j, lock)
  {
    assert QueueStands(s, calls, owner, lock);
    RestOfQueue(NamedLocks.Waiters(calls, NameOf(lock)), owner);
    TurnFactsHold(s, i);
    forall j | 0 <= j < |s.tasks| ensures lock !in Turn(s, i).tasks[j].held {
      assert TaskOk(s, j);
    }
  }

  /** The turn in which a task gives a lock back settles its call. */
  method Leave(table: NamedLocks.LockTable, lock: Lock, t: Ticket, ghost s: State, ghost i: nat, ghost owner: seq<nat>)
    requires table.Valid() && Inv(s) && Refines(s, table.calls, owner) && Enabled(s, i) && Proper(lock)
    requires s.tasks[i].todo[0] == Release(lock)
    requires IsHead(table.calls, lock, t)
    modifies table
    ensures table.Valid() && Refines(Turn(s, i), table.calls, owner)
    ensures t < |table.calls| && table.calls[t].stage == NamedLocks.Released && owner[t] == i
  {
    ghost var before := table.calls;
    ghost var queue := NamedLocks.Waiters(before, NameOf(lock));
    TurnFactsHold(s, i);
    HeadOfQueue(s, before, owner, lock);
    assert HolderRuns(s, before, i, lock);
    table.Settle(t);
    ghost var after := Turn(s, i);
    ReleasedStands(s, before, table.calls, owner, i, lock);
    forall other | Proper(other) && other != lock
      ensures QueueStands(after, table.calls, owner, other)
      ensures forall j | 0 <= j < |s.tasks| :: HolderRuns(after, table.calls, j, other)
    {
      if NameOf(other) == NameOf(lock) {
        NamesAreDistinct(other, lock);
      }
      OthersStand(s, after, before, table.calls, owner, owner, i, lock, other);
    }
  }

  lemma RestOfQueue(queue: seq<Ticket>, owner: seq<nat>)
    requires queue != [] && forall t :: t in queue ==> t < |owner|
    ensures forall t :: t in queue[1..] ==> t < |owner|
    ensures Owners(queue[1..], owner) == Owners(queue, owner)[1..]
  {
    assert forall k | 0 <= k < |queue| :: queue[k] in queue;
  }

  /** The turn in which a task tries for a lock is one attempt at the table, with the same outcome. */
  method Try(table: NamedLocks.LockTable, lock: Lock, ghost s: State, ghost i: nat, ghost owner: seq<nat>)
    returns (t: Option<Ticket>, ghost owner': seq<nat>)
    requires table.Valid() && Inv(s) && Refines(s, table.calls, owner) && Enabled(s, i) && Proper(lock)
    requires s.tasks[i].todo[0].TryAcquire? && s.tasks[i].todo[0].lock == lock
    modifies table
    ensures table.Valid() && Refines(Turn(s, i), table.calls, owner')
    ensures t.Some? <==> s.QueueOf(lock) == []
    ensures owner' == if t.Some? then owner + [i] else owner
  {
    ghost var before := table.calls;
    ghost var queue := NamedLocks.Waiters(before, NameOf(lock));
    assert QueueStands(s, before, owner, lock);
    TurnFactsHold(s, i);
    t := table.TryWithLock(NameOf(lock));
    owner' := if t.Some? then owner + [i] else owner;
    ghost var after := Turn(s, i);
    if t.None? {
      SkipRefines(s, before, owner, i, lock);
      return;
    }
    forall other | Proper(other) && other != lock
      ensures QueueStands(after, table.calls, owner', other)
      ensures forall j | 0 <= j < |s.tasks| :: HolderRuns(after, table.calls, j, other)
    {
      if NameOf(other) == NameOf(lock) {
        NamesAreDistinct(other, lock);
      }
      OthersStand(s, after, before, table.calls, owner, owner', i, lock, other);
    }
    forall j | 0 <= j < |s.tasks| ensures HolderRuns(after, table.calls, j, lock) {
      assert TaskOk(s, j) && HolderRuns(s, before, j, lock);
    }
    assert Owners([t.value], owner') == [i];
  }

  /** A failed attempt touches no lock. */
  lemma SkipRefines(s: State, calls: seq<Call>, owner: seq<nat>, i: nat, lock: Lock)
    requires Refines(s, calls, owner) && Enabled(s, i) && s.tasks[i].todo[0].TryAcquire?
    requires s.tasks[i].todo[0].lock == lock && s.QueueOf(lock) != []
    ensures Refines(Turn(s, i), calls, owner)
  {
    var after := Turn(s, i);
    forall other | Proper(other) ensures QueueStands(after, calls, owner, other) {
      assert QueueStands(s, calls, owner, other);
    }
    forall j, other | 0 <= j < |s.tasks| && Proper(other) ensures HolderRuns(after, calls, j, other) {
      assert HolderRuns(s, calls, j, other);
    }
  }

  // ----- whole runs -----

  /** Every lock a task still mentions has a name of its own. */
  ghost predicate AllProper(s: State) {
    forall i | 0 <= i < |s.tasks| :: ProperTask(s.tasks[i])
  }

  ghost predicate ProperTask(task: Task) {
    forall op | op in task.todo :: ProperOp(op)
  }

  lemma TurnStaysProper(s: State, i: nat)
    requires AllProper(s) && Enabled(s, i)
    ensures AllProper(Turn(s, i))
  {
    assert ProperTask(s.tasks[i]);
    var task, after := s.tasks[i], Turn(s, i).tasks[i];
    forall op | op in after.todo ensures op in task.todo {
    }
    forall j | 0 <= j < |s.tasks| ensures ProperTask(Turn(s, i).tasks[j]) {
      assert ProperTask(s.tasks[j]);
    }
  }

  lemma FirstIsHead(calls: seq<Call>, name: string, t: Ticket)
    requires t < |calls| && calls[t].name == name && calls[t].stage != NamedLocks.Released
    requires forall u | 0 <= u < t :: calls[u].name != name || calls[u].stage == NamedLocks.Released
    ensures NamedLocks.Waiters(calls, name) != [] && NamedLocks.Waiters(calls, name)[0] == t
  {
    NamedLocks.QueueMembers(calls, name, |calls|);
    var queue := NamedLocks.Waiters(calls, name);
    assert t in queue && queue[0] in queue;
  }

  /** The call at the head of a lock's queue: the one its task would go on with. */
  method HeadOf(table: NamedLocks.LockTable, lock: Lock) returns (t: Ticket)
    requires NamedLocks.Waiters(table.calls, NameOf(lock)) != []
    ensures IsHead(table.calls, lock, t)
  {
    var name := NameOf(lock);
    NamedLocks.QueueMembers(table.calls, name, |table.calls|);
    ghost var head := NamedLocks.Waiters(table.calls, name)[0];
    assert head in NamedLocks.Waiters(table.calls, name);
    t := 0;
    while table.calls[t].name != name || table.calls[t].stage == NamedLocks.Released
      invariant t <= head < |table.calls|
      invariant forall u | 0 <= u < t :: table.calls[u].name != name || table.calls[u].stage == NamedLocks.Released
      decreases |table.calls| - t
    {
      t := t + 1;
    }
    FirstIsHead(table.calls, name, t);
  }

  /** One turn of a task at the table. */
  method TakeTurn(table: NamedLocks.LockTable, s: State, i: nat, ghost owner: seq<nat>)
    returns (ghost owner': seq<nat>)
    requires table.Valid() && Inv(s) && AllProper(s) && Refines(s, table.calls, owner) && Enabled(s, i)
    modifies table
    ensures table.Valid() && Refines(Turn(s, i), table.calls, owner') && owner <= owner'
  {
    assert ProperTask(s.tasks[i]) && s.tasks[i].todo[0] in s.tasks[i].todo;
    owner' := owner;
    match s.tasks[i].todo[0] {
      case Acquire(lock) =>
        if s.tasks[i].queued {
          TurnFactsHold(s, i);
          HeadOfQueue(s, table.calls, owner, lock);
          var t := HeadOf(table, lock);
          Continue(table, lock, t, s, i, owner);
        } else {
          var _, longer := Enter(table, lock, s, i, owner);
          owner' := longer;
        }
      case Release(lock) =>
        TurnFactsHold(s, i);
        HeadOfQueue(s, table.calls, owner, lock);
        var t := HeadOf(table, lock);
        Leave(table, lock, t, s, i, owner);
      case TryAcquire(lock, _) =>
        var _, longer := Try(table, lock, s, i, owner);
        owner' := longer;
      case Await => AwaitRefines(s, table.calls, owner, i);
    }
  }

  /** A table whose locks are all free again has no unreleased call under any of their names. */
  lemma FreeLocksHaveNoCalls(s: State, calls: seq<Call>, owner: seq<nat>, lock: Lock)
    requires Refines(s, calls, owner) && Proper(lock) && s.QueueOf(lock) == []
    ensures NamedLocks.Waiters(calls, NameOf(lock)) == []
  {
    assert QueueStands(s, calls, owner, lock);
    assert |Owners(NamedLocks.Waiters(calls, NameOf(lock)), owner)| == 0;
  }

  /**
   Every run of the tasks, from the start and under any schedule, is a run of one lock table: after each turn the queue
   of every lock is the table's queue of unreleased calls under its name; where no task can go on, none is unreleased.
   */
  method RunAtTable(s: State, schedule: seq<nat>, ghost t: State)
    returns (table: NamedLocks.LockTable, ghost owner: seq<nat>)
    requires Initial(s) && AllProper(s) && Runs(s, schedule, t)
    ensures fresh(table) && table.Valid() && Refines(t, table.calls, owner)
    ensures (forall j :: !Enabled(t, j)) ==>
              Finished(t) && forall lock | Proper(lock) :: NamedLocks.Waiters(table.calls, NameOf(lock)) == []
  {
    table := new NamedLocks.LockTable();
    owner := [];
    EmptyTableRefines(s);
    InitialInv(s);
    var now := s;
    for k := 0 to |schedule|
      invariant fresh(table) && table.Valid() && Refines(now, table.calls, owner)
      invariant Inv(now) && AllProper(now) && Runs(now, schedule[k..], t)
    {
      assert schedule[k..][0] == schedule[k] && schedule[k..][1..] == schedule[k + 1..];
      owner := TakeTurn(table, now, schedule[k], owner);
      TurnKeepsInv(now, schedule[k]);
      TurnStaysProper(now, schedule[k]);
      now := Turn(now, schedule[k]);
    }
    AllTasksFinish(s, schedule, t);
    if forall j :: !Enabled(t, j) {
      forall lock | Proper(lock) ensures NamedLocks.Waiters(table.calls, NameOf(lock)) == [] {
        FreeLocksHaveNoCalls(t, table.calls, owner, lock);
      }
    }
  }
}
