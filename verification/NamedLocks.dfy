/**
 Named asynchronous locks. A JavaScript turn is one method call: the interpreter runs it to its end, and other turns
 happen only between calls. The table remembers, for each name, the promise of the last caller alone.
 */
module NamedLocks {
  import opened Prelude

  type Name = string
  type Ticket = nat  // a call, and the promise it resolves when it releases

  datatype Stage = Waiting | Running | Released

  /** One call: its name, the promise it awaits if any, and how far it has come. */
  datatype Call = Call(name: Name, previous: Option<Ticket>, stage: Stage)

  /** The unreleased calls of a name, in call order, among the first n. */
  ghost function Queue(calls: seq<Call>, name: Name, n: nat): seq<Ticket>
    requires n <= |calls|
  {
    if n == 0 then []
    else
      Queue(calls, name, n - 1)
      + (if calls[n - 1].name == name && calls[n - 1].stage != Released then [n - 1] else [])
  }

  ghost function Waiters(calls: seq<Call>, name: Name): seq<Ticket> {
    Queue(calls, name, |calls|)
  }

  /** A call is the first unreleased one of its name. */
  ghost predicate AtHead(calls: seq<Call>, t: Ticket)
    requires t < |calls|
  {
    var queue := Waiters(calls, calls[t].name);
    queue != [] && queue[0] == t
  }

  ghost predicate Resumable(calls: seq<Call>, t: Ticket)
    requires t < |calls|
  {
    && calls[t].stage == Waiting
    && calls[t].previous.Some? && calls[t].previous.value < |calls|
    && calls[calls[t].previous.value].stage == Released
  }

  /** Every call awaits the one just before it under its name, unless that one had released when it was made. */
  ghost predicate Linked(calls: seq<Call>, t: Ticket)
    requires t < |calls|
  {
    match calls[t].previous
    case None =>
      && calls[t].stage != Waiting
      && (forall i :: 0 <= i < t && calls[i].name == calls[t].name ==> calls[i].stage == Released)
    case Some(p) =>
      && p < t
      && calls[p].name == calls[t].name
      && (forall i :: p < i < t ==> calls[i].name != calls[t].name)
      && (calls[t].stage != Waiting ==> calls[p].stage == Released)
  }

  ghost predicate Chained(calls: seq<Call>) {
    forall t :: 0 <= t < |calls| ==> Linked(calls, t)
  }

  /** Functions start in call order: whatever was called earlier under the same name has already released. */
  lemma {:induction false} StartsInCallOrder(calls: seq<Call>, i: Ticket, j: Ticket)
    requires Chained(calls) && i < j < |calls|
    requires calls[i].name == calls[j].name && calls[j].stage != Waiting
    ensures calls[i].stage == Released
    decreases j
  {
    assert Linked(calls, j);
    if calls[j].previous.Some? && i < calls[j].previous.value {
      StartsInCallOrder(calls, i, calls[j].previous.value);
    }
  }

  /** At most one function runs under a name at any time. */
  lemma MutualExclusion(calls: seq<Call>, i: Ticket, j: Ticket)
    requires Chained(calls) && i < |calls| && j < |calls|
    requires calls[i].name == calls[j].name && calls[i].stage == Running && calls[j].stage == Running
    ensures i == j
  {
    if i < j {
      StartsInCallOrder(calls, i, j);
    } else if j < i {
      StartsInCallOrder(calls, j, i);
    }
  }

  ghost predicate Increasing(queue: seq<Ticket>, n: nat) {
    && (forall a :: 0 <= a < |queue| ==> queue[a] < n)
    && (forall a, b :: 0 <= a < b < |queue| ==> queue[a] < queue[b])
  }

  lemma {:induction false} QueueMembers(calls: seq<Call>, name: Name, n: nat)
    requires n <= |calls|
    ensures forall t :: t in Queue(calls, name, n) <==>
                          0 <= t < n && calls[t].name == name && calls[t].stage != Released
    ensures Increasing(Queue(calls, name, n), n)
  {
    if n > 0 {
      QueueMembers(calls, name, n - 1);
      var shorter := Queue(calls, name, n - 1);
      assert forall t :: t in shorter + [n - 1] <==> t in shorter || t == n - 1;
    }
  }

  /** The first of a queue runs, or can resume: a release is never lost, also when the function threw. */
  lemma HeadCanProceed(calls: seq<Call>, name: Name)
    requires Chained(calls) && Waiters(calls, name) != []
    ensures var head := Waiters(calls, name)[0];
            && head < |calls| && calls[head].name == name
            && (calls[head].stage == Running || Resumable(calls, head))
    ensures forall t :: t in Waiters(calls, name)[1..] ==> t < |calls| && calls[t].stage == Waiting
  {
    QueueMembers(calls, name, |calls|);
    var queue := Waiters(calls, name);
    var head := queue[0];
    assert head in queue;
    assert Linked(calls, head);
    forall t | t in queue[1..]
      ensures t < |calls| && calls[t].stage == Waiting
    {
      assert t in queue;
      if calls[t].stage == Running {
        StartsInCallOrder(calls, head, t);
      }
    }
  }

  lemma {:induction false} QueueAfterStageChange(calls: seq<Call>, t: Ticket, stage: Stage, name: Name, n: nat)
    requires n <= |calls| && t < |calls|
    ensures var after := calls[t := calls[t].(stage := stage)];
            && (calls[t].stage != Released && stage != Released ==> Queue(after, name, n) == Queue(calls, name, n))
            && (calls[t].name != name ==> Queue(after, name, n) == Queue(calls, name, n))
            && (t >= n ==> Queue(after, name, n) == Queue(calls, name, n))
  {
    if n > 0 {
      QueueAfterStageChange(calls, t, stage, name, n - 1);
    }
  }

  lemma LastIsLargest(queue: seq<Ticket>, n: nat)
    requires Increasing(queue, n)
    ensures forall t :: t in queue ==> t <= queue[|queue| - 1]
  {
  }

  /** Behind a call that has not released, every call of its name waits. */
  lemma AllWaitBehind(calls: seq<Call>, p: Ticket, i: Ticket)
    requires Chained(calls) && p < i < |calls| && calls[p].name == calls[i].name && calls[p].stage != Released
    ensures calls[i].stage == Waiting
  {
    if calls[i].stage != Waiting {
      StartsInCallOrder(calls, p, i);
    }
  }

  /** So behind the last unreleased call of a name there is no call of it at all. */
  lemma LastIsNewest(calls: seq<Call>, name: Name)
    requires Chained(calls) && Waiters(calls, name) != []
    ensures var p := Waiters(calls, name)[|Waiters(calls, name)| - 1];
            && p < |calls| && calls[p].name == name && calls[p].stage != Released
            && forall i :: p < i < |calls| ==> calls[i].name != name
  {
    QueueMembers(calls, name, |calls|);
    var queue := Waiters(calls, name);
    var p := queue[|queue| - 1];
    assert p in queue;
    LastIsLargest(queue, |calls|);
    forall i | p < i < |calls| ensures calls[i].name != name {
      assert i !in queue;
      if calls[i].name == name {
        AllWaitBehind(calls, p, i);
      }
    }
  }

  /** The head of a queue is its last call only if nobody else is in it. */
  lemma HeadOfShorterQueue(calls: seq<Call>, t: Ticket, n: nat)
    requires t < n <= |calls| && calls[t].stage != Released
    requires Queue(calls, calls[t].name, n) != [] && Queue(calls, calls[t].name, n)[0] == t
    ensures var shorter := Queue(calls, calls[t].name, n - 1);
            if t < n - 1 then shorter != [] && shorter[0] == t else shorter == []
  {
    var shorter := Queue(calls, calls[t].name, n - 1);
    QueueMembers(calls, calls[t].name, n - 1);
    assert t < n - 1 ==> t in shorter;
    assert shorter != [] ==> shorter[0] in shorter;
  }

  /** When the first of a queue releases, the rest moves up unchanged. */
  lemma {:induction false} QueueAfterRelease(calls: seq<Call>, t: Ticket, n: nat)
    requires t < n <= |calls| && calls[t].stage != Released
    requires Queue(calls, calls[t].name, n) != [] && Queue(calls, calls[t].name, n)[0] == t
    ensures Queue(calls, calls[t].name, n) == [t] + Queue(calls[t := calls[t].(stage := Released)], calls[t].name, n)
  {
    var name := calls[t].name;
    HeadOfShorterQueue(calls, t, n);
    if t < n - 1 {
      QueueAfterRelease(calls, t, n - 1);
    } else {
      QueueAfterStageChange(calls, t, Released, name, n - 1);
    }
  }

  lemma {:induction false} QueueAfterCall(calls: seq<Call>, call: Call, name: Name, n: nat)
    requires n <= |calls|
    ensures Queue(calls + [call], name, n) == Queue(calls, name, n)
  {
    if n > 0 {
      QueueAfterCall(calls, call, name, n - 1);
    }
  }

  /** Whoever runs is first in its queue. */
  lemma RunnerIsHead(calls: seq<Call>, t: Ticket)
    requires Chained(calls) && t < |calls| && calls[t].stage == Running
    ensures AtHead(calls, t)
  {
    var name := calls[t].name;
    QueueMembers(calls, name, |calls|);
    assert t in Waiters(calls, name);
    var head := Waiters(calls, name)[0];
    assert head in Waiters(calls, name);
    if head < t {
      StartsInCallOrder(calls, head, t);
    }
  }

  /** Awaiting the last unreleased call of a name keeps every call linked. */
  lemma ChainedAfterCall(calls: seq<Call>, name: Name, previous: Option<Ticket>)
    requires Chained(calls)
    requires match previous
             case None => Waiters(calls, name) == []
             case Some(p) => Waiters(calls, name) != [] && p == Waiters(calls, name)[|Waiters(calls, name)| - 1]
    ensures Chained(calls + [Call(name, previous, if previous.Some? then Waiting else Running)])
  {
    var n := |calls|;
    var after := calls + [Call(name, previous, if previous.Some? then Waiting else Running)];
    QueueMembers(calls, name, n);
    forall t | 0 <= t < n ensures Linked(after, t) {
      assert Linked(calls, t);
    }
    match previous
    case None =>
      forall i | 0 <= i < n && calls[i].name == name ensures calls[i].stage == Released {
        assert i !in Waiters(calls, name);
      }
    case Some(p) =>
      LastIsNewest(calls, name);
  }

  /** So do a resumption and a release. */
  lemma ChainedAfterStage(calls: seq<Call>, t: Ticket, stage: Stage)
    requires Chained(calls) && t < |calls|
    requires (stage == Running && Resumable(calls, t)) || (stage == Released && calls[t].stage == Running)
    ensures Chained(calls[t := calls[t].(stage := stage)])
  {
    var after := calls[t := calls[t].(stage := stage)];
    forall u | 0 <= u < |after| ensures Linked(after, u) {
      assert Linked(calls, u);
      if u != t && stage == Running && calls[u].previous.None? && t < u {
        assert calls[t].name != calls[u].name;
      }
    }
  }

  ghost predicate TailOk(tails: map<Name, Ticket>, calls: seq<Call>, name: Name) {
    var queue := Waiters(calls, name);
    && (name in tails <==> queue != [])
    && (name in tails ==> tails[name] == queue[|queue| - 1])
  }

  class LockTable {
    var tails: map<Name, Ticket>
    var calls: seq<Call>

    /** The map has an entry exactly when someone holds or waits, and it is the last caller's. */
    ghost predicate Valid()
      reads this
    {
      && Chained(calls)
      && (forall name :: TailOk(tails, calls, name))
    }

    constructor ()
      ensures Valid() && calls == [] && tails == map[]
    {
      tails, calls := map[], [];
    }

    /** Enqueues behind the last caller; with nobody ahead, the function starts in the same turn. */
    method WithLock(name: Name) returns (t: Ticket)
      requires Valid()
      modifies this
      ensures Valid()
      ensures t == |old(calls)| && |calls| == t + 1 && calls[..t] == old(calls)
      ensures calls[t].name == name
      ensures calls[t].stage == if Waiters(old(calls), name) == [] then Running else Waiting
      ensures Waiters(calls, name) == Waiters(old(calls), name) + [t]
      ensures forall other :: other != name ==> Waiters(calls, other) == Waiters(old(calls), other)
    {
      t := |calls|;
      assert TailOk(tails, calls, name);
      var previous := if name in tails then Some(tails[name]) else None;
      ghost var before := calls;
      var call := Call(name, previous, if previous.Some? then Waiting else Running);
      tails := tails[name := t];
      calls := calls + [call];
      forall other: Name ensures Queue(calls, other, t) == Waiters(before, other) {
        QueueAfterCall(before, call, other, t);
      }
      ChainedAfterCall(before, name, previous);
      forall other: Name ensures TailOk(tails, calls, other) {
        assert TailOk(old(tails), before, other);
      }
    }

    /** The continuation after the awaited promise resolved. */
    method Resume(t: Ticket)
      requires Valid() && t < |calls| && Resumable(calls, t)
      modifies this`calls
      ensures Valid()
      ensures calls == old(calls)[t := old(calls[t]).(stage := Running)]
      ensures forall name :: Waiters(calls, name) == Waiters(old(calls), name)
      ensures AtHead(calls, t)
    {
      ghost var before := calls;
      calls := calls[t := calls[t].(stage := Running)];
      forall name: Name ensures Waiters(calls, name) == Waiters(before, name) {
        QueueAfterStageChange(before, t, Running, name, |before|);
      }
      ChainedAfterStage(before, t, Running);
      RunnerIsHead(calls, t);
      forall name: Name ensures TailOk(tails, calls, name) {
        assert TailOk(tails, before, name);
      }
    }

    /** The function settled, by returning or by throwing: release, and forget the name if nobody queued behind. */
    method Settle(t: Ticket)
      requires Valid() && t < |calls| && calls[t].stage == Running
      modifies this
      ensures Valid()
      ensures calls == old(calls)[t := old(calls[t]).(stage := Released)]
      ensures Waiters(old(calls), calls[t].name) == [t] + Waiters(calls, calls[t].name)
      ensures forall other :: other != calls[t].name ==> Waiters(calls, other) == Waiters(old(calls), other)
    {
      ghost var before := calls;
      var name := calls[t].name;
      RunnerIsHead(before, t);
      calls := calls[t := calls[t].(stage := Released)];
      if name in tails && tails[name] == t {
        tails := tails - {name};
      }
      QueueAfterRelease(before, t, |before|);
      forall other: Name | other != name ensures Waiters(calls, other) == Waiters(before, other) {
        QueueAfterStageChange(before, t, Released, other, |before|);
      }
      ChainedAfterStage(before, t, Released);
      QueueMembers(before, name, |before|);
      assert TailOk(old(tails), before, name);
      assert TailOk(tails, calls, name);
      forall other: Name | other != name ensures TailOk(tails, calls, other) {
        assert TailOk(old(tails), before, other);
      }
    }

    /** Runs only what can start at once. */
    method TryWithLock(name: Name) returns (t: Option<Ticket>)
      requires Valid()
      modifies this
      ensures Valid()
      ensures t.Some? <==> Waiters(old(calls), name) == []
      ensures t.Some? ==>
                && t.value == |old(calls)| && |calls| == t.value + 1 && calls[..t.value] == old(calls)
                && calls[t.value].name == name && calls[t.value].stage == Running
                && Waiters(calls, name) == [t.value]
      ensures t.None? ==> calls == old(calls) && tails == old(tails)
      ensures forall other :: other != name ==> Waiters(calls, other) == Waiters(old(calls), other)
    {
      assert TailOk(tails, calls, name);
      if name in tails {
        return None;
      }
      var ticket := WithLock(name);
      return Some(ticket);
    }
  }
}
