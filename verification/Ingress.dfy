/** The WebSocket client: bounded raw ingress, one drain, connection generations and pending calls. */
module Ingress {
  import opened Prelude

  type Socket = nat
  type Echo = nat
  type Event = nat

  /** What a frame turns out to be once it is read. */
  datatype Content = Response(echo: Echo, ok: bool) | Notice(event: Event) | Unusable

  /** A received frame; its serial number is its place among all accepted frames. */
  datatype Frame = Frame(socket: Socket, byteLength: nat, generation: nat, blob: bool, content: Content, serial: nat)

  /** The frame a drain works on: its text is still being read, or it is done with. */
  datatype Active = Active(frame: Frame, reading: bool)

  /** How a call ended. */
  datatype Settlement = Resolved | Refused | TimedOut | Unsent | Disconnected

  datatype Limits = Limits(maxFrameBytes: nat, queueLimit: nat, maxBytes: nat)

  function TotalBytes(frames: seq<Frame>): nat {
    if frames == [] then 0 else frames[0].byteLength + TotalBytes(frames[1..])
  }

  lemma {:induction false} TotalBytesAppend(frames: seq<Frame>, frame: Frame)
    ensures TotalBytes(frames + [frame]) == TotalBytes(frames) + frame.byteLength
    decreases |frames|
  {
    if frames != [] {
      assert (frames + [frame])[1..] == frames[1..] + [frame];
      TotalBytesAppend(frames[1..], frame);
    }
  }

  predicate Ascending(frames: seq<Frame>) {
    forall i, j | 0 <= i < j < |frames| :: frames[i].serial < frames[j].serial
  }

  predicate Below(frames: seq<Frame>, bound: nat) {
    forall f | f in frames :: f.serial < bound
  }

  predicate From(frames: seq<Frame>, bound: nat) {
    forall f | f in frames :: bound <= f.serial
  }

  lemma TailAscends(frames: seq<Frame>)
    requires Ascending(frames) && frames != []
    ensures Ascending(frames[1..]) && From(frames[1..], frames[0].serial + 1)
  {
    forall i | 0 <= i < |frames| - 1 ensures frames[0].serial < frames[1..][i].serial {
      assert frames[1..][i] == frames[i + 1];
    }
  }

  /** A queue of accepted frames, all from one socket in one generation. */
  predicate InOrder(queue: seq<Frame>, accepted: nat, horizon: nat, generation: nat, ws: Option<Socket>) {
    && Ascending(queue) && Below(queue, accepted) && From(queue, horizon) && horizon <= accepted
    && forall q | q in queue :: q.generation == generation && ws == Some(q.socket)
  }

  lemma TailInOrder(queue: seq<Frame>, accepted: nat, horizon: nat, generation: nat, ws: Option<Socket>)
    requires InOrder(queue, accepted, horizon, generation, ws) && queue != []
    ensures horizon <= queue[0].serial < accepted
    ensures queue[0].generation == generation && ws == Some(queue[0].socket)
    ensures InOrder(queue[1..], accepted, queue[0].serial + 1, generation, ws)
  {
    assert queue[0] in queue;
    TailAscends(queue);
    forall f | f in queue[1..] ensures f in queue {
    }
  }

  lemma LongerInOrder(queue: seq<Frame>, accepted: nat, horizon: nat, generation: nat, ws: Option<Socket>, frame: Frame)
    requires InOrder(queue, accepted, horizon, generation, ws)
    requires frame.serial == accepted && frame.generation == generation && ws == Some(frame.socket)
    ensures InOrder(queue + [frame], accepted + 1, horizon, generation, ws)
  {
    forall i | 0 <= i < |queue| ensures queue[i].serial < accepted {
      assert queue[i] in queue;
    }
  }

  /** The frames that took effect, in order and each in its own generation, all below the horizon. */
  predicate HandledInOrder(handled: seq<Frame>, handledIn: seq<nat>, horizon: nat) {
    && Ascending(handled) && Below(handled, horizon)
    && |handledIn| == |handled| && forall i | 0 <= i < |handled| :: handled[i].generation == handledIn[i]
  }

  lemma HorizonMoves(handled: seq<Frame>, handledIn: seq<nat>, horizon: nat, later: nat)
    requires HandledInOrder(handled, handledIn, horizon) && horizon <= later
    ensures HandledInOrder(handled, handledIn, later) && Below(handled, later)
  {
  }

  lemma HandledGrows(handled: seq<Frame>, handledIn: seq<nat>, horizon: nat, frame: Frame)
    requires HandledInOrder(handled, handledIn, horizon) && Below(handled, frame.serial) && frame.serial < horizon
    ensures HandledInOrder(handled + [frame], handledIn + [frame.generation], horizon)
  {
    forall i | 0 <= i < |handled| ensures handled[i].serial < frame.serial {
      assert handled[i] in handled;
    }
  }

  /** Calls that end together. */
  function Settle(settled: map<Echo, Settlement>, echoes: set<Echo>, how: Settlement): map<Echo, Settlement> {
    settled + map e | e in echoes :: how
  }

  lemma SettleNone(settled: map<Echo, Settlement>, how: Settlement)
    ensures Settle(settled, {}, how) == settled
  {
  }

  // ----- what a frame's content does -----

  function SettledBy(content: Content, pending: set<Echo>, settled: map<Echo, Settlement>): map<Echo, Settlement> {
    if content.Response? && content.echo in pending then
      settled[content.echo := if content.ok then Resolved else Refused]
    else settled
  }

  function PendingAfter(content: Content, pending: set<Echo>): set<Echo> {
    if content.Response? then pending - {content.echo} else pending
  }

  function EventsAfter(content: Content, events: seq<Event>): seq<Event> {
    if content.Notice? then events + [content.event] else events
  }

  // ----- the record of a run -----

  /** What has happened so far: the frames that took effect, and what became of the calls. */
  datatype Moment = Moment(handled: seq<Frame>, sent: set<Echo>, pending: set<Echo>, settled: map<Echo, Settlement>,
                           generation: nat)
  {
    /** Every call sent is either pending or settled. */
    predicate Accounts() {
      pending !! settled.Keys && pending + settled.Keys == sent
    }
  }

  /** What was settled stays settled, and as it was. */
  predicate Keeps(before: map<Echo, Settlement>, after: map<Echo, Settlement>) {
    forall e | e in before :: e in after && after[e] == before[e]
  }

  /** A frame takes effect, within its own generation and behind all others. */
  predicate TakesEffect(before: Moment, after: Moment) {
    && |after.handled| > 0 && before.handled == after.handled[..|after.handled| - 1]
    && after.handled[|after.handled| - 1].generation == before.generation
    && forall f | f in before.handled :: f.serial < after.handled[|after.handled| - 1].serial
  }

  /** The frame that takes effect is a reply to a call, and says how it ended. */
  predicate Replies(before: Moment, after: Moment, e: Echo, ok: bool) {
    TakesEffect(before, after) && after.handled[|after.handled| - 1].content == Response(e, ok)
  }

  /** A call ends: by the reply that takes effect, or without one. */
  predicate Ends(before: Moment, after: Moment, e: Echo)
    requires e in after.settled
  {
    match after.settled[e]
    case Resolved => e in before.pending && Replies(before, after, e, true)
    case Refused => e in before.pending && Replies(before, after, e, false)
    case _ => after.handled == before.handled
  }

  /**
   One change: at most one frame takes effect, no settlement is taken back, every call that ends ends by the reply that
   takes effect or while none does, and a reply that takes effect ends the call it answers if that is pending.
   */
  predicate StepOk(before: Moment, after: Moment) {
    && (after.handled == before.handled || TakesEffect(before, after))
    && before.sent <= after.sent && Keeps(before.settled, after.settled)
    && before.generation <= after.generation
    && after.Accounts()
    && (forall e | e in after.settled && e !in before.settled :: Ends(before, after, e))
    && (forall e | e in before.pending && (Replies(before, after, e, true) || Replies(before, after, e, false)) ::
          e in after.settled)
  }

  const START: Moment := Moment([], {}, {}, map[], 0)

  ghost predicate History(trace: seq<Moment>) {
    |trace| > 0 && trace[0] == START && forall i | 0 < i < |trace| :: StepOk(trace[i - 1], trace[i])
  }

  lemma FrameStep(m: Moment, frame: Frame)
    requires m.Accounts() && frame.generation == m.generation && Below(m.handled, frame.serial)
    ensures StepOk(m, m.(handled := m.handled + [frame], settled := SettledBy(frame.content, m.pending, m.settled),
                         pending := PendingAfter(frame.content, m.pending)))
  {
    assert (m.handled + [frame])[..|m.handled|] == m.handled;
  }

  lemma CallStep(m: Moment, sent: set<Echo>, pending: set<Echo>, settled: map<Echo, Settlement>)
    requires m.sent <= sent && Keeps(m.settled, settled) && pending !! settled.Keys && pending + settled.Keys == sent
    requires forall e | e in settled && e !in m.settled :: settled[e] in {TimedOut, Unsent, Disconnected}
    ensures StepOk(m, m.(sent := sent, pending := pending, settled := settled))
  {
  }

  lemma HistoryExtended(trace: seq<Moment>, next: Moment)
    requires History(trace) && StepOk(trace[|trace| - 1], next)
    ensures History(trace + [next])
  {
  }

  /**
   Over any stretch of a run: frames keep taking effect in the order they were accepted in, each within its generation
   and none twice; a call once settled stays settled the same way, and one that was pending is pending still or settled.
   */
  lemma {:induction false} RunKeeps(trace: seq<Moment>, i: nat, j: nat)
    requires History(trace) && i <= j < |trace|
    ensures trace[i].handled <= trace[j].handled && trace[i].generation <= trace[j].generation
    ensures forall f | f in trace[j].handled[|trace[i].handled|..] ::
              && trace[i].generation <= f.generation <= trace[j].generation
              && forall g | g in trace[i].handled :: g.serial < f.serial
    ensures Keeps(trace[i].settled, trace[j].settled)
    ensures forall e | e in trace[i].pending :: e in trace[j].pending || e in trace[j].settled
    ensures trace[j].Accounts()
    decreases j
  {
    if j > 0 {
      assert StepOk(trace[j - 1], trace[j]);
    }
    if i < j {
      RunKeeps(trace, i, j - 1);
      StretchGrows(trace[i].handled, trace[j - 1], trace[j]);
    }
  }

  /** One more step adds at most one frame behind those of a stretch. */
  lemma StretchGrows(first: seq<Frame>, before: Moment, after: Moment)
    requires first <= before.handled && StepOk(before, after)
    ensures first <= after.handled
    ensures forall f | f in after.handled[|first|..] ::
              || f in before.handled[|first|..]
              || (f.generation == before.generation && forall g | g in before.handled :: g.serial < f.serial)
  {
    if after.handled != before.handled {
      var last := after.handled[|after.handled| - 1];
      assert after.handled == before.handled + [last];
      assert after.handled[|first|..] == before.handled[|first|..] + [last];
    }
  }

  // ----- how calls end -----

  /** Somewhere in the run a reply to a call took effect while the call was pending. */
  ghost predicate Answered(trace: seq<Moment>, j: nat, e: Echo, ok: bool)
    requires j < |trace|
  {
    exists k :: 0 < k <= j && e in trace[k - 1].pending && Replies(trace[k - 1], trace[k], e, ok)
  }

  lemma AnswerSettles(before: Moment, after: Moment, e: Echo, ok: bool)
    requires StepOk(before, after) && before.Accounts() && e in before.pending && Replies(before, after, e, ok)
    ensures e in after.settled && after.settled[e] == if ok then Resolved else Refused
  {
    assert e !in before.settled;
    assert Ends(before, after, e);
  }

  /**
   In every recorded run a call is resolved exactly if a successful reply to it took effect while it was pending, and
   refused exactly if a failed one did; so a call that timed out, was never sent or lost its connection had neither.
   */
  lemma {:induction false} EndsAsAnswered(trace: seq<Moment>, j: nat, e: Echo, ok: bool)
    requires History(trace) && j < |trace|
    ensures (e in trace[j].settled && trace[j].settled[e] == if ok then Resolved else Refused)
            <==> Answered(trace, j, e, ok)
  {
    if j > 0 {
      var before, after := trace[j - 1], trace[j];
      assert StepOk(before, after);
      EndsAsAnswered(trace, j - 1, e, ok);
      RunKeeps(trace, 0, j - 1);
      if e in before.pending && Replies(before, after, e, ok) {
        AnswerSettles(before, after, e, ok);
      } else if e in after.settled && e !in before.settled {
        assert Ends(before, after, e);
      }
    }
  }

  lemma RepliesInHandled(trace: seq<Moment>, j: nat, e: Echo, ok: bool)
    requires History(trace) && j < |trace| && Answered(trace, j, e, ok)
    ensures exists f :: f in trace[j].handled && f.content == Response(e, ok)
  {
    var k :| 0 < k <= j && e in trace[k - 1].pending && Replies(trace[k - 1], trace[k], e, ok);
    RunKeeps(trace, k, j);
    var last := trace[k].handled[|trace[k].handled| - 1];
    assert last in trace[j].handled;
  }

  class Client {
    const limits: Limits
    var closing: bool
    var ws: Option<Socket>
    /** Whether the current socket completed its handshake. */
    var connected: bool
    var protocolClosing: set<Socket>
    var incomingGeneration: nat
    var incomingQueue: seq<Frame>
    var incomingQueueBytes: nat
    var activeIncoming: Option<Active>
    var incomingDraining: bool
    var pending: set<Echo>

    /** How many frames were ever accepted: the next serial number. */
    var accepted: nat

    /** Queued frames have serial numbers from here on, the active and the handled ones lie below. */
    ghost var horizon: nat

    /** Every socket ever used. */
    ghost var sockets: set<Socket>
    /** The frames whose content took effect, in order, and the generation each took effect in. */
    ghost var handled: seq<Frame>
    ghost var handledIn: seq<nat>
    /** Calls ever sent, and how those that ended did. */
    ghost var sent: set<Echo>
    ghost var settled: map<Echo, Settlement>
    /** Events handed to the dispatcher since it was last cleared. */
    ghost var events: seq<Event>
    /** Every moment so far, one per change of what has happened. */
    ghost var trace: seq<Moment>

    function RetainedCount(): nat
      reads this`incomingQueue, this`activeIncoming
    {
      |incomingQueue| + if activeIncoming.Some? then 1 else 0
    }

    function RetainedBytes(): nat
      reads this`incomingQueueBytes, this`activeIncoming
    {
      incomingQueueBytes + if activeIncoming.Some? then activeIncoming.value.frame.byteLength else 0
    }

    predicate Live()
      reads this`ws, this`closing, this`protocolClosing
    {
      ws.Some? && !closing && ws.value !in protocolClosing
    }

    ghost predicate Bounded()
      reads this`incomingQueue, this`incomingQueueBytes, this`activeIncoming
    {
      && incomingQueueBytes == TotalBytes(incomingQueue)
      && RetainedCount() <= limits.queueLimit
      && RetainedBytes() <= limits.maxBytes
    }

    /** Everything queued came in on the live connection, behind the active frame and all handled ones. */
    ghost predicate Queued()
      reads this`incomingQueue, this`accepted, this`horizon, this`ws, this`closing, this`protocolClosing,
            this`incomingGeneration
    {
      && InOrder(incomingQueue, accepted, horizon, incomingGeneration, ws)
      && (incomingQueue != [] ==> Live())
    }

    /** Frames take effect in the order they were accepted in, and only within their own generation. */
    ghost predicate Handled()
      reads this`handled, this`handledIn, this`horizon
    {
      HandledInOrder(handled, handledIn, horizon)
    }

    ghost predicate Working()
      reads this`incomingDraining, this`activeIncoming, this`incomingQueue, this`horizon, this`handled
    {
      && (incomingDraining <==> activeIncoming.Some?)
      && (!incomingDraining ==> incomingQueue == [])
      && (activeIncoming.Some? ==>
            var a := activeIncoming.value;
            && a.frame.serial < horizon
            && (a.reading ==> Below(handled, a.frame.serial)))
    }

    /** Every call sent is either pending on the connected socket or settled. */
    ghost predicate Answerable()
      reads this`pending, this`settled, this`sent, this`ws, this`closing, this`protocolClosing, this`connected
    {
      && pending !! settled.Keys && pending + settled.Keys == sent
      && (pending != {} ==> Live() && connected)
    }

    ghost predicate Wired()
      reads this`closing, this`ws, this`sockets, this`protocolClosing
    {
      && (closing ==> ws.None?)
      && (ws.Some? ==> ws.value in sockets) && protocolClosing <= sockets
    }

    ghost function Now(): Moment
      reads this`handled, this`sent, this`pending, this`settled, this`incomingGeneration
    {
      Moment(handled, sent, pending, settled, incomingGeneration)
    }

    ghost predicate Recorded()
      reads this`trace, this`handled, this`sent, this`pending, this`settled, this`incomingGeneration
    {
      History(trace) && trace[|trace| - 1] == Now()
    }

    ghost predicate Valid()
      reads this
    {
      Bounded() && Queued() && Handled() && Working() && Answerable() && Wired() && Recorded()
    }

    /** Adds what has just changed to the record. */
    ghost method Note()
      requires History(trace) && StepOk(trace[|trace| - 1], Now())
      modifies this`trace
      ensures Recorded() && old(trace) <= trace
    {
      HistoryExtended(trace, Now());
      trace := trace + [Now()];
    }

    /** Adds what has just changed to the record, put as the change it is. */
    ghost method NoteAs(after: Moment)
      requires History(trace) && Now() == after && StepOk(trace[|trace| - 1], after)
      modifies this`trace
      ensures Recorded() && old(trace) <= trace
    {
      Note();
    }

    constructor (limits: Limits)
      ensures Valid() && this.limits == limits && !closing && ws.None? && sent == {} && handled == []
    {
      this.limits := limits;
      closing, ws, connected, protocolClosing, incomingGeneration := false, None, false, {}, 0;
      incomingQueue, incomingQueueBytes, activeIncoming, incomingDraining, pending := [], 0, None, false, {};
      accepted, horizon, sockets, handled, handledIn, sent, settled, events := 0, 0, {}, [], [], {}, map[], [];
      trace := [Moment([], {}, {}, map[], 0)];
    }

    predicate IsCurrentFrame(frame: Frame)
      reads this
    {
      !closing && ws == Some(frame.socket) && incomingGeneration == frame.generation && frame.socket !in protocolClosing
    }

    // ----- calls -----

    /** Sends a request on a ready socket; what the socket refuses fails at once. */
    method Call(echo: Echo, ready: bool, sendOk: bool) returns (issued: bool)
      requires Valid() && echo !in sent && (ready ==> ws.Some? && connected)
      modifies this`pending, this`sent, this`settled, this`trace
      ensures Valid() && old(trace) <= trace
      ensures issued <==> ready && ws.value !in protocolClosing
      ensures sent == if issued then old(sent) + {echo} else old(sent)
      ensures pending == if issued && sendOk then old(pending) + {echo} else old(pending)
      ensures settled == if issued && !sendOk then old(settled)[echo := Unsent] else old(settled)
    {
      if !ready || ws.value in protocolClosing {
        return false;
      }
      IssueCall(echo, sendOk);
      return true;
    }

    method IssueCall(echo: Echo, sendOk: bool)
      requires Answerable() && Recorded() && echo !in sent && Live() && connected
      modifies this`pending, this`sent, this`settled, this`trace
      ensures Answerable() && Recorded() && old(trace) <= trace && sent == old(sent) + {echo}
      ensures pending == if sendOk then old(pending) + {echo} else old(pending)
      ensures settled == if sendOk then old(settled) else old(settled)[echo := Unsent]
    {
      ghost var before := Now();
      sent := sent + {echo};
      if sendOk {
        pending := pending + {echo};
      }
      settled := if sendOk then settled else settled[echo := Unsent];
      CallStep(before, sent, pending, settled);
      Note();
    }

    /** The timer of a call that is still pending. */
    method TimeOut(echo: Echo)
      requires Valid() && echo in pending
      modifies this`pending, this`settled, this`trace
      ensures Valid() && old(trace) <= trace
      ensures pending == old(pending) - {echo} && settled == old(settled)[echo := TimedOut]
    {
      EndCall(echo);
    }

    method EndCall(echo: Echo)
      requires Answerable() && Recorded() && echo in pending
      modifies this`pending, this`settled, this`trace
      ensures Answerable() && Recorded() && old(trace) <= trace
      ensures pending == old(pending) - {echo} && settled == old(settled)[echo := TimedOut]
    {
      ghost var after := Now().(pending := pending - {echo}, settled := settled[echo := TimedOut]);
      CallStep(Now(), sent, after.pending, after.settled);
      pending := pending - {echo};
      settled := settled[echo := TimedOut];
      NoteAs(after);
    }

    method RejectPending()
      requires Answerable() && Recorded()
      modifies this`pending, this`settled, this`trace
      ensures pending == {} && settled == Settle(old(settled), old(pending), Disconnected) && settled.Keys == sent
      ensures forall e | e in settled :: settled[e] == if e in old(settled) then old(settled)[e] else Disconnected
      ensures Answerable() && Recorded() && old(trace) <= trace
    {
      CallStep(Now(), sent, {}, Settle(settled, pending, Disconnected));
      settled := Settle(settled, pending, Disconnected);
      pending := {};
      Note();
    }

    // ----- frames -----

    /** A reply settles the call it answers, an event goes to the dispatcher, anything else is dropped. */
    method Deliver(content: Content)
      requires Answerable()
      modifies this`pending, this`settled, this`events
      ensures Answerable()
      ensures events == EventsAfter(content, old(events))
      ensures settled == SettledBy(content, old(pending), old(settled)) && pending == PendingAfter(content, old(pending))
      ensures match content
              case Response(echo, ok) =>
                && events == old(events) && pending == old(pending) - {echo}
                && (echo in old(pending) ==> settled == old(settled)[echo := if ok then Resolved else Refused])
                && (echo !in old(pending) ==> settled == old(settled))
              case Notice(event) => events == old(events) + [event] && settled == old(settled) && pending == old(pending)
              case Unusable => events == old(events) && settled == old(settled) && pending == old(pending)
    {
      match content {
        case Response(echo, ok) =>
          if echo in pending {
            pending := pending - {echo};
            settled := settled[echo := if ok then Resolved else Refused];
          }
        case Notice(event) => events := events + [event];
        case Unusable =>
      }
    }

    /** A frame takes effect, and is recorded with what it did. */
    method TakeEffect(frame: Frame)
      requires Answerable() && Recorded() && Handled()
      requires frame.generation == incomingGeneration && frame.serial < horizon && Below(handled, frame.serial)
      modifies this`pending, this`settled, this`events, this`trace, this`handled, this`handledIn
      ensures Answerable() && Recorded() && Handled() && old(trace) <= trace
      ensures handled == old(handled) + [frame] && handledIn == old(handledIn) + [incomingGeneration]
      ensures events == EventsAfter(frame.content, old(events))
      ensures settled == SettledBy(frame.content, old(pending), old(settled))
      ensures pending == PendingAfter(frame.content, old(pending))
    {
      ghost var before := Now();
      Deliver(frame.content);
      RecordFrame(before, frame);
    }

    ghost method RecordFrame(before: Moment, frame: Frame)
      requires History(trace) && trace[|trace| - 1] == before && before.Accounts() && Handled()
      requires Now() == before.(settled := SettledBy(frame.content, before.pending, before.settled),
                                pending := PendingAfter(frame.content, before.pending))
      requires frame.generation == incomingGeneration && frame.serial < horizon && Below(handled, frame.serial)
      modifies this`trace, this`handled, this`handledIn
      ensures Recorded() && Handled() && old(trace) <= trace
      ensures handled == old(handled) + [frame] && handledIn == old(handledIn) + [incomingGeneration]
    {
      FrameStep(before, frame);
      HandledGrows(handled, handledIn, horizon, frame);
      handled := handled + [frame];
      handledIn := handledIn + [incomingGeneration];
      NoteAs(before.(handled := before.handled + [frame],
                     settled := SettledBy(frame.content, before.pending, before.settled),
                     pending := PendingAfter(frame.content, before.pending)));
    }

    /** The text of the active frame is there; it takes effect if its connection is still the current one. */
    method HandleMessage(frame: Frame)
      requires Valid() && activeIncoming == Some(Active(frame, true))
      modifies this`handled, this`handledIn, this`activeIncoming, this`pending, this`settled, this`events, this`trace
      ensures Valid() && activeIncoming == Some(Active(frame, false)) && old(trace) <= trace
      ensures if !closing && ws == Some(frame.socket) && frame.generation == incomingGeneration
                 && frame.socket !in protocolClosing then
                && handled == old(handled) + [frame] && events == EventsAfter(frame.content, old(events))
                && settled == SettledBy(frame.content, old(pending), old(settled))
                && pending == PendingAfter(frame.content, old(pending))
              else handled == old(handled) && pending == old(pending) && settled == old(settled) && events == old(events)
    {
      if IsCurrentFrame(frame) {
        TakeEffect(frame);
      }
      activeIncoming := Some(Active(frame, false));
    }

    /** Takes the next frame off the queue. */
    method Dequeue() returns (frame: Frame)
      requires Queued() && Handled() && incomingQueue != [] && incomingQueueBytes == TotalBytes(incomingQueue)
      modifies this`incomingQueue, this`incomingQueueBytes, this`horizon
      ensures Queued() && Handled() && incomingQueueBytes == TotalBytes(incomingQueue)
      ensures frame == old(incomingQueue)[0] && incomingQueue == old(incomingQueue)[1..]
      ensures incomingQueueBytes + frame.byteLength == old(incomingQueueBytes)
      ensures IsCurrentFrame(frame) && frame.serial < horizon && Below(handled, frame.serial)
    {
      frame := incomingQueue[0];
      TailInOrder(incomingQueue, accepted, horizon, incomingGeneration, ws);
      HorizonMoves(handled, handledIn, horizon, frame.serial);
      HorizonMoves(handled, handledIn, horizon, frame.serial + 1);
      horizon := frame.serial + 1;
      incomingQueue := incomingQueue[1..];
      incomingQueueBytes := incomingQueueBytes - frame.byteLength;
    }

    /** The frame taken off the queue becomes the active one. */
    method Shift() returns (frame: Frame)
      requires BetweenFrames() && incomingQueue != []
      modifies this`incomingQueue, this`incomingQueueBytes, this`activeIncoming, this`horizon
      ensures Valid() && frame == old(incomingQueue)[0] && incomingQueue == old(incomingQueue)[1..]
      ensures activeIncoming == Some(Active(frame, true)) && IsCurrentFrame(frame)
    {
      frame := Dequeue();
      activeIncoming := Some(Active(frame, true));
    }

    /** A drain between two frames. */
    ghost predicate BetweenFrames()
      reads this
    {
      && Bounded() && Queued() && Handled() && Answerable() && Wired() && Recorded()
      && activeIncoming.None? && incomingDraining
    }

    /** The drain loop up to its next await: the head of the queue becomes active and, unless its text is yet to come,
        takes effect. */
    method Drain()
      requires BetweenFrames()
      modifies this`incomingQueue, this`incomingQueueBytes, this`activeIncoming, this`incomingDraining, this`horizon,
               this`handled, this`handledIn, this`pending, this`settled, this`events, this`trace
      ensures Valid() && old(trace) <= trace
      ensures Advanced(old(incomingQueue), old(handled), old(pending), old(settled), old(events))
    {
      if incomingQueue == [] {
        incomingDraining := false;
      } else {
        DrainNext();
      }
    }

    method DrainNext()
      requires BetweenFrames() && incomingQueue != []
      modifies this`incomingQueue, this`incomingQueueBytes, this`activeIncoming, this`horizon,
               this`handled, this`handledIn, this`pending, this`settled, this`events, this`trace
      ensures Valid() && old(trace) <= trace
      ensures Advanced(old(incomingQueue), old(handled), old(pending), old(settled), old(events))
    {
      var frame := Shift();
      if !frame.blob {
        HandleMessage(frame);
      }
    }

    /**
     How the drain goes on: it ends with an empty queue and nothing else changed, or the head of the queue is active
     and, unless its text is still to come, has taken effect exactly once.
     */
    ghost predicate Advanced(queue: seq<Frame>, handledBefore: seq<Frame>, pendingBefore: set<Echo>,
                             settledBefore: map<Echo, Settlement>, eventsBefore: seq<Event>)
      reads this
    {
      if queue == [] then
        && !incomingDraining && activeIncoming.None? && incomingQueue == []
        && handled == handledBefore && pending == pendingBefore && settled == settledBefore && events == eventsBefore
      else
        var frame := queue[0];
        && incomingDraining && activeIncoming == Some(Active(frame, frame.blob)) && incomingQueue == queue[1..]
        && if frame.blob then
             handled == handledBefore && pending == pendingBefore && settled == settledBefore && events == eventsBefore
           else
             && handled == handledBefore + [frame] && events == EventsAfter(frame.content, eventsBefore)
             && settled == SettledBy(frame.content, pendingBefore, settledBefore)
             && pending == PendingAfter(frame.content, pendingBefore)
    }

    /** The text of a blob frame arrives, or cannot be read. */
    method TextRead(ok: bool)
      requires Valid() && activeIncoming.Some? && activeIncoming.value.reading
      modifies this`handled, this`handledIn, this`activeIncoming, this`pending, this`settled, this`events, this`trace
      ensures Valid() && activeIncoming == Some(old(activeIncoming.value).(reading := false)) && old(trace) <= trace
      ensures var frame := activeIncoming.value.frame;
              if ok && !closing && ws == Some(frame.socket) && frame.generation == incomingGeneration
                 && frame.socket !in protocolClosing then
                && handled == old(handled) + [frame] && events == EventsAfter(frame.content, old(events))
                && settled == SettledBy(frame.content, old(pending), old(settled))
                && pending == PendingAfter(frame.content, old(pending))
              else handled == old(handled) && pending == old(pending) && settled == old(settled) && events == old(events)
    {
      if ok {
        HandleMessage(activeIncoming.value.frame);
      } else {
        activeIncoming := Some(activeIncoming.value.(reading := false));
      }
    }

    /** The drain resumes behind the active frame. */
    method FrameDone()
      requires Valid() && activeIncoming.Some? && !activeIncoming.value.reading
      modifies this`incomingQueue, this`incomingQueueBytes, this`activeIncoming, this`incomingDraining, this`horizon,
               this`handled, this`handledIn, this`pending, this`settled, this`events, this`trace
      ensures Valid() && old(trace) <= trace
      ensures Advanced(old(incomingQueue), old(handled), old(pending), old(settled), old(events))
    {
      activeIncoming := None;
      Drain();
    }

    /** Retires the connection's queue and its generation; the active frame stays counted until its drain resumes. */
    method ResetConnectionQueues()
      requires Valid()
      modifies this`incomingGeneration, this`incomingQueue, this`incomingQueueBytes, this`events, this`trace
      ensures Valid() && incomingGeneration == old(incomingGeneration) + 1 && incomingQueue == [] && events == []
      ensures old(trace) <= trace
    {
      NextGeneration();
      incomingQueue := [];
      incomingQueueBytes := 0;
      events := [];
    }

    method NextGeneration()
      requires Recorded() && Now().Accounts()
      modifies this`incomingGeneration, this`trace
      ensures Recorded() && old(trace) <= trace && incomingGeneration == old(incomingGeneration) + 1
    {
      incomingGeneration := incomingGeneration + 1;
      Note();
    }

    /** A frame arrives on a socket that was opened in the given generation. */
    method QueueIncomingMessage(socket: Socket, byteLength: Option<nat>, generation: nat, blob: bool, content: Content,
                                closeThrows: bool)
      requires Valid()
      modifies this`incomingQueue, this`incomingQueueBytes, this`activeIncoming, this`incomingDraining, this`horizon,
               this`handled, this`handledIn, this`pending, this`settled, this`events, this`trace, this`accepted,
               this`incomingGeneration, this`protocolClosing, this`ws
      ensures Valid() && old(trace) <= trace
      ensures var current := old(!closing && ws == Some(socket) && socket !in protocolClosing
                                 && generation == incomingGeneration);
              var sized := byteLength.Some? && byteLength.value <= limits.maxFrameBytes;
              var active, activeBytes := if old(activeIncoming).Some? then 1 else 0,
                                         if old(activeIncoming).Some? then old(activeIncoming).value.frame.byteLength else 0;
              var fits := sized && old(|incomingQueue|) + active < limits.queueLimit
                          && TotalBytes(old(incomingQueue)) + activeBytes + byteLength.value <= limits.maxBytes;
              if current && fits then
                var frame := Frame(socket, byteLength.value, generation, blob, content, old(accepted));
                && accepted == old(accepted) + 1
                && (if old(incomingDraining) then
                      && incomingQueue == old(incomingQueue) + [frame] && activeIncoming == old(activeIncoming)
                      && handled == old(handled) && pending == old(pending) && settled == old(settled)
                      && events == old(events)
                    else Advanced([frame], old(handled), old(pending), old(settled), old(events)))
              else
                && accepted == old(accepted) && handled == old(handled) && activeIncoming == old(activeIncoming)
                && if current && byteLength.Some? && !sized then GaveUp(socket, old(pending), old(settled))
                   else incomingQueue == old(incomingQueue) && pending == old(pending) && settled == old(settled)
                        && events == old(events)
    {
      if closing || ws != Some(socket) || generation != incomingGeneration || socket in protocolClosing {
        return;
      }
      if byteLength.None? {
        return;
      }
      if byteLength.value > limits.maxFrameBytes {
        CloseForOversizedFrame(socket, closeThrows);
        return;
      }
      if RetainedCount() >= limits.queueLimit || byteLength.value > limits.maxBytes - RetainedBytes() {
        return;
      }
      Accept(Frame(socket, byteLength.value, generation, blob, content, accepted));
    }

    /** A frame that fits waits last, and starts the drain if there is none. */
    method Accept(frame: Frame)
      requires Valid() && IsCurrentFrame(frame) && frame.serial == accepted
      requires RetainedCount() < limits.queueLimit && frame.byteLength <= limits.maxBytes - RetainedBytes()
      modifies this`incomingQueue, this`incomingQueueBytes, this`activeIncoming, this`incomingDraining, this`horizon,
               this`handled, this`handledIn, this`pending, this`settled, this`events, this`trace, this`accepted
      ensures Valid() && old(trace) <= trace && accepted == old(accepted) + 1
      ensures if old(incomingDraining) then
                && incomingQueue == old(incomingQueue) + [frame] && activeIncoming == old(activeIncoming)
                && handled == old(handled) && pending == old(pending) && settled == old(settled)
                && events == old(events)
              else Advanced([frame], old(handled), old(pending), old(settled), old(events))
    {
      Push(frame);
      if !incomingDraining {
        assert incomingQueue == [frame];
        StartDrain(frame);
      }
    }

    method StartDrain(frame: Frame)
      requires Bounded() && Queued() && Handled() && Answerable() && Wired() && Recorded()
      requires !incomingDraining && activeIncoming.None? && incomingQueue == [frame]
      modifies this`incomingQueue, this`incomingQueueBytes, this`activeIncoming, this`incomingDraining, this`horizon,
               this`handled, this`handledIn, this`pending, this`settled, this`events, this`trace
      ensures Valid() && old(trace) <= trace
      ensures Advanced([frame], old(handled), old(pending), old(settled), old(events))
    {
      incomingDraining := true;
      Drain();
    }

    method Push(frame: Frame)
      requires Valid() && IsCurrentFrame(frame) && frame.serial == accepted
      requires RetainedCount() < limits.queueLimit && frame.byteLength <= limits.maxBytes - RetainedBytes()
      modifies this`incomingQueue, this`incomingQueueBytes, this`accepted
      ensures Bounded() && Queued() && Handled() && Answerable() && Wired() && Recorded()
      ensures incomingDraining ==> Working()
      ensures incomingQueue == old(incomingQueue) + [frame] && accepted == old(accepted) + 1
    {
      Append(frame);
    }

    method Append(frame: Frame)
      requires Bounded() && Queued() && IsCurrentFrame(frame) && frame.serial == accepted
      requires RetainedCount() < limits.queueLimit && frame.byteLength <= limits.maxBytes - RetainedBytes()
      modifies this`incomingQueue, this`incomingQueueBytes, this`accepted
      ensures Bounded() && Queued()
      ensures incomingQueue == old(incomingQueue) + [frame] && accepted == old(accepted) + 1
    {
      TotalBytesAppend(incomingQueue, frame);
      LongerInOrder(incomingQueue, accepted, horizon, incomingGeneration, ws, frame);
      incomingQueue := incomingQueue + [frame];
      incomingQueueBytes := incomingQueueBytes + frame.byteLength;
      accepted := accepted + 1;
    }

    /** Nothing of the connection is left, and its calls are settled. */
    ghost predicate GaveUp(socket: Socket, pendingBefore: set<Echo>, settledBefore: map<Echo, Settlement>)
      reads this
    {
      && incomingQueue == [] && pending == {} && events == [] && socket in protocolClosing && !Live()
      && settled == Settle(settledBefore, pendingBefore, Disconnected)
    }

    /** Gives up a connection that sent too much: nothing queued survives and every call is refused. */
    method CloseForOversizedFrame(socket: Socket, closeThrows: bool)
      requires Valid()
      modifies this`incomingGeneration, this`incomingQueue, this`incomingQueueBytes, this`events, this`trace,
               this`pending, this`settled, this`protocolClosing, this`ws
      ensures Valid() && old(trace) <= trace
      ensures if old(ws == Some(socket) && socket !in protocolClosing) then
                incomingGeneration == old(incomingGeneration) + 1 && GaveUp(socket, old(pending), old(settled))
              else
                && incomingQueue == old(incomingQueue) && pending == old(pending) && settled == old(settled)
                && events == old(events) && ws == old(ws) && incomingGeneration == old(incomingGeneration)
    {
      if ws != Some(socket) || socket in protocolClosing {
        return;
      }
      DropConnection();
      MarkClosing(socket);
      if closeThrows {
        Detach();
      }
    }

    method MarkClosing(socket: Socket)
      requires Valid() && pending == {} && incomingQueue == [] && ws == Some(socket)
      modifies this`protocolClosing
      ensures Valid() && protocolClosing == old(protocolClosing) + {socket}
    {
      protocolClosing := protocolClosing + {socket};
    }

    /** Nothing of the current connection is kept. */
    method DropConnection()
      requires Valid()
      modifies this`incomingGeneration, this`incomingQueue, this`incomingQueueBytes, this`events, this`trace,
               this`pending, this`settled
      ensures Valid() && old(trace) <= trace
      ensures incomingGeneration == old(incomingGeneration) + 1 && incomingQueue == [] && events == []
      ensures pending == {} && settled == Settle(old(settled), old(pending), Disconnected)
    {
      ResetConnectionQueues();
      RejectPending();
    }

    method Detach()
      requires Valid() && pending == {} && incomingQueue == []
      modifies this`ws
      ensures Valid() && ws.None?
    {
      ws := None;
    }

    // ----- connections -----

    method Connect()
      requires Valid()
      modifies this`closing
      ensures Valid() && !closing
    {
      closing := false;
    }

    /** A fresh socket takes the place of the current one, whose calls are refused. */
    method OpenSocket(socket: Socket)
      requires Valid() && !closing && socket !in sockets
      modifies this`incomingGeneration, this`incomingQueue, this`incomingQueueBytes, this`events, this`trace, this`ws,
               this`pending, this`settled, this`sockets, this`connected
      ensures Valid() && ws == Some(socket) && !connected && pending == {} && incomingQueue == [] && old(trace) <= trace
      ensures settled == Settle(old(settled), old(pending), Disconnected)
      ensures incomingGeneration == old(incomingGeneration) + 1
    {
      if ws.Some? {
        DropConnection();
      } else {
        ResetConnectionQueues();
        SettleNone(settled, Disconnected);
      }
      Replace(socket);
    }

    method Replace(socket: Socket)
      requires Valid() && !closing && socket !in sockets && pending == {} && incomingQueue == []
      modifies this`ws, this`sockets, this`connected
      ensures Valid() && ws == Some(socket) && !connected
    {
      ws := Some(socket);
      sockets := sockets + {socket};
      connected := false;
    }

    method Opened(socket: Socket)
      requires Valid() && ws == Some(socket)
      modifies this`connected
      ensures Valid() && connected
    {
      connected := true;
    }

    /** A handshake that failed or timed out. */
    method OpenFailed(socket: Socket)
      requires Valid() && (ws == Some(socket) ==> !connected)
      modifies this`incomingGeneration, this`incomingQueue, this`incomingQueueBytes, this`events, this`trace, this`ws
      ensures Valid() && ws != Some(socket) && old(trace) <= trace
    {
      if ws == Some(socket) {
        ResetConnectionQueues();
        ws := None;
      }
    }

    method SocketClosed(socket: Socket)
      requires Valid()
      modifies this`incomingGeneration, this`incomingQueue, this`incomingQueueBytes, this`events, this`trace, this`ws,
               this`pending, this`settled
      ensures Valid() && ws != Some(socket) && old(trace) <= trace
      ensures old(ws) == Some(socket) ==>
                pending == {} && incomingQueue == [] && settled == Settle(old(settled), old(pending), Disconnected)
      ensures old(ws) != Some(socket) ==>
                && pending == old(pending) && settled == old(settled) && incomingQueue == old(incomingQueue)
                && ws == old(ws)
    {
      if ws != Some(socket) {
        return;
      }
      DropConnection();
      Detach();
    }

    method Close()
      requires Valid()
      modifies this`incomingGeneration, this`incomingQueue, this`incomingQueueBytes, this`events, this`trace, this`ws,
               this`pending, this`settled, this`closing
      ensures Valid() && closing && ws.None? && pending == {} && incomingQueue == [] && old(trace) <= trace
      ensures settled == Settle(old(settled), old(pending), Disconnected)
    {
      DropConnection();
      Detach();
      closing := true;
    }
  }

  /**
   In every run of a client: its frames took effect in the order they were accepted in, each in its own generation;
   every call sent is pending or was settled, once, and nothing that happened is ever forgotten.
   */
  lemma RunsInOrder(client: Client, i: nat)
    requires client.Valid() && i < |client.trace|
    ensures Ascending(client.handled) && client.trace[i].handled <= client.handled
    ensures forall k | 0 <= k < |client.handled| :: client.handled[k].generation == client.handledIn[k]
    ensures Keeps(client.trace[i].settled, client.settled)
    ensures forall e | e in client.trace[i].sent :: (e in client.pending) != (e in client.settled)
  {
    var last := |client.trace| - 1;
    RunKeeps(client.trace, i, last);
    forall e | e in client.trace[i].sent ensures e in client.sent {
      assert e in client.trace[i].pending || e in client.trace[i].settled by {
        RunKeeps(client.trace, i, i);
        assert e in client.trace[i].pending + client.trace[i].settled.Keys;
      }
    }
  }

  /** So of a client: how a call ended is what the handled reply to it says, and none was handled while it was pending
      where it ended otherwise. */
  lemma CallsEndAsAnswered(client: Client, e: Echo)
    requires client.Valid() && e in client.settled
    ensures var last := |client.trace| - 1;
            match client.settled[e]
            case Resolved =>
              Answered(client.trace, last, e, true) && exists f :: f in client.handled && f.content == Response(e, true)
            case Refused =>
              Answered(client.trace, last, e, false) && exists f :: f in client.handled && f.content == Response(e, false)
            case _ => !Answered(client.trace, last, e, true) && !Answered(client.trace, last, e, false)
  {
    var last := |client.trace| - 1;
    EndsAsAnswered(client.trace, last, e, true);
    EndsAsAnswered(client.trace, last, e, false);
    if client.settled[e] == Resolved {
      RepliesInHandled(client.trace, last, e, true);
    } else if client.settled[e] == Refused {
      RepliesInHandled(client.trace, last, e, false);
    }
  }
}

/** The dispatcher both transports feed: a bounded queue with one handler call at a time. */
module EventDispatch {
  import opened Prelude

  type Event = nat

  class Dispatcher {
    const eventQueueLimit: nat
    var hasHandler: bool
    var active: bool
    var eventQueue: seq<Event>
    var eventQueueDraining: bool
    /** The event whose handler call has not returned yet. */
    var handling: Option<Event>
    var droppedEvents: nat

    /** Since the queue was last cleared: the events taken in, and those among them whose handler was called. */
    ghost var taken: seq<Event>
    ghost var started: seq<Event>

    ghost predicate Valid()
      reads this
    {
      && |eventQueue| <= eventQueueLimit
      && taken == started + eventQueue
      && (eventQueueDraining <==> handling.Some?)
      && (!eventQueueDraining ==> eventQueue == [])
      && (!active ==> eventQueue == [])
      && (eventQueue != [] ==> hasHandler)
    }

    constructor (limit: nat)
      ensures Valid() && eventQueueLimit == limit && active && !hasHandler && taken == []
    {
      eventQueueLimit := limit;
      hasHandler, active, eventQueue, eventQueueDraining, handling, droppedEvents := false, true, [], false, None, 0;
      taken, started := [], [];
    }

    method OnEvent()
      requires Valid()
      modifies this`hasHandler
      ensures Valid() && hasHandler
    {
      hasHandler := true;
    }

    method Activate()
      requires Valid()
      modifies this`active
      ensures Valid() && active
    {
      active := true;
    }

    /** Drops what waits; the handler call under way goes on. */
    method Clear()
      requires Valid()
      modifies this`eventQueue, this`droppedEvents, this`taken, this`started
      ensures Valid() && eventQueue == [] && taken == [] && droppedEvents == 0
    {
      eventQueue := [];
      droppedEvents := 0;
      taken, started := [], [];
    }

    method Close()
      requires Valid()
      modifies this`active, this`eventQueue, this`droppedEvents, this`taken, this`started
      ensures Valid() && !active && eventQueue == [] && handling == old(handling)
    {
      Clear();
      active := false;
    }

    /** Starts the handler for the next event, if there is one. */
    method Drain()
      requires |eventQueue| <= eventQueueLimit && taken == started + eventQueue && handling.None?
      requires eventQueueDraining && (!active ==> eventQueue == []) && (eventQueue != [] ==> hasHandler)
      modifies this`eventQueue, this`eventQueueDraining, this`handling, this`started
      ensures Valid()
      ensures if old(eventQueue) == [] then !eventQueueDraining && started == old(started)
              else handling == Some(old(eventQueue)[0]) && started == old(started) + [old(eventQueue)[0]]
    {
      if active && eventQueue != [] {
        handling := Some(eventQueue[0]);
        started := started + [eventQueue[0]];
        eventQueue := eventQueue[1..];
      } else {
        eventQueueDraining := false;
      }
    }

    /** Every event taken in is handled in turn; none is taken in without a handler, when inactive or beyond the limit. */
    method Enqueue(event: Event)
      requires Valid()
      modifies this`eventQueue, this`eventQueueDraining, this`handling, this`started, this`taken, this`droppedEvents
      ensures Valid()
      ensures var room := old(hasHandler && active && |eventQueue| < eventQueueLimit);
              && taken == (if room then old(taken) + [event] else old(taken))
              && droppedEvents == if old(hasHandler && active) && !room then old(droppedEvents) + 1 else old(droppedEvents)
      ensures old(handling).Some? ==> handling == old(handling) && started == old(started)
      ensures old(handling).None? && taken != old(taken) ==> handling == Some(event)
    {
      if !hasHandler || !active {
        return;
      }
      if |eventQueue| >= eventQueueLimit {
        droppedEvents := droppedEvents + 1;
        return;
      }
      eventQueue := eventQueue + [event];
      taken := taken + [event];
      if !eventQueueDraining {
        eventQueueDraining := true;
        Drain();
      }
    }

    /** The handler call returns or fails. */
    method HandlerDone()
      requires Valid() && handling.Some?
      modifies this`eventQueue, this`eventQueueDraining, this`handling, this`started
      ensures Valid() && taken == old(taken)
      ensures if old(eventQueue) == [] then handling.None? && started == old(started)
              else handling == Some(old(eventQueue)[0]) && started == old(started) + [old(eventQueue)[0]]
    {
      handling := None;
      Drain();
    }
  }
}
