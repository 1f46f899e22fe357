/** Handing messages from the network thread to the event loop through a bounded buffer. */
module Delivery {

  datatype Message = Message(topic: string, payload: string, qos: int, retain: bool)

  /** `mqtt_queue_size` and `max_message_bytes`; the length of a payload stands for its bytes. */
  datatype Limits = Limits(queue: nat, bytes: nat) {
    predicate Valid() { queue > 0 }
  }

  /** The client's fields, and beside them what happened: `arrived` are the messages within the limit in the
  order the network delivered them, `batches` the arrivals between successive drains, `inflight` what a running
  drain has still to deliver, `scheduled` the drains waiting on the event loop. */
  datatype State = State(
    pending: seq<Message>,
    dispatchPending: bool,
    queue: seq<Message>,
    scheduled: nat,
    inflight: seq<Message>,
    arrived: seq<Message>,
    batches: seq<seq<Message>>,
    delivered: seq<Message>)

  const START := State([], false, [], 0, [], [], [], [])

  datatype Step =
    | Arrive(message: Message)
    | Take
    | Deliver
    | Get

  /** The newest `n` elements: a `deque(maxlen=n)` after appending all of `s`. */
  function Newest(s: seq<Message>, n: nat): seq<Message> {
    if |s| <= n then s else s[|s| - n..]
  }

  predicate Enabled(s: State, step: Step) {
    match step
    case Arrive(_) => true
    case Take => s.scheduled > 0 && s.inflight == []
    case Deliver => s.inflight != []
    case Get => s.queue != []
  }

  function Next(limits: Limits, s: State, step: Step): State
    requires limits.Valid() && Enabled(s, step)
  {
    match step
    case Arrive(message) =>
      if |message.payload| > limits.bytes then s
      else s.(pending := Newest(s.pending + [message], limits.queue),
              dispatchPending := true,
              scheduled := if s.dispatchPending then s.scheduled else s.scheduled + 1,
              arrived := s.arrived + [message])
    case Take =>
      s.(pending := [], dispatchPending := false, scheduled := s.scheduled - 1, inflight := s.pending,
         batches := s.batches + [s.arrived[Drained(s)..]])
    case Deliver =>
      s.(inflight := s.inflight[1..], delivered := s.delivered + [s.inflight[0]],
         queue := Newest(s.queue + [s.inflight[0]], limits.queue))
    case Get => s.(queue := s.queue[1..])
  }

  function Flatten(batches: seq<seq<Message>>): seq<Message> {
    if batches == [] then [] else Flatten(batches[..|batches| - 1]) + batches[|batches| - 1]
  }

  /** What a drain finds of each batch. */
  function Kept(batches: seq<seq<Message>>, n: nat): seq<Message> {
    if batches == [] then [] else Kept(batches[..|batches| - 1], n) + Newest(batches[|batches| - 1], n)
  }

  /** How many arrivals came before the last drain. */
  function Drained(s: State): (n: nat)
    ensures n <= |s.arrived|
  {
    if |Flatten(s.batches)| <= |s.arrived| then |Flatten(s.batches)| else 0
  }

  ghost predicate IsSuffix(s: seq<Message>, of: seq<Message>) {
    |s| <= |of| && s == of[|of| - |s|..]
  }

  ghost predicate Inv(limits: Limits, s: State) {
    && s.scheduled == (if s.dispatchPending then 1 else 0)
    && (s.dispatchPending <==> s.pending != [])
    && Flatten(s.batches) <= s.arrived
    && s.pending == Newest(s.arrived[|Flatten(s.batches)|..], limits.queue)
    && s.delivered + s.inflight == Kept(s.batches, limits.queue)
    && |s.queue| <= limits.queue && IsSuffix(s.queue, s.delivered)
  }

  lemma NewestOfNewest(s: seq<Message>, m: Message, n: nat)
    ensures Newest(Newest(s, n) + [m], n) == Newest(s + [m], n)
  {
  }

  lemma ArriveKeepsInv(limits: Limits, s: State, m: Message)
    requires limits.Valid() && Inv(limits, s)
    ensures Inv(limits, Next(limits, s, Arrive(m)))
  {
    var k := |Flatten(s.batches)|;
    assert (s.arrived + [m])[k..] == s.arrived[k..] + [m];
    NewestOfNewest(s.arrived[k..], m, limits.queue);
  }

  lemma TakeKeepsInv(limits: Limits, s: State)
    requires limits.Valid() && Inv(limits, s) && Enabled(s, Take)
    ensures Inv(limits, Next(limits, s, Take))
  {
    var k := |Flatten(s.batches)|;
    var batches := s.batches + [s.arrived[k..]];
    assert batches[..|batches| - 1] == s.batches;
    assert Flatten(batches) == s.arrived[..k] + s.arrived[k..] == s.arrived;
    assert s.arrived[|s.arrived|..] == [];
    assert s.delivered + [] == s.delivered;
  }

  lemma DeliverKeepsInv(limits: Limits, s: State)
    requires limits.Valid() && Inv(limits, s) && Enabled(s, Deliver)
    ensures Inv(limits, Next(limits, s, Deliver))
  {
    hide Flatten, Kept;
    assert s.delivered + [s.inflight[0]] + s.inflight[1..] == s.delivered + s.inflight;
  }

  lemma {:induction false} StepKeepsInv(limits: Limits, s: State, step: Step)
    requires limits.Valid() && Inv(limits, s) && Enabled(s, step)
    ensures Inv(limits, Next(limits, s, step))
  {
    match step
    case Arrive(m) => ArriveKeepsInv(limits, s, m);
    case Take => TakeKeepsInv(limits, s);
    case Deliver => DeliverKeepsInv(limits, s);
    case Get =>
  }

  // ------------------------------------------------------------------------ runs

  function Past(steps: seq<Step>): seq<Step>
    requires steps != []
  {
    steps[..|steps| - 1]
  }

  predicate IsRun(limits: Limits, steps: seq<Step>)
    requires limits.Valid()
    decreases |steps|, 0
  {
    steps == [] || (IsRun(limits, Past(steps)) && Enabled(After(limits, Past(steps)), steps[|steps| - 1]))
  }

  function After(limits: Limits, steps: seq<Step>): State
    requires limits.Valid() && IsRun(limits, steps)
    decreases |steps|, 1
  {
    if steps == [] then START else Next(limits, After(limits, Past(steps)), steps[|steps| - 1])
  }

  lemma {:induction false} RunsKeepInv(limits: Limits, steps: seq<Step>)
    requires limits.Valid() && IsRun(limits, steps)
    ensures Inv(limits, After(limits, steps))
    decreases |steps|
  {
    hide Inv;
    if steps == [] {
      StartInv(limits);
    } else {
      RunsKeepInv(limits, Past(steps));
      StepKeepsInv(limits, After(limits, Past(steps)), steps[|steps| - 1]);
    }
  }

  lemma StartInv(limits: Limits)
    ensures Inv(limits, START)
  {
  }

  /** One drain at most waits on the event loop, and one does whenever a message is buffered. */
  lemma {:induction false} OneDrainWaits(limits: Limits, steps: seq<Step>)
    requires limits.Valid() && IsRun(limits, steps)
    ensures var s := After(limits, steps);
      s.scheduled <= 1 && (s.scheduled == 1 <==> s.pending != []) && (s.dispatchPending <==> s.scheduled == 1)
  {
    RunsKeepInv(limits, steps);
  }

  /** The arrivals of a run, as its steps name them. */
  function Arrivals(limits: Limits, steps: seq<Step>): seq<Message> {
    if steps == [] then []
    else
      var last := steps[|steps| - 1];
      Arrivals(limits, Past(steps)) + (if last.Arrive? && |last.message.payload| <= limits.bytes then [last.message] else [])
  }

  /** The arrivals since the last drain took over. */
  function SinceTake(limits: Limits, steps: seq<Step>): seq<Message> {
    if steps == [] || steps[|steps| - 1] == Take then []
    else
      var last := steps[|steps| - 1];
      SinceTake(limits, Past(steps)) + (if last.Arrive? && |last.message.payload| <= limits.bytes then [last.message] else [])
  }

  /** The arrivals between successive drains. */
  function Batches(limits: Limits, steps: seq<Step>): seq<seq<Message>> {
    if steps == [] then []
    else Batches(limits, Past(steps)) + (if steps[|steps| - 1] == Take then [SinceTake(limits, Past(steps))] else [])
  }

  lemma {:induction false} HistoryIs(limits: Limits, steps: seq<Step>)
    requires limits.Valid() && IsRun(limits, steps)
    ensures var s := After(limits, steps);
      && s.arrived == Arrivals(limits, steps) == Flatten(s.batches) + SinceTake(limits, steps)
      && s.batches == Batches(limits, steps)
    decreases |steps|
  {
    hide Inv, Flatten;
    if steps == [] {
      EmptyFlat();
    } else {
      var s, last := After(limits, Past(steps)), steps[|steps| - 1];
      HistoryIs(limits, Past(steps));
      RunsKeepInv(limits, Past(steps));
      if last == Take {
        TakeFlattens(limits, s);
        assert s.arrived[Drained(s)..] == SinceTake(limits, Past(steps));
      }
    }
  }

  lemma EmptyFlat()
    ensures Flatten([]) == []
  {
  }

  lemma TakeFlattens(limits: Limits, s: State)
    requires limits.Valid() && Inv(limits, s) && Enabled(s, Take)
    ensures Drained(s) == |Flatten(s.batches)|
    ensures Flatten(Next(limits, s, Take).batches) == s.arrived
  {
    TakeKeepsInv(limits, s);
    var k := |Flatten(s.batches)|;
    var batches := s.batches + [s.arrived[k..]];
    assert batches[..|batches| - 1] == s.batches;
    assert Flatten(batches) == s.arrived[..k] + s.arrived[k..] == s.arrived;
  }

  /** The buffer holds the newest arrivals since the last drain, and the drains deliver, in order, the newest
  arrivals of each interval between them: nothing else is lost and nothing is delivered twice. */
  lemma DeliveryIsExact(limits: Limits, steps: seq<Step>)
    requires limits.Valid() && IsRun(limits, steps)
    ensures var s := After(limits, steps);
      && s.pending == Newest(SinceTake(limits, steps), limits.queue)
      && s.delivered + s.inflight == Kept(Batches(limits, steps), limits.queue)
  {
    hide Flatten, Kept, Newest, IsRun, After;
    RunsKeepInv(limits, steps);
    HistoryIs(limits, steps);
  }

  /** `s` runs through `of` in order, at the given strictly increasing positions. */
  ghost predicate At(s: seq<Message>, of: seq<Message>, positions: seq<nat>) {
    && |positions| == |s|
    && (forall i :: 0 <= i < |s| ==> positions[i] < |of| && of[positions[i]] == s[i])
    && (forall i, j :: 0 <= i < j < |s| ==> positions[i] < positions[j])
  }

  lemma {:induction false} KeptInOrder(batches: seq<seq<Message>>, n: nat) returns (positions: seq<nat>)
    ensures At(Kept(batches, n), Flatten(batches), positions)
  {
    positions := [];
    if batches != [] {
      var past, last := batches[..|batches| - 1], batches[|batches| - 1];
      var before := KeptInOrder(past, n);
      var offset := |Flatten(past)| + |last| - |Newest(last, n)|;
      positions := before + seq(|Newest(last, n)|, i requires 0 <= i => offset + i);
    }
  }

  /** Delivered messages are an order-preserving part of the arrivals ... */
  lemma DeliveredInOrder(limits: Limits, steps: seq<Step>) returns (positions: seq<nat>)
    requires limits.Valid() && IsRun(limits, steps)
    ensures At(After(limits, steps).delivered, Arrivals(limits, steps), positions)
  {
    hide Flatten, Kept, Newest, IsRun, After;
    RunsKeepInv(limits, steps);
    HistoryIs(limits, steps);
    var s := After(limits, steps);
    var all := KeptInOrder(s.batches, limits.queue);
    positions := all[..|s.delivered|];
    assert forall i :: 0 <= i < |s.delivered| ==> Kept(s.batches, limits.queue)[i] == s.delivered[i];
  }

  lemma {:induction false} KeptWhole(batches: seq<seq<Message>>, n: nat)
    ensures |Kept(batches, n)| <= |Flatten(batches)|
    ensures Kept(batches, n) == Flatten(batches) <==> forall i :: 0 <= i < |batches| ==> |batches[i]| <= n
  {
    if batches != [] {
      var past := batches[..|batches| - 1];
      KeptWhole(past, n);
      if forall i :: 0 <= i < |batches| ==> |batches[i]| <= n {
        assert forall i :: 0 <= i < |past| ==> |past[i]| == |batches[i]|;
      }
      if Kept(batches, n) == Flatten(batches) {
        assert |Kept(past, n)| == |Flatten(past)| && |batches[|batches| - 1]| <= n;
        assert Kept(past, n) == Kept(batches, n)[..|Kept(past, n)|] == Flatten(past);
      }
    }
  }

  /** ... and all of them, exactly when no interval between drains brought more than the buffer holds. */
  lemma NothingLost(limits: Limits, steps: seq<Step>)
    requires limits.Valid() && IsRun(limits, steps)
    requires After(limits, steps).pending == [] && After(limits, steps).inflight == []
    ensures After(limits, steps).delivered == Arrivals(limits, steps) <==>
      forall i :: 0 <= i < |Batches(limits, steps)| ==> |Batches(limits, steps)[i]| <= limits.queue
  {
    hide Flatten, Kept, IsRun, After;
    RunsKeepInv(limits, steps);
    HistoryIs(limits, steps);
    KeptWhole(Batches(limits, steps), limits.queue);
    var s := After(limits, steps);
    assert s.delivered + [] == s.delivered;
    assert s.arrived[|Flatten(s.batches)|..] == [];
  }

  /** Where the consumer stands: everything before has been taken or given up. */
  function Head(s: State): int {
    |s.delivered| - |s.queue|
  }

  /** The queue is the end of what was delivered, within its bound; the consumer takes its first element, and
  moves forward only. */
  lemma {:induction false} QueueIsNewest(limits: Limits, steps: seq<Step>, step: Step)
    requires limits.Valid() && IsRun(limits, steps) && Enabled(After(limits, steps), step)
    ensures var s, s' := After(limits, steps), Next(limits, After(limits, steps), step);
      && |s.queue| <= limits.queue && IsSuffix(s.queue, s.delivered)
      && s.delivered <= s'.delivered
      && (step == Get ==> s.queue[0] == s.delivered[Head(s)])
      && Head(s') == if step == Get || (step == Deliver && |s.queue| == limits.queue) then Head(s) + 1 else Head(s)
  {
    hide Flatten, Kept, IsRun, After;
    RunsKeepInv(limits, steps);
  }

  // -------------------------------------------------------------- the client object

  lemma TakeEffect(limits: Limits, s: State)
    requires limits.Valid() && Inv(limits, s) && Enabled(s, Take)
    ensures Partway(limits, s, s.pending, 0, Next(limits, s, Take)) && Next(limits, s, Take).inflight == s.pending
  {
    hide Flatten, Kept;
    assert s.queue + s.pending[..0] == s.queue;
    assert s.delivered + s.pending[..0] == s.delivered;
  }

  /** A drain that started in `start` has delivered the first `n` of `messages`. */
  ghost predicate Partway(limits: Limits, start: State, messages: seq<Message>, n: nat, s: State) {
    && n <= |messages|
    && s.inflight == messages[n..] && s.pending == [] && s.scheduled == 0
    && s.delivered == start.delivered + messages[..n] && s.arrived == start.arrived
    && s.queue == Newest(start.queue + messages[..n], limits.queue)
  }

  lemma PartwayMoves(limits: Limits, start: State, messages: seq<Message>, n: nat, s: State)
    requires limits.Valid() && n < |messages| && Partway(limits, start, messages, n, s)
    ensures s.inflight != [] && s.inflight[0] == messages[n]
    ensures Partway(limits, start, messages, n + 1, Next(limits, s, Deliver))
  {
    assert messages[..n + 1] == messages[..n] + [messages[n]];
    NewestOfNewest(start.queue + messages[..n], messages[n], limits.queue);
    assert start.queue + messages[..n] + [messages[n]] == start.queue + messages[..n + 1];
    assert start.delivered + messages[..n] + [messages[n]] == start.delivered + messages[..n + 1];
  }

  /** The receiving half of the client. */
  class MQTTClient {
    const limits: Limits
    var pendingMessages: seq<Message>
    var dispatchPending: bool
    var messageQueue: seq<Message>
    var scheduled: nat
    ghost var inflight: seq<Message>
    ghost var arrived: seq<Message>
    ghost var batches: seq<seq<Message>>
    ghost var delivered: seq<Message>

    ghost function Current(): State
      reads this
    {
      State(pendingMessages, dispatchPending, messageQueue, scheduled, inflight, arrived, batches, delivered)
    }

    ghost predicate Valid()
      reads this
    {
      limits.Valid() && Inv(limits, Current())
    }

    constructor (limits: Limits)
      requires limits.Valid()
      ensures Valid() && this.limits == limits && Current() == START
    {
      this.limits := limits;
      pendingMessages, dispatchPending, messageQueue, scheduled := [], false, [], 0;
      inflight, arrived, batches, delivered := [], [], [], [];
    }

    /** `_on_message`, on the network thread. */
    method OnMessage(message: Message)
      requires Valid()
      modifies this
      ensures Valid() && Current() == Next(limits, old(Current()), Arrive(message))
      ensures |message.payload| > limits.bytes ==> pendingMessages == old(pendingMessages) && scheduled == old(scheduled)
      ensures |message.payload| <= limits.bytes && |old(pendingMessages)| < limits.queue ==>
        pendingMessages == old(pendingMessages) + [message]
      ensures |message.payload| <= limits.bytes && |old(pendingMessages)| == limits.queue ==>
        pendingMessages == old(pendingMessages)[1..] + [message]
      ensures |message.payload| <= limits.bytes ==> scheduled == 1
    {
      hide Flatten, Kept, Inv;
      StepKeepsInv(limits, Current(), Arrive(message));
      if |message.payload| > limits.bytes {
        return;
      }
      pendingMessages := pendingMessages + [message];
      if |pendingMessages| > limits.queue {
        pendingMessages := pendingMessages[|pendingMessages| - limits.queue..];
      }
      if !dispatchPending {
        dispatchPending := true;
        scheduled := scheduled + 1;
      }
      arrived := arrived + [message];
    }

    /** The part of `_drain_messages` under the lock. */
    method TakePending() returns (messages: seq<Message>)
      requires Valid() && scheduled > 0 && inflight == []
      modifies this
      ensures Valid() && Current() == Next(limits, old(Current()), Take) && messages == inflight
      ensures messages == old(pendingMessages) && pendingMessages == [] && scheduled == 0 && messageQueue == old(messageQueue)
    {
      hide Flatten, Kept, Inv;
      StepKeepsInv(limits, Current(), Take);
      batches := batches + [arrived[Drained(Current())..]];
      scheduled := scheduled - 1;
      messages := pendingMessages;
      inflight := messages;
      pendingMessages, dispatchPending := [], false;
    }

    /** `_deliver_message`: a full queue gives up its oldest message. */
    method DeliverMessage(message: Message)
      requires Valid() && inflight != [] && inflight[0] == message
      modifies this
      ensures Valid() && Current() == Next(limits, old(Current()), Deliver)
      ensures messageQueue == (if |old(messageQueue)| == limits.queue then old(messageQueue)[1..] else old(messageQueue)) + [message]
    {
      hide Flatten, Kept;
      StepKeepsInv(limits, Current(), Deliver);
      if |messageQueue| >= limits.queue {
        messageQueue := messageQueue[1..];
      }
      messageQueue := messageQueue + [message];
      inflight, delivered := inflight[1..], delivered + [message];
    }

    /** `_drain_messages` while no message arrives: all that was buffered is delivered in order. */
    method DrainMessages()
      requires Valid() && scheduled > 0 && inflight == []
      modifies this
      ensures Valid() && inflight == [] && pendingMessages == [] && scheduled == 0
      ensures delivered == old(delivered) + old(pendingMessages) && arrived == old(arrived)
      ensures messageQueue == Newest(old(messageQueue) + old(pendingMessages), limits.queue)
    {
      hide Inv, Next, Newest;
      ghost var start := Current();
      TakeEffect(limits, start);
      var messages := TakePending();
      for i := 0 to |messages|
        invariant Valid() && Partway(limits, start, messages, i, Current())
      {
        PartwayMoves(limits, start, messages, i, Current());
        DeliverMessage(messages[i]);
      }
      assert messages[..|messages|] == messages;
    }

    /** `get_message`, once there is one. */
    method GetMessage() returns (message: Message)
      requires Valid() && messageQueue != []
      modifies this
      ensures Valid() && Current() == Next(limits, old(Current()), Get)
      ensures message == old(delivered)[|old(delivered)| - |old(messageQueue)|]
      ensures message == old(messageQueue)[0] && messageQueue == old(messageQueue)[1..]
    {
      hide Flatten, Kept;
      StepKeepsInv(limits, Current(), Get);
      message := messageQueue[0];
      messageQueue := messageQueue[1..];
    }
  }
}
