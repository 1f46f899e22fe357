/** Subscriptions across reconnects: what the broker holds while loop callbacks lag behind the network. */
module Reconnect {
  import opened Wrappers

  type Qos = int

  /** Callbacks waiting on the event loop: `_connection_changed` and `_connected.clear`. */
  datatype Callback = Changed(connected: bool) | Cleared

  /** `paho` is the library's own flag, `connected` the event the gateway keeps, `desired` its `_subscriptions`.
  The broker's session lives as long as the connection (section 3.1.2.11.2 of MQTT 5.0, no expiry set). */
  datatype World = World(
    paho: bool,
    broker: map<string, Qos>,
    queue: seq<Callback>,
    connected: bool,
    desired: map<string, Qos>)

  const START := World(false, map[], [], false, map[])

  /** `reply` is what the library answers to a SUBSCRIBE it is handed while connected. */
  datatype Step =
    | Accept                                            // a connection is accepted
    | Refuse                                            // a connection attempt is refused
    | Drop                                              // the connection, or an attempt at one, is lost
    | RunCallback
    | Subscribe(topic: string, qos: Qos, reply: bool)
    | Unsubscribe(topic: string)

  predicate IsConnected(w: World) {
    w.paho && w.connected
  }

  predicate Enabled(w: World, s: Step) {
    match s
    case Accept => !w.paho
    case Refuse => !w.paho
    case RunCallback => w.queue != []
    case _ => true
  }

  function Run(w: World, callback: Callback): World {
    match callback
    case Changed(true) => w.(connected := true, broker := if w.paho then w.broker + w.desired else w.broker)
    case _ => w.(connected := false)
  }

  /** `subscribe` raises unless connected and accepted. */
  predicate Subscribes(w: World, reply: bool) {
    IsConnected(w) && reply
  }

  function Next(w: World, s: Step): World {
    match s
    case Accept => w.(paho := true, broker := map[], queue := w.queue + [Changed(true)])
    case Refuse => w.(queue := w.queue + [Changed(false)])
    case Drop => w.(paho := false, broker := map[], queue := w.queue + [Cleared])
    case RunCallback => if w.queue == [] then w else Run(w.(queue := w.queue[1..]), w.queue[0])
    case Subscribe(topic, qos, reply) =>
      if !Subscribes(w, reply) then w
      else w.(broker := w.broker[topic := qos], desired := w.desired[topic := qos])
    case Unsubscribe(topic) =>
      w.(desired := w.desired - {topic}, broker := if IsConnected(w) then w.broker - {topic} else w.broker)
  }

  /** A run is its steps, the latest last. */
  predicate IsRun(steps: seq<Step>)
    decreases |steps|
  {
    steps == [] || (IsRun(Past(steps)) && Enabled(After(Past(steps)), steps[|steps| - 1]))
  }

  function Past(steps: seq<Step>): seq<Step>
    requires steps != []
  {
    steps[..|steps| - 1]
  }

  function After(steps: seq<Step>): World
    decreases |steps|
  {
    if steps == [] then START else Next(After(Past(steps)), steps[|steps| - 1])
  }

  // -------------------------------------------------------------------- coverage

  /** What the event will say once the waiting callbacks have run. */
  function Eventually(w: World): bool {
    if w.queue == [] then w.connected else w.queue[|w.queue| - 1] == Changed(true)
  }

  predicate Covers(broker: map<string, Qos>, desired: map<string, Qos>) {
    forall t :: t in desired ==> t in broker && broker[t] == desired[t]
  }

  predicate Settled(w: World) {
    w.paho && w.queue == []
  }

  ghost predicate Inv(w: World) {
    && Eventually(w) == w.paho
    && (!w.paho ==> w.broker == map[])
    && (Settled(w) ==> Covers(w.broker, w.desired))
  }

  lemma {:induction false} StepKeepsInv(w: World, s: Step)
    requires Inv(w) && Enabled(w, s)
    ensures Inv(Next(w, s))
  {
    match s
    case RunCallback =>
      if |w.queue| > 1 {
        assert w.queue[1..][|w.queue| - 2] == w.queue[|w.queue| - 1];
      }
    case _ =>
  }

  lemma {:induction false} RunsKeepInv(steps: seq<Step>)
    requires IsRun(steps)
    ensures Inv(After(steps))
    decreases |steps|
  {
    if steps != [] {
      RunsKeepInv(Past(steps));
      StepKeepsInv(After(Past(steps)), steps[|steps| - 1]);
    }
  }

  /** Connected with no callback waiting, the broker holds every desired subscription at its desired QoS, and
  the gateway knows that it is connected. */
  lemma DesiredIsHeld(steps: seq<Step>)
    requires IsRun(steps) && Settled(After(steps))
    ensures After(steps).connected && Covers(After(steps).broker, After(steps).desired)
  {
    RunsKeepInv(steps);
  }

  // ---------------------------------------------------------------------- extras

  /** The one way to leave a subscription behind: the library is connected, the broker holds it, and the event
  has not caught up, so `unsubscribe` sends nothing. */
  predicate Leaks(w: World, topic: string) {
    w.paho && !w.connected && topic in w.broker
  }

  /** Topics left behind on the present connection, and neither desired nor unsubscribed again since. */
  function Leaked(steps: seq<Step>): set<string>
    decreases |steps|
  {
    if steps == [] then {}
    else
      var w, left := After(Past(steps)), Leaked(Past(steps));
      match steps[|steps| - 1]
      case Accept => {}
      case Drop => {}
      case Refuse => left
      case RunCallback =>
        if w.queue != [] && w.queue[0] == Changed(true) && w.paho then left - w.desired.Keys else left
      case Subscribe(topic, qos, reply) => if Subscribes(w, reply) then left - {topic} else left
      case Unsubscribe(topic) =>
        if IsConnected(w) then left - {topic} else if Leaks(w, topic) then left + {topic} else left
  }

  predicate NothingStale(w: World) {
    forall t :: t in w.broker && t in w.desired ==> w.broker[t] == w.desired[t]
  }

  /** What the broker holds beyond the desired subscriptions is exactly what was left behind. */
  lemma {:induction false} ExtrasAreLeaked(steps: seq<Step>)
    requires IsRun(steps)
    ensures After(steps).broker.Keys - After(steps).desired.Keys == Leaked(steps)
    ensures NothingStale(After(steps))
    decreases |steps|
  {
    if steps != [] {
      ExtrasAreLeaked(Past(steps));
      RunsKeepInv(Past(steps));
      var w, w' := After(Past(steps)), After(steps);
      forall t ensures t in w'.broker.Keys - w'.desired.Keys <==> t in Leaked(steps) {
        assert t in w.broker.Keys - w.desired.Keys <==> t in Leaked(Past(steps));
      }
    }
  }

  /** Once settled, the broker's subscriptions are the desired ones exactly when nothing was left behind. */
  lemma SettledIsExact(steps: seq<Step>)
    requires IsRun(steps) && Settled(After(steps))
    ensures After(steps).broker == After(steps).desired <==> Leaked(steps) == {}
  {
    DesiredIsHeld(steps);
    ExtrasAreLeaked(steps);
    var w := After(steps);
    if Leaked(steps) == {} {
      forall t | t in w.broker ensures t in w.desired {
        assert t !in w.broker.Keys - w.desired.Keys;
      }
    }
  }

  predicate IsApplicationStep(s: Step) {
    s.Subscribe? || s.Unsubscribe?
  }

  /** Callbacks are drained before each application step. */
  predicate Drained(steps: seq<Step>)
    decreases |steps|
  {
    steps == [] || (Drained(Past(steps)) && (IsApplicationStep(steps[|steps| - 1]) ==> After(Past(steps)).queue == []))
  }

  /** When callbacks are drained first, nothing is ever left behind ... */
  lemma {:induction false} DrainedLeaksNothing(steps: seq<Step>)
    requires IsRun(steps) && Drained(steps)
    ensures Leaked(steps) == {}
    decreases |steps|
  {
    if steps != [] {
      DrainedLeaksNothing(Past(steps));
      RunsKeepInv(Past(steps));
    }
  }

  /** ... so a settled broker holds exactly the desired map: nothing released while offline comes back. */
  lemma DrainedIsExact(steps: seq<Step>)
    requires IsRun(steps) && Drained(steps) && Settled(After(steps))
    ensures After(steps).broker == After(steps).desired
  {
    DrainedLeaksNothing(steps);
    SettledIsExact(steps);
  }

  lemma OneMore(steps: seq<Step>, s: Step)
    requires IsRun(steps) && Enabled(After(steps), s)
    ensures IsRun(steps + [s]) && After(steps + [s]) == Next(After(steps), s)
  {
    assert Past(steps + [s]) == steps;
  }

  /** With lagging callbacks a released subscription can stay at the broker: it was sent on the new connection
  before the old `clear` ran, and released while the event was down. */
  lemma LaggingRunLeaves(topic: string, qos: Qos) returns (steps: seq<Step>)
    ensures IsRun(steps) && Settled(After(steps)) && topic in After(steps).broker && topic !in After(steps).desired
  {
    hide IsRun, After;
    steps := EmptyRun();
    steps := Extend(steps, Accept);
    steps := Extend(steps, RunCallback);
    steps := Extend(steps, Drop);
    steps := Extend(steps, Accept);
    assert After(steps) == World(true, map[], [Cleared, Changed(true)], true, map[]);
    steps := Extend(steps, Subscribe(topic, qos, true));
    steps := Extend(steps, RunCallback);
    assert After(steps).queue == [Changed(true)];
    steps := Extend(steps, Unsubscribe(topic));
    steps := Extend(steps, RunCallback);
  }

  lemma EmptyRun() returns (steps: seq<Step>)
    ensures IsRun(steps) && After(steps) == START
  {
    steps := [];
  }

  lemma Extend(steps: seq<Step>, s: Step) returns (more: seq<Step>)
    requires IsRun(steps) && Enabled(After(steps), s)
    ensures IsRun(more) && After(more) == Next(After(steps), s)
  {
    more := steps + [s];
    OneMore(steps, s);
  }

  // ------------------------------------------------------------------- the client

  /** The library's connection and the broker's session behind it. */
  class Network {
    var paho: bool
    var broker: map<string, Qos>

    constructor ()
      ensures !paho && broker == map[]
    {
      paho, broker := false, map[];
    }

    /** Hands a SUBSCRIBE to the library; `reply` is its answer while connected. */
    method Subscribe(topic: string, qos: Qos, reply: bool) returns (ok: bool)
      modifies this`broker
      ensures ok == (paho && reply)
      ensures broker == if ok then old(broker)[topic := qos] else old(broker)
    {
      ok := paho && reply;
      if ok {
        broker := broker[topic := qos];
      }
    }

    method Unsubscribe(topic: string)
      modifies this`broker
      ensures broker == if paho then old(broker) - {topic} else old(broker)
    {
      if paho {
        broker := broker - {topic};
      }
    }
  }

  lemma OneResent(broker: map<string, Qos>, desired: map<string, Qos>, rest: set<string>, topic: string)
    requires topic in rest && rest <= desired.Keys
    ensures (broker + (desired - rest))[topic := desired[topic]] == broker + (desired - (rest - {topic}))
    ensures desired - desired.Keys == map[] && desired - {} == desired
  {
  }

  class MQTTClient {
    const network: Network
    var queue: seq<Callback>
    var connected: bool
    var subscriptions: map<string, Qos>

    ghost function State(): World
      reads this, network
    {
      World(network.paho, network.broker, queue, connected, subscriptions)
    }

    constructor ()
      ensures State() == START && fresh(network)
    {
      network := new Network();
      queue, connected, subscriptions := [], false, map[];
    }

    /** The network thread learns that the connection is accepted, and `_on_connect` queues a callback. */
    method Accept()
      requires !network.paho
      modifies this`queue, network
      ensures State() == Next(old(State()), Step.Accept)
      ensures network.paho && network.broker == map[] && queue == old(queue) + [Changed(true)]
    {
      network.paho, network.broker := true, map[];
      queue := queue + [Changed(true)];
    }

    method Refuse()
      requires !network.paho
      modifies this`queue
      ensures State() == Next(old(State()), Step.Refuse)
      ensures queue == old(queue) + [Changed(false)]
    {
      queue := queue + [Changed(false)];
    }

    /** The connection ends, the broker forgets the session, and `_on_disconnect` queues a callback. */
    method Drop()
      modifies this`queue, network
      ensures State() == Next(old(State()), Step.Drop)
      ensures !network.paho && network.broker == map[] && queue == old(queue) + [Cleared]
    {
      network.paho, network.broker := false, map[];
      queue := queue + [Cleared];
    }

    /** `_connection_changed`: once connected, every desired subscription is sent again. */
    method ConnectionChanged(up: bool)
      modifies this`connected, network`broker
      ensures State() == Run(old(State()), Changed(up))
      ensures connected == up
      ensures forall t :: up && network.paho && t in subscriptions ==> t in network.broker && network.broker[t] == subscriptions[t]
      ensures forall t :: !(up && network.paho && t in subscriptions) ==>
        (t in network.broker <==> t in old(network.broker)) && (t in network.broker ==> network.broker[t] == old(network.broker)[t])
    {
      connected := up;
      if up {
        ghost var before := network.broker;
        var rest := subscriptions.Keys;
        assert before + (subscriptions - rest) == before;
        while rest != {}
          invariant connected == up && rest <= subscriptions.Keys
          invariant network.broker == if network.paho then before + (subscriptions - rest) else before
          decreases |rest|
        {
          var topic := AnyOf(rest);
          var sent := network.Subscribe(topic, subscriptions[topic], true);
          OneResent(before, subscriptions, rest, topic);
          rest := rest - {topic};
        }
        assert subscriptions - {} == subscriptions;
        assert network.broker == if network.paho then before + subscriptions else before;
      }
    }

    /** The event loop runs the callback that has waited longest. */
    method RunCallback()
      requires queue != []
      modifies this`queue, this`connected, network`broker
      ensures State() == Next(old(State()), Step.RunCallback)
      ensures queue == old(queue)[1..] && (connected <==> old(queue)[0] == Changed(true))
    {
      var callback := queue[0];
      queue := queue[1..];
      match callback
      case Changed(up) => ConnectionChanged(up);
      case Cleared => connected := false;
    }

    predicate Connected()
      reads this, network
      ensures Connected() <==> IsConnected(State())
    {
      network.paho && connected
    }

    /** `subscribe`; a raised error is `false`. */
    method Subscribe(topic: string, qos: Qos, reply: bool) returns (ok: bool)
      modifies this`subscriptions, network`broker
      ensures State() == Next(old(State()), Step.Subscribe(topic, qos, reply))
      ensures ok <==> Subscribes(old(State()), reply)
      ensures ok <==> network.paho && connected && reply
      ensures subscriptions == if ok then old(subscriptions)[topic := qos] else old(subscriptions)
      ensures network.broker == if ok then old(network.broker)[topic := qos] else old(network.broker)
    {
      if !Connected() {
        return false;
      }
      ok := network.Subscribe(topic, qos, reply);
      if ok {
        subscriptions := subscriptions[topic := qos];
      }
    }

    /** `unsubscribe`: the topic is no longer desired whether or not it can be sent. */
    method Unsubscribe(topic: string)
      modifies this`subscriptions, network`broker
      ensures State() == Next(old(State()), Step.Unsubscribe(topic))
      ensures subscriptions == old(subscriptions) - {topic}
      ensures network.broker == if network.paho && connected then old(network.broker) - {topic} else old(network.broker)
    {
      subscriptions := subscriptions - {topic};
      if !Connected() {
        return;
      }
      network.Unsubscribe(topic);
    }
  }
}
