/** Shared subscriptions over whole runs: which QoS is held, what is sent for it, and queries among other turns. */
module SubscriptionRuns {
  import opened Wrappers
  import opened Topics
  import R = Reconnect
  import opened Subscriptions

  // ----------------------------------------------------------------- the held QoS

  /** Releasing an owner that is not the last leaves the held QoS alone; if it was the largest, it still is exactly
  when another owner asked for it. */
  lemma ReleaseKeepsLargest(settings: Settings, s: System, topic: string, owner: string)
    requires settings.Valid() && Inv(s) && owner in OwnersOf(s, topic) && |OwnersOf(s, topic)| > 1
    requires IsLargest(s.held[topic], OwnersOf(s, topic))
    ensures var s' := Next(settings, s, Release(topic, owner));
      && topic in s'.held && s'.held[topic] == s.held[topic]
      && OwnersOf(s', topic) == OwnersOf(s, topic) - {owner}
      && (IsLargest(s'.held[topic], OwnersOf(s', topic)) <==>
            exists o :: o in OwnersOf(s, topic) && o != owner && OwnersOf(s, topic)[o] == s.held[topic])
  {
    hide R.Inv;
    var owners, rest := OwnersOf(s, topic), OwnersOf(s, topic) - {owner};
    if o :| o in owners && o != owner && owners[o] == s.held[topic] {
      assert o in rest;
    }
  }

  /** The largest QoS among the owners right after the last granted acquire of a topic. */
  ghost function LastLargest(settings: Settings, actions: seq<Action>, topic: string): Option<R.Qos>
    requires settings.Valid()
    decreases |actions|
  {
    if actions == [] then None
    else
      var s, a := After(settings, Past(actions)), actions[|actions| - 1];
      if a.Acquire? && a.topic == topic && Acquires(settings, s, a) then Some(Effective(s, topic, a.owner, a.qos))
      else LastLargest(settings, Past(actions), topic)
  }

  /** A held topic is held at the QoS that was the largest at its last granted acquire ... */
  lemma {:induction false} HeldIsLastLargest(settings: Settings, actions: seq<Action>, topic: string)
    requires settings.Valid() && IsRun(settings, actions) && topic in After(settings, actions).held
    ensures LastLargest(settings, actions, topic) == Some(After(settings, actions).held[topic])
    decreases |actions|
  {
    hide R.Next, R.Subscribes, Sends, Effective, Authorize, R.Enabled, With;
    var s, a := After(settings, Past(actions)), actions[|actions| - 1];
    if !(a.Acquire? && a.topic == topic && Acquires(settings, s, a)) {
      HeldIsLastLargest(settings, Past(actions), topic);
    }
  }

  /** ... and that is the largest QoS of its present owners exactly when one of them claims it. */
  lemma {:induction false} HeldIsLargestExactly(settings: Settings, actions: seq<Action>, topic: string)
    requires settings.Valid() && IsRun(settings, actions) && topic in After(settings, actions).held
    ensures var s := After(settings, actions);
      IsLargest(s.held[topic], OwnersOf(s, topic)) <==>
        exists owner :: Claim(settings, actions, topic, owner) == LastLargest(settings, actions, topic)
  {
    hide R.Inv, Claim, After, IsRun, LastLargest;
    RunsKeepInv(settings, actions);
    HeldIsLastLargest(settings, actions, topic);
    var s := After(settings, actions);
    forall owner
      ensures owner in OwnersOf(s, topic) <==> Claim(settings, actions, topic, owner).Some?
      ensures owner in OwnersOf(s, topic) ==> Claim(settings, actions, topic, owner) == Some(OwnersOf(s, topic)[owner])
    {
      OwnersAreClaims(settings, actions, topic, owner);
    }
    if IsLargest(s.held[topic], OwnersOf(s, topic)) {
      var o :| o in OwnersOf(s, topic) && OwnersOf(s, topic)[o] == s.held[topic];
      assert Claim(settings, actions, topic, o) == LastLargest(settings, actions, topic);
    }
    if owner :| Claim(settings, actions, topic, owner) == LastLargest(settings, actions, topic) {
      assert owner in OwnersOf(s, topic) && OwnersOf(s, topic)[owner] == s.held[topic];
    }
  }

  lemma Extend(settings: Settings, actions: seq<Action>, a: Action) returns (more: seq<Action>)
    requires settings.Valid() && IsRun(settings, actions) && Enabled(After(settings, actions), a)
    ensures IsRun(settings, more) && After(settings, more) == Next(settings, After(settings, actions), a)
  {
    more := actions + [a];
    assert Past(more) == actions;
  }

  lemma EmptyRun(settings: Settings) returns (actions: seq<Action>)
    requires settings.Valid()
    ensures IsRun(settings, actions) && After(settings, actions) == START
  {
    actions := [];
  }

  lemma OneOwner(owner: string, qos: R.Qos)
    ensures With(map[], owner, qos) == map[owner := qos] && Largest(With(map[], owner, qos)) == qos
  {
  }

  lemma TwoOwners(high: string, low: string, q: R.Qos, p: R.Qos)
    requires high != low && p < q
    ensures var both := With(map[high := q], low, p);
      Largest(both) == q && |both| == 2 && both - {high} == map[low := p]
  {
    var both := With(map[high := q], low, p);
    assert both.Keys == {high, low};
    assert both[high] == q && both[low] == p;
  }

  lemma FirstOwner(settings: Settings, topic: string, owner: string, q: R.Qos) returns (actions: seq<Action>)
    requires settings.Valid() && Authorize(topic, settings, true) == Granted
    ensures IsRun(settings, actions)
    ensures var s := After(settings, actions);
      s.owners == map[topic := map[owner := q]] && s.held == map[topic := q] && R.IsConnected(s.world)
  {
    hide IsRun, After, Authorize, Largest, With;
    actions := EmptyRun(settings);
    actions := Extend(settings, actions, Network(R.Accept));
    actions := Extend(settings, actions, Network(R.RunCallback));
    assert After(settings, actions).world == R.World(true, map[], [], true, map[]);
    OneOwner(owner, q);
    actions := Extend(settings, actions, Acquire(topic, q, owner, false, true));
  }

  /** The held QoS can exceed every present owner's: two owners acquire, and the one with the higher QoS releases. */
  lemma HeldAboveOwners(settings: Settings, topic: string, high: string, low: string, q: R.Qos, p: R.Qos) returns (actions: seq<Action>)
    requires settings.Valid() && Authorize(topic, settings, true) == Granted && high != low && p < q
    ensures IsRun(settings, actions)
    ensures var s := After(settings, actions);
      && OwnersOf(s, topic) == map[low := p] && topic in s.held && s.held[topic] == q
      && !IsLargest(s.held[topic], OwnersOf(s, topic))
  {
    hide IsRun, After, Authorize, Largest, With;
    actions := FirstOwner(settings, topic, high, q);
    TwoOwners(high, low, q, p);
    actions := Extend(settings, actions, Acquire(topic, p, low, false, true));
    actions := Extend(settings, actions, Release(topic, high));
  }

  // --------------------------------------------------------------------- traffic

  datatype Request = Sub(topic: string, qos: R.Qos) | Unsub(topic: string)

  /** What a step of the client carries out: an accepted SUBSCRIBE, or a release. */
  function Carried(w: R.World, step: R.Step): seq<Request> {
    match step
    case Subscribe(topic, qos, reply) => if R.Subscribes(w, reply) then [Sub(topic, qos)] else []
    case Unsubscribe(topic) => [Unsub(topic)]
    case _ => []
  }

  function Traffic(steps: seq<R.Step>): seq<Request>
    decreases |steps|
  {
    if steps == [] then []
    else Traffic(R.Past(steps)) + Carried(R.After(R.Past(steps)), steps[|steps| - 1])
  }

  /** How one action changed the held map, or that it refreshed an entry. */
  ghost function Change(s: System, a: Action, s': System, refreshed: bool): seq<Request> {
    if a.Acquire? && a.topic in s'.held && (s'.held != s.held || refreshed) then [Sub(a.topic, s'.held[a.topic])]
    else if a.Release? && s'.held != s.held then [Unsub(a.topic)]
    else []
  }

  ghost function Changes(settings: Settings, actions: seq<Action>): seq<Request>
    requires settings.Valid()
    decreases |actions|
  {
    if actions == [] then []
    else
      var s, a := After(settings, Past(actions)), actions[|actions| - 1];
      Changes(settings, Past(actions))
      + Change(s, a, Next(settings, s, a), a.Acquire? && a.refresh && Acquires(settings, s, a))
  }

  lemma AcquireCarries(settings: Settings, s: System, a: Action)
    requires settings.Valid() && a.Acquire?
    ensures var step := ClientStep(settings, s, a);
      Change(s, a, Next(settings, s, a), a.refresh && Acquires(settings, s, a))
        == if step.None? then [] else Carried(s.world, step.value)
  {
    hide Authorize, Effective, With, R.Next;
    if Authorize(a.topic, settings, true) == Granted {
      SendsForChanges(settings, s, a);
      assert a.topic in s.held[a.topic := Effective(s, a.topic, a.owner, a.qos)];
    }
  }

  lemma OtherCarries(settings: Settings, s: System, a: Action)
    requires settings.Valid() && Inv(s) && Enabled(s, a) && !a.Acquire?
    ensures var step := ClientStep(settings, s, a);
      Change(s, a, Next(settings, s, a), false) == if step.None? then [] else Carried(s.world, step.value)
  {
    hide R.Inv, R.Next, R.Enabled;
    if a.Release? && a.owner in OwnersOf(s, a.topic) {
      OthersRemain(OwnersOf(s, a.topic), a.owner);
      assert a.topic in s.held && a.topic !in s.held - {a.topic};
    }
  }

  /** What went over the client is exactly how the held map changed, in order, plus the refreshes asked for: no
  owner's turn ever sends anything else. */
  lemma {:induction false} TrafficIsChanges(settings: Settings, actions: seq<Action>)
    requires settings.Valid() && IsRun(settings, actions)
    ensures Traffic(ClientSteps(settings, actions)) == Changes(settings, actions)
    decreases |actions|
  {
    hide R.Next, R.After, R.IsRun, After, ClientStep, Acquires, Next, Inv, Change, Carried, Enabled;
    if actions != [] {
      var s, a := After(settings, Past(actions)), actions[|actions| - 1];
      TrafficIsChanges(settings, Past(actions));
      RunsAreClientRuns(settings, Past(actions));
      RunsKeepInv(settings, Past(actions));
      if a.Acquire? { AcquireCarries(settings, s, a); } else { OtherCarries(settings, s, a); }
      var before, step := ClientSteps(settings, Past(actions)), ClientStep(settings, s, a);
      if step.Some? {
        assert R.Past(before + [step.value]) == before;
      } else {
        assert before + [] == before;
      }
    }
  }

  /** The map that requests build up from nothing. */
  function Built(requests: seq<Request>): map<string, R.Qos> {
    if requests == [] then map[]
    else
      var past := Built(requests[..|requests| - 1]);
      match requests[|requests| - 1]
      case Sub(topic, qos) => past[topic := qos]
      case Unsub(topic) => past - {topic}
  }

  lemma {:induction false} BuiltOneMore(requests: seq<Request>, more: seq<Request>)
    requires |more| <= 1
    ensures Built(requests + more) ==
      if more == [] then Built(requests)
      else match more[0] case Sub(topic, qos) => Built(requests)[topic := qos] case Unsub(topic) => Built(requests) - {topic}
  {
    if more == [] {
      assert requests + more == requests;
    } else {
      assert (requests + more)[..|requests + more| - 1] == requests;
    }
  }

  /** The requests alone tell which topics are held, and at which QoS. */
  lemma {:induction false} TrafficBuildsHeld(settings: Settings, actions: seq<Action>)
    requires settings.Valid() && IsRun(settings, actions)
    ensures Built(Traffic(ClientSteps(settings, actions))) == After(settings, actions).held
    decreases |actions|
  {
    hide Next, Inv, Acquires, Built, Enabled, ClientSteps, Traffic;
    TrafficIsChanges(settings, actions);
    if actions == [] {
      NothingBuilt();
    } else {
      var s, a := After(settings, Past(actions)), actions[|actions| - 1];
      TrafficBuildsHeld(settings, Past(actions));
      TrafficIsChanges(settings, Past(actions));
      RunsKeepInv(settings, Past(actions));
      var change := Change(s, a, Next(settings, s, a), a.Acquire? && a.refresh && Acquires(settings, s, a));
      BuiltOneMore(Changes(settings, Past(actions)), change);
      ChangeBuilds(settings, s, a);
    }
  }

  lemma NothingBuilt()
    ensures Built([]) == map[]
  {
  }

  lemma ChangeBuilds(settings: Settings, s: System, a: Action)
    requires settings.Valid() && Inv(s)
    ensures var s' := Next(settings, s, a);
      var change := Change(s, a, s', a.Acquire? && a.refresh && Acquires(settings, s, a));
      s'.held == if change == [] then s.held
                 else match change[0] case Sub(topic, qos) => s.held[topic := qos] case Unsub(topic) => s.held - {topic}
  {
    hide R.Inv, R.Next, Authorize, Effective, With, R.Subscribes;
    if a.Acquire? {
      if Acquires(settings, s, a) {
        assert a.topic in s.held[a.topic := Effective(s, a.topic, a.owner, a.qos)];
      }
    }
  }
}
