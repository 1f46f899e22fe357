/** Shared subscriptions: several owners hold one topic, the client holds it once at a QoS that serves them all. */
module Subscriptions {
  import opened Wrappers
  import opened Topics
  import R = Reconnect
  import D = Delivery

  type Owners = map<string, R.Qos>

  /** The service's `_owners` and `_subscriptions` beside the client and the network. */
  datatype System = System(world: R.World, owners: map<string, Owners>, held: map<string, R.Qos>)

  const START := System(R.START, map[], map[])

  /** One turn under the subscription lock, or something the network or the event loop does. */
  datatype Action =
    | Network(step: R.Step)
    | Acquire(topic: string, qos: R.Qos, owner: string, refresh: bool, reply: bool)
    | Release(topic: string, owner: string)

  // ----------------------------------------------------------------- the service

  ghost predicate IsLargest(q: R.Qos, owners: Owners) {
    (exists o :: o in owners && owners[o] == q) && forall o :: o in owners ==> owners[o] <= q
  }

  lemma LargestExists(owners: Owners)
    requires owners != map[]
    ensures exists q :: IsLargest(q, owners)
    decreases |owners|
  {
    assert owners.Keys != {};
    NonEmpty(owners.Keys);
    var o :| o in owners.Keys;
    var rest := owners - {o};
    assert forall k :: k in owners ==> k == o || k in rest;
    if rest == map[] {
      assert IsLargest(owners[o], owners);
    } else {
      assert rest.Keys == owners.Keys - {o};
      LargestExists(rest);
      var q :| IsLargest(q, rest);
      assert IsLargest(if q < owners[o] then owners[o] else q, owners);
    }
  }

  /** `max(owners.values())`. */
  ghost function Largest(owners: Owners): (q: R.Qos)
    requires owners != map[]
    ensures IsLargest(q, owners)
  {
    LargestExists(owners);
    var q :| IsLargest(q, owners);
    q
  }

  function OwnersOf(s: System, topic: string): Owners {
    if topic in s.owners then s.owners[topic] else map[]
  }

  function With(owners: Owners, owner: string, qos: R.Qos): (r: Owners)
    ensures r != map[] && r.Keys == owners.Keys + {owner}
  {
    assert owner in owners[owner := qos];
    owners[owner := qos]
  }

  ghost function Effective(s: System, topic: string, owner: string, qos: R.Qos): R.Qos {
    Largest(With(OwnersOf(s, topic), owner, qos))
  }

  /** Whether `acquire_subscription` has to send a SUBSCRIBE. */
  ghost predicate Sends(s: System, topic: string, qos: R.Qos, owner: string, refresh: bool) {
    refresh || topic !in s.held || Effective(s, topic, owner, qos) != s.held[topic]
  }

  /** What the client is asked to do. */
  ghost function ClientStep(settings: Settings, s: System, a: Action): Option<R.Step>
    requires settings.Valid()
  {
    match a
    case Network(step) => Some(step)
    case Acquire(topic, qos, owner, refresh, reply) =>
      if Authorize(topic, settings, true) == Granted && Sends(s, topic, qos, owner, refresh)
      then Some(R.Subscribe(topic, Effective(s, topic, owner, qos), reply)) else None
    case Release(topic, owner) =>
      if owner in OwnersOf(s, topic) && |OwnersOf(s, topic)| == 1 then Some(R.Unsubscribe(topic)) else None
  }

  /** `acquire_subscription` returns without an error. */
  ghost predicate Acquires(settings: Settings, s: System, a: Action)
    requires settings.Valid()
  {
    a.Acquire? && Authorize(a.topic, settings, true) == Granted
    && (Sends(s, a.topic, a.qos, a.owner, a.refresh) ==> R.Subscribes(s.world, a.reply))
  }

  ghost function Next(settings: Settings, s: System, a: Action): System
    requires settings.Valid()
  {
    var step := ClientStep(settings, s, a);
    var world := if step.Some? then R.Next(s.world, step.value) else s.world;
    match a
    case Network(_) => s.(world := world)
    case Acquire(topic, qos, owner, _, _) =>
      if Acquires(settings, s, a) then
        System(world, s.owners[topic := With(OwnersOf(s, topic), owner, qos)], s.held[topic := Effective(s, topic, owner, qos)])
      else s.(world := world)
    case Release(topic, owner) =>
      if owner !in OwnersOf(s, topic) then s
      else if |OwnersOf(s, topic)| > 1 then s.(owners := s.owners[topic := OwnersOf(s, topic) - {owner}])
      else System(world, s.owners - {topic}, s.held - {topic})
  }

  ghost predicate Enabled(s: System, a: Action) {
    a.Network? ==> !R.IsApplicationStep(a.step) && R.Enabled(s.world, a.step)
  }

  function Past(actions: seq<Action>): seq<Action>
    requires actions != []
  {
    actions[..|actions| - 1]
  }

  ghost function After(settings: Settings, actions: seq<Action>): System
    requires settings.Valid()
    decreases |actions|
  {
    if actions == [] then START else Next(settings, After(settings, Past(actions)), actions[|actions| - 1])
  }

  ghost predicate IsRun(settings: Settings, actions: seq<Action>)
    requires settings.Valid()
    decreases |actions|
  {
    actions == [] || (IsRun(settings, Past(actions)) && Enabled(After(settings, Past(actions)), actions[|actions| - 1]))
  }

  // ------------------------------------------------------------------ invariants

  ghost predicate Inv(s: System) {
    && R.Inv(s.world)
    && s.held == s.world.desired
    && s.held.Keys == s.owners.Keys
    && (forall t :: t in s.owners ==> s.owners[t] != map[])
    && (forall t, o :: t in s.owners && o in s.owners[t] ==> s.owners[t][o] <= s.held[t])
  }

  lemma RefusedSubscribe(w: R.World, topic: string, qos: R.Qos, reply: bool)
    requires !R.Subscribes(w, reply)
    ensures R.Next(w, R.Subscribe(topic, qos, reply)) == w
  {
  }

  lemma AcquireKeepsInv(settings: Settings, s: System, a: Action)
    requires settings.Valid() && Inv(s) && a.Acquire?
    ensures Inv(Next(settings, s, a))
  {
    hide R.Inv, IsLargest;
    var step := ClientStep(settings, s, a);
    if step.Some? {
      R.StepKeepsInv(s.world, step.value);
    }
    if Acquires(settings, s, a) {
      var owners := With(OwnersOf(s, a.topic), a.owner, a.qos);
      LargestBounds(owners);
    }
  }

  lemma LargestBounds(owners: Owners)
    requires owners != map[]
    ensures forall o :: o in owners ==> owners[o] <= Largest(owners)
  {
  }

  lemma OthersRemain(owners: Owners, owner: string)
    requires owner in owners
    ensures |owners| > 1 ==> owners - {owner} != map[]
    ensures |owners| >= 1
  {
    assert |owners.Keys - {owner}| == |owners.Keys| - 1;
    if |owners| > 1 { assert (owners - {owner}).Keys != {}; }
  }

  lemma ReleaseKeepsInv(settings: Settings, s: System, a: Action)
    requires settings.Valid() && Inv(s) && a.Release?
    ensures Inv(Next(settings, s, a))
  {
    hide R.Inv;
    var owners := OwnersOf(s, a.topic);
    if a.owner in owners {
      R.StepKeepsInv(s.world, R.Unsubscribe(a.topic));
      OthersRemain(owners, a.owner);
    }
  }

  lemma {:induction false} RunsKeepInv(settings: Settings, actions: seq<Action>)
    requires settings.Valid() && IsRun(settings, actions)
    ensures Inv(After(settings, actions))
    decreases |actions|
  {
    hide Inv, ClientStep;
    if actions == [] {
      StartInv();
    } else {
      var s, a := After(settings, Past(actions)), actions[|actions| - 1];
      RunsKeepInv(settings, Past(actions));
      match a
      case Network(step) => NetworkKeepsInv(settings, s, step);
      case Acquire(_, _, _, _, _) => AcquireKeepsInv(settings, s, a);
      case Release(_, _) => ReleaseKeepsInv(settings, s, a);
    }
  }

  lemma StartInv()
    ensures Inv(START)
  {
  }

  lemma NetworkKeepsInv(settings: Settings, s: System, step: R.Step)
    requires settings.Valid() && Inv(s) && Enabled(s, Network(step))
    ensures Inv(Next(settings, s, Network(step)))
  {
    R.StepKeepsInv(s.world, step);
  }

  // ---------------------------------------------------------------------- claims

  /** What `owner` last asked for and was granted on `topic`, unless it has released it since: only the
  owner's own actions count. */
  ghost function Claim(settings: Settings, actions: seq<Action>, topic: string, owner: string): Option<R.Qos>
    requires settings.Valid()
    decreases |actions|
  {
    if actions == [] then None
    else
      var s, a := After(settings, Past(actions)), actions[|actions| - 1];
      if a.Acquire? && a.topic == topic && a.owner == owner && Acquires(settings, s, a) then Some(a.qos)
      else if a.Release? && a.topic == topic && a.owner == owner then None
      else Claim(settings, Past(actions), topic, owner)
  }

  /** The owner table records every owner's claim and nothing else: no action of another owner touches it. */
  lemma {:induction false} OwnersAreClaims(settings: Settings, actions: seq<Action>, topic: string, owner: string)
    requires settings.Valid() && IsRun(settings, actions)
    ensures owner in OwnersOf(After(settings, actions), topic) <==> Claim(settings, actions, topic, owner).Some?
    ensures owner in OwnersOf(After(settings, actions), topic) ==>
      Claim(settings, actions, topic, owner) == Some(OwnersOf(After(settings, actions), topic)[owner])
    decreases |actions|
  {
    hide R.Next, R.Subscribes, Sends, Effective, Authorize;
    if actions != [] {
      var s, a := After(settings, Past(actions)), actions[|actions| - 1];
      OwnersAreClaims(settings, Past(actions), topic, owner);
      if a.Release? && a.topic == topic && a.owner in OwnersOf(s, topic) && owner in OwnersOf(s, topic) && |OwnersOf(s, topic)| == 1 {
        SoleOwner(OwnersOf(s, topic), a.owner, owner);
      }
    }
  }

  lemma SoleOwner(owners: Owners, owner: string, other: string)
    requires owner in owners && |owners| == 1 && other in owners
    ensures other == owner
  {
    assert |owners.Keys - {owner}| == 0;
    assert other in owners.Keys;
  }

  /** A topic is subscribed exactly while some owner claims it, at no less than any owner's QoS; the client's
  map is the service's. */
  lemma {:induction false} HeldForItsOwners(settings: Settings, actions: seq<Action>, topic: string)
    requires settings.Valid() && IsRun(settings, actions)
    ensures var s := After(settings, actions);
      && s.held == s.world.desired
      && (topic in s.held <==> exists owner :: Claim(settings, actions, topic, owner).Some?)
      && (topic in s.held ==> forall owner :: Claim(settings, actions, topic, owner).Some? ==>
            Claim(settings, actions, topic, owner).value <= s.held[topic])
  {
    hide R.Inv, Claim, After, IsRun;
    RunsKeepInv(settings, actions);
    var s := After(settings, actions);
    forall owner
      ensures owner in OwnersOf(s, topic) <==> Claim(settings, actions, topic, owner).Some?
      ensures owner in OwnersOf(s, topic) ==> Claim(settings, actions, topic, owner) == Some(OwnersOf(s, topic)[owner])
    {
      OwnersAreClaims(settings, actions, topic, owner);
    }
    if topic in s.held {
      assert OwnersOf(s, topic).Keys != {};
      NonEmpty(OwnersOf(s, topic).Keys);
      var owner :| owner in OwnersOf(s, topic).Keys;
      assert Claim(settings, actions, topic, owner).Some?;
    }
  }

  /** A granted acquire holds the topic at exactly the largest QoS among its owners; a refused one changes nothing. */
  lemma {:induction false} AcquireHoldsLargest(settings: Settings, s: System, a: Action)
    requires settings.Valid() && Inv(s) && a.Acquire?
    ensures var s' := Next(settings, s, a);
      if Acquires(settings, s, a) then
        && a.topic in s'.held && IsLargest(s'.held[a.topic], s'.owners[a.topic])
        && s'.owners[a.topic] == OwnersOf(s, a.topic)[a.owner := a.qos]
        && (forall t :: t != a.topic ==>
              OwnersOf(s', t) == OwnersOf(s, t) && (t in s'.held <==> t in s.held) && (t in s.held ==> s'.held[t] == s.held[t]))
      else s' == s
  {
    hide IsLargest;
  }

  /** An acquire succeeds exactly when it is authorized and either needs nothing, as the topic is held at the largest QoS
  already, or is connected and accepted; only then does it touch the client, whose maps take the new QoS. */
  lemma {:induction false} AcquireIsExact(settings: Settings, s: System, a: Action)
    requires settings.Valid() && a.Acquire?
    ensures var owners := OwnersOf(s, a.topic)[a.owner := a.qos];
      var needless := !a.refresh && a.topic in s.held && IsLargest(s.held[a.topic], owners);
      var s' := Next(settings, s, a);
      && (Acquires(settings, s, a) <==>
            Authorize(a.topic, settings, true) == Granted && (needless || (s.world.paho && s.world.connected && a.reply)))
      && (!Acquires(settings, s, a) ==> s' == s)
      && (Acquires(settings, s, a) ==>
            && s'.owners == s.owners[a.topic := owners]
            && a.topic in s'.held && IsLargest(s'.held[a.topic], owners) && s'.held == s.held[a.topic := s'.held[a.topic]]
            && s'.world == if needless then s.world
                           else s.world.(broker := s.world.broker[a.topic := s'.held[a.topic]],
                                         desired := s.world.desired[a.topic := s'.held[a.topic]]))
  {
    hide Authorize, IsLargest;
    var owners := OwnersOf(s, a.topic)[a.owner := a.qos];
    var effective := Effective(s, a.topic, a.owner, a.qos);
    assert owners == With(OwnersOf(s, a.topic), a.owner, a.qos);
    if a.topic in s.held && IsLargest(s.held[a.topic], owners) {
      OneLargest(owners, s.held[a.topic], effective);
    }
    if a.topic in s.held && effective == s.held[a.topic] {
      assert s.held[a.topic := effective] == s.held;
    }
  }

  lemma OneLargest(owners: Owners, p: R.Qos, q: R.Qos)
    requires IsLargest(p, owners) && IsLargest(q, owners)
    ensures p == q
  {
  }

  /** A release takes that owner out and, with the last one, the subscription: from the desired map in any case, from the
  broker when connected.  Someone who owns nothing releases nothing. */
  lemma {:induction false} ReleaseIsExact(settings: Settings, s: System, topic: string, owner: string)
    requires settings.Valid()
    ensures var s', owners := Next(settings, s, Release(topic, owner)), OwnersOf(s, topic);
      if owner !in owners then s' == s
      else if owners.Keys != {owner} then s' == System(s.world, s.owners[topic := owners - {owner}], s.held)
      else
        && s'.owners == s.owners - {topic} && s'.held == s.held - {topic}
        && s'.world == s.world.(desired := s.world.desired - {topic},
                                broker := if s.world.paho && s.world.connected then s.world.broker - {topic} else s.world.broker)
  {
    var owners := OwnersOf(s, topic);
    if owner in owners {
      assert |owners.Keys| == |owners|;
      assert |owners.Keys - {owner}| == |owners| - 1;
      if |owners| == 1 {
        assert owners.Keys - {owner} == {};
      }
    }
  }

  /** An authorized acquire asks the client for anything only to refresh, or because the map has to change;
  otherwise it returns even while disconnected. */
  lemma {:induction false} SendsForChanges(settings: Settings, s: System, a: Action)
    requires settings.Valid() && a.Acquire? && Authorize(a.topic, settings, true) == Granted
    ensures ClientStep(settings, s, a).Some? <==>
      a.refresh || s.held[a.topic := Effective(s, a.topic, a.owner, a.qos)] != s.held
    ensures ClientStep(settings, s, a).None? ==>
      Acquires(settings, s, a) && Next(settings, s, a).world == s.world && Next(settings, s, a).held == s.held
  {
    hide Authorize, Effective;
    var held := s.held[a.topic := Effective(s, a.topic, a.owner, a.qos)];
    assert a.topic in held && held[a.topic] == Effective(s, a.topic, a.owner, a.qos);
    if a.topic in s.held && Effective(s, a.topic, a.owner, a.qos) == s.held[a.topic] {
      assert held == s.held;
    }
  }

  // ------------------------------------------------------------- retained queries

  /** A retained query on its own: it acquires at QoS 0 for a fresh owner, asking the broker again, and
  releases whatever came of that. */
  ghost function Query(settings: Settings, s: System, topic: string, asker: string, reply: bool): System
    requires settings.Valid()
  {
    Next(settings, Next(settings, s, Acquire(topic, 0, asker, true, reply)), Release(topic, asker))
  }

  /** Its net effect: the owners are what they were.  When the subscription was sent, a topic with other owners
  ends at exactly the largest of their QoS; a topic without owners ends unsubscribed; a refused query changes
  nothing at all. */
  lemma {:induction false} QueryNetEffect(settings: Settings, s: System, topic: string, asker: string, reply: bool)
    requires settings.Valid() && Inv(s) && asker !in OwnersOf(s, topic)
    requires forall o :: o in OwnersOf(s, topic) ==> OwnersOf(s, topic)[o] >= 0
    ensures var s' := Query(settings, s, topic, asker, reply);
      && s'.owners == s.owners
      && (forall t :: t != topic ==> (t in s'.held <==> t in s.held) && (t in s.held ==> s'.held[t] == s.held[t]))
      && (!Acquires(settings, s, Acquire(topic, 0, asker, true, reply)) ==> s' == s)
      && (topic !in s.held ==> topic !in s'.held && topic !in s'.world.desired)
      && (Acquires(settings, s, Acquire(topic, 0, asker, true, reply)) && topic in s.held ==>
            topic in s'.held && s'.held[topic] == Largest(s.owners[topic]))
  {
    hide R.Inv, R.Next, Authorize, R.Subscribes, Largest;
    var a := Acquire(topic, 0, asker, true, reply);
    if Acquires(settings, s, a) {
      QueryReleases(settings, s, topic, asker, reply);
      if topic in s.held { ZeroAddsNothing(OwnersOf(s, topic), asker); }
    } else {
      RefusedAcquire(settings, s, a);
    }
  }

  lemma RefusedAcquire(settings: Settings, s: System, a: Action)
    requires settings.Valid() && a.Acquire? && !Acquires(settings, s, a)
    ensures Next(settings, s, a) == s
  {
    hide R.Next, Authorize, R.Subscribes, Largest;
    if Authorize(a.topic, settings, true) == Granted {
      RefusedSubscribe(s.world, a.topic, Effective(s, a.topic, a.owner, a.qos), a.reply);
    }
  }

  lemma QueryReleases(settings: Settings, s: System, topic: string, asker: string, reply: bool)
    requires settings.Valid() && Inv(s) && asker !in OwnersOf(s, topic)
    requires Acquires(settings, s, Acquire(topic, 0, asker, true, reply))
    ensures var s' := Query(settings, s, topic, asker, reply);
      && s'.owners == s.owners
      && (topic in s.held ==> s'.held == s.held[topic := Effective(s, topic, asker, 0)])
      && (topic !in s.held ==> s'.held == s.held && topic !in s'.world.desired)
  {
    hide R.Inv, R.Next, Authorize, R.Subscribes, Effective, With;
    var mid := Next(settings, s, Acquire(topic, 0, asker, true, reply));
    ReleaseUndoes(settings, s, mid, topic, asker, Effective(s, topic, asker, 0));
  }

  /** Releasing the owner that was just added takes the table back. */
  lemma ReleaseUndoes(settings: Settings, s: System, mid: System, topic: string, owner: string, effective: R.Qos)
    requires settings.Valid() && owner !in OwnersOf(s, topic)
    requires s.held.Keys == s.owners.Keys && OwnersOf(s, topic) == (if topic in s.held then s.owners[topic] else map[])
    requires topic in s.held ==> s.owners[topic] != map[]
    requires mid.owners == s.owners[topic := With(OwnersOf(s, topic), owner, 0)] && mid.held == s.held[topic := effective]
    ensures var s' := Next(settings, mid, Release(topic, owner));
      && s'.owners == s.owners
      && (topic in s.held ==> s'.held == mid.held)
      && (topic !in s.held ==> s'.held == s.held && topic !in s'.world.desired)
  {
    hide R.Next, With;
    var before := OwnersOf(s, topic);
    OneMoreOwner(before, owner, 0);
    if topic in s.held {
      assert mid.owners[topic := before] == s.owners;
    } else {
      assert mid.owners - {topic} == s.owners;
      assert mid.held - {topic} == s.held;
      DesiredDropped(mid.world, topic);
    }
  }

  lemma DesiredDropped(w: R.World, topic: string)
    ensures topic !in R.Next(w, R.Unsubscribe(topic)).desired
  {
  }

  lemma OneMoreOwner(owners: Owners, owner: string, qos: R.Qos)
    requires owner !in owners
    ensures With(owners, owner, qos) - {owner} == owners
    ensures owners == map[] ==> |With(owners, owner, qos)| == 1
    ensures owners != map[] ==> |With(owners, owner, qos)| > 1
  {
    assert |With(owners, owner, qos).Keys| == |owners.Keys| + 1;
    if owners != map[] { assert owners.Keys != {}; }
  }

  lemma ZeroAddsNothing(owners: Owners, asker: string)
    requires owners != map[] && asker !in owners && forall o :: o in owners ==> owners[o] >= 0
    ensures Largest(With(owners, asker, 0)) == Largest(owners)
  {
    var q, q' := Largest(owners), Largest(With(owners, asker, 0));
    var all := With(owners, asker, 0);
    assert forall o :: o in owners ==> o in all && all[o] == owners[o];
    var o :| o in owners && owners[o] == q;
    assert all[o] <= q';
    var o' :| o' in all && all[o'] == q';
    if o' != asker { assert owners[o'] <= q; }
  }

  // -------------------------------------------------------- owners and the broker

  /** The client steps of a run. */
  ghost function ClientSteps(settings: Settings, actions: seq<Action>): seq<R.Step>
    requires settings.Valid()
    decreases |actions|
  {
    if actions == [] then []
    else
      var step := ClientStep(settings, After(settings, Past(actions)), actions[|actions| - 1]);
      ClientSteps(settings, Past(actions)) + (if step.Some? then [step.value] else [])
  }

  /** No callback is waiting when a turn under the lock is taken. */
  ghost predicate Drained(settings: Settings, actions: seq<Action>)
    requires settings.Valid()
    decreases |actions|
  {
    actions == []
    || (Drained(settings, Past(actions)) && (!actions[|actions| - 1].Network? ==> After(settings, Past(actions)).world.queue == []))
  }

  lemma {:induction false} RunsAreClientRuns(settings: Settings, actions: seq<Action>)
    requires settings.Valid() && IsRun(settings, actions)
    ensures R.IsRun(ClientSteps(settings, actions))
    ensures R.After(ClientSteps(settings, actions)) == After(settings, actions).world
    ensures Drained(settings, actions) ==> R.Drained(ClientSteps(settings, actions))
    decreases |actions|
  {
    hide R.Next, Authorize, Sends, Effective, Acquires;
    if actions != [] {
      var before := ClientSteps(settings, Past(actions));
      RunsAreClientRuns(settings, Past(actions));
      var step := ClientStep(settings, After(settings, Past(actions)), actions[|actions| - 1]);
      if step.Some? {
        R.OneMore(before, step.value);
        assert R.Past(before + [step.value]) == before;
      } else {
        assert before + [] == before;
      }
    }
  }

  /** Connected with nothing waiting, the broker serves every owner at least at its QoS.  When callbacks are
  drained before each turn, it holds those topics and no others. */
  lemma {:induction false} OwnersAreServed(settings: Settings, actions: seq<Action>, topic: string)
    requires settings.Valid() && IsRun(settings, actions) && R.Settled(After(settings, actions).world)
    ensures var s := After(settings, actions);
      && (forall owner :: Claim(settings, actions, topic, owner).Some? ==>
            topic in s.world.broker && Claim(settings, actions, topic, owner).value <= s.world.broker[topic])
      && (Drained(settings, actions) ==>
            (topic in s.world.broker <==> exists owner :: Claim(settings, actions, topic, owner).Some?))
  {
    hide R.After, R.IsRun, R.Drained, After, IsRun, Claim, ClientSteps, Drained;
    RunsAreClientRuns(settings, actions);
    R.DesiredIsHeld(ClientSteps(settings, actions));
    HeldForItsOwners(settings, actions, topic);
    if Drained(settings, actions) {
      R.DrainedIsExact(ClientSteps(settings, actions));
    }
  }

  // ------------------------------------------------------------------ query answers

  /** What the callback of a query waits for. */
  predicate IsRetained(message: D.Message, topic: string) {
    message.topic == topic && message.retain
  }

  /** The first retained message on the topic, if one was delivered. */
  ghost predicate IsFirstRetained(deliveries: seq<D.Message>, topic: string, answer: Option<D.Message>) {
    if answer.None? then forall i :: 0 <= i < |deliveries| ==> !IsRetained(deliveries[i], topic)
    else exists i :: 0 <= i < |deliveries| && deliveries[i] == answer.value && IsRetained(answer.value, topic)
                     && forall j :: 0 <= j < i ==> !IsRetained(deliveries[j], topic)
  }

  lemma FirstStays(deliveries: seq<D.Message>, message: D.Message, topic: string, answer: Option<D.Message>)
    requires IsFirstRetained(deliveries, topic, answer)
    ensures IsFirstRetained(deliveries + [message], topic,
                            if IsRetained(message, topic) && answer.None? then Some(message) else answer)
  {
    hide IsRetained;
    var more := deliveries + [message];
    assert more[|deliveries|] == message;
    if answer.Some? {
      var i :| 0 <= i < |deliveries| && deliveries[i] == answer.value && IsRetained(answer.value, topic)
        && forall j :: 0 <= j < i ==> !IsRetained(deliveries[j], topic);
      assert more[i] == answer.value;
    }
  }

  // -------------------------------------------------------------- the service object

  class MQTTService {
    const client: R.MQTTClient
    const settings: Settings
    var owners: map<string, Owners>
    var subscriptions: map<string, R.Qos>

    ghost function State(): System
      reads this, client, client.network
    {
      System(client.State(), owners, subscriptions)
    }

    constructor (client: R.MQTTClient, settings: Settings)
      requires client.State() == R.START
      ensures this.client == client && this.settings == settings && State() == START
    {
      this.client, this.settings := client, settings;
      owners, subscriptions := map[], map[];
    }

    /** `max(owners.values())`. */
    static method Max(owners: Owners) returns (q: R.Qos)
      requires owners != map[]
      ensures q == Largest(owners)
    {
      var rest := owners.Keys;
      assert rest != {};
      var first := AnyOf(rest);
      q := owners[first];
      while rest != {}
        invariant rest <= owners.Keys && first in owners
        invariant exists o :: o in owners && owners[o] == q
        invariant forall o :: o in owners && o !in rest ==> owners[o] <= q
        invariant owners[first] <= q
        decreases |rest|
      {
        var o := AnyOf(rest);
        if q < owners[o] { q := owners[o]; }
        rest := rest - {o};
      }
      assert IsLargest(q, owners);
    }

    /** `acquire_subscription`; a raised error is `false`. */
    method AcquireSubscription(topic: string, qos: R.Qos, owner: string, refresh: bool, reply: bool) returns (ok: bool)
      requires settings.Valid()
      modifies this, client`subscriptions, client.network`broker
      ensures ok <==> Acquires(settings, old(State()), Acquire(topic, qos, owner, refresh, reply))
      ensures State() == Next(settings, old(State()), Acquire(topic, qos, owner, refresh, reply))
    {
      hide R.Next, Authorize, Largest;
      if Authorize(topic, settings, true) != Granted {
        return false;
      }
      var mine := if topic in owners then owners[topic] else map[];
      mine := With(mine, owner, qos);
      var effective := Max(mine);
      assert effective == Effective(State(), topic, owner, qos);
      if refresh || topic !in subscriptions || effective != subscriptions[topic] {
        ok := client.Subscribe(topic, effective, reply);
        if !ok {
          return;
        }
      }
      ok := true;
      owners := owners[topic := mine];
      subscriptions := subscriptions[topic := effective];
    }

    /** `release_subscription`. */
    method ReleaseSubscription(topic: string, owner: string)
      requires settings.Valid()
      modifies this, client`subscriptions, client.network`broker
      ensures State() == Next(settings, old(State()), Release(topic, owner))
    {
      hide R.Next;
      if topic !in owners || owner !in owners[topic] {
        return;
      }
      if |owners[topic]| > 1 {
        owners := owners[topic := owners[topic] - {owner}];
        return;
      }
      client.Unsubscribe(topic);
      owners := owners - {topic};
      subscriptions := subscriptions - {topic};
    }

    /** `receive`, called for each message delivered during the wait. */
    static method Receive(deliveries: seq<D.Message>, topic: string) returns (answer: Option<D.Message>)
      ensures IsFirstRetained(deliveries, topic, answer)
      ensures answer.Some? ==> answer.value in deliveries && answer.value.topic == topic && answer.value.retain
      ensures answer.None? ==> forall m :: m in deliveries && m.topic == topic ==> !m.retain
    {
      answer := None;
      for i := 0 to |deliveries|
        invariant IsFirstRetained(deliveries[..i], topic, answer)
      {
        assert deliveries[..i + 1] == deliveries[..i] + [deliveries[i]];
        FirstStays(deliveries[..i], deliveries[i], topic, answer);
        if IsRetained(deliveries[i], topic) && answer.None? {
          answer := Some(deliveries[i]);
        }
      }
      assert deliveries[..|deliveries|] == deliveries;
    }

    /** `query_retained` while no other turn intervenes: acquire, wait for a retained message among `deliveries`,
    and release in the end; a time-out and any error are `None`. */
    method QueryRetained(topic: string, asker: string, reply: bool, deliveries: seq<D.Message>)
      returns (answer: Option<D.Message>)
      requires settings.Valid()
      modifies this, client`subscriptions, client.network`broker
      ensures Authorize(topic, settings, false) != Granted ==> answer == None && State() == old(State())
      ensures Authorize(topic, settings, false) == Granted ==> State() == Query(settings, old(State()), topic, asker, reply)
      ensures Authorize(topic, settings, false) == Granted ==>
        if Acquires(settings, old(State()), Acquire(topic, 0, asker, true, reply)) then IsFirstRetained(deliveries, topic, answer)
        else answer == None
    {
      hide Next, Authorize, Acquires;
      answer := None;
      if Authorize(topic, settings, false) != Granted {
        return;
      }
      var sent := AcquireSubscription(topic, 0, asker, true, reply);
      if sent {
        answer := Receive(deliveries, topic);
      }
      ReleaseSubscription(topic, asker);
    }
  }
}
