/** Retained queries while other turns are taken between their acquire and their release. */
module Queries {
  import opened Wrappers
  import opened Topics
  import R = Reconnect
  import opened Subscriptions

  // ------------------------------------------------------------ two runs side by side

  function Look<V>(m: map<string, V>, key: string): Option<V> {
    if key in m then Some(m[key]) else None
  }

  /** What a topic looks like in a system: its owners, and how it is held, desired and known at the broker. */
  datatype View = View(owners: Option<Owners>, held: Option<R.Qos>, desired: Option<R.Qos>, broker: Option<R.Qos>)

  function ViewOf(s: System, t: string): View {
    View(Look(s.owners, t), Look(s.held, t), Look(s.world.desired, t), Look(s.world.broker, t))
  }

  predicate SameAt(u: System, v: System, t: string) {
    ViewOf(u, t) == ViewOf(v, t)
  }

  /** The two systems have the same connection and agree about every topic but one. */
  ghost predicate SameBut(u: System, v: System, topic: string) {
    && u.world.paho == v.world.paho && u.world.connected == v.world.connected && u.world.queue == v.world.queue
    && forall t :: t != topic ==> SameAt(u, v, t)
  }

  predicate TurnOn(a: Action, topic: string) {
    !a.Network? && a.topic == topic
  }

  /** The action is no turn of `asker` on `topic`. */
  predicate ByOthers(a: Action, topic: string, asker: string) {
    TurnOn(a, topic) ==> a.owner != asker
  }

  lemma SameFlips(u: System, v: System, topic: string)
    requires SameBut(u, v, topic)
    ensures SameBut(v, u, topic)
  {
    hide ViewOf;
    forall t | t != topic ensures SameAt(v, u, t) { assert SameAt(u, v, t); }
  }

  lemma SameChains(u: System, v: System, w: System, topic: string)
    requires SameBut(u, v, topic) && SameBut(v, w, topic)
    ensures SameBut(u, w, topic)
  {
    hide ViewOf;
    forall t | t != topic ensures SameAt(u, w, t) { assert SameAt(u, v, t) && SameAt(v, w, t); }
  }

  /** The network and turns on other topics do not tell the two systems apart ... */
  lemma SameNetwork(settings: Settings, u: System, v: System, topic: string, step: R.Step)
    requires settings.Valid() && SameBut(u, v, topic) && !R.IsApplicationStep(step)
    ensures SameBut(Next(settings, u, Network(step)), Next(settings, v, Network(step)), topic)
  {
    var u', v' := Next(settings, u, Network(step)), Next(settings, v, Network(step));
    forall t | t != topic ensures SameAt(u', v', t) {
      assert SameAt(u, v, t);
    }
  }

  /** ... and a turn on one topic changes nothing else. */
  lemma TopicTurn(settings: Settings, u: System, topic: string, a: Action)
    requires settings.Valid() && TurnOn(a, topic)
    ensures SameBut(Next(settings, u, a), u, topic)
  {
    hide Authorize, Effective, With, R.Subscribes;
  }

  predicate SameConnection(u: System, v: System) {
    u.world.paho == v.world.paho && u.world.connected == v.world.connected && u.world.queue == v.world.queue
  }

  lemma AcquireLooks(settings: Settings, s: System, a: Action)
    requires settings.Valid() && a.Acquire?
    ensures var e, v := Effective(s, a.topic, a.owner, a.qos), ViewOf(s, a.topic);
      var sent := Sends(s, a.topic, a.qos, a.owner, a.refresh);
      ViewOf(Next(settings, s, a), a.topic) ==
        if !Acquires(settings, s, a) then v
        else View(Some(With(OwnersOf(s, a.topic), a.owner, a.qos)), Some(e), if sent then Some(e) else v.desired,
                  if sent then Some(e) else v.broker)
  {
    hide Authorize, Effective, With;
  }

  lemma SameAcquire(settings: Settings, u: System, v: System, a: Action)
    requires settings.Valid() && a.Acquire? && SameConnection(u, v) && SameAt(u, v, a.topic)
    ensures SameAt(Next(settings, u, a), Next(settings, v, a), a.topic)
  {
    SameNeeds(u, v, a);
    hide Authorize, Next, With, Sends, Effective, ViewOf;
    AcquireLooks(settings, u, a);
    AcquireLooks(settings, v, a);
  }

  lemma SameNeeds(u: System, v: System, a: Action)
    requires a.Acquire? && SameAt(u, v, a.topic)
    ensures OwnersOf(u, a.topic) == OwnersOf(v, a.topic)
    ensures Effective(u, a.topic, a.owner, a.qos) == Effective(v, a.topic, a.owner, a.qos)
    ensures Sends(u, a.topic, a.qos, a.owner, a.refresh) == Sends(v, a.topic, a.qos, a.owner, a.refresh)
  {
    hide Largest, With;
  }

  lemma ReleaseLooks(settings: Settings, s: System, a: Action)
    requires settings.Valid() && a.Release?
    ensures var owners, v := OwnersOf(s, a.topic), ViewOf(s, a.topic);
      ViewOf(Next(settings, s, a), a.topic) ==
        if a.owner !in owners then v
        else if |owners| > 1 then v.(owners := Some(owners - {a.owner}))
        else View(None, None, None, if R.IsConnected(s.world) then None else v.broker)
  {
    if a.owner in OwnersOf(s, a.topic) { OthersRemain(OwnersOf(s, a.topic), a.owner); }
  }

  lemma SameRelease(settings: Settings, u: System, v: System, a: Action)
    requires settings.Valid() && a.Release? && SameConnection(u, v) && SameAt(u, v, a.topic)
    ensures SameAt(Next(settings, u, a), Next(settings, v, a), a.topic)
  {
    assert OwnersOf(u, a.topic) == OwnersOf(v, a.topic);
    hide Next, ViewOf;
    ReleaseLooks(settings, u, a);
    ReleaseLooks(settings, v, a);
  }

  lemma SameTurn(settings: Settings, u: System, v: System, topic: string, a: Action)
    requires settings.Valid() && SameBut(u, v, topic) && !a.Network? && a.topic != topic
    ensures SameBut(Next(settings, u, a), Next(settings, v, a), topic)
  {
    hide Next, SameAt;
    var u', v' := Next(settings, u, a), Next(settings, v, a);
    TopicTurn(settings, u, a.topic, a);
    TopicTurn(settings, v, a.topic, a);
    assert SameAt(u, v, a.topic);
    if a.Acquire? { SameAcquire(settings, u, v, a); } else { SameRelease(settings, u, v, a); }
    forall t | t != topic ensures SameAt(u', v', t) {
      if t != a.topic {
        SameThrough(u', u, v, v', t);
      }
    }
  }

  lemma SameThrough(u': System, u: System, v: System, v': System, t: string)
    requires SameAt(u', u, t) && SameAt(u, v, t) && SameAt(v', v, t)
    ensures SameAt(u', v', t)
  {
    hide ViewOf;
  }

  lemma SameStep(settings: Settings, u: System, v: System, topic: string, a: Action)
    requires settings.Valid() && SameBut(u, v, topic) && Enabled(u, a)
    ensures SameBut(Next(settings, u, a), Next(settings, v, a), topic)
    ensures Enabled(v, a)
  {
    hide Next, SameAt;
    if a.Network? {
      SameNetwork(settings, u, v, topic, a.step);
    } else if TurnOn(a, topic) {
      TopicTurn(settings, u, topic, a);
      TopicTurn(settings, v, topic, a);
      SameFlips(Next(settings, v, a), v, topic);
      SameChains(Next(settings, u, a), u, v, topic);
      SameChains(Next(settings, u, a), v, Next(settings, v, a), topic);
    } else {
      SameTurn(settings, u, v, topic, a);
    }
  }

  // ------------------------------------------------------------------- continuations

  ghost function Then(settings: Settings, s: System, actions: seq<Action>): System
    requires settings.Valid()
    decreases |actions|
  {
    if actions == [] then s else Next(settings, Then(settings, s, Past(actions)), actions[|actions| - 1])
  }

  ghost predicate CanFollow(settings: Settings, s: System, actions: seq<Action>)
    requires settings.Valid()
    decreases |actions|
  {
    actions == [] || (CanFollow(settings, s, Past(actions)) && Enabled(Then(settings, s, Past(actions)), actions[|actions| - 1]))
  }

  lemma {:induction false} SameThen(settings: Settings, u: System, v: System, topic: string, actions: seq<Action>)
    requires settings.Valid() && SameBut(u, v, topic) && CanFollow(settings, u, actions)
    ensures SameBut(Then(settings, u, actions), Then(settings, v, actions), topic)
    decreases |actions|
  {
    hide Next, SameBut, Enabled;
    if actions != [] {
      SameThen(settings, u, v, topic, Past(actions));
      SameStep(settings, Then(settings, u, Past(actions)), Then(settings, v, Past(actions)), topic, actions[|actions| - 1]);
    }
  }

  lemma ActionKeepsInv(settings: Settings, s: System, a: Action)
    requires settings.Valid() && Inv(s) && Enabled(s, a)
    ensures Inv(Next(settings, s, a))
  {
    hide Inv, Next;
    match a
    case Network(step) => NetworkKeepsInv(settings, s, step);
    case Acquire(_, _, _, _, _) => AcquireKeepsInv(settings, s, a);
    case Release(_, _) => ReleaseKeepsInv(settings, s, a);
  }

  lemma {:induction false} ThenKeepsInv(settings: Settings, s: System, actions: seq<Action>)
    requires settings.Valid() && Inv(s) && CanFollow(settings, s, actions)
    ensures Inv(Then(settings, s, actions))
    decreases |actions|
  {
    hide Inv, Next, Enabled;
    if actions != [] {
      ThenKeepsInv(settings, s, Past(actions));
      ActionKeepsInv(settings, Then(settings, s, Past(actions)), actions[|actions| - 1]);
    }
  }

  /** What `owner` has on `topic`, if anything. */
  function Entry(s: System, topic: string, owner: string): Option<R.Qos> {
    Look(OwnersOf(s, topic), owner)
  }

  lemma EntryStays(settings: Settings, s: System, a: Action, topic: string, owner: string)
    requires settings.Valid() && ByOthers(a, topic, owner)
    ensures Entry(Next(settings, s, a), topic, owner) == Entry(s, topic, owner)
  {
    hide R.Next, R.Subscribes, Sends, Effective, Authorize;
    if a.Release? && a.topic == topic && a.owner in OwnersOf(s, topic) && owner in OwnersOf(s, topic) && |OwnersOf(s, topic)| == 1 {
      SoleOwner(OwnersOf(s, topic), a.owner, owner);
    }
    if a.Release? && a.owner in OwnersOf(s, a.topic) {
      OthersRemain(OwnersOf(s, a.topic), a.owner);
    }
  }

  /** Nobody else's turns touch an owner's entry. */
  lemma {:induction false} EntryThen(settings: Settings, s: System, actions: seq<Action>, topic: string, owner: string)
    requires settings.Valid() && forall a :: a in actions ==> ByOthers(a, topic, owner)
    ensures Entry(Then(settings, s, actions), topic, owner) == Entry(s, topic, owner)
    decreases |actions|
  {
    hide Next, ByOthers, Entry;
    if actions != [] {
      EntryThen(settings, s, Past(actions), topic, owner);
      EntryStays(settings, Then(settings, s, Past(actions)), actions[|actions| - 1], topic, owner);
    }
  }

  lemma QuietAt(settings: Settings, s: System, a: Action, topic: string)
    requires settings.Valid() && !TurnOn(a, topic) && (a.Network? ==> !R.IsApplicationStep(a.step))
    ensures Look(Next(settings, s, a).owners, topic) == Look(s.owners, topic)
    ensures Look(Next(settings, s, a).held, topic) == Look(s.held, topic)
  {
    hide Authorize, Effective, With, R.Next, R.Subscribes;
  }

  lemma {:induction false} QuietThen(settings: Settings, s: System, actions: seq<Action>, topic: string)
    requires settings.Valid() && CanFollow(settings, s, actions) && forall a :: a in actions ==> !TurnOn(a, topic)
    ensures Look(Then(settings, s, actions).owners, topic) == Look(s.owners, topic)
    ensures Look(Then(settings, s, actions).held, topic) == Look(s.held, topic)
    decreases |actions|
  {
    hide Next, Look, TurnOn, R.Enabled;
    if actions != [] {
      QuietThen(settings, s, Past(actions), topic);
      QuietAt(settings, Then(settings, s, Past(actions)), actions[|actions| - 1], topic);
    }
  }

  // ------------------------------------------------------------------------ queries

  /** A query of `asker` whose wait is filled by the turns and events of `mid`. */
  ghost function QueryAround(settings: Settings, s: System, topic: string, asker: string, reply: bool, mid: seq<Action>): System
    requires settings.Valid()
  {
    Next(settings, Then(settings, Next(settings, s, Acquire(topic, 0, asker, true, reply)), mid), Release(topic, asker))
  }

  lemma AskerEnters(settings: Settings, s: System, topic: string, asker: string, reply: bool)
    requires settings.Valid() && Acquires(settings, s, Acquire(topic, 0, asker, true, reply))
    ensures Entry(Next(settings, s, Acquire(topic, 0, asker, true, reply)), topic, asker) == Some(0)
  {
    hide Authorize, Effective, R.Next, R.Subscribes;
  }

  lemma AskerLeaves(settings: Settings, s: System, topic: string, asker: string)
    requires settings.Valid() && Inv(s)
    ensures OwnersOf(Next(settings, s, Release(topic, asker)), topic) == OwnersOf(s, topic) - {asker}
    ensures asker !in OwnersOf(s, topic) ==> Next(settings, s, Release(topic, asker)) == s
  {
    hide R.Inv, R.Next;
    var owners := OwnersOf(s, topic);
    if asker in owners {
      OthersRemain(owners, asker);
      if |owners| == 1 {
        forall o | o in owners ensures o == asker { SoleOwner(owners, asker, o); }
        assert owners - {asker} == map[];
      }
    } else {
      assert owners - {asker} == owners;
    }
  }

  /** While a granted query waits, whatever others do, its owner keeps its entry, so the topic stays subscribed and
  desired.  `mid` is any part of the wait. */
  lemma {:induction false} QueryStays(settings: Settings, s: System, topic: string, asker: string, reply: bool, mid: seq<Action>)
    requires settings.Valid() && Inv(s) && forall a :: a in mid ==> ByOthers(a, topic, asker)
    requires var acquire := Acquire(topic, 0, asker, true, reply);
      Acquires(settings, s, acquire) && CanFollow(settings, Next(settings, s, acquire), mid)
    ensures var s' := Then(settings, Next(settings, s, Acquire(topic, 0, asker, true, reply)), mid);
      Entry(s', topic, asker) == Some(0) && topic in s'.held && topic in s'.world.desired && s'.held[topic] >= 0
  {
    hide R.Inv, Next, Acquires, CanFollow, Then, ByOthers;
    var acquire := Acquire(topic, 0, asker, true, reply);
    AcquireKeepsInv(settings, s, acquire);
    AskerEnters(settings, s, topic, asker, reply);
    EntryThen(settings, Next(settings, s, acquire), mid, topic, asker);
    ThenKeepsInv(settings, Next(settings, s, acquire), mid);
  }

  /** The query and the turns that fill its wait do not disturb one another: every other topic ends exactly as
  without the query, every other owner's entry on the topic is what the turns left, the asker has none, and a
  refused query leaves no trace at all. */
  lemma {:induction false} QueryAmongTurns(settings: Settings, s: System, topic: string, asker: string, reply: bool, mid: seq<Action>)
    requires settings.Valid() && Inv(s) && asker !in OwnersOf(s, topic) && forall a :: a in mid ==> ByOthers(a, topic, asker)
    requires CanFollow(settings, Next(settings, s, Acquire(topic, 0, asker, true, reply)), mid)
    ensures var acquire := Acquire(topic, 0, asker, true, reply);
      var waiting, end := Then(settings, Next(settings, s, acquire), mid), QueryAround(settings, s, topic, asker, reply, mid);
      && Inv(end) && SameBut(end, Then(settings, s, mid), topic)
      && OwnersOf(end, topic) == OwnersOf(waiting, topic) - {asker}
      && (topic in end.held <==> OwnersOf(end, topic) != map[])
      && (!Acquires(settings, s, acquire) ==> end == Then(settings, s, mid))
  {
    hide R.Inv, Next, Acquires, CanFollow, Then, ByOthers, SameBut;
    var acquire := Acquire(topic, 0, asker, true, reply);
    var first := Next(settings, s, acquire);
    var waiting := Then(settings, first, mid);
    AcquireKeepsInv(settings, s, acquire);
    ThenKeepsInv(settings, first, mid);
    ReleaseKeepsInv(settings, waiting, Release(topic, asker));
    AskerLeaves(settings, waiting, topic, asker);
    TopicTurn(settings, s, topic, acquire);
    SameThen(settings, first, s, topic, mid);
    TopicTurn(settings, waiting, topic, Release(topic, asker));
    SameChains(Next(settings, waiting, Release(topic, asker)), waiting, Then(settings, s, mid), topic);
    if !Acquires(settings, s, acquire) {
      RefusedAcquire(settings, s, acquire);
      EntryThen(settings, s, mid, topic, asker);
    }
  }

  /** When the turns that fill the wait concern other topics, the net effect is that of an undisturbed query: the
  owners are what they were, and the topic is held at exactly the largest of their QoS, or not at all. */
  lemma {:induction false} QueryAmongOthers(settings: Settings, s: System, topic: string, asker: string, reply: bool, mid: seq<Action>)
    requires settings.Valid() && Inv(s) && asker !in OwnersOf(s, topic) && forall a :: a in mid ==> !TurnOn(a, topic)
    requires forall o :: o in OwnersOf(s, topic) ==> OwnersOf(s, topic)[o] >= 0
    requires var acquire := Acquire(topic, 0, asker, true, reply);
      Acquires(settings, s, acquire) && CanFollow(settings, Next(settings, s, acquire), mid)
    ensures var end := QueryAround(settings, s, topic, asker, reply, mid);
      && OwnersOf(end, topic) == OwnersOf(s, topic)
      && (topic in end.held <==> OwnersOf(s, topic) != map[])
      && (OwnersOf(s, topic) != map[] ==> topic in end.held && end.held[topic] == Largest(OwnersOf(s, topic)))
  {
    hide R.Inv, Next, Acquires, CanFollow, Then, Largest;
    var acquire := Acquire(topic, 0, asker, true, reply);
    var first := Next(settings, s, acquire);
    var waiting := Then(settings, first, mid);
    QueryAmongTurns(settings, s, topic, asker, reply, mid);
    QuietThen(settings, first, mid, topic);
    FirstIs(settings, s, topic, asker, reply);
    OneMoreOwner(OwnersOf(s, topic), asker, 0);
    if OwnersOf(s, topic) != map[] {
      ZeroAddsNothing(OwnersOf(s, topic), asker);
      HeldAfterRelease(settings, waiting, topic, asker);
    }
  }

  lemma FirstIs(settings: Settings, s: System, topic: string, asker: string, reply: bool)
    requires settings.Valid() && Acquires(settings, s, Acquire(topic, 0, asker, true, reply))
    ensures var first := Next(settings, s, Acquire(topic, 0, asker, true, reply));
      && Look(first.owners, topic) == Some(With(OwnersOf(s, topic), asker, 0))
      && Look(first.held, topic) == Some(Largest(With(OwnersOf(s, topic), asker, 0)))
  {
    hide Authorize, Largest, With, R.Next, R.Subscribes;
  }

  lemma HeldAfterRelease(settings: Settings, s: System, topic: string, owner: string)
    requires settings.Valid() && owner in OwnersOf(s, topic) && |OwnersOf(s, topic)| > 1
    ensures Next(settings, s, Release(topic, owner)).held == s.held
  {
  }
}
