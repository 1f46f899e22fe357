/** Per-topic statistics: a bounded table that forgets the topic heard of least recently. */
module Statistics {
  import opened Wrappers
  import opened Topics
  import TopicTheorems
  import opened Delivery

  datatype Info = Info(topic: string, count: nat, last: Message)

  // ----------------------------------------------------------------- the program

  function IndexOf(table: seq<Info>, topic: string): (i: nat)
    ensures i <= |table|
    ensures i < |table| ==> table[i].topic == topic
    ensures forall j :: 0 <= j < i ==> table[j].topic != topic
  {
    if table == [] || table[0].topic == topic then 0 else 1 + IndexOf(table[1..], topic)
  }

  /** Remove, evict the oldest when full, and append at the end. */
  function Record(table: seq<Info>, m: Message, n: nat): seq<Info> {
    var i := IndexOf(table, m.topic);
    if i < |table| then table[..i] + table[i + 1..] + [Info(m.topic, table[i].count + 1, m)]
    else (if |table| >= n && table != [] then table[1..] else table) + [Info(m.topic, 1, m)]
  }

  /** The statistics after a history of accepted messages. */
  function Table(history: seq<Message>, n: nat): seq<Info> {
    if history == [] then []
    else Record(Table(history[..|history| - 1], n), history[|history| - 1], n)
  }

  /** `handle_message` gets past its two checks. */
  predicate Accepted(limits: Limits, settings: Settings, m: Message)
    requires settings.Valid()
  {
    |m.payload| <= limits.bytes && Authorize(m.topic, settings, false) == Granted
  }

  // -------------------------------------------------------------- what it is for

  function TopicsIn(history: seq<Message>): set<string> {
    set m | m in history :: m.topic
  }

  /** The position of the latest arrival of a topic. */
  function Last(history: seq<Message>, topic: string): (i: nat)
    requires topic in TopicsIn(history)
    ensures i < |history| && history[i].topic == topic
    ensures forall j :: i < j < |history| ==> history[j].topic != topic
  {
    if history[|history| - 1].topic == topic then |history| - 1
    else
      assert history == history[..|history| - 1] + [history[|history| - 1]];
      Last(history[..|history| - 1], topic)
  }

  /** The topics heard of since. */
  function Later(history: seq<Message>, topic: string): set<string>
    requires topic in TopicsIn(history)
  {
    TopicsIn(history[Last(history, topic) + 1..])
  }

  /** Arrivals in the unbroken chain that the last message ends: the chain breaks where `n` or more distinct
  other topics came between two arrivals. */
  function Chain(history: seq<Message>, n: nat): nat
    requires history != []
    decreases |history|
  {
    var before, topic := history[..|history| - 1], history[|history| - 1].topic;
    if topic in TopicsIn(before) && |Later(before, topic)| < n then 1 + Chain(before[..Last(before, topic) + 1], n) else 1
  }

  function Names(table: seq<Info>): set<string> {
    set e | e in table :: e.topic
  }

  ghost predicate Distinct(table: seq<Info>) {
    forall i, j :: 0 <= i < j < |table| ==> table[i].topic != table[j].topic
  }

  /** An entry records the latest arrival of its topic and the length of its chain. */
  ghost predicate Faithful(history: seq<Message>, n: nat, e: Info) {
    && e.topic in TopicsIn(history)
    && e.last == history[Last(history, e.topic)]
    && e.count == Chain(history[..Last(history, e.topic) + 1], n)
  }

  ghost predicate Inv(history: seq<Message>, n: nat, table: seq<Info>) {
    && |table| <= n && Distinct(table)
    && (forall i :: 0 <= i < |table| ==> Faithful(history, n, table[i]))
    && (forall i :: 0 <= i < |table| ==> Later(history, table[i].topic) == Names(table[i + 1..]))
    && (forall t :: t in TopicsIn(history) && t !in Names(table) ==> |table| == n && Names(table) <= Later(history, t))
  }

  lemma TopicsGrow(history: seq<Message>, m: Message)
    ensures TopicsIn(history + [m]) == TopicsIn(history) + {m.topic}
  {
  }

  lemma LastOther(history: seq<Message>, m: Message, topic: string)
    requires topic in TopicsIn(history) && topic in TopicsIn(history + [m]) && topic != m.topic
    ensures Last(history + [m], topic) == Last(history, topic)
  {
    hide TopicsIn;
    var history' := history + [m];
    assert history'[|history'| - 1] == m;
    assert history'[..|history'| - 1] == history;
  }

  lemma NewTopicIsLast(history: seq<Message>, m: Message)
    requires m.topic in TopicsIn(history + [m])
    ensures Last(history + [m], m.topic) == |history|
  {
    hide TopicsIn;
    assert (history + [m])[|history|] == m;
  }

  lemma NoTopics()
    ensures TopicsIn([]) == {}
  {
  }

  /** One more message becomes the latest of its topic and later than every other. */
  lemma LastMoves(history: seq<Message>, m: Message, topic: string)
    requires topic in TopicsIn(history + [m])
    ensures topic == m.topic ==> Last(history + [m], topic) == |history| && Later(history + [m], topic) == {}
    ensures topic != m.topic ==> topic in TopicsIn(history) && Last(history + [m], topic) == Last(history, topic)
    ensures topic != m.topic ==> Later(history + [m], topic) == Later(history, topic) + {m.topic}
  {
    hide TopicsIn, Last;
    var history' := history + [m];
    TopicsGrow(history, m);
    if topic == m.topic {
      NewTopicIsLast(history, m);
      assert history'[|history'|..] == [];
      NoTopics();
    } else {
      LastOther(history, m, topic);
      var i := Last(history, topic);
      assert history'[i + 1..] == history[i + 1..] + [m];
      TopicsGrow(history[i + 1..], m);
    }
  }

  lemma FaithfulStays(history: seq<Message>, m: Message, n: nat, e: Info)
    requires Faithful(history, n, e) && e.topic != m.topic
    ensures Faithful(history + [m], n, e)
  {
    TopicsGrow(history, m);
    LastMoves(history, m, e.topic);
    var i := Last(history, e.topic);
    assert (history + [m])[..i + 1] == history[..i + 1];
  }

  lemma {:induction false} NamesCount(table: seq<Info>)
    requires Distinct(table)
    ensures |Names(table)| == |table|
  {
    if table != [] {
      NamesCount(table[1..]);
      assert table == [table[0]] + table[1..];
      assert Names(table) == {table[0].topic} + Names(table[1..]);
    }
  }

  lemma IndexFinds(table: seq<Info>, topic: string)
    ensures IndexOf(table, topic) < |table| <==> topic in Names(table)
  {
  }

  /** The table knows a topic exactly while fewer than `n` other topics were heard of since. */
  lemma KnownTopics(history: seq<Message>, n: nat, table: seq<Info>, topic: string)
    requires Inv(history, n, table) && topic in TopicsIn(history)
    ensures topic in Names(table) <==> |Later(history, topic)| < n
  {
    hide Faithful, Later;
    if topic in Names(table) {
      var i :| 0 <= i < |table| && table[i].topic == topic;
      NamesCount(table[i + 1..]);
    } else {
      NamesCount(table);
      SubsetCount(Names(table), Later(history, topic));
    }
  }

  lemma ChainStep(history: seq<Message>, m: Message, n: nat)
    ensures Chain(history + [m], n) ==
      if m.topic in TopicsIn(history) && |Later(history, m.topic)| < n then 1 + Chain(history[..Last(history, m.topic) + 1], n) else 1
  {
    assert (history + [m])[..|history + [m]| - 1] == history;
  }

  lemma NamesAreHeard(history: seq<Message>, n: nat, table: seq<Info>)
    requires Inv(history, n, table)
    ensures Names(table) <= TopicsIn(history)
  {
    forall t | t in Names(table) ensures t in TopicsIn(history) {
      var i :| 0 <= i < |table| && table[i].topic == t;
      assert Faithful(history, n, table[i]);
    }
  }

  /** The new entry continues its chain exactly when the table still knew the topic. */
  lemma NewEntryFaithful(history: seq<Message>, m: Message, n: nat, table: seq<Info>)
    requires n > 0 && Inv(history, n, table)
    ensures var i := IndexOf(table, m.topic);
      Faithful(history + [m], n, Info(m.topic, if i < |table| then table[i].count + 1 else 1, m))
  {
    hide Inv, Later, Chain, Last, Names, TopicsIn, IndexOf;
    var i := IndexOf(table, m.topic);
    TopicsGrow(history, m);
    LastMoves(history, m, m.topic);
    assert (history + [m])[..|history| + 1] == history + [m];
    ChainStep(history, m, n);
    NamesAreHeard(history, n, table);
    IndexFinds(table, m.topic);
    if m.topic in TopicsIn(history) {
      KnownTopics(history, n, table, m.topic);
    }
    if i < |table| {
      EntryIs(history, n, table, i);
    }
  }

  lemma EntryIs(history: seq<Message>, n: nat, table: seq<Info>, i: nat)
    requires Inv(history, n, table) && i < |table|
    ensures Faithful(history, n, table[i]) && Later(history, table[i].topic) == Names(table[i + 1..])
  {
  }

  lemma SubsetCount<T>(s: set<T>, t: set<T>)
    requires s <= t
    ensures |s| <= |t|
  {
    assert t == s + (t - s);
  }

  /** The entries that stay are followed by the topics that followed them and the new one. */
  ghost predicate Stays(history: seq<Message>, m: Message, n: nat, e: Info, after: seq<Info>) {
    Faithful(history + [m], n, e) && Later(history + [m], e.topic) == Names(after) + {m.topic}
  }

  lemma EntryStays(history: seq<Message>, m: Message, n: nat, table: seq<Info>, i: nat)
    requires Inv(history, n, table) && i < |table| && table[i].topic != m.topic
    ensures Stays(history, m, n, table[i], table[i + 1..])
  {
    hide Inv, Later, Chain, Last, Names, TopicsIn;
    EntryIs(history, n, table, i);
    FaithfulStays(history, m, n, table[i]);
    LastMoves(history, m, table[i].topic);
  }

  /** A topic the table forgot stays forgotten until it is heard again. */
  lemma ForgottenStays(history: seq<Message>, m: Message, n: nat, table: seq<Info>, t: string)
    requires Inv(history, n, table) && t in TopicsIn(history) && t !in Names(table) && t != m.topic
    ensures t in TopicsIn(history + [m]) && |table| == n && Names(table) + {m.topic} <= Later(history + [m], t)
  {
    hide Later, Chain, Last, Names, TopicsIn, Faithful;
    TopicsGrow(history, m);
    LastMoves(history, m, t);
  }

  /** What is left of the table once room is made for the new entry. */
  ghost predicate Kept(history: seq<Message>, m: Message, n: nat, kept: seq<Info>) {
    && |kept| < n && Distinct(kept) && m.topic !in Names(kept)
    && (forall i :: 0 <= i < |kept| ==> Stays(history, m, n, kept[i], kept[i + 1..]))
    && (forall t :: t in TopicsIn(history + [m]) && t !in Names(kept) && t != m.topic ==>
          |kept| + 1 == n && Names(kept) + {m.topic} <= Later(history + [m], t))
  }

  lemma NamesOne(table: seq<Info>, e: Info)
    ensures Names(table + [e]) == Names(table) + {e.topic}
  {
  }

  lemma AppendKeepsInv(history: seq<Message>, m: Message, n: nat, kept: seq<Info>, e: Info)
    requires Kept(history, m, n, kept) && e.topic == m.topic && Faithful(history + [m], n, e)
    requires m.topic in TopicsIn(history + [m]) && Later(history + [m], m.topic) == {}
    ensures Inv(history + [m], n, kept + [e])
  {
    hide Later, TopicsIn, Names, Chain, Last;
    var table := kept + [e];
    NamesOne(kept, e);
    forall i | 0 <= i < |table|
      ensures Faithful(history + [m], n, table[i]) && Later(history + [m], table[i].topic) == Names(table[i + 1..])
    {
      if i < |kept| {
        assert Stays(history, m, n, kept[i], kept[i + 1..]);
        assert table[i + 1..] == kept[i + 1..] + [e];
        NamesOne(kept[i + 1..], e);
      } else {
        NoNames(table[i + 1..]);
      }
    }
    forall i, j | 0 <= i < j < |table| ensures table[i].topic != table[j].topic {
      if j == |kept| { InNames(kept, i); }
    }
  }

  lemma NoNames(table: seq<Info>)
    requires table == []
    ensures Names(table) == {}
  {
  }

  lemma InNames(table: seq<Info>, i: nat)
    requires i < |table|
    ensures table[i].topic in Names(table)
  {
  }

  lemma NamesAround(table: seq<Info>, i: nat, k: nat)
    requires i <= k < |table|
    ensures Names(table[i..k] + table[k + 1..]) + {table[k].topic} == Names(table[i..])
    ensures Distinct(table) ==> table[k].topic !in Names(table[i..k] + table[k + 1..])
  {
    var rest := table[i..k] + table[k + 1..];
    assert table[i..] == table[i..k] + [table[k]] + table[k + 1..];
    forall e | e in rest ensures Distinct(table) ==> e.topic != table[k].topic {
      var j :| 0 <= j < |rest| && rest[j] == e;
      assert e == table[if j < k - i then i + j else i + j + 1];
    }
  }

  lemma DropKnown(history: seq<Message>, m: Message, n: nat, table: seq<Info>, k: nat)
    requires Inv(history, n, table) && k < |table| && table[k].topic == m.topic
    ensures Kept(history, m, n, table[..k] + table[k + 1..])
  {
    hide Later, TopicsIn, Faithful, Names, Stays, Chain, Last;
    var kept := table[..k] + table[k + 1..];
    assert table[0..k] == table[..k] && table[0..] == table;
    NamesAround(table, 0, k);
    assert forall i :: 0 <= i < |kept| ==> kept[i] == table[if i < k then i else i + 1];
    forall i | 0 <= i < |kept| ensures Stays(history, m, n, kept[i], kept[i + 1..]) {
      var j := if i < k then i else i + 1;
      EntryStays(history, m, n, table, j);
      if i < k {
        assert kept[i + 1..] == table[i + 1..k] + table[k + 1..];
        NamesAround(table, i + 1, k);
        SameAfter(history, m, n, kept[i], table[i + 1..], kept[i + 1..]);
      } else {
        assert kept[i + 1..] == table[j + 1..];
      }
    }
    TopicsGrow(history, m);
    forall t | t in TopicsIn(history + [m]) && t !in Names(kept) && t != m.topic
      ensures |kept| + 1 == n && Names(kept) + {m.topic} <= Later(history + [m], t)
    {
      ForgottenStays(history, m, n, table, t);
    }
  }

  lemma SameAfter(history: seq<Message>, m: Message, n: nat, e: Info, after: seq<Info>, after': seq<Info>)
    requires Stays(history, m, n, e, after) && Names(after) + {m.topic} == Names(after') + {m.topic}
    ensures Stays(history, m, n, e, after')
  {
    hide Names, Faithful, Later;
  }

  lemma MakeRoom(history: seq<Message>, m: Message, n: nat, table: seq<Info>)
    requires n > 0 && Inv(history, n, table) && m.topic !in Names(table)
    ensures Kept(history, m, n, if |table| >= n && table != [] then table[1..] else table)
  {
    hide Later, TopicsIn, Faithful, Names, Stays, Chain, Last;
    var first := if |table| >= n && table != [] then 1 else 0;
    var kept := table[first..];
    assert first == 0 ==> kept == table;
    TopicsGrow(history, m);
    NamesFrom(table, first);
    forall i | 0 <= i < |kept| ensures Stays(history, m, n, kept[i], kept[i + 1..]) {
      InNames(table, first + i);
      EntryStays(history, m, n, table, first + i);
      assert kept[i + 1..] == table[first + i + 1..];
    }
    forall t | t in TopicsIn(history + [m]) && t !in Names(kept) && t != m.topic
      ensures |kept| + 1 == n && Names(kept) + {m.topic} <= Later(history + [m], t)
    {
      if t in Names(table) {
        InNames(table, 0);
        EntryStays(history, m, n, table, 0);
        EvictedIsLater(history, m, n, table);
      } else {
        ForgottenStays(history, m, n, table, t);
      }
    }
  }

  lemma EvictedIsLater(history: seq<Message>, m: Message, n: nat, table: seq<Info>)
    requires table != [] && Stays(history, m, n, table[0], table[1..])
    ensures Later(history + [m], table[0].topic) == Names(table[1..]) + {m.topic}
  {
    hide Names, Later, Faithful;
  }

  lemma NamesFrom(table: seq<Info>, first: nat)
    requires first <= 1 && first <= |table|
    ensures Names(table[first..]) <= Names(table)
    ensures first == 1 ==> Names(table) == Names(table[1..]) + {table[0].topic}
  {
  }

  /** Recording a message keeps the table exact. */
  lemma {:induction false} RecordKeepsInv(history: seq<Message>, m: Message, n: nat, table: seq<Info>)
    requires n > 0 && Inv(history, n, table)
    ensures Inv(history + [m], n, Record(table, m, n))
  {
    hide Inv, Later, TopicsIn, Faithful, Names, Kept, IndexOf, Chain, Last;
    var k := IndexOf(table, m.topic);
    NewEntryFaithful(history, m, n, table);
    TopicsGrow(history, m);
    LastMoves(history, m, m.topic);
    IndexFinds(table, m.topic);
    if k < |table| {
      DropKnown(history, m, n, table, k);
      AppendKeepsInv(history, m, n, table[..k] + table[k + 1..], Info(m.topic, table[k].count + 1, m));
    } else {
      MakeRoom(history, m, n, table);
      AppendKeepsInv(history, m, n, if |table| >= n && table != [] then table[1..] else table, Info(m.topic, 1, m));
    }
  }

  lemma {:induction false} TableInv(history: seq<Message>, n: nat)
    requires n > 0
    ensures Inv(history, n, Table(history, n))
    decreases |history|
  {
    hide Record, Inv;
    if history == [] {
      EmptyInv(n);
    } else {
      var past, m := history[..|history| - 1], history[|history| - 1];
      TableInv(past, n);
      RecordKeepsInv(past, m, n, Table(past, n));
      assert past + [m] == history;
    }
  }

  lemma EmptyInv(n: nat)
    ensures Inv([], n, [])
  {
  }

  lemma LaterIsAfter(history: seq<Message>, topic: string, other: string)
    requires topic in TopicsIn(history) && other in Later(history, topic)
    ensures other in TopicsIn(history) && Last(history, topic) < Last(history, other)
  {
    var after := history[Last(history, topic) + 1..];
    var m :| m in after && m.topic == other;
    var j :| 0 <= j < |after| && after[j] == m;
    assert history[Last(history, topic) + 1 + j] == m && m in history;
  }

  /** The table names the `n` topics heard of most recently, in the order of their last arrivals. */
  lemma {:induction false} TableIsMostRecent(history: seq<Message>, n: nat)
    requires n > 0
    ensures var table := Table(history, n);
      && Distinct(table) && Names(table) <= TopicsIn(history)
      && |table| == (if |TopicsIn(history)| < n then |TopicsIn(history)| else n)
      && (forall i, j :: 0 <= i < j < |table| ==> Last(history, table[i].topic) < Last(history, table[j].topic))
      && (forall t, e :: t in TopicsIn(history) && t !in Names(table) && e in table ==> Last(history, t) < Last(history, e.topic))
  {
    hide Later, Last, TopicsIn, Record;
    var table := Table(history, n);
    TableInv(history, n);
    NamesAreHeard(history, n, table);
    NamesCount(table);
    SubsetCount(Names(table), TopicsIn(history));
    if |table| < n {
      assert TopicsIn(history) == Names(table);
    }
    forall i, j | 0 <= i < j < |table| ensures Last(history, table[i].topic) < Last(history, table[j].topic) {
      EntryIs(history, n, table, i);
      assert table[j] == table[i + 1..][j - i - 1];
      InNames(table[i + 1..], j - i - 1);
      LaterIsAfter(history, table[i].topic, table[j].topic);
    }
    forall t, e | t in TopicsIn(history) && t !in Names(table) && e in table ensures Last(history, t) < Last(history, e.topic) {
      LaterIsAfter(history, t, e.topic);
    }
  }

  /** An entry survives exactly while fewer than `n` distinct other topics were heard of since; it holds the
  topic's latest message and counts the arrivals of its unbroken chain. */
  lemma {:induction false} EntriesAreChains(history: seq<Message>, n: nat, topic: string)
    requires n > 0 && topic in TopicsIn(history)
    ensures var table := Table(history, n);
      && (topic in Names(table) <==> |Later(history, topic)| < n)
      && (topic in Names(table) ==>
            Info(topic, Chain(history[..Last(history, topic) + 1], n), history[Last(history, topic)]) in table)
  {
    hide Later, Last, TopicsIn, Record, Chain, Inv, Names, Table, IndexOf;
    var table := Table(history, n);
    TableInv(history, n);
    KnownTopics(history, n, table, topic);
    IndexFinds(table, topic);
    if topic in Names(table) {
      var e := table[IndexOf(table, topic)];
      EntryIs(history, n, table, IndexOf(table, topic));
      assert e == Info(topic, Chain(history[..Last(history, topic) + 1], n), history[Last(history, topic)]);
    }
  }

  /** What the table says of one topic. */
  lemma InfoIs(history: seq<Message>, n: nat, table: seq<Info>, topic: string)
    requires n > 0 && table == Table(history, n)
    ensures var i := IndexOf(table, topic);
      if topic in TopicsIn(history) && |Later(history, topic)| < n then
        i < |table| && table[i].count == Chain(history[..Last(history, topic) + 1], n) && table[i].last == history[Last(history, topic)]
      else i == |table|
  {
    hide Table, Chain, Later, Last, TopicsIn, IndexOf, Names;
    var i := IndexOf(table, topic);
    IndexFinds(table, topic);
    TableInv(history, n);
    NamesAreHeard(history, n, table);
    if topic in TopicsIn(history) {
      KnownTopics(history, n, table, topic);
    }
    if i < |table| {
      EntryIs(history, n, table, i);
    }
  }

  /** No packet of a granted subscription that is within the limit is missed by the statistics. */
  lemma GrantedPacketsCount(limits: Limits, settings: Settings, filter: string, m: Message)
    requires settings.Valid() && Authorize(filter, settings, true) == Granted
    requires ValidTopic(m.topic) && Matches(filter, m.topic) && |m.payload| <= limits.bytes
    ensures Accepted(limits, settings, m)
  {
    hide Authorize, Matches, ValidTopic;
    TopicTheorems.GrantedSubscriptionIsDeliverable(filter, m.topic, settings);
  }

  /** A message within the limit, on a proper topic that an allow rule matches and no block rule does. */
  ghost predicate Permitted(limits: Limits, settings: Settings, m: Message) {
    && |m.payload| <= limits.bytes && ValidTopic(m.topic)
    && (exists i :: 0 <= i < |settings.allowed| && Matches(settings.allowed[i], m.topic))
    && (forall j :: 0 <= j < |settings.blocked| ==> !Matches(settings.blocked[j], m.topic))
  }

  /** The statistics take exactly the permitted messages. */
  lemma {:induction false} AcceptedIsPermitted(limits: Limits, settings: Settings, m: Message)
    requires settings.Valid()
    ensures Accepted(limits, settings, m) <==> Permitted(limits, settings, m)
  {
    hide Authorize, Matches, ValidTopic, Settings.Valid;
    TopicTheorems.PlainGrantIsExact(m.topic, settings);
  }

  // -------------------------------------------------------------- the service object

  /** The statistics of the service; `history` is every message it accepted. */
  class MQTTService {
    const limits: Limits
    const settings: Settings
    var topicStatistics: seq<Info>
    ghost var history: seq<Message>

    ghost predicate Valid()
      reads this
    {
      && limits.Valid() && settings.Valid() && topicStatistics == Table(history, limits.queue)
      && forall m :: m in history ==> Permitted(limits, settings, m)
    }

    constructor (limits: Limits, settings: Settings)
      requires limits.Valid() && settings.Valid()
      ensures Valid() && this.limits == limits && this.settings == settings && history == []
    {
      this.limits, this.settings := limits, settings;
      topicStatistics, history := [], [];
    }

    /** `handle_message`. */
    method HandleMessage(message: Message)
      requires Valid()
      modifies this
      ensures Valid()
      ensures history == if Permitted(limits, settings, message) then old(history) + [message] else old(history)
    {
      hide Authorize, Permitted, Settings.Valid;
      AcceptedIsPermitted(limits, settings, message);
      if |message.payload| > limits.bytes {
        return;
      }
      if Authorize(message.topic, settings, false) != Granted {
        return;
      }
      ghost var before := topicStatistics;
      var i := IndexOf(topicStatistics, message.topic);
      var count := 1;
      if i < |topicStatistics| {
        count := topicStatistics[i].count + 1;
        topicStatistics := topicStatistics[..i] + topicStatistics[i + 1..];
      } else if |topicStatistics| >= limits.queue {
        TableInv(history, limits.queue);
        topicStatistics := topicStatistics[1..];
      }
      topicStatistics := topicStatistics + [Info(message.topic, count, message)];
      assert topicStatistics == Record(before, message, limits.queue);
      assert (history + [message])[..|history|] == history;
      history := history + [message];
    }

    /** `get_topic_info`: refused, or the arrivals counted and the latest message. */
    method GetTopicInfo(topic: string) returns (r: Result<(nat, Option<Message>), Verdict>)
      requires Valid()
      ensures Authorize(topic, settings, true) != Granted ==> r == Err(Authorize(topic, settings, true))
      ensures Authorize(topic, settings, true) == Granted ==>
        r == Ok(if topic in TopicsIn(history) && |Later(history, topic)| < limits.queue
                then (Chain(history[..Last(history, topic) + 1], limits.queue), Some(history[Last(history, topic)]))
                else (0, None))
    {
      hide Authorize, Table, Chain, Later, Last, Permitted, Settings.Valid, TopicsIn, IndexOf;
      var verdict := Authorize(topic, settings, true);
      if verdict != Granted {
        return Err(verdict);
      }
      var i := IndexOf(topicStatistics, topic);
      InfoIs(history, limits.queue, topicStatistics, topic);
      if i < |topicStatistics| {
        return Ok((topicStatistics[i].count, Some(topicStatistics[i].last)));
      }
      return Ok((0, None));
    }
  }
}
