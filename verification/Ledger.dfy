/** The version ledger: its content, its validation, and what one request computes from it. */
module Ledger {
  import opened Text
  import opened Wrappers
  import opened Plans

  /** A ledger whose encoding is longer than this can no longer be read. */
  const SIZE_LIMIT := 4_000_000

  /** `now.strftime("%Y%m%d%H%M%S")`. */
  type ClockText = s: string | |s| == 14 && AllDigits(s) witness "20260101000000"

  datatype Reservation = Reservation(plan: Plan, parent: Option<string>)

  datatype State = State(schema: int, counter: int, floor: int, plans: map<int, Reservation>)

  const EMPTY := State(1, 0, 0, map[])

  datatype Request = Request(
    policy: Policy,
    base: string,
    channel: Channel,
    source: string,
    run: int,
    attempt: nat,
    time: ClockText,
    parent: Option<string>)

  datatype Publication = Publication(plan: Plan, run: int, parent: Option<string>, promotion: bool)

  function BuildOf(plan: Plan): int {
    if plan.build.Some? then plan.build.value else 0
  }

  predicate ValidRecord(run: int, record: Reservation, counter: int) {
    run > 0 && ValidPlan(record.plan) && record.plan.build.Some? && record.plan.build.value <= counter
  }

  /** The checks of `read_state` on a decoded ledger. */
  predicate Valid(l: State) {
    && l.schema == 1 && l.counter >= 0 && 0 <= l.floor <= l.counter
    && forall run :: run in l.plans ==> ValidRecord(run, l.plans[run], l.counter)
  }

  // ----------------------------------------------------------------- allocation

  lemma Pick<T>(s: set<T>) returns (x: T)
    requires s != {}
    ensures x in s
  {
    NonEmpty(s);
    x :| x in s;
  }

  lemma {:induction false} MaxExists(s: set<int>)
    requires s != {}
    ensures exists m :: m in s && forall x :: x in s ==> x <= m
  {
    var y := Pick(s);
    var rest := s - {y};
    assert s == rest + {y};
    if rest != {} {
      MaxExists(rest);
      var m :| m in rest && forall x :: x in rest ==> x <= m;
      var top := if y > m then y else m;
      assert top in s && forall x :: x in s ==> x <= top;
    } else {
      assert y in s && forall x :: x in s ==> x <= y;
    }
  }

  /** `max(numbers, default=0)`. */
  function MaxOrZero(s: set<int>): (m: int)
    ensures s == {} ==> m == 0
    ensures s != {} ==> m in s
    ensures forall x :: x in s ==> x <= m
  {
    if s == {} then 0
    else
      MaxExists(s);
      var m :| m in s && forall x :: x in s ==> x <= m;
      m
  }

  /** The beta or RC counts already in the ledger for one base. */
  function ReservedCounts(l: State, base: string, channel: Channel): set<int> {
    set run | run in l.plans && l.plans[run].plan.base == base && l.plans[run].plan.channel == channel
              && l.plans[run].plan.sequence.Count? :: l.plans[run].plan.sequence.n
  }

  function TagPrefix(base: string, channel: Channel): string {
    "v" + base + "-" + ChannelName(channel) + "."
  }

  predicate CountsAs(tag: string, prefix: string) {
    prefix <= tag && PositiveDigits(tag[|prefix|..])
  }

  /** `next_sequence`: one above every count among the visible tags and releases. */
  function NextSequence(tags: set<string>, base: string, channel: Channel): (n: int)
    ensures n > 0
  {
    var prefix := TagPrefix(base, channel);
    var numbers := set tag | tag in tags && CountsAs(tag, prefix) :: Number(tag[|prefix|..]);
    assert forall x :: x in numbers ==> x >= 0;
    MaxOrZero(numbers) + 1
  }

  lemma CountsAsDecimal(prefix: string, n: nat)
    requires n > 0
    ensures CountsAs(prefix + Decimal(n), prefix) && Number((prefix + Decimal(n))[|prefix|..]) == n
  {
    NumberOfDecimal(n);
    assert (prefix + Decimal(n))[|prefix|..] == Decimal(n);
  }

  lemma CountedTag(tag: string, prefix: string)
    requires CountsAs(tag, prefix)
    ensures Number(tag[|prefix|..]) > 0 && tag == prefix + Decimal(Number(tag[|prefix|..]))
  {
    DecimalOfNumber(tag[|prefix|..]);
    assert tag == prefix + tag[|prefix|..];
  }

  /** The next sequence is the first one after every tag there is: no tag has its count or a later one, and the
  count before it, if there is one, is taken. */
  lemma {:induction false} NextSequenceIsNext(tags: set<string>, base: string, channel: Channel, k: nat)
    ensures k >= NextSequence(tags, base, channel) ==> TagPrefix(base, channel) + Decimal(k) !in tags
    ensures NextSequence(tags, base, channel) > 1 ==>
      TagPrefix(base, channel) + Decimal(NextSequence(tags, base, channel) - 1) in tags
  {
    hide TagPrefix, CountsAs, Decimal;
    var prefix := TagPrefix(base, channel);
    var n := NextSequence(tags, base, channel);
    if k >= n && prefix + Decimal(k) in tags {
      CountsAsDecimal(prefix, k);
      NextSequenceBounds(tags, base, channel, prefix + Decimal(k));
    }
    if n > 1 {
      var tag := NextSequenceTaken(tags, base, channel);
      CountedTag(tag, prefix);
    }
  }

  lemma NextSequenceBounds(tags: set<string>, base: string, channel: Channel, tag: string)
    requires tag in tags && CountsAs(tag, TagPrefix(base, channel))
    ensures Number(tag[|TagPrefix(base, channel)|..]) < NextSequence(tags, base, channel)
  {
    hide TagPrefix, Number;
    var prefix := TagPrefix(base, channel);
    var numbers := set t | t in tags && CountsAs(t, prefix) :: Number(t[|prefix|..]);
    assert Number(tag[|prefix|..]) in numbers;
  }

  lemma NextSequenceTaken(tags: set<string>, base: string, channel: Channel) returns (tag: string)
    requires NextSequence(tags, base, channel) > 1
    ensures tag in tags && CountsAs(tag, TagPrefix(base, channel))
    ensures Number(tag[|TagPrefix(base, channel)|..]) == NextSequence(tags, base, channel) - 1
  {
    hide TagPrefix, Number;
    var prefix := TagPrefix(base, channel);
    var numbers := set t | t in tags && CountsAs(t, prefix) :: Number(t[|prefix|..]);
    assert numbers == {} ==> MaxOrZero(numbers) == 0;
    assert MaxOrZero(numbers) in numbers;
    tag :| tag in tags && CountsAs(tag, prefix) && Number(tag[|prefix|..]) == MaxOrZero(numbers);
  }

  function Larger(x: int, y: int): int {
    if x < y then y else x
  }

  /** The sequence of a new plan, given what `next_sequence` saw. */
  function ChooseSequence(l: State, req: Request, seen: int): Sequence
    requires req.run > 0
  {
    match req.channel
    case Beta => Count(Larger(seen, MaxOrZero(ReservedCounts(l, req.base, req.channel)) + 1))
    case RC => Count(Larger(seen, MaxOrZero(ReservedCounts(l, req.base, req.channel)) + 1))
    case Nightly => Stamp(NightlyStamp(req.time, req.run, req.attempt))
    case Stable => NoSequence
  }

  function NextNumber(l: State, req: Request): int {
    Larger(l.counter, req.policy.floor) + 1
  }

  /** The plan a run without a reservation would get. */
  function NewPlan(l: State, req: Request, seen: int): Option<Plan>
    requires req.run > 0
  {
    if req.policy.floor < 0 then None
    else CreatePlan(req.base, req.channel, ChooseSequence(l, req, seen), req.source, req.policy, Some(NextNumber(l, req)))
  }

  function WithPlan(l: State, req: Request, plan: Plan): State {
    l.(counter := NextNumber(l, req), plans := l.plans[req.run := Reservation(plan, req.parent)])
  }

  /** A rerun must ask for exactly what its run reserved. */
  predicate SameRequest(record: Reservation, req: Request) {
    && ValidPlanFor(record.plan, req.policy, req.source)
    && record.plan.base == req.base && record.plan.channel == req.channel
    && record.parent == req.parent
  }

  // ---------------------------------------------------------------- publication

  predicate NewerPublished(l: State, published: set<string>, plan: Plan) {
    exists run :: run in l.plans && l.plans[run].plan.tag in published
                  && BuildOf(l.plans[run].plan) >= BuildOf(plan)
  }

  /** `_verify_reservation` without its scan. */
  predicate MayPublish(l: State, p: Publication) {
    && ValidPlan(p.plan) && p.plan.build.Some? && p.run > 0
    && p.run in l.plans && l.plans[p.run] == Reservation(p.plan, p.parent)
    && p.plan.build.value > l.floor
  }

  predicate NewerThanCandidate(l: State, published: set<string>, plan: Plan) {
    exists run :: run in l.plans && l.plans[run].plan.tag != plan.tag && l.plans[run].plan.tag in published
                  && BuildOf(l.plans[run].plan) > BuildOf(plan)
  }

  predicate UniquelyReserved(l: State, plan: Plan) {
    exists run :: run in l.plans && l.plans[run].plan == plan
                  && forall other :: other in l.plans && l.plans[other].plan == plan ==> other == run
  }

  /** `_verify_promotion_order` without its scan. */
  predicate MayPromote(l: State, published: set<string>, p: Publication) {
    && ValidPlan(p.plan) && p.plan.build.Some? && p.run > 0
    && p.plan.channel == RC && p.plan.promotion == PromoteBytes
    && UniquelyReserved(l, p.plan)
    && p.plan.build.value >= l.floor
    && p.plan.tag in published
  }

  predicate MayBegin(l: State, published: set<string>, p: Publication) {
    if p.promotion then MayPromote(l, published, p) && !NewerThanCandidate(l, published, p.plan)
    else MayPublish(l, p) && !NewerPublished(l, published, p.plan)
  }

  function WithFloor(l: State, p: Publication): State {
    l.(floor := BuildOf(p.plan))
  }

  function StableTag(base: string): string {
    "v" + base
  }

  // ------------------------------------------------- what every ledger satisfies

  /** A nightly plan carries the run that reserved it. */
  predicate NightlyNamesRun(run: int, plan: Plan) {
    plan.channel == Nightly ==>
      && plan.sequence.Stamp? && IsStamp(plan.sequence.s)
      && Number(Split('.', plan.sequence.s)[1]) == run
  }

  /** Two reservations never share a build number, nor a tag unless both are stable. */
  predicate Apart(p: Plan, q: Plan) {
    BuildOf(p) != BuildOf(q) && (p.tag == q.tag ==> p.channel == Stable && q.channel == Stable)
  }

  predicate Sane(l: State) {
    && Valid(l)
    && (forall run :: run in l.plans ==>
          NightlyNamesRun(run, l.plans[run].plan) && BuildOf(l.plans[run].plan) > l.plans[run].plan.policy.floor)
    && (forall j, k :: j in l.plans && k in l.plans && j != k ==> Apart(l.plans[j].plan, l.plans[k].plan))
  }

  /** Reservations are kept, and counter and floor never fall. */
  predicate Grows(l: State, l': State) {
    && l.counter <= l'.counter && l.floor <= l'.floor
    && forall run :: run in l.plans ==> run in l'.plans && l'.plans[run] == l.plans[run]
  }

  lemma NewPlanIsApart(l: State, req: Request, seen: int, run: int)
    requires Sane(l) && req.run > 0 && run in l.plans && run != req.run
    requires NewPlan(l, req, seen).Some?
    ensures Apart(NewPlan(l, req, seen).value, l.plans[run].plan)
    ensures Apart(l.plans[run].plan, NewPlan(l, req, seen).value)
  {
    var p, q := NewPlan(l, req, seen).value, l.plans[run].plan;
    assert ValidRecord(run, l.plans[run], l.counter);
    NightlyStampParts(req.time, req.run, req.attempt);
    NumberOfDecimal(req.run);
    assert NightlyNamesRun(run, q);
    if q.base == req.base && q.channel == req.channel && q.sequence.Count? {
      assert q.sequence.n in ReservedCounts(l, req.base, req.channel);
    }
    if p.tag == q.tag {
      TagsNameReleases(p, q);
    }
  }

  lemma ReservingStaysSane(l: State, req: Request, seen: int)
    requires Sane(l) && req.run > 0 && req.run !in l.plans
    requires NewPlan(l, req, seen).Some?
    ensures Sane(WithPlan(l, req, NewPlan(l, req, seen).value))
    ensures Grows(l, WithPlan(l, req, NewPlan(l, req, seen).value))
  {
    hide Split, Apart;
    var plan := NewPlan(l, req, seen).value;
    var l' := WithPlan(l, req, plan);
    if req.channel == Nightly {
      NightlyStampParts(req.time, req.run, req.attempt);
      NumberOfDecimal(req.run);
    }
    forall run | run in l'.plans
      ensures ValidRecord(run, l'.plans[run], l'.counter) && NightlyNamesRun(run, l'.plans[run].plan)
    {
      if run != req.run { assert ValidRecord(run, l.plans[run], l.counter); }
    }
    forall j, k | j in l'.plans && k in l'.plans && j != k ensures Apart(l'.plans[j].plan, l'.plans[k].plan) {
      if j == req.run {
        NewPlanIsApart(l, req, seen, k);
      } else if k == req.run {
        NewPlanIsApart(l, req, seen, j);
      }
    }
  }

  lemma {:induction false} BeginningStaysSane(l: State, published: set<string>, p: Publication)
    requires Sane(l) && MayBegin(l, published, p)
    ensures Sane(WithFloor(l, p)) && Grows(l, WithFloor(l, p))
    ensures exists run :: run in l.plans && l.plans[run].plan == p.plan
  {
    var run := if p.promotion then
      (var r :| r in l.plans && l.plans[r].plan == p.plan; r) else p.run;
    assert ValidRecord(run, l.plans[run], l.counter);
    forall k | k in l.plans ensures ValidRecord(k, l.plans[k], l.counter) {
    }
  }
}
