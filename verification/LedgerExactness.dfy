/** What one undisturbed request answers in any reachable state, told by the ledger's content alone. */
module LedgerExactness {
  import opened Text
  import opened Wrappers
  import opened Plans
  import opened Projections
  import opened Ledger
  import opened LedgerProtocol
  import opened LedgerClient

  // --------------------------------------------------------------- what a run can read

  /** The reader accepts the remote's ledger file, or finds neither file nor branch. */
  ghost predicate Readable(size: State -> nat, r: Remote) {
    if r.file.Some? then size(r.file.value) <= 4_000_000 else !r.branch
  }

  lemma {:induction false} ReadingIsExact(size: State -> nat, ops: seq<Op>)
    ensures var r := Run(size, ops).remote;
      && (Read(size, r).Some? <==> Readable(size, r))
      && (r.file.Some? ==> r.branch)
      && (Read(size, r).Some? ==> Read(size, r).value == Current(r.file))
      && (r.file.None? ==> Current(r.file) == State(1, 0, 0, map[]))
  {
    ReachableInv(size, ops);
    LedgerIsSane(size, ops);
  }

  /** The reader on any remote: it accepts a file within the size limit whose numbers are in order and whose records,
  under positive run numbers, hold valid plans with numbers up to the counter; or it finds neither file nor branch. */
  lemma {:induction false} AcceptedIsReadable(size: State -> nat, r: Remote)
    ensures Read(size, r).Some? <==>
      if r.file.Some? then
        var l := r.file.value;
        && size(l) <= 4_000_000 && l.schema == 1 && 0 <= l.floor <= l.counter
        && forall run :: run in l.plans ==>
          && run >= 1 && ValidPlan(l.plans[run].plan)
          && l.plans[run].plan.build.Some? && l.plans[run].plan.build.value <= l.counter
      else !r.branch
    ensures Read(size, r).Some? ==> Read(size, r).value == (if r.file.Some? then r.file.value else State(1, 0, 0, map[]))
  {
    hide ValidPlan;
    if r.file.Some? {
      var l := r.file.value;
      assert Valid(l) ==> forall run :: run in l.plans ==> ValidRecord(run, l.plans[run], l.counter);
    }
  }

  // ---------------------------------------------------------------------- publication

  /** A published stable release stands in the way of number n; `same` if its own number does so too. */
  ghost predicate StableInTheWay(l: State, published: set<string>, n: int, same: bool) {
    exists run :: run in l.plans && l.plans[run].plan.channel == Stable && l.plans[run].plan.tag in published
                  && l.plans[run].plan.build.Some? && (l.plans[run].plan.build.value > n || (same && l.plans[run].plan.build.value == n))
  }

  lemma ScanIsStable(l: State, published: set<string>, plan: Plan)
    requires Sane(l) && plan.build.Some?
    ensures (exists run :: run in l.plans && l.plans[run].plan.channel == Stable && l.plans[run].plan.tag in published
              && BuildOf(l.plans[run].plan) >= BuildOf(plan)) <==> StableInTheWay(l, published, plan.build.value, true)
    ensures (exists run :: run in l.plans && l.plans[run].plan.channel == Stable && l.plans[run].plan.tag in published
              && BuildOf(l.plans[run].plan) > BuildOf(plan)) <==> StableInTheWay(l, published, plan.build.value, false)
  {
    hide ValidPlan, NightlyNamesRun, Apart;
    assert forall run :: run in l.plans ==> ValidRecord(run, l.plans[run], l.counter);
  }

  /** A reserved plan of one ledger is reserved once. */
  lemma ReservedOnce(l: State, run: int)
    requires Sane(l) && run in l.plans
    ensures UniquelyReserved(l, l.plans[run].plan)
    ensures ValidPlan(l.plans[run].plan) && l.plans[run].plan.build.Some?
  {
    hide NightlyNamesRun;
    var plan := l.plans[run].plan;
    assert ValidRecord(run, l.plans[run], l.counter);
    forall other | other in l.plans && l.plans[other].plan == plan ensures other == run {
      assert other != run ==> Apart(l.plans[other].plan, plan);
    }
  }

  /** In every reachable state a promotion is granted exactly for a reserved candidate whose bytes may be promoted,
  that is published, whose number is the last one consumed, and that no published stable release has passed. */
  lemma {:induction false} PromotionIsExact(size: State -> nat, ops: seq<Op>, pub: Publication)
    requires pub.promotion
    ensures var s := Run(size, ops); var l := Current(s.remote.file);
      BeginAlone(size, s.remote, pub).1 <==>
        && Readable(size, s.remote) && pub.run > 0
        && pub.plan.channel == RC && pub.plan.promotion == PromoteBytes
        && (exists run :: run in l.plans && l.plans[run].plan == pub.plan)
        && pub.plan.tag in s.remote.published
        && pub.plan.build == Some(LastOrZero(Consumed(s.log)))
        && !StableInTheWay(l, s.remote.published, LastOrZero(Consumed(s.log)), false)
    ensures var s := Run(size, ops);
      BeginAlone(size, s.remote, pub).1 ==> BeginAlone(size, s.remote, pub).0 == s.remote
  {
    hide ValidPlan, UniquelyReserved, NewerThanCandidate, Sane, Valid, Consumed, StableInTheWay;
    ReachableInv(size, ops);
    ReadingIsExact(size, ops);
    NumbersAreConsumedOnce(size, ops);
    var s := Run(size, ops);
    var l := Current(s.remote.file);
    ScansOnlyStopForStable(size, ops, pub);
    if pub.plan.build.Some? {
      ScanIsStable(l, s.remote.published, pub.plan);
    }
    if MayPromote(l, s.remote.published, pub) {
      PromotionKeepsFloor(l, s.remote.published, s.remote.published, pub);
      UniqueIsReserved(l, pub.plan);
    }
    if run :| run in l.plans && l.plans[run].plan == pub.plan {
      ReservedOnce(l, run);
    }
  }

  lemma UniqueIsReserved(l: State, plan: Plan)
    requires UniquelyReserved(l, plan)
    ensures exists run :: run in l.plans && l.plans[run].plan == plan
  {
  }

  /** In every reachable state any other publication is granted exactly to the run that reserved this plan, with this
  parent, if its number is above every number consumed and no published stable release has it or has passed it. */
  lemma {:induction false} PublicationIsExact(size: State -> nat, ops: seq<Op>, pub: Publication)
    requires !pub.promotion
    ensures var s := Run(size, ops); var l := Current(s.remote.file);
      BeginAlone(size, s.remote, pub).1 <==>
        && Readable(size, s.remote) && pub.run > 0
        && pub.run in l.plans && l.plans[pub.run].plan == pub.plan && l.plans[pub.run].parent == pub.parent
        && pub.plan.build.Some? && pub.plan.build.value > LastOrZero(Consumed(s.log))
        && !StableInTheWay(l, s.remote.published, pub.plan.build.value, true)
    ensures var s := Run(size, ops); var l := Current(s.remote.file);
      BeginAlone(size, s.remote, pub).1 ==>
        && pub.plan.build.Some?
        && BeginAlone(size, s.remote, pub).0 ==
             Remote(true, Some(State(1, l.counter, pub.plan.build.value, l.plans)), s.remote.tags, s.remote.published)
  {
    hide ValidPlan, NewerPublished, Sane, Consumed, StableInTheWay;
    ReachableInv(size, ops);
    ReadingIsExact(size, ops);
    NumbersAreConsumedOnce(size, ops);
    var s := Run(size, ops);
    var l := Current(s.remote.file);
    ScansOnlyStopForStable(size, ops, pub);
    if pub.plan.build.Some? {
      ScanIsStable(l, s.remote.published, pub.plan);
    }
    if pub.run in l.plans {
      ReservedOnce(l, pub.run);
      assert l.plans[pub.run] == Reservation(l.plans[pub.run].plan, l.plans[pub.run].parent);
    }
    assert Sane(l) ==> l.schema == 1 by { SchemaIsOne(l); }
  }

  lemma SchemaIsOne(l: State)
    ensures Sane(l) ==> l.schema == 1 && l.counter >= 0
  {
  }

  ghost predicate HoldOne(l: State, plan: Plan) {
    |set run | run in l.plans && l.plans[run].plan == plan| == 1
  }

  lemma {:induction false} UniqueIsOne(l: State, plan: Plan)
    ensures UniquelyReserved(l, plan) <==> HoldOne(l, plan)
  {
    var runs := set run | run in l.plans && l.plans[run].plan == plan;
    if UniquelyReserved(l, plan) {
      var run :| run in l.plans && l.plans[run].plan == plan
        && forall other :: other in l.plans && l.plans[other].plan == plan ==> other == run;
      assert runs == {run};
    }
    if |runs| == 1 {
      var run := Pick(runs);
      assert |runs - {run}| == 0;
      assert runs == {run};
      assert forall other :: other in l.plans && l.plans[other].plan == plan ==> other in runs;
    }
  }

  /** The number of a published plan other than the candidate itself. */
  ghost predicate PublishedNumber(l: State, published: set<string>, n: int, except: Option<string>) {
    exists run :: run in l.plans && l.plans[run].plan.tag in published && Some(l.plans[run].plan.tag) != except
                  && l.plans[run].plan.build == Some(n)
  }

  lemma PublishedRun(l: State, published: set<string>, run: int, except: Option<string>)
    requires Valid(l) && run in l.plans && l.plans[run].plan.tag in published && Some(l.plans[run].plan.tag) != except
    ensures l.plans[run].plan.build.Some? && BuildOf(l.plans[run].plan) == l.plans[run].plan.build.value
    ensures PublishedNumber(l, published, l.plans[run].plan.build.value, except)
  {
    hide ValidPlan;
    assert ValidRecord(run, l.plans[run], l.counter);
  }

  lemma {:induction false} ScansFindNumbers(l: State, published: set<string>, plan: Plan)
    requires Valid(l) && plan.build.Some?
    ensures NewerPublished(l, published, plan) <==> exists n :: n >= plan.build.value && PublishedNumber(l, published, n, None)
    ensures NewerThanCandidate(l, published, plan) <==>
      exists n :: n > plan.build.value && PublishedNumber(l, published, n, Some(plan.tag))
  {
    hide Valid;
    if NewerPublished(l, published, plan) {
      var run :| run in l.plans && l.plans[run].plan.tag in published && BuildOf(l.plans[run].plan) >= BuildOf(plan);
      PublishedRun(l, published, run, None);
    }
    if NewerThanCandidate(l, published, plan) {
      var run :| run in l.plans && l.plans[run].plan.tag != plan.tag && l.plans[run].plan.tag in published
                 && BuildOf(l.plans[run].plan) > BuildOf(plan);
      PublishedRun(l, published, run, Some(plan.tag));
    }
  }

  /** The same on any remote, reachable or not: a promotion needs exactly one reservation of its plan, any other
  publication its own run's, and neither may come after a published number in its way. */
  lemma {:induction false} BeginningIsExact(size: State -> nat, r: Remote, pub: Publication)
    requires Read(size, r).Some? && pub.run > 0 && r.branch && ValidPlan(pub.plan) && pub.plan.build.Some?
    ensures var l, n := Read(size, r).value, pub.plan.build.value;
      pub.promotion ==> (BeginAlone(size, r, pub).1 <==>
        && pub.plan.channel == RC && pub.plan.promotion == PromoteBytes && pub.plan.tag in r.published
        && HoldOne(l, pub.plan) && n >= l.floor
        && !exists m :: m > n && PublishedNumber(l, r.published, m, Some(pub.plan.tag)))
    ensures var l, n := Read(size, r).value, pub.plan.build.value;
      !pub.promotion ==> (BeginAlone(size, r, pub).1 <==>
        && pub.run in l.plans && l.plans[pub.run] == Reservation(pub.plan, pub.parent) && n > l.floor
        && !exists m :: m >= n && PublishedNumber(l, r.published, m, None))
  {
    hide ValidPlan, Valid, NewerPublished, NewerThanCandidate, UniquelyReserved, HoldOne, PublishedNumber;
    var l := Read(size, r).value;
    assert Valid(l) by { ReadIsValid(size, r); }
    ScansFindNumbers(l, r.published, pub.plan);
    UniqueIsOne(l, pub.plan);
  }

  lemma ReadIsValid(size: State -> nat, r: Remote)
    requires Read(size, r).Some?
    ensures Valid(Read(size, r).value)
  {
  }

  /** After leave to publish the tag, or the stable name of a promoted candidate, becomes visible to everybody. */
  lemma {:induction false} PublicationIsVisible(size: State -> nat, s: System, a: nat)
    requires At(s, a).Begun?
    ensures var r := Do(size, s, PublishTag(a)).remote; var pub := At(s, a).pub;
      var name := if pub.promotion then "v" + pub.plan.base else pub.plan.tag;
      && r.tags == s.remote.tags + {name} && r.published == s.remote.published + {name}
      && r.file == s.remote.file && r.branch == s.remote.branch
  {
  }

  // ---------------------------------------------------------------------- reservation

  /** A beta or candidate count that somebody has: a visible tag, or a reservation of that base and channel. */
  ghost predicate Taken(l: State, tags: set<string>, base: string, channel: Channel, n: int)
    requires channel == Beta || channel == RC
  {
    || (n >= 0 && (if channel == Beta then "v" + base + "-beta." else "v" + base + "-rc.") + Decimal(n) in tags)
    || exists run :: run in l.plans && l.plans[run].plan.base == base && l.plans[run].plan.channel == channel
                     && l.plans[run].plan.sequence == Count(n)
  }

  ghost predicate IsNextCount(l: State, tags: set<string>, base: string, channel: Channel, n: int)
    requires channel == Beta || channel == RC
  {
    n >= 1 && (forall m :: Taken(l, tags, base, channel, m) ==> m < n) && (n == 1 || Taken(l, tags, base, channel, n - 1))
  }

  lemma {:induction false} ChosenIsNext(l: State, tags: set<string>, req: Request)
    requires req.run > 0 && (req.channel == Beta || req.channel == RC)
    ensures var q := ChooseSequence(l, req, NextSequence(tags, req.base, req.channel));
      q.Count? && IsNextCount(l, tags, req.base, req.channel, q.n)
  {
    hide Decimal, NextSequence;
    var seen := NextSequence(tags, req.base, req.channel);
    var counts := ReservedCounts(l, req.base, req.channel);
    var n := ChooseSequence(l, req, seen).n;
    assert TagPrefix(req.base, req.channel) == if req.channel == Beta then "v" + req.base + "-beta." else "v" + req.base + "-rc.";
    forall m | Taken(l, tags, req.base, req.channel, m) ensures m < n {
      if m >= 0 {
        NextSequenceIsNext(tags, req.base, req.channel, m);
      }
      if run :| run in l.plans && l.plans[run].plan.base == req.base && l.plans[run].plan.channel == req.channel
                && l.plans[run].plan.sequence == Count(m) {
        assert m in counts;
      }
    }
    if n > 1 {
      if n == seen {
        NextSequenceIsNext(tags, req.base, req.channel, 0);
      } else {
        assert n - 1 in counts;
      }
      assert Taken(l, tags, req.base, req.channel, n - 1);
    }
  }

  ghost predicate IsNextNumber(l: State, floor: int, n: int) {
    n > l.counter && n > floor && (n - 1 == l.counter || n - 1 == floor)
  }

  /** The plan is the next one of the request: it says what was asked for, under the next count and the next number. */
  ghost predicate IsNextPlan(l: State, tags: set<string>, req: Request, plan: Plan)
    requires req.run > 0
  {
    && plan.schema == 1 && plan.base == req.base && plan.channel == req.channel
    && plan.source == req.source && plan.policy == req.policy && plan.promotion == req.policy.promotion
    && plan.tag == "v" + plan.version
    && plan.build.Some? && IsNextNumber(l, req.policy.floor, plan.build.value)
    && match req.channel
       case Beta => plan.sequence.Count? && IsNextCount(l, tags, req.base, Beta, plan.sequence.n)
                    && plan.version == req.base + "-beta." + Decimal(plan.sequence.n)
       case RC => plan.sequence.Count? && IsNextCount(l, tags, req.base, RC, plan.sequence.n)
                  && plan.version == req.base + "-rc." + Decimal(plan.sequence.n)
       case Nightly => plan.sequence == Stamp(req.time + "." + Decimal(req.run) + "." + Decimal(req.attempt))
                       && plan.version == req.base + "-nightly." + plan.sequence.s
       case Stable => plan.sequence == NoSequence && plan.version == req.base
  }

  /** A fresh reservation gets the next plan. */
  lemma {:induction false} NewPlanIsNext(l: State, req: Request, tags: set<string>)
    requires req.run > 0 && NewPlan(l, req, NextSequence(tags, req.base, req.channel)).Some?
    ensures IsNextPlan(l, tags, req, NewPlan(l, req, NextSequence(tags, req.base, req.channel)).value)
  {
    hide Decimal, NextSequence, IsNextCount, ReservedCounts, ProjectsAll, ValidPolicy, ThreeNumbers, Fits, Identity;
    if req.channel == Beta || req.channel == RC {
      ChosenIsNext(l, tags, req);
    }
    var plan := NewPlan(l, req, NextSequence(tags, req.base, req.channel)).value;
    IdentityIsExact(req.base, req.channel, plan.sequence);
  }

  /** The policy can be declared: a floor in range, and files selected once each, by nonempty fields. */
  ghost predicate Declarable(policy: Policy) {
    && 0 <= policy.floor <= 2_099_999_999 && policy.files != []
    && forall i :: 0 <= i < |policy.files| ==>
      && (policy.files[i].format.JsonField? ==> |policy.files[i].format.field| > 0)
      && forall j :: 0 <= j < |policy.files| && j != i ==>
        policy.files[j].path != policy.files[i].path || policy.files[j].format != policy.files[i].format
  }

  lemma PolicyIsDeclarable(policy: Policy)
    ensures ValidPolicy(policy) <==> Declarable(policy)
  {
  }

  /** Every declared file can take the plan the request would get. */
  ghost predicate FilesFit(l: State, req: Request) {
    forall d :: d in req.policy.files ==>
      && (d.ecosystem == Pep440 && req.channel == Nightly ==>
            req.attempt < 1_000_000 && req.run * 1_000_000 + req.attempt < 0x1_0000_0000_0000_0000 - 1)
      && (d.kind == AppleBuild ==> l.counter < 99_990_000 && req.policy.floor < 99_990_000)
  }

  /** There is a next plan for the request. */
  ghost predicate Reservable(l: State, req: Request) {
    && Declarable(req.policy) && ThreeNumbers(req.base) && IsCommit(req.source)
    && l.counter < 2_100_000_000
    && (req.channel == Nightly ==> req.attempt > 0 && IsMoment(req.time))
    && FilesFit(l, req)
  }

  lemma {:induction false} StampFits(req: Request)
    requires req.run > 0
    ensures NamesAttempt(NightlyStamp(req.time, req.run, req.attempt), req.run, req.attempt) <==> IsMoment(req.time)
    ensures IsNightlySuffix(NightlyStamp(req.time, req.run, req.attempt)) <==> req.attempt > 0 && IsMoment(req.time)
  {
    hide Split, Decimal, IsMoment, NamesAttempt;
    var s := NightlyStamp(req.time, req.run, req.attempt);
    StampNames(req.time, req.run, req.attempt);
    NightlyStampParts(req.time, req.run, req.attempt);
    forall r: nat, a: nat | NamesAttempt(s, r, a) ensures r == req.run && a == req.attempt && IsMoment(req.time) {
      AttemptSplit(s, r, a);
      var p := [req.time, Decimal(req.run), Decimal(req.attempt)];
      assert p[0] == s[..14] && p[1] == Decimal(r) && p[2] == Decimal(a);
      NumberOfDecimal(r); NumberOfDecimal(a); NumberOfDecimal(req.run); NumberOfDecimal(req.attempt);
    }
  }

  lemma StampNames(time: string, run: nat, attempt: nat)
    ensures IsMoment(time) ==> NamesAttempt(NightlyStamp(time, run, attempt), run, attempt)
  {
    hide IsMoment;
  }

  lemma {:induction false} NextFilesFit(l: State, req: Request, plan: Plan)
    requires req.run > 0 && ValidPlan(plan) && plan.channel == req.channel && plan.build == Some(NextNumber(l, req))
    requires req.channel == Nightly ==> plan.sequence == Stamp(NightlyStamp(req.time, req.run, req.attempt)) && IsMoment(req.time)
    ensures ProjectsAll(plan, req.policy) <==> FilesFit(l, req)
  {
    hide ValidPlan, ProjectedValue, IsMoment, NightlyStamp, NamesAttempt, AttemptFits;
    if req.channel == Nightly {
      StampFits(req);
      NextAttempt(req, plan);
    }
    forall d ensures ProjectedValue(plan, d).Some? <==> Projectable(plan, d) {
      ProjectionExists(plan, d);
    }
    if ProjectsAll(plan, req.policy) {
      forall d | d in req.policy.files ensures Projectable(plan, d) {
        var i :| 0 <= i < |req.policy.files| && req.policy.files[i] == d;
      }
    }
    if FilesFit(l, req) {
      forall i | 0 <= i < |req.policy.files| ensures ProjectedValue(plan, req.policy.files[i]).Some? {
        assert req.policy.files[i] in req.policy.files;
      }
    }
  }

  lemma {:induction false} NextAttempt(req: Request, plan: Plan)
    requires req.run > 0 && ValidPlan(plan) && plan.channel == Nightly
    requires plan.sequence.Stamp? && NamesAttempt(plan.sequence.s, req.run, req.attempt)
    ensures AttemptFits(plan) <==>
      req.attempt < 1_000_000 && req.run * 1_000_000 + req.attempt < 0x1_0000_0000_0000_0000 - 1
  {
    hide ValidPlan, NamesAttempt, Split, Decimal, AttemptFits, NightlyNumber;
    var run, attempt := NightlyAttempt(plan);
    AttemptSplit(plan.sequence.s, req.run, req.attempt);
    AttemptSplit(plan.sequence.s, run, attempt);
    var p := [plan.sequence.s[..14], Decimal(run), Decimal(attempt)];
    assert p[1] == Decimal(req.run) && p[2] == Decimal(req.attempt);
    NumberOfDecimal(run); NumberOfDecimal(attempt); NumberOfDecimal(req.run); NumberOfDecimal(req.attempt);
    NightlyNumberFits(run, attempt);
  }

  /** There is one exactly when the request is well formed, a number is left, and every declared file can take it. */
  lemma {:induction false} NewPlanExists(l: State, req: Request, tags: set<string>)
    requires req.run > 0 && l.counter >= 0
    ensures NewPlan(l, req, NextSequence(tags, req.base, req.channel)).Some? <==> Reservable(l, req)
  {
    hide IsBase, IsSha, IsCommit, IsStamp, IsMoment, ThreeNumbers, NightlyStamp, IsCalendarTime, NextSequence, ReservedCounts,
      ProjectsAll, FilesFit, ValidPolicy, Declarable, Identity, IsNightlySuffix;
    var q := ChooseSequence(l, req, NextSequence(tags, req.base, req.channel));
    PolicyIsDeclarable(req.policy);
    assert ValidPolicy(req.policy) ==> 0 <= req.policy.floor < 2_100_000_000 by { FloorInRange(req.policy); }
    CommitIsSha(req.source);
    IdentityIsExact(req.base, req.channel, q);
    StampFits(req);
    var version := Identity(req.base, req.channel, q);
    if ValidPolicy(req.policy) && version.Some? && IsSha(req.source) && NextNumber(l, req) <= 2_100_000_000 {
      var plan := Plan(1, req.base, version.value, req.channel, q, "v" + version.value, req.source, Some(NextNumber(l, req)),
                       req.policy, req.policy.promotion);
      NextFilesFit(l, req, plan);
    }
  }

  lemma FloorInRange(policy: Policy)
    ensures ValidPolicy(policy) ==> 0 <= policy.floor < 2_100_000_000
  {
  }

  /** Every reserved plan is valid for its own policy and source. */
  ghost predicate Created(l: State) {
    forall run :: run in l.plans ==>
      ValidPlanFor(l.plans[run].plan, l.plans[run].plan.policy, l.plans[run].plan.source)
  }

  lemma {:induction false} NewPlanIsCreated(l: State, req: Request, seen: int)
    requires req.run > 0 && NewPlan(l, req, seen).Some?
    ensures var plan := NewPlan(l, req, seen).value; ValidPlanFor(plan, plan.policy, plan.source)
  {
    hide ValidPlanFor, Identity, ProjectsAll, ValidPolicy, ReservedCounts, NightlyStamp;
    var plan := NewPlan(l, req, seen).value;
    ValidPlansAreCreated(plan, plan.policy, plan.source);
  }

  lemma {:induction false} AtomicKeepsCreated(l: State, c: Commit)
    requires Created(l) && Atomic(l, c).Some?
    ensures Created(Atomic(l, c).value)
  {
    hide ValidPlanFor, NewPlan, MayBegin;
    if c.Reserve? {
      NewPlanIsCreated(l, c.req, c.seen);
    }
  }

  lemma {:induction false} ReservedPlansAreCreated(size: State -> nat, ops: seq<Op>)
    ensures Created(Current(Run(size, ops).remote.file))
  {
    hide Created, Atomic, Do;
    if ops == [] {
      assert Created(EMPTY) by { NothingCreated(); }
    } else {
      var less, op := ops[..|ops| - 1], ops[|ops| - 1];
      ReservedPlansAreCreated(size, less);
      OnlyFreshWritesCommit(size, less, op);
      assert less + [op] == ops;
      var s, s' := Run(size, less), Run(size, ops);
      if s'.log != s.log {
        AtomicKeepsCreated(Current(s.remote.file), s'.log[|s.log|]);
      }
    }
  }

  lemma NothingCreated()
    ensures Created(EMPTY)
  {
  }

  /** What a rerun must ask for again. */
  predicate AsksAgain(record: Reservation, req: Request) {
    && record.plan.base == req.base && record.plan.channel == req.channel && record.parent == req.parent
    && record.plan.source == req.source && record.plan.policy == req.policy
  }

  lemma {:induction false} SameIsAsked(record: Reservation, req: Request)
    requires ValidPlanFor(record.plan, record.plan.policy, record.plan.source)
    ensures SameRequest(record, req) <==> AsksAgain(record, req)
  {
    hide ValidPlanFor;
    ValidPlansAreCreated(record.plan, record.plan.policy, record.plan.source);
  }

  /** In every reachable state a run that holds a reservation gets its plan exactly when it asks for the same release
  again, and changes nothing. */
  lemma {:induction false} RerunIsExact(size: State -> nat, ops: seq<Op>, req: Request)
    requires req.run in Current(Run(size, ops).remote.file).plans
    ensures var r := Run(size, ops).remote; var record := Current(r.file).plans[req.run];
      && ReserveAlone(size, r, req).0 == r
      && ReserveAlone(size, r, req).1 == if Readable(size, r) && AsksAgain(record, req) then Some(record.plan) else None
  {
    hide ValidPlanFor, SameRequest, NewPlan, Sane, AsksAgain;
    ReadingIsExact(size, ops);
    ReservedPlansAreCreated(size, ops);
    LedgerIsSane(size, ops);
    var r := Run(size, ops).remote;
    SameIsAsked(Current(r.file).plans[req.run], req);
    RunIsPositive(Current(r.file), req.run);
  }

  lemma RunIsPositive(l: State, run: int)
    requires Sane(l) && run in l.plans
    ensures run > 0
  {
    hide ValidPlan, NightlyNamesRun;
    assert ValidRecord(run, l.plans[run], l.counter);
  }

  /** The tag of a stable or nightly release is still free; a new count always is. */
  ghost predicate NameIsFree(tags: set<string>, req: Request)
    requires req.run > 0
  {
    && (req.channel == Stable ==> "v" + req.base !in tags)
    && (req.channel == Nightly ==>
          "v" + req.base + "-nightly." + req.time + "." + Decimal(req.run) + "." + Decimal(req.attempt) !in tags)
  }

  lemma NextCountIsFree(l: State, tags: set<string>, base: string, channel: Channel, n: int)
    requires (channel == Beta || channel == RC) && IsNextCount(l, tags, base, channel, n)
    ensures (if channel == Beta then "v" + base + "-beta." else "v" + base + "-rc.") + Decimal(n) !in tags
  {
    hide Decimal;
    assert !Taken(l, tags, base, channel, n);
  }

  lemma {:induction false} NextTagIsFree(l: State, tags: set<string>, req: Request, plan: Plan)
    requires req.run > 0 && IsNextPlan(l, tags, req, plan)
    ensures plan.tag !in tags <==> NameIsFree(tags, req)
  {
    hide Decimal;
    match req.channel
    case Nightly =>
      assert plan.tag == "v" + req.base + "-nightly." + req.time + "." + Decimal(req.run) + "." + Decimal(req.attempt);
    case Beta =>
      assert plan.tag == "v" + req.base + "-beta." + Decimal(plan.sequence.n);
      NextCountIsFree(l, tags, req.base, Beta, plan.sequence.n);
    case RC =>
      assert plan.tag == "v" + req.base + "-rc." + Decimal(plan.sequence.n);
      NextCountIsFree(l, tags, req.base, RC, plan.sequence.n);
    case Stable =>
  }

  /** In every reachable state any other run gets a plan exactly when its request is well formed, a number is left, its
  files can take it and its name is free; it then gets the next plan, and the ledger, with its branch, gains exactly
  this reservation and its number as the counter. */
  lemma {:induction false} ReservationIsExact(size: State -> nat, ops: seq<Op>, req: Request)
    requires req.run !in Current(Run(size, ops).remote.file).plans
    ensures var r := Run(size, ops).remote; var l := Current(r.file);
      var (r', plan) := ReserveAlone(size, r, req);
      && (plan.Some? <==> req.run > 0 && Readable(size, r) && Reservable(l, req) && NameIsFree(r.tags, req))
      && (plan.None? ==> r' == r)
      && (plan.Some? ==>
            && IsNextPlan(l, r.tags, req, plan.value)
            && plan.value.build.Some?
            && r' == Remote(true, Some(State(1, plan.value.build.value, l.floor, l.plans[req.run := Reservation(plan.value, req.parent)])),
                            r.tags, r.published))
  {
    hide NewPlan, NextSequence, Sane, Reservable, NameIsFree, SameRequest, Valid, Readable;
    ReadingIsExact(size, ops);
    LedgerIsSane(size, ops);
    var r := Run(size, ops).remote;
    var l := Current(r.file);
    SchemaIsOne(l);
    if req.run > 0 {
      NewPlanExists(l, req, r.tags);
      var plan := NewPlan(l, req, NextSequence(r.tags, req.base, req.channel));
      if plan.Some? {
        NewPlanIsNext(l, req, r.tags);
        NextTagIsFree(l, r.tags, req, plan.value);
        NumberIsNext(l, req, r.tags);
      }
    }
  }

  lemma NumberIsNext(l: State, req: Request, tags: set<string>)
    requires req.run > 0 && NewPlan(l, req, NextSequence(tags, req.base, req.channel)).Some?
    ensures NewPlan(l, req, NextSequence(tags, req.base, req.channel)).value.build == Some(NextNumber(l, req))
  {
    hide NextSequence, ReservedCounts, Identity, ProjectsAll, ValidPolicy;
  }
}
