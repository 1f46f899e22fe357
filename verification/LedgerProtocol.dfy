/** Any number of CI runs against one remote ledger: every request is a step of its own,
and a write takes effect only if the ledger file is still the one the run read. */
module LedgerProtocol {
  import opened Wrappers
  import opened Plans
  import opened Ledger

  /** `tags` are all tags and releases, `published` the releases that are no drafts. */
  datatype Remote = Remote(branch: bool, file: Option<State>, tags: set<string>, published: set<string>)

  /** Where a run stands.  `previous` stands for the blob SHA of the file it read. */
  datatype Local =
    | Idle
    | Failed
    | ReadState(req: Request, ledger: State, previous: Option<State>)
    | Numbered(req: Request, ledger: State, previous: Option<State>, seen: int)
    | Planned(req: Request, ledger: State, previous: Option<State>, seen: int, plan: Plan, branch: bool)
    | Reserved(req: Request, plan: Plan)
    | ReadLedger(pub: Publication, ledger: State, previous: Option<State>)
    | Verified(pub: Publication, ledger: State, previous: Option<State>, published: set<string>)
    | Begun(pub: Publication)

  /** What a successful write did, with the tags its run had seen. */
  datatype Commit =
    | Reserve(req: Request, seen: int, plan: Plan)
    | Begin(pub: Publication, published: set<string>)

  datatype System = System(remote: Remote, runs: map<nat, Local>, log: seq<Commit>)

  datatype Op =
    | StartReserve(a: nat, req: Request)
    | FindSequence(a: nat)
    | MakePlan(a: nat)
    | EnsureBranch(a: nat)
    | WriteReservation(a: nat, reported: bool)
    | StartPublish(a: nat, pub: Publication)
    | Verify(a: nat)
    | WriteFloor(a: nat, reported: bool)
    | PublishTag(a: nat)
    | Crash(a: nat)
    | OtherTags(tags: set<string>)

  const START := System(Remote(false, None, {}, {}), map[], [])

  function Current(file: Option<State>): State {
    if file.Some? then file.value else EMPTY
  }

  function At(s: System, a: nat): Local {
    if a in s.runs then s.runs[a] else Idle
  }

  function Move(s: System, a: nat, local: Local): System {
    s.(runs := s.runs[a := local])
  }

  /** `read_state`; `size` is the length of a ledger's encoding. */
  function Read(size: State -> nat, r: Remote): Option<State> {
    match r.file
    case None => if r.branch then None else Some(EMPTY)
    case Some(l) => if size(l) <= SIZE_LIMIT && Valid(l) then Some(l) else None
  }

  /** `write_state`: GitHub refuses a stale SHA, a missing SHA for an existing file, and a missing branch. */
  function Write(s: System, a: nat, previous: Option<State>, next: State, commit: Commit, done: Local, reported: bool): System {
    if s.remote.branch && s.remote.file == previous then
      Move(s, a, if reported then done else Failed)
        .(remote := s.remote.(file := Some(next)), log := s.log + [commit])
    else Move(s, a, Failed)
  }

  function PublishedName(pub: Publication): string {
    if pub.promotion then StableTag(pub.plan.base) else pub.plan.tag
  }

  /** One step; an operation that does not fit where its run stands changes nothing. */
  function Do(size: State -> nat, s: System, op: Op): System {
    match op
    case StartReserve(a, req) =>
      if !At(s, a).Idle? then s
      else if req.run <= 0 || Read(size, s.remote).None? then Move(s, a, Failed)
      else
        var l := Read(size, s.remote).value;
        if req.run !in l.plans then Move(s, a, ReadState(req, l, s.remote.file))
        else if SameRequest(l.plans[req.run], req) then Move(s, a, Reserved(req, l.plans[req.run].plan))
        else Move(s, a, Failed)
    case FindSequence(a) =>
      var x := At(s, a);
      if !x.ReadState? then s
      else Move(s, a, Numbered(x.req, x.ledger, x.previous, NextSequence(s.remote.tags, x.req.base, x.req.channel)))
    case MakePlan(a) =>
      var x := At(s, a);
      if !x.Numbered? then s
      else if x.req.run <= 0 then s
      else
        var plan := NewPlan(x.ledger, x.req, x.seen);
        if plan.None? || plan.value.tag in s.remote.tags then Move(s, a, Failed)
        else Move(s, a, Planned(x.req, x.ledger, x.previous, x.seen, plan.value, false))
    case EnsureBranch(a) =>
      var x := At(s, a);
      if !x.Planned? then s
      else Move(s, a, x.(branch := true)).(remote := s.remote.(branch := true))
    case WriteReservation(a, reported) =>
      var x := At(s, a);
      if !x.Planned? || !x.branch then s
      else Write(s, a, x.previous, WithPlan(x.ledger, x.req, x.plan), Reserve(x.req, x.seen, x.plan),
                 Reserved(x.req, x.plan), reported)
    case StartPublish(a, pub) =>
      if !At(s, a).Idle? then s
      else if pub.run <= 0 || Read(size, s.remote).None? then Move(s, a, Failed)
      else Move(s, a, ReadLedger(pub, Read(size, s.remote).value, s.remote.file))
    case Verify(a) =>
      var x := At(s, a);
      if !x.ReadLedger? then s
      else if MayBegin(x.ledger, s.remote.published, x.pub) then
        Move(s, a, Verified(x.pub, x.ledger, x.previous, s.remote.published))
      else Move(s, a, Failed)
    case WriteFloor(a, reported) =>
      var x := At(s, a);
      if !x.Verified? then s
      else Write(s, a, x.previous, WithFloor(x.ledger, x.pub), Begin(x.pub, x.published), Begun(x.pub), reported)
    case PublishTag(a) =>
      var x := At(s, a);
      if !x.Begun? then s
      else s.(remote := s.remote.(tags := s.remote.tags + {PublishedName(x.pub)},
                                  published := s.remote.published + {PublishedName(x.pub)}))
    case Crash(a) => Move(s, a, Failed)
    case OtherTags(tags) => s.(remote := s.remote.(tags := s.remote.published + tags))
  }

  /** The state after an interleaving of steps. */
  function Run(size: State -> nat, ops: seq<Op>): System {
    if ops == [] then START else Do(size, Run(size, ops[..|ops| - 1]), ops[|ops| - 1])
  }

  // ------------------------------------------------------- the sequential reading

  /** One request as a single indivisible transition of the ledger, or a refusal. */
  function Atomic(l: State, c: Commit): Option<State> {
    match c
    case Reserve(req, seen, plan) =>
      if req.run > 0 && req.run !in l.plans && NewPlan(l, req, seen) == Some(plan)
      then Some(WithPlan(l, req, plan)) else None
    case Begin(pub, published) =>
      if MayBegin(l, published, pub) then Some(WithFloor(l, pub)) else None
  }

  /** The ledger after the requests of a log, one after another. */
  function Replay(log: seq<Commit>): Option<State> {
    if log == [] then Some(EMPTY)
    else match Replay(log[..|log| - 1])
      case None => None
      case Some(l) => Atomic(l, log[|log| - 1])
  }

  // ------------------------------------------------------------------- invariant

  predicate Covers(l: State, pub: Publication) {
    exists run :: run in l.plans && l.plans[run].plan == pub.plan && BuildOf(pub.plan) <= l.floor
  }

  ghost predicate NamesStable(tag: string) {
    exists base :: IsBase(base) && tag == StableTag(base)
  }

  /** A published tag is a stable name or the tag of a reservation. */
  ghost predicate Accounted(l: State, tag: string) {
    NamesStable(tag) || exists run :: run in l.plans && l.plans[run].plan.tag == tag
  }

  /** Every published nightly, beta or RC has had its number consumed. */
  ghost predicate PublishedBelowFloor(l: State, published: set<string>) {
    && (forall run :: run in l.plans && l.plans[run].plan.tag in published && l.plans[run].plan.channel != Stable ==>
          BuildOf(l.plans[run].plan) <= l.floor)
    && (forall tag :: tag in published ==> Accounted(l, tag))
  }

  /** A snapshot is a ledger that was read: an earlier state of the present one. */
  ghost predicate Snapshot(size: State -> nat, l: State, ledger: State, previous: Option<State>) {
    && ledger == Current(previous)
    && Grows(ledger, l) && Sane(ledger)
    && (previous.Some? ==> size(ledger) <= SIZE_LIMIT)
  }

  ghost predicate LocalInv(size: State -> nat, remote: Remote, x: Local) {
    var l := Current(remote.file);
    match x
    case Idle => true
    case Failed => true
    case ReadState(req, ledger, previous) => Snapshot(size, l, ledger, previous) && req.run > 0 && req.run !in ledger.plans
    case Numbered(req, ledger, previous, seen) => Snapshot(size, l, ledger, previous) && req.run > 0 && req.run !in ledger.plans
    case Planned(req, ledger, previous, seen, plan, branch) =>
      && Snapshot(size, l, ledger, previous) && req.run > 0 && req.run !in ledger.plans
      && NewPlan(ledger, req, seen) == Some(plan)
      && (branch ==> remote.branch)
    case Reserved(req, plan) => req.run in l.plans && l.plans[req.run] == Reservation(plan, req.parent)
    case ReadLedger(pub, ledger, previous) => Snapshot(size, l, ledger, previous)
    case Verified(pub, ledger, previous, published) =>
      Snapshot(size, l, ledger, previous) && published <= remote.published && MayBegin(ledger, published, pub)
    case Begun(pub) => Covers(l, pub)
  }

  ghost predicate RemoteInv(remote: Remote) {
    && Sane(Current(remote.file))
    && (remote.file.Some? ==> remote.branch)
    && PublishedBelowFloor(Current(remote.file), remote.published)
  }

  ghost predicate Inv(size: State -> nat, s: System) {
    && RemoteInv(s.remote)
    && Replay(s.log) == Some(Current(s.remote.file))
    && (s.remote.file.None? ==> s.log == [])
    && forall a :: a in s.runs ==> LocalInv(size, s.remote, s.runs[a])
  }

  // ------------------------------------------------------------ preservation, by parts

  lemma PublishedNamesPlan(l: State, run: int, pub: Publication)
    requires Sane(l) && Covers(l, pub) && run in l.plans
    requires l.plans[run].plan.tag == PublishedName(pub) && l.plans[run].plan.channel != Stable
    ensures BuildOf(l.plans[run].plan) <= l.floor
  {
    var k :| k in l.plans && l.plans[k].plan == pub.plan && BuildOf(pub.plan) <= l.floor;
    var q := l.plans[run].plan;
    assert ValidRecord(k, l.plans[k], l.counter) && ValidRecord(run, l.plans[run], l.counter);
    assert k == run || Apart(l.plans[k].plan, q);
    if pub.promotion {
      StableNameIsNoOther(q, pub.plan.base);
    }
  }

  lemma StableNameIsNoOther(q: Plan, base: string)
    requires ValidPlan(q) && IsBase(base) && q.tag == StableTag(base)
    ensures q.channel == Stable
  {
    assert q.version == q.tag[1..] && base == StableTag(base)[1..];
    assert Identity(base, Stable, NoSequence) == Some(base);
    IdentityIsInjective(q.base, q.channel, q.sequence, base, Stable, NoSequence);
  }

  lemma PublishingKeepsInv(l: State, published: set<string>, pub: Publication)
    requires Sane(l) && Covers(l, pub) && PublishedBelowFloor(l, published)
    ensures PublishedBelowFloor(l, published + {PublishedName(pub)})
  {
    var k :| k in l.plans && l.plans[k].plan == pub.plan;
    assert ValidRecord(k, l.plans[k], l.counter);
    forall run | run in l.plans && l.plans[run].plan.tag in published + {PublishedName(pub)} && l.plans[run].plan.channel != Stable
      ensures BuildOf(l.plans[run].plan) <= l.floor
    {
      if l.plans[run].plan.tag !in published { PublishedNamesPlan(l, run, pub); }
    }
    assert IsBase(pub.plan.base);
    assert Accounted(l, PublishedName(pub)) by {
      if pub.promotion { assert NamesStable(StableTag(pub.plan.base)); }
    }
  }

  lemma ReservingKeepsPublished(l: State, req: Request, seen: int, published: set<string>)
    requires Sane(l) && req.run > 0 && req.run !in l.plans && NewPlan(l, req, seen).Some?
    requires PublishedBelowFloor(l, published)
    ensures PublishedBelowFloor(WithPlan(l, req, NewPlan(l, req, seen).value), published)
  {
    var plan := NewPlan(l, req, seen).value;
    var l' := WithPlan(l, req, plan);
    forall tag | tag in published ensures Accounted(l', tag) {
      assert Accounted(l, tag);
      if !NamesStable(tag) {
        var run :| run in l.plans && l.plans[run].plan.tag == tag;
        assert l'.plans[run].plan.tag == tag;
      }
    }
    if plan.tag in published && plan.channel != Stable {
      assert Accounted(l, plan.tag);
      if NamesStable(plan.tag) {
        var base :| IsBase(base) && plan.tag == StableTag(base);
        StableNameIsNoOther(plan, base);
      } else {
        var run :| run in l.plans && l.plans[run].plan.tag == plan.tag;
        NewPlanIsApart(l, req, seen, run);
      }
    }
    forall run | run in l'.plans && l'.plans[run].plan.tag in published && l'.plans[run].plan.channel != Stable
      ensures BuildOf(l'.plans[run].plan) <= l'.floor
    {
      assert run != req.run;
      assert run in l.plans;
    }
  }

  lemma BeginningKeepsPublished(l: State, pub: Publication, seen: set<string>, published: set<string>)
    requires Sane(l) && MayBegin(l, seen, pub) && PublishedBelowFloor(l, published)
    ensures PublishedBelowFloor(WithFloor(l, pub), published)
    ensures Covers(WithFloor(l, pub), pub)
  {
    BeginningStaysSane(l, seen, pub);
    var k :| k in l.plans && l.plans[k].plan == pub.plan;
    var l' := WithFloor(l, pub);
    assert k in l'.plans && l'.plans[k].plan == pub.plan;
    forall tag | tag in published ensures Accounted(l', tag) {
      assert Accounted(l, tag);
      if !NamesStable(tag) {
        var run :| run in l.plans && l.plans[run].plan.tag == tag;
        assert l'.plans[run].plan.tag == tag;
      }
    }
  }

  /** What a run knows stays true while the remote only grows. */
  lemma LocalInvGrows(size: State -> nat, r: Remote, r': Remote, x: Local)
    requires LocalInv(size, r, x)
    requires Grows(Current(r.file), Current(r'.file)) && (r.branch ==> r'.branch) && r.published <= r'.published
    ensures LocalInv(size, r', x)
  {
    match x
    case Reserved(req, plan) =>
    case Begun(pub) =>
      var l, l' := Current(r.file), Current(r'.file);
      var run :| run in l.plans && l.plans[run].plan == pub.plan && BuildOf(pub.plan) <= l.floor;
      assert l'.plans[run].plan == pub.plan;
    case _ =>
  }

  lemma MoveKeepsInv(size: State -> nat, s: System, r: Remote, a: nat, x: Local)
    requires Inv(size, s)
    requires RemoteInv(r) && r.file == s.remote.file && (s.remote.branch ==> r.branch) && s.remote.published <= r.published
    requires LocalInv(size, r, x)
    ensures Inv(size, Move(s, a, x).(remote := r))
  {
    forall b | b in s.runs ensures LocalInv(size, r, s.runs[b]) {
      LocalInvGrows(size, s.remote, r, s.runs[b]);
    }
  }

  lemma CommitKeepsInv(size: State -> nat, s: System, a: nat, commit: Commit, next: State, x: Local)
    requires Inv(size, s) && s.remote.branch
    requires Atomic(Current(s.remote.file), commit) == Some(next)
    requires LocalInv(size, s.remote.(file := Some(next)), x)
    ensures Grows(Current(s.remote.file), next)
    ensures Inv(size, Move(s, a, x).(remote := s.remote.(file := Some(next)), log := s.log + [commit]))
  {
    var l := Current(s.remote.file);
    match commit {
      case Reserve(req, seen, plan) =>
        ReservingStaysSane(l, req, seen);
        ReservingKeepsPublished(l, req, seen, s.remote.published);
      case Begin(pub, published) =>
        BeginningStaysSane(l, published, pub);
        BeginningKeepsPublished(l, pub, published, s.remote.published);
    }
    var r := s.remote.(file := Some(next));
    assert (s.log + [commit])[..|s.log|] == s.log;
    forall b | b in s.runs ensures LocalInv(size, r, s.runs[b]) {
      LocalInvGrows(size, s.remote, r, s.runs[b]);
    }
  }

  lemma ReadIsSnapshot(size: State -> nat, s: System)
    requires Inv(size, s) && Read(size, s.remote).Some?
    ensures Snapshot(size, Current(s.remote.file), Read(size, s.remote).value, s.remote.file)
    ensures Read(size, s.remote).value == Current(s.remote.file)
  {
  }

  lemma WriteReservationKeepsInv(size: State -> nat, s: System, a: nat, reported: bool)
    requires Inv(size, s)
    ensures Inv(size, Do(size, s, WriteReservation(a, reported)))
  {
    var x := At(s, a);
    if x.Planned? && x.branch {
      var next := WithPlan(x.ledger, x.req, x.plan);
      assert LocalInv(size, s.remote, x);
      if s.remote.file == x.previous {
        CommitKeepsInv(size, s, a, Reserve(x.req, x.seen, x.plan), next, if reported then Reserved(x.req, x.plan) else Failed);
      } else {
        MoveKeepsInv(size, s, s.remote, a, Failed);
      }
    }
  }

  lemma WriteFloorKeepsInv(size: State -> nat, s: System, a: nat, reported: bool)
    requires Inv(size, s)
    ensures Inv(size, Do(size, s, WriteFloor(a, reported)))
  {
    hide Valid, Sane, Replay, Grows;
    var x := At(s, a);
    if x.Verified? {
      assert LocalInv(size, s.remote, x);
      if s.remote.branch && s.remote.file == x.previous {
        BeginningKeepsPublished(x.ledger, x.pub, x.published, s.remote.published);
        CommitKeepsInv(size, s, a, Begin(x.pub, x.published), WithFloor(x.ledger, x.pub), if reported then Begun(x.pub) else Failed);
      } else {
        MoveKeepsInv(size, s, s.remote, a, Failed);
      }
    }
  }

  lemma ReserveStepKeepsInv(size: State -> nat, s: System, op: Op)
    requires Inv(size, s) && (op.StartReserve? || op.FindSequence? || op.MakePlan?)
    ensures Inv(size, Do(size, s, op))
  {
    hide Valid, Sane, Replay, Snapshot, MayBegin, NewPlan;
    match op
    case StartReserve(a, req) =>
      if At(s, a).Idle? {
        if req.run > 0 && Read(size, s.remote).Some? { ReadIsSnapshot(size, s); }
        MoveKeepsInv(size, s, s.remote, a, Do(size, s, op).runs[a]);
      }
    case FindSequence(a) =>
      if At(s, a).ReadState? { MoveKeepsInv(size, s, s.remote, a, Do(size, s, op).runs[a]); }
    case MakePlan(a) =>
      if At(s, a).Numbered? && At(s, a).req.run > 0 { MoveKeepsInv(size, s, s.remote, a, Do(size, s, op).runs[a]); }
    case _ =>
  }

  lemma {:induction false} StepKeepsInv(size: State -> nat, s: System, op: Op)
    requires Inv(size, s)
    ensures Inv(size, Do(size, s, op))
  {
    hide Valid, Sane, Replay, Snapshot, MayBegin, NewPlan;
    match op
    case WriteReservation(a, reported) => WriteReservationKeepsInv(size, s, a, reported);
    case EnsureBranch(a) =>
      if At(s, a).Planned? {
        MoveKeepsInv(size, s, s.remote.(branch := true), a, At(s, a).(branch := true));
      }
    case StartPublish(a, pub) =>
      if At(s, a).Idle? {
        if pub.run > 0 && Read(size, s.remote).Some? { ReadIsSnapshot(size, s); }
        MoveKeepsInv(size, s, s.remote, a, Do(size, s, op).runs[a]);
      }
    case Verify(a) =>
      if At(s, a).ReadLedger? { MoveKeepsInv(size, s, s.remote, a, Do(size, s, op).runs[a]); }
    case WriteFloor(a, reported) => WriteFloorKeepsInv(size, s, a, reported);
    case PublishTag(a) => PublishKeepsInv(size, s, a);
    case Crash(a) => MoveKeepsInv(size, s, s.remote, a, Failed);
    case OtherTags(tags) =>
      forall b | b in s.runs ensures LocalInv(size, Do(size, s, op).remote, s.runs[b]) {
        LocalInvGrows(size, s.remote, Do(size, s, op).remote, s.runs[b]);
      }
    case _ => ReserveStepKeepsInv(size, s, op);
  }

  lemma PublishKeepsInv(size: State -> nat, s: System, a: nat)
    requires Inv(size, s)
    ensures Inv(size, Do(size, s, PublishTag(a)))
  {
    hide Valid, Sane, Replay, Snapshot;
    var x := At(s, a);
    if x.Begun? {
      PublishingKeepsInv(Current(s.remote.file), s.remote.published, x.pub);
      var r := Do(size, s, PublishTag(a)).remote;
      MoveKeepsInv(size, s, r, a, x);
      assert Move(s, a, x) == s by { assert s.runs[a := x] == s.runs; }
    }
  }

  /** Every reachable state satisfies the invariant. */
  lemma {:induction false} ReachableInv(size: State -> nat, ops: seq<Op>)
    ensures Inv(size, Run(size, ops))
  {
    if ops != [] {
      ReachableInv(size, ops[..|ops| - 1]);
      StepKeepsInv(size, Run(size, ops[..|ops| - 1]), ops[|ops| - 1]);
    }
  }

  // ==================================================================== main results

  predicate IsWrite(op: Op) {
    op.WriteReservation? || op.WriteFloor?
  }

  /** Only a write on the very file its run read changes the ledger, and then by one atomic request. */
  lemma OnlyFreshWritesCommit(size: State -> nat, ops: seq<Op>, op: Op)
    ensures var s, s' := Run(size, ops), Run(size, ops + [op]);
      if s'.log == s.log then s'.remote.file == s.remote.file
      else
        && IsWrite(op) && (At(s, op.a).Planned? || At(s, op.a).Verified?) && At(s, op.a).previous == s.remote.file
        && |s'.log| == |s.log| + 1 && s'.log[..|s.log|] == s.log
        && s'.remote.file == Atomic(Current(s.remote.file), s'.log[|s.log|])
        && s'.remote.file.Some?
  {
    assert (ops + [op])[..|ops|] == ops;
    ReachableInv(size, ops);
    var s := Run(size, ops);
    if IsWrite(op) {
      assert op.a in s.runs ==> LocalInv(size, s.remote, s.runs[op.a]);
    }
  }

  /** Numbers are pairwise distinct, above the policy floor and at most the counter; nightly, beta and
  RC tags are pairwise distinct; the ledger read_state will see passes its checks. */
  lemma LedgerIsSane(size: State -> nat, ops: seq<Op>)
    ensures Sane(Current(Run(size, ops).remote.file))
    ensures Run(size, ops).remote.file.Some? ==>
      (Read(size, Run(size, ops).remote).Some? <==> size(Run(size, ops).remote.file.value) <= SIZE_LIMIT)
  {
    ReachableInv(size, ops);
  }

  lemma RunLast(size: State -> nat, ops: seq<Op>, more: seq<Op>)
    requires more != []
    ensures Run(size, ops + more) == Do(size, Run(size, ops + more[..|more| - 1]), more[|more| - 1])
  {
    hide Do;
    assert (ops + more)[..|ops + more| - 1] == ops + more[..|more| - 1];
  }

  lemma ReservationGrows(size: State -> nat, s: System, a: nat, reported: bool)
    requires Inv(size, s)
    ensures Grows(Current(s.remote.file), Current(Do(size, s, WriteReservation(a, reported)).remote.file))
  {
    hide Valid, Sane, Replay, Grows;
    GrowsItself(Current(s.remote.file));
    var x := At(s, a);
    if x.Planned? {
      assert LocalInv(size, s.remote, x);
      ReservingStaysSane(x.ledger, x.req, x.seen);
    }
  }

  lemma FloorGrows(size: State -> nat, s: System, a: nat, reported: bool)
    requires Inv(size, s)
    ensures Grows(Current(s.remote.file), Current(Do(size, s, WriteFloor(a, reported)).remote.file))
  {
    hide Valid, Sane, Replay, Grows;
    GrowsItself(Current(s.remote.file));
    var x := At(s, a);
    if x.Verified? {
      assert LocalInv(size, s.remote, x);
      BeginningStaysSane(x.ledger, x.published, x.pub);
    }
  }

  lemma GrowsItself(l: State)
    ensures Grows(l, l)
  {
  }

  lemma StepGrows(size: State -> nat, s: System, op: Op)
    requires Inv(size, s)
    ensures Grows(Current(s.remote.file), Current(Do(size, s, op).remote.file))
  {
    hide Inv, Valid, Sane, Replay, Grows, NewPlan, MayBegin, SameRequest;
    GrowsItself(Current(s.remote.file));
    match op
    case WriteReservation(a, reported) => ReservationGrows(size, s, a, reported);
    case WriteFloor(a, reported) => FloorGrows(size, s, a, reported);
    case _ =>
  }

  /** Over any continuation no reservation changes and neither counter nor floor falls. */
  lemma {:induction false} LedgerOnlyGrows(size: State -> nat, ops: seq<Op>, more: seq<Op>)
    ensures Grows(Current(Run(size, ops).remote.file), Current(Run(size, ops + more).remote.file))
  {
    if more == [] {
      assert ops + more == ops;
    } else {
      var less := more[..|more| - 1];
      LedgerOnlyGrows(size, ops, less);
      RunLast(size, ops, more);
      ReachableInv(size, ops + less);
      StepGrows(size, Run(size, ops + less), more[|more| - 1]);
    }
  }

  /** A rerun of a run that holds a reservation gets exactly that plan, or is refused for asking for another one. */
  lemma RerunReturnsItsPlan(size: State -> nat, ops: seq<Op>, more: seq<Op>, a: nat, req: Request)
    requires req.run in Current(Run(size, ops).remote.file).plans && req.run > 0
    requires At(Run(size, ops + more), a).Idle?
    ensures var record := Current(Run(size, ops).remote.file).plans[req.run];
      var s, s' := Run(size, ops + more), Run(size, ops + more + [StartReserve(a, req)]);
      && s'.remote == s.remote
      && s'.runs[a] == if Read(size, s.remote).Some? && SameRequest(record, req) then Reserved(req, record.plan) else Failed
  {
    LedgerOnlyGrows(size, ops, more);
    ReachableInv(size, ops + more);
    assert (ops + more + [StartReserve(a, req)])[..|ops + more|] == ops + more;
  }

  // ------------------------------------------------------------- consumed numbers

  /** The numbers consumed by publications that were no promotions, oldest first. */
  function Consumed(log: seq<Commit>): seq<int> {
    if log == [] then []
    else
      var c := log[|log| - 1];
      Consumed(log[..|log| - 1]) + if c.Begin? && !c.pub.promotion then [BuildOf(c.pub.plan)] else []
  }

  predicate Increasing(s: seq<int>) {
    forall i, j :: 0 <= i < j < |s| ==> s[i] < s[j]
  }

  function LastOrZero(s: seq<int>): int {
    if s == [] then 0 else s[|s| - 1]
  }

  /** No promotion in the log raised the floor. */
  predicate PromotionsKeepFloor(log: seq<Commit>) {
    forall i :: 0 <= i < |log| && log[i].Begin? && log[i].pub.promotion ==>
      && Replay(log[..i]).Some? && Replay(log[..i]).value.floor == BuildOf(log[i].pub.plan)
      && Replay(log[..i + 1]) == Replay(log[..i])
  }

  lemma {:induction false} PromotionKeepsFloor(l: State, published: set<string>, seen: set<string>, pub: Publication)
    requires Sane(l) && PublishedBelowFloor(l, published) && seen <= published && pub.promotion && MayPromote(l, seen, pub)
    ensures BuildOf(pub.plan) == l.floor && WithFloor(l, pub) == l
  {
    var run :| run in l.plans && l.plans[run].plan == pub.plan;
    assert l.plans[run].plan.tag in published;
  }

  ghost predicate History(s: System) {
    && PromotionsKeepFloor(s.log)
    && Increasing(Consumed(s.log)) && Current(s.remote.file).floor == LastOrZero(Consumed(s.log))
  }

  lemma PromotionsKept(log: seq<Commit>, c: Commit)
    requires PromotionsKeepFloor(log) && Replay(log).Some?
    requires c.Begin? && c.pub.promotion ==>
      Replay(log).value.floor == BuildOf(c.pub.plan) && Atomic(Replay(log).value, c) == Replay(log)
    ensures PromotionsKeepFloor(log + [c])
  {
    var log' := log + [c];
    forall i | 0 <= i < |log'| && log'[i].Begin? && log'[i].pub.promotion
      ensures Replay(log'[..i]).Some? && Replay(log'[..i]).value.floor == BuildOf(log'[i].pub.plan)
      ensures Replay(log'[..i + 1]) == Replay(log'[..i])
    {
      if i < |log| {
        assert log'[..i] == log[..i] && log'[..i + 1] == log[..i + 1] && log'[i] == log[i];
      } else {
        assert log'[..i] == log && log'[..i + 1] == log' && log'[..|log'| - 1] == log;
      }
    }
  }

  lemma ConsumedGrows(log: seq<Commit>, c: Commit, floor: int)
    requires Increasing(Consumed(log)) && LastOrZero(Consumed(log)) == floor
    requires c.Begin? && !c.pub.promotion ==> BuildOf(c.pub.plan) > floor
    ensures Increasing(Consumed(log + [c]))
    ensures LastOrZero(Consumed(log + [c])) == if c.Begin? && !c.pub.promotion then BuildOf(c.pub.plan) else floor
  {
    assert (log + [c])[..|log|] == log;
  }

  lemma CommitKeepsHistory(size: State -> nat, s: System, c: Commit, s': System)
    requires Inv(size, s) && History(s)
    requires s'.log == s.log + [c] && s'.remote.file.Some?
    requires Some(s'.remote.file.value) == Atomic(Current(s.remote.file), c)
    requires c.Begin? ==> c.published <= s.remote.published
    ensures History(s')
  {
    var l := Current(s.remote.file);
    if c.Begin? && c.pub.promotion {
      PromotionKeepsFloor(l, s.remote.published, c.published, c.pub);
    }
    PromotionsKept(s.log, c);
    ConsumedGrows(s.log, c, l.floor);
  }

  lemma {:induction false} ReachableHistory(size: State -> nat, ops: seq<Op>)
    ensures History(Run(size, ops))
  {
    if ops != [] {
      var less, op := ops[..|ops| - 1], ops[|ops| - 1];
      ReachableHistory(size, less);
      ReachableInv(size, less);
      assert less + [op] == ops;
      OnlyFreshWritesCommit(size, less, op);
      var s, s' := Run(size, less), Run(size, ops);
      if s'.log != s.log {
        assert s'.log == s'.log[..|s.log|] + [s'.log[|s.log|]];
        assert LocalInv(size, s.remote, s.runs[op.a]);
        CommitKeepsHistory(size, s, s'.log[|s.log|], s');
      }
    }
  }

  /** Publications that are no promotions consume strictly increasing numbers, the last of which is the
  floor; a promotion succeeds only on the number that is the floor, and leaves the ledger as it is. */
  lemma NumbersAreConsumedOnce(size: State -> nat, ops: seq<Op>)
    ensures Increasing(Consumed(Run(size, ops).log))
    ensures Current(Run(size, ops).remote.file).floor == LastOrZero(Consumed(Run(size, ops).log))
    ensures Current(Run(size, ops).remote.file).floor <= Current(Run(size, ops).remote.file).counter
    ensures PromotionsKeepFloor(Run(size, ops).log)
  {
    ReachableHistory(size, ops);
    ReachableInv(size, ops);
  }

  /** The "newer published" scans are redundant up to stable reservations: on a ledger that is not stale,
  a run that passes the floor check is refused by a scan exactly when some stable reservation with a
  published tag has a number in the way. */
  lemma ScansOnlyStopForStable(size: State -> nat, ops: seq<Op>, pub: Publication)
    ensures var s := Run(size, ops); var l := Current(s.remote.file);
      !pub.promotion && MayPublish(l, pub) ==>
        (NewerPublished(l, s.remote.published, pub.plan) <==>
         exists run :: run in l.plans && l.plans[run].plan.channel == Stable && l.plans[run].plan.tag in s.remote.published
                       && BuildOf(l.plans[run].plan) >= BuildOf(pub.plan))
    ensures var s := Run(size, ops); var l := Current(s.remote.file);
      pub.promotion && MayPromote(l, s.remote.published, pub) ==>
        (NewerThanCandidate(l, s.remote.published, pub.plan) <==>
         exists run :: run in l.plans && l.plans[run].plan.channel == Stable && l.plans[run].plan.tag in s.remote.published
                       && BuildOf(l.plans[run].plan) > BuildOf(pub.plan))
  {
    ReachableInv(size, ops);
    var s := Run(size, ops);
    var l := Current(s.remote.file);
    if pub.promotion && MayPromote(l, s.remote.published, pub) {
      PromotionKeepsFloor(l, s.remote.published, s.remote.published, pub);
    }
  }

  predicate NoStable(l: State) {
    forall run :: run in l.plans ==> l.plans[run].plan.channel != Stable
  }

  /** Under promote-bytes no stable plan is reserved; then a scan refuses only runs whose write would fail anyway. */
  lemma ScanRefusesOnlyStaleRuns(size: State -> nat, ops: seq<Op>, a: nat)
    requires var s := Run(size, ops); At(s, a).ReadLedger? && NoStable(Current(s.remote.file))
    requires var s, x := Run(size, ops), At(Run(size, ops), a);
      && (if x.pub.promotion then MayPromote(x.ledger, s.remote.published, x.pub) else MayPublish(x.ledger, x.pub))
      && !MayBegin(x.ledger, s.remote.published, x.pub)
    ensures At(Run(size, ops), a).previous != Run(size, ops).remote.file
  {
    ReachableInv(size, ops);
    var s := Run(size, ops);
    var x := At(s, a);
    assert LocalInv(size, s.remote, x);
    ScansOnlyStopForStable(size, ops, x.pub);
  }

  // ------------------------------------------------------------------ dead ends

  /** No run can write any more: the ledger outgrew its reader, or the branch exists without the file
  and no run is left that read it before. */
  ghost predicate Frozen(size: State -> nat, s: System) {
    if s.remote.file.Some? then size(s.remote.file.value) > SIZE_LIMIT
    else s.remote.branch && forall a :: a in s.runs ==>
      !(s.runs[a].ReadState? || s.runs[a].Numbered? || s.runs[a].Planned? || s.runs[a].ReadLedger? || s.runs[a].Verified?)
  }

  lemma FrozenStep(size: State -> nat, s: System, op: Op)
    requires Inv(size, s) && Frozen(size, s)
    ensures Frozen(size, Do(size, s, op)) && Do(size, s, op).remote.file == s.remote.file
  {
    if IsWrite(op) && op.a in s.runs {
      assert LocalInv(size, s.remote, s.runs[op.a]);
    }
  }

  /** A frozen ledger stays as it is over every continuation: no further number is ever reserved or consumed. */
  lemma {:induction false} FrozenForever(size: State -> nat, ops: seq<Op>, more: seq<Op>)
    requires Frozen(size, Run(size, ops))
    ensures Frozen(size, Run(size, ops + more))
    ensures Run(size, ops + more).remote.file == Run(size, ops).remote.file
  {
    if more == [] {
      assert ops + more == ops;
    } else {
      var less := more[..|more| - 1];
      FrozenForever(size, ops, less);
      ReachableInv(size, ops + less);
      var s, op := Run(size, ops + less), more[|more| - 1];
      FrozenStep(size, s, op);
      RunLast(size, ops, more);
    }
  }
}
