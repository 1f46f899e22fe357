/** One CI run talking to the remote without interference: the ledger is read into a mutable
object, updated in place and written back. */
module LedgerClient {
  import opened Wrappers
  import opened Plans
  import opened Ledger
  import opened LedgerProtocol

  /** The decoded ledger a run updates before writing it back. */
  class LedgerObject {
    var schema: int
    var counter: int
    var floor: int
    var plans: map<int, Reservation>

    function Value(): State
      reads this
    {
      State(schema, counter, floor, plans)
    }

    constructor (l: State)
      ensures Value() == l
    {
      schema, counter, floor, plans := l.schema, l.counter, l.floor, l.plans;
    }
  }

  /** Remote and answer after `reserve_plan`, when nothing else happens meanwhile. */
  function ReserveAlone(size: State -> nat, r: Remote, req: Request): (Remote, Option<Plan>) {
    var read := Read(size, r);
    if req.run <= 0 || read.None? then (r, None)
    else if req.run in read.value.plans then
      (r, if SameRequest(read.value.plans[req.run], req) then Some(read.value.plans[req.run].plan) else None)
    else
      var plan := NewPlan(read.value, req, NextSequence(r.tags, req.base, req.channel));
      if plan.None? || plan.value.tag in r.tags then (r, None)
      else (r.(branch := true, file := Some(WithPlan(read.value, req, plan.value))), plan)
  }

  /** Remote and success after `begin_publication`, when nothing else happens meanwhile. */
  function BeginAlone(size: State -> nat, r: Remote, pub: Publication): (Remote, bool) {
    var read := Read(size, r);
    if pub.run <= 0 || read.None? || !MayBegin(read.value, r.published, pub) || !r.branch then (r, false)
    else (r.(file := Some(WithFloor(read.value, pub))), true)
  }

  class GitHub {
    const size: State -> nat
    var branch: bool
    var file: Option<State>
    var tags: set<string>
    var published: set<string>

    function Model(): Remote
      reads this
    {
      Remote(branch, file, tags, published)
    }

    constructor (size: State -> nat)
      ensures this.size == size && Model() == START.remote
    {
      this.size := size;
      branch, file, tags, published := false, None, {}, {};
    }

    /** `read_state`, with its loop over the reservations. */
    method ReadState() returns (state: LedgerObject?, previous: Option<State>)
      ensures state != null <==> Read(size, Model()).Some?
      ensures state != null ==> fresh(state) && state.Value() == Read(size, Model()).value && previous == file
    {
      state, previous := null, None;
      if file.None? {
        if !branch {
          state := new LedgerObject(EMPTY);
        }
        return;
      }
      var l := file.value;
      if size(l) > SIZE_LIMIT || l.schema != 1 || l.counter < 0 || !(0 <= l.floor <= l.counter) {
        return;
      }
      var keys := l.plans.Keys;
      while keys != {}
        invariant keys <= l.plans.Keys
        invariant forall run :: run in l.plans && run !in keys ==> ValidRecord(run, l.plans[run], l.counter)
      {
        var run := AnyOf(keys);
        if !ValidRecord(run, l.plans[run], l.counter) {
          assert !Valid(l);
          return;
        }
        keys := keys - {run};
      }
      state := new LedgerObject(l);
      previous := file;
    }

    /** `write_state`. */
    method WriteState(state: LedgerObject, previous: Option<State>) returns (ok: bool)
      modifies this`file
      ensures ok <==> branch && old(file) == previous
      ensures file == if ok then Some(state.Value()) else old(file)
    {
      ok := branch && file == previous;
      if ok {
        file := Some(state.Value());
      }
    }

    /** `reserve_plan`. */
    method ReservePlan(req: Request) returns (r: Option<Plan>)
      modifies this`file, this`branch
      ensures (Model(), r) == ReserveAlone(size, old(Model()), req)
    {
      hide CreatePlan, ReservedCounts, NextSequence, SameRequest, NightlyStamp, Valid;
      if req.run <= 0 {
        return None;
      }
      var state, previous := ReadState();
      if state == null {
        return None;
      }
      if req.run in state.plans {
        var record := state.plans[req.run];
        return if SameRequest(record, req) then Some(record.plan) else None;
      }
      var sequence := NoSequence;
      if req.channel == Beta || req.channel == RC {
        var next := NextSequence(tags, req.base, req.channel);
        var reserved := ReservedCounts(state.Value(), req.base, req.channel);
        sequence := Count(Larger(next, MaxOrZero(reserved) + 1));
      } else if req.channel == Nightly {
        sequence := Stamp(NightlyStamp(req.time, req.run, req.attempt));
      }
      if req.policy.floor < 0 {
        return None;
      }
      var number := Larger(state.counter, req.policy.floor) + 1;
      r := CreatePlan(req.base, req.channel, sequence, req.source, req.policy, Some(number));
      if r.None? || r.value.tag in tags {
        return None;
      }
      if !branch {
        branch := true;
      }
      state.counter := number;
      state.plans := state.plans[req.run := Reservation(r.value, req.parent)];
      var written := WriteState(state, previous);
    }

    /** `begin_publication`. */
    method BeginPublication(pub: Publication) returns (ok: bool)
      modifies this`file
      ensures (Model(), ok) == BeginAlone(size, old(Model()), pub)
    {
      if pub.run <= 0 {
        return false;
      }
      var state, previous := ReadState();
      if state == null || !MayBegin(state.Value(), published, pub) {
        return false;
      }
      state.floor := BuildOf(pub.plan);
      ok := WriteState(state, previous);
    }
  }

  function ReserveSteps(a: nat, req: Request): seq<Op> {
    [StartReserve(a, req), FindSequence(a), MakePlan(a), EnsureBranch(a), WriteReservation(a, true)]
  }

  function Steps(size: State -> nat, s: System, ops: seq<Op>): System
    decreases |ops|
  {
    if ops == [] then s else Steps(size, Do(size, s, ops[0]), ops[1..])
  }

  /** A run that has failed or holds its plan takes no further part in a reservation. */
  lemma SettledRunStays(size: State -> nat, s: System, a: nat, req: Request)
    requires At(s, a).Failed? || At(s, a).Reserved?
    ensures Steps(size, s, ReserveSteps(a, req)[1..]) == s
  {
    UnrollFour(size, s, ReserveSteps(a, req)[1..]);
  }

  lemma PlannedFromRead(size: State -> nat, s: System, a: nat)
    requires At(s, a).ReadState? && At(s, a).req.run > 0
    ensures var x, s' := At(s, a), Do(size, Do(size, s, FindSequence(a)), MakePlan(a));
      var seen := NextSequence(s.remote.tags, x.req.base, x.req.channel);
      var plan := NewPlan(x.ledger, x.req, seen);
      && s'.remote == s.remote
      && At(s', a) == if plan.None? || plan.value.tag in s.remote.tags then Failed
                      else Planned(x.req, x.ledger, x.previous, seen, plan.value, false)
  {
  }

  lemma WrittenFromPlanned(size: State -> nat, s: System, a: nat)
    requires At(s, a).Planned? && At(s, a).previous == s.remote.file
    ensures var x, s' := At(s, a), Do(size, Do(size, s, EnsureBranch(a)), WriteReservation(a, true));
      && s'.remote == s.remote.(branch := true, file := Some(WithPlan(x.ledger, x.req, x.plan)))
      && At(s', a) == Reserved(x.req, x.plan)
  {
  }

  /** An idle run whose five steps are not interleaved with others does what the method does. */
  lemma UndisturbedReservation(size: State -> nat, s: System, a: nat, req: Request)
    requires Inv(size, s) && At(s, a).Idle?
    ensures var s' := Steps(size, s, ReserveSteps(a, req));
      && s'.remote == ReserveAlone(size, s.remote, req).0
      && At(s', a) == match ReserveAlone(size, s.remote, req).1 { case None => Failed case Some(plan) => Reserved(req, plan) }
  {
    hide NewPlan, NextSequence, SameRequest, Valid, ValidPlanFor, Replay, Sane;
    var s1 := Do(size, s, StartReserve(a, req));
    var rest := ReserveSteps(a, req)[1..];
    assert Steps(size, s, ReserveSteps(a, req)) == Steps(size, s1, rest);
    if At(s1, a).ReadState? {
      ReadIsSnapshot(size, s);
      UnrollFour(size, s1, rest);
      PlannedFromRead(size, s1, a);
      var s3 := Do(size, Do(size, s1, FindSequence(a)), MakePlan(a));
      if At(s3, a).Planned? {
        WrittenFromPlanned(size, s3, a);
      }
    } else {
      SettledRunStays(size, s1, a, req);
    }
  }

  /** The same for a publication. */
  lemma {:induction false} UndisturbedPublication(size: State -> nat, s: System, a: nat, pub: Publication)
    requires Inv(size, s) && At(s, a).Idle?
    ensures var s' := Do(size, Do(size, Do(size, s, StartPublish(a, pub)), Verify(a)), WriteFloor(a, true));
      && s'.remote == BeginAlone(size, s.remote, pub).0
      && At(s', a) == if BeginAlone(size, s.remote, pub).1 then Begun(pub) else Failed
  {
    hide MayPublish, MayPromote, Valid, Replay, Sane, LocalInv;
    var s1 := Do(size, s, StartPublish(a, pub));
    var s2 := Do(size, s1, Verify(a));
    assert s.remote.branch || s.remote.file.None?;
    if s.remote.file.None? && Read(size, s.remote).Some? {
      assert Read(size, s.remote).value == EMPTY;
    }
  }

  lemma UnrollFour(size: State -> nat, s: System, ops: seq<Op>)
    requires |ops| == 4
    ensures Steps(size, s, ops) == Do(size, Do(size, Do(size, Do(size, s, ops[0]), ops[1]), ops[2]), ops[3])
  {
    assert ops[1..][1..] == ops[2..] && ops[2..][1..] == ops[3..] && ops[3..][1..] == [];
    var s1 := Do(size, s, ops[0]);
    var s2 := Do(size, s1, ops[1]);
    var s3 := Do(size, s2, ops[2]);
    assert Steps(size, s3, ops[3..]) == Do(size, s3, ops[3]);
    assert Steps(size, s2, ops[2..]) == Steps(size, s3, ops[3..]);
    assert Steps(size, s1, ops[1..]) == Steps(size, s2, ops[2..]);
  }
}
