/** What the log of a run of the ledger protocol says: where every answer comes from, and that stale runs are
stale for good. */
module LedgerHistory {
  import opened Wrappers
  import opened Plans
  import opened Ledger
  import opened LedgerProtocol

  // ----------------------------------------------------------------- observations

  /** At some point of the run, `next_sequence` would have answered `seen`. */
  ghost predicate SawSequence(size: State -> nat, ops: seq<Op>, base: string, channel: Channel, seen: int) {
    exists k :: 0 <= k <= |ops| && NextSequence(Run(size, ops[..k]).remote.tags, base, channel) == seen
  }

  /** At some point of the run the tag was absent. */
  ghost predicate SawAbsent(size: State -> nat, ops: seq<Op>, tag: string) {
    exists k :: 0 <= k <= |ops| && tag !in Run(size, ops[..k]).remote.tags
  }

  /** At some point of the run exactly these releases were published. */
  ghost predicate SawPublished(size: State -> nat, ops: seq<Op>, published: set<string>) {
    exists k :: 0 <= k <= |ops| && Run(size, ops[..k]).remote.published == published
  }

  /** A committed request used only what the remote really showed. */
  ghost predicate Observed(size: State -> nat, ops: seq<Op>, c: Commit) {
    match c
    case Reserve(req, seen, plan) => SawSequence(size, ops, req.base, req.channel, seen) && SawAbsent(size, ops, plan.tag)
    case Begin(_, published) => SawPublished(size, ops, published) && published <= Run(size, ops).remote.published
  }

  ghost predicate LocalObserved(size: State -> nat, ops: seq<Op>, x: Local) {
    match x
    case Numbered(req, _, _, seen) => SawSequence(size, ops, req.base, req.channel, seen)
    case Planned(req, _, _, seen, plan, _) =>
      SawSequence(size, ops, req.base, req.channel, seen) && SawAbsent(size, ops, plan.tag)
    case Verified(_, _, _, published) => SawPublished(size, ops, published) && published <= Run(size, ops).remote.published
    case _ => true
  }

  /** A run that was told it may publish has its own request in the log. */
  ghost predicate Logged(log: seq<Commit>, x: Local) {
    x.Begun? ==> exists i :: 0 <= i < |log| && log[i].Begin? && log[i].pub == x.pub
  }

  ghost predicate Witnessed(size: State -> nat, ops: seq<Op>) {
    var s := Run(size, ops);
    && (forall i :: 0 <= i < |s.log| ==> Observed(size, ops, s.log[i]))
    && (forall a :: a in s.runs ==> LocalObserved(size, ops, s.runs[a]) && Logged(s.log, s.runs[a]))
  }

  lemma RunStep(size: State -> nat, ops: seq<Op>, op: Op)
    ensures Run(size, ops + [op]) == Do(size, Run(size, ops), op)
  {
    assert (ops + [op])[..|ops|] == ops;
  }

  lemma PublishedGrows(size: State -> nat, s: System, op: Op)
    ensures s.remote.published <= Do(size, s, op).remote.published
  {
  }

  lemma StillSaw(size: State -> nat, ops: seq<Op>, op: Op, k: nat)
    requires k <= |ops|
    ensures (ops + [op])[..k] == ops[..k]
  {
  }

  lemma ObservedStays(size: State -> nat, ops: seq<Op>, op: Op, c: Commit)
    requires Observed(size, ops, c)
    ensures Observed(size, ops + [op], c)
  {
    hide Run, Do, NextSequence;
    RunStep(size, ops, op);
    PublishedGrows(size, Run(size, ops), op);
    match c
    case Reserve(req, seen, plan) =>
      SequenceStays(size, ops, op, req.base, req.channel, seen);
      AbsenceStays(size, ops, op, plan.tag);
    case Begin(_, published) => PublicationStays(size, ops, op, published);
  }

  lemma SequenceStays(size: State -> nat, ops: seq<Op>, op: Op, base: string, channel: Channel, seen: int)
    requires SawSequence(size, ops, base, channel, seen)
    ensures SawSequence(size, ops + [op], base, channel, seen)
  {
    hide Run, NextSequence;
    var k :| 0 <= k <= |ops| && NextSequence(Run(size, ops[..k]).remote.tags, base, channel) == seen;
    StillSaw(size, ops, op, k);
  }

  lemma AbsenceStays(size: State -> nat, ops: seq<Op>, op: Op, tag: string)
    requires SawAbsent(size, ops, tag)
    ensures SawAbsent(size, ops + [op], tag)
  {
    hide Run;
    var k :| 0 <= k <= |ops| && tag !in Run(size, ops[..k]).remote.tags;
    StillSaw(size, ops, op, k);
  }

  lemma PublicationStays(size: State -> nat, ops: seq<Op>, op: Op, published: set<string>)
    requires SawPublished(size, ops, published)
    ensures SawPublished(size, ops + [op], published)
  {
    hide Run;
    var k :| 0 <= k <= |ops| && Run(size, ops[..k]).remote.published == published;
    StillSaw(size, ops, op, k);
  }

  lemma LocalObservedStays(size: State -> nat, ops: seq<Op>, op: Op, x: Local)
    requires LocalObserved(size, ops, x)
    ensures LocalObserved(size, ops + [op], x)
  {
    hide Run, Do, NextSequence;
    RunStep(size, ops, op);
    PublishedGrows(size, Run(size, ops), op);
    match x
    case Numbered(req, _, _, seen) => SequenceStays(size, ops, op, req.base, req.channel, seen);
    case Planned(req, _, _, seen, plan, _) =>
      SequenceStays(size, ops, op, req.base, req.channel, seen);
      AbsenceStays(size, ops, op, plan.tag);
    case Verified(_, _, _, published) => PublicationStays(size, ops, op, published);
    case _ =>
  }

  /** What the remote shows now, it showed at some point of the longer run. */
  lemma SeenNow(size: State -> nat, ops: seq<Op>, op: Op, base: string, channel: Channel, tag: string)
    ensures var r := Run(size, ops).remote;
      && SawSequence(size, ops + [op], base, channel, NextSequence(r.tags, base, channel))
      && (tag !in r.tags ==> SawAbsent(size, ops + [op], tag))
      && SawPublished(size, ops + [op], r.published)
  {
    hide Run, NextSequence;
    StillSaw(size, ops, op, |ops|);
    assert ops[..|ops|] == ops;
    assert Run(size, (ops + [op])[..|ops|]) == Run(size, ops);
  }

  lemma LoggedStays(log: seq<Commit>, c: Commit, x: Local)
    requires Logged(log, x)
    ensures Logged(log + [c], x)
  {
    if x.Begun? {
      var i :| 0 <= i < |log| && log[i].Begin? && log[i].pub == x.pub;
      assert (log + [c])[i] == log[i];
    }
  }

  /** The run an operation moves; the tags of others move none. */
  predicate Moves(op: Op, a: nat) {
    !op.OtherTags? && op.a == a
  }

  lemma OthersStay(size: State -> nat, s: System, op: Op, a: nat)
    requires !Moves(op, a)
    ensures At(Do(size, s, op), a) == At(s, a)
  {
    hide Read, SameRequest, NewPlan, NextSequence, MayBegin;
  }

  /** What the moved run has seen, and what its write adds to the log. */
  lemma MoverSaw(size: State -> nat, ops: seq<Op>, op: Op)
    requires !op.OtherTags? && LocalObserved(size, ops, At(Run(size, ops), op.a)) && Logged(Run(size, ops).log, At(Run(size, ops), op.a))
    ensures var s, s' := Run(size, ops), Do(size, Run(size, ops), op);
      && LocalObserved(size, ops + [op], At(s', op.a))
      && (s'.log == s.log || (|s'.log| == |s.log| + 1 && s'.log[..|s.log|] == s.log && Observed(size, ops + [op], s'.log[|s.log|])))
      && Logged(s'.log, At(s', op.a))
  {
    hide Run, Read, SameRequest, NewPlan, NextSequence, MayBegin, SawSequence, SawAbsent, SawPublished, WithPlan, WithFloor;
    var s := Run(size, ops);
    var s' := Do(size, s, op);
    var x := At(s, op.a);
    RunStep(size, ops, op);
    LocalObservedStays(size, ops, op, x);
    match op
    case FindSequence(_) => if x.ReadState? { SeenNow(size, ops, op, x.req.base, x.req.channel, ""); }
    case MakePlan(_) =>
      if At(s', op.a).Planned? && x.Numbered? { SeenNow(size, ops, op, x.req.base, x.req.channel, At(s', op.a).plan.tag); }
    case Verify(_) => SeenNow(size, ops, op, "", Stable, "");
    case WriteFloor(_, _) =>
      if s'.log != s.log { assert s'.log[|s.log|] == Begin(x.pub, x.published); }
    case _ =>
  }

  lemma {:induction false} RunsAreWitnessed(size: State -> nat, ops: seq<Op>)
    ensures Witnessed(size, ops)
    decreases |ops|
  {
    hide Run, Do, Observed, LocalObserved, Logged, At;
    if ops == [] {
      NothingYet(size);
    } else {
      var less, op := ops[..|ops| - 1], ops[|ops| - 1];
      assert less + [op] == ops;
      RunsAreWitnessed(size, less);
      WitnessStep(size, less, op);
    }
  }

  lemma NothingYet(size: State -> nat)
    ensures Witnessed(size, [])
  {
  }

  lemma IdleSawNothing(size: State -> nat, ops: seq<Op>, log: seq<Commit>, a: nat)
    requires Witnessed(size, ops)
    ensures LocalObserved(size, ops, At(Run(size, ops), a)) && Logged(Run(size, ops).log, At(Run(size, ops), a))
  {
    hide Run;
  }

  lemma WitnessStep(size: State -> nat, ops: seq<Op>, op: Op)
    requires Witnessed(size, ops)
    ensures Witnessed(size, ops + [op])
  {
    hide Run, Do, Observed, LocalObserved, Logged;
    var s, s' := Run(size, ops), Run(size, ops + [op]);
    RunStep(size, ops, op);
    if op.OtherTags? {
      TagsKeepLog(size, s, op);
    } else {
      IdleSawNothing(size, ops, s.log, op.a);
      MoverSaw(size, ops, op);
    }
    forall i | 0 <= i < |s'.log| ensures Observed(size, ops + [op], s'.log[i]) {
      if i < |s.log| {
        assert s'.log[i] == s.log[i];
        ObservedStays(size, ops, op, s.log[i]);
      }
    }
    forall a | a in s'.runs ensures LocalObserved(size, ops + [op], s'.runs[a]) && Logged(s'.log, s'.runs[a]) {
      if !Moves(op, a) {
        OthersStay(size, s, op, a);
        IdleSawNothing(size, ops, s.log, a);
        LocalObservedStays(size, ops, op, At(s, a));
        if s'.log != s.log {
          assert s'.log == s.log + [s'.log[|s.log|]];
          LoggedStays(s.log, s'.log[|s.log|], At(s, a));
        }
      }
    }
  }

  lemma TagsKeepLog(size: State -> nat, s: System, op: Op)
    requires op.OtherTags?
    ensures Do(size, s, op).log == s.log && Do(size, s, op).runs == s.runs
  {
  }

  /** Every reservation of the ledger was committed by a request in the log. */
  ghost predicate Committed(log: seq<Commit>, run: int, record: Reservation) {
    exists i :: 0 <= i < |log| && log[i].Reserve? && log[i].req.run == run && Reservation(log[i].plan, log[i].req.parent) == record
  }

  lemma {:induction false} LedgerIsLogged(log: seq<Commit>, run: int)
    requires Replay(log).Some? && run in Replay(log).value.plans
    ensures Committed(log, run, Replay(log).value.plans[run])
  {
    hide NewPlan, MayBegin;
    var past, c := log[..|log| - 1], log[|log| - 1];
    var l := Replay(past).value;
    if c.Reserve? && run == c.req.run {
      assert log[|log| - 1] == c;
    } else {
      LedgerIsLogged(past, run);
      var i :| 0 <= i < |past| && past[i].Reserve? && past[i].req.run == run && Reservation(past[i].plan, past[i].req.parent) == l.plans[run];
      assert log[i] == past[i];
    }
  }

  /** Linearizability: the file is what the logged requests give one after another, each on the ledger its
  predecessors left and on tags and releases the remote really showed; and every answer is that of a logged
  request: the plan a run was handed, its own or its run's earlier one, and the leave to publish. */
  lemma {:induction false} RunsAreSerial(size: State -> nat, ops: seq<Op>)
    ensures var s := Run(size, ops);
      && Replay(s.log) == Some(Current(s.remote.file))
      && (s.remote.file.None? ==> s.log == [])
      && (forall i :: 0 <= i < |s.log| ==> Observed(size, ops, s.log[i]))
      && (forall a :: a in s.runs && s.runs[a].Reserved? ==>
            && s.runs[a].req.run in Current(s.remote.file).plans
            && Current(s.remote.file).plans[s.runs[a].req.run] == Reservation(s.runs[a].plan, s.runs[a].req.parent)
            && Committed(s.log, s.runs[a].req.run, Reservation(s.runs[a].plan, s.runs[a].req.parent)))
      && (forall a :: a in s.runs && s.runs[a].Begun? ==>
            exists i :: 0 <= i < |s.log| && s.log[i].Begin? && s.log[i].pub == s.runs[a].pub)
  {
    hide Run, Observed, LocalObserved, Replay, Committed;
    ReachableInv(size, ops);
    RunsAreWitnessed(size, ops);
    var s := Run(size, ops);
    forall a | a in s.runs && s.runs[a].Reserved?
      ensures s.runs[a].req.run in Current(s.remote.file).plans
      ensures Current(s.remote.file).plans[s.runs[a].req.run] == Reservation(s.runs[a].plan, s.runs[a].req.parent)
      ensures Committed(s.log, s.runs[a].req.run, Reservation(s.runs[a].plan, s.runs[a].req.parent))
    {
      assert LocalInv(size, s.remote, s.runs[a]);
      LedgerIsLogged(s.log, s.runs[a].req.run);
    }
    forall a | a in s.runs && s.runs[a].Begun?
      ensures exists i :: 0 <= i < |s.log| && s.log[i].Begin? && s.log[i].pub == s.runs[a].pub
    {
      assert Logged(s.log, s.runs[a]);
    }
  }

  // ------------------------------------------------------------------- staleness

  /** The run has read a file and not yet written one. */
  predicate Pending(x: Local) {
    x.ReadState? || x.Numbered? || x.Planned? || x.ReadLedger? || x.Verified?
  }

  predicate Stale(s: System, a: nat) {
    Pending(At(s, a)) && At(s, a).previous != s.remote.file
  }

  lemma FileStep(size: State -> nat, s: System, op: Op)
    requires s.remote.file.Some?
    ensures Do(size, s, op).remote.file.Some?
  {
    hide Read, SameRequest, NewPlan, NextSequence, MayBegin;
  }

  /** A ledger file that exists never disappears. */
  lemma {:induction false} FileLasts(size: State -> nat, ops: seq<Op>, more: seq<Op>)
    requires Run(size, ops).remote.file.Some?
    ensures Run(size, ops + more).remote.file.Some?
    decreases |more|
  {
    hide Run, Do;
    if more == [] {
      assert ops + more == ops;
    } else {
      FileLasts(size, ops, more[..|more| - 1]);
      RunLast(size, ops, more);
      FileStep(size, Run(size, ops + more[..|more| - 1]), more[|more| - 1]);
    }
  }

  /** A pending run that read a file reads what exists. */
  ghost predicate ReadersSawFile(s: System) {
    forall a :: a in s.runs && Pending(s.runs[a]) && s.runs[a].previous.Some? ==> s.remote.file.Some?
  }

  lemma ReaderStep(size: State -> nat, s: System, op: Op)
    requires ReadersSawFile(s)
    ensures ReadersSawFile(Do(size, s, op))
  {
    hide Read, SameRequest, NewPlan, NextSequence, MayBegin, WithPlan, WithFloor;
    if s.remote.file.Some? {
      FileStep(size, s, op);
    }
  }

  lemma {:induction false} ReachableReaders(size: State -> nat, ops: seq<Op>)
    ensures ReadersSawFile(Run(size, ops))
    decreases |ops|
  {
    hide Do;
    if ops != [] {
      ReachableReaders(size, ops[..|ops| - 1]);
      ReaderStep(size, Run(size, ops[..|ops| - 1]), ops[|ops| - 1]);
    }
  }

  lemma SameMap<T, U>(m: map<T, U>, n: map<T, U>)
    requires forall k :: k in m ==> k in n && n[k] == m[k]
    requires forall k :: k in n ==> k in m
    ensures m == n
  {
  }

  /** Growing both ways is not growing at all. */
  lemma GrowsBothWays(l: State, m: State)
    requires Sane(l) && Sane(m) && Grows(l, m) && Grows(m, l)
    ensures l == m
  {
    hide ValidRecord, NightlyNamesRun, Apart;
    assert forall run :: run in l.plans ==> run in m.plans && m.plans[run] == l.plans[run];
    assert forall run :: run in m.plans ==> run in l.plans && l.plans[run] == m.plans[run];
    SameMap(l.plans, m.plans);
  }

  /** A file that has changed never becomes again what it was. */
  lemma ChangedForGood(size: State -> nat, ops: seq<Op>, more: seq<Op>, a: nat)
    requires Stale(Run(size, ops), a)
    ensures Run(size, ops + more).remote.file != At(Run(size, ops), a).previous
  {
    hide Run, Sane, Grows, Replay;
    var s, s' := Run(size, ops), Run(size, ops + more);
    ReachableInv(size, ops);
    ReachableInv(size, ops + more);
    ReachableReaders(size, ops);
    LedgerOnlyGrows(size, ops, more);
    var previous := At(s, a).previous;
    assert LocalInv(size, s.remote, At(s, a));
    if s.remote.file.Some? {
      FileLasts(size, ops, more);
    }
    if previous.Some? && s'.remote.file == previous {
      var now := s.remote.file.value;
      assert s.remote.file == Some(now) && previous == Some(previous.value);
      GrowsBothWays(previous.value, now);
      assert false;
    }
  }

  lemma StaleStep(size: State -> nat, s: System, op: Op, a: nat)
    requires Stale(s, a)
    ensures var x' := At(Do(size, s, op), a);
      x'.Failed? || (Pending(x') && x'.previous == At(s, a).previous)
  {
    hide Read, SameRequest, NewPlan, NextSequence, MayBegin, WithPlan, WithFloor;
  }

  /** A stale run is stale for good: whatever happens next, it has failed or it still holds the same outdated
  file, and none of its own steps ever changes the ledger or the log. */
  lemma {:induction false} StaleRunsNeverCommit(size: State -> nat, ops: seq<Op>, more: seq<Op>, a: nat)
    requires Stale(Run(size, ops), a)
    ensures var s' := Run(size, ops + more);
      At(s', a).Failed? || (Stale(s', a) && At(s', a).previous == At(Run(size, ops), a).previous)
    ensures forall op :: Moves(op, a) ==>
      Run(size, ops + more + [op]).log == Run(size, ops + more).log
    ensures forall op :: Moves(op, a) ==>
      Run(size, ops + more + [op]).remote.file == Run(size, ops + more).remote.file
    decreases |more|
  {
    hide Run, Do, Replay;
    ChangedForGood(size, ops, more, a);
    if more == [] {
      assert ops + more == ops;
    } else {
      var less := more[..|more| - 1];
      StaleRunsNeverCommit(size, ops, less, a);
      RunLast(size, ops, more);
      if !At(Run(size, ops + less), a).Failed? {
        StaleStep(size, Run(size, ops + less), more[|more| - 1], a);
      } else {
        FailedStays(size, Run(size, ops + less), more[|more| - 1], a);
      }
    }
    forall op | Moves(op, a)
      ensures Run(size, ops + more + [op]).log == Run(size, ops + more).log
      ensures Run(size, ops + more + [op]).remote.file == Run(size, ops + more).remote.file
    {
      OnlyFreshWritesCommit(size, ops + more, op);
    }
  }

  lemma FailedStays(size: State -> nat, s: System, op: Op, a: nat)
    requires At(s, a).Failed?
    ensures At(Do(size, s, op), a).Failed?
  {
    hide Read, SameRequest, NewPlan, NextSequence, MayBegin, WithPlan, WithFloor;
  }
}
