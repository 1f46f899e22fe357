/** Inline code in one line of Markdown: pairs of backtick runs of equal length (section 6.1 of CommonMark). */
module CodeSpans {
  import opened Wrappers

  datatype Run = Run(start: nat, end: nat)

  // ------------------------------------------------------------------- the meaning

  predicate Tick(line: string, i: int) {
    0 <= i < |line| && line[i] == '`'
  }

  /** A maximal run of backticks. */
  predicate IsRun(line: string, r: Run) {
    && r.start < r.end <= |line|
    && (forall i :: r.start <= i < r.end ==> Tick(line, i))
    && !Tick(line, r.start - 1) && !Tick(line, r.end)
  }

  /** A run is nothing but backticks, with none beside it. */
  lemma {:induction false} RunIsBackticks(line: string, r: Run)
    ensures IsRun(line, r) <==>
      && r.start < r.end <= |line| && line[r.start..r.end] == seq(r.end - r.start, _ => '`')
      && (r.start > 0 ==> line[r.start - 1] != '`') && (r.end < |line| ==> line[r.end] != '`')
  {
    if r.start < r.end <= |line| {
      var part := line[r.start..r.end];
      forall i | r.start <= i < r.end ensures part[i - r.start] == line[i] && (Tick(line, i) <==> line[i] == '`') {
      }
      if IsRun(line, r) {
        forall k | 0 <= k < |part| ensures part[k] == '`' {
          assert Tick(line, r.start + k);
        }
      }
      if part == seq(r.end - r.start, _ => '`') {
        forall i | r.start <= i < r.end ensures Tick(line, i) {
          assert part[i - r.start] == '`';
        }
      }
    }
  }

  function Length(r: Run): int {
    r.end - r.start
  }

  /** `next` is the nearest run after `r` that has the same length. */
  ghost predicate IsNextEqual(line: string, r: Run, next: Run) {
    && IsRun(line, r) && IsRun(line, next)
    && r.end < next.start && Length(next) == Length(r)
    && forall q: Run :: IsRun(line, q) && r.end < q.start && q.end < next.start ==> Length(q) != Length(r)
  }

  // ------------------------------------------------------------- the naive search

  function RunEnd(line: string, i: nat): (e: nat)
    requires i <= |line|
    ensures i <= e <= |line| && (forall k :: i <= k < e ==> Tick(line, k)) && !Tick(line, e)
    decreases |line| - i
  {
    if Tick(line, i) then RunEnd(line, i + 1) else i
  }

  /** The first run from `i` on with the given length, looking at one run after the other. */
  function Search(line: string, i: nat, length: int): Option<Run>
    requires i <= |line|
    decreases |line| - i
  {
    if i == |line| then None
    else if !Tick(line, i) then Search(line, i + 1, length)
    else if RunEnd(line, i) - i == length then Some(Run(i, RunEnd(line, i)))
    else Search(line, RunEnd(line, i), length)
  }

  predicate Opens(line: string, i: int) {
    Tick(line, i) && !Tick(line, i - 1)
  }

  function EndOf(found: Option<Run>): Option<int> {
    if found.None? then None else Some(found.value.end)
  }

  /** Where the code span opened by the run at `i` ends. */
  function SpanEnd(line: string, i: int): Option<int> {
    if !Opens(line, i) then None
    else EndOf(Search(line, RunEnd(line, i), RunEnd(line, i) - i))
  }

  lemma RunsAreWhole(line: string, p: Run, q: Run)
    requires IsRun(line, p) && IsRun(line, q)
    ensures p == q || p.end < q.start || q.end < p.start
  {
    assert p.start == q.start && p.end < q.end ==> Tick(line, p.end);
    assert p.start == q.start && q.end < p.end ==> Tick(line, q.end);
    assert p.start < q.start <= p.end ==> Tick(line, q.start - 1);
    assert q.start < p.start <= q.end ==> Tick(line, p.start - 1);
  }

  lemma OpensARun(line: string, i: int)
    requires Opens(line, i)
    ensures IsRun(line, Run(i, RunEnd(line, i)))
  {
  }

  /** `found` is the nearest run of this length from `i` on, if there is any. */
  ghost predicate Nearest(line: string, i: nat, length: int, found: Option<Run>) {
    match found
    case None => forall q: Run :: IsRun(line, q) && i <= q.start ==> Length(q) != length
    case Some(r) =>
      && IsRun(line, r) && i <= r.start && Length(r) == length
      && forall q: Run :: IsRun(line, q) && i <= q.start && q.end < r.start ==> Length(q) != length
  }

  lemma NearestIsUnique(line: string, i: nat, length: int, found: Option<Run>, other: Option<Run>)
    requires Nearest(line, i, length, found) && Nearest(line, i, length, other)
    ensures found == other
  {
    hide IsRun;
    if found.Some? && other.Some? {
      RunsAreWhole(line, found.value, other.value);
    }
  }

  lemma {:induction false} SearchFinds(line: string, i: nat, length: int)
    requires i <= |line| && !(Tick(line, i) && Tick(line, i - 1))
    ensures Nearest(line, i, length, Search(line, i, length))
    decreases |line| - i
  {
    hide IsRun;
    if i < |line| {
      if !Tick(line, i) {
        SearchFinds(line, i + 1, length);
        forall q: Run | IsRun(line, q) && i <= q.start ensures i + 1 <= q.start { StartsTicked(line, q); }
      } else {
        var here := Run(i, RunEnd(line, i));
        OpensARun(line, i);
        if Length(here) != length {
          SearchFinds(line, here.end, length);
        }
        forall q: Run | IsRun(line, q) && i <= q.start ensures q == here || here.end < q.start {
          RunsAreWhole(line, here, q);
          StartsTicked(line, q);
        }
      }
    } else {
      forall q: Run | IsRun(line, q) ensures q.start < i { StartsTicked(line, q); }
    }
  }

  lemma StartsTicked(line: string, r: Run)
    requires IsRun(line, r)
    ensures r.start < r.end <= |line| && Opens(line, r.start) && RunEnd(line, r.start) == r.end && !Tick(line, r.end)
  {
    var e := RunEnd(line, r.start);
    assert e < r.end ==> Tick(line, e);
    assert r.end < e ==> Tick(line, r.end);
  }

  /** A run opens a code span exactly when a later run has its length, and the span ends with the nearest one. */
  lemma SpanEndIsNext(line: string, i: int, end: int)
    ensures SpanEnd(line, i) == Some(end) <==> exists r: Run, next: Run :: r.start == i && next.end == end && IsNextEqual(line, r, next)
  {
    hide IsRun, Search;
    if Opens(line, i) {
      var r := Run(i, RunEnd(line, i));
      OpensARun(line, i);
      SearchFinds(line, r.end, Length(r));
      var found := Search(line, r.end, Length(r));
      if found.Some? {
        RunsAreWhole(line, r, found.value);
        StartsTicked(line, found.value);
        assert IsNextEqual(line, r, found.value);
      }
      if s: Run, next: Run :| s.start == i && next.end == end && IsNextEqual(line, s, next) {
        StartsTicked(line, s);
        assert Nearest(line, r.end, Length(r), Some(next)) by { NextIsNearest(line, r, next); }
        NearestIsUnique(line, r.end, Length(r), found, Some(next));
      }
    } else {
      forall r: Run, next: Run | IsNextEqual(line, r, next) ensures r.start != i { StartsTicked(line, r); }
    }
  }

  lemma NextIsNearest(line: string, r: Run, next: Run)
    requires IsNextEqual(line, r, next)
    ensures Nearest(line, r.end, Length(r), Some(next))
  {
    hide IsRun;
    forall q: Run | IsRun(line, q) && r.end <= q.start ensures r.end < q.start {
      RunsAreWhole(line, r, q);
      StartsTicked(line, q);
    }
  }

  // --------------------------------------------------------------- the linear pass

  ghost predicate AllRuns(line: string, runs: seq<Run>, upto: nat) {
    && (forall k :: 0 <= k < |runs| ==> IsRun(line, runs[k]) && runs[k].end <= upto)
    && (forall j, k :: 0 <= j < k < |runs| ==> runs[j].end < runs[k].start)
    && (forall r: Run :: IsRun(line, r) && r.start < upto ==> r in runs)
  }

  /** `re.finditer`: all maximal runs, in order. */
  method FindRuns(line: string) returns (runs: seq<Run>)
    ensures AllRuns(line, runs, |line|)
  {
    hide IsRun;
    runs := [];
    var i := 0;
    while i < |line|
      invariant i <= |line| && AllRuns(line, runs, i)
      invariant !(Tick(line, i) && Tick(line, i - 1))
    {
      if line[i] != '`' {
        forall r: Run | IsRun(line, r) ensures r.start != i { StartsTicked(line, r); }
        i := i + 1;
      } else {
        var end := RunEnd(line, i);
        var run := Run(i, end);
        OpensARun(line, i);
        forall r: Run | IsRun(line, r) && r.start < end ensures r in runs + [run] {
          RunsAreWhole(line, r, run);
          StartsTicked(line, r);
        }
        forall k | 0 <= k < |runs| ensures runs[k].end < i {
          RunsAreWhole(line, runs[k], run);
          StartsTicked(line, runs[k]);
        }
        runs := runs + [run];
        i := end;
      }
    }
  }

  /** Among the runs from the `k`th on, the first with the given length. */
  function FirstEqual(runs: seq<Run>, k: nat, length: int): Option<Run>
    requires k <= |runs|
    decreases |runs| - k
  {
    if k == |runs| then None
    else if Length(runs[k]) == length then Some(runs[k])
    else FirstEqual(runs, k + 1, length)
  }

  lemma {:induction false} FirstEqualFinds(line: string, runs: seq<Run>, k: nat, length: int, i: nat)
    requires AllRuns(line, runs, |line|) && k <= |runs|
    requires forall j :: 0 <= j < |runs| ==> (j < k <==> runs[j].start < i)
    ensures Nearest(line, i, length, FirstEqual(runs, k, length))
    decreases |runs| - k
  {
    hide IsRun;
    forall j | 0 <= j < |runs| ensures runs[j].start < runs[j].end { StartsTicked(line, runs[j]); }
    forall q: Run | IsRun(line, q) && i <= q.start
      ensures k < |runs| && (q == runs[k] || runs[k].end < q.start)
    {
      StartsTicked(line, q);
      var j :| 0 <= j < |runs| && runs[j] == q;
    }
    if k < |runs| && Length(runs[k]) != length {
      FirstEqualFinds(line, runs, k + 1, length, runs[k].start + 1);
    }
  }

  /** A run's span ends with the first equal run among the later ones. */
  lemma SpanEndOfRun(line: string, runs: seq<Run>, k: nat)
    requires AllRuns(line, runs, |line|) && k < |runs|
    ensures SpanEnd(line, runs[k].start) == EndOf(FirstEqual(runs, k + 1, Length(runs[k])))
  {
    hide IsRun, Search, FirstEqual;
    var r := runs[k];
    StartsTicked(line, r);
    SearchFinds(line, r.end, Length(r));
    forall j | 0 <= j < |runs| ensures j < k + 1 <==> runs[j].start < r.end { StartsTicked(line, runs[j]); }
    FirstEqualFinds(line, runs, k + 1, Length(r), r.end);
    NearestIsUnique(line, r.end, Length(r), Search(line, r.end, Length(r)), FirstEqual(runs, k + 1, Length(r)));
  }

  lemma OnlyRunsOpen(line: string, runs: seq<Run>, i: int)
    requires AllRuns(line, runs, |line|) && SpanEnd(line, i).Some?
    ensures exists k :: 0 <= k < |runs| && runs[k].start == i
  {
    hide IsRun;
    OpensARun(line, i);
    var k :| 0 <= k < |runs| && runs[k] == Run(i, RunEnd(line, i));
  }

  /** `following` maps a length to the end of the first such run from the `k`th on. */
  ghost predicate Follows(runs: seq<Run>, k: nat, following: map<int, int>) {
    && k <= |runs|
    && (forall length :: length in following <==> FirstEqual(runs, k, length).Some?)
    && (forall length :: length in following ==> EndOf(FirstEqual(runs, k, length)) == Some(following[length]))
  }

  /** `ends` has the spans opened by the runs from the `k`th on. */
  ghost predicate EndsFrom(line: string, runs: seq<Run>, k: nat, ends: map<int, int>) {
    && k <= |runs|
    && (forall i :: i in ends ==> SpanEnd(line, i) == Some(ends[i]))
    && (forall j :: k <= j < |runs| && SpanEnd(line, runs[j].start).Some? ==> runs[j].start in ends)
  }

  lemma NothingFollows(runs: seq<Run>)
    ensures Follows(runs, |runs|, map[])
  {
  }

  lemma FollowsOneMore(runs: seq<Run>, k: nat, following: map<int, int>)
    requires Follows(runs, k + 1, following)
    ensures Follows(runs, k, following[Length(runs[k]) := runs[k].end])
    ensures Length(runs[k]) in following <==> FirstEqual(runs, k + 1, Length(runs[k])).Some?
    ensures Length(runs[k]) in following ==> EndOf(FirstEqual(runs, k + 1, Length(runs[k]))) == Some(following[Length(runs[k])])
  {
  }

  /** `_release_code_span_ends`: one scan and one reverse pass give what the naive search gives at every index. */
  method CodeSpanEnds(line: string) returns (ends: map<int, int>)
    ensures forall i :: i in ends <==> SpanEnd(line, i).Some?
    ensures forall i :: i in ends ==> SpanEnd(line, i) == Some(ends[i])
  {
    hide SpanEnd, IsRun, Follows, FirstEqual, Search, RunEnd, AllRuns;
    var runs := FindRuns(line);
    var following: map<int, int> := map[];
    ends := map[];
    var k := |runs|;
    NothingFollows(runs);
    while k > 0
      invariant 0 <= k <= |runs| && Follows(runs, k, following) && EndsFrom(line, runs, k, ends)
    {
      k := k - 1;
      var start, end := runs[k].start, runs[k].end;
      var length := Length(runs[k]);
      SpanEndOfRun(line, runs, k);
      FollowsOneMore(runs, k, following);
      if length in following {
        ends := ends[start := following[length]];
      }
      following := following[length := end];
    }
    forall i | SpanEnd(line, i).Some? ensures i in ends {
      OnlyRunsOpen(line, runs, i);
    }
  }
}
