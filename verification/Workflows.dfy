/** The walk over callable workflows: visited pruning together with cycle detection on the chain. */
module Workflows {
  import opened Wrappers

  const LOCAL_PREFIX := "./.github/workflows/"

  datatype Job = Job(uses: string, runsOn: bool, timeout: bool)

  /** `triggers` is `None` when the `on` entry is not a mapping. */
  datatype Workflow = Workflow(triggers: Option<set<string>>, jobs: seq<Job>)

  type Graph = map<string, Workflow>

  datatype Error =
    | Recursive(at: string)
    | Missing(at: string)
    | NotCallable(at: string)
    | ForeignTrigger(at: string)
    | NoTimeout(at: string)

  predicate IsLocal(job: Job) {
    LOCAL_PREFIX <= job.uses
  }

  /** `reference.rsplit("/", 1)[-1]`. */
  function BaseName(reference: string): string {
    if reference == "" then ""
    else if reference[|reference| - 1] == '/' then ""
    else BaseName(reference[..|reference| - 1]) + [reference[|reference| - 1]]
  }

  /** The name is what stands behind the last slash, if there is one. */
  ghost predicate IsBaseName(reference: string, dir: string, name: string) {
    reference == dir + name && '/' !in name && (dir == "" || dir[|dir| - 1] == '/')
  }

  lemma {:induction false} BaseNameIsExact(reference: string, name: string)
    ensures name == BaseName(reference) <==> exists dir :: IsBaseName(reference, dir, name)
  {
    hide BaseName;
    var dir := DirOf(reference);
    forall d | IsBaseName(reference, d, name) ensures name == BaseName(reference) {
      DirReaches(reference, d, name, dir, BaseName(reference));
      DirReaches(reference, dir, BaseName(reference), d, name);
      assert name == reference[|d|..] && BaseName(reference) == reference[|dir|..];
    }
  }

  lemma DirReaches(reference: string, dir: string, name: string, dir': string, name': string)
    requires IsBaseName(reference, dir, name) && IsBaseName(reference, dir', name')
    ensures |dir'| <= |dir|
  {
    assert forall k :: |dir| <= k < |reference| ==> reference[k] == name[k - |dir|] && reference[k] in name;
    assert dir' != "" ==> reference[|dir'| - 1] == '/';
  }

  lemma {:induction false} DirOf(reference: string) returns (dir: string)
    ensures IsBaseName(reference, dir, BaseName(reference))
  {
    if reference == "" || reference[|reference| - 1] == '/' {
      dir := reference;
      assert reference == dir + "";
    } else {
      var less := reference[..|reference| - 1];
      dir := DirOf(less);
      assert reference == less + [reference[|reference| - 1]];
    }
  }

  // ------------------------------------------------------------ what is promised

  predicate Calls(w: Workflow, target: string) {
    exists i :: 0 <= i < |w.jobs| && IsLocal(w.jobs[i]) && BaseName(w.jobs[i].uses) == target
  }

  predicate Acceptable(w: Workflow) {
    && w.triggers.Some?
    && "workflow_call" in w.triggers.value
    && w.triggers.value <= {"workflow_call", "workflow_dispatch"}
    && forall i :: 0 <= i < |w.jobs| && !IsLocal(w.jobs[i]) && w.jobs[i].runsOn ==> w.jobs[i].timeout
  }

  predicate Edge(g: Graph, n: string, m: string) {
    n in g && Calls(g[n], m)
  }

  ghost predicate Path(g: Graph, p: seq<string>) {
    p != [] && forall i :: 0 <= i < |p| - 1 ==> Edge(g, p[i], p[i + 1])
  }

  ghost predicate Reachable(g: Graph, roots: set<string>, n: string) {
    exists p :: Path(g, p) && p[0] in roots && p[|p| - 1] == n
  }

  ghost predicate OnCycle(g: Graph, n: string) {
    exists p :: Path(g, p) && |p| >= 2 && p[0] == n && p[|p| - 1] == n
  }

  /** Every workflow below the validators exists, is acceptable and calls itself neither directly nor indirectly. */
  ghost predicate Sound(g: Graph, roots: set<string>) {
    forall n :: Reachable(g, roots, n) ==> n in g && Acceptable(g[n]) && !OnCycle(g, n)
  }

  /** What a raised error says about the graph. */
  ghost predicate Justified(g: Graph, roots: set<string>, e: Error) {
    && Reachable(g, roots, e.at)
    && match e
       case Recursive(n) => OnCycle(g, n)
       case Missing(n) => n !in g
       case _ => e.at in g && !Acceptable(g[e.at])
  }

  /** A job that calls a workflow of this repository by that file name. */
  ghost predicate CallsFile(job: Job, file: string) {
    |job.uses| >= 20 && job.uses[..20] == "./.github/workflows/" && exists dir :: IsBaseName(job.uses, dir, file)
  }

  /** One workflow calls another exactly when one of its jobs names a file under the repository's workflow directory,
  whose name is that of the other. */
  lemma {:induction false} EdgeIsExact(g: Graph, n: string, m: string)
    ensures Edge(g, n, m) <==> n in g && exists i :: 0 <= i < |g[n].jobs| && CallsFile(g[n].jobs[i], m)
  {
    hide BaseName, IsBaseName;
    if n in g {
      forall i | 0 <= i < |g[n].jobs|
        ensures CallsFile(g[n].jobs[i], m) <==> IsLocal(g[n].jobs[i]) && BaseName(g[n].jobs[i].uses) == m
      {
        BaseNameIsExact(g[n].jobs[i].uses, m);
        LocalPrefix(g[n].jobs[i]);
      }
    }
  }

  lemma LocalPrefix(job: Job)
    ensures IsLocal(job) <==> |job.uses| >= 20 && job.uses[..20] == "./.github/workflows/"
  {
    assert |LOCAL_PREFIX| == 20;
  }

  /** A workflow that can be called, manually dispatched, and nothing else, and whose own jobs all end. */
  ghost predicate Callable(w: Workflow) {
    && (w.triggers == Some({"workflow_call"}) || w.triggers == Some({"workflow_call", "workflow_dispatch"}))
    && forall job :: job in w.jobs && job.runsOn && (exists file :: CallsFile(job, file)) == false ==> job.timeout
  }

  lemma {:induction false} AcceptableIsCallable(w: Workflow)
    ensures Acceptable(w) <==> Callable(w)
  {
    hide IsLocal, CallsFile;
    forall job: Job ensures (exists file :: CallsFile(job, file)) <==> IsLocal(job) {
      LocalCalls(job);
    }
    if Callable(w) {
      forall i | 0 <= i < |w.jobs| && !IsLocal(w.jobs[i]) && w.jobs[i].runsOn ensures w.jobs[i].timeout {
        assert w.jobs[i] in w.jobs;
      }
    }
    if w.triggers.Some? {
      var t := w.triggers.value;
      assert "workflow_call" in t && t <= {"workflow_call", "workflow_dispatch"} ==>
        if "workflow_dispatch" in t then t == {"workflow_call", "workflow_dispatch"} else t == {"workflow_call"};
    }
  }

  lemma LocalCalls(job: Job)
    ensures (exists file :: CallsFile(job, file)) <==> IsLocal(job)
  {
    hide BaseName, IsBaseName;
    LocalPrefix(job);
    BaseNameIsExact(job.uses, BaseName(job.uses));
    assert IsLocal(job) ==> CallsFile(job, BaseName(job.uses));
  }

  // -------------------------------------------------------------- finished nodes

  predicate Distinct(s: seq<string>) {
    forall i, j :: 0 <= i < j < |s| ==> s[i] != s[j]
  }

  /** Left in this order, every workflow only calls workflows left before it. */
  ghost predicate Finished(g: Graph, order: seq<string>) {
    && Distinct(order)
    && (forall i :: 0 <= i < |order| ==> order[i] in g && Acceptable(g[order[i]]))
    && (forall i, m :: 0 <= i < |order| && Edge(g, order[i], m) ==> m in order[..i])
  }

  lemma {:induction false} PathDescends(g: Graph, order: seq<string>, p: seq<string>, i: nat, k: nat)
    requires Finished(g, order) && Path(g, p) && i < |order| && p[0] == order[i] && 0 < k < |p|
    ensures p[k] in order[..i]
  {
    assert Edge(g, p[k - 1], p[k]);
    if k == 1 {
      assert p[1] in order[..i];
    } else {
      PathDescends(g, order, p, i, k - 1);
      var j :| 0 <= j < i && order[j] == p[k - 1];
      assert p[k] in order[..j];
    }
  }

  lemma FinishedIsAcyclic(g: Graph, order: seq<string>, n: string)
    requires Finished(g, order) && n in order
    ensures !OnCycle(g, n)
  {
    var i :| 0 <= i < |order| && order[i] == n;
    forall p | Path(g, p) && |p| >= 2 && p[0] == n ensures p[|p| - 1] != n {
      PathDescends(g, order, p, i, |p| - 1);
      var j :| 0 <= j < i && order[j] == p[|p| - 1];
    }
  }

  lemma {:induction false} FinishedIsClosed(g: Graph, order: seq<string>, p: seq<string>, k: nat)
    requires Finished(g, order) && Path(g, p) && p[0] in order && k < |p|
    ensures p[k] in order
  {
    if k > 0 {
      FinishedIsClosed(g, order, p, k - 1);
      assert Edge(g, p[k - 1], p[k]);
      var i :| 0 <= i < |order| && order[i] == p[k - 1];
      assert p[k] in order[..i];
    }
  }

  lemma {:induction false} FinishedIsSound(g: Graph, roots: set<string>, order: seq<string>)
    requires Finished(g, order)
    requires forall r :: r in roots ==> r in order
    requires forall n :: n in order ==> Reachable(g, roots, n)
    ensures Sound(g, roots)
    ensures forall n :: n in order <==> Reachable(g, roots, n)
  {
    forall n | Reachable(g, roots, n) ensures n in order && n in g && Acceptable(g[n]) && !OnCycle(g, n) {
      var p :| Path(g, p) && p[0] in roots && p[|p| - 1] == n;
      FinishedIsClosed(g, order, p, |p| - 1);
      FinishedIsAcyclic(g, order, n);
    }
  }

  lemma ChainCloses(g: Graph, roots: set<string>, chain: seq<string>, n: string)
    requires Path(g, chain + [n]) && (chain + [n])[0] in roots && n in chain
    ensures OnCycle(g, n)
  {
    var i :| 0 <= i < |chain| && chain[i] == n;
    var p := chain[i..] + [n];
    forall j | 0 <= j < |p| - 1 ensures Edge(g, p[j], p[j + 1]) {
      assert p[j] == (chain + [n])[i + j] && p[j + 1] == (chain + [n])[i + j + 1];
    }
    assert Path(g, p);
  }

  // -------------------------------------------------------------------- the walk

  /** Visited workflows are either finished or on the chain now being followed. */
  ghost predicate WalkState(g: Graph, roots: set<string>, visited: set<string>, order: seq<string>, chain: seq<string>) {
    && Finished(g, order)
    && (forall n :: n in visited <==> n in order || n in chain)
    && (forall n :: n in chain ==> n !in order)
    && (forall n :: n in visited ==> Reachable(g, roots, n))
  }

  ghost predicate ChainTo(g: Graph, roots: set<string>, chain: seq<string>, n: string) {
    Path(g, chain + [n]) && (chain + [n])[0] in roots
  }

  lemma Enter(g: Graph, roots: set<string>, visited: set<string>, order: seq<string>, chain: seq<string>, n: string)
    requires WalkState(g, roots, visited, order, chain) && n !in visited && ChainTo(g, roots, chain, n)
    ensures WalkState(g, roots, visited + {n}, order, chain + [n])
  {
    assert Reachable(g, roots, n);
    assert forall m :: m in chain + [n] <==> m in chain || m == n;
  }

  /** A workflow joins the finished ones once all its calls are finished. */
  lemma Leave(g: Graph, roots: set<string>, visited: set<string>, order: seq<string>, chain: seq<string>, n: string)
    requires WalkState(g, roots, visited, order, chain + [n]) && n !in chain
    requires n in g && Acceptable(g[n])
    requires forall m :: Edge(g, n, m) ==> m in order
    ensures WalkState(g, roots, visited, order + [n], chain)
  {
    assert forall m :: m in chain + [n] <==> m in chain || m == n;
    var order' := order + [n];
    forall i, m | 0 <= i < |order'| && Edge(g, order'[i], m) ensures m in order'[..i] {
      assert order'[..i] == order[..i];
      if i == |order| { assert order[..i] == order; }
    }
  }

  lemma Follow(g: Graph, roots: set<string>, chain: seq<string>, n: string, m: string)
    requires ChainTo(g, roots, chain, n) && Edge(g, n, m)
    ensures ChainTo(g, roots, chain + [n], m)
  {
  }

  ghost predicate JobDone(job: Job, order: seq<string>) {
    if IsLocal(job) then BaseName(job.uses) in order else job.runsOn ==> job.timeout
  }

  ghost predicate JobsDone(w: Workflow, order: seq<string>, count: nat)
    requires count <= |w.jobs|
  {
    forall k :: 0 <= k < count ==> JobDone(w.jobs[k], order)
  }

  lemma JobsDoneGrow(w: Workflow, order: seq<string>, count: nat, order': seq<string>)
    requires count <= |w.jobs| && JobsDone(w, order, count) && order <= order'
    ensures JobsDone(w, order', count)
  {
  }

  lemma JobRefused(g: Graph, roots: set<string>, chain: seq<string>, n: string, i: nat)
    requires ChainTo(g, roots, chain, n) && n in g && i < |g[n].jobs|
    requires !IsLocal(g[n].jobs[i]) && g[n].jobs[i].runsOn && !g[n].jobs[i].timeout
    ensures Justified(g, roots, NoTimeout(n))
  {
    assert Reachable(g, roots, n);
  }

  /** The `visited` set shared by all recursive calls. */
  class Walk {
    var visited: set<string>
    ghost var order: seq<string>

    ghost predicate Valid(g: Graph, roots: set<string>, chain: seq<string>)
      reads this
    {
      WalkState(g, roots, visited, order, chain)
    }

    constructor ()
      ensures visited == {} && order == []
    {
      visited, order := {}, [];
    }

    /** `_callable_workflow`. */
    method Visit(g: Graph, filename: string, chain: seq<string>, ghost roots: set<string>) returns (r: Option<Error>)
      requires Valid(g, roots, chain) && ChainTo(g, roots, chain, filename)
      modifies this
      ensures r.None? ==> Valid(g, roots, chain) && filename in order && old(order) <= order
      ensures r.Some? ==> Justified(g, roots, r.value)
      ensures old(visited) <= visited
      decreases g.Keys - visited, 0
    {
      assert Reachable(g, roots, filename);
      if filename in chain {
        ChainCloses(g, roots, chain, filename);
        return Some(Recursive(filename));
      }
      if filename in visited {
        return None;
      }
      if filename !in g {
        return Some(Missing(filename));
      }
      var workflow := g[filename];
      if workflow.triggers.None? || "workflow_call" !in workflow.triggers.value {
        return Some(NotCallable(filename));
      }
      if !(workflow.triggers.value <= {"workflow_call", "workflow_dispatch"}) {
        return Some(ForeignTrigger(filename));
      }
      Enter(g, roots, visited, order, chain, filename);
      assert filename in g.Keys - visited;
      visited := visited + {filename};
      r := VisitJobs(g, filename, chain, roots);
      if r.None? {
        Leave(g, roots, visited, order, chain, filename);
        order := order + [filename];
      }
    }

    /** The loop over the jobs of a workflow just marked as visited. */
    method VisitJobs(g: Graph, filename: string, chain: seq<string>, ghost roots: set<string>) returns (r: Option<Error>)
      requires filename in g && Valid(g, roots, chain + [filename]) && ChainTo(g, roots, chain, filename)
      modifies this
      ensures r.None? ==> Valid(g, roots, chain + [filename]) && JobsDone(g[filename], order, |g[filename].jobs|)
      ensures r.None? ==> old(order) <= order
      ensures r.Some? ==> Justified(g, roots, r.value)
      ensures old(visited) <= visited
      decreases g.Keys - visited, 1
    {
      hide BaseName, WalkState, Justified, Reachable;
      var jobs := g[filename].jobs;
      for i := 0 to |jobs|
        invariant Valid(g, roots, chain + [filename])
        invariant old(order) <= order && old(visited) <= visited
        invariant JobsDone(g[filename], order, i)
      {
        var job := jobs[i];
        if IsLocal(job) {
          var target := BaseName(job.uses);
          assert Calls(g[filename], target);
          Follow(g, roots, chain, filename, target);
          ghost var before := order;
          r := Visit(g, target, chain + [filename], roots);
          if r.Some? {
            return;
          }
          JobsDoneGrow(g[filename], before, i, order);
          assert JobsDone(g[filename], order, i + 1);
        } else if job.runsOn && !job.timeout {
          JobRefused(g, roots, chain, filename, i);
          return Some(NoTimeout(filename));
        }
      }
      return None;
    }
  }

  function Roots(validators: seq<string>): set<string> {
    set v | v in validators
  }

  lemma JustifiedIsUnsound(g: Graph, roots: set<string>, e: Error)
    requires Justified(g, roots, e)
    ensures !Sound(g, roots)
  {
  }

  lemma SoundIsCallable(g: Graph, roots: set<string>)
    ensures Sound(g, roots) <==> forall n :: Reachable(g, roots, n) ==> n in g && Callable(g[n]) && !OnCycle(g, n)
  {
    hide Acceptable, Callable, Reachable, OnCycle;
    forall w ensures Acceptable(w) <==> Callable(w) {
      AcceptableIsCallable(w);
    }
  }

  /** `validate_graph`: succeeds exactly on sound graphs, and then returns the reachable workflows. */
  method ValidateGraph(g: Graph, validators: seq<string>) returns (r: Result<set<string>, Error>)
    ensures r.Ok? <==> Sound(g, Roots(validators))
    ensures r.Ok? ==> forall n :: n in r.value <==> Reachable(g, Roots(validators), n)
    ensures r.Err? ==> Justified(g, Roots(validators), r.error)
  {
    hide Justified, Sound;
    ghost var roots := Roots(validators);
    var walk := new Walk();
    for i := 0 to |validators|
      invariant walk.Valid(g, roots, [])
      invariant forall k :: 0 <= k < i ==> validators[k] in walk.order
    {
      assert ChainTo(g, roots, [], validators[i]);
      var error := walk.Visit(g, validators[i], [], roots);
      if error.Some? {
        JustifiedIsUnsound(g, roots, error.value);
        return Err(error.value);
      }
    }
    FinishedIsSound(g, roots, walk.order);
    return Ok(walk.visited);
  }
}
