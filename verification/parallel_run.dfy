/** A whole run with concurrent phases: kinds strictly in order, the tasks of each kind in any interleaving. */
module ParallelRun {
  import opened Values
  import opened Kinds
  import opened Manifests
  import opened ReconcileSpec
  import opened Parallel
  import opened PruneLaws
  import opened Convergence

  // A phase always comes to its end.

  function Remaining<O, A>(j: Job<O, A>, s: State<O, A>): int {
    3 * (|j.keys| - s.launched) + 2 * |s.running| + |s.ran|
  }

  lemma Moved(from: set<int>, into: set<int>, i: int)
    requires i in from && i !in into
    ensures |from - {i}| == |from| - 1 && |into + {i}| == |into| + 1
  {
  }

  lemma StepShortens<O, A>(j: Job<O, A>, s: State<O, A>, step: Step)
    requires WellFormed(j) && Partition(j, s) && Enabled(j, s, step)
    ensures Remaining(j, Do(j, s, step)) < Remaining(j, s)
  {
    match step
    case Launch =>
      if j.enabled[s.launched] {
        assert |s.running + {s.launched}| <= |s.running| + 1;
      }
    case Work(i) => Moved(s.running, s.ran, i);
    case Record(i) =>
      assert s.ran == (s.ran - {i}) + {i};
  }

  lemma {:induction false} StepsAreFew<O, A>(j: Job<O, A>, acc: A, store: Store, s: State<O, A>, steps: seq<Step>,
                                             t: State<O, A>)
    requires WellFormed(j) && Inv(j, acc, store, s) && Leads(j, s, steps, t)
    ensures |steps| + Remaining(j, t) <= Remaining(j, s)
    decreases |steps|
  {
    if steps != [] {
      StepKeepsInv(j, acc, store, s, steps[0]);
      StepShortens(j, s, steps[0]);
      StepsAreFew(j, acc, store, Do(j, s, steps[0]), steps[1..], t);
    }
  }

  lemma SomeMember<T>(s: set<T>) returns (i: T)
    requires s != {}
    ensures i in s
  {
    i :| i in s;
  }

  lemma NotStuck<O, A>(j: Job<O, A>, acc: A, store: Store, s: State<O, A>)
    requires WellFormed(j) && Inv(j, acc, store, s)
    ensures Finished(j, s) <==> forall step :: !Enabled(j, s, step)
  {
    if s.running != {} {
      var i := SomeMember(s.running);
      assert Enabled(j, s, Work(i));
    } else if s.ran != {} {
      var i := SomeMember(s.ran);
      assert Enabled(j, s, Record(i));
    } else if s.launched < |j.keys| {
      assert Enabled(j, s, Launch);
    }
  }

  /** Every interleaving of a phase ends: it takes at most three steps a task, and until the phase has finished there is
      a step to take. */
  lemma PhaseEnds<O, A>(j: Job<O, A>, acc: A, store: Store, steps: seq<Step>, t: State<O, A>)
    requires WellFormed(j) && Leads(j, Start(acc, store), steps, t)
    ensures |steps| <= 3 * |j.keys|
    ensures Finished(j, t) <==> forall step :: !Enabled(j, t, step)
  {
    RunKeepsInv(j, acc, store, Start(acc, store), steps, t);
    StepsAreFew(j, acc, store, Start(acc, store), steps, t);
    NotStuck(j, acc, store, t);
  }

  // The run, phase by phase.

  ghost predicate Observes(p: Provider, env: Env, rs: seq<Resource>, force: bool, limit: nat, store: Store,
                           steps: seq<Step>, t: State<Change, ()>, cs: seq<Change>) {
    var j := ObserveJob(p, env, rs, force, limit);
    && Leads(j, Start((), store), steps, t) && Finished(j, t)
    && |cs| == |rs| && forall i | 0 <= i < |rs| :: i in t.slots && cs[i] == t.slots[i]
  }

  ghost predicate ExecutesTo(p: Provider, env: Env, cs: seq<Change>, rs: seq<Resource>, limit: nat, store: Store,
                             steps: seq<Step>, t: State<Option<string>, Result>)
    requires |cs| == |rs|
  {
    var j := ExecuteJob(p, env, cs, rs, limit);
    Leads(j, Start(NO_RESULT, store), steps, t) && Finished(j, t)
  }

  /** The change list is counted after the observe phase; a real run then executes it. */
  ghost predicate KindRuns(p: Provider, env: Env, rs: seq<Resource>, opts: Opts, limit: nat, run: Run, next: Run) {
    exists steps, t, cs :: Observes(p, env, rs, opts.force, limit, run.store, steps, t, cs)
      && next.plan == AddChanges(run.plan, cs, rs)
      && if opts.dryRun then next.result == run.result && next.store == t.store
         else KindExecutes(p, env, cs, rs, limit, run.result, t.store, next)
  }

  ghost predicate KindExecutes(p: Provider, env: Env, cs: seq<Change>, rs: seq<Resource>, limit: nat, result: Result,
                               store: Store, next: Run)
    requires |cs| == |rs|
  {
    exists steps, t :: ExecutesTo(p, env, cs, rs, limit, store, steps, t)
                       && next.result == Merge(result, t.acc) && next.store == t.store
  }

  ghost predicate KindsRun(p: Provider, env: Env, rs: seq<Resource>, opts: Opts, limit: nat, kinds: seq<Kind>, run: Run,
                           next: Run) {
    if kinds == [] then next == run
    else
      var n := |kinds| - 1;
      exists mid :: KindsRun(p, env, rs, opts, limit, kinds[..n], run, mid)
                    && KindRuns(p, env, OfKind(rs, kinds[n]), opts, limit, mid, next)
  }

  /** `done` is how a concurrent run may end. */
  ghost predicate Runs(p: Provider, env: Env, rs: seq<Resource>, opts: Opts, limit: nat, store: Store, done: Run) {
    exists applied :: KindsRun(p, env, rs, opts, limit, ApplyOrder(), Run(NO_PLAN, NO_RESULT, store), applied)
                      && done == Finish(p, rs, opts, applied)
  }

  /** Equal but for the order of the error lines. */
  ghost predicate Same(a: Run, b: Run) {
    a.plan == b.plan && a.store == b.store && Summarize(a.result) == Summarize(b.result)
  }

  lemma MergeSummaries(a: Result, b: Result, c: Result, d: Result)
    requires Summarize(a) == Summarize(c) && Summarize(b) == Summarize(d)
    ensures Summarize(Merge(a, b)) == Summarize(Merge(c, d))
  {
  }

  lemma KindRefines(p: Provider, env: Env, rs: seq<Resource>, opts: Opts, limit: nat, run: Run, next: Run, q: Run)
    requires Distinct(rs) && limit >= 1 && KindRuns(p, env, rs, opts, limit, run, next) && Same(run, q)
    ensures Same(next, KindPass(p, env, rs, opts, q))
  {
    var steps, t, cs :| Observes(p, env, rs, opts.force, limit, run.store, steps, t, cs)
                        && next.plan == AddChanges(run.plan, cs, rs)
                        && if opts.dryRun then next.result == run.result && next.store == t.store
                           else KindExecutes(p, env, cs, rs, limit, run.result, t.store, next);
    ParallelObserveRefines(p, env, rs, opts.force, limit, run.store, steps, t);
    assert cs == ObserveAll(p, env, rs, opts.force, run.store);
    if !opts.dryRun {
      ExecutionRefines(p, env, cs, rs, limit, run.result, t.store, next, q.result);
    }
  }

  lemma ExecutionRefines(p: Provider, env: Env, cs: seq<Change>, rs: seq<Resource>, limit: nat, result: Result,
                         store: Store, next: Run, other: Result)
    requires |cs| == |rs| && Distinct(rs) && limit >= 1 && Summarize(result) == Summarize(other)
    requires KindExecutes(p, env, cs, rs, limit, result, store, next)
    ensures var x := ExecuteAll(p, env, cs, rs, Exec(store, NO_RESULT));
            next.store == x.store && Summarize(next.result) == Summarize(Merge(other, x.result))
  {
    var steps, t :| ExecutesTo(p, env, cs, rs, limit, store, steps, t)
                    && next.result == Merge(result, t.acc) && next.store == t.store;
    ParallelExecuteRefines(p, env, cs, rs, limit, store, steps, t);
    MergeSummaries(result, t.acc, other, ExecuteAll(p, env, cs, rs, Exec(store, NO_RESULT)).result);
  }

  lemma {:induction false} KindsRefine(p: Provider, env: Env, rs: seq<Resource>, opts: Opts, limit: nat,
                                       kinds: seq<Kind>, run: Run, next: Run)
    requires Distinct(rs) && limit >= 1 && KindsRun(p, env, rs, opts, limit, kinds, run, next)
    ensures Same(next, KindPasses(p, env, rs, opts, kinds, run))
  {
    if kinds != [] {
      var n := |kinds| - 1;
      var mid :| KindsRun(p, env, rs, opts, limit, kinds[..n], run, mid)
                 && KindRuns(p, env, OfKind(rs, kinds[n]), opts, limit, mid, next);
      KindsRefine(p, env, rs, opts, limit, kinds[..n], run, mid);
      OfKindDistinct(rs, kinds[n]);
      KindRefines(p, env, OfKind(rs, kinds[n]), opts, limit, mid, next, KindPasses(p, env, rs, opts, kinds[..n], run));
    }
  }

  /** Main result: however the tasks of its phases interleave, a concurrent run ends with the plan, the server state and
      the counts of the sequential run, and with its error lines in some order. */
  lemma ConcurrentRunRefines(p: Provider, env: Env, rs: seq<Resource>, opts: Opts, limit: nat, store: Store, done: Run)
    requires Distinct(rs) && limit >= 1 && Runs(p, env, rs, opts, limit, store, done)
    ensures Same(done, Reconcile(p, env, rs, opts, store))
  {
    var start := Run(NO_PLAN, NO_RESULT, store);
    var applied :| KindsRun(p, env, rs, opts, limit, ApplyOrder(), start, applied)
                   && done == Finish(p, rs, opts, applied);
    KindsRefine(p, env, rs, opts, limit, ApplyOrder(), start, applied);
    if opts.prune {
      var x := Pruned(p, rs, opts.dryRun, applied.store);
      MergeSummaries(applied.result, x.result, Applied(p, env, rs, opts, store).result, x.result);
    }
  }

  // What follows for concurrent runs.

  /** A concurrent run without failures settles every resource of a settleable manifest. */
  lemma ConcurrentRunSettles(p: Provider, env: Env, rs: seq<Resource>, opts: Opts, limit: nat, store: Store, done: Run)
    requires KeepsWrites(p, env, rs) && Distinct(rs) && forall r | r in rs :: Settleable(env, r)
    requires limit >= 1 && !opts.dryRun && Runs(p, env, rs, opts, limit, store, done)
    requires done.result.failed == 0 && done.plan.errors == []
    ensures Settled(p, env, rs, done.store)
  {
    ConcurrentRunRefines(p, env, rs, opts, limit, store, done);
    OneApplySettles(p, env, rs, opts, store);
  }

  /** If it also pruned, the next unforced run, concurrent or not, plans nothing. */
  lemma ConcurrentRerunIsIdle(p: Provider, env: Env, rs: seq<Resource>, opts: Opts, next: Opts, limit: nat,
                              store: Store, done: Run, again: Run)
    requires KeepsWrites(p, env, rs) && TruthfulListing(p) && Removes(p) && ListsAll(p)
    requires Distinct(rs) && forall r | r in rs :: Settleable(env, r)
    requires limit >= 1 && opts.prune && !opts.dryRun && !next.force
    requires Runs(p, env, rs, opts, limit, store, done) && done.result.failed == 0 && done.plan.errors == []
    requires Runs(p, env, rs, next, limit, done.store, again)
    ensures again.plan.creates == 0 && again.plan.updates == 0 && again.plan.deletes == 0
  {
    ConcurrentRunRefines(p, env, rs, opts, limit, store, done);
    ConcurrentRunRefines(p, env, rs, next, limit, done.store, again);
    NothingLeftToPrune(p, env, rs, opts, next, store);
  }

  /** And no orphan is left. */
  lemma ConcurrentPruneLeavesNoOrphan(p: Provider, env: Env, rs: seq<Resource>, opts: Opts, limit: nat, store: Store,
                                      done: Run, k: Key)
    requires Distinct(rs) && ListsAll(p) && Removes(p) && TruthfulListing(p)
    requires limit >= 1 && opts.prune && !opts.dryRun
    requires Runs(p, env, rs, opts, limit, store, done) && done.result.failed == 0
    ensures !IsOrphan(Declared(rs), done.store, k)
  {
    ConcurrentRunRefines(p, env, rs, opts, limit, store, done);
    CleanPruneLeavesNoOrphan(p, env, rs, opts, store, k);
  }
}
