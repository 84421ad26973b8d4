/** The parallel phases of a run: up to `limit` tasks of one kind in flight, in any interleaving. */
module Parallel {
  import opened Values
  import opened Kinds
  import opened Manifests
  import opened ReconcileSpec
  import opened RunFacts

  /** A phase over tasks 0..n: task i works on `keys[i]` alone and yields an output; outputs are folded into
      an accumulator under a mutex.  Tasks that are not enabled are skipped by the launching loop. */
  datatype Job<!O, !A> = Job(keys: seq<Key>, enabled: seq<bool>,
                             work: (int, Option<Entry>) -> (Option<Entry>, O),
                             record: (A, int, O) -> A, limit: nat)

  /** `launched` counts the tasks the loop has passed; `running` have not touched the server yet,
      `ran` have and wait for the mutex, `log` are finished, in order. */
  datatype State<O, A> = State(launched: nat, running: set<int>, ran: set<int>, log: seq<int>,
                               slots: map<int, O>, acc: A, store: Store)

  datatype Step = Launch | Work(i: int) | Record(i: int)

  ghost predicate WellFormed<O, A>(j: Job<O, A>) {
    && |j.enabled| == |j.keys| && j.limit >= 1
    && forall a, b | 0 <= a < b < |j.keys| :: j.keys[a] != j.keys[b]
  }

  predicate Enabled<O, A>(j: Job<O, A>, s: State<O, A>, step: Step) {
    match step
    case Launch => s.launched < |j.enabled| && (j.enabled[s.launched] ==> |s.running| + |s.ran| < j.limit)
    case Work(i) => i in s.running && 0 <= i < |j.keys|
    case Record(i) => i in s.ran && i in s.slots
  }

  function Do<O, A>(j: Job<O, A>, s: State<O, A>, step: Step): State<O, A>
    requires Enabled(j, s, step)
  {
    match step
    case Launch =>
      s.(launched := s.launched + 1, running := if j.enabled[s.launched] then s.running + {s.launched} else s.running)
    case Work(i) =>
      var (after, out) := j.work(i, At(s.store, j.keys[i]));
      s.(running := s.running - {i}, ran := s.ran + {i}, slots := s.slots[i := out],
         store := Put(s.store, j.keys[i], after))
    case Record(i) =>
      s.(ran := s.ran - {i}, log := s.log + [i], acc := j.record(s.acc, i, s.slots[i]))
  }

  /** `steps` can be taken one after the other from `s`, and lead to `t`. */
  ghost predicate Leads<O, A>(j: Job<O, A>, s: State<O, A>, steps: seq<Step>, t: State<O, A>)
    decreases |steps|
  {
    if steps == [] then s == t
    else Enabled(j, s, steps[0]) && Leads(j, Do(j, s, steps[0]), steps[1..], t)
  }

  function Start<O, A>(acc: A, store: Store): State<O, A> {
    State(0, {}, {}, [], map[], acc, store)
  }

  /** The loop has passed every task and every launched task has finished. */
  predicate Finished<O, A>(j: Job<O, A>, s: State<O, A>) {
    s.launched == |j.keys| && s.running == {} && s.ran == {}
  }

  predicate InRange<O, A>(j: Job<O, A>, log: seq<int>) {
    forall n | 0 <= n < |log| :: 0 <= log[n] < |j.keys|
  }

  function Fold<O, A>(j: Job<O, A>, acc: A, store: Store, log: seq<int>): A
    requires InRange(j, log)
  {
    if log == [] then acc
    else
      var i := log[|log| - 1];
      j.record(Fold(j, acc, store, log[..|log| - 1]), i, j.work(i, At(store, j.keys[i])).1)
  }

  ghost predicate Partition<O, A>(j: Job<O, A>, s: State<O, A>)
    requires |j.enabled| == |j.keys|
  {
    && s.launched <= |j.keys|
    && (forall i | 0 <= i < s.launched && j.enabled[i] :: i in s.running || i in s.ran || i in s.log)
    && (forall i | i in s.running || i in s.ran || i in s.log :: 0 <= i < s.launched && j.enabled[i])
    && s.running !! s.ran
    && (forall i | i in s.log :: i !in s.running && i !in s.ran)
    && (forall a, b | 0 <= a < b < |s.log| :: s.log[a] != s.log[b])
  }

  /** What every interleaving keeps, relative to the state the phase started in. */
  ghost predicate Inv<O, A>(j: Job<O, A>, acc: A, store: Store, s: State<O, A>)
    requires |j.enabled| == |j.keys|
  {
    && Partition(j, s)
    && |s.running| + |s.ran| <= j.limit
    && (forall i | i in s.ran || i in s.log ::
          && i in s.slots && s.slots[i] == j.work(i, At(store, j.keys[i])).1
          && At(s.store, j.keys[i]) == j.work(i, At(store, j.keys[i])).0)
    && (forall k: Key | (forall i | i in s.ran || i in s.log :: j.keys[i] != k) :: At(s.store, k) == At(store, k))
    && InRange(j, s.log) && s.acc == Fold(j, acc, store, s.log)
  }

  lemma LaunchKeepsInv<O, A>(j: Job<O, A>, acc: A, store: Store, s: State<O, A>)
    requires WellFormed(j) && Inv(j, acc, store, s) && Enabled(j, s, Launch)
    ensures Inv(j, acc, store, Do(j, s, Launch))
  {
  }

  lemma WorkKeepsInv<O, A>(j: Job<O, A>, acc: A, store: Store, s: State<O, A>, i: int)
    requires WellFormed(j) && Inv(j, acc, store, s) && Enabled(j, s, Work(i))
    ensures Inv(j, acc, store, Do(j, s, Work(i)))
  {
    var t := Do(j, s, Work(i));
    assert Partition(j, t);
    assert t.running + {i} == s.running && |t.running| + 1 == |s.running|;
    assert |t.ran| == |s.ran| + 1;
    assert forall x | x in s.ran || x in s.log :: j.keys[x] != j.keys[i];
    assert At(s.store, j.keys[i]) == At(store, j.keys[i]);
    forall k: Key | forall x | x in t.ran || x in t.log :: j.keys[x] != k
      ensures At(t.store, k) == At(store, k)
    {
      assert i in t.ran;
    }
  }

  lemma RecordKeepsInv<O, A>(j: Job<O, A>, acc: A, store: Store, s: State<O, A>, i: int)
    requires WellFormed(j) && Inv(j, acc, store, s) && Enabled(j, s, Record(i))
    ensures Inv(j, acc, store, Do(j, s, Record(i)))
  {
    var t := Do(j, s, Record(i));
    assert t.ran + {i} == s.ran && |t.ran| + 1 == |s.ran|;
    assert t.log[..|t.log| - 1] == s.log;
    assert Partition(j, t);
    forall k: Key | forall x | x in t.ran || x in t.log :: j.keys[x] != k
      ensures At(t.store, k) == At(store, k)
    {
      assert forall x | x in s.ran || x in s.log :: x in t.ran || x in t.log;
    }
  }

  lemma StepKeepsInv<O, A>(j: Job<O, A>, acc: A, store: Store, s: State<O, A>, step: Step)
    requires WellFormed(j) && Inv(j, acc, store, s) && Enabled(j, s, step)
    ensures Inv(j, acc, store, Do(j, s, step))
  {
    match step
    case Launch => LaunchKeepsInv(j, acc, store, s);
    case Work(i) => WorkKeepsInv(j, acc, store, s, i);
    case Record(i) => RecordKeepsInv(j, acc, store, s, i);
  }

  lemma {:induction false} RunKeepsInv<O, A>(j: Job<O, A>, acc: A, store: Store, s: State<O, A>, steps: seq<Step>,
                                             t: State<O, A>)
    requires WellFormed(j) && Inv(j, acc, store, s) && Leads(j, s, steps, t)
    ensures Inv(j, acc, store, t)
    decreases |steps|
  {
    if steps != [] {
      StepKeepsInv(j, acc, store, s, steps[0]);
      RunKeepsInv(j, acc, store, Do(j, s, steps[0]), steps[1..], t);
    }
  }

  /** No interleaving ever has more than `limit` tasks in flight. */
  lemma InFlightBounded<O, A>(j: Job<O, A>, acc: A, store: Store, steps: seq<Step>, t: State<O, A>)
    requires WellFormed(j) && Leads(j, Start(acc, store), steps, t)
    ensures |t.running| + |t.ran| <= j.limit
  {
    RunKeepsInv(j, acc, store, Start(acc, store), steps, t);
  }

  /** A finished phase ran each enabled task once on the entry its key had, and touched nothing else. */
  ghost predicate Complete<O, A>(j: Job<O, A>, acc: A, store: Store, t: State<O, A>)
    requires |j.enabled| == |j.keys|
  {
    && (forall i | 0 <= i < |j.keys| && j.enabled[i] ::
          && i in t.slots && t.slots[i] == j.work(i, At(store, j.keys[i])).1
          && At(t.store, j.keys[i]) == j.work(i, At(store, j.keys[i])).0)
    && (forall k: Key | (forall i | 0 <= i < |j.keys| && j.enabled[i] :: j.keys[i] != k) ::
        At(t.store, k) == At(store, k))
    && (forall i :: i in t.log <==> 0 <= i < |j.keys| && j.enabled[i])
    && (forall a, b | 0 <= a < b < |t.log| :: t.log[a] != t.log[b])
    && InRange(j, t.log) && t.acc == Fold(j, acc, store, t.log)
  }

  lemma FinishedIsComplete<O, A>(j: Job<O, A>, acc: A, store: Store, steps: seq<Step>, t: State<O, A>)
    requires WellFormed(j) && Leads(j, Start(acc, store), steps, t) && Finished(j, t)
    ensures Complete(j, acc, store, t)
  {
    RunKeepsInv(j, acc, store, Start(acc, store), steps, t);
  }

  /** The observe phase: task i reads key i and writes the change into slot i. */
  function ObserveJob(p: Provider, env: Env, rs: seq<Resource>, force: bool, limit: nat): Job<Change, ()> {
    Job(seq(|rs|, i requires 0 <= i < |rs| => rs[i].Id()), seq(|rs|, _ => true),
        (i, e) => (e, if 0 <= i < |rs| then Decide(env, rs[i], p.observe(rs[i].Id(), e), force)
                      else Change(Kind.Tenant, "", Noop, {}, None, false, "")),
        (a, _, _) => a, limit)
  }

  /** The execute phase: task i writes key i, then counts its outcome under the mutex. */
  function ExecuteJob(p: Provider, env: Env, cs: seq<Change>, rs: seq<Resource>, limit: nat): Job<Option<string>,
                      Result>
    requires |cs| == |rs|
  {
    Job(seq(|rs|, i requires 0 <= i < |rs| => rs[i].Id()), seq(|rs|, i requires 0 <= i < |rs| => Executes(cs[i])),
        (i, e) => if 0 <= i < |rs| then var w := ExecuteOne(p, env, cs[i], rs[i], e); (w.after, w.err) else (e, None),
        (a, i, err) => if 0 <= i < |rs| then Count(a, cs[i], err) else a, limit)
  }

  lemma SameStore(s: Store, t: Store)
    requires forall k: Key :: At(s, k) == At(t, k)
    ensures s == t
  {
    assert forall k: Key :: k in s <==> At(s, k).Some?;
    assert forall k: Key :: k in t <==> At(t, k).Some?;
    assert forall k: Key | k in s :: s[k] == At(s, k).value;
    assert forall k: Key | k in t :: t[k] == At(t, k).value;
  }

  /** Main result, observe phase: every interleaving fills the slots with the sequential changes. */
  lemma ParallelObserveRefines(p: Provider, env: Env, rs: seq<Resource>, force: bool, limit: nat, store: Store,
                               steps: seq<Step>, t: State<Change, ()>)
    requires Distinct(rs) && limit >= 1
    requires var j := ObserveJob(p, env, rs, force, limit); Leads(j, Start((), store), steps, t) && Finished(j, t)
    ensures t.store == store
    ensures forall i | 0 <= i < |rs| :: i in t.slots && t.slots[i] == ObserveAll(p, env, rs, force, store)[i]
  {
    var j := ObserveJob(p, env, rs, force, limit);
    FinishedIsComplete(j, (), store, steps, t);
    forall k: Key
      ensures At(t.store, k) == At(store, k)
    {
      if i :| 0 <= i < |j.keys| && j.keys[i] == k {
        assert At(t.store, j.keys[i]) == j.work(i, At(store, j.keys[i])).0;
      }
    }
    SameStore(t.store, store);
  }

  /** A result without the order of its error lines. */
  datatype Summary = Summary(applied: nat, failed: nat, errors: multiset<ErrLine>)

  function Summarize(r: Result): Summary {
    Summary(r.applied, r.failed, multiset(r.errors))
  }

  function Bump(s: Summary, c: Change, err: Option<string>): Summary {
    if err.Some? then
      Summary(s.applied, s.failed + 1, s.errors + multiset{ErrLine(c.kind, c.name, err.value)})
    else s.(applied := s.applied + 1)
  }

  lemma BumpCommutes(s: Summary, c: Change, err: Option<string>, d: Change, err': Option<string>)
    ensures Bump(Bump(s, c, err), d, err') == Bump(Bump(s, d, err'), c, err)
  {
  }

  function Errors(p: Provider, env: Env, cs: seq<Change>, rs: seq<Resource>, store: Store): seq<Option<string>>
    requires |cs| == |rs|
  {
    seq(|cs|, i requires 0 <= i < |cs| => ExecuteOne(p, env, cs[i], rs[i], At(store, rs[i].Id())).err)
  }

  /** The outcomes of the tasks in `done`, taken in index order. */
  function SumOver(cs: seq<Change>, errs: seq<Option<string>>, n: nat, done: set<int>): Summary
    requires n <= |cs| == |errs|
  {
    if n == 0 then Summary(0, 0, multiset{})
    else
      var s := SumOver(cs, errs, n - 1, done);
      if n - 1 in done then Bump(s, cs[n - 1], errs[n - 1]) else s
  }

  lemma {:induction false} SumAdd(cs: seq<Change>, errs: seq<Option<string>>, n: nat, done: set<int>, i: int)
    requires n <= |cs| == |errs| && 0 <= i < |cs| && i !in done
    ensures SumOver(cs, errs, n, done + {i})
         == if i < n then Bump(SumOver(cs, errs, n, done), cs[i], errs[i]) else SumOver(cs, errs, n, done)
  {
    if n > 0 {
      SumAdd(cs, errs, n - 1, done, i);
      if i < n - 1 && n - 1 in done {
        BumpCommutes(SumOver(cs, errs, n - 1, done), cs[i], errs[i], cs[n - 1], errs[n - 1]);
      }
    }
  }

  lemma {:induction false} SumNone(cs: seq<Change>, errs: seq<Option<string>>, n: nat)
    requires n <= |cs| == |errs|
    ensures SumOver(cs, errs, n, {}) == Summary(0, 0, multiset{})
  {
    if n > 0 {
      SumNone(cs, errs, n - 1);
    }
  }

  function Members(log: seq<int>): set<int> {
    set i | i in log
  }

  lemma FoldSnoc(p: Provider, env: Env, cs: seq<Change>, rs: seq<Resource>, limit: nat, store: Store, log: seq<int>,
                 i: int)
    requires |cs| == |rs| && InRange(ExecuteJob(p, env, cs, rs, limit), log + [i])
    ensures InRange(ExecuteJob(p, env, cs, rs, limit), log) && 0 <= i < |cs|
    ensures var j := ExecuteJob(p, env, cs, rs, limit);
            Summarize(Fold(j, NO_RESULT, store, log + [i]))
            == Bump(Summarize(Fold(j, NO_RESULT, store, log)), cs[i], Errors(p, env, cs, rs, store)[i])
  {
    var j := ExecuteJob(p, env, cs, rs, limit);
    assert (log + [i])[|log|] == i;
    forall n | 0 <= n < |log|
      ensures 0 <= log[n] < |j.keys|
    {
      assert (log + [i])[n] == log[n];
    }
    assert (log + [i])[..|log|] == log;
  }

  /** The order in which outcomes are recorded shows only in the order of the error lines. */
  lemma {:induction false} FoldIsSum(p: Provider, env: Env, cs: seq<Change>, rs: seq<Resource>, limit: nat,
                                     store: Store, log: seq<int>)
    requires |cs| == |rs| && InRange(ExecuteJob(p, env, cs, rs, limit), log)
    requires forall a, b | 0 <= a < b < |log| :: log[a] != log[b]
    ensures Summarize(Fold(ExecuteJob(p, env, cs, rs, limit), NO_RESULT, store, log))
         == SumOver(cs, Errors(p, env, cs, rs, store), |cs|, Members(log))
  {
    var errs := Errors(p, env, cs, rs, store);
    if log == [] {
      SumNone(cs, errs, |cs|);
      assert Members(log) == {};
    } else {
      var init, i := log[..|log| - 1], log[|log| - 1];
      assert log == init + [i];
      FoldIsSum(p, env, cs, rs, limit, store, init);
      FoldSnoc(p, env, cs, rs, limit, store, init, i);
      assert Members(log) == Members(init) + {i};
      SumAdd(cs, errs, |cs|, Members(init), i);
    }
  }

  function ToExecute(cs: seq<Change>): set<int> {
    set i | 0 <= i < |cs| && Executes(cs[i])
  }

  /** The sequential loop, after its first n tasks. */
  lemma {:induction false} SequentialIsSum(p: Provider, env: Env, cs: seq<Change>, rs: seq<Resource>, store: Store,
                                           n: nat)
    requires |cs| == |rs| && Distinct(rs) && n <= |cs|
    ensures Summarize(ExecuteAll(p, env, cs[..n], rs[..n], Exec(store, NO_RESULT)).result)
         == SumOver(cs, Errors(p, env, cs, rs, store), n, ToExecute(cs))
  {
    if n > 0 {
      SequentialIsSum(p, env, cs, rs, store, n - 1);
      SequentialStep(p, env, cs, rs, store, n - 1);
    }
  }

  lemma SequentialStep(p: Provider, env: Env, cs: seq<Change>, rs: seq<Resource>, store: Store, n: nat)
    requires |cs| == |rs| && Distinct(rs) && n < |cs|
    ensures var x := Exec(store, NO_RESULT);
            var before := Summarize(ExecuteAll(p, env, cs[..n], rs[..n], x).result);
            Summarize(ExecuteAll(p, env, cs[..n + 1], rs[..n + 1], x).result)
            == if Executes(cs[n]) then Bump(before, cs[n], Errors(p, env, cs, rs, store)[n]) else before
  {
    assert cs[..n + 1][..n] == cs[..n] && rs[..n + 1][..n] == rs[..n];
    forall r | r in rs[..n]
      ensures r.Id() != rs[n].Id()
    {
      var m :| 0 <= m < n && rs[m] == r;
    }
    ExecuteTouches(p, env, cs[..n], rs[..n], Exec(store, NO_RESULT), rs[n].Id());
  }

  lemma SequentialStore(p: Provider, env: Env, cs: seq<Change>, rs: seq<Resource>, x: Exec, k: Key)
    requires |cs| == |rs| && Distinct(rs)
    requires forall i | 0 <= i < |rs| && Executes(cs[i]) :: rs[i].Id() != k
    ensures At(ExecuteAll(p, env, cs, rs, x).store, k) == At(x.store, k)
  {
  }

  /** Main result, execute phase: every interleaving leaves the server as the sequential loop does, with
      the same counts and the same error lines in some order. */
  lemma ParallelExecuteRefines(p: Provider, env: Env, cs: seq<Change>, rs: seq<Resource>, limit: nat, store: Store,
                               steps: seq<Step>, t: State<Option<string>, Result>)
    requires |cs| == |rs| && Distinct(rs) && limit >= 1
    requires var j := ExecuteJob(p, env, cs, rs, limit); Leads(j, Start(NO_RESULT, store), steps, t) && Finished(j, t)
    ensures var x := ExecuteAll(p, env, cs, rs, Exec(store, NO_RESULT));
            t.store == x.store && Summarize(t.acc) == Summarize(x.result)
  {
    FinishedIsComplete(ExecuteJob(p, env, cs, rs, limit), NO_RESULT, store, steps, t);
    SameStoreAsSequential(p, env, cs, rs, limit, store, t);
    SameResultAsSequential(p, env, cs, rs, limit, store, t);
  }

  lemma SameStoreAsSequential(p: Provider, env: Env, cs: seq<Change>, rs: seq<Resource>, limit: nat, store: Store,
                              t: State<Option<string>, Result>)
    requires |cs| == |rs| && Distinct(rs) && Complete(ExecuteJob(p, env, cs, rs, limit), NO_RESULT, store, t)
    ensures t.store == ExecuteAll(p, env, cs, rs, Exec(store, NO_RESULT)).store
  {
    var j := ExecuteJob(p, env, cs, rs, limit);
    var x := ExecuteAll(p, env, cs, rs, Exec(store, NO_RESULT));
    forall k: Key
      ensures At(t.store, k) == At(x.store, k)
    {
      if i :| 0 <= i < |rs| && Executes(cs[i]) && rs[i].Id() == k {
        ExecuteAt(p, env, cs, rs, Exec(store, NO_RESULT), i);
        assert j.enabled[i] && j.keys[i] == k;
      } else {
        SequentialStore(p, env, cs, rs, Exec(store, NO_RESULT), k);
        assert forall i | 0 <= i < |j.keys| && j.enabled[i] :: j.keys[i] != k;
      }
    }
    SameStore(t.store, x.store);
  }

  lemma SameResultAsSequential(p: Provider, env: Env, cs: seq<Change>, rs: seq<Resource>, limit: nat, store: Store,
                               t: State<Option<string>, Result>)
    requires |cs| == |rs| && Distinct(rs) && Complete(ExecuteJob(p, env, cs, rs, limit), NO_RESULT, store, t)
    ensures Summarize(t.acc) == Summarize(ExecuteAll(p, env, cs, rs, Exec(store, NO_RESULT)).result)
  {
    assert Members(t.log) == ToExecute(cs);
    assert cs[..|cs|] == cs && rs[..|rs|] == rs;
    SequentialIsSum(p, env, cs, rs, store, |cs|);
    FoldIsSum(p, env, cs, rs, limit, store, t.log);
  }
}
