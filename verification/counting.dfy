/** Conservation of counts: every resource and every change is accounted for once. */
module Counting {
  import opened Values
  import opened Kinds
  import opened Manifests
  import opened ReconcileSpec
  import opened RunFacts

  /** How many resources the given kinds cover. */
  function CoveredBy(rs: seq<Resource>, kinds: seq<Kind>): nat {
    if kinds == [] then 0
    else CoveredBy(rs, kinds[..|kinds| - 1]) + |OfKind(rs, kinds[|kinds| - 1])|
  }

  lemma {:induction false} CoveredSnoc(rs: seq<Resource>, r: Resource, kinds: seq<Kind>)
    ensures CoveredBy(rs + [r], kinds) == CoveredBy(rs, kinds) + multiset(kinds)[r.kind]
  {
    if kinds != [] {
      var n := |kinds| - 1;
      assert kinds == kinds[..n] + [kinds[n]];
      assert (rs + [r])[..|rs|] == rs;
      CoveredSnoc(rs, r, kinds[..n]);
    }
  }

  lemma {:induction false} CoveredNone(kinds: seq<Kind>)
    ensures CoveredBy([], kinds) == 0
  {
    if kinds != [] {
      CoveredNone(kinds[..|kinds| - 1]);
    }
  }

  lemma OccursOnce<T>(s: seq<T>, i: nat)
    requires i < |s| && forall j | 0 <= j < |s| && j != i :: s[j] != s[i]
    ensures multiset(s)[s[i]] == 1
  {
    var l, t := s[..i], s[i + 1..];
    assert s == l + [s[i]] + t;
    assert s[i] !in l && s[i] !in t;
  }

  lemma KindOccursOnce(k: Kind)
    requires !k.Unknown?
    ensures multiset(ApplyOrder())[k] == 1
  {
    var order := ApplyOrder();
    forall i | 0 <= i < |order| && i != Rank(k)
      ensures order[i] != k
    {
      ApplyOrderByRank(i);
    }
    OccursOnce(order, Rank(k));
  }

  /** The apply order covers a manifest of known kinds exactly. */
  lemma {:induction false} ApplyOrderCovers(rs: seq<Resource>)
    requires KnownKinds(rs)
    ensures CoveredBy(rs, ApplyOrder()) == |rs|
  {
    if rs == [] {
      CoveredNone(ApplyOrder());
    } else {
      var n := |rs| - 1;
      assert rs == rs[..n] + [rs[n]];
      ApplyOrderCovers(rs[..n]);
      CoveredSnoc(rs[..n], rs[n], ApplyOrder());
      KindOccursOnce(rs[n].kind);
    }
  }

  lemma {:induction false} PassesCount(p: Provider, env: Env, rs: seq<Resource>, opts: Opts, kinds: seq<Kind>, run: Run)
    requires run.plan == NO_PLAN
    ensures |KindPasses(p, env, rs, opts, kinds, run).plan.changes| == CoveredBy(rs, kinds)
  {
    if kinds != [] {
      var n := |kinds| - 1;
      PassesCount(p, env, rs, opts, kinds[..n], run);
      var before := KindPasses(p, env, rs, opts, kinds[..n], run);
      var some := OfKind(rs, kinds[n]);
      var cs := ObserveAll(p, env, some, opts.force, before.store);
      ObservedChanges(p, env, some, opts.force, before.store);
      AddChangesShape(before.plan, cs, some);
    }
  }

  /** The changes to execute, by count. */
  function Actions(cs: seq<Change>): nat {
    if cs == [] then 0
    else Actions(cs[..|cs| - 1]) + if Executes(cs[|cs| - 1]) then 1 else 0
  }

  lemma {:induction false} ActionsAppend(a: seq<Change>, b: seq<Change>)
    ensures Actions(a + b) == Actions(a) + Actions(b)
  {
    if b == [] {
      assert a + b == a;
    } else {
      assert (a + b)[..|a + b| - 1] == a + b[..|b| - 1];
      ActionsAppend(a, b[..|b| - 1]);
    }
  }

  lemma {:induction false} ExecuteCounts(p: Provider, env: Env, cs: seq<Change>, rs: seq<Resource>, x: Exec)
    requires |cs| == |rs| && |x.result.errors| == x.result.failed
    ensures var y := ExecuteAll(p, env, cs, rs, x).result;
            y.applied + y.failed == x.result.applied + x.result.failed + Actions(cs) && |y.errors| == y.failed
  {
    if cs != [] {
      var n := |cs| - 1;
      ExecuteCounts(p, env, cs[..n], rs[..n], x);
    }
  }

  lemma {:induction false} AddChangesActions(plan: Plan, cs: seq<Change>, rs: seq<Resource>)
    requires |cs| == |rs| && forall c | c in cs :: Executes(c) <==> c.action.Create? || c.action.Update?
    ensures var q := AddChanges(plan, cs, rs); q.creates + q.updates == plan.creates + plan.updates + Actions(cs)
  {
    if cs != [] {
      var n := |cs| - 1;
      assert cs[n] in cs && forall c | c in cs[..n] :: c in cs;
      AddChangesActions(plan, cs[..n], rs[..n]);
    }
  }

  lemma {:induction false} PassesResult(p: Provider, env: Env, rs: seq<Resource>, opts: Opts, kinds: seq<Kind>,
                                        run: Run)
    requires run.plan == NO_PLAN && run.result == NO_RESULT
    ensures var q := KindPasses(p, env, rs, opts, kinds, run);
            && |q.result.errors| == q.result.failed
            && (opts.dryRun ==> q.result == NO_RESULT)
            && (!opts.dryRun ==> q.result.applied + q.result.failed == q.plan.creates + q.plan.updates)
  {
    if kinds != [] {
      var n := |kinds| - 1;
      PassesResult(p, env, rs, opts, kinds[..n], run);
      var before := KindPasses(p, env, rs, opts, kinds[..n], run);
      var some := OfKind(rs, kinds[n]);
      var cs := ObserveAll(p, env, some, opts.force, before.store);
      ObservedChanges(p, env, some, opts.force, before.store);
      AddChangesActions(before.plan, cs, some);
      ExecuteCounts(p, env, cs, some, Exec(before.store, NO_RESULT));
    }
  }

  ghost predicate PruneBalanced(x: Prune, dryRun: bool) {
    && (forall c | c in x.changes :: c.action.Delete?)
    && |x.result.errors| == x.result.failed
    && x.result.applied + x.result.failed == if dryRun then 0 else |x.changes|
  }

  lemma {:induction false} RemotesBalanced(p: Provider, declared: set<Key>, kind: Kind, infos: seq<Info>,
                                           dryRun: bool, x: Prune)
    requires PruneBalanced(x, dryRun)
    ensures PruneBalanced(PruneRemotes(p, declared, kind, infos, dryRun, x), dryRun)
  {
    if infos != [] {
      RemotesBalanced(p, declared, kind, infos[..|infos| - 1], dryRun, x);
    }
  }

  lemma {:induction false} PruneKindsBalanced(p: Provider, declared: set<Key>, kinds: seq<Kind>, dryRun: bool, x: Prune)
    requires PruneBalanced(x, dryRun)
    ensures PruneBalanced(PruneKinds(p, declared, kinds, dryRun, x), dryRun)
  {
    if kinds != [] {
      var n := |kinds| - 1;
      PruneKindsBalanced(p, declared, kinds[..n], dryRun, x);
      var y := PruneKinds(p, declared, kinds[..n], dryRun, x);
      if Prunable(kinds[n]) && p.list(kinds[n], y.store).Some? {
        RemotesBalanced(p, declared, kinds[n], p.list(kinds[n], y.store).value, dryRun, y);
      }
    }
  }

  lemma ApplyBalanced(p: Provider, env: Env, rs: seq<Resource>, opts: Opts, store: Store)
    requires KnownKinds(rs)
    ensures var run := Applied(p, env, rs, opts, store);
            var plan, result := run.plan, run.result;
            && |plan.changes| == plan.creates + plan.updates + plan.noops == |rs|
            && plan.deletes == 0 && (forall c | c in plan.changes :: !c.action.Delete?)
            && |result.errors| == result.failed
            && result.applied + result.failed == if opts.dryRun then 0 else plan.creates + plan.updates
  {
    var start := Run(NO_PLAN, NO_RESULT, store);
    var order := ApplyOrder();
    ApplyOrderCovers(rs);
    PassesCount(p, env, rs, opts, order, start);
    PassesShape(p, env, rs, opts, order, start);
    PassesResult(p, env, rs, opts, order, start);
  }

  /** Main result: for every manifest of known kinds and whatever the provider does, one change per
      resource and then the deletes, every change counted once, and in a real run every action
      either applied or failed with one error line. */
  lemma Conservation(p: Provider, env: Env, rs: seq<Resource>, opts: Opts, store: Store)
    requires KnownKinds(rs)
    ensures var run := Reconcile(p, env, rs, opts, store);
            var plan, result := run.plan, run.result;
            && |plan.changes| == plan.creates + plan.updates + plan.noops + plan.deletes
            && plan.creates + plan.updates + plan.noops == |rs|
            && (forall i | 0 <= i < |plan.changes| :: plan.changes[i].action.Delete? <==> i >= |rs|)
            && |result.errors| == result.failed
            && result.applied + result.failed
               == if opts.dryRun then 0 else plan.creates + plan.updates + plan.deletes
  {
    ApplyBalanced(p, env, rs, opts, store);
    var run := Applied(p, env, rs, opts, store);
    var x := Pruned(p, rs, opts.dryRun, run.store);
    PruneKindsBalanced(p, Declared(rs), Reversed(ApplyOrder()), opts.dryRun, Prune([], NO_RESULT, run.store));
    var q := run.plan.changes;
    assert forall i | 0 <= i < |q| :: q[i] in q;
    assert forall i | 0 <= i < |x.changes| :: x.changes[i] in x.changes;
  }
}
