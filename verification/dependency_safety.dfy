/** From validation to the plan: what a resource refers to is applied before it, and pruned after it. */
module DependencySafety {
  import opened Values
  import opened Kinds
  import opened Manifests
  import opened ReconcileSpec
  import opened RunFacts
  import opened SkillSpecs
  import opened Validation
  import opened Counting

  /** Every reference goes to an earlier kind in the apply order. */
  lemma RefsPrecede(r: Resource, ref: Key)
    requires ref in Refs(r)
    ensures Rank(ref.kind) < Rank(r.kind)
  {
  }

  ghost predicate Ascending(cs: seq<Change>) {
    forall i, j | 0 <= i < j < |cs| :: Rank(cs[i].kind) <= Rank(cs[j].kind)
  }

  ghost predicate Descending(cs: seq<Change>) {
    forall i, j | 0 <= i < j < |cs| :: Rank(cs[i].kind) >= Rank(cs[j].kind)
  }

  lemma {:induction false} PassesAscend(p: Provider, env: Env, rs: seq<Resource>, opts: Opts, n: nat, run: Run)
    requires n <= |ApplyOrder()| && run.plan == NO_PLAN
    ensures var cs := KindPasses(p, env, rs, opts, ApplyOrder()[..n], run).plan.changes;
            Ascending(cs) && forall c | c in cs :: Rank(c.kind) < n
  {
    if n > 0 {
      var order := ApplyOrder();
      var kind := order[n - 1];
      assert order[..n][..n - 1] == order[..n - 1];
      ApplyOrderByRank(n - 1);
      PassesAscend(p, env, rs, opts, n - 1, run);
      var before := KindPasses(p, env, rs, opts, order[..n - 1], run);
      var some := OfKind(rs, kind);
      OfKindMembers(rs, kind);
      var cs := ObserveAll(p, env, some, opts.force, before.store);
      ObservedChanges(p, env, some, opts.force, before.store);
      AddChangesShape(before.plan, cs, some);
      forall c | c in cs
        ensures Rank(c.kind) == n - 1
      {
        var i :| 0 <= i < |cs| && cs[i] == c;
        assert some[i] in some;
      }
      AscendingAppend(before.plan.changes, cs, n - 1);
    }
  }

  lemma AscendingAppend(a: seq<Change>, b: seq<Change>, n: nat)
    requires Ascending(a) && (forall c | c in a :: Rank(c.kind) < n) && forall c | c in b :: Rank(c.kind) == n
    ensures Ascending(a + b)
  {
  }

  lemma {:induction false} PrunesDescend(p: Provider, declared: set<Key>, dryRun: bool, n: nat, x: Prune)
    requires n <= |ApplyOrder()| && x.changes == []
    ensures var cs := PruneKinds(p, declared, Reversed(ApplyOrder())[..n], dryRun, x).changes;
            Descending(cs) && forall c | c in cs :: Rank(c.kind) >= |ApplyOrder()| - n
  {
    if n > 0 {
      var order := Reversed(ApplyOrder());
      var kind := order[n - 1];
      assert order[..n][..n - 1] == order[..n - 1];
      ApplyOrderByRank(|order| - n);
      PrunesDescend(p, declared, dryRun, n - 1, x);
      var y := PruneKinds(p, declared, order[..n - 1], dryRun, x);
      if Prunable(kind) && p.list(kind, y.store).Some? {
        var infos := p.list(kind, y.store).value;
        var cs := OrphanChanges(declared, kind, infos);
        RemotesShape(p, declared, kind, infos, dryRun, y);
        forall c | c in cs
          ensures c.kind == kind
        {
          OrphansIff(declared, kind, infos, c);
        }
        DescendingAppend(y.changes, cs, |order| - n);
      }
    }
  }

  lemma DescendingAppend(a: seq<Change>, b: seq<Change>, n: nat)
    requires Descending(a) && (forall c | c in a :: Rank(c.kind) > n) && forall c | c in b :: Rank(c.kind) == n
    ensures Descending(a + b)
  {
  }

  /** The plan of a run: the apply changes in dependency order, then the deletes in the reverse order. */
  lemma PlanOrder(p: Provider, env: Env, rs: seq<Resource>, opts: Opts, store: Store)
    requires KnownKinds(rs)
    ensures var cs := Reconcile(p, env, rs, opts, store).plan.changes;
            |rs| <= |cs| && Ascending(cs[..|rs|]) && Descending(cs[|rs|..])
  {
    var run := Applied(p, env, rs, opts, store);
    var order := ApplyOrder();
    assert order[..|order|] == order && Reversed(order)[..|order|] == Reversed(order);
    PassesAscend(p, env, rs, opts, |order|, Run(NO_PLAN, NO_RESULT, store));
    PrunesDescend(p, Declared(rs), opts.dryRun, |order|, Prune([], NO_RESULT, run.store));
    ApplyBalanced(p, env, rs, opts, store);
    var x := Pruned(p, rs, opts.dryRun, run.store);
    assert (run.plan.changes + x.changes)[..|rs|] == run.plan.changes;
    assert (run.plan.changes + x.changes)[|rs|..] == x.changes;
    assert run.plan.changes[..|rs|] == run.plan.changes && run.plan.changes[|rs|..] == [];
  }

  /** Main result: in the plan for a valid manifest, whatever a resource refers to has a change of its own,
      and before every change of the resource. */
  lemma ReferencesComeFirst(p: Provider, env: Env, lib: Library, m: Manifest, opts: Opts, store: Store, r: Resource,
                            ref: Key, j: nat)
    requires Valid(lib, m) && r in m.resources && ref in Refs(r)
    requires var cs := Reconcile(p, env, m.resources, opts, store).plan.changes;
             j < |m.resources| <= |cs| && cs[j].kind == r.kind && cs[j].name == r.name
    ensures var cs := Reconcile(p, env, m.resources, opts, store).plan.changes;
            exists i :: 0 <= i < j && cs[i].kind == ref.kind && cs[i].name == ref.name && !cs[i].action.Delete?
  {
    var rs := m.resources;
    var cs := Reconcile(p, env, rs, opts, store).plan.changes;
    assert KnownKinds(rs);
    PlanOrder(p, env, rs, opts, store);
    Conservation(p, env, rs, opts, store);
    RefsPrecede(r, ref);
    assert ref in Declared(rs);
    var target :| target in rs && target.Id() == ref;
    EachResourcePlanned(p, env, rs, opts, store, target);
    var i :| 0 <= i < |rs| && cs[i].kind == ref.kind && cs[i].name == ref.name;
    LowerComesFirst(cs[..|rs|], i, j);
  }

  lemma LowerComesFirst(cs: seq<Change>, i: nat, j: nat)
    requires Ascending(cs) && i < |cs| && j < |cs| && Rank(cs[i].kind) < Rank(cs[j].kind)
    ensures i < j
  {
  }

  lemma EachResourcePlanned(p: Provider, env: Env, rs: seq<Resource>, opts: Opts, store: Store, r: Resource)
    requires KnownKinds(rs) && r in rs
    ensures var cs := Reconcile(p, env, rs, opts, store).plan.changes;
            |rs| <= |cs| && exists i :: 0 <= i < |rs| && cs[i].kind == r.kind && cs[i].name == r.name
  {
    var run := Applied(p, env, rs, opts, store);
    var order := ApplyOrder();
    assert order[Rank(r.kind)] == r.kind;
    PassesShape(p, env, rs, opts, order, Run(NO_PLAN, NO_RESULT, store));
    ApplyBalanced(p, env, rs, opts, store);
    var q := run.plan.changes;
    var i :| 0 <= i < |q| && q[i].kind == r.kind && q[i].name == r.name;
    assert Reconcile(p, env, rs, opts, store).plan.changes[i] == q[i];
  }
}
