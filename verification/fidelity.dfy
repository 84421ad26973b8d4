/** A dry run shows the plan a real run carries out. */
module Fidelity {
  import opened Values
  import opened Kinds
  import opened Manifests
  import opened ReconcileSpec
  import opened RunFacts
  import opened Counting

  /** What a listing shows outside the declared keys. */
  function Undeclared(declared: set<Key>, kind: Kind, infos: seq<Info>): seq<Info> {
    if infos == [] then []
    else
      var n := |infos| - 1;
      var init := Undeclared(declared, kind, infos[..n]);
      if Key(kind, infos[n].name) in declared then init else init + [infos[n]]
  }

  ghost predicate AgreeOutside(declared: set<Key>, kind: Kind, s: Store, t: Store) {
    forall k: Key | k.kind == kind && k !in declared :: At(s, k) == At(t, k)
  }

  /** Listing a kind shows each undeclared entry according to that entry: what it shows outside a set of
      keys depends on the entries outside that set. */
  ghost predicate StableListing(p: Provider) {
    forall kind: Kind, declared: set<Key>, s: Store, t: Store | AgreeOutside(declared, kind, s, t) ::
      var a, b := p.list(kind, s), p.list(kind, t);
      && (a.Some? <==> b.Some?)
      && (a.Some? ==> Undeclared(declared, kind, a.value) == Undeclared(declared, kind, b.value))
  }

  lemma {:induction false} OrphansFromUndeclared(declared: set<Key>, kind: Kind, infos: seq<Info>)
    ensures OrphanChanges(declared, kind, infos) == OrphanChanges(declared, kind, Undeclared(declared, kind, infos))
  {
    if infos != [] {
      var n := |infos| - 1;
      OrphansFromUndeclared(declared, kind, infos[..n]);
      var u := Undeclared(declared, kind, infos[..n]);
      assert (u + [infos[n]])[..|u|] == u;
    }
  }

  /** Observing depends on the observed keys alone. */
  lemma ObserveDepends(p: Provider, env: Env, rs: seq<Resource>, force: bool, s: Store, t: Store)
    requires forall r | r in rs :: At(s, r.Id()) == At(t, r.Id())
    ensures ObserveAll(p, env, rs, force, s) == ObserveAll(p, env, rs, force, t)
  {
  }

  lemma {:induction false} PassesFaithful(p: Provider, env: Env, rs: seq<Resource>, opts: Opts, kinds: seq<Kind>,
                                          run: Run)
    requires forall i, j | 0 <= i < j < |kinds| :: kinds[i] != kinds[j]
    ensures KindPasses(p, env, rs, opts.(dryRun := true), kinds, run).plan
         == KindPasses(p, env, rs, opts.(dryRun := false), kinds, run).plan
    ensures KindPasses(p, env, rs, opts.(dryRun := true), kinds, run).store == run.store
  {
    if kinds != [] {
      var n := |kinds| - 1;
      PassesFaithful(p, env, rs, opts, kinds[..n], run);
      var dry := KindPasses(p, env, rs, opts.(dryRun := true), kinds[..n], run);
      var wet := KindPasses(p, env, rs, opts.(dryRun := false), kinds[..n], run);
      var some := OfKind(rs, kinds[n]);
      OfKindMembers(rs, kinds[n]);
      forall r | r in some
        ensures At(dry.store, r.Id()) == At(wet.store, r.Id())
      {
        PassesTouch(p, env, rs, opts.(dryRun := false), kinds[..n], run, r.Id());
      }
      ObserveDepends(p, env, some, opts.force, dry.store, wet.store);
    }
  }

  /** The real prune has removed undeclared keys of passed kinds only; the dry one nothing. */
  lemma {:induction false} PruneTouches(p: Provider, declared: set<Key>, kinds: seq<Kind>, dryRun: bool, x: Prune,
                                        k: Key)
    requires dryRun || k.kind !in kinds || k in declared
    ensures At(PruneKinds(p, declared, kinds, dryRun, x).store, k) == At(x.store, k)
  {
    if kinds != [] {
      var n := |kinds| - 1;
      PruneTouches(p, declared, kinds[..n], dryRun, x, k);
      var y := PruneKinds(p, declared, kinds[..n], dryRun, x);
      if Prunable(kinds[n]) && p.list(kinds[n], y.store).Some? {
        RemotesTouch(p, declared, kinds[n], p.list(kinds[n], y.store).value, dryRun, y, k);
      }
    }
  }

  lemma {:induction false} PruneFaithful(p: Provider, declared: set<Key>, kinds: seq<Kind>, dry: Prune, wet: Prune)
    requires StableListing(p)
    requires forall i, j | 0 <= i < j < |kinds| :: kinds[i] != kinds[j]
    requires dry.changes == wet.changes
    requires forall kind: Kind :: AgreeOutside(declared, kind, dry.store, wet.store)
    ensures PruneKinds(p, declared, kinds, true, dry).changes == PruneKinds(p, declared, kinds, false, wet).changes
  {
    if kinds != [] {
      var n := |kinds| - 1;
      var kind := kinds[n];
      PruneFaithful(p, declared, kinds[..n], dry, wet);
      var d := PruneKinds(p, declared, kinds[..n], true, dry);
      var w := PruneKinds(p, declared, kinds[..n], false, wet);
      forall k: Key | k.kind == kind && k !in declared
        ensures At(d.store, k) == At(w.store, k)
      {
        PruneTouches(p, declared, kinds[..n], true, dry, k);
        PruneTouches(p, declared, kinds[..n], false, wet, k);
        assert AgreeOutside(declared, kind, dry.store, wet.store);
      }
      assert AgreeOutside(declared, kind, d.store, w.store);
      var a, b := p.list(kind, d.store), p.list(kind, w.store);
      if Prunable(kind) && a.Some? {
        RemotesShape(p, declared, kind, a.value, true, d);
        RemotesShape(p, declared, kind, b.value, false, w);
        OrphansFromUndeclared(declared, kind, a.value);
        OrphansFromUndeclared(declared, kind, b.value);
      }
    }
  }

  lemma OrderHasNoRepeats()
    ensures forall i, j | 0 <= i < j < |ApplyOrder()| :: ApplyOrder()[i] != ApplyOrder()[j]
  {
  }

  /** Main result: from the same state, a dry run lists exactly the plan of the real run — changes,
      diffs, hashes, deletes, counts and observe errors — although the real run observes later kinds
      after changing earlier ones. */
  lemma PlanFidelity(p: Provider, env: Env, rs: seq<Resource>, opts: Opts, store: Store)
    requires StableListing(p)
    ensures Reconcile(p, env, rs, opts.(dryRun := true), store).plan
         == Reconcile(p, env, rs, opts.(dryRun := false), store).plan
  {
    AppliedFaithful(p, env, rs, opts, store);
    PrunedAlike(p, env, rs, opts, store);
    SamePlan(p, rs, opts, Applied(p, env, rs, opts.(dryRun := true), store),
             Applied(p, env, rs, opts.(dryRun := false), store));
  }

  lemma SamePlan(p: Provider, rs: seq<Resource>, opts: Opts, dry: Run, wet: Run)
    requires dry.plan == wet.plan
    requires Pruned(p, rs, true, dry.store).changes == Pruned(p, rs, false, wet.store).changes
    ensures Finish(p, rs, opts.(dryRun := true), dry).plan == Finish(p, rs, opts.(dryRun := false), wet).plan
  {
  }

  /** A dry run changes nothing and reports no execution. */
  lemma DryRunIdle(p: Provider, env: Env, rs: seq<Resource>, opts: Opts, store: Store)
    ensures Reconcile(p, env, rs, opts.(dryRun := true), store).store == store
    ensures Reconcile(p, env, rs, opts.(dryRun := true), store).result == NO_RESULT
  {
    AppliedFaithful(p, env, rs, opts, store);
    FinishIdle(p, rs, opts.(dryRun := true), Applied(p, env, rs, opts.(dryRun := true), store));
  }

  lemma FinishIdle(p: Provider, rs: seq<Resource>, opts: Opts, run: Run)
    requires opts.dryRun && run.result == NO_RESULT
    ensures Finish(p, rs, opts, run).store == run.store && Finish(p, rs, opts, run).result == NO_RESULT
  {
    var x := Pruned(p, rs, opts.dryRun, run.store);
    PrunedIdle(p, rs, opts.dryRun, run.store);
    if opts.prune {
      FinishFields(p, rs, opts, run, x);
      MergeNothing(run.result);
    }
  }

  lemma FinishFields(p: Provider, rs: seq<Resource>, opts: Opts, run: Run, x: Prune)
    requires opts.prune && x == Pruned(p, rs, opts.dryRun, run.store)
    ensures Finish(p, rs, opts, run).store == x.store
    ensures Finish(p, rs, opts, run).result == Merge(run.result, x.result)
  {
  }

  lemma PrunedIdle(p: Provider, rs: seq<Resource>, dryRun: bool, store: Store)
    requires dryRun
    ensures var x := Pruned(p, rs, dryRun, store); x.store == store && x.result == NO_RESULT
  {
    DryPruneIdle(p, Declared(rs), Reversed(ApplyOrder()), Prune([], NO_RESULT, store));
  }

  lemma MergeNothing(a: Result)
    ensures Merge(a, NO_RESULT) == a
  {
  }

  lemma AppliedFaithful(p: Provider, env: Env, rs: seq<Resource>, opts: Opts, store: Store)
    ensures Applied(p, env, rs, opts.(dryRun := true), store).plan
         == Applied(p, env, rs, opts.(dryRun := false), store).plan
    ensures Applied(p, env, rs, opts.(dryRun := true), store).store == store
    ensures Applied(p, env, rs, opts.(dryRun := true), store).result == NO_RESULT
  {
    var start := Run(NO_PLAN, NO_RESULT, store);
    OrderHasNoRepeats();
    PassesFaithful(p, env, rs, opts, ApplyOrder(), start);
    PassesResult(p, env, rs, opts.(dryRun := true), ApplyOrder(), start);
  }

  lemma PrunedAlike(p: Provider, env: Env, rs: seq<Resource>, opts: Opts, store: Store)
    requires StableListing(p)
    ensures Pruned(p, rs, true, store).changes
         == Pruned(p, rs, false, Applied(p, env, rs, opts.(dryRun := false), store).store).changes
  {
    var wet := Applied(p, env, rs, opts.(dryRun := false), store).store;
    forall k: Key | k !in Declared(rs)
      ensures At(store, k) == At(wet, k)
    {
      PassesTouch(p, env, rs, opts.(dryRun := false), ApplyOrder(), Run(NO_PLAN, NO_RESULT, store), k);
    }
    OrderHasNoRepeats();
    PruneFaithful(p, Declared(rs), Reversed(ApplyOrder()), Prune([], NO_RESULT, store), Prune([], NO_RESULT, wet));
  }

  lemma {:induction false} DryPruneIdle(p: Provider, declared: set<Key>, kinds: seq<Kind>, x: Prune)
    ensures var y := PruneKinds(p, declared, kinds, true, x); y.store == x.store && y.result == x.result
  {
    if kinds != [] {
      var n := |kinds| - 1;
      DryPruneIdle(p, declared, kinds[..n], x);
      var y := PruneKinds(p, declared, kinds[..n], true, x);
      if Prunable(kinds[n]) && p.list(kinds[n], y.store).Some? {
        DryRemotesIdle(p, declared, kinds[n], p.list(kinds[n], y.store).value, y);
      }
    }
  }

  lemma {:induction false} DryRemotesIdle(p: Provider, declared: set<Key>, kind: Kind, infos: seq<Info>, x: Prune)
    ensures var y := PruneRemotes(p, declared, kind, infos, true, x); y.store == x.store && y.result == x.result
  {
    if infos != [] {
      DryRemotesIdle(p, declared, kind, infos[..|infos| - 1], x);
    }
  }

  /** A server that lists the names it holds in a fixed order. */
  function ListIn(universe: seq<string>, kind: Kind, s: Store): seq<Info> {
    if universe == [] then []
    else
      var n := |universe| - 1;
      var init := ListIn(universe[..n], kind, s);
      var k := Key(kind, universe[n]);
      if k in s then init + [Info(universe[n], s[k].createdBy)] else init
  }

  lemma {:induction false} ListInStable(universe: seq<string>, declared: set<Key>, kind: Kind, s: Store, t: Store)
    requires AgreeOutside(declared, kind, s, t)
    ensures Undeclared(declared, kind, ListIn(universe, kind, s)) == Undeclared(declared, kind, ListIn(universe,
        kind, t))
  {
    if universe != [] {
      var n := |universe| - 1;
      ListInStable(universe[..n], declared, kind, s, t);
      var a, b := ListIn(universe[..n], kind, s), ListIn(universe[..n], kind, t);
      var k := Key(kind, universe[n]);
      if k in s {
        assert (a + [Info(universe[n], s[k].createdBy)])[..|a|] == a;
      }
      if k in t {
        assert (b + [Info(universe[n], t[k].createdBy)])[..|b|] == b;
      }
      if k !in declared {
        assert At(s, k) == At(t, k);
      }
    }
  }
}
