/** The numbers and error lines of a run, said by the changes it lists. */
module TallyLaws {
  import opened Values
  import opened Kinds
  import opened Manifests
  import opened ReconcileSpec
  import opened RunFacts
  import opened Counting

  function Tally(cs: seq<Change>, action: Action): nat {
    if cs == [] then 0
    else Tally(cs[..|cs| - 1], action) + if cs[|cs| - 1].action == action then 1 else 0
  }

  /** One line for each change that could not be decided, in order. */
  function Complaints(cs: seq<Change>): seq<ErrLine> {
    if cs == [] then []
    else
      var c := cs[|cs| - 1];
      Complaints(cs[..|cs| - 1]) + match c.error case None => [] case Some(msg) => [ErrLine(c.kind, c.name, msg)]
  }

  lemma {:induction false} TallyAppend(a: seq<Change>, b: seq<Change>, action: Action)
    ensures Tally(a + b, action) == Tally(a, action) + Tally(b, action)
  {
    if b == [] {
      assert a + b == a;
    } else {
      assert (a + b)[..|a + b| - 1] == a + b[..|b| - 1];
      TallyAppend(a, b[..|b| - 1], action);
    }
  }

  lemma {:induction false} ComplaintsAppend(a: seq<Change>, b: seq<Change>)
    ensures Complaints(a + b) == Complaints(a) + Complaints(b)
  {
    if b == [] {
      assert a + b == a;
    } else {
      assert (a + b)[..|a + b| - 1] == a + b[..|b| - 1];
      ComplaintsAppend(a, b[..|b| - 1]);
    }
  }

  ghost predicate Tallied(plan: Plan) {
    && plan.creates == Tally(plan.changes, Create) && plan.updates == Tally(plan.changes, Update)
    && plan.noops == Tally(plan.changes, Noop) && plan.deletes == Tally(plan.changes, Delete)
    && plan.errors == Complaints(plan.changes)
  }

  lemma TallyOne(cs: seq<Change>, c: Change)
    ensures forall action :: Tally(cs + [c], action) == Tally(cs, action) + if c.action == action then 1 else 0
    ensures Complaints(cs + [c]) ==
            Complaints(cs) + match c.error case None => [] case Some(msg) => [ErrLine(c.kind, c.name, msg)]
  {
    assert (cs + [c])[..|cs|] == cs;
  }

  lemma AddOneTallied(plan: Plan, c: Change, r: Resource)
    requires Tallied(plan) && !c.action.Delete? && c.kind == r.kind && c.name == r.name
    ensures Tallied(AddChange(plan, c, r))
  {
    TallyOne(plan.changes, c);
  }

  lemma {:induction false} AddTallied(plan: Plan, cs: seq<Change>, rs: seq<Resource>)
    requires Tallied(plan) && |cs| == |rs|
    requires forall i | 0 <= i < |cs| :: !cs[i].action.Delete? && cs[i].kind == rs[i].kind && cs[i].name == rs[i].name
    ensures Tallied(AddChanges(plan, cs, rs))
  {
    if cs != [] {
      var n := |cs| - 1;
      AddTallied(plan, cs[..n], rs[..n]);
      AddOneTallied(AddChanges(plan, cs[..n], rs[..n]), cs[n], rs[n]);
    }
  }

  lemma {:induction false} PassesTallied(p: Provider, env: Env, rs: seq<Resource>, opts: Opts, kinds: seq<Kind>,
                                         run: Run)
    requires Tallied(run.plan)
    ensures Tallied(KindPasses(p, env, rs, opts, kinds, run).plan)
  {
    if kinds != [] {
      var n := |kinds| - 1;
      PassesTallied(p, env, rs, opts, kinds[..n], run);
      var before, some := KindPasses(p, env, rs, opts, kinds[..n], run), OfKind(rs, kinds[n]);
      ObservedChanges(p, env, some, opts.force, before.store);
      AddTallied(before.plan, ObserveAll(p, env, some, opts.force, before.store), some);
    }
  }

  lemma {:induction false} OnlyDeletes(cs: seq<Change>)
    requires forall c | c in cs :: c.action.Delete? && c.error.None?
    ensures forall action :: Tally(cs, action) == if action.Delete? then |cs| else 0
    ensures Complaints(cs) == []
  {
    if cs != [] {
      var before, last := cs[..|cs| - 1], cs[|cs| - 1];
      assert last in cs && forall c | c in before :: c in cs;
      OnlyDeletes(before);
    }
  }

  lemma {:induction false} PrunesHaveNoError(p: Provider, declared: set<Key>, kinds: seq<Kind>, dryRun: bool, x: Prune)
    requires forall c | c in x.changes :: c.action.Delete? && c.error.None?
    ensures forall c | c in PruneKinds(p, declared, kinds, dryRun, x).changes :: c.action.Delete? && c.error.None?
  {
    if kinds != [] {
      var n := |kinds| - 1;
      PrunesHaveNoError(p, declared, kinds[..n], dryRun, x);
      var y := PruneKinds(p, declared, kinds[..n], dryRun, x);
      if Prunable(kinds[n]) && p.list(kinds[n], y.store).Some? {
        var infos := p.list(kinds[n], y.store).value;
        RemotesShape(p, declared, kinds[n], infos, dryRun, y);
        forall c | c in OrphanChanges(declared, kinds[n], infos)
          ensures c.action.Delete? && c.error.None?
        {
          OrphansIff(declared, kinds[n], infos, c);
        }
      }
    }
  }

  /** Main result: whatever the provider does, each number of a plan counts the changes with that action, and its error
      lines are those of the changes that could not be decided. */
  lemma PlanIsTallied(p: Provider, env: Env, rs: seq<Resource>, opts: Opts, store: Store)
    ensures Tallied(Reconcile(p, env, rs, opts, store).plan)
  {
    PassesTallied(p, env, rs, opts, ApplyOrder(), Run(NO_PLAN, NO_RESULT, store));
    if opts.prune {
      var run := Applied(p, env, rs, opts, store);
      var x := Pruned(p, rs, opts.dryRun, run.store);
      PrunesHaveNoError(p, Declared(rs), Reversed(ApplyOrder()), opts.dryRun, Prune([], NO_RESULT, run.store));
      OnlyDeletes(x.changes);
      forall action {
        TallyAppend(run.plan.changes, x.changes, action);
      }
      ComplaintsAppend(run.plan.changes, x.changes);
    }
  }

  /** A line that names a change carried out. */
  ghost predicate Named(e: ErrLine, cs: seq<Change>) {
    exists c :: c in cs && c.kind == e.kind && c.name == e.name && !c.action.Noop? && c.error.None?
  }

  ghost predicate AllNamed(es: seq<ErrLine>, cs: seq<Change>) {
    forall e | e in es :: Named(e, cs)
  }

  lemma NamedMore(es: seq<ErrLine>, cs: seq<Change>, fs: seq<ErrLine>, ds: seq<Change>)
    requires AllNamed(es, cs) && AllNamed(fs, ds)
    ensures AllNamed(es + fs, cs + ds)
  {
    forall e | e in es + fs
      ensures Named(e, cs + ds)
    {
      if e in es {
        var c :| c in cs && c.kind == e.kind && c.name == e.name && !c.action.Noop? && c.error.None?;
        assert c in cs + ds;
      } else {
        var c :| c in ds && c.kind == e.kind && c.name == e.name && !c.action.Noop? && c.error.None?;
        assert c in cs + ds;
      }
    }
  }

  lemma {:induction false} ExecuteNamed(p: Provider, env: Env, cs: seq<Change>, rs: seq<Resource>, store: Store)
    requires |cs| == |rs|
    ensures AllNamed(ExecuteAll(p, env, cs, rs, Exec(store, NO_RESULT)).result.errors, cs)
  {
    if cs != [] {
      var n := |cs| - 1;
      assert cs == cs[..n] + [cs[n]];
      ExecuteNamed(p, env, cs[..n], rs[..n], store);
      var es := ExecuteAll(p, env, cs[..n], rs[..n], Exec(store, NO_RESULT)).result.errors;
      NamedMore(es, cs[..n], [], [cs[n]]);
      if Executes(cs[n]) {
        forall msg
          ensures AllNamed([ErrLine(cs[n].kind, cs[n].name, msg)], [cs[n]])
        {
          assert cs[n] in [cs[n]];
        }
        forall msg {
          NamedMore(es, cs[..n], [ErrLine(cs[n].kind, cs[n].name, msg)], [cs[n]]);
        }
      }
    }
  }

  lemma {:induction false} PassesNamed(p: Provider, env: Env, rs: seq<Resource>, opts: Opts, kinds: seq<Kind>, run: Run)
    requires AllNamed(run.result.errors, run.plan.changes)
    ensures var q := KindPasses(p, env, rs, opts, kinds, run); AllNamed(q.result.errors, q.plan.changes)
  {
    if kinds != [] {
      var n := |kinds| - 1;
      PassesNamed(p, env, rs, opts, kinds[..n], run);
      var before, some := KindPasses(p, env, rs, opts, kinds[..n], run), OfKind(rs, kinds[n]);
      var cs := ObserveAll(p, env, some, opts.force, before.store);
      ObservedChanges(p, env, some, opts.force, before.store);
      AddChangesShape(before.plan, cs, some);
      ExecuteNamed(p, env, cs, some, before.store);
      NamedMore(before.result.errors, before.plan.changes,
                ExecuteAll(p, env, cs, some, Exec(before.store, NO_RESULT)).result.errors, cs);
      NamedMore(before.result.errors, before.plan.changes, [], cs);
      assert before.result.errors + [] == before.result.errors;
    }
  }

  lemma {:induction false} RemotesNamed(p: Provider, declared: set<Key>, kind: Kind, infos: seq<Info>, dryRun: bool,
                                        x: Prune)
    requires AllNamed(x.result.errors, x.changes)
    ensures var y := PruneRemotes(p, declared, kind, infos, dryRun, x); AllNamed(y.result.errors, y.changes)
  {
    if infos != [] {
      var n := |infos| - 1;
      RemotesNamed(p, declared, kind, infos[..n], dryRun, x);
      var y := PruneRemotes(p, declared, kind, infos[..n], dryRun, x);
      var c := DeleteChange(kind, infos[n].name);
      NamedMore(y.result.errors, y.changes, [], [c]);
      assert y.result.errors + [] == y.result.errors;
      forall msg
        ensures AllNamed(y.result.errors + [ErrLine(kind, infos[n].name, msg)], y.changes + [c])
      {
        assert c in [c];
        NamedMore(y.result.errors, y.changes, [ErrLine(kind, infos[n].name, msg)], [c]);
      }
    }
  }

  lemma {:induction false} PruneKindsNamed(p: Provider, declared: set<Key>, kinds: seq<Kind>, dryRun: bool, x: Prune)
    requires AllNamed(x.result.errors, x.changes)
    ensures var y := PruneKinds(p, declared, kinds, dryRun, x); AllNamed(y.result.errors, y.changes)
  {
    if kinds != [] {
      var n := |kinds| - 1;
      PruneKindsNamed(p, declared, kinds[..n], dryRun, x);
      var y := PruneKinds(p, declared, kinds[..n], dryRun, x);
      if Prunable(kinds[n]) && p.list(kinds[n], y.store).Some? {
        RemotesNamed(p, declared, kinds[n], p.list(kinds[n], y.store).value, dryRun, y);
      }
    }
  }

  /** Every failure a run reports is that of a change in its plan which was to be carried out. */
  lemma FailuresAreNamed(p: Provider, env: Env, rs: seq<Resource>, opts: Opts, store: Store)
    ensures var run := Reconcile(p, env, rs, opts, store); AllNamed(run.result.errors, run.plan.changes)
  {
    PassesNamed(p, env, rs, opts, ApplyOrder(), Run(NO_PLAN, NO_RESULT, store));
    if opts.prune {
      var run := Applied(p, env, rs, opts, store);
      PruneKindsNamed(p, Declared(rs), Reversed(ApplyOrder()), opts.dryRun, Prune([], NO_RESULT, run.store));
      var x := Pruned(p, rs, opts.dryRun, run.store);
      NamedMore(run.result.errors, run.plan.changes, x.result.errors, x.changes);
    }
  }
}
