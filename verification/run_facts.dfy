/** The shape of a run: which changes it lists, in what order, and which keys it may touch. */
module RunFacts {
  import opened Values
  import opened Kinds
  import opened Manifests
  import opened ReconcileSpec

  lemma {:induction false} AddChangesShape(plan: Plan, cs: seq<Change>, rs: seq<Resource>)
    requires |cs| == |rs| && forall c | c in cs :: !c.action.Delete?
    ensures var q := AddChanges(plan, cs, rs);
            && q.changes == plan.changes + cs
            && q.deletes == plan.deletes
            && q.creates + q.updates + q.noops == plan.creates + plan.updates + plan.noops + |cs|
  {
    if cs != [] {
      var n := |cs| - 1;
      assert cs == cs[..n] + [cs[n]];
      AddChangesShape(plan, cs[..n], rs[..n]);
    }
  }

  /** An observed change carries an error only when nothing will be done about it. */
  lemma ObservedChanges(p: Provider, env: Env, rs: seq<Resource>, force: bool, store: Store)
    ensures forall i | 0 <= i < |rs| :: var c := ObserveAll(p, env, rs, force, store)[i];
              && c.kind == rs[i].kind && c.name == rs[i].name && !c.action.Delete?
              && (Executes(c) <==> c.action.Create? || c.action.Update?)
  {
  }

  /** The changes of the apply phase, kind by kind. */
  lemma {:induction false} PassesShape(p: Provider, env: Env, rs: seq<Resource>, opts: Opts, kinds: seq<Kind>, run: Run)
    requires run.plan == NO_PLAN
    ensures var q := KindPasses(p, env, rs, opts, kinds, run).plan;
            && q.deletes == 0
            && q.creates + q.updates + q.noops == |q.changes|
            && (forall c | c in q.changes :: !c.action.Delete? && c.kind in kinds)
            && (forall r | r in rs && r.kind in kinds :: exists i :: 0 <= i < |q.changes| && q.changes[i].kind == r.kind
                                                                     && q.changes[i].name == r.name)
  {
    if kinds != [] {
      var n := |kinds| - 1;
      var before := KindPasses(p, env, rs, opts, kinds[..n], run);
      var some := OfKind(rs, kinds[n]);
      PassesShape(p, env, rs, opts, kinds[..n], run);
      assert kinds == kinds[..n] + [kinds[n]];
      OfKindMembers(rs, kinds[n]);
      var cs := ObserveAll(p, env, some, opts.force, before.store);
      ObservedChanges(p, env, some, opts.force, before.store);
      AddChangesShape(before.plan, cs, some);
      var q := KindPasses(p, env, rs, opts, kinds, run).plan;
      assert q.changes == before.plan.changes + cs;
      forall r | r in rs && r.kind in kinds
        ensures exists i :: 0 <= i < |q.changes| && q.changes[i].kind == r.kind && q.changes[i].name == r.name
      {
        assert r.kind == kinds[n] ==> r in some;
        assert r.kind != kinds[n] ==> r.kind in kinds[..n];
        ChangeAmong(before.plan.changes, cs, some, r);
      }
    }
  }

  lemma ChangeAmong(before: seq<Change>, cs: seq<Change>, some: seq<Resource>, r: Resource)
    requires |cs| == |some| && forall i | 0 <= i < |cs| :: cs[i].kind == some[i].kind && cs[i].name == some[i].name
    requires r in some || exists i :: 0 <= i < |before| && before[i].kind == r.kind && before[i].name == r.name
    ensures exists i :: 0 <= i < |before + cs| && (before + cs)[i].kind == r.kind && (before + cs)[i].name == r.name
  {
    if r in some {
      var j :| 0 <= j < |some| && some[j] == r;
      assert (before + cs)[|before| + j] == cs[j];
    } else {
      var j :| 0 <= j < |before| && before[j].kind == r.kind && before[j].name == r.name;
      assert (before + cs)[j] == before[j];
    }
  }

  /** Executing changes touches the keys of their resources alone. */
  lemma {:induction false} ExecuteTouches(p: Provider, env: Env, cs: seq<Change>, rs: seq<Resource>, x: Exec, k: Key)
    requires |cs| == |rs| && k !in Declared(rs)
    ensures At(ExecuteAll(p, env, cs, rs, x).store, k) == At(x.store, k)
  {
    if cs != [] {
      var n := |cs| - 1;
      assert rs[n].Id() in Declared(rs);
      assert Declared(rs[..n]) <= Declared(rs);
      ExecuteTouches(p, env, cs[..n], rs[..n], x, k);
    }
  }

  /** The apply phase touches declared keys of the kinds it has passed, and a dry run none. */
  lemma {:induction false} PassesTouch(p: Provider, env: Env, rs: seq<Resource>, opts: Opts, kinds: seq<Kind>,
                                       run: Run, k: Key)
    requires opts.dryRun || k.kind !in kinds || k !in Declared(rs)
    ensures At(KindPasses(p, env, rs, opts, kinds, run).store, k) == At(run.store, k)
  {
    if kinds != [] {
      var n := |kinds| - 1;
      var before := KindPasses(p, env, rs, opts, kinds[..n], run);
      PassesTouch(p, env, rs, opts, kinds[..n], run, k);
      if !opts.dryRun {
        var some := OfKind(rs, kinds[n]);
        OfKindMembers(rs, kinds[n]);
        var cs := ObserveAll(p, env, some, opts.force, before.store);
        ExecuteTouches(p, env, cs, some, Exec(before.store, NO_RESULT), k);
      }
    }
  }

  /** The delete changes for one listing: its orphans, in listing order. */
  function OrphanChanges(declared: set<Key>, kind: Kind, infos: seq<Info>): seq<Change> {
    if infos == [] then []
    else
      var n := |infos| - 1;
      var init := OrphanChanges(declared, kind, infos[..n]);
      if Orphan(declared, kind, infos[n]) then init + [DeleteChange(kind, infos[n].name)] else init
  }

  lemma {:induction false} RemotesShape(p: Provider, declared: set<Key>, kind: Kind, infos: seq<Info>, dryRun: bool,
                                        x: Prune)
    ensures PruneRemotes(p, declared, kind, infos, dryRun, x).changes == x.changes + OrphanChanges(declared, kind,
        infos)
  {
    if infos != [] {
      RemotesShape(p, declared, kind, infos[..|infos| - 1], dryRun, x);
    }
  }

  lemma {:induction false} OrphansIff(declared: set<Key>, kind: Kind, infos: seq<Info>, c: Change)
    ensures c in OrphanChanges(declared, kind, infos)
       <==> exists i :: i in infos && Orphan(declared, kind, i) && c == DeleteChange(kind, i.name)
  {
    if infos != [] {
      var n := |infos| - 1;
      assert infos == infos[..n] + [infos[n]];
      OrphansIff(declared, kind, infos[..n], c);
    }
  }

  /** Pruning one listing touches its orphans alone, and in a dry run nothing. */
  lemma {:induction false} RemotesTouch(p: Provider, declared: set<Key>, kind: Kind, infos: seq<Info>, dryRun: bool,
                                        x: Prune, k: Key)
    requires dryRun || k.kind != kind || k in declared || Info(k.name, OWNER) !in infos
    ensures At(PruneRemotes(p, declared, kind, infos, dryRun, x).store, k) == At(x.store, k)
  {
    if infos != [] {
      var n := |infos| - 1;
      assert infos == infos[..n] + [infos[n]];
      RemotesTouch(p, declared, kind, infos[..n], dryRun, x, k);
      if Orphan(declared, kind, infos[n]) {
        assert infos[n] == Info(infos[n].name, OWNER);
      }
    }
  }

  /** With distinct resources, each key sees its own change alone, carried out on the entry it had. */
  lemma {:induction false} ExecuteAt(p: Provider, env: Env, cs: seq<Change>, rs: seq<Resource>, x: Exec, i: nat)
    requires |cs| == |rs| && i < |rs| && Distinct(rs)
    ensures var w := ExecuteOne(p, env, cs[i], rs[i], At(x.store, rs[i].Id()));
            var y := ExecuteAll(p, env, cs, rs, x);
            && At(y.store, rs[i].Id()) == (if Executes(cs[i]) then w.after else At(x.store, rs[i].Id()))
            && x.result.failed <= y.result.failed
            && (Executes(cs[i]) && y.result.failed == 0 ==> w.err.None?)
  {
    var n := |cs| - 1;
    ExecuteMonotone(p, env, cs[..n], rs[..n], x);
    var y := ExecuteAll(p, env, cs[..n], rs[..n], x);
    if i == n {
      ExecuteTouches(p, env, cs[..n], rs[..n], x, rs[n].Id());
    } else {
      assert Distinct(rs[..n]) && cs[..n][i] == cs[i] && rs[..n][i] == rs[i];
      ExecuteAt(p, env, cs[..n], rs[..n], x, i);
      assert rs[i].Id() != rs[n].Id();
    }
  }

  lemma {:induction false} ExecuteMonotone(p: Provider, env: Env, cs: seq<Change>, rs: seq<Resource>, x: Exec)
    requires |cs| == |rs|
    ensures x.result.failed <= ExecuteAll(p, env, cs, rs, x).result.failed
  {
    if cs != [] {
      ExecuteMonotone(p, env, cs[..|cs| - 1], rs[..|rs| - 1], x);
    }
  }

  lemma {:induction false} PlanErrors(plan: Plan, cs: seq<Change>, rs: seq<Resource>)
    requires |cs| == |rs| && AddChanges(plan, cs, rs).errors == []
    ensures plan.errors == [] && forall c | c in cs :: c.error.None?
  {
    if cs != [] {
      var n := |cs| - 1;
      assert cs == cs[..n] + [cs[n]];
      PlanErrors(plan, cs[..n], rs[..n]);
    }
  }

  /** What an apply phase without failures leaves at a declared key. */
  lemma {:induction false} PassesAt(p: Provider, env: Env, rs: seq<Resource>, opts: Opts, kinds: seq<Kind>, run: Run,
                                    r: Resource)
    requires !opts.dryRun && Distinct(rs) && r in rs
    requires forall i, j | 0 <= i < j < |kinds| :: kinds[i] != kinds[j]
    requires var q := KindPasses(p, env, rs, opts, kinds, run); q.result.failed == 0 && q.plan.errors == []
    ensures run.result.failed == 0 && run.plan.errors == []
    ensures var q := KindPasses(p, env, rs, opts, kinds, run);
            var c := ReconcileOne(p, env, r, opts.force, run.store);
            var w := ExecuteOne(p, env, c, r, At(run.store, r.Id()));
            if r.kind in kinds then
              && c.error.None?
              && (Executes(c) ==> w.err.None?)
              && At(q.store, r.Id()) == (if Executes(c) then w.after else At(run.store, r.Id()))
            else At(q.store, r.Id()) == At(run.store, r.Id())
  {
    if kinds != [] {
      var n := |kinds| - 1;
      assert kinds == kinds[..n] + [kinds[n]];
      var before := KindPasses(p, env, rs, opts, kinds[..n], run);
      var some := OfKind(rs, kinds[n]);
      var cs := ObserveAll(p, env, some, opts.force, before.store);
      var x := Exec(before.store, NO_RESULT);
      ExecuteMonotone(p, env, cs, some, x);
      PlanErrors(before.plan, cs, some);
      PassesAt(p, env, rs, opts, kinds[..n], run, r);
      OfKindMembers(rs, kinds[n]);
      OfKindDistinct(rs, kinds[n]);
      if r.kind == kinds[n] {
        var i :| 0 <= i < |some| && some[i] == r;
        ExecuteAt(p, env, cs, some, x, i);
        assert cs[i] in cs;
      } else {
        ExecuteTouches(p, env, cs, some, x, r.Id());
      }
    }
  }
}
