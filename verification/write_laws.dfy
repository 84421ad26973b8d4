/** What a run sends: specs with their secret references resolved, to create what is missing and update what exists. */
module WriteLaws {
  import opened Values
  import opened Kinds
  import opened Manifests
  import opened ReconcileSpec
  import opened RunFacts

  // Resolved specs.

  /** A step into a `map[string]any` or a `[]any`, the containers in which references are resolved. */
  datatype Into = Field(key: string) | Item(i: nat)

  /** The value at the end of such steps. */
  function Inside(v: Value, path: seq<Into>): Option<Value>
    decreases |path|
  {
    if path == [] then Some(v)
    else match path[0]
      case Field(k) => if v.Map? && !v.anyKeys && k in v.m then Inside(v.m[k], path[1..]) else None
      case Item(i) => if v.List? && !v.typed && i < |v.xs| then Inside(v.xs[i], path[1..]) else None
  }

  /** Resolving keeps the shape. */
  predicate SameShape(v: Value, w: Value) {
    match v
    case Str(_) => w.Str?
    case Map(false, m) => w.Map? && !w.anyKeys && w.m.Keys == m.Keys
    case List(false, xs) => w.List? && !w.typed && |w.xs| == |xs|
    case _ => w == v
  }

  /** Every string inside, however deep, is replaced by the secret it refers to, or kept where the lookup fails;
      everything else is as it was. */
  lemma {:induction false} ResolvedInside(env: Env, v: Value, path: seq<Into>)
    ensures Inside(v, path).Some? <==> Inside(Resolve(env, v), path).Some?
    ensures Inside(v, path).Some? ==>
              var was, now := Inside(v, path).value, Inside(Resolve(env, v), path).value;
              && SameShape(was, now)
              && (was.Str? ==> now == match env.secret(was.s) case Some(secret) => Str(secret) case None => was)
    decreases |path|
  {
    if path != [] {
      match path[0]
      case Field(k) =>
        if v.Map? && !v.anyKeys && k in v.m {
          ResolvedInside(env, v.m[k], path[1..]);
        }
      case Item(i) =>
        if v.List? && !v.typed && i < |v.xs| {
          ResolvedInside(env, v.xs[i], path[1..]);
        }
    }
  }

  // Create and update.

  /** A server that refuses to create what exists and to update what does not, and says truthfully what exists; deletes
      succeed. */
  ghost predicate Strict(p: Provider) {
    forall k: Key, spec: Spec, e: Option<Entry> ::
      && (p.create(k, spec, e).err.None? <==> e.None?)
      && (p.update(k, spec, e).err.None? <==> e.Some?)
      && (p.observe(k, e).Missing? <==> e.None?)
      && p.remove(k, e).err.None?
  }

  lemma StrictWrite(p: Provider, env: Env, r: Resource, force: bool, store: Store)
    requires Strict(p) && Executes(ReconcileOne(p, env, r, force, store))
    ensures ExecuteOne(p, env, ReconcileOne(p, env, r, force, store), r, At(store, r.Id())).err.None?
  {
    var c := ReconcileOne(p, env, r, force, store);
    assert p.observe(r.Id(), At(store, r.Id())).Missing? <==> At(store, r.Id()).None? by {
      assert p.create(r.Id(), map[], At(store, r.Id())).err.None? <==> At(store, r.Id()).None?;
    }
    assert p.create(r.Id(), Payload(env, c, r), At(store, r.Id())).err.None? <==> At(store, r.Id()).None?;
  }

  lemma {:induction false} StrictExecutes(p: Provider, env: Env, rs: seq<Resource>, force: bool, store: Store, n: nat,
                                          result: Result)
    requires Strict(p) && Distinct(rs) && n <= |rs|
    ensures var cs := ObserveAll(p, env, rs, force, store);
            ExecuteAll(p, env, cs[..n], rs[..n], Exec(store, result)).result.failed == result.failed
  {
    var cs := ObserveAll(p, env, rs, force, store);
    if n > 0 {
      StrictExecutes(p, env, rs, force, store, n - 1, result);
      assert cs[..n][..n - 1] == cs[..n - 1] && rs[..n][..n - 1] == rs[..n - 1];
      assert rs[n - 1].Id() !in Declared(rs[..n - 1]);
      ExecuteTouches(p, env, cs[..n - 1], rs[..n - 1], Exec(store, result), rs[n - 1].Id());
      if Executes(cs[n - 1]) {
        StrictWrite(p, env, rs[n - 1], force, store);
      }
    }
  }

  lemma {:induction false} StrictPasses(p: Provider, env: Env, rs: seq<Resource>, opts: Opts, kinds: seq<Kind>,
                                        run: Run)
    requires Strict(p) && Distinct(rs)
    ensures KindPasses(p, env, rs, opts, kinds, run).result.failed == run.result.failed
  {
    if kinds != [] {
      var n := |kinds| - 1;
      StrictPasses(p, env, rs, opts, kinds[..n], run);
      var before := KindPasses(p, env, rs, opts, kinds[..n], run);
      var some := OfKind(rs, kinds[n]);
      var cs := ObserveAll(p, env, some, opts.force, before.store);
      OfKindDistinct(rs, kinds[n]);
      StrictExecutes(p, env, some, opts.force, before.store, |some|, NO_RESULT);
      assert cs[..|some|] == cs && some[..|some|] == some;
    }
  }

  lemma {:induction false} StrictRemotes(p: Provider, declared: set<Key>, kind: Kind, infos: seq<Info>, dryRun: bool,
                                         x: Prune)
    requires Strict(p)
    ensures PruneRemotes(p, declared, kind, infos, dryRun, x).result.failed == x.result.failed
  {
    if infos != [] {
      var n := |infos| - 1;
      StrictRemotes(p, declared, kind, infos[..n], dryRun, x);
      var y := PruneRemotes(p, declared, kind, infos[..n], dryRun, x);
      assert p.create(Key(kind, infos[n].name), map[], At(y.store, Key(kind, infos[n].name))).err.None? <==>
             At(y.store, Key(kind, infos[n].name)).None?;
    }
  }

  lemma {:induction false} StrictPrunes(p: Provider, declared: set<Key>, kinds: seq<Kind>, dryRun: bool, x: Prune)
    requires Strict(p)
    ensures PruneKinds(p, declared, kinds, dryRun, x).result.failed == x.result.failed
  {
    if kinds != [] {
      var n := |kinds| - 1;
      StrictPrunes(p, declared, kinds[..n], dryRun, x);
      var y := PruneKinds(p, declared, kinds[..n], dryRun, x);
      if Prunable(kinds[n]) && p.list(kinds[n], y.store).Some? {
        StrictRemotes(p, declared, kinds[n], p.list(kinds[n], y.store).value, dryRun, y);
      }
    }
  }

  /** Main result: a run creates only what is missing and updates only what exists: no write fails against a server that
      refuses anything else. */
  lemma StrictRunNeverFails(p: Provider, env: Env, rs: seq<Resource>, opts: Opts, store: Store)
    requires Strict(p) && Distinct(rs)
    ensures Reconcile(p, env, rs, opts, store).result.failed == 0
  {
    StrictPasses(p, env, rs, opts, ApplyOrder(), Run(NO_PLAN, NO_RESULT, store));
    StrictPrunes(p, Declared(rs), Reversed(ApplyOrder()), opts.dryRun,
                 Prune([], NO_RESULT, Applied(p, env, rs, opts, store).store));
  }
}
