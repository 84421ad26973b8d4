/** The reconcile engine, step by step as it runs: it reads and writes the server through a provider. */
module Engine {
  import opened Values
  import opened Compare
  import opened Kinds
  import opened Manifests
  import opened WriteOnlyHash
  import opened S = ReconcileSpec

  /** The remote server behind a provider. */
  class Server {
    const provider: Provider
    var store: Store

    constructor (provider: Provider, store: Store)
      ensures this.provider == provider && this.store == store
    {
      this.provider := provider;
      this.store := store;
    }

    method Observe(key: Key) returns (seen: Observed)
      ensures seen == provider.observe(key, At(store, key))
    {
      seen := provider.observe(key, At(store, key));
    }

    method Create(key: Key, spec: Spec) returns (err: Option<string>)
      modifies this
      ensures var w := provider.create(key, spec, At(old(store), key));
              err == w.err && store == Put(old(store), key, w.after)
    {
      var w := provider.create(key, spec, At(store, key));
      store := Put(store, key, w.after);
      err := w.err;
    }

    method Update(key: Key, spec: Spec) returns (err: Option<string>)
      modifies this
      ensures var w := provider.update(key, spec, At(old(store), key));
              err == w.err && store == Put(old(store), key, w.after)
    {
      var w := provider.update(key, spec, At(store, key));
      store := Put(store, key, w.after);
      err := w.err;
    }

    method Delete(key: Key) returns (err: Option<string>)
      modifies this
      ensures var w := provider.remove(key, At(old(store), key));
              err == w.err && store == Put(old(store), key, w.after)
    {
      var w := provider.remove(key, At(store, key));
      store := Put(store, key, w.after);
      err := w.err;
    }

    method ListAll(kind: Kind) returns (infos: Option<seq<Info>>)
      ensures infos == provider.list(kind, store)
    {
      infos := provider.list(kind, store);
    }
  }

  class Engine {
    const server: Server
    const env: Env

    constructor (server: Server, env: Env)
      ensures this.server == server && this.env == env
    {
      this.server := server;
      this.env := env;
    }

    method ResolveSpecSecrets(spec: Spec) returns (out: Spec)
      ensures out == ResolveSpec(env, spec)
      decreases Map(false, spec), 1
    {
      out := map[];
      var rest := spec.Keys;
      while rest != {}
        invariant rest <= spec.Keys
        invariant out == map k | k in spec && k !in rest :: Resolve(env, spec[k])
        decreases rest
      {
        var k :| k in rest;
        rest := rest - {k};
        var v := ResolveValue(spec[k]);
        out := out[k := v];
      }
    }

    method ResolveValue(v: Value) returns (r: Value)
      ensures r == Resolve(env, v)
      decreases v, 2
    {
      match v
      case Str(s) =>
        var resolved := env.secret(s);
        r := if resolved.None? then v else Str(resolved.value);
      case Map(false, m) =>
        var out := ResolveSpecSecrets(m);
        r := Map(false, out);
      case List(false, xs) =>
        var resolved: seq<Value> := [];
        for i := 0 to |xs|
          invariant resolved == seq(i, j requires 0 <= j < i => Resolve(env, xs[j]))
        {
          var item := ResolveValue(xs[i]);
          resolved := resolved + [item];
        }
        r := List(false, resolved);
      case _ =>
        r := v;
    }

    /** Resolve, observe, compare: the three steps for one resource.  The diff is a map under dotted paths that renders
        the findings of the change. */
    method ReconcileOne(r: Resource, force: bool) returns (change: Change, diffs: map<string, FieldDiff>)
      ensures change == S.ReconcileOne(server.provider, env, r, force, server.store)
      ensures Renders(diffs, map[], change.diff)
    {
      change, diffs := Change(r.kind, r.name, Noop, {}, None, false, ""), map[];
      var spec := ResolveSpecSecrets(r.Fields());
      var seen := server.Observe(r.Id());
      if seen.ObserveFailed? {
        return change.(error := Some(seen.msg)), map[];
      }
      change, diffs := StepCompare(r, spec, seen, change, force);
    }

    method StepCompare(r: Resource, spec: Spec, seen: Observed, blank: Change, force: bool)
      returns (change: Change, diffs: map<string, FieldDiff>)
      requires spec == ResolveSpec(env, r.Fields()) && blank == Blank(r) && !seen.ObserveFailed?
      ensures change == Decide(env, r, seen, force)
      ensures Renders(diffs, map[], change.diff)
    {
      change, diffs := blank, map[];
      if r.notes.syncIgnore {
        return;
      }
      if !r.notes.ignoreWriteOnly {
        var hash := HashWriteOnlyFields(env.codec, spec, WriteOnlyFields(r.kind), r.notes.ignoreFields);
        change := change.(hash := hash);
      }
      if seen.Missing? {
        return change.(action := Create), map[];
      }
      diffs := CompareSpecExcluding(Map(false, spec), Map(false, seen.current), WriteOnlyFields(r.kind));
      diffs := CompareHash(r.kind, change.hash, HashIn(seen.current), diffs,
        Findings([], Map(false, spec), Map(false, seen.current), set f | f in WriteOnlyFields(r.kind)));
      // What the diff renders: the change names its findings in the specification.
      var drift := Drift(r.kind, spec, seen.current, change.hash);
      EmptyDiff(diffs, drift);
      if |diffs| == 0 {
        if force {
          change := change.(action := Update, forced := true);
        }
        return;
      }
      change := change.(action := Update, diff := drift);
    }

    /** Hash drift is put into the diff under its own path. */
    method CompareHash(kind: Kind, desired: string, observed: string, fieldDiffs: map<string, FieldDiff>,
                       ghost fields: set<Finding>)
      returns (diffs: map<string, FieldDiff>)
      requires Renders(fieldDiffs, map[], fields)
      ensures Renders(diffs, map[], if HashDrifts(kind, desired, observed) then WithHash(fields, observed, desired)
                                    else fields)
    {
      diffs := fieldDiffs;
      if desired != "" && desired != observed {
        var canAutoHeal := observed == "" && SupportsWriteOnlyHash(kind);
        if observed != "" || canAutoHeal {
          diffs := diffs[HASH_FIELD := FieldDiff(Str(observed), Str(desired))];
          RendersHash(fieldDiffs, fields, observed, desired);
        }
      }
    }

    /** The observe phase for the resources of one kind, each result stored at its index. */
    method ReconcileKind(rs: seq<Resource>, force: bool)
      returns (changes: array<Change>, diffs: array<map<string, FieldDiff>>)
      ensures fresh(changes) && changes[..] == ObserveAll(server.provider, env, rs, force, server.store)
      ensures fresh(diffs) && diffs.Length == |rs|
      ensures forall i | 0 <= i < |rs| :: Renders(diffs[i], map[], changes[i].diff)
    {
      changes, diffs := new Change[|rs|], new map<string, FieldDiff>[|rs|];
      for i := 0 to |rs|
        invariant changes[..i] == ObserveAll(server.provider, env, rs, force, server.store)[..i]
        invariant forall j | 0 <= j < i :: Renders(diffs[j], map[], changes[j].diff)
      {
        var change, diff := ReconcileOne(rs[i], force);
        changes[i], diffs[i] := change, diff;
      }
    }

    method Execute(c: Change, r: Resource) returns (err: Option<string>)
      modifies server
      ensures var w := ExecuteOne(server.provider, env, c, r, At(old(server.store), r.Id()));
              err == w.err && server.store == (if c.action.Create? || c.action.Update?
                                               then Put(old(server.store), r.Id(), w.after) else old(server.store))
    {
      var spec := ResolveSpecSecrets(r.Fields());
      if c.hash != "" {
        spec := spec[HASH_FIELD := Str(c.hash)];
      }
      match c.action
      case Create => err := server.Create(r.Id(), spec);
      case Update => err := server.Update(r.Id(), spec);
      case _ => err := None;
    }

    /** The execute phase for one kind. */
    method ExecuteChanges(cs: seq<Change>, rs: seq<Resource>) returns (result: Result)
      requires |cs| == |rs| && forall c | c in cs :: !c.action.Delete?
      modifies server
      ensures Exec(server.store, result)
           == ExecuteAll(server.provider, env, cs, rs, Exec(old(server.store), NO_RESULT))
    {
      result := NO_RESULT;
      for i := 0 to |cs|
        invariant Exec(server.store, result)
               == ExecuteAll(server.provider, env, cs[..i], rs[..i], Exec(old(server.store), NO_RESULT))
      {
        assert cs[..i + 1][..i] == cs[..i] && rs[..i + 1][..i] == rs[..i];
        assert cs[i] in cs;
        if cs[i].action == Noop || cs[i].error.Some? {
          continue;
        }
        var err := Execute(cs[i], rs[i]);
        if err.Some? {
          result := result.(failed := result.failed + 1,
                            errors := result.errors + [ErrLine(cs[i].kind, cs[i].name, err.value)]);
        } else {
          result := result.(applied := result.applied + 1);
        }
      }
      assert cs[..|cs|] == cs && rs[..|rs|] == rs;
    }

    /** The prune phase: delete what gcplane owns and the manifest does not declare. */
    method DetectAndExecutePrunes(rs: seq<Resource>, dryRun: bool) returns (changes: seq<Change>, result: Result)
      modifies server
      ensures Prune(changes, result, server.store) == Pruned(server.provider, rs, dryRun, old(server.store))
    {
      changes, result := [], NO_RESULT;
      var declared := {};
      for i := 0 to |rs|
        invariant declared == Declared(rs[..i])
      {
        declared := declared + {rs[i].Id()};
      }
      assert rs[..|rs|] == rs;
      var order := DeleteOrder();
      for i := 0 to order.Length
        invariant order[..] == Reversed(ApplyOrder())
        invariant Prune(changes, result, server.store)
               == PruneKinds(server.provider, declared, order[..i], dryRun, Prune([], NO_RESULT, old(server.store)))
      {
        assert order[..i + 1][..i] == order[..i];
        ghost var x := Prune(changes, result, server.store);
        if Prunable(order[i]) {
          var infos := server.ListAll(order[i]);
          if infos.Some? {
            changes, result := PruneListed(declared, order[i], infos.value, dryRun, changes, result);
          }
        }
        assert Prune(changes, result, server.store) == PruneKind(server.provider, declared, order[i], dryRun, x);
      }
      assert order[..order.Length] == order[..];
    }

    method PruneListed(declared: set<Key>, kind: Kind, infos: seq<Info>, dryRun: bool,
                       changes0: seq<Change>, result0: Result)
      returns (changes: seq<Change>, result: Result)
      modifies server
      ensures Prune(changes, result, server.store)
           == PruneRemotes(server.provider, declared, kind, infos, dryRun, Prune(changes0, result0, old(server.store)))
    {
      changes, result := changes0, result0;
      for i := 0 to |infos|
        invariant Prune(changes, result, server.store)
               == PruneRemotes(server.provider, declared, kind, infos[..i], dryRun,
                               Prune(changes0, result0, old(server.store)))
      {
        assert infos[..i + 1][..i] == infos[..i];
        if infos[i].createdBy != OWNER || Key(kind, infos[i].name) in declared {
          continue;
        }
        var change := Change(kind, infos[i].name, Delete, {}, None, false, "");
        changes := changes + [change];
        if !dryRun {
          var err := server.Delete(Key(kind, infos[i].name));
          if err.Some? {
            result := result.(failed := result.failed + 1,
                              errors := result.errors + [ErrLine(kind, infos[i].name, err.value)]);
          } else {
            result := result.(applied := result.applied + 1);
          }
        }
      }
      assert infos[..|infos|] == infos;
    }

    /** Group the resources by kind, keeping manifest order within a kind. */
    method GroupByKind(rs: seq<Resource>) returns (byKind: map<Kind, seq<Resource>>)
      ensures forall k :: (if k in byKind then byKind[k] else []) == OfKind(rs, k)
    {
      byKind := map[];
      for i := 0 to |rs|
        invariant forall k :: (if k in byKind then byKind[k] else []) == OfKind(rs[..i], k)
      {
        assert rs[..i + 1][..i] == rs[..i];
        var k := rs[i].kind;
        byKind := byKind[k := (if k in byKind then byKind[k] else []) + [rs[i]]];
      }
      assert rs[..|rs|] == rs;
    }

    /** Add the observed changes of one kind to the plan. */
    method CountChanges(changes: seq<Change>, rs: seq<Resource>, plan0: Plan) returns (plan: Plan)
      requires |changes| == |rs|
      ensures plan == AddChanges(plan0, changes, rs)
    {
      plan := plan0;
      for i := 0 to |changes|
        invariant plan == AddChanges(plan0, changes[..i], rs[..i])
      {
        assert changes[..i + 1][..i] == changes[..i] && rs[..i + 1][..i] == rs[..i];
        var change := changes[i];
        plan := plan.(changes := plan.changes + [change]);
        match change.action {
          case Create => plan := plan.(creates := plan.creates + 1);
          case Update => plan := plan.(updates := plan.updates + 1);
          case Noop => plan := plan.(noops := plan.noops + 1);
          case Delete =>
        }
        if change.error.Some? {
          plan := plan.(errors := plan.errors + [ErrLine(rs[i].kind, rs[i].name, change.error.value)]);
        }
      }
      assert changes[..|changes|] == changes && rs[..|rs|] == rs;
    }

    /** One kind of the apply phase. */
    method ApplyKind(rs: seq<Resource>, opts: Opts, plan0: Plan, result0: Result) returns (plan: Plan, result: Result)
      modifies server
      ensures Run(plan, result, server.store)
           == KindPass(server.provider, env, rs, opts, Run(plan0, result0, old(server.store)))
    {
      result := result0;
      var observed, _ := ReconcileKind(rs, opts.force);
      var changes := observed[..];
      plan := CountChanges(changes, rs, plan0);
      if !opts.dryRun {
        NoDeletesObserved(server.provider, env, rs, opts.force, server.store);
        var kindResult := ExecuteChanges(changes, rs);
        result := Merge(result, kindResult);
      }
    }

    /** The apply phase: kinds strictly in dependency order. */
    method ApplyAll(rs: seq<Resource>, opts: Opts) returns (plan: Plan, result: Result)
      modifies server
      ensures Run(plan, result, server.store) == Applied(server.provider, env, rs, opts, old(server.store))
    {
      plan, result := NO_PLAN, NO_RESULT;
      var byKind := GroupByKind(rs);
      ghost var start := Run(NO_PLAN, NO_RESULT, server.store);
      var order := ApplyOrder();
      for i := 0 to |order|
        invariant Run(plan, result, server.store)
               == KindPasses(server.provider, env, rs, opts, order[..i], start)
      {
        assert order[..i + 1][..i] == order[..i];
        if order[i] in byKind {
          plan, result := ApplyKind(byKind[order[i]], opts, plan, result);
        } else {
          assert OfKind(rs, order[i]) == [];
          EmptyKindPass(server.provider, env, opts, Run(plan, result, server.store));
        }
      }
      assert order[..|order|] == order;
    }

    /** A whole run with sequential phases. */
    method Reconcile(rs: seq<Resource>, opts: Opts) returns (plan: Plan, result: Result)
      modifies server
      ensures Run(plan, result, server.store)
           == S.Reconcile(server.provider, env, rs, opts, old(server.store))
    {
      plan, result := ApplyAll(rs, opts);
      if opts.prune {
        var pruned, prunedResult := DetectAndExecutePrunes(rs, opts.dryRun);
        var deletes := plan.deletes;
        for i := 0 to |pruned|
          invariant deletes == plan.deletes + i
        {
          deletes := deletes + 1;
        }
        plan := plan.(changes := plan.changes + pruned, deletes := deletes);
        result := Merge(result, prunedResult);
      }
    }
  }

  /** A diff is empty exactly when it renders no finding. */
  lemma EmptyDiff(diffs: map<string, FieldDiff>, fs: set<Finding>)
    requires Renders(diffs, map[], fs)
    ensures |diffs| == 0 <==> fs == {}
  {
    if f :| f in fs {
      assert Dotted(f.path) in diffs;
    }
  }

  lemma RendersHash(diffs: map<string, FieldDiff>, fs: set<Finding>, observed: string, desired: string)
    requires Renders(diffs, map[], fs)
    ensures Renders(diffs[HASH_FIELD := FieldDiff(Str(observed), Str(desired))], map[], WithHash(fs, observed, desired))
  {
    var after, f := diffs[HASH_FIELD := FieldDiff(Str(observed), Str(desired))], HashFinding(observed, desired);
    assert Dotted([HASH_FIELD]) == HASH_FIELD;
    forall p | p in after
      ensures exists g :: g in WithHash(fs, observed, desired) && Dotted(g.path) == p
                          && after[p] == FieldDiff(g.was, g.want)
    {
      if p == HASH_FIELD {
        assert f in WithHash(fs, observed, desired);
      } else {
        var g :| g in fs && Dotted(g.path) == p && diffs[p] == FieldDiff(g.was, g.want);
        assert g in WithHash(fs, observed, desired);
      }
    }
  }

  lemma NoDeletesObserved(p: Provider, env: Env, rs: seq<Resource>, force: bool, store: Store)
    ensures forall c | c in ObserveAll(p, env, rs, force, store) :: !c.action.Delete?
  {
  }

  lemma EmptyKindPass(p: Provider, env: Env, opts: Opts, run: Run)
    ensures KindPass(p, env, [], opts, run) == run
  {
  }
}
