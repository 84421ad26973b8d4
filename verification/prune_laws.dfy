/** Pruning deletes what it may, all of it, and nothing else, over any sequence of runs. */
module PruneLaws {
  import opened Values
  import opened Kinds
  import opened Manifests
  import opened ReconcileSpec
  import opened RunFacts
  import opened Fidelity

  /** A listing, when it succeeds, names exactly the entries of its kind with their owners. */
  ghost predicate TruthfulListing(p: Provider) {
    forall kind: Kind, s: Store | p.list(kind, s).Some? ::
      forall info: Info :: info in p.list(kind, s).value
        <==> Key(kind, info.name) in s && s[Key(kind, info.name)].createdBy == info.createdBy
  }

  /** A successful delete leaves nothing behind. */
  ghost predicate Removes(p: Provider) {
    forall k: Key, e: Option<Entry> :: p.remove(k, e).err.None? ==> p.remove(k, e).after.None?
  }

  /** An entry the prune phase is there to delete. */
  predicate IsOrphan(declared: set<Key>, s: Store, k: Key) {
    Prunable(k.kind) && k !in declared && k in s && s[k].createdBy == OWNER
  }

  /** Keys that are declared, of a kind that is not pruned, or not owned by gcplane. */
  lemma {:induction false} PruneSpares(p: Provider, declared: set<Key>, kinds: seq<Kind>, dryRun: bool, x: Prune,
                                       k: Key)
    requires TruthfulListing(p) && !IsOrphan(declared, x.store, k)
    ensures At(PruneKinds(p, declared, kinds, dryRun, x).store, k) == At(x.store, k)
  {
    if kinds != [] {
      var n := |kinds| - 1;
      PruneSpares(p, declared, kinds[..n], dryRun, x, k);
      var y := PruneKinds(p, declared, kinds[..n], dryRun, x);
      var infos := p.list(kinds[n], y.store);
      if Prunable(kinds[n]) && infos.Some? {
        if k.kind == kinds[n] && Info(k.name, OWNER) in infos.value {
          assert k == Key(kinds[n], k.name);
          assert At(y.store, k) == At(x.store, k);
        }
        RemotesTouch(p, declared, kinds[n], infos.value, dryRun, y, k);
      }
    }
  }

  /** Every delete in a run names a listed, owned, prunable resource outside the manifest. */
  lemma {:induction false} DeletesJustified(p: Provider, declared: set<Key>, kinds: seq<Kind>, dryRun: bool,
                                            x: Prune, c: Change)
    requires TruthfulListing(p)
    requires c in PruneKinds(p, declared, kinds, dryRun, x).changes && c !in x.changes
    ensures c.action.Delete? && IsOrphan(declared, x.store, Key(c.kind, c.name))
  {
    if kinds != [] {
      var n := |kinds| - 1;
      var y := PruneKinds(p, declared, kinds[..n], dryRun, x);
      var infos := p.list(kinds[n], y.store);
      if c in y.changes {
        DeletesJustified(p, declared, kinds[..n], dryRun, x, c);
      } else {
        RemotesShape(p, declared, kinds[n], infos.value, dryRun, y);
        OrphansIff(declared, kinds[n], infos.value, c);
        var k := Key(c.kind, c.name);
        if !IsOrphan(declared, x.store, k) {
          PruneSpares(p, declared, kinds[..n], dryRun, x, k);
          assert false;
        }
      }
    }
  }

  /** A run leaves alone every key that is neither declared nor an orphan. */
  lemma RunSparesForeign(p: Provider, env: Env, rs: seq<Resource>, opts: Opts, store: Store, k: Key)
    requires TruthfulListing(p) && k !in Declared(rs) && !IsOrphan(Declared(rs), store, k)
    ensures At(Reconcile(p, env, rs, opts, store).store, k) == At(store, k)
  {
    PassesTouch(p, env, rs, opts, ApplyOrder(), Run(NO_PLAN, NO_RESULT, store), k);
    var run := Applied(p, env, rs, opts, store);
    assert At(run.store, k) == At(store, k);
    PruneSpares(p, Declared(rs), Reversed(ApplyOrder()), opts.dryRun, Prune([], NO_RESULT, run.store), k);
  }

  lemma {:induction false} ExecuteSparesIgnored(p: Provider, env: Env, cs: seq<Change>, rs: seq<Resource>, x: Exec,
                                                k: Key)
    requires |cs| == |rs|
    requires forall i | 0 <= i < |rs| && rs[i].Id() == k :: cs[i].action.Noop?
    ensures At(ExecuteAll(p, env, cs, rs, x).store, k) == At(x.store, k)
  {
    if cs != [] {
      var n := |cs| - 1;
      ExecuteSparesIgnored(p, env, cs[..n], rs[..n], x, k);
    }
  }

  lemma {:induction false} PassesSpareIgnored(p: Provider, env: Env, rs: seq<Resource>, opts: Opts, kinds: seq<Kind>,
                                              run: Run, k: Key)
    requires forall r | r in rs && r.Id() == k :: r.notes.syncIgnore
    ensures At(KindPasses(p, env, rs, opts, kinds, run).store, k) == At(run.store, k)
  {
    if kinds != [] {
      var n := |kinds| - 1;
      PassesSpareIgnored(p, env, rs, opts, kinds[..n], run, k);
      var before := KindPasses(p, env, rs, opts, kinds[..n], run);
      var some := OfKind(rs, kinds[n]);
      OfKindMembers(rs, kinds[n]);
      var cs := ObserveAll(p, env, some, opts.force, before.store);
      forall i | 0 <= i < |some| && some[i].Id() == k
        ensures cs[i].action.Noop?
      {
        assert some[i] in some;
      }
      ExecuteSparesIgnored(p, env, cs, some, Exec(before.store, NO_RESULT), k);
    }
  }

  /** A run neither changes nor deletes a resource whose sync policy is Ignore. */
  lemma RunSparesIgnored(p: Provider, env: Env, rs: seq<Resource>, opts: Opts, store: Store, k: Key)
    requires TruthfulListing(p) && k in Declared(rs)
    requires forall r | r in rs && r.Id() == k :: r.notes.syncIgnore
    ensures At(Reconcile(p, env, rs, opts, store).store, k) == At(store, k)
  {
    PassesSpareIgnored(p, env, rs, opts, ApplyOrder(), Run(NO_PLAN, NO_RESULT, store), k);
    var run := Applied(p, env, rs, opts, store);
    PruneSpares(p, Declared(rs), Reversed(ApplyOrder()), opts.dryRun, Prune([], NO_RESULT, run.store), k);
  }

  /** One cycle of the controller: the provider and the environment may differ from cycle to cycle. */
  datatype Cycle = Cycle(provider: Provider, env: Env, opts: Opts)

  /** The server state after a sequence of cycles with a fixed manifest. */
  function AfterCycles(rs: seq<Resource>, cycles: seq<Cycle>, store: Store): Store {
    if cycles == [] then store
    else
      var c := cycles[|cycles| - 1];
      Reconcile(c.provider, c.env, rs, c.opts, AfterCycles(rs, cycles[..|cycles| - 1], store)).store
  }

  /** A key gcplane has no business with: undeclared and not its own, or declared with sync policy Ignore. */
  predicate OffLimits(rs: seq<Resource>, store: Store, k: Key) {
    if k in Declared(rs) then forall r | r in rs && r.Id() == k :: r.notes.syncIgnore
    else !IsOrphan(Declared(rs), store, k)
  }

  lemma RunSpares(rs: seq<Resource>, c: Cycle, s: Store, store: Store, k: Key)
    requires TruthfulListing(c.provider) && OffLimits(rs, store, k) && At(s, k) == At(store, k)
    ensures At(Reconcile(c.provider, c.env, rs, c.opts, s).store, k) == At(store, k)
  {
    if k in Declared(rs) {
      RunSparesIgnored(c.provider, c.env, rs, c.opts, s, k);
    } else {
      RunSparesForeign(c.provider, c.env, rs, c.opts, s, k);
    }
  }

  /** Main result: in any sequence of cycles, whatever fails, such keys keep the entry they had. */
  lemma {:induction false} CyclesSpare(rs: seq<Resource>, cycles: seq<Cycle>, store: Store, k: Key)
    requires forall i | 0 <= i < |cycles| :: TruthfulListing(cycles[i].provider)
    requires OffLimits(rs, store, k)
    ensures At(AfterCycles(rs, cycles, store), k) == At(store, k)
  {
    if cycles != [] {
      var n := |cycles| - 1;
      CyclesSpare(rs, cycles[..n], store, k);
      RunSpares(rs, cycles[n], AfterCycles(rs, cycles[..n], store), store, k);
    }
  }

  lemma {:induction false} RemotesClean(p: Provider, declared: set<Key>, kind: Kind, infos: seq<Info>, x: Prune, k: Key)
    requires Removes(p) && k.kind == kind && k !in declared
    requires PruneRemotes(p, declared, kind, infos, false, x).result.failed == 0
    ensures x.result.failed == 0
    ensures At(x.store, k).None? || Info(k.name, OWNER) in infos
        ==> At(PruneRemotes(p, declared, kind, infos, false, x).store, k).None?
  {
    if infos != [] {
      var n := |infos| - 1;
      assert infos == infos[..n] + [infos[n]];
      var y := PruneRemotes(p, declared, kind, infos[..n], false, x);
      RemotesClean(p, declared, kind, infos[..n], x, k);
      if !(Orphan(declared, kind, infos[n]) && infos[n].name == k.name) {
        assert infos[n] == Info(k.name, OWNER) ==> Key(kind, k.name) == k;
      }
    }
  }

  /** Every listing the prune phase asks for succeeds. */
  ghost predicate ListsAll(p: Provider) {
    forall kind: Kind, s: Store | Prunable(kind) :: p.list(kind, s).Some?
  }

  lemma {:induction false} PruneKindsClean(p: Provider, declared: set<Key>, kinds: seq<Kind>, x: Prune, k: Key)
    requires TruthfulListing(p) && Removes(p) && ListsAll(p)
    requires PruneKinds(p, declared, kinds, false, x).result.failed == 0
    ensures x.result.failed == 0
    ensures k.kind in kinds ==> !IsOrphan(declared, PruneKinds(p, declared, kinds, false, x).store, k)
  {
    if kinds != [] {
      var n := |kinds| - 1;
      assert kinds == kinds[..n] + [kinds[n]];
      var y := PruneKinds(p, declared, kinds[..n], false, x);
      var z := PruneKinds(p, declared, kinds, false, x);
      if Prunable(kinds[n]) {
        var infos := p.list(kinds[n], y.store).value;
        RemotesMonotone(p, declared, kinds[n], infos, y);
        PruneKindsClean(p, declared, kinds[..n], x, k);
        if k.kind == kinds[n] && k !in declared {
          RemotesClean(p, declared, kinds[n], infos, y, k);
          if Info(k.name, OWNER) !in infos {
            assert k == Key(kinds[n], k.name);
            RemotesTouch(p, declared, kinds[n], infos, false, y, k);
          }
        } else {
          RemotesTouch(p, declared, kinds[n], infos, false, y, k);
        }
      } else {
        PruneKindsClean(p, declared, kinds[..n], x, k);
      }
    }
  }

  lemma {:induction false} RemotesMonotone(p: Provider, declared: set<Key>, kind: Kind, infos: seq<Info>, x: Prune)
    ensures x.result.failed <= PruneRemotes(p, declared, kind, infos, false, x).result.failed
  {
    if infos != [] {
      RemotesMonotone(p, declared, kind, infos[..|infos| - 1], x);
    }
  }

  /** Main result: a real, failure-free run with pruning leaves no orphan behind. */
  lemma CleanPruneLeavesNoOrphan(p: Provider, env: Env, rs: seq<Resource>, opts: Opts, store: Store, k: Key)
    requires TruthfulListing(p) && Removes(p) && ListsAll(p)
    requires opts.prune && !opts.dryRun && Reconcile(p, env, rs, opts, store).result.failed == 0
    ensures !IsOrphan(Declared(rs), Reconcile(p, env, rs, opts, store).store, k)
  {
    var run := Applied(p, env, rs, opts, store);
    var order := Reversed(ApplyOrder());
    PruneKindsClean(p, Declared(rs), order, Prune([], NO_RESULT, run.store), k);
    if Prunable(k.kind) {
      assert order[|order| - 1 - Rank(k.kind)] == k.kind;
    }
  }

  // What is deleted, exactly.

  /** An undeclared entry created by gcplane, of a kind that is pruned. */
  predicate Stray(rs: seq<Resource>, s: Store, k: Key) {
    && k in s && s[k].createdBy == "gcplane"
    && (forall r | r in rs :: r.kind != k.kind || r.name != k.name)
    && k.kind in {Tenant, Kind.Provider, Agent, MCPServer, Channel, CronJob, SecureCLI, AgentTeam, AgentLink,
                  Workstation}
  }

  lemma StrayIff(rs: seq<Resource>, s: Store, k: Key)
    ensures Stray(rs, s, k) <==> IsOrphan(Declared(rs), s, k)
  {
    if r :| r in rs && r.kind == k.kind && r.name == k.name {
      assert r.Id() == k;
    }
  }

  lemma {:induction false} OtherKindsUntouched(p: Provider, declared: set<Key>, kinds: seq<Kind>, dryRun: bool,
                                               x: Prune, k: Key)
    requires k.kind !in kinds
    ensures At(PruneKinds(p, declared, kinds, dryRun, x).store, k) == At(x.store, k)
  {
    if kinds != [] {
      var n := |kinds| - 1;
      LastKind(kinds);
      OtherKindsUntouched(p, declared, kinds[..n], dryRun, x, k);
      var y := PruneKinds(p, declared, kinds[..n], dryRun, x);
      if Prunable(kinds[n]) && p.list(kinds[n], y.store).Some? {
        RemotesTouch(p, declared, kinds[n], p.list(kinds[n], y.store).value, dryRun, y, k);
      }
    }
  }

  lemma LastKind(kinds: seq<Kind>)
    requires kinds != []
    ensures forall kind :: kind in kinds <==> kind in kinds[..|kinds| - 1] || kind == kinds[|kinds| - 1]
  {
    assert kinds == kinds[..|kinds| - 1] + [kinds[|kinds| - 1]];
  }

  /** An orphan's delete is among the changes, and after a real prune without failures the orphan is gone. */
  ghost predicate Dealt(x: Prune, k: Key, dryRun: bool) {
    DeleteChange(k.kind, k.name) in x.changes && (!dryRun && x.result.failed == 0 ==> k !in x.store)
  }

  lemma {:induction false} OrphanDealtWith(p: Provider, declared: set<Key>, kinds: seq<Kind>, dryRun: bool, x: Prune,
                                           k: Key)
    requires TruthfulListing(p) && Removes(p) && ListsAll(p)
    requires IsOrphan(declared, x.store, k) && k.kind in kinds
    ensures Dealt(PruneKinds(p, declared, kinds, dryRun, x), k, dryRun)
  {
    var n := |kinds| - 1;
    LastKind(kinds);
    var y := PruneKinds(p, declared, kinds[..n], dryRun, x);
    if k.kind in kinds[..n] {
      OrphanDealtWith(p, declared, kinds[..n], dryRun, x, k);
      StaysDealtWith(p, declared, kinds[n], dryRun, y, k);
    } else {
      OtherKindsUntouched(p, declared, kinds[..n], dryRun, x, k);
      OrphanIsListed(p, declared, dryRun, y, k);
    }
  }

  lemma StaysDealtWith(p: Provider, declared: set<Key>, kind: Kind, dryRun: bool, y: Prune, k: Key)
    requires TruthfulListing(p) && Removes(p) && ListsAll(p)
    requires Dealt(y, k, dryRun) && k !in declared
    ensures Dealt(PruneKind(p, declared, kind, dryRun, y), k, dryRun)
  {
    if Prunable(kind) {
      var infos := p.list(kind, y.store).value;
      RemotesShape(p, declared, kind, infos, dryRun, y);
      if !dryRun && PruneRemotes(p, declared, kind, infos, dryRun, y).result.failed == 0 {
        RemotesMonotone(p, declared, kind, infos, y);
        if k.kind == kind {
          RemotesClean(p, declared, kind, infos, y, k);
        } else {
          RemotesTouch(p, declared, kind, infos, false, y, k);
        }
      }
    }
  }

  lemma OrphanIsListed(p: Provider, declared: set<Key>, dryRun: bool, y: Prune, k: Key)
    requires TruthfulListing(p) && Removes(p) && ListsAll(p) && IsOrphan(declared, y.store, k)
    ensures Dealt(PruneKind(p, declared, k.kind, dryRun, y), k, dryRun)
  {
    var infos := p.list(k.kind, y.store).value;
    assert k == Key(k.kind, k.name);
    assert Info(k.name, OWNER) in infos;
    RemotesShape(p, declared, k.kind, infos, dryRun, y);
    OrphansIff(declared, k.kind, infos, DeleteChange(k.kind, k.name));
    if !dryRun && PruneRemotes(p, declared, k.kind, infos, dryRun, y).result.failed == 0 {
      RemotesClean(p, declared, k.kind, infos, y, k);
    }
  }

  lemma KindIsWalked(kind: Kind)
    requires Prunable(kind)
    ensures kind in Reversed(ApplyOrder())
  {
    assert Reversed(ApplyOrder())[|ApplyOrder()| - 1 - Rank(kind)] == kind;
  }

  /** Main result: with listings that succeed and tell the truth, the prune phase plans the delete of a resource exactly
      if it is a stray, in a dry run as in a real one. */
  lemma DeletedIffStray(p: Provider, rs: seq<Resource>, dryRun: bool, store: Store, k: Key)
    requires TruthfulListing(p) && Removes(p) && ListsAll(p)
    ensures DeleteChange(k.kind, k.name) in Pruned(p, rs, dryRun, store).changes <==> Stray(rs, store, k)
  {
    var order, x := Reversed(ApplyOrder()), Prune([], NO_RESULT, store);
    StrayIff(rs, store, k);
    if Stray(rs, store, k) {
      KindIsWalked(k.kind);
      OrphanDealtWith(p, Declared(rs), order, dryRun, x, k);
    }
    if DeleteChange(k.kind, k.name) in Pruned(p, rs, dryRun, store).changes {
      DeletesJustified(p, Declared(rs), order, dryRun, x, DeleteChange(k.kind, k.name));
      assert k == Key(k.kind, k.name);
    }
  }

  /** Main result: a real, failure-free run with pruning takes away the strays and leaves every other undeclared entry
      as it was. */
  lemma UndeclaredAfterRun(p: Provider, env: Env, rs: seq<Resource>, opts: Opts, store: Store, k: Key)
    requires TruthfulListing(p) && Removes(p) && ListsAll(p) && k !in Declared(rs)
    requires opts.prune && !opts.dryRun && Reconcile(p, env, rs, opts, store).result.failed == 0
    ensures var after := Reconcile(p, env, rs, opts, store).store;
            if Stray(rs, store, k) then k !in after else At(after, k) == At(store, k)
  {
    StrayIff(rs, store, k);
    if Stray(rs, store, k) {
      var run := Applied(p, env, rs, opts, store);
      PassesTouch(p, env, rs, opts, ApplyOrder(), Run(NO_PLAN, NO_RESULT, store), k);
      KindIsWalked(k.kind);
      OrphanDealtWith(p, Declared(rs), Reversed(ApplyOrder()), false, Prune([], NO_RESULT, run.store), k);
    } else {
      RunSparesForeign(p, env, rs, opts, store, k);
    }
  }
}
