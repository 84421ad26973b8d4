/** One failure-free apply reaches a state in which nothing is left to do, and it stays that way. */
module Convergence {
  import opened Values
  import opened Compare
  import opened DiffLaws
  import opened Kinds
  import opened Manifests
  import opened WriteOnlyHash
  import opened ReconcileSpec
  import opened RunFacts
  import opened Fidelity
  import opened PruneLaws

  /** How a server may return the value it was sent at a path: as an equal value of another Go type, for a grant list as
      any list of the same strings, for a map merged into what it had, and, if it may mask, as the mask. */
  predicate Retained(path: seq<string>, sent: Value, got: Value, mayMask: bool)
    decreases sent
  {
    || (mayMask && got == MASK)
    || Canon(sent) == Canon(got)
    || (UnorderedPath(Dotted(path)) && SameStringSet(sent, got))
    || (&& sent.Map? && got.Map?
        && forall k | k in sent.m :: k in got.m && Retained(path + [k], sent.m[k], got.m[k], mayMask))
  }

  function WriteOnly(kind: Kind): set<string> {
    set f | f in WriteOnlyFields(kind)
  }

  /** What must come back after a successful write: every returnable field, and for the kinds that
      support it the hash; other kinds may drop the hash. */
  predicate Returns(kind: Kind, sent: Spec, current: Spec, mayMask: bool) {
    && (forall f | f in sent && f !in WriteOnly(kind) && f != HASH_FIELD ::
          f in current && Retained([f], sent[f], current[f], mayMask))
    && (HASH_FIELD in sent && sent[HASH_FIELD].Str? ==>
          || HashIn(current) == sent[HASH_FIELD].s
          || (HashIn(current) == "" && !SupportsWriteOnlyHash(kind)))
  }

  predicate Kept(p: Provider, k: Key, sent: Spec, w: Written) {
    w.err.None? ==>
      var seen := p.observe(k, w.after);
      seen.Found? && Returns(k.kind, sent, seen.current, true)
  }

  /** What the engine sends for a resource: its resolved spec with its hash. */
  function Sent(env: Env, r: Resource): Spec {
    Payload(env, Blank(r).(hash := DesiredHash(env, r)), r)
  }

  predicate KeepsWrite(p: Provider, env: Env, r: Resource, before: Option<Entry>) {
    var k, sent := r.Id(), Sent(env, r);
    Kept(p, k, sent, p.create(k, sent, before)) && Kept(p, k, sent, p.update(k, sent, before))
  }

  /** The provider keeps what it is sent for these resources: a create or update that succeeds can be observed. */
  ghost predicate KeepsWrites(p: Provider, env: Env, rs: seq<Resource>) {
    forall r, before | r in rs :: KeepsWrite(p, env, r, before)
  }

  /** The fields apart from the one reserved for the hash. */
  function Others(env: Env, r: Resource): Value {
    Map(false, ResolveSpec(env, r.Fields()) - {HASH_FIELD})
  }

  predicate GrantListsOk(env: Env, r: Resource) {
    GrantsOk([], Others(env, r), WriteOnly(r.kind))
  }

  /** A declared hash that a server keeps: the kind supports one, and it is the one the engine sends. */
  predicate DeclaredHashOk(env: Env, r: Resource) {
    HASH_FIELD in r.Fields() ==>
      var declared := ResolveSpec(env, r.Fields())[HASH_FIELD];
      && SupportsWriteOnlyHash(r.kind) && declared.Str? && declared.s != ""
      && (DesiredHash(env, r) == "" || declared.s == DesiredHash(env, r))
  }

  /** A spec the reconciler can settle: the unordered grant lists it compares are lists of strings, and
      the field reserved for the hash, if it is declared at all, is declared as the hash. */
  predicate Settleable(env: Env, r: Resource) {
    GrantListsOk(env, r) && DeclaredHashOk(env, r)
  }

  /** Fields that come back retained show no difference if the unordered grant lists are lists of strings, and, unless
      they may be masked, only if. */
  lemma {:induction false} RetainedSettles(prefix: seq<string>, d: Value, a: Value, exclude: set<string>, mayMask: bool)
    requires d.Map? && a.Map?
    requires forall k | k in d.m && !Skipped(prefix, k, exclude) ::
               k in a.m && Retained(prefix + [k], d.m[k], a.m[k], mayMask)
    ensures GrantsOk(prefix, d, exclude) ==> Findings(prefix, d, a, exclude) == {}
    ensures Findings(prefix, d, a, exclude) == {} && !mayMask ==> GrantsOk(prefix, d, exclude)
    decreases d
  {
    forall k | k in d.m && !Skipped(prefix, k, exclude)
      ensures FieldOk(prefix, d, exclude, k) ==> FindingsAt(prefix, d, a, exclude, k) == {}
      ensures FindingsAt(prefix, d, a, exclude, k) == {} && !mayMask ==> FieldOk(prefix, d, exclude, k)
    {
      if Canon(d.m[k]) == Canon(a.m[k]) {
        FieldSettlesIff(prefix, d, a, exclude, k);
      } else if d.m[k].Map? && a.m[k].Map? {
        RetainedSettles(prefix + [k], d.m[k], a.m[k], exclude, mayMask);
      }
    }
    EmptyByKey(prefix, d, a, exclude);
  }

  lemma HashFieldIsReturned(kind: Kind)
    ensures HASH_FIELD !in WriteOnly(kind)
  {
  }

  /** The declared hash, where there is one, compares equal to what is there. */
  predicate HashFieldAgrees(env: Env, r: Resource, cur: Spec) {
    HASH_FIELD in r.Fields() ==>
      FindingsAt([], Map(false, ResolveSpec(env, r.Fields())), Map(false, cur), WriteOnly(r.kind), HASH_FIELD) == {}
  }

  lemma HashFieldApart(env: Env, r: Resource, cur: Spec)
    ensures var d, a := Map(false, ResolveSpec(env, r.Fields())), Map(false, cur);
            Findings([], d, a, WriteOnly(r.kind)) == {} <==>
            Findings([], Others(env, r), a, WriteOnly(r.kind)) == {} && HashFieldAgrees(env, r, cur)
  {
    var d, a, o := Map(false, ResolveSpec(env, r.Fields())), Map(false, cur), Others(env, r);
    HashFieldIsReturned(r.kind);
    EmptyByKey([], d, a, WriteOnly(r.kind));
    EmptyByKey([], o, a, WriteOnly(r.kind));
    forall k | k in o.m
      ensures FindingsAt([], o, a, WriteOnly(r.kind), k) == FindingsAt([], d, a, WriteOnly(r.kind), k)
    {
      assert o.m[k] == d.m[k];
    }
  }

  lemma SentFields(env: Env, r: Resource)
    ensures forall f | f in Others(env, r).m :: f in Sent(env, r) && Sent(env, r)[f] == Others(env, r).m[f]
  {
  }

  /** What a server returns of the other fields settles them as `RetainedSettles` says. */
  lemma OthersSettle(env: Env, r: Resource, cur: Spec, mayMask: bool)
    requires Returns(r.kind, Sent(env, r), cur, mayMask)
    ensures GrantListsOk(env, r) ==> Findings([], Others(env, r), Map(false, cur), WriteOnly(r.kind)) == {}
    ensures Findings([], Others(env, r), Map(false, cur), WriteOnly(r.kind)) == {} && !mayMask ==> GrantListsOk(env, r)
  {
    var o := Others(env, r);
    SentFields(env, r);
    forall k | k in o.m && !Skipped([], k, WriteOnly(r.kind))
      ensures k in cur && Retained([k], o.m[k], cur[k], mayMask) && [] + [k] == [k]
    {
      assert k in Sent(env, r);
    }
    RetainedSettles([], o, Map(false, cur), WriteOnly(r.kind), mayMask);
  }

  lemma NoHashDrift(env: Env, r: Resource, cur: Spec, mayMask: bool)
    requires Returns(r.kind, Sent(env, r), cur, mayMask)
    ensures !HashDrifts(r.kind, DesiredHash(env, r), HashIn(cur))
  {
    if DesiredHash(env, r) != "" {
      assert Sent(env, r)[HASH_FIELD] == Str(DesiredHash(env, r));
    }
  }

  /** A declared hash settles when it is the one sent, to a kind that supports it; when another one is sent, it does
      not. */
  lemma HashFieldSettles(env: Env, r: Resource, cur: Spec, mayMask: bool)
    requires Returns(r.kind, Sent(env, r), cur, mayMask)
    ensures DeclaredHashOk(env, r) ==> HashFieldAgrees(env, r, cur)
    ensures SupportsWriteOnlyHash(r.kind) && !(DesiredHash(env, r) in {"", "***"}) ==>
              (HashFieldAgrees(env, r, cur) <==> DeclaredHashOk(env, r))
  {
    if HASH_FIELD in r.Fields() {
      var declared, hash := ResolveSpec(env, r.Fields())[HASH_FIELD], DesiredHash(env, r);
      assert Sent(env, r)[HASH_FIELD] == if hash == "" then declared else Str(hash);
      HashPath();
      if SupportsWriteOnlyHash(r.kind) && (hash != "" || (declared.Str? && declared.s != "")) {
        assert HASH_FIELD in cur && cur[HASH_FIELD] == Sent(env, r)[HASH_FIELD];
      }
    }
  }

  lemma HashPath()
    ensures Dotted([] + [HASH_FIELD]) == HASH_FIELD && !UnorderedPath(HASH_FIELD)
  {
    DottedSnoc([], HASH_FIELD);
    assert |HASH_FIELD| == |"grants.agents"| && HASH_FIELD[0] != "grants.agents"[0];
  }

  /** After a successful write of its payload, a settleable resource needs nothing more. */
  lemma WriteSettles(p: Provider, env: Env, r: Resource, w: Written)
    requires Settleable(env, r) && !r.notes.syncIgnore
    requires Kept(p, r.Id(), Sent(env, r), w) && w.err.None?
    ensures Decide(env, r, p.observe(r.Id(), w.after), false).action.Noop?
  {
    var cur := p.observe(r.Id(), w.after).current;
    OthersSettle(env, r, cur, true);
    HashFieldSettles(env, r, cur, true);
    HashFieldApart(env, r, cur);
    NoHashDrift(env, r, cur, true);
  }

  /** Nothing to create or update. */
  ghost predicate Settled(p: Provider, env: Env, rs: seq<Resource>, store: Store) {
    forall r | r in rs && !r.kind.Unknown? :: ReconcileOne(p, env, r, false, store).action.Noop?
  }

  lemma KnownKindInOrder(k: Kind)
    ensures !k.Unknown? <==> k in ApplyOrder()
  {
    if !k.Unknown? {
      assert ApplyOrder()[Rank(k)] == k;
    } else if k in ApplyOrder() {
      var i: nat :| i < |ApplyOrder()| && ApplyOrder()[i] == k;
      ApplyOrderByRank(i);
    }
  }

  lemma ExecutedSettles(p: Provider, env: Env, rs: seq<Resource>, r: Resource, c: Change, before: Option<Entry>)
    requires KeepsWrites(p, env, rs) && r in rs && Settleable(env, r) && !r.notes.syncIgnore
    requires Executes(c) && !c.action.Delete? && c.hash == DesiredHash(env, r)
    requires ExecuteOne(p, env, c, r, before).err.None?
    ensures Decide(env, r, p.observe(r.Id(), ExecuteOne(p, env, c, r, before).after), false).action.Noop?
  {
    assert Payload(env, c, r) == Sent(env, r);
    assert KeepsWrite(p, env, r, before);
    WriteSettles(p, env, r, ExecuteOne(p, env, c, r, before));
  }

  /** A change that does something is for a resource that is not ignored, and carries its hash. */
  lemma ExecutedChange(p: Provider, env: Env, r: Resource, force: bool, store: Store)
    ensures var c := ReconcileOne(p, env, r, force, store);
            && (Executes(c) ==> !c.action.Delete? && !r.notes.syncIgnore && c.hash == DesiredHash(env, r))
            && (c.error.None? && !Executes(c) ==> ReconcileOne(p, env, r, false, store).action.Noop?)
  {
  }

  lemma AppliedSettles(p: Provider, env: Env, rs: seq<Resource>, opts: Opts, store: Store, r: Resource)
    requires KeepsWrites(p, env, rs) && Distinct(rs) && r in rs && !r.kind.Unknown? && Settleable(env, r)
    requires !opts.dryRun
    requires Applied(p, env, rs, opts, store).result.failed == 0 && Applied(p, env, rs, opts, store).plan.errors == []
    ensures ReconcileOne(p, env, r, false, Applied(p, env, rs, opts, store).store).action.Noop?
  {
    OrderHasNoRepeats();
    KnownKindInOrder(r.kind);
    PassesAt(p, env, rs, opts, ApplyOrder(), Run(NO_PLAN, NO_RESULT, store), r);
    var c := ReconcileOne(p, env, r, opts.force, store);
    ExecutedChange(p, env, r, opts.force, store);
    if Executes(c) {
      ExecutedSettles(p, env, rs, r, c, At(store, r.Id()));
    } else {
      SameEntrySameChange(p, env, r, false, Applied(p, env, rs, opts, store).store, store);
    }
  }

  lemma DeclaredSurvivePrune(p: Provider, env: Env, rs: seq<Resource>, opts: Opts, store: Store, k: Key)
    requires k in Declared(rs)
    ensures At(Reconcile(p, env, rs, opts, store).store, k) == At(Applied(p, env, rs, opts, store).store, k)
  {
    var run := Applied(p, env, rs, opts, store);
    PruneTouches(p, Declared(rs), Reversed(ApplyOrder()), opts.dryRun, Prune([], NO_RESULT, run.store), k);
  }

  lemma RunFailures(p: Provider, env: Env, rs: seq<Resource>, opts: Opts, store: Store)
    ensures Applied(p, env, rs, opts, store).result.failed <= Reconcile(p, env, rs, opts, store).result.failed
    ensures Applied(p, env, rs, opts, store).plan.errors == Reconcile(p, env, rs, opts, store).plan.errors
  {
  }

  /** Main result: whatever the state was, after one real run in which nothing failed, every settleable
      declared resource is settled.  The run may have been forced, and may have pruned. */
  lemma OneApplySettles(p: Provider, env: Env, rs: seq<Resource>, opts: Opts, store: Store)
    requires KeepsWrites(p, env, rs) && Distinct(rs) && !opts.dryRun
    requires forall r | r in rs :: Settleable(env, r)
    requires var run := Reconcile(p, env, rs, opts, store); run.result.failed == 0 && run.plan.errors == []
    ensures Settled(p, env, rs, Reconcile(p, env, rs, opts, store).store)
  {
    RunFailures(p, env, rs, opts, store);
    var after := Reconcile(p, env, rs, opts, store).store;
    forall r | r in rs && !r.kind.Unknown?
      ensures ReconcileOne(p, env, r, false, after).action.Noop?
    {
      OneSettles(p, env, rs, opts, store, r);
    }
  }

  lemma OneSettles(p: Provider, env: Env, rs: seq<Resource>, opts: Opts, store: Store, r: Resource)
    requires KeepsWrites(p, env, rs) && Distinct(rs) && r in rs && !r.kind.Unknown? && Settleable(env, r)
    requires !opts.dryRun
    requires Applied(p, env, rs, opts, store).result.failed == 0 && Applied(p, env, rs, opts, store).plan.errors == []
    ensures ReconcileOne(p, env, r, false, Reconcile(p, env, rs, opts, store).store).action.Noop?
  {
    AppliedSettles(p, env, rs, opts, store, r);
    assert r.Id() in Declared(rs);
    DeclaredSurvivePrune(p, env, rs, opts, store, r.Id());
    SameEntrySameChange(p, env, r, false, Reconcile(p, env, rs, opts, store).store, Applied(p, env, rs, opts,
        store).store);
  }

  /** A resource's change depends on its own entry only. */
  lemma SameEntrySameChange(p: Provider, env: Env, r: Resource, force: bool, a: Store, b: Store)
    requires At(a, r.Id()) == At(b, r.Id())
    ensures ReconcileOne(p, env, r, force, a) == ReconcileOne(p, env, r, force, b)
  {
  }

  lemma {:induction false} AllNoops(plan: Plan, cs: seq<Change>, rs: seq<Resource>)
    requires |cs| == |rs| && forall c | c in cs :: c.action.Noop?
    ensures AddChanges(plan, cs, rs).creates == plan.creates && AddChanges(plan, cs, rs).updates == plan.updates
  {
    if cs != [] {
      var n := |cs| - 1;
      assert cs == cs[..n] + [cs[n]];
      AllNoops(plan, cs[..n], rs[..n]);
    }
  }

  lemma {:induction false} NoopsExecuteNothing(p: Provider, env: Env, cs: seq<Change>, rs: seq<Resource>, x: Exec)
    requires |cs| == |rs| && forall c | c in cs :: c.action.Noop?
    ensures ExecuteAll(p, env, cs, rs, x) == x
  {
    if cs != [] {
      var n := |cs| - 1;
      assert cs == cs[..n] + [cs[n]];
      NoopsExecuteNothing(p, env, cs[..n], rs[..n], x);
    }
  }

  lemma {:induction false} SettledPasses(p: Provider, env: Env, rs: seq<Resource>, opts: Opts, kinds: seq<Kind>,
                                         run: Run)
    requires Settled(p, env, rs, run.store) && !opts.force
    requires forall k | k in kinds :: !k.Unknown?
    ensures var q := KindPasses(p, env, rs, opts, kinds, run);
            q.store == run.store && q.plan.creates == run.plan.creates && q.plan.updates == run.plan.updates
  {
    if kinds != [] {
      var n := |kinds| - 1;
      assert kinds == kinds[..n] + [kinds[n]];
      SettledPasses(p, env, rs, opts, kinds[..n], run);
      var before := KindPasses(p, env, rs, opts, kinds[..n], run);
      var some := OfKind(rs, kinds[n]);
      OfKindMembers(rs, kinds[n]);
      var cs := ObserveAll(p, env, some, opts.force, before.store);
      forall c | c in cs
        ensures c.action.Noop?
      {
        var i :| 0 <= i < |some| && cs[i] == c;
        assert some[i] in some;
      }
      AllNoops(before.plan, cs, some);
      NoopsExecuteNothing(p, env, cs, some, Exec(before.store, NO_RESULT));
    }
  }

  lemma SettledApplied(p: Provider, env: Env, rs: seq<Resource>, opts: Opts, store: Store)
    requires Settled(p, env, rs, store) && !opts.force
    ensures var run := Applied(p, env, rs, opts, store);
            run.store == store && run.plan.creates == 0 && run.plan.updates == 0
  {
    forall k | k in ApplyOrder()
      ensures !k.Unknown?
    {
      KnownKindInOrder(k);
    }
    SettledPasses(p, env, rs, opts, ApplyOrder(), Run(NO_PLAN, NO_RESULT, store));
  }

  /** A settled state plans no create and no update, and an unforced run leaves it settled:
      the reconciler never loops. */
  lemma SettledStays(p: Provider, env: Env, rs: seq<Resource>, opts: Opts, store: Store)
    requires Settled(p, env, rs, store) && !opts.force
    ensures var run := Reconcile(p, env, rs, opts, store);
            && run.plan.creates == 0 && run.plan.updates == 0
            && Settled(p, env, rs, run.store)
  {
    SettledApplied(p, env, rs, opts, store);
    var after := Reconcile(p, env, rs, opts, store).store;
    forall r | r in rs && !r.kind.Unknown?
      ensures ReconcileOne(p, env, r, false, after).action.Noop?
    {
      assert r.Id() in Declared(rs);
      DeclaredSurvivePrune(p, env, rs, opts, store, r.Id());
    }
  }

  /** After a first failure-free run that pruned, the next one plans nothing at all. */
  lemma NothingLeftToPrune(p: Provider, env: Env, rs: seq<Resource>, opts: Opts, next: Opts, store: Store)
    requires KeepsWrites(p, env, rs) && TruthfulListing(p) && Removes(p) && ListsAll(p)
    requires Distinct(rs) && forall r | r in rs :: Settleable(env, r)
    requires opts.prune && !opts.dryRun && !next.force
    requires var run := Reconcile(p, env, rs, opts, store); run.result.failed == 0 && run.plan.errors == []
    ensures var plan := Reconcile(p, env, rs, next, Reconcile(p, env, rs, opts, store).store).plan;
            plan.creates == 0 && plan.updates == 0 && plan.deletes == 0
  {
    var s := Reconcile(p, env, rs, opts, store).store;
    OneApplySettles(p, env, rs, opts, store);
    SettledApplied(p, env, rs, next, s);
    var x := Pruned(p, rs, next.dryRun, s);
    if x.changes != [] {
      var c := x.changes[0];
      DeletesJustified(p, Declared(rs), Reversed(ApplyOrder()), next.dryRun, Prune([], NO_RESULT, s), c);
      CleanPruneLeavesNoOrphan(p, env, rs, opts, store, Key(c.kind, c.name));
    }
    NoDeletesYet(p, env, rs, next, s);
  }

  lemma NoDeletesYet(p: Provider, env: Env, rs: seq<Resource>, opts: Opts, store: Store)
    ensures Applied(p, env, rs, opts, store).plan.deletes == 0
  {
    PassesShape(p, env, rs, opts, ApplyOrder(), Run(NO_PLAN, NO_RESULT, store));
  }

  /** Exactly when a resource settles: against a server that returns fields unmasked, a successful write
      is followed by a noop if and only if the unordered grant lists are lists of strings, and the field reserved for
      the hash, if it is declared, compares equal to what the server holds.  Otherwise every later run plans an update
      again.  Where the engine sends a hash that the kind supports, the declared one must be just that. */
  lemma SettlesIff(p: Provider, env: Env, r: Resource, w: Written)
    requires !r.notes.syncIgnore
    requires p.observe(r.Id(), w.after).Found?
    requires Returns(r.kind, Sent(env, r), p.observe(r.Id(), w.after).current, false)
    ensures var cur := p.observe(r.Id(), w.after).current;
            && Decide(env, r, p.observe(r.Id(), w.after), false).action
               == (if GrantListsOk(env, r) && HashFieldAgrees(env, r, cur) then Noop else Update)
            && (SupportsWriteOnlyHash(r.kind) && !(DesiredHash(env, r) in {"", "***"}) ==>
                  (HashFieldAgrees(env, r, cur) <==> DeclaredHashOk(env, r)))
  {
    var cur := p.observe(r.Id(), w.after).current;
    OthersSettle(env, r, cur, false);
    HashFieldSettles(env, r, cur, false);
    HashFieldApart(env, r, cur);
    NoHashDrift(env, r, cur, false);
  }

  /** The change of a resource, judged by the state at the start, is in the plan. */
  lemma {:induction false} PassesPlan(p: Provider, env: Env, rs: seq<Resource>, opts: Opts, kinds: seq<Kind>, run: Run,
                                      r: Resource)
    requires r in rs && r.kind in kinds && forall i, j | 0 <= i < j < |kinds| :: kinds[i] != kinds[j]
    ensures ReconcileOne(p, env, r, opts.force, run.store) in KindPasses(p, env, rs, opts, kinds, run).plan.changes
  {
    var n := |kinds| - 1;
    assert kinds == kinds[..n] + [kinds[n]];
    var before := KindPasses(p, env, rs, opts, kinds[..n], run);
    var some := OfKind(rs, kinds[n]);
    var cs := ObserveAll(p, env, some, opts.force, before.store);
    ObservedChanges(p, env, some, opts.force, before.store);
    AddChangesShape(before.plan, cs, some);
    if r.kind == kinds[n] {
      OfKindMembers(rs, kinds[n]);
      var i :| 0 <= i < |some| && some[i] == r;
      PassesTouch(p, env, rs, opts, kinds[..n], run, r.Id());
      SameEntrySameChange(p, env, r, opts.force, run.store, before.store);
      assert cs[i] in cs;
    } else {
      PassesPlan(p, env, rs, opts, kinds[..n], run, r);
    }
  }

  lemma Planned(p: Provider, env: Env, rs: seq<Resource>, opts: Opts, store: Store, r: Resource)
    requires r in rs && !r.kind.Unknown?
    ensures ReconcileOne(p, env, r, opts.force, store) in Reconcile(p, env, rs, opts, store).plan.changes
  {
    OrderHasNoRepeats();
    KnownKindInOrder(r.kind);
    PassesPlan(p, env, rs, opts, ApplyOrder(), Run(NO_PLAN, NO_RESULT, store), r);
  }

  /** An existing resource whose fields match but whose server holds no hash. */
  predicate HashLost(env: Env, r: Resource, seen: Observed) {
    && seen.Found? && HashIn(seen.current) == "" && !r.notes.syncIgnore
    && Findings([], Map(false, ResolveSpec(env, r.Fields())), Map(false, seen.current), WriteOnly(r.kind)) == {}
  }

  /** The change it gets: an update for the hash alone, if its kind supports the hash. */
  function Healing(env: Env, r: Resource): Change {
    var hash := DesiredHash(env, r);
    var c := Blank(r).(hash := hash);
    if hash != "" && SupportsWriteOnlyHash(r.kind)
    then c.(action := Update, diff := {HashFinding("", hash)})
    else c
  }

  lemma HealingChange(env: Env, r: Resource, seen: Observed)
    requires HashLost(env, r, seen)
    ensures Decide(env, r, seen, false) == Healing(env, r)
  {
  }

  /** When a server has lost the hash, the next run plans that change for it; once the run has gone without failure
      there is nothing more to do, so kinds that do not support the hash are left alone and the others do not loop. */
  lemma EmptyHashHeals(p: Provider, env: Env, rs: seq<Resource>, opts: Opts, store: Store, r: Resource)
    requires KeepsWrites(p, env, rs) && Distinct(rs) && !opts.dryRun && !opts.force
    requires var run := Reconcile(p, env, rs, opts, store); run.result.failed == 0 && run.plan.errors == []
    requires r in rs && !r.kind.Unknown? && Settleable(env, r)
    requires HashLost(env, r, p.observe(r.Id(), At(store, r.Id())))
    ensures Healing(env, r) in Reconcile(p, env, rs, opts, store).plan.changes
    ensures ReconcileOne(p, env, r, false, Reconcile(p, env, rs, opts, store).store).action.Noop?
  {
    HealingChange(env, r, p.observe(r.Id(), At(store, r.Id())));
    Planned(p, env, rs, opts, store, r);
    RunFailures(p, env, rs, opts, store);
    OneSettles(p, env, rs, opts, store, r);
  }

  /** A server that merges what it is sent, hides write-only fields, and drops the hash of the kinds
      that do not support it. */
  function MergeWrite(k: Key, sent: Spec, before: Option<Entry>): Written {
    var old_ := if before.Some? then before.value.spec else map[];
    Written(Some(Entry(old_ + sent, OWNER)), None)
  }

  function MergeObserve(k: Key, e: Option<Entry>): Observed {
    if e.None? then Missing
    else Found(map f | f in e.value.spec && f !in WriteOnly(k.kind) && (f != HASH_FIELD
        || SupportsWriteOnlyHash(k.kind))
                 :: e.value.spec[f])
  }

  /** The provider contract has such a server as a model. */
  lemma MergingServerKeeps(p: Provider, env: Env, rs: seq<Resource>)
    requires p.observe == MergeObserve && p.create == MergeWrite && p.update == MergeWrite
    ensures KeepsWrites(p, env, rs)
  {
    forall r, before | r in rs
      ensures KeepsWrite(p, env, r, before)
    {
      MergeKept(p, r.Id(), Sent(env, r), before);
    }
  }

  lemma MergeKept(p: Provider, k: Key, sent: Spec, before: Option<Entry>)
    requires p.observe == MergeObserve
    ensures Kept(p, k, sent, MergeWrite(k, sent, before))
  {
    var w := MergeWrite(k, sent, before);
    var seen := MergeObserve(k, w.after);
    assert p.observe(k, w.after) == seen;
    HashFieldIsReturned(k.kind);
    assert forall f | f in sent :: w.after.value.spec[f] == sent[f];
  }

  /** A server that returns the granted agents in an order of its own retains them. */
  lemma OwnOrderIsRetained(sent: seq<Value>, got: seq<Value>)
    requires SameStringSet(List(false, sent), List(true, got))
    ensures Retained(["grants"], Map(false, map["agents" := List(false, sent)]),
              Map(false, map["agents" := List(true, got)]), false)
  {
    DottedSnoc(["grants"], "agents");
    assert Dotted(["grants"]) == "grants";
    assert ["grants"] + ["agents"] == ["grants", "agents"];
    assert UnorderedPath(Dotted(["grants"] + ["agents"]));
  }
}
