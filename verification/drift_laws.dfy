/** When an existing resource is updated, said by the fields and the hash themselves; and that a rotated secret is. */
module DriftLaws {
  import opened Values
  import opened Compare
  import DiffLaws
  import opened Kinds
  import opened Manifests
  import opened WriteOnlyHash
  import opened ReconcileSpec
  import opened RunFacts
  import opened Fidelity
  import opened Convergence

  /** What the server returns shows this hash; the empty one stands for none. */
  predicate Echoes(cur: Spec, held: string) {
    if held != "" then "writeOnlyHash" in cur && cur["writeOnlyHash"] == Str(held)
    else "writeOnlyHash" in cur && cur["writeOnlyHash"].Str? ==> cur["writeOnlyHash"] == Str("")
  }

  /** What is sent and compared, apart from the fields the server does not return. */
  function FieldDrift(env: Env, r: Resource, cur: Spec): set<Finding> {
    Findings([], Map(false, ResolveSpec(env, r.Fields())), Map(false, cur), set f | f in WriteOnlyFields(r.kind))
  }

  /** The hash wanted and the hash held differ in a way that calls for an update: both are there, or none is held
      although the kind keeps one. */
  predicate Rotated(kind: Kind, wanted: string, held: string) {
    wanted != "" && (if held != "" then held != wanted else kind in {Agent, CronJob, Kind.Provider})
  }

  /** Main result: a resource that exists and is not ignored is updated exactly if the run is forced, a compared field
      drifts, or its hash was rotated; and the diff shows which. */
  lemma UpdatedIff(env: Env, r: Resource, cur: Spec, held: string, force: bool)
    requires Echoes(cur, held) && !r.notes.syncIgnore
    ensures var c, wanted := Decide(env, r, Found(cur), force), DesiredHash(env, r);
            && (c.action.Update? <==> force || FieldDrift(env, r, cur) != {} || Rotated(r.kind, wanted, held))
            && (c.action.Update? || c.action.Noop?) && c.error.None?
            && (Rotated(r.kind, wanted, held) ==>
                  && Finding(["writeOnlyHash"], Str(held), Str(wanted)) in c.diff
                  && forall f | f in FieldDrift(env, r, cur) :: f in c.diff || Dotted(f.path) == "writeOnlyHash")
            && (!Rotated(r.kind, wanted, held) ==> c.diff == FieldDrift(env, r, cur))
            && (c.forced <==> force && FieldDrift(env, r, cur) == {} && !Rotated(r.kind, wanted, held))
  {
    assert HashIn(cur) == held;
  }

  /** Main result on one resource: it is created if it is missing and updated as above if it is there; unless it is
      ignored, or could not be looked at, which is reported even for an ignored one. */
  lemma CarriedOutIff(env: Env, r: Resource, seen: Observed, held: string, force: bool)
    requires seen.Found? ==> Echoes(seen.current, held)
    ensures var c := Decide(env, r, seen, force);
            && (c.action.Create? <==> seen.Missing? && !r.notes.syncIgnore)
            && (c.action.Update? <==>
                  && seen.Found? && !r.notes.syncIgnore
                  && (|| force || FieldDrift(env, r, seen.current) != {}
                      || Rotated(r.kind, DesiredHash(env, r), held)))
            && c.error == (if seen.ObserveFailed? then Some(seen.msg) else None)
            && !c.action.Delete? && (c.action.Noop? || c.action.Create? ==> c.diff == {})
  {
    if seen.Found? && !r.notes.syncIgnore {
      UpdatedIff(env, r, seen.current, held, force);
    }
  }

  /** A forced run updates every resource that exists and is not ignored, drift or no drift. */
  lemma ForcedIsPlanned(p: Provider, env: Env, rs: seq<Resource>, opts: Opts, store: Store, r: Resource, held: string)
    requires r in rs && !r.kind.Unknown? && !r.notes.syncIgnore && opts.force
    requires p.observe(r.Id(), At(store, r.Id())).Found?
    requires Echoes(p.observe(r.Id(), At(store, r.Id())).current, held)
    ensures exists c :: c in Reconcile(p, env, rs, opts, store).plan.changes
                        && c.kind == r.kind && c.name == r.name && c.action.Update?
  {
    Planned(p, env, rs, opts, store, r);
    UpdatedIff(env, r, p.observe(r.Id(), At(store, r.Id())).current, held, true);
  }

  /** Main result: after a real run without failures every declared resource that is not ignored exists. */
  lemma EverythingExists(p: Provider, env: Env, rs: seq<Resource>, opts: Opts, store: Store, r: Resource)
    requires KeepsWrites(p, env, rs) && Distinct(rs) && !opts.dryRun
    requires r in rs && !r.kind.Unknown? && !r.notes.syncIgnore
    requires var run := Reconcile(p, env, rs, opts, store); run.result.failed == 0 && run.plan.errors == []
    ensures p.observe(r.Id(), At(Reconcile(p, env, rs, opts, store).store, r.Id())).Found?
  {
    RunFailures(p, env, rs, opts, store);
    assert r.Id() in Declared(rs);
    DeclaredSurvivePrune(p, env, rs, opts, store, r.Id());
    OrderHasNoRepeats();
    KnownKindInOrder(r.kind);
    PassesAt(p, env, rs, opts, ApplyOrder(), Run(NO_PLAN, NO_RESULT, store), r);
    var c := ReconcileOne(p, env, r, opts.force, store);
    ExecutedChange(p, env, r, opts.force, store);
    if Executes(c) {
      WriteExists(p, env, rs, r, c, At(store, r.Id()));
    }
  }

  lemma WriteExists(p: Provider, env: Env, rs: seq<Resource>, r: Resource, c: Change, before: Option<Entry>)
    requires KeepsWrites(p, env, rs) && r in rs
    requires Executes(c) && !c.action.Delete? && c.hash == DesiredHash(env, r)
    requires ExecuteOne(p, env, c, r, before).err.None?
    ensures p.observe(r.Id(), ExecuteOne(p, env, c, r, before).after).Found?
  {
    assert Payload(env, c, r) == Sent(env, r);
    assert KeepsWrite(p, env, r, before);
  }

  // Rotated secrets.

  /** Some fields that are sent but not returned, and of them the secrets. */
  predicate SecretField(kind: Kind, f: string) {
    || (kind == Kind.Provider && f == "apiKey")
    || (kind == Channel && f == "credentials")
    || (kind == MCPServer && f == "headers")
    || (kind == MCPCredentials && f == "credentials")
    || (kind == SecureCLI && f == "env")
    || (kind == Workstation && f == "privateKey")
  }

  lemma SecretsAreTracked(kind: Kind, f: string)
    requires SecretField(kind, f)
    ensures f in WriteOnlyFields(kind)
  {
  }

  /** The fields that name agents and binaries, which the server turns into identifiers of its own. */
  predicate NameField(kind: Kind, f: string) {
    || (kind in {Channel, CronJob, SecureCLIGrant} && f == "agentKey")
    || (kind == SecureCLIGrant && f == "binaryName")
    || (kind == AgentTeam && f in ["lead", "members"])
    || (kind == AgentLink && f in ["sourceAgent", "targetAgent"])
    || (kind == MCPServer && f == "grants")
  }

  /** They are tracked by the hash and not compared, unlike the provider of an agent. */
  lemma NamesAreTracked(kind: Kind, f: string)
    ensures NameField(kind, f) ==> f in WriteOnlyFields(kind)
    ensures "provider" !in WriteOnlyFields(Agent)
  {
  }

  /** The secret itself is in no diff. */
  lemma SecretsAreNotShown(env: Env, r: Resource, cur: Spec, f: string, x: Finding)
    requires SecretField(r.kind, f) && x in FieldDrift(env, r, cur)
    ensures x.path != [] && x.path[0] != f
  {
    SecretsAreTracked(r.kind, f);
    FindingsExtend(env, r, cur, x);
  }

  lemma FindingsExtend(env: Env, r: Resource, cur: Spec, x: Finding)
    requires x in FieldDrift(env, r, cur)
    ensures x.path != [] && x.path[0] !in WriteOnlyFields(r.kind)
  {
    var d, a := Map(false, ResolveSpec(env, r.Fields())), Map(false, cur);
    DiffLaws.FindingsExtendPrefix([], d, a, set f | f in WriteOnlyFields(r.kind));
    assert Skipped([], x.path[0], set f | f in WriteOnlyFields(r.kind))
      <==> x.path[0] in (set f | f in WriteOnlyFields(r.kind));
  }

  /** The field is in one of the specs alone, or its value in both is encoded differently. */
  predicate Changed(codec: Codec, a: Spec, b: Spec, f: string) {
    if f in a && f in b then codec.encode(a[f]) != codec.encode(b[f]) else f in a || f in b
  }

  function Ignored(r: Resource): set<string> {
    set f | f in r.notes.ignoreFields
  }

  /** Nothing to hash, or something that cannot be encoded. */
  ghost predicate Unhashed(env: Env, r: Resource) {
    NoHash(env.codec, ResolveSpec(env, r.Fields()), WriteOnlyFields(r.kind), Ignored(r))
  }

  /** Two specs of one resource have different hashes as soon as one tracked field was changed between them. */
  lemma ChangeChangesHash(env: Env, r: Resource, next: Resource, f: string)
    requires Ideal(env.codec) && r.kind == next.kind && Ignored(r) == Ignored(next)
    requires !r.notes.ignoreWriteOnly && !next.notes.ignoreWriteOnly && !Unhashed(env, r) && !Unhashed(env, next)
    requires f in WriteOnlyFields(r.kind) && f !in Ignored(r)
    requires Changed(env.codec, ResolveSpec(env, r.Fields()), ResolveSpec(env, next.Fields()), f)
    ensures DesiredHash(env, r) != "" && DesiredHash(env, next) != "" && DesiredHash(env, r) != DesiredHash(env, next)
  {
    var a, b := ResolveSpec(env, r.Fields()), ResolveSpec(env, next.Fields());
    SameHashIff(env.codec, a, b, WriteOnlyFields(r.kind), Ignored(r));
    HashEmptyIff(env.codec, a, WriteOnlyFields(r.kind), Ignored(r));
    HashEmptyIff(env.codec, b, WriteOnlyFields(r.kind), Ignored(r));
  }

  /** Changing only fields that are not tracked, or are ignored, leaves the hash as it is. */
  lemma UntrackedChangesNothing(env: Env, r: Resource, next: Resource)
    requires Ideal(env.codec) && r.kind == next.kind && Ignored(r) == Ignored(next)
    requires r.notes.ignoreWriteOnly == next.notes.ignoreWriteOnly
    requires forall f | f in WriteOnlyFields(r.kind) && f !in Ignored(r) ::
               !Changed(env.codec, ResolveSpec(env, r.Fields()), ResolveSpec(env, next.Fields()), f)
    ensures DesiredHash(env, r) == DesiredHash(env, next)
    ensures r.notes.ignoreWriteOnly ==> DesiredHash(env, r) == ""
  {
    var a, b := ResolveSpec(env, r.Fields()), ResolveSpec(env, next.Fields());
    SameHashIff(env.codec, a, b, WriteOnlyFields(r.kind), Ignored(r));
  }

  /** An update of the resource that shows the hash going from `held` to `wanted`. */
  predicate ShowsRotation(c: Change, r: Resource, held: string, wanted: string) {
    && c.kind == r.kind && c.name == r.name && c.action.Update?
    && Finding(["writeOnlyHash"], Str(held), Str(wanted)) in c.diff
  }

  /** The plan has such an update. */
  ghost predicate PlansRotation(plan: Plan, r: Resource, held: string, wanted: string) {
    exists c :: c in plan.changes && ShowsRotation(c, r, held, wanted)
  }

  lemma RotatedIsShown(env: Env, r: Resource, seen: Observed, held: string, force: bool)
    requires seen.Found? && Echoes(seen.current, held) && !r.notes.syncIgnore
    requires held != "" && DesiredHash(env, r) != "" && held != DesiredHash(env, r)
    ensures ShowsRotation(Decide(env, r, seen, force), r, held, DesiredHash(env, r))
  {
    UpdatedIff(env, r, seen.current, held, force);
  }

  /** Against a server that shows the hash of an earlier spec, a run plans an update that records the rotation. */
  lemma RotationIsPlanned(p: Provider, env: Env, rs: seq<Resource>, opts: Opts, store: Store, r: Resource,
                          earlier: Resource, f: string)
    requires Ideal(env.codec) && earlier.kind == r.kind && Ignored(earlier) == Ignored(r)
    requires !earlier.notes.ignoreWriteOnly && !r.notes.ignoreWriteOnly && !Unhashed(env, earlier) && !Unhashed(env, r)
    requires f in WriteOnlyFields(r.kind) && f !in Ignored(r)
    requires Changed(env.codec, ResolveSpec(env, earlier.Fields()), ResolveSpec(env, r.Fields()), f)
    requires r in rs && !r.kind.Unknown? && !r.notes.syncIgnore
    requires var seen := p.observe(r.Id(), At(store, r.Id()));
             seen.Found? && Echoes(seen.current, DesiredHash(env, earlier))
    ensures PlansRotation(Reconcile(p, env, rs, opts, store).plan, r, DesiredHash(env, earlier), DesiredHash(env, r))
  {
    ChangeChangesHash(env, earlier, r, f);
    Planned(p, env, rs, opts, store, r);
    RotatedIsShown(env, r, p.observe(r.Id(), At(store, r.Id())), DesiredHash(env, earlier), opts.force);
  }

  /** After a run without failures the server of a kind that supports the hash holds the hash of the declared spec. */
  lemma HashIsHeld(p: Provider, env: Env, rs: seq<Resource>, opts: Opts, store: Store, r: Resource)
    requires KeepsWrites(p, env, rs) && Distinct(rs) && !opts.dryRun
    requires r in rs && !r.notes.syncIgnore && r.kind in {Agent, CronJob, Kind.Provider} && DesiredHash(env, r) != ""
    requires Applied(p, env, rs, opts, store).result.failed == 0 && Applied(p, env, rs, opts, store).plan.errors == []
    ensures var seen := p.observe(r.Id(), At(Applied(p, env, rs, opts, store).store, r.Id()));
            seen.Found? && Echoes(seen.current, DesiredHash(env, r))
  {
    OrderHasNoRepeats();
    KnownKindInOrder(r.kind);
    PassesAt(p, env, rs, opts, ApplyOrder(), Run(NO_PLAN, NO_RESULT, store), r);
    var c := ReconcileOne(p, env, r, opts.force, store);
    ExecutedChange(p, env, r, opts.force, store);
    if Executes(c) {
      WriteHoldsHash(p, env, rs, r, c, At(store, r.Id()));
    } else {
      IdleHoldsHash(env, r, p.observe(r.Id(), At(store, r.Id())), opts.force);
    }
  }

  lemma WriteHoldsHash(p: Provider, env: Env, rs: seq<Resource>, r: Resource, c: Change, before: Option<Entry>)
    requires KeepsWrites(p, env, rs) && r in rs && r.kind in {Agent, CronJob, Kind.Provider}
    requires DesiredHash(env, r) != ""
    requires Executes(c) && !c.action.Delete? && c.hash == DesiredHash(env, r)
    requires ExecuteOne(p, env, c, r, before).err.None?
    ensures var seen := p.observe(r.Id(), ExecuteOne(p, env, c, r, before).after);
            seen.Found? && Echoes(seen.current, DesiredHash(env, r))
  {
    assert Payload(env, c, r) == Sent(env, r);
    assert KeepsWrite(p, env, r, before);
    assert Sent(env, r)[HASH_FIELD] == Str(DesiredHash(env, r));
  }

  lemma IdleHoldsHash(env: Env, r: Resource, seen: Observed, force: bool)
    requires !r.notes.syncIgnore && r.kind in {Agent, CronJob, Kind.Provider} && DesiredHash(env, r) != ""
    requires Decide(env, r, seen, force).error.None? && !Executes(Decide(env, r, seen, force))
    ensures seen.Found? && Echoes(seen.current, DesiredHash(env, r))
  {
    if seen.Found? {
      UpdatedIff(env, r, seen.current, HashIn(seen.current), force);
    }
  }

  /** Main result: once a run has gone without failure, changing a tracked write-only field of a resource, say its
      secret, makes the next run plan an update of it, for the kinds that keep the hash. */
  lemma RotationIsDetected(p: Provider, env: Env, rs: seq<Resource>, opts: Opts, store: Store, r: Resource,
                           next: seq<Resource>, later: Opts, s: Resource, f: string)
    requires KeepsWrites(p, env, rs) && Distinct(rs) && !opts.dryRun
    requires var run := Reconcile(p, env, rs, opts, store); run.result.failed == 0 && run.plan.errors == []
    requires r in rs && s in next && s.Id() == r.Id() && r.kind in {Agent, CronJob, Kind.Provider}
    requires !r.notes.syncIgnore && !s.notes.syncIgnore && Ignored(r) == Ignored(s) && Ideal(env.codec)
    requires !r.notes.ignoreWriteOnly && !s.notes.ignoreWriteOnly && !Unhashed(env, r) && !Unhashed(env, s)
    requires f in WriteOnlyFields(r.kind) && f !in Ignored(r)
    requires Changed(env.codec, ResolveSpec(env, r.Fields()), ResolveSpec(env, s.Fields()), f)
    ensures PlansRotation(Reconcile(p, env, next, later, Reconcile(p, env, rs, opts, store).store).plan, s,
              DesiredHash(env, r), DesiredHash(env, s))
  {
    ChangeChangesHash(env, r, s, f);
    RunFailures(p, env, rs, opts, store);
    HashIsHeld(p, env, rs, opts, store, r);
    assert r.Id() in Declared(rs);
    DeclaredSurvivePrune(p, env, rs, opts, store, r.Id());
    RotationIsPlanned(p, env, next, later, Reconcile(p, env, rs, opts, store).store, s, r, f);
  }
}
