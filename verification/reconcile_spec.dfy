/** What a reconcile run computes, as functions of the manifest, the provider and the server state. */
module ReconcileSpec {
  import opened Values
  import opened Compare
  import opened Kinds
  import opened Manifests
  import opened WriteOnlyHash

  /** Secret lookup (None when it fails) and the hash codec. */
  datatype Env = Env(secret: string -> Option<string>, codec: Codec)

  datatype Entry = Entry(spec: Spec, createdBy: string)
  type Store = map<Key, Entry>

  datatype Observed = Missing | Found(current: Spec) | ObserveFailed(msg: string)
  datatype Written = Written(after: Option<Entry>, err: Option<string>)
  datatype Info = Info(name: string, createdBy: string)

  /** A provider over a keyed store.  Every operation on a key sees and changes that key alone; a failing
      write or delete may leave the key in any state.  Listing sees the whole store and may fail (None). */
  datatype Provider = Provider(
    observe: (Key, Option<Entry>) -> Observed,
    create: (Key, Spec, Option<Entry>) -> Written,
    update: (Key, Spec, Option<Entry>) -> Written,
    remove: (Key, Option<Entry>) -> Written,
    list: (Kind, Store) -> Option<seq<Info>>)

  function At(s: Store, k: Key): Option<Entry> {
    if k in s then Some(s[k]) else None
  }

  function Put(s: Store, k: Key, e: Option<Entry>): (s': Store)
    ensures At(s', k) == e
    ensures forall k' | k' != k :: At(s', k') == At(s, k')
  {
    if e.Some? then s[k := e.value] else s - {k}
  }

  datatype Action = Create | Update | Noop | Delete

  datatype Change = Change(kind: Kind, name: string, action: Action, diff: set<Finding>,
                           error: Option<string>, forced: bool, hash: string)

  datatype ErrLine = ErrLine(kind: Kind, name: string, msg: string)

  datatype Plan = Plan(changes: seq<Change>, creates: nat, updates: nat, deletes: nat, noops: nat,
                       errors: seq<ErrLine>)

  datatype Result = Result(applied: nat, failed: nat, errors: seq<ErrLine>)

  datatype Opts = Opts(dryRun: bool, prune: bool, force: bool)

  datatype Run = Run(plan: Plan, result: Result, store: Store)

  const NO_RESULT := Result(0, 0, [])
  const NO_PLAN := Plan([], 0, 0, 0, 0, [])
  const OWNER: string := "gcplane"

  /** Secret references are resolved in strings, `[]any` lists and `map[string]any` maps; a failed
      lookup keeps the original. */
  function Resolve(env: Env, v: Value): Value {
    match v
    case Str(s) => Str(env.secret(s).GetOr(s))
    case Map(false, m) => Map(false, map k | k in m :: Resolve(env, m[k]))
    case List(false, xs) => List(false, seq(|xs|, i requires 0 <= i < |xs| => Resolve(env, xs[i])))
    case _ => v
  }

  function ResolveSpec(env: Env, s: Spec): (r: Spec)
    ensures r.Keys == s.Keys
  {
    map k | k in s :: Resolve(env, s[k])
  }

  /** The hash the engine wants the server to hold; empty when tracking is off or nothing is write-only. */
  function DesiredHash(env: Env, r: Resource): string {
    if r.notes.ignoreWriteOnly then ""
    else HashFields(env.codec, ResolveSpec(env, r.Fields()), WriteOnlyFields(r.kind), set f | f in r.notes.ignoreFields)
  }

  /** The hash the server returned; empty when it returned none. */
  function HashIn(current: Spec): string {
    if HASH_FIELD in current && current[HASH_FIELD].Str? then current[HASH_FIELD].s else ""
  }

  predicate HashDrifts(kind: Kind, desired: string, observed: string) {
    && desired != "" && desired != observed
    && (observed != "" || SupportsWriteOnlyHash(kind))
  }

  function HashFinding(observed: string, desired: string): Finding {
    Finding([HASH_FIELD], Str(observed), Str(desired))
  }

  /** The hash drift recorded under its own path, in place of anything else there. */
  function WithHash(fields: set<Finding>, observed: string, desired: string): set<Finding> {
    (set f | f in fields && Dotted(f.path) != HASH_FIELD) + {HashFinding(observed, desired)}
  }

  /** Field drift and hash drift. */
  function Drift(kind: Kind, spec: Spec, current: Spec, desired: string): set<Finding> {
    var fields := Findings([], Map(false, spec), Map(false, current), set f | f in WriteOnlyFields(kind));
    if HashDrifts(kind, desired, HashIn(current)) then WithHash(fields, HashIn(current), desired) else fields
  }

  function Blank(r: Resource): Change {
    Change(r.kind, r.name, Noop, {}, None, false, "")
  }

  function Decide(env: Env, r: Resource, seen: Observed, force: bool): Change {
    if seen.ObserveFailed? then Blank(r).(error := Some(seen.msg))
    else if r.notes.syncIgnore then Blank(r)
    else
      var c := Blank(r).(hash := DesiredHash(env, r));
      if seen.Missing? then c.(action := Create)
      else
        var diffs := Drift(r.kind, ResolveSpec(env, r.Fields()), seen.current, c.hash);
        if diffs != {} then c.(action := Update, diff := diffs)
        else if force then c.(action := Update, forced := true)
        else c
  }

  function ReconcileOne(p: Provider, env: Env, r: Resource, force: bool, store: Store): Change {
    Decide(env, r, p.observe(r.Id(), At(store, r.Id())), force)
  }

  function ObserveAll(p: Provider, env: Env, rs: seq<Resource>, force: bool, store: Store): (cs: seq<Change>)
    ensures |cs| == |rs|
  {
    seq(|rs|, i requires 0 <= i < |rs| => ReconcileOne(p, env, rs[i], force, store))
  }

  /** What is sent for a change: the resolved spec, with the hash computed at compare time. */
  function Payload(env: Env, c: Change, r: Resource): Spec {
    var spec := ResolveSpec(env, r.Fields());
    if c.hash != "" then spec[HASH_FIELD := Str(c.hash)] else spec
  }

  function ExecuteOne(p: Provider, env: Env, c: Change, r: Resource, before: Option<Entry>): Written {
    match c.action
    case Create => p.create(r.Id(), Payload(env, c, r), before)
    case Update => p.update(r.Id(), Payload(env, c, r), before)
    case _ => Written(before, None)
  }

  predicate Executes(c: Change) {
    c.action != Noop && c.error.None?
  }

  function Count(result: Result, c: Change, err: Option<string>): Result {
    if err.Some? then
      Result(result.applied, result.failed + 1, result.errors + [ErrLine(c.kind, c.name, err.value)])
    else result.(applied := result.applied + 1)
  }

  datatype Exec = Exec(store: Store, result: Result)

  /** Execute the changes one after the other. */
  function ExecuteAll(p: Provider, env: Env, cs: seq<Change>, rs: seq<Resource>, x: Exec): Exec
    requires |cs| == |rs|
  {
    if cs == [] then x
    else
      var n := |cs| - 1;
      var y := ExecuteAll(p, env, cs[..n], rs[..n], x);
      if !Executes(cs[n]) then y
      else
        var w := ExecuteOne(p, env, cs[n], rs[n], At(y.store, rs[n].Id()));
        Exec(Put(y.store, rs[n].Id(), w.after), Count(y.result, cs[n], w.err))
  }

  function AddChange(plan: Plan, c: Change, r: Resource): Plan {
    var counted := match c.action
                   case Create => plan.(creates := plan.creates + 1)
                   case Update => plan.(updates := plan.updates + 1)
                   case Noop => plan.(noops := plan.noops + 1)
                   case Delete => plan;
    counted.(changes := plan.changes + [c],
             errors := if c.error.Some? then plan.errors + [ErrLine(r.kind, r.name, c.error.value)] else plan.errors)
  }

  function AddChanges(plan: Plan, cs: seq<Change>, rs: seq<Resource>): Plan
    requires |cs| == |rs|
  {
    if cs == [] then plan
    else
      var n := |cs| - 1;
      AddChange(AddChanges(plan, cs[..n], rs[..n]), cs[n], rs[n])
  }

  function Merge(a: Result, b: Result): Result {
    Result(a.applied + b.applied, a.failed + b.failed, a.errors + b.errors)
  }

  /** One kind: observe all its resources, then (unless this is a dry run) execute their changes. */
  function KindPass(p: Provider, env: Env, rs: seq<Resource>, opts: Opts, run: Run): Run {
    var cs := ObserveAll(p, env, rs, opts.force, run.store);
    var plan := AddChanges(run.plan, cs, rs);
    if opts.dryRun then run.(plan := plan)
    else
      var x := ExecuteAll(p, env, cs, rs, Exec(run.store, NO_RESULT));
      Run(plan, Merge(run.result, x.result), x.store)
  }

  function KindPasses(p: Provider, env: Env, rs: seq<Resource>, opts: Opts, kinds: seq<Kind>, run: Run): Run {
    if kinds == [] then run
    else
      var n := |kinds| - 1;
      KindPass(p, env, OfKind(rs, kinds[n]), opts, KindPasses(p, env, rs, opts, kinds[..n], run))
  }

  datatype Prune = Prune(changes: seq<Change>, result: Result, store: Store)

  /** Owned by gcplane and not declared. */
  predicate Orphan(declared: set<Key>, kind: Kind, info: Info) {
    info.createdBy == OWNER && Key(kind, info.name) !in declared
  }

  function DeleteChange(kind: Kind, name: string): Change {
    Change(kind, name, Delete, {}, None, false, "")
  }

  function PruneOne(p: Provider, kind: Kind, name: string, dryRun: bool, x: Prune): Prune {
    var c := DeleteChange(kind, name);
    if dryRun then x.(changes := x.changes + [c])
    else
      var w := p.remove(Key(kind, name), At(x.store, Key(kind, name)));
      Prune(x.changes + [c], Count(x.result, c, w.err), Put(x.store, Key(kind, name), w.after))
  }

  function PruneRemotes(p: Provider, declared: set<Key>, kind: Kind, infos: seq<Info>, dryRun: bool, x: Prune): Prune {
    if infos == [] then x
    else
      var n := |infos| - 1;
      var y := PruneRemotes(p, declared, kind, infos[..n], dryRun, x);
      if Orphan(declared, kind, infos[n]) then PruneOne(p, kind, infos[n].name, dryRun, y) else y
  }

  function PruneKind(p: Provider, declared: set<Key>, kind: Kind, dryRun: bool, x: Prune): Prune {
    if !Prunable(kind) then x
    else
      var infos := p.list(kind, x.store);
      if infos.None? then x else PruneRemotes(p, declared, kind, infos.value, dryRun, x)
  }

  function PruneKinds(p: Provider, declared: set<Key>, kinds: seq<Kind>, dryRun: bool, x: Prune): Prune {
    if kinds == [] then x
    else
      var n := |kinds| - 1;
      PruneKind(p, declared, kinds[n], dryRun, PruneKinds(p, declared, kinds[..n], dryRun, x))
  }

  /** The apply phase of a run. */
  function Applied(p: Provider, env: Env, rs: seq<Resource>, opts: Opts, store: Store): Run {
    KindPasses(p, env, rs, opts, ApplyOrder(), Run(NO_PLAN, NO_RESULT, store))
  }

  function Pruned(p: Provider, rs: seq<Resource>, dryRun: bool, store: Store): Prune {
    PruneKinds(p, Declared(rs), Reversed(ApplyOrder()), dryRun, Prune([], NO_RESULT, store))
  }

  /** The prune phase after an apply phase. */
  function Finish(p: Provider, rs: seq<Resource>, opts: Opts, run: Run): Run {
    if !opts.prune then run
    else
      var x := Pruned(p, rs, opts.dryRun, run.store);
      Run(run.plan.(changes := run.plan.changes + x.changes, deletes := run.plan.deletes + |x.changes|),
          Merge(run.result, x.result), x.store)
  }

  /** A whole run. */
  function Reconcile(p: Provider, env: Env, rs: seq<Resource>, opts: Opts, store: Store): Run {
    Finish(p, rs, opts, Applied(p, env, rs, opts, store))
  }
}
