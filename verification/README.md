# GCPlane: a verified model of its reconciler, protocols and data structures

GCPlane is a declarative reconciler for a GoClaw server: it loads a manifest, observes live state, computes a
difference, and creates, updates or deletes until live state matches. This project models the parts of it whose
correctness is least obvious and proves what they promise, for all inputs, all runs and all interleavings.
`dafny verify dfyconfig.toml` checks everything.

## What is modelled

**Values and the diff** (`values.dfy`, `compare.dfy`, `diff_laws.dfy`, `compare_laws.dfy`, `patch.dfy`). Specs are
recursive values as the YAML and JSON decoders produce them. Integers are compared after the conversion to a 53-bit
float, rounded half to even. The diff is a set of findings (path, value found, value wanted); the code's map with
dotted keys is tied to that set. Proved: comparison is equality of canonical forms; the diff reports exactly the
compared places that differ; it is empty exactly when the desired spec is covered; an integer is compared as the float
nearest to it; which paths and values are reported is also said from the keys, the grant lists and the mask alone
(`CompareLaws`); extra live fields never matter; writing every finding into the live spec settles it, when keys hold
no dots and the grant lists compared as sets are lists of strings; and exactly which desired specs can lose a
difference to a shared dotted path.

**One run of the engine** (`kinds.dfy`, `manifest.dfy`, `write_only_hash.dfy`, `reconcile_spec.dfy`, `engine.dfy`).
The server is a keyed store. A provider is given by functions on single entries (observe, create, update, remove) and
a listing; any of them may fail, and a failing write may still have changed its entry. `Engine` is the imperative
engine over a `Server` object, with the loops of the source; its `Reconcile` is proved equal to the specification
function, about which everything else is proved. A change of the specification carries the set of its findings; the
engine decides on the dotted map, which is proved to render them.

**Laws of runs** (`run_facts.dfy`, `counting.dfy`, `tally_laws.dfy`, `fidelity.dfy`, `prune_laws.dfy`,
`convergence.dfy`, `drift_laws.dfy`, `write_laws.dfy`, `parallel.dfy`, `parallel_run.dfy`, `dependency_safety.dfy`,
`skill_specs.dfy`, `validation.dfy`, `validation_laws.dfy`). Conservation of counts, fidelity of the dry run,
exactness of pruning over any sequence of cycles, convergence with the one-shot hash heal, detection of rotated
secrets, refinement of the sequential run by every interleaving of a concurrent one, and dependency order from
validation to the plan. The modules named after laws say what is decided, sent, counted and accepted from the
resources, fields and names themselves, without the functions that the methods are proved against.

**Two protocols** (`rpc_mux.dfy`, `rpc_delivery.dfy`, `rpc_connects.dfy`, `rpc_runs.dfy`, `rpc_client.dfy`;
`controller.dfy`, `token_laws.dfy`, `controller_state.dfy`), each a state machine over its critical sections and
channel operations, with classes whose methods are those critical sections; a method that is several of them gives the
steps it takes. Invariants are proved over all interleavings. For the RPC client, frames that come in name the request
they answer, if any; proved are the exact fate of every registered call, and exactly when a connect can do harm: take
a call's place in the pending map, let another connection's read error cancel a call whose own connection is still
read, or give it another call's answer.

**Further components** (`keyconv.dfy`, `key_words.dfy`, `key_collisions.dfy`, `grants.dfy`, `key_grants.dfy`,
`allowlists.dfy`, `allowlist_sync.dfy`, `unpack.dfy`, `unpack_laws.dfy`, `rings.dfy`, `spans.dfy`, `span_order.dfy`,
helpers in `text.dfy`): key translation, over any letters that keep a few laws of Unicode case, and on words and
acronyms; set-difference reconcilers against a server that may fail or half-succeed at any call; the unpacking of a
skill as a tree update that stays below its directory; the two ring buffers; and the span forest built on heap nodes.

## Where the code does not do what it says

The model follows the code. Each point is a lemma.

- A malformed `grants.agents` or `grants.users` never compares equal, not even to itself
  (`MalformedGrantsNeverEqual`), so such a resource is updated in every run, and so is one that declares
  `writeOnlyHash` itself with anything but the hash the engine sends to a kind that supports it (`SettlesIff`).
- Integers beyond 2^53 collapse, so such drift is invisible (`LargeIntsCollapse`: up to there they do not).
- Two fields that go by one dotted path can hide a difference in the result map: exactly the specs with such a pair,
  neither field inside the other, can lose one (`DifferenceLostIff`; `DottedKeysLoseADifference` is an example).
- The read error of one connection cancels every pending call, those made on a later connection included: after a
  failed write and a reconnect, a call on the new connection returns a cancellation although that connection is being
  read (`OldReadErrorCancelsNewCall`). A connect can lead to this exactly when some connection is still being read
  (`ConnectSeversIff`).
- `Connect` restarts request IDs while calls of an earlier epoch may still be on their way: a call can lose its place
  in the pending map, exactly when such a call is left (`ConnectEvictsIff`), or get the answer to another call's
  request, which then waits for nothing (`ReconnectMixesAnswers`). A connect is harmless exactly when no connection is
  being read and no such call is left (`ConnectHarmsIff`); as long as all connects are, answers are a call's own
  (`SafeAnswersAreOwn`), no call loses its place (`SafeNeverEvicts`), and none is cut off (`SafeNeverSevers`).
- A call that read the connection before its read error and registers after the pending calls were cancelled is told
  nothing: with no timeout of its own it waits until there is a new connection, if ever (`LateCallWaitsForNothing`;
  exact in `FateIff` and `ReachableIff`).
- `TriggerAndWait` may return the result of a cycle that had begun before the call (`ResultCanBeStale`); which cycle
  it reports is exact in `ResultIsFirstSwap`.
- Key translation comes back exactly for keys without underscores whose every letter with a lower form gets an
  underscore and returns from it (`KeyRoundTripIff`); the outcome depends on map order exactly when keys of one map
  that translate alike carry values that do not (`OrderDoesNotMatterIff`; `CollisionsDependOnOrder` is an example).
- An undesired allowlist pattern that is listed under two IDs survives reconciliation (`AllowlistExactIff`), and a
  pattern that is asked for twice and new, or whose listing failed, is added although the list has it (`AddPatterns`).
- An agent key used in two tenants can keep an unwanted skill grant alive (`SharedKeyKeepsGrant`; exact in
  `SkillGrantsExactIff`), and a desired key that only another tenant's agent has is granted again by every run
  (`SkillRerunIdleIff`).
- Unpacking with pruning deletes a file it has just written when the server lists it only under an uncleaned path
  (`PruneExactIff`; `DoubleSlashIsDeleted` is an example).
- Not every level of the span forest is sorted: the children of a span are in order in every map order exactly if the
  span and all above it have two or more children, or if its children all start together (`ChildrenSortedIff`;
  `BelowOnlyChildUnsorted` is an example). And the sort does not always prevent flicker: the forest is the same in
  every map order exactly if the lists that are sorted have no ties and the others no two members (`OneForestIff`).
- Spans on a parent cycle are not shown (`CycleIsNotShown`).

## Model

| member | source | states |
|---|---|---|
| Values.EqualIffSameCanon | internal/reconciler/compare.go:89-144 | two values compare equal exactly when their canonical forms are the same: one number type, one list type, one map type, at every depth |
| Values.LargeIntsCollapse | internal/reconciler/compare.go:185-198 | all integers of a range around zero are told apart if and only if the range ends at 2^53 or before |
| CompareLaws.ToFloat64IsNearest | internal/reconciler/compare.go:185-198 | every integer is compared as a multiple of a power of two with at most 53 bits, at most half a unit away, and even when halfway: the nearest float64 |
| Compare.SetEqual | internal/reconciler/compare.go:155-167 | the size check and the one-way membership loop decide equality of the two sets |
| Compare.ToStringSet | internal/reconciler/compare.go:169-183 | succeeds exactly on lists of strings, and then gives the set of them |
| Compare.StringSetEqual | internal/reconciler/compare.go:155-167 | true exactly when both sides are lists of strings with the same elements |
| Compare.CompareRecursive | internal/reconciler/compare.go:26-70 | whatever order the keys are walked in, the dotted map ends up showing the findings of the specification and what was there before |
| Compare.CompareField | internal/reconciler/compare.go:33-68 | one key's part of that: missing, both maps, masked, or a leaf |
| Compare.CompareLeaf | internal/reconciler/compare.go:57-68 | what is not masked: the two grant lists compare as sets, all else by value |
| Compare.CompareSpecExcluding | internal/reconciler/compare.go:16-24 | the result map shows exactly the findings between the two specs, for any exclude list |
| DiffLaws.FindingsExactly | internal/reconciler/compare.go:26-70 | a finding is reported if and only if its path is compared and the values there differ, with the value really found there and the value wanted |
| DiffLaws.EmptyIffCovered | internal/reconciler/compare.go:26-70 | no finding exactly when every compared place of the desired spec is covered by the live spec |
| DiffLaws.ExtraKeysNeverMatter | internal/reconciler/compare.go:26-44 | removing from the live spec everything the desired spec does not name leaves the findings as they are |
| DiffLaws.SameCanonSettlesIff | internal/reconciler/compare.go:53-68 | against a canonically equal live spec the diff is empty exactly when the grant lists compared as sets are lists of strings |
| DiffLaws.MalformedGrantsNeverEqual | internal/reconciler/compare.go:146-183 | a grant list that is not a list of strings differs even from itself |
| CompareLaws.DottedIsJoin | internal/reconciler/compare.go:33-36 | the path string is the keys joined by dots, empty ones at the front left out |
| CompareLaws.FindingIff | internal/reconciler/compare.go:26-70 | from keys and values alone: a path is reported exactly if its keys lead through maps on both sides, no top-level one is excluded, and the value wanted is absent or looks wrong: not masked, not both maps, and other strings for `grants.agents` and `grants.users`, another canonical form elsewhere |
| Patch.DottedInjective | internal/reconciler/compare.go:33-36 | dotted paths stand for one key path only, when keys hold no dots |
| Patch.DiffIsSufficientPatch | internal/reconciler/compare.go:16-70 | writing every wanted value of the result map at its path makes a second comparison empty, for dot-free keys and well-formed grant lists |
| Patch.DifferenceLostIff | internal/reconciler/compare.go:26-70 | some live spec hides a difference if and only if two compared fields of the desired spec, neither inside the other, share a dotted path |
| Patch.HidesIffFewerEntries | internal/reconciler/compare.go:33-41 | a difference is hidden exactly when every result map has fewer entries than there are differences |
| Patch.PlainKeysDoNotClash | internal/reconciler/compare.go:33-36 | specs with dot-free keys have no such pair of fields |
| Patch.DottedKeysLoseADifference | internal/reconciler/compare.go:33-41 | an example: two findings share one entry of the result map, so one of them is lost |
| Kinds.ApplyOrderByRank | internal/manifest/types.go:62-81 | each position of the apply order holds the kind of that rank |
| Kinds.DeleteOrder | internal/manifest/delete_order.go:4-11 | the filled array is the apply order reversed |
| WriteOnlyHash.SortByKeySorts | internal/reconciler/write_only_hash.go:43-43 | the sorted pairs are in key order and a permutation of the collected ones |
| WriteOnlyHash.HashWriteOnlyFields | internal/reconciler/write_only_hash.go:16-58 | the loops over ignored and selected fields compute the hash function of the specification |
| WriteOnlyHash.HashIgnoresFieldOrder | internal/reconciler/write_only_hash.go:22-43 | permuting the field list leaves the hash unchanged |
| WriteOnlyHash.HashEmptyIff | internal/reconciler/write_only_hash.go:16-58 | with an ideal digest the hash is empty exactly when no selected field is present or the value of one cannot be encoded |
| WriteOnlyHash.SameHashIff | internal/reconciler/write_only_hash.go:16-58 | two specs get the same hash exactly when neither has one to get, or both have and they agree on the write-only fields that are not ignored |
| Manifests.OfKindMembers | internal/reconciler/engine.go:48-52 | grouping by kind keeps exactly the resources of the kind |
| Manifests.OfKindConcat | internal/reconciler/engine.go:48-52 | grouping by kind keeps the order of the manifest |
| Engine.Engine.ResolveSpecSecrets | internal/reconciler/engine.go:462-468 | every value resolved, at every depth, with the original kept where a lookup fails |
| Engine.Engine.ResolveValue | internal/reconciler/engine.go:470-492 | strings looked up, maps and untyped lists walked, all else kept |
| Engine.Engine.ReconcileOne | internal/reconciler/engine.go:249-268 | the change for one resource is the specified decision on what the server shows, and the dotted diff renders its findings; nothing is written |
| Engine.Engine.StepCompare | internal/reconciler/engine.go:303-373 | ignore policy, hash, missing, drift with hash drift, forced update and noop, in that order, decided on the dotted map that the comparison returns; the map renders the findings of the change |
| Engine.Engine.CompareHash | internal/reconciler/engine.go:327-357 | hash drift replaces whatever the map has under the hash's own path |
| Engine.Engine.ReconcileKind | internal/reconciler/engine.go:106-114 | one change for each resource, in the order of the resources, each with its dotted diff |
| Engine.Engine.Execute | internal/reconciler/engine.go:423-459 | the payload is the resolved spec with the change's hash put in, sent by create or update; the server's entry becomes what the provider makes of it |
| Engine.Engine.ExecuteChanges | internal/reconciler/engine.go:132-148 | changes run in order, noops and errors skipped, outcomes counted, errors listed |
| Engine.Engine.DetectAndExecutePrunes | internal/reconciler/engine.go:176-237 | kinds in delete order, unlistable and unprunable ones skipped, owned undeclared resources deleted unless dry |
| Engine.Engine.Reconcile | internal/reconciler/engine.go:44-102 | the whole sequential run of the imperative engine gives the plan, the result and the store of the specification; `ParallelRun.ConcurrentRunRefines` is for the concurrent one |
| WriteLaws.ResolvedInside | internal/reconciler/engine.go:462-492 | at every path through `map[string]any` and `[]any`, however deep, a string is the secret it refers to, or itself where the lookup fails, and everything else is as it was |
| WriteLaws.StrictRunNeverFails | internal/reconciler/engine.go:423-459 | against a server whose create refuses what exists and whose update refuses what does not, no write of a run fails |
| Counting.PassesCount | internal/reconciler/engine.go:54-76 | the apply part plans one change for each resource whose kind is walked |
| Counting.Conservation | internal/reconciler/engine.go:44-102 | changes number creates + updates + noops + deletes, the non-deletes number the resources, and in a real run applied + failed is creates + updates + deletes and errors number failed |
| TallyLaws.PlanIsTallied | internal/reconciler/engine.go:44-102 | each number of a plan counts the changes with that action, and its error lines are those of the changes that could not be decided, in order |
| TallyLaws.FailuresAreNamed | internal/reconciler/engine.go:132-148 | every failure a run reports is that of a change in its plan which was to be carried out |
| Fidelity.PassesFaithful | internal/reconciler/engine.go:54-85 | observing later kinds after writing earlier ones gives the same changes as observing all before |
| Fidelity.PruneFaithful | internal/reconciler/engine.go:176-237 | the dry prune plans the deletes that the real one makes |
| Fidelity.PlanFidelity | internal/reconciler/engine.go:44-102 | a dry run from a state gives the same plan as the real run from it, although the real run writes as it goes |
| Fidelity.DryRunIdle | internal/reconciler/engine.go:79-98 | a dry run leaves the store as it is and applies nothing |
| Fidelity.ListInStable | internal/reconciler/engine.go:199-213 | the listing condition of plan fidelity has a server that meets it |
| PruneLaws.PruneSpares | internal/reconciler/engine.go:190-234 | an entry that is declared, foreign or of a kind not pruned is left alone |
| PruneLaws.DeletesJustified | internal/reconciler/engine.go:205-216 | every planned delete names a listed, owned, prunable resource outside the manifest |
| PruneLaws.RunSparesIgnored | internal/reconciler/engine.go:304-308 | a resource with the ignore policy is not written or deleted by a run |
| PruneLaws.CyclesSpare | internal/reconciler/engine.go:44-102 | over any sequence of cycles with one manifest, whatever servers and options, foreign and ignored entries stay as they were |
| PruneLaws.CleanPruneLeavesNoOrphan | internal/reconciler/engine.go:176-237 | a failure-free pruning run leaves no owned, prunable, undeclared entry |
| PruneLaws.DeletedIffStray | internal/reconciler/engine.go:176-237 | with truthful listings a delete is planned, dry or not, exactly for an undeclared entry created by gcplane whose kind is none of the six that are spared |
| PruneLaws.UndeclaredAfterRun | internal/reconciler/engine.go:87-98 | after a failure-free pruning run such entries are gone and every other undeclared entry is as it was |
| Convergence.WriteSettles | internal/reconciler/engine.go:302-373 | after a write that the server keeps, a resource that meets that condition compares as a noop |
| Convergence.OneApplySettles | internal/reconciler/engine.go:44-102 | after one real run without failures, from any state, every settleable declared resource is a noop, against any server that keeps what it is sent for the manifest up to masking, merging, number types and the order of grant lists |
| Convergence.SettledStays | internal/reconciler/engine.go:44-102 | a settled state plans no create and no update and stays settled: no update loop |
| Convergence.NothingLeftToPrune | internal/reconciler/engine.go:87-99 | after a failure-free pruning run the next unforced run plans no create, update or delete |
| Convergence.SettlesIff | internal/reconciler/engine.go:323-372 | against a server that returns fields unmasked, grant lists in any order, a written resource settles exactly when its set-compared grant lists are lists of strings and a declared `writeOnlyHash` compares equal to the server's; where the engine sends a hash and the kind supports it, exactly when the declared one is that hash |
| Convergence.EmptyHashHeals | internal/reconciler/engine.go:327-357 | when the server has lost the hash of an otherwise matching resource, the next run plans an update for the hash alone if the kind supports it and there is one, else a noop; after that run without failures the resource is a noop |
| Convergence.MergingServerKeeps | internal/manifest/field_config.go:55-79 | a server that merges fields, hides write-only ones and drops the hash of unsupported kinds meets the provider contract |
| Convergence.OwnOrderIsRetained | internal/reconciler/compare.go:57-62 | so does one that returns granted agents in an order of its own |
| DriftLaws.UpdatedIff | internal/reconciler/engine.go:323-373 | a resource that exists and is not ignored is updated exactly if the run is forced, a compared field drifts, or its hash was rotated: two hashes that differ, or none held by a kind that keeps one; the diff shows which, and the mark for a forced update is set exactly when nothing drifted |
| DriftLaws.CarriedOutIff | internal/reconciler/engine.go:249-373 | created exactly if missing and not ignored, updated as above, an error exactly when it could not be observed |
| DriftLaws.ForcedIsPlanned | internal/reconciler/engine.go:359-368 | a forced run plans an update of every existing resource that is not ignored |
| DriftLaws.EverythingExists | internal/reconciler/engine.go:44-102 | after a real run without failures every declared resource that is not ignored exists |
| DriftLaws.SecretsAreNotShown | internal/manifest/field_config.go:6-46 | no diff shows an API key, credentials, headers, environment or private key |
| DriftLaws.ChangeChangesHash | internal/reconciler/write_only_hash.go:16-58 | two specs of a resource have different hashes as soon as one tracked field differs |
| DriftLaws.UntrackedChangesNothing | internal/reconciler/write_only_hash.go:16-58 | changes to untracked or ignored fields leave the hash as it is |
| DriftLaws.RotationIsPlanned | internal/reconciler/engine.go:327-357 | against a server that shows the hash of an earlier spec, a run plans an update that records both hashes once a tracked field was changed |
| DriftLaws.RotationIsDetected | internal/reconciler/engine.go:44-102 | after a run without failures, changing a tracked field of an agent, job or provider, say its secret, makes the next run plan an update that records it |
| Parallel.InFlightBounded | internal/reconciler/engine.go:116-126 | in every interleaving at most `limit` tasks are in flight |
| Parallel.FinishedIsComplete | internal/reconciler/engine.go:116-126 | when all tasks are finished each has worked once on its own entry and been recorded once |
| Parallel.ParallelObserveRefines | internal/reconciler/engine.go:106-128 | every interleaving of the observe phase gives the sequential changes |
| Parallel.ParallelExecuteRefines | internal/reconciler/engine.go:132-174 | every interleaving of the execute phase gives the sequential store, applied and failed counts, and the same errors up to order |
| ParallelRun.PhaseEnds | internal/reconciler/engine.go:116-126 | every interleaving of a phase ends, after at most three steps a task, and is never stuck before |
| ParallelRun.ConcurrentRunRefines | internal/reconciler/engine.go:44-102 | however the tasks of all its phases interleave, a concurrent run has the plan, the store and the counts of the sequential one, and its errors up to order |
| ParallelRun.ConcurrentRunSettles | internal/controller/controller.go:186-187 | so a concurrent run without failures leaves every settleable declared resource a noop |
| ParallelRun.ConcurrentRerunIsIdle | internal/controller/controller.go:186-187 | and the next one, if the first pruned, plans no create, update or delete |
| ParallelRun.ConcurrentPruneLeavesNoOrphan | internal/controller/controller.go:186-187 | a concurrent failure-free pruning run leaves no owned, prunable, undeclared entry |
| Validation.SplitLinkComposes | internal/manifest/validate_refs.go:11-17 | a link name that splits is the two ends joined by the dashes, and neither end holds them |
| Validation.SplitLinkRoundTrip | internal/manifest/validate_refs.go:11-17 | two agent names without double dashes, joined, split into themselves |
| Validation.CheckAgents | internal/manifest/validate_refs.go:131-143 | reports exactly the listed agent names that are not declared |
| Validation.CheckLink | internal/manifest/validate_refs.go:91-116 | reports exactly the malformed name, the contradicting spec ends and the undeclared ends |
| Validation.CheckResource | internal/manifest/validate_refs.go:32-117 | reports exactly the broken references of one resource, kind by kind |
| Validation.ValidateReferences | internal/manifest/validate_refs.go:21-119 | reports every broken reference of the manifest and nothing else |
| Validation.UidIsIdentity | internal/manifest/validate.go:68-72 | for known kinds the joined string by which duplicates are found tells identities apart |
| Validation.CheckShape | internal/manifest/validate.go:51-80 | reports exactly the unknown kind, missing or bad name, duplicate, missing spec and Skill spec problems of one resource |
| SkillSpecs.GoodConstraintIff | internal/manifest/validate.go:159-184 | a tool constraint is accepted exactly when it is ">=" and a semantic version with white space around either |
| SkillSpecs.ValidateCliConstraintShape | internal/manifest/validate.go:159-184 | decides just that |
| SkillSpecs.ValidateTags | internal/manifest/validate.go:111-128 | reports exactly a value that is no list, the tags that are no strings and the repeated ones |
| SkillSpecs.ValidateSkillSpec | internal/manifest/validate.go:96-152 | reports every problem of a Skill spec and nothing else, so nothing exactly for the accepted ones |
| Validation.NoProblemIffValid | internal/manifest/validate.go:39-87 | there is nothing to report exactly for valid manifests |
| Validation.Validate | internal/manifest/validate.go:39-87 | reports every problem and nothing else, so nothing exactly for valid manifests |
| ValidationLaws.ValidIff | internal/manifest/validate.go:39-87 | from the fields up, a manifest is valid exactly if version and kind are right, each resource is of a known kind with a spec and a name of the required form and, for a Skill, sound fields, no two share kind and name, and every resource named by a field is declared |
| ValidationLaws.KeyNameIff | internal/manifest/validate.go:13-13 | names are those of the form `[a-z0-9]([a-z0-9-]*[a-z0-9])?` |
| ValidationLaws.SplitLinkIff | internal/manifest/validate_refs.go:11-17 | the ends of a link name are what stands before and after its first double dash, if neither is empty and no double dash is in the second |
| ValidationLaws.ValidDeclares | internal/manifest/validate_refs.go:32-117 | in a valid manifest these are declared: an agent's provider; the agent of a channel, job or CLI grant, and its binary; lead and members of a team; the agents granted a server; both ends of a link, with which its spec agrees |
| ValidationLaws.ReportedIff | internal/manifest/validate_refs.go:32-117 | a missing declaration is reported at a resource exactly if one of those fields names it and nothing of that kind and name is declared; a link name exactly if it has no two ends |
| ValidationLaws.MismatchReportedIff | internal/manifest/validate_refs.go:101-108 | a link's source or target field is reported exactly if it is a string other than that end |
| ValidationLaws.DuplicateReportedIff | internal/manifest/validate.go:66-70 | a duplicate is reported exactly where an earlier resource has the same kind and name |
| ValidationLaws.SkillOkIff | internal/manifest/validate.go:89-185 | Skill fields are accepted exactly with one of the four visibilities and statuses or none, tags that are distinct strings, a directory that packs, and constraints of the accepted form |
| DependencySafety.RefsPrecede | internal/manifest/types.go:62-81 | every checked reference goes to a kind earlier in the apply order |
| DependencySafety.PlanOrder | internal/reconciler/engine.go:54-99 | the plan is the applies in kind order followed by the deletes in the reverse order |
| DependencySafety.ReferencesComeFirst | internal/manifest/validate_refs.go:21-119 | in the plan for a valid manifest whatever a resource refers to has its own change before every change of the resource |
| ValidationLaws.MentionedComesFirst | internal/manifest/types.go:62-81 | the same for what the fields name: its change comes before that of the resource naming it |
| RpcMux.SendsNeverBlock | internal/provider/goclaw/ws_client.go:199-242 | over all interleavings each call's channel is sent to at most once, so delivery and cancellation always find room |
| RpcClient.Client.Connect | internal/provider/goclaw/ws_client.go:85-158 | with a connection or without a socket nothing changes; else the connection is set, even when the handshake is refused, and the counter restarts and a read loop starts only when it is accepted |
| RpcClient.Client.StartCall | internal/provider/goclaw/ws_client.go:246-282 | a call up to its wait, by the code's critical sections, as the steps given lead to it: without a connection nothing happens; a call whose write succeeds waits registered under the next ID, which is then used up; one whose write fails has unregistered and cleared the connection; all other pending calls stay as they were |
| RpcClient.Client.DeliverResponse | internal/provider/goclaw/ws_client.go:200-211 | a response goes to the call registered under its ID, which is then no longer pending, and the rest of the state stays; without one nothing happens |
| RpcClient.Client.EndReads | internal/provider/goclaw/ws_client.go:160-168 | at a read error each pending call is sent one cancellation under its own ID, in any order, and no other call is touched; the connection is cleared only if it is still the loop's, the request counter, the later connections and the epoch stay; the state is reached by the steps given: the read error, one cancellation for each pending call, the end of the loop |
| RpcDelivery.AnswersMatch | internal/provider/goclaw/ws_client.go:246-301 | a returned frame carries the call's own ID and is the only one sent to it; an answer to another call's request takes another epoch |
| RpcDelivery.FateIff | internal/provider/goclaw/ws_client.go:225-301 | over every run: a call registered and neither sent to nor given up is lost exactly if another call with its ID took its place; it is still served exactly if a read loop has it, or its place was not taken and its connection was being read when it registered |
| RpcDelivery.EvictorIsOfAnotherEpoch | internal/provider/goclaw/ws_client.go:255-299 | only a call of another epoch can take a call's place |
| RpcDelivery.ReachableIff | internal/provider/goclaw/ws_client.go:160-242 | from any reachable state an unserved call can be sent to without a new connection if and only if a read loop has it or it is pending while some connection is read |
| RpcRuns.LateCallWaitsForNothing | internal/provider/goclaw/ws_client.go:225-267 | a run in which a call registers after the cancellation of its connection: short of a new connection nothing but its own timeout ends its wait |
| RpcConnects.SafeAnswersAreOwn | internal/provider/goclaw/ws_client.go:153-301 | when at every connect no connection is being read and no drawn call can still touch the pending map, an answer that is returned is to the call's own request |
| RpcConnects.SafeNeverEvicts | internal/provider/goclaw/ws_client.go:153-301 | and no call ever takes another's place |
| RpcConnects.SafeNeverSevers | internal/provider/goclaw/ws_client.go:225-242 | and no read error cancels a call whose own connection is still being read |
| RpcConnects.QuietIsSafe | internal/provider/goclaw/ws_client.go:153-155 | a connect with no read loop running and all calls returned is such a one |
| RpcConnects.ConnectEvictsIff | internal/provider/goclaw/ws_client.go:153-299 | from any reachable state a connect can lead, without a further one, to a registered or waiting call losing its place if and only if a drawn call is left that can touch the pending map |
| RpcConnects.ConnectSeversIff | internal/provider/goclaw/ws_client.go:225-242 | from any reachable state a connect can lead, without a further one, to a registered or waiting call on a connection being read being cancelled by another connection's loop if and only if some connection is still being read |
| RpcConnects.ConnectHarmsIff | internal/provider/goclaw/ws_client.go:153-301 | after harmless connects the next can lead to either of these or to another call's answer if and only if one of those two conditions holds |
| RpcRuns.OldReadErrorCancelsNewCall | internal/provider/goclaw/ws_client.go:225-242 | a run in which a failed write, a reconnect and the old connection's read error make a call on the new, live connection return a cancellation |
| RpcRuns.ReconnectMixesAnswers | internal/provider/goclaw/ws_client.go:153-155 | a run in which a reconnect reuses an ID, one call gets another's answer, and that other one is left waiting |
| Controller.NoLostWakeup | internal/controller/controller.go:84-153 | a listed waiter past its trigger attempt has a token queued or a cycle yet to swap; a waiter on no list has been sent its result; an unserved trigger has a timer, a callback or a token |
| Controller.OneResultEach | internal/controller/controller.go:264-273 | each waiter is sent at most one result and no send blocks |
| Controller.LoopCanStep | internal/controller/controller.go:84-102 | while a waiter waits the loop has a step to take, unless it was stopped |
| Controller.BoundedWait | internal/controller/controller.go:84-153 | a waiter that stays without a result sees at most as many steps of the loop as its rank, whatever else happens in between |
| Controller.ResultIsFirstSwap | internal/controller/controller.go:123-153 | the result is that of the running cycle if it had not swapped the list when the waiter enlisted, else that of the next one |
| Controller.ResultCanBeStale | internal/controller/controller.go:120-153 | a run in which the result is that of a cycle begun before the call |
| TokenLaws.TokenIff | internal/controller/controller.go:105-136 | after any run the one-slot channel is full exactly if something was sent into it since it was last received from |
| TokenLaws.TimerIff | internal/controller/controller.go:105-118 | the timer runs exactly if it was started since it last went off |
| TokenLaws.CyclesAreBounded | internal/controller/controller.go:84-136 | a run has at most one cycle more than its ticks, triggers and waiting calls together |
| ControllerState.Filter | internal/controller/controller.go:144-150 | the in-place filter keeps the other waiters in order and nothing else of the list |
| ControllerState.SharedState.Trigger | internal/controller/controller.go:105-118 | a timer that runs is stopped and a new one started, so exactly one runs |
| ControllerState.SharedState.TrySend | internal/controller/controller.go:113-136 | the non-blocking send leaves the one slot full |
| ControllerState.SharedState.StartWait | internal/controller/controller.go:123-136 | TriggerAndWait up to its wait: the waiter is last on the list, a token is queued, and the timer and the other waiters are as they were |
| ControllerState.SharedState.GiveUpWait | internal/controller/controller.go:141-152 | a waiter whose context is done leaves the list, if it is still on it, and no other does |
| ControllerState.SharedState.NotifyWaiters | internal/controller/controller.go:263-273 | each listed waiter is sent the result of the cycle once without blocking, the list is emptied, no other waiter is touched |
| ControllerState.SharedState.AddWaiter | internal/controller/controller.go:126-128 | appends the waiter's channel, growing the storage when it is full |
| ControllerState.SharedState.RemoveWaiter | internal/controller/controller.go:142-150 | the timed-out waiter is gone from the list, the others stay in order |
| ControllerState.SharedState.TakeWaiters | internal/controller/controller.go:265-268 | the list is handed over whole and left empty |
| KeyConv.CamelToSnake | internal/keyconv/keyconv.go:68-92 | the rune loop computes the snake form |
| KeyWords.SnakeIffSpread | internal/keyconv/keyconv.go:68-92 | the snake form is the key lowered with an underscore before exactly those capitals that come after a small letter or digit, or between a capital and a small letter |
| KeyWords.SnakeOfWords | internal/keyconv/keyconv.go:66-92 | a key made of words and acronyms becomes these in small letters joined by underscores; a run of capitals ends before the capital of the next word |
| KeyWords.PlainIsWords | internal/keyconv/keyconv.go:66-92 | every key of ASCII letters and digits is made of such words |
| KeyWords.HttpResponse | internal/keyconv/keyconv.go:81-85 | the source's example: `getHTTPResponse` becomes `get_http_response` |
| KeyConv.SnakeToCamel | internal/keyconv/keyconv.go:96-119 | splitting, skipping empty parts and raising each later part gives the letter-by-letter camel form |
| KeyWords.CamelOfOneMore | internal/keyconv/keyconv.go:94-119 | letter by letter: an underscore is dropped, and a letter is raised exactly if an underscore comes before it |
| KeyConv.CamelByParts | internal/keyconv/keyconv.go:101-117 | working part by part is the same as working letter by letter |
| KeyConv.KeyRoundTripIff | internal/keyconv/keyconv.go:68-119 | a key comes back exactly when it has no underscore, each letter with a lower form gets an underscore, and lowering and raising gives such a letter back |
| KeyConv.AsciiReversibleIff | internal/keyconv/keyconv.go:68-119 | in ASCII that is: no underscore, and an underscore for each capital |
| KeyConv.AsciiIsLawful | internal/keyconv/keyconv.go:68-92 | the laws assumed of letters have a model: ASCII |
| KeyConv.CanonicalIsReversible | internal/keyconv/keyconv.go:68-92 | alphanumeric keys without a leading capital and without adjacent capitals come back, if their letters do |
| KeyConv.ReversibleKeysDoNotCollide | internal/keyconv/keyconv.go:68-92 | distinct reversible keys have distinct translations |
| KeyConv.RoundTripLightens | internal/keyconv/keyconv.go:68-119 | a key that does not come back becomes shorter, or its letters come closer to ones that do |
| KeyConv.TransformKeys | internal/keyconv/keyconv.go:37-48 | in any map order the result is a translation of the map, pass-through values verbatim |
| KeyConv.TransformValue | internal/keyconv/keyconv.go:51-64 | nested maps and untyped lists are translated, all else is kept |
| KeyWords.LeavesMove | internal/keyconv/keyconv.go:37-64 | whatever a translation holds at a path was held at the path it is renamed from: each field name translated, up to a field whose translation is one of the six listed names, below which nothing is renamed |
| KeyWords.StepsMove | internal/keyconv/keyconv.go:37-64 | no field and no list item is lost in a translation |
| KeyConv.RoundTripIff | internal/keyconv/keyconv.go:12-64 | a nested spec comes back from both translations exactly when its translated keys are reversible at every depth |
| KeyCollisions.OrderDoesNotMatterIff | internal/keyconv/keyconv.go:37-64 | in either direction the translation of a nested spec is the same in every map order if and only if keys of one map that translate alike carry values that translate alike |
| KeyCollisions.VerbatimByKey | internal/keyconv/keyconv.go:25-48 | whether a value is passed through depends on the translated key alone |
| KeyCollisions.TranslationIsUnique | internal/keyconv/keyconv.go:37-48 | with reversible keys the translation does not depend on map order |
| KeyCollisions.CollisionsDependOnOrder | internal/keyconv/keyconv.go:37-48 | an example: two keys with one translation leave one value, and either can be the one |
| Grants.ApproachIsMonotone | internal/provider/goclaw/mcp_servers.go:121-139 | on the way every state lies between start and goal, and the calls that changed something number at most the distance covered |
| Grants.RetriesCompose | internal/provider/goclaw/mcp_servers.go:92-142 | failed runs tried again make one monotone approach |
| Grants.GrantMissing | internal/provider/goclaw/mcp_servers.go:121-129 | in any order and up to any failure each call comes closer to the goal or changes nothing; success has made one call for each missing grant; it succeeds exactly if no call fails |
| Grants.RevokeExtra | internal/provider/goclaw/mcp_servers.go:131-139 | the same for the grants to remove; one already gone is no failure; it succeeds exactly if no call fails |
| Grants.ApplyMcpGrants | internal/provider/goclaw/mcp_servers.go:92-142 | nothing is changed unless all lookups succeed; success leaves exactly the desired grants with as many calls as the distance; a rerun makes no call; the run succeeds exactly if the listing and all lookups do and no call fails |
| GrantsByKey.GrantKeys | internal/provider/goclaw/workstations.go:254-270 | adds the IDs of the missing keys in order until one does not resolve or a call fails; the calls approach a goal exactly as far as they add what is in it or was there; no call exactly when no key is missing; it succeeds exactly if no call fails and every missing key resolves |
| GrantsByKey.RevokeKeys | internal/provider/goclaw/workstations.go:276-291 | each call comes closer to any goal without the IDs to remove; success has removed exactly them and resolved every key; it succeeds exactly if every key to remove resolves, no call fails, and none finds nothing to remove where that counts as a failure |
| GrantsByKey.SyncByKey | internal/provider/goclaw/workstations.go:244-293 | states stay between; each effective call strictly shrinks the difference to the goal if nothing new is both added and removed, and on success only if; success is at the goal with every key resolved; no call exactly when the keys agree; it succeeds exactly if all keys to add and remove resolve and no call fails |
| GrantsByKey.KeySyncExact | internal/provider/goclaw/workstations.go:244-293 | when keys stand for distinct IDs and the current keys are the granted ones, a successful run leaves exactly the desired IDs, with all states in between |
| GrantsByKey.ReconcileAgentLinks | internal/provider/goclaw/workstations.go:244-293 | the same for links: adds the desired ones that are not current, removes the current ones that are not desired, and nothing when current is unknown |
| GrantsByKey.LinksRerunIdle | internal/provider/goclaw/workstations.go:244-293 | with distinct IDs the links a successful run leaves are listed as the desired keys |
| GrantsByKey.LinksRerun | internal/provider/goclaw/workstations.go:244-293 | a rerun on that listing succeeds without a call |
| GrantsByKey.ListHolders | internal/provider/goclaw/skills.go:316-346 | lists exactly the keys of the tenant's agents that hold the grant |
| GrantsByKey.ResolvesToFirst | internal/provider/goclaw/helpers.go:35-41 | a key resolves to the ID of the first listed agent that has the key and an ID |
| GrantsByKey.ApplySkillGrants | internal/provider/goclaw/skills.go:259-310 | nothing is changed unless all lookups succeed; else the same promises as for any run by key; no call exactly when the keys already agree |
| GrantsByKey.SkillGrantsExactIff | internal/provider/goclaw/skills.go:254-310 | success always leaves the grant with exactly the tenant's agents whose key is desired, whatever was granted and desired, if and only if each such agent's key resolves to it and no other key does |
| GrantsByKey.SkillRunApproaches | internal/provider/goclaw/skills.go:259-310 | then each effective call strictly shrinks the difference, as nothing new is both added and removed |
| GrantsByKey.SkillRerunIdleIff | internal/provider/goclaw/skills.go:259-310 | then a rerun after success makes no call if and only if each desired key is that of an agent of the tenant |
| GrantsByKey.SharedKeyKeepsGrant | internal/provider/goclaw/helpers.go:35-41 | with a key shared between tenants an unwanted grant can survive a successful run |
| Allowlists.AddHelpsIff | internal/provider/goclaw/workstations.go:214-223 | adding a desired pattern leaves less to do exactly when the list does not have it |
| Allowlists.ProgressIsBounded | internal/provider/goclaw/workstations.go:204-238 | a run whose effective calls all leave less to do makes no more of them than there was to do |
| Allowlists.LastIsRemembered | internal/provider/goclaw/workstations.go:204-212 | of the IDs listed for one pattern the last is remembered |
| AllowlistSync.AddPatterns | internal/provider/goclaw/workstations.go:214-223 | every desired pattern ends up listed and nothing listed is lost; each effective call leaves less to do if every pattern added is new and asked for once, and on success only if; it succeeds exactly if no call fails |
| AllowlistSync.RemovePatterns | internal/provider/goclaw/workstations.go:228-236 | removes the remembered ID of each undesired pattern and no other, each effective call leaving less to do; it succeeds exactly if no call fails |
| Allowlists.AllowlistExactIff | internal/provider/goclaw/workstations.go:204-238 | after success the list is exactly as desired if and only if no undesired pattern was listed twice |
| AllowlistSync.ReconcileAllowlist | internal/provider/goclaw/workstations.go:204-238 | at every point desired patterns are kept and only desired ones added; progress and exactness under those conditions; nothing is removed without a listing; with one no call is made exactly when the list was exact; it succeeds exactly if no call fails |
| Unpack.CleanIsClean | internal/skillpkg/unpack.go:51-51 | cleaning a path twice is cleaning it once |
| UnpackLaws.CleanDrops | internal/skillpkg/unpack.go:51-51 | empty parts and single dots in a path make no difference |
| UnpackLaws.CleanKeeps | internal/skillpkg/unpack.go:51-51 | a path without them stays as it is |
| UnpackLaws.SkippedIff | internal/skillpkg/unpack.go:39-42 | a file is skipped exactly if the first part of its path is a listed directory name, its last part a listed file name, or either begins with a dot |
| Unpack.SafeIsBelow | internal/skillpkg/unpack.go:34-37 | a path with no slash in front and no two dots in a row is cleaned to one that never steps up |
| UnpackLaws.OverlayIsBelow | internal/skillpkg/unpack.go:34-55 | what such files put into the tree lies below the directory |
| Unpack.Screen | internal/skillpkg/unpack.go:34-45 | a path is rejected exactly if it begins with a slash or has two dots in a row; one not rejected is skipped exactly if it is a hidden or system file |
| Unpack.UnpackOne | internal/skillpkg/unpack.go:47-71 | succeeds exactly if the file has at most 4 MiB, the directory's name is in cleaned form and no file operation fails; then the file is written exactly when its content differs; a failure touches that path alone |
| Unpack.PruneLocal | internal/skillpkg/unpack.go:92-114 | deletes every file not to be kept and lists each once, unless a file operation fails; up to a failure no kept file is touched |
| Unpack.UnpackTo | internal/skillpkg/unpack.go:23-78 | a result comes exactly if the directory is named, no path begins with a slash or has two dots in a row, files not skipped have at most 4 MiB and no file operation fails; whatever is new or changed, after a failure too, lies below the directory; with a result the tree is the old one with the files put in, cut to the kept paths when pruning, and the result lists exactly what was written and deleted; elsewhere nothing changes |
| Unpack.UnpackedIsValid | internal/skillpkg/unpack.go:51-71 | a tree filed under cleaned paths stays so after a call |
| Unpack.PruneExactIff | internal/skillpkg/unpack.go:68-71 | pruning leaves exactly the server's files if and only if each is also listed under its cleaned path |
| Unpack.DoubleSlashIsDeleted | internal/skillpkg/unpack.go:51-76 | an example: a file listed as "a//b" is written and deleted by the same call |
| Unpack.CleanPathsAreKept | internal/skillpkg/unpack.go:28-71 | clean paths meet that condition |
| Unpack.SecondCallIdleIff | internal/skillpkg/unpack.go:56-59 | the same call again writes nothing exactly when entries for one path agree |
| Unpack.SecondPruneIdleIff | internal/skillpkg/unpack.go:68-76 | with pruning, exactly when besides every file is listed under its cleaned path |
| Unpack.ListedIffChanged | internal/skillpkg/unpack.go:56-71 | when entries agree the written list names exactly the paths whose content changed |
| Rings.Chronological | internal/tui/live_store.go:154-166 | reading the slots from the oldest on gives the last entries in arrival order |
| Rings.WriteStores | internal/tui/live_store.go:131-135 | overwriting the next slot keeps the other recent entries in theirs |
| Rings.LiveStore.AppendLog | internal/tui/live_store.go:128-138 | the entry joins the log history, the events are untouched |
| Rings.LiveStore.AppendEvent | internal/tui/live_store.go:141-151 | the event joins the event history, the logs are untouched |
| Rings.LiveStore.LogSnapshot | internal/tui/live_store.go:154-166 | the last log entries, as many as fit, in order |
| Rings.LiveStore.EvtSnapshot | internal/tui/live_store.go:169-181 | the last events, as many as fit, in order |
| Rings.LiveStore.LogCount | internal/tui/live_store.go:114-118 | the number of log entries ever received |
| Rings.LiveStore.EventCount | internal/tui/live_store.go:121-125 | the number of events ever received |
| Rings.RingCore.Handle | internal/tui/trace/ring_handler.go:80-84 | the entry joins the history |
| Rings.RingCore.Snapshot | internal/tui/trace/ring_handler.go:109-124 | the last entries, as many as fit, in order |
| Rings.RingCore.Count | internal/tui/trace/ring_handler.go:127-132 | the number of entries ever received |
| Spans.MakeNodes | internal/tui/views/trace_types.go:89-92 | one node for each ID, with the last span of that ID |
| Spans.LastCounts | internal/tui/views/trace_types.go:89-92 | of the spans with one ID the last counts |
| Spans.Belongs | internal/tui/views/trace_types.go:93-104 | a span belongs under its parent if there is such a span, else among the roots |
| Spans.Attach | internal/tui/views/trace_types.go:93-104 | in any map order each node ends up once, under its declared parent, or among the roots when it has none that is known |
| Spans.SortSpanNodes | internal/tui/views/trace_types.go:111-120 | terminates on every forest, sorts the list and the child lists it reaches, permutes nothing else |
| Spans.BuildSpanTree | internal/tui/views/trace_types.go:88-108 | the result is the forest of the spans with sorted roots; child lists are permutations of the attached ones, sorted where reached and otherwise untouched |
| Spans.ShownIffRooted | internal/tui/views/trace_types.go:86-104 | the forest shows exactly the spans whose parent chain ends, each at the depth of its chain |
| Spans.ShownOnce | internal/tui/views/trace_types.go:93-104 | a shown span hangs in one place only |
| Spans.CycleIsNotShown | internal/tui/views/trace_types.go:93-104 | spans on a parent cycle are not shown |
| Spans.ReachesBySteps | internal/tui/views/trace_types.go:115-119 | sorting from a span reaches its children's list, and what its children reach, if it has at least two children, else nothing |
| SpanOrder.VisitedIffReached | internal/tui/views/trace_types.go:111-120 | the sort reaches the children of exactly the spans that, with all spans above, have two or more |
| SpanOrder.ChildrenSortedIff | internal/tui/views/trace_types.go:88-120 | the children of a span are in order in every map order if and only if the sort reaches them or they all start together |
| SpanOrder.BelowOnlyChildUnsorted | internal/tui/views/trace_types.go:115-119 | an example: below an only child a later span comes first |
| SpanOrder.OneForestIff | internal/tui/views/trace_types.go:106-113 | the forest shown is the same in every map order if and only if the roots and the sorted child lists have no two members that start together, and no other shown child list has two members |

## Left out

- Convergence.OneApplySettles: a manifest that declares the reserved field `writeOnlyHash` other than as the hash is excluded; `SettlesIff` says what becomes of it.
- KeyConv.KeyRoundTripIff: Unicode's case tables are not spelled out; letters are any that keep the laws of `Lawful`, which those tables are taken to keep.
- SkillSpecs.ValidateSkillSpec: white space, the form of a semantic version and the packing of a directory are parameters.
- Rings.LiveStore.LogSnapshot: positive capacities only, since the code divides by zero or indexes past the end otherwise.
- Unpack.UnpackTo: a file that exists but cannot be read counts as absent in the code and is not modelled; contents are compared directly instead of by SHA-256; output directories are named, unnamed or named in an uncleaned form, and symbolic links and file modes are not modelled.
- Engine.Engine.Reconcile: covers the sequential phases; the concurrent ones are in `parallel.dfy` and `parallel_run.dfy`, as interleavings of a generic job over the same store.
- RpcMux.SendsNeverBlock: the `done` channel of `Close`, and a second close of it by two read loops, are not modelled; the loss of the connection field in `Close` may happen at any time in the model.
- Controller.NoLostWakeup: the contents of results other than the cycle number, the status tracker, metrics and notifier are not modelled.
- GrantsByKey.ApplySkillGrants: agent lookups see one agent list for the whole run; the listing call per agent is part of that list.
- NaN and infinite numbers, and maps with non-string keys of which two print alike.
- The parsing of the ignore-fields annotation, secret lookup (a fixed partial function) and SHA-256 and JSON (an encoder and a digest, injective where a lemma says so).
- Logging, including the warning for noops that may hide drift.
- The per-kind bodies of the GoClaw provider (REST and RPC plumbing), which appear as the provider contract.
- The command line, display, HTTP server, notifier, source fetching and terminal UI panels: nothing there that would add hard properties.
- Packing a skill into an archive, version comparison, label filtering and metrics.
