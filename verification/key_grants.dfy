/** Set-difference reconciliation by key: skill grants and workstation agent links. */
module GrantsByKey {
  import opened Grants
  import opened Text
  import opened Values

  /** The IDs a pass over these keys acts on. */
  function IdsOf(keys: set<string>, skip: set<string>, ids: map<string, Id>): (r: set<Id>)
    ensures forall x :: x in r <==> exists k :: k in keys && k !in skip && k in ids && ids[k] == x
  {
    set k | k in keys && k !in skip && k in ids :: ids[k]
  }

  lemma IdsOfMore(keys: set<string>, skip: set<string>, ids: map<string, Id>, k: string)
    ensures IdsOf(keys + {k}, skip, ids) == IdsOf(keys, skip, ids) + if k !in skip && k in ids then {ids[k]} else {}
  {
  }

  ghost predicate AllWithin(trail: seq<set<Id>>, low: set<Id>, high: set<Id>) {
    forall i | 0 <= i < |trail| :: low <= trail[i] <= high
  }

  /** Granting an ID keeps an approach exactly when the ID is part of the goal or granted already. */
  lemma GrantApproachesIff(start: set<Id>, trail: seq<set<Id>>, goal: set<Id>, now: set<Id>, id: Id)
    requires LastOf(start, trail) == now
    ensures Approaches(start, trail + [now + {id}], goal) <==> Approaches(start, trail, goal) && id in goal + now
  {
    var more := trail + [now + {id}];
    assert more[..|more| - 1] == trail;
    if id in goal {
      OneAdded(now, goal, id);
    } else if id in now {
      assert now + {id} == now;
    } else {
      assert id in (now + {id}) - goal && id !in now - goal;
    }
  }

  lemma RevokeApproaches(start: set<Id>, trail: seq<set<Id>>, goal: set<Id>, now: set<Id>, id: Id)
    requires Sound(start, trail, goal, now) && id !in goal
    ensures Sound(start, trail + [now - {id}], goal, now - {id}) && Sound(start, trail + [now], goal, now)
  {
    OneRemoved(now, goal, id);
    SoundExtends(start, trail, goal, now, now - {id});
    SoundExtends(start, trail, goal, now, now);
  }

  /** The state of a pass that has granted the IDs in `done`. */
  ghost predicate GrantedSoFar(start: set<Id>, trail: seq<set<Id>>, now: set<Id>, goal: set<Id>, done: set<Id>) {
    && LastOf(start, trail) == now && now == start + done && AllWithin(trail, start, now)
    && (Approaches(start, trail, goal) <==> done <= goal + start)
  }

  lemma GrantedMore(start: set<Id>, trail: seq<set<Id>>, now: set<Id>, goal: set<Id>, done: set<Id>, id: Id)
    requires GrantedSoFar(start, trail, now, goal, done)
    ensures GrantedSoFar(start, trail + [now + {id}], now + {id}, goal, done + {id})
  {
    GrantApproachesIff(start, trail, goal, now, id);
    assert id in goal + now ==> (done + {id} <= goal + start <==> done <= goal + start);
  }

  lemma GrantedNoMore(start: set<Id>, trail: seq<set<Id>>, now: set<Id>, goal: set<Id>, done: set<Id>)
    requires GrantedSoFar(start, trail, now, goal, done)
    ensures GrantedSoFar(start, trail + [now], now, goal, done)
  {
    var more := trail + [now];
    assert more[..|more| - 1] == trail;
  }

  /** Grants for the keys not skipped, in the given order; a key that does not resolve or a failed call ends the pass.
      The pass approaches the goal if it adds nothing but what is in the goal or there already, and if it succeeds only
      then. */
  method GrantKeys(server: Server, keys: seq<string>, skip: set<string>, ids: map<string, Id>, ghost goal: set<Id>)
    returns (ok: bool, ghost trail: seq<set<Id>>)
    modifies server
    ensures server.trail == old(server.trail) + trail
    ensures exists done :: && done <= IdsOf(Elements(keys), skip, ids)
                           && GrantedSoFar(old(server.granted), trail, server.granted, goal, done)
    ensures ok ==> GrantedSoFar(old(server.granted), trail, server.granted, goal, IdsOf(Elements(keys), skip, ids))
    ensures ok <==> server.failures == old(server.failures) && Elements(keys) - skip <= ids.Keys
    ensures old(server.failures) <= server.failures && server.missing == old(server.missing)
    ensures ok && trail == [] <==> Elements(keys) <= skip
  {
    trail := [];
    ghost var done: set<Id> := {};
    for i := 0 to |keys|
      invariant server.trail == old(server.trail) + trail
      invariant server.failures == old(server.failures) && server.missing == old(server.missing)
      invariant GrantedSoFar(old(server.granted), trail, server.granted, goal, done)
      invariant done == IdsOf(Elements(keys[..i]), skip, ids) <= IdsOf(Elements(keys), skip, ids)
      invariant Elements(keys[..i]) - skip <= ids.Keys
      invariant trail == [] <==> Elements(keys[..i]) <= skip
    {
      var k := keys[i];
      assert keys[..i + 1] == keys[..i] + [k];
      ElementsExtend(keys[..i], k);
      IdsOfMore(Elements(keys[..i]), skip, ids, k);
      assert k in Elements(keys);
      if k in skip {
        continue;
      }
      if k !in ids {
        return false, trail;
      }
      GrantedMore(old(server.granted), trail, server.granted, goal, done, ids[k]);
      GrantedNoMore(old(server.granted), trail, server.granted, goal, done);
      ok := server.Grant(ids[k]);
      trail := trail + [server.granted];
      if !ok {
        return;
      }
      done := done + {ids[k]};
    }
    assert keys[..|keys|] == keys;
    ok := true;
  }

  /** No call has failed since, nor found nothing to revoke where that is a failure. */
  ghost predicate AllDone(server: Server, failures: nat, missing: nat, goneIsFine: bool)
    reads server
  {
    server.failures == failures && (goneIsFine || server.missing == missing)
  }

  /** The state of a pass that has gone through the keys in `done` and is to revoke the IDs in `all`. */
  ghost predicate RevokedSoFar(start: set<Id>, trail: seq<set<Id>>, now: set<Id>, goal: set<Id>, done: set<string>,
                               skip: set<string>, ids: map<string, Id>, all: set<Id>) {
    && Sound(start, trail, goal, now) && now == start - IdsOf(done, skip, ids)
    && IdsOf(done, skip, ids) <= all && done - skip <= ids.Keys && AllWithin(trail, start - all, start)
    && (trail == [] <==> done <= skip)
  }

  lemma RevokedMore(start: set<Id>, trail: seq<set<Id>>, now: set<Id>, goal: set<Id>, done: set<string>,
                    skip: set<string>, ids: map<string, Id>, all: set<Id>, k: string)
    requires RevokedSoFar(start, trail, now, goal, done, skip, ids, all) && all !! goal
    requires k in ids && k !in skip ==> ids[k] in all
    ensures k in skip ==> RevokedSoFar(start, trail, now, goal, done + {k}, skip, ids, all)
    ensures k !in skip && k in ids ==>
              && RevokedSoFar(start, trail + [now - {ids[k]}], now - {ids[k]}, goal, done + {k}, skip, ids, all)
              && Sound(start, trail + [now], goal, now) && AllWithin(trail + [now], start - all, start)
  {
    IdsOfMore(done, skip, ids, k);
    if k !in skip && k in ids {
      RevokeApproaches(start, trail, goal, now, ids[k]);
    }
  }

  method RevokeKeys(server: Server, keys: seq<string>, skip: set<string>, ids: map<string, Id>, goneIsFine: bool,
                    ghost goal: set<Id>)
    returns (ok: bool, ghost trail: seq<set<Id>>)
    requires IdsOf(Elements(keys), skip, ids) !! goal
    modifies server
    ensures server.trail == old(server.trail) + trail && Sound(old(server.granted), trail, goal, server.granted)
    ensures var removed := IdsOf(Elements(keys), skip, ids);
            && AllWithin(trail, old(server.granted) - removed, old(server.granted))
            && old(server.granted) - removed <= server.granted <= old(server.granted)
            && (ok ==> server.granted == old(server.granted) - removed)
    ensures ok <==> Elements(keys) - skip <= ids.Keys
                    && AllDone(server, old(server.failures), old(server.missing), goneIsFine)
    ensures old(server.failures) <= server.failures && old(server.missing) <= server.missing
    ensures ok && trail == [] <==> Elements(keys) <= skip
  {
    trail := [];
    ghost var start, all := server.granted, IdsOf(Elements(keys), skip, ids);
    for i := 0 to |keys|
      invariant server.trail == old(server.trail) + trail && old(server.missing) <= server.missing
      invariant AllDone(server, old(server.failures), old(server.missing), goneIsFine)
      invariant RevokedSoFar(start, trail, server.granted, goal, Elements(keys[..i]), skip, ids, all)
    {
      var k := keys[i];
      assert keys[..i + 1] == keys[..i] + [k];
      ElementsExtend(keys[..i], k);
      assert k in Elements(keys);
      if k in skip {
        RevokedMore(start, trail, server.granted, goal, Elements(keys[..i]), skip, ids, all, k);
        continue;
      }
      if k !in ids {
        return false, trail;
      }
      RevokedMore(start, trail, server.granted, goal, Elements(keys[..i]), skip, ids, all, k);
      var reply := server.Revoke(ids[k]);
      trail := trail + [server.granted];
      if reply.Failed? || (reply.NotFound? && !goneIsFine) {
        return false, trail;
      }
    }
    assert keys[..|keys|] == keys;
    ok := true;
  }

  ghost function Now(current: Option<seq<string>>): set<string> {
    if current.Some? then Elements(current.value) else {}
  }

  ghost function Added(current: set<string>, desired: set<string>, ids: map<string, Id>): set<Id> {
    IdsOf(desired, current, ids)
  }

  ghost function Removed(current: set<string>, desired: set<string>, ids: map<string, Id>): set<Id> {
    IdsOf(current, desired, ids)
  }

  /** What a run by key promises, from `start` to `end` along `trail`: it stays between, it approaches its goal unless
      it adds what it will remove again, and when it succeeds it is at the goal with every key resolved. */
  ghost predicate Synced(start: set<Id>, trail: seq<set<Id>>, end: set<Id>, ok: bool,
                         added: set<Id>, removed: set<Id>) {
    && AllWithin(trail, start - removed, start + added) && start - removed <= end <= start + added
    && (added * removed <= start ==> Sound(start, trail, start + added - removed, end))
    && (ok ==> end == start + added - removed)
    && (ok ==> (Sound(start, trail, start + added - removed, end) <==> added * removed <= start))
  }

  lemma {:induction false} ApproachPrefix(start: set<Id>, a: seq<set<Id>>, b: seq<set<Id>>, goal: set<Id>)
    requires Approaches(start, a + b, goal)
    ensures Approaches(start, a, goal)
    decreases |b|
  {
    if b == [] {
      assert a + b == a;
    } else {
      assert (a + b)[..|a + b| - 1] == a + b[..|b| - 1];
      ApproachPrefix(start, a, b[..|b| - 1], goal);
    }
  }

  lemma FirstPass(start: set<Id>, trail: seq<set<Id>>, end: set<Id>, added: set<Id>, removed: set<Id>, done: set<Id>)
    requires done <= added && GrantedSoFar(start, trail, end, start + added - removed, done)
    ensures Synced(start, trail, end, false, added, removed)
  {
  }

  lemma BothPasses(start: set<Id>, a: seq<set<Id>>, mid: set<Id>, b: seq<set<Id>>, end: set<Id>, ok: bool,
                   added: set<Id>, removed: set<Id>)
    requires GrantedSoFar(start, a, mid, start + added - removed, added)
    requires Sound(mid, b, start + added - removed, end) && AllWithin(b, mid - removed, mid)
    requires mid - removed <= end <= mid && (ok ==> end == mid - removed)
    ensures Synced(start, a + b, end, ok, added, removed)
  {
    var goal := start + added - removed;
    if Approaches(start, a + b, goal) {
      ApproachPrefix(start, a, b, goal);
    }
    if Approaches(start, a, goal) {
      RetriesCompose(start, a, b, goal);
    }
    assert added <= goal + start <==> added * removed <= start;
  }

  /** All additions, then all removals unless the current keys are unknown. */
  method SyncByKey(server: Server, current: Option<seq<string>>, desired: seq<string>, ids: map<string, Id>,
                   goneIsFine: bool)
    returns (ok: bool, ghost trail: seq<set<Id>>)
    modifies server
    ensures server.trail == old(server.trail) + trail
    ensures var now, want := Now(current), Elements(desired);
            && Synced(old(server.granted), trail, server.granted, ok, Added(now, want, ids), Removed(now, want, ids))
            && (ok <==> (now - want) + (want - now) <= ids.Keys
                        && AllDone(server, old(server.failures), old(server.missing), goneIsFine))
            && (current.Some? ==> (ok && trail == [] <==> want == now))
  {
    var now := if current.Some? then Elements(current.value) else {};
    ghost var want := Elements(desired);
    ghost var added, removed := Added(now, want, ids), Removed(now, want, ids);
    ghost var start := server.granted;
    ghost var goal := start + added - removed;
    ok, trail := GrantKeys(server, desired, now, ids, goal);
    ghost var done :| done <= added && GrantedSoFar(start, trail, server.granted, goal, done);
    FirstPass(start, trail, server.granted, added, removed, done);
    if !ok {
      return;
    }
    ghost var mid, more := server.granted, [];
    if current.Some? {
      ok, more := RevokeKeys(server, current.value, Elements(desired), ids, goneIsFine, goal);
    }
    BothPasses(start, trail, mid, more, server.granted, ok, added, removed);
    Regroup(old(server.trail), trail, more);
    trail := trail + more;
  }

  predicate Injective(ids: map<string, Id>) {
    forall j, k | j in ids && k in ids && ids[j] == ids[k] :: j == k
  }

  /** Main result for reconciliation by key: when keys stand for distinct IDs and the current keys are those of the
      granted IDs (apart from grants of others), a successful run leaves exactly the desired keys' IDs, and
      every state on the way lies between the start and that goal. */
  lemma KeySyncExact(others: set<Id>, current: set<string>, desired: set<string>, ids: map<string, Id>)
    requires Injective(ids) && current <= ids.Keys && desired <= ids.Keys && others !! IdsOf(current + desired, {}, ids)
    ensures var start, goal := others + IdsOf(current, {}, ids), others + IdsOf(desired, {}, ids);
            var added, removed := IdsOf(desired, current, ids), IdsOf(current, desired, ids);
            && start + added - removed == goal
            && forall t | start - removed <= t <= start + added :: Between(start, goal, t)
  {
    var start, goal := others + IdsOf(current, {}, ids), others + IdsOf(desired, {}, ids);
    var added, removed := IdsOf(desired, current, ids), IdsOf(current, desired, ids);
    forall x
      ensures x in start + added - removed <==> x in goal
      ensures x in start * goal ==> x in start - removed
      ensures x in added ==> x in goal
    {
      KeySyncAt(others, current, desired, ids, x);
    }
  }

  lemma KeySyncAt(others: set<Id>, current: set<string>, desired: set<string>, ids: map<string, Id>, x: Id)
    requires Injective(ids) && current <= ids.Keys && desired <= ids.Keys && others !! IdsOf(current + desired, {}, ids)
    ensures var start, goal := others + IdsOf(current, {}, ids), others + IdsOf(desired, {}, ids);
            var added, removed := IdsOf(desired, current, ids), IdsOf(current, desired, ids);
            && (x in start + added - removed <==> x in goal)
            && (x in removed ==> x !in goal)
            && (x in added ==> x in goal)
  {
  }

  /** Workstation agent links: `current` is None where the links cannot be listed, and then nothing is unlinked. */
  method ReconcileAgentLinks(server: Server, current: Option<seq<string>>, desired: seq<string>,
                             agents: map<string, Id>)
    returns (ok: bool, ghost trail: seq<set<Id>>)
    modifies server
    ensures server.trail == old(server.trail) + trail
    ensures var now, want := Now(current), Elements(desired);
            && Synced(old(server.granted), trail, server.granted, ok, Added(now, want, agents),
                      Removed(now, want, agents))
            && (ok <==> (now - want) + (want - now) <= agents.Keys
                        && AllDone(server, old(server.failures), old(server.missing), false))
            && (current.Some? ==> (ok && trail == [] <==> want == now))
  {
    ok, trail := SyncByKey(server, current, desired, agents, false);
  }

  /** With distinct IDs for keys, the keys whose IDs a successful run leaves are the desired ones, so that a rerun on a
      truthful listing of them makes no call. */
  lemma LinksRerunIdle(desired: set<string>, ids: map<string, Id>)
    requires Injective(ids) && desired <= ids.Keys
    ensures (set k | k in ids && ids[k] in IdsOf(desired, {}, ids)) == desired
  {
    forall k | k in ids && ids[k] in IdsOf(desired, {}, ids)
      ensures k in desired
    {
      var j :| j in desired && ids[j] == ids[k];
    }
    forall k | k in desired
      ensures ids[k] in IdsOf(desired, {}, ids)
    {
    }
  }

  /** A rerun on a truthful listing of what a successful run has left makes no call. */
  method LinksRerun(server: Server, listed: seq<string>, desired: seq<string>, agents: map<string, Id>)
    returns (ok: bool, ghost trail: seq<set<Id>>)
    requires Injective(agents) && Elements(desired) <= agents.Keys
    requires server.granted == IdsOf(Elements(desired), {}, agents)
    requires Elements(listed) == set k | k in agents && agents[k] in server.granted
    modifies server
    ensures ok && trail == [] && server.trail == old(server.trail) && server.granted == old(server.granted)
  {
    LinksRerunIdle(Elements(desired), agents);
    ok, trail := ReconcileAgentLinks(server, Some(listed), desired, agents);
  }

  // Skill grants.

  /** An agent as the server lists it; `mine` says that it belongs to the tenant being reconciled. */
  datatype Agent = Agent(key: string, id: Id, mine: bool)

  /** The first listed agent with this key and some ID. */
  function Resolve(agents: seq<Agent>, key: string): Option<Id> {
    if agents == [] then None
    else if agents[0].key == key && agents[0].id != "" then Some(agents[0].id)
    else Resolve(agents[1..], key)
  }

  lemma {:induction false} ResolvesToFirst(agents: seq<Agent>, key: string, i: nat)
    requires i < |agents| && agents[i].key == key && agents[i].id != ""
    requires forall j | 0 <= j < i :: agents[j].key != key || agents[j].id == ""
    ensures Resolve(agents, key) == Some(agents[i].id)
  {
    if i > 0 {
      ResolvesToFirst(agents[1..], key, i - 1);
    }
  }

  function AgentIds(agents: seq<Agent>): map<string, Id> {
    map a | a in agents && Resolve(agents, a.key).Some? :: a.key := Resolve(agents, a.key).value
  }

  predicate Holds(a: Agent, granted: set<Id>) {
    a.mine && a.id != "" && a.key != "" && a.id in granted
  }

  /** The keys of the tenant's agents that hold the grant. */
  function Holders(agents: seq<Agent>, granted: set<Id>): set<string> {
    set a | a in agents && Holds(a, granted) :: a.key
  }

  lemma HoldersExtend(agents: seq<Agent>, a: Agent, granted: set<Id>)
    ensures Holders(agents + [a], granted) == Holders(agents, granted) + if Holds(a, granted) then {a.key} else {}
  {
  }

  method ListHolders(server: Server, agents: seq<Agent>) returns (keys: seq<string>)
    ensures Elements(keys) == Holders(agents, server.granted)
  {
    keys := [];
    for i := 0 to |agents|
      invariant Elements(keys) == Holders(agents[..i], server.granted)
    {
      var a := agents[i];
      assert agents[..i + 1] == agents[..i] + [a];
      HoldersExtend(agents[..i], a, server.granted);
      ElementsExtend(keys, a.key);
      if a.mine && a.id != "" && a.key != "" && a.id in server.granted {
        keys := keys + [a.key];
      }
    }
    assert agents[..|agents|] == agents;
  }

  method InSomeOrder(keys: set<string>) returns (order: seq<string>)
    ensures Enumerates(order, keys)
  {
    var todo := keys;
    order := [];
    while todo != {}
      invariant todo <= keys && Enumerates(order, keys - todo)
      decreases |todo|
    {
      var k :| k in todo;
      EnumeratesMore(order, keys - todo, k);
      assert keys - todo + {k} == keys - (todo - {k});
      todo := todo - {k};
      order := order + [k];
    }
  }

  lemma {:induction false} ResolveFinds(agents: seq<Agent>, a: Agent)
    requires a in agents && a.id != ""
    ensures Resolve(agents, a.key).Some?
    ensures exists b :: b in agents && b.key == a.key && b.id != "" && Resolve(agents, a.key) == Some(b.id)
  {
    if !(agents[0].key == a.key && agents[0].id != "") {
      ResolveFinds(agents[1..], a);
    } else {
      assert agents[0] in agents;
    }
  }

  /** `agents` is None where a lookup failed. */
  method ApplySkillGrants(server: Server, agents: Option<seq<Agent>>, desired: seq<string>)
    returns (ok: bool, ghost trail: seq<set<Id>>)
    modifies server
    ensures server.trail == old(server.trail) + trail
    ensures agents.None? || !(Elements(desired) <= AgentIds(agents.value).Keys) ==>
              !ok && trail == [] && server.granted == old(server.granted)
    ensures agents.Some? && Elements(desired) <= AgentIds(agents.value).Keys ==>
              var ids, now := AgentIds(agents.value), Holders(agents.value, old(server.granted));
              && Synced(old(server.granted), trail, server.granted, ok,
                        Added(now, Elements(desired), ids), Removed(now, Elements(desired), ids))
              && (ok ==> server.granted == SkillResult(agents.value, old(server.granted), Elements(desired)))
              && (ok <==> now - Elements(desired) <= ids.Keys && server.failures == old(server.failures))
              && (ok && trail == [] <==> Elements(desired) == now)
  {
    trail := [];
    if agents.None? {
      return false, trail;
    }
    var ids := AgentIds(agents.value);
    var current := ListHolders(server, agents.value);
    for i := 0 to |desired|
      invariant Elements(desired[..i]) <= ids.Keys
    {
      assert desired[i] in Elements(desired);
      if desired[i] !in ids {
        return false, trail;
      }
      assert Elements(desired[..i + 1]) == Elements(desired[..i]) + {desired[i]};
    }
    assert desired[..|desired|] == desired;
    var wanted := InSomeOrder(Elements(desired));
    current := InSomeOrder(Elements(current));
    ok, trail := SyncByKey(server, Some(current), wanted, ids, true);
  }

  /** What a successful run leaves granted. */
  function SkillResult(agents: seq<Agent>, granted: set<Id>, desired: set<string>): set<Id> {
    var ids, now := AgentIds(agents), Holders(agents, granted);
    granted + IdsOf(desired, now, ids) - IdsOf(now, desired, ids)
  }

  /** An agent of the tenant that a grant can be listed for. */
  predicate Mine(agents: seq<Agent>, a: Agent) {
    a in agents && a.mine && a.id != "" && a.key != ""
  }

  /** The agent's key resolves to the agent's ID, and no other listed key does. */
  predicate OwnKey(agents: seq<Agent>, a: Agent) {
    && a.key in AgentIds(agents) && AgentIds(agents)[a.key] == a.id
    && forall k | k in AgentIds(agents) && AgentIds(agents)[k] == a.id :: k == a.key
  }

  ghost predicate ResolvesToOwn(agents: seq<Agent>) {
    forall a | Mine(agents, a) :: OwnKey(agents, a)
  }

  predicate ExactFor(agents: seq<Agent>, granted: set<Id>, desired: set<string>, a: Agent) {
    a.id in SkillResult(agents, granted, desired) <==> a.key in desired
  }

  lemma OwnIsExact(agents: seq<Agent>, granted: set<Id>, desired: set<string>, a: Agent)
    requires ResolvesToOwn(agents) && desired <= AgentIds(agents).Keys && Mine(agents, a)
    ensures ExactFor(agents, granted, desired, a)
  {
    assert a.key in Holders(agents, granted) <==> a.id in granted by {
      if a.key in Holders(agents, granted) {
        var b :| b in agents && Holds(b, granted) && b.key == a.key;
        assert Mine(agents, b);
      }
      assert Holds(a, granted) <==> a.id in granted;
    }
  }

  lemma MineResolves(agents: seq<Agent>, a: Agent)
    requires Mine(agents, a)
    ensures a.key in AgentIds(agents)
  {
    ResolveFinds(agents, a);
  }

  lemma NotOwnIsInexact(agents: seq<Agent>, a: Agent) returns (granted: set<Id>, desired: set<string>)
    requires Mine(agents, a) && !OwnKey(agents, a)
    ensures desired <= AgentIds(agents).Keys && !ExactFor(agents, granted, desired, a)
  {
    var ids := AgentIds(agents);
    granted := {};
    MineResolves(agents, a);
    assert Holders(agents, granted) == {};
    if k :| k in ids && ids[k] == a.id && k != a.key {
      desired := {k};
      assert a.id in IdsOf(desired, {}, ids);
    } else {
      desired := {a.key};
      assert a.id !in IdsOf(desired, {}, ids);
    }
  }

  /** Main result for skills: success always leaves the grant with exactly the tenant's agents whose key is desired, if
      and only if each of their keys resolves to its own agent and no other key does. */
  lemma SkillGrantsExactIff(agents: seq<Agent>)
    ensures (forall granted, desired, a | desired <= AgentIds(agents).Keys && Mine(agents, a) ::
               ExactFor(agents, granted, desired, a))
            <==> ResolvesToOwn(agents)
  {
    if ResolvesToOwn(agents) {
      forall granted, desired, a | desired <= AgentIds(agents).Keys && Mine(agents, a)
        ensures ExactFor(agents, granted, desired, a)
      {
        OwnIsExact(agents, granted, desired, a);
      }
    } else {
      var a :| Mine(agents, a) && !OwnKey(agents, a);
      var granted, desired := NotOwnIsInexact(agents, a);
    }
  }

  /** Then the run also approaches its goal at every call: nothing it adds is removed again. */
  lemma SkillRunApproaches(agents: seq<Agent>, granted: set<Id>, desired: set<string>)
    requires ResolvesToOwn(agents)
    ensures var ids, now := AgentIds(agents), Holders(agents, granted);
            Added(now, desired, ids) * Removed(now, desired, ids) <= granted
  {
    var ids, now := AgentIds(agents), Holders(agents, granted);
    forall x | x in Added(now, desired, ids) * Removed(now, desired, ids)
      ensures x in granted
    {
      var k :| k in now && k in ids && ids[k] == x;
      var b :| b in agents && Holds(b, granted) && b.key == k;
      assert Mine(agents, b);
    }
  }

  /** And after a success a rerun makes no call, if and only if every desired key is that of one of the tenant's agents:
      a key that only another tenant's agent has is granted again by every run. */
  lemma SkillRerunIdleIff(agents: seq<Agent>, granted: set<Id>, desired: set<string>)
    requires ResolvesToOwn(agents) && desired <= AgentIds(agents).Keys
    ensures Holders(agents, SkillResult(agents, granted, desired)) == desired <==>
            forall k | k in desired :: HasMine(agents, k)
  {
    var holders := Holders(agents, SkillResult(agents, granted, desired));
    forall k
      ensures k in holders <==> k in desired && HasMine(agents, k)
    {
      HolderOfResult(agents, granted, desired, k);
    }
  }

  ghost predicate HasMine(agents: seq<Agent>, k: string) {
    exists a :: Mine(agents, a) && a.key == k
  }

  lemma HolderOfResult(agents: seq<Agent>, granted: set<Id>, desired: set<string>, k: string)
    requires ResolvesToOwn(agents) && desired <= AgentIds(agents).Keys
    ensures k in Holders(agents, SkillResult(agents, granted, desired)) <==>
            k in desired && HasMine(agents, k)
  {
    forall a | Mine(agents, a)
      ensures Holds(a, SkillResult(agents, granted, desired)) <==> a.key in desired
    {
      OwnIsExact(agents, granted, desired, a);
    }
    if k in Holders(agents, SkillResult(agents, granted, desired)) {
      var b :| b in agents && Holds(b, SkillResult(agents, granted, desired)) && b.key == k;
      assert Mine(agents, b);
    }
  }

  /** The condition matters: a key that another tenant's agent uses as well resolves to the wrong one, and a grant
      that is no longer wanted stays. */
  lemma SharedKeyKeepsGrant()
    ensures exists agents, granted, a :: && a in agents && Holds(a, granted)
              && a.id in SkillResult(agents, granted, {})
  {
    var a, b := Agent("k", "2", true), Agent("k", "1", false);
    var agents := [b, a];
    assert Resolve(agents, "k") == Some("1");
    assert AgentIds(agents) == map["k" := "1"];
    assert a in agents && Holds(a, {"2"});
    assert "2" in SkillResult(agents, {"2"}, {});
  }
}
