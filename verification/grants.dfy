/** Progress of set-difference reconciliation against a server whose calls may fail, and may have taken effect even when
    they report failure; and the grants of an MCP server. */
module Grants {
  import opened Text
  import opened Values

  type Id = string

  // Progress towards a goal.

  /** s lies between start and goal: it has what they share and nothing that neither has. */
  predicate Between(start: set<Id>, goal: set<Id>, s: set<Id>) {
    start * goal <= s <= start + goal
  }

  function Distance(s: set<Id>, goal: set<Id>): nat {
    |s - goal| + |goal - s|
  }

  /** t has lost something unwanted or gained something wanted since s, and moved nothing else. */
  predicate Closer(t: set<Id>, s: set<Id>, goal: set<Id>) {
    t - goal <= s - goal && goal - t <= goal - s && t != s
  }

  function LastOf(start: set<Id>, trail: seq<set<Id>>): set<Id> {
    if trail == [] then start else trail[|trail| - 1]
  }

  /** Each state in the trail is the one before it, or closer to the goal. */
  ghost predicate Approaches(start: set<Id>, trail: seq<set<Id>>, goal: set<Id>) {
    trail == [] ||
    (&& Approaches(start, trail[..|trail| - 1], goal)
     && var s, t := LastOf(start, trail[..|trail| - 1]), trail[|trail| - 1];
        t == s || Closer(t, s, goal))
  }

  function Changes(start: set<Id>, trail: seq<set<Id>>): nat {
    if trail == [] then 0
    else Changes(start, trail[..|trail| - 1])
         + if trail[|trail| - 1] == LastOf(start, trail[..|trail| - 1]) then 0 else 1
  }

  lemma SmallerSubset(a: set<Id>, b: set<Id>)
    requires a <= b
    ensures |a| <= |b| && (a != b ==> |a| < |b|)
  {
    assert b == a + (b - a);
    assert |b| == |a| + |b - a|;
  }

  lemma CloserShrinks(t: set<Id>, s: set<Id>, goal: set<Id>)
    requires Closer(t, s, goal)
    ensures Distance(t, goal) < Distance(s, goal)
  {
    SmallerSubset(t - goal, s - goal);
    SmallerSubset(goal - t, goal - s);
    if x :| x in t && x !in s {
      assert x !in s - goal && x !in t - goal;
      assert x in goal - s && x !in goal - t;
    } else if x :| x in s && x !in t {
      assert x !in goal - s && x !in goal - t;
      assert x in s - goal && x !in t - goal;
    }
  }

  /** Main result: whatever calls fail and wherever the run stops, every state on the way lies between the start and the
      goal, and the calls that changed anything number at most the distance covered. */
  lemma {:induction false} ApproachIsMonotone(start: set<Id>, trail: seq<set<Id>>, goal: set<Id>)
    requires Approaches(start, trail, goal)
    ensures forall s | s in trail :: Between(start, goal, s)
    ensures Between(start, goal, LastOf(start, trail))
    ensures Changes(start, trail) + Distance(LastOf(start, trail), goal) <= Distance(start, goal)
  {
    if trail != [] {
      var before := trail[..|trail| - 1];
      ApproachIsMonotone(start, before, goal);
      var s, t := LastOf(start, before), trail[|trail| - 1];
      if t != s {
        CloserShrinks(t, s, goal);
        CloserBetween(start, goal, s, t);
      }
      assert trail == before + [t];
    }
  }

  lemma CloserBetween(start: set<Id>, goal: set<Id>, s: set<Id>, t: set<Id>)
    requires Between(start, goal, s) && Closer(t, s, goal)
    ensures Between(start, goal, t)
  {
    forall x | x in t
      ensures x in start + goal
    {
      assert x in t - goal ==> x in s - goal;
    }
    forall x | x in start * goal
      ensures x in t
    {
      assert x in goal - t ==> x in goal - s;
    }
  }

  lemma ApproachExtends(start: set<Id>, trail: seq<set<Id>>, goal: set<Id>, t: set<Id>)
    requires Approaches(start, trail, goal)
    requires t == LastOf(start, trail) || Closer(t, LastOf(start, trail), goal)
    ensures Approaches(start, trail + [t], goal)
  {
  }

  /** Runs that failed on the way and were tried again are one approach. */
  lemma {:induction false} RetriesCompose(start: set<Id>, a: seq<set<Id>>, b: seq<set<Id>>, goal: set<Id>)
    requires Approaches(start, a, goal) && Approaches(LastOf(start, a), b, goal)
    ensures Approaches(start, a + b, goal) && LastOf(start, a + b) == LastOf(LastOf(start, a), b)
  {
    if b == [] {
      assert a + b == a;
    } else {
      var before, t := b[..|b| - 1], b[|b| - 1];
      RetriesCompose(start, a, before, goal);
      ApproachExtends(start, a + before, goal, t);
      assert a + b == (a + before) + [t];
    }
  }

  // The server.

  datatype Reply = Done | NotFound | Failed

  /** One server object's grants.  `trail` records the state after each mutating call; `failures` and `missing` count
      the calls that failed and those that found nothing to revoke. */
  class Server {
    var granted: set<Id>
    ghost var trail: seq<set<Id>>
    ghost var failures: nat
    ghost var missing: nat

    method Grant(id: Id) returns (ok: bool)
      modifies this
      ensures granted == old(granted) + {id} || (!ok && granted == old(granted))
      ensures trail == old(trail) + [granted] && missing == old(missing)
      ensures failures == old(failures) + if ok then 0 else 1
    {
      var reached := *;
      ok := *;
      failures := failures + if ok then 0 else 1;
      if ok || reached {
        granted := granted + {id};
      }
      trail := trail + [granted];
    }

    method Revoke(id: Id) returns (reply: Reply)
      modifies this
      ensures granted == old(granted) - {id} || (reply.Failed? && granted == old(granted))
      ensures reply.NotFound? ==> granted == old(granted)
      ensures trail == old(trail) + [granted]
      ensures failures == old(failures) + if reply.Failed? then 1 else 0
      ensures missing == old(missing) + if reply.NotFound? then 1 else 0
    {
      var reached, reported := *, *;
      if id !in granted {
        reply := NotFound;
      } else if reached {
        granted := granted - {id};
        reply := if reported then Done else Failed;
      } else {
        reply := Failed;
      }
      failures := failures + if reply.Failed? then 1 else 0;
      missing := missing + if reply.NotFound? then 1 else 0;
      trail := trail + [granted];
    }
  }

  // What a run is asked for.

  function NonEmpty(ids: seq<Id>): (r: set<Id>)
    ensures forall x :: x in r <==> x in ids && x != ""
  {
    set x | x in ids && x != ""
  }

  function Images(keys: seq<string>, agents: map<string, Id>): (r: set<Id>)
    requires forall k | k in keys :: k in agents
    ensures forall x :: x in r <==> exists k :: k in keys && agents[k] == x
  {
    set k | k in keys :: agents[k]
  }

  /** The goal of a run: the wanted IDs, and whatever grants name no agent (those are not looked at). */
  function Goal(start: set<Id>, wanted: set<Id>): set<Id> {
    wanted + start * {""}
  }

  ghost predicate Sound(start: set<Id>, trail: seq<set<Id>>, goal: set<Id>, now: set<Id>) {
    Approaches(start, trail, goal) && LastOf(start, trail) == now
  }

  lemma SoundCompose(start: set<Id>, a: seq<set<Id>>, middle: set<Id>, b: seq<set<Id>>, end: set<Id>, goal: set<Id>)
    requires Sound(start, a, goal, middle) && Sound(middle, b, goal, end)
    ensures Sound(start, a + b, goal, end)
  {
    RetriesCompose(start, a, b, goal);
  }

  lemma SoundExtends(start: set<Id>, trail: seq<set<Id>>, goal: set<Id>, s: set<Id>, t: set<Id>)
    requires Sound(start, trail, goal, s) && (t == s || Closer(t, s, goal))
    ensures Sound(start, trail + [t], goal, t)
  {
  }

  lemma OneAdded(now: set<Id>, goal: set<Id>, id: Id)
    requires id in goal
    ensures now + {id} == now || Closer(now + {id}, now, goal)
  {
  }

  lemma OneRemoved(now: set<Id>, goal: set<Id>, id: Id)
    requires id !in goal
    ensures now - {id} == now || Closer(now - {id}, now, goal)
  {
  }

  lemma AddedSoFar(start: set<Id>, wanted: set<Id>, todo: set<Id>, id: Id)
    requires id in todo && todo <= wanted
    ensures start + (wanted - todo) + {id} == start + (wanted - (todo - {id}))
    ensures id in start ==> start + (wanted - todo) == start + (wanted - (todo - {id}))
  {
  }

  lemma RemovedSoFar(start: set<Id>, current: set<Id>, wanted: set<Id>, todo: set<Id>, id: Id)
    requires id in todo && todo <= current
    ensures id !in wanted ==> start - ((current - todo) - wanted) - {id} == start - ((current - (todo - {id})) - wanted)
    ensures id in wanted ==> start - ((current - todo) - wanted) == start - ((current - (todo - {id})) - wanted)
  {
  }

  /** How far the additions have come. */
  ghost predicate GrantedUpTo(start: set<Id>, trail: seq<set<Id>>, now: set<Id>, goal: set<Id>,
                              current: set<Id>, wanted: set<Id>, todo: set<Id>) {
    && todo <= wanted && now == start + (wanted - todo) && Sound(start, trail, goal, now)
    && |trail| + |todo - current| == |wanted - current| && (wanted <= current ==> trail == [])
  }

  lemma GrantStep(start: set<Id>, trail: seq<set<Id>>, now: set<Id>, goal: set<Id>,
                  current: set<Id>, wanted: set<Id>, todo: set<Id>, id: Id)
    requires GrantedUpTo(start, trail, now, goal, current, wanted, todo) && id in todo
    requires wanted <= goal && current <= start
    ensures id in current ==> GrantedUpTo(start, trail, now, goal, current, wanted, todo - {id})
    ensures id !in current ==>
              && GrantedUpTo(start, trail + [now + {id}], now + {id}, goal, current, wanted, todo - {id})
              && Sound(start, trail + [now], goal, now)
  {
    OneLess(todo, current, id);
    AddedSoFar(start, wanted, todo, id);
    OneAdded(now, goal, id);
    SoundExtends(start, trail, goal, now, now + {id});
    SoundExtends(start, trail, goal, now, now);
  }

  /** Grants to add, one call each, in any order; stops at the first failure. */
  method GrantMissing(server: Server, current: set<Id>, wanted: set<Id>, ghost goal: set<Id>)
    returns (ok: bool, ghost trail: seq<set<Id>>)
    requires wanted <= goal && current <= server.granted
    modifies server
    ensures server.trail == old(server.trail) + trail
    ensures Sound(old(server.granted), trail, goal, server.granted)
    ensures old(server.granted) <= server.granted <= old(server.granted) + wanted
    ensures ok ==> server.granted == old(server.granted) + wanted && |trail| == |wanted - current|
    ensures wanted <= current ==> ok && trail == []
    ensures old(server.failures) <= server.failures && (ok <==> server.failures == old(server.failures))
  {
    var todo := wanted;
    trail := [];
    while todo != {}
      invariant server.trail == old(server.trail) + trail && server.failures == old(server.failures)
      invariant GrantedUpTo(old(server.granted), trail, server.granted, goal, current, wanted, todo)
      decreases |todo|
    {
      var id :| id in todo;
      GrantStep(old(server.granted), trail, server.granted, goal, current, wanted, todo, id);
      todo := todo - {id};
      if id !in current {
        ok := server.Grant(id);
        trail := trail + [server.granted];
        if !ok {
          return;
        }
      }
    }
    ok := true;
  }

  /** How far the removals have come. */
  ghost predicate RevokedUpTo(start: set<Id>, trail: seq<set<Id>>, now: set<Id>, goal: set<Id>,
                              current: set<Id>, wanted: set<Id>, todo: set<Id>) {
    && todo <= current && now == start - ((current - todo) - wanted) && Sound(start, trail, goal, now)
    && |trail| + |todo - wanted| == |current - wanted| && (current <= wanted ==> trail == [])
  }

  lemma RevokeStep(start: set<Id>, trail: seq<set<Id>>, now: set<Id>, goal: set<Id>,
                   current: set<Id>, wanted: set<Id>, todo: set<Id>, id: Id)
    requires RevokedUpTo(start, trail, now, goal, current, wanted, todo) && id in todo
    requires (current - wanted) !! goal
    ensures id in wanted ==> RevokedUpTo(start, trail, now, goal, current, wanted, todo - {id})
    ensures id !in wanted ==>
              && RevokedUpTo(start, trail + [now - {id}], now - {id}, goal, current, wanted, todo - {id})
              && Sound(start, trail + [now], goal, now)
  {
    OneLess(todo, wanted, id);
    RemovedSoFar(start, current, wanted, todo, id);
    if id !in wanted {
      OneRemoved(now, goal, id);
      SoundExtends(start, trail, goal, now, now - {id});
      SoundExtends(start, trail, goal, now, now);
    }
  }

  /** Grants to revoke, one call each; a grant that is already gone is no failure. */
  method RevokeExtra(server: Server, current: set<Id>, wanted: set<Id>, ghost goal: set<Id>)
    returns (ok: bool, ghost trail: seq<set<Id>>)
    requires (current - wanted) !! goal
    modifies server
    ensures server.trail == old(server.trail) + trail
    ensures Sound(old(server.granted), trail, goal, server.granted)
    ensures old(server.granted) - (current - wanted) <= server.granted <= old(server.granted)
    ensures ok ==> server.granted == old(server.granted) - (current - wanted) && |trail| == |current - wanted|
    ensures current <= wanted ==> ok && trail == []
    ensures old(server.failures) <= server.failures && (ok <==> server.failures == old(server.failures))
  {
    var todo := current;
    trail := [];
    while todo != {}
      invariant server.trail == old(server.trail) + trail && server.failures == old(server.failures)
      invariant RevokedUpTo(old(server.granted), trail, server.granted, goal, current, wanted, todo)
      decreases |todo|
    {
      var id :| id in todo;
      RevokeStep(old(server.granted), trail, server.granted, goal, current, wanted, todo, id);
      todo := todo - {id};
      if id !in wanted {
        var reply := server.Revoke(id);
        trail := trail + [server.granted];
        if reply.Failed? {
          return false, trail;
        }
      }
    }
    ok := true;
  }

  predicate Resolvable(keys: seq<string>, agents: map<string, Id>) {
    forall k | k in keys :: k in agents
  }

  /** MCP server grants: looked up by agent ID.  `listed` is what the server lists, or None if a lookup failed. */
  method ApplyMcpGrants(server: Server, listed: Option<seq<Id>>, agents: map<string, Id>, desired: seq<string>)
    returns (ok: bool, ghost trail: seq<set<Id>>)
    requires listed.Some? ==> NonEmpty(listed.value) == server.granted - {""}
    requires forall k | k in agents :: agents[k] != ""
    modifies server
    ensures server.trail == old(server.trail) + trail
    ensures listed.None? || !Resolvable(desired, agents) ==> !ok && trail == [] && server.granted == old(server.granted)
    ensures Resolvable(desired, agents) ==>
              var goal := Goal(old(server.granted), Images(desired, agents));
              && Sound(old(server.granted), trail, goal, server.granted)
              && (ok ==> server.granted == goal && |trail| == Distance(old(server.granted), goal))
              && (listed.Some? && old(server.granted) == goal ==> ok && trail == [])
    ensures ok <==> listed.Some? && Resolvable(desired, agents) && server.failures == old(server.failures)
  {
    trail := [];
    if listed.None? {
      return false, trail;
    }
    var current: set<Id> := {};
    for i := 0 to |listed.value|
      invariant current == NonEmpty(listed.value[..i])
    {
      if listed.value[i] != "" {
        current := current + {listed.value[i]};
      }
    }
    assert listed.value[..|listed.value|] == listed.value;
    var wanted: set<Id> := {};
    for i := 0 to |desired|
      invariant Resolvable(desired[..i], agents)
      invariant wanted == Images(desired[..i], agents)
    {
      if desired[i] !in agents {
        return false, trail;
      }
      wanted := wanted + {agents[desired[i]]};
    }
    assert desired[..|desired|] == desired;
    ok, trail := SyncById(server, current, wanted);
  }

  lemma GoalBySteps(start: set<Id>, current: set<Id>, wanted: set<Id>)
    requires current == start - {""} && "" !in wanted
    ensures var goal := Goal(start, wanted);
            && wanted <= goal && (current - wanted) !! goal
            && wanted - current == goal - start && current - wanted == start - goal
            && start + wanted - (current - wanted) == goal
            && (start == goal ==> wanted <= current && current <= wanted)
  {
  }

  /** The two loops over IDs, additions first. */
  method SyncById(server: Server, current: set<Id>, wanted: set<Id>) returns (ok: bool, ghost trail: seq<set<Id>>)
    requires current == server.granted - {""} && "" !in wanted
    modifies server
    ensures server.trail == old(server.trail) + trail
    ensures var goal := Goal(old(server.granted), wanted);
            && Sound(old(server.granted), trail, goal, server.granted)
            && (ok ==> server.granted == goal && |trail| == Distance(old(server.granted), goal))
            && (old(server.granted) == goal ==> ok && trail == [])
    ensures old(server.failures) <= server.failures && (ok <==> server.failures == old(server.failures))
  {
    ghost var start := server.granted;
    ghost var goal := Goal(start, wanted);
    GoalBySteps(start, current, wanted);
    ghost var more;
    ok, trail := GrantMissing(server, current, wanted, goal);
    if !ok {
      return;
    }
    ghost var middle := server.granted;
    ok, more := RevokeExtra(server, current, wanted, goal);
    SoundCompose(start, trail, middle, more, server.granted, goal);
    Regroup(old(server.trail), trail, more);
    trail := trail + more;
  }
}
