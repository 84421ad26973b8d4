/** Set-difference reconciliation of an allowlist against a server whose calls may fail, and may have taken effect even
    when they report failure. */
module AllowlistSync {
  import opened Allowlists
  import opened Text
  import opened Values

  class Allowlist {
    var perms: Perms
    var next: nat
    ghost var trail: seq<Perms>
    ghost var failures: nat

    ghost predicate Valid()
      reads this
    {
      forall id | id in perms :: id < next
    }

    method Add(pattern: string) returns (ok: bool)
      requires Valid()
      modifies this
      ensures Valid()
      ensures (perms == old(perms)[old(next) := pattern] && old(next) !in old(perms)) || (!ok && perms == old(perms))
      ensures trail == old(trail) + [perms] && failures == old(failures) + if ok then 0 else 1
    {
      var reached := *;
      ok := *;
      failures := failures + if ok then 0 else 1;
      if ok || reached {
        perms := perms[next := pattern];
        next := next + 1;
      }
      trail := trail + [perms];
    }

    method Remove(id: nat) returns (ok: bool)
      requires Valid()
      modifies this
      ensures Valid()
      ensures perms == old(perms) - {id} || (!ok && perms == old(perms))
      ensures trail == old(trail) + [perms] && failures == old(failures) + if ok then 0 else 1
    {
      var reached := *;
      ok := *;
      failures := failures + if ok then 0 else 1;
      if ok || reached {
        perms := perms - {id};
      }
      trail := trail + [perms];
    }
  }

  /** The first loop.  Its calls make progress exactly when every pattern it adds is new to the list and asked for
      once. */
  method AddPatterns(ws: Allowlist, currentSet: map<string, nat>, desired: seq<string>)
    returns (ok: bool, ghost trail: seq<Perms>)
    requires ws.Valid() && forall p | p in currentSet :: currentSet[p] in ws.perms && ws.perms[currentSet[p]] == p
    modifies ws
    ensures ws.Valid() && ws.trail == old(ws.trail) + trail
    ensures Added(old(ws.perms), trail, ws.perms, currentSet, desired, ok)
    ensures old(ws.failures) <= ws.failures && (ok <==> ws.failures == old(ws.failures))
  {
    trail := [];
    for i := 0 to |desired|
      invariant ws.Valid() && ws.trail == old(ws.trail) + trail && ws.failures == old(ws.failures)
      invariant Adding(old(ws.perms), trail, ws.perms, currentSet, desired[..i], desired)
    {
      ghost var before, id := ws.perms, ws.next;
      if desired[i] !in currentSet {
        ok := ws.Add(desired[i]);
        if !ok {
          AddFailed(old(ws.perms), trail, before, ws.perms, currentSet, desired, i, id);
          trail := trail + [ws.perms];
          return;
        }
        AddingOneMore(old(ws.perms), trail, before, currentSet, desired, i, id);
        trail := trail + [ws.perms];
      } else {
        AddingPassesBy(old(ws.perms), trail, before, currentSet, desired, i);
      }
    }
    assert desired[..|desired|] == desired;
    ok := true;
  }

  method RemovePatterns(ws: Allowlist, currentSet: map<string, nat>, desired: seq<string>, ghost base: Perms)
    returns (ok: bool, ghost trail: seq<Perms>)
    requires ws.Valid() && Kept(base, ws.perms, desired)
    requires forall p | p in currentSet :: currentSet[p] in base && base[currentSet[p]] == p
    modifies ws
    ensures ws.Valid() && ws.trail == old(ws.trail) + trail
    ensures Shrinking(base, old(ws.perms), trail, ws.perms, desired)
    ensures ok ==> Removed(old(ws.perms), ws.perms, currentSet, desired)
    ensures old(ws.failures) <= ws.failures && (ok <==> ws.failures == old(ws.failures))
    ensures ok && trail == [] <==> forall p | p in currentSet :: p in desired
  {
    trail := [];
    var todo := currentSet.Keys;
    while todo != {}
      invariant todo <= currentSet.Keys && ws.Valid() && ws.trail == old(ws.trail) + trail
      invariant ws.failures == old(ws.failures)
      invariant Shrinking(base, old(ws.perms), trail, ws.perms, desired)
      invariant Removing(old(ws.perms), ws.perms, currentSet, desired, todo)
      invariant trail == [] <==> forall p | p in currentSet.Keys - todo :: p in desired
      decreases |todo|
    {
      var p :| p in todo;
      ghost var before := ws.perms;
      RemovingMore(old(ws.perms), before, base, currentSet, desired, todo, p);
      todo := todo - {p};
      if p !in desired {
        ok := ws.Remove(currentSet[p]);
        ShrinkingMore(base, old(ws.perms), trail, before, ws.perms, desired, currentSet[p]);
        trail := trail + [ws.perms];
        if !ok {
          return;
        }
      }
    }
    ok := true;
  }

  /** The whole run. */
  method ReconcileAllowlist(ws: Allowlist, current: Option<seq<(nat, string)>>, desired: seq<string>)
    returns (ok: bool, ghost trail: seq<Perms>)
    requires ws.Valid() && (current.Some? ==> Lists(current.value, ws.perms))
    modifies ws
    ensures ws.Valid() && ws.trail == old(ws.trail) + trail
    ensures Reconciled(old(ws.perms), trail, ws.perms, current, desired, ok)
    ensures ok <==> ws.failures == old(ws.failures)
  {
    var currentSet := Remember(current, ws.perms);
    ok, trail := AddPatterns(ws, currentSet, desired);
    if !ok || current.None? {
      OnlyAdded(old(ws.perms), trail, ws.perms, current, desired, ok);
      return;
    }
    ghost var mid := ws.perms;
    ghost var more;
    ok, more := RemovePatterns(ws, currentSet, desired, old(ws.perms));
    Regroup(old(ws.trail), trail, more);
    AddedAndRemoved(old(ws.perms), trail, mid, more, ws.perms, current, desired, ok);
    trail := trail + more;
  }

  method Remember(current: Option<seq<(nat, string)>>, ghost perms: Perms) returns (currentSet: map<string, nat>)
    requires current.Some? ==> Lists(current.value, perms)
    ensures currentSet == Remembered(current)
    ensures current.Some? ==> Remembers(currentSet, perms)
  {
    currentSet := map[];
    if current.Some? {
      for i := 0 to |current.value|
        invariant currentSet == LastIds(current.value[..i])
      {
        var (id, pattern) := current.value[i];
        assert current.value[..i + 1][..i] == current.value[..i];
        currentSet := currentSet[pattern := id];
      }
      assert current.value[..|current.value|] == current.value;
      LastIdsListed(current.value, perms);
    }
  }
}
