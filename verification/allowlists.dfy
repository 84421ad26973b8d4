/** A workstation's allowlist, patterns under permission IDs the server gives out, and what its set-difference
    reconciliation makes of it. */
module Allowlists {
  import opened Text
  import opened Values

  type Perms = map<nat, string>

  /** Nothing desired is lost and nothing undesired is gained. */
  ghost predicate Kept(before: Perms, now: Perms, desired: seq<string>) {
    && (forall id | id in before && before[id] in desired :: id in now && now[id] == before[id])
    && (forall id | id in now :: if id in before then now[id] == before[id] else now[id] in desired)
  }

  /** The listing shows exactly these permissions. */
  ghost predicate Lists(listing: seq<(nat, string)>, perms: Perms) {
    && (forall i | 0 <= i < |listing| :: listing[i].0 in perms && perms[listing[i].0] == listing[i].1)
    && (forall id | id in perms :: exists i :: 0 <= i < |listing| && listing[i] == (id, perms[id]))
  }

  /** The last ID listed for each pattern. */
  function LastIds(listing: seq<(nat, string)>): (r: map<string, nat>)
    ensures forall p :: p in r <==> exists i :: 0 <= i < |listing| && listing[i].1 == p
    ensures forall p | p in r :: (r[p], p) in listing
  {
    if listing == [] then map[]
    else
      var before, last := listing[..|listing| - 1], listing[|listing| - 1];
      assert listing == before + [last];
      LastIds(before)[last.1 := last.0]
  }

  /** Of the IDs listed for one pattern the last is remembered. */
  lemma {:induction false} LastIsRemembered(listing: seq<(nat, string)>, i: nat)
    requires i < |listing| && forall j | i < j < |listing| :: listing[j].1 != listing[i].1
    ensures listing[i].1 in LastIds(listing) && LastIds(listing)[listing[i].1] == listing[i].0
  {
    if i < |listing| - 1 {
      LastIsRemembered(listing[..|listing| - 1], i);
    }
  }

  /** The patterns on the list are the desired ones, each at least once. */
  ghost predicate Exact(perms: Perms, desired: seq<string>) {
    (forall p | p in desired :: p in perms.Values) && forall id | id in perms :: perms[id] in desired
  }

  ghost predicate ListedTwice(perms: Perms, p: string) {
    exists i, j :: i in perms && j in perms && i != j && perms[i] == p && perms[j] == p
  }

  // Progress: what is still unmet only shrinks.

  function Extra(perms: Perms, desired: seq<string>): set<nat> {
    set id | id in perms && perms[id] !in desired
  }

  function Missing(perms: Perms, desired: seq<string>): set<string> {
    set p | p in desired && p !in perms.Values
  }

  /** How many undesired entries there are and how many desired patterns are missing. */
  function Unmet(perms: Perms, desired: seq<string>): nat {
    |Extra(perms, desired)| + |Missing(perms, desired)|
  }

  /** The call changed nothing or left less unmet. */
  ghost predicate Helps(before: Perms, now: Perms, desired: seq<string>) {
    now == before || Unmet(now, desired) < Unmet(before, desired)
  }

  function LastOf(start: Perms, trail: seq<Perms>): Perms {
    if trail == [] then start else trail[|trail| - 1]
  }

  ghost predicate Progresses(start: Perms, trail: seq<Perms>, desired: seq<string>) {
    trail == [] ||
    (&& Progresses(start, trail[..|trail| - 1], desired)
     && Helps(LastOf(start, trail[..|trail| - 1]), trail[|trail| - 1], desired))
  }

  function Changes(start: Perms, trail: seq<Perms>): nat {
    if trail == [] then 0
    else Changes(start, trail[..|trail| - 1])
         + if trail[|trail| - 1] == LastOf(start, trail[..|trail| - 1]) then 0 else 1
  }

  /** A run that progresses makes no more effective calls than there was unmet at its start. */
  lemma {:induction false} ProgressIsBounded(start: Perms, trail: seq<Perms>, desired: seq<string>)
    requires Progresses(start, trail, desired)
    ensures Changes(start, trail) + Unmet(LastOf(start, trail), desired) <= Unmet(start, desired)
  {
    if trail != [] {
      ProgressIsBounded(start, trail[..|trail| - 1], desired);
    }
  }

  lemma ProgressMore(start: Perms, trail: seq<Perms>, now: Perms, desired: seq<string>)
    ensures Progresses(start, trail + [now], desired)
        <==> Progresses(start, trail, desired) && Helps(LastOf(start, trail), now, desired)
  {
    assert (trail + [now])[..|trail + [now]| - 1] == trail;
  }

  lemma {:induction false} ProgressComposes(start: Perms, trail: seq<Perms>, more: seq<Perms>, desired: seq<string>)
    ensures LastOf(start, trail + more) == LastOf(LastOf(start, trail), more)
    ensures Progresses(start, trail + more, desired)
        <==> Progresses(start, trail, desired) && Progresses(LastOf(start, trail), more, desired)
  {
    if more == [] {
      assert trail + more == trail;
    } else {
      var less, last := more[..|more| - 1], more[|more| - 1];
      ProgressComposes(start, trail, less, desired);
      assert more == less + [last] && trail + more == (trail + less) + [last];
      ProgressMore(start, trail + less, last, desired);
    }
  }

  lemma ValuesMore(perms: Perms, id: nat, p: string)
    requires id !in perms
    ensures perms[id := p].Values == perms.Values + {p}
  {
    var now := perms[id := p];
    assert now[id] == p;
    forall q | q in perms.Values
      ensures q in now.Values
    {
      var i :| i in perms && perms[i] == q;
      assert now[i] == q;
    }
  }

  lemma Without<T>(s: set<T>, x: T)
    ensures |s - {x}| == |s| - if x in s then 1 else 0
  {
    if x in s {
      assert s == (s - {x}) + {x};
    } else {
      assert s - {x} == s;
    }
  }

  lemma AddMeets(perms: Perms, desired: seq<string>, id: nat, p: string)
    requires id !in perms && p in desired
    ensures Extra(perms[id := p], desired) == Extra(perms, desired)
    ensures Missing(perms[id := p], desired) == Missing(perms, desired) - {p}
  {
    ValuesMore(perms, id, p);
  }

  /** Adding a desired pattern helps exactly when the list does not have it yet. */
  lemma AddHelpsIff(perms: Perms, desired: seq<string>, id: nat, p: string)
    requires id !in perms && p in desired
    ensures Helps(perms, perms[id := p], desired) <==> p !in perms.Values
  {
    AddMeets(perms, desired, id, p);
    Without(Missing(perms, desired), p);
    assert id in perms[id := p];
  }

  lemma RemoveMeets(perms: Perms, desired: seq<string>, id: nat)
    requires id in perms && perms[id] !in desired
    ensures Extra(perms - {id}, desired) == Extra(perms, desired) - {id}
    ensures Missing(perms - {id}, desired) == Missing(perms, desired)
  {
    var now := perms - {id};
    forall p | p in desired
      ensures p in now.Values <==> p in perms.Values
    {
      if p in perms.Values {
        var i :| i in perms && perms[i] == p;
        assert now[i] == p;
      }
    }
  }

  lemma RemoveHelps(perms: Perms, desired: seq<string>, id: nat)
    requires id in perms ==> perms[id] !in desired
    ensures Helps(perms, perms - {id}, desired)
  {
    if id in perms {
      RemoveMeets(perms, desired, id);
      Without(Extra(perms, desired), id);
    } else {
      assert perms - {id} == perms;
    }
  }

  /** Each pattern to be added is new to the list and asked for once. */
  ghost predicate NewOnce(base: Perms, currentSet: map<string, nat>, desired: seq<string>) {
    forall i | 0 <= i < |desired| && desired[i] !in currentSet ::
      desired[i] !in base.Values && desired[i] !in desired[..i]
  }

  lemma NewOnceMore(base: Perms, currentSet: map<string, nat>, desired: seq<string>, i: nat)
    requires i < |desired|
    ensures NewOnce(base, currentSet, desired[..i + 1]) <==>
            NewOnce(base, currentSet, desired[..i])
            && (desired[i] in currentSet || (desired[i] !in base.Values && desired[i] !in desired[..i]))
  {
    var more := desired[..i + 1];
    assert forall j | 0 <= j <= i :: more[..j] == desired[..j];
    assert forall j | 0 <= j < i :: desired[..i][..j] == desired[..j];
    assert more[i] == desired[i];
  }

  lemma NewOnceCut(base: Perms, currentSet: map<string, nat>, desired: seq<string>, i: nat)
    requires i <= |desired| && NewOnce(base, currentSet, desired)
    ensures NewOnce(base, currentSet, desired[..i])
  {
    assert forall j | 0 <= j < i :: desired[..i][..j] == desired[..j];
  }

  /** What the list holds after these patterns have been seen. */
  ghost predicate Grown(base: Perms, now: Perms, seen: seq<string>, desired: seq<string>) {
    && Kept(base, now, desired) && base.Keys <= now.Keys
    && (forall p | p in seen :: p in now.Values)
    && (forall p | p in now.Values :: p in base.Values || p in seen)
  }

  lemma Grows(base: Perms, now: Perms, seen: seq<string>, desired: seq<string>, id: nat, p: string)
    requires Grown(base, now, seen, desired) && id !in now && p in desired
    ensures Grown(base, now[id := p], seen + [p], desired)
    ensures p in now.Values <==> p in base.Values || p in seen
  {
    ValuesMore(now, id, p);
    if p in base.Values {
      var i :| i in base && base[i] == p;
      assert now[i] == p;
    }
  }

  lemma StillGrown(base: Perms, now: Perms, seen: seq<string>, desired: seq<string>, id: nat, p: string)
    requires Grown(base, now, seen, desired) && id in base && base[id] == p
    ensures Grown(base, now, seen + [p], desired)
  {
    assert now[id] == p;
  }

  ghost predicate AllKept(base: Perms, trail: seq<Perms>, desired: seq<string>) {
    forall i | 0 <= i < |trail| :: Kept(base, trail[i], desired)
  }

  /** The calls so far have led here and progressed as far as what was added was new. */
  ghost predicate Adding(base: Perms, trail: seq<Perms>, now: Perms, currentSet: map<string, nat>, seen: seq<string>,
                         desired: seq<string>) {
    && LastOf(base, trail) == now
    && AllKept(base, trail, desired)
    && Grown(base, now, seen, desired)
    && (Progresses(base, trail, desired) <==> NewOnce(base, currentSet, seen))
    && (trail == [] <==> forall p | p in seen :: p in currentSet)
  }

  lemma AddingOneMore(base: Perms, trail: seq<Perms>, now: Perms, currentSet: map<string, nat>, desired: seq<string>,
                      i: nat, id: nat)
    requires i < |desired| && Adding(base, trail, now, currentSet, desired[..i], desired)
    requires desired[i] !in currentSet && id !in now
    ensures var after := now[id := desired[i]];
            Adding(base, trail + [after], after, currentSet, desired[..i + 1], desired)
  {
    var d := desired[i];
    assert desired[..i + 1] == desired[..i] + [d];
    NewOnceMore(base, currentSet, desired, i);
    Grows(base, now, desired[..i], desired, id, d);
    AddHelpsIff(now, desired, id, d);
    ProgressMore(base, trail, now[id := d], desired);
    assert d in desired[..i + 1];
  }

  lemma AddingPassesBy(base: Perms, trail: seq<Perms>, now: Perms, currentSet: map<string, nat>, desired: seq<string>,
                       i: nat)
    requires i < |desired| && Adding(base, trail, now, currentSet, desired[..i], desired)
    requires desired[i] in currentSet && currentSet[desired[i]] in base && base[currentSet[desired[i]]] == desired[i]
    ensures Adding(base, trail, now, currentSet, desired[..i + 1], desired)
  {
    assert desired[..i + 1] == desired[..i] + [desired[i]];
    NewOnceMore(base, currentSet, desired, i);
    StillGrown(base, now, desired[..i], desired, currentSet[desired[i]], desired[i]);
  }

  /** What is known after the first loop, complete or not. */
  ghost predicate Added(base: Perms, trail: seq<Perms>, now: Perms, currentSet: map<string, nat>, desired: seq<string>,
                        ok: bool) {
    && LastOf(base, trail) == now
    && AllKept(base, trail, desired)
    && Kept(base, now, desired) && base.Keys <= now.Keys
    && (ok ==> forall p | p in desired :: p in now.Values)
    && (ok && trail == [] <==> forall p | p in desired :: p in currentSet)
    && (NewOnce(base, currentSet, desired) ==> Progresses(base, trail, desired))
    && (ok ==> (Progresses(base, trail, desired) <==> NewOnce(base, currentSet, desired)))
  }

  lemma AddFailed(base: Perms, trail: seq<Perms>, now: Perms, after: Perms, currentSet: map<string, nat>,
                  desired: seq<string>, i: nat, id: nat)
    requires i < |desired| && Adding(base, trail, now, currentSet, desired[..i], desired)
    requires desired[i] !in currentSet && id !in now
    requires after == now || after == now[id := desired[i]]
    ensures Added(base, trail + [after], after, currentSet, desired, false)
  {
    assert desired[i] in desired;
    if NewOnce(base, currentSet, desired) {
      NewOnceCut(base, currentSet, desired, i);
      NewOnceCut(base, currentSet, desired, i + 1);
    }
    if after == now {
      ProgressMore(base, trail, after, desired);
    } else {
      AddingOneMore(base, trail, now, currentSet, desired, i, id);
    }
  }

  /** The ID is the one remembered for its pattern, and that is not desired. */
  predicate Doomed(id: nat, p: string, currentSet: map<string, nat>, desired: seq<string>) {
    p in currentSet && currentSet[p] == id && p !in desired
  }

  /** The list after the remembered IDs of undesired patterns have gone, except for those still to do. */
  ghost predicate Removing(mid: Perms, now: Perms, currentSet: map<string, nat>, desired: seq<string>,
                           todo: set<string>) {
    && (forall id :: id in now <==> id in mid && !(Doomed(id, mid[id], currentSet, desired) && mid[id] !in todo))
    && (forall id | id in now :: now[id] == mid[id])
  }

  /** The calls so far have led here and progressed, and nothing desired has gone. */
  ghost predicate Shrinking(base: Perms, mid: Perms, trail: seq<Perms>, now: Perms, desired: seq<string>) {
    && LastOf(mid, trail) == now
    && AllKept(base, trail, desired)
    && Kept(base, now, desired)
    && Progresses(mid, trail, desired)
  }

  lemma ShrinkingMore(base: Perms, mid: Perms, trail: seq<Perms>, now: Perms, after: Perms, desired: seq<string>,
                      id: nat)
    requires Shrinking(base, mid, trail, now, desired) && id in base && base[id] !in desired
    requires after == now || after == now - {id}
    ensures Shrinking(base, mid, trail + [after], after, desired)
  {
    RemoveHelps(now, desired, id);
    ProgressMore(mid, trail, after, desired);
  }

  lemma RemovingMore(mid: Perms, now: Perms, base: Perms, currentSet: map<string, nat>, desired: seq<string>,
                     todo: set<string>, p: string)
    requires Removing(mid, now, currentSet, desired, todo) && p in todo && p in currentSet
    requires Kept(base, mid, desired) && currentSet[p] in base && base[currentSet[p]] == p
    ensures Removing(mid, if p in desired then now else now - {currentSet[p]}, currentSet, desired, todo - {p})
  {
    if currentSet[p] in mid {
      assert mid[currentSet[p]] == p;
    }
  }

  /** `currentSet` remembers one ID for each pattern on the list. */
  ghost predicate Remembers(currentSet: map<string, nat>, perms: Perms) {
    && (forall id | id in perms :: perms[id] in currentSet)
    && (forall p | p in currentSet :: currentSet[p] in perms && perms[currentSet[p]] == p)
  }

  ghost predicate Removed(mid: Perms, after: Perms, currentSet: map<string, nat>, desired: seq<string>) {
    && (forall id :: id in after <==> id in mid && !Doomed(id, mid[id], currentSet, desired))
    && (forall id | id in after :: after[id] == mid[id])
  }

  lemma DesiredStay(mid: Perms, after: Perms, currentSet: map<string, nat>, desired: seq<string>)
    requires Removed(mid, after, currentSet, desired) && forall p | p in desired :: p in mid.Values
    ensures forall p | p in desired :: p in after.Values
  {
  }

  lemma ExactIffRemembered(currentSet: map<string, nat>, perms: Perms, desired: seq<string>)
    requires Remembers(currentSet, perms)
    ensures Exact(perms, desired) <==> forall p :: p in currentSet <==> p in desired
  {
    forall p
      ensures p in currentSet <==> p in perms.Values
    {
    }
  }

  lemma TwiceSurvives(before: Perms, mid: Perms, after: Perms, currentSet: map<string, nat>, desired: seq<string>,
                      p: string)
    requires Kept(before, mid, desired) && before.Keys <= mid.Keys && Removed(mid, after, currentSet, desired)
    requires ListedTwice(before, p) && p !in desired
    ensures exists id :: id in after && after[id] == p
  {
  }

  /** Main result for allowlists: when the list is exactly as desired after a successful run. */
  lemma AllowlistExactIff(before: Perms, mid: Perms, after: Perms, currentSet: map<string, nat>, desired: seq<string>)
    requires Kept(before, mid, desired) && before.Keys <= mid.Keys && Remembers(currentSet, before)
    requires Removed(mid, after, currentSet, desired)
    requires forall p | p in desired :: p in after.Values
    ensures Exact(after, desired) <==> forall p | ListedTwice(before, p) :: p in desired
  {
    if p :| ListedTwice(before, p) && p !in desired {
      TwiceSurvives(before, mid, after, currentSet, desired, p);
    } else if id :| id in after && after[id] !in desired {
      Survivor(before, mid, after, currentSet, desired, id);
    }
  }

  lemma Survivor(before: Perms, mid: Perms, after: Perms, currentSet: map<string, nat>, desired: seq<string>, id: nat)
    requires Kept(before, mid, desired) && Remembers(currentSet, before) && Removed(mid, after, currentSet, desired)
    requires id in after && after[id] !in desired
    ensures ListedTwice(before, after[id])
  {
  }

  function Remembered(current: Option<seq<(nat, string)>>): map<string, nat> {
    if current.Some? then LastIds(current.value) else map[]
  }

  /** What a run promises.  Without a listing nothing is removed; with one, the outcome of a successful run is exact
      unless an undesired pattern was listed under two IDs, of which only the last is remembered.  Calls that change the
      list shrink what is unmet, unless a pattern is added that the list has already; a run with a listing makes no
      call exactly when the list was exact. */
  ghost predicate Reconciled(base: Perms, trail: seq<Perms>, now: Perms, current: Option<seq<(nat, string)>>,
                             desired: seq<string>, ok: bool) {
    && LastOf(base, trail) == now
    && AllKept(base, trail, desired) && Kept(base, now, desired)
    && (ok ==> forall p | p in desired :: p in now.Values)
    && (ok && current.Some? ==> (Exact(now, desired) <==> forall p | ListedTwice(base, p) :: p in desired))
    && (current.None? ==> base.Keys <= now.Keys)
    && (current.Some? ==> (ok && trail == [] <==> Exact(base, desired)))
    && (NewOnce(base, Remembered(current), desired) ==> Progresses(base, trail, desired))
    && (ok ==> (Progresses(base, trail, desired) <==> NewOnce(base, Remembered(current), desired)))
  }

  lemma OnlyAdded(base: Perms, trail: seq<Perms>, now: Perms, current: Option<seq<(nat, string)>>,
                  desired: seq<string>, ok: bool)
    requires Added(base, trail, now, Remembered(current), desired, ok) && (current.None? || !ok)
    requires current.Some? ==> Remembers(Remembered(current), base)
    ensures Reconciled(base, trail, now, current, desired, ok)
  {
    if current.Some? {
      ExactIffRemembered(Remembered(current), base, desired);
    }
  }

  lemma AddedAndRemoved(base: Perms, trail: seq<Perms>, mid: Perms, more: seq<Perms>, now: Perms,
                        current: Option<seq<(nat, string)>>, desired: seq<string>, ok: bool)
    requires current.Some? && Remembers(Remembered(current), base)
    requires Added(base, trail, mid, Remembered(current), desired, true) && Shrinking(base, mid, more, now, desired)
    requires ok ==> Removed(mid, now, Remembered(current), desired)
    requires ok && more == [] <==> forall p | p in Remembered(current) :: p in desired
    ensures Reconciled(base, trail + more, now, current, desired, ok)
  {
    var currentSet := Remembered(current);
    ProgressComposes(base, trail, more, desired);
    ExactIffRemembered(currentSet, base, desired);
    if ok {
      DesiredStay(mid, now, currentSet, desired);
      AllowlistExactIff(base, mid, now, currentSet, desired);
    }
  }

  lemma LastIdsListed(listing: seq<(nat, string)>, perms: Perms)
    requires Lists(listing, perms)
    ensures Remembers(LastIds(listing), perms)
  {
  }
}
