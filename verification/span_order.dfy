/** Which child lists the span forest sorts, and when the forest does not depend on the order of walking maps. */
module SpanOrder {
  import opened Spans

  // The lists the sort reaches, read off the table.

  predicate Wide(m: Table, p: string) {
    |ChildrenOf(m, m.Keys, p)| > 1
  }

  /** The span and all spans above it have at least two children. */
  predicate WideUp(m: Table, p: string, k: nat)
    requires p in m && AtDepth(m, p, k)
    decreases k
  {
    Wide(m, p) && (IsRoot(m, p) || WideUp(m, m[p].parent, k - 1))
  }

  ghost predicate Visited(m: Table, p: string) {
    p in m && exists k: nat :: AtDepth(m, p, k) && WideUp(m, p, k)
  }

  lemma {:induction false} LengthOfList(m: Table, nodes: map<string, SpanNode>, list: seq<SpanNode>,
                                        ids: set<string>)
    requires IsNodeMap(nodes, m) && ids <= m.Keys
    requires ListsNodes(nodes, list, ids)
    ensures |list| == |ids|
    decreases |list|
  {
    if list == [] {
      assert ids == {};
    } else {
      var before, last := list[..|list| - 1], list[|list| - 1];
      assert list == before + [last];
      ListWithout(m, nodes, list, ids);
      LengthOfList(m, nodes, before, ids - {last.span.id});
      assert ids == (ids - {last.span.id}) + {last.span.id};
    }
  }

  lemma ListWithout(m: Table, nodes: map<string, SpanNode>, list: seq<SpanNode>, ids: set<string>)
    requires IsNodeMap(nodes, m) && ids <= m.Keys
    requires ListsNodes(nodes, list, ids) && list != []
    ensures list[|list| - 1].span.id in ids
    ensures ListsNodes(nodes, list[..|list| - 1], ids - {list[|list| - 1].span.id})
  {
    var before, last := list[..|list| - 1], list[|list| - 1];
    assert list == before + [last] && last in list;
    forall n | n in before
      ensures n.span.id in ids - {last.span.id} && n.span.id in nodes && nodes[n.span.id] == n
    {
      assert n in list && n != last;
    }
    forall id | id in ids - {last.span.id}
      ensures id in nodes && nodes[id] in before
    {
      assert nodes[id] in list && nodes[id].span.id == id;
    }
  }

  lemma {:induction false} WideIsReached(m: Table, nodes: map<string, SpanNode>, was: map<string, seq<SpanNode>>,
                                         p: string, k: nat)
    requires IsNodeMap(nodes, m) && IsForest(m, nodes, was) && p in m && AtDepth(m, p, k)
    ensures WideUp(m, p, k) <==> exists top :: top in RootsOf(m, m.Keys) && Reaches(m, was, top, p, k)
    decreases k
  {
    LengthOfList(m, nodes, was[p], ChildrenOf(m, m.Keys, p));
    if IsRoot(m, p) {
      assert p in RootsOf(m, m.Keys);
    } else {
      WideIsReached(m, nodes, was, m[p].parent, k - 1);
      assert p !in RootsOf(m, m.Keys);
    }
  }

  /** The sort reaches the children of exactly the spans that have two or more of them, with all spans above. */
  lemma VisitedIffReached(m: Table, nodes: map<string, SpanNode>, was: map<string, seq<SpanNode>>, p: string)
    requires IsNodeMap(nodes, m) && IsForest(m, nodes, was)
    ensures Visited(m, p) <==> Reached(m, was, RootsOf(m, m.Keys), p)
  {
    if Visited(m, p) {
      var k: nat :| AtDepth(m, p, k) && WideUp(m, p, k);
      WideIsReached(m, nodes, was, p, k);
    }
    if Reached(m, was, RootsOf(m, m.Keys), p) {
      var top, k: nat :| top in RootsOf(m, m.Keys) && AtDepth(m, p, k) && Reaches(m, was, top, p, k);
      WideIsReached(m, nodes, was, p, k);
    }
  }

  // Lists to choose from.

  lemma {:induction false} Latest(m: Table, ids: set<string>) returns (last: string)
    requires ids <= m.Keys && ids != {}
    ensures last in ids && forall id | id in ids :: m[id].start <= m[last].start
    decreases |ids|
  {
    last :| last in ids;
    var rest := ids - {last};
    assert forall id | id in ids :: id == last || id in rest;
    if rest != {} {
      var other := Latest(m, rest);
      last := if m[last].start < m[other].start then other else last;
    }
  }

  lemma HasLatest(m: Table, ids: set<string>)
    requires ids <= m.Keys && ids != {}
    ensures exists last :: last in ids && forall id | id in ids :: m[id].start <= m[last].start
  {
    var last := Latest(m, ids);
    assert last in ids;
  }

  /** The nodes of these spans, sorted. */
  ghost function Arranged(m: Table, nodes: map<string, SpanNode>, ids: set<string>): (list: seq<SpanNode>)
    requires IsNodeMap(nodes, m) && ids <= m.Keys
    ensures ListsNodes(nodes, list, ids) && SortedByStart(list)
    decreases |ids|
  {
    if ids == {} then []
    else
      HasLatest(m, ids);
      var last :| last in ids && forall id | id in ids :: m[id].start <= m[last].start;
      var before := Arranged(m, nodes, ids - {last});
      ArrangedMore(m, nodes, ids, before, last);
      before + [nodes[last]]
  }

  lemma ArrangedMore(m: Table, nodes: map<string, SpanNode>, ids: set<string>, before: seq<SpanNode>, last: string)
    requires IsNodeMap(nodes, m) && ids <= m.Keys && last in ids
    requires forall id | id in ids :: m[id].start <= m[last].start
    requires ListsNodes(nodes, before, ids - {last}) && SortedByStart(before)
    ensures ListsNodes(nodes, before + [nodes[last]], ids) && SortedByStart(before + [nodes[last]])
  {
    ListsMore(nodes, before, ids - {last}, nodes[last]);
    assert (ids - {last}) + {last} == ids;
    forall n | n in before
      ensures n.span.start <= nodes[last].span.start
    {
      assert n.span.id in ids && nodes[n.span.id] == n;
    }
  }

  function Swap(list: seq<SpanNode>, i: nat, j: nat): seq<SpanNode>
    requires i < j < |list|
  {
    list[i := list[j]][j := list[i]]
  }

  lemma SwapLists(nodes: map<string, SpanNode>, list: seq<SpanNode>, ids: set<string>, i: nat, j: nat)
    requires ListsNodes(nodes, list, ids) && i < j < |list|
    ensures ListsNodes(nodes, Swap(list, i, j), ids) && Swap(list, i, j) != list
  {
    var other := Swap(list, i, j);
    forall n
      ensures n in other <==> n in list
    {
      if n in list {
        var k :| 0 <= k < |list| && list[k] == n;
        assert other[if k == i then j else if k == j then i else k] == n;
      }
    }
    assert other[i] == list[j] && list[i] != list[j];
  }

  lemma PlaceOf(nodes: map<string, SpanNode>, list: seq<SpanNode>, ids: set<string>, c: string) returns (i: nat)
    requires ListsNodes(nodes, list, ids) && c in ids
    ensures i < |list| && c in nodes && list[i] == nodes[c]
  {
    i :| 0 <= i < |list| && list[i] == nodes[c];
  }

  // What a call may give.

  ghost function Sorted(m: Table, nodes: map<string, SpanNode>): (kids: map<string, seq<SpanNode>>)
    requires IsNodeMap(nodes, m)
    ensures IsForest(m, nodes, kids) && forall p | p in m :: SortedByStart(kids[p])
  {
    map p | p in m :: Arranged(m, nodes, ChildrenOf(m, m.Keys, p))
  }

  /** Child lists that need no sorting are an outcome as they are. */
  lemma OutcomeAsAttached(m: Table, nodes: map<string, SpanNode>, kids: map<string, seq<SpanNode>>,
                          roots: seq<SpanNode>)
    requires IsNodeMap(nodes, m) && IsForest(m, nodes, kids)
    requires forall p | p in m :: Visited(m, p) ==> SortedByStart(kids[p])
    requires ListsNodes(nodes, roots, RootsOf(m, m.Keys)) && SortedByStart(roots)
    ensures Outcome(m, nodes, kids, roots, kids)
  {
    forall p | p in m
      ensures Reached(m, kids, RootsOf(m, m.Keys), p) ==> SortedPerm(kids[p], kids[p])
    {
      VisitedIffReached(m, nodes, kids, p);
    }
  }

  lemma ForestSwapped(m: Table, nodes: map<string, SpanNode>, kids: map<string, seq<SpanNode>>, p: string,
                      list: seq<SpanNode>)
    requires IsForest(m, nodes, kids) && p in m && ListsNodes(nodes, list, ChildrenOf(m, m.Keys, p))
    ensures IsForest(m, nodes, kids[p := list])
  {
  }

  /** The sorted forest with two children of one span exchanged. */
  lemma OutcomeSwapped(m: Table, nodes: map<string, SpanNode>, p: string, i: nat, j: nat)
    returns (kids: map<string, seq<SpanNode>>)
    requires IsNodeMap(nodes, m) && p in m && i < j < |Sorted(m, nodes)[p]|
    requires Visited(m, p) ==> SortedByStart(Swap(Sorted(m, nodes)[p], i, j))
    ensures kids == Sorted(m, nodes)[p := Swap(Sorted(m, nodes)[p], i, j)]
    ensures Outcome(m, nodes, kids, Arranged(m, nodes, RootsOf(m, m.Keys)), kids)
    ensures kids[p] != Sorted(m, nodes)[p]
  {
    kids := Sorted(m, nodes)[p := Swap(Sorted(m, nodes)[p], i, j)];
    SwapLists(nodes, Sorted(m, nodes)[p], ChildrenOf(m, m.Keys, p), i, j);
    ForestSwapped(m, nodes, Sorted(m, nodes), p, Swap(Sorted(m, nodes)[p], i, j));
    OutcomeAsAttached(m, nodes, kids, Arranged(m, nodes, RootsOf(m, m.Keys)));
  }

  // When a child list is sorted.

  /** The children of the span all start together. */
  predicate Together(m: Table, p: string) {
    forall c, d | c in ChildrenOf(m, m.Keys, p) && d in ChildrenOf(m, m.Keys, p) :: m[c].start == m[d].start
  }

  lemma TogetherIsSorted(m: Table, nodes: map<string, SpanNode>, list: seq<SpanNode>, p: string)
    requires IsNodeMap(nodes, m) && ListsNodes(nodes, list, ChildrenOf(m, m.Keys, p)) && Together(m, p)
    ensures SortedByStart(list)
  {
    forall i, j | 0 <= i < j < |list|
      ensures list[i].span.start <= list[j].span.start
    {
      assert list[i] in list && list[j] in list;
    }
  }

  lemma Disorder(m: Table, nodes: map<string, SpanNode>, p: string) returns (kids: map<string, seq<SpanNode>>)
    requires IsNodeMap(nodes, m) && p in m && !Visited(m, p) && !Together(m, p)
    ensures Outcome(m, nodes, kids, Arranged(m, nodes, RootsOf(m, m.Keys)), kids) && !SortedByStart(kids[p])
  {
    var ids, list := ChildrenOf(m, m.Keys, p), Sorted(m, nodes)[p];
    var c, d :| c in ids && d in ids && m[c].start < m[d].start;
    var i, j := OrderedPlaces(m, nodes, list, ids, c, d);
    SwapUnsorts(list, i, j);
    kids := OutcomeSwapped(m, nodes, p, i, j);
  }

  lemma OrderedPlaces(m: Table, nodes: map<string, SpanNode>, list: seq<SpanNode>, ids: set<string>, c: string,
                      d: string)
    returns (i: nat, j: nat)
    requires IsNodeMap(nodes, m) && ids <= m.Keys && ListsNodes(nodes, list, ids) && SortedByStart(list)
    requires c in ids && d in ids && m[c].start < m[d].start
    ensures i < j < |list| && list[i].span.start < list[j].span.start
  {
    i := PlaceOf(nodes, list, ids, c);
    j := PlaceOf(nodes, list, ids, d);
  }

  lemma SwapUnsorts(list: seq<SpanNode>, i: nat, j: nat)
    requires i < j < |list| && list[i].span.start < list[j].span.start
    ensures !SortedByStart(Swap(list, i, j))
  {
    assert Swap(list, i, j)[i] == list[j] && Swap(list, i, j)[j] == list[i];
  }

  /** Main result: the children of a span are in order whatever the maps' order exactly if the sort reaches them, or
      they all start together. */
  lemma ChildrenSortedIff(m: Table, nodes: map<string, SpanNode>, p: string)
    requires IsNodeMap(nodes, m) && p in m
    ensures (forall was, roots, after | Outcome(m, nodes, was, roots, after) :: SortedByStart(after[p])) <==>
            Visited(m, p) || Together(m, p)
  {
    if Visited(m, p) || Together(m, p) {
      forall was, roots, after | Outcome(m, nodes, was, roots, after)
        ensures SortedByStart(after[p])
      {
        VisitedIffReached(m, nodes, was, p);
        if !Visited(m, p) {
          TogetherIsSorted(m, nodes, was[p], p);
        }
      }
    } else {
      var kids := Disorder(m, nodes, p);
    }
  }

  const ONLY_CHILD: Table :=
    map["r" := Span("r", "", 0), "a" := Span("a", "r", 0), "b" := Span("b", "a", 2), "c" := Span("c", "a", 1)]

  /** An example: below an only child, a later span can come first. */
  lemma BelowOnlyChildUnsorted(nodes: map<string, SpanNode>)
    requires IsNodeMap(nodes, ONLY_CHILD)
    ensures exists was, roots, after :: Outcome(ONLY_CHILD, nodes, was, roots, after) && !SortedByStart(after["a"])
  {
    var m := ONLY_CHILD;
    assert ChildrenOf(m, m.Keys, "r") == {"a"};
    assert "b" in ChildrenOf(m, m.Keys, "a") && "c" in ChildrenOf(m, m.Keys, "a") && m["b"].start != m["c"].start;
    forall k: nat | AtDepth(m, "a", k)
      ensures !WideUp(m, "a", k)
    {
      assert !Wide(m, m["a"].parent);
    }
    assert !Visited(m, "a") && !Together(m, "a");
    ChildrenSortedIff(m, nodes, "a");
  }

  // When the forest does not depend on the order of the maps.

  /** No two of these spans start together. */
  predicate Apart(m: Table, ids: set<string>)
    requires ids <= m.Keys
  {
    forall c, d | c in ids && d in ids && m[c].start == m[d].start :: c == d
  }

  lemma {:induction false} OneArrangement(m: Table, nodes: map<string, SpanNode>, ids: set<string>, a: seq<SpanNode>,
                                          b: seq<SpanNode>)
    requires IsNodeMap(nodes, m) && ids <= m.Keys && Apart(m, ids)
    requires ListsNodes(nodes, a, ids) && SortedByStart(a) && ListsNodes(nodes, b, ids) && SortedByStart(b)
    ensures a == b
    decreases |a|
  {
    LengthOfList(m, nodes, a, ids);
    LengthOfList(m, nodes, b, ids);
    if a != [] {
      var n := |a| - 1;
      SameLast(m, nodes, ids, a, b);
      ListWithout(m, nodes, a, ids);
      ListWithout(m, nodes, b, ids);
      SortedPrefix(a, n);
      SortedPrefix(b, n);
      OneArrangement(m, nodes, ids - {a[n].span.id}, a[..n], b[..n]);
      assert a == a[..n] + [a[n]] && b == b[..n] + [b[n]];
    }
  }

  lemma SortedPrefix(list: seq<SpanNode>, n: nat)
    requires SortedByStart(list) && n <= |list|
    ensures SortedByStart(list[..n])
  {
  }

  lemma SameLast(m: Table, nodes: map<string, SpanNode>, ids: set<string>, a: seq<SpanNode>, b: seq<SpanNode>)
    requires IsNodeMap(nodes, m) && ids <= m.Keys && Apart(m, ids) && |a| == |b| > 0
    requires ListsNodes(nodes, a, ids) && SortedByStart(a) && ListsNodes(nodes, b, ids) && SortedByStart(b)
    ensures a[|a| - 1] == b[|b| - 1]
  {
    var n := |a| - 1;
    assert a[n] in a && b[n] in b;
    var i := PlaceOf(nodes, a, ids, b[n].span.id);
    var j := PlaceOf(nodes, b, ids, a[n].span.id);
    assert a[i].span.start <= a[n].span.start && b[j].span.start <= b[n].span.start;
  }

  /** The roots start apart; so do the children of every span that is shown and whose children are sorted; and no other
      span that is shown has two children. */
  ghost predicate Determined(m: Table) {
    && Apart(m, RootsOf(m, m.Keys))
    && forall p | Rooted(m, p) :: if Visited(m, p) then Apart(m, ChildrenOf(m, m.Keys, p)) else !Wide(m, p)
  }

  /** Two outcomes show the same forest. */
  ghost predicate SameShown(m: Table, roots: seq<SpanNode>, kids: map<string, seq<SpanNode>>, roots': seq<SpanNode>,
                            kids': map<string, seq<SpanNode>>)
    requires kids.Keys == m.Keys == kids'.Keys
  {
    roots == roots' && forall p | Rooted(m, p) :: kids[p] == kids'[p]
  }

  lemma {:induction false} SmallIsApart(m: Table, ids: set<string>)
    requires ids <= m.Keys && |ids| <= 1
    ensures Apart(m, ids)
  {
    if c, d :| c in ids && d in ids && c != d {
      assert {c, d} <= ids;
      SmallerSet({c, d}, ids);
    }
  }

  lemma SmallerSet(a: set<string>, b: set<string>)
    requires a <= b
    ensures |a| <= |b|
  {
    assert b == a + (b - a);
  }

  lemma SmallIsSorted(m: Table, nodes: map<string, SpanNode>, list: seq<SpanNode>, ids: set<string>)
    requires IsNodeMap(nodes, m) && ids <= m.Keys
    requires ListsNodes(nodes, list, ids) && |ids| <= 1
    ensures SortedByStart(list)
  {
    LengthOfList(m, nodes, list, ids);
  }

  /** In an outcome of a determined table every list that is shown is sorted, and the same list. */
  lemma DeterminedKids(m: Table, nodes: map<string, SpanNode>, was: map<string, seq<SpanNode>>, roots: seq<SpanNode>,
                       after: map<string, seq<SpanNode>>, p: string)
    requires IsNodeMap(nodes, m) && Determined(m) && Outcome(m, nodes, was, roots, after) && Rooted(m, p)
    ensures after[p] == Sorted(m, nodes)[p]
  {
    var ids := ChildrenOf(m, m.Keys, p);
    VisitedIffReached(m, nodes, was, p);
    if Visited(m, p) {
      PermLists(nodes, after[p], was[p], ids);
    } else {
      SmallIsApart(m, ids);
      SmallIsSorted(m, nodes, after[p], ids);
    }
    OneArrangement(m, nodes, ids, after[p], Sorted(m, nodes)[p]);
  }

  lemma DeterminedOutcome(m: Table, nodes: map<string, SpanNode>, was: map<string, seq<SpanNode>>,
                          roots: seq<SpanNode>, after: map<string, seq<SpanNode>>)
    requires IsNodeMap(nodes, m) && Determined(m) && Outcome(m, nodes, was, roots, after)
    ensures SameShown(m, roots, after, Arranged(m, nodes, RootsOf(m, m.Keys)), Sorted(m, nodes))
  {
    OneArrangement(m, nodes, RootsOf(m, m.Keys), roots, Arranged(m, nodes, RootsOf(m, m.Keys)));
    forall p | Rooted(m, p)
      ensures after[p] == Sorted(m, nodes)[p]
    {
      DeterminedKids(m, nodes, was, roots, after, p);
    }
  }

  lemma SwapSorted(list: seq<SpanNode>, i: nat, j: nat)
    requires SortedByStart(list) && i < j < |list| && list[i].span.start == list[j].span.start
    ensures SortedByStart(Swap(list, i, j))
  {
  }

  /** A tie in a list of spans gives another sorted list. */
  lemma Tie(m: Table, nodes: map<string, SpanNode>, ids: set<string>) returns (i: nat, j: nat)
    requires IsNodeMap(nodes, m) && ids <= m.Keys && !Apart(m, ids)
    ensures var list := Arranged(m, nodes, ids);
            && i < j < |list| && SortedByStart(Swap(list, i, j)) && Swap(list, i, j) != list
            && ListsNodes(nodes, Swap(list, i, j), ids)
  {
    var list := Arranged(m, nodes, ids);
    var c, d :| c in ids && d in ids && m[c].start == m[d].start && c != d;
    i := PlaceOf(nodes, list, ids, c);
    j := PlaceOf(nodes, list, ids, d);
    assert list[i].span.id == c && list[j].span.id == d;
    if j < i {
      i, j := j, i;
    }
    SwapSorted(list, i, j);
    SwapLists(nodes, list, ids, i, j);
  }

  lemma Undetermined(m: Table, nodes: map<string, SpanNode>)
    returns (roots: seq<SpanNode>, kids: map<string, seq<SpanNode>>)
    requires IsNodeMap(nodes, m) && !Determined(m)
    ensures Outcome(m, nodes, kids, roots, kids)
    ensures !SameShown(m, roots, kids, Arranged(m, nodes, RootsOf(m, m.Keys)), Sorted(m, nodes))
  {
    roots, kids := Arranged(m, nodes, RootsOf(m, m.Keys)), Sorted(m, nodes);
    if !Apart(m, RootsOf(m, m.Keys)) {
      var i, j := Tie(m, nodes, RootsOf(m, m.Keys));
      roots := Swap(roots, i, j);
      OutcomeAsAttached(m, nodes, kids, roots);
    } else {
      var p :| Rooted(m, p) && !(if Visited(m, p) then Apart(m, ChildrenOf(m, m.Keys, p)) else !Wide(m, p));
      var ids := ChildrenOf(m, m.Keys, p);
      var i, j: nat := 0, 1;
      if Visited(m, p) {
        i, j := Tie(m, nodes, ids);
      } else {
        LengthOfList(m, nodes, kids[p], ids);
      }
      kids := OutcomeSwapped(m, nodes, p, i, j);
    }
  }

  /** Main result: the forest that is shown is the same whatever order maps are walked in, exactly if the table is
      determined. */
  lemma OneForestIff(m: Table, nodes: map<string, SpanNode>)
    requires IsNodeMap(nodes, m)
    ensures (forall was, roots, after, was', roots', after' ::
               Outcome(m, nodes, was, roots, after) && Outcome(m, nodes, was', roots', after') ==>
                 SameShown(m, roots, after, roots', after')) <==> Determined(m)
  {
    var base := Sorted(m, nodes);
    if Determined(m) {
      forall was, roots, after, was', roots', after' |
        Outcome(m, nodes, was, roots, after) && Outcome(m, nodes, was', roots', after')
        ensures SameShown(m, roots, after, roots', after')
      {
        DeterminedOutcome(m, nodes, was, roots, after);
        DeterminedOutcome(m, nodes, was', roots', after');
      }
    } else {
      OutcomeAsAttached(m, nodes, base, Arranged(m, nodes, RootsOf(m, m.Keys)));
      var roots, kids := Undetermined(m, nodes);
    }
  }
}
