/** The forest of spans: nodes linked to their parents through a pointer map, then sorted sibling by sibling. */
module Spans {
  datatype Span = Span(id: string, parent: string, start: int)

  /** A tree node.  Its children are appended to, and sorted, in place. */
  class SpanNode {
    const span: Span
    var children: seq<SpanNode>

    constructor (s: Span)
      ensures span == s && children == []
    {
      span := s;
      children := [];
    }
  }

  type Table = map<string, Span>

  /** The span kept for each ID: the last one. */
  function LastById(spans: seq<Span>): (m: Table)
    ensures forall id | id in m :: m[id].id == id && m[id] in spans
    ensures forall s | s in spans :: s.id in m
  {
    if spans == [] then map[]
    else
      var before, s := spans[..|spans| - 1], spans[|spans| - 1];
      assert spans == before + [s];
      LastById(before)[s.id := s]
  }

  /** Of the spans with one ID the last counts. */
  lemma {:induction false} LastCounts(spans: seq<Span>, i: nat)
    requires i < |spans| && forall j | i < j < |spans| :: spans[j].id != spans[i].id
    ensures spans[i].id in LastById(spans) && LastById(spans)[spans[i].id] == spans[i]
  {
    if i < |spans| - 1 {
      LastCounts(spans[..|spans| - 1], i);
    }
  }

  predicate IsRoot(m: Table, id: string)
    requires id in m
  {
    m[id].parent == "" || m[id].parent !in m
  }

  /** The parent chain of the span ends at a root after k steps. */
  predicate AtDepth(m: Table, id: string, k: nat)
    requires id in m
    decreases k
  {
    if IsRoot(m, id) then k == 0 else k > 0 && AtDepth(m, m[id].parent, k - 1)
  }

  ghost predicate Rooted(m: Table, id: string) {
    id in m && exists k: nat :: AtDepth(m, id, k)
  }

  lemma {:induction false} DepthIsUnique(m: Table, id: string, j: nat, k: nat)
    requires id in m && AtDepth(m, id, j) && AtDepth(m, id, k)
    ensures j == k
    decreases j
  {
    if !IsRoot(m, id) {
      DepthIsUnique(m, m[id].parent, j - 1, k - 1);
    }
  }

  /** Every depth is below some bound. */
  lemma {:induction false} DepthBound(m: Table, ids: set<string>) returns (bound: nat)
    requires ids <= m.Keys
    ensures forall id, k: nat | id in ids && AtDepth(m, id, k) :: k < bound
  {
    bound := 0;
    if ids != {} {
      var id :| id in ids;
      bound := DepthBound(m, ids - {id});
      if k: nat :| AtDepth(m, id, k) {
        forall j: nat | AtDepth(m, id, j)
          ensures j == k
        {
          DepthIsUnique(m, id, j, k);
        }
        bound := if k < bound then bound else k + 1;
      }
    }
  }

  // The nodes.

  ghost predicate IsNodeMap(nodes: map<string, SpanNode>, m: Table) {
    nodes.Keys == m.Keys && forall id | id in m :: m[id].id == id && nodes[id].span == m[id]
  }

  /** Everybody's children. */
  ghost function Kids(nodes: map<string, SpanNode>): map<string, seq<SpanNode>>
    reads nodes.Values
  {
    map id | id in nodes :: nodes[id].children
  }

  /** The children of p among these spans. */
  function ChildrenOf(m: Table, some: set<string>, p: string): set<string>
    requires some <= m.Keys
  {
    set id | id in some && !IsRoot(m, id) && m[id].parent == p
  }

  function RootsOf(m: Table, some: set<string>): set<string>
    requires some <= m.Keys
  {
    set id | id in some && IsRoot(m, id)
  }

  /** Where a span belongs: under its parent if there is such a span, else among the roots. */
  lemma Belongs(m: Table, id: string, p: string)
    requires id in m
    ensures id in RootsOf(m, m.Keys) <==> m[id].parent == "" || m[id].parent !in m
    ensures id in ChildrenOf(m, m.Keys, p) <==> p == m[id].parent && p != "" && p in m
  {
  }

  /** The list holds the nodes of these IDs, each once. */
  ghost predicate ListsNodes(nodes: map<string, SpanNode>, list: seq<SpanNode>, ids: set<string>) {
    && Distinct(list)
    && (forall n | n in list :: n.span.id in ids && n.span.id in nodes && nodes[n.span.id] == n)
    && (forall id | id in ids :: id in nodes && nodes[id] in list)
  }

  lemma ListsMore(nodes: map<string, SpanNode>, list: seq<SpanNode>, ids: set<string>, n: SpanNode)
    requires ListsNodes(nodes, list, ids) && n.span.id in nodes && nodes[n.span.id] == n && n.span.id !in ids
    ensures ListsNodes(nodes, list + [n], ids + {n.span.id})
  {
  }

  /** The spans attached so far are each in one place: under their parent, or among the roots. */
  ghost predicate Attached(m: Table, nodes: map<string, SpanNode>, some: set<string>, roots: seq<SpanNode>,
                           kids: map<string, seq<SpanNode>>) {
    && some <= m.Keys && kids.Keys == m.Keys
    && ListsNodes(nodes, roots, RootsOf(m, some))
    && forall p | p in m :: ListsNodes(nodes, kids[p], ChildrenOf(m, some, p))
  }

  lemma RootsGrow(m: Table, some: set<string>, id: string)
    requires some <= m.Keys && id in m
    ensures RootsOf(m, some + {id}) == RootsOf(m, some) + if IsRoot(m, id) then {id} else {}
  {
  }

  lemma NoneMore(m: Table, nodes: map<string, SpanNode>, some: set<string>, list: seq<SpanNode>, id: string, p: string)
    requires some <= m.Keys && id in m && ListsNodes(nodes, list, ChildrenOf(m, some, p))
    requires IsRoot(m, id) || m[id].parent != p
    ensures ListsNodes(nodes, list, ChildrenOf(m, some + {id}, p))
  {
  }

  lemma AttachRoot(m: Table, nodes: map<string, SpanNode>, some: set<string>, roots: seq<SpanNode>,
                   kids: map<string, seq<SpanNode>>, id: string)
    requires IsNodeMap(nodes, m) && Attached(m, nodes, some, roots, kids) && id in m && id !in some && IsRoot(m, id)
    ensures Attached(m, nodes, some + {id}, roots + [nodes[id]], kids)
  {
    RootsGrow(m, some, id);
    ListsMore(nodes, roots, RootsOf(m, some), nodes[id]);
    forall p | p in m
      ensures ListsNodes(nodes, kids[p], ChildrenOf(m, some + {id}, p))
    {
      NoneMore(m, nodes, some, kids[p], id, p);
    }
  }

  lemma RootsSame(m: Table, nodes: map<string, SpanNode>, some: set<string>, roots: seq<SpanNode>, id: string)
    requires some <= m.Keys && id in m && !IsRoot(m, id) && ListsNodes(nodes, roots, RootsOf(m, some))
    ensures ListsNodes(nodes, roots, RootsOf(m, some + {id}))
  {
  }

  lemma ChildMore(m: Table, nodes: map<string, SpanNode>, some: set<string>, list: seq<SpanNode>, id: string)
    requires IsNodeMap(nodes, m) && some <= m.Keys && id in m && id !in some && !IsRoot(m, id)
    requires ListsNodes(nodes, list, ChildrenOf(m, some, m[id].parent))
    ensures ListsNodes(nodes, list + [nodes[id]], ChildrenOf(m, some + {id}, m[id].parent))
  {
  }

  lemma AttachChild(m: Table, nodes: map<string, SpanNode>, some: set<string>, roots: seq<SpanNode>,
                    kids: map<string, seq<SpanNode>>, id: string)
    requires IsNodeMap(nodes, m) && Attached(m, nodes, some, roots, kids) && id in m && id !in some && !IsRoot(m, id)
    ensures var p := m[id].parent;
            Attached(m, nodes, some + {id}, roots, kids[p := kids[p] + [nodes[id]]])
  {
    var p := m[id].parent;
    var after := kids[p := kids[p] + [nodes[id]]];
    RootsSame(m, nodes, some, roots, id);
    ChildMore(m, nodes, some, kids[p], id);
    forall q | q in m
      ensures ListsNodes(nodes, after[q], ChildrenOf(m, some + {id}, q))
    {
      if q != p {
        assert after[q] == kids[q];
        NoneMore(m, nodes, some, kids[q], id, q);
      }
    }
  }

  method MakeNodes(spans: seq<Span>) returns (nodes: map<string, SpanNode>)
    ensures IsNodeMap(nodes, LastById(spans))
    ensures forall id | id in nodes :: fresh(nodes[id]) && nodes[id].children == []
  {
    nodes := map[];
    for i := 0 to |spans|
      invariant IsNodeMap(nodes, LastById(spans[..i]))
      invariant forall id | id in nodes :: fresh(nodes[id]) && nodes[id].children == []
    {
      assert spans[..i + 1][..i] == spans[..i];
      var n := new SpanNode(spans[i]);
      nodes := nodes[spans[i].id := n];
    }
    assert spans[..|spans|] == spans;
  }

  /** Appending to one node's children leaves everybody else's as they were. */
  method AppendChild(nodes: map<string, SpanNode>, ghost m: Table, p: string, n: SpanNode)
    requires IsNodeMap(nodes, m) && p in nodes
    modifies nodes[p]
    ensures Kids(nodes) == old(Kids(nodes))[p := old(Kids(nodes))[p] + [n]]
  {
    var parent := nodes[p];
    forall q | q in nodes && q != p
      ensures nodes[q] != parent
    {
      assert m[q].id == q && m[p].id == p;
    }
    parent.children := parent.children + [n];
  }

  lemma OneMoved(done: set<string>, todo: set<string>, id: string)
    requires id in todo && done !! todo
    ensures (done + {id}) + (todo - {id}) == done + todo && (done + {id}) !! (todo - {id}) && id !in done
  {
  }

  /** Links the nodes, in any order. */
  method Attach(nodes: map<string, SpanNode>, ghost m: Table) returns (roots: seq<SpanNode>)
    requires IsNodeMap(nodes, m) && forall id | id in nodes :: nodes[id].children == []
    modifies nodes.Values
    ensures Attached(m, nodes, m.Keys, roots, Kids(nodes))
  {
    roots := [];
    var todo := nodes.Keys;
    ghost var done: set<string>, kids := {}, Kids(nodes);
    NothingAttached(m, nodes, kids);
    while todo != {}
      invariant done + todo == m.Keys && done !! todo
      invariant kids == Kids(nodes)
      invariant Attached(m, nodes, done, roots, kids)
      decreases todo
    {
      var id :| id in todo;
      OneMoved(done, todo, id);
      roots, kids := AttachOne(nodes, m, done, roots, kids, id);
      todo, done := todo - {id}, done + {id};
    }
    assert done == m.Keys;
  }

  lemma NothingAttached(m: Table, nodes: map<string, SpanNode>, kids: map<string, seq<SpanNode>>)
    requires kids.Keys == m.Keys && forall p | p in kids :: kids[p] == []
    ensures Attached(m, nodes, {}, [], kids)
  {
  }

  method AttachOne(nodes: map<string, SpanNode>, ghost m: Table, ghost done: set<string>, roots: seq<SpanNode>,
                   ghost kids: map<string, seq<SpanNode>>, id: string)
    returns (more: seq<SpanNode>, ghost after: map<string, seq<SpanNode>>)
    requires IsNodeMap(nodes, m) && id in m && id !in done && kids == Kids(nodes)
        && Attached(m, nodes, done, roots, kids)
    modifies nodes.Values
    ensures after == Kids(nodes) && Attached(m, nodes, done + {id}, more, after)
  {
    var node := nodes[id];
    more, after := roots, kids;
    if node.span.parent == "" {
      AttachRoot(m, nodes, done, roots, kids, id);
      more := more + [node];
    } else if node.span.parent in nodes {
      AttachChild(m, nodes, done, roots, kids, id);
      AppendChild(nodes, m, node.span.parent, node);
      after := Kids(nodes);
    } else {
      AttachRoot(m, nodes, done, roots, kids, id);
      more := more + [node];
    }
  }

  // Sorting.

  predicate SortedByStart(list: seq<SpanNode>) {
    forall i, j | 0 <= i < j < |list| :: list[i].span.start <= list[j].span.start
  }

  predicate SortedPerm(after: seq<SpanNode>, before: seq<SpanNode>) {
    SortedByStart(after) && multiset(after) == multiset(before)
  }

  lemma PermMember(after: seq<SpanNode>, before: seq<SpanNode>, n: SpanNode)
    requires multiset(after) == multiset(before)
    ensures n in after <==> n in before
  {
    assert n in after <==> n in multiset(after);
    assert n in before <==> n in multiset(before);
  }

  lemma LastStaysLast(longer: seq<SpanNode>, before: seq<SpanNode>, last: SpanNode, n: SpanNode)
    requires SortedPerm(longer, before + [n]) && SortedByStart(before + [last]) && n.span.start <= last.span.start
    ensures SortedByStart(longer + [last])
    ensures multiset(longer + [last]) == multiset(before + [last] + [n])
  {
    forall i | 0 <= i < |longer|
      ensures longer[i].span.start <= last.span.start
    {
      PermMember(longer, before + [n], longer[i]);
      if longer[i] in before {
        var j :| 0 <= j < |before| && before[j] == longer[i];
        assert (before + [last])[j] == before[j] && (before + [last])[|before|] == last;
      }
    }
  }

  method Insert(list: seq<SpanNode>, n: SpanNode) returns (longer: seq<SpanNode>)
    requires SortedByStart(list)
    ensures SortedPerm(longer, list + [n])
  {
    if list == [] || list[|list| - 1].span.start <= n.span.start {
      longer := list + [n];
    } else {
      var before, last := list[..|list| - 1], list[|list| - 1];
      assert list == before + [last];
      longer := Insert(before, n);
      LastStaysLast(longer, before, last, n);
      longer := longer + [last];
    }
  }

  /** The library sort: some ordering of the list by start time. */
  method SortByStart(list: seq<SpanNode>) returns (sorted: seq<SpanNode>)
    ensures SortedPerm(sorted, list)
  {
    sorted := [];
    for i := 0 to |list|
      invariant SortedPerm(sorted, list[..i])
    {
      assert list[..i + 1] == list[..i] + [list[i]];
      sorted := Insert(sorted, list[i]);
    }
    assert list[..|list|] == list;
  }

  predicate Distinct(list: seq<SpanNode>) {
    forall i, j | 0 <= i < j < |list| :: list[i] != list[j]
  }

  lemma {:induction false} OnceEach(list: seq<SpanNode>, n: SpanNode)
    requires Distinct(list)
    ensures multiset(list)[n] <= 1
  {
    if list != [] {
      var before, last := list[..|list| - 1], list[|list| - 1];
      assert list == before + [last];
      OnceEach(before, n);
      assert last !in before;
    }
  }

  lemma PermDistinct(after: seq<SpanNode>, before: seq<SpanNode>)
    requires multiset(after) == multiset(before) && Distinct(before)
    ensures Distinct(after)
  {
    forall i, j | 0 <= i < j < |after|
      ensures after[i] != after[j]
    {
      if after[i] == after[j] {
        TwiceIn(after, i, j);
        OnceEach(before, after[j]);
      }
    }
  }

  lemma TwiceIn(list: seq<SpanNode>, i: nat, j: nat)
    requires i < j < |list| && list[i] == list[j]
    ensures multiset(list)[list[j]] >= 2
  {
    assert list == list[..j] + [list[j]] + list[j + 1..];
    assert list[..j][i] == list[j];
  }

  /** Sorting from `top` reaches the children of p: p and everything between it and `top` has at least two children. */
  predicate Reaches(m: Table, was: map<string, seq<SpanNode>>, top: string, p: string, k: nat)
    requires was.Keys == m.Keys && p in m && AtDepth(m, p, k)
    decreases k
  {
    |was[p]| > 1 && (p == top || (!IsRoot(m, p) && Reaches(m, was, top, m[p].parent, k - 1)))
  }

  ghost predicate Reached(m: Table, was: map<string, seq<SpanNode>>, tops: set<string>, p: string)
    requires was.Keys == m.Keys
  {
    p in m && exists top, k: nat :: top in tops && AtDepth(m, p, k) && Reaches(m, was, top, p, k)
  }

  lemma {:induction false} ReachedIsBelow(m: Table, was: map<string, seq<SpanNode>>, top: string, d: nat, p: string,
                                          k: nat)
    requires was.Keys == m.Keys && p in m && AtDepth(m, p, k) && top in m && AtDepth(m, top, d)
    requires Reaches(m, was, top, p, k)
    ensures d <= k && (d == k <==> p == top)
    decreases k
  {
    if p == top {
      DepthIsUnique(m, p, d, k);
    } else {
      ReachedIsBelow(m, was, top, d, m[p].parent, k - 1);
    }
  }

  /** Two spans of one depth do not reach the same node. */
  lemma {:induction false} ReachedFromOne(m: Table, was: map<string, seq<SpanNode>>, a: string, b: string, d: nat,
                                          p: string, k: nat)
    requires was.Keys == m.Keys && p in m && AtDepth(m, p, k)
    requires a in m && b in m && AtDepth(m, a, d) && AtDepth(m, b, d)
    requires Reaches(m, was, a, p, k) && Reaches(m, was, b, p, k)
    ensures a == b
    decreases k
  {
    ReachedIsBelow(m, was, a, d, p, k);
    ReachedIsBelow(m, was, b, d, p, k);
    if p != a && p != b {
      ReachedFromOne(m, was, a, b, d, m[p].parent, k - 1);
    }
  }

  predicate ChildOf(m: Table, c: string, p: string) {
    c in m && !IsRoot(m, c) && m[c].parent == p
  }

  /** A span reaches itself, and what its children reach, if it has at least two children; otherwise nothing. */
  lemma {:induction false} ReachesBySteps(m: Table, was: map<string, seq<SpanNode>>, top: string, p: string, k: nat)
    requires was.Keys == m.Keys && p in m && AtDepth(m, p, k) && top in m
    ensures Reaches(m, was, top, p, k) <==>
            |was[top]| > 1 && (p == top || exists c :: ChildOf(m, c, top) && Reaches(m, was, c, p, k))
    decreases k
  {
    if !IsRoot(m, p) {
      var q := m[p].parent;
      ReachesBySteps(m, was, top, q, k - 1);
      if |was[p]| > 1 {
        assert ChildOf(m, p, q) && Reaches(m, was, p, p, k);
        forall c | ChildOf(m, c, top)
          ensures Reaches(m, was, c, p, k) <==> c == p || Reaches(m, was, c, q, k - 1)
        {
        }
      }
    }
  }

  // What sorting does to everybody's children.

  function IdSet(list: seq<SpanNode>): set<string> {
    set n | n in list :: n.span.id
  }

  /** The children reached from `tops` have been sorted; all others are in the order they were. */
  ghost predicate Resorted(m: Table, was: map<string, seq<SpanNode>>, tops: set<string>,
                           before: map<string, seq<SpanNode>>, after: map<string, seq<SpanNode>>) {
    && was.Keys == m.Keys == before.Keys == after.Keys
    && forall p | p in m :: if Reached(m, was, tops, p) then SortedPerm(after[p], was[p]) else after[p] == before[p]
  }

  /** Every child list holds the children, each once. */
  ghost predicate IsForest(m: Table, nodes: map<string, SpanNode>, was: map<string, seq<SpanNode>>) {
    was.Keys == m.Keys && forall p | p in m :: ListsNodes(nodes, was[p], ChildrenOf(m, m.Keys, p))
  }

  /** The list holds distinct nodes of one depth. */
  ghost predicate Siblings(m: Table, nodes: map<string, SpanNode>, list: seq<SpanNode>, depth: nat) {
    && Distinct(list)
    && forall n | n in list :: n.span.id in m && n.span.id in nodes && nodes[n.span.id] == n
        && AtDepth(m, n.span.id, depth)
  }

  /** The child lists that sorting is to reach are still as they were. */
  ghost predicate Untouched(m: Table, was: map<string, seq<SpanNode>>, tops: set<string>, now: map<string,
                            seq<SpanNode>>) {
    was.Keys == m.Keys == now.Keys && forall p | p in m && Reached(m, was, tops, p) :: now[p] == was[p]
  }

  ghost predicate SameWidths(m: Table, was: map<string, seq<SpanNode>>, now: map<string, seq<SpanNode>>) {
    was.Keys == m.Keys == now.Keys && forall p | p in m :: |now[p]| == |was[p]|
  }

  lemma ChildrenAreSiblings(m: Table, nodes: map<string, SpanNode>, was: map<string, seq<SpanNode>>, q: string, d: nat)
    requires IsNodeMap(nodes, m) && IsForest(m, nodes, was) && q in m && AtDepth(m, q, d)
    ensures Siblings(m, nodes, was[q], d + 1)
    ensures IdSet(was[q]) == ChildrenOf(m, m.Keys, q)
  {
  }

  /** A span with at least two children reaches itself and what its children reach. */
  lemma ReachedThroughChildren(m: Table, was: map<string, seq<SpanNode>>, q: string, p: string)
    requires was.Keys == m.Keys && q in m
    ensures |was[q]| <= 1 ==> !Reached(m, was, {q}, p)
    ensures |was[q]| > 1 && Rooted(m, q) ==>
              (Reached(m, was, {q}, p) <==> p == q || Reached(m, was, ChildrenOf(m, m.Keys, q), p))
  {
    if Reached(m, was, {q}, p) {
      var top, k: nat :| top in {q} && AtDepth(m, p, k) && Reaches(m, was, top, p, k);
      ReachesBySteps(m, was, q, p, k);
      if p != q {
        var c :| ChildOf(m, c, q) && Reaches(m, was, c, p, k);
        assert c in ChildrenOf(m, m.Keys, q);
      }
    }
    if |was[q]| > 1 && Reached(m, was, ChildrenOf(m, m.Keys, q), p) {
      var c, k: nat :| c in ChildrenOf(m, m.Keys, q) && AtDepth(m, p, k) && Reaches(m, was, c, p, k);
      assert ChildOf(m, c, q);
      ReachesBySteps(m, was, q, p, k);
      assert q in {q};
    }
    if |was[q]| > 1 && Rooted(m, q) && p == q {
      var k: nat :| AtDepth(m, q, k);
      assert q in {q} && Reaches(m, was, q, q, k);
    }
  }

  lemma ReachedByEither(m: Table, was: map<string, seq<SpanNode>>, a: set<string>, b: set<string>, p: string)
    requires was.Keys == m.Keys
    ensures Reached(m, was, a + b, p) <==> Reached(m, was, a, p) || Reached(m, was, b, p)
  {
  }

  /** Distinct spans of one depth reach different nodes. */
  lemma ReachedApart(m: Table, was: map<string, seq<SpanNode>>, tops: set<string>, q: string, d: nat, p: string)
    requires was.Keys == m.Keys && q in m && q !in tops && AtDepth(m, q, d)
    requires forall top | top in tops :: top in m && AtDepth(m, top, d)
    ensures !(Reached(m, was, tops, p) && Reached(m, was, {q}, p))
  {
    if Reached(m, was, tops, p) && Reached(m, was, {q}, p) {
      var top, k: nat :| top in tops && AtDepth(m, p, k) && Reaches(m, was, top, p, k);
      var r, j: nat :| r in {q} && AtDepth(m, p, j) && Reaches(m, was, r, p, j);
      DepthIsUnique(m, p, j, k);
      ReachedFromOne(m, was, top, q, d, p, k);
    }
  }

  /** Before a node is visited, what it reaches is as it was. */
  lemma StillUntouched(m: Table, was: map<string, seq<SpanNode>>, all: set<string>, done: set<string>, q: string,
                       d: nat,
                       before: map<string, seq<SpanNode>>, now: map<string, seq<SpanNode>>)
    requires Untouched(m, was, all, before) && Resorted(m, was, done, before, now)
    requires q in all && q !in done && q in m && AtDepth(m, q, d)
    requires forall top | top in done :: top in m && AtDepth(m, top, d)
    ensures Untouched(m, was, {q}, now)
  {
    forall p | p in m && Reached(m, was, {q}, p)
      ensures now[p] == was[p]
    {
      ReachedApart(m, was, done, q, d, p);
      ReachedByEither(m, was, all, {q}, p);
      assert all + {q} == all;
    }
  }

  lemma ChildrenUntouched(m: Table, was: map<string, seq<SpanNode>>, q: string, now: map<string, seq<SpanNode>>)
    requires Untouched(m, was, {q}, now) && q in m && Rooted(m, q) && |was[q]| > 1
    ensures now[q] == was[q] && Untouched(m, was, ChildrenOf(m, m.Keys, q), now)
  {
    ReachedThroughChildren(m, was, q, q);
    forall p | p in m && Reached(m, was, ChildrenOf(m, m.Keys, q), p)
      ensures now[p] == was[p]
    {
      ReachedThroughChildren(m, was, q, p);
    }
  }

  /** A node without two children has nothing to visit. */
  lemma SkipNode(m: Table, was: map<string, seq<SpanNode>>, done: set<string>, q: string,
                 before: map<string, seq<SpanNode>>, now: map<string, seq<SpanNode>>)
    requires Resorted(m, was, done, before, now) && q in m && |was[q]| <= 1
    ensures Resorted(m, was, done + {q}, before, now)
  {
    forall p | p in m
      ensures Reached(m, was, done + {q}, p) <==> Reached(m, was, done, p)
    {
      ReachedByEither(m, was, done, {q}, p);
      ReachedThroughChildren(m, was, q, p);
    }
  }

  /** Visiting a node: below its children first, then its own list. */
  lemma VisitNode(m: Table, was: map<string, seq<SpanNode>>, done: set<string>, q: string, d: nat, list: seq<SpanNode>,
                  before: map<string, seq<SpanNode>>, now: map<string, seq<SpanNode>>, later: map<string,
                      seq<SpanNode>>)
    requires Resorted(m, was, done, before, now) && q in m && q !in done && |was[q]| > 1 && AtDepth(m, q, d)
    requires forall top | top in done :: top in m && AtDepth(m, top, d)
    requires Resorted(m, was, ChildrenOf(m, m.Keys, q), now, later) && SortedPerm(list, was[q])
    ensures Resorted(m, was, done + {q}, before, later[q := list])
  {
    forall p | p in m
      ensures if Reached(m, was, done + {q}, p) then SortedPerm(later[q := list][p],
          was[p]) else later[q := list][p] == before[p]
    {
      ReachedByEither(m, was, done, {q}, p);
      ReachedThroughChildren(m, was, q, p);
      ReachedApart(m, was, done, q, d, p);
    }
  }

  lemma WidthsKept(m: Table, was: map<string, seq<SpanNode>>, tops: set<string>,
                   before: map<string, seq<SpanNode>>, after: map<string, seq<SpanNode>>)
    requires Resorted(m, was, tops, before, after) && SameWidths(m, was, before)
    ensures SameWidths(m, was, after)
  {
    forall p | p in m
      ensures |after[p]| == |was[p]|
    {
      if Reached(m, was, tops, p) {
        assert |multiset(after[p])| == |multiset(was[p])|;
      }
    }
  }

  method SetChildren(node: SpanNode, ghost nodes: map<string, SpanNode>, ghost m: Table, list: seq<SpanNode>)
    requires IsNodeMap(nodes, m) && node.span.id in nodes && nodes[node.span.id] == node
    modifies node
    ensures Kids(nodes) == old(Kids(nodes))[node.span.id := list]
  {
    forall p | p in nodes && p != node.span.id
      ensures nodes[p] != node
    {
      assert m[p].id == p;
    }
    node.children := list;
  }

  /** Sorts a list of siblings by start time, then the child lists below it, descending only below nodes with at
      least two children.  The recursion ends because depths are bounded. */
  method SortSpanNodes(list: seq<SpanNode>, ghost nodes: map<string, SpanNode>, ghost m: Table,
                       ghost was: map<string, seq<SpanNode>>, ghost depth: nat, ghost bound: nat)
    returns (sorted: seq<SpanNode>)
    requires IsNodeMap(nodes, m) && IsForest(m, nodes, was) && Siblings(m, nodes, list, depth)
    requires forall id, k: nat | id in m && AtDepth(m, id, k) :: k < bound
    requires SameWidths(m, was, Kids(nodes)) && Untouched(m, was, IdSet(list), Kids(nodes))
    modifies nodes.Values
    ensures SortedPerm(sorted, list)
    ensures Resorted(m, was, IdSet(list), old(Kids(nodes)), Kids(nodes))
    decreases bound - depth
  {
    sorted := SortByStart(list);
    PermSiblings(m, nodes, sorted, list, depth);
    ghost var before, now := Kids(nodes), Kids(nodes);
    NothingResorted(m, was, before);
    for i := 0 to |sorted|
      invariant now == Kids(nodes)
      invariant Resorted(m, was, IdSet(sorted[..i]), before, now)
    {
      IdSetGrows(sorted, i);
      now := SortBelow(sorted[i], nodes, m, was, depth, bound, IdSet(list), IdSet(sorted[..i]), before, now);
    }
    assert sorted[..|sorted|] == sorted;
  }

  /** One node's turn in the loop. */
  method SortBelow(n: SpanNode, ghost nodes: map<string, SpanNode>, ghost m: Table, ghost was: map<string,
                   seq<SpanNode>>,
                   ghost depth: nat, ghost bound: nat, ghost all: set<string>, ghost done: set<string>,
                   ghost before: map<string, seq<SpanNode>>, ghost now: map<string, seq<SpanNode>>)
    returns (ghost after: map<string, seq<SpanNode>>)
    requires IsNodeMap(nodes, m) && IsForest(m, nodes, was)
    requires forall id, k: nat | id in m && AtDepth(m, id, k) :: k < bound
    requires n.span.id in m && nodes[n.span.id] == n && AtDepth(m, n.span.id, depth)
    requires n.span.id in all && n.span.id !in done && forall top | top in done :: top in m && AtDepth(m, top, depth)
    requires now == Kids(nodes) && SameWidths(m, was, before) && Untouched(m, was, all, before)
    requires Resorted(m, was, done, before, now)
    modifies nodes.Values
    ensures after == Kids(nodes) && Resorted(m, was, done + {n.span.id}, before, after)
    decreases bound - depth, 0
  {
    ghost var q := n.span.id;
    after := now;
    WidthsKept(m, was, done, before, now);
    if |n.children| > 1 {
      StillUntouched(m, was, all, done, q, depth, before, now);
      ChildrenUntouched(m, was, q, now);
      ChildrenAreSiblings(m, nodes, was, q, depth);
      assert n.children[0] in was[q];
      var sorted := SortSpanNodes(n.children, nodes, m, was, depth + 1, bound);
      VisitNode(m, was, done, q, depth, sorted, before, now, Kids(nodes));
      SetChildren(n, nodes, m, sorted);
      after := Kids(nodes);
    } else {
      SkipNode(m, was, done, q, before, now);
    }
  }

  lemma PermSiblings(m: Table, nodes: map<string, SpanNode>, after: seq<SpanNode>, before: seq<SpanNode>, depth: nat)
    requires Siblings(m, nodes, before, depth) && multiset(after) == multiset(before)
    ensures Siblings(m, nodes, after, depth) && IdSet(after) == IdSet(before)
  {
    PermDistinct(after, before);
    forall n
      ensures n in after <==> n in before
    {
      PermMember(after, before, n);
    }
  }

  lemma NothingResorted(m: Table, was: map<string, seq<SpanNode>>, now: map<string, seq<SpanNode>>)
    requires was.Keys == m.Keys == now.Keys
    ensures Resorted(m, was, {}, now, now)
  {
  }

  lemma IdSetGrows(list: seq<SpanNode>, i: nat)
    requires i < |list|
    ensures IdSet(list[..i + 1]) == IdSet(list[..i]) + {list[i].span.id}
  {
  }

  /** Some order of walking the maps, and some way of sorting equal starts, gives these roots and child lists. */
  ghost predicate Outcome(m: Table, nodes: map<string, SpanNode>, was: map<string, seq<SpanNode>>,
                          roots: seq<SpanNode>, after: map<string, seq<SpanNode>>) {
    && IsForest(m, nodes, was)
    && ListsNodes(nodes, roots, RootsOf(m, m.Keys)) && SortedByStart(roots)
    && Resorted(m, was, RootsOf(m, m.Keys), was, after)
  }

  /** The whole call.  `nodes` are the nodes made, `attached` their children in the order of attachment. */
  method BuildSpanTree(spans: seq<Span>)
    returns (roots: seq<SpanNode>, ghost nodes: map<string, SpanNode>, ghost attached: map<string, seq<SpanNode>>)
    ensures IsNodeMap(nodes, LastById(spans)) && forall id | id in nodes :: fresh(nodes[id])
    ensures Outcome(LastById(spans), nodes, attached, roots, Kids(nodes))
    ensures IsForest(LastById(spans), nodes, Kids(nodes))
  {
    ghost var m := LastById(spans);
    var table := MakeNodes(spans);
    nodes := table;
    var linked := Attach(table, m);
    attached := Kids(nodes);
    ghost var bound := DepthBound(m, m.Keys);
    RootsAreSiblings(m, nodes, linked);
    roots := SortSpanNodes(linked, nodes, m, attached, 0, bound);
    PermLists(nodes, roots, linked, RootsOf(m, m.Keys));
    StillForest(m, nodes, attached, RootsOf(m, m.Keys), Kids(nodes));
  }

  lemma RootsAreSiblings(m: Table, nodes: map<string, SpanNode>, roots: seq<SpanNode>)
    requires IsNodeMap(nodes, m) && ListsNodes(nodes, roots, RootsOf(m, m.Keys))
    ensures Siblings(m, nodes, roots, 0) && IdSet(roots) == RootsOf(m, m.Keys)
  {
  }

  lemma PermLists(nodes: map<string, SpanNode>, after: seq<SpanNode>, before: seq<SpanNode>, ids: set<string>)
    requires ListsNodes(nodes, before, ids) && multiset(after) == multiset(before)
    ensures ListsNodes(nodes, after, ids)
  {
    PermDistinct(after, before);
    forall n
      ensures n in after <==> n in before
    {
      PermMember(after, before, n);
    }
  }

  /** Sorting permutes only siblings. */
  lemma StillForest(m: Table, nodes: map<string, SpanNode>, was: map<string, seq<SpanNode>>, tops: set<string>,
                    after: map<string, seq<SpanNode>>)
    requires IsForest(m, nodes, was) && Resorted(m, was, tops, was, after)
    ensures IsForest(m, nodes, after)
  {
    forall p | p in m
      ensures ListsNodes(nodes, after[p], ChildrenOf(m, m.Keys, p))
    {
      if Reached(m, was, tops, p) {
        PermLists(nodes, after[p], was[p], ChildrenOf(m, m.Keys, p));
      }
    }
  }

  /** The span is shown k levels below the roots. */
  ghost predicate Shown(roots: seq<SpanNode>, kids: map<string, seq<SpanNode>>, id: string, k: nat)
    decreases k
  {
    if k == 0 then exists n :: n in roots && n.span.id == id
    else exists p, n :: p in kids && Shown(roots, kids, p, k - 1) && n in kids[p] && n.span.id == id
  }

  lemma {:induction false} ShownIsRooted(m: Table, nodes: map<string, SpanNode>, roots: seq<SpanNode>,
                                         kids: map<string, seq<SpanNode>>, id: string, k: nat)
    requires IsForest(m, nodes, kids) && ListsNodes(nodes, roots, RootsOf(m, m.Keys))
    requires Shown(roots, kids, id, k)
    ensures id in m && AtDepth(m, id, k)
    decreases k
  {
    if k == 0 {
      var n :| n in roots && n.span.id == id;
      assert id in RootsOf(m, m.Keys);
    } else {
      var p, n :| p in kids && Shown(roots, kids, p, k - 1) && n in kids[p] && n.span.id == id;
      ShownIsRooted(m, nodes, roots, kids, p, k - 1);
      assert id in ChildrenOf(m, m.Keys, p);
    }
  }

  lemma {:induction false} RootedIsShown(m: Table, nodes: map<string, SpanNode>, roots: seq<SpanNode>,
                                         kids: map<string, seq<SpanNode>>, id: string, k: nat)
    requires IsNodeMap(nodes, m) && IsForest(m, nodes, kids) && ListsNodes(nodes, roots, RootsOf(m, m.Keys))
    requires id in m && AtDepth(m, id, k)
    ensures Shown(roots, kids, id, k)
    decreases k
  {
    if k == 0 {
      assert id in RootsOf(m, m.Keys);
      assert nodes[id] in roots && nodes[id].span.id == id;
    } else {
      var p := m[id].parent;
      RootedIsShown(m, nodes, roots, kids, p, k - 1);
      assert id in ChildrenOf(m, m.Keys, p);
      assert nodes[id] in kids[p] && nodes[id].span.id == id;
    }
  }

  /** Main result: the forest shows exactly the spans whose parent chain ends, each at the depth of its chain. */
  lemma ShownIffRooted(m: Table, nodes: map<string, SpanNode>, roots: seq<SpanNode>,
                       kids: map<string, seq<SpanNode>>, id: string, k: nat)
    requires IsNodeMap(nodes, m) && IsForest(m, nodes, kids) && ListsNodes(nodes, roots, RootsOf(m, m.Keys))
    ensures Shown(roots, kids, id, k) <==> id in m && AtDepth(m, id, k)
  {
    if Shown(roots, kids, id, k) {
      ShownIsRooted(m, nodes, roots, kids, id, k);
    } else if id in m && AtDepth(m, id, k) {
      RootedIsShown(m, nodes, roots, kids, id, k);
    }
  }

  /** Each span that is shown hangs in one place: the child lists of two different spans share no node, and no root is
      anybody's child. */
  lemma ShownOnce(m: Table, nodes: map<string, SpanNode>, roots: seq<SpanNode>, kids: map<string, seq<SpanNode>>,
                  p: string, q: string, n: SpanNode)
    requires IsNodeMap(nodes, m) && IsForest(m, nodes, kids) && ListsNodes(nodes, roots, RootsOf(m, m.Keys))
    requires p in m && n in kids[p]
    ensures n !in roots && Distinct(kids[p]) && (q in m && q != p ==> n !in kids[q])
  {
    assert n.span.id in ChildrenOf(m, m.Keys, p);
  }

  function Up(m: Table, id: string, j: nat): string
    requires id in m
    decreases j
  {
    if j == 0 || IsRoot(m, id) then id else Up(m, m[id].parent, j - 1)
  }

  lemma {:induction false} UpIsHigher(m: Table, id: string, j: nat, k: nat)
    requires id in m && AtDepth(m, id, k)
    ensures Up(m, id, j) in m && AtDepth(m, Up(m, id, j), if j <= k then k - j else 0)
    decreases j
  {
    if j > 0 && !IsRoot(m, id) {
      UpIsHigher(m, m[id].parent, j - 1, k - 1);
    }
  }

  /** Spans on a parent cycle are not shown at all. */
  lemma CycleIsNotShown(m: Table, id: string, j: nat)
    requires id in m && !IsRoot(m, id) && j > 0 && Up(m, id, j) == id
    ensures !Rooted(m, id)
  {
    if k: nat :| AtDepth(m, id, k) {
      UpIsHigher(m, id, j, k);
      DepthIsUnique(m, id, k, if j <= k then k - j else 0);
      assert false;
    }
  }
}
