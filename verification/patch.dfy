/** The diff is a sufficient patch: writing every wanted value at its dotted path leaves nothing to report. */
module Patch {
  import opened Values
  import opened Compare
  import opened DiffLaws

  /** A key that cannot be confused with a path. */
  predicate PlainKey(k: string) {
    k != "" && '.' !in k
  }

  predicate PlainPath(path: seq<string>) {
    forall i :: 0 <= i < |path| ==> PlainKey(path[i])
  }

  predicate PlainKeys(v: Value)
    requires v.Map?
    decreases v
  {
    forall k | k in v.m :: PlainKey(k) && (v.m[k].Map? ==> PlainKeys(v.m[k]))
  }

  lemma {:induction false} DottedPlain(path: seq<string>)
    requires PlainPath(path)
    ensures Dotted(path) == "" <==> path == []
  {
  }

  lemma LastDot(x: string, k: string, y: string, l: string)
    requires '.' !in k && '.' !in l && x + "." + k == y + "." + l
    ensures x == y && k == l
  {
    var s := x + "." + k;
    assert s[|x|] == '.' && s[|y|] == '.';
    if |x| == |y| {
      assert s[..|x|] == x && s[..|y|] == y;
      assert s[|x| + 1..] == k && s[|y| + 1..] == l;
    }
  }

  lemma JoinInjective(x: string, k: string, y: string, l: string)
    requires PlainKey(k) && PlainKey(l) && Join(x, k) == Join(y, l)
    ensures x == y && k == l
  {
    var s := Join(x, k);
    assert x != "" ==> s[|x|] == '.';
    assert y != "" ==> s[|y|] == '.';
    if x != "" && y != "" {
      LastDot(x, k, y, l);
    }
  }

  /** Dot-free keys can be read back from a dotted path. */
  lemma {:induction false} DottedInjective(p: seq<string>, q: seq<string>)
    requires PlainPath(p) && PlainPath(q) && Dotted(p) == Dotted(q)
    ensures p == q
    decreases |p|
  {
    DottedPlain(p);
    DottedPlain(q);
    if p != [] {
      var p', q' := p[..|p| - 1], q[..|q| - 1];
      JoinInjective(Dotted(p'), p[|p| - 1], Dotted(q'), q[|q| - 1]);
      DottedInjective(p', q');
      assert p == p' + [p[|p| - 1]] && q == q' + [q[|q| - 1]];
    }
  }

  /** The keys directly below `path` that the diff writes. */
  function Written(path: seq<string>, diffs: map<string, FieldDiff>): set<string> {
    var pre := Dotted(path);
    var skip := if pre == "" then 0 else |pre| + 1;
    set p | p in diffs && skip <= |p| && PlainKey(p[skip..]) && p == Join(pre, p[skip..]) :: p[skip..]
  }

  lemma WrittenIff(path: seq<string>, diffs: map<string, FieldDiff>, k: string)
    requires PlainKey(k)
    ensures k in Written(path, diffs) <==> Dotted(path + [k]) in diffs
  {
  }

  /** `a` with every wanted value of `diffs` written at its dotted path. */
  function Patched(path: seq<string>, a: Value, diffs: map<string, FieldDiff>): Value
    requires a.Map?
    decreases a
  {
    Map(a.anyKeys, map k | k in a.m.Keys + Written(path, diffs) ::
      var p := Dotted(path + [k]);
      if p in diffs then diffs[p].want
      else if k !in a.m then Null
      else if a.m[k].Map? then Patched(path + [k], a.m[k], diffs)
      else a.m[k])
  }

  /** Below `path`, the diff holds the findings and nothing else. */
  ghost predicate Faithful(path: seq<string>, diffs: map<string, FieldDiff>, fs: set<Finding>) {
    && (forall f | f in fs :: Dotted(f.path) in diffs && diffs[Dotted(f.path)].want == f.want)
    && (forall q | PlainPath(q) && path < q && Dotted(q) in diffs :: exists f :: f in fs && f.path == q)
  }

  lemma FaithfulBelow(path: seq<string>, d: Value, a: Value, exclude: set<string>,
                      diffs: map<string, FieldDiff>, k: string)
    requires d.Map? && a.Map? && k in d.m && k in a.m && d.m[k].Map? && a.m[k].Map?
    requires !Skipped(path, k, exclude)
    requires Faithful(path, diffs, Findings(path, d, a, exclude))
    ensures Faithful(path + [k], diffs, Findings(path + [k], d.m[k], a.m[k], exclude))
  {
    FindingsExtendPrefix(path, d, a, exclude);
    var fs := Findings(path, d, a, exclude);
    var below := Findings(path + [k], d.m[k], a.m[k], exclude);
    forall f | f in below
      ensures f in fs
    {
      assert f in FindingsAt(path, d, a, exclude, k);
    }
    forall q | PlainPath(q) && path + [k] < q && Dotted(q) in diffs
      ensures exists f :: f in below && f.path == q
    {
      assert path < q && q[|path|] == k;
      var f :| f in fs && f.path == q;
      assert f in FindingsAt(path, d, a, exclude, k);
    }
  }

  lemma {:induction false} PatchSettles(path: seq<string>, d: Value, a: Value, exclude: set<string>,
                                        diffs: map<string, FieldDiff>)
    requires d.Map? && a.Map? && PlainPath(path) && PlainKeys(d) && GrantsOk(path, d, exclude)
    requires Faithful(path, diffs, Findings(path, d, a, exclude))
    ensures Findings(path, d, Patched(path, a, diffs), exclude) == {}
    decreases d
  {
    forall k | k in d.m && !Skipped(path, k, exclude)
      ensures FindingsAt(path, d, Patched(path, a, diffs), exclude, k) == {}
    {
      PatchSettlesAt(path, d, a, exclude, diffs, k);
    }
    EmptyByKey(path, d, Patched(path, a, diffs), exclude);
  }

  lemma {:induction false} PatchSettlesAt(path: seq<string>, d: Value, a: Value, exclude: set<string>,
                                          diffs: map<string, FieldDiff>, k: string)
    requires d.Map? && a.Map? && PlainPath(path) && PlainKeys(d) && GrantsOk(path, d, exclude)
    requires Faithful(path, diffs, Findings(path, d, a, exclude))
    requires k in d.m && !Skipped(path, k, exclude)
    ensures FindingsAt(path, d, Patched(path, a, diffs), exclude, k) == {}
    decreases d, 0
  {
    var q := path + [k];
    WrittenIff(path, diffs, k);
    if Dotted(q) in diffs {
      WrittenSettles(path, d, a, exclude, diffs, k);
    } else {
      NotReported(path, d, a, exclude, diffs, k);
      if d.m[k].Map? && a.m[k].Map? {
        FaithfulBelow(path, d, a, exclude, diffs, k);
        PatchSettles(q, d.m[k], a.m[k], exclude, diffs);
      }
    }
  }

  /** A field with no entry in the diff is there, and equal unless both sides are maps. */
  lemma NotReported(path: seq<string>, d: Value, a: Value, exclude: set<string>,
                    diffs: map<string, FieldDiff>, k: string)
    requires d.Map? && a.Map? && k in d.m && !Skipped(path, k, exclude)
    requires Faithful(path, diffs, Findings(path, d, a, exclude))
    requires Dotted(path + [k]) !in diffs
    ensures k in a.m
    ensures !(d.m[k].Map? && a.m[k].Map?) ==> !LeafDiffers(Dotted(path + [k]), d.m[k], a.m[k]) && !a.m[k].Map?
  {
    forall f | f in FindingsAt(path, d, a, exclude, k)
      ensures f.path != path + [k]
    {
      assert f in Findings(path, d, a, exclude);
    }
    if k !in a.m {
      assert Finding(path + [k], Null, d.m[k]) in FindingsAt(path, d, a, exclude, k);
    } else if LeafDiffers(Dotted(path + [k]), d.m[k], a.m[k]) && !(d.m[k].Map? && a.m[k].Map?) {
      assert Finding(path + [k], a.m[k], d.m[k]) in FindingsAt(path, d, a, exclude, k);
    }
  }

  lemma WrittenSettles(path: seq<string>, d: Value, a: Value, exclude: set<string>,
                       diffs: map<string, FieldDiff>, k: string)
    requires d.Map? && a.Map? && PlainPath(path) && PlainKeys(d) && GrantsOk(path, d, exclude)
    requires Faithful(path, diffs, Findings(path, d, a, exclude))
    requires k in d.m && !Skipped(path, k, exclude) && Dotted(path + [k]) in diffs
    requires k in Written(path, diffs)
    ensures FindingsAt(path, d, Patched(path, a, diffs), exclude, k) == {}
  {
    var q := path + [k];
    assert path < q && PlainPath(q);
    var f :| f in Findings(path, d, a, exclude) && f.path == q;
    FindingsExactly(path, d, a, exclude, [k], f);
    ComparedOne(path, d, a, exclude, k);
    assert diffs[Dotted(q)].want == d.m[k];
    assert Patched(path, a, diffs).m[k] == d.m[k];
    if d.m[k].Map? {
      SameCanonSettlesIff(q, d.m[k], d.m[k], exclude);
    } else {
      TwinLeaf(Dotted(q), d.m[k], d.m[k]);
    }
  }

  /** Main result: for dot-free keys, any diff the reconciler can build patches `a` so that nothing
      is left to report, provided the unordered grant lists are well formed. */
  lemma DiffIsSufficientPatch(d: Value, a: Value, exclude: set<string>, diffs: map<string, FieldDiff>)
    requires d.Map? && a.Map? && PlainKeys(d) && GrantsOk([], d, exclude)
    requires Renders(diffs, map[], Findings([], d, a, exclude))
    ensures Findings([], d, Patched([], a, diffs), exclude) == {}
  {
    var fs := Findings([], d, a, exclude);
    forall f | f in fs
      ensures PlainPath(f.path)
    {
      assert f.path == [] + f.path;
      FindingsExactly([], d, a, exclude, f.path, f);
      PlainAlong(d, f.path);
    }
    forall f | f in fs
      ensures Dotted(f.path) in diffs && diffs[Dotted(f.path)].want == f.want
    {
      var p := Dotted(f.path);
      var g :| g in fs && Dotted(g.path) == p && diffs[p] == FieldDiff(g.was, g.want);
      DottedInjective(f.path, g.path);
      assert f.path == [] + f.path;
      FindingsExactly([], d, a, exclude, f.path, f);
      FindingsExactly([], d, a, exclude, f.path, g);
    }
    forall q | PlainPath(q) && [] < q && Dotted(q) in diffs
      ensures exists f :: f in fs && f.path == q
    {
      var f :| f in fs && Dotted(f.path) == Dotted(q);
      DottedInjective(f.path, q);
    }
    PatchSettles([], d, a, exclude, diffs);
  }

  lemma {:induction false} PlainAlong(d: Value, path: seq<string>)
    requires d.Map? && PlainKeys(d) && Get(d, path).Some?
    ensures PlainPath(path)
    decreases |path|
  {
    if path != [] {
      if d.m[path[0]].Map? {
        PlainAlong(d.m[path[0]], path[1..]);
      }
      assert path == [path[0]] + path[1..];
    }
  }

  const NESTED: Value := Map(false, map["b" := Int(1)])
  const DOTTED: Value := Map(false, map["a" := NESTED, "a.b" := Int(2)])
  const EMPTY: Value := Map(false, map[])
  const HOLLOW: Value := Map(false, map["a" := EMPTY])
  const INNER: Finding := Finding(["a", "b"], Null, Int(1))
  const OUTER: Finding := Finding(["a.b"], Null, Int(2))

  lemma NestedFindings()
    ensures Findings(["a"], NESTED, EMPTY, {}) == {INNER}
  {
    assert ["a"] + ["b"] == ["a", "b"];
    assert NESTED.m.Keys == {"b"};
    assert FindingsAt(["a"], NESTED, EMPTY, {}, "b") == {INNER};
  }

  lemma DottedFindings()
    ensures Findings([], DOTTED, HOLLOW, {}) == {INNER, OUTER}
  {
    NestedFindings();
    assert [] + ["a"] == ["a"] && [] + ["a.b"] == ["a.b"];
    assert |"a"| != |"a.b"|;
    assert DOTTED.m.Keys == {"a", "a.b"};
    assert FindingsAt([], DOTTED, HOLLOW, {}, "a") == {INNER};
    assert FindingsAt([], DOTTED, HOLLOW, {}, "a.b") == {OUTER};
  }

  lemma SharedPath()
    ensures Dotted(INNER.path) == Dotted(OUTER.path) && INNER != OUTER
  {
  }

  /** Dot-free keys are needed: here two fields differ, and every diff the reconciler can build
      has a single entry for both. */
  lemma DottedKeysLoseADifference(diffs: map<string, FieldDiff>)
    requires Renders(diffs, map[], Findings([], DOTTED, HOLLOW, {}))
    ensures |Findings([], DOTTED, HOLLOW, {})| == 2 && |diffs| == 1
  {
    DottedFindings();
    SharedPath();
    OneEntry(diffs, INNER, OUTER);
  }

  lemma OneEntry(diffs: map<string, FieldDiff>, f: Finding, g: Finding)
    requires Renders(diffs, map[], {f, g}) && Dotted(f.path) == Dotted(g.path) && f != g
    ensures |{f, g}| == 2 && |diffs| == 1
  {
    var p := Dotted(f.path);
    var fs := {f, g};
    SingleImage(fs, p, set x | x in fs :: Dotted(x.path));
    assert diffs.Keys == (set x | x in fs :: Dotted(x.path));
    assert |diffs| == |diffs.Keys|;
  }

  lemma SingleImage(fs: set<Finding>, p: string, paths: set<string>)
    requires fs != {} && forall x | x in fs :: Dotted(x.path) == p
    requires paths == set x | x in fs :: Dotted(x.path)
    ensures paths == {p} && |paths| == 1
  {
  }

  // Exactly which desired specs can lose a difference.

  /** `rel` names a field of `d` that no exclusion keeps from being compared. */
  ghost predicate Field(d: Value, exclude: set<string>, rel: seq<string>) {
    rel != [] && Get(d, rel).Some? && forall n | 0 <= n < |rel| :: !Skipped(rel[..n], rel[n], exclude)
  }

  ghost predicate Collide(fs: set<Finding>) {
    exists f, g :: f in fs && g in fs && f != g && Dotted(f.path) == Dotted(g.path)
  }

  /** Two differing fields go by one dotted path. */
  ghost predicate Hides(d: Value, a: Value, exclude: set<string>)
    requires d.Map? && a.Map?
  {
    Collide(Findings([], d, a, exclude))
  }

  ghost predicate Clash(d: Value, exclude: set<string>, p: seq<string>, q: seq<string>) {
    Field(d, exclude, p) && Field(d, exclude, q) && !(p <= q) && !(q <= p) && Dotted(p) == Dotted(q)
  }

  /** The fields of `v` except those at the cut paths. */
  function Cut(v: Value, prefix: seq<string>, cut: set<seq<string>>): Value
    requires v.Map?
    decreases v
  {
    Map(v.anyKeys, map k | k in v.m && prefix + [k] !in cut ::
      if v.m[k].Map? then Cut(v.m[k], prefix + [k], cut) else v.m[k])
  }

  lemma {:induction false} CutGone(v: Value, prefix: seq<string>, cut: set<seq<string>>, rel: seq<string>)
    requires v.Map? && rel != [] && prefix + rel in cut
    ensures Get(Cut(v, prefix, cut), rel) == None
    decreases |rel|
  {
    var k := rel[0];
    assert prefix + rel == prefix + [k] + rel[1..];
    if |rel| == 1 {
      assert rel == [k];
    } else if k in Cut(v, prefix, cut).m && v.m[k].Map? {
      CutGone(v.m[k], prefix + [k], cut, rel[1..]);
    }
  }

  lemma {:induction false} CutStays(v: Value, prefix: seq<string>, cut: set<seq<string>>, rel: seq<string>)
    requires v.Map? && MapAt(v, rel) && forall n | 0 < n <= |rel| :: prefix + rel[..n] !in cut
    ensures MapAt(Cut(v, prefix, cut), rel)
    decreases |rel|
  {
    if rel != [] {
      var k, t := rel[0], rel[1..];
      assert rel[..1] == [k];
      forall n | 0 < n <= |t|
        ensures prefix + [k] + t[..n] !in cut
      {
        assert prefix + rel[..n + 1] == prefix + [k] + t[..n];
      }
      assert MapAt(v.m[k], t) && v.m[k].Map?;
      CutStays(v.m[k], prefix + [k], cut, t);
    }
  }

  lemma {:induction false} MapsOnTheWay(v: Value, rel: seq<string>, n: nat)
    requires Get(v, rel).Some? && n < |rel|
    ensures MapAt(v, rel[..n])
    decreases n
  {
    if n > 0 {
      MapsOnTheWay(v.m[rel[0]], rel[1..], n - 1);
      assert rel[..n][1..] == rel[1..][..n - 1];
    }
  }

  /** A field cut away, but not from above, is found missing. */
  lemma CutIsFound(d: Value, exclude: set<string>, p: seq<string>, q: seq<string>)
    requires d.Map? && Field(d, exclude, p) && !(q <= p)
    ensures Finding(p, Null, Get(d, p).value) in Findings([], d, Cut(d, [], {p, q}), exclude)
  {
    var a := Cut(d, [], {p, q});
    forall n | 0 <= n < |p|
      ensures MapAt(a, p[..n])
      ensures !Skipped([] + p[..n], p[n], exclude)
    {
      MapsOnTheWay(d, p, n);
      assert forall m | 0 < m <= n :: [] + p[..n][..m] == p[..m];
      CutStays(d, [], {p, q}, p[..n]);
      assert [] + p[..n] == p[..n];
    }
    assert [] + p == p;
    CutGone(d, [], {p, q}, p);
    FindingsExactly([], d, a, exclude, p, Finding(p, Null, Get(d, p).value));
  }

  /** Of two nested fields one at most differs. */
  lemma FindingsDoNotNest(d: Value, a: Value, exclude: set<string>, f: Finding, g: Finding)
    requires d.Map? && a.Map? && f in Findings([], d, a, exclude) && g in Findings([], d, a, exclude)
    requires f.path <= g.path
    ensures f == g
  {
    assert f.path == [] + f.path && g.path == [] + g.path;
    FindingsExactly([], d, a, exclude, f.path, f);
    FindingsExactly([], d, a, exclude, g.path, g);
    if f.path != g.path {
      var n := |f.path|;
      assert g.path[..n] == f.path;
      assert MapAt(a, g.path[..n]);
      MapsOnTheWay(d, g.path, n);
      assert false;
    }
  }

  lemma FoundIsField(d: Value, a: Value, exclude: set<string>, f: Finding)
    requires d.Map? && a.Map? && f in Findings([], d, a, exclude)
    ensures Field(d, exclude, f.path)
  {
    assert f.path == [] + f.path;
    FindingsExactly([], d, a, exclude, f.path, f);
    assert forall n | 0 <= n < |f.path| :: [] + f.path[..n] == f.path[..n];
  }

  /** Main result on dotted paths: some live spec hides a difference exactly when two compared fields of the desired
      spec, neither inside the other, go by one dotted path. */
  lemma DifferenceLostIff(d: Value, exclude: set<string>)
    requires d.Map?
    ensures (exists a: Value :: a.Map? && Hides(d, a, exclude)) <==> exists p, q :: Clash(d, exclude, p, q)
  {
    if p, q :| Clash(d, exclude, p, q) {
      var a := Cut(d, [], {p, q});
      CutIsFound(d, exclude, p, q);
      CutIsFound(d, exclude, q, p);
      assert {p, q} == {q, p};
      assert Finding(p, Null, Get(d, p).value) != Finding(q, Null, Get(d, q).value);
      assert a.Map? && Hides(d, a, exclude);
    }
    if a: Value :| a.Map? && Hides(d, a, exclude) {
      HiddenClash(d, a, exclude);
    }
  }

  lemma HiddenClash(d: Value, a: Value, exclude: set<string>)
    requires d.Map? && a.Map? && Hides(d, a, exclude)
    ensures exists p, q :: Clash(d, exclude, p, q)
  {
    var f, g :| f in Findings([], d, a, exclude) && g in Findings([], d, a, exclude) && f != g
                && Dotted(f.path) == Dotted(g.path);
    FoundIsField(d, a, exclude, f);
    FoundIsField(d, a, exclude, g);
    if f.path <= g.path {
      FindingsDoNotNest(d, a, exclude, f, g);
    }
    if g.path <= f.path {
      FindingsDoNotNest(d, a, exclude, g, f);
    }
    assert Clash(d, exclude, f.path, g.path);
  }

  function Paths(fs: set<Finding>): set<string> {
    set f | f in fs :: Dotted(f.path)
  }

  lemma {:induction false} PathCount(fs: set<Finding>)
    ensures |Paths(fs)| <= |fs|
    ensures |Paths(fs)| < |fs| <==> Collide(fs)
    decreases |fs|
  {
    if fs != {} {
      var f :| f in fs;
      var rest := fs - {f};
      PathCount(rest);
      assert fs == rest + {f};
      assert Paths(fs) == Paths(rest) + {Dotted(f.path)};
      if Dotted(f.path) in Paths(rest) {
        assert Paths(fs) == Paths(rest);
        var g :| g in rest && Dotted(g.path) == Dotted(f.path);
        assert g in fs && f != g;
      } else {
        forall g | g in rest
          ensures Dotted(g.path) != Dotted(f.path)
        {
          assert Dotted(g.path) in Paths(rest);
        }
      }
    }
  }

  lemma EntryCount(diffs: map<string, FieldDiff>, fs: set<Finding>)
    requires Renders(diffs, map[], fs)
    ensures |diffs| == |Paths(fs)|
  {
    assert diffs.Keys == Paths(fs);
  }

  /** To hide a difference is to have fewer entries than differences, in every diff the reconciler can build. */
  lemma HidesIffFewerEntries(d: Value, a: Value, exclude: set<string>, diffs: map<string, FieldDiff>)
    requires d.Map? && a.Map? && Renders(diffs, map[], Findings([], d, a, exclude))
    ensures |diffs| < |Findings([], d, a, exclude)| <==> Hides(d, a, exclude)
  {
    EntryCount(diffs, Findings([], d, a, exclude));
    PathCount(Findings([], d, a, exclude));
  }

  /** Specs with dot-free keys lose nothing. */
  lemma PlainKeysDoNotClash(d: Value, exclude: set<string>, p: seq<string>, q: seq<string>)
    requires d.Map? && PlainKeys(d)
    ensures !Clash(d, exclude, p, q)
  {
    if Clash(d, exclude, p, q) {
      PlainAlong(d, p);
      PlainAlong(d, q);
      DottedInjective(p, q);
    }
  }
}
