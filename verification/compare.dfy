/** The field-by-field comparison of a desired spec with an observed one. */
module Compare {
  import opened Values

  datatype FieldDiff = FieldDiff(was: Value, want: Value)

  /** One difference: the keys leading to it, what is there (Null when nothing is) and what should be. */
  datatype Finding = Finding(path: seq<string>, was: Value, want: Value)

  const MASK: Value := Str("***")

  /** The path string the reconciler builds: keys joined by dots, an empty prefix adding no dot. */
  function Join(prefix: string, key: string): string {
    if prefix == "" then key else prefix + "." + key
  }

  function Dotted(path: seq<string>): string {
    if path == [] then "" else Join(Dotted(path[..|path| - 1]), path[|path| - 1])
  }

  predicate UnorderedPath(path: string) {
    path == "grants.agents" || path == "grants.users"
  }

  predicate IsStringList(v: Value) {
    v.List? && forall i :: 0 <= i < |v.xs| ==> v.xs[i].Str?
  }

  function StringsOf(v: Value): set<string>
    requires IsStringList(v)
  {
    set i | 0 <= i < |v.xs| :: v.xs[i].s
  }

  predicate SameStringSet(a: Value, b: Value) {
    IsStringList(a) && IsStringList(b) && StringsOf(a) == StringsOf(b)
  }

  /** Two values that are not both maps differ at this path. */
  predicate LeafDiffers(path: string, want: Value, there: Value) {
    && there != MASK
    && if UnorderedPath(path) then !SameStringSet(want, there) else !ValuesEqual(want, there)
  }

  predicate Skipped(prefix: seq<string>, key: string, exclude: set<string>) {
    Dotted(prefix) == "" && key in exclude
  }

  /** The differences between two maps standing at `prefix`. */
  function Findings(prefix: seq<string>, d: Value, a: Value, exclude: set<string>): set<Finding>
    requires d.Map? && a.Map?
    decreases d, 1
  {
    set k, f | k in d.m && !Skipped(prefix, k, exclude) && f in FindingsAt(prefix, d, a, exclude, k) :: f
  }

  function FindingsAt(prefix: seq<string>, d: Value, a: Value, exclude: set<string>, k: string): set<Finding>
    requires d.Map? && a.Map? && k in d.m
    decreases d, 0
  {
    var path := prefix + [k];
    if k !in a.m then {Finding(path, Null, d.m[k])}
    else if d.m[k].Map? && a.m[k].Map? then Findings(path, d.m[k], a.m[k], exclude)
    else if LeafDiffers(Dotted(path), d.m[k], a.m[k]) then {Finding(path, a.m[k], d.m[k])}
    else {}
  }

  /** `diffs` is a map the reconciler may build from `start` and the findings: dotted paths as keys,
      and where two findings share a dotted path either of them. */
  ghost predicate Renders(diffs: map<string, FieldDiff>, start: map<string, FieldDiff>, fs: set<Finding>) {
    && diffs.Keys == start.Keys + (set f | f in fs :: Dotted(f.path))
    && forall p :: p in diffs ==>
         || (p in start && diffs[p] == start[p])
         || exists f :: f in fs && Dotted(f.path) == p && diffs[p] == FieldDiff(f.was, f.want)
  }

  lemma DottedSnoc(path: seq<string>, key: string)
    ensures Dotted(path + [key]) == Join(Dotted(path), key)
  {
  }

  method SetEqual(a: set<string>, b: set<string>) returns (same: bool)
    ensures same <==> a == b
  {
    if |a| != |b| {
      return false;
    }
    var rest := a;
    while rest != {}
      invariant rest <= a
      invariant a - rest <= b
      decreases rest
    {
      var s :| s in rest;
      if s !in b {
        return false;
      }
      rest := rest - {s};
    }
    SubsetOfSameSize(a, b);
    same := true;
  }

  method ToStringSet(v: Value) returns (out: set<string>, ok: bool)
    ensures ok <==> IsStringList(v)
    ensures ok ==> out == StringsOf(v)
  {
    out := {};
    if !v.List? {
      return out, false;
    }
    for n := 0 to |v.xs|
      invariant forall i :: 0 <= i < n ==> v.xs[i].Str?
      invariant out == set i | 0 <= i < n :: v.xs[i].s
    {
      if !v.xs[n].Str? {
        return out, false;
      }
      out := out + {v.xs[n].s};
    }
    ok := true;
  }

  method StringSetEqual(a: Value, b: Value) returns (same: bool)
    ensures same <==> SameStringSet(a, b)
  {
    var aStrings, aOk := ToStringSet(a);
    var bStrings, bOk := ToStringSet(b);
    if !aOk || !bOk {
      return false;
    }
    same := SetEqual(aStrings, bStrings);
  }

  /** The findings of the keys already visited. */
  ghost function Visited(path: seq<string>, d: Value, a: Value, exclude: set<string>, keys: set<string>): set<Finding>
    requires d.Map? && a.Map? && keys <= d.m.Keys
  {
    set k, f | k in keys && !Skipped(path, k, exclude) && f in FindingsAt(path, d, a, exclude, k) :: f
  }

  lemma VisitOne(path: seq<string>, d: Value, a: Value, exclude: set<string>, keys: set<string>, key: string)
    requires d.Map? && a.Map? && keys <= d.m.Keys && key in d.m
    ensures Visited(path, d, a, exclude, keys + {key})
         == Visited(path, d, a, exclude, keys)
            + if Skipped(path, key, exclude) then {} else FindingsAt(path, d, a, exclude, key)
  {
  }

  lemma VisitAll(path: seq<string>, d: Value, a: Value, exclude: set<string>)
    requires d.Map? && a.Map?
    ensures Visited(path, d, a, exclude, d.m.Keys) == Findings(path, d, a, exclude)
  {
  }

  /** Go's iteration order over a map is arbitrary: the loop takes the keys of `d` in any order. */
  method CompareRecursive(prefix: string, ghost path: seq<string>, d: Value, a: Value,
                          diffs: map<string, FieldDiff>, exclude: set<string>)
    returns (out: map<string, FieldDiff>)
    requires d.Map? && a.Map? && prefix == Dotted(path)
    ensures Renders(out, diffs, Findings(path, d, a, exclude))
    decreases d, 1
  {
    out := diffs;
    var rest := d.m.Keys;
    while rest != {}
      invariant rest <= d.m.Keys
      invariant Renders(out, diffs, Visited(path, d, a, exclude, d.m.Keys - rest))
      decreases rest
    {
      var key :| key in rest;
      ghost var done := d.m.Keys - rest;
      VisitOne(path, d, a, exclude, done, key);
      rest := rest - {key};
      assert d.m.Keys - rest == done + {key};
      if !(prefix == "" && key in exclude) {
        ghost var before := out;
        out := CompareField(prefix, path, d, a, out, exclude, key);
        RendersTwice(diffs, before, out, Visited(path, d, a, exclude, done), FindingsAt(path, d, a, exclude, key));
      }
    }
    VisitAll(path, d, a, exclude);
    assert d.m.Keys - rest == d.m.Keys;
  }

  method CompareField(prefix: string, ghost path: seq<string>, d: Value, a: Value,
                      diffs: map<string, FieldDiff>, exclude: set<string>, key: string)
    returns (out: map<string, FieldDiff>)
    requires d.Map? && a.Map? && prefix == Dotted(path) && key in d.m
    ensures Renders(out, diffs, FindingsAt(path, d, a, exclude, key))
    decreases d, 0
  {
    var p := if prefix != "" then prefix + "." + key else key;
    DottedSnoc(path, key);
    if key !in a.m {
      out := diffs[p := FieldDiff(Null, d.m[key])];
      RendersPut(diffs, Finding(path + [key], Null, d.m[key]));
    } else if d.m[key].Map? && a.m[key].Map? {
      out := CompareRecursive(p, path + [key], d.m[key], a.m[key], diffs, exclude);
    } else {
      var same := a.m[key] == MASK;
      if !same {
        same := CompareLeaf(p, d.m[key], a.m[key]);
      }
      out := if same then diffs else diffs[p := FieldDiff(a.m[key], d.m[key])];
      RendersPut(diffs, Finding(path + [key], a.m[key], d.m[key]));
    }
  }

  method CompareLeaf(path: string, want: Value, there: Value) returns (same: bool)
    requires there != MASK
    ensures same <==> !LeafDiffers(path, want, there)
  {
    if UnorderedPath(path) {
      same := StringSetEqual(want, there);
    } else {
      same := ValuesEqual(want, there);
    }
  }

  lemma RendersPut(diffs: map<string, FieldDiff>, f: Finding)
    ensures Renders(diffs, diffs, {})
    ensures Renders(diffs[Dotted(f.path) := FieldDiff(f.was, f.want)], diffs, {f})
  {
  }

  lemma RendersTwice(d0: map<string, FieldDiff>, d1: map<string, FieldDiff>, d2: map<string, FieldDiff>,
                     fs: set<Finding>, gs: set<Finding>)
    requires Renders(d1, d0, fs) && Renders(d2, d1, gs)
    ensures Renders(d2, d0, fs + gs)
  {
  }

  /** The comparison as the engine calls it.  It finds nothing exactly when there is no finding,
      whatever the order of iteration and whatever the keys. */
  method CompareSpecExcluding(d: Value, a: Value, excludeList: seq<string>)
    returns (diffs: map<string, FieldDiff>)
    requires d.Map? && a.Map?
    ensures Renders(diffs, map[], Findings([], d, a, set f | f in excludeList))
    ensures diffs == map[] <==> Findings([], d, a, set f | f in excludeList) == {}
  {
    var exclude := {};
    for n := 0 to |excludeList|
      invariant exclude == set f | f in excludeList[..n]
    {
      exclude := exclude + {excludeList[n]};
    }
    assert excludeList[..|excludeList|] == excludeList;
    ghost var fs := Findings([], d, a, exclude);
    diffs := CompareRecursive("", [], d, a, map[], exclude);
    if fs != {} {
      var f :| f in fs;
      assert Dotted(f.path) in diffs;
    }
  }
}
