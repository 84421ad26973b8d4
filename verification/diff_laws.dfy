/** What a diff means: which differences it lists, when it is empty, and that it is a sufficient patch. */
module DiffLaws {
  import opened Values
  import opened Compare

  /** The value at the end of a path of map keys. */
  function Get(v: Value, path: seq<string>): Option<Value>
    decreases |path|
  {
    if path == [] then Some(v)
    else if v.Map? && path[0] in v.m then Get(v.m[path[0]], path[1..])
    else None
  }

  ghost predicate MapAt(v: Value, path: seq<string>) {
    Get(v, path).Some? && Get(v, path).value.Map?
  }

  /** `rel` names a field of `d` that is compared with `a`: no key on the way is excluded, and
      both sides are maps all the way down to it. */
  ghost predicate Compared(prefix: seq<string>, d: Value, a: Value, exclude: set<string>, rel: seq<string>) {
    && rel != []
    && Get(d, rel).Some?
    && (forall n | 0 <= n < |rel| :: MapAt(a, rel[..n]))
    && (forall n | 0 <= n < |rel| :: !Skipped(prefix + rel[..n], rel[n], exclude))
  }

  /** The field at `rel` differs: it is missing from `a`, or it is there and not equal. */
  ghost predicate Differs(prefix: seq<string>, d: Value, a: Value, rel: seq<string>)
    requires Get(d, rel).Some?
  {
    match Get(a, rel)
    case None => true
    case Some(av) =>
      var dv := Get(d, rel).value;
      !(dv.Map? && av.Map?) && LeafDiffers(Dotted(prefix + rel), dv, av)
  }

  /** `f` reports the field `rel`: what should be there, and what is there. */
  ghost predicate Reports(prefix: seq<string>, d: Value, a: Value, rel: seq<string>, f: Finding) {
    && f.path == prefix + rel
    && Get(d, rel) == Some(f.want)
    && f.was == Get(a, rel).GetOr(Null)
  }

  lemma ComparedStep(prefix: seq<string>, d: Value, a: Value, exclude: set<string>, rel: seq<string>)
    requires d.Map? && a.Map? && |rel| > 1 && rel[0] in d.m
    ensures Compared(prefix, d, a, exclude, rel)
       <==> rel[0] in a.m && d.m[rel[0]].Map? && a.m[rel[0]].Map? && !Skipped(prefix, rel[0], exclude)
            && Compared(prefix + [rel[0]], d.m[rel[0]], a.m[rel[0]], exclude, rel[1..])
  {
    var k, t := rel[0], rel[1..];
    forall n | 0 <= n < |t|
      ensures rel[..n + 1] == [k] + t[..n]
      ensures k in a.m ==> Get(a, rel[..n + 1]) == Get(a.m[k], t[..n])
      ensures prefix + rel[..n + 1] == prefix + [k] + t[..n]
    {
      assert rel[..n + 1][1..] == t[..n];
    }
    assert rel[..0] == [] && prefix + rel[..0] == prefix;
    assert rel[..1][1..] == [];
    if Compared(prefix, d, a, exclude, rel) {
      assert MapAt(a, rel[..1]);
      assert Get(a, rel[..1]) == if k in a.m then Get(a.m[k], []) else None;
      assert Get(d.m[k], t).Some?;
      forall n | 0 <= n < |t|
        ensures MapAt(a.m[k], t[..n]) && !Skipped(prefix + [k] + t[..n], t[n], exclude)
      {
        assert MapAt(a, rel[..n + 1]) && !Skipped(prefix + rel[..n + 1], rel[n + 1], exclude);
      }
    }
    if rel[0] in a.m && a.m[k].Map? && !Skipped(prefix, k, exclude)
       && Compared(prefix + [k], d.m[k], a.m[k], exclude, t) {
      forall n | 0 <= n < |rel|
        ensures MapAt(a, rel[..n]) && !Skipped(prefix + rel[..n], rel[n], exclude)
      {
        if n > 0 {
          assert MapAt(a.m[k], t[..n - 1]) && !Skipped(prefix + [k] + t[..n - 1], t[n - 1], exclude);
        }
      }
    }
  }

  lemma ComparedOne(prefix: seq<string>, d: Value, a: Value, exclude: set<string>, k: string)
    requires d.Map? && a.Map? && k in d.m
    ensures Get(d, [k]) == Some(d.m[k]) && Get(a, [k]) == if k in a.m then Some(a.m[k]) else None
    ensures Compared(prefix, d, a, exclude, [k]) <==> !Skipped(prefix, k, exclude)
  {
    var rel := [k];
    assert rel[1..] == [] && rel[..0] == [] && prefix + rel[..0] == prefix;
    assert MapAt(a, rel[..0]);
    if !Skipped(prefix, k, exclude) {
      forall n | 0 <= n < |rel|
        ensures MapAt(a, rel[..n]) && !Skipped(prefix + rel[..n], rel[n], exclude)
      {
        assert n == 0;
      }
    } else {
      assert Skipped(prefix + rel[..0], rel[0], exclude);
    }
  }

  /** The diff lists exactly the compared fields that differ, each with the value actually there. */
  lemma {:induction false} FindingsExactly(prefix: seq<string>, d: Value, a: Value, exclude: set<string>,
                                           rel: seq<string>, f: Finding)
    requires d.Map? && a.Map? && f.path == prefix + rel
    ensures f in Findings(prefix, d, a, exclude)
       <==> Compared(prefix, d, a, exclude, rel) && Differs(prefix, d, a, rel) && Reports(prefix, d, a, rel, f)
    decreases d
  {
    FindingsExtendPrefix(prefix, d, a, exclude);
    if rel != [] && rel[0] in d.m {
      var k := rel[0];
      assert rel == [k] + rel[1..];
      assert f in Findings(prefix, d, a, exclude)
          ==> !Skipped(prefix, k, exclude) && f in FindingsAt(prefix, d, a, exclude, k);
      if |rel| == 1 {
        ComparedOne(prefix, d, a, exclude, k);
        assert rel == [k];
        if k in a.m && d.m[k].Map? && a.m[k].Map? {
          FindingsExtendPrefix(prefix + [k], d.m[k], a.m[k], exclude);
        }
      } else {
        ComparedStep(prefix, d, a, exclude, rel);
        if k in a.m && d.m[k].Map? && a.m[k].Map? {
          assert f.path == prefix + [k] + rel[1..];
          FindingsExactly(prefix + [k], d.m[k], a.m[k], exclude, rel[1..], f);
        }
      }
    }
  }

  lemma {:induction false} FindingsExtendPrefix(prefix: seq<string>, d: Value, a: Value, exclude: set<string>)
    requires d.Map? && a.Map?
    ensures forall k, f | k in d.m && f in FindingsAt(prefix, d, a, exclude, k) ::
              prefix + [k] <= f.path
    ensures forall f | f in Findings(prefix, d, a, exclude) ::
              prefix < f.path && f.path[|prefix|] in d.m
              && f in FindingsAt(prefix, d, a, exclude, f.path[|prefix|])
              && !Skipped(prefix, f.path[|prefix|], exclude)
    decreases d
  {
    forall k, f | k in d.m && f in FindingsAt(prefix, d, a, exclude, k)
      ensures prefix + [k] <= f.path
    {
      if k in a.m && d.m[k].Map? && a.m[k].Map? {
        FindingsExtendPrefix(prefix + [k], d.m[k], a.m[k], exclude);
      }
    }
  }

  /** Every compared field of `desired` is in `actual`, and equal there unless it is masked. */
  ghost predicate Covered(d: Value, a: Value, exclude: set<string>) {
    forall rel :: Compared([], d, a, exclude, rel) ==> !Differs([], d, a, rel)
  }

  /** The diff is empty exactly when `desired` is covered by `actual`. */
  lemma EmptyIffCovered(d: Value, a: Value, exclude: set<string>)
    requires d.Map? && a.Map?
    ensures Findings([], d, a, exclude) == {} <==> Covered(d, a, exclude)
  {
    var fs := Findings([], d, a, exclude);
    forall rel | Compared([], d, a, exclude, rel) && Differs([], d, a, rel)
      ensures fs != {}
    {
      var f := Finding([] + rel, Get(a, rel).GetOr(Null), Get(d, rel).value);
      FindingsExactly([], d, a, exclude, rel, f);
      assert f in fs;
    }
    if fs != {} {
      var f :| f in fs;
      assert f.path == [] + f.path;
      FindingsExactly([], d, a, exclude, f.path, f);
    }
  }

  /** Keys of `actual` that `desired` does not mention, at any depth, never matter. */
  function Trim(d: Value, a: Value): Value
    requires d.Map? && a.Map?
    decreases d
  {
    Map(a.anyKeys, map k | k in a.m && k in d.m ::
      if d.m[k].Map? && a.m[k].Map? then Trim(d.m[k], a.m[k]) else a.m[k])
  }

  lemma {:induction false} ExtraKeysNeverMatter(prefix: seq<string>, d: Value, a: Value, exclude: set<string>)
    requires d.Map? && a.Map?
    ensures Findings(prefix, d, Trim(d, a), exclude) == Findings(prefix, d, a, exclude)
    decreases d
  {
    var t := Trim(d, a);
    forall k | k in d.m
      ensures FindingsAt(prefix, d, t, exclude, k) == FindingsAt(prefix, d, a, exclude, k)
    {
      if k in a.m && d.m[k].Map? && a.m[k].Map? {
        ExtraKeysNeverMatter(prefix + [k], d.m[k], a.m[k], exclude);
      }
    }
  }

  /** Grant lists the reconciler compares as sets must be lists of strings to equal anything. */
  predicate GrantsOk(prefix: seq<string>, d: Value, exclude: set<string>)
    requires d.Map?
    decreases d
  {
    forall k | k in d.m && !Skipped(prefix, k, exclude) ::
      if d.m[k].Map? then GrantsOk(prefix + [k], d.m[k], exclude)
      else GrantLeafOk(Dotted(prefix + [k]), d.m[k])
  }

  predicate GrantLeafOk(path: string, v: Value) {
    UnorderedPath(path) ==> IsStringList(v) || v == MASK
  }

  lemma TwinLeaf(path: string, d: Value, a: Value)
    requires Canon(d) == Canon(a) && !d.Map?
    ensures !LeafDiffers(path, d, a) <==> GrantLeafOk(path, d)
  {
    EqualIffSameCanon(d, a);
    if d.List? {
      var cd, ca := Canon(d), Canon(a);
      assert |d.xs| == |cd.xs| == |ca.xs| == |a.xs|;
      forall i | 0 <= i < |d.xs|
        ensures d.xs[i].Str? || a.xs[i].Str? ==> d.xs[i] == a.xs[i]
      {
        assert cd.xs[i] == Canon(d.xs[i]) && ca.xs[i] == Canon(a.xs[i]);
      }
    }
  }

  /** The part of `GrantsOk` that concerns one key. */
  predicate FieldOk(prefix: seq<string>, d: Value, exclude: set<string>, k: string)
    requires d.Map? && k in d.m
  {
    if d.m[k].Map? then GrantsOk(prefix + [k], d.m[k], exclude)
    else GrantLeafOk(Dotted(prefix + [k]), d.m[k])
  }

  lemma {:induction false} FieldSettlesIff(prefix: seq<string>, d: Value, a: Value, exclude: set<string>, k: string)
    requires d.Map? && a.Map? && k in d.m && k in a.m && Canon(d.m[k]) == Canon(a.m[k])
    ensures FindingsAt(prefix, d, a, exclude, k) == {} <==> FieldOk(prefix, d, exclude, k)
    decreases d, 0
  {
    if d.m[k].Map? {
      SameCanonSettlesIff(prefix + [k], d.m[k], a.m[k], exclude);
    } else {
      TwinLeaf(Dotted(prefix + [k]), d.m[k], a.m[k]);
    }
  }

  /** A spec compared with anything of the same canonical form, itself included, shows no difference
      exactly when its unordered grant lists are lists of strings. */
  lemma {:induction false} SameCanonSettlesIff(prefix: seq<string>, d: Value, a: Value, exclude: set<string>)
    requires d.Map? && a.Map? && Canon(d) == Canon(a)
    ensures Findings(prefix, d, a, exclude) == {} <==> GrantsOk(prefix, d, exclude)
    decreases d
  {
    var cd, ca := Canon(d), Canon(a);
    assert cd.m.Keys == d.m.Keys && ca.m.Keys == a.m.Keys;
    forall k | k in d.m
      ensures FindingsAt(prefix, d, a, exclude, k) == {} <==> FieldOk(prefix, d, exclude, k)
    {
      assert k in ca.m && cd.m[k] == Canon(d.m[k]) && ca.m[k] == Canon(a.m[k]);
      FieldSettlesIff(prefix, d, a, exclude, k);
    }
    EmptyByKey(prefix, d, a, exclude);
  }

  lemma EmptyByKey(prefix: seq<string>, d: Value, a: Value, exclude: set<string>)
    requires d.Map? && a.Map?
    ensures Findings(prefix, d, a, exclude) == {}
       <==> forall k | k in d.m && !Skipped(prefix, k, exclude) :: FindingsAt(prefix, d, a, exclude, k) == {}
  {
  }

  /** A spec with `grants.agents` a lone string differs from itself. */
  lemma MalformedGrantsNeverEqual()
    ensures var d := Map(false, map["grants" := Map(false, map["agents" := Str("bot")])]);
            Findings([], d, d, {}) != {}
  {
    var g := Map(false, map["agents" := Str("bot")]);
    var d := Map(false, map["grants" := g]);
    assert Dotted(["grants"]) == "grants";
    DottedSnoc(["grants"], "agents");
    assert ["grants"] + ["agents"] == [] + ["grants"] + ["agents"];
    assert "agents" in g.m && !GrantLeafOk("grants.agents", g.m["agents"]);
    assert [] + ["grants"] == ["grants"];
    assert !GrantsOk(["grants"], g, {});
    assert "grants" in d.m && d.m["grants"] == g;
    SameCanonSettlesIff([], d, d, {});
  }

}
