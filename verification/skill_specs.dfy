/** Validation of a Skill's spec: enumerated fields, tags, the source directory and version constraints on tools. */
module SkillSpecs {
  import opened Values

  /** What comes from elsewhere: what is white space, a semantic version, a directory that can be packed. */
  datatype Library = Library(isSpace: char -> bool, semver: string -> bool, packs: string -> bool)

  datatype SkillProblem =
    | BadVisibility | BadStatus | TagsNotList | TagNotString(i: nat) | DuplicateTag(tag: string) | BadSourceDir
    | CliNotString(binary: string) | BadConstraint(binary: string)

  const VISIBILITIES: set<string> := {"private", "internal", "public", "tenant"}
  const STATUSES: set<string> := {"active", "archived", "deleted", "draft"}

  // Constraints.

  predicate Blank(lib: Library, s: string) {
    forall i | 0 <= i < |s| :: lib.isSpace(s[i])
  }

  /** No white space at either end. */
  predicate Trimmed(lib: Library, s: string) {
    s != "" ==> !lib.isSpace(s[0]) && !lib.isSpace(s[|s| - 1])
  }

  function Trim(lib: Library, s: string): (t: string)
    ensures Trimmed(lib, t)
    decreases |s|
  {
    if s == "" then ""
    else if lib.isSpace(s[0]) then Trim(lib, s[1..])
    else if lib.isSpace(s[|s| - 1]) then Trim(lib, s[..|s| - 1])
    else s
  }

  function Normalized(s: string): string {
    if s != "" && (s[0] == 'v' || s[0] == 'V') then s else "v" + s
  }

  lemma {:induction false} TrimLeft(lib: Library, a: string, rest: string)
    requires Blank(lib, a)
    ensures Trim(lib, a + rest) == Trim(lib, rest)
  {
    if a == "" {
      assert a + rest == rest;
    } else {
      TrimLeft(lib, a[1..], rest);
      assert (a + rest)[0] == a[0] && (a + rest)[1..] == a[1..] + rest;
    }
  }

  lemma {:induction false} TrimRight(lib: Library, t: string, b: string)
    requires Blank(lib, b) && Trimmed(lib, t) && t != ""
    ensures Trim(lib, t + b) == t
  {
    if b == "" {
      assert t + b == t;
    } else {
      var n := |b| - 1;
      TrimRight(lib, t, b[..n]);
      assert (t + b)[0] == t[0] && (t + b)[|t + b| - 1] == b[n] && (t + b)[..|t + b| - 1] == t + b[..n];
    }
  }

  /** A trimmed text comes back from any white space put around it. */
  lemma TrimUndoesPadding(lib: Library, a: string, t: string, b: string)
    requires Blank(lib, a) && Blank(lib, b) && Trimmed(lib, t)
    ensures Trim(lib, a + t + b) == t
  {
    assert a + t + b == a + (t + b);
    TrimLeft(lib, a, t + b);
    if t == "" {
      assert t + b == b + "";
      TrimLeft(lib, b, "");
    } else {
      TrimRight(lib, t, b);
    }
  }

  /** Trimming takes off white space only. */
  lemma {:induction false} TrimSplits(lib: Library, s: string) returns (a: string, b: string)
    ensures Blank(lib, a) && Blank(lib, b) && s == a + Trim(lib, s) + b
    decreases |s|
  {
    if s == "" {
      a, b := "", "";
    } else if lib.isSpace(s[0]) {
      a, b := TrimSplits(lib, s[1..]);
      assert s == [s[0]] + s[1..];
      a := [s[0]] + a;
    } else if lib.isSpace(s[|s| - 1]) {
      a, b := TrimSplits(lib, s[..|s| - 1]);
      assert s == s[..|s| - 1] + [s[|s| - 1]];
      b := b + [s[|s| - 1]];
    } else {
      a, b := "", "";
    }
  }

  predicate HasAny(s: string, chars: string) {
    exists i :: 0 <= i < |s| && s[i] in chars
  }

  /** ">=" and a version. */
  predicate GoodConstraint(lib: Library, s: string) {
    var t := Trim(lib, s);
    && !HasAny(t, "^~,") && |t| >= 2 && t[..2] == ">="
    && var rest := Trim(lib, t[2..]);
       rest != "" && lib.semver(Normalized(rest))
  }

  /** White space, ">=", white space, a version and white space. */
  predicate HasForm(lib: Library, s: string, a: string, b: string, v: string, c: string) {
    && s == a + ">=" + b + v + c && Blank(lib, a) && Blank(lib, b) && Blank(lib, c)
    && v != "" && Trimmed(lib, v) && !HasAny(v, "^~,") && lib.semver(Normalized(v))
  }

  /** The constraints that are accepted, spelled out. */
  lemma GoodConstraintIff(lib: Library, s: string)
    requires !lib.isSpace('>') && !lib.isSpace('^') && !lib.isSpace('~') && !lib.isSpace(',')
    ensures GoodConstraint(lib, s) <==> exists a, b, v, c :: HasForm(lib, s, a, b, v, c)
  {
    if GoodConstraint(lib, s) {
      ConstraintForm(lib, s);
    }
    if a, b, v, c :| HasForm(lib, s, a, b, v, c) {
      FormConstraint(lib, a, b, v, c);
    }
  }

  lemma Reassociate(a: string, b: string, v: string, c: string, d: string)
    ensures a + (">=" + (b + v + c)) + d == a + ">=" + b + v + (c + d)
  {
  }

  lemma ConstraintForm(lib: Library, s: string)
    requires GoodConstraint(lib, s)
    ensures exists a, b, v, c :: HasForm(lib, s, a, b, v, c)
  {
    var t := Trim(lib, s);
    var a, d := TrimSplits(lib, s);
    var b, c := TrimSplits(lib, t[2..]);
    var v := Trim(lib, t[2..]);
    assert t == ">=" + (b + v + c);
    Reassociate(a, b, v, c, d);
    forall i | 0 <= i < |v|
      ensures v[i] !in "^~,"
    {
      assert t[2 + |b| + i] == v[i];
    }
    assert Blank(lib, c + d);
    assert HasForm(lib, s, a, b, v, c + d);
  }

  lemma FormConstraint(lib: Library, a: string, b: string, v: string, c: string)
    requires !lib.isSpace('>') && !lib.isSpace('^') && !lib.isSpace('~') && !lib.isSpace(',')
    requires Blank(lib, a) && Blank(lib, b) && Blank(lib, c)
    requires v != "" && Trimmed(lib, v) && !HasAny(v, "^~,") && lib.semver(Normalized(v))
    ensures GoodConstraint(lib, a + ">=" + b + v + c)
  {
    var t := ">=" + b + v;
    assert a + ">=" + b + v + c == a + t + c;
    TrimUndoesPadding(lib, a, t, c);
    assert t[2..] == b + v + "";
    TrimUndoesPadding(lib, b, v, "");
    forall i | 0 <= i < |t|
      ensures t[i] !in "^~,"
    {
      if 2 <= i < 2 + |b| {
        assert t[i] == b[i - 2];
      } else if i >= 2 + |b| {
        assert t[i] == v[i - 2 - |b|];
      }
    }
  }

  method ValidateCliConstraintShape(lib: Library, s: string) returns (ok: bool)
    ensures ok <==> GoodConstraint(lib, s)
  {
    var t := Trim(lib, s);
    if t == "" {
      return false;
    }
    if HasAny(t, "^~") {
      return false;
    }
    if HasAny(t, ",") {
      return false;
    }
    if !(">=" <= t) {
      return false;
    }
    var rest := Trim(lib, t[2..]);
    if rest == "" {
      return false;
    }
    ok := lib.semver(Normalized(rest));
  }

  // The spec.

  predicate OneOf(s: Spec, key: string, allowed: set<string>) {
    key in s && s[key].Str? && s[key].s != "" ==> s[key].s in allowed
  }

  predicate IsListOfAny(v: Value) {
    v.List? && !v.typed
  }

  /** Tags are strings, each given once. */
  predicate TagsOk(s: Spec) {
    "tags" in s && s["tags"] != Null ==>
      && IsListOfAny(s["tags"])
      && (forall i | 0 <= i < |s["tags"].xs| :: s["tags"].xs[i].Str?)
      && forall i, j | 0 <= i < j < |s["tags"].xs| :: s["tags"].xs[i] != s["tags"].xs[j]
  }

  predicate SourceOk(lib: Library, s: Spec) {
    "sourceDir" in s && s["sourceDir"].Str? && s["sourceDir"].s != "" ==> lib.packs(s["sourceDir"].s)
  }

  function SubMap(s: Spec, key: string): Spec {
    if key in s && s[key].Map? && !s[key].anyKeys then s[key].m else map[]
  }

  function Cli(s: Spec): Spec {
    SubMap(SubMap(s, "requires"), "cli")
  }

  /** What is accepted. */
  predicate SkillOk(lib: Library, s: Spec) {
    && OneOf(s, "visibility", VISIBILITIES) && OneOf(s, "status", STATUSES) && TagsOk(s) && SourceOk(lib, s)
    && forall b | b in Cli(s) :: Cli(s)[b].Str? && GoodConstraint(lib, Cli(s)[b].s)
  }

  predicate Repeated(xs: seq<Value>, tag: string) {
    exists i, j :: 0 <= i < j < |xs| && xs[i] == Str(tag) && xs[j] == Str(tag)
  }

  predicate TagProblem(e: SkillProblem, v: Value) {
    match e
    case TagsNotList => v != Null && !IsListOfAny(v)
    case TagNotString(i) => IsListOfAny(v) && i < |v.xs| && !v.xs[i].Str?
    case DuplicateTag(tag) => IsListOfAny(v) && Repeated(v.xs, tag)
    case _ => false
  }

  predicate CliProblem(e: SkillProblem, lib: Library, cli: Spec) {
    match e
    case CliNotString(b) => b in cli && !cli[b].Str?
    case BadConstraint(b) => b in cli && cli[b].Str? && !GoodConstraint(lib, cli[b].s)
    case _ => false
  }

  /** What is reported. */
  predicate SkillProblemOf(e: SkillProblem, lib: Library, s: Spec) {
    || (e.BadVisibility? && !OneOf(s, "visibility", VISIBILITIES))
    || (e.BadStatus? && !OneOf(s, "status", STATUSES))
    || ("tags" in s && TagProblem(e, s["tags"]))
    || (e.BadSourceDir? && !SourceOk(lib, s))
    || CliProblem(e, lib, Cli(s))
  }

  method ValidateTags(v: Value) returns (errs: seq<SkillProblem>)
    ensures forall e :: e in errs <==> TagProblem(e, v)
  {
    errs := [];
    if v == Null {
      return;
    }
    if !IsListOfAny(v) {
      return [TagsNotList];
    }
    var seen: set<string> := {};
    for i := 0 to |v.xs|
      invariant forall t :: t in seen <==> exists j :: 0 <= j < i && v.xs[j] == Str(t)
      invariant forall e :: e in errs <==> TagProblem(e, List(false, v.xs[..i]))
    {
      ghost var before, after := v.xs[..i], v.xs[..i + 1];
      assert after == before + [v.xs[i]];
      if !v.xs[i].Str? {
        errs := errs + [TagNotString(i)];
        OneMoreTag(before, v.xs[i]);
        continue;
      }
      OneMoreTag(before, v.xs[i]);
      if v.xs[i].s in seen {
        errs := errs + [DuplicateTag(v.xs[i].s)];
      }
      seen := seen + {v.xs[i].s};
    }
    assert v.xs[..|v.xs|] == v.xs && v == List(false, v.xs);
  }

  lemma OneMoreTag(xs: seq<Value>, x: Value)
    ensures forall i | 0 <= i < |xs| :: (xs + [x])[i] == xs[i]
    ensures forall tag :: Repeated(xs + [x], tag) <==> Repeated(xs, tag) || (Str(tag) in xs && x == Str(tag))
  {
    var ys := xs + [x];
    forall tag
      ensures Repeated(ys, tag) <==> Repeated(xs, tag) || (Str(tag) in xs && x == Str(tag))
    {
      if Repeated(xs, tag) {
        var i, j :| 0 <= i < j < |xs| && xs[i] == Str(tag) && xs[j] == Str(tag);
        assert ys[i] == Str(tag) && ys[j] == Str(tag);
      }
      if Str(tag) in xs && x == Str(tag) {
        var i :| 0 <= i < |xs| && xs[i] == Str(tag);
        assert ys[i] == Str(tag) && ys[|xs|] == Str(tag);
      }
    }
  }

  lemma OneMoreTool(lib: Library, cli: Spec, todo: set<string>, b: string, e: SkillProblem)
    requires b in todo && b in cli
    ensures CliProblem(e, lib, cli - (todo - {b})) <==>
            || CliProblem(e, lib, cli - todo)
            || (e == CliNotString(b) && !cli[b].Str?)
            || (e == BadConstraint(b) && cli[b].Str? && !GoodConstraint(lib, cli[b].s))
  {
  }

  method ValidateCli(lib: Library, cli: Spec) returns (errs: seq<SkillProblem>)
    ensures forall e :: e in errs <==> CliProblem(e, lib, cli)
  {
    errs := [];
    var todo := cli.Keys;
    while todo != {}
      invariant todo <= cli.Keys
      invariant forall e :: e in errs <==> CliProblem(e, lib, cli - todo)
      decreases |todo|
    {
      var binary :| binary in todo;
      forall e {
        OneMoreTool(lib, cli, todo, binary, e);
      }
      todo := todo - {binary};
      if !cli[binary].Str? {
        errs := errs + [CliNotString(binary)];
        continue;
      }
      var ok := ValidateCliConstraintShape(lib, cli[binary].s);
      if !ok {
        errs := errs + [BadConstraint(binary)];
      }
    }
    assert cli - {} == cli;
  }

  /** Every problem is reported, and nothing else. */
  method ValidateSkillSpec(lib: Library, s: Spec) returns (errs: seq<SkillProblem>)
    ensures forall e :: e in errs <==> SkillProblemOf(e, lib, s)
    ensures errs == [] <==> SkillOk(lib, s)
  {
    errs := [];
    if !OneOf(s, "visibility", VISIBILITIES) {
      errs := errs + [BadVisibility];
    }
    if !OneOf(s, "status", STATUSES) {
      errs := errs + [BadStatus];
    }
    if "tags" in s {
      var tags := ValidateTags(s["tags"]);
      errs := errs + tags;
    }
    if !SourceOk(lib, s) {
      errs := errs + [BadSourceDir];
    }
    var cli := ValidateCli(lib, Cli(s));
    errs := errs + cli;
    NoSkillProblemIff(lib, s);
    assert errs == [] <==> forall e :: e !in errs by {
      assert errs != [] ==> errs[0] in errs;
    }
  }

  /** Nothing is reported exactly for the specs that are accepted. */
  lemma NoSkillProblemIff(lib: Library, s: Spec)
    ensures (forall e :: !SkillProblemOf(e, lib, s)) <==> SkillOk(lib, s)
  {
    if forall e :: !SkillProblemOf(e, lib, s) {
      assert !SkillProblemOf(BadVisibility, lib, s) && !SkillProblemOf(BadStatus, lib, s);
      assert !SkillProblemOf(BadSourceDir, lib, s);
      NoTagProblem(lib, s);
      forall b | b in Cli(s)
        ensures Cli(s)[b].Str? && GoodConstraint(lib, Cli(s)[b].s)
      {
        assert !SkillProblemOf(CliNotString(b), lib, s) && !SkillProblemOf(BadConstraint(b), lib, s);
      }
    }
  }

  lemma NoTagProblem(lib: Library, s: Spec)
    requires forall e :: !SkillProblemOf(e, lib, s)
    ensures TagsOk(s)
  {
    if "tags" in s && s["tags"] != Null {
      var v := s["tags"];
      assert !SkillProblemOf(TagsNotList, lib, s);
      forall i | 0 <= i < |v.xs|
        ensures v.xs[i].Str?
      {
        assert !SkillProblemOf(TagNotString(i), lib, s);
      }
      forall i, j | 0 <= i < j < |v.xs|
        ensures v.xs[i] != v.xs[j]
      {
        assert !SkillProblemOf(DuplicateTag(v.xs[i].s), lib, s);
      }
    }
  }
}
