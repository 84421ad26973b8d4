/** Which files of a skill are skipped and where the others go, said by the parts of their paths. */
module UnpackLaws {
  import opened Text
  import opened Values
  import opened Unpack

  function Attached(c: char, parts: seq<string>, sep: char): seq<string>
    requires parts != []
  {
    if c == sep then [""] + parts else [[c] + parts[0]] + parts[1..]
  }

  lemma SplitStep(c: char, s: string, sep: char)
    ensures Split([c] + s, sep) == Attached(c, Split(s, sep), sep)
  {
  }

  lemma AttachedConcat(c: char, xs: seq<string>, ys: seq<string>, sep: char)
    requires xs != []
    ensures Attached(c, xs + ys, sep) == Attached(c, xs, sep) + ys
  {
  }

  lemma {:induction false} SplitConcat(a: string, b: string, sep: char)
    ensures Split(a + [sep] + b, sep) == Split(a, sep) + Split(b, sep)
  {
    if a == "" {
      assert a + [sep] + b == [sep] + b;
      SplitStep(sep, b, sep);
    } else {
      SplitConcat(a[1..], b, sep);
      SplitStep(a[0], a[1..] + [sep] + b, sep);
      SplitStep(a[0], a[1..], sep);
      AttachedConcat(a[0], Split(a[1..], sep), Split(b, sep), sep);
      assert a + [sep] + b == [a[0]] + (a[1..] + [sep] + b) && a == [a[0]] + a[1..];
    }
  }

  predicate Slashes(s: string) {
    forall i | 0 <= i < |s| :: s[i] == '/'
  }

  /** The path ends in this name, slashes after it not counting. */
  predicate EndsIn(path: string, dir: string, name: string, slashes: string) {
    && path == dir + name + slashes && Slashes(slashes)
    && name != "" && '/' !in name && (dir != "" ==> dir[|dir| - 1] == '/')
  }

  lemma {:induction false} LastOfName(name: string, slashes: string)
    requires name != "" && '/' !in name && Slashes(slashes)
    ensures LastPart(Split(name + slashes, '/')) == name
  {
    if slashes == "" {
      SplitAfterPart(name, "", '/');
      assert name + slashes == name;
    } else {
      var n := |slashes| - 1;
      LastOfName(name, slashes[..n]);
      var parts := Split(name + slashes[..n], '/');
      SplitConcat(name + slashes[..n], "", '/');
      assert name + slashes == name + slashes[..n] + ['/'] + "";
      assert (parts + [""])[..|parts|] == parts;
    }
  }

  lemma {:induction false} LastOfMore(parts: seq<string>, rest: seq<string>, p: string)
    requires p in rest && p != ""
    ensures LastPart(parts + rest) == LastPart(rest)
  {
    var n := |rest| - 1;
    assert (parts + rest)[|parts + rest| - 1] == rest[n];
    if rest[n] == "" {
      assert (parts + rest)[..|parts + rest| - 1] == parts + rest[..n];
      LastApart(rest);
      LastOfMore(parts, rest[..n], p);
    }
  }

  lemma HasName(name: string, slashes: string)
    requires name != "" && '/' !in name && Slashes(slashes)
    ensures name in Split(name + slashes, '/')
  {
    if slashes == "" {
      SplitAfterPart(name, "", '/');
      assert name + slashes == name;
    } else {
      SplitAfterPart(name, slashes[1..], '/');
      assert name + slashes == name + ['/'] + slashes[1..];
    }
  }

  /** What is last in a path. */
  lemma LastPartIs(path: string, dir: string, name: string, slashes: string)
    requires EndsIn(path, dir, name, slashes)
    ensures LastPart(Split(path, '/')) == name
  {
    LastOfName(name, slashes);
    if dir == "" {
      assert path == name + slashes;
    } else {
      var up := dir[..|dir| - 1];
      assert path == up + ['/'] + (name + slashes);
      SplitConcat(up, name + slashes, '/');
      HasName(name, slashes);
      LastOfMore(Split(up, '/'), Split(name + slashes, '/'), name);
    }
  }

  lemma FirstPartIs(path: string, first: string, rest: string)
    requires path == first + rest && '/' !in first && (rest != "" ==> rest[0] == '/')
    ensures Split(path, '/')[0] == first
  {
    if rest == "" {
      SplitAfterPart(first, "", '/');
      assert path == first;
    } else {
      SplitAfterPart(first, rest[1..], '/');
      assert path == first + ['/'] + rest[1..];
    }
  }

  /** Main result: a file is skipped exactly if its first part or its last one is on the list for it or begins with a
      dot; the parts in between do not matter. */
  lemma SkippedIff(path: string, first: string, rest: string, dir: string, name: string, slashes: string)
    requires path == first + rest && '/' !in first && (rest != "" ==> rest[0] == '/')
    requires EndsIn(path, dir, name, slashes)
    ensures Skipped(path) <==>
            || first in [".git", ".github", "node_modules", "__pycache__", ".venv", "venv"] || "." <= first
            || name in [".DS_Store", "Thumbs.db", ".gitkeep", ".gitignore"] || "." <= name
  {
    FirstPartIs(path, first, rest);
    LastPartIs(path, dir, name, slashes);
    DotFirst(first);
    DotFirst(name);
  }

  lemma DotFirst(s: string)
    ensures "." <= s <==> s != "" && s[0] == '.'
  {
  }

  // Cleaned paths.

  predicate NoSlashes(parts: seq<string>) {
    forall p | p in parts :: '/' !in p
  }

  lemma PlainStep(x: string, ys: seq<string>)
    ensures Plain([x] + ys) == (if x in ["", "."] then [] else [x]) + Plain(ys)
  {
  }

  lemma {:induction false} PlainConcat(xs: seq<string>, ys: seq<string>)
    ensures Plain(xs + ys) == Plain(xs) + Plain(ys)
  {
    if xs == [] {
      assert xs + ys == ys;
    } else {
      var x, rest := xs[0], xs[1..];
      PlainConcat(rest, ys);
      assert xs == [x] + rest && xs + ys == [x] + (rest + ys);
      PlainStep(x, rest);
      PlainStep(x, rest + ys);
      Regroup(if x in ["", "."] then [] else [x], Plain(rest), Plain(ys));
    }
  }

  lemma PlainDrops(xs: seq<string>, x: string, ys: seq<string>)
    requires x in ["", "."]
    ensures Plain(xs + [x] + ys) == Plain(xs + ys)
  {
    PlainConcat(xs + [x], ys);
    PlainConcat(xs, [x]);
    PlainConcat(xs, ys);
    PlainStep(x, []);
    assert [x] + [] == [x];
  }

  lemma CleanOfJoin(parts: seq<string>)
    requires NoSlashes(parts) && parts != []
    ensures Clean(Join(parts, '/')) == if Plain(parts) == [] then "." else Join(Plain(parts), '/')
  {
    SplitOfJoin(parts, '/');
  }

  /** Parts that are empty or a dot may be left out. */
  lemma CleanDrops(xs: seq<string>, x: string, ys: seq<string>)
    requires NoSlashes(xs) && NoSlashes(ys) && xs + ys != [] && x in ["", "."]
    ensures Clean(Join(xs + [x] + ys, '/')) == Clean(Join(xs + ys, '/'))
  {
    assert NoSlashes(xs + [x] + ys) && NoSlashes(xs + ys);
    CleanOfJoin(xs + [x] + ys);
    CleanOfJoin(xs + ys);
    PlainDrops(xs, x, ys);
  }

  lemma {:induction false} NothingPlain(parts: seq<string>)
    requires forall p | p in parts :: p in ["", "."]
    ensures Plain(parts) == []
  {
    if parts != [] {
      assert parts[0] in parts;
      NothingPlain(parts[1..]);
    }
  }

  /** A path without such parts stays as it is, and one of nothing else is the directory itself. */
  lemma CleanKeeps(parts: seq<string>)
    requires NoSlashes(parts) && parts != []
    ensures "" !in parts && "." !in parts ==> Clean(Join(parts, '/')) == Join(parts, '/')
    ensures (forall p | p in parts :: p in ["", "."]) ==> Clean(Join(parts, '/')) == "."
  {
    CleanOfJoin(parts);
    if "" !in parts && "." !in parts {
      assert forall i | 0 <= i < |parts| :: parts[i] in parts;
      PlainOfPlain(parts);
    }
    if forall p | p in parts :: p in ["", "."] {
      NothingPlain(parts);
    }
  }

  /** Main result: whatever the files, what they put into the tree lies below the directory if no path is absolute or
      has two dots in a row. */
  lemma OverlayIsBelow(files: seq<SkillFile>)
    requires forall f | f in files && !Skipped(f.path) :: !Rooted(f.path) && !DotDot(f.path)
    ensures forall p | p in Overlay(files) :: Below(p)
  {
    forall p | p in Overlay(files)
      ensures Below(p)
    {
      var f := OverlayComesFrom(files, p);
      SafeIsBelow(f.path);
    }
  }
}
