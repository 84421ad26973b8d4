/** Unpacking a skill's files into a local directory, with optional pruning, as an update of a file tree. */
module Unpack {
  import opened Text
  import opened Values

  type Bytes = seq<bv8>

  datatype SkillFile = SkillFile(path: string, data: Bytes)

  /** The files under the output directory by their cleaned relative path. */
  type Tree = map<string, Bytes>

  /** The output directory's name: empty, in cleaned form and neither "." nor "/", or anything else. */
  datatype Place = Unnamed | Usual | Other

  const MAX_FILE_SIZE := 0x40_0000

  // Paths.

  predicate Hidden(name: string) {
    name != "" && name[0] == '.'
  }

  predicate IsSkippedDir(name: string) {
    name in {".git", ".github", "node_modules", "__pycache__", ".venv", "venv"} || Hidden(name)
  }

  predicate IsSkippedFile(name: string) {
    name in {".DS_Store", "Thumbs.db", ".gitkeep", ".gitignore"} || Hidden(name)
  }

  /** The last non-empty part. */
  function LastPart(parts: seq<string>): string {
    if parts == [] then "."
    else if parts[|parts| - 1] != "" then parts[|parts| - 1]
    else LastPart(parts[..|parts| - 1])
  }

  predicate Skipped(path: string) {
    IsSkippedFile(LastPart(Split(path, '/'))) || IsSkippedDir(Split(path, '/')[0])
  }

  predicate Unsafe(path: string) {
    (path != "" && path[0] == '/') || exists i :: 0 <= i < |path| - 1 && path[i] == '.' && path[i + 1] == '.'
  }

  predicate Rooted(path: string) {
    "/" <= path
  }

  predicate DotDot(path: string) {
    exists i :: 0 <= i <= |path| && ".." <= path[i..]
  }

  lemma UnsafeIff(path: string)
    ensures Unsafe(path) <==> Rooted(path) || DotDot(path)
  {
    if i :| 0 <= i < |path| - 1 && path[i] == '.' && path[i + 1] == '.' {
      assert ".." <= path[i..];
    }
    if i :| 0 <= i <= |path| && ".." <= path[i..] {
      assert path[i] == path[i..][0] && path[i + 1] == path[i..][1];
    }
  }

  /** A relative path that never steps up. */
  predicate Below(path: string) {
    !Rooted(path) && ".." !in Split(path, '/')
  }

  lemma {:induction false} PartWithin(s: string, sep: char, part: string) returns (i: nat)
    requires part in Split(s, sep)
    ensures i + |part| <= |s| && s[i..i + |part|] == part
    ensures part == Split(s, sep)[0] ==> i == 0
  {
    i := 0;
    if s != "" {
      var rest := Split(s[1..], sep);
      if part == Split(s, sep)[0] {
        if s[0] != sep {
          var j := PartWithin(s[1..], sep, rest[0]);
          assert part == [s[0]] + rest[0] && s[..|part|] == [s[0]] + s[1..][..|rest[0]|];
        }
      } else {
        var j := PartWithin(s[1..], sep, part);
        i := j + 1;
        assert s[1..][j..j + |part|] == s[i..i + |part|];
      }
    }
  }

  /** The parts that name something. */
  function Plain(parts: seq<string>): (r: seq<string>)
    ensures forall p :: p in r <==> p in parts && p != "" && p != "."
  {
    if parts == [] then []
    else (if parts[0] == "" || parts[0] == "." then [] else [parts[0]]) + Plain(parts[1..])
  }

  /** The path as it ends up below the output directory. */
  function Clean(path: string): string {
    var parts := Plain(Split(path, '/'));
    if parts == [] then "." else Join(parts, '/')
  }

  lemma {:induction false} PlainOfPlain(parts: seq<string>)
    requires forall i | 0 <= i < |parts| :: parts[i] != "" && parts[i] != "."
    ensures Plain(parts) == parts
  {
    if parts != [] {
      PlainOfPlain(parts[1..]);
    }
  }

  lemma CleanIsClean(path: string)
    ensures Clean(Clean(path)) == Clean(path)
  {
    var parts := Plain(Split(path, '/'));
    if parts == [] {
      SplitAfterPart(".", "", '/');
      assert Plain(["."]) == [];
    } else {
      SplitOfJoin(parts, '/');
      assert forall i | 0 <= i < |parts| :: parts[i] in parts;
      PlainOfPlain(parts);
    }
  }

  lemma DotDotPart(path: string)
    requires ".." in Split(path, '/')
    ensures DotDot(path)
  {
    var i := PartWithin(path, '/', "..");
    assert ".." <= path[i..];
  }

  /** Where a path that is neither absolute nor dotted ends up. */
  lemma SafeIsBelow(path: string)
    requires !Rooted(path) && !DotDot(path)
    ensures Below(Clean(path))
  {
    var parts := Plain(Split(path, '/'));
    if ".." in Split(path, '/') {
      DotDotPart(path);
    }
    if parts == [] {
      SplitAfterPart(".", "", '/');
    } else {
      SplitOfJoin(parts, '/');
      assert parts[0] in parts && parts[0][0] in parts[0];
      assert Join(parts, '/')[0] == parts[0][0];
    }
  }

  // What a call is to achieve.

  predicate Acceptable(f: SkillFile, place: Place) {
    !Unsafe(f.path) && (Skipped(f.path) || (|f.data| <= MAX_FILE_SIZE && place.Usual?))
  }

  /** What the files that are not skipped put into the tree; later ones win. */
  function Overlay(files: seq<SkillFile>): Tree {
    if files == [] then map[]
    else
      var before, f := files[..|files| - 1], files[|files| - 1];
      if Skipped(f.path) then Overlay(before) else Overlay(before)[Clean(f.path) := f.data]
  }

  lemma {:induction false} OverlayHas(files: seq<SkillFile>, f: SkillFile)
    requires f in files && !Skipped(f.path)
    ensures Clean(f.path) in Overlay(files)
  {
    var before, last := files[..|files| - 1], files[|files| - 1];
    LastApart(files);
    if f in before {
      OverlayHas(before, f);
    }
  }

  lemma {:induction false} OverlayComesFrom(files: seq<SkillFile>, p: string) returns (f: SkillFile)
    requires p in Overlay(files)
    ensures f in files && !Skipped(f.path) && Clean(f.path) == p && f.data == Overlay(files)[p]
  {
    var before, last := files[..|files| - 1], files[|files| - 1];
    LastApart(files);
    if !Skipped(last.path) && Clean(last.path) == p {
      f := last;
      assert last in files;
    } else {
      assert p in Overlay(before) && Overlay(before)[p] == Overlay(files)[p];
      f := OverlayComesFrom(before, p);
      assert f in before;
    }
  }

  /** The paths, as given, that pruning keeps. */
  function Keep(files: seq<SkillFile>): set<string> {
    set f | f in files && !Skipped(f.path) :: f.path
  }

  predicate UpToDate(tree: Tree, p: string, data: Bytes) {
    p in tree && tree[p] == data
  }

  /** The files written, in order, each against the tree as the earlier ones have left it. */
  function Rewritten(tree: Tree, files: seq<SkillFile>): seq<string> {
    if files == [] then []
    else
      var before, f := files[..|files| - 1], files[|files| - 1];
      Rewritten(tree, before) +
      if Skipped(f.path) || UpToDate(tree + Overlay(before), Clean(f.path), f.data) then [] else [f.path]
  }

  function Restrict(tree: Tree, keys: set<string>): Tree {
    map p | p in tree && p in keys :: tree[p]
  }

  function Pruned(tree: Tree, files: seq<SkillFile>): Tree {
    Restrict(tree + Overlay(files), Keep(files))
  }

  function Gone(tree: Tree, files: seq<SkillFile>): set<string> {
    (tree + Overlay(files)).Keys - Keep(files)
  }

  /** A file system subtree whose operations may fail; a failed write may leave anything in its file. */
  class Dir {
    var tree: Tree
    ghost var failures: nat

    method WriteFile(path: string, data: Bytes) returns (ok: bool, ghost left: Bytes)
      modifies this
      ensures tree == old(tree)[path := if ok then data else left] || (!ok && tree == old(tree))
      ensures failures == old(failures) + if ok then 0 else 1
    {
      ok := *;
      failures := failures + if ok then 0 else 1;
      var reached: bool, junk: Bytes := *, *;
      left := junk;
      if ok {
        tree := tree[path := data];
      } else if reached {
        tree := tree[path := junk];
      }
    }

    method Remove(path: string) returns (ok: bool)
      modifies this
      ensures tree == old(tree) - {path} || (!ok && tree == old(tree))
      ensures failures == old(failures) + if ok then 0 else 1
    {
      ok := *;
      failures := failures + if ok then 0 else 1;
      var reached := *;
      if ok || reached {
        tree := tree - {path};
      }
    }

    /** On to the next file. */
    method Walk() returns (ok: bool)
      modifies this
      ensures tree == old(tree) && failures == old(failures) + if ok then 0 else 1
    {
      ok := *;
      failures := failures + if ok then 0 else 1;
    }
  }

  /** Files have been deleted, none of them to be kept, and none changed. */
  predicate OnlyDropped(before: Tree, now: Tree, keep: set<string>) {
    && (forall p | p in now :: p in before && now[p] == before[p])
    && (forall p | p in before && p in keep :: p in now)
  }

  /** How far the walk has come. */
  predicate PrunedUpTo(before: Tree, now: Tree, todo: set<string>, keep: set<string>, gone: seq<string>) {
    todo <= before.Keys && now == Restrict(before, todo + keep) && Enumerates(gone, before.Keys - todo - keep)
  }

  lemma PruneStep(before: Tree, now: Tree, todo: set<string>, keep: set<string>, gone: seq<string>, x: string)
    requires PrunedUpTo(before, now, todo, keep, gone) && x in todo
    ensures x in keep ==> PrunedUpTo(before, now, todo - {x}, keep, gone)
    ensures x !in keep ==> PrunedUpTo(before, now - {x}, todo - {x}, keep, gone + [x])
  {
    if x in keep {
      assert todo - {x} + keep == todo + keep;
      assert before.Keys - (todo - {x}) - keep == before.Keys - todo - keep;
    } else {
      assert Restrict(before, todo - {x} + keep) == now - {x};
      EnumeratesMore(gone, before.Keys - todo - keep, x);
      assert before.Keys - (todo - {x}) - keep == before.Keys - todo - keep + {x};
    }
  }

  /** One file of the walk. */
  method PruneOne(dir: Dir, keep: set<string>, rel: string) returns (ok: bool)
    modifies dir
    ensures ok <==> dir.failures == old(dir.failures)
    ensures old(dir.failures) <= dir.failures
    ensures dir.tree == old(dir.tree) || (rel !in keep && dir.tree == old(dir.tree) - {rel})
    ensures ok && rel !in keep ==> dir.tree == old(dir.tree) - {rel}
  {
    ok := dir.Walk();
    if ok && rel !in keep {
      ok := dir.Remove(rel);
    }
  }

  /** Deletes what is not to be kept, in any order.  Walking may fail at any file. */
  method PruneLocal(dir: Dir, keep: set<string>) returns (deleted: Option<seq<string>>)
    modifies dir
    ensures OnlyDropped(old(dir.tree), dir.tree, keep)
    ensures deleted.Some? <==> dir.failures == old(dir.failures)
    ensures old(dir.failures) <= dir.failures
    ensures deleted.Some? ==>
              && dir.tree == Restrict(old(dir.tree), keep)
              && Enumerates(deleted.value, old(dir.tree).Keys - keep)
  {
    var todo := dir.tree.Keys;
    var gone := [];
    assert dir.tree == Restrict(dir.tree, todo + keep);
    while todo != {}
      invariant PrunedUpTo(old(dir.tree), dir.tree, todo, keep, gone) && dir.failures == old(dir.failures)
      decreases |todo|
    {
      var rel :| rel in todo;
      PruneStep(old(dir.tree), dir.tree, todo, keep, gone, rel);
      todo := todo - {rel};
      var ok := PruneOne(dir, keep, rel);
      if !ok {
        return None;
      }
      if rel !in keep {
        gone := gone + [rel];
      }
    }
    deleted := Some(gone);
    assert todo + keep == keep && old(dir.tree).Keys - todo - keep == old(dir.tree).Keys - keep;
  }

  method NeedsWrite(dir: Dir, path: string, data: Bytes) returns (r: bool)
    ensures r <==> !UpToDate(dir.tree, path, data)
  {
    r := path !in dir.tree || dir.tree[path] != data;
  }

  /** Away from the paths the files go to, nothing has been added or changed, and nothing dropped unless `mayDrop`. */
  ghost predicate ElsewhereKept(before: Tree, now: Tree, files: seq<SkillFile>, mayDrop: bool) {
    forall p | p !in Overlay(files) ::
      (p in now ==> UpToDate(before, p, now[p])) && (!mayDrop && p in before ==> p in now)
  }

  lemma OverlayGrows(files: seq<SkillFile>, n: nat)
    requires n < |files|
    ensures var f := files[n];
            Overlay(files[..n + 1]) ==
            if Skipped(f.path) then Overlay(files[..n]) else Overlay(files[..n])[Clean(f.path) := f.data]
  {
    assert files[..n + 1][..n] == files[..n];
  }

  lemma KeepGrows(files: seq<SkillFile>, n: nat)
    requires n < |files|
    ensures Keep(files[..n + 1]) == Keep(files[..n]) + if Skipped(files[n].path) then {} else {files[n].path}
  {
  }

  lemma OverlayHasPrefix(files: seq<SkillFile>, n: nat)
    requires n <= |files|
    ensures Overlay(files[..n]).Keys <= Overlay(files).Keys
  {
    forall p | p in Overlay(files[..n])
      ensures p in Overlay(files)
    {
      var f := OverlayComesFrom(files[..n], p);
      assert f in files;
      OverlayHas(files, f);
    }
  }

  lemma RewrittenGrows(tree: Tree, files: seq<SkillFile>, n: nat)
    requires n < |files|
    ensures var f := files[n];
            Rewritten(tree, files[..n + 1]) == Rewritten(tree, files[..n]) +
            if Skipped(f.path) || UpToDate(tree + Overlay(files[..n]), Clean(f.path), f.data) then [] else [f.path]
  {
    assert files[..n + 1][..n] == files[..n];
  }

  /** How far the writing has come. */
  ghost predicate UnpackedUpTo(before: Tree, now: Tree, files: seq<SkillFile>, n: nat,
                               written: set<string>, list: seq<string>)
    requires n <= |files|
  {
    now == before + Overlay(files[..n]) && written == Keep(files[..n]) && list == Rewritten(before, files[..n])
  }

  lemma UnpackStep(before: Tree, now: Tree, files: seq<SkillFile>, n: nat, written: set<string>, list: seq<string>)
    requires n < |files| && UnpackedUpTo(before, now, files, n, written, list)
    ensures var f := files[n];
            if Skipped(f.path) then UnpackedUpTo(before, now, files, n + 1, written, list)
            else if UpToDate(now, Clean(f.path), f.data) then
              UnpackedUpTo(before, now, files, n + 1, written + {f.path}, list)
            else
              UnpackedUpTo(before, now[Clean(f.path) := f.data], files, n + 1, written + {f.path}, list + [f.path])
  {
    OverlayGrows(files, n);
    KeepGrows(files, n);
    RewrittenGrows(before, files, n);
    Overlaid(before, Overlay(files[..n]), Clean(files[n].path), files[n].data);
  }

  lemma Overlaid(before: Tree, over: Tree, p: string, data: Bytes)
    ensures before + over[p := data] == (before + over)[p := data]
    ensures UpToDate(before + over, p, data) ==> (before + over)[p := data] == before + over
  {
  }

  lemma UnpackedElsewhere(before: Tree, now: Tree, files: seq<SkillFile>, n: nat,
                          written: set<string>, list: seq<string>)
    requires n <= |files| && UnpackedUpTo(before, now, files, n, written, list)
    ensures ElsewhereKept(before, now, files, false)
  {
    OverlayHasPrefix(files, n);
  }

  predicate SameBut(before: Tree, now: Tree, p: string) {
    before - {p} == now - {p}
  }

  lemma ElsewhereStill(before: Tree, mid: Tree, now: Tree, files: seq<SkillFile>, f: SkillFile)
    requires ElsewhereKept(before, mid, files, false) && SameBut(mid, now, Clean(f.path))
    requires f in files && !Skipped(f.path)
    ensures ElsewhereKept(before, now, files, false)
  {
    OverlayHas(files, f);
    forall p | p !in Overlay(files)
      ensures p in now <==> p in mid
      ensures p in now ==> now[p] == mid[p]
    {
      assert p in now <==> p in now - {Clean(f.path)};
      assert p in mid <==> p in mid - {Clean(f.path)};
    }
  }

  /** One file, up to the point where it is in place. */
  method UnpackOne(dir: Dir, place: Place, f: SkillFile) returns (ok: bool, rewritten: bool)
    requires !Skipped(f.path) && !Unsafe(f.path) && !place.Unnamed?
    modifies dir
    ensures ok ==> (rewritten <==> !UpToDate(old(dir.tree), Clean(f.path), f.data))
    ensures ok <==> |f.data| <= 0x40_0000 && place.Usual? && dir.failures == old(dir.failures)
    ensures old(dir.failures) <= dir.failures
    ensures ok ==> dir.tree == if rewritten then old(dir.tree)[Clean(f.path) := f.data] else old(dir.tree)
    ensures SameBut(old(dir.tree), dir.tree, Clean(f.path))
  {
    if |f.data| > MAX_FILE_SIZE || place.Other? {
      return false, false;
    }
    rewritten := NeedsWrite(dir, Clean(f.path), f.data);
    ok := true;
    if rewritten {
      ghost var left;
      ok, left := dir.WriteFile(Clean(f.path), f.data);
    }
  }

  datatype Verdict = Reject | Skip | Take

  /** The path checks, which come before the size check. */
  method Screen(f: SkillFile, place: Place) returns (v: Verdict)
    ensures v.Reject? <==> Rooted(f.path) || DotDot(f.path)
    ensures v.Skip? <==> !Rooted(f.path) && !DotDot(f.path) && Skipped(f.path)
  {
    UnsafeIff(f.path);
    if Unsafe(f.path) {
      return Reject;
    }
    v := if Skipped(f.path) then Skip else Take;
  }

  ghost predicate AllAcceptable(files: seq<SkillFile>, n: nat, place: Place)
    requires n <= |files|
  {
    forall i | 0 <= i < n :: Acceptable(files[i], place)
  }

  /** Whatever is new or changed lies below the directory. */
  ghost predicate NewIsBelow(before: Tree, now: Tree) {
    forall p | p in now && !UpToDate(before, p, now[p]) :: Below(p)
  }

  lemma WriteBelow(before: Tree, mid: Tree, now: Tree, f: SkillFile)
    requires NewIsBelow(before, mid) && SameBut(mid, now, Clean(f.path)) && !Rooted(f.path) && !DotDot(f.path)
    ensures NewIsBelow(before, now)
  {
    SafeIsBelow(f.path);
    forall p | p in now && !UpToDate(before, p, now[p]) && p != Clean(f.path)
      ensures Below(p)
    {
      assert p in now - {Clean(f.path)} && p in mid - {Clean(f.path)};
    }
  }

  method WriteFiles(dir: Dir, place: Place, files: seq<SkillFile>)
    returns (ok: bool, written: set<string>, list: seq<string>)
    requires !place.Unnamed?
    modifies dir
    ensures ElsewhereKept(old(dir.tree), dir.tree, files, false) && NewIsBelow(old(dir.tree), dir.tree)
    ensures ok ==> UnpackedUpTo(old(dir.tree), dir.tree, files, |files|, written, list)
    ensures ok <==> AllAcceptable(files, |files|, place) && dir.failures == old(dir.failures)
    ensures old(dir.failures) <= dir.failures
  {
    written, list := {}, [];
    for i := 0 to |files|
      invariant AllAcceptable(files, i, place) && NewIsBelow(old(dir.tree), dir.tree)
      invariant dir.failures == old(dir.failures)
      invariant UnpackedUpTo(old(dir.tree), dir.tree, files, i, written, list)
    {
      UnpackedElsewhere(old(dir.tree), dir.tree, files, i, written, list);
      var f := files[i];
      UnsafeIff(f.path);
      var verdict := Screen(f, place);
      if verdict.Reject? {
        return false, written, list;
      }
      UnpackStep(old(dir.tree), dir.tree, files, i, written, list);
      if verdict.Skip? {
        continue;
      }
      ghost var mid := dir.tree;
      var rewritten;
      ok, rewritten := UnpackOne(dir, place, f);
      WriteBelow(old(dir.tree), mid, dir.tree, f);
      if !ok {
        ElsewhereStill(old(dir.tree), mid, dir.tree, files, f);
        return;
      }
      if rewritten {
        list := list + [f.path];
      }
      written := written + {f.path};
    }
    UnpackedElsewhere(old(dir.tree), dir.tree, files, |files|, written, list);
    ok := true;
  }

  lemma AcceptableIff(files: seq<SkillFile>, place: Place)
    ensures AllAcceptable(files, |files|, place) <==>
            forall f | f in files ::
              && !Rooted(f.path) && !DotDot(f.path)
              && (Skipped(f.path) || (|f.data| <= 0x40_0000 && place.Usual?))
  {
    forall f | f in files
      ensures Unsafe(f.path) <==> Rooted(f.path) || DotDot(f.path)
    {
      UnsafeIff(f.path);
    }
    assert forall i | 0 <= i < |files| :: files[i] in files;
  }

  /** The whole call.  A result is given exactly when the directory has a name, no path is absolute or has two dots in a
      row, files not skipped are small enough, and no file operation failed; it lists exactly what was written and
      deleted, and the tree is then exactly the old one with the files put in, cut to the kept paths when pruning. */
  method UnpackTo(dir: Dir, place: Place, files: seq<SkillFile>, prune: bool) returns (changed: Option<seq<string>>)
    modifies dir
    ensures ElsewhereKept(old(dir.tree), dir.tree, files, prune) && NewIsBelow(old(dir.tree), dir.tree)
    ensures changed.Some? <==>
              && !place.Unnamed? && dir.failures == old(dir.failures)
              && forall f | f in files ::
                   && !Rooted(f.path) && !DotDot(f.path)
                   && (Skipped(f.path) || (|f.data| <= 0x40_0000 && place.Usual?))
    ensures changed.Some? && !prune ==>
              dir.tree == old(dir.tree) + Overlay(files) && changed.value == Rewritten(old(dir.tree), files)
    ensures changed.Some? && prune ==>
              && dir.tree == Pruned(old(dir.tree), files)
              && exists gone :: changed.value == Rewritten(old(dir.tree), files) + gone
                                && Enumerates(gone, Gone(old(dir.tree), files))
  {
    if place.Unnamed? {
      return None;
    }
    AcceptableIff(files, place);
    var ok, written, list := WriteFiles(dir, place, files);
    if !ok {
      return None;
    }
    assert files[..|files|] == files;
    if prune {
      var pruned := PruneLocal(dir, written);
      if pruned.None? {
        return None;
      }
      list := list + pruned.value;
    }
    changed := Some(list);
  }

  // What a finished call means.

  /** Every file under the directory is filed under its cleaned path. */
  ghost predicate ValidTree(tree: Tree) {
    forall p | p in tree :: Clean(p) == p
  }

  lemma UnpackedIsValid(tree: Tree, files: seq<SkillFile>)
    requires ValidTree(tree)
    ensures ValidTree(tree + Overlay(files)) && ValidTree(Pruned(tree, files))
  {
    forall p | p in Overlay(files)
      ensures Clean(p) == p
    {
      var f := OverlayComesFrom(files, p);
      CleanIsClean(f.path);
    }
  }

  /** Main result on pruning: the tree becomes the server's files exactly when each of them is also listed under its
      cleaned path; a file listed only as, say, "a//b" is deleted by the very call that wrote it. */
  lemma PruneExactIff(tree: Tree, files: seq<SkillFile>)
    requires ValidTree(tree)
    ensures Pruned(tree, files) == Overlay(files) <==> Overlay(files).Keys <= Keep(files)
  {
    var pruned, over := Pruned(tree, files), Overlay(files);
    forall p | p in Keep(files) && p in tree
      ensures p in over
    {
      var f :| f in files && !Skipped(f.path) && f.path == p;
      OverlayHas(files, f);
    }
    assert pruned.Keys == over.Keys * Keep(files);
    if over.Keys <= Keep(files) {
      assert pruned.Keys == over.Keys;
      assert pruned == over;
    }
  }

  lemma CleanedDoubleSlash()
    ensures Split("a//b", '/') == ["a", "", "b"] && Clean("a//b") == "a/b"
    ensures !Skipped("a//b")
  {
    var s := "a//b";
    assert "a" + ['/'] + "/b" == s && "" + ['/'] + "b" == "/b";
    SplitAfterPart("a", "/b", '/');
    SplitAfterPart("", "b", '/');
    SplitAfterPart("b", "", '/');
    assert Split(s, '/') == ["a", "", "b"];
    assert Plain(["b"]) == ["b"];
    assert ["a", "", "b"][1..] == ["", "b"] && ["", "b"][1..] == ["b"];
    assert Plain(["a", "", "b"]) == ["a", "b"];
    assert Join(["a", "b"], '/') == "a/b";
  }

  /** Such a file: acceptable, written under its cleaned path, and deleted again by the same call. */
  lemma DoubleSlashIsDeleted(tree: Tree, data: Bytes)
    requires |data| <= MAX_FILE_SIZE
    ensures var f := SkillFile("a//b", data);
            && Acceptable(f, Usual)
            && "a/b" in Overlay([f]) && Overlay([f])["a/b"] == data
            && "a/b" !in Pruned(tree, [f]) && "a/b" in Gone(tree, [f])
  {
    CleanedDoubleSlash();
    var f := SkillFile("a//b", data);
    assert [f][..0] == [] && [f][0] == f;
    assert |"a//b"| != |"a/b"|;
  }

  /** Clean paths are enough. */
  lemma CleanPathsAreKept(files: seq<SkillFile>)
    requires forall f | f in files && !Skipped(f.path) :: Clean(f.path) == f.path
    ensures Overlay(files).Keys <= Keep(files)
  {
    forall p | p in Overlay(files)
      ensures p in Keep(files)
    {
      var f := OverlayComesFrom(files, p);
    }
  }

  /** Every file is in place. */
  ghost predicate InPlace(tree: Tree, files: seq<SkillFile>) {
    forall f | f in files && !Skipped(f.path) :: UpToDate(tree, Clean(f.path), f.data)
  }

  /** Entries for one path agree on its content. */
  ghost predicate Agree(files: seq<SkillFile>) {
    forall f, g | f in files && g in files && !Skipped(f.path) && !Skipped(g.path) && Clean(f.path) == Clean(g.path) ::
      f.data == g.data
  }

  /** A call rewrites nothing exactly when every file is in place. */
  lemma {:induction false} IdleIffInPlace(tree: Tree, files: seq<SkillFile>)
    ensures Rewritten(tree, files) == [] <==> InPlace(tree, files)
    ensures InPlace(tree, files) ==> tree + Overlay(files) == tree
  {
    if files != [] {
      var before, f := files[..|files| - 1], files[|files| - 1];
      LastApart(files);
      IdleIffInPlace(tree, before);
      assert InPlace(tree, files) <==>
             InPlace(tree, before) && (Skipped(f.path) || UpToDate(tree, Clean(f.path), f.data));
      Overlaid(tree, Overlay(before), Clean(f.path), f.data);
    }
  }

  lemma InPlaceIffAgree(tree: Tree, files: seq<SkillFile>)
    ensures InPlace(tree + Overlay(files), files) <==> Agree(files)
  {
    forall f | f in files && !Skipped(f.path)
      ensures Clean(f.path) in Overlay(files)
      ensures Agree(files) ==> UpToDate(tree + Overlay(files), Clean(f.path), f.data)
    {
      OverlayHas(files, f);
      var g := OverlayComesFrom(files, Clean(f.path));
    }
  }

  /** Main result: after a finished call, the same call again writes nothing exactly when entries for one path agree. */
  lemma SecondCallIdleIff(tree: Tree, files: seq<SkillFile>)
    ensures Rewritten(tree + Overlay(files), files) == [] <==> Agree(files)
  {
    InPlaceIffAgree(tree, files);
    IdleIffInPlace(tree + Overlay(files), files);
  }

  /** With pruning, the same call again writes and deletes nothing exactly when, besides, every file is listed under its
      cleaned path. */
  lemma SecondPruneIdleIff(tree: Tree, files: seq<SkillFile>)
    requires ValidTree(tree)
    ensures var again := Pruned(tree, files);
            Rewritten(again, files) == [] && Gone(again, files) == {} <==>
            Agree(files) && Overlay(files).Keys <= Keep(files)
  {
    var again := Pruned(tree, files);
    IdleIffInPlace(again, files);
    if InPlace(again, files) {
      InPlaceIsKept(again, files);
    }
    if Agree(files) && Overlay(files).Keys <= Keep(files) {
      PruneExactIff(tree, files);
      ServerSetIsIdle(files);
    }
  }

  lemma InPlaceIsKept(tree: Tree, files: seq<SkillFile>)
    requires InPlace(tree, files) && tree.Keys <= Keep(files)
    ensures Agree(files) && Overlay(files).Keys <= Keep(files)
  {
    forall p | p in Overlay(files)
      ensures p in Keep(files)
    {
      var f := OverlayComesFrom(files, p);
    }
    forall f, g | f in files && g in files && !Skipped(f.path) && !Skipped(g.path) && Clean(f.path) == Clean(g.path)
      ensures f.data == g.data
    {
      assert UpToDate(tree, Clean(f.path), f.data) && UpToDate(tree, Clean(g.path), g.data);
    }
  }

  lemma ServerSetIsIdle(files: seq<SkillFile>)
    requires Agree(files) && Overlay(files).Keys <= Keep(files)
    ensures Rewritten(Overlay(files), files) == [] && Gone(Overlay(files), files) == {}
  {
    InPlaceIffAgree(map[], files);
    IdleIffInPlace(Overlay(files), files);
    Merging(Overlay(files));
  }

  lemma Merging(over: Tree)
    ensures map[] + over == over && over + over == over
  {
  }

  /** The list names an entry that goes to p. */
  ghost predicate Names(list: seq<string>, p: string) {
    exists c :: c in list && Clean(c) == p
  }

  lemma ListsExtend(list: seq<string>, x: string, p: string)
    ensures Names(list + [x], p) <==> Names(list, p) || Clean(x) == p
  {
  }

  lemma ListedStep(tree: Tree, over: Tree, list: seq<string>, c: string, data: Bytes, p: string)
    requires Names(list, p) <==> p in over && !UpToDate(tree, p, over[p])
    requires Clean(c) == p && p in over ==> over[p] == data
    ensures var after, now := over[Clean(c) := data],
                               if UpToDate(tree + over, Clean(c), data) then list else list + [c];
            Names(now, p) <==> p in after && !UpToDate(tree, p, after[p])
  {
    ListsExtend(list, c, p);
  }

  /** Main result: when entries agree, the written list names exactly the paths whose content changed. */
  lemma {:induction false} ListedIffChanged(tree: Tree, files: seq<SkillFile>, p: string)
    requires Agree(files)
    ensures Names(Rewritten(tree, files), p) <==>
            p in Overlay(files) && !UpToDate(tree, p, Overlay(files)[p])
  {
    if files != [] {
      var before, f := files[..|files| - 1], files[|files| - 1];
      LastApart(files);
      assert Agree(before) by {
        assert forall g | g in before :: g in files;
      }
      ListedIffChanged(tree, before, p);
      if !Skipped(f.path) {
        if Clean(f.path) == p && p in Overlay(before) {
          var g := OverlayComesFrom(before, p);
          assert g.data == f.data;
        }
        ListedStep(tree, Overlay(before), Rewritten(tree, before), f.path, f.data, p);
      }
    }
  }
}
