/** Splitting and joining strings, and small facts about sequences. */
module Text {

  /** The parts of s between separators. */
  function Split(s: string, sep: char): (parts: seq<string>)
    ensures |parts| > 0
    ensures forall p | p in parts :: sep !in p
  {
    if s == "" then [""]
    else
      var rest := Split(s[1..], sep);
      if s[0] == sep then [""] + rest else [[s[0]] + rest[0]] + rest[1..]
  }

  function Join(parts: seq<string>, sep: char): string {
    if parts == [] then ""
    else if |parts| == 1 then parts[0]
    else parts[0] + [sep] + Join(parts[1..], sep)
  }

  lemma {:induction false} SplitAfterPart(part: string, rest: string, sep: char)
    requires sep !in part
    ensures Split(part, sep) == [part]
    ensures Split(part + [sep] + rest, sep) == [part] + Split(rest, sep)
  {
    var s := part + [sep] + rest;
    if part == "" {
      assert s[1..] == rest;
    } else {
      assert part == [part[0]] + part[1..];
      assert s[1..] == part[1..] + [sep] + rest;
      SplitAfterPart(part[1..], rest, sep);
    }
  }

  /** Splitting undoes joining when no part holds the separator. */
  lemma {:induction false} SplitOfJoin(parts: seq<string>, sep: char)
    requires parts != [] && forall p | p in parts :: sep !in p
    ensures Split(Join(parts, sep), sep) == parts
  {
    if |parts| == 1 {
      SplitAfterPart(parts[0], "", sep);
    } else {
      SplitOfJoin(parts[1..], sep);
      assert parts == [parts[0]] + parts[1..];
      assert Join(parts, sep) == parts[0] + [sep] + Join(parts[1..], sep);
      SplitAfterPart(parts[0], Join(parts[1..], sep), sep);
    }
  }

  lemma Regroup<T>(a: seq<T>, b: seq<T>, c: seq<T>)
    ensures a + b + c == a + (b + c)
  {
  }

  lemma LastApart<T>(s: seq<T>)
    requires s != []
    ensures s == s[..|s| - 1] + [s[|s| - 1]]
  {
  }

  function Elements(s: seq<string>): set<string> {
    set x | x in s
  }

  lemma ElementsExtend(s: seq<string>, x: string)
    ensures Elements(s + [x]) == Elements(s) + {x}
  {
  }

  /** s has the elements of the set, each once. */
  predicate Enumerates(s: seq<string>, xs: set<string>) {
    Elements(s) == xs && |s| == |xs|
  }

  lemma EnumeratesMore(s: seq<string>, xs: set<string>, x: string)
    requires Enumerates(s, xs) && x !in xs
    ensures Enumerates(s + [x], xs + {x})
  {
  }

  lemma OneLess<T>(todo: set<T>, others: set<T>, id: T)
    requires id in todo
    ensures |todo - others| == |(todo - {id}) - others| + if id in others then 0 else 1
  {
    if id in others {
      assert todo - others == (todo - {id}) - others;
    } else {
      assert (todo - {id}) - others == (todo - others) - {id};
    }
  }
}
