/** When a field is reported as different, said by its keys, its values and the numbers in them. */
module CompareLaws {
  import Text
  import opened Values
  import opened Compare
  import opened DiffLaws

  // Paths.

  /** Without the empty keys at the front. */
  function Stripped(path: seq<string>): seq<string> {
    if path != [] && path[0] == "" then Stripped(path[1..]) else path
  }

  lemma {:induction false} JoinSnoc(path: seq<string>, key: string)
    requires path != []
    ensures Text.Join(path + [key], '.') == Text.Join(path, '.') + "." + key
  {
    if |path| == 1 {
      assert (path + [key])[1..] == [key];
    } else {
      JoinSnoc(path[1..], key);
      assert (path + [key])[1..] == path[1..] + [key];
      JoinedApart(path[0], Text.Join(path[1..], '.'), key);
    }
  }

  lemma JoinedApart(a: string, b: string, c: string)
    ensures a + "." + (b + "." + c) == (a + "." + b) + "." + c
  {
  }

  lemma {:induction false} StrippedSnoc(path: seq<string>, key: string)
    ensures Stripped(path + [key]) == if Stripped(path) != [] then Stripped(path) + [key] else Stripped([key])
    ensures Stripped(path) != [] ==> Stripped(path)[0] != ""
  {
    if path == [] {
      assert path + [key] == [key];
    } else if path[0] == "" {
      StrippedSnoc(path[1..], key);
      assert (path + [key])[1..] == path[1..] + [key];
    }
  }

  lemma {:induction false} NotEmpty(path: seq<string>)
    requires path != [] && path[0] != ""
    ensures Text.Join(path, '.') != ""
  {
  }

  /** The path string is the keys joined by dots, empty ones at the front left out. */
  lemma {:induction false} DottedIsJoin(path: seq<string>)
    ensures Dotted(path) == Text.Join(Stripped(path), '.')
  {
    if path != [] {
      var before, key := path[..|path| - 1], path[|path| - 1];
      DottedIsJoin(before);
      assert path == before + [key];
      StrippedSnoc(before, key);
      if Stripped(before) != [] {
        JoinSnoc(Stripped(before), key);
        NotEmpty(Stripped(before));
      } else {
        assert [key][1..] == [];
      }
    }
  }

  /** No key on the way counts as a top-level one that is left out; a key is at the top when all before it are empty.
      */
  predicate Open(path: seq<string>, exclude: set<string>) {
    forall n | 0 <= n < |path| :: (forall j | 0 <= j < n :: path[j] == "") ==> path[n] !in exclude
  }

  lemma {:induction false} StrippedIff(path: seq<string>)
    ensures Stripped(path) == [] <==> forall j | 0 <= j < |path| :: path[j] == ""
  {
    if path != [] && path[0] == "" {
      StrippedIff(path[1..]);
      assert forall j | 1 <= j < |path| :: path[j] == path[1..][j - 1];
    }
  }

  lemma TopIff(path: seq<string>)
    ensures Dotted(path) == "" <==> forall j | 0 <= j < |path| :: path[j] == ""
  {
    DottedIsJoin(path);
    StrippedIff(path);
    StrippedSnoc(path, "");
    if Stripped(path) != [] {
      NotEmpty(Stripped(path));
    }
  }

  lemma OpenIff(path: seq<string>, exclude: set<string>)
    ensures Open(path, exclude) <==> forall n | 0 <= n < |path| :: !Skipped([] + path[..n], path[n], exclude)
  {
    forall n | 0 <= n < |path|
      ensures Skipped([] + path[..n], path[n], exclude) <==>
              (forall j | 0 <= j < n :: path[j] == "") && path[n] in exclude
    {
      assert [] + path[..n] == path[..n];
      TopIff(path[..n]);
    }
  }

  // Values.

  /** Both are lists of strings, with the same strings. */
  predicate SameNames(a: Value, b: Value) {
    && a.List? && b.List?
    && (forall x | x in a.xs :: x.Str? && x in b.xs) && (forall x | x in b.xs :: x.Str? && x in a.xs)
  }

  lemma SameNamesIff(a: Value, b: Value)
    ensures SameStringSet(a, b) <==> SameNames(a, b)
  {
    if SameStringSet(a, b) {
      forall x | x in a.xs
        ensures x.Str? && x in b.xs
      {
        assert x.s in StringsOf(a);
      }
      forall x | x in b.xs
        ensures x.Str? && x in a.xs
      {
        assert x.s in StringsOf(b);
      }
    }
    if SameNames(a, b) {
      assert forall i | 0 <= i < |a.xs| :: a.xs[i] in a.xs;
      assert forall i | 0 <= i < |b.xs| :: b.xs[i] in b.xs;
    }
  }

  /** The value there is not the one wanted: masked values never differ, grant lists differ as sets. */
  predicate LooksWrong(path: seq<string>, want: Value, there: Value) {
    && there != Str("***") && !(want.Map? && there.Map?)
    && if Text.Join(Stripped(path), '.') in ["grants.agents", "grants.users"] then !SameNames(want, there)
       else Canon(want) != Canon(there)
  }

  lemma LooksWrongIff(path: seq<string>, want: Value, there: Value)
    ensures LooksWrong(path, want, there) <==>
            !(want.Map? && there.Map?) && LeafDiffers(Dotted(path), want, there)
  {
    DottedIsJoin(path);
    SameNamesIff(want, there);
    EqualIffSameCanon(want, there);
  }

  /** The path is there to be compared. */
  ghost predicate Reached(d: Value, a: Value, exclude: set<string>, path: seq<string>) {
    && path != [] && Open(path, exclude) && Get(d, path).Some?
    && forall n | 0 <= n < |path| :: MapAt(a, path[..n])
  }

  lemma ReachedIff(d: Value, a: Value, exclude: set<string>, path: seq<string>)
    ensures Reached(d, a, exclude, path) <==> Compared([], d, a, exclude, path)
  {
    OpenIff(path, exclude);
  }

  lemma DiffersIff(d: Value, a: Value, path: seq<string>)
    requires Get(d, path).Some?
    ensures Differs([], d, a, path) <==>
            Get(a, path).None? || LooksWrong(path, Get(d, path).value, Get(a, path).value)
  {
    assert [] + path == path;
    if Get(a, path).Some? {
      LooksWrongIff(path, Get(d, path).value, Get(a, path).value);
    }
  }

  lemma ReportsIff(d: Value, a: Value, f: Finding)
    ensures Reports([], d, a, f.path, f) <==> Get(d, f.path) == Some(f.want) && f.was == Get(a, f.path).GetOr(Null)
  {
    assert [] + f.path == f.path;
  }

  /** Main result on diffs: the diff lists a path with two values exactly if the path is compared, the first value is
      what is there, if anything, the second is what is wanted, and the two look wrong. */
  lemma FindingIff(d: Value, a: Value, exclude: set<string>, f: Finding)
    requires d.Map? && a.Map?
    ensures f in Findings([], d, a, exclude) <==>
            && Reached(d, a, exclude, f.path) && Get(d, f.path) == Some(f.want)
            && f.was == Get(a, f.path).GetOr(Null)
            && (Get(a, f.path).None? || LooksWrong(f.path, f.want, f.was))
  {
    assert f.path == [] + f.path;
    FindingsExactly([], d, a, exclude, f.path, f);
    ReachedIff(d, a, exclude, f.path);
    ReportsIff(d, a, f);
    if Get(d, f.path).Some? {
      DiffersIff(d, a, f.path);
    }
  }

  // Numbers.

  function Pow2(e: nat): (n: nat)
    ensures n >= 1
  {
    if e == 0 then 1 else 2 * Pow2(e - 1)
  }

  lemma {:induction false} UlpIsPower(n: nat) returns (e: nat)
    ensures Ulp(n) == Pow2(e)
    ensures if e == 0 then n < 0x20_0000_0000_0000
            else 0x10_0000_0000_0000 * Pow2(e) <= n < 0x20_0000_0000_0000 * Pow2(e)
    decreases n
  {
    if n < TWO_53 {
      e := 0;
    } else {
      var k := UlpIsPower(n / 2);
      e := k + 1;
    }
  }

  function Abs(i: int): nat {
    if i < 0 then -i else i
  }

  /** The integer m times 2^e is the float64 nearest to i: m has at most 53 bits, and all of them if e is not zero, and
      it is even where i lies halfway between two. */
  predicate Nearest(i: int, m: int, e: nat) {
    var off := 2 * Abs(m * Pow2(e) - i);
    && off <= Pow2(e) && (off == Pow2(e) ==> m % 2 == 0)
    && if e == 0 then Abs(i) < 0x20_0000_0000_0000
       else 0x10_0000_0000_0000 * Pow2(e) <= Abs(i) < 0x20_0000_0000_0000 * Pow2(e)
  }

  /** The rounding of a number of units. */
  function Rounded(n: nat, u: nat): nat
    requires u >= 1
  {
    var q, r := n / u, n % u;
    if 2 * r > u || (2 * r == u && q % 2 == 1) then q + 1 else q
  }

  lemma RoundedIsNearest(n: nat, u: nat)
    requires u >= 1 && (u == 1 || u % 2 == 0)
    ensures var m := Rounded(n, u);
            2 * Abs(m * u - n) <= u && (2 * Abs(m * u - n) == u ==> m % 2 == 0)
  {
    var q, r := n / u, n % u;
    assert n == q * u + r;
    assert (q + 1) * u == q * u + u;
  }

  lemma ToFloat64Rounds(i: int)
    ensures var x := Rounded(Abs(i), Ulp(Abs(i))) * Ulp(Abs(i));
            ToFloat64(i) == (if i < 0 then -x else x) as real
  {
  }

  lemma OtherSign(i: int, m: int, e: nat)
    requires Nearest(i, m, e)
    ensures Nearest(-i, -m, e) && -(m * Pow2(e)) == (-m) * Pow2(e)
  {
    var u := Pow2(e);
    assert (-m) * u == -(m * u);
    assert Abs((-m) * u - (-i)) == Abs(m * u - i);
  }

  lemma RoundedUnits(n: nat) returns (e: nat)
    ensures Ulp(n) == Pow2(e) && Nearest(n, Rounded(n, Ulp(n)), e)
  {
    e := UlpIsPower(n);
    RoundedIsNearest(n, Pow2(e));
  }

  /** Main result on numbers: an integer is compared as the nearest float64. */
  lemma ToFloat64IsNearest(i: int) returns (m: int, e: nat)
    ensures ToFloat64(i) == (m * Pow2(e)) as real && Nearest(i, m, e)
  {
    e := RoundedUnits(Abs(i));
    m := Rounded(Abs(i), Ulp(Abs(i)));
    ToFloat64Rounds(i);
    if i < 0 {
      OtherSign(Abs(i), m, e);
      m := -m;
    }
  }
}
