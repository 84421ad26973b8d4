/** Translation of map keys between camelCase and snake_case, over nested specs. */
module KeyConv {
  import opened Text
  import opened Values

  /** The case of letters, as a library has it. */
  datatype Letters = Letters(isUpper: char -> bool, isLower: char -> bool, isDigit: char -> bool,
                             lower: char -> char, upper: char -> char)

  predicate IsAsciiUpper(c: char) {
    'A' <= c <= 'Z'
  }

  predicate IsAsciiLower(c: char) {
    'a' <= c <= 'z'
  }

  const ASCII: Letters := Letters(
    c => IsAsciiUpper(c), c => IsAsciiLower(c), c => '0' <= c <= '9',
    c => if IsAsciiUpper(c) then c + 'a' - 'A' else c,
    c => if IsAsciiLower(c) then c - 'a' + 'A' else c)

  /** What Unicode promises: ASCII characters behave as such, and only the underscore is mapped to it; lowering twice is
      lowering once; a capital that is lowered and raised lowers as before; and a capital without a lower form has no
      other upper form.  It does not promise that lowering and raising a capital gives it back. */
  ghost predicate Lawful(ls: Letters) {
    && (forall c: char | c <= '~' ::
          && ls.isUpper(c) == ASCII.isUpper(c) && ls.isLower(c) == ASCII.isLower(c) && ls.isDigit(c) == ASCII.isDigit(c)
          && ls.lower(c) == ASCII.lower(c) && ls.upper(c) == ASCII.upper(c))
    && (forall c: char :: (ls.lower(c) == '_' <==> c == '_') && (ls.upper(c) == '_' <==> c == '_'))
    && (forall c: char :: ls.lower(ls.lower(c)) == ls.lower(c))
    && (forall c: char | ls.isUpper(c) :: ls.lower(ls.upper(ls.lower(c))) == ls.lower(c))
    && (forall c: char | ls.isUpper(c) && ls.lower(c) == c :: ls.upper(c) == c)
  }

  /** ASCII on its own is an example. */
  lemma AsciiIsLawful()
    ensures Lawful(ASCII)
  {
  }

  /** An underscore goes in front of the capital at i. */
  predicate Break(ls: Letters, s: string, i: nat)
    requires i < |s|
  {
    ls.isUpper(s[i]) && i > 0
    && (ls.isLower(s[i - 1]) || ls.isDigit(s[i - 1]) || (ls.isUpper(s[i - 1]) && i + 1 < |s| && ls.isLower(s[i + 1])))
  }

  function Piece(ls: Letters, s: string, i: nat): string
    requires i < |s|
  {
    (if Break(ls, s, i) then "_" else "") + [ls.lower(s[i])]
  }

  /** The snake_case of s from position i on. */
  function SnakeFrom(ls: Letters, s: string, i: nat): string
    requires i <= |s|
    decreases |s| - i
  {
    if i == |s| then ""
    else Piece(ls, s, i) + SnakeFrom(ls, s, i + 1)
  }

  function Snake(ls: Letters, s: string): string {
    SnakeFrom(ls, s, 0)
  }

  /** The camelCase of s, its first letter raised if `up`: underscores go and raise what follows. */
  function CamelFrom(ls: Letters, s: string, up: bool): string {
    if s == "" then ""
    else if s[0] == '_' then CamelFrom(ls, s[1..], true)
    else [if up then ls.upper(s[0]) else s[0]] + CamelFrom(ls, s[1..], false)
  }

  function Camel(ls: Letters, s: string): string {
    CamelFrom(ls, s, false)
  }

  function Capitalized(ls: Letters, part: string): string {
    if part == "" then "" else [ls.upper(part[0])] + part[1..]
  }

  function JoinCapitalized(ls: Letters, parts: seq<string>): string {
    if parts == [] then "" else Capitalized(ls, parts[0]) + JoinCapitalized(ls, parts[1..])
  }

  /** Splitting and raising whole parts is the same as going letter by letter. */
  lemma {:induction false} CamelByParts(ls: Letters, s: string, up: bool)
    ensures CamelFrom(ls, s, up) ==
            (if up then Capitalized(ls, Split(s, '_')[0]) else Split(s, '_')[0])
            + JoinCapitalized(ls, Split(s, '_')[1..])
  {
    if s != "" {
      CamelByParts(ls, s[1..], s[0] == '_');
    }
  }

  method CamelToSnake(ls: Letters, s: string) returns (r: string)
    ensures r == Snake(ls, s)
  {
    if s == "" {
      return s;
    }
    r := "";
    for i := 0 to |s|
      invariant r + SnakeFrom(ls, s, i) == Snake(ls, s)
    {
      ghost var before := r;
      if ls.isUpper(s[i]) && i > 0 {
        var prev := s[i - 1];
        if ls.isLower(prev) || ls.isDigit(prev) {
          r := r + "_";
        } else if ls.isUpper(prev) && i + 1 < |s| && ls.isLower(s[i + 1]) {
          r := r + "_";
        }
      }
      r := r + [ls.lower(s[i])];
      assert r == before + Piece(ls, s, i);
      Regroup(before, Piece(ls, s, i), SnakeFrom(ls, s, i + 1));
    }
  }

  lemma {:induction false} NoUnderscores(ls: Letters, s: string)
    requires '_' !in s
    ensures CamelFrom(ls, s, false) == s
  {
    if s != "" {
      NoUnderscores(ls, s[1..]);
    }
  }

  /** The first n parts joined, all but the very first raised. */
  function Joined(ls: Letters, parts: seq<string>, n: nat): string
    requires n <= |parts|
  {
    if n == 0 then "" else Joined(ls, parts, n - 1) + if n == 1 then parts[0] else Capitalized(ls, parts[n - 1])
  }

  lemma JoinFrom(ls: Letters, parts: seq<string>, n: nat)
    requires n < |parts|
    ensures JoinCapitalized(ls, parts[n..]) == Capitalized(ls, parts[n]) + JoinCapitalized(ls, parts[n + 1..])
  {
  }

  lemma {:induction false} JoinedSoFar(ls: Letters, parts: seq<string>, n: nat)
    requires 1 <= n <= |parts|
    ensures Joined(ls, parts, n) + JoinCapitalized(ls, parts[n..]) == parts[0] + JoinCapitalized(ls, parts[1..])
  {
    var before, rest := Joined(ls, parts, n - 1), JoinCapitalized(ls, parts[n..]);
    if n == 1 {
      assert before == "";
    } else {
      JoinedSoFar(ls, parts, n - 1);
      JoinFrom(ls, parts, n - 1);
      Regroup(before, Capitalized(ls, parts[n - 1]), rest);
    }
  }

  method SnakeToCamel(ls: Letters, s: string) returns (r: string)
    ensures r == Camel(ls, s)
  {
    if s == "" || '_' !in s {
      NoUnderscores(ls, s);
      return s;
    }
    var parts := Split(s, '_');
    r := "";
    for i := 0 to |parts|
      invariant r == Joined(ls, parts, i)
    {
      var part := parts[i];
      if part == "" {
        continue;
      }
      if i == 0 {
        r := r + part;
      } else {
        r := r + Capitalized(ls, part);
      }
    }
    CamelByParts(ls, s, false);
    JoinedSoFar(ls, parts, |parts|);
  }

  /** The keys the two translations take back to themselves: no underscore, an underscore put in front of every letter
      that has a lower form, and letters so marked given back by lowering and raising. */
  predicate Reversible(ls: Letters, s: string) {
    && '_' !in s
    && forall i | 0 <= i < |s| ::
         if Break(ls, s, i) then ls.upper(ls.lower(s[i])) == s[i] else ls.lower(s[i]) == s[i]
  }

  /** In ASCII: no underscore, and every capital marked. */
  lemma AsciiReversibleIff(ls: Letters, s: string)
    requires Lawful(ls) && forall c | c in s :: c <= '~'
    ensures Reversible(ls, s) <==> '_' !in s && forall i | 0 <= i < |s| && IsAsciiUpper(s[i]) :: Break(ls, s, i)
  {
    forall i | 0 <= i < |s|
      ensures ls.isUpper(s[i]) == IsAsciiUpper(s[i]) && ls.lower(s[i]) == ASCII.lower(s[i])
      ensures IsAsciiUpper(s[i]) ==> ls.upper(ls.lower(s[i])) == s[i]
    {
      assert s[i] in s;
    }
  }

  /** Camel case as it is commonly written, in letters whose case can be changed there and back. */
  predicate CanonicalCamel(ls: Letters, s: string) {
    && (forall i | 0 <= i < |s| ::
          if ls.isUpper(s[i]) then ls.upper(ls.lower(s[i])) == s[i]
          else (ls.isLower(s[i]) || ls.isDigit(s[i])) && ls.lower(s[i]) == s[i])
    && (s != "" ==> !ls.isUpper(s[0]))
    && (forall i | 0 < i < |s| :: !(ls.isUpper(s[i - 1]) && ls.isUpper(s[i])))
  }

  lemma CanonicalIsReversible(ls: Letters, s: string)
    requires Lawful(ls) && CanonicalCamel(ls, s)
    ensures Reversible(ls, s)
  {
    assert !ls.isUpper('_') && !ls.isLower('_') && !ls.isDigit('_');
    assert forall i | 0 < i < |s| && ls.isUpper(s[i]) :: ls.isLower(s[i - 1]) || ls.isDigit(s[i - 1]);
  }

  /** What there and back makes of one character: lowered, and raised again if an underscore marked it. */
  function Back(ls: Letters, s: string, i: nat): char
    requires i < |s|
  {
    if Break(ls, s, i) then ls.upper(ls.lower(s[i])) else ls.lower(s[i])
  }

  /** What there and back makes of a key without underscores. */
  function Kept(ls: Letters, s: string, i: nat): string
    requires i <= |s|
    decreases |s| - i
  {
    if i == |s| then "" else [Back(ls, s, i)] + Kept(ls, s, i + 1)
  }

  lemma CamelOfPiece(ls: Letters, c: char, rest: string)
    requires c != '_'
    ensures CamelFrom(ls, [c] + rest, false) == [c] + CamelFrom(ls, rest, false)
    ensures CamelFrom(ls, ['_', c] + rest, false) == [ls.upper(c)] + CamelFrom(ls, rest, false)
  {
  }

  lemma {:induction false} ThereAndBack(ls: Letters, s: string, i: nat)
    requires Lawful(ls)
    requires '_' !in s && i <= |s|
    ensures CamelFrom(ls, SnakeFrom(ls, s, i), false) == Kept(ls, s, i)
    decreases |s| - i
  {
    if i < |s| {
      ThereAndBack(ls, s, i + 1);
      assert s[i] in s;
      CamelOfPiece(ls, ls.lower(s[i]), SnakeFrom(ls, s, i + 1));
      assert Piece(ls, s, i) == if Break(ls, s, i) then ['_', ls.lower(s[i])] else [ls.lower(s[i])];
    }
  }

  lemma {:induction false} KeptIffMarked(ls: Letters, s: string, i: nat)
    requires i <= |s|
    ensures Kept(ls, s, i) == s[i..] <==> forall j | i <= j < |s| :: Back(ls, s, j) == s[j]
    decreases |s| - i
  {
    if i < |s| {
      KeptIffMarked(ls, s, i + 1);
      assert s[i..] == [s[i]] + s[i + 1..];
      assert Kept(ls, s, i)[1..] == Kept(ls, s, i + 1) && s[i..][1..] == s[i + 1..];
    }
  }

  lemma {:induction false} CamelHasNoUnderscore(ls: Letters, s: string, up: bool)
    requires Lawful(ls)
    ensures '_' !in CamelFrom(ls, s, up)
  {
    if s != "" {
      CamelHasNoUnderscore(ls, s[1..], s[0] == '_');
    }
  }

  /** Main result for keys: the round trip is exact on the reversible keys and on no others. */
  lemma KeyRoundTripIff(ls: Letters, s: string)
    requires Lawful(ls)
    ensures Camel(ls, Snake(ls, s)) == s <==> Reversible(ls, s)
  {
    CamelHasNoUnderscore(ls, Snake(ls, s), false);
    if '_' !in s {
      ThereAndBack(ls, s, 0);
      KeptIffMarked(ls, s, 0);
      assert s[0..] == s;
    }
  }

  function Underscores(s: string, i: nat): (n: nat)
    requires i <= |s|
    ensures n <= |s| - i
    ensures n > 0 <==> '_' in s[i..]
    decreases |s| - i
  {
    if i == |s| then 0
    else
      assert s[i..] == [s[i]] + s[i + 1..];
      Underscores(s, i + 1) + if s[i] == '_' then 1 else 0
  }

  lemma {:induction false} ThereAndBackLength(ls: Letters, s: string, i: nat, up: bool)
    requires Lawful(ls)
    requires i <= |s|
    ensures |CamelFrom(ls, SnakeFrom(ls, s, i), up)| == |s| - i - Underscores(s, i)
    decreases |s| - i
  {
    if i < |s| {
      var rest := SnakeFrom(ls, s, i + 1);
      var low := [ls.lower(s[i])] + rest;
      ThereAndBackLength(ls, s, i + 1, false);
      ThereAndBackLength(ls, s, i + 1, true);
      assert low[1..] == rest;
      assert SnakeFrom(ls, s, i) == (if Break(ls, s, i) then ['_'] + low else low);
      assert (['_'] + low)[1..] == low;
    }
  }

  /** How far a character is from one that there and back leaves alone. */
  function Slack(ls: Letters, c: char): nat {
    (if ls.lower(c) != c then 1 else 0) + if ls.isUpper(c) && ls.upper(ls.lower(c)) != c then 1 else 0
  }

  function Slacks(ls: Letters, s: string): nat {
    if s == "" then 0 else Slacks(ls, s[1..]) + Slack(ls, s[0])
  }

  lemma BackTightens(ls: Letters, s: string, i: nat)
    requires Lawful(ls) && i < |s|
    ensures Back(ls, s, i) == s[i] || Slack(ls, Back(ls, s, i)) < Slack(ls, s[i])
  {
    var c := s[i];
    if Break(ls, s, i) {
      assert ls.lower(ls.upper(ls.lower(c))) == ls.lower(c);
    } else {
      assert ls.lower(ls.lower(c)) == ls.lower(c);
    }
  }

  lemma {:induction false} KeptTightens(ls: Letters, s: string, i: nat)
    requires Lawful(ls) && i <= |s|
    ensures |Kept(ls, s, i)| == |s| - i
    ensures Slacks(ls, Kept(ls, s, i)) <= Slacks(ls, s[i..])
    ensures Kept(ls, s, i) != s[i..] ==> Slacks(ls, Kept(ls, s, i)) < Slacks(ls, s[i..])
    decreases |s| - i
  {
    if i < |s| {
      KeptTightens(ls, s, i + 1);
      BackTightens(ls, s, i);
      assert s[i..][1..] == s[i + 1..];
      assert s[i..] == [s[i]] + s[i + 1..];
      assert Kept(ls, s, i)[1..] == Kept(ls, s, i + 1);
    }
  }

  predicate Heavier(ls: Letters, a: string, b: string) {
    |a| > |b| || (|a| == |b| && Slacks(ls, a) > Slacks(ls, b))
  }

  /** There and back makes a key lighter unless it gives the key back. */
  lemma RoundTripLightens(ls: Letters, s: string)
    requires Lawful(ls)
    ensures Camel(ls, Snake(ls, s)) == s || Heavier(ls, s, Camel(ls, Snake(ls, s)))
  {
    ThereAndBackLength(ls, s, 0, false);
    assert s[0..] == s;
    if '_' !in s {
      ThereAndBack(ls, s, 0);
      KeptTightens(ls, s, 0);
    }
  }

  // Nested specs.

  datatype Direction = ToSnake | ToCamel

  function Key(ls: Letters, d: Direction, k: string): string {
    if d.ToSnake? then Snake(ls, k) else Camel(ls, k)
  }

  /** Fields whose value maps names that are the user's own. */
  predicate PassThrough(k: string) {
    k in {"env", "encrypted_env", "encryptedEnv", "headers", "defaultEnv", "default_env"}
  }

  predicate Verbatim(ls: Letters, d: Direction, k: string) {
    PassThrough(k) || PassThrough(Key(ls, d, k))
  }

  /** w is a translation of v.  When two keys translate alike, either of their values may be the one kept. */
  ghost predicate Translated(ls: Letters, d: Direction, v: Value, w: Value)
    decreases v, 1
  {
    match v
    case Map(false, m) =>
      && w.Map? && !w.anyKeys
      && (forall k {:trigger Key(ls, d, k)} | k in m :: Key(ls, d, k) in w.m)
      && (forall n {:trigger w.m[n]} | n in w.m ::
            exists k :: k in m && Key(ls, d, k) == n && TranslatedField(ls, d, v, k, w.m[n]))
    case List(false, xs) =>
      w.List? && !w.typed && |w.xs| == |xs| && forall i | 0 <= i < |xs| :: Translated(ls, d, xs[i], w.xs[i])
    case _ => w == v
  }

  ghost predicate TranslatedField(ls: Letters, d: Direction, v: Value, k: string, w: Value)
    requires v.Map? && k in v.m
    decreases v, 0
  {
    if Verbatim(ls, d, k) then w == v.m[k] else Translated(ls, d, v.m[k], w)
  }

  method TransformKeys(ls: Letters, m: Spec, d: Direction) returns (out: Spec)
    ensures Translated(ls, d, Map(false, m), Map(false, out))
    decreases Map(false, m), 0
  {
    out := map[];
    var todo := m.Keys;
    while todo != {}
      invariant todo <= m.Keys
      invariant forall k | k in m && k !in todo :: Key(ls, d, k) in out
      invariant forall n | n in out ::
                  exists k :: k in m && Key(ls, d, k) == n && TranslatedField(ls, d, Map(false, m), k, out[n])
      decreases |todo|
    {
      var k :| k in todo;
      todo := todo - {k};
      var nk;
      if d.ToSnake? {
        nk := CamelToSnake(ls, k);
      } else {
        nk := SnakeToCamel(ls, k);
      }
      var v := m[k];
      if !PassThrough(k) && !PassThrough(nk) {
        v := TransformValue(ls, m[k], d);
      }
      assert TranslatedField(ls, d, Map(false, m), k, v);
      out := out[nk := v];
    }
  }

  method TransformValue(ls: Letters, v: Value, d: Direction) returns (w: Value)
    ensures Translated(ls, d, v, w)
    decreases v, 1
  {
    match v
    case Map(false, m) =>
      var out := TransformKeys(ls, m, d);
      w := Map(false, out);
    case List(false, xs) =>
      var ys := [];
      for i := 0 to |xs|
        invariant |ys| == i && forall j | 0 <= j < i :: Translated(ls, d, xs[j], ys[j])
      {
        var y := TransformValue(ls, xs[i], d);
        ys := ys + [y];
      }
      w := List(false, ys);
    case _ => w := v;
  }

  /** Every translated key, at every depth, is reversible. */
  ghost predicate KeysReversible(ls: Letters, v: Value) {
    match v
    case Map(false, m) =>
      forall k | k in m :: Reversible(ls, k) && (Verbatim(ls, ToSnake, k) || KeysReversible(ls, m[k]))
    case List(false, xs) => forall i | 0 <= i < |xs| :: KeysReversible(ls, xs[i])
    case _ => true
  }

  /** Distinct reversible keys stay distinct. */
  lemma ReversibleKeysDoNotCollide(ls: Letters, a: string, b: string)
    requires Lawful(ls)
    requires Reversible(ls, a) && Reversible(ls, b) && Snake(ls, a) == Snake(ls, b)
    ensures a == b
  {
    KeyRoundTripIff(ls, a);
    KeyRoundTripIff(ls, b);
  }

  ghost predicate HasSource(ls: Letters, keys: set<string>, n: string) {
    exists o :: o in keys && Camel(ls, Snake(ls, o)) == n
  }

  lemma LighterSet(ls: Letters, keys: set<string>, o: string, k: string)
    requires o in keys && Heavier(ls, o, k)
    ensures (set x | x in keys && Heavier(ls, x, o)) < (set x | x in keys && Heavier(ls, x, k))
  {
    var a, b := set x | x in keys && Heavier(ls, x, o), set x | x in keys && Heavier(ls, x, k);
    assert a <= b;
    assert o in b && o !in a;
  }

  /** A finite key set whose every key is the round trip of one of its keys consists of reversible keys. */
  lemma {:induction false} ClosedUnderRoundTrip(ls: Letters, keys: set<string>, k: string)
    requires Lawful(ls)
    requires forall n {:trigger HasSource(ls, keys, n)} | n in keys :: HasSource(ls, keys, n)
    requires k in keys
    ensures Reversible(ls, k)
    decreases set x | x in keys && Heavier(ls, x, k)
  {
    KeyRoundTripIff(ls, k);
    if !Reversible(ls, k) {
      assert HasSource(ls, keys, k);
      var o :| o in keys && Camel(ls, Snake(ls, o)) == k;
      RoundTripLightens(ls, o);
      LighterSet(ls, keys, o, k);
      ClosedUnderRoundTrip(ls, keys, o);
      KeyRoundTripIff(ls, o);
    }
  }

  /** Some key translates to n. */
  ghost predicate Image(ls: Letters, d: Direction, keys: set<string>, n: string) {
    exists k :: k in keys && Key(ls, d, k) == n
  }

  lemma TranslatedKeys(ls: Letters, d: Direction, v: Value, w: Value, n: string)
    requires v.Map? && !v.anyKeys && Translated(ls, d, v, w)
    ensures w.Map? && !w.anyKeys && (n in w.m <==> Image(ls, d, v.m.Keys, n))
  {
    if Image(ls, d, v.m.Keys, n) {
      var k :| k in v.m.Keys && Key(ls, d, k) == n;
      assert Key(ls, d, k) in w.m;
    }
  }

  /** The keys after the round trip are the round trips of the keys. */
  lemma RoundTripKeys(ls: Letters, v: Value, w: Value, u: Value, n: string)
    requires v.Map? && !v.anyKeys && Translated(ls, ToSnake, v, w) && Translated(ls, ToCamel, w, u)
    ensures w.Map? && !w.anyKeys && u.Map? && (n in u.m <==> HasSource(ls, v.m.Keys, n))
  {
    TranslatedKeys(ls, ToSnake, v, w, "");
    TranslatedKeys(ls, ToCamel, w, u, n);
    if n in u.m {
      var p :| p in w.m.Keys && Key(ls, ToCamel, p) == n;
      TranslatedKeys(ls, ToSnake, v, w, p);
      var o :| o in v.m.Keys && Key(ls, ToSnake, o) == p;
      assert Camel(ls, Snake(ls, o)) == n;
    }
    if HasSource(ls, v.m.Keys, n) {
      var o :| o in v.m.Keys && Camel(ls, Snake(ls, o)) == n;
      TranslatedKeys(ls, ToSnake, v, w, Snake(ls, o));
      assert Key(ls, ToSnake, o) == Snake(ls, o) && Key(ls, ToCamel, Snake(ls, o)) == n;
    }
  }

  /** With reversible keys, a field's value went through exactly its own translations. */
  lemma FieldOrigin(ls: Letters, d: Direction, v: Value, w: Value, k: string)
    requires v.Map? && !v.anyKeys && Translated(ls, d, v, w) && k in v.m
    requires forall o | o in v.m && Key(ls, d, o) == Key(ls, d, k) :: o == k
    ensures w.Map? && Key(ls, d, k) in w.m && TranslatedField(ls, d, v, k, w.m[Key(ls, d, k)])
  {
    var n := Key(ls, d, k);
    assert n in w.m;
    var o :| o in v.m && Key(ls, d, o) == n && TranslatedField(ls, d, v, o, w.m[n]);
    assert o == k;
  }

  /** The field comes back if and only if it is passed through or its own keys are reversible. */
  ghost predicate FieldReturns(ls: Letters, v: Value, u: Value, k: string)
    requires v.Map? && u.Map? && k in v.m
  {
    k in u.m && (u.m[k] == v.m[k] <==> Verbatim(ls, ToSnake, k) || KeysReversible(ls, v.m[k]))
  }

  lemma {:induction false} FieldRoundTripIff(ls: Letters, v: Value, w: Value, u: Value, k: string)
    requires Lawful(ls)
    requires v.Map? && !v.anyKeys && Translated(ls, ToSnake, v, w) && Translated(ls, ToCamel, w, u)
    requires (forall o | o in v.m :: Reversible(ls, o)) && k in v.m
    ensures u.Map? && FieldReturns(ls, v, u, k)
    decreases v, 0
  {
    var n := Snake(ls, k);
    KeyRoundTripIff(ls, k);
    forall o | o in v.m && Snake(ls, o) == n
      ensures o == k
    {
      ReversibleKeysDoNotCollide(ls, o, k);
    }
    FieldOrigin(ls, ToSnake, v, w, k);
    forall p | p in w.m && Camel(ls, p) == k
      ensures p == n
    {
      var o :| o in v.m && Key(ls, ToSnake, o) == p;
      KeyRoundTripIff(ls, o);
    }
    FieldOrigin(ls, ToCamel, w, u, n);
    if !Verbatim(ls, ToSnake, k) {
      RoundTripIff(ls, v.m[k], w.m[n], u.m[k]);
    }
  }

  lemma ReversibleSource(ls: Letters, keys: set<string>, n: string)
    requires Lawful(ls)
    requires forall k | k in keys :: Reversible(ls, k)
    ensures HasSource(ls, keys, n) <==> n in keys
  {
    KeyRoundTripIff(ls, n);
    if HasSource(ls, keys, n) {
      var o :| o in keys && Camel(ls, Snake(ls, o)) == n;
      KeyRoundTripIff(ls, o);
    }
  }

  /** If the round trip keeps the key set, its keys are reversible; and the other way round. */
  lemma KeysKeptIffReversible(ls: Letters, before: set<string>, after: set<string>)
    requires Lawful(ls)
    requires forall n {:trigger HasSource(ls, before, n)} :: n in after <==> HasSource(ls, before, n)
    ensures after == before <==> forall k | k in before :: Reversible(ls, k)
  {
    if after == before {
      forall k | k in before
        ensures Reversible(ls, k)
      {
        ClosedUnderRoundTrip(ls, before, k);
      }
    }
    if forall k | k in before :: Reversible(ls, k) {
      forall n
        ensures n in after <==> n in before
      {
        ReversibleSource(ls, before, n);
      }
    }
  }

  lemma {:induction false} MapRoundTripIff(ls: Letters, v: Value, w: Value, u: Value)
    requires Lawful(ls)
    requires v.Map? && !v.anyKeys && Translated(ls, ToSnake, v, w) && Translated(ls, ToCamel, w, u)
    ensures u == v <==> KeysReversible(ls, v)
    decreases v, 2
  {
    MapKeysKeptIff(ls, v, w, u);
    if u.m.Keys == v.m.Keys {
      FieldsRoundTripIff(ls, v, w, u);
    }
    SameMapIff(ls, v, u);
  }

  lemma {:induction false} FieldsRoundTripIff(ls: Letters, v: Value, w: Value, u: Value)
    requires Lawful(ls)
    requires v.Map? && !v.anyKeys && Translated(ls, ToSnake, v, w) && Translated(ls, ToCamel, w, u)
    requires forall o | o in v.m :: Reversible(ls, o)
    ensures u.Map? && forall k | k in v.m :: FieldReturns(ls, v, u, k)
    decreases v, 1
  {
    forall k | k in v.m
      ensures FieldReturns(ls, v, u, k)
    {
      FieldRoundTripIff(ls, v, w, u, k);
    }
  }

  lemma MapKeysKeptIff(ls: Letters, v: Value, w: Value, u: Value)
    requires Lawful(ls)
    requires v.Map? && !v.anyKeys && Translated(ls, ToSnake, v, w) && Translated(ls, ToCamel, w, u)
    ensures u.Map? && !u.anyKeys
    ensures u.m.Keys == v.m.Keys <==> forall k | k in v.m :: Reversible(ls, k)
  {
    forall n {:trigger HasSource(ls, v.m.Keys, n)}
      ensures n in u.m.Keys <==> HasSource(ls, v.m.Keys, n)
    {
      RoundTripKeys(ls, v, w, u, n);
    }
    KeysKeptIffReversible(ls, v.m.Keys, u.m.Keys);
  }

  lemma SameMapIff(ls: Letters, v: Value, u: Value)
    requires v.Map? && u.Map? && !v.anyKeys && !u.anyKeys
    requires u.m.Keys == v.m.Keys <==> forall k | k in v.m :: Reversible(ls, k)
    requires u.m.Keys == v.m.Keys ==> forall k | k in v.m :: FieldReturns(ls, v, u, k)
    ensures u == v <==> KeysReversible(ls, v)
  {
  }

  lemma {:induction false} ListRoundTripIff(ls: Letters, v: Value, w: Value, u: Value)
    requires Lawful(ls)
    requires v.List? && !v.typed && Translated(ls, ToSnake, v, w) && Translated(ls, ToCamel, w, u)
    ensures u == v <==> KeysReversible(ls, v)
    decreases v, 1
  {
    forall i | 0 <= i < |v.xs|
      ensures u.xs[i] == v.xs[i] <==> KeysReversible(ls, v.xs[i])
    {
      RoundTripIff(ls, v.xs[i], w.xs[i], u.xs[i]);
    }
    if forall i | 0 <= i < |v.xs| :: u.xs[i] == v.xs[i] {
      assert u.xs == v.xs;
    }
  }

  /** Main result: translating a spec to snake_case and back gives the spec back, whatever order the maps are
      walked in, exactly when all its translated keys are reversible. */
  lemma {:induction false} RoundTripIff(ls: Letters, v: Value, w: Value, u: Value)
    requires Lawful(ls)
    requires Translated(ls, ToSnake, v, w) && Translated(ls, ToCamel, w, u)
    ensures u == v <==> KeysReversible(ls, v)
    decreases v, 3
  {
    match v
    case Map(false, _) => MapRoundTripIff(ls, v, w, u);
    case List(false, _) => ListRoundTripIff(ls, v, w, u);
    case _ =>
  }
}
