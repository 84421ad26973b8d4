/** When the translation of a spec's keys depends on the order in which its maps are walked. */
module KeyCollisions {
  import opened KeyConv
  import opened Values

  function Keys(ls: Letters, d: Direction, keys: set<string>): (r: set<string>)
    ensures forall n :: n in r <==> Image(ls, d, keys, n)
  {
    set k | k in keys :: Key(ls, d, k)
  }

  /** Translating either value gives the same: whatever keys of theirs translate alike carry values that do so too. */
  ghost predicate Alike(ls: Letters, d: Direction, a: Value, b: Value)
    decreases a, 1
  {
    match (a, b)
    case (Map(false, m), Map(false, n)) =>
      && Keys(ls, d, m.Keys) == Keys(ls, d, n.Keys)
      && forall j, k {:trigger AlikeFields(ls, d, a, b, j, k)} |
           j in m && k in n && Key(ls, d, j) == Key(ls, d, k) :: AlikeFields(ls, d, a, b, j, k)
    case (List(false, xs), List(false, ys)) =>
      |xs| == |ys| && forall i | 0 <= i < |xs| :: Alike(ls, d, xs[i], ys[i])
    case _ => a == b
  }

  ghost predicate AlikeFields(ls: Letters, d: Direction, a: Value, b: Value, j: string, k: string)
    requires a.Map? && b.Map? && j in a.m && k in b.m
    decreases a, 0
  {
    if Verbatim(ls, d, j) then a.m[j] == b.m[k] else Alike(ls, d, a.m[j], b.m[k])
  }

  /** Keys of one map that translate alike carry values that translate alike, at every depth. */
  ghost predicate Coherent(ls: Letters, d: Direction, v: Value) {
    Alike(ls, d, v, v)
  }

  // A key is passed through whenever its translation is.

  /** Characters that the snake form keeps as they are. */
  ghost predicate Low(ls: Letters, s: string) {
    forall n | 0 <= n < |s| :: ls.lower(s[n]) == s[n] && !ls.isUpper(s[n])
  }

  lemma AsciiLow(ls: Letters, s: string)
    requires Lawful(ls) && forall n | 0 <= n < |s| :: IsAsciiLower(s[n]) || s[n] == '_'
    ensures Low(ls, s)
  {
  }

  lemma {:induction false} LowRun(ls: Letters, s: string, i: nat, j: nat)
    requires i <= j <= |s| && Low(ls, s[i..j])
    ensures SnakeFrom(ls, s, i) == s[i..j] + SnakeFrom(ls, s, j)
    decreases j - i
  {
    if i < j {
      assert s[i..j] == [s[i]] + s[i + 1..j];
      assert s[i..j][0] == s[i] && s[i..j][1..] == s[i + 1..j];
      assert Piece(ls, s, i) == [s[i]];
      LowRun(ls, s, i + 1, j);
    } else {
      assert s[i..j] == "";
    }
  }

  lemma SnakeOfLow(ls: Letters, s: string)
    requires Low(ls, s)
    ensures Snake(ls, s) == s
  {
    assert s[0..|s|] == s;
    LowRun(ls, s, 0, |s|);
  }

  /** A lower-case word, a capital and another lower-case word. */
  lemma SnakeOfTwoWords(ls: Letters, a: string, c: char, b: string)
    requires a != "" && Low(ls, a) && ls.isLower(a[|a| - 1]) && ls.isUpper(c) && Low(ls, b)
    ensures Snake(ls, a + [c] + b) == a + ['_', ls.lower(c)] + b
  {
    var s, i := a + [c] + b, |a|;
    assert s[0..i] == a && s[i + 1..|s|] == b;
    LowRun(ls, s, 0, i);
    LowRun(ls, s, i + 1, |s|);
    assert SnakeFrom(ls, s, |s|) == "";
    assert Piece(ls, s, i) == ['_', ls.lower(c)] by {
      assert s[i - 1] == a[i - 1] && s[i] == c;
    }
    assert SnakeFrom(ls, s, i) == ['_', ls.lower(c)] + b;
  }

  lemma {:induction false} CamelOfTwoWords(ls: Letters, a: string, c: char, b: string)
    requires '_' !in a && c != '_' && '_' !in b
    ensures CamelFrom(ls, a + ['_', c] + b, false) == a + [ls.upper(c)] + b
  {
    var s := a + ['_', c] + b;
    if a == "" {
      assert s == ['_', c] + b;
      CamelOfPiece(ls, c, b);
      NoUnderscores(ls, b);
    } else {
      CamelOfTwoWords(ls, a[1..], c, b);
      assert s[1..] == a[1..] + ['_', c] + b;
      assert a == [a[0]] + a[1..];
    }
  }

  lemma EnvWord(ls: Letters, a: string)
    requires Lawful(ls) && a != "" && forall n | 0 <= n < |a| :: IsAsciiLower(a[n])
    ensures Snake(ls, a + "Env") == a + "_env"
  {
    AsciiLow(ls, a);
    AsciiLow(ls, "nv");
    SnakeOfTwoWords(ls, a, 'E', "nv");
    assert a + ['E'] + "nv" == a + "Env" && a + ['_', 'e'] + "nv" == a + "_env";
  }

  lemma LowWord(ls: Letters, k: string)
    requires Lawful(ls) && k in {"env", "headers", "encrypted_env", "default_env"}
    ensures Snake(ls, k) == k
  {
    AsciiLow(ls, k);
    SnakeOfLow(ls, k);
  }

  lemma Spellings()
    ensures "encrypted" + "Env" == "encryptedEnv" && "encrypted" + "_env" == "encrypted_env"
    ensures "default" + "Env" == "defaultEnv" && "default" + "_env" == "default_env"
  {
  }

  lemma PassThroughSnakes(ls: Letters, k: string)
    requires Lawful(ls) && PassThrough(k)
    ensures PassThrough(Snake(ls, k))
  {
    if k in {"env", "headers", "encrypted_env", "default_env"} {
      LowWord(ls, k);
    } else {
      EnvWord(ls, "encrypted");
      EnvWord(ls, "default");
      Spellings();
    }
  }

  lemma PassThroughCamels(ls: Letters, k: string)
    requires Lawful(ls) && PassThrough(k)
    ensures PassThrough(Camel(ls, k))
  {
    if k == "encrypted_env" {
      CamelOfTwoWords(ls, "encrypted", 'e', "nv");
      assert "encrypted" + ['_', 'e'] + "nv" == k && "encrypted" + ['E'] + "nv" == "encryptedEnv";
    } else if k == "default_env" {
      CamelOfTwoWords(ls, "default", 'e', "nv");
      assert "default" + ['_', 'e'] + "nv" == k && "default" + ['E'] + "nv" == "defaultEnv";
    } else {
      NoUnderscores(ls, k);
    }
  }

  lemma VerbatimByKey(ls: Letters, d: Direction, k: string)
    requires Lawful(ls)
    ensures Verbatim(ls, d, k) <==> PassThrough(Key(ls, d, k))
  {
    if PassThrough(k) {
      PassThroughSnakes(ls, k);
      PassThroughCamels(ls, k);
    }
  }

  // There is always a translation, and any key may be the one that wins.

  ghost function Pick(ls: Letters, d: Direction, v: Value): Value
    decreases v, 1
  {
    match v
    case Map(false, m) =>
      Map(false, map n | n in Keys(ls, d, m.Keys) :: PickField(ls, d, v, Source(ls, d, m.Keys, n)))
    case List(false, xs) => List(false, seq(|xs|, i requires 0 <= i < |xs| => Pick(ls, d, xs[i])))
    case _ => v
  }

  ghost function Source(ls: Letters, d: Direction, keys: set<string>, n: string): (k: string)
    requires Image(ls, d, keys, n)
    ensures k in keys && Key(ls, d, k) == n
  {
    var k :| k in keys && Key(ls, d, k) == n;
    k
  }

  ghost function PickField(ls: Letters, d: Direction, v: Value, k: string): Value
    requires v.Map? && k in v.m
    decreases v, 0
  {
    if Verbatim(ls, d, k) then v.m[k] else Pick(ls, d, v.m[k])
  }

  lemma {:induction false} Picked(ls: Letters, d: Direction, v: Value)
    ensures Translated(ls, d, v, Pick(ls, d, v))
    decreases v, 1
  {
    match v
    case Map(false, m) =>
      var w := Pick(ls, d, v);
      forall n | n in w.m
        ensures exists k :: k in m && Key(ls, d, k) == n && TranslatedField(ls, d, v, k, w.m[n])
      {
        var k := Source(ls, d, m.Keys, n);
        PickedField(ls, d, v, k);
        assert k in m && Key(ls, d, k) == n && TranslatedField(ls, d, v, k, w.m[n]);
      }
      forall k | k in m
        ensures Key(ls, d, k) in w.m
      {
        assert Image(ls, d, m.Keys, Key(ls, d, k));
      }
    case List(false, xs) =>
      forall i | 0 <= i < |xs|
        ensures Translated(ls, d, xs[i], Pick(ls, d, xs[i]))
      {
        Picked(ls, d, xs[i]);
      }
    case _ =>
  }

  lemma {:induction false} PickedField(ls: Letters, d: Direction, v: Value, k: string)
    requires v.Map? && k in v.m
    ensures TranslatedField(ls, d, v, k, PickField(ls, d, v, k))
    decreases v, 0
  {
    if !Verbatim(ls, d, k) {
      Picked(ls, d, v.m[k]);
    }
  }

  /** Any translation of any field can be the one kept. */
  lemma FieldWins(ls: Letters, d: Direction, v: Value, k: string, y: Value) returns (w: Value)
    requires v.Map? && !v.anyKeys && k in v.m && TranslatedField(ls, d, v, k, y)
    ensures Translated(ls, d, v, w) && w.Map? && Key(ls, d, k) in w.m && w.m[Key(ls, d, k)] == y
  {
    Picked(ls, d, v);
    var p, n := Pick(ls, d, v), Key(ls, d, k);
    w := Map(false, p.m[n := y]);
    forall x | x in w.m
      ensures exists j :: j in v.m && Key(ls, d, j) == x && TranslatedField(ls, d, v, j, w.m[x])
    {
      if x == n {
        assert k in v.m && Key(ls, d, k) == x && TranslatedField(ls, d, v, k, w.m[x]);
      } else {
        assert x in p.m;
      }
    }
  }

  // The condition is exact.

  lemma {:induction false} AlikeAgree(ls: Letters, d: Direction, a: Value, b: Value, w: Value, x: Value)
    requires Lawful(ls) && Alike(ls, d, a, b) && Translated(ls, d, a, w) && Translated(ls, d, b, x)
    ensures w == x
    decreases a, 1
  {
    match (a, b)
    case (Map(false, _), Map(false, _)) =>
      AlikeMapsAgree(ls, d, a, b, w, x);
    case (List(false, xs), List(false, ys)) =>
      forall i | 0 <= i < |xs|
        ensures w.xs[i] == x.xs[i]
      {
        AlikeAgree(ls, d, xs[i], ys[i], w.xs[i], x.xs[i]);
      }
      assert w.xs == x.xs;
    case _ =>
  }

  lemma {:induction false} AlikeMapsAgree(ls: Letters, d: Direction, a: Value, b: Value, w: Value, x: Value)
    requires a.Map? && !a.anyKeys && b.Map? && !b.anyKeys
    requires Lawful(ls) && Alike(ls, d, a, b) && Translated(ls, d, a, w) && Translated(ls, d, b, x)
    ensures w == x
    decreases a, 0
  {
    SameKeys(ls, d, a, w);
    SameKeys(ls, d, b, x);
    assert w.m.Keys == x.m.Keys;
    forall y | y in w.m
      ensures w.m[y] == x.m[y]
    {
      var j, k := FieldOf(ls, d, a, w, y), FieldOf(ls, d, b, x, y);
      assert AlikeFields(ls, d, a, b, j, k);
      VerbatimByKey(ls, d, j);
      VerbatimByKey(ls, d, k);
      if !Verbatim(ls, d, j) {
        AlikeAgree(ls, d, a.m[j], b.m[k], w.m[y], x.m[y]);
      }
    }
    assert w.m == x.m;
  }

  lemma SameKeys(ls: Letters, d: Direction, v: Value, w: Value)
    requires v.Map? && !v.anyKeys && Translated(ls, d, v, w)
    ensures w.Map? && !w.anyKeys && w.m.Keys == Keys(ls, d, v.m.Keys)
  {
    forall n
      ensures n in w.m.Keys <==> n in Keys(ls, d, v.m.Keys)
      ensures w.Map? && !w.anyKeys
    {
      TranslatedKeys(ls, d, v, w, n);
    }
  }

  /** The field whose value was kept. */
  ghost function FieldOf(ls: Letters, d: Direction, v: Value, w: Value, n: string): (k: string)
    requires v.Map? && !v.anyKeys && Translated(ls, d, v, w) && n in w.m
    ensures k in v.m && Key(ls, d, k) == n && TranslatedField(ls, d, v, k, w.m[n])
  {
    var k :| k in v.m && Key(ls, d, k) == n && TranslatedField(ls, d, v, k, w.m[n]);
    k
  }

  lemma {:induction false} UnlikeDisagree(ls: Letters, d: Direction, a: Value, b: Value) returns (w: Value, x: Value)
    requires Lawful(ls) && !Alike(ls, d, a, b)
    ensures Translated(ls, d, a, w) && Translated(ls, d, b, x) && w != x
    decreases a, 1
  {
    match (a, b)
    case (Map(false, _), Map(false, _)) =>
      w, x := UnlikeMapsDisagree(ls, d, a, b);
    case (List(false, _), List(false, _)) =>
      w, x := UnlikeListsDisagree(ls, d, a, b);
    case _ =>
      w, x := Pick(ls, d, a), Pick(ls, d, b);
      Picked(ls, d, a);
      Picked(ls, d, b);
  }

  lemma {:induction false} UnlikeMapsDisagree(ls: Letters, d: Direction, a: Value, b: Value)
    returns (w: Value, x: Value)
    requires a.Map? && !a.anyKeys && b.Map? && !b.anyKeys && Lawful(ls) && !Alike(ls, d, a, b)
    ensures Translated(ls, d, a, w) && Translated(ls, d, b, x) && w != x
    decreases a, 0
  {
    if Keys(ls, d, a.m.Keys) != Keys(ls, d, b.m.Keys) {
      w, x := Pick(ls, d, a), Pick(ls, d, b);
      Picked(ls, d, a);
      Picked(ls, d, b);
      SameKeys(ls, d, a, w);
      SameKeys(ls, d, b, x);
    } else {
      var j, k :| j in a.m && k in b.m && Key(ls, d, j) == Key(ls, d, k) && !AlikeFields(ls, d, a, b, j, k);
      VerbatimByKey(ls, d, j);
      VerbatimByKey(ls, d, k);
      var y, z := a.m[j], b.m[k];
      if !Verbatim(ls, d, j) {
        y, z := UnlikeDisagree(ls, d, a.m[j], b.m[k]);
      }
      w := FieldWins(ls, d, a, j, y);
      x := FieldWins(ls, d, b, k, z);
    }
  }

  lemma {:induction false} UnlikeListsDisagree(ls: Letters, d: Direction, a: Value, b: Value)
    returns (w: Value, x: Value)
    requires a.List? && !a.typed && b.List? && !b.typed && Lawful(ls) && !Alike(ls, d, a, b)
    ensures Translated(ls, d, a, w) && Translated(ls, d, b, x) && w != x
    decreases a, 0
  {
    w, x := Pick(ls, d, a), Pick(ls, d, b);
    Picked(ls, d, a);
    Picked(ls, d, b);
    if |a.xs| == |b.xs| {
      var i :| 0 <= i < |a.xs| && !Alike(ls, d, a.xs[i], b.xs[i]);
      var y, z := UnlikeDisagree(ls, d, a.xs[i], b.xs[i]);
      w, x := List(false, w.xs[i := y]), List(false, x.xs[i := z]);
      assert w.xs[i] != x.xs[i];
    }
  }

  /** Walking maps in another order never gives another translation. */
  ghost predicate OrderDoesNotMatter(ls: Letters, d: Direction, v: Value) {
    forall w, x :: Translated(ls, d, v, w) && Translated(ls, d, v, x) ==> w == x
  }

  lemma CoherentIsEnough(ls: Letters, d: Direction, v: Value)
    requires Lawful(ls) && Coherent(ls, d, v)
    ensures OrderDoesNotMatter(ls, d, v)
  {
    forall w, x | Translated(ls, d, v, w) && Translated(ls, d, v, x)
      ensures w == x
    {
      AlikeAgree(ls, d, v, v, w, x);
    }
  }

  /** Main result on collisions: the translation is the same whatever the order in which maps are walked, exactly when
      keys of one map that translate alike carry values that translate alike. */
  lemma OrderDoesNotMatterIff(ls: Letters, d: Direction, v: Value)
    requires Lawful(ls)
    ensures OrderDoesNotMatter(ls, d, v) <==> Coherent(ls, d, v)
  {
    if Coherent(ls, d, v) {
      CoherentIsEnough(ls, d, v);
    } else {
      var w, x := UnlikeDisagree(ls, d, v, v);
    }
  }

  /** Specs with reversible keys are coherent. */
  lemma {:induction false} ReversibleIsCoherent(ls: Letters, v: Value)
    requires Lawful(ls) && KeysReversible(ls, v)
    ensures Coherent(ls, ToSnake, v)
  {
    match v
    case Map(false, m) =>
      forall j, k | j in m && k in m && Key(ls, ToSnake, j) == Key(ls, ToSnake, k)
        ensures AlikeFields(ls, ToSnake, v, v, j, k)
      {
        ReversibleKeysDoNotCollide(ls, j, k);
        if !Verbatim(ls, ToSnake, j) {
          ReversibleIsCoherent(ls, m[j]);
        }
      }
    case List(false, xs) =>
      forall i | 0 <= i < |xs|
        ensures Alike(ls, ToSnake, xs[i], xs[i])
      {
        ReversibleIsCoherent(ls, xs[i]);
      }
    case _ =>
  }

  /** So their translation does not depend on the order in which maps are walked. */
  lemma TranslationIsUnique(ls: Letters, v: Value, w: Value, x: Value)
    requires Lawful(ls) && KeysReversible(ls, v) && Translated(ls, ToSnake, v, w) && Translated(ls, ToSnake, v, x)
    ensures w == x
  {
    ReversibleIsCoherent(ls, v);
    AlikeAgree(ls, ToSnake, v, v, w, x);
  }

  const COLLIDING: Value := Map(false, map["A" := Int(1), "a" := Int(2)])

  /** Two keys that translate alike leave one value, and which one is chance. */
  lemma CollisionsDependOnOrder(ls: Letters)
    requires Lawful(ls)
    ensures !OrderDoesNotMatter(ls, ToSnake, COLLIDING)
  {
    assert SnakeFrom(ls, "A", 1) == SnakeFrom(ls, "a", 1) == "";
    assert Key(ls, ToSnake, "A") == Key(ls, ToSnake, "a") == "a";
    assert "A" in COLLIDING.m && "a" in COLLIDING.m && !Verbatim(ls, ToSnake, "A");
    assert !AlikeFields(ls, ToSnake, COLLIDING, COLLIDING, "A", "a");
    OrderDoesNotMatterIff(ls, ToSnake, COLLIDING);
  }
}
