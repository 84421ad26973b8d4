/** Key translation said by words and letters: where underscores go, what is raised, and what is passed through. */
module KeyWords {
  import opened Text
  import opened Values
  import opened KeyCollisions
  import opened KeyConv
  import opened WriteLaws

  // Positions.

  /** A capital after a small letter or digit, or between a capital and a small letter. */
  predicate Marked(ls: Letters, s: string, i: nat)
    requires i < |s|
  {
    && i > 0 && ls.isUpper(s[i])
    && (|| ls.isLower(s[i - 1]) || ls.isDigit(s[i - 1])
        || (ls.isUpper(s[i - 1]) && i + 1 < |s| && ls.isLower(s[i + 1])))
  }

  /** In t the letter of index i ends at m; it is lowered and, if marked, has an underscore before it. */
  predicate Lands(ls: Letters, s: string, i: nat, t: string, n: nat, m: nat)
    requires i < |s|
  {
    && m == n + (if Marked(ls, s, i) then 2 else 1) && m <= |t|
    && t[m - 1] == ls.lower(s[i]) && (Marked(ls, s, i) ==> t[n] == '_')
  }

  /** t is made of the letters of s in order, each landing where the one before it ends. */
  ghost predicate Spread(ls: Letters, s: string, t: string, at: seq<nat>) {
    && |at| == |s| + 1 && at[0] == 0 && at[|s|] == |t|
    && forall i | 0 <= i < |s| :: Lands(ls, s, i, t, at[i], at[i + 1])
  }

  /** Where the translation of the rest begins. */
  function Place(ls: Letters, s: string, i: nat): (n: nat)
    requires i <= |s|
  {
    if i == 0 then 0 else Place(ls, s, i - 1) + if Marked(ls, s, i - 1) then 2 else 1
  }

  lemma {:induction false} RestBegins(ls: Letters, s: string, i: nat)
    requires i <= |s|
    ensures Place(ls, s, i) <= |Snake(ls, s)| && Snake(ls, s)[Place(ls, s, i)..] == SnakeFrom(ls, s, i)
  {
    if i > 0 {
      RestBegins(ls, s, i - 1);
      var t, n := Snake(ls, s), Place(ls, s, i - 1);
      var piece := Piece(ls, s, i - 1);
      assert t[n..] == piece + SnakeFrom(ls, s, i);
      assert t[n + |piece|..] == t[n..][|piece|..];
    }
  }

  lemma {:induction false} SpreadRest(ls: Letters, s: string, t: string, at: seq<nat>, i: nat)
    requires Spread(ls, s, t, at) && i <= |s|
    ensures at[i] <= |t| && t[at[i]..] == SnakeFrom(ls, s, i)
    decreases |s| - i
  {
    if i < |s| {
      SpreadRest(ls, s, t, at, i + 1);
      assert Lands(ls, s, i, t, at[i], at[i + 1]);
      assert t[at[i]..] == t[at[i]..at[i + 1]] + t[at[i + 1]..];
      assert t[at[i]..at[i + 1]] == Piece(ls, s, i);
    }
  }

  /** Main result on underscores: the translation is the key lowered, with an underscore before each marked letter and
      nowhere else. */
  lemma SnakeIffSpread(ls: Letters, s: string, t: string)
    ensures t == Snake(ls, s) <==> exists at :: Spread(ls, s, t, at)
  {
    if t == Snake(ls, s) {
      SnakeIsSpread(ls, s);
    }
    if at :| Spread(ls, s, t, at) {
      SpreadRest(ls, s, t, at, 0);
    }
  }

  lemma LetterLands(ls: Letters, s: string, i: nat)
    requires i < |s|
    ensures Lands(ls, s, i, Snake(ls, s), Place(ls, s, i), Place(ls, s, i + 1))
  {
    var t, n := Snake(ls, s), Place(ls, s, i);
    RestBegins(ls, s, i);
    RestBegins(ls, s, i + 1);
    var piece := Piece(ls, s, i);
    assert t[n..] == piece + SnakeFrom(ls, s, i + 1);
    assert t[n..][|piece| - 1] == t[n + |piece| - 1] && t[n..][0] == t[n];
  }

  lemma SnakeIsSpread(ls: Letters, s: string)
    ensures Spread(ls, s, Snake(ls, s), seq(|s| + 1, i requires 0 <= i <= |s| => Place(ls, s, i)))
  {
    RestBegins(ls, s, |s|);
    forall i | 0 <= i < |s|
      ensures Lands(ls, s, i, Snake(ls, s), Place(ls, s, i), Place(ls, s, i + 1))
    {
      LetterLands(ls, s, i);
    }
  }

  // Words.

  predicate Upper(c: char) {
    'A' <= c <= 'Z'
  }

  predicate Small(c: char) {
    'a' <= c <= 'z'
  }

  predicate Digit(c: char) {
    '0' <= c <= '9'
  }

  /** Capitals and what follows them: "get", "Response", "HTTP", "HTTP2". */
  datatype Word = Word(caps: string, rest: string) {
    function Text(): string {
      caps + rest
    }

    /** Only a single capital begins small letters. */
    predicate Ok() {
      && (forall c | c in caps :: Upper(c)) && (forall c | c in rest :: Small(c) || Digit(c))
      && Text() != "" && (|caps| > 1 && rest != "" ==> Digit(rest[0]))
    }

    /** What may come after this word: one that begins with a capital, and after capitals alone one that continues with
        a small letter. */
    predicate Before(next: Word) {
      && next.caps != ""
      && (rest == "" ==> |next.caps| == 1 && next.rest != "" && Small(next.rest[0]))
    }
  }

  ghost predicate Words(ws: seq<Word>) {
    && (forall i | 0 <= i < |ws| :: ws[i].Ok())
    && forall i | 0 < i < |ws| :: ws[i - 1].Before(ws[i])
  }

  function Together(ws: seq<Word>): string {
    if ws == [] then "" else ws[0].Text() + Together(ws[1..])
  }

  function Lowered(s: string): string {
    seq(|s|, i requires 0 <= i < |s| => if Upper(s[i]) then s[i] - 'A' + 'a' else s[i])
  }

  function Parts(ws: seq<Word>): seq<string> {
    seq(|ws|, i requires 0 <= i < |ws| => Lowered(ws[i].Text()))
  }

  predicate Plain(c: char) {
    Upper(c) || Small(c) || Digit(c)
  }

  predicate AllPlain(s: string) {
    forall i | 0 <= i < |s| :: Plain(s[i])
  }

  /** The marks among letters and digits. */
  predicate Bounds(s: string, i: nat)
    requires i < |s|
  {
    && i > 0 && Upper(s[i])
    && (Small(s[i - 1]) || Digit(s[i - 1]) || (Upper(s[i - 1]) && i + 1 < |s| && Small(s[i + 1])))
  }

  lemma PlainLetter(ls: Letters, c: char)
    requires Lawful(ls) && Plain(c)
    ensures ls.isUpper(c) == Upper(c) && ls.isLower(c) == Small(c) && ls.isDigit(c) == Digit(c)
    ensures [ls.lower(c)] == Lowered([c])
  {
    assert c <= '~';
  }

  lemma PlainPiece(ls: Letters, s: string, i: nat)
    requires Lawful(ls) && AllPlain(s) && i < |s|
    ensures Piece(ls, s, i) == (if Bounds(s, i) then "_" else "") + Lowered([s[i]])
  {
    PlainLetter(ls, s[i]);
    if i > 0 {
      PlainLetter(ls, s[i - 1]);
    }
    if i + 1 < |s| {
      PlainLetter(ls, s[i + 1]);
    }
  }

  /** A stretch without marks but possibly at its start. */
  lemma {:induction false} Stretch(ls: Letters, s: string, i: nat, j: nat)
    requires Lawful(ls) && AllPlain(s) && i < j <= |s| && forall k | i < k < j :: !Bounds(s, k)
    ensures SnakeFrom(ls, s, i) == (if Bounds(s, i) then "_" else "") + Lowered(s[i..j]) + SnakeFrom(ls, s, j)
    decreases j - i
  {
    PlainPiece(ls, s, i);
    LoweredApart(s[i..j]);
    var mark := if Bounds(s, i) then "_" else "";
    assert s[i..j][0] == s[i] && s[i..j][1..] == s[i + 1..j];
    if i + 1 < j {
      Stretch(ls, s, i + 1, j);
      Glue(mark, Lowered([s[i]]), Lowered(s[i + 1..j]), SnakeFrom(ls, s, j));
    } else {
      assert Lowered(s[i + 1..j]) == "";
      Glue(mark, Lowered([s[i]]), "", SnakeFrom(ls, s, j));
    }
  }

  lemma Glue(u: string, a: string, b: string, c: string)
    ensures u + a + ("" + b + c) == u + (a + b) + c
    ensures b == "" ==> u + a + c == u + (a + b) + c
  {
  }

  lemma LoweredApart(s: string)
    requires s != ""
    ensures Lowered(s) == Lowered([s[0]]) + Lowered(s[1..])
  {
  }

  lemma WordLetters(w: Word, k: nat)
    requires w.Ok() && k < |w.Text()|
    ensures if k < |w.caps| then Upper(w.Text()[k]) else Small(w.Text()[k]) || Digit(w.Text()[k])
  {
    assert if k < |w.caps| then w.Text()[k] in w.caps else w.Text()[k] in w.rest;
  }

  lemma WordsArePlain(ws: seq<Word>)
    requires Words(ws)
    ensures AllPlain(Together(ws))
    ensures ws != [] ==> var s := Together(ws); s != "" && (ws[0].caps != "" ==> Upper(s[0]))
  {
    if ws != [] {
      var text := ws[0].Text();
      forall k | 0 <= k < |text|
        ensures Plain(text[k]) && (k < |ws[0].caps| ==> Upper(text[k]))
      {
        WordLetters(ws[0], k);
      }
      WordsArePlain(ws[1..]);
    }
  }

  /** The word is at i, and what follows it begins with a capital. */
  predicate InPlace(s: string, i: nat, w: Word) {
    && i + |w.Text()| <= |s| && s[i..i + |w.Text()|] == w.Text()
    && (i + |w.Text()| < |s| ==> Upper(s[i + |w.Text()|]))
  }

  /** There are no marks inside a word. */
  lemma NoneInside(s: string, i: nat, w: Word, k: nat)
    requires w.Ok() && InPlace(s, i, w) && 0 < k < |w.Text()|
    ensures !Bounds(s, i + k)
  {
    var text := w.Text();
    assert s[i + k] == text[k] && s[i + k - 1] == text[k - 1];
    WordLetters(w, k);
    WordLetters(w, k - 1);
    if k + 1 < |text| {
      assert s[i + k + 1] == text[k + 1];
      WordLetters(w, k + 1);
      assert k + 1 == |w.caps| ==> text[k + 1] == w.rest[0];
    }
  }

  /** Between two words there is one. */
  lemma OneBetween(s: string, i: nat, w: Word, next: Word)
    requires w.Ok() && next.Ok() && w.Before(next)
    requires InPlace(s, i, w) && InPlace(s, i + |w.Text()|, next)
    ensures Bounds(s, i + |w.Text()|)
  {
    var j, a, b := i + |w.Text()|, w.Text(), next.Text();
    assert s[j - 1] == a[|a| - 1] && s[j] == b[0];
    WordLetters(w, |a| - 1);
    WordLetters(next, 0);
    if w.rest == "" {
      assert s[j + 1] == b[1] == next.rest[0];
    }
  }

  ghost predicate Follows(s: string, i: nat, last: Word, ws: seq<Word>) {
    && i <= |s| && s[i..] == Together(ws)
    && (i > 0 ==> last.Ok() && |last.Text()| <= i && InPlace(s, i - |last.Text()|, last)
                  && (ws != [] ==> last.Before(ws[0])))
  }

  lemma FirstInPlace(s: string, i: nat, ws: seq<Word>)
    requires Words(ws) && ws != [] && i <= |s| && s[i..] == Together(ws)
    ensures InPlace(s, i, ws[0]) && s[i + |ws[0].Text()|..] == Together(ws[1..])
  {
    var text, rest := ws[0].Text(), Together(ws[1..]);
    var j := i + |text|;
    assert s[i..][..|text|] == text && s[i..][|text|..] == rest;
    assert s[j..] == rest;
    WordsArePlain(ws[1..]);
    if j < |s| {
      assert s[j..][0] == s[j];
      assert ws[0].Before(ws[1]);
    }
  }

  lemma WordMarks(s: string, i: nat, last: Word, w: Word)
    requires w.Ok() && InPlace(s, i, w)
    requires i > 0 ==> last.Ok() && |last.Text()| <= i && InPlace(s, i - |last.Text()|, last) && last.Before(w)
    ensures i < i + |w.Text()| <= |s|
    ensures Bounds(s, i) <==> i > 0
    ensures forall k | i < k < i + |w.Text()| :: !Bounds(s, k)
  {
    forall k | i < k < i + |w.Text()|
      ensures !Bounds(s, k)
    {
      NoneInside(s, i, w, k - i);
    }
    if i > 0 {
      OneBetween(s, i - |last.Text()|, last, w);
    }
  }

  lemma RestFollows(s: string, i: nat, last: Word, ws: seq<Word>)
    requires Words(ws) && Follows(s, i, last, ws) && ws != []
    ensures var j := i + |ws[0].Text()|;
            && i < j <= |s| && s[i..j] == ws[0].Text()
            && (Bounds(s, i) <==> i > 0) && (forall k | i < k < j :: !Bounds(s, k))
            && Words(ws[1..]) && Follows(s, j, ws[0], ws[1..])
  {
    FirstInPlace(s, i, ws);
    WordMarks(s, i, last, ws[0]);
    assert ws[1..] != [] ==> ws[0].Before(ws[1]);
  }

  function Mark(i: nat): string {
    if i > 0 then "_" else ""
  }

  /** What the rest from i on becomes. */
  function Answer(i: nat, ws: seq<Word>): string {
    if ws == [] then "" else Mark(i) + Join(Parts(ws), '_')
  }

  lemma AnswerApart(i: nat, j: nat, ws: seq<Word>)
    requires ws != [] && j > 0
    ensures Answer(i, ws) == Mark(i) + Lowered(ws[0].Text()) + Answer(j, ws[1..])
  {
    var low := Lowered(ws[0].Text());
    assert Parts(ws)[1..] == Parts(ws[1..]);
    if |ws| > 1 {
      Regroup(low, "_", Join(Parts(ws[1..]), '_'));
    }
    assert Join(Parts(ws), '_') == low + Answer(j, ws[1..]);
    Regroup(Mark(i), low, Answer(j, ws[1..]));
  }

  lemma SnakeOfFirst(ls: Letters, s: string, i: nat, j: nat, ws: seq<Word>)
    requires Lawful(ls) && AllPlain(s) && ws != [] && i < j <= |s| && s[i..j] == ws[0].Text()
    requires (Bounds(s, i) <==> i > 0) && forall k | i < k < j :: !Bounds(s, k)
    requires SnakeFrom(ls, s, j) == Answer(j, ws[1..])
    ensures SnakeFrom(ls, s, i) == Answer(i, ws)
  {
    Stretch(ls, s, i, j);
    AnswerApart(i, j, ws);
  }

  lemma {:induction false} SnakeOfRest(ls: Letters, s: string, i: nat, last: Word, ws: seq<Word>)
    requires Lawful(ls) && AllPlain(s) && Words(ws) && Follows(s, i, last, ws)
    ensures SnakeFrom(ls, s, i) == Answer(i, ws)
    decreases |ws|
  {
    if ws == [] {
      assert i == |s|;
    } else {
      var j := i + |ws[0].Text()|;
      RestFollows(s, i, last, ws);
      SnakeOfRest(ls, s, j, ws[0], ws[1..]);
      SnakeOfFirst(ls, s, i, j, ws);
    }
  }

  /** Main result on words: a key made of words becomes those words in small letters, joined by underscores. */
  lemma SnakeOfWords(ls: Letters, ws: seq<Word>)
    requires Lawful(ls) && Words(ws)
    ensures Snake(ls, Together(ws)) == Join(Parts(ws), '_')
  {
    var s := Together(ws);
    WordsArePlain(ws);
    assert s[0..] == s;
    SnakeOfRest(ls, s, 0, Word("", ""), ws);
  }

  /** Putting a letter in front of words. */
  function Prefixed(c: char, ws: seq<Word>): seq<Word> {
    if ws == [] then [if Upper(c) then Word([c], "") else Word("", [c])]
    else
      var Word(caps, rest) := ws[0];
      if !Upper(c) then (if caps == "" then [Word("", [c] + rest)] + ws[1..] else [Word("", [c])] + ws)
      else if |caps| == 1 && rest != "" && Small(rest[0]) then [Word([c], "")] + ws
      else [Word([c] + caps, rest)] + ws[1..]
  }

  lemma PrefixedText(c: char, ws: seq<Word>)
    ensures Together(Prefixed(c, ws)) == [c] + Together(ws)
  {
    if ws != [] {
      Regroup([c], ws[0].Text(), Together(ws[1..]));
      assert ([Word("", [c])] + ws)[1..] == ws && ([Word([c], "")] + ws)[1..] == ws;
      assert [c] + ws[0].caps + ws[0].rest == [c] + ws[0].Text();
    }
  }

  lemma PrefixedWords(c: char, ws: seq<Word>)
    requires Words(ws) && Plain(c)
    ensures Words(Prefixed(c, ws))
  {
    var vs := Prefixed(c, ws);
    if ws != [] {
      assert ws[0].Ok();
      assert vs[0].Ok() by {
        assert forall d | d in vs[0].rest :: d == c || d in ws[0].rest;
      }
      assert |ws| > 1 ==> ws[0].Before(ws[1]);
    }
  }

  /** Every key of letters and digits is made of words. */
  lemma {:induction false} PlainIsWords(s: string) returns (ws: seq<Word>)
    requires AllPlain(s)
    ensures Words(ws) && Together(ws) == s
  {
    if s == "" {
      ws := [];
    } else {
      ws := PlainIsWords(s[1..]);
      PrefixedText(s[0], ws);
      PrefixedWords(s[0], ws);
      ws := Prefixed(s[0], ws);
      assert s == [s[0]] + s[1..];
    }
  }

  /** So every such key has a snake form that is found by its words. */
  lemma SnakeByWords(ls: Letters, s: string) returns (ws: seq<Word>)
    requires Lawful(ls) && AllPlain(s)
    ensures Words(ws) && Together(ws) == s && Snake(ls, s) == Join(Parts(ws), '_')
  {
    ws := PlainIsWords(s);
    SnakeOfWords(ls, ws);
  }

  lemma LastWord(w: Word)
    ensures Together([w]) == w.Text()
  {
    assert [w][1..] == [];
  }

  lemma MoreWords(w: Word, ws: seq<Word>)
    ensures Together([w] + ws) == w.Text() + Together(ws)
    ensures Parts([w] + ws) == [Lowered(w.Text())] + Parts(ws)
  {
    assert ([w] + ws)[1..] == ws;
  }

  lemma SmallLetters()
    ensures Lowered("get") == "get" && Lowered("HTTP") == "http" && Lowered("Response") == "response"
  {
  }

  const HTTP_RESPONSE: seq<Word> := [Word("", "get")] + ([Word("HTTP", "")] + [Word("R", "esponse")])

  lemma WordsAppend(w: Word, ws: seq<Word>)
    requires w.Ok() && Words(ws) && (ws != [] ==> w.Before(ws[0]))
    ensures Words([w] + ws)
  {
  }

  lemma HttpResponseOk()
    ensures Word("", "get").Ok() && Word("HTTP", "").Ok() && Word("R", "esponse").Ok()
  {
  }

  lemma HttpResponseWords()
    ensures Words(HTTP_RESPONSE)
  {
    HttpResponseOk();
    WordsAppend(Word("R", "esponse"), []);
    WordsAppend(Word("HTTP", ""), [Word("R", "esponse")]);
    WordsAppend(Word("", "get"), [Word("HTTP", "")] + [Word("R", "esponse")]);
  }

  lemma HttpResponseText()
    ensures Together(HTTP_RESPONSE) == "getHTTPResponse"
  {
    LastWord(Word("R", "esponse"));
    MoreWords(Word("HTTP", ""), [Word("R", "esponse")]);
    MoreWords(Word("", "get"), [Word("HTTP", "")] + [Word("R", "esponse")]);
  }

  lemma HttpResponseParts()
    ensures Join(Parts(HTTP_RESPONSE), '_') == "get_http_response"
  {
    SmallLetters();
    assert Word("", "get").Text() == "get" && Word("HTTP", "").Text() == "HTTP";
    assert Word("R", "esponse").Text() == "Response";
    assert Parts(HTTP_RESPONSE) == ["get", "http", "response"];
    assert ["get", "http", "response"][1..] == ["http", "response"];
    assert ["http", "response"][1..] == ["response"];
  }

  /** The example of the source's own comment. */
  lemma HttpResponse(ls: Letters)
    requires Lawful(ls)
    ensures Snake(ls, "getHTTPResponse") == "get_http_response"
  {
    HttpResponseWords();
    HttpResponseText();
    HttpResponseParts();
    SnakeOfWords(ls, HTTP_RESPONSE);
  }

  /** The other way: one more letter is raised if it comes after an underscore, and underscores are dropped. */
  lemma {:induction false} CamelOfOneMore(ls: Letters, s: string, c: char, up: bool)
    ensures CamelFrom(ls, s + [c], up) ==
            CamelFrom(ls, s, up) +
            if c == '_' then "" else if (if s == "" then up else s[|s| - 1] == '_') then [ls.upper(c)] else [c]
  {
    if s != "" {
      CamelOfOneMore(ls, s[1..], c, s[0] == '_');
      assert (s + [c])[1..] == s[1..] + [c];
    } else {
      assert s + [c] == [c];
    }
  }

  // Nested specs.

  /** The steps to a value and to its translation: field names are translated up to a field that is passed through, and
      kept from there on. */
  predicate Renames(ls: Letters, d: Direction, p: seq<Into>, q: seq<Into>) {
    if p == [] || q == [] then p == q
    else match (p[0], q[0])
      case (Item(i), Item(j)) => i == j && Renames(ls, d, p[1..], q[1..])
      case (Field(k), Field(n)) =>
        && n == Key(ls, d, k)
        && if n in {"env", "headers", "encrypted_env", "default_env", "encryptedEnv", "defaultEnv"}
           then p[1..] == q[1..] else Renames(ls, d, p[1..], q[1..])
      case _ => false
  }

  predicate Leaf(v: Value) {
    !(v.Map? && !v.anyKeys) && !(v.List? && !v.typed)
  }

  lemma PassedThroughIff(ls: Letters, d: Direction, k: string)
    requires Lawful(ls)
    ensures Verbatim(ls, d, k) <==>
            Key(ls, d, k) in {"env", "headers", "encrypted_env", "default_env", "encryptedEnv", "defaultEnv"}
  {
    VerbatimByKey(ls, d, k);
  }

  /** Main result on nested specs: whatever a translation holds at the end of a path was there before it, at the end of
      the path it is renamed from. */
  lemma {:induction false} LeavesMove(ls: Letters, d: Direction, v: Value, w: Value, q: seq<Into>)
    returns (p: seq<Into>)
    requires Lawful(ls) && Translated(ls, d, v, w) && Inside(w, q).Some?
    ensures Renames(ls, d, p, q) && Inside(v, p).Some?
    ensures Leaf(Inside(w, q).value) ==> Inside(v, p) == Inside(w, q)
    decreases |q|
  {
    if q == [] {
      return [];
    }
    match q[0]
    case Item(i) =>
      var rest := LeavesMove(ls, d, v.xs[i], w.xs[i], q[1..]);
      p := [q[0]] + rest;
    case Field(n) =>
      var k := FieldOf(ls, d, v, w, n);
      PassedThroughIff(ls, d, k);
      var rest := q[1..];
      if !Verbatim(ls, d, k) {
        rest := LeavesMove(ls, d, v.m[k], w.m[n], q[1..]);
      }
      p := [Field(k)] + rest;
  }

  /** No field and no item is lost on the way. */
  lemma StepsMove(ls: Letters, d: Direction, v: Value, w: Value, step: Into)
    requires Translated(ls, d, v, w) && Inside(v, [step]).Some?
    ensures Inside(w, [if step.Field? then Field(Key(ls, d, step.key)) else step]).Some?
  {
    if step.Field? {
      assert Key(ls, d, step.key) in w.m;
      assert [Field(Key(ls, d, step.key))][1..] == [];
    } else {
      assert [step][1..] == [];
    }
  }
}
