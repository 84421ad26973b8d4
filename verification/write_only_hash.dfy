/** The content hash of the fields a server does not return. */
module WriteOnlyHash {
  import opened Values

  const HASH_FIELD: string := "writeOnlyHash"

  datatype Pair = Pair(key: string, val: Value)

  /** The two library functions behind the hash: JSON encoding of one value (None when it cannot be
      encoded) and the digest of an array of encodings. */
  datatype Codec = Codec(encode: Value -> Option<string>, digest: seq<string> -> string)

  /** An idealised codec: strings encode injectively, digests do not collide and are never empty. */
  ghost predicate Ideal(c: Codec) {
    && (forall s: string, t: string :: c.encode(Str(s)).Some? && (c.encode(Str(s)) == c.encode(Str(t)) ==> s == t))
    && (forall x: seq<string>, y: seq<string> :: c.digest(x) == c.digest(y) ==> x == y)
    && (forall x: seq<string> :: c.digest(x) != "")
  }

  /** Byte order on strings. */
  predicate Leq(s: string, t: string) {
    s == "" || (t != "" && (s[0] < t[0] || (s[0] == t[0] && Leq(s[1..], t[1..]))))
  }

  lemma {:induction false} LeqTotal(s: string, t: string)
    ensures Leq(s, t) || Leq(t, s)
  {
    if s != "" && t != "" {
      LeqTotal(s[1..], t[1..]);
    }
  }

  lemma {:induction false} LeqAntisymmetric(s: string, t: string)
    requires Leq(s, t) && Leq(t, s)
    ensures s == t
  {
    if s != "" {
      LeqAntisymmetric(s[1..], t[1..]);
      assert s == [s[0]] + s[1..] && t == [t[0]] + t[1..];
    }
  }

  lemma {:induction false} LeqTransitive(s: string, t: string, u: string)
    requires Leq(s, t) && Leq(t, u)
    ensures Leq(s, u)
  {
    if s != "" && s[0] == t[0] == u[0] {
      LeqTransitive(s[1..], t[1..], u[1..]);
    }
  }

  ghost predicate Sorted(ps: seq<Pair>) {
    forall i, j :: 0 <= i < j < |ps| ==> Leq(ps[i].key, ps[j].key)
  }

  /** Insertion by key, standing for the library sort. */
  function Insert(p: Pair, ps: seq<Pair>): (r: seq<Pair>)
    ensures multiset(r) == multiset(ps) + multiset{p}
  {
    if ps == [] || Leq(p.key, ps[0].key) then
      assert multiset([p] + ps) == multiset{p} + multiset(ps);
      [p] + ps
    else
      assert ps == [ps[0]] + ps[1..];
      [ps[0]] + Insert(p, ps[1..])
  }

  lemma {:induction false} InsertSorted(p: Pair, ps: seq<Pair>)
    requires Sorted(ps)
    ensures Sorted(Insert(p, ps))
  {
    if ps != [] && !Leq(p.key, ps[0].key) {
      LeqTotal(p.key, ps[0].key);
      InsertSorted(p, ps[1..]);
      var r := Insert(p, ps[1..]);
      forall x | x in r
        ensures Leq(ps[0].key, x.key)
      {
        assert x in multiset(r);
        assert x == p || x in ps[1..];
      }
    } else if ps != [] {
      forall x | x in ps
        ensures Leq(p.key, x.key)
      {
        if x != ps[0] {
          LeqTransitive(p.key, ps[0].key, x.key);
        }
      }
    }
  }

  function SortByKey(ps: seq<Pair>): (r: seq<Pair>)
    ensures multiset(r) == multiset(ps)
  {
    if ps == [] then []
    else
      assert ps == [ps[0]] + ps[1..];
      Insert(ps[0], SortByKey(ps[1..]))
  }

  lemma {:induction false} SortByKeySorts(ps: seq<Pair>)
    ensures Sorted(SortByKey(ps))
  {
    if ps != [] {
      SortByKeySorts(ps[1..]);
      InsertSorted(ps[0], SortByKey(ps[1..]));
    }
  }

  /** The pairs are values of one spec: equal keys carry equal values. */
  ghost predicate OneSpec(spec: Spec, ps: seq<Pair>) {
    forall p | p in ps :: p.key in spec && spec[p.key] == p.val
  }

  lemma SortedSameHead(spec: Spec, ps: seq<Pair>, qs: seq<Pair>)
    requires OneSpec(spec, ps) && OneSpec(spec, qs) && ps != [] && qs != []
    requires multiset(ps) == multiset(qs) && Sorted(ps) && Sorted(qs)
    ensures ps[0] == qs[0]
  {
    assert ps[0] in multiset(qs) && qs[0] in multiset(ps);
    var i :| 0 <= i < |qs| && qs[i] == ps[0];
    var j :| 0 <= j < |ps| && ps[j] == qs[0];
    LeqReflexive(ps[0].key);
    LeqAntisymmetric(ps[0].key, qs[0].key);
    assert ps[0] in ps && qs[0] in qs;
  }

  lemma {:induction false} SortedUnique(spec: Spec, ps: seq<Pair>, qs: seq<Pair>)
    requires OneSpec(spec, ps) && OneSpec(spec, qs)
    requires multiset(ps) == multiset(qs) && Sorted(ps) && Sorted(qs)
    ensures ps == qs
    decreases |ps|
  {
    assert |ps| == |multiset(ps)| == |multiset(qs)| == |qs|;
    if ps != [] {
      SortedSameHead(spec, ps, qs);
      TailMultiset(ps);
      TailMultiset(qs);
      SortedUnique(spec, ps[1..], qs[1..]);
      assert ps == [ps[0]] + ps[1..] && qs == [qs[0]] + qs[1..];
    }
  }

  lemma TailMultiset(ps: seq<Pair>)
    requires ps != []
    ensures multiset(ps[1..]) == multiset(ps) - multiset{ps[0]}
  {
    assert ps == [ps[0]] + ps[1..];
  }

  lemma {:induction false} LeqReflexive(s: string)
    ensures Leq(s, s)
  {
    if s != "" {
      LeqReflexive(s[1..]);
    }
  }

  /** The selected fields, in table order: not ignored, and present in the spec. */
  function Selected(spec: Spec, fields: seq<string>, ignore: set<string>): seq<Pair> {
    if fields == [] then []
    else
      var rest := Selected(spec, fields[..|fields| - 1], ignore);
      var f := fields[|fields| - 1];
      if f in ignore || f !in spec then rest else rest + [Pair(f, spec[f])]
  }

  /** Keys and values alternate in the encoded array. */
  function Flatten(ps: seq<Pair>): seq<Value> {
    if ps == [] then [] else Flatten(ps[..|ps| - 1]) + [Str(ps[|ps| - 1].key), ps[|ps| - 1].val]
  }

  /** The JSON encoding of a list, element by element. */
  function EncodeAll(c: Codec, vs: seq<Value>): Option<seq<string>> {
    if vs == [] then Some([])
    else
      var rest := EncodeAll(c, vs[..|vs| - 1]);
      var last := c.encode(vs[|vs| - 1]);
      if rest.Some? && last.Some? then Some(rest.value + [last.value]) else None
  }

  function HashOfPairs(c: Codec, ps: seq<Pair>): string {
    if ps == [] then ""
    else
      var data := EncodeAll(c, Flatten(SortByKey(ps)));
      if data.None? then "" else c.digest(data.value)
  }

  function HashFields(c: Codec, spec: Spec, fields: seq<string>, ignore: set<string>): string {
    HashOfPairs(c, Selected(spec, fields, ignore))
  }

  method HashWriteOnlyFields(c: Codec, spec: Spec, fields: seq<string>, ignoreFields: seq<string>)
    returns (hash: string)
    ensures hash == HashFields(c, spec, fields, set f | f in ignoreFields)
  {
    var ignore := {};
    for i := 0 to |ignoreFields|
      invariant ignore == set f | f in ignoreFields[..i]
    {
      ignore := ignore + {ignoreFields[i]};
    }
    assert ignoreFields[..|ignoreFields|] == ignoreFields;
    var pairs: seq<Pair> := [];
    for i := 0 to |fields|
      invariant pairs == Selected(spec, fields[..i], ignore)
    {
      assert fields[..i + 1][..i] == fields[..i];
      if fields[i] in ignore {
        continue;
      }
      if fields[i] !in spec {
        continue;
      }
      pairs := pairs + [Pair(fields[i], spec[fields[i]])];
    }
    assert fields[..|fields|] == fields;
    if |pairs| == 0 {
      return "";
    }
    var sorted := SortByKey(pairs);
    var ordered: seq<Value> := [];
    for i := 0 to |sorted|
      invariant ordered == Flatten(sorted[..i])
    {
      assert sorted[..i + 1][..i] == sorted[..i];
      ordered := ordered + [Str(sorted[i].key), sorted[i].val];
    }
    assert sorted[..|sorted|] == sorted;
    var data := EncodeAll(c, ordered);
    hash := if data.None? then "" else c.digest(data.value);
  }

  /** Membership in the selection, without regard to order. */
  lemma {:induction false} SelectedIff(spec: Spec, fields: seq<string>, ignore: set<string>, p: Pair)
    ensures p in Selected(spec, fields, ignore)
       <==> p.key in fields && p.key !in ignore && p.key in spec && spec[p.key] == p.val
  {
    if fields != [] {
      var init, f := fields[..|fields| - 1], fields[|fields| - 1];
      assert fields == init + [f];
      SelectedIff(spec, init, ignore, p);
    }
  }

  /** A pair is selected as often as its field is listed. */
  lemma {:induction false} SelectedCount(spec: Spec, fields: seq<string>, ignore: set<string>, p: Pair)
    ensures multiset(Selected(spec, fields, ignore))[p]
         == if p.key !in ignore && p.key in spec && spec[p.key] == p.val then multiset(fields)[p.key] else 0
  {
    if fields != [] {
      var init, f := fields[..|fields| - 1], fields[|fields| - 1];
      assert fields == init + [f];
      SelectedCount(spec, init, ignore, p);
    }
  }

  lemma SelectedPermuted(spec: Spec, fields: seq<string>, other: seq<string>, ignore: set<string>)
    requires multiset(fields) == multiset(other)
    ensures multiset(Selected(spec, fields, ignore)) == multiset(Selected(spec, other, ignore))
  {
    forall p: Pair
      ensures multiset(Selected(spec, fields, ignore))[p] == multiset(Selected(spec, other, ignore))[p]
    {
      SelectedCount(spec, fields, ignore, p);
      SelectedCount(spec, other, ignore, p);
    }
  }

  /** The hash does not depend on the order in which the field table lists the fields. */
  lemma HashIgnoresFieldOrder(c: Codec, spec: Spec, fields: seq<string>, other: seq<string>, ignore: set<string>)
    requires multiset(fields) == multiset(other)
    ensures HashFields(c, spec, fields, ignore) == HashFields(c, spec, other, ignore)
  {
    var ps, qs := Selected(spec, fields, ignore), Selected(spec, other, ignore);
    SelectedPermuted(spec, fields, other, ignore);
    forall p: Pair
      ensures p in ps ==> p.key in spec && spec[p.key] == p.val
      ensures p in qs ==> p.key in spec && spec[p.key] == p.val
    {
      SelectedIff(spec, fields, ignore, p);
      SelectedIff(spec, other, ignore, p);
    }
    forall p
      ensures p in SortByKey(ps) ==> p in ps
      ensures p in SortByKey(qs) ==> p in qs
    {
      assert p in SortByKey(ps) <==> p in multiset(SortByKey(ps));
      assert p in SortByKey(qs) <==> p in multiset(SortByKey(qs));
    }
    SortByKeySorts(ps);
    SortByKeySorts(qs);
    SortedUnique(spec, SortByKey(ps), SortByKey(qs));
    assert |ps| == |multiset(ps)| == |multiset(qs)| == |qs|;
  }

  ghost predicate Encodable(c: Codec, ps: seq<Pair>) {
    forall p | p in ps :: c.encode(p.val).Some?
  }

  /** Same keys in the same places, and values that encode alike. */
  ghost predicate Alike(c: Codec, ps: seq<Pair>, qs: seq<Pair>) {
    && |ps| == |qs|
    && forall i | 0 <= i < |ps| :: ps[i].key == qs[i].key && c.encode(ps[i].val) == c.encode(qs[i].val)
  }

  lemma {:induction false} Encodes(c: Codec, ps: seq<Pair>)
    requires Ideal(c) && Encodable(c, ps)
    ensures EncodeAll(c, Flatten(ps)).Some? && |EncodeAll(c, Flatten(ps)).value| == 2 * |ps|
  {
    if ps != [] {
      Encodes(c, ps[..|ps| - 1]);
      EncodesSnoc(c, ps);
    }
  }

  lemma AppendTwoInjective<T>(x: seq<T>, u: seq<T>, y: seq<T>, v: seq<T>)
    requires x + u == y + v && |u| == |v| == 2
    ensures x == y && u[0] == v[0] && u[1] == v[1]
  {
    assert (x + u)[..|x|] == x && (y + v)[..|y|] == y;
    assert (x + u)[|x|] == u[0] && (x + u)[|x| + 1] == u[1];
  }

  lemma AlikeSnoc(c: Codec, ps: seq<Pair>, qs: seq<Pair>)
    requires ps != [] && qs != []
    ensures var p, q := ps[|ps| - 1], qs[|qs| - 1];
            Alike(c, ps, qs) <==> Alike(c, ps[..|ps| - 1], qs[..|qs| - 1])
                                  && p.key == q.key && c.encode(p.val) == c.encode(q.val)
  {
  }

  lemma {:induction false} EncodesAlikeIff(c: Codec, ps: seq<Pair>, qs: seq<Pair>)
    requires Ideal(c) && Encodable(c, ps) && Encodable(c, qs)
    ensures EncodeAll(c, Flatten(ps)).Some? && EncodeAll(c, Flatten(qs)).Some?
    ensures EncodeAll(c, Flatten(ps)) == EncodeAll(c, Flatten(qs)) <==> Alike(c, ps, qs)
    decreases |ps|
  {
    Encodes(c, ps);
    Encodes(c, qs);
    if ps != [] && qs != [] {
      var ps', p, qs', q := ps[..|ps| - 1], ps[|ps| - 1], qs[..|qs| - 1], qs[|qs| - 1];
      EncodesAlikeIff(c, ps', qs');
      EncodesSnoc(c, ps);
      EncodesSnoc(c, qs);
      AlikeSnoc(c, ps, qs);
      assert p in ps && q in qs;
      var x, y := EncodeAll(c, Flatten(ps')).value, EncodeAll(c, Flatten(qs')).value;
      var u := [c.encode(Str(p.key)).value, c.encode(p.val).value];
      var v := [c.encode(Str(q.key)).value, c.encode(q.val).value];
      if x + u == y + v {
        AppendTwoInjective(x, u, y, v);
      }
    }
  }

  lemma EncodesSnoc(c: Codec, ps: seq<Pair>)
    requires Ideal(c) && Encodable(c, ps) && ps != []
    ensures var init, p := ps[..|ps| - 1], ps[|ps| - 1];
            EncodeAll(c, Flatten(init)).Some? ==>
              EncodeAll(c, Flatten(ps))
              == Some(EncodeAll(c, Flatten(init)).value + [c.encode(Str(p.key)).value, c.encode(p.val).value])
  {
    var init, p := ps[..|ps| - 1], ps[|ps| - 1];
    var f, k := Flatten(init), Str(p.key);
    assert f + [k, p.val] == (f + [k]) + [p.val];
    EncodeAllSnoc(c, f, k);
    EncodeAllSnoc(c, f + [k], p.val);
    if EncodeAll(c, f).Some? {
      var x := EncodeAll(c, f).value;
      assert p in ps;
      assert x + [c.encode(k).value] + [c.encode(p.val).value] == x + [c.encode(k).value, c.encode(p.val).value];
    }
  }

  lemma EncodeAllSnoc(c: Codec, vs: seq<Value>, v: Value)
    ensures EncodeAll(c, vs + [v])
         == if EncodeAll(c, vs).Some? && c.encode(v).Some? then Some(EncodeAll(c, vs).value + [c.encode(v).value])
            else None
  {
  }

  lemma {:induction false} InsertAlike(c: Codec, p: Pair, ps: seq<Pair>, q: Pair, qs: seq<Pair>)
    requires Alike(c, ps, qs) && p.key == q.key && c.encode(p.val) == c.encode(q.val)
    ensures Alike(c, Insert(p, ps), Insert(q, qs))
  {
    if ps != [] && !Leq(p.key, ps[0].key) {
      InsertAlike(c, p, ps[1..], q, qs[1..]);
    }
  }

  lemma {:induction false} SortAlike(c: Codec, ps: seq<Pair>, qs: seq<Pair>)
    requires Alike(c, ps, qs)
    ensures Alike(c, SortByKey(ps), SortByKey(qs))
  {
    if ps != [] {
      SortAlike(c, ps[1..], qs[1..]);
      InsertAlike(c, ps[0], SortByKey(ps[1..]), qs[0], SortByKey(qs[1..]));
    }
  }

  /** Two specs agree on the hashed fields: same fields present, with values that encode alike. */
  ghost predicate Agree(c: Codec, s: Spec, t: Spec, fields: seq<string>, ignore: set<string>) {
    forall f | f in fields && f !in ignore ::
      (f in s <==> f in t) && (f in s ==> c.encode(s[f]) == c.encode(t[f]))
  }

  lemma {:induction false} AgreeSelectsAlike(c: Codec, s: Spec, t: Spec, fields: seq<string>, ignore: set<string>)
    requires Agree(c, s, t, fields, ignore)
    ensures Alike(c, Selected(s, fields, ignore), Selected(t, fields, ignore))
  {
    if fields != [] {
      var init, f := fields[..|fields| - 1], fields[|fields| - 1];
      assert fields == init + [f];
      AgreeSelectsAlike(c, s, t, init, ignore);
    }
  }

  lemma SortedMembers(ps: seq<Pair>, p: Pair)
    ensures p in SortByKey(ps) <==> p in ps
    ensures |SortByKey(ps)| == |ps|
  {
    assert p in SortByKey(ps) <==> p in multiset(SortByKey(ps));
    assert |SortByKey(ps)| == |multiset(SortByKey(ps))| == |multiset(ps)| == |ps|;
  }

  lemma SortedEncodable(c: Codec, ps: seq<Pair>)
    requires Encodable(c, ps)
    ensures Encodable(c, SortByKey(ps)) && |SortByKey(ps)| == |ps|
  {
    forall p | p in SortByKey(ps)
      ensures c.encode(p.val).Some?
    {
      SortedMembers(ps, p);
    }
    SortedMembers(ps, Pair("", Null));
  }

  lemma {:induction false} EncodesIff(c: Codec, ps: seq<Pair>)
    requires Ideal(c)
    ensures EncodeAll(c, Flatten(ps)).Some? <==> Encodable(c, ps)
  {
    if ps != [] {
      var init, p := ps[..|ps| - 1], ps[|ps| - 1];
      assert ps == init + [p];
      EncodesIff(c, init);
      assert Flatten(init) + [Str(p.key), p.val] == (Flatten(init) + [Str(p.key)]) + [p.val];
      EncodeAllSnoc(c, Flatten(init), Str(p.key));
      EncodeAllSnoc(c, Flatten(init) + [Str(p.key)], p.val);
    }
  }

  lemma SortedEncodableIff(c: Codec, ps: seq<Pair>)
    ensures Encodable(c, SortByKey(ps)) <==> Encodable(c, ps)
  {
    forall p
      ensures p in SortByKey(ps) <==> p in ps
    {
      SortedMembers(ps, p);
    }
  }

  /** Pairs have a hash exactly when there are some and all of them can be encoded. */
  lemma PairsHashEmptyIff(c: Codec, ps: seq<Pair>)
    requires Ideal(c)
    ensures HashOfPairs(c, ps) == "" <==> ps == [] || !Encodable(c, ps)
  {
    EncodesIff(c, SortByKey(ps));
    SortedEncodableIff(c, ps);
  }

  /** No hashed field is present, or one has a value that cannot be encoded. */
  ghost predicate NoHash(c: Codec, s: Spec, fields: seq<string>, ignore: set<string>) {
    || (forall f | f in fields && f !in ignore :: f !in s)
    || exists f :: f in fields && f !in ignore && f in s && c.encode(s[f]).None?
  }

  lemma NothingToHashIff(c: Codec, s: Spec, fields: seq<string>, ignore: set<string>)
    ensures NoHash(c, s, fields, ignore) <==>
            Selected(s, fields, ignore) == [] || !Encodable(c, Selected(s, fields, ignore))
  {
    var ps := Selected(s, fields, ignore);
    forall p
      ensures p in ps <==> p.key in fields && p.key !in ignore && p.key in s && s[p.key] == p.val
    {
      SelectedIff(s, fields, ignore, p);
    }
    if ps != [] {
      assert ps[0] in ps;
    }
    forall f | f in fields && f !in ignore && f in s
      ensures Pair(f, s[f]) in ps
    {
    }
  }

  /** The hash is empty exactly when there is nothing to hash, or nothing that can be. */
  lemma HashEmptyIff(c: Codec, s: Spec, fields: seq<string>, ignore: set<string>)
    requires Ideal(c)
    ensures HashFields(c, s, fields, ignore) == "" <==> NoHash(c, s, fields, ignore)
  {
    PairsHashEmptyIff(c, Selected(s, fields, ignore));
    NothingToHashIff(c, s, fields, ignore);
  }

  lemma PairsHashAlikeIff(c: Codec, ps: seq<Pair>, qs: seq<Pair>)
    requires Ideal(c) && Encodable(c, ps) && Encodable(c, qs)
    ensures HashOfPairs(c, ps) == HashOfPairs(c, qs) <==> Alike(c, SortByKey(ps), SortByKey(qs))
  {
    SortedEncodable(c, ps);
    SortedEncodable(c, qs);
    EncodesAlikeIff(c, SortByKey(ps), SortByKey(qs));
  }

  /** A field hashed for one spec is hashed for the other, with a value that encodes alike. */
  lemma AlikeCarries(c: Codec, s: Spec, t: Spec, fields: seq<string>, ignore: set<string>, f: string)
    requires f in fields && f !in ignore && f in s
    requires Alike(c, SortByKey(Selected(s, fields, ignore)), SortByKey(Selected(t, fields, ignore)))
    ensures f in t && c.encode(s[f]) == c.encode(t[f])
  {
    var ps, qs := SortByKey(Selected(s, fields, ignore)), SortByKey(Selected(t, fields, ignore));
    SelectedIff(s, fields, ignore, Pair(f, s[f]));
    SortedMembers(Selected(s, fields, ignore), Pair(f, s[f]));
    var i :| 0 <= i < |ps| && ps[i] == Pair(f, s[f]);
    var q := qs[i];
    assert q in qs;
    SortedMembers(Selected(t, fields, ignore), q);
    SelectedIff(t, fields, ignore, q);
  }

  /** Two specs have the same hash exactly when neither has any, or both have one and they agree on the write-only
      fields that are not ignored. */
  lemma SameHashIff(c: Codec, s: Spec, t: Spec, fields: seq<string>, ignore: set<string>)
    requires Ideal(c)
    ensures HashFields(c, s, fields, ignore) == HashFields(c, t, fields, ignore) <==>
            if NoHash(c, s, fields, ignore) || NoHash(c, t, fields, ignore)
            then NoHash(c, s, fields, ignore) && NoHash(c, t, fields, ignore)
            else Agree(c, s, t, fields, ignore)
  {
    HashEmptyIff(c, s, fields, ignore);
    HashEmptyIff(c, t, fields, ignore);
    if !NoHash(c, s, fields, ignore) && !NoHash(c, t, fields, ignore) {
      NothingToHashIff(c, s, fields, ignore);
      NothingToHashIff(c, t, fields, ignore);
      SameDigestIff(c, s, t, fields, ignore);
    }
  }

  lemma SameDigestIff(c: Codec, s: Spec, t: Spec, fields: seq<string>, ignore: set<string>)
    requires Ideal(c) && Encodable(c, Selected(s, fields, ignore)) && Encodable(c, Selected(t, fields, ignore))
    ensures HashFields(c, s, fields, ignore) == HashFields(c, t, fields, ignore) <==> Agree(c, s, t, fields, ignore)
  {
    var ps, qs := Selected(s, fields, ignore), Selected(t, fields, ignore);
    PairsHashAlikeIff(c, ps, qs);
    if Agree(c, s, t, fields, ignore) {
      AgreeSelectsAlike(c, s, t, fields, ignore);
      SortAlike(c, ps, qs);
    }
    if Alike(c, SortByKey(ps), SortByKey(qs)) {
      AlikeAgree(c, s, t, fields, ignore);
    }
  }

  lemma AlikeAgree(c: Codec, s: Spec, t: Spec, fields: seq<string>, ignore: set<string>)
    requires Alike(c, SortByKey(Selected(s, fields, ignore)), SortByKey(Selected(t, fields, ignore)))
    ensures Agree(c, s, t, fields, ignore)
  {
    forall f | f in fields && f !in ignore
      ensures (f in s <==> f in t) && (f in s ==> c.encode(s[f]) == c.encode(t[f]))
    {
      if f in s {
        AlikeCarries(c, s, t, fields, ignore, f);
      } else if f in t {
        AlikeCarries(c, t, s, fields, ignore, f);
      }
    }
  }
}
