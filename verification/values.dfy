/** Spec values as the YAML and JSON decoders hand them to the reconciler, and the
    equality the reconciler uses on them. */
module Values {

  datatype Option<+T> = None | Some(value: T) {
    function GetOr(default: T): T {
      if Some? then value else default
    }
  }

  /** A Go `any` as it occurs in a spec.  `List(true, xs)` is a `[]string`, `List(false, xs)` a `[]any`;
      `Map(true, m)` is a `map[any]any` with its keys as `fmt` prints them, `Map(false, m)` a `map[string]any`.
      `Opaque` stands for every other Go type. */
  datatype Value =
    | Null
    | Bool(b: bool)
    | Int(i: int)
    | Float(f: real)
    | Str(s: string)
    | List(typed: bool, xs: seq<Value>)
    | Map(anyKeys: bool, m: map<string, Value>)
    | Opaque(goType: string, text: string)

  type Spec = map<string, Value>

  const TWO_53: int := 0x20_0000_0000_0000

  /** The unit in the last place of n once its mantissa is cut to 53 bits. */
  function Ulp(n: nat): (u: nat)
    ensures 1 <= u
  {
    if n < TWO_53 then 1 else 2 * Ulp(n / 2)
  }

  /** Go's conversion of an integer to float64: round to nearest, ties to even. */
  function ToFloat64(i: int): real {
    var n: nat := if i < 0 then -i else i;
    var u := Ulp(n);
    var q, r := n / u, n % u;
    var q' := if 2 * r > u || (2 * r == u && q % 2 == 1) then q + 1 else q;
    (if i < 0 then -(q' * u) else q' * u) as real
  }

  predicate IsNum(v: Value) {
    v.Int? || v.Float?
  }

  function NumOf(v: Value): real
    requires IsNum(v)
  {
    if v.Int? then ToFloat64(v.i) else v.f
  }

  /** The reconciler's comparison: numbers through float64, lists and maps element by element,
      everything else by deep equality. */
  predicate ValuesEqual(a: Value, b: Value)
    decreases a
  {
    if IsNum(a) && IsNum(b) then NumOf(a) == NumOf(b)
    else if a.List? && b.List? then
      |a.xs| == |b.xs| && forall i :: 0 <= i < |a.xs| ==> ValuesEqual(a.xs[i], b.xs[i])
    else if a.Map? && b.Map? then
      |a.m| == |b.m| && forall k :: k in a.m ==> k in b.m && ValuesEqual(a.m[k], b.m[k])
    else a == b
  }

  /** The canonical form: one number type, one list type, one map type. */
  function Canon(v: Value): Value {
    match v
    case Int(i) => Float(ToFloat64(i))
    case List(_, xs) => List(false, seq(|xs|, i requires 0 <= i < |xs| => Canon(xs[i])))
    case Map(_, m) => Map(false, map k | k in m :: Canon(m[k]))
    case _ => v
  }

  lemma SubsetOfSameSize<T>(a: set<T>, b: set<T>)
    requires a <= b && |a| == |b|
    ensures a == b
  {
    assert b == a + (b - a);
    assert |b| == |a| + |b - a|;
  }

  /** `ValuesEqual` is exactly equality of canonical forms, so it is an equivalence at every depth. */
  lemma {:induction false} EqualIffSameCanon(a: Value, b: Value)
    ensures ValuesEqual(a, b) <==> Canon(a) == Canon(b)
    decreases a
  {
    if a.List? && b.List? {
      EqualListsIffSameCanon(a, b);
    } else if a.Map? && b.Map? {
      EqualMapsIffSameCanon(a, b);
    }
  }

  lemma {:induction false} EqualListsIffSameCanon(a: Value, b: Value)
    requires a.List? && b.List?
    ensures ValuesEqual(a, b) <==> Canon(a) == Canon(b)
    decreases a, 0
  {
    var ca, cb := Canon(a), Canon(b);
    if |a.xs| == |b.xs| {
      forall i | 0 <= i < |a.xs|
        ensures ValuesEqual(a.xs[i], b.xs[i]) <==> ca.xs[i] == cb.xs[i]
      {
        EqualIffSameCanon(a.xs[i], b.xs[i]);
      }
      if ValuesEqual(a, b) {
        assert ca.xs == cb.xs;
      }
    } else {
      assert |ca.xs| != |cb.xs|;
    }
  }

  lemma {:induction false} EqualMapsIffSameCanon(a: Value, b: Value)
    requires a.Map? && b.Map?
    ensures ValuesEqual(a, b) <==> Canon(a) == Canon(b)
    decreases a, 0
  {
    var ca, cb := Canon(a), Canon(b);
    assert ca.m.Keys == a.m.Keys && cb.m.Keys == b.m.Keys;
    forall k | k in a.m && k in b.m
      ensures ValuesEqual(a.m[k], b.m[k]) <==> ca.m[k] == cb.m[k]
    {
      EqualIffSameCanon(a.m[k], b.m[k]);
    }
    if ValuesEqual(a, b) {
      SubsetOfSameSize(a.m.Keys, b.m.Keys);
      assert ca.m == cb.m;
    }
  }

  lemma ExactUpTo53Bits(i: int)
    requires -TWO_53 <= i <= TWO_53
    ensures ToFloat64(i) == i as real
  {
    assert Ulp(TWO_53) == 2 * Ulp(TWO_53 / 2);
  }

  /** Integers of a range are told apart exactly when the range ends at 2^53: beyond it two of them are one float64, and
      such drift is invisible to the reconciler. */
  lemma LargeIntsCollapse(bound: int)
    ensures (forall i, j | -bound <= i < j <= bound :: !ValuesEqual(Int(i), Int(j))) <==> bound <= TWO_53
  {
    if bound <= TWO_53 {
      forall i, j | -bound <= i < j <= bound
        ensures !ValuesEqual(Int(i), Int(j))
      {
        ExactUpTo53Bits(i);
        ExactUpTo53Bits(j);
      }
    } else {
      assert Ulp(TWO_53) == 2 && Ulp(TWO_53 + 1) == 2;
      assert ValuesEqual(Int(TWO_53), Int(TWO_53 + 1));
    }
  }
}
