/** Manifests: the declared resources and the annotations that steer their reconciliation. */
module Manifests {
  import opened Values
  import opened Kinds

  /** The reconciliation annotations, already parsed. */
  datatype Annotations = Annotations(ignoreWriteOnly: bool, ignoreFields: seq<string>, syncIgnore: bool)

  /** A declared resource; its spec may be missing. */
  datatype Resource = Resource(kind: Kind, name: string, notes: Annotations, spec: Option<Spec>) {
    function Id(): Key {
      Key(kind, name)
    }

    function Fields(): Spec {
      spec.GetOr(map[])
    }
  }

  /** Resources of one kind, in manifest order. */
  function OfKind(rs: seq<Resource>, kind: Kind): (r: seq<Resource>) {
    if rs == [] then []
    else
      var init := OfKind(rs[..|rs| - 1], kind);
      if rs[|rs| - 1].kind == kind then init + [rs[|rs| - 1]] else init
  }

  /** The identities a manifest declares. */
  function Declared(rs: seq<Resource>): set<Key> {
    set r | r in rs :: r.Id()
  }

  ghost predicate Distinct(rs: seq<Resource>) {
    forall i, j :: 0 <= i < j < |rs| ==> rs[i].Id() != rs[j].Id()
  }

  ghost predicate KnownKinds(rs: seq<Resource>) {
    forall r | r in rs :: !r.kind.Unknown?
  }

  lemma {:induction false} OfKindMembers(rs: seq<Resource>, kind: Kind)
    ensures forall r :: r in OfKind(rs, kind) <==> r in rs && r.kind == kind
  {
    if rs != [] {
      OfKindMembers(rs[..|rs| - 1], kind);
      assert rs == rs[..|rs| - 1] + [rs[|rs| - 1]];
    }
  }

  /** Grouping keeps the order of the manifest. */
  lemma {:induction false} OfKindConcat(a: seq<Resource>, b: seq<Resource>, kind: Kind)
    ensures OfKind(a + b, kind) == OfKind(a, kind) + OfKind(b, kind)
    ensures |b| == 1 ==> OfKind(b, kind) == if b[0].kind == kind then b else []
  {
    if b == [] {
      assert a + b == a;
    } else {
      assert (a + b)[..|a + b| - 1] == a + b[..|b| - 1];
      OfKindConcat(a, b[..|b| - 1], kind);
    }
  }

  lemma {:induction false} OfKindDistinct(rs: seq<Resource>, kind: Kind)
    requires Distinct(rs)
    ensures Distinct(OfKind(rs, kind))
  {
    if rs != [] {
      var init, last := rs[..|rs| - 1], rs[|rs| - 1];
      OfKindDistinct(init, kind);
      OfKindMembers(init, kind);
      forall r | r in OfKind(init, kind)
        ensures r.Id() != last.Id()
      {
        assert r in init;
      }
    }
  }
}
