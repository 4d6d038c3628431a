/**
 The result signature of UNION and UNION ALL (algebra/set_op.go): the signatures of the two sides
 are merged pairwise up the tree. The outcome depends only on the set of signatures at the leaves.
 */
module Signatures {

  /** A type name, or an object with a signature per field. */
  datatype Signature = Scalar(kind: string) | Object(fields: map<string, Signature>)

  const JSON: Signature := Scalar("json")

  datatype Tree = Leaf(sig: Signature) | Union(first: Tree, second: Tree)

  function MergeField(f: Signature, g: Signature): Signature {
    if f == g then f else JSON
  }

  function MergeFields(m: map<string, Signature>, n: map<string, Signature>): map<string, Signature> {
    map k | k in m.Keys + n.Keys ::
      if k !in n then m[k] else if k !in m then n[k] else MergeField(m[k], n[k])
  }

  /** The signature of a union of two sides. */
  function Merge(first: Signature, second: Signature): Signature {
    if first == second then first
    else if !first.Object? || !second.Object? then JSON
    else Object(MergeFields(first.fields, second.fields))
  }

  function SignatureOf(t: Tree): Signature {
    match t
    case Leaf(sig) => sig
    case Union(first, second) => Merge(SignatureOf(first), SignatureOf(second))
  }

  /** `unionSubresult.Signature`, which updates a copy of the first side field by field. */
  method ComputeSignature(t: Tree) returns (r: Signature)
    ensures r == SignatureOf(t)
  {
    match t
    case Leaf(sig) => r := sig;
    case Union(left, right) =>
      var first := ComputeSignature(left);
      var second := ComputeSignature(right);
      if first == second {
        return first;
      }
      if !first.Object? || !second.Object? {
        return JSON;
      }
      var rv, sa := first.fields, second.fields;
      var todo := sa.Keys;
      while todo != {}
        invariant todo <= sa.Keys && rv.Keys == first.fields.Keys + (sa.Keys - todo)
        invariant forall k :: k in rv && (k !in sa || k in todo) ==> k in first.fields && rv[k] == first.fields[k]
        invariant forall k :: k in rv && k in sa && k !in todo ==> rv[k] == MergeFields(first.fields, sa)[k]
        decreases todo
      {
        var k :| k in todo;
        if k in rv {
          if rv[k] != sa[k] {
            rv := rv[k := JSON];
          }
        } else {
          rv := rv[k := sa[k]];
        }
        todo := todo - {k};
      }
      assert rv == MergeFields(first.fields, sa);
      r := Object(rv);
  }

  // ---- The outcome in terms of the set of leaves

  function Leaves(t: Tree): (s: set<Signature>)
    ensures s != {}
  {
    match t
    case Leaf(sig) => {sig}
    case Union(first, second) =>
      assert Leaves(first) + Leaves(second) >= Leaves(first);
      Leaves(first) + Leaves(second)
  }

  ghost predicate AllObjects(s: set<Signature>) {
    forall x :: x in s ==> x.Object?
  }

  ghost predicate HasField(s: set<Signature>, k: string) {
    exists x :: x in s && x.Object? && k in x.fields
  }

  /** Every object with this field gives it the same signature. */
  ghost predicate Agree(s: set<Signature>, k: string, v: Signature) {
    forall x :: x in s && x.Object? && k in x.fields ==> x.fields[k] == v
  }

  /** The agreed signature of a field, or json where the objects differ. */
  ghost function FieldOf(s: set<Signature>, k: string): Signature {
    if v :| Agree(s, k, v) then v else JSON
  }

  ghost function FieldsOf(s: set<Signature>): map<string, Signature> {
    map k | k in (set x, k | x in s && x.Object? && k in x.fields.Keys :: k) :: FieldOf(s, k)
  }

  /** Objects are merged field by field; a set of scalars, or a mixed one, is json unless it has a single member. */
  ghost function Combined(s: set<Signature>): Signature
    requires s != {}
  {
    if AllObjects(s) then Object(FieldsOf(s))
    else if x :| s == {x} then x
    else JSON
  }

  lemma {:induction false} FieldIsAgreed(s: set<Signature>, k: string, v: Signature)
    requires HasField(s, k) && Agree(s, k, v)
    ensures FieldOf(s, k) == v
  {
  }

  lemma {:induction false} FieldOfUnion(s: set<Signature>, t: set<Signature>, k: string)
    requires HasField(s, k)
    ensures HasField(t, k) ==> FieldOf(s + t, k) == MergeField(FieldOf(s, k), FieldOf(t, k))
    ensures !HasField(t, k) ==> FieldOf(s + t, k) == FieldOf(s, k)
  {
    assert HasField(s + t, k);
    if v :| Agree(s + t, k, v) {
      FieldIsAgreed(s + t, k, v);
      FieldIsAgreed(s, k, v);
      if HasField(t, k) {
        FieldIsAgreed(t, k, v);
      }
    } else if HasField(t, k) {
      if FieldOf(s, k) == FieldOf(t, k) && FieldOf(s, k) != JSON {
        assert Agree(s + t, k, FieldOf(s, k));
      }
    } else if v :| Agree(s, k, v) {
      assert Agree(s + t, k, v);
    }
  }

  lemma {:induction false} FieldsOfUnion(s: set<Signature>, t: set<Signature>)
    ensures FieldsOf(s + t) == MergeFields(FieldsOf(s), FieldsOf(t))
  {
    forall k ensures k in FieldsOf(s) <==> HasField(s, k) {}
    forall k ensures k in FieldsOf(t) <==> HasField(t, k) {}
    forall k ensures k in FieldsOf(s + t) <==> HasField(s, k) || HasField(t, k) {}
    assert s + t == t + s;
    forall k | k in FieldsOf(s + t) ensures FieldsOf(s + t)[k] == MergeFields(FieldsOf(s), FieldsOf(t))[k] {
      if HasField(s, k) {
        FieldOfUnion(s, t, k);
      } else {
        FieldOfUnion(t, s, k);
      }
    }
  }

  lemma {:induction false} CombinedOfOne(x: Signature)
    ensures Combined({x}) == x
  {
    if x.Object? {
      forall k | k in x.fields ensures FieldsOf({x})[k] == x.fields[k] {
        FieldIsAgreed({x}, k, x.fields[k]);
      }
      assert FieldsOf({x}) == x.fields;
    }
  }

  lemma {:induction false} MergeOfFields(m: map<string, Signature>, n: map<string, Signature>)
    ensures Merge(Object(m), Object(n)) == Object(MergeFields(m, n))
  {
    assert MergeFields(m, m) == m;
  }

  /** A set that is not all objects combines to a scalar, or to its only member. */
  lemma {:induction false} CombinedScalar(s: set<Signature>)
    requires s != {} && !AllObjects(s)
    ensures !Combined(s).Object? && (Combined(s) != JSON ==> s == {Combined(s)})
  {
  }

  /** Merging two sides combines their sets of leaves. */
  lemma {:induction false} MergeCombines(s: set<Signature>, t: set<Signature>)
    requires s != {} && t != {}
    ensures s + t != {} && Merge(Combined(s), Combined(t)) == Combined(s + t)
  {
    assert s + t >= s && s + t >= t;
    if AllObjects(s) && AllObjects(t) {
      FieldsOfUnion(s, t);
      MergeOfFields(FieldsOf(s), FieldsOf(t));
    } else if x :| s + t == {x} {
      assert s == {x} && t == {x};
    } else {
      if !AllObjects(s) { CombinedScalar(s); }
      if !AllObjects(t) { CombinedScalar(t); }
    }
  }

  /** The signature of a tree of unions depends only on the set of leaf signatures. */
  lemma {:induction false} SignatureIsCombined(t: Tree)
    ensures SignatureOf(t) == Combined(Leaves(t))
  {
    match t
    case Leaf(sig) => CombinedOfOne(sig);
    case Union(first, second) =>
      SignatureIsCombined(first);
      SignatureIsCombined(second);
      MergeCombines(Leaves(first), Leaves(second));
  }

  lemma {:induction false} SameLeavesSameSignature(t: Tree, u: Tree)
    requires Leaves(t) == Leaves(u)
    ensures SignatureOf(t) == SignatureOf(u)
  {
    SignatureIsCombined(t);
    SignatureIsCombined(u);
  }

  /** The merge is a semilattice: commutative, associative and idempotent, with json on top. */
  lemma {:induction false} MergeIsASemilattice(a: Signature, b: Signature, c: Signature)
    ensures Merge(a, b) == Merge(b, a)
    ensures Merge(Merge(a, b), c) == Merge(a, Merge(b, c))
    ensures Merge(a, a) == a && Merge(JSON, a) == JSON
  {
    SameLeavesSameSignature(Union(Leaf(a), Leaf(b)), Union(Leaf(b), Leaf(a)));
    var left := Union(Union(Leaf(a), Leaf(b)), Leaf(c));
    var right := Union(Leaf(a), Union(Leaf(b), Leaf(c)));
    assert Leaves(left) == Leaves(right);
    SameLeavesSameSignature(left, right);
  }
}
