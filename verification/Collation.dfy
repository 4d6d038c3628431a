/**
 N1QL values and their collation order (value/value.go, value/array.go, value/object.go,
 value/string.go, value/float.go). Everything that sorts values or picks a smallest one
 relies on this order being a total preorder, which is what this module proves.
 Numbers are reals; strings and binaries are compared unit by unit.
 */
module Collation {
  import opened Sorting

  datatype Value =
    | Missing
    | Null
    | Boolean(b: bool)
    | Number(n: real)
    | String(s: string)
    | Array(items: seq<Value>)
    | Object(fields: map<string, Value>)
    | Binary(bytes: string)

  /** Position of the value's type in the type order; 7 belongs to unspecific JSON. */
  function TypeOf(v: Value): nat {
    match v
    case Missing => 0
    case Null => 1
    case Boolean(_) => 2
    case Number(_) => 3
    case String(_) => 4
    case Array(_) => 5
    case Object(_) => 6
    case Binary(_) => 8
  }

  const NULL: nat := 1

  function NumberCollate(a: real, b: real): int {
    if a < b then -1 else if a > b then 1 else 0
  }

  function TextCollate(s: string, t: string): int {
    if s == [] then (if t == [] then 0 else -1)
    else if t == [] then 1
    else if s[0] < t[0] then -1
    else if s[0] > t[0] then 1
    else TextCollate(s[1..], t[1..])
  }

  /** The order of two values: by type, then within the type. */
  function Collate(a: Value, b: Value): int
    decreases a, 1, 0
  {
    if TypeOf(a) != TypeOf(b) then TypeOf(a) - TypeOf(b)
    else
      match a
      case Boolean(x) => if x == b.b then 0 else if !x then -1 else 1
      case Number(x) => NumberCollate(x, b.n)
      case String(x) => TextCollate(x, b.s)
      case Array(x) => ArrayCollate(a, b, 0)
      case Object(x) =>
        // a longer object comes after a shorter one
        if |x| != |b.fields| then |x| - |b.fields| else ObjectCollate(a, b, x.Keys + b.fields.Keys)
      case Binary(x) => TextCollate(x, b.bytes)
      case _ => 0
  }

  /** Item by item from position `i`; the shorter array comes first. */
  function ArrayCollate(a: Value, b: Value, i: nat): int
    requires a.Array? && b.Array? && i <= |a.items|
    decreases a, 0, |a.items| - i
  {
    if i == |a.items| then |a.items| - |b.items|
    else if i >= |b.items| then 1
    else
      var c := Collate(a.items[i], b.items[i]);
      if c != 0 then c else ArrayCollate(a, b, i + 1)
  }

  /** Name by name in ascending order; an object that lacks the name comes after one that has it. */
  function ObjectCollate(a: Value, b: Value, names: set<string>): int
    requires a.Object? && b.Object?
    decreases a, 0, |names|
  {
    if names == {} then 0
    else
      var name := FirstName(names);
      var c :=
        if name !in a.fields then (if name in b.fields then 1 else 0)
        else if name !in b.fields then -1
        else Collate(a.fields[name], b.fields[name]);
      if c != 0 then c else ObjectCollate(a, b, names - {name})
  }

  /** The first name in ascending order. */
  function FirstName(names: set<string>): (name: string)
    requires names != {}
    ensures IsFirst(name, names)
  {
    FirstNameExists(names);
    TextCollateIsAntisymmetric();
    var name :| name in names && IsFirst(name, names);
    name
  }

  predicate IsFirst(name: string, names: set<string>) {
    name in names && forall n :: n in names ==> TextCollate(name, n) <= 0
  }

  // ---- Text

  lemma {:induction false} TextCollateOfTwo(s: string, t: string)
    ensures TextCollate(s, t) < 0 <==> TextCollate(t, s) > 0
    ensures TextCollate(s, t) == 0 <==> s == t
  {
    if s != [] && t != [] && s[0] == t[0] {
      TextCollateOfTwo(s[1..], t[1..]);
      assert s == [s[0]] + s[1..] && t == [t[0]] + t[1..];
    }
  }

  lemma {:induction false} TextCollateIsAntisymmetric()
    ensures forall s, t :: TextCollate(s, t) <= 0 && TextCollate(t, s) <= 0 ==> s == t
  {
    forall s, t ensures TextCollate(s, t) <= 0 && TextCollate(t, s) <= 0 ==> s == t {
      TextCollateOfTwo(s, t);
    }
  }

  lemma {:induction false} TextCollateIsTransitive(s: string, t: string, u: string)
    requires TextCollate(s, t) <= 0 && TextCollate(t, u) <= 0
    ensures TextCollate(s, u) <= 0
    ensures TextCollate(s, u) == 0 <==> TextCollate(s, t) == 0 && TextCollate(t, u) == 0
  {
    if s != [] && t != [] && u != [] && s[0] == t[0] == u[0] {
      TextCollateIsTransitive(s[1..], t[1..], u[1..]);
    }
  }

  lemma {:induction false} FirstNameExists(names: set<string>)
    requires names != {}
    ensures exists name :: name in names && IsFirst(name, names)
  {
    var x :| x in names;
    TextCollateOfTwo(x, x);
    var rest := names - {x};
    if rest == {} {
      assert names == {x};
      assert IsFirst(x, names);
    } else {
      FirstNameExists(rest);
      var y :| y in rest && IsFirst(y, rest);
      FirstOfMore(x, y, rest);
      assert rest + {x} == names;
    }
  }

  lemma {:induction false} FirstOfMore(x: string, y: string, rest: set<string>)
    requires IsFirst(y, rest)
    ensures IsFirst(if TextCollate(x, y) <= 0 then x else y, rest + {x})
  {
    TextCollateOfTwo(x, x);
    TextCollateOfTwo(x, y);
    if TextCollate(x, y) <= 0 {
      forall n | n in rest ensures TextCollate(x, n) <= 0 {
        TextCollateIsTransitive(x, y, n);
      }
    }
  }

  // ---- Names that neither object has make no difference

  lemma {:induction false} ObjectCollateOver(a: Value, b: Value, names: set<string>, more: set<string>)
    requires a.Object? && b.Object?
    requires names <= more && (a.fields.Keys + b.fields.Keys) * more <= names
    ensures ObjectCollate(a, b, names) == ObjectCollate(a, b, more)
    decreases |more|
  {
    if more != {} {
      var first := FirstName(more);
      if first in names {
        TextCollateIsAntisymmetric();
        assert FirstName(names) == first;
        ObjectCollateOver(a, b, names - {first}, more - {first});
      } else {
        ObjectCollateOver(a, b, names, more - {first});
      }
    }
  }

  // ---- A value collates equal to itself

  lemma {:induction false} CollateIsReflexive(a: Value)
    ensures Collate(a, a) == 0
    decreases a, 1, 0
  {
    match a
    case String(x) => TextCollateOfTwo(x, x);
    case Binary(x) => TextCollateOfTwo(x, x);
    case Array(_) => ArrayCollateIsReflexive(a, 0);
    case Object(x) => ObjectCollateIsReflexive(a, x.Keys + x.Keys);
    case _ =>
  }

  lemma {:induction false} ArrayCollateIsReflexive(a: Value, i: nat)
    requires a.Array? && i <= |a.items|
    ensures ArrayCollate(a, a, i) == 0
    decreases a, 0, |a.items| - i
  {
    if i < |a.items| {
      CollateIsReflexive(a.items[i]);
      ArrayCollateIsReflexive(a, i + 1);
    }
  }

  lemma {:induction false} ObjectCollateIsReflexive(a: Value, names: set<string>)
    requires a.Object?
    ensures ObjectCollate(a, a, names) == 0
    decreases a, 0, |names|
  {
    if names != {} {
      var name := FirstName(names);
      if name in a.fields { CollateIsReflexive(a.fields[name]); }
      ObjectCollateIsReflexive(a, names - {name});
    }
  }

  // ---- Swapping the two values swaps the sign

  lemma {:induction false} CollateIsAntisymmetric(a: Value, b: Value)
    ensures Collate(a, b) < 0 <==> Collate(b, a) > 0
    ensures Collate(a, b) == 0 <==> Collate(b, a) == 0
    decreases a, 1, 0
  {
    if TypeOf(a) == TypeOf(b) {
      match a
      case String(x) => TextCollateOfTwo(x, b.s); TextCollateOfTwo(b.s, x);
      case Binary(x) => TextCollateOfTwo(x, b.bytes); TextCollateOfTwo(b.bytes, x);
      case Array(_) => ArrayCollateIsAntisymmetric(a, b, 0);
      case Object(x) =>
        assert x.Keys + b.fields.Keys == b.fields.Keys + x.Keys;
        ObjectCollateIsAntisymmetric(a, b, x.Keys + b.fields.Keys);
      case _ =>
    }
  }

  lemma {:induction false} ArrayCollateIsAntisymmetric(a: Value, b: Value, i: nat)
    requires a.Array? && b.Array? && i <= |a.items| && i <= |b.items|
    ensures ArrayCollate(a, b, i) < 0 <==> ArrayCollate(b, a, i) > 0
    ensures ArrayCollate(a, b, i) == 0 <==> ArrayCollate(b, a, i) == 0
    decreases a, 0, |a.items| - i
  {
    if i < |a.items| && i < |b.items| {
      CollateIsAntisymmetric(a.items[i], b.items[i]);
      ArrayCollateIsAntisymmetric(a, b, i + 1);
    }
  }

  lemma {:induction false} ObjectCollateIsAntisymmetric(a: Value, b: Value, names: set<string>)
    requires a.Object? && b.Object?
    ensures ObjectCollate(a, b, names) < 0 <==> ObjectCollate(b, a, names) > 0
    ensures ObjectCollate(a, b, names) == 0 <==> ObjectCollate(b, a, names) == 0
    decreases a, 0, |names|
  {
    if names != {} {
      var name := FirstName(names);
      if name in a.fields && name in b.fields {
        CollateIsAntisymmetric(a.fields[name], b.fields[name]);
      }
      ObjectCollateIsAntisymmetric(a, b, names - {name});
    }
  }

  // ---- Transitivity, strict when one of the two steps is strict

  lemma {:induction false} CollateIsTransitive(a: Value, b: Value, c: Value)
    requires Collate(a, b) <= 0 && Collate(b, c) <= 0
    ensures Collate(a, c) <= 0
    ensures Collate(a, c) == 0 <==> Collate(a, b) == 0 && Collate(b, c) == 0
    decreases a, 1, 0
  {
    if TypeOf(a) == TypeOf(b) == TypeOf(c) {
      match a
      case String(x) => TextCollateIsTransitive(x, b.s, c.s);
      case Binary(x) => TextCollateIsTransitive(x, b.bytes, c.bytes);
      case Array(_) => ArrayCollateIsTransitive(a, b, c, 0);
      case Object(x) =>
        if |x| == |b.fields| == |c.fields| {
          var all := x.Keys + b.fields.Keys + c.fields.Keys;
          ObjectCollateOver(a, b, x.Keys + b.fields.Keys, all);
          ObjectCollateOver(b, c, b.fields.Keys + c.fields.Keys, all);
          ObjectCollateOver(a, c, x.Keys + c.fields.Keys, all);
          ObjectCollateIsTransitive(a, b, c, all);
        }
      case _ =>
    }
  }

  lemma {:induction false} ArrayCollateIsTransitive(a: Value, b: Value, c: Value, i: nat)
    requires a.Array? && b.Array? && c.Array? && i <= |a.items| && i <= |b.items| && i <= |c.items|
    requires ArrayCollate(a, b, i) <= 0 && ArrayCollate(b, c, i) <= 0
    ensures ArrayCollate(a, c, i) <= 0
    ensures ArrayCollate(a, c, i) == 0 <==> ArrayCollate(a, b, i) == 0 && ArrayCollate(b, c, i) == 0
    decreases a, 0, |a.items| - i
  {
    if i < |a.items| && i < |b.items| && i < |c.items| {
      CollateIsTransitive(a.items[i], b.items[i], c.items[i]);
      if Collate(a.items[i], c.items[i]) == 0 {
        ArrayCollateIsTransitive(a, b, c, i + 1);
      }
    }
  }

  lemma {:induction false} ObjectCollateIsTransitive(a: Value, b: Value, c: Value, names: set<string>)
    requires a.Object? && b.Object? && c.Object?
    requires ObjectCollate(a, b, names) <= 0 && ObjectCollate(b, c, names) <= 0
    ensures ObjectCollate(a, c, names) <= 0
    ensures ObjectCollate(a, c, names) == 0 <==> ObjectCollate(a, b, names) == 0 && ObjectCollate(b, c, names) == 0
    decreases a, 0, |names|
  {
    if names != {} {
      var name := FirstName(names);
      if name in a.fields && name in b.fields && name in c.fields {
        CollateIsTransitive(a.fields[name], b.fields[name], c.fields[name]);
        if Collate(a.fields[name], c.fields[name]) == 0 {
          ObjectCollateIsTransitive(a, b, c, names - {name});
        }
      } else if name !in a.fields && name !in b.fields && name !in c.fields {
        ObjectCollateIsTransitive(a, b, c, names - {name});
      }
    }
  }

  /** The collation order of values, nested arrays and objects included, is a total preorder. */
  lemma {:induction false} CollateIsTotal()
    ensures TotalPreorder(Collate)
  {
    forall a ensures Collate(a, a) == 0 { CollateIsReflexive(a); }
    forall a, b ensures Collate(a, b) < 0 <==> Collate(b, a) > 0 { CollateIsAntisymmetric(a, b); }
    forall a, b, c | Collate(a, b) <= 0 && Collate(b, c) <= 0 ensures Collate(a, c) <= 0 {
      CollateIsTransitive(a, b, c);
    }
  }
}
