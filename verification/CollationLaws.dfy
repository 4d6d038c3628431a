/**
 What the collation order of values is, type by type: which of two values comes first, said without the comparison
 function (value/value.go:103-113, value/float.go, value/string.go, value/array.go, value/object.go, value/binary.go).
 */
module CollationLaws {
  import opened Collation

  /** Numbers are ordered by size, and false comes before true. */
  lemma {:induction false} ScalarsBySize(x: real, y: real)
    ensures Collate(Number(x), Number(y)) < 0 <==> x < y
    ensures Collate(Number(x), Number(y)) == 0 <==> x == y
    ensures Collate(Boolean(false), Boolean(true)) < 0
    ensures Collate(Boolean(true), Boolean(true)) == 0 && Collate(Boolean(false), Boolean(false)) == 0
  {
  }

  /** Missing, null, booleans, numbers, strings, arrays, objects, binaries, in this order. */
  lemma {:induction false} TypesInOrder(a: Value, b: Value)
    ensures a.Missing? && !b.Missing? ==> Collate(a, b) < 0
    ensures a.Null? && !b.Missing? && !b.Null? ==> Collate(a, b) < 0
    ensures a.Boolean? && (b.Number? || b.String? || b.Array? || b.Object? || b.Binary?) ==> Collate(a, b) < 0
    ensures a.Number? && (b.String? || b.Array? || b.Object? || b.Binary?) ==> Collate(a, b) < 0
    ensures a.String? && (b.Array? || b.Object? || b.Binary?) ==> Collate(a, b) < 0
    ensures a.Array? && (b.Object? || b.Binary?) ==> Collate(a, b) < 0
    ensures a.Object? && b.Binary? ==> Collate(a, b) < 0
    ensures a == b ==> Collate(a, b) == 0
  {
    if a == b {
      CollateIsReflexive(a);
    }
  }

  /** A text comes first exactly if it is a proper prefix, or is smaller at the first difference. */
  lemma {:induction false} TextsByFirstDifference(s: string, t: string)
    ensures TextCollate(s, t) < 0 <==> s < t || exists k :: 0 <= k < |s| && k < |t| && s[..k] == t[..k] && s[k] < t[k]
    ensures TextCollate(s, t) == 0 <==> s == t
  {
    TextCollateOfTwo(s, t);
    if s != [] && t != [] && s[0] == t[0] {
      var s', t' := s[1..], t[1..];
      TextsByFirstDifference(s', t');
      assert s == [s[0]] + s' && t == [s[0]] + t';
      if k :| 0 <= k < |s'| && k < |t'| && s'[..k] == t'[..k] && s'[k] < t'[k] {
        assert s[..k + 1] == [s[0]] + s'[..k] && t[..k + 1] == [s[0]] + t'[..k];
        assert s[k + 1] < t[k + 1];
      }
      if k :| 0 <= k < |s| && k < |t| && s[..k] == t[..k] && s[k] < t[k] {
        assert k > 0 && s'[..k - 1] == s[..k][1..] && t'[..k - 1] == t[..k][1..];
        assert s'[k - 1] < t'[k - 1];
      }
    } else if s != [] && t != [] {
      assert s[0] < t[0] ==> s[..0] == t[..0] && s[0] < t[0];
      assert forall k :: 0 < k < |s| && k < |t| ==> s[..k][0] == s[0] && t[..k][0] == t[0];
    }
  }

  lemma {:induction false} StringsAndBinaries(s: string, t: string)
    ensures Collate(String(s), String(t)) < 0 <==> s < t || exists k :: 0 <= k < |s| && k < |t| && s[..k] == t[..k] && s[k] < t[k]
    ensures Collate(Binary(s), Binary(t)) < 0 <==> s < t || exists k :: 0 <= k < |s| && k < |t| && s[..k] == t[..k] && s[k] < t[k]
    ensures (Collate(String(s), String(t)) == 0 <==> s == t) && (Collate(Binary(s), Binary(t)) == 0 <==> s == t)
  {
    TextsByFirstDifference(s, t);
  }

  /** From position `i` on, the first items that differ decide, and else the length. */
  ghost predicate ArrayFirst(a: seq<Value>, b: seq<Value>, i: nat) {
    || (exists k :: i <= k < |a| && k < |b| && Collate(a[k], b[k]) < 0 && forall j :: i <= j < k ==> Collate(a[j], b[j]) == 0)
    || (i <= |a| < |b| && forall j :: i <= j < |a| ==> Collate(a[j], b[j]) == 0)
  }

  lemma {:induction false} ArrayCollateDecides(a: Value, b: Value, i: nat)
    requires a.Array? && b.Array? && i <= |a.items| && i <= |b.items|
    ensures ArrayCollate(a, b, i) < 0 <==> ArrayFirst(a.items, b.items, i)
    decreases |a.items| - i
  {
    hide Collate;
    if i < |a.items| && i < |b.items| {
      var c := Collate(a.items[i], b.items[i]);
      ArrayCollateUnfolds(a, b, i);
      if c == 0 {
        ArrayCollateDecides(a, b, i + 1);
        LaterItems(a.items, b.items, i);
      } else {
        assert ArrayFirst(a.items, b.items, i) <==> c < 0;
      }
    } else {
      ArrayCollateEnds(a, b, i);
    }
  }

  lemma {:induction false} ArrayCollateUnfolds(a: Value, b: Value, i: nat)
    requires a.Array? && b.Array? && i < |a.items| && i < |b.items|
    ensures ArrayCollate(a, b, i) == if Collate(a.items[i], b.items[i]) != 0 then Collate(a.items[i], b.items[i]) else ArrayCollate(a, b, i + 1)
  {
  }

  lemma {:induction false} ArrayCollateEnds(a: Value, b: Value, i: nat)
    requires a.Array? && b.Array? && i <= |a.items| && i <= |b.items| && (i == |a.items| || i == |b.items|)
    ensures ArrayCollate(a, b, i) < 0 <==> |a.items| < |b.items|
  {
  }

  lemma {:induction false} LaterItems(a: seq<Value>, b: seq<Value>, i: nat)
    requires i < |a| && i < |b| && Collate(a[i], b[i]) == 0
    ensures ArrayFirst(a, b, i) <==> ArrayFirst(a, b, i + 1)
  {
    hide Collate;
    if k :| i <= k < |a| && k < |b| && Collate(a[k], b[k]) < 0 && forall j :: i <= j < k ==> Collate(a[j], b[j]) == 0 {
      assert k != i;
    }
    if k :| i + 1 <= k < |a| && k < |b| && Collate(a[k], b[k]) < 0 && forall j :: i + 1 <= j < k ==> Collate(a[j], b[j]) == 0 {
      assert forall j :: i <= j < k ==> Collate(a[j], b[j]) == 0;
    }
  }

  /** An array comes first exactly if its item does at the first difference, or it is shorter and there is none. */
  lemma {:induction false} ArraysByFirstDifference(a: seq<Value>, b: seq<Value>)
    ensures Collate(Array(a), Array(b)) < 0 <==> ArrayFirst(a, b, 0)
  {
    ArrayCollateDecides(Array(a), Array(b), 0);
  }

  /** Both have the name, with values that collate as equal, or neither has it. */
  ghost predicate SameAt(a: map<string, Value>, b: map<string, Value>, name: string) {
    (name in a <==> name in b) && (name in a && name in b ==> Collate(a[name], b[name]) == 0)
  }

  /** At the first name, in ascending order, where the objects differ, `a` has the name, and `b` has it not or has a later value. */
  ghost predicate ObjectFirst(a: map<string, Value>, b: map<string, Value>, names: set<string>) {
    exists name :: name in names && name in a && (name in b ==> Collate(a[name], b[name]) < 0)
                && forall n :: n in names && TextCollate(n, name) < 0 ==> SameAt(a, b, n)
  }

  lemma {:induction false} ObjectCollateUnfolds(a: Value, b: Value, names: set<string>)
    requires a.Object? && b.Object? && names != {}
    ensures
      var name := FirstName(names);
      ObjectCollate(a, b, names) ==
        if SameAt(a.fields, b.fields, name) then ObjectCollate(a, b, names - {name})
        else if name !in a.fields then 1
        else if name !in b.fields then -1
        else Collate(a.fields[name], b.fields[name])
  {
  }

  lemma {:induction false} ObjectCollateDecides(a: Value, b: Value, names: set<string>)
    requires a.Object? && b.Object?
    ensures ObjectCollate(a, b, names) < 0 <==> ObjectFirst(a.fields, b.fields, names)
    decreases |names|
  {
    if names != {} {
      hide Collate, ObjectCollate, TextCollate;
      var name, rest := FirstName(names), names - {FirstName(names)};
      ObjectCollateUnfolds(a, b, names);
      if SameAt(a.fields, b.fields, name) {
        ObjectCollateDecides(a, b, rest);
        LaterNames(a.fields, b.fields, names, name);
      } else {
        FirstDecides(a.fields, b.fields, names, name);
      }
    }
  }

  lemma {:induction false} LaterNames(a: map<string, Value>, b: map<string, Value>, names: set<string>, first: string)
    requires IsFirst(first, names) && SameAt(a, b, first)
    ensures ObjectFirst(a, b, names) <==> ObjectFirst(a, b, names - {first})
  {
    hide Collate, TextCollate;
    var rest := names - {first};
    if ObjectFirst(a, b, names) {
      var name :| name in names && name in a && (name in b ==> Collate(a[name], b[name]) < 0)
        && forall n :: n in names && TextCollate(n, name) < 0 ==> SameAt(a, b, n);
      assert name in rest;
    }
    if ObjectFirst(a, b, rest) {
      var name :| name in rest && name in a && (name in b ==> Collate(a[name], b[name]) < 0)
        && forall n :: n in rest && TextCollate(n, name) < 0 ==> SameAt(a, b, n);
      assert forall n :: n in names && TextCollate(n, name) < 0 ==> SameAt(a, b, n);
    }
  }

  lemma {:induction false} FirstDecides(a: map<string, Value>, b: map<string, Value>, names: set<string>, first: string)
    requires IsFirst(first, names) && !SameAt(a, b, first)
    ensures ObjectFirst(a, b, names) <==> first in a && (first in b ==> Collate(a[first], b[first]) < 0)
  {
    hide Collate;
    TextCollateIsAntisymmetric();
    forall n | n in names ensures TextCollate(n, first) >= 0 {
      TextCollateOfTwo(n, first);
    }
    if ObjectFirst(a, b, names) {
      var name :| name in names && name in a && (name in b ==> Collate(a[name], b[name]) < 0)
        && forall n :: n in names && TextCollate(n, name) < 0 ==> SameAt(a, b, n);
      TextCollateOfTwo(first, name);
      assert TextCollate(first, name) >= 0;
      assert first == name;
    }
  }

  /** An object with fewer fields comes first; else the first name where the objects differ decides. */
  lemma {:induction false} ObjectsByFirstDifference(a: map<string, Value>, b: map<string, Value>)
    ensures Collate(Object(a), Object(b)) < 0 <==> |a| < |b| || (|a| == |b| && ObjectFirst(a, b, a.Keys + b.Keys))
  {
    ObjectCollateDecides(Object(a), Object(b), a.Keys + b.Keys);
  }
}
