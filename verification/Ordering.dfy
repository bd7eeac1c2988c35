/**
 Go's order on strings: byte by byte, a proper prefix first. File names, database texts and
 version suffixes are all compared this way.
 */
module Ordering {

  /** `strings.Compare`: -1, 0 or 1. */
  function Compare(a: string, b: string): (c: int)
    ensures -1 <= c <= 1
  {
    if a == [] then (if b == [] then 0 else -1)
    else if b == [] then 1
    else if a[0] < b[0] then -1
    else if a[0] > b[0] then 1
    else Compare(a[1..], b[1..])
  }

  predicate Less(a: string, b: string) {
    Compare(a, b) < 0
  }

  /** The strings are equal up to position k, where the first ends, or has the smaller byte. */
  predicate LessAt(a: string, b: string, k: nat) {
    && k <= |a| && k < |b| && a[..k] == b[..k]
    && (k < |a| ==> a[k] < b[k])
  }

  /** Which way round the order is: a smaller byte at the first difference, or a proper prefix, is less. */
  lemma {:induction false} LessIff(a: string, b: string)
    ensures Less(a, b) <==> exists k: nat :: LessAt(a, b, k)
  {
    forall k: nat | LessAt(a, b, k) && k > 0 ensures a[0] == b[0] {
      assert a[..k][0] == b[..k][0];
    }
    if a != [] && b != [] && a[0] == b[0] {
      LessIff(a[1..], b[1..]);
      if k: nat :| LessAt(a[1..], b[1..], k) {
        assert a[..k + 1] == [a[0]] + a[1..][..k] && b[..k + 1] == [b[0]] + b[1..][..k];
        assert LessAt(a, b, k + 1);
      }
      if k: nat :| LessAt(a, b, k) {
        assert k > 0;
        assert a[1..][..k - 1] == a[..k][1..] && b[1..][..k - 1] == b[..k][1..];
        assert LessAt(a[1..], b[1..], k - 1);
      }
    } else if Less(a, b) {
      assert LessAt(a, b, 0);
    }
  }

  lemma {:induction false} CompareIsAntisymmetric(a: string, b: string)
    ensures Compare(b, a) == -Compare(a, b)
  {
    if a != [] && b != [] && a[0] == b[0] {
      CompareIsAntisymmetric(a[1..], b[1..]);
    }
  }

  lemma {:induction false} CompareZero(a: string, b: string)
    ensures Compare(a, b) == 0 <==> a == b
  {
    if a != [] && b != [] && a[0] == b[0] {
      CompareZero(a[1..], b[1..]);
      assert a == [a[0]] + a[1..] && b == [b[0]] + b[1..];
    }
  }

  lemma {:induction false} CompareIsTransitive(a: string, b: string, c: string)
    requires Compare(a, b) <= 0 && Compare(b, c) <= 0
    ensures Compare(a, c) <= 0
    ensures Compare(a, b) < 0 || Compare(b, c) < 0 ==> Compare(a, c) < 0
  {
    if a != [] && b != [] && c != [] && a[0] == b[0] == c[0] {
      CompareIsTransitive(a[1..], b[1..], c[1..]);
    }
  }

  /** In ascending order, without repeats. */
  ghost predicate Ascending(names: seq<string>) {
    forall i, j | 0 <= i < j < |names| :: Less(names[i], names[j])
  }

  lemma AscendingIsDistinct(names: seq<string>, i: nat, j: nat)
    requires Ascending(names) && i < j < |names|
    ensures names[i] != names[j]
  {
    CompareZero(names[i], names[j]);
  }

  /** No name twice. */
  predicate Distinct(names: seq<string>) {
    forall i, j | 0 <= i < j < |names| :: names[i] != names[j]
  }

  function Insert(names: seq<string>, name: string): (r: seq<string>)
    ensures forall n :: n in r <==> n in names || n == name
  {
    if names == [] then [name]
    else if Less(name, names[0]) then [name] + names
    else [names[0]] + Insert(names[1..], name)
  }

  /** `sort.Strings`. */
  function Sort(names: seq<string>): (r: seq<string>)
    ensures forall n :: n in r <==> n in names
  {
    if names == [] then [] else Insert(Sort(names[1..]), names[0])
  }

  lemma {:induction false} InsertAscends(names: seq<string>, name: string)
    requires Ascending(names) && name !in names
    ensures Ascending(Insert(names, name))
  {
    if names != [] {
      if Less(name, names[0]) {
        forall j | 0 < j < |names| ensures Less(name, names[j]) {
          CompareIsTransitive(name, names[0], names[j]);
        }
      } else {
        CompareIsAntisymmetric(name, names[0]);
        CompareZero(name, names[0]);
        var rest := Insert(names[1..], name);
        InsertAscends(names[1..], name);
        forall j | 0 <= j < |rest| ensures Less(names[0], rest[j]) {
          assert rest[j] in rest;
          if rest[j] != name {
            var i :| 0 <= i < |names[1..]| && names[1..][i] == rest[j];
          }
        }
      }
    }
  }

  lemma {:induction false} SortAscends(names: seq<string>)
    requires Distinct(names)
    ensures Ascending(Sort(names))
  {
    if names != [] {
      SortAscends(names[1..]);
      InsertAscends(Sort(names[1..]), names[0]);
    }
  }

  /** There is one ascending list of given names: order of discovery does not matter. */
  lemma {:induction false} AscendingIsUnique(a: seq<string>, b: seq<string>)
    requires Ascending(a) && Ascending(b) && forall name :: name in a <==> name in b
    ensures a == b
  {
    BothEmpty(a, b);
    if a != [] {
      assert a[0] in a;
      LeastFirst(b, a[0]);
      LeastFirst(a, b[0]);
      CompareIsAntisymmetric(a[0], b[0]);
      CompareZero(a[0], b[0]);
      forall name ensures name in a[1..] <==> name in b[1..] {
        CompareZero(a[0], a[0]);
        if name in a[1..] {
          assert name in a && Less(a[0], name);
        }
        if name in b[1..] {
          assert name in b && Less(b[0], name);
        }
      }
      AscendingIsUnique(a[1..], b[1..]);
      assert a == [a[0]] + a[1..] && b == [b[0]] + b[1..];
    }
  }

  lemma BothEmpty(a: seq<string>, b: seq<string>)
    requires forall name :: name in a <==> name in b
    ensures a == [] <==> b == []
  {
    if a != [] {
      assert a[0] in b;
    }
    if b != [] {
      assert b[0] in a;
    }
  }

  lemma LeastFirst(names: seq<string>, name: string)
    requires Ascending(names) && name in names && |names| > 0
    ensures Compare(names[0], name) <= 0
  {
    var i :| 0 <= i < |names| && names[i] == name;
    CompareZero(names[0], names[0]);
  }
}
