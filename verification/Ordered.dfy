/** Numeric keys in ascending order, as the source sorts the entries of a Map. */
module Ordered {

  ghost predicate Ascending(r: seq<int>) {
    forall i, j :: 0 <= i < j < |r| ==> r[i] < r[j]
  }

  function Insert(keys: seq<int>, k: int): seq<int> {
    if keys == [] || k < keys[0] then [k] + keys
    else if k == keys[0] then keys
    else [keys[0]] + Insert(keys[1..], k)
  }

  lemma {:induction false} InsertMember(keys: seq<int>, k: int, x: int)
    ensures x in Insert(keys, k) <==> x == k || x in keys
  {
    if keys != [] && k > keys[0] {
      InsertMember(keys[1..], k, x);
      assert x in keys <==> x == keys[0] || x in keys[1..];
    }
  }

  lemma {:induction false} InsertAscending(keys: seq<int>, k: int)
    requires Ascending(keys)
    ensures Ascending(Insert(keys, k))
  {
    if keys != [] && k > keys[0] {
      var rest := Insert(keys[1..], k);
      InsertAscending(keys[1..], k);
      forall i | 0 <= i < |rest| ensures keys[0] < rest[i] {
        var x := rest[i];
        assert x in rest;
        InsertMember(keys[1..], k, x);
      }
    }
  }

  /** The distinct keys of a Map, sorted by `(a, b) => a - b`. */
  function Sorted(keys: seq<int>): (r: seq<int>)
    ensures Ascending(r)
    ensures forall x :: x in r <==> x in keys
  {
    if keys == [] then []
    else
      var rest := Sorted(keys[1..]);
      SortedNext(keys, rest);
      Insert(rest, keys[0])
  }

  lemma SortedNext(keys: seq<int>, rest: seq<int>)
    requires keys != [] && Ascending(rest) && forall x :: x in rest <==> x in keys[1..]
    ensures Ascending(Insert(rest, keys[0])) && forall x :: x in Insert(rest, keys[0]) <==> x in keys
  {
    hide Insert;
    InsertAscending(rest, keys[0]);
    forall x ensures x in Insert(rest, keys[0]) <==> x in keys {
      InsertMember(rest, keys[0], x);
      assert x in keys <==> x == keys[0] || x in keys[1..];
    }
  }

  lemma {:induction false} AscendingUnique(a: seq<int>, b: seq<int>)
    requires Ascending(a) && Ascending(b)
    requires forall x :: x in a <==> x in b
    ensures a == b
  {
    if a != [] { var x := a[0]; assert x in a; assert |b| > 0; }
    if b != [] { var y := b[0]; assert y in b; assert |a| > 0; }
    if a != [] {
      var x, y := a[0], b[0];
      assert x in a && x in b && y in b && y in a;
      assert x == y;
      forall z ensures z in a[1..] <==> z in b[1..] {
        assert z in a <==> z == a[0] || z in a[1..];
        assert z in b <==> z == b[0] || z in b[1..];
      }
      AscendingUnique(a[1..], b[1..]);
    }
  }
}
