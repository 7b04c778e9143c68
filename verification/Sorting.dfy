/** Strictly ascending sequences: a strict total order leaves only one way to sort. */
module Sorting {
  import opened Wrappers

  ghost predicate StrictTotalOrder<T(!new)>(less: (T, T) -> bool) {
    && (forall a :: !less(a, a))
    && (forall a, b, c :: less(a, b) && less(b, c) ==> less(a, c))
    && (forall a, b :: a != b ==> less(a, b) || less(b, a))
  }

  ghost predicate Ascending<T>(less: (T, T) -> bool, s: seq<T>) {
    forall i, j :: 0 <= i < j < |s| ==> less(s[i], s[j])
  }

  /** Two ascending sequences with the same elements are the same sequence. */
  lemma {:induction false} AscendingIsUnique<T(!new)>(less: (T, T) -> bool, a: seq<T>, b: seq<T>)
    requires StrictTotalOrder(less) && Ascending(less, a) && Ascending(less, b)
    requires forall x :: x in a <==> x in b
    ensures a == b
    decreases |a|
  {
    if a == [] {
      assert forall i :: 0 <= i < |b| ==> b[i] in a;
    } else {
      assert a[0] in a && a[0] in b;
      assert b[0] in b && b[0] in a;
      assert a[0] == b[0];
      forall x
        ensures x in a[1..] <==> x in b[1..]
      {
        assert x in a[1..] <==> x in a && x != a[0] by {
          if x in a && x != a[0] {
            var i :| 0 <= i < |a| && a[i] == x;
            assert a[1..][i - 1] == x;
          }
        }
        assert x in b[1..] <==> x in b && x != b[0] by {
          if x in b && x != b[0] {
            var i :| 0 <= i < |b| && b[i] == x;
            assert b[1..][i - 1] == x;
          }
        }
      }
      AscendingIsUnique(less, a[1..], b[1..]);
    }
  }

  /** Every finite set has an ascending listing. */
  lemma {:induction false} AscendingExists<T(!new)>(less: (T, T) -> bool, xs: set<T>)
    requires StrictTotalOrder(less)
    ensures exists s: seq<T> :: Ascending(less, s) && forall x :: x in s <==> x in xs
  {
    if xs == {} {
      assert Ascending(less, []);
    } else {
      var x :| x in xs;
      AscendingExists(less, xs - {x});
      var s: seq<T> :| Ascending(less, s) && forall y :: y in s <==> y in xs - {x};
      var r := InsertAscending(less, s, x);
      assert Ascending(less, r) && forall y :: y in r <==> y in xs;
    }
  }

  lemma {:induction false} InsertAscending<T(!new)>(less: (T, T) -> bool, s: seq<T>, x: T) returns (r: seq<T>)
    requires StrictTotalOrder(less) && Ascending(less, s) && x !in s
    ensures Ascending(less, r) && forall y :: y in r <==> y == x || y in s
  {
    if s == [] || less(x, s[0]) {
      r := [x] + s;
    } else {
      var rest := InsertAscending(less, s[1..], x);
      r := [s[0]] + rest;
      assert forall y :: y in s <==> y == s[0] || y in s[1..];
      forall j | 0 < j < |r|
        ensures less(r[0], r[j])
      {
        assert r[j] in rest;
      }
    }
  }

  // ---- Text columns ----

  /** How the database compares and lower-cases text. */
  datatype Collation = Collation(before: (string, string) -> bool, lower: string -> string)

  /** Ascending order of a column that may be NULL: NULLs come last. */
  predicate NullsLast(c: Collation, a: Option<string>, b: Option<string>) {
    a.Some? && (b.None? || c.before(a.value, b.value))
  }

  // ---- Strings ----

  /** Go's and PostgreSQL's byte order on strings. */
  predicate Before(a: string, b: string) {
    if b == [] then false
    else if a == [] then true
    else a[0] < b[0] || (a[0] == b[0] && Before(a[1..], b[1..]))
  }

  lemma {:induction false} BeforeTransitive(a: string, b: string, c: string)
    requires Before(a, b) && Before(b, c)
    ensures Before(a, c)
  {
    if a != [] && a[0] == b[0] && b[0] == c[0] {
      BeforeTransitive(a[1..], b[1..], c[1..]);
    }
  }

  lemma {:induction false} BeforeTotal(a: string, b: string)
    ensures !Before(a, a)
    ensures a != b ==> Before(a, b) || Before(b, a)
  {
    if a != [] {
      BeforeTotal(a[1..], if b == [] then [] else b[1..]);
    }
    if a != [] && b != [] && a[0] == b[0] && a[1..] == b[1..] {
      assert a == [a[0]] + a[1..] == [b[0]] + b[1..] == b;
    }
  }

  lemma BeforeIsStrictTotalOrder()
    ensures StrictTotalOrder(Before)
  {
    forall a, b, c | Before(a, b) && Before(b, c) { BeforeTransitive(a, b, c); }
    forall a, b { BeforeTotal(a, b); }
  }
}
