/** First-occurrence deduplication, picking elements in order, and how concatenation associates. */
module Sequences {
  import opened Wrappers

  /** The elements of `s`, each once, in the order of their first occurrence. */
  function Distinct<T(==,!new)>(s: seq<T>): (r: seq<T>)
    ensures forall x :: x in r <==> x in s
  {
    if s == [] then []
    else
      var r := Distinct(s[..|s| - 1]);
      if s[|s| - 1] in r then r else r + [s[|s| - 1]]
  }

  ghost predicate NoDuplicates<T>(s: seq<T>) {
    forall i, j :: 0 <= i < j < |s| ==> s[i] != s[j]
  }

  /** Where `x` first occurs. */
  ghost function FirstIndex<T>(s: seq<T>, x: T): (i: nat)
    requires x in s
    ensures i < |s| && s[i] == x && forall j :: 0 <= j < i ==> s[j] != x
  {
    if s[0] == x then 0 else 1 + FirstIndex(s[1..], x)
  }

  lemma FirstIndexIs<T(!new)>(s: seq<T>, x: T, i: nat)
    requires i < |s| && s[i] == x && forall j :: 0 <= j < i ==> s[j] != x
    ensures FirstIndex(s, x) == i
  {
    assert s[FirstIndex(s, x)] == x;
  }

  lemma FirstIndexInPrefix<T(!new)>(s: seq<T>, x: T)
    requires s != [] && x in s[..|s| - 1]
    ensures x in s && FirstIndex(s, x) == FirstIndex(s[..|s| - 1], x) < |s| - 1
  {
    var init := s[..|s| - 1];
    var i := FirstIndex(init, x);
    assert forall j :: 0 <= j < i ==> s[j] == init[j];
    FirstIndexIs(s, x, i);
  }

  lemma {:induction false} DistinctIsFirstOccurrences<T(!new)>(s: seq<T>)
    ensures NoDuplicates(Distinct(s))
    ensures forall i, j :: 0 <= i < j < |Distinct(s)| ==> FirstIndex(s, Distinct(s)[i]) < FirstIndex(s, Distinct(s)[j])
  {
    if s != [] {
      var init, last := s[..|s| - 1], s[|s| - 1];
      var r := Distinct(init);
      DistinctIsFirstOccurrences(init);
      forall i | 0 <= i < |r|
        ensures r[i] in s && r[i] in init && FirstIndex(s, r[i]) == FirstIndex(init, r[i]) < |init|
      {
        assert r[i] in r;
        FirstIndexInPrefix(s, r[i]);
      }
      if last !in r {
        FirstIndexIs(s, last, |init|);
      }
    }
  }

  lemma DistinctAppendOne<T(!new)>(s: seq<T>, x: T)
    ensures Distinct(s + [x]) == if x in Distinct(s) then Distinct(s) else Distinct(s) + [x]
  {
    assert (s + [x])[..|s|] == s;
  }

  /** `picks` are some of the first `n` indices, each once and in order. */
  ghost predicate IsPick(picks: seq<nat>, n: nat) {
    (forall k :: 0 <= k < |picks| ==> picks[k] < n) && forall j, k :: 0 <= j < k < |picks| ==> picks[j] < picks[k]
  }

  /** What `f` makes of the elements for which it has a value, in order. */
  function Somes<T, U>(f: T -> Option<U>, s: seq<T>): seq<U> {
    if s == [] then []
    else
      var init, last := Somes(f, s[..|s| - 1]), f(s[|s| - 1]);
      if last.Some? then init + [last.value] else init
  }

  function Each<T, U>(f: T -> Option<U>, s: seq<T>): seq<Option<U>> {
    seq(|s|, n requires 0 <= n < |s| => f(s[n]))
  }

  /** `all` are the values of `found`, each once and in order; `picks` says where they are. */
  ghost predicate Picks<U>(picks: seq<nat>, found: seq<Option<U>>, all: seq<U>) {
    && IsPick(picks, |found|) && |picks| == |all|
    && (forall n :: 0 <= n < |found| ==> (n in picks <==> found[n].Some?))
    && forall k :: 0 <= k < |picks| ==> found[picks[k]] == Some(all[k])
  }

  lemma PicksOneMore<U>(picks: seq<nat>, found: seq<Option<U>>, all: seq<U>, f: Option<U>)
    requires Picks(picks, found, all)
    ensures if f.Some? then Picks(picks + [|found|], found + [f], all + [f.value]) else Picks(picks, found + [f], all)
  {
  }

  lemma {:induction false} SomesArePicked<T, U>(f: T -> Option<U>, s: seq<T>) returns (picks: seq<nat>)
    ensures Picks(picks, Each(f, s), Somes(f, s))
  {
    picks := [];
    if s != [] {
      var n := |s| - 1;
      picks := SomesArePicked(f, s[..n]);
      PicksOneMore(picks, Each(f, s[..n]), Somes(f, s[..n]), f(s[n]));
      assert Each(f, s) == Each(f, s[..n]) + [f(s[n])];
      if f(s[n]).Some? {
        picks := picks + [n];
      }
    }
  }

  lemma Joined<T>(a: seq<T>, b: seq<T>, c: seq<T>)
    ensures (a + b) + c == a + (b + c)
    ensures a + [] == a
  {
  }
}
