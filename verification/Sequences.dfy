/** Facts about sequences that several parts of the model share. */
module Sequences {

  /** No element occurs twice. */
  ghost predicate NoDup<T>(s: seq<T>) {
    forall i, j :: 0 <= i < j < |s| ==> s[i] != s[j]
  }

  /** What is left of a linked list once the nodes in `d` have been unlinked; the rest keeps its order. */
  function Without<T(==, !new)>(s: seq<T>, d: set<T>): (r: seq<T>)
    ensures forall y :: y in r <==> y in s && y !in d
    ensures NoDup(s) ==> NoDup(r)
    ensures |r| <= |s|
  {
    if s == [] then []
    else
      var r := Without(s[..|s| - 1], d);
      if s[|s| - 1] in d then r else r + [s[|s| - 1]]
  }

  /** Unlinking nodes that are not on the list leaves it as it is; unlinking all empties it. */
  lemma {:induction false} WithoutBounds<T(!new)>(s: seq<T>, d: set<T>)
    ensures (forall y :: y in d ==> y !in s) ==> Without(s, d) == s
    ensures (forall y :: y in s ==> y in d) ==> Without(s, d) == []
  {
    if s != [] {
      WithoutBounds(s[..|s| - 1], d);
      assert s == s[..|s| - 1] + [s[|s| - 1]];
    }
  }

  lemma {:induction false} WithoutTwice<T(!new)>(s: seq<T>, a: set<T>, b: set<T>)
    ensures Without(Without(s, a), b) == Without(s, a + b)
  {
    if s != [] {
      var front := s[..|s| - 1];
      WithoutTwice(front, a, b);
      if s[|s| - 1] !in a {
        var r := Without(front, a);
        assert (r + [s[|s| - 1]])[..|r|] == r;
      }
    }
  }

  lemma WithoutLast<T(!new)>(front: seq<T>, x: T, d: set<T>)
    ensures Without(front + [x], d) == Without(front, d) + if x in d then [] else [x]
  {
    assert (front + [x])[..|front|] == front;
  }

  lemma {:induction false} WithoutShorter<T(!new)>(s: seq<T>, x: T)
    requires x in s
    ensures |Without(s, {x})| < |s|
  {
    if s[|s| - 1] != x {
      WithoutShorter(s[..|s| - 1], x);
    }
  }

  lemma {:induction false} WithoutConcat<T(!new)>(a: seq<T>, b: seq<T>, d: set<T>)
    ensures Without(a + b, d) == Without(a, d) + Without(b, d)
  {
    if b == [] {
      assert a + b == a;
    } else {
      assert (a + b)[..|a + b| - 1] == a + b[..|b| - 1];
      WithoutConcat(a, b[..|b| - 1], d);
    }
  }

  lemma WithoutMiddle<T(!new)>(a: seq<T>, x: T, b: seq<T>)
    requires x !in a && x !in b
    ensures Without(a + ([x] + b), {x}) == a + b
  {
    hide Without;
    WithoutBounds([x], {x});
    WithoutBounds(a, {x});
    WithoutBounds(b, {x});
    WithoutConcat(a, [x] + b, {x});
    WithoutConcat([x], b, {x});
    assert [] + b == b;
  }

  lemma Apart<T>(s: seq<T>, i: nat)
    requires i < |s| && NoDup(s)
    ensures s[i] !in s[..i] && s[i] !in s[i + 1..] && s == s[..i] + ([s[i]] + s[i + 1..])
  {
    var a, b := s[..i], s[i + 1..];
    forall j | 0 <= j < |a|
      ensures a[j] != s[i]
    {
    }
    forall j | 0 <= j < |b|
      ensures b[j] != s[i]
    {
      assert b[j] == s[i + 1 + j];
    }
  }

  /** Unlinking the node at `i` closes the gap. */
  lemma WithoutIndex<T(!new)>(s: seq<T>, i: nat)
    requires i < |s| && NoDup(s)
    ensures Without(s, {s[i]}) == s[..i] + s[i + 1..]
  {
    hide Without, NoDup;
    var a, x, b := s[..i], s[i], s[i + 1..];
    Apart(s, i);
    WithoutMiddle(a, x, b);
  }

  lemma {:induction false} CountOnce<T>(s: seq<T>, x: T)
    requires NoDup(s)
    ensures multiset(s)[x] <= 1
  {
    if s != [] {
      var front, last := s[..|s| - 1], s[|s| - 1];
      assert s == front + [last];
      CountOnce(front, x);
      assert last !in front;
    }
  }

  lemma {:induction false} WithoutAtMostOne<T(!new)>(s: seq<T>, x: T)
    requires NoDup(s)
    ensures |s| <= |Without(s, {x})| + 1
  {
    if s != [] {
      if s[|s| - 1] == x {
        WithoutBounds(s[..|s| - 1], {x});
      } else {
        WithoutAtMostOne(s[..|s| - 1], x);
      }
    }
  }
}
