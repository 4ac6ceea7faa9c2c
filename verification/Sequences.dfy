/** Facts on sequences that several models need. */
module Sequences {

  lemma {:induction false} OccursOnce<T>(a: seq<T>, x: T)
    requires forall i, j :: 0 <= i < j < |a| ==> a[i] != a[j]
    ensures multiset(a)[x] == if x in a then 1 else 0
  {
    if a != [] {
      assert a == [a[0]] + a[1..];
      OccursOnce(a[1..], x);
    }
  }

  ghost predicate AtMostOne<T>(s: seq<T>, p: T -> bool) {
    forall i, j :: 0 <= i < j < |s| ==> !(p(s[i]) && p(s[j]))
  }

  lemma {:induction false} CountsAtMostOne<T>(s: seq<T>, p: T -> bool, x: T)
    requires AtMostOne(s, p) && p(x)
    ensures multiset(s)[x] <= 1
  {
    if s != [] {
      var front, last := s[..|s| - 1], s[|s| - 1];
      assert s == front + [last];
      CountsAtMostOne(front, p, x);
      assert forall i :: 0 <= i < |front| ==> front[i] == s[i];
      assert p(last) ==> x !in front;
    }
  }

  lemma CountsTwice<T>(s: seq<T>, i: nat, j: nat)
    requires i < j < |s| && s[i] == s[j]
    ensures multiset(s)[s[i]] >= 2
  {
    assert s == s[..j] + [s[j]] + s[j + 1..];
    assert s[..j][i] == s[i];
  }

  lemma SameOne<T>(s: seq<T>, p: T -> bool, x: T, y: T)
    requires AtMostOne(s, p) && x in s && y in s && p(x) && p(y)
    ensures x == y
  {
    var i, j :| 0 <= i < |s| && 0 <= j < |s| && s[i] == x && s[j] == y;
    assert i == j || i < j || j < i;
  }

  /** Of what satisfies `p` a part holds no more than the whole. */
  lemma AtMostOneOfPart<T>(part: seq<T>, whole: seq<T>, p: T -> bool)
    requires multiset(part) <= multiset(whole) && AtMostOne(whole, p)
    ensures AtMostOne(part, p)
  {
    forall i, j | 0 <= i < j < |part| ensures !(p(part[i]) && p(part[j])) {
      if p(part[i]) && p(part[j]) {
        assert part[i] in multiset(part) && part[j] in multiset(part);
        SameOne(whole, p, part[i], part[j]);
        CountsTwice(part, i, j);
        CountsAtMostOne(whole, p, part[i]);
      }
    }
  }
}
