/**
 Rearrangements of sequences: what a query may do to the order of rows.
 */
module Permutations {

  function MapSeq<A, B>(f: A -> B, s: seq<A>): (t: seq<B>)
    ensures |t| == |s| && forall i | 0 <= i < |s| :: t[i] == f(s[i])
  {
    seq(|s|, i requires 0 <= i < |s| => f(s[i]))
  }

  function Without<A>(s: seq<A>, p: nat): (t: seq<A>)
    requires p < |s|
  {
    s[..p] + s[p + 1..]
  }

  lemma WithoutTakesOne<A>(s: seq<A>, p: nat)
    requires p < |s|
    ensures multiset(s) == multiset(Without(s, p)) + multiset{s[p]}
  {
    assert s == s[..p] + [s[p]] + s[p + 1..];
  }

  lemma Cancel<A>(a: multiset<A>, b: multiset<A>, x: A)
    requires a + multiset{x} == b + multiset{x}
    ensures a == b
  {
    assert a == (a + multiset{x}) - multiset{x};
    assert b == (b + multiset{x}) - multiset{x};
  }

  /** Sequences with the same elements still have the same elements after losing an occurrence of the same one. */
  lemma TakeFromBoth<A>(s: seq<A>, i: nat, t: seq<A>, p: nat)
    requires multiset(s) == multiset(t) && i < |s| && p < |t| && s[i] == t[p]
    ensures multiset(Without(s, i)) == multiset(Without(t, p))
  {
    WithoutTakesOne(s, i);
    WithoutTakesOne(t, p);
    Cancel(multiset(Without(s, i)), multiset(Without(t, p)), s[i]);
  }

  lemma SameElements<A>(s: seq<A>, t: seq<A>)
    requires multiset(s) == multiset(t)
    ensures |s| == |t| && forall x :: x in s <==> x in t
  {
    assert |multiset(s)| == |multiset(t)|;
    assert forall x :: x in s <==> x in multiset(s);
    assert forall x :: x in t <==> x in multiset(t);
  }

  lemma Occurrence<A>(s: seq<A>, t: seq<A>, i: nat) returns (p: nat)
    requires multiset(s) == multiset(t) && i < |s|
    ensures p < |t| && t[p] == s[i]
  {
    SameElements(s, t);
    assert s[i] in s;
    p :| 0 <= p < |t| && t[p] == s[i];
  }

  /** Rearranging before mapping rearranges the result. */
  lemma {:induction false} MapKeepsMultiset<A, B>(f: A -> B, s: seq<A>, t: seq<A>)
    requires multiset(s) == multiset(t)
    ensures multiset(MapSeq(f, s)) == multiset(MapSeq(f, t))
    decreases |s|
  {
    SameElements(s, t);
    if s == [] {
      assert MapSeq(f, s) == MapSeq(f, t);
    } else {
      var p := Occurrence(s, t, 0);
      TakeFromBoth(s, 0, t, p);
      MapKeepsMultiset(f, Without(s, 0), Without(t, p));
      MapWithout(f, s, 0);
      MapWithout(f, t, p);
    }
  }

  lemma MapWithout<A, B>(f: A -> B, s: seq<A>, p: nat)
    requires p < |s|
    ensures MapSeq(f, Without(s, p)) == Without(MapSeq(f, s), p)
    ensures multiset(MapSeq(f, s)) == multiset(MapSeq(f, Without(s, p))) + multiset{f(s[p])}
  {
    assert MapSeq(f, Without(s, p)) == Without(MapSeq(f, s), p);
    WithoutTakesOne(MapSeq(f, s), p);
  }

  /** A rearrangement of the mapped sequence is the map of a rearrangement. */
  lemma {:induction false} RearrangeBeforeMap<A, B>(f: A -> B, s: seq<A>, t: seq<B>) returns (r: seq<A>)
    requires multiset(t) == multiset(MapSeq(f, s))
    ensures multiset(r) == multiset(s) && MapSeq(f, r) == t
    decreases |s|
  {
    var m := MapSeq(f, s);
    SameElements(t, m);
    if s == [] {
      r := [];
    } else {
      var p := Occurrence(m, t, 0);
      TakeFromBoth(t, p, MapSeq(f, s), 0);
      MapWithout(f, s, 0);
      var rest := RearrangeBeforeMap(f, Without(s, 0), Without(t, p));
      r := rest[..p] + [s[0]] + rest[p..];
      WithoutTakesOne(s, 0);
      Inserted(f, rest, s[0], t, p);
    }
  }

  lemma Inserted<A, B>(f: A -> B, rest: seq<A>, x: A, t: seq<B>, p: nat)
    requires p < |t| && t[p] == f(x) && MapSeq(f, rest) == Without(t, p)
    ensures var r := rest[..p] + [x] + rest[p..];
            MapSeq(f, r) == t && multiset(r) == multiset(rest) + multiset{x}
  {
    var r := rest[..p] + [x] + rest[p..];
    assert |rest| == |Without(t, p)|;
    assert Without(r, p) == rest;
    WithoutTakesOne(r, p);
    forall i | 0 <= i < |t|
      ensures MapSeq(f, r)[i] == t[i]
    {
      if i < p {
        assert Without(t, p)[i] == MapSeq(f, rest)[i];
      } else if i > p {
        assert Without(t, p)[i - 1] == MapSeq(f, rest)[i - 1];
      }
    }
  }

  ghost predicate Ascending(s: seq<int>) {
    forall i, j | 0 <= i < j < |s| :: s[i] <= s[j]
  }

  lemma LastIsGreatest(s: seq<int>, x: int)
    requires Ascending(s) && x in s
    ensures x <= s[|s| - 1]
  {
  }

  /** A multiset of numbers has one ascending listing. */
  lemma {:induction false} AscendingIsUnique(s: seq<int>, t: seq<int>)
    requires multiset(s) == multiset(t) && Ascending(s) && Ascending(t)
    ensures s == t
    decreases |s|
  {
    SameElements(s, t);
    if s != [] {
      var n := |s| - 1;
      LastIsGreatest(s, t[n]);
      LastIsGreatest(t, s[n]);
      TakeFromBoth(s, n, t, n);
      assert Without(s, n) == s[..n] && Without(t, n) == t[..n];
      AscendingIsUnique(s[..n], t[..n]);
    }
  }
}
