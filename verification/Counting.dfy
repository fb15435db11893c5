/** Counting the elements of a sequence, used to compare sequences up to their order. */
module Counting {
  import opened Basics

  function Count<T>(s: seq<T>, p: T -> bool): nat {
    if s == [] then 0 else Count(s[..|s| - 1], p) + (if p(s[|s| - 1]) then 1 else 0)
  }

  function Filter<T>(s: seq<T>, p: T -> bool): seq<T> {
    if s == [] then [] else Filter(s[..|s| - 1], p) + (if p(s[|s| - 1]) then [s[|s| - 1]] else [])
  }

  function Map<T, U>(s: seq<T>, f: T -> U): (r: seq<U>)
    ensures |r| == |s| && forall i :: 0 <= i < |s| ==> r[i] == f(s[i])
  {
    seq(|s|, i requires 0 <= i < |s| => f(s[i]))
  }

  ghost function Is<T>(x: T): T -> bool {
    (y: T) => y == x
  }

  lemma {:induction false} CountAppend<T>(s: seq<T>, x: T, p: T -> bool)
    ensures Count(s + [x], p) == Count(s, p) + (if p(x) then 1 else 0)
  {
    assert (s + [x])[..|s|] == s;
  }

  lemma {:induction false} CountConcat<T>(s: seq<T>, t: seq<T>, p: T -> bool)
    ensures Count(s + t, p) == Count(s, p) + Count(t, p)
    decreases |t|
  {
    if t == [] {
      assert s + t == s;
    } else {
      CountConcat(s, t[..|t| - 1], p);
      assert (s + t)[..|s + t| - 1] == s + t[..|t| - 1];
    }
  }

  lemma {:induction false} FilterAppend<T>(s: seq<T>, x: T, p: T -> bool)
    ensures Filter(s + [x], p) == Filter(s, p) + (if p(x) then [x] else [])
  {
    assert (s + [x])[..|s|] == s;
  }

  lemma {:induction false} FilterSize<T>(s: seq<T>, p: T -> bool)
    ensures |Filter(s, p)| == Count(s, p)
    decreases |s|
  {
    if s != [] { FilterSize(s[..|s| - 1], p); }
  }

  lemma {:induction false} FilterMembers<T>(s: seq<T>, p: T -> bool, x: T)
    ensures x in Filter(s, p) <==> x in s && p(x)
    decreases |s|
  {
    if s != [] {
      FilterMembers(s[..|s| - 1], p, x);
      assert x in s <==> x in s[..|s| - 1] || x == s[|s| - 1];
    }
  }

  /** Counting after filtering counts both conditions. */
  lemma {:induction false} CountFilter<T>(s: seq<T>, p: T -> bool, q: T -> bool, both: T -> bool)
    requires forall x :: both(x) <==> p(x) && q(x)
    ensures Count(Filter(s, p), q) == Count(s, both)
    decreases |s|
  {
    if s != [] {
      var front, x := s[..|s| - 1], s[|s| - 1];
      CountFilter(front, p, q, both);
      if p(x) { CountAppend(Filter(front, p), x, q); }
      else { assert Filter(front, p) + [] == Filter(front, p); }
    }
  }

  /** Counting after mapping counts preimages. */
  lemma {:induction false} CountMap<T, U>(s: seq<T>, f: T -> U, q: U -> bool, pre: T -> bool)
    requires forall x :: x in s ==> (pre(x) <==> q(f(x)))
    ensures Count(Map(s, f), q) == Count(s, pre)
    decreases |s|
  {
    if s != [] {
      var front := s[..|s| - 1];
      CountMap(front, f, q, pre);
      assert Map(s, f)[..|s| - 1] == Map(front, f);
      assert s[|s| - 1] in s;
    }
  }

  lemma {:induction false} CountCongruent<T>(s: seq<T>, p: T -> bool, q: T -> bool)
    requires forall x :: x in s ==> (p(x) <==> q(x))
    ensures Count(s, p) == Count(s, q)
    decreases |s|
  {
    if s != [] {
      CountCongruent(s[..|s| - 1], p, q);
      assert s[|s| - 1] in s;
    }
  }

  lemma {:induction false} CountNone<T>(s: seq<T>, p: T -> bool)
    requires forall x :: x in s ==> !p(x)
    ensures Count(s, p) == 0
    decreases |s|
  {
    if s != [] {
      CountNone(s[..|s| - 1], p);
      assert s[|s| - 1] in s;
    }
  }

  lemma {:induction false} CountSome<T>(s: seq<T>, p: T -> bool, i: nat)
    requires i < |s| && p(s[i])
    ensures Count(s, p) >= 1
    decreases |s|
  {
    if i < |s| - 1 { CountSome(s[..|s| - 1], p, i); }
  }

  lemma {:induction false} CountWitness<T>(s: seq<T>, p: T -> bool) returns (i: nat)
    requires Count(s, p) >= 1
    ensures i < |s| && p(s[i])
    decreases |s|
  {
    if p(s[|s| - 1]) { i := |s| - 1; } else { i := CountWitness(s[..|s| - 1], p); }
  }

  /** The multiplicity of an element is the number of its occurrences. */
  lemma {:induction false} CountIsMultiplicity<T>(s: seq<T>, x: T)
    ensures multiset(s)[x] == Count(s, Is(x))
    decreases |s|
  {
    if s != [] {
      CountIsMultiplicity(s[..|s| - 1], x);
      assert s == s[..|s| - 1] + [s[|s| - 1]];
    }
  }

  /** Where the first occurrence of `x` is removed. */
  lemma {:induction false} CountWithout<T>(s: seq<T>, i: nat, p: T -> bool)
    requires i < |s|
    ensures Count(s, p) == Count(s[..i] + s[i + 1..], p) + (if p(s[i]) then 1 else 0)
  {
    assert s == s[..i] + ([s[i]] + s[i + 1..]);
    CountConcat(s[..i], [s[i]] + s[i + 1..], p);
    CountConcat([s[i]], s[i + 1..], p);
    CountConcat(s[..i], s[i + 1..], p);
    assert [s[i]][..0] == [];
  }

  lemma {:induction false} MultisetWithout<T>(t: seq<T>, i: nat)
    requires i < |t|
    ensures multiset(t[..i] + t[i + 1..]) == multiset(t) - multiset{t[i]}
  {
    assert t == t[..i] + ([t[i]] + t[i + 1..]);
    assert multiset(t) == multiset(t[..i]) + (multiset{t[i]} + multiset(t[i + 1..]));
  }

  /** Counting does not see the order. */
  lemma {:induction false} CountReordered<T>(s: seq<T>, t: seq<T>, p: T -> bool)
    requires multiset(s) == multiset(t)
    ensures Count(s, p) == Count(t, p)
    decreases |s|
  {
    if s == [] {
      assert |multiset(t)| == 0;
    } else {
      var n := |s| - 1;
      assert s[n] in multiset(s);
      assert s[n] in t;
      var i :| 0 <= i < |t| && t[i] == s[n];
      MultisetWithout(t, i);
      MultisetWithout(s, n);
      assert s[..n] + s[n + 1..] == s[..n];
      CountReordered(s[..n], t[..i] + t[i + 1..], p);
      CountWithout(t, i, p);
    }
  }

  /** Equal counts of every element make equal multisets. */
  lemma {:induction false} SameCountsSameMultiset<T(!new)>(s: seq<T>, t: seq<T>)
    requires forall x :: Count(s, Is(x)) == Count(t, Is(x))
    ensures multiset(s) == multiset(t)
  {
    forall x ensures multiset(s)[x] == multiset(t)[x] {
      CountIsMultiplicity(s, x);
      CountIsMultiplicity(t, x);
    }
  }

  /** Mapping a reordered sequence gives a reordered result. */
  lemma {:induction false} MapReordered<T, U(!new)>(s: seq<T>, t: seq<T>, f: T -> U)
    requires multiset(s) == multiset(t)
    ensures multiset(Map(s, f)) == multiset(Map(t, f))
  {
    forall u ensures multiset(Map(s, f))[u] == multiset(Map(t, f))[u] {
      CountIsMultiplicity(Map(s, f), u);
      CountIsMultiplicity(Map(t, f), u);
      var pre := (x: T) => f(x) == u;
      CountMap(s, f, Is(u), pre);
      CountMap(t, f, Is(u), pre);
      CountReordered(s, t, pre);
    }
  }

  lemma {:induction false} FilterMap<T, U>(s: seq<T>, f: T -> U, q: U -> bool, pre: T -> bool)
    requires forall x :: x in s ==> (pre(x) <==> q(f(x)))
    ensures Filter(Map(s, f), q) == Map(Filter(s, pre), f)
    decreases |s|
  {
    if s != [] {
      var front := s[..|s| - 1];
      FilterMap(front, f, q, pre);
      assert Map(s, f)[..|s| - 1] == Map(front, f);
      assert s[|s| - 1] in s;
    }
  }

  lemma {:induction false} FilterFilter<T>(s: seq<T>, p: T -> bool, q: T -> bool, both: T -> bool)
    requires forall x :: x in s ==> (both(x) <==> p(x) && q(x))
    ensures Filter(Filter(s, p), q) == Filter(s, both)
    decreases |s|
  {
    if s != [] {
      var front, x := s[..|s| - 1], s[|s| - 1];
      FilterFilter(front, p, q, both);
      assert x in s;
      if p(x) { FilterAppend(Filter(front, p), x, q); }
      else { assert Filter(front, p) + [] == Filter(front, p); }
    }
  }

  lemma {:induction false} FilterNone<T>(s: seq<T>, p: T -> bool)
    requires forall i :: 0 <= i < |s| ==> !p(s[i])
    ensures Filter(s, p) == []
    decreases |s|
  {
    if s != [] { FilterNone(s[..|s| - 1], p); }
  }

  /** The only element that satisfies the condition. */
  lemma {:induction false} FilterSingle<T>(s: seq<T>, p: T -> bool, k: nat)
    requires k < |s| && p(s[k])
    requires forall i :: 0 <= i < |s| && i != k ==> !p(s[i])
    ensures Filter(s, p) == [s[k]]
    decreases |s|
  {
    if k == |s| - 1 { FilterNone(s[..|s| - 1], p); } else { FilterSingle(s[..|s| - 1], p, k); }
  }

  /** Different numbers below `n` are at most `n`. */
  lemma {:induction false} Pigeonhole(s: seq<int>, n: nat)
    requires NoRepeat(s) && forall i :: 0 <= i < |s| ==> 0 <= s[i] < n
    ensures |s| <= n
    decreases n
  {
    if s != [] {
      assert 0 <= s[0] < n;
      if i :| 0 <= i < |s| && s[i] == n - 1 {
        var rest := s[..i] + s[i + 1..];
        assert forall k :: 0 <= k < |rest| ==> rest[k] == if k < i then s[k] else s[k + 1];
        Pigeonhole(rest, n - 1);
      } else {
        Pigeonhole(s, n - 1);
      }
    }
  }

  /** The lists given by the elements, one after the other. */
  function FlatMap<T, U>(s: seq<T>, f: T -> seq<U>): seq<U> {
    if s == [] then [] else FlatMap(s[..|s| - 1], f) + f(s[|s| - 1])
  }

  lemma {:induction false} FlatMapConcat<T, U>(s: seq<T>, t: seq<T>, f: T -> seq<U>)
    ensures FlatMap(s + t, f) == FlatMap(s, f) + FlatMap(t, f)
    decreases |t|
  {
    if t == [] { assert s + t == s; }
    else {
      var front, last := t[..|t| - 1], f(t[|t| - 1]);
      FlatMapConcat(s, front, f);
      assert (s + t)[..|s + t| - 1] == s + front;
      assert (FlatMap(s, f) + FlatMap(front, f)) + last == FlatMap(s, f) + (FlatMap(front, f) + last);
    }
  }

  lemma {:induction false} FlatMapFirst<T, U>(s: seq<T>, f: T -> seq<U>)
    requires s != []
    ensures FlatMap(s, f) == f(s[0]) + FlatMap(s[1..], f)
  {
    assert s == [s[0]] + s[1..];
    FlatMapConcat([s[0]], s[1..], f);
    assert [s[0]][..0] == [];
    assert FlatMap([s[0]], f) == [] + f(s[0]);
  }
}
