/** What the other modules share: options, and small facts about numbers and sequences. */
module Basics {

  datatype Option<+T> = None | Some(value: T)

  function Abs(x: int): nat { if x < 0 then -x else x }

  function Max(x: int, y: int): int { if x < y then y else x }

  /** No element occurs twice. */
  ghost predicate NoRepeat<T>(s: seq<T>) {
    forall i, j :: 0 <= i < j < |s| ==> s[i] != s[j]
  }

  function Reversed<T>(s: seq<T>): (r: seq<T>)
    ensures |r| == |s| && forall i :: 0 <= i < |s| ==> r[i] == s[|s| - 1 - i]
  {
    seq(|s|, i requires 0 <= i < |s| => s[|s| - 1 - i])
  }

  /** Numbers moved by an offset. */
  function Shifted(s: seq<nat>, offset: nat): (r: seq<nat>)
    ensures |r| == |s| && forall i :: 0 <= i < |r| ==> r[i] == s[i] + offset
  {
    seq(|s|, i requires 0 <= i < |s| => s[i] + offset)
  }

  /** Inserting an element in a sequence. */
  lemma {:induction false} InsertedAt<T>(s: seq<T>, x: T, pos: nat, i: nat)
    requires pos <= |s| && i < |s| + 1
    ensures (s[..pos] + [x] + s[pos..])[i] == if i < pos then s[i] else if i == pos then x else s[i - 1]
  {
  }

  lemma {:induction false} InsertAdds<T>(s: seq<T>, x: T, pos: nat)
    requires pos <= |s|
    ensures multiset(s[..pos] + [x] + s[pos..]) == multiset(s) + multiset{x}
  {
    assert s == s[..pos] + s[pos..];
  }

  lemma {:induction false} Regrouped<T>(a: seq<T>, b: seq<T>, c: seq<T>)
    ensures a + (b + c) == (a + b) + c
  {
  }

  lemma {:induction false} ProductIsPositive(x: nat, y: nat)
    ensures x * y > 0 <==> x > 0 && y > 0
  {
  }
}
