/** Order of strings, and the texts of numbers. */
module Strings {

  /** Lexicographic order of strings. */
  predicate Less(s: string, t: string) {
    t != [] && (s == [] || s[0] < t[0] || (s[0] == t[0] && Less(s[1..], t[1..])))
  }

  lemma {:induction false} LessIsTotal(s: string, t: string)
    ensures Less(s, t) || s == t || Less(t, s)
    ensures !(Less(s, t) && Less(t, s))
    ensures !Less(s, s)
    decreases |s| + |t|
  {
    if s != [] && t != [] {
      LessIsTotal(s[1..], t[1..]);
      assert s == [s[0]] + s[1..] && t == [t[0]] + t[1..];
    }
    if s != [] { LessIsIrreflexive(s); }
  }

  lemma {:induction false} LessIsIrreflexive(s: string)
    ensures !Less(s, s)
    decreases |s|
  {
    if s != [] { LessIsIrreflexive(s[1..]); }
  }

  lemma {:induction false} LessIsTransitive(s: string, t: string, u: string)
    requires Less(s, t) && Less(t, u)
    ensures Less(s, u)
    decreases |s|
  {
    if s != [] && s[0] == t[0] && t[0] == u[0] { LessIsTransitive(s[1..], t[1..], u[1..]); }
  }

  /** Both strings agree before position `k`, where the character of `s` is the smaller one. */
  predicate SmallerAt(s: string, t: string, k: nat) {
    k < |s| && k < |t| && s[..k] == t[..k] && s[k] < t[k]
  }

  /** The order of a dictionary: `s` is a proper beginning of `t`, or has the smaller character where they first differ. */
  ghost predicate Precedes(s: string, t: string) {
    (|s| < |t| && s == t[..|s|]) || exists k: nat :: SmallerAt(s, t, k)
  }

  lemma {:induction false} SmallerAfterFirst(s: string, t: string, k: nat)
    requires s != [] && t != [] && s[0] == t[0]
    ensures SmallerAt(s, t, k + 1) <==> SmallerAt(s[1..], t[1..], k)
  {
    if k < |s| - 1 && k < |t| - 1 {
      assert s[..k + 1] == [s[0]] + s[1..][..k] && t[..k + 1] == [t[0]] + t[1..][..k];
      if s[..k + 1] == t[..k + 1] { assert s[1..][..k] == s[..k + 1][1..] && t[1..][..k] == t[..k + 1][1..]; }
    }
  }

  lemma {:induction false} PrecedesAfterFirst(s: string, t: string)
    requires s != [] && t != [] && s[0] == t[0]
    ensures Precedes(s, t) <==> Precedes(s[1..], t[1..])
  {
    assert s == [s[0]] + s[1..] && |s| <= |t| ==> t[..|s|] == [t[0]] + t[1..][..|s| - 1];
    if k: nat :| SmallerAt(s, t, k) {
      assert k != 0;
      SmallerAfterFirst(s, t, k - 1);
    }
    if k: nat :| SmallerAt(s[1..], t[1..], k) { SmallerAfterFirst(s, t, k); }
  }

  lemma {:induction false} SmallerKeepsFirst(s: string, t: string, k: nat)
    requires s != [] && t != [] && SmallerAt(s, t, k)
    ensures s[0] <= t[0]
  {
    if k > 0 { assert s[..k][0] == t[..k][0]; }
  }

  /** The recursive order is the order of a dictionary. */
  lemma {:induction false} LessIsPrecedes(s: string, t: string)
    ensures Less(s, t) <==> Precedes(s, t)
    decreases |s|
  {
    if s == [] {
    } else if t == [] {
    } else if s[0] == t[0] {
      PrecedesAfterFirst(s, t);
      LessIsPrecedes(s[1..], t[1..]);
    } else {
      if s[0] < t[0] { assert SmallerAt(s, t, 0); }
      forall k: nat | SmallerAt(s, t, k) ensures s[0] <= t[0] { SmallerKeepsFirst(s, t, k); }
      assert |s| <= |t| ==> t[..|s|][0] == t[0];
    }
  }

  // ---------------------------------------------------------------- numbers

  function Digit(d: nat): char
    requires d < 10
  {
    ('0' as int + d) as char
  }

  predicate IsDigit(c: char) {
    '0' <= c <= '9'
  }

  /** The decimal text of a number. */
  function Decimal(n: nat): (s: string)
    ensures s != []
  {
    if n < 10 then [Digit(n)] else Decimal(n / 10) + [Digit(n % 10)]
  }

  predicate IsNumber(s: string) {
    s != [] && forall i :: 0 <= i < |s| ==> IsDigit(s[i])
  }

  /** The number read from its decimal text. */
  function NumberOf(s: string): nat
    requires forall i :: 0 <= i < |s| ==> IsDigit(s[i])
  {
    if s == [] then 0
    else
      assert IsDigit(s[|s| - 1]);
      10 * NumberOf(s[..|s| - 1]) + (s[|s| - 1] as int - '0' as int)
  }

  lemma {:induction false} DecimalRoundTrip(n: nat)
    ensures IsNumber(Decimal(n)) && NumberOf(Decimal(n)) == n
    decreases n
  {
    if n >= 10 {
      DecimalRoundTrip(n / 10);
      assert Decimal(n)[..|Decimal(n)| - 1] == Decimal(n / 10);
    } else {
      assert Decimal(n)[..0] == [];
    }
  }

  lemma {:induction false} DecimalInjective(m: nat, n: nat)
    requires Decimal(m) == Decimal(n)
    ensures m == n
  {
    DecimalRoundTrip(m);
    DecimalRoundTrip(n);
  }

  // ---------------------------------------------------------------- dots

  /** What precedes the last dot. */
  function BeforeLastDot(s: string): string
    requires '.' in s
    decreases |s|
  {
    if s[|s| - 1] == '.' then s[..|s| - 1] else BeforeLastDot(s[..|s| - 1])
  }

  /** What follows the last dot, or everything if there is none. */
  function AfterLastDot(s: string): string
    decreases |s|
  {
    if s == [] || s[|s| - 1] == '.' then [] else AfterLastDot(s[..|s| - 1]) + [s[|s| - 1]]
  }

  lemma {:induction false} LastDot(p: string, t: string)
    requires '.' !in t
    ensures '.' in p + "." + t
    ensures BeforeLastDot(p + "." + t) == p && AfterLastDot(p + "." + t) == t
    decreases |t|
  {
    var s := p + "." + t;
    assert s[|p|] == '.';
    if t == [] {
      assert s[..|s| - 1] == p;
    } else {
      LastDot(p, t[..|t| - 1]);
      assert s[..|s| - 1] == p + "." + t[..|t| - 1];
    }
  }

  lemma {:induction false} NumberHasNoDot(s: string)
    requires IsNumber(s)
    ensures '.' !in s
  {
  }
}
