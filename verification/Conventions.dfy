/** Names of partitions and of split joins (maia/pytree/maia/conventions.py). */
module Conventions {
  import opened Basics
  import opened Strings

  function AddPartSuffix(name: string, rank: nat, part: nat): string {
    name + "." + ("P" + Decimal(rank)) + "." + ("N" + Decimal(part))
  }

  function AddSplitSuffix(name: string, count: nat): string {
    name + "." + Decimal(count)
  }

  /** The name without the split suffix; fails on a name without a dot. */
  function SplitPrefix(name: string): Option<string> {
    if '.' in name then Some(BeforeLastDot(name)) else None
  }

  /** The name without the partition suffix; fails on a name with less than two dots. */
  function PartPrefix(name: string): Option<string> {
    if '.' in name && '.' in BeforeLastDot(name) then Some(BeforeLastDot(BeforeLastDot(name))) else None
  }

  /** A letter followed by a number. */
  function Tagged(s: string, tag: char): Option<nat> {
    if s != [] && s[0] == tag && IsNumber(s[1..]) then Some(NumberOf(s[1..])) else None
  }

  /** The rank and the partition number in the suffix of a name or of a path. */
  function PartSuffix(name: string): Option<(nat, nat)> {
    if PartPrefix(name).None? then None
    else
      var rank, part := Tagged(AfterLastDot(BeforeLastDot(name)), 'P'), Tagged(AfterLastDot(name), 'N');
      if rank.None? || part.None? then None else Some((rank.value, part.value))
  }

  lemma {:induction false} TaggedRoundTrip(tag: char, n: nat)
    requires tag != '.'
    ensures Tagged([tag] + Decimal(n), tag) == Some(n)
    ensures '.' !in [tag] + Decimal(n)
  {
    DecimalRoundTrip(n);
    NumberHasNoDot(Decimal(n));
    assert ([tag] + Decimal(n))[1..] == Decimal(n);
  }

  /** The partition suffix can be read back, and removed, whatever the name. */
  lemma {:induction false} PartRoundTrip(name: string, rank: nat, part: nat)
    ensures PartSuffix(AddPartSuffix(name, rank, part)) == Some((rank, part))
    ensures PartPrefix(AddPartSuffix(name, rank, part)) == Some(name)
  {
    TaggedRoundTrip('P', rank);
    TaggedRoundTrip('N', part);
    LastDot(name, "P" + Decimal(rank));
    LastDot(name + "." + ("P" + Decimal(rank)), "N" + Decimal(part));
  }

  /** The split suffix can be removed, whatever the name. */
  lemma {:induction false} SplitRoundTrip(name: string, count: nat)
    ensures SplitPrefix(AddSplitSuffix(name, count)) == Some(name)
  {
    DecimalRoundTrip(count);
    NumberHasNoDot(Decimal(count));
    LastDot(name, Decimal(count));
  }

  /** What follows the last dot of a split name is the split number. */
  lemma {:induction false} SplitNumber(name: string, count: nat)
    ensures IsNumber(AfterLastDot(AddSplitSuffix(name, count))) && NumberOf(AfterLastDot(AddSplitSuffix(name, count))) == count
  {
    DecimalRoundTrip(count);
    NumberHasNoDot(Decimal(count));
    LastDot(name, Decimal(count));
  }

  /** Different partitions, or different zones, have different names. */
  lemma {:induction false} PartNamesDiffer(name: string, rank: nat, part: nat, name': string, rank': nat, part': nat)
    requires AddPartSuffix(name, rank, part) == AddPartSuffix(name', rank', part')
    ensures name == name' && rank == rank' && part == part'
  {
    PartRoundTrip(name, rank, part);
    PartRoundTrip(name', rank', part');
  }

  lemma {:induction false} SplitNamesDiffer(name: string, count: nat, name': string, count': nat)
    requires AddSplitSuffix(name, count) == AddSplitSuffix(name', count')
    ensures name == name' && count == count'
  {
    SplitRoundTrip(name, count);
    SplitRoundTrip(name', count');
    var s := AddSplitSuffix(name, count);
    DecimalRoundTrip(count);
    DecimalRoundTrip(count');
    NumberHasNoDot(Decimal(count));
    NumberHasNoDot(Decimal(count'));
    LastDot(name, Decimal(count));
    LastDot(name', Decimal(count'));
    DecimalInjective(count, count');
  }

  // ---------------------------------------------------------------- joins between partitions of one zone

  /** The name of the join from a partition to another one of the same zone. */
  function NameIntraGc(rank: nat, part: nat, oppRank: nat, oppPart: nat): string {
    "JN.P" + Decimal(rank) + (".N" + Decimal(part) + (".LT.P" + Decimal(oppRank) + (".N" + Decimal(oppPart))))
  }

  function AfterDigits(s: string): string {
    if s != [] && IsDigit(s[0]) then AfterDigits(s[1..]) else s
  }

  /** The text starts with the given pieces, each followed by a number. */
  predicate StartsWith(s: string, pieces: seq<string>)
    decreases |pieces|
  {
    pieces == [] || (pieces[0] <= s && StartsWithNumber(s[|pieces[0]|..]) && StartsWith(AfterDigits(s[|pieces[0]|..]), pieces[1..]))
  }

  predicate StartsWithNumber(s: string) { s != [] && IsDigit(s[0]) }

  const INTRA_PIECES := ["JN.P", ".N", ".LT.P", ".N"]

  predicate IsIntraGc(name: string) {
    StartsWith(name, INTRA_PIECES)
  }

  lemma {:induction false} DigitsEnd(d: string, rest: string)
    requires forall i :: 0 <= i < |d| ==> IsDigit(d[i])
    requires !StartsWithNumber(rest)
    ensures AfterDigits(d + rest) == rest
    decreases |d|
  {
    if d == [] { assert d + rest == rest; } else { assert (d + rest)[1..] == d[1..] + rest; DigitsEnd(d[1..], rest); }
  }

  lemma {:induction false} PieceThenNumber(piece: string, n: nat, rest: string, pieces: seq<string>)
    requires !StartsWithNumber(rest) && pieces != [] && pieces[0] == piece && StartsWith(rest, pieces[1..])
    ensures StartsWith(piece + Decimal(n) + rest, pieces)
  {
    DecimalRoundTrip(n);
    assert (piece + Decimal(n) + rest)[|piece|..] == Decimal(n) + rest;
    DigitsEnd(Decimal(n), rest);
  }

  /** The name of such a join is recognized. */
  lemma {:induction false} IntraNameIsIntra(rank: nat, part: nat, oppRank: nat, oppPart: nat)
    ensures IsIntraGc(NameIntraGc(rank, part, oppRank, oppPart))
  {
    var p := INTRA_PIECES;
    var d := ".N" + Decimal(oppPart);
    assert d == ".N" + Decimal(oppPart) + [];
    PieceThenNumber(".N", oppPart, [], p[3..]);
    PieceThenNumber(".LT.P", oppRank, d, p[2..]);
    var c := ".LT.P" + Decimal(oppRank) + d;
    PieceThenNumber(".N", part, c, p[1..]);
    var b := ".N" + Decimal(part) + c;
    PieceThenNumber("JN.P", rank, b, p);
  }

  lemma {:induction false} DigitsBefore(s: string, t: string)
    requires t != [] && !IsDigit(t[0])
    ensures AfterDigits(s + t) == AfterDigits(s) + t
    decreases |s|
  {
    if s == [] { assert s + t == t; } else if IsDigit(s[0]) { assert (s + t)[1..] == s[1..] + t; DigitsBefore(s[1..], t); }
  }

  ghost predicate EndsWithLetter(p: string) {
    p != [] && p[|p| - 1] != '.' && !IsDigit(p[|p| - 1])
  }

  /** A dot and a number at the end do not make a text start with such pieces. */
  lemma {:induction false} SuffixStartsNothing(s: string, t: string, pieces: seq<string>)
    requires forall i :: 0 <= i < |pieces| ==> EndsWithLetter(pieces[i])
    requires t != [] && t[0] == '.' && forall i :: 1 <= i < |t| ==> IsDigit(t[i])
    requires StartsWith(s + t, pieces)
    ensures StartsWith(s, pieces)
    decreases |pieces|
  {
    if pieces != [] {
      var p := pieces[0];
      assert EndsWithLetter(p);
      assert (s + t)[|p| - 1] == p[|p| - 1];
      assert |p| <= |s|;
      assert p <= s;
      assert (s + t)[|p|..] == s[|p|..] + t;
      DigitsBefore(s[|p|..], t);
      SuffixStartsNothing(AfterDigits(s[|p|..]), t, pieces[1..]);
    }
  }

  /** Splitting does not make the name of a join one of these. */
  lemma {:induction false} SplitKeepsKind(name: string, count: nat)
    requires !IsIntraGc(name)
    ensures !IsIntraGc(AddSplitSuffix(name, count))
  {
    SplitSuffixIsDotted(name, count);
    PiecesEndWithLetters();
    if IsIntraGc(AddSplitSuffix(name, count)) { SuffixStartsNothing(name, "." + Decimal(count), INTRA_PIECES); }
  }

  lemma {:induction false} SplitSuffixIsDotted(name: string, count: nat)
    ensures var t := "." + Decimal(count);
            AddSplitSuffix(name, count) == name + t && t[0] == '.' && forall i :: 1 <= i < |t| ==> IsDigit(t[i])
  {
    DecimalRoundTrip(count);
  }

  lemma {:induction false} PiecesEndWithLetters()
    ensures forall i :: 0 <= i < |INTRA_PIECES| ==> EndsWithLetter(INTRA_PIECES[i])
  {
    var a, b, c := "JN.P", ".N", ".LT.P";
    assert a[3] == 'P' && b[1] == 'N' && c[4] == 'P';
  }

  /** Names as they are written. */
  lemma {:induction false} NamesAsWritten()
    ensures Decimal(120) == "120" && Decimal(7) == "7" && Decimal(0) == "0"
    ensures AddPartSuffix("Zone", 3, 12) == "Zone.P3.N12" && AddSplitSuffix("match", 10) == "match.10"
    ensures NameIntraGc(0, 1, 2, 3) == "JN.P0.N1.LT.P2.N3"
  {
    assert Decimal(12) == Decimal(1) + [Digit(2)] && Decimal(10) == Decimal(1) + [Digit(0)];
    assert Decimal(120) == Decimal(12) + [Digit(0)];
    assert Digit(0) == '0' && Digit(1) == '1' && Digit(2) == '2' && Digit(3) == '3' && Digit(7) == '7';
  }

  /** The pieces with the given numbers in between, then anything. */
  ghost function Interleaved(pieces: seq<string>, numbers: seq<string>, rest: string): string
    requires |pieces| == |numbers|
  {
    if pieces == [] then rest else pieces[0] + numbers[0] + Interleaved(pieces[1..], numbers[1..], rest)
  }

  ghost predicate AllNumbers(numbers: seq<string>) {
    forall i :: 0 <= i < |numbers| ==> IsNumber(numbers[i])
  }

  /** The pieces after the first begin with something else than a digit. */
  ghost predicate Separate(pieces: seq<string>) {
    forall i :: 1 <= i < |pieces| ==> pieces[i] != [] && !IsDigit(pieces[i][0])
  }

  lemma {:induction false} DigitsThenRest(s: string) returns (d: string)
    requires StartsWithNumber(s)
    ensures IsNumber(d) && s == d + AfterDigits(s)
    decreases |s|
  {
    if StartsWithNumber(s[1..]) {
      var e := DigitsThenRest(s[1..]);
      d := [s[0]] + e;
      assert s == [s[0]] + s[1..];
    } else {
      d := [s[0]];
      assert s == [s[0]] + s[1..] && AfterDigits(s) == s[1..];
    }
  }

  lemma {:induction false} StartsGivesNumbers(s: string, pieces: seq<string>) returns (numbers: seq<string>, rest: string)
    requires StartsWith(s, pieces)
    ensures |numbers| == |pieces| && AllNumbers(numbers) && s == Interleaved(pieces, numbers, rest)
    decreases |pieces|
  {
    if pieces == [] {
      numbers, rest := [], s;
    } else {
      var after := s[|pieces[0]|..];
      var d := DigitsThenRest(after);
      var more, end := StartsGivesNumbers(AfterDigits(after), pieces[1..]);
      numbers, rest := [d] + more, end;
      assert numbers[1..] == more;
      assert s == pieces[0] + after;
    }
  }

  lemma {:induction false} NumbersGiveStart(pieces: seq<string>, numbers: seq<string>, rest: string)
    requires |pieces| == |numbers| && AllNumbers(numbers) && Separate(pieces)
    ensures StartsWith(Interleaved(pieces, numbers, rest), pieces)
    decreases |pieces|
  {
    if pieces != [] {
      var more := Interleaved(pieces[1..], numbers[1..], rest);
      var s := pieces[0] + numbers[0] + more;
      assert s[|pieces[0]|..] == numbers[0] + more;
      assert IsNumber(numbers[0]);
      if |pieces| > 1 {
        assert pieces[1..][0] == pieces[1];
        NumbersGiveStart(pieces[1..], numbers[1..], rest);
        assert more[0] == pieces[1][0];
        DigitsEnd(numbers[0], more);
      }
    }
  }

  /** Joins between partitions of one zone are those whose name begins with this pattern, whatever the numbers. */
  lemma {:induction false} IntraIsPattern(name: string)
    ensures IsIntraGc(name) <==> exists a: string, b: string, c: string, d: string, rest: string :: IntraText(name, a, b, c, d, rest)
  {
    var p := INTRA_PIECES;
    if IsIntraGc(name) {
      var n, rest := StartsGivesNumbers(name, p);
      PatternText(n, rest);
      assert IntraText(name, n[0], n[1], n[2], n[3], rest);
    }
    if a: string, b: string, c: string, d: string, rest: string :| IntraText(name, a, b, c, d, rest) {
      PatternText([a, b, c, d], rest);
      NumbersGiveStart(p, [a, b, c, d], rest);
    }
  }

  ghost predicate IntraText(name: string, a: string, b: string, c: string, d: string, rest: string) {
    IsNumber(a) && IsNumber(b) && IsNumber(c) && IsNumber(d) && name == "JN.P" + a + ".N" + b + ".LT.P" + c + ".N" + d + rest
  }

  lemma {:induction false} PatternText(n: seq<string>, rest: string)
    requires |n| == 4
    ensures Interleaved(INTRA_PIECES, n, rest) == "JN.P" + n[0] + ".N" + n[1] + ".LT.P" + n[2] + ".N" + n[3] + rest
  {
    var p := INTRA_PIECES;
    assert p[1..] == [".N", ".LT.P", ".N"] && p[1..][1..] == [".LT.P", ".N"] && p[1..][1..][1..] == [".N"] && p[1..][1..][1..][1..] == [];
    var i3 := Interleaved([".N"], n[3..], rest);
    assert |[".N"][1..]| == 0 && |n[3..][1..]| == 0;
    assert Interleaved([".N"][1..], n[3..][1..], rest) == rest;
    assert i3 == ".N" + n[3] + rest;
    var i2 := Interleaved([".LT.P", ".N"], n[2..], rest);
    assert [".LT.P", ".N"][1..] == [".N"] && n[2..][1..] == n[3..];
    assert i2 == ".LT.P" + n[2] + i3;
    var i1 := Interleaved([".N", ".LT.P", ".N"], n[1..], rest);
    assert [".N", ".LT.P", ".N"][1..] == [".LT.P", ".N"] && n[1..][1..] == n[2..];
    assert i1 == ".N" + n[1] + i2;
  }
}
