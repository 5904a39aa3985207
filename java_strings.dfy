/**
 * The parts of java.lang.String that the core relies on, stated over
 * Dafny strings (sequences of characters).
 */
module JavaStrings {
  import opened Wrappers

  /** String.toLowerCase, restricted to the ASCII letters A-Z. */
  function LowerChar(c: char): char {
    if 'A' <= c <= 'Z' then (c as int + 32) as char else c
  }

  function ToLowerCase(s: string): (r: string)
    ensures |r| == |s|
    ensures forall i :: 0 <= i < |s| ==> r[i] == LowerChar(s[i])
  {
    seq(|s|, i requires 0 <= i < |s| => LowerChar(s[i]))
  }

  /** String.endsWith. */
  predicate EndsWith(s: string, suffix: string) {
    |suffix| <= |s| && s[|s| - |suffix|..] == suffix
  }

  /** The pattern p occurs in s at index j. */
  predicate OccursAt(s: string, p: string, j: int) {
    0 <= j && j + |p| <= |s| && s[j..j + |p|] == p
  }

  /** The first occurrence of p in s at or after index j. */
  function IndexOfFrom(s: string, p: string, j: nat): (r: Option<nat>)
    requires j <= |s|
    decreases |s| - j
    ensures r.Some? ==> j <= r.value && OccursAt(s, p, r.value)
    ensures r.Some? ==> forall k :: j <= k < r.value ==> !OccursAt(s, p, k)
    ensures r.None? ==> forall k :: j <= k ==> !OccursAt(s, p, k)
  {
    if OccursAt(s, p, j) then Some(j)
    else if j == |s| then None
    else IndexOfFrom(s, p, j + 1)
  }

  /** String.indexOf(String): the first occurrence, None where Java returns -1. */
  function IndexOf(s: string, p: string): (r: Option<nat>)
    ensures r.Some? ==> OccursAt(s, p, r.value)
    ensures r.Some? ==> forall k :: 0 <= k < r.value ==> !OccursAt(s, p, k)
    ensures r.None? ==> forall k :: !OccursAt(s, p, k)
  {
    IndexOfFrom(s, p, 0)
  }

  /** String.contains. */
  predicate Contains(s: string, p: string) {
    IndexOf(s, p).Some?
  }

  /** String.replace(char, char): every occurrence of `from` becomes `to`. */
  function Replace(s: string, from: char, to: char): (r: string)
    ensures |r| == |s|
    ensures forall i :: 0 <= i < |s| ==> r[i] == if s[i] == from then to else s[i]
  {
    seq(|s|, i requires 0 <= i < |s| => if s[i] == from then to else s[i])
  }

  /**
   * String.compareTo: the difference of the first differing characters,
   * or the difference of the lengths when one string is a prefix of the other.
   */
  function CompareTo(a: string, b: string): (r: int)
    ensures r == 0 <==> a == b
  {
    if a == [] || b == [] then |a| - |b|
    else if a[0] != b[0] then a[0] as int - b[0] as int
    else
      assert a == [a[0]] + a[1..] && b == [b[0]] + b[1..];
      CompareTo(a[1..], b[1..])
  }

  lemma {:induction false} CompareToAntisymmetric(a: string, b: string)
    ensures CompareTo(b, a) == -CompareTo(a, b)
  {
    if a != [] && b != [] && a[0] == b[0] {
      CompareToAntisymmetric(a[1..], b[1..]);
    }
  }

  /** The characters matched by the regular expression \s. */
  predicate IsWhitespace(c: char) {
    c == ' ' || c == '\t' || c == '\n' || c == '\U{B}' || c == '\U{C}' || c == '\r'
  }

  /** String.replaceAll("\\s+", ""): every whitespace character removed. */
  function RemoveWhitespace(s: string): (r: string)
    ensures forall i :: 0 <= i < |r| ==> !IsWhitespace(r[i]) && r[i] in s
    ensures forall c :: c in s && !IsWhitespace(c) ==> c in r
  {
    if s == [] then []
    else if IsWhitespace(s[0]) then RemoveWhitespace(s[1..])
    else [s[0]] + RemoveWhitespace(s[1..])
  }

  /** Every piece between separators, empty pieces included. */
  function SplitAll(s: string, sep: char): (r: seq<string>)
    ensures |r| >= 1
    ensures forall i :: 0 <= i < |r| ==> sep !in r[i]
    ensures forall i :: 0 <= i < |r| ==> forall k :: 0 <= k < |r[i]| ==> r[i][k] in s
  {
    if s == [] then [[]]
    else
      var rest := SplitAll(s[1..], sep);
      if s[0] == sep then [[]] + rest
      else [[s[0]] + rest[0]] + rest[1..]
  }

  /** The inverse of SplitAll: the pieces put back together with `sep` between them. */
  function Join(pieces: seq<string>, sep: char): string
    requires |pieces| >= 1
  {
    if |pieces| == 1 then pieces[0] else pieces[0] + [sep] + Join(pieces[1..], sep)
  }

  lemma {:induction false} JoinSplitAll(s: string, sep: char)
    ensures Join(SplitAll(s, sep), sep) == s
  {
    if s != [] {
      var rest := SplitAll(s[1..], sep);
      JoinSplitAll(s[1..], sep);
      if s[0] == sep {
        assert SplitAll(s, sep) == [[]] + rest;
        assert ([[]] + rest)[1..] == rest;
      } else {
        var r := [[s[0]] + rest[0]] + rest[1..];
        assert SplitAll(s, sep) == r;
        if |rest| == 1 {
          assert Join(r, sep) == [s[0]] + rest[0];
        } else {
          assert r[1..] == rest[1..];
          assert Join(rest, sep) == rest[0] + [sep] + Join(rest[1..], sep);
        }
      }
    }
  }

  /** The trailing empty strings removed, as String.split does with limit 0. */
  function DropTrailingEmpty(pieces: seq<string>): (r: seq<string>)
    ensures |r| <= |pieces| && r == pieces[..|r|]
    ensures r == [] || r[|r| - 1] != []
    ensures forall i :: |r| <= i < |pieces| ==> pieces[i] == []
  {
    if pieces == [] then []
    else if pieces[|pieces| - 1] == [] then DropTrailingEmpty(pieces[..|pieces| - 1])
    else pieces
  }

  /**
   * String.split on a one-character separator: the whole string when the
   * separator does not occur, else the pieces without the trailing empty ones.
   */
  function Split(s: string, sep: char): (r: seq<string>)
    ensures sep !in s ==> r == [s]
    ensures sep in s ==> r == DropTrailingEmpty(SplitAll(s, sep))
    ensures forall i :: 0 <= i < |r| ==> sep !in r[i]
    ensures forall i :: 0 <= i < |r| ==> forall k :: 0 <= k < |r[i]| ==> r[i][k] in s
  {
    if sep !in s then [s] else DropTrailingEmpty(SplitAll(s, sep))
  }

  const INT_MIN: int := -0x8000_0000
  const INT_MAX: int := 0x7FFF_FFFF

  /** A Java int value. */
  predicate IsInt32(x: int) {
    INT_MIN <= x <= INT_MAX
  }

  type Int32 = x: int | IsInt32(x)

  /** x taken modulo 2^32 into the int range, as Java int arithmetic does. */
  function Wrap32(x: int): (r: int)
    ensures IsInt32(r)
    ensures IsInt32(x) ==> r == x
  {
    (x - INT_MIN) % 0x1_0000_0000 + INT_MIN
  }

  /** The int negation -x, which leaves MIN_VALUE unchanged. */
  function Negate32(x: int): (r: int)
    ensures IsInt32(r)
    ensures IsInt32(x) && x != INT_MIN ==> r == -x
    ensures x == INT_MIN ==> r == INT_MIN
  {
    Wrap32(-x)
  }

  predicate IsDigit(c: char) {
    '0' <= c <= '9'
  }

  predicate AllDigits(s: string) {
    forall i :: 0 <= i < |s| ==> IsDigit(s[i])
  }

  /** The value of a string of decimal digits, most significant first. */
  function DecimalValue(ds: string): nat
    requires AllDigits(ds)
  {
    if ds == [] then 0
    else DecimalValue(ds[..|ds| - 1]) * 10 + (ds[|ds| - 1] as int - '0' as int)
  }

  /**
   * Integer.parseInt over the ASCII digits: an optional sign, at least one
   * digit and nothing else, and a value in the int range; None where Java
   * throws NumberFormatException.
   */
  function ParseInt(s: string): (r: Option<int>)
    ensures r.Some? ==> IsInt32(r.value)
    ensures r.Some? ==> |s| > 0
  {
    var signed := |s| > 0 && (s[0] == '-' || s[0] == '+');
    var ds := if signed then s[1..] else s;
    if ds == [] || !AllDigits(ds) then None
    else
      var v: int := if s[0] == '-' then 0 - DecimalValue(ds) else DecimalValue(ds);
      if IsInt32(v) then Some(v) else None
  }

  /** Integer.toString for a non-negative value: its decimal digits. */
  function NatToString(n: nat): (r: string)
    ensures |r| > 0 && AllDigits(r)
  {
    var d := ['0' + (n % 10) as char];
    if n < 10 then d else NatToString(n / 10) + d
  }

  lemma {:induction false} DecimalValueOfNatToString(n: nat)
    ensures DecimalValue(NatToString(n)) == n
  {
    var s := NatToString(n);
    if n >= 10 {
      DecimalValueOfNatToString(n / 10);
      assert s[..|s| - 1] == NatToString(n / 10);
    }
  }

  /** parseInt reads back what toString writes, for every non-negative int. */
  lemma ParseIntOfNatToString(n: nat)
    requires n <= INT_MAX
    ensures ParseInt(NatToString(n)) == Some(n)
  {
    DecimalValueOfNatToString(n);
  }

  /** A leading minus sign negates the value read. */
  lemma ParseIntNegative(n: nat)
    requires n <= -INT_MIN
    ensures ParseInt("-" + NatToString(n)) == Some(0 - n as int)
  {
    var s := "-" + NatToString(n);
    assert s[1..] == NatToString(n);
    DecimalValueOfNatToString(n);
  }
}
