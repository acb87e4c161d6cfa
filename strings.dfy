/** The part of Go's `strings`, `strconv` and `fmt` packages the program relies on,
    over strings as sequences of characters. */
module Strings {
  import opened Wrappers

  /** An unsigned 32-bit value (Go's `uint32`). */
  type uint32 = x: int | 0 <= x < 0x1_0000_0000

  const INT64_MIN: int := -0x8000_0000_0000_0000
  const INT64_MAX: int := 0x7FFF_FFFF_FFFF_FFFF

  /** `sub` occurs in `s` starting at index `i`. */
  predicate OccursAt(s: string, sub: string, i: int) {
    0 <= i && i + |sub| <= |s| && s[i..i + |sub|] == sub
  }

  /** `strings.Contains` */
  predicate Contains(s: string, sub: string) {
    exists i | 0 <= i <= |s| - |sub| :: OccursAt(s, sub, i)
  }

  /** A one-character string occurs exactly where that character is. */
  lemma OccursAtChar(s: string, c: char, j: int)
    ensures OccursAt(s, [c], j) <==> 0 <= j < |s| && s[j] == c
  {
    if 0 <= j < |s| {
      assert s[j..j + 1] == [s[j]];
    }
  }

  /** `IndexFrom` for a one-character string, stated on characters. */
  lemma IndexFromChar(s: string, c: char, i: nat)
    ensures var r := IndexFrom(s, [c], i);
            r != -1 ==> i <= r < |s| && s[r] == c && forall j :: i <= j < r ==> s[j] != c
    ensures IndexFrom(s, [c], i) == -1 ==> forall j :: i <= j < |s| ==> s[j] != c
  {
    var r := IndexFrom(s, [c], i);
    OccursAtChar(s, c, r);
    forall j | i <= j < |s| && (r == -1 || j < r) ensures s[j] != c {
      OccursAtChar(s, c, j);
    }
  }

  /** A slice none of whose characters is `c` does not hold `c`. */
  lemma SliceWithout(s: string, a: nat, b: nat, c: char)
    requires a <= b <= |s|
    requires forall j :: a <= j < b ==> s[j] != c
    ensures c !in s[a..b]
  {
    forall t | 0 <= t < b - a ensures s[a..b][t] != c {
      assert s[a..b][t] == s[a + t];
    }
  }

  /** A slice is its first character, its middle and its last character. */
  lemma SliceEnds(s: string, a: nat, b: nat)
    requires a < b < |s|
    ensures s[a..b + 1] == [s[a]] + s[a + 1..b] + [s[b]]
  {
  }

  /** `strings.HasSuffix` */
  predicate HasSuffix(s: string, suffix: string) {
    |suffix| <= |s| && s[|s| - |suffix|..] == suffix
  }

  /** The first occurrence of `sub` in `s` at index `i` or later, or -1. */
  function IndexFrom(s: string, sub: string, i: nat): (r: int)
    ensures r == -1 ==> forall j :: i <= j ==> !OccursAt(s, sub, j)
    ensures r != -1 ==> i <= r && OccursAt(s, sub, r)
    ensures r != -1 ==> forall j :: i <= j < r ==> !OccursAt(s, sub, j)
    decreases |s| - i
  {
    if i + |sub| > |s| then -1
    else if OccursAt(s, sub, i) then i
    else IndexFrom(s, sub, i + 1)
  }

  /** `strings.Index`: the first occurrence of `sub` in `s`, or -1 when there is none. */
  function IndexOf(s: string, sub: string): (r: int)
    ensures r == -1 <==> !Contains(s, sub)
    ensures r != -1 ==> OccursAt(s, sub, r) && forall j :: 0 <= j < r ==> !OccursAt(s, sub, j)
  {
    IndexFrom(s, sub, 0)
  }

  /** The last occurrence of `sub` in `s` at index `i` or earlier, or -1. */
  function LastFrom(s: string, sub: string, i: int): (r: int)
    ensures r == -1 ==> forall j :: j <= i ==> !OccursAt(s, sub, j)
    ensures r != -1 ==> r <= i && OccursAt(s, sub, r)
    ensures r != -1 ==> forall j :: r < j <= i ==> !OccursAt(s, sub, j)
    decreases i + 1
  {
    if i < 0 then -1
    else if OccursAt(s, sub, i) then i
    else LastFrom(s, sub, i - 1)
  }

  /** `strings.LastIndex`: the last occurrence of `sub` in `s`, or -1 when there is none. */
  function LastIndexOf(s: string, sub: string): (r: int)
    ensures r == -1 <==> !Contains(s, sub)
    ensures r != -1 ==> OccursAt(s, sub, r) && forall j :: r < j ==> !OccursAt(s, sub, j)
  {
    LastFrom(s, sub, |s| - |sub|)
  }

  /** `strings.TrimSuffix`: removes one copy of `suffix` from the end of `s`, if present. */
  function TrimSuffix(s: string, suffix: string): (r: string)
    ensures HasSuffix(s, suffix) ==> r + suffix == s
    ensures !HasSuffix(s, suffix) ==> r == s
  {
    if HasSuffix(s, suffix) then s[..|s| - |suffix|] else s
  }

  /** Go's `unicode.IsSpace`, the white space that `strings.TrimSpace` removes. */
  predicate IsSpace(c: char) {
    || c == ' ' || c == '\t' || c == '\n' || c == '\r' || c == '\U{000B}' || c == '\U{000C}'
    || c == '\U{0085}' || c == '\U{00A0}' || c == '\U{1680}' || ('\U{2000}' <= c <= '\U{200A}')
    || c == '\U{2028}' || c == '\U{2029}' || c == '\U{202F}' || c == '\U{205F}' || c == '\U{3000}'
  }

  /** Neither the first nor the last character of `s` is white space. */
  predicate Trimmed(s: string) {
    s == [] || (!IsSpace(s[0]) && !IsSpace(s[|s| - 1]))
  }

  function TrimLeft(s: string): (r: string)
    ensures |r| <= |s| && r == s[|s| - |r|..]
    ensures r == [] || !IsSpace(r[0])
    ensures s == [] || !IsSpace(s[0]) ==> r == s
  {
    if s != [] && IsSpace(s[0]) then TrimLeft(s[1..]) else s
  }

  function TrimRight(s: string): (r: string)
    ensures |r| <= |s| && r == s[..|r|]
    ensures r == [] || !IsSpace(r[|r| - 1])
    ensures s == [] || !IsSpace(s[|s| - 1]) ==> r == s
  {
    if s != [] && IsSpace(s[|s| - 1]) then TrimRight(s[..|s| - 1]) else s
  }

  /** `strings.TrimSpace`: the result has no surrounding white space, and a string
      without any is returned unchanged. */
  function TrimSpace(s: string): (r: string)
    ensures Trimmed(r)
    ensures Trimmed(s) ==> r == s
  {
    var l := TrimLeft(s);
    var r := TrimRight(l);
    assert r != [] ==> r[0] == l[0];
    r
  }

  /** Lower-casing of one character (ASCII letters only). */
  function LowerChar(c: char): char {
    if 'A' <= c <= 'Z' then (c as int + 32) as char else c
  }

  /** `strings.ToLower`, restricted to ASCII letters. */
  function ToLower(s: string): (r: string)
    ensures |r| == |s|
    ensures forall i :: 0 <= i < |s| ==> r[i] == LowerChar(s[i])
  {
    seq(|s|, i requires 0 <= i < |s| => LowerChar(s[i]))
  }

  predicate IsDigit(c: char) {
    '0' <= c <= '9'
  }

  predicate AllDigits(s: string) {
    forall i :: 0 <= i < |s| ==> IsDigit(s[i])
  }

  function DigitValue(c: char): nat
    requires IsDigit(c)
  {
    c as int - '0' as int
  }

  function DigitChar(d: nat): (c: char)
    requires d < 10
    ensures IsDigit(c) && DigitValue(c) == d
  {
    ('0' as int + d) as char
  }

  /** The number a string of decimal digits denotes. */
  function DigitsValue(s: string): nat
    requires AllDigits(s)
  {
    if s == [] then 0 else 10 * DigitsValue(s[..|s| - 1]) + DigitValue(s[|s| - 1])
  }

  /** `fmt`'s `%d` of a non-negative number: a non-empty string of decimal digits. */
  function DecimalString(n: nat): (r: string)
    ensures r != [] && AllDigits(r)
  {
    if n < 10 then [DigitChar(n)] else DecimalString(n / 10) + [DigitChar(n % 10)]
  }

  /** `%d` prints the number back: the digits denote `n`. */
  lemma {:induction false} DecimalStringValue(n: nat)
    ensures DigitsValue(DecimalString(n)) == n
  {
    if n >= 10 {
      var s := DecimalString(n);
      assert s[..|s| - 1] == DecimalString(n / 10);
      DecimalStringValue(n / 10);
    }
  }

  /** `strconv.ParseUint(s, 10, 32)`: a non-empty run of decimal digits whose value fits
      in 32 bits; no sign, no white space, no underscores. */
  function ParseUint32(s: string): (r: Option<uint32>)
    ensures r.Some? <==> s != [] && AllDigits(s) && DigitsValue(s) < 0x1_0000_0000
    ensures r.Some? ==> r.value == DigitsValue(s)
  {
    if s != [] && AllDigits(s) && DigitsValue(s) < 0x1_0000_0000 then Some(DigitsValue(s)) else None
  }

  /** Parsing what `%d` prints gives the number back. */
  lemma ParseUint32Decimal(n: uint32)
    ensures ParseUint32(DecimalString(n)) == Some(n)
  {
    DecimalStringValue(n);
  }

  /** `strconv.Atoi` on a 64-bit platform: an optional sign followed by a non-empty run of
      decimal digits, within the range of a 64-bit signed integer. */
  function Atoi(s: string): (r: Option<int>)
    ensures r.Some? ==> INT64_MIN <= r.value <= INT64_MAX
    ensures r.Some? ==> s != [] && (IsDigit(s[0]) || s[0] == '+' || s[0] == '-')
  {
    var signed := s != [] && (s[0] == '+' || s[0] == '-');
    var digits := if signed then s[1..] else s;
    if digits == [] || !AllDigits(digits) then None
    else
      var v: int := if signed && s[0] == '-' then 0 - (DigitsValue(digits) as int) else DigitsValue(digits);
      if INT64_MIN <= v <= INT64_MAX then Some(v) else None
  }

  /** `Atoi` reads back what `%d` prints. */
  lemma AtoiDecimal(n: nat)
    requires n <= INT64_MAX
    ensures Atoi(DecimalString(n)) == Some(n)
  {
    DecimalStringValue(n);
  }

  /** The number of times `c` occurs in `s`. */
  function Count(s: string, c: char): nat {
    if s == [] then 0 else (if s[0] == c then 1 else 0) + Count(s[1..], c)
  }

  /** `strings.Split` with a one-character separator: the pieces between separators, one
      more piece than there are separators, none containing the separator. */
  function Split(s: string, c: char): (r: seq<string>)
    ensures |r| == Count(s, c) + 1
    ensures forall k :: 0 <= k < |r| ==> c !in r[k]
    decreases |s|
  {
    if s == [] then [""]
    else
      var rest := Split(s[1..], c);
      assert s == [s[0]] + s[1..];
      if s[0] == c then [""] + rest else [[s[0]] + rest[0]] + rest[1..]
  }

  /** Without a separator there is one piece, the whole string. */
  lemma {:induction false} SplitWithout(s: string, c: char)
    requires c !in s
    ensures Split(s, c) == [s]
  {
    if s != [] {
      assert s == [s[0]] + s[1..];
      SplitWithout(s[1..], c);
      assert Split(s, c) == [[s[0]] + s[1..]];
    }
  }

  /** Splitting at the first separator. */
  lemma {:induction false} SplitAfter(a: string, b: string, c: char)
    requires c !in a
    ensures Split(a + [c] + b, c) == [a] + Split(b, c)
  {
    if a == [] {
      assert (a + [c] + b)[1..] == b;
    } else {
      assert (a + [c] + b)[1..] == a[1..] + [c] + b;
      SplitAfter(a[1..], b, c);
      assert [a[0]] + a[1..] == a;
    }
  }

  /** A split into one piece leaves the string whole. */
  lemma {:induction false} SplitOne(s: string, c: char)
    requires |Split(s, c)| == 1
    ensures Split(s, c)[0] == s
  {
    if s != [] {
      var rest := Split(s[1..], c);
      assert s == [s[0]] + s[1..];
      assert s[0] != c && Split(s, c) == [[s[0]] + rest[0]] + rest[1..];
      SplitOne(s[1..], c);
    }
  }

  /** Two pieces put back together around the separator give the string back. */
  lemma {:induction false} SplitTwo(s: string, c: char)
    requires |Split(s, c)| == 2
    ensures s == Split(s, c)[0] + [c] + Split(s, c)[1]
  {
    var rest := Split(s[1..], c);
    assert s == [s[0]] + s[1..];
    if s[0] == c {
      assert Split(s, c) == [""] + rest;
      SplitOne(s[1..], c);
      assert Split(s, c)[0] == "" && Split(s, c)[1] == s[1..];
    } else {
      assert Split(s, c) == [[s[0]] + rest[0]] + rest[1..];
      SplitTwo(s[1..], c);
      assert Split(s, c)[0] == [s[0]] + rest[0] && Split(s, c)[1] == rest[1];
      assert s == [s[0]] + (rest[0] + [c] + rest[1]);
    }
  }
}
