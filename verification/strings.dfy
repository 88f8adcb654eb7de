/**
 * The handful of Python `str` operations the model relies on. Whitespace is
 * Python's full whitespace set; case mapping and decimal digits are the ASCII ones.
 */
module Strings {
  import opened Wrappers

  /** Characters `str.strip()`, `str.isspace()` and the regular-expression class `\s` treat as whitespace. */
  predicate IsSpace(c: char) {
    ('\t' <= c <= '\r') || ('\U{001C}' <= c <= ' ') || c == '\U{0085}' || c == '\U{00A0}' ||
    c == '\U{1680}' || ('\U{2000}' <= c <= '\U{200A}') || c == '\U{2028}' || c == '\U{2029}' ||
    c == '\U{202F}' || c == '\U{205F}' || c == '\U{3000}'
  }

  predicate IsDigit(c: char) {
    '0' <= c <= '9'
  }

  /** `str.isdigit()`: non-empty and every character a decimal digit. */
  predicate IsDigits(s: string) {
    |s| > 0 && forall i :: 0 <= i < |s| ==> IsDigit(s[i])
  }

  /** Removes the longest prefix whose characters satisfy `p` (`str.lstrip(chars)`). */
  function TrimLeft(s: string, p: char -> bool): (r: string)
    ensures |r| <= |s| && r == s[|s| - |r|..]
    ensures r != [] ==> !p(r[0])
    ensures forall i :: 0 <= i < |s| - |r| ==> p(s[i])
  {
    if s != [] && p(s[0]) then
      var r := TrimLeft(s[1..], p);
      assert s[1..][|s| - 1 - |r|..] == s[|s| - |r|..];
      assert forall i :: 1 <= i < |s| ==> s[i] == s[1..][i - 1];
      r
    else s
  }

  /** Removes the longest suffix whose characters satisfy `p` (`str.rstrip(chars)`). */
  function TrimRight(s: string, p: char -> bool): (r: string)
    ensures |r| <= |s| && r == s[..|r|]
    ensures r != [] ==> !p(r[|r| - 1])
    ensures forall i :: |r| <= i < |s| ==> p(s[i])
  {
    if s != [] && p(s[|s| - 1]) then
      var r := TrimRight(s[..|s| - 1], p);
      assert s[..|s| - 1][..|r|] == s[..|r|];
      assert forall i :: 0 <= i < |s| - 1 ==> s[i] == s[..|s| - 1][i];
      r
    else s
  }

  /** `str.strip(chars)` for the character class `p`. */
  function StripBy(s: string, p: char -> bool): (r: string)
    ensures |r| <= |s|
    ensures r != [] ==> !p(r[0]) && !p(r[|r| - 1])
  {
    TrimRight(TrimLeft(s, p), p)
  }

  /** `str.strip()` */
  function Strip(s: string): string {
    StripBy(s, IsSpace)
  }

  /** `str.strip(c)` for a single character `c`. */
  function StripChar(s: string, c: char): string {
    StripBy(s, x => x == c)
  }

  /** Stripping a character from a string that neither starts nor ends with it changes nothing. */
  lemma StripCharNoop(s: string, c: char)
    requires s != [] ==> s[0] != c && s[|s| - 1] != c
    ensures StripChar(s, c) == s
  {
    var a, b := StripCharBounds(s, c);
    if s != [] {
      assert a == 0 && b == |s|;
    }
  }

  /** Stripping a string that neither starts nor ends with a character of the class changes nothing. */
  lemma StripByNoop(s: string, p: char -> bool)
    requires s != [] ==> !p(s[0]) && !p(s[|s| - 1])
    ensures StripBy(s, p) == s
  {
    assert TrimLeft(s, p) == s;
  }

  /** A string of whitespace strips to nothing. */
  lemma StripAllSpace(s: string)
    requires forall i :: 0 <= i < |s| ==> IsSpace(s[i])
    ensures Strip(s) == []
  {
  }

  /** Where `str.strip` cuts: every character before `a` and from `b` on is in the class, and what is kept is the slice between. */
  lemma StripByBounds(s: string, p: char -> bool) returns (a: nat, b: nat)
    ensures a <= b <= |s| && StripBy(s, p) == s[a..b]
    ensures forall i :: 0 <= i < a ==> p(s[i])
    ensures forall i :: b <= i < |s| ==> p(s[i])
  {
    a, b := StripCut(s, p);
    TrimRightTail(s, a, p);
  }

  /** What `rstrip` removes from a suffix of `s` is a run of class characters at the end of `s`. */
  lemma TrimRightTail(s: string, a: nat, p: char -> bool)
    requires a <= |s|
    ensures forall i :: a + |TrimRight(s[a..], p)| <= i < |s| ==> p(s[i])
  {
    var l := s[a..];
    forall i | a + |TrimRight(l, p)| <= i < |s| ensures p(s[i]) {
      assert s[i] == l[i - a];
    }
  }

  lemma StripCut(s: string, p: char -> bool) returns (a: nat, b: nat)
    ensures a <= b <= |s| && StripBy(s, p) == s[a..b]
    ensures TrimLeft(s, p) == s[a..] && b == a + |TrimRight(s[a..], p)|
  {
    var l := TrimLeft(s, p);
    var r := TrimRight(l, p);
    a := |s| - |l|;
    b := a + |r|;
    assert StripBy(s, p) == r;
  }

  /** The same for `str.strip(c)`: the cut-off characters are all `c`. */
  lemma StripCharBounds(s: string, c: char) returns (a: nat, b: nat)
    ensures a <= b <= |s| && StripChar(s, c) == s[a..b]
    ensures forall i :: 0 <= i < a ==> s[i] == c
    ensures forall i :: b <= i < |s| ==> s[i] == c
  {
    var p := x => x == c;
    a, b := StripByBounds(s, p);
    forall i | 0 <= i < a ensures s[i] == c {
      assert p(s[i]);
    }
    forall i | b <= i < |s| ensures s[i] == c {
      assert p(s[i]);
    }
  }

  /** What `str.strip(c)` keeps: characters of the input, with no `c` at either end. */
  lemma StripCharFacts(s: string, c: char)
    ensures forall x :: x in StripChar(s, c) ==> x in s
    ensures StripChar(s, c) != [] ==> StripChar(s, c)[0] != c && StripChar(s, c)[|StripChar(s, c)| - 1] != c
  {
    var l := TrimLeft(s, x => x == c);
    var r := TrimRight(l, x => x == c);
    assert StripChar(s, c) == r;
    forall x | x in r ensures x in s {
      var i :| 0 <= i < |r| && r[i] == x;
      assert l[i] == x && s[|s| - |l| + i] == l[i];
    }
  }

  /** `len(s) - len(s.lstrip())`: the number of leading whitespace characters. */
  function Indent(s: string): nat {
    |s| - |TrimLeft(s, IsSpace)|
  }

  function LowerChar(c: char): char {
    if 'A' <= c <= 'Z' then (c as int + 32) as char else c
  }

  function UpperChar(c: char): char {
    if 'a' <= c <= 'z' then (c as int - 32) as char else c
  }

  /** `str.lower()` (ASCII letters only). */
  function Lower(s: string): (r: string)
    ensures |r| == |s|
  {
    seq(|s|, i requires 0 <= i < |s| => LowerChar(s[i]))
  }

  /** An upper-cased character is never a lower-case letter, and only letters change. */
  lemma UpperCharFacts(c: char)
    ensures !('a' <= UpperChar(c) <= 'z')
    ensures !('a' <= c <= 'z') ==> UpperChar(c) == c
    ensures 'a' <= c <= 'z' ==> 'A' <= UpperChar(c) <= 'Z'
  {
  }

  /** `str.upper()` (ASCII letters only). */
  function Upper(s: string): (r: string)
    ensures |r| == |s|
    ensures forall i :: 0 <= i < |s| ==> r[i] == UpperChar(s[i])
  {
    seq(|s|, i requires 0 <= i < |s| => UpperChar(s[i]))
  }

  lemma UpperAppend(a: string, b: string)
    ensures Upper(a + b) == Upper(a) + Upper(b)
  {
    assert forall i :: 0 <= i < |a + b| ==> Upper(a + b)[i] == (Upper(a) + Upper(b))[i];
  }

  /** Python's `sub in s` for strings. */
  predicate Contains(s: string, sub: string) {
    sub <= s || (s != [] && Contains(s[1..], sub))
  }

  /** `s[:n]` */
  function Take(s: string, n: nat): (r: string)
    ensures |r| == if |s| <= n then |s| else n
    ensures r <= s
  {
    if |s| <= n then s else s[..n]
  }

  /** The index of the first occurrence of `c` in `s` (`str.find`, with `None` for -1). */
  function IndexOf(s: string, c: char): (r: Option<nat>)
    ensures r.None? <==> c !in s
    ensures r.Some? ==> r.value < |s| && s[r.value] == c && c !in s[..r.value]
  {
    if s == [] then None
    else if s[0] == c then Some(0)
    else match IndexOf(s[1..], c)
      case None => None
      case Some(i) => assert s[1..][..i] == s[1..i + 1]; Some(i + 1)
  }

  /** `s.split(c)` for a one-character separator: always at least one piece. */
  function Split(s: string, c: char): (r: seq<string>)
    ensures |r| >= 1
    ensures forall k :: 0 <= k < |r| ==> c !in r[k]
    decreases |s|
  {
    match IndexOf(s, c)
    case None => [s]
    case Some(i) => [s[..i]] + Split(s[i + 1..], c)
  }

  /** `sep.join(parts)` */
  function Join(parts: seq<string>, sep: string): string {
    if parts == [] then ""
    else if |parts| == 1 then parts[0]
    else parts[0] + sep + Join(parts[1..], sep)
  }

  /** `s.split(c, 1)`: the text before the first `c` and, if there is one, the text after it. */
  function SplitOnce(s: string, c: char): (r: (string, Option<string>))
    ensures r.1.None? <==> c !in s
    ensures r.1.None? ==> r.0 == s
    ensures r.1.Some? ==> s == r.0 + [c] + r.1.value && c !in r.0
  {
    match IndexOf(s, c)
    case None => (s, None)
    case Some(i) =>
      assert s == s[..i] + [c] + s[i + 1..];
      (s[..i], Some(s[i + 1..]))
  }

  /** Splitting at the first `c` takes apart exactly the concatenation it was given. */
  lemma SplitOnceOf(a: string, c: char, b: string)
    requires c !in a
    ensures SplitOnce(a + [c] + b, c) == (a, Some(b))
  {
    var s := a + [c] + b;
    assert s[|a|] == c;
    var r := SplitOnce(s, c);
    assert r.1.Some?;
    assert r.0 == s[..|a|] == a;
    assert r.1.value == s[|a| + 1..] == b;
  }

  /** Concatenation is associative; stated once so that proofs can name the step. */
  lemma ConcatAssoc<T>(a: seq<T>, b: seq<T>, c: seq<T>)
    ensures (a + b) + c == a + (b + c)
  {
  }

  /** `s.replace(from, to)` for a one-character `from`. */
  function ReplaceChar(s: string, from: char, to: string): (r: string)
    ensures forall x :: x in r ==> (x in s && x != from) || x in to
    ensures from !in to ==> from !in r
  {
    if s == [] then ""
    else (if s[0] == from then to else [s[0]]) + ReplaceChar(s[1..], from, to)
  }

  /** Replacing a character the string does not hold changes nothing. */
  lemma {:induction false} ReplaceCharNoop(s: string, from: char, to: string)
    requires from !in s
    ensures ReplaceChar(s, from, to) == s
  {
    if s != [] {
      assert from !in s[1..];
      ReplaceCharNoop(s[1..], from, to);
      assert s == [s[0]] + s[1..];
    }
  }

  predicate IsLowerAscii(c: char) {
    'a' <= c <= 'z'
  }

  /** Upper-casing a string without lower-case letters changes nothing. */
  lemma UpperNoop(s: string)
    requires forall i :: 0 <= i < |s| ==> !IsLowerAscii(s[i])
    ensures Upper(s) == s
  {
  }

  function DigitChar(d: nat): char
    requires d < 10
  {
    ('0' as int + d) as char
  }

  /** `str(n)` for a natural number. */
  function NatToString(n: nat): (r: string)
    ensures IsDigits(r)
  {
    if n < 10 then [DigitChar(n)] else NatToString(n / 10) + [DigitChar(n % 10)]
  }

  /** `str(i)` for an integer. */
  function IntToString(i: int): string {
    if i < 0 then "-" + NatToString(-i) else NatToString(i)
  }

  /** `int(s)` for a string of decimal digits. */
  function DigitsValue(s: string): nat
    requires IsDigits(s)
  {
    var d := s[|s| - 1] as int - '0' as int;
    if |s| == 1 then d else DigitsValue(s[..|s| - 1]) * 10 + d
  }

  /** Reading back a printed natural number gives the number. */
  lemma {:induction false} DigitsValueOfNatToString(n: nat)
    ensures DigitsValue(NatToString(n)) == n
  {
    if n >= 10 {
      var s := NatToString(n);
      assert s[..|s| - 1] == NatToString(n / 10);
      DigitsValueOfNatToString(n / 10);
    }
  }

  /** Printing is injective: distinct numbers print differently. */
  lemma NatToStringInjective(m: nat, n: nat)
    requires NatToString(m) == NatToString(n)
    ensures m == n
  {
    DigitsValueOfNatToString(m);
    DigitsValueOfNatToString(n);
  }

  /** Splitting on `c` and joining with `c` is the identity. */
  lemma {:induction false} JoinSplit(s: string, c: char)
    ensures Join(Split(s, c), [c]) == s
    decreases |s|
  {
    match IndexOf(s, c)
    case None =>
    case Some(i) =>
      var rest := s[i + 1..];
      var pieces := Split(rest, c);
      assert Split(s, c) == [s[..i]] + pieces;
      assert ([s[..i]] + pieces)[1..] == pieces;
      JoinSplit(rest, c);
      calc {
        Join(Split(s, c), [c]);
        s[..i] + [c] + Join(pieces, [c]);
        s[..i] + [c] + rest;
        { assert s == s[..i] + [c] + rest; }
        s;
      }
  }

  /** Joining separator-free pieces and splitting again recovers the pieces. */
  lemma {:induction false} SplitJoin(parts: seq<string>, c: char)
    requires |parts| >= 1
    requires forall k :: 0 <= k < |parts| ==> c !in parts[k]
    ensures Split(Join(parts, [c]), c) == parts
  {
    if |parts| > 1 {
      var s := Join(parts, [c]);
      var tail := Join(parts[1..], [c]);
      assert s == parts[0] + [c] + tail;
      SplitJoin(parts[1..], c);
      assert IndexOf(s, c) == Some(|parts[0]|) by {
        assert s[|parts[0]|] == c;
        assert s[..|parts[0]|] == parts[0];
      }
      assert s[|parts[0]| + 1..] == tail;
    } else {
      assert Join(parts, [c]) == parts[0];
      assert IndexOf(parts[0], c) == None;
    }
  }
}
