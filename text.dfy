/**
 * The few string operations of Python's `str` that the service relies on:
 * `strip()`, `upper()`, `endswith()` and `split(' ')`.
 */
module Text {

  /** `str.isspace()` for a single character. */
  predicate IsSpace(c: char) {
    || c == ' ' || c == '\t' || c == '\n' || c == '\r' || c == '\U{0B}' || c == '\U{0C}'
    || ('\U{1C}' <= c <= '\U{1F}') || c == '\U{85}' || c == '\U{A0}' || c == '\U{1680}'
    || ('\U{2000}' <= c <= '\U{200A}') || c == '\U{2028}' || c == '\U{2029}'
    || c == '\U{202F}' || c == '\U{205F}' || c == '\U{3000}'
  }

  /** Number of whitespace characters at the start of `s`. */
  function LeadingSpaces(s: string): (n: nat)
    ensures n <= |s|
    ensures forall i :: 0 <= i < n ==> IsSpace(s[i])
    ensures n < |s| ==> !IsSpace(s[n])
  {
    if |s| > 0 && IsSpace(s[0]) then 1 + LeadingSpaces(s[1..]) else 0
  }

  /** Number of whitespace characters at the end of `s`. */
  function TrailingSpaces(s: string): (n: nat)
    ensures n <= |s|
    ensures forall i :: |s| - n <= i < |s| ==> IsSpace(s[i])
    ensures n < |s| ==> !IsSpace(s[|s| - n - 1])
  {
    if |s| > 0 && IsSpace(s[|s| - 1]) then 1 + TrailingSpaces(s[..|s| - 1]) else 0
  }

  /** No whitespace at either end. */
  predicate Trimmed(s: string) {
    |s| > 0 ==> !IsSpace(s[0]) && !IsSpace(s[|s| - 1])
  }

  /** `str.strip()`: drop whitespace from both ends. */
  function Strip(s: string): (r: string)
    ensures Trimmed(r)
    ensures |r| <= |s|
    ensures LeadingSpaces(s) + |r| <= |s| && r == s[LeadingSpaces(s)..LeadingSpaces(s) + |r|]
    ensures forall i :: 0 <= i < |s| && !(LeadingSpaces(s) <= i < LeadingSpaces(s) + |r|) ==> IsSpace(s[i])
  {
    var a := LeadingSpaces(s);
    var t := s[a..];
    var b := TrailingSpaces(t);
    assert t[..|t| - b] == s[a..a + (|t| - b)];
    t[..|t| - b]
  }

  /** A string that has nothing to strip is left as it is. */
  lemma StripTrimmed(s: string)
    requires Trimmed(s)
    ensures Strip(s) == s
  {
    assert LeadingSpaces(s) == 0;
    assert TrailingSpaces(s) == 0;
  }

  /** `str.upper()` on one character (ASCII letters only). */
  function UpperChar(c: char): (u: char)
    ensures IsSpace(u) <==> IsSpace(c)
    ensures 'a' <= c <= 'z' ==> u as int == c as int - 32
    ensures !('a' <= c <= 'z') ==> u == c
  {
    if 'a' <= c <= 'z' then (c as int - 32) as char else c
  }

  /** `str.upper()`, character by character. */
  function Upper(s: string): (r: string)
    ensures |r| == |s|
    ensures forall i :: 0 <= i < |s| ==> r[i] == UpperChar(s[i])
  {
    seq(|s|, i requires 0 <= i < |s| => UpperChar(s[i]))
  }

  /** Upper-casing twice is upper-casing once. */
  lemma UpperIdempotent(s: string)
    ensures Upper(Upper(s)) == Upper(s)
  {
  }

  /** Upper-casing neither adds nor removes whitespace at the ends. */
  lemma UpperKeepsTrimmed(s: string)
    requires Trimmed(s)
    ensures Trimmed(Upper(s))
  {
  }

  /** `s.endswith(suffix)`. */
  predicate EndsWith(s: string, suffix: string) {
    |suffix| <= |s| && s[|s| - |suffix|..] == suffix
  }

  /** Position of the first space in `s`, if any. */
  function FirstSpace(s: string): (i: nat)
    requires ' ' in s
    ensures i < |s| && s[i] == ' ' && ' ' !in s[..i]
  {
    if s[0] == ' ' then 0 else
      assert ' ' in s[1..] by { var k :| 0 <= k < |s| && s[k] == ' '; assert s[1..][k - 1] == ' '; }
      var j := FirstSpace(s[1..]);
      assert s[..j + 1] == [s[0]] + s[1..][..j];
      j + 1
  }

  /** `s.split(' ')`: the pieces between single spaces, in order (empty pieces kept). */
  function Split(s: string): (parts: seq<string>)
    ensures |parts| >= 1
    ensures forall k :: 0 <= k < |parts| ==> ' ' !in parts[k]
    decreases |s|
  {
    if ' ' !in s then [s]
    else
      var i := FirstSpace(s);
      [s[..i]] + Split(s[i + 1..])
  }

  /** The pieces joined back with single spaces. */
  function JoinWithSpaces(parts: seq<string>): string
    requires |parts| >= 1
  {
    if |parts| == 1 then parts[0] else parts[0] + " " + JoinWithSpaces(parts[1..])
  }

  /** Splitting loses nothing: joining the pieces gives the string back. */
  lemma {:induction false} JoinSplit(s: string)
    ensures JoinWithSpaces(Split(s)) == s
    decreases |s|
  {
    if ' ' in s {
      var i := FirstSpace(s);
      JoinSplit(s[i + 1..]);
      assert Split(s)[1..] == Split(s[i + 1..]);
      assert s == s[..i] + " " + s[i + 1..];
    }
  }

  /** `split(' ')` yields one piece more than there are spaces. */
  lemma {:induction false} SplitCount(s: string)
    ensures |Split(s)| == multiset(s)[' '] + 1
    decreases |s|
  {
    if ' ' !in s {
      assert multiset(s)[' '] == 0;
    } else {
      var i := FirstSpace(s);
      SplitCount(s[i + 1..]);
      assert s == s[..i] + [' '] + s[i + 1..];
      assert multiset(s) == multiset(s[..i]) + multiset{' '} + multiset(s[i + 1..]);
      assert multiset(s[..i])[' '] == 0;
    }
  }

  /** A string with exactly one space, at position `i`, splits into the text before and after it. */
  lemma SplitOneSpace(s: string, i: nat)
    requires i < |s| && s[i] == ' '
    requires ' ' !in s[..i] && ' ' !in s[i + 1..]
    ensures Split(s) == [s[..i], s[i + 1..]]
  {
    assert ' ' in s;
    assert FirstSpace(s) == i;
  }
}
