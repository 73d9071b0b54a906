/** Character and string helpers: ASCII case folding, prefixes and suffixes,
    the last dot-separated segment of a name, and the line terminators that
    a regular-expression `.` refuses to match. */
module Text {

  predicate IsUpperAscii(c: char) {
    'A' <= c <= 'Z'
  }

  predicate IsDigit(c: char) {
    '0' <= c <= '9'
  }

  /** The characters a JavaScript regular expression `.` does not match
      (no `s` flag): line feed, carriage return, line and paragraph separator. */
  predicate IsLineTerminator(c: char) {
    c == '\n' || c == '\r' || c == '\U{2028}' || c == '\U{2029}'
  }

  predicate NoLineTerminator(s: string) {
    forall i :: 0 <= i < |s| ==> !IsLineTerminator(s[i])
  }

  /** Lower-cases one ASCII capital and leaves every other character alone. */
  function LowerChar(c: char): char {
    if IsUpperAscii(c) then (c as int + 32) as char else c
  }

  /** Lower-cases the ASCII capitals of `s`. */
  function LowerAscii(s: string): (r: string)
    ensures |r| == |s|
    ensures forall i :: 0 <= i < |s| ==> r[i] == LowerChar(s[i])
  {
    seq(|s|, i requires 0 <= i < |s| => LowerChar(s[i]))
  }

  predicate StartsWith(s: string, prefix: string) {
    |prefix| <= |s| && s[..|prefix|] == prefix
  }

  predicate EndsWith(s: string, suffix: string) {
    |suffix| <= |s| && s[|s| - |suffix|..] == suffix
  }

  /** The text after the last `.` of `s`, or all of `s` when it has no dot:
      the last element of `s.split('.')`. */
  function LastSegment(s: string): (r: string)
    ensures '.' !in r
    ensures |r| <= |s| && r == s[|s| - |r|..]
    ensures |r| < |s| ==> s[|s| - |r| - 1] == '.'
  {
    if |s| == 0 then ""
    else if s[|s| - 1] == '.' then ""
    else LastSegment(s[..|s| - 1]) + [s[|s| - 1]]
  }

  lemma LowerCharIdempotent(c: char)
    ensures LowerChar(LowerChar(c)) == LowerChar(c)
  {
  }

  /** Folding twice is folding once. */
  lemma LowerAsciiIdempotent(s: string)
    ensures LowerAscii(LowerAscii(s)) == LowerAscii(s)
  {
    forall i | 0 <= i < |s|
      ensures LowerAscii(LowerAscii(s))[i] == LowerAscii(s)[i]
    {
      LowerCharIdempotent(s[i]);
    }
  }

  /** Folding commutes with cutting off a suffix. */
  lemma LowerAsciiSuffix(s: string, k: nat)
    requires k <= |s|
    ensures LowerAscii(s[k..]) == LowerAscii(s)[k..]
  {
  }

  /** The last segment is the only dot-free suffix that is either all of
      `s` or preceded by a dot. */
  lemma LastSegmentUnique(s: string, r: string)
    requires '.' !in r
    requires |r| <= |s| && r == s[|s| - |r|..]
    requires |r| < |s| ==> s[|s| - |r| - 1] == '.'
    ensures r == LastSegment(s)
  {
  }

  /** Case folding does not move the dots, so the last segment of a folded
      name is the folded last segment. */
  lemma LastSegmentLower(s: string)
    ensures LastSegment(LowerAscii(s)) == LowerAscii(LastSegment(s))
  {
    var t := LowerAscii(s);
    var q := LastSegment(s);
    var r := LowerAscii(q);
    assert r == t[|t| - |r|..] by {
      LowerAsciiSuffix(s, |s| - |q|);
    }
    LastSegmentUnique(t, r);
  }
}
