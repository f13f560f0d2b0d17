/**
 * The java.lang.String operations the server relies on, over `seq<char>`.
 */
module Strings {

  /** `s.startsWith(p)`. */
  predicate StartsWith(s: string, p: string) {
    p <= s
  }

  /** `s.endsWith(p)`. */
  predicate EndsWith(s: string, p: string) {
    |p| <= |s| && s[|s| - |p|..] == p
  }

  /**
   * `s.replace(target, replacement)`: a left-to-right scan that replaces each
   * non-overlapping occurrence of `target` and copies everything else.
   */
  function Replace(s: string, target: string, replacement: string): (r: string)
    requires target != []
    ensures |replacement| <= |target| ==> |r| <= |s|
    ensures s != [] && |replacement| < |target| && StartsWith(s, target) ==> |r| < |s|
    decreases |s|
  {
    if s == [] then []
    else if StartsWith(s, target) then replacement + Replace(s[|target|..], target, replacement)
    else [s[0]] + Replace(s[1..], target, replacement)
  }

  /** A string with no occurrence of `target` comes back from `Replace` unchanged. */
  lemma {:induction false} ReplaceWithoutOccurrence(s: string, target: string, replacement: string)
    requires target != []
    requires forall i :: 0 <= i < |s| ==> !StartsWith(s[i..], target)
    ensures Replace(s, target, replacement) == s
    decreases |s|
  {
    if s != [] {
      assert !StartsWith(s[0..], target);
      assert s[0..] == s;
      forall i | 0 <= i < |s[1..]|
        ensures !StartsWith(s[1..][i..], target)
      {
        assert s[1..][i..] == s[i + 1..];
      }
      ReplaceWithoutOccurrence(s[1..], target, replacement);
    }
  }

  /** ASCII upper-case letters are mapped to lower case; every other character is kept. */
  function LowerChar(c: char): char {
    if 'A' <= c <= 'Z' then (c as int + 32) as char else c
  }

  /** `s.toLowerCase()` restricted to ASCII, character by character. */
  function ToLower(s: string): (r: string)
    ensures |r| == |s|
    ensures forall i :: 0 <= i < |s| ==> r[i] == LowerChar(s[i])
  {
    seq(|s|, i requires 0 <= i < |s| => LowerChar(s[i]))
  }

  /** Lower-casing distributes over concatenation. */
  /** `s.indexOf(c)`, or |s| when `c` does not occur. */
  function IndexOf(s: string, c: char): (k: nat)
    ensures k <= |s|
    ensures c !in s[..k]
    ensures k < |s| ==> s[k] == c
    ensures k == |s| <==> c !in s
  {
    if s == [] then 0
    else if s[0] == c then 0
    else 1 + IndexOf(s[1..], c)
  }
}
