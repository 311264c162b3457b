/**
 * The few java.lang.String operations the loader relies on, over `string` (a sequence of
 * Unicode scalar values; Java's strings are UTF-16 code units, so indices differ for characters
 * outside the Basic Multilingual Plane). Case conversion is modelled for ASCII letters only.
 */
module Strings {

  /** `s.startsWith(p)`. */
  predicate StartsWith(s: string, p: string) {
    |p| <= |s| && s[..|p|] == p
  }

  /** `s.endsWith(p)`. */
  predicate EndsWith(s: string, p: string) {
    |p| <= |s| && s[|s| - |p|..] == p
  }

  /** `t` occurs in `s` starting at index `k`. */
  predicate OccursAt(s: string, t: string, k: int) {
    0 <= k && k + |t| <= |s| && s[k..k + |t|] == t
  }

  predicate IsUpper(c: char) {
    'A' <= c <= 'Z'
  }

  /** `Character.toLowerCase` restricted to ASCII. */
  function LowerChar(c: char): (d: char)
    ensures !IsUpper(d)
    ensures !IsUpper(c) ==> d == c
    ensures IsUpper(c) ==> d as int == c as int + 32
  {
    if IsUpper(c) then (c as int + 32) as char else c
  }

  /** No character of `s` is an upper-case letter. */
  predicate IsLowered(s: string) {
    forall i :: 0 <= i < |s| ==> !IsUpper(s[i])
  }

  /** `s.toLowerCase()`, ASCII letters only. */
  function Lower(s: string): (r: string)
    ensures |r| == |s| && IsLowered(r)
    ensures forall i :: 0 <= i < |s| ==> r[i] == LowerChar(s[i])
  {
    if s == [] then [] else [LowerChar(s[0])] + Lower(s[1..])
  }

  /** Neither end of `s` is a character Java's `trim` removes (code point at most U+0020). */
  predicate IsTrimmed(s: string) {
    s == [] || (s[0] > ' ' && s[|s| - 1] > ' ')
  }

  /** Drops the leading characters at most U+0020. */
  function TrimStart(s: string): (r: string)
    ensures |r| <= |s| && r == s[|s| - |r|..]
    ensures r == [] || r[0] > ' '
    ensures forall k :: 0 <= k < |s| - |r| ==> s[k] <= ' '
  {
    if |s| > 0 && s[0] <= ' ' then TrimStart(s[1..]) else s
  }

  /** Drops the trailing characters at most U+0020. */
  function TrimEnd(s: string): (r: string)
    ensures |r| <= |s| && r == s[..|r|]
    ensures r == [] || r[|r| - 1] > ' '
    ensures forall k :: |r| <= k < |s| ==> s[k] <= ' '
  {
    if |s| > 0 && s[|s| - 1] <= ' ' then TrimEnd(s[..|s| - 1]) else s
  }

  /** `s.trim()`: a contiguous piece of `s` with nothing left to trim at either end. */
  function Trim(s: string): (r: string)
    ensures IsTrimmed(r)
    ensures IsTrimmed(s) ==> r == s
  {
    var t := TrimStart(s);
    var r := TrimEnd(t);
    assert r != [] ==> r[0] == t[0];
    r
  }

  /** Any piece of a lower-cased string is lower-cased. */
  lemma SliceKeepsLowered(s: string, i: int, j: int)
    requires IsLowered(s) && 0 <= i <= j <= |s|
    ensures IsLowered(s[i..j])
  {
    forall k | 0 <= k < j - i ensures !IsUpper(s[i..j][k]) {
      assert s[i..j][k] == s[i + k];
    }
  }

  /** Trimming keeps a lower-cased string lower-cased: it only drops characters. */
  lemma TrimKeepsLowered(s: string)
    requires IsLowered(s)
    ensures IsLowered(Trim(s))
  {
    var t := TrimStart(s);
    SliceKeepsLowered(s, |s| - |t|, |s|);
    assert t == s[|s| - |t|..|s|];
    var r := TrimEnd(t);
    SliceKeepsLowered(t, 0, |r|);
    assert r == t[0..|r|];
  }

  /** `s.indexOf(c)`: the first index of `c`, or -1. */
  function IndexOf(s: string, c: char): (r: int)
    ensures -1 <= r
    ensures r == -1 <==> c !in s
    ensures 0 <= r ==> r < |s| && s[r] == c && c !in s[..r]
  {
    if |s| == 0 then -1
    else if s[0] == c then 0
    else
      var k := IndexOf(s[1..], c);
      if k == -1 then -1
      else
        assert s[1..][..k] == s[1..k + 1];
        k + 1
  }

  /** The largest index at most `k` where `t` occurs in `s`, or -1. */
  function LastIndexOfFrom(s: string, t: string, k: int): (r: int)
    decreases k + 1
    ensures r == -1 || 0 <= r <= k
    ensures r >= 0 ==> OccursAt(s, t, r)
    ensures forall j :: r < j <= k ==> !OccursAt(s, t, j)
  {
    if k < 0 then -1
    else if OccursAt(s, t, k) then k
    else LastIndexOfFrom(s, t, k - 1)
  }

  /** `s.lastIndexOf(t)`: the last index where `t` occurs in `s`, or -1. */
  function LastIndexOf(s: string, t: string): (r: int)
    ensures -1 <= r
    ensures r >= 0 ==> OccursAt(s, t, r)
    ensures forall j :: r < j ==> !OccursAt(s, t, j)
  {
    LastIndexOfFrom(s, t, |s| - |t|)
  }

  /** When `s` ends with `t`, the last occurrence of `t` is that suffix. */
  lemma LastIndexOfSuffix(s: string, t: string)
    requires EndsWith(s, t)
    ensures LastIndexOf(s, t) == |s| - |t|
  {
    assert OccursAt(s, t, |s| - |t|);
  }

  /** Lower-casing a string without upper-case letters changes nothing. */
  lemma LoweredIsFixed(s: string)
    requires IsLowered(s)
    ensures Lower(s) == s
  {
  }
}
