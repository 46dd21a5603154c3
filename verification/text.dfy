/**
  String helpers with the meaning of Python's `str.strip` and `str.replace`
  on single characters, as the crawler uses them.
 */
module Text {

  /** The characters for which Python's `str.isspace()` holds; `str.strip()`
      with no argument removes exactly these. */
  predicate IsSpace(c: char) {
    var n := c as int;
    || (0x09 <= n <= 0x0D)
    || (0x1C <= n <= 0x20)
    || n == 0x85 || n == 0xA0 || n == 0x1680
    || (0x2000 <= n <= 0x200A)
    || n == 0x2028 || n == 0x2029 || n == 0x202F || n == 0x205F || n == 0x3000
  }

  predicate IsSlash(c: char) {
    c == '/'
  }

  /** Removing `s[..i]` and `s[j..]` removes the longest prefix and the
      longest suffix of `s` made of characters satisfying `drop`. */
  ghost predicate TrimsAt(s: string, drop: char -> bool, i: int, j: int) {
    && 0 <= i <= j <= |s|
    && (forall k :: 0 <= k < i ==> drop(s[k]))
    && (forall k :: j <= k < |s| ==> drop(s[k]))
    && (i == j || (!drop(s[i]) && !drop(s[j - 1])))
  }

  /** `r` is what remains of `s` after removing the longest prefix and the
      longest suffix made of characters satisfying `drop`. */
  ghost predicate IsTrimOf(r: string, s: string, drop: char -> bool) {
    exists i, j :: TrimsAt(s, drop, i, j) && r == s[i..j]
  }

  /** Number of leading characters of `s` that satisfy `drop`. */
  function LeadingCount(s: string, drop: char -> bool): (k: nat)
    ensures k <= |s|
    ensures forall i :: 0 <= i < k ==> drop(s[i])
    ensures k == |s| || !drop(s[k])
  {
    if s == [] || !drop(s[0]) then 0 else 1 + LeadingCount(s[1..], drop)
  }

  /** Index, not below `lo`, where the trailing run of `drop` characters of `s` starts. */
  function TrailingStart(s: string, lo: nat, drop: char -> bool): (j: nat)
    requires lo <= |s|
    ensures lo <= j <= |s|
    ensures forall i :: j <= i < |s| ==> drop(s[i])
    ensures j == lo || !drop(s[j - 1])
    decreases |s|
  {
    if |s| == lo || !drop(s[|s| - 1]) then |s|
    else TrailingStart(s[..|s| - 1], lo, drop)
  }

  /** Python's `s.strip(chars)`, with `drop` the membership test of `chars`. */
  function Trim(s: string, drop: char -> bool): (r: string)
    ensures IsTrimOf(r, s, drop)
  {
    var i := LeadingCount(s, drop);
    var j := TrailingStart(s, i, drop);
    assert TrimsAt(s, drop, i, j);
    s[i..j]
  }

  /** Any cut satisfying `TrimsAt` keeps exactly the characters `Trim` keeps. */
  lemma TrimsAtCanonical(s: string, drop: char -> bool, i: int, j: int)
    requires TrimsAt(s, drop, i, j)
    ensures s[i..j] == Trim(s, drop)
  {
    var i0 := LeadingCount(s, drop);
    var j0 := TrailingStart(s, i0, drop);
    if i == j {
      // every character is dropped, so the canonical cut is empty as well
      assert forall k :: 0 <= k < |s| ==> drop(s[k]);
      assert i0 == |s|;
    } else {
      assert i == i0;
    }
  }

  /** The trim of a string is determined by the string: `IsTrimOf` has exactly one solution. */
  lemma TrimUnique(r1: string, r2: string, s: string, drop: char -> bool)
    requires IsTrimOf(r1, s, drop) && IsTrimOf(r2, s, drop)
    ensures r1 == r2
  {
    var i1, j1 :| TrimsAt(s, drop, i1, j1) && r1 == s[i1..j1];
    var i2, j2 :| TrimsAt(s, drop, i2, j2) && r2 == s[i2..j2];
    TrimsAtCanonical(s, drop, i1, j1);
    TrimsAtCanonical(s, drop, i2, j2);
  }

  /** Python's `s.strip()`: surrounding whitespace removed. */
  function Strip(s: string): (r: string)
    ensures IsTrimOf(r, s, IsSpace)
  {
    Trim(s, IsSpace)
  }

  /** Python's `s.replace(a, b)` for one-character `a` and `b`. */
  function ReplaceChar(s: string, a: char, b: char): (r: string)
    ensures |r| == |s|
    ensures forall i :: 0 <= i < |s| ==> r[i] == (if s[i] == a then b else s[i])
  {
    if s == [] then [] else [if s[0] == a then b else s[0]] + ReplaceChar(s[1..], a, b)
  }
}
