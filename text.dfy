/**
 * The parts of Python's `str` that the backend relies on: `strip()` (Unicode
 * whitespace), `strip(chars)`, `lower()`, `upper()`, `startswith`, `endswith` and `in`.
 * Case mapping is modelled on ASCII letters only.
 */
module Text {

  /** Python's `str.isspace` for one character. */
  predicate IsSpace(c: char)
  {
    || '\t' <= c <= '\r' || '\U{1C}' <= c <= ' ' || c == '\U{85}' || c == '\U{A0}'
    || c == '\U{1680}' || '\U{2000}' <= c <= '\U{200A}' || c == '\U{2028}' || c == '\U{2029}'
    || c == '\U{202F}' || c == '\U{205F}' || c == '\U{3000}'
  }

  predicate IsUnderscore(c: char) { c == '_' }

  /** How many leading characters satisfy `drop`. */
  function LeadCount(s: string, drop: char -> bool): (n: nat)
    ensures n <= |s|
    ensures forall k :: 0 <= k < n ==> drop(s[k])
    ensures n < |s| ==> !drop(s[n])
  {
    if s == [] || !drop(s[0]) then 0
    else
      var n := LeadCount(s[1..], drop);
      assert forall k :: 1 <= k < n + 1 ==> s[k] == s[1..][k - 1];
      n + 1
  }

  /** How many trailing characters satisfy `drop`. */
  function TrailCount(s: string, drop: char -> bool): (n: nat)
    ensures n <= |s|
    ensures forall k :: |s| - n <= k < |s| ==> drop(s[k])
    ensures n < |s| ==> !drop(s[|s| - 1 - n])
  {
    if s == [] || !drop(s[|s| - 1]) then 0
    else
      var n := TrailCount(s[..|s| - 1], drop);
      assert forall k :: |s| - 1 - n <= k < |s| - 1 ==> s[k] == s[..|s| - 1][k];
      n + 1
  }

  /** Drops the leading characters that satisfy `drop`. */
  function TrimLeft(s: string, drop: char -> bool): string
  {
    s[LeadCount(s, drop)..]
  }

  /** Drops the trailing characters that satisfy `drop`. */
  function TrimRight(s: string, drop: char -> bool): string
  {
    s[..|s| - TrailCount(s, drop)]
  }

  /** Python's `s.strip(chars)` with the characters given by `drop`. */
  function Trim(s: string, drop: char -> bool): (r: string)
  {
    TrimRight(TrimLeft(s, drop), drop)
  }

  /** Python's `s.strip()`. */
  function Strip(s: string): string
  {
    Trim(s, IsSpace)
  }

  /** What is left after trimming can neither start nor end with a dropped character. */
  lemma TrimEnds(s: string, drop: char -> bool)
    ensures Trim(s, drop) == [] || (!drop(Trim(s, drop)[0]) && !drop(Trim(s, drop)[|Trim(s, drop)| - 1]))
    ensures Trim(s, drop) == [] <==> forall k :: 0 <= k < |s| ==> drop(s[k])
  {
    var a := LeadCount(s, drop);
    var l := s[a..];
    var b := TrailCount(l, drop);
    var r := l[..|l| - b];
    assert Trim(s, drop) == r;
    if r != [] {
      assert r[0] == l[0] == s[a];
      assert r[|r| - 1] == l[|l| - 1 - b];
    } else {
      assert a == |s|;
    }
  }

  /** What trimming leaves is a slice of `s`, starting after the dropped leading characters. */
  lemma TrimSlice(s: string, drop: char -> bool)
    ensures LeadCount(s, drop) + |Trim(s, drop)| <= |s|
    ensures forall k :: 0 <= k < |Trim(s, drop)| ==> Trim(s, drop)[k] == s[LeadCount(s, drop) + k]
  {
    var a := LeadCount(s, drop);
    var l := s[a..];
    assert Trim(s, drop) == l[..|l| - TrailCount(l, drop)];
  }

  /** Trimming keeps exactly the slice from the first to the last kept character. */
  lemma TrimBetween(s: string, drop: char -> bool, lo: nat, hi: nat)
    requires lo < hi <= |s|
    requires !drop(s[lo]) && !drop(s[hi - 1])
    requires forall k :: 0 <= k < lo ==> drop(s[k])
    requires forall k :: hi <= k < |s| ==> drop(s[k])
    ensures Trim(s, drop) == s[lo..hi]
  {
    var a := LeadCount(s, drop);
    assert a == lo;
    var l := s[lo..];
    var b := TrailCount(l, drop);
    assert l[|l| - 1 - (|s| - hi)] == s[hi - 1];
    assert b == |s| - hi;
    assert l[..|l| - b] == s[lo..hi];
  }

  /** Nothing but whitespace. */
  predicate Blank(s: string)
  {
    forall k :: 0 <= k < |s| ==> IsSpace(s[k])
  }

  lemma BlankConcat(a: string, b: string)
    requires Blank(a) && Blank(b)
    ensures Blank(a + b)
  {
    assert forall k :: 0 <= k < |a + b| ==> (a + b)[k] == if k < |a| then a[k] else b[k - |a|];
  }

  /** Whitespace strips to the empty string. */
  lemma StripBlank(s: string)
    requires Blank(s)
    ensures Strip(s) == []
  {
    TrimEnds(s, IsSpace);
  }

  /** Neither end is whitespace: what `strip()` leaves unchanged. */
  predicate NoOuterSpace(s: string)
  {
    s == [] || (!IsSpace(s[0]) && !IsSpace(s[|s| - 1]))
  }

  /** A string that neither begins nor ends with whitespace is its own strip. */
  lemma StripKeeps(s: string)
    requires NoOuterSpace(s)
    ensures Strip(s) == s
  {
    if s != [] {
      assert TrimLeft(s, IsSpace) == s;
    }
  }

  /** Whitespace around a string without outer whitespace is exactly what strip removes. */
  lemma StripPadded(pre: string, t: string, post: string)
    requires forall k :: 0 <= k < |pre| ==> IsSpace(pre[k])
    requires forall k :: 0 <= k < |post| ==> IsSpace(post[k])
    requires t != [] && NoOuterSpace(t)
    ensures Strip(pre + t + post) == t
  {
    var s := pre + t + post;
    assert forall k :: 0 <= k < |pre| ==> s[k] == pre[k];
    assert s[|pre|] == t[0];
    assert LeadCount(s, IsSpace) == |pre|;
    var l := s[|pre|..];
    assert l == t + post;
    assert forall k :: 0 <= k < |post| ==> l[|t| + k] == post[k];
    assert l[|t| - 1] == t[|t| - 1];
    assert TrailCount(l, IsSpace) == |post|;
    assert l[..|t|] == t;
  }

  /** Trimming twice removes nothing more. */
  lemma TrimIdempotent(s: string, drop: char -> bool)
    ensures Trim(Trim(s, drop), drop) == Trim(s, drop)
  {
    var r := Trim(s, drop);
    TrimEnds(s, drop);
    if r != [] {
      assert TrimLeft(r, drop) == r;
      assert TrimRight(r, drop) == r;
    }
  }

  function LowerChar(c: char): char
  {
    if 'A' <= c <= 'Z' then (c as int + 32) as char else c
  }

  function UpperChar(c: char): char
  {
    if 'a' <= c <= 'z' then (c as int - 32) as char else c
  }

  /** Python's `s.lower()` on ASCII letters. */
  function Lower(s: string): (r: string)
    ensures |r| == |s| && forall k :: 0 <= k < |s| ==> r[k] == LowerChar(s[k])
  {
    seq(|s|, k requires 0 <= k < |s| => LowerChar(s[k]))
  }

  /** Python's `s.upper()` on ASCII letters. */
  function Upper(s: string): (r: string)
    ensures |r| == |s| && forall k :: 0 <= k < |s| ==> r[k] == UpperChar(s[k])
  {
    seq(|s|, k requires 0 <= k < |s| => UpperChar(s[k]))
  }

  /** Lowering twice changes nothing more. */
  lemma LowerIdempotent(s: string)
    ensures Lower(Lower(s)) == Lower(s)
  {
  }

  /** Case mapping neither creates nor removes whitespace, so it commutes with strip. */
  lemma {:induction false} StripLower(s: string)
    ensures Strip(Lower(s)) == Lower(Strip(s))
  {
    LeftLower(s);
    RightLower(TrimLeft(s, IsSpace));
  }

  lemma SpaceLower(c: char)
    ensures IsSpace(LowerChar(c)) == IsSpace(c)
  {
  }

  lemma {:induction false} LeftLower(s: string)
    ensures TrimLeft(Lower(s), IsSpace) == Lower(TrimLeft(s, IsSpace))
  {
    if s != [] {
      SpaceLower(s[0]);
      assert Lower(s)[1..] == Lower(s[1..]);
      LeftLower(s[1..]);
    }
  }

  lemma {:induction false} RightLower(s: string)
    ensures TrimRight(Lower(s), IsSpace) == Lower(TrimRight(s, IsSpace))
  {
    if s != [] {
      SpaceLower(s[|s| - 1]);
      assert Lower(s)[..|s| - 1] == Lower(s[..|s| - 1]);
      RightLower(s[..|s| - 1]);
    }
  }

  /** Python's `s.startswith(p)`. */
  predicate StartsWith(s: string, p: string) { p <= s }

  /** Python's `s.endswith(p)`. */
  predicate EndsWith(s: string, p: string)
  {
    |p| <= |s| && s[|s| - |p|..] == p
  }

  /** Python's `sub in s`. */
  predicate Contains(s: string, sub: string)
  {
    exists i :: 0 <= i <= |s| && sub <= s[i..]
  }
}
