/**
  What several parts need: the larger and the smaller of two numbers, the size
  of a part of a set, and white space.
 */
module Basics {
  function Max(a: int, b: int): int { if a < b then b else a }

  function Min(a: nat, b: nat): nat { if a < b then a else b }

  lemma PartIsSmaller<T>(part: set<T>, whole: set<T>)
    requires part <= whole
    ensures |part| <= |whole|
    ensures part != whole ==> |part| < |whole|
  {
    assert whole == part + (whole - part);
    assert |whole| == |part| + |whole - part|;
  }

  /** The characters Unicode calls white space. */
  predicate IsSpace(c: char) {
    || '\t' <= c <= '\r' || c == ' ' || c == '\U{85}' || c == '\U{A0}' || c == '\U{1680}'
    || '\U{2000}' <= c <= '\U{200A}' || c == '\U{2028}' || c == '\U{2029}'
    || c == '\U{202F}' || c == '\U{205F}' || c == '\U{3000}'
  }

  function TrimStart(s: string): string {
    if s != [] && IsSpace(s[0]) then TrimStart(s[1..]) else s
  }

  function TrimEnd(s: string): string {
    if s != [] && IsSpace(s[|s| - 1]) then TrimEnd(s[..|s| - 1]) else s
  }

  function Trim(s: string): string {
    TrimEnd(TrimStart(s))
  }

  /** `t` is `s` without the white space at either end. */
  ghost predicate IsTrimmed(s: string, t: string) {
    exists i, j :: TrimmedAt(s, t, i, j)
  }

  ghost predicate TrimmedAt(s: string, t: string, i: int, j: int) {
    && 0 <= i <= j <= |s| && t == s[i..j]
    && (forall k :: 0 <= k < i || j <= k < |s| ==> IsSpace(s[k]))
    && (t != [] ==> !IsSpace(t[0]) && !IsSpace(t[|t| - 1]))
  }

  lemma {:induction false} TrimStartTakes(s: string) returns (i: nat)
    ensures i <= |s| && TrimStart(s) == s[i..]
    ensures forall k :: 0 <= k < i ==> IsSpace(s[k])
    ensures i < |s| ==> !IsSpace(s[i])
  {
    i := 0;
    if s != [] && IsSpace(s[0]) {
      var rest := TrimStartTakes(s[1..]);
      i := rest + 1;
      assert forall k :: 0 < k < i ==> s[k] == s[1..][k - 1];
    }
  }

  lemma {:induction false} TrimEndTakes(s: string) returns (j: nat)
    ensures j <= |s| && TrimEnd(s) == s[..j]
    ensures forall k :: j <= k < |s| ==> IsSpace(s[k])
    ensures j > 0 ==> !IsSpace(s[j - 1])
  {
    j := |s|;
    if s != [] && IsSpace(s[|s| - 1]) {
      j := TrimEndTakes(s[..|s| - 1]);
    }
  }

  /** Trimming takes the white space off both ends, and nothing else. */
  lemma TrimTakesTheSpace(s: string)
    ensures IsTrimmed(s, Trim(s))
  {
    var i := TrimStartTakes(s);
    var j := TrimEndTakes(s[i..]);
    forall k | 0 <= k < i || i + j <= k < |s|
      ensures IsSpace(s[k])
    {
      assert k >= i ==> s[k] == s[i..][k - i];
    }
    assert Trim(s) == s[i..i + j];
    assert TrimmedAt(s, Trim(s), i, i + j);
  }

  lemma TrimmedIsOne(s: string, t: string, u: string)
    requires IsTrimmed(s, t) && IsTrimmed(s, u)
    ensures t == u
  {
    var i, j :| TrimmedAt(s, t, i, j);
    var k, l :| TrimmedAt(s, u, k, l);
    if t != [] {
      assert s[i] == t[0] && s[j - 1] == t[|t| - 1];
    }
    if u != [] {
      assert s[k] == u[0] && s[l - 1] == u[|u| - 1];
    }
  }

  /** How many bytes a text takes in UTF-8. */
  function Utf8Bytes(s: string): nat {
    if s == [] then 0 else
    var c := s[|s| - 1] as int;
    Utf8Bytes(s[..|s| - 1]) + (if c < 0x80 then 1 else if c < 0x800 then 2 else if c < 0x1_0000 then 3 else 4)
  }
}
