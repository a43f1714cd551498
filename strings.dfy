/**
 * The PHP string built-ins the core relies on. A PHP string is a sequence of
 * bytes; here each `char` stands for one byte, so `|s|` is `strlen($s)`.
 */
module Strings {

  /** The bytes `trim()` strips by default: space, tab, line feed, carriage return, NUL, vertical tab. */
  predicate IsBlank(c: char) {
    c == ' ' || c == '\t' || c == '\n' || c == '\r' || c == 0 as char || c == 11 as char
  }

  /** `ltrim($s)`: drops the leading blanks and nothing else. */
  function TrimStart(s: string): (r: string)
    ensures |r| <= |s| && r == s[|s| - |r|..]
    ensures r == [] || !IsBlank(r[0])
    ensures forall i :: 0 <= i < |s| - |r| ==> IsBlank(s[i])
  {
    if s != [] && IsBlank(s[0]) then TrimStart(s[1..]) else s
  }

  /** `rtrim($s)`: drops the trailing blanks and nothing else. */
  function TrimEnd(s: string): (r: string)
    ensures |r| <= |s| && r == s[..|r|]
    ensures r == [] || !IsBlank(r[|r| - 1])
    ensures forall i :: |r| <= i < |s| ==> IsBlank(s[i])
  {
    if s != [] && IsBlank(s[|s| - 1]) then TrimEnd(s[..|s| - 1]) else s
  }

  /** `trim($s)`: the longest factor of `s` that neither starts nor ends with a blank. */
  function Trim(s: string): (r: string)
    ensures |r| <= |s|
    ensures r == [] || (!IsBlank(r[0]) && !IsBlank(r[|r| - 1]))
    ensures r == [] ==> forall i :: 0 <= i < |s| ==> IsBlank(s[i])
    ensures var k := |s| - |TrimStart(s)|;
      && k + |r| <= |s|
      && r == s[k..k + |r|]
      && (forall i :: 0 <= i < k ==> IsBlank(s[i]))
      && (forall i :: k + |r| <= i < |s| ==> IsBlank(s[i]))
  {
    var t := TrimStart(s);
    var r := TrimEnd(t);
    TrimEndInside(s, t, r);
    r
  }

  /** The bytes `rtrim` drops from a suffix `t` of `s` are trailing bytes of `s`. */
  lemma TrimEndInside(s: string, t: string, r: string)
    requires |t| <= |s| && t == s[|s| - |t|..]
    requires |r| <= |t| && r == t[..|r|]
    requires forall i :: |r| <= i < |t| ==> IsBlank(t[i])
    ensures r == s[|s| - |t|..|s| - |t| + |r|]
    ensures forall i :: |s| - |t| + |r| <= i < |s| ==> IsBlank(s[i])
  {
    var k := |s| - |t|;
    forall i | k + |r| <= i < |s|
      ensures IsBlank(s[i])
    {
      assert s[i] == t[i - k];
    }
  }

  /** Trimming a trimmed string changes nothing. */
  lemma {:induction false} TrimIdempotent(s: string)
    ensures Trim(Trim(s)) == Trim(s)
  {
    var t := Trim(s);
    if t != [] {
      assert TrimStart(t) == t;
      assert TrimEnd(t) == t;
    }
  }

  /** The ASCII letters `strtoupper` changes (since PHP 8.2 it no longer consults the locale). */
  predicate IsLower(c: char) {
    'a' <= c <= 'z'
  }

  predicate NoLowercase(s: string) {
    forall i :: 0 <= i < |s| ==> !IsLower(s[i])
  }

  function UpperChar(c: char): char {
    if IsLower(c) then (c as int - 32) as char else c
  }

  /** `strtoupper($s)`: maps a..z to A..Z and keeps every other byte. */
  function Upper(s: string): (r: string)
    ensures |r| == |s| && NoLowercase(r)
    ensures forall i :: 0 <= i < |s| && !IsLower(s[i]) ==> r[i] == s[i]
    ensures forall i :: 0 <= i < |s| && IsLower(s[i]) ==> r[i] as int == s[i] as int - 32
  {
    if s == [] then [] else [UpperChar(s[0])] + Upper(s[1..])
  }

  /** A string without lower-case letters is its own upper-case form. */
  lemma UpperKeepsUppercase(s: string)
    requires NoLowercase(s)
    ensures Upper(s) == s
  {
  }

  /** `str_starts_with($s, $prefix)`. */
  predicate StartsWith(s: string, prefix: string) {
    |prefix| <= |s| && s[..|prefix|] == prefix
  }
}
