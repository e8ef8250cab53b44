/**
 * The Kotlin string operations the view model relies on (`isBlank`, `trim`,
 * `lowercase`, `contains`, `ifBlank`), restricted to ASCII: white space is the
 * set of ASCII characters `Char.isWhitespace` accepts, and case folding maps
 * 'A'..'Z' to 'a'..'z' only.
 */
module Text {

  predicate IsWhitespace(c: char) {
    c == ' ' || c == '\t' || c == '\n' || c == '\r' || c == '\U{000B}' || c == '\U{000C}'
    || ('\U{001C}' <= c <= '\U{001F}')
  }

  /** `isBlank`: empty, or white space only. */
  predicate IsBlank(s: string) {
    forall i :: 0 <= i < |s| ==> IsWhitespace(s[i])
  }

  /** Drops the leading white space of `s`. */
  function TrimStart(s: string): (r: string)
    ensures |r| <= |s| && r == s[|s| - |r|..]
    ensures IsBlank(s[..|s| - |r|])
    ensures r == [] || !IsWhitespace(r[0])
  {
    if s != [] && IsWhitespace(s[0]) then
      var r := TrimStart(s[1..]);
      assert s[1..][..|s| - 1 - |r|] == s[1..|s| - |r|];
      r
    else s
  }

  /** Drops the trailing white space of `s`. */
  function TrimEnd(s: string): (r: string)
    ensures |r| <= |s| && r == s[..|r|]
    ensures IsBlank(s[|r|..])
    ensures r == [] || !IsWhitespace(r[|r| - 1])
  {
    if s != [] && IsWhitespace(s[|s| - 1]) then
      var r := TrimEnd(s[..|s| - 1]);
      assert s[|r|..] == s[..|s| - 1][|r|..] + [s[|s| - 1]];
      r
    else s
  }

  /** `trim`: the slice of `s` left once the leading and the trailing white space are dropped. */
  function Trim(s: string): (r: string)
    ensures |r| <= |TrimStart(s)| <= |s|
    ensures r <= TrimStart(s) == s[|s| - |TrimStart(s)|..]
    ensures r == [] || (!IsWhitespace(r[0]) && !IsWhitespace(r[|r| - 1]))
  {
    TrimEnd(TrimStart(s))
  }

  /**
   * What `trim` cuts is blank on both sides: `r`, the trimmed `s`, is the
   * slice of `s` between a blank prefix and a blank suffix (`start` names the
   * string left once the prefix is cut).
   */
  lemma TrimIsMiddleSlice(s: string, start: string, r: string)
    requires start == TrimStart(s) && r == Trim(s)
    ensures |s| - |start| + |r| <= |s|
    ensures r == s[|s| - |start|..|s| - |start| + |r|]
    ensures IsBlank(s[..|s| - |start|])
    ensures IsBlank(s[|s| - |start| + |r|..])
  {
    TrimCuts(s, start, r);
  }

  /** A blank prefix cut, then a blank suffix cut, leave a middle slice. */
  lemma TrimCuts(s: string, t: string, r: string)
    requires |t| <= |s| && t == s[|s| - |t|..] && IsBlank(s[..|s| - |t|])
    requires |r| <= |t| && r == t[..|r|] && IsBlank(t[|r|..])
    ensures var k := |s| - |t|;
      && k + |r| <= |s|
      && r == s[k..k + |r|]
      && IsBlank(s[..k])
      && IsBlank(s[k + |r|..])
  {
    var k := |s| - |t|;
    assert s[k + |r|..] == t[|r|..];
  }

  /** Trimming leaves nothing exactly when the string is blank. */
  lemma TrimEmptyIffBlank(s: string)
    ensures Trim(s) == [] <==> IsBlank(s)
  {
    var t := TrimStart(s);
    var r := TrimEnd(t);
    var k := |s| - |t|;
    if r == [] {
      assert IsBlank(t[0..]);
      assert s[..k] == s;
    } else {
      assert r[0] == t[0] == s[k];
    }
  }

  function LowerChar(c: char): char {
    if 'A' <= c <= 'Z' then (c as int + 32) as char else c
  }

  /**
   * `lowercase`: every upper-case letter becomes its lower-case letter, every
   * other character stays, and no upper-case letter is left.
   */
  function Lower(s: string): (r: string)
    ensures |r| == |s|
    ensures forall i :: 0 <= i < |s| && 'A' <= s[i] <= 'Z' ==> r[i] as int == s[i] as int + 32
    ensures forall i :: 0 <= i < |s| && !('A' <= s[i] <= 'Z') ==> r[i] == s[i]
    ensures forall i :: 0 <= i < |r| ==> !('A' <= r[i] <= 'Z')
  {
    seq(|s|, i requires 0 <= i < |s| => LowerChar(s[i]))
  }

  /** Lower-casing twice is lower-casing once. */
  lemma LowerIdempotent(s: string)
    ensures Lower(Lower(s)) == Lower(s)
  {
    var r := Lower(s);
    forall i | 0 <= i < |r| ensures Lower(r)[i] == r[i] {
      assert !('A' <= r[i] <= 'Z');
    }
  }

  /** `contains`: `sub` occurs in `s` as a contiguous slice. */
  function Contains(s: string, sub: string): (r: bool)
    ensures r <==> exists i :: 0 <= i <= |s| && sub <= s[i..]
    ensures |sub| > |s| ==> !r
  {
    if sub <= s then assert s[0..] == s; true
    else if s == [] then false
    else
      var r := Contains(s[1..], sub);
      assert forall i :: 1 <= i <= |s| ==> s[i..] == s[1..][i - 1..];
      r
  }

  /** `ifBlank { default }` */
  function IfBlank(s: string, default: string): (r: string)
    ensures IsBlank(s) ==> r == default
    ensures !IsBlank(s) ==> r == s
    ensures !IsBlank(default) ==> !IsBlank(r)
  {
    if IsBlank(s) then default else s
  }
}
