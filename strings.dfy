/**
 * The pieces of Python's `str` behaviour that the services rely on:
 * `upper`, `lower`, `capitalize`, `strip`, `split('\n')`, `'\n'.join`,
 * `startswith`, the `in` substring test and `replace(p, '')`.
 */
module Strings {
  import opened Wrappers

  /** Character-wise upper case: ASCII letters and the Latin-1 lower-case letters. */
  function UpperChar(c: char): (u: char)
  {
    if 'a' <= c <= 'z' || ('à' <= c <= 'þ' && c != '÷') then
      (c as int - 32) as char
    else
      c
  }

  /** Character-wise lower case, the inverse mapping of UpperChar. */
  function LowerChar(c: char): (l: char)
  {
    if 'A' <= c <= 'Z' || ('À' <= c <= 'Þ' && c != '×') then
      (c as int + 32) as char
    else
      c
  }

  /** Under the case tables above, lower-casing forgets whether a character had been upper-cased first. */
  lemma LowerUpperChar(c: char)
    ensures LowerChar(UpperChar(c)) == LowerChar(c)
  {
  }

  /** Under the case tables above, lower-casing an upper-cased string gives the string lower-cased. */
  lemma LowerOfUpper(s: string)
    ensures Lower(Upper(s)) == Lower(s)
  {
    forall i | 0 <= i < |s|
      ensures Lower(Upper(s))[i] == Lower(s)[i]
    {
      LowerUpperChar(s[i]);
    }
  }

  /** Python's `s.upper()`, modelled one character at a time. */
  function Upper(s: string): (r: string)
    ensures |r| == |s|
    ensures forall i :: 0 <= i < |s| ==> r[i] == UpperChar(s[i])
  {
    seq(|s|, i requires 0 <= i < |s| => UpperChar(s[i]))
  }

  /** Python's `s.lower()`, modelled one character at a time. */
  function Lower(s: string): (r: string)
    ensures |r| == |s|
    ensures forall i :: 0 <= i < |s| ==> r[i] == LowerChar(s[i])
  {
    seq(|s|, i requires 0 <= i < |s| => LowerChar(s[i]))
  }

  /**
   * Python's `s.capitalize()` under the case tables above: first character upper
   * case, the rest lower case.
   */
  function Capitalize(s: string): (r: string)
    ensures |r| == |s|
    ensures s != [] ==> r[0] == UpperChar(s[0]) && r[1..] == Lower(s[1..])
  {
    if s == [] then [] else [UpperChar(s[0])] + Lower(s[1..])
  }

  /** The characters for which Python's `str.isspace()` holds. */
  predicate IsSpace(c: char)
  {
    '\t' <= c <= '\r' || '\U{1C}' <= c <= ' ' || c == '\U{85}' || c == '\U{A0}' || c == '\U{1680}'
    || '\U{2000}' <= c <= '\U{200A}' || c == '\U{2028}' || c == '\U{2029}' || c == '\U{202F}'
    || c == '\U{205F}' || c == '\U{3000}'
  }

  /** Drops white space from the front. */
  function StripLeft(s: string): (r: string)
    decreases |s|
  {
    if s != [] && IsSpace(s[0]) then StripLeft(s[1..]) else s
  }

  /** Drops white space from the back. */
  function StripRight(s: string): (r: string)
    decreases |s|
  {
    if s != [] && IsSpace(s[|s| - 1]) then StripRight(s[..|s| - 1]) else s
  }

  /** Python's `s.strip()`. */
  function Strip(s: string): string
  {
    StripRight(StripLeft(s))
  }

  /** StripLeft removes a prefix of white space, and exactly as much as there is. */
  lemma {:induction false} StripLeftSpec(s: string)
    ensures |StripLeft(s)| <= |s| && StripLeft(s) == s[|s| - |StripLeft(s)|..]
    ensures StripLeft(s) != [] ==> !IsSpace(StripLeft(s)[0])
    ensures forall i :: 0 <= i < |s| - |StripLeft(s)| ==> IsSpace(s[i])
    decreases |s|
  {
    if s != [] && IsSpace(s[0]) {
      StripLeftSpec(s[1..]);
      assert forall i :: 1 <= i < |s| ==> s[i] == s[1..][i - 1];
    }
  }

  /** StripRight removes a suffix of white space, and exactly as much as there is. */
  lemma {:induction false} StripRightSpec(s: string)
    ensures |StripRight(s)| <= |s| && StripRight(s) == s[..|StripRight(s)|]
    ensures StripRight(s) != [] ==> !IsSpace(StripRight(s)[|StripRight(s)| - 1])
    ensures forall i :: |StripRight(s)| <= i < |s| ==> IsSpace(s[i])
    decreases |s|
  {
    if s != [] && IsSpace(s[|s| - 1]) {
      StripRightSpec(s[..|s| - 1]);
    }
  }

  /** `strip` keeps a middle slice whose surroundings are white space and whose ends are not. */
  lemma StripSpec(s: string)
    ensures exists i, j :: 0 <= i <= j <= |s| && Strip(s) == s[i..j]
                         && (forall k :: 0 <= k < i ==> IsSpace(s[k]))
                         && (forall k :: j <= k < |s| ==> IsSpace(s[k]))
    ensures Strip(s) != [] ==> !IsSpace(Strip(s)[0]) && !IsSpace(Strip(s)[|Strip(s)| - 1])
  {
    var l := StripLeft(s);
    StripLeftSpec(s);
    StripRightSpec(l);
    var r := Strip(s);
    var i := |s| - |l|;
    assert r == s[i..i + |r|];
    assert forall k :: i + |r| <= k < |s| ==> s[k] == l[k - i];
    if r != [] {
      assert r[0] == l[0];
    }
  }

  /** A string with no white space at either end is left alone by `strip`. */
  lemma StripUnchanged(s: string)
    requires s != [] && !IsSpace(s[0]) && !IsSpace(s[|s| - 1])
    ensures Strip(s) == s
  {
  }

  /** Stripping twice is stripping once. */
  lemma StripIdempotent(s: string)
    ensures Strip(Strip(s)) == Strip(s)
  {
    StripSpec(s);
    if Strip(s) != [] {
      StripUnchanged(Strip(s));
    }
  }

  /** Python's `s.startswith(p)`, compared one character at a time. */
  predicate StartsWith(s: string, p: string)
    decreases |p|
  {
    p == [] || (s != [] && s[0] == p[0] && StartsWith(s[1..], p[1..]))
  }

  /** `s` starts with `p` exactly when `p` is the prefix of `s` of its length. */
  lemma {:induction false} StartsWithSpec(s: string, p: string)
    ensures StartsWith(s, p) <==> |p| <= |s| && s[..|p|] == p
    decreases |p|
  {
    if p != [] && s != [] {
      StartsWithSpec(s[1..], p[1..]);
      if |p| <= |s| {
        assert s[..|p|] == [s[0]] + s[1..][..|p| - 1];
        assert p == [p[0]] + p[1..];
      }
    }
  }

  /** Upper-casing preserves prefixes. */
  lemma UpperStartsWith(s: string, p: string)
    requires StartsWith(s, p)
    ensures StartsWith(Upper(s), Upper(p))
  {
    StartsWithSpec(s, p);
    StartsWithSpec(Upper(s), Upper(p));
    assert Upper(s)[..|p|] == Upper(p);
  }

  /** Python's `p in s`, computed the way a scan does it: `p` is a prefix here or further on. */
  predicate Contains(s: string, p: string)
    decreases |s|
  {
    StartsWith(s, p) || (s != [] && Contains(s[1..], p))
  }

  /** `Contains` holds exactly when `p` starts at some position of `s`. */
  lemma {:induction false} ContainsSpec(s: string, p: string)
    ensures Contains(s, p) <==> exists k :: 0 <= k <= |s| && StartsWith(s[k..], p)
    decreases |s|
  {
    assert s[0..] == s;
    if s != [] {
      ContainsSpec(s[1..], p);
      assert forall k :: 1 <= k <= |s| ==> s[1..][k - 1..] == s[k..];
    }
  }

  /** The position of the last occurrence of `c` in `s`, if any (what `s.rsplit(c, 1)` splits at). */
  function LastIndexOf(s: string, c: char): (r: Option<nat>)
    ensures r.None? <==> c !in s
    ensures r.Some? ==> r.value < |s| && s[r.value] == c && c !in s[r.value + 1..]
    decreases |s|
  {
    if s == [] then None
    else if s[|s| - 1] == c then Some(|s| - 1)
    else
      var r := LastIndexOf(s[..|s| - 1], c);
      assert s == s[..|s| - 1] + [s[|s| - 1]];
      assert r.Some? ==> s[r.value + 1..] == s[..|s| - 1][r.value + 1..] + [s[|s| - 1]];
      r
  }

  /** Only '.' upper-cases to '.'. */
  lemma UpperCharDot(c: char)
    ensures UpperChar(c) == '.' <==> c == '.'
  {
  }

  /** Under the case tables above, upper-casing moves no '.', so the last one stays where it was. */
  lemma {:induction false} LastDotOfUpper(s: string)
    ensures LastIndexOf(Upper(s), '.') == LastIndexOf(s, '.')
    decreases |s|
  {
    if s != [] {
      var n := |s| - 1;
      UpperCharDot(s[n]);
      assert Upper(s)[..n] == Upper(s[..n]);
      LastDotOfUpper(s[..n]);
    }
  }

  /** Python's `'\n'.join(lines)`. */
  function Join(lines: seq<string>): string
  {
    if |lines| == 0 then ""
    else if |lines| == 1 then lines[0]
    else lines[0] + "\n" + Join(lines[1..])
  }

  /** Python's `s.split('\n')`. */
  function Split(s: string): (r: seq<string>)
    ensures |r| >= 1
  {
    if s == [] then [""]
    else
      var rest := Split(s[1..]);
      if s[0] == '\n' then [""] + rest
      else [[s[0]] + rest[0]] + rest[1..]
  }

  /** No piece holds a newline, and joining the pieces with newlines gives back the text. */
  lemma {:induction false} SplitSpec(s: string)
    ensures forall i :: 0 <= i < |Split(s)| ==> '\n' !in Split(s)[i]
    ensures Join(Split(s)) == s
    decreases |s|
  {
    if s != [] {
      var rest := Split(s[1..]);
      SplitSpec(s[1..]);
      if s[0] == '\n' {
        assert s == "\n" + s[1..];
      } else {
        var r := Split(s);
        assert r[1..] == rest[1..];
        assert s == [s[0]] + s[1..];
      }
    }
  }

  /** Python's `s.replace(p, '')`: one left-to-right pass deleting non-overlapping occurrences of `p`. */
  function RemoveAll(s: string, p: string): (r: string)
    requires p != []
    ensures |r| <= |s|
    decreases |s|
  {
    if s == [] then []
    else if |p| <= |s| && s[..|p|] == p then RemoveAll(s[|p|..], p)
    else [s[0]] + RemoveAll(s[1..], p)
  }

  /** The removal changes the string exactly when the pattern occurs in it. */
  lemma {:induction false} RemoveAllUnchanged(s: string, p: string)
    requires p != []
    ensures RemoveAll(s, p) == s <==> !Contains(s, p)
    decreases |s|
  {
    StartsWithSpec(s, p);
    if s != [] && !(|p| <= |s| && s[..|p|] == p) {
      RemoveAllUnchanged(s[1..], p);
      assert s == [s[0]] + s[1..];
    }
  }

  /** Removing a one-character pattern erases every occurrence of it, and changes nothing when there is none. */
  lemma {:induction false} RemoveAllChar(s: string, c: char)
    ensures c !in RemoveAll(s, [c])
    ensures c !in s ==> RemoveAll(s, [c]) == s
    decreases |s|
  {
    if s != [] {
      RemoveAllChar(s[1..], c);
      assert s[..1] == [s[0]];
      assert s == [s[0]] + s[1..];
    }
  }
}
