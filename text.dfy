/** The string operations the assistant relies on, restricted to ASCII:
    `str.strip()`, `str.lower()`, `str.startswith`, `str.join` and `str.split(sep, 1)`. */
module Text {
  import opened Wrappers

  /** Python's `str.isspace()` on ASCII: space, \t \n \x0b \x0c \r and the separators \x1c-\x1f. */
  predicate IsSpace(c: char) {
    c == ' ' || ('\t' <= c <= '\r') || ('\U{1C}' <= c <= '\U{1F}')
  }

  predicate AllSpace(s: string) {
    forall i :: 0 <= i < |s| ==> IsSpace(s[i])
  }

  /** The lower-case ASCII letters, in order. */
  const Alphabet: string := "abcdefghijklmnopqrstuvwxyz"

  /** ASCII lowercasing of one character: the upper-case letter at position `k`
      of the alphabet becomes the lower-case letter at position `k`. */
  function LowerChar(c: char): (d: char)
    ensures 'A' <= c <= 'Z' ==> d == Alphabet[c as int - 'A' as int]
    ensures !('A' <= c <= 'Z') ==> d == c
  {
    if 'A' <= c <= 'Z' then (c as int - 'A' as int + 'a' as int) as char else c
  }

  /** `s.lower()` on ASCII letters: lowercases each character in place. */
  function Lower(s: string): (r: string)
    ensures |r| == |s|
    ensures forall i :: 0 <= i < |s| ==> r[i] == LowerChar(s[i])
  {
    if s == [] then [] else [LowerChar(s[0])] + Lower(s[1..])
  }

  /** Lowercasing works character by character, so it distributes over concatenation. */
  lemma LowerConcat(a: string, b: string)
    ensures Lower(a + b) == Lower(a) + Lower(b)
  {
    forall i | 0 <= i < |a + b| ensures Lower(a + b)[i] == (Lower(a) + Lower(b))[i] {
      if i < |a| {
        assert (a + b)[i] == a[i];
      } else {
        assert (a + b)[i] == b[i - |a|];
      }
    }
  }

  /** The same for three pieces. */
  lemma LowerConcat3(a: string, b: string, c: string)
    ensures Lower(a + b + c) == Lower(a) + Lower(b) + Lower(c)
  {
    LowerConcat(a, b);
    LowerConcat(a + b, c);
  }

  /** Number of leading whitespace characters: every character before it is
      whitespace and the character at it (if any) is not. */
  function LeadingSpaces(s: string): (n: nat)
    ensures n <= |s|
    ensures AllSpace(s[..n])
    ensures n < |s| ==> !IsSpace(s[n])
  {
    if s != [] && IsSpace(s[0]) then
      var m := LeadingSpaces(s[1..]);
      assert s[..m + 1] == [s[0]] + s[1..][..m];
      m + 1
    else 0
  }

  /** Number of trailing whitespace characters. */
  function TrailingSpaces(s: string): (n: nat)
    ensures n <= |s|
    ensures AllSpace(s[|s| - n..])
    ensures n < |s| ==> !IsSpace(s[|s| - n - 1])
  {
    if s != [] && IsSpace(s[|s| - 1]) then
      var init := s[..|s| - 1];
      var m := TrailingSpaces(init);
      assert s[|s| - (m + 1)..] == init[|init| - m..] + [s[|s| - 1]];
      m + 1
    else 0
  }

  /** `s.strip()`: the slice of `s` left once the leading and the trailing
      whitespace are removed. It starts and ends with a non-space character
      (or is empty), and everything removed around it is whitespace. */
  function Strip(s: string): (r: string)
    ensures var a := LeadingSpaces(s);
      a + |r| <= |s| && r == s[a..a + |r|] && AllSpace(s[a + |r|..])
    ensures r == [] || (!IsSpace(r[0]) && !IsSpace(r[|r| - 1]))
  {
    var t := s[LeadingSpaces(s)..];
    t[..|t| - TrailingSpaces(t)]
  }

  /** `s.startswith(p)`. */
  predicate StartsWith(s: string, p: string) {
    |p| <= |s| && s[..|p|] == p
  }

  /** `sep.join(parts)`. */
  function Join(sep: string, parts: seq<string>): string {
    if parts == [] then ""
    else if |parts| == 1 then parts[0]
    else parts[0] + sep + Join(sep, parts[1..])
  }

  /** Position of the first occurrence of `sep` in `s`. */
  function FirstIndex(s: string, sep: char): (k: nat)
    requires sep in s
    ensures k < |s| && s[k] == sep && sep !in s[..k]
  {
    if s[0] == sep then
      assert s[..0] == [];
      0
    else
      var k := FirstIndex(s[1..], sep);
      assert s[..k + 1] == [s[0]] + s[1..][..k];
      k + 1
  }

  /** `s.split(sep, 1)[1]` for a one-character separator: the text after the first
      occurrence of `sep`, or None where the split yields a single part and the
      index `[1]` raises. */
  function After(s: string, sep: char): (r: Option<string>)
    ensures r.None? <==> sep !in s
    ensures r.Some? ==> exists k :: 0 <= k < |s| && s[k] == sep && sep !in s[..k] && r.value == s[k + 1..]
  {
    if sep in s then Some(s[FirstIndex(s, sep) + 1..]) else None
  }

  /** The first separator of `marker + [sep] + rest` is the one after `marker`. */
  lemma {:induction false} FirstIndexAfterMarker(marker: string, sep: char, rest: string)
    requires sep !in marker
    ensures sep in marker + [sep] + rest && FirstIndex(marker + [sep] + rest, sep) == |marker|
  {
    var s := marker + [sep] + rest;
    assert s[|marker|] == sep;
    if marker != [] {
      assert s[0] == marker[0];
      assert s[1..] == marker[1..] + [sep] + rest;
      FirstIndexAfterMarker(marker[1..], sep, rest);
    }
  }

  /** The split happens at the first separator: what follows it is returned
      whole, separators included. */
  lemma AfterFirst(marker: string, sep: char, rest: string)
    requires sep !in marker
    ensures After(marker + [sep] + rest, sep) == Some(rest)
  {
    FirstIndexAfterMarker(marker, sep, rest);
    assert (marker + [sep] + rest)[|marker| + 1..] == rest;
  }

  /** Leading whitespace stops at the first non-space character. */
  lemma {:induction false} LeadingSpacesOfPadded(pre: string, rest: string)
    requires AllSpace(pre)
    requires rest == [] || !IsSpace(rest[0])
    ensures LeadingSpaces(pre + rest) == |pre|
  {
    if pre != [] {
      var s := pre + rest;
      assert s[0] == pre[0];
      assert s[1..] == pre[1..] + rest;
      LeadingSpacesOfPadded(pre[1..], rest);
    } else {
      assert pre + rest == rest;
    }
  }

  /** Trailing whitespace stops at the last non-space character. */
  lemma {:induction false} TrailingSpacesOfPadded(rest: string, post: string)
    requires AllSpace(post)
    requires rest == [] || !IsSpace(rest[|rest| - 1])
    ensures TrailingSpaces(rest + post) == |post|
  {
    if post != [] {
      var s := rest + post;
      var init := post[..|post| - 1];
      assert s[|s| - 1] == post[|post| - 1];
      assert s[..|s| - 1] == rest + init;
      TrailingSpacesOfPadded(rest, init);
    } else {
      assert rest + post == rest;
    }
  }

  /** Leading whitespace aside, a word that starts and ends with non-space
      characters survives stripping at the front of the result. */
  lemma StripKeepsWord(ws: string, w: string, rest: string)
    requires AllSpace(ws) && w != [] && !IsSpace(w[0]) && !IsSpace(w[|w| - 1])
    ensures |w| <= |Strip(ws + w + rest)| && Strip(ws + w + rest)[..|w|] == w
  {
    var s := ws + w + rest;
    assert s == ws + (w + rest) && (w + rest)[0] == w[0];
    LeadingSpacesOfPadded(ws, w + rest);
    var r := Strip(s);
    var a := |ws|;
    assert s[a + |w| - 1] == w[|w| - 1];
    forall i | a + |r| <= i < |s| ensures IsSpace(s[i]) {
      assert s[a + |r|..][i - (a + |r|)] == s[i];
    }
    assert r[..|w|] == s[a..a + |w|];
  }

  /** Strip removes exactly the whitespace around a text that starts and ends
      with non-space characters. */
  lemma StripPadded(pre: string, x: string, post: string)
    requires AllSpace(pre) && AllSpace(post)
    requires x == [] || (!IsSpace(x[0]) && !IsSpace(x[|x| - 1]))
    ensures Strip(pre + x + post) == x
  {
    var s := pre + x + post;
    if x != [] {
      assert s == pre + (x + post);
      LeadingSpacesOfPadded(pre, x + post);
      var t := s[|pre|..];
      assert t == x + post;
      TrailingSpacesOfPadded(x, post);
      assert t[..|t| - |post|] == x;
    } else {
      assert s == pre + post + [];
      assert AllSpace(pre + post);
      LeadingSpacesOfPadded(pre + post, []);
    }
  }
}
