/**
 The Go string functions used by the profile and configuration readers. Text is
 a sequence of code points; case mapping covers ASCII only.
 */
module Strings {

  /** unicode.IsSpace. */
  predicate IsSpace(c: char) {
    || c == ' ' || ('\t' <= c && c <= '\r')
    || c == '\U{85}' || c == '\U{A0}' || c == '\U{1680}' || ('\U{2000}' <= c && c <= '\U{200A}')
    || c == '\U{2028}' || c == '\U{2029}' || c == '\U{202F}' || c == '\U{205F}' || c == '\U{3000}'
  }

  function TrimLeft(s: string): string {
    if s != "" && IsSpace(s[0]) then TrimLeft(s[1..]) else s
  }

  function TrimRight(s: string): string {
    if s != "" && IsSpace(s[|s| - 1]) then TrimRight(s[..|s| - 1]) else s
  }

  /** strings.TrimSpace. */
  function TrimSpace(s: string): string {
    TrimLeft(TrimRight(s))
  }

  function LowerChar(c: char): char {
    if 'A' <= c && c <= 'Z' then c - 'A' + 'a' else c
  }

  function UpperChar(c: char): char {
    if 'a' <= c && c <= 'z' then c - 'a' + 'A' else c
  }

  /** strings.ToLower. */
  function ToLower(s: string): (r: string)
    ensures |r| == |s| && forall i :: 0 <= i < |s| ==> r[i] == LowerChar(s[i])
  {
    seq(|s|, i requires 0 <= i < |s| => LowerChar(s[i]))
  }

  /** strings.ToUpper. */
  function ToUpper(s: string): (r: string)
    ensures |r| == |s| && forall i :: 0 <= i < |s| ==> r[i] == UpperChar(s[i])
  {
    seq(|s|, i requires 0 <= i < |s| => UpperChar(s[i]))
  }

  /** strings.HasPrefix. */
  predicate HasPrefix(s: string, p: string) {
    p <= s
  }

  /** strings.HasSuffix. */
  predicate HasSuffix(s: string, p: string) {
    |p| <= |s| && s[|s| - |p|..] == p
  }

  /** Text whose ends are not blank is left alone by TrimSpace. */
  lemma TrimNothing(s: string)
    requires s != "" ==> !IsSpace(s[0]) && !IsSpace(s[|s| - 1])
    ensures TrimSpace(s) == s
  {
  }

  /** TrimSpace removes one blank at either end of text whose own ends are not blank. */
  lemma TrimOneBlank(s: string)
    requires s != "" && !IsSpace(s[0]) && !IsSpace(s[|s| - 1])
    ensures TrimSpace(" " + s) == s
    ensures TrimSpace(s + " ") == s
  {
    var l, r := " " + s, s + " ";
    assert l[|l| - 1] == s[|s| - 1];
    assert TrimRight(l) == l;
    assert l[1..] == s;
    assert TrimLeft(l) == TrimLeft(s) == s;
    assert r[|r| - 1] == ' ';
    assert r[..|r| - 1] == s;
    assert TrimRight(r) == TrimRight(s) == s;
  }

  lemma {:induction false} TrimLeftEnds(s: string)
    ensures TrimLeft(s) != "" ==> !IsSpace(TrimLeft(s)[0])
    ensures s != "" && !IsSpace(s[|s| - 1]) ==> TrimLeft(s) != "" && !IsSpace(TrimLeft(s)[|TrimLeft(s)| - 1])
  {
    if s != "" && IsSpace(s[0]) {
      TrimLeftEnds(s[1..]);
    }
  }

  lemma {:induction false} TrimRightEnds(s: string)
    ensures TrimRight(s) != "" ==> !IsSpace(TrimRight(s)[|TrimRight(s)| - 1])
  {
    if s != "" && IsSpace(s[|s| - 1]) {
      TrimRightEnds(s[..|s| - 1]);
    }
  }

  /** Trimming twice is trimming once. */
  lemma TrimTwice(s: string)
    ensures TrimSpace(TrimSpace(s)) == TrimSpace(s)
  {
    TrimRightEnds(s);
    TrimLeftEnds(TrimRight(s));
    TrimNothing(TrimSpace(s));
  }
}
