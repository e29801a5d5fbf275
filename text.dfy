/** The string helpers the bridge uses: first-occurrence search, Python's
    `str.split(sep, 1)`, substring test and (ASCII) `str.upper()`. */
module Text {
  import opened Base

  /** `pat` occurs in `s` starting at index `i`. */
  predicate OccursAt(s: string, pat: string, i: nat) {
    i + |pat| <= |s| && s[i..i + |pat|] == pat
  }

  /** The first occurrence of `pat` in `s` at or after `i`. */
  function FindFrom(s: string, pat: string, i: nat): (r: Option<nat>)
    requires i <= |s|
    decreases |s| - i
    ensures r.Some? ==> i <= r.value && OccursAt(s, pat, r.value)
    ensures r.Some? ==> forall j: nat :: i <= j < r.value ==> !OccursAt(s, pat, j)
    ensures r.None? ==> forall j: nat :: i <= j ==> !OccursAt(s, pat, j)
  {
    if OccursAt(s, pat, i) then Some(i)
    else if i == |s| then None
    else FindFrom(s, pat, i + 1)
  }

  /** Python's `s.find(pat)`, with None for -1. */
  function Find(s: string, pat: string): (r: Option<nat>)
    ensures r.Some? ==> OccursAt(s, pat, r.value) && forall j: nat :: j < r.value ==> !OccursAt(s, pat, j)
    ensures r.None? ==> forall j: nat :: !OccursAt(s, pat, j)
  {
    FindFrom(s, pat, 0)
  }

  /** Python's `pat in s`. */
  function Contains(s: string, pat: string): (b: bool)
    ensures b <==> exists j: nat :: OccursAt(s, pat, j)
  {
    var r := Find(s, pat);
    assert r.Some? ==> OccursAt(s, pat, r.value);
    r.Some?
  }

  /** Python's `s.split(sep, 1)`: one part when `sep` is absent, otherwise
      the text before its first occurrence and the text after it. */
  function SplitOnce(s: string, sep: string): (parts: seq<string>)
    requires sep != ""
    ensures |parts| == 1 || |parts| == 2
    ensures |parts| == 1 <==> !Contains(s, sep)
    ensures |parts| == 1 ==> parts[0] == s
    ensures |parts| == 2 ==> parts[0] + sep + parts[1] == s
    ensures |parts| == 2 ==> forall j: nat :: j < |parts[0]| ==> !OccursAt(s, sep, j)
  {
    match Find(s, sep)
    case None => [s]
    case Some(i) =>
      assert s[..i] + sep + s[i + |sep|..] == s by {
        assert s[i..i + |sep|] == sep;
        assert s == s[..i] + s[i..i + |sep|] + s[i + |sep|..];
      }
      [s[..i], s[i + |sep|..]]
  }

  /** A split is determined by where the separator first occurs: any
      `a + sep + b` with no earlier occurrence splits into exactly `a` and `b`. */
  lemma SplitOnceAt(s: string, sep: string, a: string, b: string)
    requires sep != ""
    requires s == a + sep + b
    requires forall j: nat :: j < |a| ==> !OccursAt(s, sep, j)
    ensures SplitOnce(s, sep) == [a, b]
  {
    assert s[|a|..|a| + |sep|] == sep;
    assert OccursAt(s, sep, |a|);
    var r := Find(s, sep);
    assert r == Some(|a|);
    assert s[..|a|] == a;
    assert s[|a| + |sep|..] == b;
  }

  /** No occurrence in `s` before `n` means no occurrence in its prefix of length `n`. */
  lemma NoOccurrenceInPrefix(s: string, pat: string, n: nat)
    requires pat != "" && n <= |s|
    requires forall j: nat :: j < n ==> !OccursAt(s, pat, j)
    ensures !Contains(s[..n], pat)
  {
    forall j: nat | OccursAt(s[..n], pat, j)
      ensures false
    {
      assert s[..n][j..j + |pat|] == s[j..j + |pat|];
      assert OccursAt(s, pat, j);
    }
  }

  /** A pattern cannot start where its first character does not appear. */
  lemma NoOccurrenceWithoutFirstChar(s: string, pat: string, n: nat)
    requires pat != "" && n <= |s| && pat[0] !in s[..n]
    ensures forall j: nat :: j < n ==> !OccursAt(s, pat, j)
  {
  }

  /** ASCII upper-casing of one character. */
  function UpperChar(c: char): char {
    if 'a' <= c <= 'z' then (c as int - 'a' as int + 'A' as int) as char else c
  }

  /** Python's `s.upper()`, restricted to ASCII letters. */
  function Upper(s: string): (r: string)
    ensures |r| == |s|
    ensures forall i :: 0 <= i < |s| && IsLower(s[i]) ==> r[i] as int == s[i] as int - 32
    ensures forall i :: 0 <= i < |s| && !IsLower(s[i]) ==> r[i] == s[i]
  {
    seq(|s|, i requires 0 <= i < |s| => UpperChar(s[i]))
  }

  predicate IsLower(c: char) {
    'a' <= c <= 'z'
  }

  /** `s` holds no lower-case ASCII letter. */
  predicate NoLower(s: string) {
    forall i :: 0 <= i < |s| ==> !IsLower(s[i])
  }

  lemma UpperHasNoLower(s: string)
    ensures NoLower(Upper(s))
  {
  }

  /** A piece of `s` that upper-cases to `m` is found at the same place in
      `Upper(s)`: a marker is matched in any letter case. */
  lemma UpperKeepsOccurrence(s: string, piece: string, m: string, j: nat)
    requires OccursAt(s, piece, j)
    requires Upper(piece) == m
    ensures OccursAt(Upper(s), m, j)
  {
  }
}
