/** The Python `str` operations the two scripts rely on: `isspace` (through
    `strip`), `strip`, `upper`, `lower`, `split(",")` and `",".join`. */
module Text {

  /** The characters Python's `str.isspace` accepts, which `strip()` drops:
      the ASCII controls 9 to 13 and 28 to 31, the space, U+0085, U+00A0,
      U+1680, U+2000 to U+200A, U+2028, U+2029, U+202F, U+205F and U+3000. */
  const Whitespace: set<char> := {'\U{9}', '\U{A}', '\U{B}', '\U{C}', '\U{D}', '\U{1C}', '\U{1D}', '\U{1E}', '\U{1F}', '\U{20}', '\U{85}', '\U{A0}', '\U{1680}', '\U{2000}', '\U{2001}', '\U{2002}', '\U{2003}', '\U{2004}', '\U{2005}', '\U{2006}', '\U{2007}', '\U{2008}', '\U{2009}', '\U{200A}', '\U{2028}', '\U{2029}', '\U{202F}', '\U{205F}', '\U{3000}'}

  predicate IsSpace(c: char)
  {
    c in Whitespace
  }

  predicate IsLowerAscii(c: char) { 'a' <= c <= 'z' }

  predicate IsUpperAscii(c: char) { 'A' <= c <= 'Z' }

  function UpperChar(c: char): char
  {
    if IsLowerAscii(c) then (c as int - 32) as char else c
  }

  function LowerChar(c: char): char
  {
    if IsUpperAscii(c) then (c as int + 32) as char else c
  }

  /** `s.upper()` on the ASCII letters. */
  function Upper(s: string): string
  {
    seq(|s|, i requires 0 <= i < |s| => UpperChar(s[i]))
  }

  /** `s.lower()` on the ASCII letters. */
  function Lower(s: string): string
  {
    seq(|s|, i requires 0 <= i < |s| => LowerChar(s[i]))
  }

  /** No lower-case ASCII letter is left in `s`. */
  predicate NoLower(s: string)
  {
    forall i :: 0 <= i < |s| ==> !IsLowerAscii(s[i])
  }

  /** Neither end of `s` is whitespace. */
  predicate Trimmed(s: string)
  {
    s == [] || (!IsSpace(s[0]) && !IsSpace(s[|s| - 1]))
  }

  /** Where `s.lstrip()` starts: the first position from `i` on that does
      not hold whitespace, or `|s|`. */
  function SkipSpaces(s: string, i: nat): (k: nat)
    requires i <= |s|
    ensures i <= k <= |s|
    ensures forall j :: i <= j < k ==> IsSpace(s[j])
    ensures k < |s| ==> !IsSpace(s[k])
    decreases |s| - i
  {
    if i < |s| && IsSpace(s[i]) then SkipSpaces(s, i + 1) else i
  }

  /** Where `s.rstrip()` ends, not going below `lo`: the position after the
      last non-whitespace character at or above `lo`, or `lo`. */
  function BackSpaces(s: string, lo: nat, j: nat): (e: nat)
    requires lo <= j <= |s|
    ensures lo <= e <= j
    ensures forall i :: e <= i < j ==> IsSpace(s[i])
    ensures e > lo ==> !IsSpace(s[e - 1])
    decreases j
  {
    if j > lo && IsSpace(s[j - 1]) then BackSpaces(s, lo, j - 1) else j
  }

  /** `s.strip()`: `s` without the whitespace at either end. */
  function Strip(s: string): (r: string)
    ensures Trimmed(r)
  {
    var k := SkipSpaces(s, 0);
    var e := BackSpaces(s, k, |s|);
    var r := s[k..e];
    assert r != [] ==> r[0] == s[k] && r[|r| - 1] == s[e - 1];
    r
  }

  /** `strip` removes the leading and the trailing whitespace runs and
      nothing else: the result is the slice between them. */
  lemma StripSlice(s: string)
    ensures var r, k := Strip(s), SkipSpaces(s, 0);
            k + |r| <= |s| && r == s[k..k + |r|]
            && (forall i :: 0 <= i < k ==> IsSpace(s[i]))
            && (forall i :: k + |r| <= i < |s| ==> IsSpace(s[i]))
  {
  }

  /** `s.split(sep)`: the pieces between separators; always at least one. */
  function Split(s: string, sep: char): (r: seq<string>)
    ensures |r| >= 1
    ensures forall i :: 0 <= i < |r| ==> sep !in r[i]
  {
    if s == [] then [[]]
    else
      var rest := Split(s[1..], sep);
      if s[0] == sep then [[]] + rest else [[s[0]] + rest[0]] + rest[1..]
  }

  /** `sep.join(parts)`. */
  function Join(parts: seq<string>, sep: char): string
  {
    if parts == [] then []
    else if |parts| == 1 then parts[0]
    else parts[0] + [sep] + Join(parts[1..], sep)
  }

  /** Joining the pieces of a split gives back the original text. */
  lemma {:induction false} JoinSplit(s: string, sep: char)
    ensures Join(Split(s, sep), sep) == s
  {
    if s != [] {
      var rest := Split(s[1..], sep);
      JoinSplit(s[1..], sep);
      if s[0] == sep {
        assert Split(s, sep) == [[]] + rest;
      } else {
        var r := Split(s, sep);
        assert r == [[s[0]] + rest[0]] + rest[1..];
        if |rest| == 1 {
          assert Join(r, sep) == [s[0]] + rest[0];
        } else {
          assert rest == [rest[0]] + rest[1..];
          assert Join(rest, sep) == rest[0] + [sep] + Join(rest[1..], sep);
          assert r[1..] == rest[1..];
        }
      }
    }
  }

  /** A separator splits the text into the pieces on its left followed by
      the pieces on its right. */
  lemma SplitAround(a: string, b: string, sep: char)
    ensures Split(a + [sep] + b, sep) == Split(a, sep) + Split(b, sep)
  {
    var s := a + [sep] + b;
    SplitAt(s, |a|, sep);
    assert s[..|a|] == a;
    assert s[|a| + 1..] == b;
  }

  /** The same, for the separator at index `k` of `s`. */
  lemma {:induction false} SplitAt(s: string, k: nat, sep: char)
    requires k < |s| && s[k] == sep
    ensures Split(s, sep) == Split(s[..k], sep) + Split(s[k + 1..], sep)
    decreases k
  {
    var t := s[1..];
    var right := Split(s[k + 1..], sep);
    if k == 0 {
      assert s[..0] == [];
      assert t == s[k + 1..];
    } else {
      var p := s[..k];
      SplitAt(t, k - 1, sep);
      assert t[..k - 1] == p[1..];
      assert t[k..] == s[k + 1..];
      var left := Split(p[1..], sep);
      assert Split(t, sep) == left + right;
      assert p[0] == s[0];
      PiecesAppend(s[0], sep, left, right);
    }
  }

  /** The first character's effect on the pieces does not reach past the
      first piece of what follows. */
  lemma PiecesAppend(c: char, sep: char, left: seq<string>, right: seq<string>)
    requires |left| >= 1
    ensures c == sep ==> [[]] + (left + right) == ([[]] + left) + right
    ensures c != sep ==>
      [[c] + (left + right)[0]] + (left + right)[1..] == ([[c] + left[0]] + left[1..]) + right
  {
    var head := [[c] + left[0]];
    assert (left + right)[0] == left[0];
    assert (left + right)[1..] == left[1..] + right;
    assert head + (left[1..] + right) == (head + left[1..]) + right;
  }

  /** Splitting a join gives back the parts, when no part holds the separator. */
  lemma {:induction false} SplitJoin(parts: seq<string>, sep: char)
    requires |parts| >= 1
    requires forall i :: 0 <= i < |parts| ==> sep !in parts[i]
    ensures Split(Join(parts, sep), sep) == parts
  {
    if |parts| == 1 {
      SplitWithout(parts[0], sep);
    } else {
      SplitJoin(parts[1..], sep);
      SplitWithout(parts[0], sep);
      SplitAround(parts[0], Join(parts[1..], sep), sep);
      assert [parts[0]] + parts[1..] == parts;
    }
  }

  /** A text without the separator is a single piece. */
  lemma {:induction false} SplitWithout(s: string, sep: char)
    requires sep !in s
    ensures Split(s, sep) == [s]
  {
    if s != [] {
      SplitWithout(s[1..], sep);
      assert [s[0]] + s[1..] == s;
    }
  }

  /** Upper-casing keeps every character's whitespace status, so it keeps a
      trimmed text trimmed; it leaves no lower-case letter and only turns
      letters into letters. */
  lemma UpperKeeps(s: string)
    ensures |Upper(s)| == |s| && NoLower(Upper(s))
    ensures Trimmed(s) ==> Trimmed(Upper(s))
    ensures s != [] ==> Upper(s) != []
    ensures forall c :: c !in s && !IsLowerAscii(c) && !IsUpperAscii(c) ==> c !in Upper(s)
  {
  }

  /** Stripping a text that is already trimmed changes nothing. */
  lemma StripTrimmed(s: string)
    requires Trimmed(s)
    ensures Strip(s) == s
  {
    if s != [] {
      assert SkipSpaces(s, 0) == 0;
      assert BackSpaces(s, 0, |s|) == |s|;
      assert s[0..|s|] == s;
    }
  }

  /** Lower-casing loses nothing on texts without lower-case letters: two
      such texts with the same lower-case form are equal. */
  lemma LowerInjective(a: string, b: string)
    requires NoLower(a) && NoLower(b) && Lower(a) == Lower(b)
    ensures a == b
  {
    assert |a| == |Lower(a)| == |Lower(b)| == |b|;
    forall i | 0 <= i < |a| ensures a[i] == b[i] {
      assert Lower(a)[i] == LowerChar(a[i]) && Lower(b)[i] == LowerChar(b[i]);
    }
  }

  /** `Upper` is the identity on a text without lower-case letters. */
  lemma UpperIdentity(s: string)
    requires NoLower(s)
    ensures Upper(s) == s
  {
  }
}
