/** Text operations that the dimension mapper applies to label names and values:
    Rust's `str::trim` (used by the blank-label filter) and `String::cmp` (used as
    the sort key comparison). */
module Text {

  /** Rust's `char::is_whitespace`: the characters with the Unicode White_Space property. */
  predicate IsWhitespace(c: char) {
    || ('\t' <= c <= '\r')
    || c == ' '
    || c == '\U{0085}'
    || c == '\U{00A0}'
    || c == '\U{1680}'
    || ('\U{2000}' <= c <= '\U{200A}')
    || c == '\U{2028}'
    || c == '\U{2029}'
    || c == '\U{202F}'
    || c == '\U{205F}'
    || c == '\U{3000}'
  }

  /** `str::trim_start`: the suffix left after dropping leading whitespace. */
  function TrimStart(s: string): (r: string)
    ensures |r| <= |s| && r == s[|s| - |r|..]
    ensures forall i :: 0 <= i < |s| - |r| ==> IsWhitespace(s[i])
    ensures r == [] || !IsWhitespace(r[0])
  {
    if s != [] && IsWhitespace(s[0]) then TrimStart(s[1..]) else s
  }

  /** `str::trim_end`: the prefix left after dropping trailing whitespace. */
  function TrimEnd(s: string): (r: string)
    ensures |r| <= |s| && r == s[..|r|]
    ensures forall i :: |r| <= i < |s| ==> IsWhitespace(s[i])
    ensures r == [] || !IsWhitespace(r[|r| - 1])
  {
    if s != [] && IsWhitespace(s[|s| - 1]) then TrimEnd(s[..|s| - 1]) else s
  }

  /** `str::trim`: `s` without its leading and trailing whitespace. */
  function Trim(s: string): (r: string)
    ensures |r| <= |s|
  {
    TrimEnd(TrimStart(s))
  }

  /** What `str::trim` promises: the result is the contiguous piece of `s` left
      after removing whitespace on both sides; it neither starts nor ends with
      whitespace, and it is empty exactly when `s` is all whitespace. */
  lemma TrimSpec(s: string)
    ensures var r := Trim(s);
      exists k :: 0 <= k <= |s| - |r| && s[k..][..|r|] == r && IsBlank(s[..k]) && IsBlank(s[k + |r|..])
    ensures var r := Trim(s); r == [] || (!IsWhitespace(r[0]) && !IsWhitespace(r[|r| - 1]))
    ensures Trim(s) == [] <==> forall i :: 0 <= i < |s| ==> IsWhitespace(s[i])
  {
    TrimRemovesWhitespace(s, TrimStart(s), Trim(s));
    TrimEdges(s, TrimStart(s), Trim(s));
  }

  /** What trimming leaves neither starts nor ends with whitespace, and is
      empty exactly when everything was whitespace. */
  lemma TrimEdges(s: string, t: string, r: string)
    requires t == TrimStart(s) && r == TrimEnd(t)
    ensures r == [] || (!IsWhitespace(r[0]) && !IsWhitespace(r[|r| - 1]))
    ensures r == [] <==> forall i :: 0 <= i < |s| ==> IsWhitespace(s[i])
  {
    if r != [] {
      assert r[0] == t[0];
      assert r[0] == s[|s| - |t|];
    } else {
      assert t == [];
    }
  }

  /** Trimming the start and then the end removes only whitespace, on both
      sides of what remains. */
  lemma TrimRemovesWhitespace(s: string, t: string, r: string)
    requires t == TrimStart(s) && r == TrimEnd(t)
    ensures exists k :: 0 <= k <= |s| - |r| && s[k..][..|r|] == r && IsBlank(s[..k]) && IsBlank(s[k + |r|..])
  {
    var k := |s| - |t|;
    assert s[k..] == t;
    assert s[k..][..|r|] == r;
    BlankPrefix(s, k);
    BlankSuffix(t, |r|);
    assert s[k + |r|..] == t[|r|..];
  }

  lemma BlankPrefix(s: string, k: nat)
    requires k <= |s| && forall i :: 0 <= i < k ==> IsWhitespace(s[i])
    ensures IsBlank(s[..k])
  {
    AllWhitespaceIsBlank(s[..k]);
  }

  lemma BlankSuffix(s: string, k: nat)
    requires k <= |s| && forall i :: k <= i < |s| ==> IsWhitespace(s[i])
    ensures IsBlank(s[k..])
  {
    AllWhitespaceIsBlank(s[k..]);
  }

  /** The filter condition of the dimension mapper, `s.trim().is_empty()`:
      every character of `s` is whitespace. `IsBlankIsTrimEmpty` shows the two
      agree. */
  predicate IsBlank(s: string) {
    s == [] || (IsWhitespace(s[0]) && IsBlank(s[1..]))
  }

  /** A string is blank exactly when trimming leaves nothing. */
  lemma {:induction false} IsBlankIsTrimEmpty(s: string)
    ensures IsBlank(s) <==> Trim(s) == []
  {
    AllWhitespaceIsBlank(s);
    TrimSpec(s);
  }

  lemma {:induction false} AllWhitespaceIsBlank(s: string)
    ensures IsBlank(s) <==> forall i :: 0 <= i < |s| ==> IsWhitespace(s[i])
  {
    if s != [] {
      AllWhitespaceIsBlank(s[1..]);
      assert forall i :: 1 <= i < |s| ==> s[i] == s[1..][i - 1];
    }
  }

  /** `a <= b` under Rust's `String::cmp`. That comparison is byte-wise on the
      UTF-8 encoding, and UTF-8 preserves code-point order, so it is the
      lexicographic order on the strings' characters. */
  predicate LexLe(a: string, b: string) {
    if a == [] then true
    else if b == [] then false
    else if a[0] != b[0] then a[0] < b[0]
    else LexLe(a[1..], b[1..])
  }

  lemma {:induction false} LexLeReflexive(a: string)
    ensures LexLe(a, a)
  {
    if a != [] {
      LexLeReflexive(a[1..]);
    }
  }

  lemma {:induction false} LexLeAntisymmetric(a: string, b: string)
    requires LexLe(a, b) && LexLe(b, a)
    ensures a == b
  {
    if a != [] && b != [] {
      LexLeAntisymmetric(a[1..], b[1..]);
      assert a == [a[0]] + a[1..];
      assert b == [b[0]] + b[1..];
    }
  }

  lemma {:induction false} LexLeTransitive(a: string, b: string, c: string)
    requires LexLe(a, b) && LexLe(b, c)
    ensures LexLe(a, c)
  {
    if a != [] && b != [] && c != [] && a[0] == b[0] == c[0] {
      LexLeTransitive(a[1..], b[1..], c[1..]);
    }
  }

  lemma {:induction false} LexLeTotal(a: string, b: string)
    ensures LexLe(a, b) || LexLe(b, a)
  {
    if a != [] && b != [] && a[0] == b[0] {
      LexLeTotal(a[1..], b[1..]);
    }
  }

  /** The textbook definition of lexicographic order: `a` is a prefix of `b`, or
      at the first position where they differ `a` has the smaller character. */
  lemma {:induction false} LexLeIffPrefixOrFirstDifference(a: string, b: string)
    ensures LexLe(a, b) <==>
      (|a| <= |b| && a == b[..|a|]) ||
      (exists k :: 0 <= k < |a| && k < |b| && a[..k] == b[..k] && a[k] < b[k])
  {
    if a != [] && b != [] {
      LexLeIffPrefixOrFirstDifference(a[1..], b[1..]);
      if a[0] == b[0] {
        if LexLe(a[1..], b[1..]) && !(|a| <= |b| && a == b[..|a|]) {
          var k :| 0 <= k < |a[1..]| && k < |b[1..]| && a[1..][..k] == b[1..][..k] && a[1..][k] < b[1..][k];
          assert a[..k + 1] == [a[0]] + a[1..][..k];
          assert b[..k + 1] == [b[0]] + b[1..][..k];
        }
        if |a| <= |b| && a == b[..|a|] {
          assert a[1..] == b[1..][..|a[1..]|];
        }
        if exists k :: 0 <= k < |a| && k < |b| && a[..k] == b[..k] && a[k] < b[k] {
          var k :| 0 <= k < |a| && k < |b| && a[..k] == b[..k] && a[k] < b[k];
          assert k != 0;
          assert a[1..][..k - 1] == a[..k][1..];
          assert b[1..][..k - 1] == b[..k][1..];
        }
      } else {
        assert a[..0] == b[..0];
      }
    }
  }
}
