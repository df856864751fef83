/** The string operations the handler relies on, with Python's semantics:
    substring search (`in`, `find`), `str.split(sep)` and its inverse
    `sep.join`, `str.upper()` (ASCII letters only) and `str.strip()`
    emptiness. */
module Text {
  import opened Common

  /** `m` occurs in `s` starting at index `i`. */
  predicate OccursAt(s: string, m: string, i: nat)
  {
    i + |m| <= |s| && s[i..i + |m|] == m
  }

  /** Python's `m in s`. */
  predicate Contains(s: string, m: string)
  {
    exists i :: 0 <= i <= |s| - |m| && OccursAt(s, m, i)
  }

  /** Python's `s.find(m, from)`: the first occurrence of `m` at or after
      `from`, or `None` where Python answers -1. */
  function FindFrom(s: string, m: string, from: nat): (r: Option<nat>)
    ensures r.Some? ==> from <= r.value && OccursAt(s, m, r.value)
    ensures forall i: nat :: from <= i && (r.None? || i < r.value) ==> !OccursAt(s, m, i)
    decreases |s| - from
  {
    if from + |m| > |s| then None
    else if s[from..from + |m|] == m then Some(from)
    else FindFrom(s, m, from + 1)
  }

  /** `find` succeeds exactly when `in` holds. */
  lemma FoundIffContains(s: string, m: string)
    ensures FindFrom(s, m, 0).Some? <==> Contains(s, m)
  {
    var r := FindFrom(s, m, 0);
    if r.Some? {
      assert OccursAt(s, m, r.value);
    }
  }

  /** Python's `s.split(sep)` for a non-empty separator: the pieces between
      successive non-overlapping occurrences, scanned left to right. */
  function Split(s: string, sep: string): (parts: seq<string>)
    requires |sep| > 0
    ensures |parts| >= 1
    ensures |parts| == 1 <==> FindFrom(s, sep, 0).None?
    decreases |s|
  {
    match FindFrom(s, sep, 0)
    case None => [s]
    case Some(i) => [s[..i]] + Split(s[i + |sep|..], sep)
  }

  /** Python's `sep.join(parts)`. */
  function Join(parts: seq<string>, sep: string): string
    requires |parts| >= 1
  {
    if |parts| == 1 then parts[0] else parts[0] + sep + Join(parts[1..], sep)
  }

  /** An occurrence inside a prefix of `s` is an occurrence in `s` that ends
      within the prefix. */
  lemma OccursInPrefix(s: string, m: string, n: nat, j: nat)
    requires n <= |s|
    requires OccursAt(s[..n], m, j)
    ensures j + |m| <= n && OccursAt(s, m, j)
  {
    assert s[..n][j..j + |m|] == s[j..j + |m|];
  }

  /** An occurrence inside a suffix of `s` is an occurrence in `s`, shifted. */
  lemma OccursInSuffix(s: string, m: string, n: nat, j: nat)
    requires n <= |s|
    ensures OccursAt(s[n..], m, j) <==> OccursAt(s, m, n + j)
  {
    if n + j + |m| <= |s| {
      assert s[n..][j..j + |m|] == s[n + j..n + j + |m|];
    }
  }

  /** Splitting at a found separator: the piece before it, then the split of
      what follows it. */
  lemma SplitAt(s: string, sep: string, i: nat)
    requires |sep| > 0
    requires FindFrom(s, sep, 0) == Some(i)
    ensures i + |sep| <= |s| && s == s[..i] + sep + s[i + |sep|..]
    ensures Split(s, sep) == [s[..i]] + Split(s[i + |sep|..], sep)
  {
    assert s == s[..i] + s[i..i + |sep|] + s[i + |sep|..];
  }

  lemma JoinCons(head: string, tail: seq<string>, sep: string)
    requires |tail| >= 1
    ensures Join([head] + tail, sep) == head + sep + Join(tail, sep)
  {
    assert ([head] + tail)[1..] == tail;
  }

  /** Joining the pieces of a split with the same separator gives back the
      original string. */
  lemma {:induction false} JoinSplit(s: string, sep: string)
    requires |sep| > 0
    ensures Join(Split(s, sep), sep) == s
    decreases |s|
  {
    var found := FindFrom(s, sep, 0);
    if found.Some? {
      var i := found.value;
      var rest := s[i + |sep|..];
      SplitAt(s, sep, i);
      JoinSplit(rest, sep);
      JoinCons(s[..i], Split(rest, sep), sep);
    }
  }

  /** No piece of a split contains the separator. */
  lemma {:induction false} SplitPiecesOmitSeparator(s: string, sep: string)
    requires |sep| > 0
    ensures forall k :: 0 <= k < |Split(s, sep)| ==> !Contains(Split(s, sep)[k], sep)
    decreases |s|
  {
    var found := FindFrom(s, sep, 0);
    if found.Some? {
      var i := found.value;
      var rest := s[i + |sep|..];
      SplitAt(s, sep, i);
      SplitPiecesOmitSeparator(rest, sep);
      NothingBeforeFirst(s, sep, i);
      var parts := Split(s, sep);
      var tail := Split(rest, sep);
      forall k | 0 <= k < |parts|
        ensures !Contains(parts[k], sep)
      {
        if k > 0 {
          assert parts[k] == tail[k - 1];
        }
      }
    } else {
      FoundIffContains(s, sep);
    }
  }

  /** The text before the first occurrence does not contain the separator. */
  lemma NothingBeforeFirst(s: string, sep: string, i: nat)
    requires |sep| > 0
    requires FindFrom(s, sep, 0) == Some(i)
    ensures !Contains(s[..i], sep)
  {
    forall j | 0 <= j <= |s[..i]| - |sep|
      ensures !OccursAt(s[..i], sep, j)
    {
      if OccursAt(s[..i], sep, j) {
        OccursInPrefix(s, sep, i, j);
        assert false;
      }
    }
  }

  /** The first piece of a split runs from the start of `s` up to the first
      occurrence of the separator, or to the end when there is none. */
  lemma SplitHead(s: string, sep: string)
    requires |sep| > 0
    ensures var h := Split(s, sep)[0];
      && |h| <= |s| && h == s[..|h|]
      && (|h| == |s| || OccursAt(s, sep, |h|))
      && forall k: nat :: k < |h| ==> !OccursAt(s, sep, k)
  {
  }

  /** Python's `str.upper()` on one character, restricted to ASCII letters. */
  function UpperChar(c: char): char
  {
    if 'a' <= c <= 'z' then (c as int - 32) as char else c
  }

  predicate IsLowerAscii(c: char)
  {
    'a' <= c <= 'z'
  }

  /** Python's `s.upper()`, mapping ASCII letters only. */
  function Upper(s: string): (u: string)
    ensures |u| == |s|
    ensures forall k :: 0 <= k < |s| ==> !IsLowerAscii(u[k])
    ensures forall k :: 0 <= k < |s| && !IsLowerAscii(s[k]) ==> u[k] == s[k]
    ensures forall k :: 0 <= k < |s| && IsLowerAscii(s[k]) ==> u[k] as int == s[k] as int - 32
  {
    seq(|s|, k requires 0 <= k < |s| => UpperChar(s[k]))
  }

  /** The characters Python's `str.isspace()` accepts, which `str.strip()`
      removes from both ends: the ASCII whitespace and separators, and the
      Unicode spaces and line separators. */
  predicate IsSpace(c: char)
  {
    || ('\t' <= c <= '\r')
    || ('\U{1C}' <= c <= ' ')
    || c == '\U{85}' || c == '\U{A0}' || c == '\U{1680}'
    || ('\U{2000}' <= c <= '\U{200A}')
    || c == '\U{2028}' || c == '\U{2029}' || c == '\U{202F}'
    || c == '\U{205F}' || c == '\U{3000}'
  }

  /** Python's `s.strip()`: drop whitespace from both ends. */
  function Strip(s: string): (t: string)
    ensures |t| <= |s|
    ensures |t| > 0 ==> !IsSpace(t[0]) && !IsSpace(t[|t| - 1])
    ensures (|s| == 0 || (!IsSpace(s[0]) && !IsSpace(s[|s| - 1]))) ==> t == s
    decreases |s|
  {
    if |s| > 0 && IsSpace(s[0]) then Strip(s[1..])
    else if |s| > 0 && IsSpace(s[|s| - 1]) then Strip(s[..|s| - 1])
    else s
  }

  /** `strip()` returns the input with a whitespace prefix and a whitespace
      suffix removed, and nothing else changed. */
  lemma {:induction false} StripInfix(s: string) returns (i: nat, j: nat)
    ensures i <= j <= |s| && Strip(s) == s[i..j]
    ensures forall k :: 0 <= k < i ==> IsSpace(s[k])
    ensures forall k :: j <= k < |s| ==> IsSpace(s[k])
    decreases |s|
  {
    if |s| > 0 && IsSpace(s[0]) {
      var i', j' := StripInfix(s[1..]);
      i, j := i' + 1, j' + 1;
      assert s[1..][i'..j'] == s[i..j];
      forall k | 1 <= k < i ensures IsSpace(s[k]) { assert s[k] == s[1..][k - 1]; }
      forall k | j <= k < |s| ensures IsSpace(s[k]) { assert s[k] == s[1..][k - 1]; }
    } else if |s| > 0 && IsSpace(s[|s| - 1]) {
      var i', j' := StripInfix(s[..|s| - 1]);
      i, j := i', j';
      assert s[..|s| - 1][i'..j'] == s[i..j];
      forall k | j <= k < |s| - 1 ensures IsSpace(s[k]) { assert s[k] == s[..|s| - 1][k]; }
    } else {
      i, j := 0, |s|;
    }
  }

  /** Python's `not (s and s.strip())`: the string is empty or all whitespace. */
  predicate IsBlank(s: string)
  {
    forall k :: 0 <= k < |s| ==> IsSpace(s[k])
  }

  /** `not (s and s.strip())` holds exactly when `strip()` leaves nothing,
      that is, when every character is whitespace. */
  lemma {:induction false} BlankIffStripEmpty(s: string)
    ensures IsBlank(s) <==> Strip(s) == ""
    decreases |s|
  {
    if |s| > 0 && IsSpace(s[0]) {
      BlankIffStripEmpty(s[1..]);
      assert forall k :: 1 <= k < |s| ==> s[k] == s[1..][k - 1];
    } else if |s| > 0 && IsSpace(s[|s| - 1]) {
      BlankIffStripEmpty(s[..|s| - 1]);
      assert forall k :: 0 <= k < |s| - 1 ==> s[k] == s[..|s| - 1][k];
    }
  }

  /** Python's whitespace includes the ASCII blanks and excludes letters and digits. */
  lemma SpaceExamples(c: char)
    ensures c == ' ' || c == '\t' || c == '\n' || c == '\r' ==> IsSpace(c)
    ensures ('0' <= c <= '9') || ('a' <= c <= 'z') || ('A' <= c <= 'Z') ==> !IsSpace(c)
  {
  }
}
