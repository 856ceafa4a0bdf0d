/**
  The Python string operations the scenario engine and the conversation memory rely on:
  `sep.join(parts)`, `s.split(sep)`, `s.strip()`, `s.lower()`, `s.startswith(p)`,
  `s.replace(a, b)` and the `\w` character class of the `re` module, stated on `seq<char>`.
*/
module Strings {

  // ---------------------------------------------------------------------------
  // Occurrence of one string inside another
  // ---------------------------------------------------------------------------

  /** `w` occurs in `s` starting at index `i`. */
  predicate OccursAt(s: string, w: string, i: nat) {
    i + |w| <= |s| && s[i..i + |w|] == w
  }

  /** A slice of a slice is a slice of the original. */
  lemma SliceOfSlice(s: string, a: nat, b: nat, c: nat, d: nat)
    requires a <= b <= |s| && c <= d <= b - a
    ensures s[a..b][c..d] == s[a + c..a + d]
  {
    assert forall k :: 0 <= k < d - c ==> s[a..b][c..d][k] == s[a + c + k];
  }

  /** Python's `w in s`. */
  predicate Contains(s: string, w: string) {
    exists i: nat | i <= |s| :: OccursAt(s, w, i)
  }

  /** Python's `s.startswith(prefix)`. */
  predicate StartsWith(s: string, prefix: string) {
    |prefix| <= |s| && s[..|prefix|] == prefix
  }

  lemma ContainsShorter(s: string, w: string)
    requires Contains(s, w)
    ensures |w| <= |s|
  {
    var i: nat :| OccursAt(s, w, i);
  }

  // ---------------------------------------------------------------------------
  // str.join and its inverse for a one-character separator
  // ---------------------------------------------------------------------------

  /** Python's `sep.join(parts)`: `""` for no parts, the parts separated by `sep` otherwise. */
  function Join(parts: seq<string>, sep: string): string
    decreases |parts|
  {
    if |parts| == 0 then ""
    else if |parts| == 1 then parts[0]
    else parts[0] + sep + Join(parts[1..], sep)
  }

  /** Joining one more part appends the separator and that part, so join keeps the order of its parts. */
  lemma {:induction false} JoinAppend(parts: seq<string>, p: string, sep: string)
    requires parts != []
    ensures Join(parts + [p], sep) == Join(parts, sep) + sep + p
  {
    if |parts| == 1 {
      assert parts + [p] == [parts[0], p];
      assert (parts + [p])[1..] == [p];
    } else {
      assert (parts + [p])[1..] == parts[1..] + [p];
      JoinAppend(parts[1..], p, sep);
    }
  }

  /** A join whose first part starts with `c` starts with `c`. */
  lemma {:induction false} JoinFirstChar(parts: seq<string>, sep: string)
    requires parts != [] && parts[0] != []
    ensures Join(parts, sep) != [] && Join(parts, sep)[0] == parts[0][0]
  {
  }

  /** Index of the first `c` in `s` (Python's `s.index(c)`). */
  function IndexOf(s: string, c: char): (k: nat)
    requires c in s
    ensures k < |s| && s[k] == c && c !in s[..k]
  {
    if s[0] == c then 0
    else
      assert c in s[1..];
      var k := 1 + IndexOf(s[1..], c);
      assert s[..k] == [s[0]] + s[1..][..k - 1];
      k
  }

  /** Python's `s.split(c)` for a one-character separator: always at least one piece. */
  function Split(s: string, c: char): (r: seq<string>)
    ensures |r| >= 1
    decreases |s|
  {
    if c !in s then [s]
    else
      var k := IndexOf(s, c);
      [s[..k]] + Split(s[k + 1..], c)
  }

  /** Splitting a join at its separator gives back the parts, when no part holds the separator. */
  lemma {:induction false} SplitJoin(parts: seq<string>, c: char)
    requires parts != []
    requires forall i :: 0 <= i < |parts| ==> c !in parts[i]
    ensures Split(Join(parts, [c]), c) == parts
    decreases |parts|
  {
    if |parts| > 1 {
      var p0, rest := parts[0], Join(parts[1..], [c]);
      var s := p0 + [c] + rest;
      assert Join(parts, [c]) == s;
      assert s[|p0|] == c;
      var k := IndexOf(s, c);
      assert s[..|p0|] == p0;
      assert k == |p0|;
      assert s[..k] == p0;
      assert s[k + 1..] == rest;
      SplitJoin(parts[1..], c);
    }
  }

  /** `SplitJoin` stated for every list of parts, so that it can be used where its conditions are not known. */
  lemma SplitJoinWhenFree(parts: seq<string>, c: char)
    ensures parts != [] && (forall i :: 0 <= i < |parts| ==> c !in parts[i]) ==> Split(Join(parts, [c]), c) == parts
  {
    if parts != [] && (forall i :: 0 <= i < |parts| ==> c !in parts[i]) {
      SplitJoin(parts, c);
    }
  }

  // ---------------------------------------------------------------------------
  // str.replace and str.split with a string separator
  // ---------------------------------------------------------------------------

  /**
    Python's `s.replace(pattern, replacement)` for a non-empty pattern: scanning left to
    right, each occurrence not overlapping an earlier replaced one is replaced.
  */
  function Replace(s: string, pattern: string, replacement: string): string
    requires pattern != []
    decreases |s|
  {
    if |s| < |pattern| then s
    else if s[..|pattern|] == pattern then replacement + Replace(s[|pattern|..], pattern, replacement)
    else [s[0]] + Replace(s[1..], pattern, replacement)
  }

  /** Python's `s.split(sep)` for a non-empty separator. */
  function SplitOn(s: string, sep: string): (r: seq<string>)
    requires sep != []
    ensures |r| >= 1
    decreases |s|
  {
    if |s| < |sep| then [s]
    else if s[..|sep|] == sep then [""] + SplitOn(s[|sep|..], sep)
    else
      var rest := SplitOn(s[1..], sep);
      [[s[0]] + rest[0]] + rest[1..]
  }

  /** The first piece of a split is a prefix of the string. */
  lemma {:induction false} SplitOnHeadIsPrefix(s: string, sep: string)
    requires sep != []
    ensures |SplitOn(s, sep)[0]| <= |s| && SplitOn(s, sep)[0] == s[..|SplitOn(s, sep)[0]|]
    decreases |s|
  {
    if |s| >= |sep| && s[..|sep|] != sep {
      SplitOnHeadIsPrefix(s[1..], sep);
    }
  }

  /** Every piece of a split is free of the separator: no occurrence is left unsplit. */
  lemma {:induction false} SplitOnPiecesFree(s: string, sep: string)
    requires sep != []
    ensures forall i :: 0 <= i < |SplitOn(s, sep)| ==> !Contains(SplitOn(s, sep)[i], sep)
    decreases |s|
  {
    var r := SplitOn(s, sep);
    if |s| < |sep| {
      if Contains(s, sep) { ContainsShorter(s, sep); }
    } else if s[..|sep|] == sep {
      SplitOnPiecesFree(s[|sep|..], sep);
      assert r[1..] == SplitOn(s[|sep|..], sep);
      forall i | 0 <= i < |r| ensures !Contains(r[i], sep) {
        if i == 0 {
          if Contains(r[0], sep) { ContainsShorter(r[0], sep); }
        } else {
          assert r[i] == r[1..][i - 1];
        }
      }
    } else {
      var rest := SplitOn(s[1..], sep);
      SplitOnPiecesFree(s[1..], sep);
      SplitOnHeadIsPrefix(s[1..], sep);
      HeadPieceFree(s, sep, rest[0]);
      forall i | 0 <= i < |r| ensures !Contains(r[i], sep) {
        if i > 0 {
          assert r[i] == rest[i];
        }
      }
    }
  }

  /** A prefix of `s` that does not start with `sep` and continues with a `sep`-free string is `sep`-free. */
  lemma HeadPieceFree(s: string, sep: string, tail: string)
    requires sep != [] && |sep| <= |s| && s[..|sep|] != sep
    requires |tail| < |s| && tail == s[1..1 + |tail|] && !Contains(tail, sep)
    ensures !Contains([s[0]] + tail, sep)
  {
    var head := [s[0]] + tail;
    assert head == s[..1 + |tail|];
    if Contains(head, sep) {
      var j: nat :| j <= |head| && OccursAt(head, sep, j);
      if j > 0 {
        assert head[j..j + |sep|] == tail[j - 1..j - 1 + |sep|];
        assert OccursAt(tail, sep, j - 1);
      }
    }
  }

  /** Joining the pieces of a split with `sep` restores the string among which it was split. */
  lemma {:induction false} JoinSplitOn(s: string, sep: string)
    requires sep != []
    ensures Join(SplitOn(s, sep), sep) == s
    decreases |s|
  {
    ReplaceIsJoinOfSplit(s, sep, sep);
    ReplaceBySelf(s, sep);
  }

  /** Replacing a pattern by itself changes nothing. */
  lemma {:induction false} ReplaceBySelf(s: string, pattern: string)
    requires pattern != []
    ensures Replace(s, pattern, pattern) == s
    decreases |s|
  {
    if |s| >= |pattern| {
      if s[..|pattern|] == pattern {
        ReplaceBySelf(s[|pattern|..], pattern);
        assert s == s[..|pattern|] + s[|pattern|..];
      } else {
        ReplaceBySelf(s[1..], pattern);
        assert s == [s[0]] + s[1..];
      }
    }
  }

  /** Joining pieces whose first one starts with `c` is `c` followed by the join without it. */
  lemma JoinConsHead(c: char, p: string, ps: seq<string>, sep: string)
    ensures Join([[c] + p] + ps, sep) == [c] + Join([p] + ps, sep)
  {
    if ps != [] {
      assert ([[c] + p] + ps)[1..] == ps;
      assert ([p] + ps)[1..] == ps;
    }
  }

  /** Joining pieces whose first one is empty starts with the separator. */
  lemma JoinEmptyHead(ps: seq<string>, sep: string)
    requires ps != []
    ensures Join([""] + ps, sep) == sep + Join(ps, sep)
  {
    assert ([""] + ps)[1..] == ps;
  }

  /** `s.replace(a, b)` is `b.join(s.split(a))`: each piece between occurrences is kept, each occurrence becomes `b`. */
  lemma {:induction false} ReplaceIsJoinOfSplit(s: string, pattern: string, replacement: string)
    requires pattern != []
    ensures Replace(s, pattern, replacement) == Join(SplitOn(s, pattern), replacement)
    decreases |s|
  {
    if |s| >= |pattern| {
      if s[..|pattern|] == pattern {
        ReplaceIsJoinOfSplit(s[|pattern|..], pattern, replacement);
        JoinEmptyHead(SplitOn(s[|pattern|..], pattern), replacement);
      } else {
        var rest := SplitOn(s[1..], pattern);
        ReplaceIsJoinOfSplit(s[1..], pattern, replacement);
        JoinConsHead(s[0], rest[0], rest[1..], replacement);
        assert [rest[0]] + rest[1..] == rest;
      }
    }
  }

  /** A pattern that does not occur leaves the string as it is. */
  lemma {:induction false} ReplaceAbsent(s: string, pattern: string, replacement: string)
    requires pattern != [] && !Contains(s, pattern)
    ensures Replace(s, pattern, replacement) == s
  {
    SplitOnPiecesFree(s, pattern);
    JoinSplitOn(s, pattern);
    ReplaceIsJoinOfSplit(s, pattern, replacement);
    var pieces := SplitOn(s, pattern);
    if |pieces| > 1 {
      assert s == pieces[0] + pattern + Join(pieces[1..], pattern);
      assert OccursAt(s, pattern, |pieces[0]|);
      assert false;
    }
  }

  /** An occurrence in a suffix `s[d..]` is an occurrence in `s`, shifted by `d`. */
  lemma OccursInSuffix(s: string, d: nat, w: string, k: nat)
    requires d <= |s|
    ensures OccursAt(s[d..], w, k) <==> OccursAt(s, w, d + k)
  {
    if d + k + |w| <= |s| {
      assert s[d..][k..k + |w|] == s[d + k..d + k + |w|];
    }
  }

  /** An occurrence that ends within the prefix `s[..n]` is an occurrence in that prefix. */
  lemma OccursInPrefix(s: string, n: nat, w: string, k: nat)
    requires n <= |s| && k + |w| <= n
    ensures OccursAt(s[..n], w, k) <==> OccursAt(s, w, k)
  {
    assert s[..n][k..k + |w|] == s[k..k + |w|];
  }

  /** No occurrence straddling the end of `a` in `a + b` means none straddles it in `a[d..] + b` either. */
  lemma CutShift(a: string, b: string, pattern: string, d: nat)
    requires d <= |a|
    requires forall k: nat :: k < |a| < k + |pattern| ==> !OccursAt(a + b, pattern, k)
    ensures forall k: nat :: k < |a| - d < k + |pattern| ==> !OccursAt(a[d..] + b, pattern, k)
  {
    var s := a + b;
    assert s[d..] == a[d..] + b;
    forall k: nat | k < |a| - d < k + |pattern|
      ensures !OccursAt(a[d..] + b, pattern, k)
    {
      OccursInSuffix(s, d, pattern, k);
    }
  }

  /**
    Replacement works piece by piece: when no occurrence of the pattern straddles the end
    of `a`, replacing in `a + b` is replacing in `a`, then in `b`.
  */
  lemma {:induction false} ReplaceConcat(a: string, b: string, pattern: string, replacement: string)
    requires pattern != []
    requires forall k: nat :: k < |a| < k + |pattern| ==> !OccursAt(a + b, pattern, k)
    ensures Replace(a + b, pattern, replacement) == Replace(a, pattern, replacement) + Replace(b, pattern, replacement)
    decreases |a|
  {
    var s, m := a + b, |pattern|;
    if a == [] {
      assert s == b;
    } else if |s| < m {
    } else if s[..m] == pattern {
      assert OccursAt(s, pattern, 0);
      assert a[..m] == pattern;
      var a' := a[m..];
      assert s[m..] == a' + b;
      CutShift(a, b, pattern, m);
      ReplaceConcat(a', b, pattern, replacement);
      assert Replace(s, pattern, replacement) == replacement + Replace(a' + b, pattern, replacement);
      assert Replace(a, pattern, replacement) == replacement + Replace(a', pattern, replacement);
    } else {
      var a' := a[1..];
      assert s[1..] == a' + b;
      CutShift(a, b, pattern, 1);
      ReplaceConcat(a', b, pattern, replacement);
      assert Replace(s, pattern, replacement) == [s[0]] + Replace(a' + b, pattern, replacement);
      if |a| < m {
        assert [a[0]] + a' == a;
      } else {
        assert a[..m] == s[..m];
        assert Replace(a, pattern, replacement) == [a[0]] + Replace(a', pattern, replacement);
      }
    }
  }

  // ---------------------------------------------------------------------------
  // str.strip, str.lower and the \w class
  // ---------------------------------------------------------------------------

  /** Python's `str.isspace` for one character: the characters `str.strip()` removes. */
  predicate IsSpace(c: char) {
    c == ' ' || ('\t' <= c <= '\r') || ('\U{1C}' <= c <= '\U{1F}') || c == '\U{85}' || c == '\U{A0}'
    || c == '\U{1680}' || ('\U{2000}' <= c <= '\U{200A}') || c == '\U{2028}' || c == '\U{2029}'
    || c == '\U{202F}' || c == '\U{205F}' || c == '\U{3000}'
  }

  /** Python's `s.lstrip()`. */
  function TrimLeft(s: string): (r: string)
    ensures |r| <= |s| && r == s[|s| - |r|..]
    ensures r != [] ==> !IsSpace(r[0])
    ensures forall j :: 0 <= j < |s| - |r| ==> IsSpace(s[j])
    decreases |s|
  {
    if s != [] && IsSpace(s[0]) then TrimLeft(s[1..]) else s
  }

  /** Left-trimming ignores any whitespace put in front. */
  lemma {:induction false} TrimLeftSpaces(ws: string, s: string)
    requires forall i :: 0 <= i < |ws| ==> IsSpace(ws[i])
    ensures TrimLeft(ws + s) == TrimLeft(s)
    decreases |ws|
  {
    if ws != [] {
      assert (ws + s)[0] == ws[0] && IsSpace(ws[0]);
      assert (ws + s)[1..] == ws[1..] + s;
      assert forall i :: 0 <= i < |ws[1..]| ==> IsSpace(ws[1..][i]) by {
        forall i | 0 <= i < |ws[1..]| ensures IsSpace(ws[1..][i]) {
          assert ws[1..][i] == ws[i + 1];
        }
      }
      TrimLeftSpaces(ws[1..], s);
    } else {
      assert ws + s == s;
    }
  }

  /** Python's `s.rstrip()`. */
  function TrimRight(s: string): (r: string)
    ensures |r| <= |s| && r == s[..|r|]
    ensures r != [] ==> !IsSpace(r[|r| - 1])
    ensures forall j :: |r| <= j < |s| ==> IsSpace(s[j])
    decreases |s|
  {
    if s != [] && IsSpace(s[|s| - 1]) then TrimRight(s[..|s| - 1]) else s
  }

  /** Python's `s.strip()`. */
  function Strip(s: string): string {
    TrimRight(TrimLeft(s))
  }

  /**
    Python's `str.lower` on one character, for ASCII, Latin-1 and the basic Cyrillic
    block; every other character is its own lower-case form here.
  */
  function LowerChar(c: char): char {
    if 'A' <= c <= 'Z' then (c as int + 32) as char
    else if ('\U{C0}' <= c <= '\U{DE}') && c != '\U{D7}' then (c as int + 32) as char
    else if '\U{410}' <= c <= '\U{42F}' then (c as int + 32) as char
    else if '\U{400}' <= c <= '\U{40F}' then (c as int + 80) as char
    else c
  }

  /** Python's `s.lower()`, character by character. */
  function Lower(s: string): (r: string)
    ensures |r| == |s| && forall i :: 0 <= i < |s| ==> r[i] == LowerChar(s[i])
  {
    seq(|s|, i requires 0 <= i < |s| => LowerChar(s[i]))
  }

  /**
    The `\w` class of Python's `re` on `str` patterns: letters, digits and `_`, for
    ASCII, Latin-1 and Cyrillic; characters of other scripts are not word characters here.
  */
  predicate IsWordChar(c: char) {
    ('a' <= c <= 'z') || ('A' <= c <= 'Z') || ('0' <= c <= '9') || c == '_'
    || c == '\U{AA}' || c == '\U{B2}' || c == '\U{B3}' || c == '\U{B5}' || c == '\U{B9}' || c == '\U{BA}'
    || ('\U{BC}' <= c <= '\U{BE}') || ('\U{C0}' <= c <= '\U{D6}') || ('\U{D8}' <= c <= '\U{F6}')
    || ('\U{F8}' <= c <= '\U{FF}') || ('\U{400}' <= c <= '\U{481}') || ('\U{48A}' <= c <= '\U{52F}')
  }
}
