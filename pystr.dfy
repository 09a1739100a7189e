/**
 * The few Python `str` operations the chunker relies on, with their
 * Python semantics: `s.split(sep)` for a one-character separator,
 * `s.replace(pat, "")` and `s.strip()`.
 */
module PyStr {

  /** Python's `str.isspace()` for a single character. */
  predicate IsWhitespace(c: char) {
    c == ' ' || ('\t' <= c <= '\r') || ('\U{1c}' <= c <= '\U{1f}') ||
    c == '\U{85}' || c == '\U{a0}' || c == '\U{1680}' || ('\U{2000}' <= c <= '\U{200a}') ||
    c == '\U{2028}' || c == '\U{2029}' || c == '\U{202f}' || c == '\U{205f}' || c == '\U{3000}'
  }

  /** Number of occurrences of `c` in `s`. */
  function Occurrences(s: string, c: char): nat
    decreases |s|
  {
    if s == [] then 0 else (if s[0] == c then 1 else 0) + Occurrences(s[1..], c)
  }

  /**
   * `s.split(sep)`: the pieces between occurrences of `sep`. Runs of
   * separators give empty pieces and there is always at least one piece.
   */
  function Split(s: string, sep: char): (pieces: seq<string>)
    ensures |pieces| == Occurrences(s, sep) + 1
    ensures forall k :: 0 <= k < |pieces| ==> sep !in pieces[k] && |pieces[k]| <= |s|
    decreases |s|
  {
    if s == [] then [""]
    else
      var rest := Split(s[1..], sep);
      if s[0] == sep then [""] + rest
      else [[s[0]] + rest[0]] + rest[1..]
  }

  /** `sep.join(pieces)`. */
  function Join(pieces: seq<string>, sep: char): string
    decreases |pieces|
  {
    if pieces == [] then ""
    else if |pieces| == 1 then pieces[0]
    else pieces[0] + [sep] + Join(pieces[1..], sep)
  }

  /** Splitting loses nothing: joining the pieces gives back the string. */
  lemma {:induction false} JoinSplit(s: string, sep: char)
    ensures Join(Split(s, sep), sep) == s
    decreases |s|
  {
    if s != [] {
      var rest := Split(s[1..], sep);
      JoinSplit(s[1..], sep);
      if s[0] == sep {
        assert Split(s, sep) == [""] + rest;
      } else {
        var pieces := Split(s, sep);
        assert pieces == [[s[0]] + rest[0]] + rest[1..];
        if |rest| > 1 {
          assert pieces[1..] == rest[1..];
          assert Join(rest, sep) == rest[0] + [sep] + Join(rest[1..], sep);
        }
      }
    }
  }

  /** Splitting is the inverse of joining pieces that do not hold the separator. */
  lemma {:induction false} SplitJoin(pieces: seq<string>, sep: char)
    requires |pieces| >= 1
    requires forall k :: 0 <= k < |pieces| ==> sep !in pieces[k]
    ensures Split(Join(pieces, sep), sep) == pieces
    decreases |pieces|
  {
    if |pieces| == 1 {
      SplitNoSeparator(pieces[0], sep);
    } else {
      SplitJoin(pieces[1..], sep);
      SplitThroughPiece(pieces[0], Join(pieces[1..], sep), sep);
    }
  }

  /** A string without the separator is a single piece. */
  lemma {:induction false} SplitNoSeparator(s: string, sep: char)
    requires sep !in s
    ensures Split(s, sep) == [s]
    decreases |s|
  {
    if s != [] {
      assert sep !in s[1..];
      SplitNoSeparator(s[1..], sep);
      assert [s[0]] + s[1..] == s;
    }
  }

  /** A separator-free prefix followed by a separator becomes the first piece. */
  lemma {:induction false} SplitThroughPiece(p: string, rest: string, sep: char)
    requires sep !in p
    ensures Split(p + [sep] + rest, sep) == [p] + Split(rest, sep)
    decreases |p|
  {
    if p == [] {
      assert p + [sep] + rest == [sep] + rest;
      assert ([sep] + rest)[1..] == rest;
    } else {
      assert (p + [sep] + rest)[1..] == p[1..] + [sep] + rest;
      assert sep !in p[1..];
      SplitThroughPiece(p[1..], rest, sep);
      assert [p[0]] + p[1..] == p;
    }
  }

  /** `s.replace(pat, "")`: occurrences of `pat` are deleted, scanning left to right without overlap. */
  function DeleteAll(s: string, pat: string): (r: string)
    requires pat != []
    ensures |r| <= |s|
    ensures forall c :: c in r ==> c in s
    decreases |s|
  {
    if |s| < |pat| then s
    else if s[..|pat|] == pat then DeleteAll(s[|pat|..], pat)
    else [s[0]] + DeleteAll(s[1..], pat)
  }

  /** `pat` occurs in `s` starting at index `i`. */
  predicate OccursAt(s: string, pat: string, i: int) {
    0 <= i && i + |pat| <= |s| && s[i..i + |pat|] == pat
  }

  /** A text without an occurrence of `pat` comes back unchanged. */
  lemma {:induction false} DeleteAbsent(s: string, pat: string)
    requires pat != []
    requires forall i :: !OccursAt(s, pat, i)
    ensures DeleteAll(s, pat) == s
    decreases |s|
  {
    if |s| >= |pat| {
      assert !OccursAt(s, pat, 0);
      forall i ensures !OccursAt(s[1..], pat, i) {
        if OccursAt(s[1..], pat, i) {
          assert s[1..][i..i + |pat|] == s[i + 1..i + 1 + |pat|];
          assert OccursAt(s, pat, i + 1);
        }
      }
      DeleteAbsent(s[1..], pat);
      assert [s[0]] + s[1..] == s;
    }
  }

  /** A leading occurrence of `pat` is deleted and the scan goes on after it. */
  lemma DeleteLeading(pat: string, s: string)
    requires pat != []
    ensures DeleteAll(pat + s, pat) == DeleteAll(s, pat)
  {
    assert (pat + s)[..|pat|] == pat;
    assert (pat + s)[|pat|..] == s;
  }

  /**
   * The leftmost occurrence of `pat` is the first one deleted: the text
   * before it is kept as it is, and the scan goes on after it.
   */
  lemma {:induction false} DeleteFirstOccurrence(a: string, b: string, pat: string)
    requires pat != []
    requires forall i :: 0 <= i < |a| ==> !OccursAt(a + pat + b, pat, i)
    ensures DeleteAll(a + pat + b, pat) == a + DeleteAll(b, pat)
    decreases |a|
  {
    var s := a + pat + b;
    if a == [] {
      assert s == pat + b;
      DeleteLeading(pat, b);
    } else {
      assert !OccursAt(s, pat, 0);
      assert s[1..] == a[1..] + pat + b;
      forall i | 0 <= i < |a[1..]|
        ensures !OccursAt(a[1..] + pat + b, pat, i)
      {
        if OccursAt(s[1..], pat, i) {
          assert s[1..][i..i + |pat|] == s[i + 1..i + 1 + |pat|];
          assert OccursAt(s, pat, i + 1);
        }
      }
      DeleteFirstOccurrence(a[1..], b, pat);
      assert DeleteAll(s, pat) == [s[0]] + DeleteAll(s[1..], pat);
      assert [a[0]] + a[1..] == a;
    }
  }

  /** How many occurrences `s.replace(pat, "")` deletes. */
  function DeletedCopies(s: string, pat: string): nat
    requires pat != []
    decreases |s|
  {
    if |s| < |pat| then 0
    else if s[..|pat|] == pat then DeletedCopies(s[|pat|..], pat) + 1
    else DeletedCopies(s[1..], pat)
  }

  /** Only whole occurrences are removed: the text shrinks by a multiple of `|pat|`. */
  lemma {:induction false} DeleteRemovesWholeCopies(s: string, pat: string)
    requires pat != []
    ensures |s| == |DeleteAll(s, pat)| + DeletedCopies(s, pat) * |pat|
    decreases |s|
  {
    if |s| >= |pat| {
      if s[..|pat|] == pat {
        var t := s[|pat|..];
        var k := DeletedCopies(t, pat);
        var n := |pat|;
        DeleteRemovesWholeCopies(t, pat);
        assert |t| == |DeleteAll(t, pat)| + k * n;
        assert DeletedCopies(s, pat) == k + 1;
        assert DeleteAll(s, pat) == DeleteAll(t, pat);
        assert |s| == |t| + n;
        MulSucc(k, n);
      } else {
        var t := s[1..];
        DeleteRemovesWholeCopies(t, pat);
        assert DeletedCopies(s, pat) == DeletedCopies(t, pat);
        assert |DeleteAll(s, pat)| == |DeleteAll(t, pat)| + 1;
      }
    }
  }

  lemma MulSucc(k: nat, n: nat)
    ensures (k + 1) * n == k * n + n
  {
  }

  /** `s.lstrip()`: the longest suffix of `s` that does not start with whitespace. */
  function StripStart(s: string): (r: string)
    ensures |r| <= |s| && r == s[|s| - |r|..]
    ensures forall k :: 0 <= k < |s| - |r| ==> IsWhitespace(s[k])
    ensures r != [] ==> !IsWhitespace(r[0])
    decreases |s|
  {
    if s != [] && IsWhitespace(s[0]) then StripStart(s[1..]) else s
  }

  /** `s.rstrip()`: the longest prefix of `s` that does not end with whitespace. */
  function StripEnd(s: string): (r: string)
    ensures |r| <= |s| && r == s[..|r|]
    ensures forall k :: |r| <= k < |s| ==> IsWhitespace(s[k])
    ensures r != [] ==> !IsWhitespace(r[|r| - 1])
    decreases |s|
  {
    if s != [] && IsWhitespace(s[|s| - 1]) then StripEnd(s[..|s| - 1]) else s
  }

  /** `s.strip()`: leading and trailing whitespace removed, nothing else touched. */
  function Strip(s: string): (r: string)
    ensures r != [] ==> !IsWhitespace(r[0]) && !IsWhitespace(r[|r| - 1])
    ensures forall c :: c in r ==> c in s
    ensures r == [] <==> forall k :: 0 <= k < |s| ==> IsWhitespace(s[k])
  {
    StripFacts(s);
    StripEnd(StripStart(s))
  }

  /** The three facts `Strip` promises, proved one by one below. */
  lemma StripFacts(s: string)
    ensures var r := StripEnd(StripStart(s));
      (r != [] ==> !IsWhitespace(r[0]) && !IsWhitespace(r[|r| - 1])) &&
      (forall c :: c in r ==> c in s) &&
      (r == [] <==> forall k :: 0 <= k < |s| ==> IsWhitespace(s[k]))
  {
    StripEnds(s);
    StripMembers(s);
    StripBlank(s);
  }

  /** The first character left is the first non-whitespace character of `s`. */
  lemma StripEnds(s: string)
    ensures var r := StripEnd(StripStart(s));
      r != [] ==> !IsWhitespace(r[0]) && !IsWhitespace(r[|r| - 1]) && r[0] == s[|s| - |StripStart(s)|]
  {
    var t := StripStart(s);
    var r := StripEnd(t);
    if r != [] {
      assert r[0] == t[0];
    }
  }

  /** Stripping only removes characters. */
  lemma StripMembers(s: string)
    ensures forall c :: c in StripEnd(StripStart(s)) ==> c in s
  {
    var t := StripStart(s);
    var r := StripEnd(t);
    SliceMembers(t, 0, |r|);
    SliceMembers(s, |s| - |t|, |s|);
  }

  /** A character of a slice is a character of the whole string. */
  lemma SliceMembers(s: string, lo: int, hi: int)
    requires 0 <= lo <= hi <= |s|
    ensures forall c :: c in s[lo..hi] ==> c in s
  {
    forall c | c in s[lo..hi]
      ensures c in s
    {
      var i :| 0 <= i < hi - lo && s[lo..hi][i] == c;
      assert s[lo + i] == c;
    }
  }

  /** Nothing is left only when everything was whitespace. */
  lemma StripBlank(s: string)
    ensures StripEnd(StripStart(s)) == [] ==> forall k :: 0 <= k < |s| ==> IsWhitespace(s[k])
  {
    var t := StripStart(s);
    assert StripEnd(t) == [] ==> t == [];
  }
}
