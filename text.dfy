/**
 * The handful of Python `str` operations the tool relies on: `find`, `in`,
 * `split`, `strip`, `lower` and the ordering `<`.  Strings are sequences of
 * code points, as in Python.
 */
module Text {
  import opened Wrappers

  /** `sep` occurs in `s` starting at index `i`. */
  predicate OccursAt(s: string, sep: string, i: nat) {
    i + |sep| <= |s| && s[i..i + |sep|] == sep
  }

  /** `s.find(sep, from)`: the first occurrence of `sep` at or after `from`. */
  function Find(s: string, sep: string, from: nat): (r: Option<nat>)
    requires from <= |s|
    ensures r.Some? ==> from <= r.value && OccursAt(s, sep, r.value)
    ensures r.Some? ==> forall j :: from <= j < r.value ==> !OccursAt(s, sep, j)
    ensures r.None? ==> forall j :: from <= j <= |s| ==> !OccursAt(s, sep, j)
    decreases |s| - from
  {
    if OccursAt(s, sep, from) then Some(from)
    else if from == |s| then None
    else Find(s, sep, from + 1)
  }

  /** Python's `needle in hay` on strings. */
  predicate Contains(hay: string, needle: string) {
    Find(hay, needle, 0).Some?
  }

  /** `Contains` is exactly "occurs somewhere". */
  lemma ContainsIff(hay: string, needle: string)
    ensures Contains(hay, needle) <==> exists i: nat :: OccursAt(hay, needle, i)
  {
    if exists i: nat :: OccursAt(hay, needle, i) {
      var i: nat :| OccursAt(hay, needle, i);
      assert i <= |hay|;
    }
  }

  /** A character of a string that does not contain the one-character string `[c]`. */
  lemma CharAbsent(s: string, c: char)
    requires !Contains(s, [c])
    ensures c !in s
  {
    ContainsIff(s, [c]);
    if c in s {
      var j :| 0 <= j < |s| && s[j] == c;
      assert OccursAt(s, [c], j);
    }
  }

  /**
   * `s.split(sep)` for a non-empty separator: the pieces between the
   * non-overlapping occurrences of `sep`, scanned left to right.  There is
   * always at least one piece.
   */
  function Split(s: string, sep: string): (r: seq<string>)
    requires |sep| > 0
    ensures |r| >= 1
    decreases |s|
  {
    match Find(s, sep, 0)
    case None => [s]
    case Some(i) => [s[..i]] + Split(s[i + |sep|..], sep)
  }

  /** No piece of `s.split(sep)` contains the separator. */
  lemma {:induction false} SplitPiecesFree(s: string, sep: string)
    requires |sep| > 0
    ensures forall k :: 0 <= k < |Split(s, sep)| ==> !Contains(Split(s, sep)[k], sep)
    decreases |s|
  {
    match Find(s, sep, 0)
    case None =>
      ContainsIff(s, sep);
    case Some(i) =>
      SplitStep(s, sep, i);
      PrefixBeforeFirstIsFree(s, sep, i);
      SplitPiecesFree(s[i + |sep|..], sep);
  }

  /** The text before the first occurrence of `sep` does not contain `sep`. */
  lemma PrefixBeforeFirstIsFree(s: string, sep: string, i: nat)
    requires |sep| > 0 && i <= |s|
    requires forall j :: 0 <= j < i ==> !OccursAt(s, sep, j)
    ensures !Contains(s[..i], sep)
  {
    ContainsIff(s[..i], sep);
    if exists j: nat :: OccursAt(s[..i], sep, j) {
      var j: nat :| OccursAt(s[..i], sep, j);
      assert s[..i][j..j + |sep|] == s[j..j + |sep|];
      assert j < i && OccursAt(s, sep, j);
    }
  }

  /** `sep.join(parts)`. */
  function Join(parts: seq<string>, sep: string): string {
    if |parts| == 0 then ""
    else if |parts| == 1 then parts[0]
    else parts[0] + sep + Join(parts[1..], sep)
  }

  /** Splitting and joining back with the same separator gives the input. */
  lemma {:induction false} JoinSplit(s: string, sep: string)
    requires |sep| > 0
    ensures Join(Split(s, sep), sep) == s
    decreases |s|
  {
    match Find(s, sep, 0)
    case None =>
    case Some(i) =>
      var rest := s[i + |sep|..];
      var parts := Split(rest, sep);
      JoinSplit(rest, sep);
      assert Split(s, sep) == [s[..i]] + parts;
      assert ([s[..i]] + parts)[1..] == parts;
      assert Join([s[..i]] + parts, sep) == s[..i] + sep + rest;
      assert s == s[..i] + s[i..i + |sep|] + rest;
  }

  /**
   * `s.split(sep)[-1]`: the text after the last occurrence of `sep` found
   * by the left-to-right scan, or all of `s` when there is none.
   */
  function LastPiece(s: string, sep: string): string
    requires |sep| > 0
    decreases |s|
  {
    match Find(s, sep, 0)
    case None => s
    case Some(i) => LastPiece(s[i + |sep|..], sep)
  }

  /** The last piece holds no separator. */
  lemma {:induction false} LastPieceFree(s: string, sep: string)
    requires |sep| > 0
    ensures !Contains(LastPiece(s, sep), sep)
    decreases |s|
  {
    match Find(s, sep, 0)
    case None =>
    case Some(i) => LastPieceFree(s[i + |sep|..], sep);
  }

  /** `LastPiece` is the last element of `Split`. */
  lemma {:induction false} LastPieceIsLastOfSplit(s: string, sep: string)
    requires |sep| > 0
    ensures LastPiece(s, sep) == Split(s, sep)[|Split(s, sep)| - 1]
    decreases |s|
  {
    match Find(s, sep, 0)
    case None =>
    case Some(i) =>
      var rest := s[i + |sep|..];
      SplitStep(s, sep, i);
      LastPieceIsLastOfSplit(rest, sep);
      var parts := Split(rest, sep);
      assert LastPiece(s, sep) == LastPiece(rest, sep);
      assert ([s[..i]] + parts)[|parts|] == parts[|parts| - 1];
  }

  /** One step of `Split`: the piece before the first separator, then the split of the rest. */
  lemma {:induction false} SplitStep(s: string, sep: string, i: nat)
    requires |sep| > 0 && Find(s, sep, 0) == Some(i)
    ensures i + |sep| <= |s|
    ensures Split(s, sep) == [s[..i]] + Split(s[i + |sep|..], sep)
  {
  }

  /** An occurrence in a suffix of `s` is an occurrence in `s`. */
  lemma {:induction false} OccursInSuffix(s: string, sep: string, off: nat, at: nat)
    requires off <= |s| && OccursAt(s[off..], sep, at)
    ensures OccursAt(s, sep, off + at)
  {
    assert s[off + at..off + at + |sep|] == s[off..][at..at + |sep|];
  }

  /** `p` is a suffix of `s` that is all of `s` or follows an occurrence of `sep`. */
  predicate SuffixAfterSeparator(s: string, sep: string, p: string) {
    && |p| <= |s| && s[|s| - |p|..] == p
    && (|p| == |s| || (|p| + |sep| <= |s| && OccursAt(s, sep, |s| - |p| - |sep|)))
  }

  /** The last piece of `s.split(sep)` starts right after the last separator, or is all of `s`. */
  lemma {:induction false} LastPieceShape(s: string, sep: string)
    requires |sep| > 0
    ensures SuffixAfterSeparator(s, sep, LastPiece(s, sep))
    decreases |s|
  {
    var found := Find(s, sep, 0);
    if found.None? {
      SplitWhole(s, sep);
    } else {
      var i := found.value;
      LastPieceShape(s[i + |sep|..], sep);
      LastPieceSome(s, sep, i);
    }
  }

  lemma {:induction false} LastPieceSome(s: string, sep: string, i: nat)
    requires |sep| > 0 && Find(s, sep, 0) == Some(i)
    requires SuffixAfterSeparator(s[i + |sep|..], sep, LastPiece(s[i + |sep|..], sep))
    ensures SuffixAfterSeparator(s, sep, LastPiece(s, sep))
  {
    var p := LastPieceUnfold(s, sep, i);
    LastPieceStep(s, sep, i, p);
  }

  /** After a first separator at `i`, the last piece is that of the rest. */
  lemma LastPieceUnfold(s: string, sep: string, i: nat) returns (p: string)
    requires |sep| > 0 && Find(s, sep, 0) == Some(i)
    ensures OccursAt(s, sep, i)
    ensures p == LastPiece(s, sep) == LastPiece(s[i + |sep|..], sep)
  {
    p := LastPiece(s, sep);
  }

  /** Without a separator, `s.split(sep)` is `[s]`. */
  lemma {:induction false} SplitWhole(s: string, sep: string)
    requires |sep| > 0 && Find(s, sep, 0).None?
    ensures Split(s, sep) == [s]
  {
  }

  /** A suffix after a separator in the rest of `s` is one in `s`. */
  lemma {:induction false} LastPieceStep(s: string, sep: string, i: nat, p: string)
    requires OccursAt(s, sep, i)
    requires SuffixAfterSeparator(s[i + |sep|..], sep, p)
    ensures SuffixAfterSeparator(s, sep, p)
  {
    var off := i + |sep|;
    var rest := s[off..];
    assert s[|s| - |p|..] == rest[|rest| - |p|..];
    if |p| < |rest| {
      OccursInSuffix(s, sep, off, |rest| - |p| - |sep|);
    } else {
      assert |s| - |p| - |sep| == i;
    }
  }

  /** Python's `str.isspace()` for one character. */
  predicate IsSpace(c: char) {
    c == ' ' || ('\t' <= c <= '\r') || ('\U{1C}' <= c <= '\U{1F}')
    || c == '\U{85}' || c == '\U{A0}' || c == '\U{1680}'
    || ('\U{2000}' <= c <= '\U{200A}') || c == '\U{2028}' || c == '\U{2029}'
    || c == '\U{202F}' || c == '\U{205F}' || c == '\U{3000}'
  }

  /** The first index at or after `i` that does not hold white space. */
  function SkipSpaces(s: string, i: nat): (r: nat)
    requires i <= |s|
    ensures i <= r <= |s|
    ensures forall k :: i <= k < r ==> IsSpace(s[k])
    ensures r < |s| ==> !IsSpace(s[r])
    decreases |s| - i
  {
    if i < |s| && IsSpace(s[i]) then SkipSpaces(s, i + 1) else i
  }

  /** Moves `j` left over white space, not past `lo`. */
  function TrimEnd(s: string, lo: nat, j: nat): (r: nat)
    requires lo <= j <= |s|
    ensures lo <= r <= j
    ensures forall k :: r <= k < j ==> IsSpace(s[k])
    ensures r > lo ==> !IsSpace(s[r - 1])
  {
    if j > lo && IsSpace(s[j - 1]) then TrimEnd(s, lo, j - 1) else j
  }

  /** Python's `s.strip()`. */
  function Strip(s: string): string {
    var i := SkipSpaces(s, 0);
    s[i..TrimEnd(s, i, |s|)]
  }

  /**
   * `s.strip()` is the slice of `s` left after removing white space from
   * both ends: every character cut off is white space, and the result
   * neither starts nor ends with white space.
   */
  lemma StripShape(s: string)
    ensures exists i, j :: (0 <= i <= j <= |s| && Strip(s) == s[i..j]
      && (forall k :: 0 <= k < i ==> IsSpace(s[k]))
      && (forall k :: j <= k < |s| ==> IsSpace(s[k])))
    ensures Strip(s) != [] ==> !IsSpace(Strip(s)[0]) && !IsSpace(Strip(s)[|Strip(s)| - 1])
  {
    var i := SkipSpaces(s, 0);
    var j := TrimEnd(s, i, |s|);
    assert Strip(s) == s[i..j];
    if i < j {
      assert s[i..j][0] == s[i];
      assert s[i..j][j - i - 1] == s[j - 1];
    }
  }

  /** Characters of the result were characters of the input. */
  lemma StripSubset(s: string, c: char)
    requires c in Strip(s)
    ensures c in s
  {
    var i := SkipSpaces(s, 0);
    var j := TrimEnd(s, i, |s|);
    var k :| 0 <= k < |s[i..j]| && s[i..j][k] == c;
    assert s[i + k] == c;
  }

  /** Python's `c.lower()` for ASCII letters; other characters unchanged. */
  function LowerChar(c: char): char {
    if 'A' <= c <= 'Z' then (c as int + 32) as char else c
  }

  /** Python's `s.lower()`, ASCII letters only. */
  function Lower(s: string): string {
    seq(|s|, i requires 0 <= i < |s| => LowerChar(s[i]))
  }

  /** Python's `a < b` on strings: code-point lexicographic order. */
  predicate StrLess(a: string, b: string) {
    if |a| == 0 then |b| > 0
    else if |b| == 0 then false
    else if a[0] != b[0] then a[0] < b[0]
    else StrLess(a[1..], b[1..])
  }

  lemma {:induction false} StrLessIrreflexive(a: string)
    ensures !StrLess(a, a)
  {
    if |a| > 0 {
      StrLessIrreflexive(a[1..]);
    }
  }

  lemma {:induction false} StrLessTransitive(a: string, b: string, c: string)
    requires StrLess(a, b) && StrLess(b, c)
    ensures StrLess(a, c)
  {
    if |a| > 0 && a[0] == b[0] && b[0] == c[0] {
      StrLessTransitive(a[1..], b[1..], c[1..]);
    }
  }

  lemma {:induction false} StrLessTotal(a: string, b: string)
    requires a != b
    ensures StrLess(a, b) || StrLess(b, a)
  {
    if |a| > 0 && |b| > 0 && a[0] == b[0] {
      assert a == [a[0]] + a[1..] && b == [b[0]] + b[1..];
      StrLessTotal(a[1..], b[1..]);
    }
  }

  lemma {:induction false} StrLessAsymmetric(a: string, b: string)
    requires StrLess(a, b)
    ensures !StrLess(b, a)
  {
    if |a| > 0 && |b| > 0 && a[0] == b[0] {
      StrLessAsymmetric(a[1..], b[1..]);
    }
  }
}
