/**
 * Splitting and joining strings on a non-empty separator, with the meaning of
 * Rust's `str::split` for a string pattern: the separator's occurrences are
 * found from left to right without overlapping, and the text between them is
 * returned in order, including empty pieces and one piece after the last
 * occurrence.
 */
module Text {
  import opened Wrappers

  /** `sep` occurs in `s` starting at index `i`. */
  predicate OccursAt(s: string, sep: string, i: nat) {
    i + |sep| <= |s| && s[i..i + |sep|] == sep
  }

  predicate Contains(s: string, sep: string) {
    exists i: nat | i <= |s| :: OccursAt(s, sep, i)
  }

  /** The first index at or after `k` where `sep` occurs in `s`. */
  function IndexFrom(s: string, sep: string, k: nat): (r: Option<nat>)
    decreases |s| - k
    ensures r.Some? ==> k <= r.value && OccursAt(s, sep, r.value)
    ensures r.Some? ==> forall j: nat :: k <= j < r.value ==> !OccursAt(s, sep, j)
    ensures r.None? ==> forall j: nat :: k <= j ==> !OccursAt(s, sep, j)
  {
    if k + |sep| > |s| then None
    else if s[k..k + |sep|] == sep then Some(k)
    else IndexFrom(s, sep, k + 1)
  }

  function IndexOf(s: string, sep: string): Option<nat> {
    IndexFrom(s, sep, 0)
  }

  /** The pieces of `s` between the non-overlapping occurrences of `sep`. */
  function Split(s: string, sep: string): (parts: seq<string>)
    requires |sep| > 0
    decreases |s|
    ensures |parts| >= 1
    ensures forall n :: 0 <= n < |parts| ==> !Contains(parts[n], sep)
  {
    match IndexOf(s, sep)
    case None => [s]
    case Some(i) =>
      PrefixBeforeFirst(s, sep, i);
      [s[..i]] + Split(s[i + |sep|..], sep)
  }

  /** The text before the first occurrence of `sep` does not contain it. */
  lemma PrefixBeforeFirst(s: string, sep: string, i: nat)
    requires |sep| > 0 && i <= |s|
    requires forall j: nat :: j < i ==> !OccursAt(s, sep, j)
    ensures !Contains(s[..i], sep)
  {
    forall j: nat | j <= i ensures !OccursAt(s[..i], sep, j) {
      if j + |sep| <= i {
        assert !OccursAt(s, sep, j);
        assert s[..i][j..j + |sep|] == s[j..j + |sep|];
      }
    }
  }

  /** An occurrence with none before it is the one IndexOf finds. */
  lemma IndexOfIs(s: string, sep: string, i: nat)
    requires OccursAt(s, sep, i)
    requires forall j: nat :: j < i ==> !OccursAt(s, sep, j)
    ensures IndexOf(s, sep) == Some(i)
  {
  }

  /** The pieces written one after the other with `sep` between neighbours. */
  function Join(parts: seq<string>, sep: string): string {
    if |parts| == 0 then ""
    else if |parts| == 1 then parts[0]
    else parts[0] + sep + Join(parts[1..], sep)
  }

  /**
   * The number of occurrences of `sep` that a left-to-right scan finds when
   * it skips over every occurrence it has counted.
   */
  function Count(s: string, sep: string): nat
    requires |sep| > 0
    decreases |s|
  {
    if |s| < |sep| then 0
    else if s[..|sep|] == sep then 1 + Count(s[|sep|..], sep)
    else Count(s[1..], sep)
  }

  /** Joining the pieces again with the separator gives back the input. */
  lemma {:induction false} JoinSplit(s: string, sep: string)
    requires |sep| > 0
    ensures Join(Split(s, sep), sep) == s
    decreases |s|
  {
    match IndexOf(s, sep)
    case None =>
    case Some(i) =>
      var rest := s[i + |sep|..];
      var tail := Split(rest, sep);
      JoinSplit(rest, sep);
      assert Split(s, sep) == [s[..i]] + tail;
      assert ([s[..i]] + tail)[1..] == tail;
      assert Join(Split(s, sep), sep) == s[..i] + sep + Join(tail, sep);
      assert s[i..i + |sep|] == sep;
      assert s == s[..i] + sep + rest;
  }

  lemma CountSkip(s: string, sep: string, i: nat)
    requires |sep| > 0 && i <= |s|
    requires forall j: nat :: j < i ==> !OccursAt(s, sep, j)
    ensures Count(s, sep) == Count(s[i..], sep)
    decreases i
  {
    if i > 0 {
      assert !OccursAt(s, sep, 0);
      if |s| < |sep| {
        assert Count(s[i..], sep) == 0;
      } else {
        assert s[..|sep|] != sep;
        forall j: nat | j < i - 1 ensures !OccursAt(s[1..], sep, j) {
          assert !OccursAt(s, sep, j + 1);
          if j + |sep| <= |s[1..]| {
            assert s[1..][j..j + |sep|] == s[j + 1..j + 1 + |sep|];
          }
        }
        CountSkip(s[1..], sep, i - 1);
        assert s[1..][i - 1..] == s[i..];
      }
    }
  }

  /** Split gives one piece more than the scan counts occurrences. */
  lemma {:induction false} SplitCount(s: string, sep: string)
    requires |sep| > 0
    ensures |Split(s, sep)| == Count(s, sep) + 1
    decreases |s|
  {
    match IndexOf(s, sep)
    case None =>
      CountSkip(s, sep, |s|);
      assert s[|s|..] == "";
    case Some(i) =>
      CountSkip(s, sep, i);
      assert s[i..][..|sep|] == sep;
      assert s[i..][|sep|..] == s[i + |sep|..];
      SplitCount(s[i + |sep|..], sep);
  }

  /**
   * Writing `sep` after `p` puts the first occurrence of `sep` right after
   * `p`: no occurrence starts inside `p`, not even one that runs into `sep`.
   */
  predicate EndsCleanly(p: string, sep: string) {
    forall j: nat :: j < |p| ==> !OccursAt(p + sep, sep, j)
  }

  lemma FirstOccurrenceAfter(p: string, sep: string, rest: string)
    requires |sep| > 0 && EndsCleanly(p, sep)
    ensures IndexOf(p + sep + rest, sep) == Some(|p|)
  {
    var s := p + sep + rest;
    assert s[|p|..|p| + |sep|] == sep;
    assert OccursAt(s, sep, |p|);
    forall j: nat | j < |p| ensures !OccursAt(s, sep, j) {
      assert !OccursAt(p + sep, sep, j);
      assert s[j..j + |sep|] == (p + sep)[j..j + |sep|];
    }
    IndexOfIs(s, sep, |p|);
  }

  /**
   * Splitting a join gives back the pieces, when no piece contains the
   * separator and no piece but the last ends the way the separator starts.
   */
  lemma {:induction false} SplitJoin(parts: seq<string>, sep: string)
    requires |sep| > 0 && |parts| >= 1
    requires forall n :: 0 <= n < |parts| - 1 ==> EndsCleanly(parts[n], sep)
    requires !Contains(parts[|parts| - 1], sep)
    ensures Split(Join(parts, sep), sep) == parts
    decreases |parts|
  {
    if |parts| == 1 {
      assert IndexOf(parts[0], sep).None?;
    } else {
      var rest := Join(parts[1..], sep);
      FirstOccurrenceAfter(parts[0], sep, rest);
      var s := parts[0] + sep + rest;
      assert s[..|parts[0]|] == parts[0];
      assert s[|parts[0]| + |sep|..] == rest;
      SplitJoin(parts[1..], sep);
    }
  }

  /** For a one-character separator, a piece without that character is clean. */
  lemma CharFree(p: string, c: char)
    requires c !in p
    ensures EndsCleanly(p, [c]) && !Contains(p, [c])
  {
    forall j: nat | j < |p| ensures !OccursAt(p + [c], [c], j) {
      assert (p + [c])[j] == p[j];
    }
    forall j: nat | j <= |p| ensures !OccursAt(p, [c], j) {
      if j + 1 <= |p| {
        assert p[j..j + 1] == [p[j]];
      }
    }
  }

  /**
   * With a one-character separator the pieces of a concatenation around that
   * character are the pieces of each side.
   */
  lemma {:induction false} SplitAroundChar(x: string, c: char, y: string)
    ensures Split(x + [c] + y, [c]) == Split(x, [c]) + Split(y, [c])
    decreases |x|
  {
    var s := x + [c] + y;
    match IndexOf(x, [c])
    case None =>
      forall j: nat | j < |x| ensures !OccursAt(x + [c], [c], j) {
        assert !OccursAt(x, [c], j);
        assert x[j..j + 1] == (x + [c])[j..j + 1];
      }
      FirstOccurrenceAfter(x, [c], y);
      assert s[..|x|] == x;
      assert s[|x| + 1..] == y;
    case Some(i) =>
      assert s[i..i + 1] == x[i..i + 1];
      forall j: nat | j < i ensures !OccursAt(s, [c], j) {
        assert !OccursAt(x, [c], j);
        assert s[j..j + 1] == x[j..j + 1];
      }
      IndexOfIs(s, [c], i);
      assert s[..i] == x[..i];
      assert s[i + 1..] == x[i + 1..] + [c] + y;
      SplitAroundChar(x[i + 1..], c, y);
  }
}
