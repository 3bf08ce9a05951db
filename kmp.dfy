/**
 * Knuth-Morris-Pratt search of one primer in one test sequence
 * (computeLPSArray and KMP_search of p2c_openAIgenerated.py).
 *
 * The search reports every occurrence, including overlapping ones: after a
 * full match it falls back to the longest border of the primer instead of
 * starting over.
 */
module Kmp {
  import opened Common
  import opened Text

  /** One reported occurrence: the tuple (start, length) appended by KMP_search. */
  datatype Match = Match(start: nat, length: nat)

  /**
   * b is a border of the prefix p[..len]: a proper prefix of p[..len]
   * (b < len) that is also a suffix of p[..len].
   */
  predicate IsBorder(p: string, len: int, b: int) {
    0 <= b < len <= |p| && Agree(p, 0, p, len - b, b)
  }

  /** IsBorder, as the slice equation p[..b] == p[len - b..len]. */
  lemma BorderSlices(p: string, len: int, b: int)
    requires 0 <= b < len <= |p|
    ensures IsBorder(p, len, b) <==> p[..b] == p[len - b..len]
  {
    AgreeSlices(p, 0, p, len - b, b);
  }

  /** b is the longest border of p[..len]: the value the failure table holds at len - 1. */
  predicate IsLongestBorder(p: string, len: int, b: int) {
    IsBorder(p, len, b) && forall c :: b < c < len ==> !IsBorder(p, len, c)
  }

  /** No border of p[..len] is longer than `bound`. */
  ghost predicate BordersAtMost(p: string, len: int, bound: int) {
    forall b :: IsBorder(p, len, b) ==> b <= bound
  }

  /** The longest border of a prefix is unique, so the failure table is determined by the pattern. */
  lemma LongestBorderUnique(p: string, len: int, b1: int, b2: int)
    requires IsLongestBorder(p, len, b1) && IsLongestBorder(p, len, b2)
    ensures b1 == b2
  {
  }

  /** Every border of p[..len] shorter than another border b is a border of p[..b]. */
  lemma BorderOfBorder(p: string, len: int, b: int, c: int)
    requires IsBorder(p, len, b) && IsBorder(p, len, c) && c < b
    ensures IsBorder(p, b, c)
  {
    forall x | 0 <= x < c
      ensures p[x] == p[x - 0 + (b - c)]
    {
      AgreeAt(p, 0, p, len - c, c, x);
      AgreeAt(p, 0, p, len - b, b, x + (b - c));
    }
    AgreeChars(p, 0, p, b - c, c);
  }

  /** A border of a border of p[..len] is a border of p[..len]. */
  lemma BorderTrans(p: string, len: int, b: int, c: int)
    requires IsBorder(p, len, b) && IsBorder(p, b, c)
    ensures IsBorder(p, len, c)
  {
    forall x | 0 <= x < c
      ensures p[x] == p[x - 0 + (len - c)]
    {
      AgreeAt(p, 0, p, b - c, c, x);
      AgreeAt(p, 0, p, len - b, b, x + (b - c));
    }
    AgreeChars(p, 0, p, len - c, c);
  }

  /** Every border of p[..len + 1] is at most one longer than the longest border of p[..len]. */
  lemma BorderBound(p: string, len: int, longest: int)
    requires IsLongestBorder(p, len, longest) && len < |p|
    ensures BordersAtMost(p, len + 1, longest + 1)
  {
    var len1 := len + 1;
    forall b | IsBorder(p, len1, b)
      ensures b <= longest + 1
    {
      if b > 0 {
        assert IsBorder(p, len, b - 1);
      }
    }
  }

  /**
   * The mismatch step of computeLPSArray: when p[i] differs from p[len],
   * falling back to next (the longest border of p[..len]) loses no border of p[..i + 1].
   */
  lemma MismatchBound(p: string, i: int, len: int, next: int)
    requires IsBorder(p, i, len) && i < |p| && p[i] != p[len]
    requires BordersAtMost(p, i + 1, len + 1)
    requires IsLongestBorder(p, len, next)
    ensures IsBorder(p, i, next)
    ensures BordersAtMost(p, i + 1, next + 1)
  {
    BorderTrans(p, i, len, next);
    var i1 := i + 1;
    forall b | IsBorder(p, i1, b)
      ensures b <= next + 1
    {
      if b > 0 {
        assert IsBorder(p, i, b - 1) && p[b - 1] == p[i];
        if b - 1 < len {
          BorderOfBorder(p, i, len, b - 1);
        }
      }
    }
  }

  /** When p[i] differs from p[0] and no border of p[..i + 1] exceeds 1, that prefix has only the empty border. */
  lemma LongestBorderZero(p: string, i: int)
    requires 1 <= i < |p| && p[0] != p[i] && BordersAtMost(p, i + 1, 1)
    ensures IsLongestBorder(p, i + 1, 0)
  {
  }

  /**
   * computeLPSArray: fills lps so that lps[q] is the length of the longest
   * proper prefix of pattern[..q + 1] that is also its suffix. The source
   * writes lps[0] unconditionally, so the pattern must not be empty.
   */
  method ComputeLpsArray(pattern: string, lps: array<int>)
    requires |pattern| >= 1 && lps.Length == |pattern|
    modifies lps
    ensures lps[0] == 0
    ensures forall q :: 0 <= q < lps.Length ==> 0 <= lps[q] <= q
    ensures forall q :: 0 <= q < lps.Length ==> IsLongestBorder(pattern, q + 1, lps[q])
  {
    var m := |pattern|;
    var len := 0;
    lps[0] := 0;
    var i := 1;
    while i < m
      invariant 1 <= i <= m
      invariant forall q :: 0 <= q < i ==> IsLongestBorder(pattern, q + 1, lps[q])
      invariant IsBorder(pattern, i, len)
      invariant i < m ==> BordersAtMost(pattern, i + 1, len + 1)
      decreases m - i, len
    {
      if pattern[i] == pattern[len] {
        assert IsBorder(pattern, i + 1, len + 1);
        len := len + 1;
        lps[i] := len;
        i := i + 1;
        if i < m {
          BorderBound(pattern, i, len);
        }
      } else {
        if len != 0 {
          MismatchBound(pattern, i, len, lps[len - 1]);
          len := lps[len - 1];
        } else {
          LongestBorderZero(pattern, i);
          lps[i] := 0;
          i := i + 1;
          if i < m {
            BorderBound(pattern, i, 0);
          }
        }
      }
    }
  }

  /** The occurrences of p in t that start below `bound`, as (start, length) pairs in increasing order. */
  function AllMatchesBelow(p: string, t: string, bound: nat): seq<Match>
  {
    if bound == 0 then []
    else AllMatchesBelow(p, t, bound - 1) + (if OccursAt(p, t, bound - 1) then [Match(bound - 1, |p|)] else [])
  }

  /** Every occurrence of p in t, overlapping ones included, in increasing order of start. */
  function AllMatches(p: string, t: string): seq<Match>
  {
    AllMatchesBelow(p, t, |t|)
  }

  /** The facts about AllMatchesBelow every other lemma rests on. */
  lemma {:induction false} AllMatchesBelowFacts(p: string, t: string, bound: nat)
    ensures forall q :: 0 <= q < |AllMatchesBelow(p, t, bound)| ==>
      var mt := AllMatchesBelow(p, t, bound)[q];
      mt.start < bound && mt.length == |p| && OccursAt(p, t, mt.start)
    ensures forall k: nat :: k < bound && OccursAt(p, t, k) ==> Match(k, |p|) in AllMatchesBelow(p, t, bound)
    ensures forall q1, q2 :: 0 <= q1 < q2 < |AllMatchesBelow(p, t, bound)| ==>
      AllMatchesBelow(p, t, bound)[q1].start < AllMatchesBelow(p, t, bound)[q2].start
  {
    if bound > 0 {
      AllMatchesBelowFacts(p, t, bound - 1);
    }
  }

  /** Skipping positions where p does not occur adds nothing to the reported matches. */
  lemma {:induction false} AllMatchesBelowSkip(p: string, t: string, a: nat, b: nat)
    requires a <= b
    requires forall k :: a <= k < b ==> !OccursAt(p, t, k)
    ensures AllMatchesBelow(p, t, b) == AllMatchesBelow(p, t, a)
    decreases b - a
  {
    if a < b {
      AllMatchesBelowSkip(p, t, a, b - 1);
    }
  }

  /** The text t holds the pattern prefix p[..j] at offset s. */
  predicate PartialMatch(p: string, t: string, s: int, j: int) {
    0 <= s && 0 <= j <= |p| && s + j <= |t| && Agree(t, s, p, 0, j)
  }

  /**
   * A partial match of p[..j] at s and an occurrence at k strictly inside it
   * make the overlap s + j - k a border of p[..j].
   */
  lemma BorderFromOverlap(p: string, t: string, s: nat, j: nat, k: nat)
    requires 0 < j && PartialMatch(p, t, s, j)
    requires s < k < s + j && OccursAt(p, t, k)
    ensures IsBorder(p, j, s + j - k)
  {
    var b := s + j - k;
    forall x | 0 <= x < b
      ensures p[x] == p[x - 0 + (j - b)]
    {
      AgreeAt(t, k, p, 0, |p|, k + x);
      AgreeAt(t, s, p, 0, j, k + x);
    }
    AgreeChars(p, 0, p, j - b, b);
  }

  /** A partial match of p[..j] at s shrinks to a partial match of any border b of p[..j] at s + j - b. */
  lemma PartialMatchShift(p: string, t: string, s: nat, j: nat, b: nat)
    requires PartialMatch(p, t, s, j) && IsBorder(p, j, b)
    ensures PartialMatch(p, t, s + j - b, b)
  {
    forall x | s + j - b <= x < s + j - b + b
      ensures t[x] == p[x - (s + j - b) + 0]
    {
      AgreeAt(t, s, p, 0, j, x);
      AgreeAt(p, 0, p, j - b, b, x - (s + j - b));
    }
    AgreeChars(t, s + j - b, p, 0, b);
  }

  /** KMP_search after a full match at s: the fallback to the longest border skips no occurrence. */
  lemma AfterFullMatch(p: string, t: string, s: nat, b: nat, matches: seq<Match>)
    requires 1 <= |p| && PartialMatch(p, t, s, |p|)
    requires IsLongestBorder(p, |p|, b)
    requires matches == AllMatchesBelow(p, t, s)
    ensures matches + [Match(s, |p|)] == AllMatchesBelow(p, t, s + |p| - b)
    ensures PartialMatch(p, t, s + |p| - b, b)
  {
    assert OccursAt(p, t, s);
    assert AllMatchesBelow(p, t, s + 1) == AllMatchesBelow(p, t, s) + [Match(s, |p|)];
    forall k | s + 1 <= k < s + |p| - b
      ensures !OccursAt(p, t, k)
    {
      if OccursAt(p, t, k) {
        BorderFromOverlap(p, t, s, |p|, k);
      }
    }
    AllMatchesBelowSkip(p, t, s + 1, s + |p| - b);
    PartialMatchShift(p, t, s, |p|, b);
  }

  /** KMP_search after a mismatch behind a partial match p[..j] at s: the fallback skips no occurrence. */
  lemma AfterMismatch(p: string, t: string, s: nat, j: nat, b: nat, matches: seq<Match>)
    requires 0 < j < |p| && PartialMatch(p, t, s, j) && s + j < |t|
    requires t[s + j] != p[j]
    requires IsLongestBorder(p, j, b)
    requires matches == AllMatchesBelow(p, t, s)
    ensures matches == AllMatchesBelow(p, t, s + j - b)
    ensures PartialMatch(p, t, s + j - b, b)
  {
    forall k | s <= k < s + j - b
      ensures !OccursAt(p, t, k)
    {
      if k == s {
        if OccursAt(p, t, k) {
          AgreeAt(t, s, p, 0, |p|, s + j);
        }
      } else if OccursAt(p, t, k) {
        BorderFromOverlap(p, t, s, j, k);
      }
    }
    AllMatchesBelowSkip(p, t, s, s + j - b);
    PartialMatchShift(p, t, s, j, b);
  }

  /** KMP_search after a mismatch on the first primer character: position s holds no occurrence. */
  lemma AfterMismatchAtStart(p: string, t: string, s: nat, matches: seq<Match>)
    requires 1 <= |p| && s < |t| && t[s] != p[0]
    requires matches == AllMatchesBelow(p, t, s)
    ensures matches == AllMatchesBelow(p, t, s + 1)
    ensures PartialMatch(p, t, s + 1, 0)
  {
    if OccursAt(p, t, s) {
      AgreeAt(t, s, p, 0, |p|, s);
    }
  }

  /**
   * KMP_search: all occurrences of the primer in the test sequence, as
   * (start, length) pairs in increasing order of start, overlapping
   * occurrences included. An empty primer raises IndexError, because
   * computeLPSArray writes lps[0] into an empty list.
   */
  method KmpSearch(primerSeq: string, testSequence: string) returns (r: Result<seq<Match>>)
    ensures r.IndexError? <==> |primerSeq| == 0
    ensures r.Ok? ==> r.value == AllMatches(primerSeq, testSequence)
  {
    var n, m := |testSequence|, |primerSeq|;
    if m == 0 {
      return IndexError;
    }
    var lps := new int[m](_ => 0);
    var j := 0;
    ComputeLpsArray(primerSeq, lps);
    var i := 0;
    var matches: seq<Match> := [];
    ghost var s := 0;  // where the current partial match starts
    while i < n
      invariant 0 <= j < m && j <= i <= n && s == i - j
      invariant forall q :: 0 <= q < m ==> IsLongestBorder(primerSeq, q + 1, lps[q])
      invariant PartialMatch(primerSeq, testSequence, s, j)
      invariant matches == AllMatchesBelow(primerSeq, testSequence, s)
      decreases n - i, j
    {
      if primerSeq[j] == testSequence[i] {
        i := i + 1;
        j := j + 1;
      }
      if j == m {
        var b := lps[j - 1];
        AfterFullMatch(primerSeq, testSequence, s, b, matches);
        matches := matches + [Match(i - j, j)];
        j := b;
        s := s + m - b;
      } else if i < n && primerSeq[j] != testSequence[i] {
        if j != 0 {
          var b := lps[j - 1];
          AfterMismatch(primerSeq, testSequence, s, j, b, matches);
          j := b;
          s := i - b;
        } else {
          AfterMismatchAtStart(primerSeq, testSequence, i, matches);
          i := i + 1;
          s := i;
        }
      }
    }
    AllMatchesBelowSkip(primerSeq, testSequence, n - j, n);
    return Ok(matches);
  }

  /** Soundness: every reported pair has the primer's length and the text holds the primer there. */
  lemma AllMatchesSound(p: string, t: string)
    ensures forall mt :: mt in AllMatches(p, t) ==>
      mt.length == |p| && mt.start + mt.length <= |t| && t[mt.start..mt.start + mt.length] == p
  {
    AllMatchesBelowFacts(p, t, |t|);
    forall mt | mt in AllMatches(p, t)
      ensures mt.length == |p| && mt.start + mt.length <= |t| && t[mt.start..mt.start + mt.length] == p
    {
      var q :| 0 <= q < |AllMatches(p, t)| && AllMatches(p, t)[q] == mt;
      OccursAtSlice(p, t, mt.start);
    }
  }

  /**
   * Completeness, both directions: a start k is reported exactly when the
   * text holds the primer at k (k < |t| only matters for the empty primer,
   * which KmpSearch rejects).
   */
  lemma AllMatchesComplete(p: string, t: string, k: nat)
    ensures Match(k, |p|) in AllMatches(p, t) <==> k < |t| && k + |p| <= |t| && t[k..k + |p|] == p
  {
    AllMatchesBelowFacts(p, t, |t|);
    OccursAtSlice(p, t, k);
    if Match(k, |p|) in AllMatches(p, t) {
      var q :| 0 <= q < |AllMatches(p, t)| && AllMatches(p, t)[q] == Match(k, |p|);
    }
  }

  /** Reported starts are strictly increasing and lie in [0, |t| - |p|]. */
  lemma AllMatchesOrdered(p: string, t: string)
    ensures forall q1, q2 :: 0 <= q1 < q2 < |AllMatches(p, t)| ==>
      AllMatches(p, t)[q1].start < AllMatches(p, t)[q2].start
    ensures forall q :: 0 <= q < |AllMatches(p, t)| ==> AllMatches(p, t)[q].start <= |t| - |p|
  {
    AllMatchesBelowFacts(p, t, |t|);
  }

  /** A primer longer than the text has no occurrence. */
  lemma LongerPrimerNoMatches(p: string, t: string)
    requires |p| > |t|
    ensures AllMatches(p, t) == []
  {
    AllMatchesBelowSkip(p, t, 0, |t|);
  }

  /** The fallback after a full match makes KmpSearch report overlapping occurrences. */
  lemma OverlappingExample()
    ensures AllMatches("AA", "AAA") == [Match(0, 2), Match(1, 2)]
  {
    var p, t := "AA", "AAA";
    assert Agree(t, 0, p, 0, 1) && Agree(t, 1, p, 0, 1);
    assert OccursAt(p, t, 0) && OccursAt(p, t, 1) && !OccursAt(p, t, 2);
    assert AllMatchesBelow(p, t, 1) == [Match(0, 2)];
    assert AllMatchesBelow(p, t, 2) == [Match(0, 2), Match(1, 2)];
  }
}
