/**
 * find_match and write_lines of p2c_async.py. find_match compiles the
 * primer as a regular expression; for a primer without metacharacters,
 * re.finditer is a leftmost, non-overlapping literal scan, which is what
 * this module models. Result lines are one per hit, ';'-separated, in the
 * column order of RES_COLUMNS.
 */
module RegexSearch {
  import opened Text
  import opened Kmp
  import opened Records

  /** RES_COLUMNS: the header row of a result file. */
  const ResColumns: seq<string> := ["contig name", "primer", "start", "end", "length", "requested", "located"]

  /** A character with a special meaning in a Python regular expression. */
  predicate IsMeta(c: char) {
    c in ".^$*+?{}[]\\|()"
  }

  /** A primer that, compiled as a regular expression, matches only its own text. */
  predicate IsRegexLiteral(p: string) {
    forall i :: 0 <= i < |p| ==> !IsMeta(p[i])
  }

  /** One regex match: (m.group(), start, end) of m.span(). */
  datatype RegexHit = RegexHit(located: string, start: nat, end: nat)

  /** The matches of a non-empty literal pattern from position pos on: leftmost first, then resuming after it. */
  function LiteralScan(p: string, t: string, pos: nat): seq<RegexHit>
    requires |p| > 0
    decreases |t| - pos
  {
    if pos + |p| > |t| then []
    else if OccursAt(p, t, pos) then [RegexHit(p, pos, pos + |p|)] + LiteralScan(p, t, pos + |p|)
    else LiteralScan(p, t, pos + 1)
  }

  /**
   * re.finditer of a literal pattern over a text: the leftmost non-overlapping
   * occurrences; the empty pattern matches the empty string at every position.
   */
  function Finditer(p: string, t: string): seq<RegexHit>
  {
    if |p| == 0 then seq(|t| + 1, i requires 0 <= i <= |t| => RegexHit("", i, i))
    else LiteralScan(p, t, 0)
  }

  /** The matches the `if m.group()` filter keeps: those of non-empty text. */
  function NonEmptyHits(ms: seq<RegexHit>): seq<RegexHit>
  {
    if |ms| == 0 then []
    else NonEmptyHits(ms[..|ms| - 1]) + (if ms[|ms| - 1].located != "" then [ms[|ms| - 1]] else [])
  }

  /** The hits find_match collects for a primer in a text. */
  function FindHits(p: string, t: string): seq<RegexHit>
  {
    NonEmptyHits(Finditer(p, t))
  }

  /** The loop of find_match: keeps each match whose text is non-empty, in order. */
  method CollectHits(matches: seq<RegexHit>) returns (hits: seq<RegexHit>)
    ensures hits == NonEmptyHits(matches)
  {
    hits := [];
    for k := 0 to |matches|
      invariant hits == NonEmptyHits(matches[..k])
    {
      assert matches[..k + 1][..k] == matches[..k];
      var m := matches[k];
      if m.located != "" {
        hits := hits + [RegexHit(m.located, m.start, m.end)];
      }
    }
    assert matches[..|matches|] == matches;
  }

  /** The filter drops nothing from matches that all have text. */
  lemma {:induction false} NonEmptyHitsKeep(ms: seq<RegexHit>)
    requires forall q :: 0 <= q < |ms| ==> ms[q].located != ""
    ensures NonEmptyHits(ms) == ms
  {
    if |ms| > 0 {
      NonEmptyHitsKeep(ms[..|ms| - 1]);
    }
  }

  /** The filter drops every match of the empty string. */
  lemma {:induction false} NonEmptyHitsDrop(ms: seq<RegexHit>)
    requires forall q :: 0 <= q < |ms| ==> ms[q].located == ""
    ensures NonEmptyHits(ms) == []
  {
    if |ms| > 0 {
      NonEmptyHitsDrop(ms[..|ms| - 1]);
    }
  }

  /** Some hit spans position k. */
  ghost predicate Covered(hits: seq<RegexHit>, k: int) {
    exists q :: 0 <= q < |hits| && hits[q].start <= k < hits[q].end
  }

  /** A hit the scan may report from pos on: an occurrence of p at or after pos, spanning |p| characters. */
  ghost predicate ScanHit(p: string, t: string, pos: nat, h: RegexHit) {
    h.located == p && pos <= h.start && h.end == h.start + |p| && OccursAt(p, t, h.start)
  }

  /** The scan at an occurrence: that hit, then the scan resumed after it. */
  lemma ScanAtOccurrence(p: string, t: string, pos: nat)
    requires |p| > 0 && pos + |p| <= |t| && OccursAt(p, t, pos)
    ensures var hs, rest := LiteralScan(p, t, pos), LiteralScan(p, t, pos + |p|);
      |hs| == |rest| + 1 && hs[0] == RegexHit(p, pos, pos + |p|)
      && forall q :: 0 <= q < |rest| ==> hs[q + 1] == rest[q]
  {
  }

  /** The scan from pos is sound: each hit is an occurrence of p at or after pos. */
  lemma {:induction false} LiteralScanSound(p: string, t: string, pos: nat)
    requires |p| > 0
    ensures forall h :: h in LiteralScan(p, t, pos) ==> ScanHit(p, t, pos, h)
    decreases |t| - pos
  {
    if pos + |p| > |t| {
    } else if OccursAt(p, t, pos) {
      var hs, rest := LiteralScan(p, t, pos), LiteralScan(p, t, pos + |p|);
      LiteralScanSound(p, t, pos + |p|);
      assert hs == [RegexHit(p, pos, pos + |p|)] + rest;
      forall h | h in hs
        ensures ScanHit(p, t, pos, h)
      {
        if h in rest {
          assert ScanHit(p, t, pos + |p|, h);
        }
      }
    } else {
      var hs, rest := LiteralScan(p, t, pos), LiteralScan(p, t, pos + 1);
      LiteralScanSound(p, t, pos + 1);
      assert hs == rest;
      forall h | h in hs
        ensures ScanHit(p, t, pos, h)
      {
        assert ScanHit(p, t, pos + 1, h);
      }
    }
  }

  /** Each hit starts at or after the end of the one before. */
  predicate NonOverlapping(hs: seq<RegexHit>) {
    forall q :: 0 <= q < |hs| - 1 ==> hs[q].end <= hs[q + 1].start
  }

  /** A hit that ends before the first of a non-overlapping list can go in front of it. */
  lemma NonOverlappingCons(h: RegexHit, rest: seq<RegexHit>)
    requires NonOverlapping(rest) && (|rest| > 0 ==> h.end <= rest[0].start)
    ensures NonOverlapping([h] + rest)
  {
    var hs := [h] + rest;
    forall q | 0 <= q < |hs| - 1
      ensures hs[q].end <= hs[q + 1].start
    {
      if q > 0 {
        assert hs[q] == rest[q - 1] && hs[q + 1] == rest[q];
      }
    }
  }

  /** The scan's hits do not overlap. */
  lemma {:induction false} LiteralScanOrdered(p: string, t: string, pos: nat)
    requires |p| > 0
    ensures NonOverlapping(LiteralScan(p, t, pos))
    decreases |t| - pos
  {
    if pos + |p| > |t| {
    } else if OccursAt(p, t, pos) {
      var rest := LiteralScan(p, t, pos + |p|);
      LiteralScanOrdered(p, t, pos + |p|);
      if |rest| > 0 {
        LiteralScanSound(p, t, pos + |p|);
        assert rest[0] in rest && ScanHit(p, t, pos + |p|, rest[0]);
      }
      NonOverlappingCons(RegexHit(p, pos, pos + |p|), rest);
    } else {
      LiteralScanOrdered(p, t, pos + 1);
    }
  }

  /** The scan skips no occurrence: every occurrence at or after pos overlaps a hit. */
  lemma {:induction false} LiteralScanCover(p: string, t: string, pos: nat)
    requires |p| > 0
    ensures forall k :: pos <= k && OccursAt(p, t, k) ==> Covered(LiteralScan(p, t, pos), k)
    decreases |t| - pos
  {
    if pos + |p| > |t| {
    } else if OccursAt(p, t, pos) {
      var hs, rest := LiteralScan(p, t, pos), LiteralScan(p, t, pos + |p|);
      LiteralScanCover(p, t, pos + |p|);
      ScanAtOccurrence(p, t, pos);
      forall k | pos <= k && OccursAt(p, t, k)
        ensures Covered(hs, k)
      {
        if k >= pos + |p| {
          var q :| 0 <= q < |rest| && rest[q].start <= k < rest[q].end;
          assert hs[q + 1] == rest[q];
        } else {
          assert hs[0].start <= k < hs[0].end;
        }
      }
    } else {
      LiteralScanCover(p, t, pos + 1);
    }
  }

  /** For a non-empty primer, the filter keeps every match of the scan. */
  lemma FindHitsScan(p: string, t: string)
    requires |p| > 0
    ensures FindHits(p, t) == LiteralScan(p, t, 0)
  {
    var hs := LiteralScan(p, t, 0);
    LiteralScanSound(p, t, 0);
    forall q | 0 <= q < |hs|
      ensures hs[q].located != ""
    {
      assert hs[q] in hs && ScanHit(p, t, 0, hs[q]);
    }
    NonEmptyHitsKeep(hs);
  }

  /**
   * find_match's hits for a literal primer: each hit's text is the primer and
   * the text holds it at [start, end), so end - start is the primer's length.
   */
  lemma FindHitsSound(p: string, t: string)
    requires IsRegexLiteral(p)
    ensures forall h :: h in FindHits(p, t) ==>
      h.located == p && h.end == h.start + |p| && h.end <= |t| && t[h.start..h.end] == p
  {
    if |p| > 0 {
      FindHitsScan(p, t);
      LiteralScanSound(p, t, 0);
      var hs := LiteralScan(p, t, 0);
      forall h | h in hs
        ensures h.located == p && h.end == h.start + |p| && h.end <= |t| && t[h.start..h.end] == p
      {
        assert ScanHit(p, t, 0, h);
        OccursAtSlice(p, t, h.start);
      }
    } else {
      NonEmptyHitsDrop(Finditer(p, t));
    }
  }

  /** The hits come in order of position and do not overlap: each starts at or after the previous end. */
  lemma FindHitsOrdered(p: string, t: string)
    requires IsRegexLiteral(p)
    ensures NonOverlapping(FindHits(p, t))
    ensures forall h :: h in FindHits(p, t) ==> h.start < h.end
    ensures forall q :: 0 <= q < |FindHits(p, t)| - 1 ==> FindHits(p, t)[q].start < FindHits(p, t)[q + 1].start
  {
    if |p| > 0 {
      var hs := LiteralScan(p, t, 0);
      FindHitsScan(p, t);
      LiteralScanSound(p, t, 0);
      LiteralScanOrdered(p, t, 0);
      forall q | 0 <= q < |hs| - 1
        ensures hs[q].start < hs[q + 1].start
      {
        assert hs[q] in hs && ScanHit(p, t, 0, hs[q]);
      }
      forall h | h in hs
        ensures h.start < h.end
      {
        assert ScanHit(p, t, 0, h);
      }
    } else {
      NonEmptyHitsDrop(Finditer(p, t));
    }
  }

  /** An empty primer yields no hits: its empty matches are all filtered out. */
  lemma FindHitsEmptyPrimer(t: string)
    ensures FindHits("", t) == []
  {
    NonEmptyHitsDrop(Finditer("", t));
  }

  /** The scan is greedy: every occurrence of the primer overlaps one of the hits. */
  lemma FindHitsCover(p: string, t: string, k: nat)
    requires IsRegexLiteral(p) && |p| > 0
    requires k + |p| <= |t| && t[k..k + |p|] == p
    ensures exists q :: 0 <= q < |FindHits(p, t)| && FindHits(p, t)[q].start <= k < FindHits(p, t)[q].end
  {
    FindHitsScan(p, t);
    LiteralScanCover(p, t, 0);
    OccursAtSlice(p, t, k);
  }

  /** Every hit of the non-overlapping scan is also a match of KMP_search. */
  lemma FindHitsInKmp(p: string, t: string)
    requires IsRegexLiteral(p)
    ensures forall h :: h in FindHits(p, t) ==> Match(h.start, |p|) in AllMatches(p, t)
  {
    if |p| == 0 {
      FindHitsEmptyPrimer(t);
    } else {
      FindHitsSound(p, t);
      forall h | h in FindHits(p, t)
        ensures Match(h.start, |p|) in AllMatches(p, t)
      {
        AllMatchesComplete(p, t, h.start);
      }
    }
  }

  /** The two searches differ on overlapping occurrences: "AA" in "AAA" is one regex hit but two KMP matches. */
  lemma OverlapExample()
    ensures FindHits("AA", "AAA") == [RegexHit("AA", 0, 2)]
    ensures |AllMatches("AA", "AAA")| == 2
  {
    var p, t := "AA", "AAA";
    assert Agree(t, 0, p, 0, 1);
    assert OccursAt(p, t, 0);
    assert LiteralScan(p, t, 2) == [];
    assert LiteralScan(p, t, 0) == [RegexHit(p, 0, 2)];
    FindHitsScan(p, t);
    OverlappingExample();
  }

  // ---------------------------------------------------------------------
  // write_lines

  /** The fields of the result line for one hit, in the order of RES_COLUMNS, each as str() gives it. */
  function HitFields(c: Contig, primer: Contig, hit: RegexHit): seq<string>
  {
    var length := hit.end - hit.start;
    [c.name, primer.name, IntToString(hit.start), IntToString(hit.end), IntToString(length), primer.sequence, hit.located]
  }

  /** The result line for one hit: the fields joined by ';' (without the line terminator). */
  function HitRow(c: Contig, primer: Contig, hit: RegexHit): string
  {
    Join(HitFields(c, primer, hit), ';')
  }

  /** The result lines for a list of hits, one per hit, in hit order. */
  function HitRows(c: Contig, primer: Contig, hits: seq<RegexHit>): (r: seq<string>)
    ensures |r| == |hits|
  {
    if |hits| == 0 then [] else HitRows(c, primer, hits[..|hits| - 1]) + [HitRow(c, primer, hits[|hits| - 1])]
  }

  /** The q-th result line is the line of the q-th hit. */
  lemma {:induction false} HitRowsAt(c: Contig, primer: Contig, hits: seq<RegexHit>, q: nat)
    requires q < |hits|
    ensures HitRows(c, primer, hits)[q] == HitRow(c, primer, hits[q])
  {
    if q < |hits| - 1 {
      HitRowsAt(c, primer, hits[..|hits| - 1], q);
    }
  }

  /** No field holds the separator, so a result line splits back into its fields. */
  predicate SeparatorFree(c: Contig, primer: Contig, hit: RegexHit) {
    ';' !in c.name && ';' !in primer.name && ';' !in primer.sequence && ';' !in hit.located
  }

  /** A result line splits back into its fields. */
  lemma HitRowSplit(c: Contig, primer: Contig, hit: RegexHit)
    requires SeparatorFree(c, primer, hit)
    ensures Split(HitRow(c, primer, hit), ';') == HitFields(c, primer, hit)
  {
    var fs := HitFields(c, primer, hit);
    assert forall q :: 0 <= q < |fs| ==> ';' !in fs[q];
    SplitJoin(fs, ';');
  }

  /** The numeric fields of a hit read back as its start, its end and its length end - start. */
  lemma HitFieldsNumbers(c: Contig, primer: Contig, hit: RegexHit)
    requires hit.start <= hit.end
    ensures var fs := HitFields(c, primer, hit);
      |fs| == |ResColumns| && fs[0] == c.name && fs[1] == primer.name
      && IsDigits(fs[2]) && DigitsValue(fs[2]) == hit.start
      && IsDigits(fs[3]) && DigitsValue(fs[3]) == hit.end
      && IsDigits(fs[4]) && DigitsValue(fs[4]) == hit.end - hit.start
      && fs[5] == primer.sequence && fs[6] == hit.located
  {
    IntToStringRoundTrip(hit.start);
    IntToStringRoundTrip(hit.end);
    IntToStringRoundTrip(hit.end - hit.start);
  }

  /**
   * A result line has one field per column of RES_COLUMNS, in that order:
   * splitting it at ';' gives back the names, the start, the end, the
   * length end - start, the requested primer and the located text.
   */
  lemma HitRowColumns(c: Contig, primer: Contig, hit: RegexHit)
    requires SeparatorFree(c, primer, hit) && hit.start <= hit.end
    ensures var fields := Split(HitRow(c, primer, hit), ';');
      |fields| == |ResColumns|
      && fields[0] == c.name && fields[1] == primer.name
      && IsDigits(fields[2]) && DigitsValue(fields[2]) == hit.start
      && IsDigits(fields[3]) && DigitsValue(fields[3]) == hit.end
      && IsDigits(fields[4]) && DigitsValue(fields[4]) == hit.end - hit.start
      && fields[5] == primer.sequence && fields[6] == hit.located
  {
    HitRowSplit(c, primer, hit);
    HitFieldsNumbers(c, primer, hit);
  }

  /** The header row splits back into the column names. */
  lemma HeaderColumns()
    ensures Split(Join(ResColumns, ';'), ';') == ResColumns
  {
    SplitJoin(ResColumns, ';');
  }

  /** A result file, as the list of lines written to it. */
  class ResultFile {
    var lines: seq<string>

    /** main: a new result file holds the header row. */
    constructor ()
      ensures lines == [Join(ResColumns, ';')]
    {
      lines := [Join(ResColumns, ';')];
    }

    /** write_lines: appends one line per hit, in hit order. */
    method WriteLines(c: Contig, primer: Contig, hitList: seq<RegexHit>)
      modifies this
      ensures lines == old(lines) + HitRows(c, primer, hitList)
    {
      for k := 0 to |hitList|
        invariant lines == old(lines) + HitRows(c, primer, hitList[..k])
      {
        assert hitList[..k + 1][..k] == hitList[..k];
        var hit := hitList[k];
        var start: int := hit.start;
        var end: int := hit.end;
        var length := end - start;
        var line := [c.name, primer.name, IntToString(start), IntToString(end), IntToString(length), primer.sequence, hit.located];
        lines := lines + [Join(line, ';')];
      }
      assert hitList[..|hitList|] == hitList;
    }

    /**
     * find_match: collects the hits of the primer in the contig's sequence and,
     * when there is at least one, writes their lines.
     */
    method FindMatch(contigEntry: Contig, primer: Contig)
      requires IsRegexLiteral(primer.sequence)
      modifies this
      ensures lines == old(lines) + HitRows(contigEntry, primer, FindHits(primer.sequence, contigEntry.sequence))
    {
      var text := contigEntry.sequence;
      var matches := Finditer(primer.sequence, text);
      var hits := CollectHits(matches);
      if |hits| > 0 {
        WriteLines(contigEntry, primer, hits);
      }
    }
  }
}
