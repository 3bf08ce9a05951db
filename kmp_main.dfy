/**
 * The driver of p2c_openAIgenerated.py: search_sequences, which turns KMP
 * matches into hit tuples, and the two reading loops of main, lifted into
 * operations over the lines of the primer file and of the FASTA file.
 * A line is given as the file yields it, terminator included.
 */
module KmpMain {
  import opened Common
  import opened Text
  import opened Kmp

  /**
   * The 6-field tuple search_sequences appends:
   * (primer_name, name, sequence[start:start+length], primer_seq, start + 1, length).
   */
  datatype KmpHit = KmpHit(
    probe: string,
    sequenceName: string,
    matched: string,
    primerSeq: string,
    position: nat,
    matchLength: nat)

  /** A test sequence of the FASTA file: (name, sequence). */
  type NamedSequence = (string, string)

  /** The hit tuples of one test sequence, one per match, in match order. */
  function HitsFor(primerName: string, primerSeq: string, name: string, sequence: string, ms: seq<Match>): (r: seq<KmpHit>)
    requires forall q :: 0 <= q < |ms| ==> ms[q].start + ms[q].length <= |sequence|
    ensures |r| == |ms|
  {
    if |ms| == 0 then []
    else
      var mt := ms[|ms| - 1];
      HitsFor(primerName, primerSeq, name, sequence, ms[..|ms| - 1])
        + [KmpHit(primerName, name, sequence[mt.start..mt.start + mt.length], primerSeq, mt.start + 1, mt.length)]
  }

  /** The hit built from the q-th match carries its text, its 1-based position and its length. */
  lemma {:induction false} HitsForAt(primerName: string, primerSeq: string, name: string, sequence: string, ms: seq<Match>, q: nat)
    requires forall q :: 0 <= q < |ms| ==> ms[q].start + ms[q].length <= |sequence|
    requires q < |ms|
    ensures HitsFor(primerName, primerSeq, name, sequence, ms)[q]
      == KmpHit(primerName, name, sequence[ms[q].start..ms[q].start + ms[q].length], primerSeq, ms[q].start + 1, ms[q].length)
  {
    if q < |ms| - 1 {
      HitsForAt(primerName, primerSeq, name, sequence, ms[..|ms| - 1], q);
    }
  }

  /** The hits of one test sequence: one per KMP match, in match order. */
  function SequenceHits(primerName: string, primerSeq: string, ns: NamedSequence): seq<KmpHit>
  {
    AllMatchesSound(primerSeq, ns.1);
    HitsFor(primerName, primerSeq, ns.0, ns.1, AllMatches(primerSeq, ns.1))
  }

  /** What search_sequences returns when no call of KMP_search fails: hits grouped by sequence, in input order. */
  function SearchHits(primerName: string, primerSeq: string, sequences: seq<NamedSequence>): seq<KmpHit>
  {
    if |sequences| == 0 then []
    else SearchHits(primerName, primerSeq, sequences[..|sequences| - 1]) + SequenceHits(primerName, primerSeq, sequences[|sequences| - 1])
  }

  /**
   * search_sequences: runs KMP_search on every test sequence in turn. With an
   * empty primer the first call raises IndexError; with no sequences nothing
   * is searched and nothing fails.
   */
  method SearchSequences(primerName: string, primerSeq: string, sequences: seq<NamedSequence>)
    returns (r: Result<seq<KmpHit>>)
    ensures r.IndexError? <==> |primerSeq| == 0 && |sequences| > 0
    ensures r.Ok? ==> r.value == SearchHits(primerName, primerSeq, sequences)
  {
    var matches: seq<KmpHit> := [];
    for k := 0 to |sequences|
      invariant matches == SearchHits(primerName, primerSeq, sequences[..k])
      invariant k > 0 ==> |primerSeq| > 0
    {
      var (name, sequence) := sequences[k];
      var found := KmpSearch(primerSeq, sequence);
      if found.IndexError? {
        return IndexError;
      }
      var ms := found.value;
      AllMatchesSound(primerSeq, sequence);
      ghost var before := matches;
      for q := 0 to |ms|
        invariant matches == before + HitsFor(primerName, primerSeq, name, sequence, ms[..q])
      {
        var mt := ms[q];
        assert ms[..q + 1][..q] == ms[..q];
        matches := matches + [KmpHit(primerName, name, sequence[mt.start..mt.start + mt.length], primerSeq, mt.start + 1, mt.length)];
      }
      assert ms[..|ms|] == ms;
      assert sequences[..k + 1][..k] == sequences[..k];
    }
    assert sequences[..|sequences|] == sequences;
    return Ok(matches);
  }

  /** search_sequences' hits are those of each sequence in turn, concatenated. */
  lemma {:induction false} SearchHitsConcat(primerName: string, primerSeq: string, sequences: seq<NamedSequence>)
    ensures SearchHits(primerName, primerSeq, sequences)
      == ConcatMap(sequences, (ns: NamedSequence) => SequenceHits(primerName, primerSeq, ns))
  {
    if |sequences| > 0 {
      SearchHitsConcat(primerName, primerSeq, sequences[..|sequences| - 1]);
    }
  }

  /** Hits of a concatenation of sequence lists: the hits of the first list, then those of the second. */
  lemma SearchHitsAppend(primerName: string, primerSeq: string, s1: seq<NamedSequence>, s2: seq<NamedSequence>)
    ensures SearchHits(primerName, primerSeq, s1 + s2)
      == SearchHits(primerName, primerSeq, s1) + SearchHits(primerName, primerSeq, s2)
  {
    SearchHitsConcat(primerName, primerSeq, s1 + s2);
    SearchHitsConcat(primerName, primerSeq, s1);
    SearchHitsConcat(primerName, primerSeq, s2);
    ConcatMapAppend(s1, s2, (ns: NamedSequence) => SequenceHits(primerName, primerSeq, ns));
  }

  /**
   * h is a sound hit of the primer in the named sequence: it names both, its
   * matched text is the primer, its length field is the primer's length, and
   * the sequence holds the primer at the 1-based position h.position.
   */
  predicate SoundHit(h: KmpHit, primerName: string, primerSeq: string, name: string, sequence: string) {
    h.probe == primerName && h.sequenceName == name && h.primerSeq == primerSeq
    && h.matched == primerSeq && h.matchLength == |primerSeq|
    && 1 <= h.position && h.position - 1 + |primerSeq| <= |sequence|
    && sequence[h.position - 1..h.position - 1 + |primerSeq|] == primerSeq
  }

  /** The hits built from sound matches of one sequence are sound. */
  lemma HitsForSound(primerName: string, primerSeq: string, name: string, sequence: string, ms: seq<Match>)
    requires forall q :: 0 <= q < |ms| ==>
      ms[q].length == |primerSeq| && ms[q].start + ms[q].length <= |sequence|
      && sequence[ms[q].start..ms[q].start + ms[q].length] == primerSeq
    ensures forall h :: h in HitsFor(primerName, primerSeq, name, sequence, ms) ==>
      SoundHit(h, primerName, primerSeq, name, sequence)
  {
    var hs := HitsFor(primerName, primerSeq, name, sequence, ms);
    forall h | h in hs
      ensures SoundHit(h, primerName, primerSeq, name, sequence)
    {
      var q :| 0 <= q < |hs| && hs[q] == h;
      HitsForAt(primerName, primerSeq, name, sequence, ms, q);
    }
  }

  /** Soundness: every hit search_sequences returns is a sound hit in one of the test sequences. */
  lemma {:induction false} SearchHitsSound(primerName: string, primerSeq: string, sequences: seq<NamedSequence>)
    ensures forall h :: h in SearchHits(primerName, primerSeq, sequences) ==>
      exists x :: 0 <= x < |sequences| && SoundHit(h, primerName, primerSeq, sequences[x].0, sequences[x].1)
  {
    if |sequences| > 0 {
      var init := sequences[..|sequences| - 1];
      var last := |sequences| - 1;
      var (name, sequence) := sequences[last];
      SearchHitsSound(primerName, primerSeq, init);
      AllMatchesSound(primerSeq, sequence);
      var ms := AllMatches(primerSeq, sequence);
      assert forall q :: 0 <= q < |ms| ==> ms[q] in ms;
      HitsForSound(primerName, primerSeq, name, sequence, ms);
      forall h | h in SearchHits(primerName, primerSeq, sequences)
        ensures exists x :: 0 <= x < |sequences| && SoundHit(h, primerName, primerSeq, sequences[x].0, sequences[x].1)
      {
        if h in SearchHits(primerName, primerSeq, init) {
          var x :| 0 <= x < |init| && SoundHit(h, primerName, primerSeq, init[x].0, init[x].1);
          assert sequences[x] == init[x];
        } else {
          assert SoundHit(h, primerName, primerSeq, sequences[last].0, sequences[last].1);
        }
      }
    }
  }

  /** Every occurrence of the primer in one test sequence gives a hit with its 1-based position. */
  lemma SequenceHitsComplete(primerName: string, primerSeq: string, ns: NamedSequence, k: nat)
    requires k < |ns.1| && k + |primerSeq| <= |ns.1| && ns.1[k..k + |primerSeq|] == primerSeq
    ensures KmpHit(primerName, ns.0, primerSeq, primerSeq, k + 1, |primerSeq|) in SequenceHits(primerName, primerSeq, ns)
  {
    var (name, sequence) := ns;
    AllMatchesComplete(primerSeq, sequence, k);
    var ms := AllMatches(primerSeq, sequence);
    var q :| 0 <= q < |ms| && ms[q] == Match(k, |primerSeq|);
    AllMatchesSound(primerSeq, sequence);
    assert forall i :: 0 <= i < |ms| ==> ms[i] in ms;
    HitsForAt(primerName, primerSeq, name, sequence, ms, q);
    var hs := HitsFor(primerName, primerSeq, name, sequence, ms);
    assert hs[q] in hs;
  }

  /** Completeness: every occurrence of the primer in every test sequence is reported, with its 1-based position. */
  lemma {:induction false} SearchHitsComplete(primerName: string, primerSeq: string, sequences: seq<NamedSequence>, x: nat, k: nat)
    requires x < |sequences| && k < |sequences[x].1|
    requires k + |primerSeq| <= |sequences[x].1| && sequences[x].1[k..k + |primerSeq|] == primerSeq
    ensures KmpHit(primerName, sequences[x].0, primerSeq, primerSeq, k + 1, |primerSeq|)
      in SearchHits(primerName, primerSeq, sequences)
  {
    var init, last := sequences[..|sequences| - 1], sequences[|sequences| - 1];
    var h := KmpHit(primerName, sequences[x].0, primerSeq, primerSeq, k + 1, |primerSeq|);
    assert SearchHits(primerName, primerSeq, sequences)
      == SearchHits(primerName, primerSeq, init) + SequenceHits(primerName, primerSeq, last);
    if x < |sequences| - 1 {
      assert init[x] == sequences[x];
      SearchHitsComplete(primerName, primerSeq, init, x, k);
      assert h in SearchHits(primerName, primerSeq, init);
    } else {
      SequenceHitsComplete(primerName, primerSeq, last, k);
      assert h in SequenceHits(primerName, primerSeq, last);
    }
  }

  // ---------------------------------------------------------------------
  // The primer loop of main: a dict from probe name to sequence.

  /** A Python dict from probe name to primer sequence, as its items in insertion order. */
  type PrimerTable = seq<(string, string)>

  /** The dict's keys in insertion order. */
  function Keys(t: PrimerTable): seq<string>
  {
    if |t| == 0 then [] else [t[0].0] + Keys(t[1..])
  }

  /** No key appears twice. */
  predicate DistinctKeys(t: PrimerTable) {
    forall q1, q2 :: 0 <= q1 < q2 < |Keys(t)| ==> Keys(t)[q1] != Keys(t)[q2]
  }

  /** The dict's value for key, if any. */
  function Lookup(t: PrimerTable, key: string): Option<string>
  {
    if |t| == 0 then None
    else if t[0].0 == key then Some(t[0].1)
    else Lookup(t[1..], key)
  }

  /** A key has a value exactly when it is one of the keys. */
  lemma {:induction false} LookupKeys(t: PrimerTable, key: string)
    ensures Lookup(t, key).Some? <==> key in Keys(t)
  {
    if |t| > 0 {
      LookupKeys(t[1..], key);
    }
  }

  /** d[key] = value on the dict's items. */
  function Assign(t: PrimerTable, key: string, value: string): PrimerTable
  {
    if |t| == 0 then [(key, value)]
    else if t[0].0 == key then [(key, value)] + t[1..]
    else [t[0]] + Assign(t[1..], key, value)
  }

  /**
   * d[key] = value: the value of key becomes value, every other key keeps its
   * value, and a new key goes at the end while an existing one keeps its place.
   */
  lemma {:induction false} AssignFacts(t: PrimerTable, key: string, value: string)
    ensures Lookup(Assign(t, key, value), key) == Some(value)
    ensures forall k :: k != key ==> Lookup(Assign(t, key, value), k) == Lookup(t, k)
    ensures Keys(Assign(t, key, value)) == if key in Keys(t) then Keys(t) else Keys(t) + [key]
  {
    if |t| > 0 {
      var r := Assign(t, key, value);
      if t[0].0 == key {
        assert r[1..] == t[1..];
      } else {
        AssignFacts(t[1..], key, value);
        assert r[1..] == Assign(t[1..], key, value);
        if key in Keys(t[1..]) {
        } else {
          assert Keys(r) == [t[0].0] + (Keys(t[1..]) + [key]);
        }
      }
    }
  }

  /** Assignment keeps the keys distinct. */
  lemma AssignDistinct(t: PrimerTable, key: string, value: string)
    requires DistinctKeys(t)
    ensures DistinctKeys(Assign(t, key, value))
  {
    AssignFacts(t, key, value);
    var ks := Keys(Assign(t, key, value));
    if key !in Keys(t) {
      forall q1, q2 | 0 <= q1 < q2 < |ks|
        ensures ks[q1] != ks[q2]
      {
        if q2 == |ks| - 1 {
          assert ks[q1] in Keys(t);
        } else {
          assert ks[q1] == Keys(t)[q1] && ks[q2] == Keys(t)[q2];
        }
      }
    }
  }

  /** The two fields of a primer line, when it has at least one ';'. */
  function PrimerFields(line: string): seq<string>
  {
    Split(Strip(line), ';')
  }

  /** One pass of the primer loop: skip a line holding "probe", else store parts[1] under parts[0]. */
  function PrimerLineStep(t: PrimerTable, line: string): Result<PrimerTable>
  {
    if Contains(line, "probe") then Ok(t)
    else
      var parts := PrimerFields(line);
      if |parts| < 2 then IndexError else Ok(Assign(t, parts[0], parts[1]))
  }

  /** The dict the primer loop builds from the lines of a primer file, or the IndexError it raises. */
  function ParsePrimers(lines: seq<string>): Result<PrimerTable>
  {
    if |lines| == 0 then Ok([])
    else
      match ParsePrimers(lines[..|lines| - 1])
      case IndexError => IndexError
      case Ok(t) => PrimerLineStep(t, lines[|lines| - 1])
  }

  /** The primer loop of main, running over the lines of the primer file. */
  method ParsePrimerLines(lines: seq<string>) returns (r: Result<PrimerTable>)
    ensures r == ParsePrimers(lines)
  {
    var primers: PrimerTable := [];
    for k := 0 to |lines|
      invariant ParsePrimers(lines[..k]) == Ok(primers)
    {
      assert lines[..k + 1][..k] == lines[..k];
      var line := lines[k];
      if Contains(line, "probe") {
        continue;
      }
      var parts := Split(Strip(line), ';');
      if |parts| < 2 {
        assert ParsePrimers(lines[..k + 1]) == IndexError;
        ParsePrimersErrorSticks(lines, k + 1);
        return IndexError;
      }
      primers := Assign(primers, parts[0], parts[1]);
    }
    assert lines[..|lines|] == lines;
    return Ok(primers);
  }

  /** Once the primer loop has raised, the rest of the file does not matter. */
  lemma {:induction false} ParsePrimersErrorSticks(lines: seq<string>, k: nat)
    requires k <= |lines| && ParsePrimers(lines[..k]) == IndexError
    ensures ParsePrimers(lines) == IndexError
    decreases |lines| - k
  {
    if k < |lines| {
      assert lines[..k + 1][..k] == lines[..k];
      ParsePrimersErrorSticks(lines, k + 1);
    } else {
      assert lines[..k] == lines;
    }
  }

  /** A line the primer loop fails on: it holds no "probe" and its stripped text has no ';'. */
  predicate FailingPrimerLine(line: string) {
    !Contains(line, "probe") && ';' !in Strip(line)
  }

  /** One pass fails exactly on a failing line. */
  lemma PrimerLineStepError(t: PrimerTable, line: string)
    ensures PrimerLineStep(t, line).IndexError? <==> FailingPrimerLine(line)
  {
  }

  /** Some line of the file is a failing line. */
  predicate HasFailingLine(lines: seq<string>) {
    Any(lines, FailingPrimerLine)
  }

  /** The primer loop raises IndexError exactly when some line of the file is a failing line. */
  lemma {:induction false} ParsePrimersError(lines: seq<string>)
    ensures ParsePrimers(lines).IndexError? <==> HasFailingLine(lines)
  {
    if |lines| > 0 {
      var init := lines[..|lines| - 1];
      ParsePrimersError(init);
      AnySnoc(lines, FailingPrimerLine);
      if ParsePrimers(init).Ok? {
        PrimerLineStepError(ParsePrimers(init).value, lines[|lines| - 1]);
      }
    }
  }

  /**
   * Reference for the dict's content: the value of a key is parts[1] of the
   * last non-"probe" line whose parts[0] is that key.
   */
  function LastValue(lines: seq<string>, key: string): Option<string>
  {
    if |lines| == 0 then None
    else
      var line := lines[|lines| - 1];
      var parts := PrimerFields(line);
      if !Contains(line, "probe") && |parts| >= 2 && parts[0] == key then Some(parts[1])
      else LastValue(lines[..|lines| - 1], key)
  }

  /**
   * Later lines overwrite earlier ones: when the primer loop succeeds, every
   * key holds the value of its last line and keys are distinct.
   */
  lemma {:induction false} ParsePrimersLookup(lines: seq<string>, key: string)
    requires ParsePrimers(lines).Ok?
    ensures Lookup(ParsePrimers(lines).value, key) == LastValue(lines, key)
    ensures DistinctKeys(ParsePrimers(lines).value)
  {
    if |lines| > 0 {
      var init := lines[..|lines| - 1];
      var line := lines[|lines| - 1];
      ParsePrimersLookup(init, key);
      var t := ParsePrimers(init).value;
      var parts := PrimerFields(line);
      if !Contains(line, "probe") && |parts| >= 2 {
        AssignFacts(t, parts[0], parts[1]);
        AssignDistinct(t, parts[0], parts[1]);
      }
    }
  }

  /** A line holding "probe" anywhere (the header line, say) changes nothing. */
  lemma ParsePrimersSkipsProbe(lines: seq<string>, line: string)
    requires Contains(line, "probe")
    ensures ParsePrimers(lines + [line]) == ParsePrimers(lines)
  {
    assert (lines + [line])[..|lines|] == lines;
  }

  // ---------------------------------------------------------------------
  // The FASTA loop of main.

  /** The loop's variables: test_sequences, current_name and current_sequence. */
  datatype FastaState = FastaState(done: seq<NamedSequence>, name: string, sequence: string)

  /** One pass of the FASTA loop. */
  function FastaStep(st: FastaState, line: string): FastaState
  {
    if StartsWith(line, '>') then FastaState(st.done + [(st.name, st.sequence)], Strip(line[1..]), "")
    else FastaState(st.done, st.name, st.sequence + Strip(line))
  }

  /** The loop's variables after the given lines. */
  function FastaFold(lines: seq<string>): FastaState
  {
    if |lines| == 0 then FastaState([], "", "")
    else FastaStep(FastaFold(lines[..|lines| - 1]), lines[|lines| - 1])
  }

  /** test_sequences after the loop and the final append. */
  function FastaRecords(lines: seq<string>): seq<NamedSequence>
  {
    var st := FastaFold(lines);
    st.done + [(st.name, st.sequence)]
  }

  /** The FASTA loop of main, running over the lines of the test sequence file. */
  method ParseFastaLines(lines: seq<string>) returns (testSequences: seq<NamedSequence>)
    ensures testSequences == FastaRecords(lines)
  {
    testSequences := [];
    var currentSequence := "";
    var currentName := "";
    for k := 0 to |lines|
      invariant FastaFold(lines[..k]) == FastaState(testSequences, currentName, currentSequence)
    {
      assert lines[..k + 1][..k] == lines[..k];
      var line := lines[k];
      if StartsWith(line, '>') {
        testSequences := testSequences + [(currentName, currentSequence)];
        currentName := Strip(line[1..]);
        currentSequence := "";
      } else {
        currentSequence := currentSequence + Strip(line);
      }
    }
    assert lines[..|lines|] == lines;
    testSequences := testSequences + [(currentName, currentSequence)];
  }

  /** A FASTA header line. */
  predicate IsHeader(line: string) {
    StartsWith(line, '>')
  }

  /** The number of header lines. */
  function HeaderCount(lines: seq<string>): nat
  {
    if |lines| == 0 then 0
    else HeaderCount(lines[..|lines| - 1]) + (if IsHeader(lines[|lines| - 1]) then 1 else 0)
  }

  /** The names the header lines announce, in file order. */
  function HeaderNames(lines: seq<string>): seq<string>
  {
    if |lines| == 0 then []
    else
      var line := lines[|lines| - 1];
      HeaderNames(lines[..|lines| - 1]) + (if IsHeader(line) then [Strip(line[1..])] else [])
  }

  /** The stripped non-header lines, concatenated in file order. */
  function SequenceText(lines: seq<string>): string
  {
    if |lines| == 0 then ""
    else
      var line := lines[|lines| - 1];
      SequenceText(lines[..|lines| - 1]) + (if IsHeader(line) then "" else Strip(line))
  }

  /** The names of a list of records. */
  function Names(records: seq<NamedSequence>): seq<string>
  {
    if |records| == 0 then [] else Names(records[..|records| - 1]) + [records[|records| - 1].0]
  }

  /** The sequences of a list of records, concatenated. */
  function Sequences(records: seq<NamedSequence>): string
  {
    if |records| == 0 then "" else Sequences(records[..|records| - 1]) + records[|records| - 1].1
  }

  /** The loop finishes one record per header line. */
  lemma {:induction false} FastaFoldCount(lines: seq<string>)
    ensures |FastaFold(lines).done| == HeaderCount(lines)
  {
    if |lines| > 0 {
      FastaFoldCount(lines[..|lines| - 1]);
    }
  }

  /** Names of one more record. */
  lemma NamesSnoc(records: seq<NamedSequence>, last: NamedSequence)
    ensures Names(records + [last]) == Names(records) + [last.0]
  {
    assert (records + [last])[..|records|] == records;
  }

  /** The finished names and the current name are "" followed by the header names. */
  lemma {:induction false} FastaFoldNames(lines: seq<string>)
    ensures Names(FastaFold(lines).done) + [FastaFold(lines).name] == [""] + HeaderNames(lines)
  {
    if |lines| > 0 {
      var init := lines[..|lines| - 1];
      var line := lines[|lines| - 1];
      FastaFoldNames(init);
      var acc := FastaFold(init);
      assert FastaFold(lines) == FastaStep(acc, line);
      if IsHeader(line) {
        var header := Strip(line[1..]);
        assert HeaderNames(lines) == HeaderNames(init) + [header];
        NamesSnoc(acc.done, (acc.name, acc.sequence));
        var names := Names(acc.done) + [acc.name];
        assert names == [""] + HeaderNames(init);
        assert names + [header] == [""] + (HeaderNames(init) + [header]);
      } else {
        assert HeaderNames(lines) == HeaderNames(init);
      }
    }
  }

  /** The finished sequences and the current one concatenate to the sequence text read so far. */
  lemma {:induction false} FastaFoldText(lines: seq<string>)
    ensures Sequences(FastaFold(lines).done) + FastaFold(lines).sequence == SequenceText(lines)
  {
    if |lines| > 0 {
      var init := lines[..|lines| - 1];
      FastaFoldText(init);
      var st := FastaFold(init);
      if IsHeader(lines[|lines| - 1]) {
        assert Sequences(st.done + [(st.name, st.sequence)]) == Sequences(st.done) + st.sequence;
      }
    }
  }

  /** One record per header line, plus the one appended after the loop. */
  lemma FastaRecordCount(lines: seq<string>)
    ensures |FastaRecords(lines)| == HeaderCount(lines) + 1
  {
    FastaFoldCount(lines);
  }

  /** The record names are "" followed by the header names, in file order. */
  lemma FastaRecordNames(lines: seq<string>)
    ensures Names(FastaRecords(lines)) == [""] + HeaderNames(lines)
  {
    FastaFoldNames(lines);
    var st := FastaFold(lines);
    NamesSnoc(st.done, (st.name, st.sequence));
  }

  /** No sequence text is lost or reordered: the records' sequences concatenate to the stripped non-header lines. */
  lemma FastaRecordContent(lines: seq<string>)
    ensures Sequences(FastaRecords(lines)) == SequenceText(lines)
  {
    FastaFoldText(lines);
    var st := FastaFold(lines);
    assert Sequences(st.done + [(st.name, st.sequence)]) == Sequences(st.done) + st.sequence;
  }

  /** A file that starts with a header yields a leading ("", "") record. */
  lemma {:induction false} FastaLeadingEmpty(lines: seq<string>)
    requires |lines| >= 1 && IsHeader(lines[0])
    ensures FastaRecords(lines)[0] == ("", "")
  {
    FastaDonePrefix(lines[..1], lines);
    assert lines[..1][..0] == [];
  }

  /** The finished records of a prefix of the file stay the first finished records. */
  lemma {:induction false} FastaDonePrefix(a: seq<string>, lines: seq<string>)
    requires a <= lines
    ensures FastaFold(a).done <= FastaFold(lines).done
    decreases |lines|
  {
    if |a| < |lines| {
      var init := lines[..|lines| - 1];
      assert a <= init;
      FastaDonePrefix(a, init);
    } else {
      assert a == lines;
    }
  }

  /** Lines none of which is a header. */
  predicate HeaderFree(lines: seq<string>) {
    forall i :: 0 <= i < |lines| ==> !IsHeader(lines[i])
  }

  /** Header-free lines only extend the current sequence: the finished records and the current name stay. */
  lemma {:induction false} FastaFoldHeaderFree(a: seq<string>, b: seq<string>)
    requires HeaderFree(b)
    ensures var st := FastaFold(a);
      FastaFold(a + b) == FastaState(st.done, st.name, st.sequence + SequenceText(b))
    decreases |b|
  {
    var st := FastaFold(a);
    if |b| == 0 {
      assert a + b == a;
      assert st.sequence + SequenceText(b) == st.sequence;
    } else {
      HeaderFreeInit(b);
      FastaFoldHeaderFree(a, b[..|b| - 1]);
      FastaFoldExtend(a, b);
    }
  }

  /** The induction step: one more line that is not a header extends the open sequence by its stripped text. */
  lemma FastaFoldExtend(a: seq<string>, b: seq<string>)
    requires |b| > 0 && !IsHeader(b[|b| - 1])
    requires var st := FastaFold(a);
      FastaFold(a + b[..|b| - 1]) == FastaState(st.done, st.name, st.sequence + SequenceText(b[..|b| - 1]))
    ensures var st := FastaFold(a);
      FastaFold(a + b) == FastaState(st.done, st.name, st.sequence + SequenceText(b))
  {
    var st, b', x := FastaFold(a), b[..|b| - 1], b[|b| - 1];
    var t', sx := SequenceText(b'), Strip(x);
    calc {
      FastaFold(a + b);
    == { FastaFoldSnoc(a, b); }
      FastaStep(FastaFold(a + b'), x);
    == { FastaStepText(FastaFold(a + b'), x); }
      FastaState(st.done, st.name, (st.sequence + t') + sx);
    == { AppendAssoc(st.sequence, t', sx); }
      FastaState(st.done, st.name, st.sequence + (t' + sx));
    == { assert SequenceText(b) == t' + sx; }
      FastaState(st.done, st.name, st.sequence + SequenceText(b));
    }
  }

  /** Dropping the last line keeps lines header-free, and that line is no header. */
  lemma HeaderFreeInit(b: seq<string>)
    requires |b| > 0 && HeaderFree(b)
    ensures HeaderFree(b[..|b| - 1]) && !IsHeader(b[|b| - 1])
  {
    var b' := b[..|b| - 1];
    forall i | 0 <= i < |b'| ensures !IsHeader(b'[i]) {
      assert b'[i] == b[i];
    }
  }

  /** The loop over a + b is one more step after the loop over a and all but the last line of b. */
  lemma FastaFoldSnoc(a: seq<string>, b: seq<string>)
    requires |b| > 0
    ensures FastaFold(a + b) == FastaStep(FastaFold(a + b[..|b| - 1]), b[|b| - 1])
  {
    assert (a + b)[..|a + b| - 1] == a + b[..|b| - 1];
    assert (a + b)[|a + b| - 1] == b[|b| - 1];
  }

  /** A line that is not a header appends its stripped text to the current sequence. */
  lemma FastaStepText(st: FastaState, x: string)
    requires !IsHeader(x)
    ensures FastaStep(st, x) == FastaState(st.done, st.name, st.sequence + Strip(x))
  {
  }

  /**
   * Which text belongs to which header: a header followed by header-free lines
   * adds exactly one record, named by the stripped rest of the header and
   * holding the stripped text of those lines.
   */
  lemma FastaRecordsHeader(a: seq<string>, h: string, b: seq<string>)
    requires IsHeader(h) && HeaderFree(b)
    ensures FastaRecords(a + [h] + b) == FastaRecords(a) + [(Strip(h[1..]), SequenceText(b))]
  {
    FastaFoldHeaderFree(a + [h], b);
    assert (a + [h])[..|a|] == a;
    assert FastaFold(a + [h]) == FastaStep(FastaFold(a), h);
    assert FastaFold(a + [h]).sequence + SequenceText(b) == SequenceText(b);
  }

  /** A file without headers is the single record ("", its text). */
  lemma FastaRecordsHeaderFree(b: seq<string>)
    requires HeaderFree(b)
    ensures FastaRecords(b) == [("", SequenceText(b))]
  {
    FastaFoldHeaderFree([], b);
    assert [] + b == b;
    assert FastaFold([]) == FastaState([], "", "");
    assert FastaFold(b) == FastaState([], "", SequenceText(b));
  }

  // ---------------------------------------------------------------------
  // The rows main writes for one primer file.

  /**
   * The hits main writes after its header row: for each primer in dict order,
   * the hits search_sequences returns; the first failing primer re-raises its
   * IndexError at f.result().
   */
  function ResultHits(primers: PrimerTable, sequences: seq<NamedSequence>): Result<seq<KmpHit>>
  {
    if |primers| == 0 then Ok([])
    else
      match ResultHits(primers[..|primers| - 1], sequences)
      case IndexError => IndexError
      case Ok(hs) =>
        var (name, primerSeq) := primers[|primers| - 1];
        if |primerSeq| == 0 && |sequences| > 0 then IndexError
        else Ok(hs + SearchHits(name, primerSeq, sequences))
  }

  /** A dict entry whose primer sequence is empty. */
  predicate EmptyPrimer(entry: (string, string)) {
    entry.1 == ""
  }

  /** The hits main writes fail exactly when some primer is empty and there is a test sequence to search. */
  lemma {:induction false} ResultHitsError(primers: PrimerTable, sequences: seq<NamedSequence>)
    ensures ResultHits(primers, sequences).IndexError? <==> |sequences| > 0 && Any(primers, EmptyPrimer)
  {
    if |primers| > 0 {
      ResultHitsError(primers[..|primers| - 1], sequences);
      AnySnoc(primers, EmptyPrimer);
    }
  }

  /** Every hit main writes comes from one primer of the dict and is sound for it. */
  lemma {:induction false} ResultHitsSound(primers: PrimerTable, sequences: seq<NamedSequence>)
    requires ResultHits(primers, sequences).Ok?
    ensures forall h :: h in ResultHits(primers, sequences).value ==>
      (h.probe, h.primerSeq) in primers && h.matched == h.primerSeq
  {
    if |primers| > 0 {
      var init := primers[..|primers| - 1];
      ResultHitsSound(init, sequences);
      var (name, primerSeq) := primers[|primers| - 1];
      SearchHitsSound(name, primerSeq, sequences);
      forall h | h in ResultHits(primers, sequences).value
        ensures (h.probe, h.primerSeq) in primers && h.matched == h.primerSeq
      {
        if h in ResultHits(init, sequences).value {
          assert (h.probe, h.primerSeq) in init;
        }
      }
    }
  }
}
