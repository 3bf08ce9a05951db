/**
 * The record handling of p2c_async.py: the contig structure (used for both
 * contigs and primers), primer_reader's row filter and contig_reader's
 * grouping of FASTA lines into contigs.
 */
module Records {
  import opened Text

  /** A contig or a primer: a name and an upper-cased sequence. */
  datatype Contig = Contig(name: string, sequence: string)

  /**
   * contig.__init__: exactly one leading '>' is dropped from the name, and
   * the sequence is stored upper-cased.
   */
  function MakeContig(name: string, sequence: string): Contig
  {
    var n := if StartsWith(name, '>') then name[1..] else name;
    Contig(n, Upper(sequence))
  }

  /** What contig.__init__ stores: the name less one leading '>', and the sequence upper-cased letter by letter. */
  lemma MakeContigSpec(name: string, sequence: string)
    ensures var c := MakeContig(name, sequence);
      (if StartsWith(name, '>') then name == ">" + c.name else c.name == name)
      && |c.sequence| == |sequence| && IsUpperCase(c.sequence)
      && forall i :: 0 <= i < |sequence| ==> c.sequence[i] == UpperChar(sequence[i])
  {
    UpperSpec(sequence);
  }

  /** Rebuilding a contig from its own fields changes nothing unless its name starts with '>'. */
  lemma MakeContigIdempotent(name: string, sequence: string)
    requires !StartsWith(MakeContig(name, sequence).name, '>')
    ensures var c := MakeContig(name, sequence); MakeContig(c.name, c.sequence) == c
  {
    UpperIdempotent(sequence);
  }

  /** Only one '>' is dropped: a name ">>x" keeps its second '>'. */
  lemma MakeContigDropsOne(name: string, sequence: string)
    ensures MakeContig(">>" + name, sequence).name == ">" + name
  {
    assert (">>" + name)[1..] == ">" + name;
  }

  // ---------------------------------------------------------------------
  // primer_reader

  /** A row as csv.DictReader yields it: column name to value; a missing column reads as None. */
  type Row = map<string, string>

  /** `if primer_name and primer_sequence`: both columns present and non-empty. */
  predicate IsPrimerRow(row: Row) {
    "probe" in row && row["probe"] != "" && "sequence" in row && row["sequence"] != ""
  }

  /** The primer a row yields. */
  function RowPrimer(row: Row): Contig
    requires IsPrimerRow(row)
  {
    MakeContig(row["probe"], row["sequence"])
  }

  /** The primers the rows yield, in row order. */
  function PrimersOf(rows: seq<Row>): seq<Contig>
  {
    if |rows| == 0 then []
    else
      var row := rows[|rows| - 1];
      PrimersOf(rows[..|rows| - 1]) + (if IsPrimerRow(row) then [RowPrimer(row)] else [])
  }

  /** The primers of consecutive parts of a file come in file order. */
  lemma {:induction false} PrimersOfAppend(a: seq<Row>, b: seq<Row>)
    ensures PrimersOf(a + b) == PrimersOf(a) + PrimersOf(b)
    decreases |b|
  {
    if |b| == 0 {
      assert a + b == a;
    } else {
      var b' := b[..|b| - 1];
      assert (a + b)[..|a + b| - 1] == a + b' && (a + b)[|a + b| - 1] == b[|b| - 1];
      PrimersOfAppend(a, b');
    }
  }

  /** A primer is emitted from a row exactly when the row has both fields: sound and complete. */
  lemma {:induction false} PrimersOfExact(rows: seq<Row>)
    ensures forall c :: c in PrimersOf(rows) ==>
      exists x :: 0 <= x < |rows| && IsPrimerRow(rows[x]) && c == RowPrimer(rows[x])
    ensures forall x :: 0 <= x < |rows| && IsPrimerRow(rows[x]) ==> RowPrimer(rows[x]) in PrimersOf(rows)
  {
    if |rows| > 0 {
      var init := rows[..|rows| - 1];
      PrimersOfExact(init);
      forall c | c in PrimersOf(rows)
        ensures exists x :: 0 <= x < |rows| && IsPrimerRow(rows[x]) && c == RowPrimer(rows[x])
      {
        if c in PrimersOf(init) {
          var x :| 0 <= x < |init| && IsPrimerRow(init[x]) && c == RowPrimer(init[x]);
          assert rows[x] == init[x];
        } else {
          assert IsPrimerRow(rows[|rows| - 1]) && c == RowPrimer(rows[|rows| - 1]);
        }
      }
      forall x | 0 <= x < |rows| && IsPrimerRow(rows[x])
        ensures RowPrimer(rows[x]) in PrimersOf(rows)
      {
        if x < |init| {
          assert init[x] == rows[x];
        }
      }
    }
  }

  /** Every primer read has a non-empty sequence. */
  lemma {:induction false} PrimersNonEmpty(rows: seq<Row>)
    ensures forall c :: c in PrimersOf(rows) ==> c.sequence != ""
  {
    PrimersOfExact(rows);
  }

  /** primer_reader: the primer file, read once at construction. */
  class PrimerReader {
    var primerList: seq<Contig>

    /** primer_reader.__init__: the primer list of a file whose rows are given. */
    constructor (rows: seq<Row>)
      ensures primerList == PrimersOf(rows)
    {
      primerList := [];
      new;
      ReadCsv(rows);
    }

    /** _read_csv: appends a primer for each row that has both a probe and a sequence. */
    method ReadCsv(rows: seq<Row>)
      modifies this
      ensures primerList == old(primerList) + PrimersOf(rows)
    {
      for k := 0 to |rows|
        invariant primerList == old(primerList) + PrimersOf(rows[..k])
      {
        assert rows[..k + 1][..k] == rows[..k];
        var line := rows[k];
        if "probe" in line && line["probe"] != "" && "sequence" in line && line["sequence"] != "" {
          primerList := primerList + [MakeContig(line["probe"], line["sequence"])];
        }
      }
      assert rows[..|rows|] == rows;
    }
  }

  // ---------------------------------------------------------------------
  // contig_reader

  /** The file's lines, each stripped: the list comprehension at the top of _read_contigs_list. */
  function StripAll(fileLines: seq<string>): (r: seq<string>)
    ensures |r| == |fileLines| && forall i :: 0 <= i < |r| ==> r[i] == Strip(fileLines[i])
  {
    seq(|fileLines|, i requires 0 <= i < |fileLines| => Strip(fileLines[i]))
  }

  /** The loop's variables: the contigs appended so far, contig_name and contig_sequence. */
  datatype ContigAcc = ContigAcc(done: seq<Contig>, name: string, sequence: string)

  /**
   * One pass of the loop over a line of the file, which the comprehension has
   * stripped: a header closes the current contig only when its sequence is
   * non-empty, and starts a new one.
   */
  function ContigStep(acc: ContigAcc, fileLine: string): ContigAcc
  {
    var line := Strip(fileLine);
    if StartsWith(line, '>') then
      ContigAcc(if acc.sequence != "" then acc.done + [MakeContig(acc.name, acc.sequence)] else acc.done, Strip(line), "")
    else ContigAcc(acc.done, acc.name, acc.sequence + Strip(line))
  }

  /** The loop's variables after the given lines of the file. */
  function ContigFold(lines: seq<string>): ContigAcc
  {
    if |lines| == 0 then ContigAcc([], "", "")
    else ContigStep(ContigFold(lines[..|lines| - 1]), lines[|lines| - 1])
  }

  /** contig_list after _read_contigs_list: the loop and the final, unconditional append. */
  function ContigRecords(fileLines: seq<string>): seq<Contig>
  {
    var acc := ContigFold(fileLines);
    acc.done + [MakeContig(acc.name, acc.sequence)]
  }

  /** contig_reader: the contig file, read once at construction. */
  class ContigReader {
    var contigList: seq<Contig>

    /** contig_reader.__init__: the contig list of a file whose lines are given. */
    constructor (fileLines: seq<string>)
      ensures contigList == ContigRecords(fileLines)
    {
      contigList := [];
      new;
      ReadContigsList(fileLines);
    }

    /** _read_contigs_list: appends the contigs of the file. */
    method ReadContigsList(fileLines: seq<string>)
      modifies this
      ensures contigList == old(contigList) + ContigRecords(fileLines)
    {
      var lines := StripAll(fileLines);
      var contigName := "";
      var contigSequence := "";
      for k := 0 to |lines|
        invariant contigList == old(contigList) + ContigFold(fileLines[..k]).done
        invariant contigName == ContigFold(fileLines[..k]).name && contigSequence == ContigFold(fileLines[..k]).sequence
      {
        assert fileLines[..k + 1][..k] == fileLines[..k];
        var line := lines[k];
        if StartsWith(line, '>') {
          if contigSequence != "" {
            contigList := contigList + [MakeContig(contigName, contigSequence)];
          }
          contigName := Strip(line);
          contigSequence := "";
        } else {
          contigSequence := contigSequence + Strip(line);
        }
      }
      assert fileLines[..|fileLines|] == fileLines;
      contigList := contigList + [MakeContig(contigName, contigSequence)];
    }
  }

  /** The sequences of a list of contigs, concatenated. */
  function Sequences(cs: seq<Contig>): string
  {
    if |cs| == 0 then "" else Sequences(cs[..|cs| - 1]) + cs[|cs| - 1].sequence
  }

  /** The lines of the file that are not headers, each stripped, concatenated in file order. */
  function SequenceText(fileLines: seq<string>): string
  {
    if |fileLines| == 0 then ""
    else
      var line := Strip(fileLines[|fileLines| - 1]);
      SequenceText(fileLines[..|fileLines| - 1]) + (if StartsWith(line, '>') then "" else line)
  }

  /** What the loop keeps: the contigs so far and the open sequence are the upper-cased sequence text. */
  lemma {:induction false} ContigFoldText(lines: seq<string>)
    ensures Sequences(ContigFold(lines).done) + Upper(ContigFold(lines).sequence) == Upper(SequenceText(lines))
  {
    if |lines| > 0 {
      var init := lines[..|lines| - 1];
      var line := Strip(lines[|lines| - 1]);
      ContigFoldText(init);
      var acc := ContigFold(init);
      var st := ContigFold(lines);
      var before := Sequences(acc.done) + Upper(acc.sequence);
      if StartsWith(line, '>') {
        assert st.sequence == "" && SequenceText(lines) == SequenceText(init);
        assert Upper("") == "";
        if acc.sequence != "" {
          var c := MakeContig(acc.name, acc.sequence);
          assert st.done == acc.done + [c];
          assert Sequences(acc.done + [c]) == Sequences(acc.done) + c.sequence;
        } else {
          assert st.done == acc.done;
        }
      } else {
        StripIdempotent(lines[|lines| - 1]);
        assert st.done == acc.done && st.sequence == acc.sequence + line;
        assert SequenceText(lines) == SequenceText(init) + line;
        UpperConcat(acc.sequence, line);
        UpperConcat(SequenceText(init), line);
        assert Sequences(acc.done) + (Upper(acc.sequence) + Upper(line)) == before + Upper(line);
      }
    }
  }

  /**
   * No sequence text is lost or reordered: the contigs' sequences concatenate
   * to the upper-cased, stripped non-header lines of the file.
   */
  lemma ContigRecordsContent(fileLines: seq<string>)
    ensures Sequences(ContigRecords(fileLines)) == Upper(SequenceText(fileLines))
  {
    ContigFoldText(fileLines);
    var acc := ContigFold(fileLines);
    var c := MakeContig(acc.name, acc.sequence);
    assert Sequences(acc.done + [c]) == Sequences(acc.done) + c.sequence;
  }

  /** Every contig the loop closes has a non-empty sequence. */
  lemma {:induction false} ContigFoldNonEmpty(lines: seq<string>)
    ensures forall c :: c in ContigFold(lines).done ==> c.sequence != ""
  {
    if |lines| > 0 {
      ContigFoldNonEmpty(lines[..|lines| - 1]);
    }
  }

  /**
   * A header whose sequence is empty yields no contig unless it is the last
   * header: every contig but the last has a non-empty sequence.
   */
  lemma ContigRecordsNonEmpty(fileLines: seq<string>)
    ensures forall q :: 0 <= q < |ContigRecords(fileLines)| - 1 ==> ContigRecords(fileLines)[q].sequence != ""
  {
    ContigFoldNonEmpty(fileLines);
    var acc := ContigFold(fileLines);
    forall q | 0 <= q < |ContigRecords(fileLines)| - 1
      ensures ContigRecords(fileLines)[q].sequence != ""
    {
      assert ContigRecords(fileLines)[q] == acc.done[q];
    }
  }

  /** There is always a final contig: an empty file yields one contig with empty name and sequence. */
  lemma ContigRecordsEmptyFile()
    ensures ContigRecords([]) == [Contig("", "")]
  {
    assert Upper("") == "";
  }

  /** A header right after a header leaves the closed contigs as they were: the first header is dropped. */
  lemma ContigHeaderAfterHeader(lines: seq<string>, h1: string, h2: string)
    requires StartsWith(Strip(h1), '>') && StartsWith(Strip(h2), '>')
    ensures ContigFold(lines + [h1, h2]).done == ContigFold(lines + [h1]).done
    ensures ContigFold(lines + [h1, h2]).name == Strip(h2)
  {
    assert (lines + [h1, h2])[..|lines| + 1] == lines + [h1];
    StripIdempotent(h2);
  }

  /** The contigs closed after a prefix of the file stay the first contigs. */
  lemma {:induction false} ContigDonePrefix(a: seq<string>, lines: seq<string>)
    requires a <= lines
    ensures ContigFold(a).done <= ContigFold(lines).done
    decreases |lines|
  {
    if |a| < |lines| {
      var init := lines[..|lines| - 1];
      assert a <= init;
      ContigDonePrefix(a, init);
    } else {
      assert a == lines;
    }
  }

  /** A line the loop treats as a header: it starts with '>' once stripped. */
  predicate IsContigHeader(fileLine: string) {
    StartsWith(Strip(fileLine), '>')
  }

  /** Lines none of which is a header. */
  predicate HeaderFree(lines: seq<string>) {
    forall i :: 0 <= i < |lines| ==> !IsContigHeader(lines[i])
  }

  /** Header-free lines only extend the open sequence: the closed contigs and the open name stay as they were. */
  lemma {:induction false} ContigFoldHeaderFree(a: seq<string>, b: seq<string>)
    requires HeaderFree(b)
    ensures var acc := ContigFold(a);
      ContigFold(a + b) == ContigAcc(acc.done, acc.name, acc.sequence + SequenceText(b))
    decreases |b|
  {
    var acc := ContigFold(a);
    if |b| == 0 {
      assert a + b == a;
      assert acc.sequence + SequenceText(b) == acc.sequence;
    } else {
      HeaderFreeInit(b);
      ContigFoldHeaderFree(a, b[..|b| - 1]);
      ContigFoldExtend(a, b);
    }
  }

  /** The induction step: one more line that is not a header extends the open sequence by its stripped text. */
  lemma ContigFoldExtend(a: seq<string>, b: seq<string>)
    requires |b| > 0 && !IsContigHeader(b[|b| - 1])
    requires var acc := ContigFold(a);
      ContigFold(a + b[..|b| - 1]) == ContigAcc(acc.done, acc.name, acc.sequence + SequenceText(b[..|b| - 1]))
    ensures var acc := ContigFold(a);
      ContigFold(a + b) == ContigAcc(acc.done, acc.name, acc.sequence + SequenceText(b))
  {
    var acc, b', x := ContigFold(a), b[..|b| - 1], b[|b| - 1];
    var t', sx := SequenceText(b'), Strip(x);
    calc {
      ContigFold(a + b);
    == { ContigFoldSnoc(a, b); }
      ContigStep(ContigFold(a + b'), x);
    == { ContigStepText(ContigFold(a + b'), x); }
      ContigAcc(acc.done, acc.name, (acc.sequence + t') + sx);
    == { AppendAssoc(acc.sequence, t', sx); }
      ContigAcc(acc.done, acc.name, acc.sequence + (t' + sx));
    == { assert SequenceText(b) == t' + sx; }
      ContigAcc(acc.done, acc.name, acc.sequence + SequenceText(b));
    }
  }

  /** Dropping the last line keeps lines header-free, and that line is no header. */
  lemma HeaderFreeInit(b: seq<string>)
    requires |b| > 0 && HeaderFree(b)
    ensures HeaderFree(b[..|b| - 1]) && !IsContigHeader(b[|b| - 1])
  {
    var b' := b[..|b| - 1];
    forall i | 0 <= i < |b'| ensures !IsContigHeader(b'[i]) {
      assert b'[i] == b[i];
    }
  }

  /** The loop over a + b is one more step after the loop over a and all but the last line of b. */
  lemma ContigFoldSnoc(a: seq<string>, b: seq<string>)
    requires |b| > 0
    ensures ContigFold(a + b) == ContigStep(ContigFold(a + b[..|b| - 1]), b[|b| - 1])
  {
    assert (a + b)[..|a + b| - 1] == a + b[..|b| - 1];
    assert (a + b)[|a + b| - 1] == b[|b| - 1];
  }

  /** A line that is not a header appends its stripped text to the open sequence. */
  lemma ContigStepText(acc: ContigAcc, x: string)
    requires !IsContigHeader(x)
    ensures ContigStep(acc, x) == ContigAcc(acc.done, acc.name, acc.sequence + Strip(x))
  {
    StripIdempotent(x);
  }

  /** A contig list without its last contig when that one's sequence is empty. */
  function DropEmptyLast(cs: seq<Contig>): (r: seq<Contig>)
    requires |cs| > 0
    ensures r <= cs && |cs| - 1 <= |r|
  {
    if cs[|cs| - 1].sequence == "" then cs[..|cs| - 1] else cs
  }

  /**
   * Which text belongs to which header: a header followed by header-free lines
   * drops the contig before it when that one's sequence is empty, and is then
   * the last contig, named by the stripped header and holding the upper-cased
   * text of those lines.
   */
  lemma ContigRecordsHeader(a: seq<string>, h: string, b: seq<string>)
    requires IsContigHeader(h) && HeaderFree(b)
    ensures ContigRecords(a + [h] + b) == DropEmptyLast(ContigRecords(a)) + [MakeContig(Strip(h), SequenceText(b))]
  {
    var acc := ContigFold(a);
    var kept := DropEmptyLast(ContigRecords(a));
    ContigFoldHeaderFree(a + [h], b);
    calc {
      ContigFold(a + [h]);
    == { ContigFoldSnoc(a, [h]); assert a + [h][..0] == a; }
      ContigStep(acc, h);
    == { ContigStepHeader(acc, h); }
      ContigAcc(kept, Strip(h), "");
    }
    assert "" + SequenceText(b) == SequenceText(b);
  }

  /** A header closes the open contig unless its sequence is empty, and opens one named by the stripped header. */
  lemma ContigStepHeader(acc: ContigAcc, h: string)
    requires IsContigHeader(h)
    ensures ContigStep(acc, h) == ContigAcc(DropEmptyLast(acc.done + [MakeContig(acc.name, acc.sequence)]), Strip(h), "")
  {
    StripIdempotent(h);
    UpperSpec(acc.sequence);
    var c := MakeContig(acc.name, acc.sequence);
    assert (acc.done + [c])[..|acc.done|] == acc.done;
  }

  /** A file without headers is one contig named "" holding all of its text. */
  lemma ContigRecordsHeaderFree(b: seq<string>)
    requires HeaderFree(b)
    ensures ContigRecords(b) == [Contig("", Upper(SequenceText(b)))]
  {
    ContigFoldHeaderFree([], b);
    assert [] + b == b;
    assert ContigFold([]) == ContigAcc([], "", "");
    assert ContigFold(b) == ContigAcc([], "", SequenceText(b));
    assert !StartsWith("", '>');
    assert ContigRecords(b) == [MakeContig("", SequenceText(b))];
  }

  /**
   * Sequence lines before the first header, blank lines among them included,
   * form a first contig named "" that holds their upper-cased text, provided
   * that text is non-empty.
   */
  lemma ContigLeadingUnnamed(fileLines: seq<string>, k: nat)
    requires k <= |fileLines| && HeaderFree(fileLines[..k])
    requires k == |fileLines| || IsContigHeader(fileLines[k])
    requires SequenceText(fileLines[..k]) != ""
    ensures ContigRecords(fileLines)[0] == Contig("", Upper(SequenceText(fileLines[..k])))
  {
    var pre := fileLines[..k];
    if k == |fileLines| {
      assert pre == fileLines;
      ContigRecordsHeaderFree(fileLines);
    } else {
      ContigFoldHeaderFree([], pre);
      assert [] + pre == pre;
      assert fileLines[..k + 1][..k] == pre;
      assert ContigFold([]) == ContigAcc([], "", "");
      assert ContigFold(pre) == ContigAcc([], "", SequenceText(pre));
      assert ContigFold(fileLines[..k + 1]) == ContigStep(ContigFold(pre), fileLines[k]);
      assert ContigFold(fileLines[..k + 1]).done == [MakeContig("", SequenceText(pre))];
      assert !StartsWith("", '>');
      ContigDonePrefix(fileLines[..k + 1], fileLines);
    }
  }
}
