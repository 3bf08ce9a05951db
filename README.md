# primer2comment in Dafny

primer2comment looks up short DNA primers in a set of longer contig
sequences and writes one result row per exact occurrence. The repository
has two independent programs, and this project models the core of both:

- `p2c_openAIgenerated.py` searches with Knuth–Morris–Pratt. `computeLPSArray`
  fills the failure table in place and `KMP_search` reports every
  occurrence, overlapping ones included. `search_sequences` turns the
  matches into 6-field hit tuples with a 1-based position. `main` holds two
  parsing loops: one reads the primer file into a dict, the other reads the
  FASTA test-sequence file into (name, sequence) pairs.
- `p2c_async.py` uses the `contig` record, `primer_reader`, `contig_reader`,
  `find_match` and `write_lines`, plus the counters of `progress_bar` and
  `write_matches`. `find_match` compiles the primer as a regular expression
  and keeps the non-empty `finditer` matches. For a primer free of regex
  metacharacters this is a leftmost, non-overlapping literal scan, and that
  is what is modelled.

Modules, one per concern:

- `Common` (common.dfy): `Result` (success or Python's `IndexError`), `Option`, and the generic sequence helpers `Any` and `ConcatMap`.
- `Text` (text.dfy): the Python string operations the code relies on.
  - `str.strip()` uses Python's full `isspace()` set.
  - `str.upper()` covers ASCII letters.
  - Also `startswith`, substring `in`, `split(';')`, `';'.join` and `str(int)`.
  - Substring equality is the recursive predicate `Agree`.
- `Kmp` (kmp.dfy): `computeLPSArray` as an in-place method on an `array<int>`, and `KMP_search` as a `while` loop. `ComputeLpsArray` is proved against the longest-border predicate `IsLongestBorder`, and `KmpSearch` against the specification function `AllMatches`.
- `KmpMain` (kmp_main.dfy): `search_sequences`, and the two parsing loops of the first `main` as methods. Each loop is proved equal to a left fold over the file's lines. The hits that `main` writes per primer file are a function of the parsed dict.
- `Records` (records.dfy): `contig.__init__`, plus the `primer_reader` and `contig_reader` classes with their list fields and filling loops.
- `RegexSearch` (regex_search.dfy): `find_match` as the literal scan, `write_lines` appending lines to a `ResultFile` object, and the column layout of a result row.
- `Progress` (progress.dfy): the worker cap, and the global counters as a `ProgressTracker` class.

Behaviours of the code worth knowing, all modelled as written:

- **Overlapping matches.** `KMP_search` resets `j = lps[j-1]` after a full match, so it reports overlapping occurrences. `Kmp.OverlappingExample` shows this: "AA" occurs twice in "AAA". The regex search of `p2c_async.py` is non-overlapping. `RegexSearch.OverlapExample` shows both behaviours on the same input.
- **Empty primer.** `KMP_search` raises `IndexError` at `lps[0] = 0` for an empty primer. This is modelled as the `IndexError` outcome, both in `Kmp.KmpSearch` and in everything built on it. In `find_match` the `if m.group()` filter makes the empty primer yield nothing.
- **Header lines.** The two FASTA readers differ:
  - `contig_reader` strips each line before the `'>'` test and keeps the `'>'` for `contig` to remove;
  - the first `main` tests the raw line and strips `line[1:]`.

## Model

| member | source | states |
|---|---|---|
| Kmp.ComputeLpsArray | p2c_openAIgenerated.py:33-47 | for a non-empty pattern, lps[0] = 0, 0 <= lps[q] <= q, and every lps[q] is the length of the longest proper prefix of pattern[..q+1] that is also its suffix |
| Kmp.LongestBorderUnique | p2c_openAIgenerated.py:33-47 | the longest proper border of a prefix is unique, so the table the loop fills is determined by the pattern |
| Kmp.BorderOfBorder | p2c_openAIgenerated.py:43-44 | a border shorter than another border b is a border of the prefix of length b, which is why the fallback len = lps[len-1] skips no candidate |
| Kmp.BorderTrans | p2c_openAIgenerated.py:43-44 | a border of a border is a border, so each fallback value is still a border |
| Kmp.BorderBound | p2c_openAIgenerated.py:38-41 | one more character extends the longest border by at most one |
| Kmp.MismatchBound | p2c_openAIgenerated.py:42-44 | after a mismatch, falling back to the longest border of the current border keeps both the border property and the upper bound |
| Kmp.LongestBorderZero | p2c_openAIgenerated.py:45-47 | when the fallback reaches length 0 and the first character differs, the longest border is 0 |
| Kmp.KmpSearch | p2c_openAIgenerated.py:8-31 | raises IndexError exactly for an empty primer (lps[0] = 0 on an empty list); otherwise terminates with 0 <= j <= m and 0 <= i <= n throughout, and returns exactly AllMatches: every occurrence, overlapping ones included, in order |
| Kmp.BorderFromOverlap | p2c_openAIgenerated.py:25-28 | an occurrence that starts inside the current partial match makes its overlap a border of the matched prefix |
| Kmp.AfterFullMatch | p2c_openAIgenerated.py:23-25 | after a full match the reset j = lps[j-1] loses no occurrence: the match is appended and the partial match of length lps[m-1] still holds |
| Kmp.AfterMismatch | p2c_openAIgenerated.py:26-28 | after a mismatch with j > 0, the fallback j = lps[j-1] skips no occurrence and keeps a partial match |
| Kmp.AfterMismatchAtStart | p2c_openAIgenerated.py:29-30 | after a mismatch with j = 0, advancing i skips no occurrence |
| Kmp.AllMatchesSound | p2c_openAIgenerated.py:23-24 | every reported (start, length) has length == len(primer_seq) and test_sequence[start:start+length] == primer_seq |
| Kmp.AllMatchesComplete | p2c_openAIgenerated.py:19-25 | (k, m) is reported if and only if the length-m slice at k equals the primer, overlapping occurrences included |
| Kmp.AllMatchesOrdered | p2c_openAIgenerated.py:19-31 | reported starts are strictly increasing and lie in [0, n-m] |
| Kmp.LongerPrimerNoMatches | p2c_openAIgenerated.py:19-31 | a primer longer than the text has no matches |
| Kmp.OverlappingExample | p2c_openAIgenerated.py:23-25 | "AA" in "AAA" gives the two overlapping matches (0, 2) and (1, 2) |
| KmpMain.HitsFor | p2c_openAIgenerated.py:57-58 | one hit tuple per match |
| KmpMain.HitsForAt | p2c_openAIgenerated.py:57-58 | the q-th hit carries the matched slice, the primer, the 1-based position start+1 and the match length of the q-th match |
| KmpMain.SearchSequences | p2c_openAIgenerated.py:49-59 | raises IndexError exactly when the primer is empty and there is at least one sequence; otherwise returns SearchHits: the hits of each sequence in input order, each in match order |
| KmpMain.SearchHitsConcat | p2c_openAIgenerated.py:54-58 | the hits are grouped by sequence: the per-sequence hit lists concatenated in input order |
| KmpMain.SearchHitsAppend | p2c_openAIgenerated.py:54-58 | the hits for two consecutive lists of sequences are those of the first list followed by those of the second |
| KmpMain.HitsForSound | p2c_openAIgenerated.py:57-58 | hits built from KMP matches name the primer and the sequence, hold the primer as matched text and the primer's length, and the sequence holds the primer at the 1-based position |
| KmpMain.SearchHitsSound | p2c_openAIgenerated.py:54-58 | every hit is sound for one of the test sequences |
| KmpMain.SequenceHitsComplete | p2c_openAIgenerated.py:55-58 | every occurrence in one sequence gives the hit with position k+1 and length m |
| KmpMain.SearchHitsComplete | p2c_openAIgenerated.py:54-58 | every occurrence in every test sequence is reported with its 1-based position |
| KmpMain.LookupKeys | p2c_openAIgenerated.py:74 | a key of the dict has a value exactly when it is among the dict's keys |
| KmpMain.AssignFacts | p2c_openAIgenerated.py:74 | primers[key] = value: key now maps to value, every other key keeps its value, a new key is added last and an existing key keeps its position |
| KmpMain.AssignDistinct | p2c_openAIgenerated.py:74 | assignment keeps the keys distinct |
| KmpMain.ParsePrimerLines | p2c_openAIgenerated.py:68-74 | the primer loop computes ParsePrimers, the fold of one step per line, stopping at the first IndexError |
| KmpMain.ParsePrimersErrorSticks | p2c_openAIgenerated.py:73-74 | once a line has raised, the rest of the file does not change the outcome |
| KmpMain.PrimerLineStepError | p2c_openAIgenerated.py:70-74 | one line raises IndexError exactly when it holds no "probe" and its stripped text has no ';' |
| KmpMain.ParsePrimersError | p2c_openAIgenerated.py:68-74 | the loop raises IndexError if and only if some line of the file is such a failing line |
| KmpMain.ParsePrimersLookup | p2c_openAIgenerated.py:68-74 | when the loop succeeds each name maps to parts[1] of its last line (later lines overwrite earlier ones) and names are distinct |
| KmpMain.ParsePrimersSkipsProbe | p2c_openAIgenerated.py:70-71 | a line containing "probe" anywhere changes nothing |
| KmpMain.ParseFastaLines | p2c_openAIgenerated.py:76-87 | the FASTA loop, with its final append, computes FastaRecords |
| KmpMain.FastaFoldCount | p2c_openAIgenerated.py:80-86 | the loop closes one record per header line |
| KmpMain.FastaFoldNames | p2c_openAIgenerated.py:80-86 | the closed names and the current name are "" followed by the stripped header names |
| KmpMain.FastaFoldText | p2c_openAIgenerated.py:80-86 | the closed sequences and the current one concatenate to the stripped non-header lines |
| KmpMain.FastaRecordCount | p2c_openAIgenerated.py:80-87 | the result has (number of header lines + 1) entries |
| KmpMain.FastaRecordNames | p2c_openAIgenerated.py:80-87 | the names are "" followed by the header names in file order |
| KmpMain.FastaRecordContent | p2c_openAIgenerated.py:80-87 | the sequences concatenate to the stripped non-header lines in file order |
| KmpMain.FastaLeadingEmpty | p2c_openAIgenerated.py:80-87 | a file that starts with a header yields a leading ("", "") entry |
| KmpMain.FastaDonePrefix | p2c_openAIgenerated.py:80-86 | records closed after a prefix of the file stay the first records |
| KmpMain.FastaFoldHeaderFree | p2c_openAIgenerated.py:80-86 | non-header lines leave the finished records and the current name alone and append their stripped text to the current sequence |
| KmpMain.FastaStepText | p2c_openAIgenerated.py:85-86 | a non-header line appends its stripped text to current_sequence |
| KmpMain.FastaRecordsHeader | p2c_openAIgenerated.py:80-87 | a header followed by header-free lines adds exactly one record, named by the stripped rest of the header and holding the stripped text of those lines, after the records of what came before |
| KmpMain.FastaRecordsHeaderFree | p2c_openAIgenerated.py:80-87 | a file without headers is the single record ("", its stripped text) |
| KmpMain.ResultHitsError | p2c_openAIgenerated.py:95-101 | the rows for a primer file fail with IndexError exactly when some primer is empty and there is a test sequence |
| KmpMain.ResultHitsSound | p2c_openAIgenerated.py:95-101 | every row written comes from an entry of the primer dict and holds that primer as its matched text |
| Records.MakeContigSpec | p2c_async.py:39-43 | exactly one leading '>' is removed from the name; the sequence keeps its length, is upper-cased letter by letter and holds no lower-case letter |
| Records.MakeContigIdempotent | p2c_async.py:39-43 | rebuilding a contig from its own fields changes nothing when its name does not start with '>' |
| Records.MakeContigDropsOne | p2c_async.py:40-41 | a name ">>x" keeps its second '>' |
| Records.PrimersOfAppend | p2c_async.py:62-66 | the primers of consecutive rows come in row order |
| Records.PrimersOfExact | p2c_async.py:62-66 | a primer is emitted exactly for each row whose probe and sequence are both present and non-empty |
| Records.PrimersNonEmpty | p2c_async.py:65-66 | every primer read has a non-empty sequence |
| Records.PrimerReader.constructor | p2c_async.py:49-55 | a new reader holds the primers of the rows |
| Records.PrimerReader.ReadCsv | p2c_async.py:57-66 | the primer list grows by the primers of the rows, in row order |
| Records.ContigReader.constructor | p2c_async.py:81-87 | a new reader holds the contigs of the file |
| Records.ContigReader.ReadContigsList | p2c_async.py:97-112 | the contig list grows by ContigRecords of the file: the loop's closed contigs, then the unconditional final contig |
| Records.ContigFoldText | p2c_async.py:104-111 | the closed sequences and the open one concatenate to the stripped non-header lines |
| Records.ContigRecordsContent | p2c_async.py:101-112 | the contigs' sequences concatenate to the upper-cased, stripped non-'>' lines, in file order |
| Records.ContigFoldNonEmpty | p2c_async.py:106-107 | every contig closed by a header has a non-empty sequence |
| Records.ContigRecordsNonEmpty | p2c_async.py:106-112 | a header whose sequence is empty yields no contig unless it is the last one: all contigs but the last are non-empty |
| Records.ContigRecordsEmptyFile | p2c_async.py:102-112 | an empty file yields exactly one contig with empty name and sequence |
| Records.ContigHeaderAfterHeader | p2c_async.py:105-109 | a header directly after a header drops the first one and names the open contig after the second |
| Records.ContigDonePrefix | p2c_async.py:104-111 | contigs closed after a prefix of the file stay the first contigs |
| Records.ContigFoldHeaderFree | p2c_async.py:104-111 | lines that are not headers (once stripped) leave the closed contigs and the open name alone and append their stripped text to the open sequence |
| Records.ContigStepText | p2c_async.py:110-111 | a line that is not a header appends its stripped text to contig_sequence |
| Records.ContigStepHeader | p2c_async.py:105-109 | a header appends the open contig only when contig_sequence is non-empty, then opens a contig named by the stripped header with an empty sequence |
| Records.ContigRecordsHeader | p2c_async.py:104-112 | a header followed by header-free lines keeps the contigs before it, less the last one when its sequence is empty, and adds one last contig named by the stripped header with the upper-cased text of those lines; so an empty last header still yields an empty contig |
| Records.ContigRecordsHeaderFree | p2c_async.py:102-112 | a file without headers is one contig named "" with all its upper-cased text |
| Records.ContigLeadingUnnamed | p2c_async.py:102-112 | when the text before the first header is non-empty (blank lines among it allowed), the first contig is named "" and holds exactly that text, upper-cased |
| RegexSearch.CollectHits | p2c_async.py:187-191 | the loop keeps each match with non-empty text, in match order |
| RegexSearch.NonEmptyHitsKeep | p2c_async.py:189 | the `if m.group()` filter drops nothing from matches that all have text |
| RegexSearch.NonEmptyHitsDrop | p2c_async.py:189 | the filter drops every empty match |
| RegexSearch.LiteralScanSound | p2c_async.py:185-188 | every match of the literal scan from pos is an occurrence of the primer at or after pos, spanning len(primer) characters |
| RegexSearch.LiteralScanOrdered | p2c_async.py:188 | the literal scan's matches do not overlap |
| RegexSearch.LiteralScanCover | p2c_async.py:188 | the literal scan skips no occurrence: each one overlaps a reported match |
| RegexSearch.FindHitsScan | p2c_async.py:188-191 | for a non-empty primer the filter keeps every match of the scan |
| RegexSearch.FindHitsSound | p2c_async.py:184-191 | every hit (located, start, end) has located == primer.sequence == text[start:end] and end - start == len(primer.sequence) |
| RegexSearch.FindHitsOrdered | p2c_async.py:188-191 | hits have strictly increasing starts and do not overlap: each start is at or after the previous end |
| RegexSearch.FindHitsEmptyPrimer | p2c_async.py:189 | an empty primer yields no hits |
| RegexSearch.FindHitsCover | p2c_async.py:188 | every occurrence of the primer overlaps one of the hits |
| RegexSearch.FindHitsInKmp | p2c_async.py:188-191 | every hit of the non-overlapping scan is also a match KMP_search reports |
| RegexSearch.OverlapExample | p2c_async.py:188 | "AA" in "AAA" is one regex hit but two KMP matches |
| RegexSearch.HitRows | p2c_async.py:200-219 | one output line per hit |
| RegexSearch.HitRowsAt | p2c_async.py:200-219 | the q-th line is the line of the q-th hit, so lines come in hit order |
| RegexSearch.HitRowSplit | p2c_async.py:208-219 | a result line splits at ';' back into its seven fields when no field holds ';' |
| RegexSearch.HitFieldsNumbers | p2c_async.py:201-217 | the fields follow RES_COLUMNS; start, end and length = end - start are written as decimal digits that read back as those numbers |
| RegexSearch.HitRowColumns | p2c_async.py:200-219 | a result line has one field per column of RES_COLUMNS, in that order, with length == end - start |
| RegexSearch.HeaderColumns | p2c_async.py:234-235 | the header row splits back into RES_COLUMNS |
| RegexSearch.ResultFile.constructor | p2c_async.py:234-235 | a new result file holds the header row |
| RegexSearch.ResultFile.WriteLines | p2c_async.py:196-219 | appends the line of each hit, in hit order, and nothing else |
| RegexSearch.ResultFile.FindMatch | p2c_async.py:180-194 | appends the lines of FindHits of the primer in the contig's sequence |
| Progress.WorkerCount | p2c_async.py:159-161 | the pool size is min(cpu_count, MAX_PARALLEL_PROC) when the cap is positive, and cpu_count otherwise |
| Progress.WorkerCountPositive | p2c_async.py:159-163 | with at least one processor the pool has at least one worker |
| Progress.WorkerCountDefault | p2c_async.py:159-161 | with MAX_PARALLEL_PROC = 0 every processor gets a worker |
| Progress.EstimateFacts | p2c_async.py:132-133 | the remaining-time estimate is 0 when every primer is done and never negative while some remain |
| Progress.ProgressTracker.constructor | p2c_async.py:18-21 | both counters start at 0 |
| Progress.ProgressTracker.Reset | p2c_async.py:165-167 | with the display on, total := len(primer_list) and processed := 0; with it off nothing changes |
| Progress.ProgressTracker.ProgressBar | p2c_async.py:125-153 | with the display off nothing changes and nothing is printed; otherwise processed goes up by exactly one and total stays. The estimate divides by processed >= 1, and the final status line is printed if and only if processed == total |
| Progress.SuccessesAll | p2c_async.py:171-175 | the count of tasks that returned equals the number of tasks exactly when every task returned |
| Progress.WriteMatchesProgress | p2c_async.py:165-175 | over one write_matches call, where only tasks whose find_match returns run the callback: with the display on, processed ends at the number of such tasks, there is one non-negative estimate per callback, and the final line is printed once exactly when there is a primer and every task returned; otherwise never. With the display off nothing is printed |
| Text.TrimLeftSpec | p2c_async.py:101 | lstrip removes exactly the leading white space |
| Text.TrimRightSpec | p2c_async.py:101 | rstrip removes exactly the trailing white space |
| Text.StripSpec | p2c_async.py:101 | strip returns the slice between the leading and the trailing white space, and that slice neither starts nor ends with white space |
| Text.StripIdempotent | p2c_async.py:108 | stripping an already stripped line changes nothing |
| Text.UpperSpec | p2c_async.py:43 | upper() keeps the length, upper-cases each letter and leaves no lower-case letter |
| Text.UpperConcat | p2c_async.py:43 | upper-casing distributes over concatenation |
| Text.UpperIdempotent | p2c_async.py:43 | upper-casing twice is upper-casing once |
| Text.Split | p2c_openAIgenerated.py:73 | split(';') gives at least one piece, at least two exactly when ';' occurs, and no piece holds ';' |
| Text.SplitJoin | p2c_async.py:219 | splitting a ';'-joined row gives its fields back when no field holds ';' |
| Text.NatToStringRoundTrip | p2c_async.py:217 | str(n) of a non-negative integer reads back as n |
| Text.IntToString | p2c_async.py:217 | str(i) is non-empty and never contains ';' |

## Left out

- File and folder I/O is not modelled: `open`, `clean_up` (`shutil.rmtree`, `os.makedirs`), `glob`, `os.listdir` and result-file naming. Inputs are lists of lines or parsed rows, and outputs are sequences of lines without the trailing newline.
- `csv.DictReader` and `csv.writer` are library code. A CSV row is a map from column name to value. The first `main` writes rows with `csv.writer`, so its output is modelled as the list of hit tuples it writes (`KmpMain.ResultHits`).
- `KmpMain.ResultHits`: when a primer raises `IndexError` partway through, the file already holds the rows of the earlier primers. The model returns only the error.
- Concurrency is not modelled: `multiprocessing.Pool`, `apply_async` callbacks and `ProcessPoolExecutor`. In `p2c_async.py` workers append to the result file in completion order, so the file's row order across primers is nondeterministic and nothing is claimed about it. `Progress.WriteMatchesProgress` runs the callbacks one after another, as the pool's result handler does. Whether each task returned is a parameter, since a task whose `find_match` raises (a primer `re.compile` rejects) skips its callback.
- The general semantics of Python's `re` engine is not modelled. `find_match` is modelled only for a primer without metacharacters.
- `RegexSearch.ResultFile.FindMatch`: requires a metacharacter-free primer, which the source does not demand (any other primer is compiled as a pattern).
- `Text.UpperSpec`: `str.upper()` is modelled for ASCII letters only. For other characters Unicode case mapping (which can change the length) is not modelled.
- Clock readings and printing are not modelled. `time.time()` readings become parameters of `Progress.ProgressTracker.ProgressBar`. Floating-point division is modelled on reals, and the `print`/`format`/`ljust` output is a boolean that says whether a status line is printed.
- `get_primer` and `get_contigs` only return a field, which the model reads directly.
- `main` of `p2c_async.py` is not modelled as a whole: its loop over primer files and contigs only chains the modelled operations. Its header row is `RegexSearch.ResultFile.constructor`.
