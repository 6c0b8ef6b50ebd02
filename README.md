# Pileup base caller of ngsutils (`bam_utils/bam_basecall.py`)

This project is a Dafny model of the streaming pileup engine behind the
`bam_basecall` command of ngsutils, with proofs about it. The engine reads
alignments sorted by contig and start position. It expands each read into
a buffer of pending reference positions: a match adds a base and its
quality, an insertion adds the inserted sequence and its mean quality, and
a deletion or a spliced gap adds a marker. It releases positions from the
front of the buffer once the input has moved past them. Each released
position becomes a row of counts: A, C, G, T and N, deletions, gaps,
insertions by sequence, and the minor-strand fraction of each. On top of
the rows sit:

- the consensus and minor call;
- the choice of the table for the heterozygosity test;
- the row filter and the insertion column of the report.

Modules:

- `Alignment` (alignment.dfy): decoded reads, per-position observations,
  pending positions, and the failures that stop a run.
- `Expand` (expand.dfy): `_push_read` as a pure function over the buffer.
  It covers growing the buffer, locating the read's start, and each CIGAR
  operation.
- `Aggregate` (aggregate.dfy): `_calc_pos`. The record loop is a fold, and
  a record-by-record reference count characterises it.
- `Pileup` (caller.dfy): the `BamBaseCaller` object as a class.
  - Its state is the buffer, the current contig and the region bounds.
  - Its methods are `PushRead`, `CalcPos` and the `fetch` loop.
  - Each method is proved against the functions of `Expand` and
    `Aggregate`.
  - Two ghost logs (appended keys, released positions) record what
    happened, so that "every position is released once and in order" can
    be stated.
  - `fetch` is also written as a fold over the stream of reads (`Step`,
    `Run`, `RunLog`, `Outcome`). `Fetch` is proved to release and yield
    what the fold does. Order and coverage of read spans are proved on
    the fold.
- `Consensus` (consensus.dfy): `_calculate_consensus_minor`, with a
  closed-form characterisation.
- `Heterozygosity` (heterozygosity.dfy): which four numbers
  `_calculate_heterozygosity` hands to the exact test.
- `Summary` (summary.dfy): the integer part of the per-row loop of
  `bam_basecall`: the row filter, the multiplicity and strand sums, and the
  insertion column.

Where the code and its documentation disagree, the model follows the
code. The one exception is the quality test of a match, where the model
uses the corrected test; the code as written is kept beside it (see
"## Findings"). The other disagreements:

- A position equal to the region end is still reported (`cur_end < pos`
  is the test), so the region is inclusive at both ends.
- A tie of A and C for the top count is reported as `C/A`. The calls are
  sorted on (count, letter) and reversed, so letters come out in
  decreasing order.
- The first insertion of a sequence creates its entry with count 1 but
  does not add to the `ins` counter. Only later ones do, because the
  increment is indented under `else`. Forward insertions are all counted
  in the plus-strand counter, so the insertion minor fraction can be
  negative (`Aggregate.InsFractionCanBeNegative`).
- `min_count` is stored as 0 whatever the caller passes, so
  `_calc_pos` never drops a position for low coverage. The threshold is
  applied only by the report loop.
- A region bound of `None` and a bound of 0 both mean "unset", because both
  are false in Python. The model writes 0 for both.

Faults the code turns into an abort are modelled as a `Failure` that
stops the whole pass:

- A buffer index past the last pending position (`SlotOverrun`).
- A query index past the read's bases or qualities (`QueryOverrun`).
- An insertion of length 0, which divides by zero (`EmptyInsertion`).
- A counted base letter other than A, C, G, T or N, which raises a
  `KeyError` (`UnknownBase`).

Rows produced before the failure are kept, as the generator would already
have yielded them.

## Model

| member | source | states |
|---|---|---|
| Expand.ExtendedShape | bam_utils/bam_basecall.py:303-307 | after growing, the buffer is one contiguous run of the read's contig, starts at the read start when it was empty, reaches at least `aend`, keeps the old slots as its prefix and adds only empty slots |
| Expand.Extended | bam_utils/bam_basecall.py:303-307 | growing keeps the old slots as a prefix, never leaves the buffer empty, and stops at or past the read's end |
| Expand.FirstAtOrAfter | bam_utils/bam_basecall.py:309-311 | the index found is the first pending slot at or after the read start; none is found only when every slot from the cursor lies before it |
| Expand.FirstAtOrAfterContiguous | bam_utils/bam_basecall.py:309-311 | on a contiguous buffer the start index is the position offset from the buffer's first position |
| Expand.MatchRunSucceeds | bam_utils/bam_basecall.py:315-326 | an M run succeeds if and only if it is empty or its slots and query indices are all in range |
| Expand.MatchRunSlot | bam_utils/bam_basecall.py:315-326 | slot k gains exactly the match record for query index `read_idx + (k - buf_idx)` when covered by the run, and nothing otherwise |
| Expand.MatchRunCursors | bam_utils/bam_basecall.py:325-326 | an M run advances both cursors by its length and keeps the buffer's keys |
| Expand.MatchRunClosedForm | bam_utils/bam_basecall.py:315-326 | closed form of a successful M run: cursors, keys, range condition and the records of every slot |
| Expand.InsertionClosedForm | bam_utils/bam_basecall.py:328-338 | an I run succeeds if and only if it is non-empty, the query holds its bases and qualities, and the cursor is on a slot; otherwise it fails with the empty-insertion, query-overrun or slot-overrun failure, checked in that order. On success it appends one record to the current slot only: the inserted bases, the query index after them, and a quality q with len·q ≤ sum of Phred values < len·(q+1), the floor of the mean; the buffer cursor stays and the query cursor moves by the length |
| Expand.SharedRunClosedForm | bam_utils/bam_basecall.py:340-350 | a D or N run succeeds if and only if its slots are in range; it appends the same record to each covered slot, moves only the buffer cursor and keeps the keys |
| Expand.StepOpEffect | bam_utils/bam_basecall.py:314-350 | per operation: M moves both cursors, I adds one record to the current slot and moves only the query cursor (its record is given by `Expand.InsertionClosedForm`), D and N add their marker to each covered slot, any other code changes nothing; keys never change |
| Expand.ApplyCigarKeepsKeys | bam_utils/bam_basecall.py:314-350 | walking the whole CIGAR adds records but never adds, drops or moves a pending position |
| Expand.PushShape | bam_utils/bam_basecall.py:302-350 | a successful push leaves a contiguous buffer of the read's contig that extends the old keys, reaches `aend`, and starts at the read start when it was empty |
| Expand.Push | bam_utils/bam_basecall.py:302-350 | a successful push has exactly the positions of the grown buffer: the CIGAR walk only adds records |
| Expand.SameKeysContiguous | bam_utils/bam_basecall.py:306-307 | two buffers with the same keys have the same shape, so contiguity carries over |
| Aggregate.Bump | bam_utils/bam_basecall.py:233-235 | counting a base adds one to that letter's counter and to no other |
| Aggregate.TallyFailsOnUnknownBase | bam_utils/bam_basecall.py:226-235 | the record loop fails if and only if some kept match has a letter outside A, C, G, T, N, and the failure names the first such letter |
| Aggregate.TallyCounts | bam_utils/bam_basecall.py:226-259 | the loop's `total`, deletions, gaps, plus-strand deletions and insertions, and kept records equal independent record-by-record counts |
| Aggregate.TallyBaseCounts | bam_utils/bam_basecall.py:228-235 | each base counter and its plus-strand counter equal the number of kept matches of that letter (forward reads only for plus) |
| Aggregate.CountInsertionStep | bam_utils/bam_basecall.py:236-247 | one kept insertion adds one to its sequence's entry, creates the entry if new, and adds one to `ins` plus distinct sequences |
| Aggregate.TallyInsertions | bam_utils/bam_basecall.py:236-247 | after the loop each sequence's entry is its number of kept insertions, the entries sum to all kept insertions, and `ins` plus distinct sequences equals that number |
| Aggregate.PlusAtMostAll | bam_utils/bam_basecall.py:234-256 | a plus-strand count never exceeds the matching all-strand count |
| Aggregate.MapSumRemove | bam_utils/bam_basecall.py:240-243 | the sum over the insertion map splits off any one entry |
| Aggregate.MapSumUpdate | bam_utils/bam_basecall.py:240-243 | setting one entry changes the sum by the difference |
| Aggregate.StrandFraction | bam_utils/bam_basecall.py:261-267 | the minor-strand fraction is 0 without coverage, is plus/count or its complement otherwise, and lies in [0, 0.5] when plus never exceeds count |
| Aggregate.PositionCharacterised | bam_utils/bam_basecall.py:212-270 | outside the region no row; inside it a failure exactly when a kept match has an unknown letter; otherwise a row whose counts equal the record-by-record counts, whose total is A+C+G+T+N and whose base and deletion fractions lie in [0, 0.5] |
| Aggregate.PositionInsertions | bam_utils/bam_basecall.py:236-247 | a row's insertion map has exactly the sequences kept at the position, summing to the kept insertions |
| Aggregate.MatchesByBase | bam_utils/bam_basecall.py:228-235 | when every letter is known, kept matches split exactly over A, C, G, T and N |
| Aggregate.InsFractionCanBeNegative | bam_utils/bam_basecall.py:236-267 | two forward insertions of one sequence give an insertion minor fraction of -1.0 |
| Aggregate.LowQualityMatchIgnored | bam_utils/bam_basecall.py:228-229 | with the decoded Phred quality, a match below the threshold leaves the whole tally unchanged |
| Aggregate.MatchQualityIgnoredAsWritten | bam_utils/bam_basecall.py:227-229 | with the raw quality character, a match passes if and only if its flag clears the mask; a quality-0 base passes a threshold of 20 |
| Pileup.BaseCaller.constructor | bam_utils/bam_basecall.py:148-159 | stores the quality threshold and mask, forces `min_count` to 0, and starts with no contig, unset bounds and an empty buffer |
| Pileup.BaseCaller.Extend | bam_utils/bam_basecall.py:303-307 | the buffer becomes the grown buffer, and nothing else changes |
| Pileup.BaseCaller.StartIndex | bam_utils/bam_basecall.py:309-311 | the loop finds the first slot at or after the read start |
| Pileup.BaseCaller.AppendMatches | bam_utils/bam_basecall.py:315-326 | the in-place loop over an M run leaves the buffer and cursors of `Expand.MatchRun`, or its failure |
| Pileup.BaseCaller.AppendInsertion | bam_utils/bam_basecall.py:328-338 | the in-place loop over an I run adds the record of `Expand.Insertion`, or fails as it does |
| Pileup.BaseCaller.AppendShared | bam_utils/bam_basecall.py:340-350 | the in-place loop over a D or N run matches `Expand.SharedRun` |
| Pileup.BaseCaller.RunOp | bam_utils/bam_basecall.py:314-350 | dispatching one CIGAR operation matches `Expand.StepOp` |
| Pileup.BaseCaller.PushRead | bam_utils/bam_basecall.py:302-350 | the buffer becomes the result of `Expand.Push`, or the run fails with its failure; on success the buffer extends the old keys and the log of appended keys grows by exactly the new ones |
| Pileup.BaseCaller.CalcPos | bam_utils/bam_basecall.py:212-270 | the loop over a position's records gives `Aggregate.Position` under the current bounds |
| Pileup.BaseCaller.ReleaseFront | bam_utils/bam_basecall.py:279-282 | pops the front slot, logs it with the current bounds, keeps the invariant, and emits its row |
| Pileup.BaseCaller.ReleaseNext | bam_utils/bam_basecall.py:278-282 | one more release of a drain: the front slot is logged with the current bounds, and the log stays the start of the drain plus the drained front of the buffer |
| Pileup.BaseCaller.Flush | bam_utils/bam_basecall.py:278-282 | drains the buffer front first, up to the first failure |
| Pileup.BaseCaller.ReleaseBefore | bam_utils/bam_basecall.py:287-291 | releases exactly the pending slots before the read start: every released one lies before it, and the next pending one does not |
| Pileup.BaseCaller.NewContig | bam_utils/bam_basecall.py:277-284 | on a contig change, drains the whole buffer and switches the current contig |
| Pileup.BaseCaller.ReleaseForRead | bam_utils/bam_basecall.py:277-291 | releases a prefix of the buffer: all of it on a contig change, otherwise the slots before the read start |
| Pileup.BaseCaller.Advance | bam_utils/bam_basecall.py:276-293 | one iteration of `fetch`: it releases a front part of the old buffer under the current bounds (all of it on a new contig unless a release fails, otherwise the slots before the read start), then the buffer becomes the push of the read onto the rest, or the run fails with the push's failure |
| Pileup.BaseCaller.FetchStep | bam_utils/bam_basecall.py:276-293 | takes the bounds the stream set for the read; its releases are a prefix of those of `Step` from the engine it started in, all of them unless a release failed, and then it is in `Step`'s state or stops with `Step`'s push failure |
| Pileup.BaseCaller.Fetch | bam_utils/bam_basecall.py:272-300 | the rows and failure are those of the fold `Outcome` over the stream: what it releases is a prefix of the fold's release log `RunLog`, all of it on success. The rows are those of the released positions in release order, up to the first failure. On success every appended position was released and the rows are exactly the released in-region positions. On sorted input positions are released, and rows reported, in strictly increasing (contig, position) order, so none twice |
| Pileup.BaseCaller.Finish | bam_utils/bam_basecall.py:295-300 | the final drain releases a front part of the old buffer under the final bounds, all of it unless a release fails, and changes neither the appended keys nor the contig; on success the buffer is empty, every appended position is released, and order carries over from the appended keys |
| Pileup.EmittedRowsAreInRegion | bam_utils/bam_basecall.py:212-216 | the rows of a run are exactly the released positions inside their region, in order |
| Pileup.ReleaseBookkeeping | bam_utils/bam_basecall.py:279 | popping the front keeps "released then pending equals appended" |
| Pileup.ReleasedPrefix | bam_utils/bam_basecall.py:276-300 | the released positions are a prefix of the appended keys |
| Pileup.DrainedInOrder | bam_utils/bam_basecall.py:296-300 | a drain from an increasing log releases in increasing order, and its rows are the in-region positions, increasing |
| Pileup.StepKeepsOrder | bam_utils/bam_basecall.py:276-293 | on sorted input one iteration keeps the appended keys increasing and every released position before the read |
| Pileup.ReleasedBeforeRead | bam_utils/bam_basecall.py:277-291 | every position released while handling a read lies before the read's (contig, start) |
| Pileup.AppendedStaysIncreasing | bam_utils/bam_basecall.py:302-307 | the positions a push appends continue the increasing run of appended keys |
| Pileup.InRegionKeysIncreasing | bam_utils/bam_basecall.py:212-216 | filtering an increasing release log by region keeps it increasing |
| Pileup.Drain | bam_utils/bam_basecall.py:278-282 | draining slots logs each of them, in order, with the bounds in force |
| Pileup.CountBefore | bam_utils/bam_basecall.py:287-291 | the loop over positions 5' of a read stops after the front slots before the read start: all counted slots lie before it and the next one does not |
| Pileup.StepReleasesFront | bam_utils/bam_basecall.py:276-293 | one read of the fold releases a front part of the buffer under the read's bounds: all of it on a new contig, otherwise exactly the slots before the read start; the read's contig becomes current |
| Pileup.StepParts | bam_utils/bam_basecall.py:276-293 | one read of the fold splits the buffer into released slots and a contiguous rest, keeps released-then-pending keys unchanged, and succeeds exactly when the push onto the rest does |
| Pileup.RunStops | bam_utils/bam_basecall.py:276-293 | once a push fails, no later read changes the run: the generator has ended |
| Pileup.RunLogGrows | bam_utils/bam_basecall.py:276-293 | the releases of a stream's prefix are a prefix of the stream's releases |
| Pileup.ReleasesMatchStep | bam_utils/bam_basecall.py:276-293 | releasing the slots before the read start one at a time, or the whole buffer on a new contig, gives a prefix of the fold's releases for that read, and all of them, with its push, when no release failed |
| Pileup.ReadFollowsStep | bam_utils/bam_basecall.py:276-293 | what one iteration of the loop did is what the fold's step does, up to the first failing release |
| Pileup.NextRead | bam_utils/bam_basecall.py:276-293 | a read that succeeds extends the fold by one read |
| Pileup.FailedRead | bam_utils/bam_basecall.py:276-300 | a read that fails ends `fetch` with the fold's rows and failure, its releases a prefix of the fold's log |
| Pileup.FinalDrain | bam_utils/bam_basecall.py:295-300 | the final drain after the last read gives the fold's rows and failure |
| Pileup.EmittedPrefixFailure | bam_utils/bam_basecall.py:279-282 | once a released position fails, releasing more changes neither the rows nor the failure |
| Pileup.StepOrdered | bam_utils/bam_basecall.py:276-293 | a read not before the previous one releases positions in strictly increasing order and keeps released-then-pending keys increasing, all released ones before the read |
| Pileup.RunOrdered | bam_utils/bam_basecall.py:276-293 | over a sorted stream, the fold keeps its keys strictly increasing read by read |
| Pileup.RunLogIncreasing | bam_utils/bam_basecall.py:272-300 | over a sorted stream every release of `fetch`, the final drain included, comes after the ones before it |
| Pileup.SortedOutcome | bam_utils/bam_basecall.py:272-300 | over a sorted stream any prefix of the releases increases strictly, and its rows, when no release failed, have strictly increasing keys |
| Pileup.StepCovers | bam_utils/bam_basecall.py:276-293 | a read of a sorted stream keeps every position spanned by an earlier read released or pending, and leaves its own span pending |
| Pileup.RunCoversSpans | bam_utils/bam_basecall.py:276-293 | over a sorted stream that no push stopped, every position a read spans was released or is pending |
| Pileup.RunReleasesSpans | bam_utils/bam_basecall.py:272-300 | over a sorted stream that no push stopped, `fetch` releases every position from each read's start to its end, both included |
| Consensus.SortSorted | bam_utils/bam_basecall.py:357-359 | sorting and reversing the four (count, letter) pairs gives a descending permutation of them |
| Consensus.ScanCharacterised | bam_utils/bam_basecall.py:361-376 | the scan collects the letters with the top count and, when there is one, those with the next count below it |
| Consensus.ConsensusMinorCharacterised | bam_utils/bam_basecall.py:353-390 | closed form: "N" without coverage; a single top letter with the next-count letters as minors unless below `minorpct`; several top letters joined by "/" with no minor |
| Consensus.NoCoverageIsN | bam_utils/bam_basecall.py:378-379 | the call is ("N", "") if and only if all four counts are 0; otherwise it starts with a base letter and holds only letters and "/" |
| Consensus.TopTieHasNoMinor | bam_utils/bam_basecall.py:384-390 | with more than one top letter there is never a minor call |
| Consensus.FullThresholdSuppressesMinor | bam_utils/bam_basecall.py:381-382 | a threshold of 1.0 or more suppresses every minor call |
| Consensus.JoinShape | bam_utils/bam_basecall.py:389-390 | joining letters with "/" gives 2n-1 characters, starting with the first letter |
| Consensus.TiedPairExample | bam_utils/bam_basecall.py:357-390 | A and C tied at 5 are reported as "C/A" |
| Consensus.MinorCallExample | bam_utils/bam_basecall.py:353-390 | counts 10, 2, 1, 0 give consensus "A" and minor "C" |
| Heterozygosity.SortAscendingSorted | bam_utils/bam_basecall.py:396-397 | sorting the four counts gives an ascending permutation with the same sum |
| Heterozygosity.DecisionNeedsTwoCounts | bam_utils/bam_basecall.py:402-403 | no test is run (the value is 1.0) if and only if at most one count is non-zero |
| Heterozygosity.DecisionSelectsTopThree | bam_utils/bam_basecall.py:395-409 | the table holds the largest count, the second, and the third; the third and the total minus the third make the theoretical row |
| Heterozygosity.PValue | bam_utils/bam_basecall.py:393-411 | the value is 1.0 when at most one count is non-zero; otherwise it is the exact test's value on the table `Decide` selects |
| Heterozygosity.DocumentedTable | bam_utils/bam_basecall.py:406-409 | counts 10, 2, 1, 0 give the table [[12, 1], [10, 2]] |
| Summary.KeptSize | bam_utils/bam_basecall.py:226-259 | a row keeps its kept matches, kept insertions, deletions and gaps, and nothing else |
| Summary.ShownIffEvidence | bam_utils/bam_basecall.py:434-440 | `big_total` counts matches, deletions and distinct insertion sequences; a row is printed if and only if it reaches the threshold and has a kept match, insertion or deletion, or a gap with gaps shown |
| Summary.ReadSums | bam_utils/bam_basecall.py:449-460 | the loop's multiplicity sum, forward-read count and read count equal their reference definitions, and forward never exceeds all |
| Summary.IhTotalOfKept | bam_utils/bam_basecall.py:452-460 | for reads that map once, the multiplicity sum counts matches, insertions and deletions but not gaps |
| Summary.IhSumOfUniqueReads | bam_utils/bam_basecall.py:434-460 | for reads that map once, the multiplicity sum is `big_total` plus the repeated insertions, so it is never below `big_total` |
| Summary.InsertDescendingKeeps | bam_utils/bam_basecall.py:462-466 | inserting into the descending insertion list keeps it descending, adds exactly the one pair, and adds its count to the total |
| Summary.InsertionSummary | bam_utils/bam_basecall.py:462-472 | the insertion column lists every (count, sequence) of the map exactly once, in decreasing order of count then sequence, and its total is the sum of the counts |
| Summary.InsertionColumnTotal | bam_utils/bam_basecall.py:462-472 | for a released row, the column's total is the number of kept insertions, and its sequences are exactly those kept |

## Left out

- `calc_entropy` (lines 118-140) is not modelled: it is floating-point work. Note that line 447 passes the counts in the order a, c, g, t to a function whose parameters are a, c, t, g. The G and T counts are therefore swapped, and because each base is weighted by its own genomic frequency, the swap can change the value.
- The Fisher exact test is a parameter (`Heterozygosity.PValue`): it is a call into scipy. The model proves which table is passed to it. The `@memoize` cache is left out because it does not change the result.
- `SingleRegion`, `BEDRegions`, `TimedProfiler`, `usage` and the command line are not part of this model. The stream of reads with the bounds its generator set (lines 161-204) is an input: each item carries the bounds in force when it was yielded.
- Progress reporting (ETA), reading of BAM and FASTA files, and the formatting of output lines are I/O and are not modelled. The reference base is not modelled either.
- The floating-point values of the report are not modelled: the average multiplicity, the plus-strand percentage and the printed minor-strand percentages. The model proves the integer sums they are computed from (`Summary.ReadSums`, `Summary.IhSumOfUniqueReads`). The minor-strand fractions of a row are modelled as exact rationals (`real`), not as doubles.
- The `sys.exit(1)` and the error message on a bad match index (lines 319-324) are modelled as a `SlotOverrun` or `QueryOverrun` failure. Uncaught errors in the I, D and N branches are modelled the same way. The message text is not modelled.
- The per-row insertion string (`'%s:%s'` joined with commas) is not modelled: it is formatting. Its contents and order are modelled by `Summary.InsertionSummary`.
- Pileup.BaseCaller.Fetch: stated for `min_count` 0 only. The constructor forces that value, so this is the only one the code can reach.
- Pileup.BaseCaller.Fetch: a wrong-order or unsorted stream is modelled, but the ordering results are stated only for input sorted by (contig, start).
- Aggregate.Position: the quality test of a match compares the decoded Phred value (character code minus 33) with `min_qual`. This is the corrected test of "## Findings", not line 229 as written, which compares the raw quality character and so never rejects a match under Python 2. The as-written test is `Aggregate.MatchPassesAsWritten`.
- Pileup.BaseCaller.CalcPos: computes `Aggregate.Position`, so it uses the corrected match quality test too.
- Pileup.BaseCaller.Fetch: its rows come from `Aggregate.Position`, so they use the corrected match quality test, not the test of line 229 as written.
- Consensus.ConsensusMinor: the minor threshold test of line 381 divides the minor count by the top count exactly, as a `real`. The code divides Python floats, so a ratio that rounds across `minorpct` is not modelled.
- Consensus.SortSorted: Python's stable sort of (count, letter) pairs is modelled as an insertion sort into descending order. The four pairs are distinct, so the results agree.

## Findings

| source | as written | input that shows it | evidently intended | confidence | as-written member | corrected member |
|---|---|---|---|---|---|---|
| bam_utils/bam_basecall.py:229 | a match record stores the raw quality character from `read.qual`, and under Python 2 `str >= int` is always true, so the quality threshold never rejects a match | a forward read with flag 0, a match base of quality character `!` (Phred 0), `min_qual` 20: the base is counted | compare the decoded Phred value (character code minus 33) with `min_qual`, as the insertion branch does | not executed | Aggregate.MatchQualityIgnoredAsWritten | Aggregate.LowQualityMatchIgnored |
