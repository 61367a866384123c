# mri core: a Dafny model

mri draws a picture of a binary file. It computes per-block heuristics: entropy, zero-byte density, and candidate pointers that fall inside the image's address range. It folds them into curves over the file, marks the PE sections on the picture, and labels the offset axis with round hexadecimal ticks.

This project models the numeric core behind that picture and proves its properties:

- **Bucket aggregation (`Buckets`, `BinaryPlugin`, `PePlugin`).**
  - `_condense_pointers` folds a per-block series into buckets `factor` blocks wide. It keys them by byte offset in a `defaultdict`, then reads them back as a gap-free list divided by the block length.
  - `pointers_to_references` counts candidate pointers per bucket of the file offset they point at.
    - The raw-binary plugin uses the candidate's own offset field.
    - The PE plugin rebases the candidate value by the image base and translates it through the PE parser's RVA-to-offset lookup. Candidates the lookup rejects are skipped.
  - `_condense_pointers` is identical in both plugins, so it is modelled once.
- **Section boundaries (`PePlugin`).** `_get_boundaries` sorts the sections by descending raw offset and strips the NUL padding from their names. Empty names become `sec_<k>`. It adds an `appended` region when the sections do not end at the file size.
- **Downsampling (`Downsample`).** `scale_down` averages a series down to `num` bins, like an antialiased line. A sample that straddles a bin boundary is shared between the two bins.
  - The model specifies every output as the weighted mean of its bin, sample by sample.
  - The single-pass loop is proved to compute exactly that.
- **Axis ticks (`HexTicks`).** `generate_hex_ticks` snaps proposed ticks to the widest nibble mask that keeps enough distinct values. It doubles the ticks while there are fewer than six, then drops those at or above the maximum.
- **Zero filter (`ZeroFilter`).** `filter_zero` drops the (axis, value) pairs whose value is zero.

The loops of the source are methods with loop invariants, each proved against a specification function. The properties are stated about those functions.

- Python exceptions the code can raise on unusual input are part of the model. They are `Err(IndexError)`, `Err(ValueError)` and `Err(ZeroDivisionError)` of a `Result`.
- Floats are modelled as reals.

Two behaviours of the code deserve a note:

- The comment at `mri/util.py:36-38` promises that `scale_down` averages accurately. As written it does not: its bins weigh unequal numbers of samples (see Findings). The model follows the code, and proves the equal-width property for the corrected share.
- `generate_hex_ticks` can repeat ticks. When half the second tick floors to 0, the ticks 0, 1, 2 come back as 0, 0, 1, 1, 2, 2 (`HexTicks.SmallTicksRepeat`).

## Model

| member | source | states |
|---|---|---|
| Buckets.BucketOffsetStrictMono | mri/plugins/pe.py:183 | bucket keys `k*BLOCK_LEN*factor` strictly increase with the bucket index |
| Buckets.BucketOffsetNext | mri/plugins/pe.py:190 | consecutive bucket keys are one `BLOCK_LEN*factor` stride apart, as the closing `xrange` steps |
| Buckets.BucketOffset | mri/plugins/pe.py:183 | the definition of bucket k's key: `k*BLOCK_LEN*factor` |
| Buckets.Lookup | mri/plugins/pe.py:191 | the definition of a `defaultdict` read: a key never written reads as 0 |
| Buckets.NumBlockBuckets | mri/plugins/pe.py:190 | the definition of how many buckets n blocks fill: one per started group of `factor` blocks, one for no blocks |
| Buckets.BlockBucketSum | mri/plugins/pe.py:182-185 | the definition of bucket k's total: the sum of the values of blocks `k*factor` to `k*factor+factor-1` that exist |
| Buckets.BucketTotals | mri/plugins/pe.py:190-192 | the totals of buckets 0 to count-1 in order, one per bucket |
| Buckets.BucketOf | mri/plugins/pe.py:183 | `int(offset/BLOCK_LEN/factor)` is the bucket whose byte range contains the offset |
| Buckets.BlockBucketSumExtend | mri/plugins/pe.py:183-186 | adding one block's value changes exactly one bucket total, that of bucket `len(values)/factor` |
| Buckets.BucketTotalsSum | mri/plugins/pe.py:182-192 | the first `count` buckets together hold exactly the first `count*factor` blocks |
| Buckets.EmitBuckets | mri/plugins/pe.py:190-192 | the read-back loop emits `m/(BLOCK_LEN*factor)+1` entries; entry k is the map value at bucket k's key (0 if absent) divided by BLOCK_LEN |
| Buckets.CondensePointers | mri/plugins/pe.py:177-194 | output has `(n-1)/factor+1` entries for n ≥ 1 blocks and one for none; entry k is the total of blocks `k*factor..k*factor+factor-1` divided by BLOCK_LEN |
| Buckets.AddToBucket | mri/plugins/pe.py:183-185 | `ptrs[q] += temp` keeps every bucket's map value equal to its bucket total |
| Buckets.MaxBucketStep | mri/plugins/pe.py:187-188 | the running maximum `m` after block i is the key of block i's bucket, never less than before |
| Buckets.CondenseConserves | mri/plugins/pe.py:185-192 | outputs times BLOCK_LEN sum to the sum of the inputs: nothing lost or counted twice |
| Buckets.AllBucketsTotal | mri/plugins/pe.py:182-192 | the emitted buckets together hold every block exactly once |
| Buckets.BucketsCoverAll | mri/plugins/pe.py:190 | the emitted buckets reach past the last block |
| Buckets.FlattenStep | mri/plugins/pe.py:201-202 | the nested loops visit the candidates block after block |
| Buckets.Flatten | mri/plugins/pe.py:201-202 | the definition of the candidates in visiting order, block after block |
| Buckets.BucketCount | mri/plugins/pe.py:210-213 | the definition of bucket k's reference count: the number of offsets whose bucket is k |
| Buckets.MaxBucket | mri/plugins/pe.py:210-212 | the definition of the highest bucket any offset falls in, 0 when there is none |
| Buckets.MaxBucketIsMax | mri/plugins/pe.py:210-212 | the highest bucket bounds every counted offset's bucket and is 0 or some offset's bucket |
| Buckets.AddCount | mri/plugins/pe.py:210-213 | `refs[q] += 1` keeps every bucket's map value equal to the number of offsets in it |
| Buckets.MaxKeyStep | mri/plugins/pe.py:211-212 | `if q > m: m = q` keeps m at the key of the highest bucket seen |
| Buckets.Tally | mri/plugins/pe.py:210-213 | one loop body: counting an offset extends the counted offsets by it, keeping the map and the maximum exact |
| Buckets.EmitCounts | mri/plugins/pe.py:215-217 | emits one entry per bucket up to the highest one seen; entry k is bucket k's count divided by BLOCK_LEN |
| Buckets.CountTotals | mri/plugins/pe.py:215-217 | the counts of buckets 0 to count-1 in order, one per bucket |
| Buckets.CountBelow | mri/plugins/pe.py:210-213 | the definition of the number of offsets whose bucket is below `count` |
| Buckets.CountTotalsSum | mri/plugins/pe.py:213-217 | the counts of buckets below `count` add up to the number of offsets in them |
| Buckets.CountBelowAll | mri/plugins/pe.py:210-217 | every offset lies in a bucket up to the highest one |
| Buckets.CountsConserve | mri/plugins/pe.py:213-217 | reference outputs times BLOCK_LEN sum to the number of offsets counted |
| BinaryPlugin.RawOffsets | mri/plugins/binary.py:142-143 | the raw plugin buckets every candidate by its own `off` field, one offset per candidate |
| BinaryPlugin.RawOffsetsFlattenStep | mri/plugins/binary.py:141-142 | the offsets of the first i+1 blocks are those of the first i, then block i's |
| BinaryPlugin.TallyBlock | mri/plugins/binary.py:142-146 | the inner loop counts every candidate of the block |
| BinaryPlugin.PointersToReferences | mri/plugins/binary.py:137-152 | output length is the highest bucket plus one; entry k is the number of candidates in bucket k divided by BLOCK_LEN |
| BinaryPlugin.ReferencesCountEveryCandidate | mri/plugins/binary.py:141-152 | no candidate is dropped: outputs times BLOCK_LEN sum to the number of candidates |
| PePlugin.ConvertedOffsets | mri/plugins/pe.py:203-208 | the definition of the file offsets counted: each candidate's `ptr - ImageBase` translated, in visiting order, skipping those the translation rejects |
| PePlugin.ConvertedOffsetsAppend | mri/plugins/pe.py:201-208 | a rejected candidate does not stop aggregation: the offsets of a concatenation are those of its parts |
| PePlugin.ConvertedOffsetsMembers | mri/plugins/pe.py:203-208 | an offset is counted iff some candidate's `ptr - ImageBase` translates to it; at most one per candidate |
| PePlugin.ConvertedOffsetsFlattenStep | mri/plugins/pe.py:201-202 | the offsets of the first i+1 blocks are those of the first i, then block i's |
| PePlugin.Visit | mri/plugins/pe.py:203-213 | one candidate: rebased, translated, counted on success and skipped on failure |
| PePlugin.TallyBlock | mri/plugins/pe.py:202-213 | the inner loop counts exactly the translated offsets of the block |
| PePlugin.PointersToReferences | mri/plugins/pe.py:196-219 | output length is the highest bucket of a translated offset plus one (one entry when none translates); entry k is bucket k's count divided by BLOCK_LEN |
| PePlugin.ReferencesCountEveryConverted | mri/plugins/pe.py:201-217 | outputs times BLOCK_LEN sum to the number of candidates the translation accepted |
| PePlugin.InsertByRawDesc | mri/plugins/pe.py:134 | insertion adds exactly the one section |
| PePlugin.SortByRawDesc | mri/plugins/pe.py:134 | the sort is a permutation of the section table |
| PePlugin.InsertKeepsDescending | mri/plugins/pe.py:134 | inserting into a descending list keeps it descending |
| PePlugin.SortByRawDescSorted | mri/plugins/pe.py:134 | the sorted sections are in descending `PointerToRawData` order |
| PePlugin.EndOf | mri/plugins/pe.py:142 | the definition of a section's end: `PointerToRawData + SizeOfRawData` |
| PePlugin.MaxEnd | mri/plugins/pe.py:132-144 | the definition of the final `appended_offset`: the largest section end, starting from 0 |
| PePlugin.MaxEndStep | mri/plugins/pe.py:142-144 | `appended_offset` after section n is the larger of its old value and section n's end |
| PePlugin.MaxEndIsMax | mri/plugins/pe.py:132-144 | the largest end bounds every section's end and is 0 or some section's end |
| PePlugin.MaxEndPermutation | mri/plugins/pe.py:132-144 | the largest end does not depend on the order of the sections |
| PePlugin.NulFreePrefixLen | mri/plugins/pe.py:130 | `[^\x00]*` matches the longest NUL-free prefix |
| PePlugin.StripNulPadding | mri/plugins/pe.py:130-138 | the kept name is a prefix of the name: either the whole name, or a NUL-free prefix followed only by NULs (and possibly one final newline) |
| PePlugin.StripPadded | mri/plugins/pe.py:130-138 | a NUL-free name padded with NULs, with or without a newline after them, is cut back to the name |
| PePlugin.StripKeepsOther | mri/plugins/pe.py:130-138 | a name with other bytes after its first NUL is kept unchanged |
| PePlugin.Decimal | mri/plugins/pe.py:140 | `'%d' % k` is a non-empty string of decimal digits |
| PePlugin.DecimalRoundTrip | mri/plugins/pe.py:140 | reading the digits back gives k, so distinct positions get distinct fallback names |
| PePlugin.SectionLabel | mri/plugins/pe.py:135-140 | the name a section is drawn with: its name stripped of NUL padding, or `sec_<number>` when nothing is left |
| PePlugin.SectionLabelCases | mri/plugins/pe.py:135-140 | a label is never empty; a name with something left after stripping keeps it, an empty one becomes `sec_<number>`, and two fallback labels differ when their numbers differ |
| PePlugin.BoundariesStep | mri/plugins/pe.py:142-150 | appending section n's record extends the boundaries of the first n sections by one |
| PePlugin.BoundariesExtend | mri/plugins/pe.py:152-158 | appending the `appended` record leaves the section records in place |
| PePlugin.SectionBoundary | mri/plugins/pe.py:142-149 | the definition of a section's record: its label, PointerToRawData, and PointerToRawData + SizeOfRawData |
| PePlugin.SectionBoundaries | mri/plugins/pe.py:134-150 | one record per sorted section, numbered from nsec down; `appended_offset` ends as the largest section end |
| PePlugin.GetBoundaries | mri/plugins/pe.py:128-160 | one record per section in sorted order, with `end_offset = PointerToRawData + SizeOfRawData`, plus exactly one `appended` record spanning [largest end, filesize) iff the two differ |
| PePlugin.BoundariesDescending | mri/plugins/pe.py:134-158 | section records start in descending order, each ends its size after its start, and an `appended` record starts at or after every section end |
| Downsample.Edge | mri/util.py:44-45 | the definition of the sample in which bin n ends: `((n+1)*len-1)/num` |
| Downsample.FracWeight | mri/util.py:45-66 | the definition of the fractional part of `k*len/num` in units of 1/num, taken in (0, 1] |
| Downsample.Split | mri/util.py:57-66 | the definition of the share of the straddling sample bin n takes: as written (the fraction after `frac += width_frac`, that of the next bin's end) or exact (that of bin n's own end); the Findings row is the difference |
| Downsample.Weight | mri/util.py:51-73 | the definition of the share of sample j in bin n: the rest of the previous shared sample, whole samples inside the bin, its own shared sample's share, else 0 |
| Downsample.Lo | mri/util.py:71-73 | the definition of the first sample bin n touches |
| Downsample.BinTotal | mri/util.py:52-68 | the definition of `bin`: the weighted sum of bin n's samples below an index |
| Downsample.BinCount | mri/util.py:52-69 | the definition of `count`: the sum of the weights of bin n's samples below an index |
| Downsample.BinMean | mri/util.py:70-75 | the definition of the output of bin n: its weighted sum over its weight |
| Downsample.EdgeStep | mri/util.py:44-45 | consecutive bins end in different samples, each at least one further on |
| Downsample.EdgeLast | mri/util.py:44-51 | the last bin ends in the last sample, so every sample is read |
| Downsample.EdgeBelowLen | mri/util.py:44-51 | every bin ends inside the series |
| Downsample.FracWeightRange | mri/util.py:65-66 | the fractional share lies in (0, 1] |
| Downsample.WeightRange | mri/util.py:66-73 | every sample's share of a bin lies in [0, 1] |
| Downsample.BinCountPositive | mri/util.py:65-75 | every bin has positive weight, so `bin/count` never divides by zero |
| Downsample.SplitWhole | mri/util.py:45-77 | when num divides the length, no sample is shared |
| Downsample.PassStart | mri/util.py:44-61 | at the top of a pass the owed whole samples end at the bin's last sample or just past it, inside the series |
| Downsample.Advance | mri/util.py:57-58 | adding the width moves the running position to the next bin end |
| Downsample.Carry | mri/util.py:59-61 | carrying num from `frac` into `intg` keeps the position |
| Downsample.SplitIs | mri/util.py:65-66 | the code's weight `frac/num` is the as-written share of the straddling sample |
| Downsample.ShareStep | mri/util.py:67-68 | the straddling sample enters the bin with its share |
| Downsample.ShareCountStep | mri/util.py:69 | the count grows by the share and is then positive |
| Downsample.MeanStep | mri/util.py:70-75 | once the bin is complete, `bin/count` is its weighted mean |
| Downsample.WholeRun | mri/util.py:52-55 | a run of samples inside the bin enters whole: the total grows by their sum, the count by their number |
| Downsample.BinStart | mri/util.py:71-73 | the next bin starts with the rest of the shared sample |
| Downsample.TakeWhole | mri/util.py:52-55 | the `while intg` loop adds the next intg values whole |
| Downsample.Gather | mri/util.py:52-61 | the first half of a pass brings the state from the top of the pass to just before the bin closes |
| Downsample.EmitBin | mri/util.py:63-77 | closing a bin appends its weighted mean and leaves the state at the top of the next pass |
| Downsample.ScaleDown | mri/util.py:32-79 | a shorter series is returned as is, num 0 divides by zero, a negative num gives no bins; otherwise output n is bin n's weighted mean |
| Downsample.BinTotalBounds | mri/util.py:68 | a bin's weighted sum lies between its weight times the smallest and times the largest value |
| Downsample.MeansWithinRange | mri/util.py:70-75 | every output lies between the smallest and the largest input |
| Downsample.ScaleToSameLength | mri/util.py:32-79 | scaling a series to its own length returns its values |
| Downsample.CountBeforeSplit | mri/util.py:52-73 | with the exact share, before its own shared sample a bin weighs the rest of the previous bin's shared sample plus one per whole sample |
| Downsample.IntendedBinWidth | mri/util.py:44-69 | with the exact share every bin weighs exactly len/num samples |
| Downsample.IntendedExample | mri/util.py:57-70 | with the exact share, [0, 0, 3] scaled to two bins weighs 1.5 per bin and gives [0, 2] |
| Downsample.AsWrittenExample | mri/util.py:57-70 | as written, [0, 0, 3] scaled to two bins weighs 2 in the first bin and gives [0, 3] |
| HexTicks.Trunc | mri/util.py:14 | `int(x)` truncates toward zero |
| HexTicks.Truncate | mri/util.py:14 | the definition of `map(int, ticks)` |
| HexTicks.MaskAt | mri/util.py:9-21 | the definition of the mask of round i: 0xfffffff shifted right by 4 bits i times |
| HexTicks.MaskZero | mri/util.py:9-21 | the mask reaches 0 after exactly seven shifts, so the mask loop ends |
| HexTicks.MasksTried | mri/util.py:9-21 | the masks are 0xfffffff down to 0xf, each a power of sixteen minus one |
| HexTicks.ClearMask | mri/util.py:16 | the definition of `t & ~mask` for a mask of low one bits: t rounded down to a multiple of mask+1 |
| HexTicks.Masked | mri/util.py:16 | the definition of `tnew`: every tick masked |
| HexTicks.Distinct | mri/util.py:17-18 | the definition of `set(tnew)` |
| HexTicks.Accepts | mri/util.py:17 | the definition of the acceptance test: at least 0.45 times as many distinct masked values as ticks |
| HexTicks.ClearMaskRoundsDown | mri/util.py:16 | a masked tick is the tick rounded down to a multiple of mask+1 |
| HexTicks.MinAbove | mri/util.py:18-19 | the smallest value above a bound, present iff some value exceeds it |
| HexTicks.DistinctCount | mri/util.py:17-19 | `sorted(set(tnew))[1]` exists iff there are at least two distinct values, and is then the smallest above the minimum |
| HexTicks.PyRange | mri/util.py:19 | the definition of Python's `range(start, stop, step)` for a nonzero step |
| HexTicks.Regenerate | mri/util.py:18-19 | the definition of the accepted branch: IndexError for no ticks or one distinct masked value, ValueError for a zero step, else `range(0, ticks[-1], sorted(set(tnew))[1])` |
| HexTicks.MaskPhase | mri/util.py:15-21 | the definition of the mask loop from round i: the first accepted mask regenerates, none leaves the ticks |
| HexTicks.Snap | mri/util.py:9-21 | the definition of the mask loop from the widest mask |
| HexTicks.PyRangeShape | mri/util.py:19 | `range(start, stop, step)` is start, start+step, … all on the near side of stop, and the next would not be |
| HexTicks.Double | mri/util.py:26-27 | doubling gives twice as many ticks |
| HexTicks.Densify | mri/util.py:24-27 | the definition of the doubling loop: double while below six ticks, IndexError when fewer than two |
| HexTicks.DoubleShape | mri/util.py:26-27 | each tick is followed by itself plus half |
| HexTicks.FilterBelow | mri/util.py:30 | every kept tick is below max; a tick is kept iff it is below max |
| HexTicks.FilterKeepsAllBelow | mri/util.py:30 | ticks all below max pass the filter unchanged |
| HexTicks.HexTicks | mri/util.py:8-30 | the definition of the whole operation: truncate, snap, densify, filter below max, passing on the first error |
| HexTicks.RegenerateTicks | mri/util.py:18-19 | the accepted branch gives IndexError for no ticks or one distinct masked value, ValueError for a zero step, else the range |
| HexTicks.SnapTicks | mri/util.py:9-21 | the mask loop returns the outcome of the first accepted mask, or the ticks unchanged |
| HexTicks.DensifyTicks | mri/util.py:24-27 | the doubling loop computes the doubling outcome, IndexError below two ticks |
| HexTicks.GenerateHexTicks | mri/util.py:8-30 | the whole operation; every returned tick is below max |
| HexTicks.RejectedSkip | mri/util.py:15-21 | rounds whose mask is rejected leave the decision to the next round |
| HexTicks.NoMaskAccepted | mri/util.py:15-21 | if no mask is accepted the ticks are unchanged |
| HexTicks.FirstMaskAccepted | mri/util.py:15-20 | the first accepted mask decides the outcome |
| HexTicks.RegenerationStepAligned | mri/util.py:16-19 | the regeneration step is a multiple of mask+1 |
| HexTicks.RangeAligned | mri/util.py:19 | a range from 0 by a multiple of mask+1 holds only multiples of it |
| HexTicks.RegeneratedTicks | mri/util.py:16-20 | regenerated ticks are 0, s, 2s, … strictly before the old last tick, all multiples of mask+1, where s is the second-smallest distinct masked value |
| HexTicks.DensifyOutcome | mri/util.py:24-27 | below two ticks IndexError; otherwise the loop keeps every tick and ends with 6 to 11 ticks |
| HexTicks.HexTicksOutcome | mri/util.py:8-30 | fails iff snapping fails or leaves fewer than two ticks; otherwise returns every snapped tick below max and nothing else at or above max |
| HexTicks.SmallTicksRepeat | mri/util.py:14-30 | ticks 0, 1, 2 come back as 0, 0, 1, 1, 2, 2: not strictly increasing |
| ZeroFilter.Zip | mri/util.py:82 | `izip` stops at the shorter input |
| ZeroFilter.NonZero | mri/util.py:82 | the definition of `ifilter(lambda x: x[1] != 0.0, pairs)` |
| ZeroFilter.Unzip | mri/util.py:82 | the definition of `zip(*pairs)`: nothing for no pairs, else the column of axis points and the column of values |
| ZeroFilter.FilterZero | mri/util.py:81-82 | the definition of the whole of `filter_zero` |
| ZeroFilter.NonZeroAppend | mri/util.py:82 | filtering a concatenation filters its parts |
| ZeroFilter.NonZeroIndices | mri/util.py:82 | the filter keeps, in order, exactly the pairs whose value is nonzero |
| ZeroFilter.FilterZeroKeeps | mri/util.py:81-82 | the result is empty iff no value below the shorter length is nonzero; otherwise its two columns hold, in order, the axis point and value of exactly those indices |

## Left out

- `BLOCK_LEN` comes from the `_entropy` extension, which is not part of this model. It is modelled as a positive whole number, and `count/BLOCK_LEN` as true division. The source's `int(BLOCK_LEN)` casts indicate a float constant. Were it a C integer, Python 2 would floor `refs[q]/BLOCK_LEN` in `pointers_to_references`.
- Buckets.CondensePointers, BinaryPlugin.PointersToReferences, PePlugin.PointersToReferences: BLOCK_LEN and `factor` are required to be positive. A zero factor makes the source raise ZeroDivisionError, or ValueError in `xrange`; a negative factor makes the source return [], since `xrange(0, m+1, BLOCK_LEN*factor)` is then empty. Neither case is modelled; every caller passes a factor of 2.
- PePlugin.PointersToReferences: the PE parser is not part of this model.
  - `get_offset_from_rva` is a function parameter returning `None` where the parser raises PEFormatError.
  - `ImageBase` is a plain parameter.
  - Candidate lists come from the native scanner, which is not part of this model.
- PePlugin.GetBoundaries: the section table is a list of records with a byte-string name and two non-negative integers.
  - `sorted` is modelled as a stable insertion sort. The proved properties are descending order and permutation. Stability is part of the definition but is not stated as a separate property.
- Downsample.ScaleDown: the generator `values.next()` is modelled as a running index. StopIteration is proved not to occur, so it is not modelled.
- HexTicks.Accepts: `len(set(tnew)) >= 0.45*len(ticks)` is modelled as `20*distinct >= 9*len`. The double 0.45 is slightly above 0.45. Rounding could make the two tests differ only when 0.45·len is a whole number.
- HexTicks.ClearMask: `t & ~mask` is modelled as rounding down to a multiple of mask+1. That equals the bitwise form for masks of low one-bits under Python's two's-complement integers; the bitwise identity itself is not proved.
- HexTicks.GenerateHexTicks: the input ticks are reals, as the plotting library supplies them. The maximum is a real compared against the integer ticks.
- ZeroFilter.FilterZero: `zip(*pairs)` is modelled as no columns for an empty result, or the two columns. Python's tuples become sequences.
- Floating point in general: reals stand for floats; IEEE rounding is not modelled.
- Block scanning and entropy (`mri/entropy.py`, the plugins' scanning loops), graph drawing (`mri/graph.py`) and the plugins' top-level assembly of graph data are not part of this model.

## Findings

| source | as written | input that shows it | evidently intended | confidence | as-written member | corrected member |
|---|---|---|---|---|---|---|
| mri/util.py:57-70 | the straddling sample's weight `frac/num` is taken after `frac += width_frac`, so it is the fraction of the next bin's end rather than of this bin's end; bins then weigh unequal numbers of samples | `scale_down([0, 0, 3], 2)`: the first bin takes the first two samples whole (weight 2, mean 0); the second bin starts with count 0, takes nothing of the middle zero and only half of the 3 (weight 0.5), giving [0, 3] | every bin weighs len/num samples, sharing the straddling sample by the fraction of its own end, giving [0, 2] | not executed | Downsample.AsWrittenExample | Downsample.IntendedBinWidth |
