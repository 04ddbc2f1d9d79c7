# Quantised-weight codecs and the paged-KV block manager, verified

This project models the parts of the repository that carry real arithmetic, index algebra or
mutable state, and proves what they promise:

- the TurboQuant weight codec: sign flips, the in-place Walsh-Hadamard butterflies, group norms,
  Lloyd-Max cells, bit packing, the decoder, and the CUDA sign convention its parity script records;
- the W4A8 Marlin packer and its unpacker, the plain Marlin repack, and the re-pack of GPTQ weights;
- the two GPTQ layout converters (Rust loops and Python tensor expressions) and their reference product;
- the reference-counted block manager with its two free queues and its plan/commit swaps;
- symmetric group quantisation, the CUDA target list, the Wilson and McNemar arithmetic, and the GGUF
  scale unpacking and head re-interleaving.

Check everything with `dafny verify dfyconfig.toml`.

## How it is modelled

- Floats (fp16, bf16, f32, f64) are `real`, and casts between them are the identity, except in
  `HalfPrecision` and `HalfRange`, where quotients are rounded to binary32 and then to binary16.
  `sqrt` is a parameter: a function whose result squares to its argument, or a root handed in. Rounding is to
  the nearest integer, ties to even, as in torch and numpy.
- Integers have the widths of the original where it matters: the uint32/int32 casts around packed words,
  bytes below 256, 32-bit reference counts.
- Tensors are flat sequences in row-major order. A reshape changes nothing; every permute the repository
  uses is an exchange of two neighbouring axes; indexing by a list acts on fixed-size blocks.
- What a specification function computes is also stated without it, over the inputs themselves: the modules whose
  names end in Laws hold those statements.
- Loops that overwrite arrays are methods over arrays or reassigned sequences; each is tied to a
  specification function, and the theorems are about those functions. The block manager is a class whose
  methods are tied to one step function on values.
- `np.argsort` is a specification (an ordering of the positions that sorts the entries); that one exists
  for every list is proved, and that the argsort of a permutation is its inverse is proved.
- TurboQuant is modelled one output row at a time: every step of the original acts on the leading axis alike.
- A tensor error of the libraries (mismatched shapes, empty reductions, division by a zero group size) is an
  error result where the original would raise.

## What the code does that its comments do not say

- `fwht` accepts length 0: the guard `n & (n - 1) == 0` holds there (`Bits.PowerOfTwoGuard` covers the rest).
- The interleave used when the group size is the whole column is not a pure rearrangement of index bits:
  it also complements the block bit (`MarlinPerms.PermTableBits`), so it starts with 8 where every rearrangement of
  bits starts with 0 (`MarlinPerms.WholeColumnStart`). Both tables are permutations all the same.
- The header of `scripts/diag_gptq_w4a8_magic_num_bound.py` states the bound as 127/7; its code, and the
  packer, use 16. Sixteen is right and is the largest safe value (`KernelRange.SafeIff`). The same script
  floors the channel maximum at 1e-6, where the packer only replaces an exact zero; the packer is modelled.
- The naive scale branch leaves the kernel's range for some channels, and which ones depends on the channel maximum
  alone. Counted in steps of 2^-24, let s be the scale of the group that holds the maximum t and c the channel
  scale, both rounded to half precision, c being 1.0 when it rounds to zero. Every product of the channel is in range
  exactly when 128 s <= 2341 c (`HalfRange.ChannelIff`, `HalfRange.HalfSafe`); from 64 steps up to 14335,
  s = (t + 3) / 7 and c = (t + 63) / 127, rounded down. The condition holds below 130 steps, fails at 130 and
  again at 7936 (7.7e-6 and 4.7e-4), and holds from 7938 steps on.
- In that branch a level can be 0, and the clamp can act, in half precision: exactly for groups whose maximum is
  15, 16, 17, 23, 24, 30, 31, 38 or 45 steps (`HalfRange.LevelsIff`, `HalfRange.NineMaxima`).
- As a formula over the reals the same branch behaves otherwise: it is in range above the 1e-6 floor
  (`KernelRange.NaiveSafe`) and leaves the range for some channels below it (`PackedRange.BelowFloorChannelIff`).
- The CUDA sign convention is not noise: it decodes each group as if its centroids had been stored in reverse
  order, so it agrees with the encoder exactly on groups whose centroids read the same backwards
  (`TurboQuant.BugAgreesIff`).
- `free` and `pin` do not defend the invariant: freeing a block more often than it is held, or pinning a free
  one, breaks it, and so does committing a swap of shared blocks or committing one plan twice. The exact
  conditions are `BlockLedger.FreeKeepsIff`, `BlockLedger.PinKeepsIff` and `BlockRuns.StepKeepsIff`, and a new
  manager is the smallest instance (`BlockManagement.FreshBreaks`).
- A comment in `commit_swap_out` says the CPU block inherits the GPU block's reference count; it keeps the 1
  it got from the allocation.
- Requantising a 2-bit reconstruction gives another scale or other codes unless some element reaches minus three
  quarters of the maximum, or the group is at the floor (`Symmetric.TwoBitIdempotentIff`); the group of the single
  element 1 has scale 0.5, and its reconstruction 0.25 (`Symmetric.TwoBitChanges`).
- The loop of `reinterleave_rows` does not write every row when the head count is odd or does not divide the rows
  (`Reinterleave.AllWrittenIff`); what its writes settle leaves such a row open (`Reinterleave.UnwrittenRow`).
  `reinterleave_1d` raises on odd lengths above one.
- The two GPTQ converters agree on more than zero points of 7: wherever the clamp hides the difference
  (`GptqAgree.LevelAgreesIff`).
- `12.0` and `1.20` name the same target (`ArchTokens.DotAnywhere`).

## Model

| member | source | states |
|---|---|---|
| Bits.PowerOfTwoGuard | scripts/turboquant_weights.py:45 | the size guard admits a positive length exactly when it is a power of two |
| Bits.Pow2Is | scripts/turboquant_weights.py:45 | every power of two is one of the lengths the guard admits |
| Bits.ShrLaw | scripts/turboquant_weights.py:142-152 | shifting right divides by a power of two, and the bits shifted out are the remainder |
| Bits.BitLaw | bench-output/2026-05-21-qwen35-9b-tq4-fwht-fix/turboquant_tensor_local_parity.py:118-130 | bit k of and, or and exclusive-or is that of the bits |
| Walsh.WhtConcat | scripts/turboquant_weights.py:47-54 | the Hadamard transform of two halves laid end to end is one butterfly across their transforms |
| Walsh.WhtParseval | scripts/turboquant_weights.py:42-56 | the Hadamard matrix is orthogonal: inner products of transforms are n times inner products |
| Walsh.WhtTwice | scripts/turboquant_weights.py:42-56 | the unnormalised transform applied twice is multiplication by n |
| CodecLaws.WhtLaw | scripts/turboquant_weights.py:46-54 | the transform of two halves is, element by element, the sum and the difference of theirs |
| CodecLaws.WhtFour | scripts/turboquant_weights.py:42-56 | four numbers transformed, written out |
| Fwht.ButterflyBlock | scripts/turboquant_weights.py:49-53 | the innermost loop replaces each pair of a block by its sum and difference and touches nothing else |
| Fwht.StageMergesBlocks | scripts/turboquant_weights.py:48-54 | a pass over transformed blocks of h gives the transformed blocks of 2h, in either sign convention |
| Fwht.ButterflyPass | scripts/turboquant_weights.py:48-53 | the in-place pass is exactly one stage over the whole array |
| Fwht.FwhtPasses | scripts/turboquant_weights.py:46-54 | the three nested loops terminate with the Hadamard matrix times the input |
| Fwht.FwhtNumpy | scripts/turboquant_weights.py:42-56 | the array ends as the matrix product over the root of its length |
| Rotation.RotateAt | scripts/turboquant_weights.py:42-56 | element i times the root is the sum of (-1)^popcount(i and j) x[j] |
| Rotation.RotateTwice | scripts/turboquant_weights.py:42-56 | the normalised transform is its own inverse |
| Rotation.RotateIsometry | scripts/turboquant_weights.py:42-56 | it preserves every inner product |
| Fwht.FlipButterfly | bench-output/2026-05-21-qwen35-9b-tq4-fwht-fix/turboquant_tensor_local_parity.py:121-129 | flipping signs by index parity turns a butterfly into one with the upper difference reversed |
| Fwht.LaneIsStage | bench-output/2026-05-21-qwen35-9b-tq4-fwht-fix/turboquant_tensor_local_parity.py:123-127 | exchanging with the lane that differs in one bit is one stage of block butterflies |
| Fwht.LaneExchangeFwht | bench-output/2026-05-21-qwen35-9b-tq4-fwht-fix/turboquant_tensor_local_parity.py:118-130 | the lane loop returns the transform with index i multiplied by (-1)^popcount(i) |
| Rotation.SignBugAt | bench-output/2026-05-21-qwen35-9b-tq4-fwht-fix/turboquant_tensor_local_parity.py:118-130 | element by element, the buggy transform is the faithful one times (-1)^popcount(i) |
| Rotation.ParityLaw | bench-output/2026-05-21-qwen35-9b-tq4-fwht-fix/turboquant_tensor_local_parity.py:118-130 | the sign of an index is +1 at 0 and changes with every bit set |
| Rotation.RevLaw | bench-output/2026-05-21-qwen35-9b-tq4-fwht-fix/turboquant_tensor_local_parity.py:118-130 | the reversal the buggy decoder amounts to |
| Rotation.FlipIsReversal | bench-output/2026-05-21-qwen35-9b-tq4-fwht-fix/turboquant_tensor_local_parity.py:118-130 | flipping signs by index parity after the transform is reversing the input before it |
| Rotation.BugReverses | bench-output/2026-05-21-qwen35-9b-tq4-fwht-fix/turboquant_tensor_local_parity.py:118-130 | the buggy transform is the faithful one of the reversed input |
| TurboQuant.BugDecodeAt | bench-output/2026-05-21-qwen35-9b-tq4-fwht-fix/turboquant_tensor_local_parity.py:90-132 | the buggy decoder negates exactly the elements whose index has odd parity |
| TurboQuant.BugDecodesReversed | bench-output/2026-05-21-qwen35-9b-tq4-fwht-fix/turboquant_tensor_local_parity.py:90-132 | the buggy decoder decodes a group's centroids in reverse order |
| TurboQuant.BugAgreesIff | bench-output/2026-05-21-qwen35-9b-tq4-fwht-fix/turboquant_tensor_local_parity.py:90-132 | the two decoders agree on a group exactly when its chosen centroids read the same backwards |
| LloydMax.MidpointsFit | scripts/turboquant_weights.py:84-85 | midpoints of ordered centroids ascend from -1 to 1 and enclose each centroid in its cell |
| LloydMax.UpdateBoundaries | scripts/turboquant_weights.py:84-85 | the loop leaves exactly the midpoints |
| LloydMax.MeansFit | scripts/turboquant_weights.py:88-95 | cell means, cells skipped by a continue included, stay in their cells |
| LloydMax.UpdateCentroids | scripts/turboquant_weights.py:88-95 | the loop leaves exactly the cell means |
| LloydMax.LloydInRange | scripts/turboquant_weights.py:82-95 | after every number of iterations the centroids ascend inside [-1, 1] |
| LloydMax.LloydKeeps | scripts/turboquant_weights.py:82-95 | and each lies in its own cell of the last boundaries |
| LloydMax.LloydMaxCodebook | scripts/turboquant_weights.py:59-97 | the loops return the iterated centroids and boundaries, which form a codebook |
| CodebookLaws.InitialLaw | scripts/turboquant_weights.py:77 | levels times (initial centroid plus one) is the odd number 2 i + 1 |
| CodebookLaws.BoundaryLaw | scripts/turboquant_weights.py:82-85 | twice a boundary is the sum of the two centroids of the iteration before; the ends are -1 and 1 |
| CodebookLaws.MeanLaw | scripts/turboquant_weights.py:88-95 | new centroid times mass is the moment for a cell 1e-15 wide with more than 1e-30 of mass; otherwise the centroid stays |
| LloydMax.CellContains | scripts/turboquant_weights.py:138-140 | the search on interior boundaries finds the one cell holding x, and the clip never changes it |
| CodebookLaws.SearchLaw | scripts/turboquant_weights.py:136-140 | the index of x has the midpoint below it less than x and the one above not |
| CodebookLaws.NearestCentroid | scripts/turboquant_weights.py:136-140 | among the midpoints of ordered centroids, the index names a centroid nearest to x |
| PackedFields.PackAppend | scripts/turboquant_weights.py:152 | or-ing a shifted value above the stored fields appends it |
| PackedFields.PackField | bench-output/2026-05-21-qwen35-9b-tq4-fwht-fix/turboquant_tensor_local_parity.py:81 | shift and mask read every stored field back |
| PackedFields.PackOfFields | scripts/turboquant_weights.py:142-152 | a word is the packing of its own fields |
| PackedFields.FieldLaw | bench-output/2026-05-21-qwen35-9b-tq4-fwht-fix/turboquant_tensor_local_parity.py:81 | a field is the quotient by the fields below it, modulo its size |
| BytePacking.PackBytesSnoc | scripts/turboquant_weights.py:148-152 | storing one more index opens a byte or ors into the last one |
| BytePacking.PackRow | scripts/turboquant_weights.py:142-152 | the or-loop leaves exactly the packed bytes of the masked indices |
| BytePacking.UnpackRow | bench-output/2026-05-21-qwen35-9b-tq4-fwht-fix/turboquant_tensor_local_parity.py:77-81 | the decoder's loop reads exactly the indices the bytes store |
| BytePacking.PackedRowStores | scripts/turboquant_weights.py:142-152 | every index of every row length reads back from the packed bytes |
| BytePacking.PackBytesWidth | scripts/turboquant_weights.py:145 | the row width is the bit count rounded up to bytes, and every entry is a byte |
| CodecLaws.TwoBitRow | scripts/turboquant_weights.py:142-152 | at two bits a row takes a quarter of its indices in bytes, rounded up, and each byte is four of them in base 4 |
| CodecLaws.FourBitRow | scripts/turboquant_weights.py:142-152 | at three and four bits it takes half, rounded up, and each byte is two of them in base 16 |
| CodecLaws.MaskedLaw | scripts/turboquant_weights.py:151-152 | the mask takes the remainder by the size of a field |
| BytePacking.InferredWidthTwoBit | infer/examples/turboquant_weight_dequant_dump.rs:69-71 | two bits: the inferred K is the real one exactly when the indices fill whole bytes |
| BytePacking.InferredWidthFourBit | infer/examples/turboquant_weight_dequant_dump.rs:69-71 | four bits: the inferred K is the real one exactly when the indices fill whole bytes |
| TurboQuant.GroupError | scripts/turboquant_weights.py:119-134 | squared weight error is norm squared times squared distance from normalised rotated values to the chosen centroids |
| CodecLaws.DistanceLaw | scripts/turboquant_weights.py:119-134 | a squared distance is the sum of the squared differences |
| TurboQuant.NormedInRange | scripts/turboquant_weights.py:128-133 | normalised rotated values lie in [-1, 1], the floored norm included |
| TurboQuant.ChosenInCell | scripts/turboquant_weights.py:136-140 | the chosen centroid and the value it stands for share a cell |
| TurboQuant.RotateRow | scripts/turboquant_weights.py:119-126 | the group loop rotates every sign-flipped group |
| TurboQuant.QuantizeRow | scripts/turboquant_weights.py:100-157 | the encoder writes the floored norms and the packed cell indices of the rotated row |
| TurboQuant.RowNorms | scripts/turboquant_weights.py:119-131 | each stored scale squares to the squared norm of its own original weights, or is 1e-10 when that norm is smaller |
| CodecLaws.UnitLaw | scripts/turboquant_weights.py:128-133 | a normalised group has squared norm 1 unless floored |
| CodecLaws.CellLaw | scripts/turboquant_weights.py:128-140 | each index is the cell of the rotated value over its group scale |
| CodecLaws.RotatedLaw | scripts/turboquant_weights.py:119-126 | root times a rotated value is the transform of the sign-flipped weights |
| CodecLaws.GroupLaw | scripts/turboquant_weights.py:122-126 | group g of a row is its g-th block |
| TurboQuant.DequantRow | bench-output/2026-05-21-qwen35-9b-tq4-fwht-fix/turboquant_tensor_local_parity.py:62-132 | both decoders rebuild every group from its stored indices, scale and signs |
| CodecLaws.DecodeLaw | bench-output/2026-05-21-qwen35-9b-tq4-fwht-fix/turboquant_tensor_local_parity.py:62-132 | root times a decoded weight is the transform of the scaled centroids times the sign |
| TurboQuant.StoredIndices | scripts/turboquant_weights.py:142-152 | a row of cell indices survives packing and unpacking, group by group |
| TurboQuant.RoundTripRow | scripts/turboquant_weights.py:100-157 | encode then decode: the cells come back, every group meets the error identity, and with a codebook its squared error is at most squared norm times the squared widths of its cells |
| TurboQuant.ErrorWithinCells | scripts/turboquant_weights.py:119-140 | with a codebook, a group's squared weight error is at most its squared norm times the sum of the squared widths of the cells chosen for it |
| Tensors.ArgSortExists | scripts/diag_w4a8_pack_roundtrip.py:192 | every list has an argsort |
| Tensors.ArgSortInverts | scripts/diag_w4a8_pack_roundtrip.py:192 | the argsort of a permutation is its inverse |
| Tensors.PermuteBlocksBack | scripts/diag_w4a8_pack_roundtrip.py:191-194 | indexing blocks by the argsort undoes indexing them by the permutation |
| Tensors.SwapAxesBack | scripts/diag_w4a8_pack_roundtrip.py:205-207 | the tile permute is undone by the same permute on the exchanged shape |
| MarlinPerms.GetPerms | scripts/quantize_qwen3_w4a8.py:50-81 | the loops build the closed-form tables, in both row patterns and both interleaves |
| MarlinPerms.RearrangeBack | scripts/marlin_repack.py:25-45 | rearranging the bits of an index is undone by the inverse rearrangement |
| MarlinPerms.PermTableBits | scripts/quantize_qwen3_w4a8.py:51-74 | every table entry is its index with the ten bits rearranged, the block bit complemented in the whole-column case |
| LayoutLaws.TableLaw | scripts/quantize_qwen3_w4a8.py:51-74 | the table entry of every thread, part and place, as rows, columns and tiles |
| LayoutLaws.ScaleTableLaw | scripts/quantize_qwen3_w4a8.py:75-77 | the group-scale table transposes an 8 by 8 square |
| LayoutLaws.SingleTableLaw | scripts/quantize_qwen3_w4a8.py:78-80 | the channel-scale table takes pairs eight apart |
| MarlinPerms.WholeColumnStart | scripts/quantize_qwen3_w4a8.py:51-74 | the whole-column table starts with 8, which no rearrangement of index bits does |
| MarlinPerms.PermTablePermutes | scripts/marlin_repack.py:25-45 | every variant of the table is a permutation of 0..1023 |
| MarlinPerms.ScaleTableInvolution | scripts/quantize_qwen3_w4a8.py:75-77 | the group-scale table is a permutation and its own inverse |
| MarlinPerms.SingleTablePermutes | scripts/quantize_qwen3_w4a8.py:78-80 | the channel-scale table is a permutation of 0..31 |
| Nibbles.PackNibbles | scripts/quantize_qwen3_w4a8.py:163-167 | eight strided passes and the signed cast store eight nibbles to a word |
| Nibbles.UnpackNibbles | scripts/diag_w4a8_pack_roundtrip.py:183-186 | the strided loop reads every nibble of the words |
| Nibbles.NibblesBack | scripts/diag_w4a8_pack_roundtrip.py:183-186 | every nibble survives the words and the sign of the cast |
| Nibbles.NibbleAtLaw | scripts/diag_w4a8_pack_roundtrip.py:182-190 | a nibble of a stored word is a digit of the word, plus 2^32 if negative, in base 16 |
| Nibbles.StoredRange | scripts/quantize_qwen3_w4a8.py:164-167 | stored words are 32-bit signed numbers |
| W4A8.IntLayoutAt | scripts/quantize_qwen3_w4a8.py:144-151 | the element at (k, n) is that weight quantised by its own group's scale |
| W4A8.UntiledTiled | scripts/quantize_qwen3_w4a8.py:159-162 | untiling after tiling and permuting gives the integers back |
| W4A8RoundTrip.PackW4a8 | scripts/quantize_qwen3_w4a8.py:93-168 | every shape check in order, and otherwise a tensor holding the tiled integers and both permuted scale lists |
| ScaleLaws.NaiveScaleLaw | scripts/quantize_qwen3_w4a8.py:137-138 | seven times a naive working scale bounds the magnitudes of its own group and 1e-6, and equals one of them |
| ScaleLaws.ChannelScaleLaw | scripts/quantize_qwen3_w4a8.py:112-115 | 127 channel scales bound the magnitudes of the channel and equal one; a zero channel has scale 1 |
| ScaleLaws.CalibratedScaleLaw | scripts/quantize_qwen3_w4a8.py:117-135 | a calibrated working scale is the smaller of the given one and sixteen channel scales |
| ScaleLaws.LevelLaw | scripts/quantize_qwen3_w4a8.py:144-148 | a level is the nearest of the sixteen to the weight over its scale, ties to even |
| LayoutLaws.PackedNibbleLaw | scripts/quantize_qwen3_w4a8.py:144-167 | where in the words the level of each weight stands, and under which scale |
| LayoutLaws.PackedScaleLaw | scripts/quantize_qwen3_w4a8.py:150-153 | where each working scale over its channel scale stands |
| LayoutLaws.PackedChannelLaw | scripts/quantize_qwen3_w4a8.py:154-157 | where each channel scale stands |
| W4A8RoundTrip.ManualUnpack | scripts/diag_w4a8_pack_roundtrip.py:159-247 | the unpacker computes the layout inverse and the dequantised product |
| W4A8RoundTrip.UnpackInvertsPack | scripts/diag_w4a8_pack_roundtrip.py:182-247 | unpacking gives, at every position of every accepted shape, the clamped rounded level times that position's own group scale |
| ScaleLaws.UnpackedLaw | scripts/diag_w4a8_pack_roundtrip.py:182-247 | an unpacked weight is its level less eight, times the working scale of its own group |
| W4A8RoundTrip.PackThenUnpack | scripts/diag_w4a8_pack_roundtrip.py:159-247 | the two calls in a row return those levels, for either scale branch |
| KernelRange.SafeIff | scripts/diag_gptq_w4a8_magic_num_bound.py:31-34 | a stored scale keeps all sixteen levels in [1024, 1280) exactly when it is above -16 and at most 16 |
| KernelRange.RangeLaw | scripts/diag_gptq_w4a8_magic_num_bound.py:31-34 | the range of a product is -128 up to but excluding 128 |
| KernelRange.StoredProductLaw | scripts/diag_gptq_w4a8_magic_num_bound.py:31-34 | a product is the level less eight times the stored scale |
| KernelRange.CappedSafeIff | scripts/quantize_qwen3_w4a8.py:127-135 | the cap makes a calibrated scale safe exactly when it is above -16 channel scales |
| KernelRange.NaiveLevel | scripts/quantize_qwen3_w4a8.py:136-148 | over the reals, a max-scaled level never reaches 0, so the clamp never acts |
| KernelRange.NaiveSafe | scripts/quantize_qwen3_w4a8.py:113-150 | over the reals, naive products stay in range for channels that are zero or reach the floor |
| KernelRange.BelowFloorSafeIff | scripts/quantize_qwen3_w4a8.py:137-150 | over the reals, for a channel below the floor, the exact condition under which its formula stays in range |
| KernelRange.BelowFloorUnsafe | scripts/quantize_qwen3_w4a8.py:137-150 | a channel below the floor at which the formula over the reals leaves the range |
| HalfPrecision.NearestError | scripts/quantize_qwen3_w4a8.py:112-150 | rounding is off by half a unit below the significant digits' range and by half a unit in the last place above it |
| HalfPrecision.ValueMonotone | scripts/quantize_qwen3_w4a8.py:112-150 | a quotient rounded to binary32 and then to binary16 keeps its order |
| HalfPrecision.NearestDigits | scripts/quantize_qwen3_w4a8.py:112-150 | a rounded number is an integer of at most the format's digits, doubled some times |
| HalfPrecision.FormatLaw | scripts/quantize_qwen3_w4a8.py:112-150 | binary16 keeps eleven digits in steps of 2^-24, binary32 twenty-four in steps of 2^-149 |
| HalfPrecision.SingleInLaw | scripts/quantize_qwen3_w4a8.py:112-150 | a quotient in single precision is a rounded number of its units |
| HalfRange.FloorSteps | scripts/quantize_qwen3_w4a8.py:138 | the scale floor 1e-6 is 17 steps in half precision |
| HalfRange.GroupScaleIs | scripts/quantize_qwen3_w4a8.py:138 | the scale of a group maximum of m steps below 14336 is a seventh of it, floored at 17 steps, to the nearest step |
| HalfRange.ChannelStepsIs | scripts/quantize_qwen3_w4a8.py:112-115 | the channel scale is the maximum over 127 to the nearest step, and one below 64 steps |
| HalfRange.LevelsIff | scripts/quantize_qwen3_w4a8.py:136-148 | in half precision the levels of a group miss 0 and the clamp leaves them alone exactly when twice its maximum is below fifteen of its scales |
| HalfRange.NineMaxima | scripts/quantize_qwen3_w4a8.py:136-148 | that fails for nine group maxima and no others |
| HalfRange.LevelReachesZero | scripts/quantize_qwen3_w4a8.py:136-148 | at a maximum of 17 steps, above the floor, one end gets level 0 and the other is clamped from 16 |
| HalfRange.ChannelIff | scripts/quantize_qwen3_w4a8.py:112-150 | in half precision every product of a channel is in range exactly when the condition on its maximum holds |
| HalfRange.ProductLaw | scripts/quantize_qwen3_w4a8.py:112-150 | the product of a weight is that of its level and the rounded ratio of the scale of its own group's peak to that of its channel's |
| HalfRange.ChainLaw | scripts/quantize_qwen3_w4a8.py:112-150 | scales, ratio and stored scale as rounded quotients |
| HalfRange.LevelIs | scripts/quantize_qwen3_w4a8.py:146-148 | the rounded ratio plus eight, clamped to 0..15 |
| HalfRange.HalfSafeIs | scripts/quantize_qwen3_w4a8.py:112-150 | the condition in closed form, from 64 to 14335 steps |
| HalfRange.SafeBelow | scripts/quantize_qwen3_w4a8.py:112-150 | the condition holds for every maximum below 130 steps, the scale floor included |
| HalfRange.SafeAbove | scripts/quantize_qwen3_w4a8.py:112-150 | the condition holds for every maximum from 7938 steps on, subnormal or not |
| HalfRange.Failing | scripts/quantize_qwen3_w4a8.py:112-150 | it fails at 130, 185 and 7936 steps |
| HalfRange.HalfNumbers | scripts/quantize_qwen3_w4a8.py:105 | those three are half-precision numbers, and 7937 is not |
| HalfRange.CalibratedSafe | scripts/quantize_qwen3_w4a8.py:127-150 | in half precision a non-negative scale within the cap stores at most 16, safe for every level |
| Repack.CalibratedInRange | scripts/quantize_qwen3_w4a8.py:117-150 | every stored scale of a calibrated tensor with positive scales is safe for all levels |
| Repack.NaiveInRange | scripts/quantize_qwen3_w4a8.py:136-150 | over the reals, every product of the naive formula is in range when its channel is zero or reaches the floor |
| PackedRange.KernelProductIs | scripts/quantize_qwen3_w4a8.py:140-168 | level times scale read back from a packed tensor is that of the weight's level and its working scale over its channel scale |
| PackedRange.CalibratedProductInRange | scripts/quantize_qwen3_w4a8.py:117-150 | every product read back from a tensor packed with positive calibrated scales is in the kernel's range |
| PackedRange.NaiveProductStored | scripts/quantize_qwen3_w4a8.py:136-150 | the product read back from a tensor packed without scales is the naive formula's |
| PackedRange.NaiveProductInRange | scripts/quantize_qwen3_w4a8.py:136-150 | over the reals, that product is in range when the channel is zero or reaches the floor |
| PackedRange.BelowFloorChannelIff | scripts/quantize_qwen3_w4a8.py:136-150 | over the reals, all naive products of a channel below the floor are in range exactly when its maximum does not round up too far |
| ScaleLaws.PackThenUnpackNaive | scripts/diag_w4a8_pack_roundtrip.py:15-26 | packed without scales and unpacked, every weight is off by at most a fourteenth of 1e-6 or of a magnitude of its own group, over the reals |
| PackedRange.RepackedUnpacks | scripts/convert_gptq_w4a16_to_w4a8_marlin.py:46-63 | unpacking a re-packed tensor gives every decoded weight exactly within the cap, off by at most fifteen channel scales above it |
| PackedRange.RepackThenUnpack | scripts/convert_gptq_w4a16_to_w4a8_marlin.py:46-63 | decode, re-pack and unpack in a row do that for every accepted shape |
| Repack.UnpackBytes | scripts/convert_gptq_w4a16_to_w4a8_marlin.py:51-55 | the even and odd column stores rebuild every nibble |
| Repack.DecodedLaw | scripts/convert_gptq_w4a16_to_w4a8_marlin.py:46-60 | a decoded weight is its nibble less eight, times the scale of its group |
| Repack.RepackedLevel | scripts/quantize_qwen3_w4a8.py:134-148 | a scale within the cap gives the original level back; a capped one moves the weight by at most fifteen channel scales |
| Repack.RepackPreserves | scripts/convert_gptq_w4a16_to_w4a8_marlin.py:46-63 | the level a decoded weight is given: its original nibble and weight within the cap, off by at most fifteen channel scales above it; under a zero scale the weight, which is zero, comes back |
| Repack.RepackW4A16 | scripts/convert_gptq_w4a16_to_w4a8_marlin.py:46-63 | decode and re-pack holds the decoded weights under the passed-through scales, exactly for accepted shapes |
| MarlinRepack.RepackWeight | scripts/marlin_repack.py:59-114 | unsuitable shapes give nothing; others the tiled nibble words and permuted scales |
| MarlinRepack.RepackLossless | scripts/marlin_repack.py:76-114 | every nibble and every scale can be recovered for every accepted shape |
| LayoutLaws.RepackedNibbleLaw | scripts/marlin_repack.py:76-105 | where in the words each nibble of the input bytes stands |
| LayoutLaws.RepackedScaleLaw | scripts/marlin_repack.py:107-114 | where each scale stands |
| MarlinRepack.IntWeightsAt | scripts/marlin_repack.py:80-88 | element (k, n) of the transposed integers is nibble (n, k) of the bytes |
| Gptq.SetNibbleIs | infer/examples/gptqmodel_w4_gemv_parity.rs:392-396 | storing one half of a byte writes that half and keeps the other |
| Gptq.StoreNibble | infer/examples/gptqmodel_w4_gemv_parity.rs:390-396 | in a byte row, storing nibble p changes nibble p alone |
| GptqConvert.ConvertNibbles | infer/examples/gptqmodel_w4_gemv_parity.rs:384-398 | the read-modify-write loops leave every (row, k) nibble equal to the source word's |
| GptqConvert.TransposeScales | infer/examples/gptqmodel_w4_gemv_parity.rs:400-406 | the scale loops transpose the scales |
| GptqConvert.ConvertLayout | infer/examples/gptqmodel_w4_gemv_parity.rs:368-411 | shape error, short-buffer error, or a converted layout |
| GptqLaws.WordLaw | infer/examples/gptqmodel_w4_gemv_parity.rs:472-478 | a word has its lowest byte first |
| GptqLaws.ConvertedLaw | infer/examples/gptqmodel_w4_gemv_parity.rs:384-398 | nibble (row, k) of the layout is nibble 8 w + k % 8 of the source bytes, w the word (k / 8, row) |
| GptqLaws.ConvertedScaleLaw | infer/examples/gptqmodel_w4_gemv_parity.rs:400-406 | scale (row, g) of the layout is the source's (g, row) |
| GptqConvert.CpuReference | infer/examples/gptqmodel_w4_gemv_parity.rs:413-439 | a wrong input length is refused; otherwise every row's reference sum, or the first word or scale, row by row, that is missing |
| GptqLaws.ReferenceLaw | infer/examples/gptqmodel_w4_gemv_parity.rs:426-436 | the sum gains, for each input, (nibble less eight) times scale times input, the nibble counted in the source bytes |
| GptqLaws.MissingLaw | infer/examples/gptqmodel_w4_gemv_parity.rs:430-433 | a short word buffer is reported before a short scale buffer, with the index |
| GptqLaws.IndexLaw | infer/examples/gptqmodel_w4_gemv_parity.rs:430-433 | words and scales are indexed row-major |
| GptqConvert.ProductsAgree | infer/examples/gptqmodel_w4_gemv_parity.rs:368-439 | a product over the converted layout equals the reference product |
| GptqAgree.SignedNibbleIs | scripts/convert_gptq.py:46 | shifting the signed word and masking reads the same nibble as the unsigned word |
| GptqLaws.PythonLaw | scripts/convert_gptq.py:46-70 | every nibble the Python converter writes, for every zero point, and which nibbles of which words it comes from |
| GptqLaws.PythonScaleLaw | scripts/convert_gptq.py:65-66 | its scales are transposed |
| GptqLaws.PythonSizeLaw | scripts/convert_gptq.py:69-73 | two nibbles to a byte, and every entry a byte |
| GptqAgree.LevelAgreesIff | scripts/convert_gptq.py:56-70 | the shifted and clamped level is the stored nibble exactly when the zero point is 7 or the clamp hides it |
| GptqAgree.ConvertersAgreeIff | scripts/convert_gptq.py:34-73 | the Rust and Python conversions have the same scales, and the same bytes exactly when every element agrees |
| GptqZeros.ValidateQzeros | infer/examples/gptqmodel_w4_gemv_parity.rs:304-334 | reports whether all zero points are 7, and the first eight that are not |
| GptqLaws.ReportLaw | infer/examples/gptqmodel_w4_gemv_parity.rs:304-334 | the report lists, in order, exactly the nibbles of the buffer that are not 7, up to eight |
| GptqZeros.CleanZerosAgree | scripts/convert_gptq.py:34-73 | a layer that passes the validator converts to the same layout either way |
| BlockLedger.TakeKeeps | infer/src/block_manager.rs:186-204 | allocation hands out the queue's front, each block held once, and keeps the allocator consistent |
| BlockLedger.FreeKeepsIff | infer/src/block_manager.rs:233-246 | freeing keeps consistency exactly when no block is freed more often than it is held |
| BlockLedger.PinKeepsIff | infer/src/block_manager.rs:253-260 | pinning keeps consistency exactly when every pinned block is already held |
| BlockLedger.ReleaseKeeps | infer/src/block_manager.rs:294-307 | committing keeps consistency for distinct, unshared blocks of the source location |
| BlockLedger.ReleaseNeeds | infer/src/block_manager.rs:294-307 | committing anything else loses consistency |
| BlockRuns.StepKeepsIff | infer/src/block_manager.rs:186-338 | each operation keeps consistency exactly when it obeys the ownership discipline |
| BlockRuns.RunKeepsIff | infer/src/block_manager.rs:186-338 | over every run, counts equal handles and free lists are exact after each call exactly when every call was legal |
| BlockRuns.RunConsistentAtEnd | infer/src/block_manager.rs:186-338 | the state and the handles at the end of such a run are consistent |
| BlockRuns.RunFifo | infer/src/block_manager.rs:186-246 | over every run, blocks are handed out in the order they were queued |
| BlockRuns.Conservation | infer/src/block_manager.rs:150-164 | free plus held blocks of a location are all its blocks |
| BlockRuns.RunLocated | infer/src/block_manager.rs:150-164 | no run changes which blocks a location has |
| BlockSwaps.MoveKeeps | infer/src/block_manager.rs:277-338 | one plan and one commit keep consistency and move exactly as many blocks as planned |
| BlockSwaps.MovedOwner | infer/src/block_manager.rs:277-338 | the mover is the sole owner of the destination blocks |
| BlockSwaps.SwapOutAndIn | infer/src/block_manager.rs:277-338 | out and back in: no failure on the way back, both free counts restored, every other handle untouched |
| BlockSwaps.RunSparesOwner | infer/src/block_manager.rs:186-338 | through any legal run of calls that spare a plan's source blocks, sole ownership survives, so the commit stays legal |
| BlockSwaps.PlanRunCommit | infer/src/block_manager.rs:277-338 | a plan, any such run and the commit leave the allocator consistent |
| BlockSwaps.SecondCommitBreaks | infer/src/block_manager.rs:294-307 | committing one plan twice breaks the allocator |
| BlockManagement.FreshConsistent | infer/src/block_manager.rs:92-134 | a new manager is consistent with no handles outstanding |
| BlockLaws.FreshLaw | infer/src/block_manager.rs:92-134 | GPU blocks numbered from 0, CPU blocks after them, all unreferenced and queued in order |
| BlockManagement.FreshBreaks | infer/src/block_manager.rs:233-260 | on a new manager, freeing or pinning its first block is already inconsistent |
| BlockManagement.BlockManager.constructor | infer/src/block_manager.rs:92-134 | the two loops build that state |
| BlockManagement.BlockManager.AllocateGpu | infer/src/block_manager.rs:186-204 | the front of the queue, or an error and no change |
| BlockManagement.BlockManager.AllocateCpu | infer/src/block_manager.rs:207-225 | the front of the queue, or an error and no change |
| BlockLaws.TakeLaw | infer/src/block_manager.rs:186-225 | the front of one queue, one reference each; nothing else changes |
| BlockManagement.BlockManager.Free | infer/src/block_manager.rs:233-246 | the loop does the ledger's free step, consistent exactly when legal |
| BlockLaws.FreeLaw | infer/src/block_manager.rs:233-246 | freeing one more block takes one reference off it and queues it at its own location when none is left; nothing else changes |
| BlockManagement.BlockManager.Pin | infer/src/block_manager.rs:253-260 | the loop does the ledger's pin step, consistent exactly when legal |
| BlockLaws.PinLaw | infer/src/block_manager.rs:253-260 | pinning one more block adds one reference to it and changes nothing else |
| BlockManagement.BlockManager.PlanSwapOut | infer/src/block_manager.rs:277-288 | each block paired with the CPU block of the same place in the queue, or an error and no change |
| BlockManagement.PlannedBlocks | infer/src/block_manager.rs:277-323 | the blocks a plan hands out are distinct, at its destination, and have one reference each |
| BlockManagement.BlockManager.CommitSwapOut | infer/src/block_manager.rs:294-307 | the loop does the ledger's commit step, consistent exactly when legal |
| BlockLaws.CommitLaw | infer/src/block_manager.rs:294-338 | the source blocks, in order, at the end of the source queue without a reference; nothing else changes |
| BlockLaws.StepLaw | infer/src/block_manager.rs:186-338 | each call is one of these steps, and an allocation the queue cannot cover changes nothing |
| BlockLaws.SourcesLaw | infer/src/block_manager.rs:294-307 | a commit releases the first halves of its pairs |
| BlockManagement.BlockManager.PlanSwapIn | infer/src/block_manager.rs:312-323 | each block paired with the GPU block of the same place in the queue, or an error and no change |
| BlockManagement.BlockManager.CommitSwapIn | infer/src/block_manager.rs:326-338 | the loop does the ledger's commit step, consistent exactly when legal |
| Symmetric.ErrorBound | scripts/quantize_weights.py:44-82 | reconstruction error is at most half a scale at 8 and 4 bits and one scale at 2 bits |
| SymmetricLaws.TopLaw | scripts/quantize_weights.py:43-44 | the magnitude the scale is taken from bounds the group and equals one of its magnitudes, or is 1e-10 |
| SymmetricLaws.ScaleLaw | scripts/quantize_weights.py:46-73 | the scale is that over 127, 7 or 2 |
| SymmetricLaws.CodeLaw | scripts/quantize_weights.py:46-75 | a code is the nearest integer, ties to even, moved into -127..127, -7..7 or -2..1 |
| SymmetricLaws.ElementLaw | scripts/quantize_weights.py:87-120 | codes and reconstruction element by element |
| Symmetric.Idempotent | scripts/quantize_weights.py:44-69 | requantising an 8- or 4-bit reconstruction gives the same scale and codes |
| Symmetric.TwoBitIdempotentIff | scripts/quantize_weights.py:71-82 | at 2 bits that holds exactly for floored groups and groups with an element at minus three quarters of the maximum or below |
| Symmetric.TwoBitChanges | scripts/quantize_weights.py:71-82 | a concrete group whose scale halves with each 2-bit pass |
| SymmetricPacking.UnpackCodes | scripts/quantize_weights.py:101-120 | the strided loops read every code of the bytes |
| SymmetricPacking.CodesBack | scripts/quantize_weights.py:60-84 | every code survives its byte at 4 and 2 bits |
| SymmetricLaws.FourBitByte | scripts/quantize_weights.py:54-66 | a byte is two codes with eight added, in base 16 |
| SymmetricLaws.TwoBitByte | scripts/quantize_weights.py:71-84 | a byte is four codes with two added, in base 4 |
| SymmetricLaws.ReadLaw | scripts/quantize_weights.py:101-120 | the digit of the byte, less eight or two |
| SymmetricPacking.StoredCode | scripts/quantize_weights.py:60-84 | a group's codes read back whatever shares their bytes |
| Statistics.WilsonInside | scripts/analyze_multi_seed.py:37-45 | the unclamped bounds lie in [0, 1] on either side of k/n, for every quantile, so the clamps change nothing |
| StatisticsLaws.WilsonLaw | scripts/analyze_multi_seed.py:37-45 | both bounds solve n (b - p)^2 = z^2 b (1 - b) |
| StatisticsLaws.NoObservations | scripts/analyze_multi_seed.py:37-40 | without observations the interval is (0, 1) |
| Statistics.CountSeed | scripts/analyze_multi_seed.py:187-204 | the loop counts each outcome, and the four outcomes add up to the pairs |
| Statistics.CountAll | scripts/analyze_multi_seed.py:171-218 | the totals over all seeds still add up, and the variance numerator is not negative |
| StatisticsLaws.SeedLaw | scripts/analyze_multi_seed.py:187-204 | each count is the number of questions answered on both sides, with the same gold answer, and with its outcomes |
| StatisticsLaws.TotalsLaw | scripts/analyze_multi_seed.py:171-218 | the totals add field by field, skipping seeds with lists of different lengths |
| Statistics.VarianceNonNegative | scripts/analyze_multi_seed.py:225-227 | the maximum with zero before the square root changes nothing |
| StatisticsLaws.VarianceLaw | scripts/analyze_multi_seed.py:225-227 | n times the variance numerator is n (b + c) - (b - c)^2 |
| ArchTokens.SpellingParses | crates/cuda-kernels/build.rs:33-74 | every spelling of a target of two digits or more, quoted or not and with blanks around it and before the suffix, parses to it, with PTX exactly for a PTX suffix |
| ArchTokens.DotAnywhere | crates/cuda-kernels/build.rs:55-60 | the digits around a dot are the target, wherever the dot stands |
| ArchTokens.TokenBackIff | crates/cuda-kernels/build.rs:239-246 | the printed token of a digit string parses back to it exactly when it has two digits or more |
| ArchLaws.CapabilityLaw | crates/cuda-kernels/build.rs:55-71 | a capability is read exactly from digits with at most one dot; the dot is dropped and a lone digit gets a zero |
| ArchLaws.RefusedLaw | crates/cuda-kernels/build.rs:33-74 | a token is refused exactly when what its prefix and suffix leave is not numeric |
| ArchLaws.EmptyRefused | crates/cuda-kernels/build.rs:38-42 | blanks alone are refused |
| ArchLaws.PrintLaw | crates/cuda-kernels/build.rs:239-246 | a target is printed with a dot before its last digit, and joined by semicolons |
| ArchList.ParseArchList | crates/cuda-kernels/build.rs:110-145 | accepted exactly when there is a token and all are good, the first bad token reported otherwise; one ordered entry per target with PTX the disjunction over its tokens |
| ArchList.ListingUnique | crates/cuda-kernels/build.rs:110-145 | the set of tokens settles the result: order, repetition and separators do not matter |
| ArchList.PiecesOfJoin | crates/cuda-kernels/build.rs:688 | splitting undoes joining |
| ArchLaws.SeparatorLaw | crates/cuda-kernels/build.rs:114 | semicolons, commas and blanks separate; digits, letters, dots, plus signs and quotes do not |
| ArchLaws.SplitLaw | crates/cuda-kernels/build.rs:114 | a list splits at its first separator, whichever it is |
| ArchLaws.TokensLaw | crates/cuda-kernels/build.rs:114-117 | the tokens are the pieces that are not empty |
| ArchLaws.BeforeLaw | crates/cuda-kernels/build.rs:111 | targets are ordered by their first different character, a prefix first |
| ArchLaws.ValidSetLaw | crates/cuda-kernels/build.rs:92-102 | a set with target 70 has no other |
| ArchLaws.HintLaw | crates/cuda-kernels/build.rs:679-689 | there is a hint exactly when another target is left |
| ArchLaws.OthersLaw | crates/cuda-kernels/build.rs:679-683 | the hint lists the other targets in order |
| ArchLaws.SupportedLaw | crates/cuda-kernels/build.rs:14-16 | the seven targets that are built |
| ArchList.HintBack | crates/cuda-kernels/build.rs:679-689 | the hint parses back to exactly the other targets, none with PTX |
| ArchList.HintValid | crates/cuda-kernels/build.rs:92-102 | excluding a target keeps a buildable set buildable |
| ArchArgs.NvccArchArgs | crates/cuda-kernels/build.rs:206-236 | one machine-code entry for each target, one PTX entry for each that asked and for the numerically highest, nothing else |
| ArchLaws.DecimalOrder | crates/cuda-kernels/build.rs:219-222 | more digits without a leading zero make a higher target; as many digits compare as strings |
| ArchLaws.KeyLaw | crates/cuda-kernels/build.rs:219-222 | the key of a target is its number, and 0 for what is not a 32-bit number |
| ArchLaws.RequestedLaw | crates/cuda-kernels/build.rs:206-216 | the entries in order: machine code for each target, followed by its PTX if it asked for it |
| ArchArgs.ListedDistinct | crates/cuda-kernels/build.rs:110-145 | a parsed list names no target twice |
| Gguf.UnpackSubScales | scripts/gguf_to_safetensors.py:150-156 | the two loops fill the sixteen values of the unpacking |
| Gguf.UnpackedLaw | scripts/gguf_to_safetensors.py:150-156 | the sixteen values in numbers |
| Gguf.UnpackPacked | scripts/gguf_to_safetensors.py:149-156 | every sixteen six-bit values are the unpacking of some twelve bytes |
| Gguf.PackUnpacked | scripts/gguf_to_safetensors.py:149-156 | every twelve bytes are determined by what they unpack to |
| Reinterleave.ReinterleaveRows | scripts/gguf_to_safetensors.py:217-227 | the input itself below two heads, otherwise a fresh matrix whose written rows come from their sources |
| Reinterleave.HeadLaw | scripts/gguf_to_safetensors.py:217-227 | head 2 i of the output is head i of the input, head 2 i + 1 is head h + i |
| Reinterleave.UndoesSplit | scripts/gguf_to_safetensors.py:217-227 | when every row is written, the result is the matrix the even-then-odd heads were split from |
| Reinterleave.AllWrittenIff | scripts/gguf_to_safetensors.py:217-227 | every row is written exactly when the head count is even and divides the rows |
| Reinterleave.UnwrittenRow | scripts/gguf_to_safetensors.py:217-227 | what the loop's writes settle leaves a row past the written ones open: any value there meets it |
| Reinterleave.ReinterleaveCols | scripts/gguf_to_safetensors.py:229-239 | the same, inside every row |
| Reinterleave.Reinterleave1d | scripts/gguf_to_safetensors.py:207-215 | the input below two elements, an error for odd lengths, otherwise the interleaving |
| Reinterleave.ReinterleaveQkv | scripts/gguf_to_safetensors.py:318-327 | each of the three sections is re-interleaved in place and the others kept |
| Reinterleave.QkvAt | scripts/gguf_to_safetensors.py:318-327 | row p afterwards is row QkvSource(p) before |
| Reinterleave.QkvPermutes | scripts/gguf_to_safetensors.py:318-327 | that index map is a permutation of the rows that stays inside each section |

## Left out

- Rounding and range of fp16, bf16, f32 and f64, but for the scale chain of `HalfRange`: all arithmetic is over reals, so bounds are those of the exact formulas.
- KernelRange.NaiveLevel: over the reals; `HalfRange.LevelsIff` is what half precision does.
- KernelRange.NaiveSafe: over the reals; `HalfRange.ChannelIff` is what half precision does.
- KernelRange.BelowFloorSafeIff: the formula over the reals; in half precision all these channels are in range (`HalfRange.SafeBelow`).
- KernelRange.BelowFloorUnsafe: the formula over the reals; in half precision this channel is in range (`HalfRange.SafeBelow`).
- Repack.NaiveInRange: over the reals; `HalfRange.ChannelIff` is what half precision does.
- PackedRange.NaiveProductInRange: over the reals; `HalfRange.ChannelIff` is what half precision does.
- PackedRange.BelowFloorChannelIff: the formula over the reals; in half precision all these channels are in range (`HalfRange.SafeBelow`).
- HalfRange.ChannelIff: one channel at a time; that packing moves levels and scales without changing them is proved for the tensors over the reals. Infinite weights are excluded.
- `scipy.integrate.quad` and the Beta density: any mass and moment for which a cell's mean lies in the cell.
- Random sign generation: any vector of plus and minus ones.
- TurboQuant's leading axis, and `quantize_tensor`'s dtype conversions: a row stands for all rows.
- GptqConvert.ConvertLayout: `scale_to_bf16` is the identity on reals, so a short scale buffer does not arise.
- Repack.RepackW4A16: the scale tensor has one scale per group; torch raises on other shapes.
- W4A8.Quantise: for a zero scale, the conversion of an infinity or NaN to int32 is taken to give the least integer, as on x86, hence level 0; what unpacks is zero for any level.
- BlockManagement.BlockManager.Free: naming an unmanaged block panics in the original and is excluded, as in pin and commit.
- BlockManagement.BlockManager.Pin: one reference more than 32 bits hold is excluded.
- BlockManagement.BlockManager.constructor: block numbers past 32 bits are excluded.
- The block manager's utilisation, block-size arithmetic and error formatting: each is one line.
- `validate_g_idx`, tensor dtype checks and JSON reports: a comparison per element.
- The slice form of the butterflies in the parity script and in the second copy of that script: it is the same stage function.
- The other GGUF block types, the affine application of the Q4_K scales, tensor names and file layout.
- Reinterleave.ReinterleaveQkv: rows are opaque values, so the columns inside a row are not indexed.
- ArchArgs.NvccArchArgs: an entry stands for the flag and its `arch=...,code=...` text.
- Reading environment variables, `nvidia-smi` output and the messages of the panics in the CUDA build script.
- `compute_s_group_stored` and the counters of the bound diagnosis: the stored scale is the packer's before the cap.
- The confidence interval and the chi-square of the McNemar report: formulas over the counts.
- CUDA kernels, TileLang generation, HTTP and benchmark scripts, safetensors and JSON input and output.
