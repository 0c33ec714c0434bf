# Verified models of rusty_av1d's hard corners

Dafny models of five components of the AV1 decoder `rusty_av1d`, proved against the AV1 Bitstream &
Decoding Process Specification or, where that says nothing, against plain reference forms.

| files | component |
|---|---|
| `CdefSpec`, `CdefFrame` | what sections 7.15, 7.15.1, 7.15.2 and 7.15.3 make of a frozen picture: no buffers, no flags, no order |
| `CdefMeaning` | what that filter does to a pixel, told by the pixel and its neighbours alone |
| `CdefKernel`, `CdefBlock` | the filter kernel: sentinel, taps, three paths, padding, in-place write |
| `CdefDirection`, `CdefFindDir` | the direction search, as least squares and as the source's arrays |
| `CdefScan` | the in-place scan of a superblock row, with its backups, toggles and flags, and its callers |
| `DisjointIndex`, `DisjointMut`, `DisjointLocks` | the borrow registry: index forms, atomic runs, and every interleaving of its lock steps |
| `ScalingLut` | the two-pass film-grain scaling table |
| `Fifo` | the bounded FIFO with one mutex and one condition variable |
| `EnvArith` | order-hint distance and motion-vector rounding |
| `Bits` | integer helpers: shifts as repeated halving, powers of two, products |

The main results:

- **In-place CDEF equals CDEF from a frozen copy.** `DeblockAndFilter`, over `FilterSbrow` and `Brow`:
  for every picture size, layout, stride sign, skip mask, index map and strength, and every cut of the
  frame into consecutive calls, with deblocking and filtering in turn, the picture ends up as
  `Expected`, which reads only the deblocked picture. The invariants are `ScanIs` (whatever mix of skipped blocks, skipped superblocks and flag
  changes came before, the left columns a kernel call reads are pre-filter ones), `LinesAre` (the two
  line slots) and `Handover` (what one call leaves to the next).
- **What the filter does to a pixel** is said twice: by the formula of section 7.15.3, which the three
  kernel paths are proved to compute, and in `CdefMeaning` by the pixel and its neighbours: which
  differences count, the weights, nearest rounding, the clip. Both are promised of the picture.
- **The direction search is a least-squares fit**: the first direction of largest cost is the first
  whose lines, each fitted by any value, leave the least squared error.
- **Mutable borrows exclude each other under every interleaving**; reader/writer exclusion holds when
  operations are atomic, so that no element is touched by two guards one of which is mutable; at fine
  grain it holds throughout a schedule if and only if no mutable borrow is overtaken between its two
  checks.
- **The FIFO keeps order and loses nothing**, but it can lose a wakeup: see below.
- **The scaling table** is the scaling function of section 7.18.3 at every sample value, and that is
  less than one away from the straight lines through the control points.

Where the code and its intent differ, the code is modelled as it is:

- `dp_fifo_flush` empties the queue without signalling. A producer refused by its handshake can push
  again before the flush gets the lock back, finds the queue still full, sleeps, and is not woken:
  `StuckIsReachable` is such a run, `WakeupIsLostIff` says which step loses the wakeup, and
  `WellTimedRunsNeverStick` that runs without a push on a full queue during a flush never lose one.
- `add_mut_bounds` releases the immutable list's lock before it takes the mutable list's.
  `ExclusionCanBeLost` registers overlapping ranges in that window; `ExclusionIsKeptIff` is the exact
  condition for a step and `AlwaysExcludesIff` for a schedule. `RaceFreeRunsExclude` says that a
  schedule without a racing immutable push keeps exclusion, and `RaceCanLoseExclusion` that from every
  racing push, unless the mutable borrow clashes with another mutable one, exclusion can be lost.
- Integer rounding of a motion vector overflows sixteen bits for components from 0x7ffd on; the model
  wraps as release builds do (`FixIntRounds`).
- Scaling an inclusive range scales its last index, so typed borrows through one always fail for
  elements of more than a byte (`SliceAsSucceeds`).
- A cast that fails has already given up its guard, and leaves the range registered for good
  (`LeakIsForever`): `LeakIsReachable` is a run that leaks, and `ConservedIffCastsFit` says that the
  registry holds the bounds of the live guards exactly after the runs in which every cast got aligned
  bytes of a whole number of elements. An inclusive typed borrow always leaks (`TypedBorrowIs`).
- `Bounds::overlaps` means sharing an index, except exactly when one range is empty and strictly
  inside the other (`OverlapsIsSharingIff`).
- The frame header leaves CDEF damping 0 when CDEF is off, where section 5.9.19 has 3: `Damping` is the
  specification's, and `DampingIsSet` shows that no kernel call sees the difference.

Addresses are integers. A plane is an array, the place of its pixel (0, 0) and a stride of either sign;
`x` and `y` of a picture element are `At(origin, stride, x, y)`. Arithmetic shifts of negative values
are floor divisions, as in the source. A method that specifies a result through a ghost parameter
(`win`, `out`, `b`, `known`) gets the pure value it must meet, so that a caller's context stays small.
`known` says how many rows of each plane the deblocking filter has delivered, that is, will not change
any more: a superblock row may be filtered as soon as two more rows than its own are there. The
deblocking of a superblock row is modelled by what CDEF sees of it, a stage that delivers its rows and
may put anything into the rows below.

## Model

| member | source | states |
|---|---|---|
| `CdefKernel.DirectionTable` | rusty_av1d/src/tables.rs:648-661 | row `dir + 2` of the offset table is direction `dir` modulo 8 of section 7.15.3, for every direction the kernel derives |
| `CdefKernel.SentinelIsInert` | rusty_av1d/src/cdef.rs:150-166 | a missing neighbour adds 0 to the sum for every pixel, every strength and every damping up to 14 |
| `CdefKernel.TapTerm` | rusty_av1d/src/cdef.rs:150-156 | the branch-free constraint of an encoded sample is the term section 7.15.3 gives the sample |
| `CdefKernel.SentinelIsNoExtreme` | rusty_av1d/src/cdef.rs:299-302 | the sentinel changes neither the unsigned minimum nor the signed maximum; pixels change both as they should |
| `CdefSpec.SumIsWeighted` | rusty_av1d/src/cdef.rs:284-316 | the sum of the specification is the pulls of the taps, each times its tap weight |
| `CdefMeaning.ConstrainedPasses` | rusty_av1d/src/cdef.rs:150-156 | with the part of a difference d that is d over 2^max(0, damping - log2 threshold): d counts whole while it and its part stay within the threshold, not at all from threshold times that power on, and in between with the threshold less the part; the sign is kept |
| `CdefMeaning.SumIsPulls` | rusty_av1d/src/cdef.rs:274-316 | the sum is 4 and 2 times the primary pulls for an even unscaled strength, 3 and 3 times for an odd one, and 2 and 1 times the secondary ones |
| `CdefMeaning.InReachIsWhole` | rusty_av1d/src/cdef.rs:284-316 | taps within reach count with their plain differences |
| `CdefMeaning.RoundedIsNearest` | rusty_av1d/src/cdef.rs:318-319 | the pixel moves by the integer nearest to a sixteenth of the sum, halves away from zero |
| `CdefMeaning.HullIs` | rusty_av1d/src/cdef.rs:296-319 | the clip is to the least and the greatest of the pixel and its available taps |
| `CdefMeaning.MovedByUnique` | rusty_av1d/src/cdef.rs:318-319 | that description of the filtered pixel leaves no choice |
| `CdefMeaning.TapsAre` | rusty_av1d/src/cdef.rs:284-308 | the taps of a step lie one step to either side of the pixel, along the direction and along the ones two further on and two before |
| `CdefMeaning.FilteredIsSmoothed` | rusty_av1d/src/cdef.rs:274-319 | the filter moves every pixel by the nearest sixteenth of its weighted pulls, of its plain differences when all taps are within reach, and clips it to its neighbours |
| `CdefKernel.ClipIsNoOp` | rusty_av1d/src/cdef.rs:324-370 | without one of the two strengths the rounded value already lies in the hull of the pixel and its available taps, so the unclipped paths compute the clipped formula |
| `CdefKernel.ZeroStrengthIsIdentity` | rusty_av1d/src/cdef_apply.rs:339-369 | filtering with no strength is the identity, so skipping such a call loses nothing |
| `CdefKernel.CombineInRange` | rusty_av1d/src/cdef.rs:318-319 | the filtered value of pixels is a pixel |
| `CdefKernel.FilterPixel` | rusty_av1d/src/cdef.rs:274-370 | each of the three paths computes the one formula of section 7.15.3 from the scratch block |
| `CdefBlock.Fill` | rusty_av1d/src/cdef.rs:161-167 | exactly the cells of the rectangle become the sentinel |
| `CdefBlock.Padding` | rusty_av1d/src/cdef.rs:170-239 | every cell of the (w + 4) x (h + 4) window is defined: by its pixel where the window has one, by the sentinel where it has none |
| `CdefBlock.FilteredIsPixel` | rusty_av1d/src/cdef.rs:318-370 | no cast to the pixel type changes a filtered value |
| `CdefBlock.AtInjective` | rusty_av1d/src/cdef.rs:264-270 | two pixels of a row-addressed block never share an address, for either sign of the stride |
| `CdefBlock.FilterBlock` | rusty_av1d/src/cdef.rs:242-374 | in place, the block becomes its filtered version computed from the window alone, every pixel of it moves as its neighbours say (`CdefMeaning.Smoothed`), and no other pixel changes |
| `CdefDirection.WeightIsReciprocal` | rusty_av1d/src/cdef.rs:474-502 | for each of the eight directions the weight of a line times the number of its pixels is 840 |
| `CdefDirection.CostIsLeastSquares` | rusty_av1d/src/cdef.rs:465-502 | 840 times the squared deviation from the line means is 840 times the sum of squares minus the cost |
| `CdefDirection.MeansAreOptimal` | rusty_av1d/src/cdef.rs:465-502 | no values per line fit the block better than the means |
| `CdefDirection.DirectionIsLeastSquares` | rusty_av1d/src/cdef.rs:504-511 | the chosen direction fits at least as well as every direction with every choice of line values, and strictly better than all earlier ones |
| `CdefDirection.VarianceIs` | rusty_av1d/src/cdef.rs:510-514 | the variance is how much better the best direction is than the orthogonal one, in whole 1024ths |
| `CdefDirection.CostBound` | rusty_av1d/src/cdef.rs:465-502 | every cost is between 0 and 840 * 64 * 128 * 128, below 2^31: nothing wraps |
| `CdefFindDir.PartialSums` | rusty_av1d/src/cdef.rs:445-463 | the eight families of partial sums are the line sums of the eight directions |
| `CdefFindDir.AxisCosts` | rusty_av1d/src/cdef.rs:465-471 | the horizontal and vertical costs are the weighted squares of their line sums, other costs are kept |
| `CdefFindDir.DiagonalCosts` | rusty_av1d/src/cdef.rs:473-485 | the same for the two diagonals, through the division table |
| `CdefFindDir.SlopeCost1` | rusty_av1d/src/cdef.rs:487-502 | the same for each of the four slopes |
| `CdefFindDir.PickBest` | rusty_av1d/src/cdef.rs:504-514 | the first direction of largest cost, and a variance that does not underflow |
| `CdefFindDir.FindDir` | rusty_av1d/src/cdef.rs:439-515 | the search over the picture returns direction and variance of the block it covers |
| `CdefFrame.AdjustStrengthBounds` | rusty_av1d/src/cdef_apply.rs:123-135 | the adjusted strength grows with the variance and never exceeds the strength asked for |
| `CdefFrame.AdjustStrengthIs` | rusty_av1d/src/cdef_apply.rs:123-135 | a variance from 64 * 2^k up to 128 * 2^k leaves (4 + k) sixteenths of the strength, to the nearest, a smaller one four, one from 2^18 on all of it, and none leaves nothing |
| `CdefFrame.LevelIs` | rusty_av1d/src/cdef_apply.rs:233-241 | a level is one of sixteen primary strengths and one of the secondary strengths 0, 1, 2 and 4, scaled by the bit depth |
| `CdefFrame.ChromaDirectionIs` | rusty_av1d/src/cdef_apply.rs:169-170 | in 4:2:2 the chroma direction is the only one parallel to the luma direction with its width halved towards zero; elsewhere it is the same |
| `CdefFrame.DirectionFollowsLines` | rusty_av1d/src/cdef.rs:445-463 | of the eight line families of the search, the far tap of a direction stays on the same line in its own family and in no other |
| `CdefFrame.DirectionTurns` | rusty_av1d/src/tables.rs:648-661 | four directions on is orthogonal, two on is neither that nor parallel |
| `CdefFrame.DirectionHalves` | rusty_av1d/src/tables.rs:648-661 | the far tap is two pixels away and the near one half way to it |
| `CdefFrame.PlaneIsGeometry` | rusty_av1d/src/cdef_apply.rs:165-167 | a plane has the pixels that lie in the luma frame, and a chroma pixel belongs to the 8x8 luma block it lies in |
| `CdefFrame.StrengthOfValid` | rusty_av1d/src/cdef_apply.rs:228-246 | every kernel call gets parameters in range: strengths that fit a u8, a secondary shift that is not negative, chroma's smaller damping included |
| `CdefFrame.LumaStrength` | rusty_av1d/src/cdef_apply.rs:270-275 | the parameters the source derives for luma, searching only when a primary strength asks for it, are section 7.15's |
| `CdefFrame.ChromaStrength` | rusty_av1d/src/cdef_apply.rs:369-377 | the same for chroma, with its direction table and damping |
| `CdefFrame.DampingIsSet` | rusty_av1d/src/cdef_apply.rs:163 | wherever a level is not zero the source's damping is the specification's |
| `CdefFrame.AreaOfBlock` | rusty_av1d/src/cdef_apply.rs:212-216 | all blocks of a 64x64 area read one record and one index |
| `CdefFrame.RecordIs` | rusty_av1d/src/cdef_apply.rs:213-216 | the records are stored row by row of 128x128 areas |
| `CdefFrame.QuarterIs` | rusty_av1d/src/cdef_apply.rs:214-216 | each holds an index for its four quarters, row by row |
| `CdefFrame.BitIs` | rusty_av1d/src/cdef_apply.rs:223-227 | and two 16-bit masks for each pair of rows, with a bit for every four columns |
| `CdefFrame.BlockOnIs` | rusty_av1d/src/cdef_apply.rs:217-253 | a block is filtered when its area has an index and one of its two bits is set |
| `CdefFrame.ExpectedIsSmoothed` | rusty_av1d/src/cdef_apply.rs:254-457 | every pixel of the expected frame is smoothed with the parameters of its block, or unchanged in a block that is off |
| `CdefFrame.FilteredShift` | rusty_av1d/src/cdef_apply.rs:342-353 | filtering from the block's window is filtering from the frozen plane |
| `CdefScan.CdefTask.constructor` | rusty_av1d/src/decode.rs:4347-4383 | the line slots lie in the buffer |
| `CdefScan.CdefTask.LayoutIsValid` | rusty_av1d/src/decode.rs:4358-4383 | the slots of all planes lie in the buffer and share no address, for either sign of the strides |
| `CdefScan.CdefTask.BackupPlane` | rusty_av1d/src/cdef_apply.rs:46-55 | row i of the slot is row i of the two saved rows, for either sign of the stride; other slots keep theirs |
| `CdefScan.CdefTask.Backup2Lines` | rusty_av1d/src/cdef_apply.rs:40-77 | the slot holds the last two pre-filter rows of the block row, the other slot still those above it |
| `CdefScan.CdefTask.Backup2x8` | rusty_av1d/src/cdef_apply.rs:80-121 | flagged planes get the pre-filter columns left of `x_off`, everything else is kept |
| `CdefScan.CdefTask.SaveLeft` | rusty_av1d/src/cdef_apply.rs:254-264 | whatever happened to the blocks before, afterwards every flagged plane's pre-filter left columns are in the current backup |
| `CdefScan.CdefTask.SaveRight` | rusty_av1d/src/cdef_apply.rs:265-268 | the other backup gets the block's own last columns, the current one is kept |
| `CdefScan.CdefTask.HiddenCell` | rusty_av1d/src/cdef_apply.rs:154-158 | the four edge flags hide exactly the cells outside the frame |
| `CdefScan.CdefTask.CellIsShown` | rusty_av1d/src/cdef_apply.rs:329-337 | every cell a kernel call reads, from the line slot, the columns or the picture, is the frozen pixel of its place |
| `CdefScan.CdefTask.QuietBlock` | rusty_av1d/src/cdef_apply.rs:217-253 | a skipped block, or one whose level is zero for a plane, keeps its pixels in the frame of section 7.15 |
| `CdefScan.CdefTask.FilterPlane` | rusty_av1d/src/cdef_apply.rs:342-353 | a kernel call turns the block of its plane into the frame's and leaves the rest of the plane |
| `CdefScan.CdefTask.FilterLuma` | rusty_av1d/src/cdef_apply.rs:339-368 | with or without a call, the luma block becomes the frame's |
| `CdefScan.CdefTask.FilterChroma` | rusty_av1d/src/cdef_apply.rs:369-455 | the same for both chroma planes; a monochrome frame never gets there |
| `CdefScan.CdefTask.FilterCoded` | rusty_av1d/src/cdef_apply.rs:254-457 | a block that is not skipped: all planes advance and the row invariant holds at the next block |
| `CdefScan.CdefTask.ScanSuperblock` | rusty_av1d/src/cdef_apply.rs:212-468 | a superblock, filtered or passed over, keeps the row invariant |
| `CdefScan.CdefTask.FilterRow` | rusty_av1d/src/cdef_apply.rs:207-469 | a block row ends up filtered from the frozen picture, in all planes |
| `CdefScan.CdefTask.Brow` | rusty_av1d/src/cdef_apply.rs:137-476 | one call: its block rows are filtered from the frozen picture, the toggled slot holds the lines the next call needs, and the next call's precondition holds |
| `CdefScan.SbrowRows` | rusty_av1d/src/recon.rs:3771-3788 | the rows of a call stay in one row of 128x128 areas, whose records the call is given |
| `CdefScan.NextSbrow` | rusty_av1d/src/recon.rs:3774-3788 | one superblock row starts where the one before stopped, and the last one reaches the end |
| `CdefScan.CdefTask.FilterSbrow` | rusty_av1d/src/recon.rs:3761-3789 | both calls for a superblock row, from what the row above left over |
| `CdefScan.CdefTask.FilterFrame` | rusty_av1d/src/recon.rs:3761-3789 | given a picture that is wholly deblocked before the first call, after all superblock rows every pixel of every plane is the one section 7.15 makes of the frozen picture |
| `CdefScan.FilterPicture` | rusty_av1d/src/recon.rs:3761-3789 | the same for a picture wholly deblocked before the first call, whatever legal pixels it holds: it becomes, in place, what section 7.15 makes of its own copy |
| `CdefScan.CdefTask.Deblock` | rusty_av1d/src/recon.rs:3847-3858 | a stage of deblocking that leaves the delivered rows alone and delivers more keeps what the next call needs, whatever it puts below |
| `CdefScan.CdefTask.FilterWhileDeblocking` | rusty_av1d/src/recon.rs:3847-3861 | deblocking and filtering in turn, superblock row by superblock row, with rows delivered only as the two calls need them, gives the frame of section 7.15 |
| `CdefScan.DeblockAndFilter` | rusty_av1d/src/recon.rs:3847-3861 | the same from buffers that hold anything at first: the picture becomes, in place, what section 7.15 makes of the deblocked picture, and each pixel moves as its neighbours say (`CdefMeaning.Smoothed`), or stays in a block that is off |
| `DisjointIndex.OverlapsIffShared` | rusty_av1d/src/disjoint_mut.rs:617-621 | non-empty ranges overlap if and only if they share an index |
| `DisjointIndex.EmptyInsideOverlaps` | rusty_av1d/src/disjoint_mut.rs:617-621 | an empty range strictly inside another overlaps it and shares nothing with it |
| `DisjointIndex.OverlapsIsSharingIff` | rusty_av1d/src/disjoint_mut.rs:617-621 | overlapping is sharing an index if and only if neither range is empty strictly inside the other |
| `DisjointIndex.TouchedIs` | rusty_av1d/src/disjoint_mut.rs:636-752 | form by form, a borrow returns if and only if the buffer has the range, and then touches exactly the indices the form means: `a <= i < a + n` for `(a.., ..n)`, `a <= i < len` for `a..`, `a <= i <= b` for `a..=b`, and so on |
| `DisjointIndex.BoundIs` | rusty_av1d/src/disjoint_mut.rs:624-695 | and registers the indices the form means on the longest buffer there can be |
| `DisjointIndex.BoundCoversTouched` | rusty_av1d/src/disjoint_mut.rs:632-752 | every index a borrow touches is in the range it registers, for all seven forms |
| `DisjointIndex.DisjointBoundsAreSafe` | rusty_av1d/src/disjoint_mut.rs:729-752 | borrows whose registered ranges do not overlap touch no common index |
| `DisjointIndex.SliceAsIsExact` | rusty_av1d/src/disjoint_mut.rs:380-417 | a typed borrow that returns touches exactly the bytes of the elements asked for and has as many elements |
| `DisjointIndex.SliceAsSucceeds` | rusty_av1d/src/disjoint_mut.rs:536-586 | a typed borrow of elements the buffer has returns if and only if the form scales: no inclusive form does for elements of more than a byte, open ones need a buffer of whole elements |
| `DisjointIndex.TypedTouches` | rusty_av1d/src/disjoint_mut.rs:380-417 | a typed borrow returns if and only if the buffer has the elements and the form scales, and has that number of elements, at the bytes from the first one on |
| `DisjointIndex.StartLenTouches` | rusty_av1d/src/disjoint_mut.rs:580-584 | `(a.., ..n)` on elements of `size` bytes: `n` elements at bytes `a * size` to `(a + n) * size`, if and only if the buffer has those bytes |
| `DisjointIndex.ScalingKeepsOverlap` | rusty_av1d/src/disjoint_mut.rs:546-586 | scaling maps disjoint ranges to disjoint ones and overlapping to overlapping |
| `DisjointMut.Registry.AddMutBounds` | rusty_av1d/src/disjoint_mut.rs:881-890 | refused exactly on a clash with either list, otherwise appended; the lists are otherwise unchanged |
| `DisjointMut.Registry.AddImmutBounds` | rusty_av1d/src/disjoint_mut.rs:893-899 | refused exactly on a clash with the mutable list |
| `DisjointMut.Registry.RemoveBound` | rusty_av1d/src/disjoint_mut.rs:901-912 | the first equal entry is removed, or none is found and nothing changes |
| `DisjointMut.StepKeeps` | rusty_av1d/src/disjoint_mut.rs:109-141 | a borrow through any index form, a cast that fits or not by the bytes of its guard, or a drop: a drop always finds its entry, the entries are those of live guards and failed casts, no mutable one overlaps another, guards touch only what they registered |
| `DisjointMut.RunKeeps` | rusty_av1d/src/disjoint_mut.rs:811-953 | the same after any run |
| `DisjointMut.LiveGuardsAreDisjoint` | rusty_av1d/src/disjoint_mut.rs:811-818 | after any run from an empty registry a live mutable guard overlaps no other live guard |
| `DisjointMut.LiveGuardsShareNothing` | rusty_av1d/src/disjoint_mut.rs:729-818 | after any run no element is touched by a live mutable guard and another live guard, whatever index forms they came from |
| `DisjointMut.RefusedIffConflict` | rusty_av1d/src/disjoint_mut.rs:811-818 | a borrow is refused if and only if it conflicts with a live guard or a leaked one |
| `DisjointMut.BorrowIs` | rusty_av1d/src/disjoint_mut.rs:729-818 | a borrow makes one more guard over exactly the indices its form means, if and only if the buffer has the range and nothing conflicts; otherwise nothing changes |
| `DisjointMut.CastIs` | rusty_av1d/src/disjoint_mut.rs:109-141 | a cast keeps its guard if and only if the bytes are aligned and a whole number of elements, one for a single element |
| `DisjointMut.ConservedIffCastsFit` | rusty_av1d/src/disjoint_mut.rs:109-201 | after any run from an empty registry the registered entries are those of the live guards if and only if every cast of the run got aligned bytes of a whole number of elements |
| `DisjointMut.LeakIsReachable` | rusty_av1d/src/disjoint_mut.rs:109-124 | a run, a borrow and a failing cast, after which no guard is left and a mutable borrow inside the buffer is refused |
| `DisjointMut.LeakIsForever` | rusty_av1d/src/disjoint_mut.rs:127-140 | after a failed cast every later mutable borrow that overlaps its range is refused |
| `DisjointMut.TypedBorrowIs` | rusty_av1d/src/disjoint_mut.rs:409-417 | a typed borrow that returns has a guard over exactly its bytes; an inclusive one on elements of more than a byte fails its cast, hence leaks |
| `DisjointLocks.RunKeepsInv` | rusty_av1d/src/disjoint_mut.rs:879-913 | lock ownership and what each thread knows between its steps, for any schedule and number of threads |
| `DisjointLocks.ReachableKeepsInv` | rusty_av1d/src/disjoint_mut.rs:879-913 | the same in every state reachable from the empty registry |
| `DisjointLocks.StepRegisters` | rusty_av1d/src/disjoint_mut.rs:881-912 | a completed push registers its entry once unless it clashes, a completed drop takes away one occurrence of its own, no other step changes the registry |
| `DisjointLocks.DropFrees` | rusty_av1d/src/disjoint_mut.rs:901-912 | a drop leaves its thread idle and without a lock |
| `DisjointLocks.MutableExclusion` | rusty_av1d/src/disjoint_mut.rs:885-889 | under every interleaving no two registered mutable ranges overlap |
| `DisjointLocks.NoWaitCycle` | rusty_av1d/src/disjoint_mut.rs:879-913 | a thread two links down a chain of waiting threads waits for nobody |
| `DisjointLocks.SomeThreadCanGo` | rusty_av1d/src/disjoint_mut.rs:879-913 | while an operation is under way some operation can take a step |
| `DisjointLocks.ExclusionIsKeptIff` | rusty_av1d/src/disjoint_mut.rs:881-890 | a step loses reader/writer exclusion if and only if it registers a mutable range that an overlapping immutable one overtook between lines 884 and 885 |
| `DisjointLocks.ExclusionCanBeLost` | rusty_av1d/src/disjoint_mut.rs:881-899 | a schedule of two threads that registers overlapping mutable and immutable ranges |
| `DisjointLocks.AlwaysExcludesIff` | rusty_av1d/src/disjoint_mut.rs:879-913 | exclusion holds in every state of a schedule if and only if no step registers an overtaken mutable range |
| `DisjointLocks.RaceCanLoseExclusion` | rusty_av1d/src/disjoint_mut.rs:881-899 | from every state in which an immutable push is due that overlaps a mutable borrow between its checks, and the mutable list does not stop that borrow, three steps register both |
| `DisjointLocks.RaceFreeMeansExclusive` | rusty_av1d/src/disjoint_mut.rs:879-913 | on any number of threads, from the empty registry, schedules without such a push end with full reader/writer exclusion |
| `DisjointLocks.RaceFreeRunsExclude` | rusty_av1d/src/disjoint_mut.rs:879-913 | schedules without such an overtaking keep full reader/writer exclusion |
| `ScalingLut.Segment` | rusty_av1d/src/fg_apply.rs:29-46 | the accumulated segment is the closed form of section 7.18.3 at its samples, other entries are kept |
| `ScalingLut.FillBetween` | rusty_av1d/src/fg_apply.rs:60-66 | the entries between two neighbouring values, in place, are the rounded interpolation |
| `ScalingLut.GenerateScaling` | rusty_av1d/src/fg_apply.rs:13-71 | at every sample value of every bit depth the table is the scaling function of section 7.18.3: through every control point, less than one away from the straight lines between them, rounded to the nearest between neighbouring entries, constant outside; unreachable entries stay zero |
| `ScalingLut.LutBetweenPoints` | rusty_av1d/src/fg_apply.rs:28-46 | between two control points, ends included, the first pass stays between their values and moves one way only |
| `ScalingLut.NoOvershoot` | rusty_av1d/src/fg_apply.rs:52-67 | the same for the whole table |
| `ScalingLut.LutNearLine` | rusty_av1d/src/fg_apply.rs:38-46 | between two control points the first pass is less than one away from the straight line through them |
| `ScalingLut.BetweenIsNearest` | rusty_av1d/src/fg_apply.rs:59-65 | the second pass gives the nearest value on the line between two neighbouring entries |
| `ScalingLut.LutAtPoint` | rusty_av1d/src/fg_apply.rs:28-50 | at a control point the table has its value |
| `ScalingLut.PadIs` | rusty_av1d/src/fg_apply.rs:20-21 | the padding is one entry for each step of the sample depth |
| `ScalingLut.InterpolatedIsByte` | rusty_av1d/src/fg_apply.rs:43-65 | no cast to a byte truncates |
| `Fifo.DpFifo.ArrayShift` | rusty_av1d/examples/dp_fifo.c:114-120 | the front is returned and the others move up by one, in place |
| `Fifo.DpFifo.PushSection` | rusty_av1d/examples/dp_fifo.c:94-111 | the section from the loop test to the next wait or unlock |
| `Fifo.DpFifo.ResumeSection` | rusty_av1d/examples/dp_fifo.c:99-104 | the section from the return of the wait: a flush refuses the element |
| `Fifo.DpFifo.ShiftSection` | rusty_av1d/examples/dp_fifo.c:123-133 | the oldest element leaves, and a signal is due exactly when the queue was full |
| `Fifo.DpFifo.FlushSection` | rusty_av1d/examples/dp_fifo.c:135-142 | the flag is set, and the flush waits when a push does |
| `Fifo.DpFifo.DrainSection` | rusty_av1d/examples/dp_fifo.c:143-147 | every queued element is destroyed once, newest first, and the flag is cleared |
| `Fifo.StepKeeps` | rusty_av1d/examples/dp_fifo.c:94-147 | every step keeps order, conservation, the capacity and the handshake |
| `Fifo.RunKeeps` | rusty_av1d/examples/dp_fifo.c:94-147 | after any run from a consistent state the queue is what was accepted and not yet removed, in push order, every element offered is in exactly one place, and a waiting flush has a producer wakeup coming |
| `Fifo.ReachableIsConsistent` | rusty_av1d/examples/dp_fifo.c:94-147 | the same in every state reachable from the empty FIFO |
| `Fifo.NothingDestroyed` | rusty_av1d/examples/dp_fifo.c:123-133 | as long as nothing was destroyed, what shift returned followed by the queue is what was accepted, in push order |
| `Fifo.RefusedIff` | rusty_av1d/examples/dp_fifo.c:96-104 | a step refuses an element if and only if it is a push that comes back from its wait while the flush flag is set |
| `Fifo.WithoutFlushNothingIsLost` | rusty_av1d/examples/dp_fifo.c:94-133 | in a run without a flush nothing is refused or destroyed: what was shifted, then the queue, then the element of the push that waits is exactly what was offered, in order |
| `Fifo.AwakeCanGo` | rusty_av1d/examples/dp_fifo.c:94-147 | a thread has a section to enter next if and only if it does not sleep |
| `Fifo.WakeupIsLostIff` | rusty_av1d/examples/dp_fifo.c:135-147 | a step loses a wakeup if and only if it ends a flush while a push sleeps, and that push fell asleep during the flush |
| `Fifo.WellTimedRunsNeverStick` | rusty_av1d/examples/dp_fifo.c:94-147 | runs without a push on a full queue during a flush lose no wakeup and never stick |
| `Fifo.WellTimedNeverSticks` | rusty_av1d/examples/dp_fifo.c:94-147 | the same for runs from the empty FIFO |
| `Fifo.IllTimedPushCanStick` | rusty_av1d/examples/dp_fifo.c:96-147 | every such push has a continuation in which both threads sleep and the queue is empty |
| `Fifo.StuckIsReachable` | rusty_av1d/examples/dp_fifo.c:94-147 | a run from the start with one slot that ends so |
| `EnvArith.AndOneBit` | rusty_av1d/src/env.rs:296-298 | and with a power of two on two's complement integers |
| `EnvArith.AndClear` | rusty_av1d/src/env.rs:641-651 | and with the complement of low bits |
| `EnvArith.PocDiffIsResidue` | rusty_av1d/src/env.rs:292-299 | the distance is congruent to the difference modulo 2^n and in [-2^(n-1), 2^(n-1)) |
| `EnvArith.PocDiffIsUnique` | rusty_av1d/src/env.rs:292-299 | it is the only such number |
| `EnvArith.PocDiffWithoutHints` | rusty_av1d/src/env.rs:293-295 | without order hints every distance is zero |
| `EnvArith.PocDiffWraps` | rusty_av1d/src/env.rs:292-299 | hints that wrapped around any number of times have the same distance |
| `EnvArith.PocDiffAntisymmetric` | rusty_av1d/src/env.rs:292-299 | swapping the hints negates it if and only if it is not -2^(n-1) |
| `EnvArith.FixIntRounds` | rusty_av1d/src/env.rs:640-643 | the mask computes the nearest multiple of eight, ties towards zero, if and only if the component is below 0x7ffd; the three above wrap to -0x8000 |
| `EnvArith.RoundsToUnique` | rusty_av1d/src/env.rs:640-653 | only one value is the nearest multiple with ties towards zero |
| `EnvArith.FixIntIsOdd` | rusty_av1d/src/env.rs:640-643 | it is an odd function wherever it does not wrap |
| `EnvArith.FixHpTruncates` | rusty_av1d/src/env.rs:649-652 | the mask truncates to an even number towards zero |
| `EnvArith.FixHpIsOdd` | rusty_av1d/src/env.rs:649-652 | it is an odd function |
| `EnvArith.Mv.FixMvPrecision` | rusty_av1d/src/env.rs:646-653 | both components are rounded in place, by the header's precision, or kept; the three largest become -0x8000 under integer rounding |

## Left out

- The multi-threaded branches of `rav1d_cdef_brow` (`have_tt`, `resize`, the loop-filter line buffers): they read buffers filled elsewhere.
- The arithmetic of the deblocking filter: a stage of it is any image that delivers its rows, and delivered rows are taken not to change afterwards.
- SIMD and assembly kernels, dispatch and foreign-function wrappers.
- The three copies of the pixel loops of the kernel: `FilterPixel` chooses its path pixel by pixel; the `k` loop of each path is modelled.
- The order of the chroma copies of `backup2x8`: rows outermost in the source, planes outermost here.
- Skip masks are sequences of 32 bools instead of 32-bit words.
- Slices the source takes around the cells it reads (such as two pixels left of a line slot): only the cells read are modelled, so a panic on a slice bound is not.
- Pixels and sums are unbounded integers with proved ranges instead of the source's widths.
- Monochrome pointers of chroma planes, which the source aims at luma and never uses.
- CdefScan.CdefTask.constructor: allocates the line buffer in pixels; the picture itself is allocated elsewhere.
- The alignment and provenance side of `DisjointMut`: whether the bytes of a cast are aligned is a flag of the operation; elements have a size, and a guard may be cast more than once.
- Backtraces and messages of `DisjointMut`; locations and threads are numbers, a detected overlap is a refused step.
- DisjointLocks.ReachableKeepsInv: a drop may be of any registered entry, guards are tracked in the atomic model only.
- `DisjointMut` in release builds, which has no registry and lets scaling wrap.
- Fairness and real time in the FIFO; its elements are integers, and `dp_fifo_destroy` is not part of the model.
- Film-grain synthesis around the scaling table, and the context derivations of `env.rs`, which are table look-ups.
- CDF default tables and counters, dequantizer tables, the player and its renderers.
