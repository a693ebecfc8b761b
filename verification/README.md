# Verified models of ccv

ccv is a computer-vision library in C, with a JavaScript port of its detectors.
This project models its stateful cores and proves what they promise.

**The object cache** (`Bits`, `Words`, `Trie`, `CacheSpec`, `Cache`). A cache is
a 64-way radix trie over 6-bit digits of a 64-bit signature. Children of a
branch are a packed array indexed by the population count of the bitmap below
the wanted digit; a leaf packs type, age and size in one word; an insertion
splits a leaf, a removal collapses a branch into its topmost single-child
ancestor; each branch carries the least age below it, and the oldest entry goes
when space runs out. The model keeps all of that and proves that

- after every operation the trie represents exactly the stored entries, and a
  trie that does so is unique: shape, flags and ages tell nothing of history,
  and a `put` followed by an `out` restores the identical trie;
- any run of `get`, `put`, `out`, `delete` and `cleanup` gives the replies,
  contents and evictions of a plain list of records in last-put order;
- over any run the stored sizes sum to `size` and stay within `up`, no signature
  is stored twice, and each accepted object is stored, handed back, or freed,
  exactly once.

Ten digits are inspected, so an entry can be found again exactly when no other
entry agrees with it on the low 54 bits. That condition is proved to be exact,
in both directions, rather than assumed. A put that clashes leaves a trie in
which neither of the two is found and every other entry still is.

**The memoising allocator** (`Memory`, `Programs`). Freed matrices go to that
cache under their signature and come back filled and flagged as garbage. An
operation renews its outputs, one or many; most return at once when every output
is flagged (some clear the flags before they compute, the eigenvector operation
does not), and DAISY and the network layers never look. Every program of such
operations, edits, frees, cache switches and drains is compared with direct
evaluation. It agrees as long as no operation that looks finds all its outputs
flagged with a given one among them. At the first step that breaks this, the
given outputs keep their old contents, which is wrong exactly when those differ
from what should have been computed. The condition can be checked before each
call. Flags are left behind by operations that look at several outputs and do
not clear them, and by those that never look and ask for their output by
signature; a program without either always agrees, and for each kind a program
that goes wrong is given. A matrix is lost, neither freed nor reachable, exactly
when a `free` meets a cache smaller than the matrix (its size counted modulo
2^32, as the `uint32_t` parameter of `put` does), or when a running cache that
holds it is initialised again; both are shown happening.

**Canny hysteresis** (`Canny`). The output is the set of pixels in 8-connected
components of surviving candidates that contain a pixel above the high
threshold, although most strong pixels are never seeds. The stack of
`rows * cols` entries suffices and the fill ends. The direction of an edge is
decided in 32-bit products; the derivatives up to which it is right are given
exactly.

**Otsu's threshold** (`Ints`, `Otsu`, `OtsuLimits`). The one-pass search finds the
smallest threshold of greatest between-class variance, which is also the one of
least scatter inside the classes, as long as no 32-bit product wraps. Two do on
large input: the product of the class sizes, and the product of a bin with its
pixel count. With T pixels and R bins, threshold and reported variance are right
on every image exactly when T is positive and either R is 1, or T is at most
92681 and (R - 1)(T - 1) is below 2^31; without pixels the variance is not a
number. The threshold alone is right on every image exactly when R is at most 2,
or T is at most 92681 and (R - 1)(T - 2) is below 2^31. Beyond either bound an
image that fails is constructed.

**Sorting and selection** (`Rearrangement`, `QuickSort`, `Median`). The quicksort
macro sorts, permutes, and never overflows its 48-entry stack; the quickselect
macro returns the element of middle rank of its range.

**Grouping** (`ArrayGroup`). Union-find by rank with path compression: indices
are equal exactly on the components of the similarity relation.

**Convolution** (`Convolution`, `PackedConvolution`). The clipped, running-pointer
loops equal the zero-padded sum; both backward loops are adjoint to it; the
four-lane form over repacked weights computes the same outputs.

**Training and genetic search** (`Training`, `Genes`). No example is visited
twice in an epoch, and with at least one full batch none is left out of two
epochs in a row. Every individual of every generation of the genetic search is
well formed, from the first, which is drawn at random, on; its feature answers 1
exactly when every positive pixel exceeds every negative one. Drawing and
mutation never put a point on both sides, but crossing can, and a feature with
such a point answers 0 whatever the pixels: two parents and their child are
given.

**Image passes** (`Flat`, `Morphology`, `SummedArea`). Two-pass erosion and
dilation equal the extreme over the clipped square, compose, and are dual. The
summed-area table equals the double sum, and the entry type it chooses is wide
enough.

Methods follow the loops and updates of the source; each is tied to a function
or predicate, and the laws are proved about those. `dafny verify dfyconfig.toml`
checks everything.

Where the documentation and the code part, the model follows the code. `put`
returns 0, documented as success (lib/ccv.h:201-210), for a signature that
agrees with a stored one on the low 54 bits, although neither can be found from
then on. `delete` is documented to return -1 when it finds nothing; it also does
so after removing an entry whose object is null. Freeing a matrix larger than
the cache neither frees nor keeps it.

## Model
| member | source | states |
|---|---|---|
| Bits.SparseBitCount | lib/ccv_cache.c:29-36 | clearing the lowest set bit until none is left counts the set bits |
| Bits.Precompute16Bits | lib/ccv_cache.c:38-43 | the table holds the population count of every 16-bit number |
| Bits.ComputeBitsIsPopCount | lib/ccv_cache.c:45-48 | four table look-ups give the population count of any 64-bit word |
| Bits.PopCountUnderMask | lib/ccv_cache.c:75-77 | the population count under the mask below a digit is that digit's rank among the set digits |
| Words.DiceIsDigit | lib/ccv_cache.c:123 | the moving six-bit mask reads the i-th base-64 digit of the signature |
| Words.PrefixIsLowBits | lib/ccv_cache.c:111-139 | agreeing on the first k digits is agreeing on the low 6k bits |
| Words.PackedExactly | lib/ccv_cache.c:4-7 | type, age and size read back from the packed word exactly when the type is below 16 and the age below 2^28 |
| Words.AgeSpills | lib/ccv_cache.c:4-7 | for any age the type read back is the type packed or-ed with the age's upper four bits, and the age its lower 28 |
| Words.FieldsDetermineWord | lib/ccv_cache.c:4-7 | equal fields mean equal packed words |
| Trie.Canonical | lib/ccv_cache.c:215-427 | two tries that represent the same entries are the same trie |
| Trie.NodeShape | lib/ccv_cache.c:252-303 | a node is a branch iff at least two entries share its prefix, full iff all 64 digits occur, and its age is the least below |
| Trie.SeekDecides | lib/ccv_cache.c:106-143 | the walk ends at the entry's leaf iff the signature is stored |
| Trie.SplitRepresents | lib/ccv_cache.c:252-284 | the chain built for two clashing leaves represents exactly those two |
| Trie.AddLeafRepresents | lib/ccv_cache.c:287-303 | opening a slot at the rank of a new digit adds exactly that entry, and sets the full flag at 64 |
| Trie.AgedRepresents | lib/ccv_cache.c:51-104 | walking back and recomputing minimum ages repairs every stale age on the path |
| Trie.DropStale | lib/ccv_cache.c:407-413 | closing the slot of a removed leaf leaves the other entries, with only ages on the path stale |
| Trie.NodeAgeIsMin | lib/ccv_cache.c:94-101 | the age kept at a node is the least age of the entries below it |
| Trie.OldestKid | lib/ccv_cache.c:191-203 | some child carries the branch's age and no child a smaller one |
| Cache.ChildOf | lib/ccv_cache.c:114-138 | the child for a digit, by direct index in a full branch and by rank otherwise, or none |
| Cache.SeekNode | lib/ccv_cache.c:106-143 | the loop returns the node and depth of the specified walk, or null after ten nodes, on any trie whose first ten levels are packed |
| Cache.SplitFoundIff | lib/ccv_cache.c:252-284 | after a split both signatures are found iff they differ in their low 54 bits |
| Cache.StoredFoundIff | lib/ccv_cache.c:235-307 | a stored signature is found again iff it differs in its low 54 bits from the leaf it met; else neither is reachable |
| Cache.ClashStopsAtLeaf | lib/ccv_cache.c:234-256 | a signature that clashes with a stored one meets exactly that leaf |
| Cache.InsertRepresents | lib/ccv_cache.c:252-307 | the write at the end of the walk adds exactly the new entry |
| Cache.ReplaceStale | lib/ccv_cache.c:242-250 | rewriting a leaf replaces exactly its entry and leaves only ages on the path stale |
| Cache.CollapseToUncle | lib/ccv_cache.c:364-418 | overwriting the topmost single-child ancestor with the sibling leaf removes exactly the entry |
| Cache.DropAtParent | lib/ccv_cache.c:397-413 | closing the slot in the parent removes exactly the entry |
| Cache.LeavesRepresent | lib/ccv_cache.c:327-342 | the leaves below a node are its entries, each once |
| Cache.OldestLeaf | lib/ccv_cache.c:180-206 | the greedy descent by minimum age ends at the globally oldest entry |
| Cache.Cache.constructor | lib/ccv_cache.c:9-24 | a new cache is the empty list |
| Cache.Cache.Get | lib/ccv_cache.c:145-160 | gives the stored object and type of the signature, or nothing; also on a trie a clash has left behind |
| Cache.Cache.Aging | lib/ccv_cache.c:51-104 | writes the minimum ages along the path, in place, and nothing else |
| Cache.Cache.Out | lib/ccv_cache.c:344-427 | hands back and removes exactly the signature's entry; the rest keeps its order |
| Cache.Cache.Delete | lib/ccv_cache.c:429-440 | removes and frees exactly the signature's entry; its return code |
| Cache.Cache.Lru | lib/ccv_cache.c:163-207 | frees exactly the entry put longest ago |
| Cache.Cache.Depleted | lib/ccv_cache.c:209-213 | frees exactly the shortest oldest prefix that makes the rest fit |
| Cache.Cache.Put | lib/ccv_cache.c:215-308 | evicts, then replaces, adds, or refuses; new list, freed objects and return code; after a clash on 54 bits neither signature is found and all others are |
| Cache.LateClock | lib/ccv_cache.c:232-248 | a record of type 0 put at the clock 2^28 is freed by the free function of type 1 and reads as the oldest |
| Cache.ClashLeaves | lib/ccv_cache.c:252-284 | what every look-up answers after a put that clashed |
| Cache.ClashingPuts | lib/ccv_cache.c:215-308 | signatures 0 and 2^54 put one after the other: both codes 0, neither found |
| Cache.NullRemoved | lib/ccv_cache.c:429-440 | deleting an entry with a null object empties the cache and returns -1 |
| Cache.Cache.Cleanup | lib/ccv_cache.c:327-342 | frees every stored object once and empties the cache |
| CacheSpec.ExcessIsShortest | lib/ccv_cache.c:209-222 | the evicted prefix makes room and every shorter one does not |
| CacheSpec.RunFromEmpty | lib/ccv_cache.c:215-452 | over any run: sizes within the limit, signatures distinct, every accepted object stored, freed or handed back once |
| CacheSpec.PutThenGet | lib/ccv_cache.c:145-308 | what was put is what get gives |
| CacheSpec.PutKeepsOthers | lib/ccv_cache.c:215-308 | a put changes no other signature that survives the eviction |
| Cache.Execute | lib/ccv_cache.c:145-452 | any run in which no put clashes with what is stored at that moment gives the state and the replies of the list |
| Cache.SameEntriesSameTrie | lib/ccv_cache.c:215-427 | caches with the same entries have identical tries, whatever their history |
| Cache.PutThenOut | lib/ccv_cache.c:215-427 | putting a new signature without eviction and taking it out restores the identical trie |
| Cache.CountIsLeaves | lib/ccv_cache.c:215-427 | `rnum` is the number of leaves |
| Memory.PutMoves | lib/ccv_memory.c:188-189 | a put that fits stores the new matrix, and what it frees is exactly what left the cache |
| Memory.Allocator.New | lib/ccv_memory.c:16-58 | a hit hands out a cached matrix that holds what its signature denotes, flagged; a miss a new unflagged one |
| Memory.Allocator.Renew | lib/ccv_memory.c:60-77 | the given matrix under its new signature, or a new one |
| Memory.Allocator.ReturnIfCached | lib/ccv_internal.h:79-85 | returns iff every output that is not null is flagged, and then clears the flags only |
| Memory.Allocator.MakeMutable | lib/ccv_memory.c:79-88 | no signature, not reusable, same contents |
| Memory.Allocator.MakeImmutable | lib/ccv_memory.c:90-102 | content signature, not reusable |
| Memory.Allocator.Free | lib/ccv_memory.c:169-190 | the matrix is freed, or cached and found again, or lost exactly when its size modulo 2^32 exceeds the cache's; all others stay |
| Memory.Allocator.Drain | lib/ccv_memory.c:268-272 | every cached matrix is freed, every held one untouched |
| Memory.Allocator.Disable | lib/ccv_memory.c:274-278 | as a drain, and from then on nothing is looked up or kept |
| Memory.Allocator.Enable | lib/ccv_memory.c:280-284 | the cache starts empty; matrices of a cache already running are lost, exactly those |
| Memory.Allocator.RenewAll | lib/ccv_memory.c:60-77 | several outputs renewed in turn: each is the given matrix or a new one, all differ, and none changes what a later one finds |
| Memory.Allocator.Operate | lib/ccv_internal.h:79-85 | an operation with any number of outputs: each holds the computed value, or keeps its contents exactly when the operation looks and all are flagged; which flags remain |
| Memory.Allocator.Apply | lib/ccv_internal.h:79-85 | a one-output operation gives the computed value whatever is cached, unless a given output is still flagged, and exactly then keeps its contents |
| Memory.Allocator.Gradient | lib/ccv_basic.c:334-351 | both outputs hold the computed values and no flag, also when only one was cached; its intermediates are freed, and as many are lost as are larger than the cache |
| Memory.Allocator.Eigen | lib/ccv_numeric.c:29-39 | both outputs hold the computed values, and one stays flagged exactly when it alone was cached |
| Memory.Allocator.IsFlagged | lib/ccv_internal.h:79-85 | whether an output will carry the flag, found out without disturbing the cache |
| Programs.Perform | lib/ccv_memory.c:16-190 | one command, with an operation on any sources and outputs among them, gives the direct evaluation, except that a stale operation keeps the contents of its given outputs |
| Programs.Session | lib/ccv_memory.c:16-190 | any program agrees with direct evaluation up to its first stale operation, which keeps its given outputs' contents; without operations that can leave a flag there is none |
| Programs.KeptIsEval | lib/ccv_internal.h:79-85 | an early return is harmless iff the given outputs already held the computed values |
| Programs.IsStale | lib/ccv_internal.h:79-85 | the condition decided from the flags and a look-up before the call |
| Programs.EvalNamed | lib/ccv_memory.c:79-102 | signatures keep denoting contents through every command |
| Programs.EigenThenReuse | lib/ccv_numeric.c:39 | a flagged eigenvector matrix given as output makes the next operation return the wrong contents |
| Programs.DaisyThenReuse | lib/ccv_daisy.c:57 | DAISY computed, freed and computed again: its output is flagged, and the next operation given it returns the wrong contents |
| Programs.OversizedFree | lib/ccv_memory.c:188-189 | a matrix freed into a cache of size 0 stays in memory and nobody holds it |
| Programs.EnabledTwice | lib/ccv_memory.c:280-284 | a cached matrix is lost when the cache is started again |
| Canny.TestPixel | lib/ccv_classic.c:247-291 | the local-maximum test by direction sector |
| Canny.SectorExactly | lib/ccv_classic.c:250-256 | the sector in 32-bit ints is right up to derivatives X along the row and Y along the column iff Y <= 65535, X <= 158217, and X <= 27145 or Y <= 11244 |
| Canny.Seed | lib/ccv_classic.c:225-306 | the map marks exactly the candidates; each component with a strong pixel has a seed on the stack |
| Canny.FloodFill | lib/ccv_classic.c:307-317 | from the seeds exactly the strong components are marked; the stack never overflows; no access leaves the map |
| Canny.FillDone | lib/ccv_classic.c:308-317 | once the stack is empty the marked pixels are exactly the components with a strong pixel |
| Canny.Detect | lib/ccv_classic.c:203-329 | a pixel is output iff it lies on a path of candidates from a strong candidate |
| Otsu.Threshold | lib/ccv_classic.c:388-431 | the loops, with their early exits and 32-bit products, give the specified search over the histogram and the variance divided twice |
| Otsu.HistogramTotal | lib/ccv_classic.c:395-402 | every pixel falls into exactly one bin |
| Otsu.BetweenPositive | lib/ccv_classic.c:421-423 | any split with two non-empty classes has positive variance, so it beats the initial zero |
| Otsu.SearchOptimal | lib/ccv_classic.c:411-429 | while no product wraps, the search returns the smallest threshold of greatest between-class variance, or 0 when nothing splits |
| OtsuLimits.RightExactly | lib/ccv_classic.c:404-431 | threshold and reported variance right on every image of T pixels and R bins iff T > 0, and R == 1, or T <= 92681 and (R - 1)(T - 1) < 2^31 |
| OtsuLimits.ThresholdRightExactly | lib/ccv_classic.c:404-429 | the threshold right on every image iff R <= 2, or T <= 92681 and (R - 1)(T - 2) < 2^31 |
| OtsuLimits.SizesWrap | lib/ccv_classic.c:423 | beyond 92681 pixels a two-tone image whose only split is lost |
| OtsuLimits.BinWraps | lib/ccv_classic.c:405 | a bin product past 2^31: an image with a wrong threshold or variance |
| OtsuLimits.ThresholdWraps | lib/ccv_classic.c:420 | a bin product past 2^31 beside two pixels: an image with a wrong threshold |
| Otsu.ScatterSplits | lib/ccv_classic.c:421-423 | total scatter is scatter within the classes plus variance between them |
| Otsu.OptimalLeastWithin | lib/ccv_classic.c:411-429 | a threshold of greatest variance has the least within-class scatter, and the smallest such is returned |
| QuickSort.MedianIsBetween | lib/ccv_internal.h:528-542 | the nested comparisons pick an element between the other two |
| QuickSort.InsertionSort | lib/ccv_internal.h:500-506 | sorts its range and touches nothing else |
| QuickSort.Partition | lib/ccv_internal.h:520-599 | permutes its range and, after any swap, leaves smaller, equal and larger elements in three blocks |
| QuickSort.PushLarger | lib/ccv_internal.h:600-616 | pushing the larger side keeps stack entry k within total / 2^k |
| QuickSort.ShortStack | lib/ccv_internal.h:479 | so at most 30 entries are ever used of the 48 |
| QuickSort.Turn | lib/ccv_internal.h:492-625 | one turn of the inner loop settles the current range or leaves its two parts, the larger on the stack |
| QuickSort.QSort | lib/ccv_internal.h:467-627 | a sorted permutation for every strict weak order; elements beyond the range stay |
| Median.Partition | lib/ccv_internal.h:658-668 | unguarded scans stay in bounds and split the range, crossing with or without a gap |
| Median.SplitIsRank | lib/ccv_internal.h:634-674 | an element with nothing larger before and nothing smaller after is what sorting puts there |
| Median.SortedExists | lib/ccv_internal.h:634-674 | every range has a sorted rearrangement, so its ranks mean something |
| Median.Median | lib/ccv_internal.h:634-674 | returns the element of rank (low + high) / 2 of the range, which alone is permuted |
| ArrayGroup.Find | js/ccv.js:117-125 | parent links end at the element's root because ranks increase |
| ArrayGroup.Compress | js/ccv.js:137-151 | path compression changes no element's root |
| ArrayGroup.Unite | js/ccv.js:127-152 | union by rank merges exactly two classes and keeps ranks increasing |
| ArrayGroup.RootsAreComponents | js/ccv.js:114-155 | after the pairwise pass, equal root iff linked by a chain of similarity in either direction |
| ArrayGroup.Group | js/ccv.js:107-171 | equal index iff linked; -1 for null elements; indices 0 .. cat-1 by first appearance |
| Convolution.ClipExactly | lib/ccv_convnet.c:364-370 | the clipped range holds exactly the kernel lines that meet the image |
| Convolution.ConvolveAt | lib/ccv_convnet.c:368-382 | the running-pointer loops give bias plus the zero-padded sum |
| Convolution.Forward | lib/ccv_convnet.c:352-388 | every output is the rectified zero-padded, strided, partitioned convolution |
| Convolution.WeightGradient | lib/ccv_convnet.c:870-910 | adds the vector whose product with any weights is the pairing of the masked gradient with their forward sums; and the bias sums |
| Convolution.InputGradient | lib/ccv_convnet.c:911-955 | from zero, the vector whose product with any input is that pairing |
| Convolution.Adjoint | lib/ccv_convnet.c:848-957 | the weight and the input gradients have the same inner product, that of the masked gradient with the forward sums |
| Convolution.DotDetermines | lib/ccv_convnet.c:848-957 | inner products with every vector determine the vector, so the gradients are determined |
| PackedConvolution.PackedInjective | lib/ccv_convnet.c:169-173 | no two weights get the same place |
| PackedConvolution.PackedOnto | lib/ccv_convnet.c:169-173 | every place gets a weight |
| PackedConvolution.Repack | lib/ccv_convnet.c:157-176 | each weight of kernel 4k + t is in lane t of quadruple k |
| PackedConvolution.VectorReads | lib/ccv_convnet.c:214-230 | one vector multiply-add extends the sums of four kernels by one channel |
| PackedConvolution.Channels | lib/ccv_convnet.c:212-280 | four split accumulators and the tail of up to three channels add up to the channel sums |
| PackedConvolution.ConvolveAt4 | lib/ccv_convnet.c:198-238 | the accumulators' total is bias plus the four zero-padded sums |
| PackedConvolution.ForwardLanes | lib/ccv_convnet.c:183-282 | the packed pass stores in every output what the plain one does |
| Morphology.WindowExactly | lib/ccv_basic.c:512-521 | the replicated border stands for exactly the clipped window, in both directions |
| Morphology.Pass | lib/ccv_basic.c:510-557 | each line gets its window extremes, also when it is overwritten in place |
| Morphology.TwoPasses | lib/ccv_basic.c:499-560 | column extremes of row extremes are the extremes of the square |
| Morphology.Morph | lib/ccv_basic.c:499-623 | erosion and dilation give the least and the greatest value of the square window clipped to the image |
| Morphology.Dual | lib/ccv_basic.c:562-623 | dilation is erosion of the negative |
| Morphology.ExtremesUnique | lib/ccv_basic.c:499-623 | an image has one erosion and one dilation of each size |
| Morphology.Composes | lib/ccv_basic.c:499-623 | odd sizes p then q give the one result of size p + q - 1 |
| Training.Shuffle | lib/ccv_convnet.c:1320 | for any draws, the range is permuted and nothing else |
| Training.Rotate | lib/ccv_convnet.c:1366-1368 | the overlapping moves turn the index array round by the full batches |
| Training.NextEpoch | lib/ccv_convnet.c:1363-1370 | the order stays a permutation, and what one epoch left out the next one visits |
| Training.Train | lib/ccv_convnet.c:1315-1371 | over all epochs: nothing twice in an epoch, and with a full batch nothing left out twice in a row |
| Genes.Gene.Exists | lib/ccv_bbf.c:330-340 | whether the point is among the used ones of either sign |
| Genes.Gene.Randomize | lib/ccv_bbf.c:342-379 | the rejection loop takes the first points of the draws that are not repeats, in order: a well-formed individual with no point on both sides |
| Genes.Gene.Mutate | lib/ccv_bbf.c:469-532 | adding, removing or replacing a point keeps an individual well formed and its sides apart; the counts change by one or not at all |
| Genes.CloseSlot | lib/ccv_bbf.c:506-514 | removing closes the slot up and marks the last one |
| Genes.Gene.Hybrid | lib/ccv_bbf.c:533-562 | the positive points of one parent and the negative ones of the other, well formed |
| Genes.CrossedParents | lib/ccv_bbf.c:533-562 | two well-formed parents without common points whose child has one on both sides, so no pixels make it answer 1 |
| Genes.SeparatesSome | lib/ccv_bbf.c:25-60 | some pixels make a feature answer 1 iff no point is on both of its sides |
| Genes.FirstGeneration | lib/ccv_bbf.c:424-425 | every individual of the first generation is drawn well formed |
| Genes.Generation | lib/ccv_bbf.c:467-564 | every step of a generation keeps every individual well formed |
| Genes.Evolve | lib/ccv_bbf.c:404-564 | so does every run of generations from the drawn one on, however the fittest are ranked |
| Genes.RunFeature | lib/ccv_bbf.c:25-60 | the early-exit test answers 1 iff every positive pixel exceeds every negative one |
| SummedArea.Plain | lib/ccv_algebra.c:95-112 | every entry is the double sum up to and including its pixel, per channel |
| SummedArea.ZeroPadded | lib/ccv_algebra.c:114-133 | the padded table holds the sums shifted by one, with zeros on top and left |
| SummedArea.FourCorners | lib/ccv_algebra.c:95-133 | four entries give the sum of any rectangle |
| SummedArea.PartialSumsFit | lib/ccv_algebra.c:82-83 | with the chosen type every intermediate value of an 8-bit image is in range |
| SummedArea.NarrowExactly | lib/ccv_algebra.c:82 | 32 bits suffice for every image iff it has at most 0x808080 pixels, one more than the source allows itself |

## Left out
- Cache.Cache.Put: requires the clock below 2^28, where the age field ends; past it the age spills into the type bits, as Words.AgeSpills makes exact and Cache.LateClock shows.
- Cache.Execute: stops short of runs that go on after a clash; Cache.Cache.Put and Cache.ClashLeaves say what such a put leaves behind.
- Programs.Session: assumes collision-free signatures, that outputs have the asked-for shape and are not the sources, and that contents change only without a signature, which the library asks of its callers; matrices an operation allocates for itself are commands of their own, except the gradient's; after the first stale operation it says nothing further.
- QuickSort.QSort: at most 2^31 - 1 elements, the range of the `int` differences it computes.
- Convolution.Forward: real arithmetic in place of single precision, and the parallel loops run in order.
- PackedConvolution.ForwardLanes: the SSE2 form only; the NEON form has the same structure.
- Canny.TestPixel: products, sums and magnitudes of derivatives are unbounded integers; Canny.SectorExactly says up to which derivatives the `int` ones agree.
- Otsu.SearchOptimal: histograms without wrapped products; OtsuLimits.RightExactly and the images it fails on settle the others.
- Otsu.Threshold: means and variances are real; wrapping stands for what C leaves undefined.
- Morphology.Morph: output type equals input type, so the conversion on store is the identity.
- SummedArea.Plain: entries are integers; floating-point tables are not modelled.
- Trie nodes are values written back along their path; tag bits in pointers, alignment, `realloc` addresses and the leak of a node array by a failed assertion are not modelled.
- A null object may be stored; the call of the free function on a null pointer is not recorded.
- The cache's limit and sums are unbounded integers; `size_t` and the thread-local storage class are not modelled.
- Operations that overwrite their source in place or give arrays are not commands.
- Arrays, sparse matrices, header-only matrices and matrices around the caller's memory are not part of the allocator model.
- Canny: gradients are given, thresholds are already rounded; the Sobel filter and the floating-point branch, which the source leaves unfinished, are not modelled.
- The summed-area table, morphology and Otsu take contiguous rows; row padding in `step` is not modelled.
- Genes.Evolve: sorting by fitness is any permutation of the individuals, the draws of a new individual hold as many different points as it takes (else the source would draw for ever), a mutation's draw that finds no new point ends the attempt instead of repeating, and errors, ages and fitness values are not modelled.
- Training.Train: the examples are their indices; what training does with them is not modelled.
- SipHash, FFT, BLAS, CUDA, file formats, drivers, detectors, tracking and everything that rests on floating-point rounding.
