# Dafny model of go-acoustid

This project models the algorithms at the core of go-acoustid and proves what they are for: the compressed fingerprint
format, the alignment and matching of two fingerprints, the sparse bit set, the small text and integer codecs, the
extraction of index queries and the filtering of their results, and the protocol by which the updater keeps the index
in step with the fingerprint table. Paths and lines below are those of the repository.

Code that works step by step is written as methods with the same loops, branches and in-place updates, on arrays, class
fields and local variables. Each such method is proved to compute a function or to establish a relation, and the lemmas
are about that function or relation. `hide` statements keep proofs small; nothing is assumed.

## Modules

- `Arithmetic`, `Bits`, `Bits32`, `Bytes`, `Words`: division with remainder, bit operations on words, byte order, and Go's shifts and ORs on unsigned numbers.
- `Pack`, `PackNumbers`, `PackLoops`: bit packing of widths 3 and 5. The specification is one stream of bits read with two field
  widths; the block loops and each tail case are proved against it.
- `Codec`, `CodecTheorems`, `CodecFormat`, `CodecBits`, `Encoding`: the fingerprint format in its four layers (XOR deltas, gaps between set bits,
  escapes, packing), its theorems, what its bytes and symbols are in numbers, and the loops. `lastBit` and the gaps are 8-bit and wrap; a shift by 32 or more is zero.
- `PopCount`, `IntSet`, `IntSetIO`, `IntSetFormat`, `IntSetRuns`: the population counts, the `SparseBitSet` class on the heap, its
  serialised form, and runs over any number of sets.
- `Filter`, `Histogram`, `Alignment`, `Similarity`, `Matching`, `Matcher`: convolution with border rules, the
  sort-merge join, peak picking, the legacy score, the sections, and the matcher that puts them together. Floating point
  numbers are reals. The exponential function and the power function are parameters: the exponential is only assumed to
  be positive, the power function, where it matters, to keep numbers between 0 and 1 there for exponents of at least 1.
- `HashBits`, `Scores`, `Tiles`: what masks, scores and cuts are, bit by bit and in numbers, apart from the functions that
  compute them.
- `Sorting`: what `sort.Slice` promises, a permutation in which no element is less than an earlier one, with an
  insertion sort as one way to keep the promise. The order of elements that the comparison does not tell apart is open,
  so nothing depends on it.
- `IndexProtocol`, `HelpfulServer`, `FpIndex`, `Updater`: the index server, the connections and the table as a state machine; the
  client with its counters and transactions; and the updater loop.
- `TextCodec`, `Varint`, `Query`, `SearchResults`: fingerprints as text, the two varint formats, the two query
  extractors, and the filter on search results.

## The index protocol: what is taken for granted

The server, the network, the database and time are the environment. Between any two steps of the client the table may
get new rows with larger ids, and the server may answer waiting requests of any connection, any number of times. The
server answers each connection in order and may refuse anything. It accepts no nested transaction, makes rows visible
only at a commit and all of them together, and reports the largest id in the index (zero if there is none), or something that is no number. Writing a
line may fail before or after the server has got it; reading may fail at any time, and after a failed read or write
anything may be read. A context may be done at any time and stays so.

A `helpful` world leaves less open: the server answers each request of the newest connection before anything else happens,
with OK wherever it may and with the largest id as it is; contexts are not done, connecting, reading, writing and the
database succeed, and no new rows come. What happens then is one function of the state (`HelpfulServer.Serve`), and the
updater makes progress: each round inserts the next 10000 rows, unless a transaction was left open.

A run is a path of such steps from an empty index in which the requests on the newest connection come in the updater's
order: a transaction begins right after the largest id was told, takes the rows that follow it one by one, and is
committed. That every state of `Updater.RunUpdater` lies on a run is part of what its methods keep (`FpIndex.Kept`).

Under these assumptions alone the index is always exactly the rows of the table up to the largest id it reports. That no
row is in it twice needs more. If the client gives up on a commit that the server carries out only after the client has
connected again and asked for the largest id, the same rows are inserted again; `IndexProtocol.LateCommitDuplicates` is
such a run. Duplicates occur exactly if some commit was overtaken in this way, and never in a world that is `quiet`:
where requests of an old connection take no effect once a newer connection exists.

## Where the code differs from what one might expect

- `BeginTx` (pkg/fpindex/client.go:277-287) checks the field for the active transaction but never sets it, so
  `ErrTxActive` cannot arise from it; `FpIndex.IndexClient.BeginTx` states this.
- A failed `IndexClient.Insert` can leave its transaction open on a connection that still counts as OK, in these ways
  and no others: the context is done before the rollback that follows a failed insert, so that none is sent; the
  rollback is refused and the server keeps the transaction; the context is done before the commit, or the commit is
  refused and the server keeps the transaction, after neither of which a rollback is attempted
  (pkg/fpindex/client.go:260-271). `FpIndex.LeftOpen` is the exact condition. From then on every insert on the connection
  fails at its begin, and while the server keeps the transaction the updater commits nothing until the connection breaks
  (`Updater.Rounds`).
- `GetNextFingerprints` does not look at the error of the row cursor (database/fingerprint_db/stream.go:39-53), so a
  batch may be cut short silently; this does not harm the index, since the next round continues after it.
- A failed connection attempt is logged as fatal, which ends the process; the `continue` after it is never reached
  (pkg/fpindex/updater.go:66-70).
- `Uvarint32` documents a negative length as a value larger than 32 bits (util/varint.go:20-26), but it also returns one
  for a small value that is padded to more than five bytes: `Varint.PaddedOverflow`; `Varint.DecodedExact` has the exact
  condition.
- An empty list of hashes is encoded as text that does not decode: `TextCodec.RoundTripIff`.
- The comparison at pkg/chromaprint/match.go:368 uses `>=` and is no strict order; the model sorts by `>`, which leaves
  the same freedom for ties.
- `filterIndexSearchResults` looks at the first result whenever the limit is not positive, even if there is none
  (pkg/fpstore/index.go:71-72).
- `ExtractIndexQuery` stops after more than 120 hashes, so it yields up to 121 (server/services/legacy/fingerprint_searcher.go:73).

## Model

| member | source | states |
|---|---|---|
| `CodecTheorems.RoundTrip` | pkg/chromaprint/encoding.go:68-182 | decoding an encoded fingerprint, whatever bytes follow it, gives back exactly its hashes and its version modulo 256, for every list of 1 to 2^24-1 hashes |
| `CodecTheorems.RoundTripIff` | pkg/chromaprint/encoding.go:68-182 | the round trip is exact if and only if the version is in 0..255 and there are 1 to 2^24-1 hashes |
| `CodecTheorems.Reencode` | pkg/chromaprint/encoding.go:68-182 | any accepted bytes, encoded again, decode to the same fingerprint |
| `CodecTheorems.DecodeCount` | pkg/chromaprint/encoding.go:73-99 | on success the version is the first byte and there are exactly as many hashes as the header announces, at least one |
| `CodecTheorems.DecodeMeaning` | pkg/chromaprint/encoding.go:83-134 | on arbitrary accepted bytes: the symbols fall into zero-closed groups, one a hash, and bit p-1 of the XOR of neighbouring hashes is set exactly when a running sum of the group, modulo 256, is p |
| `CodecFormat.PrefixFails` | pkg/chromaprint/encoding.go:68-182 | what the encoder writes for 1 to 2^24-1 hashes, cut short at any byte, is not accepted at all: no byte of it is superfluous |
| `CodecFormat.EncodedBytes` | pkg/chromaprint/encoding.go:140-182 | all the bytes the encoder writes, in numbers: the version, the count highest byte first, the symbols cut off at seven as base-8 digits in three bits each, and the excess over seven of the others as base-32 digits, with the exact size; there is one symbol a set bit of the XOR deltas and one a hash |
| `CodecFormat.SymbolsAre` | pkg/chromaprint/encoding.go:83-114 | symbol i of accepted bytes is its 3-bit field plus, where that field is seven, the 5-bit field whose index is the number of sevens before i |
| `CodecFormat.SymbolsEnd` | pkg/chromaprint/encoding.go:73-99 | the symbols end at the zero that completes the number of hashes in the second to fourth byte |
| `CodecBits.HashesMeaning` | pkg/chromaprint/encoding.go:117-134 | on arbitrary accepted bytes, in numbers: bit k of a hash differs from that bit of the hash before it exactly if some first symbols of its group sum up to k+1 modulo 256 |
| `CodecTheorems.FillGaps` | pkg/chromaprint/encoding.go:147-162 | writing a word as gaps between its set bits and setting the bits of the running sums gives the word back |
| `CodecTheorems.FillMeaning` | pkg/chromaprint/encoding.go:121-132 | a bit of a rebuilt word is set exactly if a running sum of the gaps, in 8-bit arithmetic, names it; sums outside 1..32 set nothing |
| `CodecTheorems.WordsOfSymbols` | pkg/chromaprint/encoding.go:143-166 | undoing the XOR deltas of all words gives the hashes back |
| `CodecTheorems.MergeBack` | pkg/chromaprint/encoding.go:149-156 | putting the exceptions back where the normal stream has a 7 undoes the escaping, and there are as many 7s as exceptions |
| `CodecTheorems.CutAtEnd` | pkg/chromaprint/encoding.go:84-97 | the decoder finds the end of the normal stream, which carries no length, by counting zeros, whatever bits follow |
| `CodecTheorems.CutZeros` | pkg/chromaprint/encoding.go:86-101 | where the stream is cut it holds exactly the announced number of zeros |
| `CodecTheorems.CutNone` | pkg/chromaprint/encoding.go:99-101 | there is nothing to cut exactly if there are fewer zeros than announced |
| `CodecTheorems.DecodeErrors` | pkg/chromaprint/encoding.go:69-107 | the exact condition of each of the four errors |
| `CodecTheorems.HeaderBack` | pkg/chromaprint/encoding.go:173-176 | the four header bytes give back the version modulo 256 and the count modulo 2^24 |
| `Encoding.EmitGaps` | pkg/chromaprint/encoding.go:146-162 | the inner loop of the encoder appends the gaps of one word to the two streams, escaped |
| `Encoding.EmitSymbols` | pkg/chromaprint/encoding.go:141-166 | the outer loop builds the escaped streams of all hashes |
| `Encoding.CompressFingerprint` | pkg/chromaprint/encoding.go:140-182 | the encoder writes the header and the two packed streams and nothing else; CodecFormat.EncodedBytes and CodecFormat.PrefixFails say which bytes these are |
| `Encoding.ScanNormalBits` | pkg/chromaprint/encoding.go:83-101 | the scan of the decoder stops at the last needed zero and counts the 7s up to it, or finds too few zeros |
| `Encoding.AddExceptions` | pkg/chromaprint/encoding.go:108-114 | rewriting the bits in place puts each exception where its 7 is; CodecFormat.SymbolsAre says what it is worth |
| `Encoding.BuildHashes` | pkg/chromaprint/encoding.go:117-132 | the hashes rebuilt in place by ORing bits and XORing neighbours are the words of the symbols |
| `Encoding.UnpackFingerprint` | pkg/chromaprint/encoding.go:68-138 | on any bytes the decoder returns the fingerprint or the error of the specification, with every index in bounds, and leaves the message alone on failure |
| `Encoding.ParseFingerprint` | pkg/chromaprint/encoding.go:34-42 | parsing returns what decoding means |
| `Encoding.ValidateFingerprint` | pkg/chromaprint/encoding.go:54-57 | validation accepts exactly what parsing accepts, although it skips rebuilding the hashes |
| `Pack.RecutStream` | util/pack.go:111-354 | packing and unpacking change neither the order nor the value of any bit of the stream, and add none |
| `Pack.RecutSplit` | util/pack.go:113-121 | a stream may be cut at a block boundary and both parts packed separately |
| `Pack.UnpackPack` | util/pack.go:111-354 | unpacking packed values, whatever bytes follow, starts with exactly these values |
| `Pack.UnpackPackPadding` | util/pack.go:111-354 | with nothing after it, what follows the values is zeros only |
| `PackNumbers.PackedNumber` | util/pack.go:111-354 | packed bytes, read as one number to the base 256 lowest first, are the number whose digits are the values |
| `PackNumbers.UnpackedNumber` | util/pack.go:111-354 | unpacked values are the digits of the number that the bytes are, as many as fill the bytes |
| `PackLoops.PackUint3Slice` | util/pack.go:111-165 | writes ceil(3n/8) bytes through the full-block loop and every tail and touches nothing else: the packed stream if all values are below 8, else what the words of each group make of them |
| `PackLoops.Groups3Packed` | util/pack.go:111-165 | the bytes of all groups are the packed stream if every value fits |
| `PackLoops.Groups5Packed` | util/pack.go:237-301 | the same with values of five bits |
| `PackLoops.UnpackUint3Slice` | util/pack.go:168-203 | reads floor(8n/3) values, the fields of the stream, on any bytes |
| `PackLoops.PackUint5Slice` | util/pack.go:237-301 | the same with values of five bits |
| `PackLoops.UnpackUint5Slice` | util/pack.go:304-354 | the same for fields of five bits |
| `PopCount.PopCount64Correct` | util/popcount.go:11-16 | the parallel additions in one word count the set bits |
| `PopCount.PopCount32Correct` | util/popcount.go:19-24 | the same for 32 bits |
| `IntSet.PopCount64Slice` | util/popcount.go:27-33 | the sum over a block is the number of its set bits |
| `IntSet.ElementsAdd` | util/intset/sparse.go:56-66 | setting one bit of one block, present or new, adds exactly that number to the set |
| `IntSet.ElementsRemove` | util/intset/sparse.go:69-78 | clearing one bit removes exactly that number |
| `IntSet.ElementsSize` | util/intset/sparse.go:129-135 | the sum of the block counts is the cardinality of the set |
| `IntSet.MergedElements` | util/intset/sparse.go:93-106 | merging or copying block by block gives the union |
| `IntSet.CommonElements` | util/intset/sparse.go:108-126 | keeping the nonempty ANDs of common blocks gives the intersection |
| `IntSet.LowestElement` | util/intset/sparse.go:150-158 | the lowest bit of the first nonempty block is the least element |
| `IntSet.HighestElement` | util/intset/sparse.go:178-186 | the highest bit of the last nonempty block is the greatest element |
| `IntSet.SparseBitSet.constructor` | util/intset/sparse.go:28-36 | a new set is empty |
| `IntSet.SparseBitSet.Clone` | util/intset/sparse.go:45-53 | a clone has equal blocks, all in fresh arrays |
| `IntSet.SparseBitSet.Add` | util/intset/sparse.go:56-66 | adds the element and no other; a new block is fresh |
| `IntSet.SparseBitSet.Remove` | util/intset/sparse.go:69-78 | removes the element and no other |
| `IntSet.SparseBitSet.Contains` | util/intset/sparse.go:81-90 | decides membership |
| `IntSet.SparseBitSet.Union` | util/intset/sparse.go:93-106 | becomes the union, copying blocks and sharing none, also with itself |
| `IntSet.SparseBitSet.Intersection` | util/intset/sparse.go:108-126 | returns a fresh set that is the intersection, and its cardinality |
| `IntSet.SparseBitSet.Len` | util/intset/sparse.go:129-135 | returns the cardinality |
| `IntSet.SparseBitSet.Min` | util/intset/sparse.go:138-163 | returns the least element, 0 if there is none, terminates, and leaves the set as it was although it deletes empty blocks |
| `IntSet.SparseBitSet.Max` | util/intset/sparse.go:166-191 | the same for the greatest element |
| `IntSet.SparseBitSet.Compact` | util/intset/sparse.go:194-201 | drops exactly the blocks without bits and leaves the set as it was |
| `IntSetRuns.Update` | util/intset/sparse.go:56-106 | an in-place operation on one of many sets changes that set as the mathematical operation does, and no other |
| `IntSetRuns.Run` | util/intset/sparse.go:44-201 | over every sequence of operations each set equals a mathematical set under the same operations, and no two sets ever share a block |
| `IntSetIO.CompactedUnique` | util/intset/sparse.go:194-201 | equal sets have equal blocks once compacted, whatever their histories |
| `IntSetIO.WriteCanonical` | util/intset/sparse.go:227-249 | two sets with equal elements are written as the same bytes |
| `IntSetFormat.SerialisedFormat` | util/intset/sparse.go:227-249 | the bytes of a written set: the number of blocks, then the blocks in ascending order with their numbers, all lowest byte first; a number is in the set exactly if the bit at its remainder by 8192 is set in the 1024 bytes of the block of its quotient |
| `IntSetFormat.LoadedFormat` | util/intset/sparse.go:204-224 | what reading makes of any bytes: it is complete exactly if 1028 bytes a block are there; a block is in the set exactly if the four bytes of its number are; it holds the bits of the last block with its number, or none if that one breaks off |
| `IntSetIO.Write` | util/intset/sparse.go:227-249 | writes the number of blocks and then the compacted blocks in ascending order of key; if the writer fails, what was written is a beginning of that; keeps the set either way |
| `IntSetIO.ReadBack` | util/intset/sparse.go:204-224 | reading what was written, whatever bytes follow, gives back exactly the written blocks |
| `IntSetIO.WriteReadSet` | util/intset/sparse.go:204-249 | writing and then reading gives the same set of numbers |
| `IntSetIO.Read` | util/intset/sparse.go:204-224 | on any bytes, however early they end: succeeds exactly if enough of them are there; holds what was read, each block in an array of its own; nothing changes without the number of blocks; the set is valid exactly if no key is 2^19 or more |
| `Filter.Interpolate` | util/signal/filter.go:23-70 | every border rule reads the closed-form index: Reflect has period 2n and Mirror 2n-2; the reflecting loops terminate for every index |
| `Filter.ReflectSame` | util/signal/filter.go:60-66 | reflecting an index at either end does not change what it reads |
| `Filter.MirrorSame` | util/signal/filter.go:48-54 | the same for mirroring |
| `Filter.WrapSame` | util/signal/filter.go:37-43 | the remainder, corrected for its sign, is the index modulo n |
| `Filter.IndexMeaning` | util/signal/filter.go:23-70 | which sample each border rule reads for any index: the nearest, or the one at the same place of the periodic continuation of the signal, of the signal and its reversal, or of the signal and its reversal without the ends |
| `Filter.WeightedSum` | util/signal/filter.go:77-88 | the fast interior path and the border path compute the same sum over the infinite extension |
| `Filter.Convolve` | util/signal/filter.go:73-90 | computes the convolution of the kernel with the infinite extension of the signal |
| `Filter.KernelOfOdd` | util/signal/filter.go:103-119 | for an odd width the Gaussian kernel is symmetric, never negative, and sums to one |
| `Filter.GaussianKernel` | util/signal/filter.go:106-119 | the two loops write the scaled weights |
| `Filter.GaussianFilter` | util/signal/filter.go:124-131 | convolves with the Gaussian kernel of the given or the automatic width, also for a negative deviation |
| `Filter.AutomaticWidth` | util/signal/filter.go:125-127 | a width that is not positive is replaced by the odd width that reaches four deviations, rounded, to each side |
| `Filter.Gradient` | util/signal/filter.go:137-151 | central differences inside, one-sided ones at the ends |
| `Filter.SmoothedReversed` | util/signal/filter.go:56-90 | smoothing with any symmetric kernel of odd width and reflection commutes with reversal |
| `Filter.SmoothedTotal` | util/signal/filter.go:56-90 | it multiplies the total by the sum of the weights, so it conserves the total if they sum to one |
| `Filter.WindowPair` | util/signal/filter.go:56-67 | windows of the reflected signal, shifted by the same distance to either side, together make one period of 2n, for every distance |
| `Filter.SumByWeights` | util/signal/filter.go:73-90 | summing the smoothed samples one by one and weight by weight gives the same |
| `Filter.WeightedNonnegative` | util/signal/filter.go:77-88 | smoothing a signal that is never negative gives one that is never negative |
| `HashBits.MaskBits` | pkg/chromaprint/match.go:24-32 | which bits are compared, bit by bit for 0 to 32: the odd bits from the lowest up to sixteen of them, then the even ones from the lowest up |
| `HashBits.MaskSize` | pkg/chromaprint/match.go:24-32 | a mask for n bits has exactly n bits |
| `HashBits.MaskOutside` | pkg/chromaprint/match.go:24-32 | below zero all odd bits are compared, above 32 all bits; the sixteen lowest 64-bit integers act as if their highest bit were not there |
| `HashBits.SameMasked` | pkg/chromaprint/match.go:307-317 | masked hashes are equal exactly if the hashes agree in every bit of the mask |
| `Histogram.SortedEntries` | pkg/chromaprint/match.go:307-317 | collects every hash once, masked, with its offset, and sorts by hash |
| `Histogram.PairWith` | pkg/chromaprint/match.go:329-335 | the inner loop adds one for every query entry of the run, at its offset, if the offset is allowed |
| `Histogram.PairedOne` | pkg/chromaprint/match.go:322-336 | one round of the join adds all pairs of one master position and no others |
| `Histogram.NoMorePairs` | pkg/chromaprint/match.go:326-328 | stopping at the end of the query loses no pair |
| `Histogram.CountOffsets` | pkg/chromaprint/match.go:300-336 | the sort-merge join leaves at d+|query| the number of pairs (i, j) of equal masked hashes with i-j = d, for every d that maxOffset allows, and zero elsewhere |
| `HashBits.CountsMeaning` | pkg/chromaprint/match.go:300-336 | the histogram at each distance is the number of pairs of positions that far apart whose hashes agree in the compared bits, where the limit is zero or at least the distance, and else zero |
| `Histogram.CountsSwapped` | pkg/chromaprint/match.go:319-336 | swapping master and query reverses the histogram |
| `Histogram.CountsTotal` | pkg/chromaprint/match.go:319-336 | for every offset limit its total is the number of matching pairs at an allowed distance |
| `Alignment.PickPeaks` | pkg/chromaprint/match.go:353-367 | collects the local maxima that reach the threshold, in ascending order |
| `Alignment.AlignFingerprints` | pkg/chromaprint/match.go:299-374 | returns the first limit peaks of the smoothed histogram in some order of falling count; Alignment.AllPeaksAre, Alignment.SmoothedCountsAre and HashBits.CountsMeaning say in numbers what these are |
| `Alignment.PeaksHave` | pkg/chromaprint/match.go:354-366 | a hit is among the peaks exactly if it is at a local maximum that reaches the threshold, with the count there |
| `Alignment.AllPeaksAre` | pkg/chromaprint/match.go:341-366 | a hit is a position that holds at least two and at least a tenth of every other, no less than the one before and more than the one after |
| `Alignment.SmoothedCountsAre` | pkg/chromaprint/match.go:338-339 | the smoothed histogram at a position is the average of three neighbours, the ends counting twice, with the weights exp(0) and exp(-1/3.38) |
| `Alignment.PeaksAscend` | pkg/chromaprint/match.go:354-367 | no offset occurs twice |
| `Alignment.BestHits` | pkg/chromaprint/match.go:368-371 | hits fall in count, are at most limit, all peaks if they are fewer, and none that was cut off beats one that was kept |
| `Alignment.HitsInRange` | pkg/chromaprint/match.go:353-373 | every hit lies between -|query| and |master|, so the slicing that follows is legal |
| `Alignment.HitBacked` | pkg/chromaprint/match.go:338-366 | at most one away from a hit there is an allowed offset at which at least two pairs of masked hashes are equal |
| `Alignment.SmoothedPairs` | pkg/chromaprint/match.go:338-339 | for every offset limit the smoothed histogram still sums to the number of matching pairs at an allowed distance |
| `Alignment.SmoothedSwapped` | pkg/chromaprint/match.go:338-339 | swapping the fingerprints reverses the smoothed histogram |
| `Similarity.CountUniqueHashes` | pkg/chromaprint/match.go:376-391 | compaction in place of the sorted masked hashes counts the set of masked hashes; Scores.UniqueMeaning says which these are |
| `Scores.UniqueMeaning` | pkg/chromaprint/match.go:376-391 | the number of different hashes is the number of positions whose hash agrees, in the compared bits, with none before |
| `Similarity.DifferingBound` | pkg/chromaprint/match.go:439 | two hashes differ in at most 32 bits, and in none exactly if they are equal |
| `Similarity.BitErrorBound` | pkg/chromaprint/match.go:437-440 | the bit error of n positions is at most 32n, and zero exactly if all n hashes agree |
| `Scores.DifferingMeaning` | pkg/chromaprint/match.go:439 | what is counted are the bits in which two hashes differ |
| `Scores.BitErrorMeaning` | pkg/chromaprint/match.go:437-440 | the bit error is the number of pairs of a position and a bit in which the fingerprints differ |
| `Similarity.LikenessRange` | pkg/chromaprint/match.go:442-445 | the score before the power step is between 0 and 1, so the clamp never acts; it is 1 exactly if the overlap is all of the shorter fingerprint and agrees |
| `Similarity.DiversityRange` | pkg/chromaprint/match.go:433-435 | the diversity is above one half and at most one |
| `Similarity.CompareOverlap` | pkg/chromaprint/match.go:426-450 | from the unique counts to the score of the overlap; Scores.ScoreZero and Scores.ScoreMeaning say in numbers when it is zero and what it is else |
| `Similarity.CompareAlignedFingerprints` | pkg/chromaprint/match.go:395-451 | computes the score for any hit in range, which Scores.ScoreZero and Scores.ScoreMeaning give in numbers |
| `Scores.ScoreZero` | pkg/chromaprint/match.go:395-451 | for a power function that keeps positive numbers positive the score is zero exactly without an overlap, if fifty times the count of the hit is below the number of different hashes of either part, or if all bits of the overlap differ |
| `Scores.ScoreMeaning` | pkg/chromaprint/match.go:426-450 | else it is the agreeing bits as a share of the bits of the shorter fingerprint, if both parts have at least half as many different hashes as hashes, less ten; and if not, that share to the power 8-7d, with d written out in the counts |
| `Similarity.ScoreRange` | pkg/chromaprint/match.go:395-451 | the score is between 0 and 1 if powers of at least one keep numbers there |
| `Similarity.ScoreSymmetric` | pkg/chromaprint/match.go:395-451 | the score does not depend on which fingerprint comes first |
| `Matching.SmoothNonnegative` | pkg/chromaprint/match.go:256-257 | the smoothed difference is never negative, so the division at line 270 is safe |
| `Matching.SmoothTotal` | pkg/chromaprint/match.go:256-257 | smoothing with width 9 conserves the total number of differing bits |
| `Matching.EdgesTile` | pkg/chromaprint/match.go:264-277 | the edges start at 0 and end at n, and ascend strictly if n > 0: they cut the overlap into tiles |
| `Matching.FindEdges` | pkg/chromaprint/match.go:264-277 | the loop collects the sharp local maxima of the absolute gradient; Tiles.TilesMeaning says in numbers where these are |
| `Matching.CollectSections` | pkg/chromaprint/match.go:279-289 | keeps exactly the tiles with a mean below 13; the mean of an empty tile is not a number and never is |
| `Matching.MatchAlignedFingerprints` | pkg/chromaprint/match.go:236-292 | computes the sections for every offset in range, which Tiles.TilesMeaning characterises in numbers |
| `Matching.MatchesAre` | pkg/chromaprint/match.go:236-292 | sections are non-empty, inside the overlap, ascending, disjoint, and average below 13 differing bits; without an overlap there are none |
| `Matching.MatchesCover` | pkg/chromaprint/match.go:279-289 | every position lies in a tile, and the tile is a section exactly if its mean is below 13 |
| `Tiles.TilesMeaning` | pkg/chromaprint/match.go:264-289 | every position lies in a tile whose ends are 0, n or points as steep as the one before, steeper than the one after and steeper than 0.5(1+s/4), with no such point strictly inside; it is a section exactly if fewer than 13 bits differ on average |
| `Tiles.SectionScores` | pkg/chromaprint/match.go:279-289 | each section is scored by the number of bits that differ in it, divided by its length |
| `Tiles.SmoothMeaning` | pkg/chromaprint/match.go:256-257 | the smoothed difference at a position is the average of the nine positions around it, reflected at the ends, with the weights exp(-dd/3.38) |
| `Tiles.DiffMeaning` | pkg/chromaprint/match.go:236-254 | the difference at each position of the overlap is the number of bits in which the two hashes there differ, and the overlap is all positions that both fingerprints have |
| `Matching.MatchesEqual` | pkg/chromaprint/match.go:236-292 | where the fingerprints agree on the whole overlap there is one section, all of it, with score zero |
| `Matcher.FindSections` | pkg/chromaprint/match.go:211-221 | the sections of the first hit that has any |
| `Matcher.NoSections` | pkg/chromaprint/match.go:211-221 | nothing is reported exactly if no hit has sections |
| `Matcher.RefusalMeaning` | pkg/chromaprint/match.go:159-173 | two fingerprints are refused unless both are of version 1 and have fewer than 65536 hashes |
| `Matcher.Match` | pkg/chromaprint/match.go:188-224 | refuses wrong versions and long fingerprints in this order, else reports the sections at the best hit that has any |
| `Matcher.Compare` | pkg/chromaprint/match.go:159-186 | the same refusals, else the score of the best hit, between 0 and 1 |
| `Matcher.MatchBacked` | pkg/chromaprint/match.go:188-224 | all reported sections have one offset in range and lie in its overlap, and near it at least two pairs of masked hashes are equal |
| `IndexProtocol.IndexIsPrefix` | pkg/fpindex/updater.go:84-103 | in every state that keeps the invariant the index is exactly the rows of the table up to the largest id it reports |
| `IndexProtocol.CommitKeepsPrefix` | pkg/fpindex/updater.go:91-98 | committing the rows that follow what the connection was told keeps the index a prefix, whatever was committed since |
| `IndexProtocol.CommitDuplicates` | pkg/fpindex/updater.go:91-98 | such a commit inserts a row twice exactly if the index has grown past the id the connection was told |
| `IndexProtocol.AnswerKeepsInv` | pkg/fpindex/client.go:163-212 | every answer of the server to any connection keeps the invariant |
| `IndexProtocol.ReceiveKeepsInv` | pkg/fpindex/client.go:178-183 | so does every request, a commit if its rows are in place |
| `IndexProtocol.NewRowKeepsInv` | database/fingerprint_db/stream.go:10-12 | so does a new row of the append-only table |
| `IndexProtocol.ConnectKeepsInv` | pkg/fpindex/client.go:127-134 | so does a new connection |
| `IndexProtocol.AnswerKeepsUndisturbed` | pkg/fpindex/updater.go:73-79 | if only the newest connection is answered, no commit is ever overtaken |
| `IndexProtocol.StepKeepsInv` | pkg/fpindex/updater.go:55-122 | every step keeps the invariant: new rows, connections, answers, and requests in the order of the updater |
| `IndexProtocol.PathKeepsInv` | pkg/fpindex/updater.go:55-122 | so does every state on every run |
| `IndexProtocol.ReachableIndex` | pkg/fpindex/updater.go:55-122 | in every state that a run leads to, the index is exactly the rows up to its largest id, and a row is in it twice exactly if some commit was overtaken |
| `IndexProtocol.LateCommitDuplicates` | pkg/fpindex/updater.go:73-103 | a run with the requests of the updater in their order, every state of which keeps the invariant: a second connection is told that nothing is committed while the commit of the first still waits, and in the end the row is there twice |
| `FpIndex.GapNeverShrinks` | pkg/fpindex/client.go:140-212 | over every run of requests and closes the gap between requests and responses never shrinks, so a connection that is not OK never is again |
| `FpIndex.LeadsGap` | pkg/fpindex/client.go:140-345 | so it is over every call of Close, BeginTx and Insert, each of which is such a run |
| `FpIndex.DoneIs` | pkg/fpindex/client.go:178-200 | once an idle connection has answered one more line, the line answers the request just sent |
| `FpIndex.LaterTransitive` | pkg/fpindex/client.go:163-212 | what the client knows of its connection survives any number of steps of the environment |
| `FpIndex.World.Elapse` | pkg/fpindex/updater.go:61 | any number of new rows and answers, in any order, leads along a run |
| `HelpfulServer.ServeMeans` | pkg/fpindex/client.go:163-212 | what one request does on a helpful server, with its answer: transactions as they fit, the largest id as it is |
| `FpIndex.IndexClient.PutRequest` | pkg/fpindex/client.go:173-183 | the first half of a request: nothing is counted unless the line was written |
| `FpIndex.IndexClient.AwaitResponse` | pkg/fpindex/client.go:185-211 | the second half: a response that is read on an intact connection is the one whose turn it is |
| `FpIndex.IndexClient.SendRequest` | pkg/fpindex/client.go:163-212 | changes the counters as its result says: a consumed response is counted, one that never came widens the gap, an I/O error is remembered; on a connection that was OK, a consumed response is the answer of the server to this very request |
| `FpIndex.IndexClient.Close` | pkg/fpindex/client.go:144-161 | returns without an error exactly if the connection is closed then; without a known transaction only that flag changes, with one the connection is closed only after a rollback was answered OK |
| `FpIndex.IndexClient.BeginTx` | pkg/fpindex/client.go:277-287 | changes the counters as its one request does; an OK answer means that a new, empty transaction is open; it is refused as active exactly if the field was set |
| `FpIndex.IndexClient.Insert` | pkg/fpindex/client.go:247-275 | on any connection it is a run of requests; on one that was OK, success means that all rows are in the index and that exactly their requests were sent, in order, and answered OK; a failure on a connection that stays OK leaves the transaction open exactly as LeftOpen says; where one was open before it fails and sends at most a begin; in a helpful world it succeeds and adds exactly the rows |
| `FpIndex.IndexClientTx.Commit` | pkg/fpindex/client.go:315-329 | a finished transaction is refused; only success finishes it; if the context is done beforehand nothing is sent and the transaction stays open |
| `FpIndex.IndexClientTx.Rollback` | pkg/fpindex/client.go:331-345 | the same for rolling back |
| `Updater.GetLastFingerprintID` | pkg/fpindex/index.go:22-35 | success tells the largest id of the index at some moment of the call; a report that is no 32-bit number is an error that leaves the connection OK |
| `Updater.GetNextFingerprints` | database/fingerprint_db/stream.go:27-54 | the first rows above the given id, at most the limit, possibly fewer than there are; in a helpful world as many as there are or as the limit allows |
| `Updater.Update` | pkg/fpindex/updater.go:81-111 | one pass leads along a run; the rows it reports as inserted are in the index and follow an id that was in it, in a quiet world the largest, so the largest id rises; the transcript of the connection holds exactly the requests for them, all answered OK; if it finds nothing to insert, every row is in the index; in a helpful world without an open transaction the next 10000 rows are inserted, or all that are left; with a transaction kept open it inserts nothing and leaves it open |
| `Updater.Fetch` | pkg/fpindex/updater.go:84-96 | what a pass asks for and fetches before it inserts |
| `Updater.Round` | pkg/fpindex/updater.go:61-121 | one round, with the delay tied to what happened: a minute after giving up a connection or a failed pass; none exactly if rows were inserted, which the transcript shows; ten milliseconds, or a tenth more than the last delay, if the pass found nothing; in a helpful world the round inserts the next 10000 rows, or all that are left |
| `FpIndex.IndexClient.InsertRows` | pkg/fpindex/client.go:260-266 | each row after the answer to the previous one; if the connection stays OK after a failure, a rollback was sent unless the context was done |
| `FpIndex.IndexClient.CommitRows` | pkg/fpindex/client.go:268-273 | if the context is done beforehand the transaction stays open with all its rows on a connection that stays OK |
| `Updater.Rounds` | pkg/fpindex/updater.go:55-122 | any number of rounds from any point of the loop; in a helpful world without an open transaction each round, but a first one that gives up a connection, covers 10000 further rows; while the loop goes on with a connection on which the server keeps a transaction open, no commit is sent, and in a quiet world the index does not change |
| `Updater.RunUpdater` | pkg/fpindex/updater.go:55-122 | after any number of rounds with any failures the state is one that a run leads to, and the index is exactly the rows up to its largest id; no row is in it twice exactly if no commit was overtaken, hence never in a quiet world; in a helpful world n rounds put the first 10000n rows of the table into the index, so enough rounds all of it |
| `TextCodec.RoundTrip` | pkg/fpindex/client.go:56-87 | decoding gives back every non-empty list of hashes, with or without braces |
| `TextCodec.RoundTripIff` | pkg/fpindex/client.go:56-87 | and exactly those |
| `TextCodec.Reencode` | pkg/fpindex/client.go:56-87 | whatever decodes can be encoded and decoded again to the same list |
| `TextCodec.SplitJoined` | pkg/fpindex/client.go:60 | splitting at commas undoes joining |
| `TextCodec.ParseFormatted` | pkg/fpindex/client.go:63-81 | reading a printed signed number gives it back |
| `TextCodec.FormatMeaning` | pkg/fpindex/client.go:80 | what is printed is the number in decimal, with its sign and without a leading zero |
| `TextCodec.LeadingDigit` | pkg/fpindex/client.go:63 | a decimal digit in front counts by its place |
| `TextCodec.ParseMeaning` | pkg/fpindex/client.go:63 | accepted is an optional sign and at least one digit, if the number fits 32 bits with a sign |
| `TextCodec.JoinSplit` | pkg/fpindex/client.go:60 | what is split gives the pieces back when it is joined, and no piece has a comma |
| `TextCodec.FourNumbers` | pkg/fpindex/client_test.go:108-130 | the numbers of the tests, with and without braces, both ways |
| `TextCodec.BracesOff` | pkg/fpindex/client.go:57-59 | removing braces undoes adding them and leaves text without them alone |
| `TextCodec.UnbracedMeaning` | pkg/fpindex/client.go:57-59 | all braces at both ends go, but only from a text that starts with an opening and ends with a closing one |
| `TextCodec.EncodeFingerprint` | pkg/fpindex/client.go:72-87 | the loop joins the signed decimal numbers |
| `TextCodec.DecodeFingerprint` | pkg/fpindex/client.go:56-70 | the loop parses every item or reports the first that is not a number in range |
| `Varint.RoundTrip` | util/varint.go:9-41 | what was written is read back, whatever follows it |
| `Varint.DecodedExact` | util/varint.go:20-41 | a positive length comes with the exact sum of at most five groups; a negative one means more than five groups or a sum of at least 2^32; zero means that the last byte is missing |
| `Varint.PaddedOverflow` | util/varint.go:20-34 | a negative length does not always mean a large value |
| `Varint.EncodedShortest` | util/varint.go:10-18 | no other encoding of the same number is shorter |
| `Varint.NextGroup` | util/varint.go:31-38 | while no bit leaves the word, the shift and the OR add the next group |
| `Varint.PutUvarint32` | util/varint.go:10-18 | writes the encoding and nothing else |
| `Varint.Uvarint32` | util/varint.go:27-41 | computes the meaning of any buffer |
| `Varint.RoundTripSQLite` | util/varint.go:45-90 | what was written is read back, whatever follows it, and the first byte announces the length |
| `Varint.OrderSQLite` | util/varint.go:45-74 | encodings are ordered byte by byte exactly as the numbers are |
| `Varint.SQLiteNumbers` | util/varint.go:45-90 | how long an encoding is for each number, and what any bytes are worth that are long enough, in numbers |
| `Varint.PutSQLiteUvarint32` | util/varint.go:45-74 | writes the encoding and nothing else |
| `Varint.SQLiteUvarint32` | util/varint.go:76-90 | computes the meaning of any buffer that holds what its first byte announces |
| `Query.QueriesAgree` | pkg/fpstore/index.go:25-65 | on every input the legacy query is the first 120 entries of the index query |
| `Query.EmptyQuery` | pkg/fpstore/index.go:34-64 | both are empty exactly if every hash is silence |
| `Query.LegacyMeaning` | pkg/fpstore/index.go:45-64 | the query lists, from the start on, the first positions of the different clean masked hashes, in order, and misses none unless it is full |
| `Query.IndexMeaning` | server/services/legacy/fingerprint_searcher.go:44-81 | the index query lists the same, unless it is full at 121 |
| `Query.QueryHashBits` | pkg/fpstore/index.go:29-30 | the index knows exactly the 28 highest bits of a hash |
| `Query.SameQueryHash` | pkg/fpstore/index.go:53-56 | two hashes ask the same exactly if they differ in the four lowest bits at most |
| `Query.StartMeaning` | pkg/fpstore/index.go:34-48 | the query starts at the beginning up to 120 hashes that are not silence, one further for each more, and at 80 from 200 on |
| `Query.DistinctMeaning` | server/services/legacy/fingerprint_searcher.go:63-78 | one pass with a set of seen hashes finds exactly the first positions |
| `Query.ExtractLegacyQuery` | pkg/fpstore/index.go:25-65 | the loop with its buffer computes the legacy query |
| `Query.ExtractIndexQuery` | server/services/legacy/fingerprint_searcher.go:44-81 | the loop with its break computes the index query |
| `SearchResults.Search` | pkg/fpstore/index.go:73-75 | the binary search finds where the results below the threshold begin |
| `SearchResults.FilterIndexSearchResults` | pkg/fpstore/index.go:67-84 | keeps the first results of the sorted order, as many as limit and threshold allow, for every limit |
| `SearchResults.ThresholdReached` | pkg/fpstore/index.go:72 | even where the 32-bit arithmetic overflows, the threshold is never above the most hits |
| `SearchResults.ThresholdMeaning` | pkg/fpstore/index.go:72 | the threshold is (10 hits + 50)/100 rounded down, less the multiples of 2^32 that the sum loses, of which there are none below 2^32 |
| `SearchResults.KeptAreBest` | pkg/fpstore/index.go:67-84 | at least one result is kept, a best one first; in the order of which a beginning is kept, hits fall and ids ascend among equal hits |
| `SearchResults.KeptWithoutLimit` | pkg/fpstore/index.go:71-78 | without a limit, exactly the results that reach the threshold are kept |
| `SearchResults.KeptWithLimit` | pkg/fpstore/index.go:71-82 | a positive limit below the number of results keeps exactly those within it that reach the threshold; any other limit but zero keeps all |
| `SearchResults.ArrangedOnce` | pkg/fpstore/index.go:68-70 | what is kept does not depend on how the results are sorted |

## Left out

- Pack widths 1, 2, 4, 6 and 7 (util/pack.go): the same block scheme, not used by the fingerprint format.
- Base64 wrapping, `fpcalc`, gRPC and HTTP servers, the gateway, protobuf code, the command line, metrics, S3 export, SQL schemas, connection pools, vfs and zstd: library and process calls.
- Floating point: rounding, `math.Exp` and `math.Pow` are not modelled; reals stand for `float64`, and the final rounding of a score to `float32` is left out.
- `Filter.Convolve`: the source and the destination are taken to be different slices, as in all calls.
- `Filter.GaussianKernel`: the exponential function is any positive function; a deviation of zero, for which the weights are not numbers.
- `Similarity.ScoreRange`: the power function is any function that keeps numbers between 0 and 1 for exponents of at least 1.
- The initial capacity of a sparse bit set; order of iteration over maps, which is left to choice.
- `Alignment.AlignFingerprints`: a negative limit, which would be out of bounds; which of several peaks of equal count come first.
- 64-bit overflow of lengths, offsets and request counters.
- Request lines as text: requests are told apart by their meaning only.
- `Updater.RunUpdater`: opening and pinging the database; the loop is run for any number of rounds instead of for ever.
- Deadlines on the connection; they only make reads and writes fail.
- `TextCodec.DecodeFingerprint`: bad syntax and numbers out of range are not told apart.
- Search results as text, `GetCandidates`, `FixedBitSet`, `MapSet`, `util/bits.go`, `util/minmax.go`, durations: short or straight-line.
- Conformance of the second varint format to any published thresholds: the file has its own.
