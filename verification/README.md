# Verified models of X-HEEP software algorithms

X-HEEP is a microcontroller platform. This project models the algorithms in its repository
that have meaning beyond hardware glue, and proves what they compute:

- **CoreMark's linked list** (`ListCells`, `ListSort`, `ListBench`, `ListInit`, `ListNumbers`,
  `ListIterate`): heap nodes with
  mutable links, the bottom-up mergesort, comparators that memoise keys or rebuild data while
  they compare, an account of every value they compute, the whole list benchmark with its score and
  CRC, and its repetition.
- **The SystemC write-back cache** (`CacheModel`, `CacheProof`, `CacheHistory`, `CacheSystem`): a
  direct-mapped cache with flush and bypass commands, refined to a flat memory over whole runs, and
  the exact histories after which it is not one.
- **The fixed-point radix-2 FFT** (`FftSpec`, `DigitReversal`, `FftFixed`, `FftExact`,
  `FftBounds`, `FftDft`): the in-place loops equal the recursive transform, that transform is the DFT
  when arithmetic is exact, the 16-bit version has a proved range and error bound, and so what is left
  in the output array is the DFT of what was in the input array, up to a bound.
- **im2col and 2D DMA** (`Dma`, `Dma2d`, `Im2col`): the pointer walks of the DMA units against the
  loop nests of the CPU.
- **CoreMark's scanner, its text buffer and the CRC** (`Scanner`, `StateBench`, `Crc`): a regular
  language, a buffer that is corrupted and restored, and division of polynomials over GF(2).
- **The tiled matrix product** (`Matmul`) and **the memory report** (`MemUsage`).

Code that updates objects, arrays or loop variables is modelled by classes, arrays and methods
with loop invariants; their contracts refer to functions, and lemmas about those functions state
what they mean. `Arithmetic` holds shared facts on quotients, powers and 32-bit wrap-around.

## Assumptions

- Cache: a request is one atomic step. Addresses are word aligned, byte enables are 0xF, and all
  addresses of a run share the bits above bit 14 (tags keep those bits, the 32 KiB memory does
  not). The geometry is the default one: 4 KiB, 256 lines of 16 bytes. Writes to masked address
  0x7FFC are commands, not stores. Only the responses to reads are related to the flat memory: a
  write that misses leaves the old word in `rwdata_io`, which `CacheModel.Step` reproduces.
- List: inside `calc_func` the state and matrix benchmarks touch no list memory, and answer what
  they are asked (`Request`: their parameter and the CRC so far) run by run with any values at all
  (`CoreResults.answers`). The list is acyclic, and no two nodes share a data cell where that matters.
- 2D DMA: a transfer adds the first increment between the words of a row and the second one after
  the last word (transposed: the second between words, and the row start moves by the first), and
  puts zeros around the words read. Increments are counted in words.
- FFT: the twiddle table is an input with bounded entries, and the arrays do not overlap where the
  code would read what it has overwritten.

## Findings

- `core_bench_list` says that it leaves the list in its original state. It does so whatever is
  searched if no two items share an index, as in the official runs (`ListNumbers.OfficialNumbers`,
  `ListIterate.InitAndIterate`). `ListBench.BenchList` gives the exact condition in terms of the
  order before the final sort, and for calls without a sort by data in terms of the items alone.
  Lists of more than 322 slots always repeat an index (`ListNumbers.DistinctIff`).
  For seed 2 and 666 bytes the list is not restored (`ListIterate.NotRestored`); for seed 7 the
  record's pointer, which is never updated, loses the head of the list (`ListIterate.HeadLost`).
- Both CRC loops of `core_bench_list` walk with `finder` but hash `list->info` each time; the
  contracts of `FoldHead` and `BenchList` say so.
- `core_bench_state` undoes its corruption if and only if each visited byte is a comma, or the two
  seeds' low bytes agree and the byte did not turn into a comma (`StateBench.RestoredIff`; over all
  steps of the list benchmark, `RestoredByCallsIff`). The official seeds are safe
  (`OfficialRunsKeepBuffer`); with seeds 1 and 1 and 666 bytes a minus sign is lost (`NotUndone`).
- The third "scientific" pattern has no decimal point and scans as invalid
  (`StateBench.ScientificPatterns`).
- The FFT's final copy loop compares a 16-bit counter with 2N and never ends for N = 2^15
  (`FftFixed.CopyLoopEnds`), so the transform is proved for N up to 2^14.
- Bypass can be noticed exactly when some word has changed since its block was last written back,
  by a flush or a conflicting access, which the history of requests tells
  (`CacheHistory.BypassUnnoticedIff`). A flush after it is noticed exactly when main memory has come
  to differ from a word that was resident (`BypassFlushUnnoticedIff`). `StoreThenBypass` and
  `StaleFlush` are two short runs that fail.
- The DMA's first increment was dimensioned for strides of up to 15 words
  (hw/vendor/xheep/dma/data/dma.hjson.tpl:81), but is sign-extended: strides of 8 words and more
  run backwards (`Dma.LongStridesRunBack`). The copies are proved for parameters that fit
  (`Dma.ProgrammedIff`).
- The 2D DMA example's CPU loops count output strides with 8-bit counters, so beyond a stride of 256
  they wrap instead of being reset: `Dma2d.CpuRightIff` gives the exact condition, and
  `LongStrideFails` a shape that passes the driver and for which the comparison fails.
- The bank utilisation of the memory report is exact for the banks that the generator makes
  (`MemUsage.GeneratedBanks`); it would miss bytes only in a bank that is not a whole number of
  kilobytes (`MemUsage.UtilisationIff`).

## Model

| member | source | states |
|---|---|---|
| ListCells.CalcFunc | sw/applications/coremark/core_list_join.c:86-130 | a cached word yields its low seven bits and changes nothing; any other is computed, folded into the CRC once, and the low seven bits of the value are the key that is stored with the cache bit under the untouched high byte |
| ListCells.RunAlgorithm | sw/applications/coremark/core_list_join.c:96-126 | which benchmark is run by the three low bits, with which parameter and CRC; its answer, or the word itself without a benchmark, is folded into the CRC, and kept as state or matrix CRC if that was still zero |
| ListCells.CalcLogged | sw/applications/coremark/core_list_join.c:86-130 | the account of computed words stays true: a word is added exactly when its cell has none yet and it is not cached |
| ListCells.RecordedCrc | sw/applications/coremark/core_list_join.c:126-126 | the CRC after any number of computed words is that of all their values, one after the other, over the CRC before them |
| ListCells.FirstIsKept | sw/applications/coremark/core_list_join.c:108-118 | the state and matrix CRCs are the first values of their benchmarks that are not zero |
| ListCells.FieldOf | sw/applications/coremark/core_list_join.c:89-100 | any field of a data word, bit by bit, is a quotient and a remainder |
| ListCells.WordFields | sw/applications/coremark/core_list_join.c:86-130 | backup byte, low byte, cache bit, key, parameter, period and algorithm of a data word in terms of its bits |
| ListCells.Compare | sw/applications/coremark/core_list_join.c:137-159 | the sign of the result orders the keys or indices that the cells hold after the call; both cells are settled and changed at most once, keeping the backup byte; what is computed goes into the account, and comparing indices computes nothing |
| ListCells.SettledRebuilt | sw/applications/coremark/core_list_join.c:150-159 | a word settled under a null record is the one rebuilt from the high byte |
| ListCells.StepRange | sw/applications/coremark/core_list_join.c:98-107 | the corruption period lies between 0x22 and 0xff |
| ListSort.TakeRun | sw/applications/coremark/core_list_join.c:535-547 | q is advanced by a whole run of insize nodes, or to the end of the list |
| ListSort.MergeStep | sw/applications/coremark/core_list_join.c:553-593 | one node moves to the tail; merged part and both rests stay disjoint chains, and the merge invariant holds with one node more |
| ListSort.MergeRuns | sw/applications/coremark/core_list_join.c:550-594 | two neighbouring runs become one ordered, stable run appended to what is merged |
| ListSort.MergePass | sw/applications/coremark/core_list_join.c:526-600 | a pass turns runs of length insize into runs of twice that length, on the same nodes, and counts its merges |
| ListSort.RunIsSorted | sw/applications/coremark/core_list_join.c:602-604 | a single run in the ghost order is sorted by the comparator's keys and stable |
| ListSort.MergeSort | sw/applications/coremark/core_list_join.c:516-612 | terminates on every nonempty list with a permutation of its nodes, sorted and stable; all words are settled if there are two nodes; only links and settled words change; the words computed are accounted for, each of another cell, not cached before, stored and folded into the record once |
| ListBench.Find | sw/applications/coremark/core_list_join.c:451-466 | the first node that matches by index, or by the low eight bits when the index is negative; null exactly if none does |
| ListBench.FoundIsPosition | sw/applications/coremark/core_list_join.c:451-466 | the match on nodes and the first matching position of the items are the same |
| ListBench.Reverse | sw/applications/coremark/core_list_join.c:481-493 | the same nodes in opposite order |
| ListBench.CacheNext | sw/applications/coremark/core_list_join.c:205-212 | the node behind the found one moves to second place, all others keep their order |
| ListBench.Remove | sw/applications/coremark/core_list_join.c:393-406 | the item's node takes over its successor's data and the successor is unlinked with the item's data |
| ListBench.UndoRemove | sw/applications/coremark/core_list_join.c:424-436 | the node is linked back in behind the modified one and the data are swapped back |
| ListBench.FindAndReverse | sw/applications/coremark/core_list_join.c:192-213 | one round: hit or miss, new order and score, in terms of the first match (what the score is: ScoreByBits) |
| ListBench.ScoreByBits | sw/applications/coremark/core_list_join.c:194-204 | a word found adds one exactly if its bits 0 and 9 are set, the word looked at after a miss exactly if its bit 8 is set |
| ListBench.SearchTotals | sw/applications/coremark/core_list_join.c:190-218 | after n rounds, from the first round on: index searched, sum of the bits added, hits and misses in closed form |
| ListBench.SearchScore | sw/applications/coremark/core_list_join.c:190-220 | the score of a search is the number of bits added, plus four times the hits, minus the misses, modulo 2^16 |
| ListBench.RoundAt | sw/applications/coremark/core_list_join.c:192-213 | place by place what a round does: the list turns round, and the item before the one found goes to second place |
| ListBench.MappedAfterFind | sw/applications/coremark/core_list_join.c:192-213 | a round moves whatever belongs to the nodes exactly as it moves the nodes |
| ListBench.SearchPhase | sw/applications/coremark/core_list_join.c:187-220 | after find_num rounds items, index and score are those of the search on plain sequences, and a lone miss only reverses the list |
| ListBench.KeptByOrder | sw/applications/coremark/core_list_join.c:173-240 | for an order of positions fixed by the items, the condition on nodes under which list and head come back is the one on indices and positions |
| ListBench.DataSort | sw/applications/coremark/core_list_join.c:221-223 | with a positive finder index all keys are cached and nondecreasing; exactly the cells of the list whose words were not cached have been computed, each once and folded into the record in turn, and the items sorted hold those keys; otherwise nothing changes |
| ListBench.FoldHead | sw/applications/coremark/core_list_join.c:230-234 | the CRC of the head's word, repeated once per node walked |
| ListBench.WalkedNodes | sw/applications/coremark/core_list_join.c:227-234 | as many nodes are hashed as there are from the item found on, or from the second one |
| ListBench.RemoveAndUndo | sw/applications/coremark/core_list_join.c:224-238 | list and node-to-data links are restored, and the CRC counts the nodes from the match among the remaining items on |
| ListBench.IndexSort | sw/applications/coremark/core_list_join.c:239-240 | sorted by index, stable, every data word rebuilt from its backup byte |
| ListBench.SortedOrderUnique | sw/applications/coremark/core_list_join.c:173-173 | with distinct indices a list has only one sorted order |
| ListBench.RebuiltIsIdentity | sw/applications/coremark/core_list_join.c:153-157 | rebuilding is invisible if and only if the low byte copies the high byte |
| ListBench.SortRestores | sw/applications/coremark/core_list_join.c:173-240 | what the final sort brings back: the whole list if and only if it was sorted and equal indices kept their order in the list that is sorted, the head if and only if no index is below its own and it comes first among its equals |
| ListBench.ReversedKept | sw/applications/coremark/core_list_join.c:194-200 | a reversed list comes back if and only if its indices strictly increase, its head if and only if its index is strictly the least |
| ListBench.BenchList | sw/applications/coremark/core_list_join.c:175-252 | whatever was found, moved and computed: same nodes, same links to data, all words rebuilt, sorted by index; order and head come back if and only if equal indices kept theirs before the final sort, which for finder indices up to 0 is told from the items before the call, and after one missing search means strictly increasing indices (the head: a strictly least one); the score is BitCount + 4 hits - misses; the uncached words of the list, and only those, are computed for a sort by data, each once and folded into the record; the result is the CRC of the two heads over the search score |
| ListInit.SlotsFit | sw/applications/coremark/core_list_join.c:271-277 | as many slots as 20-byte items fit, less two; both slot arrays fit the block |
| ListInit.InsertNew | sw/applications/coremark/core_list_join.c:352-377 | the new item takes the next header and data slot behind the head; without a slot to spare nothing changes |
| ListInit.Insert | sw/applications/coremark/core_list_join.c:283-305 | all slots but the last become an acyclic list, each node with its own data slot and the word of its insertion number |
| ListInit.ItemWordFields | sw/applications/coremark/core_list_join.c:296-301 | the word of item i selects the algorithm by i modulo 8, has the low four bits of i ^ seed as data, is not cached and repeats its byte |
| ListInit.PatternBits | sw/applications/coremark/core_list_join.c:296-316 | the pattern of a position is the exclusive or of position and seed, bit by bit |
| ListInit.MixedIndexBits | sw/applications/coremark/core_list_join.c:313-320 | a mixed index has the low fourteen bits of the pattern, with three bits of the next position or-ed in from bit 8 on |
| ListInit.IndexItems | sw/applications/coremark/core_list_join.c:306-322 | indices follow the formula from the head on, between the head's 0 and the tail's 0x7fff |
| ListInit.EndsStay | sw/applications/coremark/core_list_join.c:283-323 | the sort leaves the head first and the tail last |
| ListInit.IncreasingIffDistinct | sw/applications/coremark/core_list_join.c:306-323 | the built list is in strict order if and only if the numbering repeats no index |
| ListInit.LeastIffAlone | sw/applications/coremark/core_list_join.c:283-323 | the head has the least index if and only if no other slot gets index 0 |
| ListInit.InitList | sw/applications/coremark/core_list_join.c:267-336 | an acyclic list of exactly size - 1 nodes, each with its own header and data slot, known words and indices, sorted by index, strictly if and only if no index is repeated; the head is strictly least if and only if no other item gets index 0 |
| ListNumbers.DistinctIff | sw/applications/coremark/core_list_join.c:306-322 | an index is repeated if and only if there are more than 322 slots or some mixed index falls among the numbers given in order |
| ListNumbers.OfficialSeeds | sw/applications/coremark/main.c:163-177 | the seeds of the performance and validation runs repeat no index exactly up to 322 slots |
| ListNumbers.OfficialNumbers | sw/applications/coremark/main.c:309-332 | the seeds and sizes of all five official runs repeat no index |
| ListNumbers.SeedTwoRepeats | sw/applications/coremark/core_list_join.c:311-320 | seed 2 and a block of 666 bytes repeat an index |
| ListNumbers.SeedSevenSharesZero | sw/applications/coremark/core_list_join.c:311-320 | seed 7 and 666 bytes give an item the head's index 0 |
| ListNumbers.SeedMisses | sw/applications/coremark/core_list_join.c:296-304 | only seeds that are multiples of 8 give an item a low byte of 0, which the second call searches first |
| ListIterate.InitAndBench | sw/applications/coremark/main.c:236-242 | one call on a freshly built list: distinct indices bring it back whatever is searched; after one missing search it comes back if and only if they are distinct, its head if and only if no item shares index 0 |
| ListIterate.NotRestored | sw/applications/coremark/main.c:80-88 | seed 2, 666 bytes, third seed 1: the two calls of the first iteration do not both leave the list in the order in which they got it |
| ListIterate.HeadLost | sw/applications/coremark/main.c:80-88 | seed 7, 666 bytes, third seed 1: by the end of the first iteration the record's pointer is not the head of the list |
| ListIterate.OneCall | sw/applications/coremark/main.c:82-85 | one call on whatever is behind the pointer: what is behind it afterwards, all of it if the head is strictly least and, for finder indices up to 0, if and only if the items bring the head back; what it does to the record, from the values computed to the result folded in |
| ListIterate.Iterate | sw/applications/coremark/main.c:68-91 | any number of iterations on a pointer that is never written, as long as three nodes are behind it: calls alternate between the finder indices, each begins with the record that the one before it has left, computes its words, folds them and then its result into the CRC; the list CRC is that of the first iteration; with a head of least index the pointer stays the head, and with distinct indices and self-backed words every call runs on the very same list and cells |
| ListIterate.IterationCrc | sw/applications/coremark/main.c:68-91 | the CRC of a whole run is that of all values computed and all results, call by call in order; nothing is dropped and nothing else goes in |
| ListIterate.InitAndIterate | sw/applications/coremark/main.c:68-91 | with a numbering that repeats no index, all calls of all iterations run on the list as it was built and leave it so |
| CacheModel.SplitRebuild | tb/systemc_tb/Cache.h:80-138 | tag and index rebuild the block base, and base and offset make up the address |
| CacheModel.DefaultGeometry | tb/systemc_tb/Cache.h:41-138 | tag, index and offset of the default geometry are the only ones that make up the address; a memory index is that of the word behind the masked address |
| CacheModel.SameBlock | tb/systemc_tb/Cache.h:80-96 | two addresses share tag and index exactly if they lie in one block |
| CacheModel.Commands | tb/systemc_tb/MemoryRequest.h:124-161 | at address 0x7FFC a written 1 is a flush, a 2 the bypass for good, anything else nothing; no other request is a command, and any other write leaves its word in the cache or, in bypass, in memory |
| CacheProof.EvictedWord | tb/systemc_tb/MemoryRequest.h:201-213 | after the write-back main memory holds the victim's words in their block and is unchanged elsewhere |
| CacheProof.FillKeepsView | tb/systemc_tb/MemoryRequest.h:180-216 | a miss with fill and eviction changes no word that a client can see, although the fill is read before the write-back |
| CacheProof.FillHits | tb/systemc_tb/MemoryRequest.h:194-216 | after the fill the address hits |
| CacheProof.SetWordChangesView | tb/systemc_tb/Cache.h:150-158 | a write to a cached word changes exactly that word of the view |
| CacheProof.HitReadsView | tb/systemc_tb/Cache.h:140-148 | a hit reads the word of the view |
| CacheProof.FlushWritesView | tb/systemc_tb/MemoryRequest.h:127-143 | after a flush main memory is the view, and the view is unchanged with all lines still valid |
| CacheProof.CachedStepRefines | tb/systemc_tb/MemoryRequest.h:124-230 | one request in cached state acts on the view as on a flat memory; reads return its word |
| CacheProof.BypassStepRefines | tb/systemc_tb/MemoryRequest.h:156-161 | in bypass every request but a flush acts on main memory as on a flat memory |
| CacheProof.FillKeepsClean | tb/systemc_tb/MemoryRequest.h:193-216 | misses on reads after a flush keep the cache clean |
| CacheProof.PhaseStep | tb/systemc_tb/MemoryRequest.h:124-230 | a request that keeps the handover rules keeps the phase invariant and refines the flat memory |
| CacheProof.RunRefinesFlat | tb/systemc_tb/MemoryRequest.h:113-237 | over every disciplined run each read returns what a flat memory holds at that point |
| CacheProof.FlatIsLastWrite | tb/systemc_tb/MemoryRequest.h:113-237 | the flat memory holds the last word written to an address |
| CacheProof.NeverWritten | tb/systemc_tb/MemoryRequest.h:113-237 | words that no request stores to keep their value |
| CacheProof.EmptyIsClean | tb/systemc_tb/Cache.h:60-74 | a cache without valid lines shows main memory |
| CacheHistory.CachedHistory | tb/systemc_tb/MemoryRequest.h:124-230 | the requests alone determine, from an empty cache, which blocks are resident and when each word was last written back, and so what main memory holds |
| CacheHistory.DirectState | tb/systemc_tb/MemoryRequest.h:124-161 | main memory and the stale lines after the bypass command and any further requests, flushes included |
| CacheHistory.DirectAnswer | tb/systemc_tb/MemoryRequest.h:156-161 | every read after the command is answered from that memory |
| CacheHistory.AnswersFlatIff | tb/systemc_tb/MemoryRequest.h:113-237 | a whole run with a bypass command, flushes included, is answered as by a flat memory if and only if each later read is of a word at which main memory, as the requests determine it, agrees with the flat memory |
| CacheHistory.BypassUnnoticedIff | tb/systemc_tb/MemoryRequest.h:144-161 | every continuation without a flush is answered as by a flat memory if and only if each word holds what it held when a flush or a conflicting access last wrote it back |
| CacheHistory.BypassFlushUnnoticedIff | tb/systemc_tb/MemoryRequest.h:127-143 | a flush after the command, whatever came between, changes nothing that a client sees if and only if main memory still agrees at each resident word with the flat memory of the requests before the command |
| CacheHistory.StoreThenBypass | tb/systemc_tb/MemoryRequest.h:144-161 | store, bypass, load of the same word: the load answers the old word |
| CacheHistory.StaleFlush | tb/systemc_tb/MemoryRequest.h:127-143 | load, bypass, store, flush, load of the same word: the store is lost |
| CacheSystem.MainMemory.Transport | tb/systemc_tb/MainMemory.h:39-64 | a write changes one word, a read returns it and changes nothing |
| CacheSystem.CacheMemory.constructor | tb/systemc_tb/Cache.h:41-74 | all lines start invalid |
| CacheSystem.CacheMemory.CacheHit | tb/systemc_tb/Cache.h:103-108 | a hit is a valid line with the address's tag |
| CacheSystem.CacheMemory.AddEntry | tb/systemc_tb/Cache.h:110-116 | exactly the line of the index is replaced |
| CacheSystem.CacheMemory.SetWord | tb/systemc_tb/Cache.h:150-158 | exactly one word of the line changes, though the entry is added once per byte |
| CacheSystem.MemoryRequest.ReadBuffer | tb/systemc_tb/MemoryRequest.h:59-91 | the words of consecutive masked addresses; memory is unchanged |
| CacheSystem.MemoryRequest.WriteBuffer | tb/systemc_tb/MemoryRequest.h:59-91 | memory with the buffer written to consecutive masked addresses |
| CacheSystem.MemoryRequest.Flush | tb/systemc_tb/MemoryRequest.h:127-143 | every valid line is written back, lines are untouched |
| CacheSystem.MemoryRequest.Miss | tb/systemc_tb/MemoryRequest.h:180-216 | the object's state becomes the filled state, and the miss is counted |
| CacheSystem.MemoryRequest.Serve | tb/systemc_tb/MemoryRequest.h:124-230 | the objects take exactly the step of the model, with its response and the hit and miss counts |
| CacheSystem.MemoryRequest.Process | tb/systemc_tb/MemoryRequest.h:94-238 | the request loop is the run of the step function; from an empty cache every disciplined run is answered as a flat memory answers it |
| DigitReversal.ReversalBound | sw/applications/example_fft/fft.h:51-67 | the reversal of n digits is below base^n |
| DigitReversal.ReversalInvolution | sw/applications/example_fft/fft.h:51-67 | reversing twice gives the number back, for base 2 and base 4 alike |
| DigitReversal.ReversalDigits | sw/applications/example_fft/fft.h:51-67 | digit i of the reversal is digit d - 1 - i of the number |
| DigitReversal.DigitAtIs | sw/applications/example_fft/fft.h:60-64 | a digit is the quotient by the power of the base, modulo the base |
| DigitReversal.ReversalsPermute | sw/applications/example_fft/fft.h:69-74 | the reversals of 0 to N - 1 are a permutation of 0 to N - 1 |
| DigitReversal.LogFloor | sw/applications/example_fft/fft.h:20-36 | the largest exponent whose power does not exceed N |
| DigitReversal.BitReversal | sw/applications/example_fft/fft.h:51-67 | the shifting loop computes the digit reversal without losing a bit |
| DigitReversal.BitReversedSeq | sw/applications/example_fft/fft.h:69-74 | the generated 16-bit table holds the reversals, and up to 2^15 entries it is that permutation also when read with a sign |
| DigitReversal.ReorderedIsReversal | sw/applications/example_fft/fft.h:112-116 | evens before odds, recursively, is reading in bit-reversed order |
| FftSpec.StagesConcat | sw/applications/example_fft/fft.h:137-169 | stages act on neighbouring blocks independently |
| FftSpec.IterativeIsRecursive | sw/applications/example_fft/fft.h:109-169 | for every butterfly, the stages over the bit-reversed samples are the recursive decimation-in-time transform |
| FftFixed.ButterflyAt | sw/applications/example_fft/fft.h:152-166 | two samples change by a truncating butterfly, no other sample does |
| FftFixed.Block | sw/applications/example_fft/fft.h:149-167 | a block becomes the combination of its halves |
| FftFixed.StageZero | sw/applications/example_fft/fft.h:118-131 | the unrolled loop is the first stage |
| FftFixed.StageBlocks | sw/applications/example_fft/fft.h:147-168 | the blocks of a stage together are the stage |
| FftFixed.LoadTwiddles | sw/applications/example_fft/fft.h:141-145 | the gathered factors are every twiddle_step-th table entry, all in range |
| FftFixed.Reorder | sw/applications/example_fft/fft.h:112-116 | the samples in recursive even-odd order |
| FftFixed.IterativeFftRadix2 | sw/applications/example_fft/fft.h:106-175 | the output is the recursive transform of the input with the same 16-bit butterfly, for every twiddle table |
| FftFixed.Radix2 | sw/applications/example_fft/main.c:61-72 | generating the table and transforming with it gives the recursive transform |
| FftFixed.CopyLoopEnds | sw/applications/example_fft/fft.h:171-174 | the copy loop ends if and only if N is below 2^15 |
| FftExact.DitIsDft | sw/applications/example_fft/fft.h:109-169 | with exact multiplication by powers of a principal N-th root, every output is the DFT sum |
| FftExact.SumSplits | sw/applications/example_fft/fft.h:137-169 | a Fourier sum splits into those of even and odd samples |
| FftBounds.DriftClosedForm | sw/applications/example_fft/main.c:34-36 | the error bound in closed form; 13 units for 16 samples, inside the tolerance 15 |
| FftBounds.ProductFacts | sw/applications/example_fft/fft.h:158-160 | the 32-bit product does not overflow and the shifted one is at most twice the sample |
| FftBounds.TransformInRange | sw/applications/example_fft/fft.h:118-169 | if the final size fits 16 bits, no product and no stored sum of the whole transform wraps |
| FftBounds.TwiddledNear | sw/applications/example_fft/fft.h:158-166 | an error of e grows to at most 3e + 1 in a butterfly |
| FftBounds.FixedPointAccuracy | sw/applications/example_fft/fft.h:106-175 | for 2 * 3^(k-1) * B <= 32767: nothing wraps, and each part of each output is within (3^(k-1) - 1) / 2 of the transform without rounding |
| FftDft.RootOnCircle | sw/applications/example_fft/fft.h:76-82 | the powers of a principal root lie on the unit circle |
| FftDft.TableClose | sw/applications/example_fft/fft.h:137-169 | with a table whose numbers are the parts of the root times 2^d, off by at most g units, the transform without rounding stays within the slip of its level of the transform with the root |
| FftDft.OutputsAreDft | sw/applications/example_fft/fft.h:106-175 | numbers 2f and 2f + 1 of the output are the parts of the DFT sum at frequency f of the pairs in the input, within rounding and slip |
| FftDft.ToleranceClosedForm | sw/applications/example_fft/fft.h:76-82 | an exact table leaves (3^(k-1) - 1) / 2; each unit that a table is off adds 4 (k - 1) 3^(k-2) B / 2^d |
| FftDft.FourSampleTable | sw/applications/example_fft/fft.h:76-82 | 256, 0, 0, -256 is the exact table of four samples with eight fractional bits |
| FftDft.TransformIsDft | sw/applications/example_fft/main.c:61-72 | generating the positions and transforming leaves in X the DFT of x, array index by array index, up to the tolerance |
| Dma.TargetsIncrease | hw/vendor/xheep/dma/rtl/dma_units/dma_write_unit.sv:193-213 | with increments of at least one as read from the registers, the write pointer only moves up, so no word is written twice |
| Dma.ProgrammedIff | hw/vendor/xheep/dma/data/dma.hjson.tpl:77-125 | registers of 6 and 23 bits in bytes, sign-extended, pads of 6 bits and sizes of 16 hold what was asked for if and only if each parameter fits |
| Dma.RegisterContents | hw/vendor/xheep/dma/data/dma.hjson.tpl:77-125 | in bytes, first increments are kept modulo 2^6 and second ones modulo 2^23, both with a sign |
| Dma.LongStridesRunBack | hw/vendor/xheep/dma/rtl/dma_units/dma_read_unit.sv:130-134 | first increments of 8 to 15 words move both pointers backwards |
| Dma.Transfer | hw/vendor/xheep/dma/rtl/dma_units/dma_read_unit.sv:136-222 | for the numbers that the registers hold: row i, column j of the padded matrix lands at its closed-form address with the source word of its closed-form address, or zero; nothing else is written; plain and transposed |
| Dma.Launch | sw/device/lib/drivers/dma/dma.c:486-500 | second increments of zero are refused and nothing is written; otherwise the units run on what the registers hold |
| Dma2d.CpuRow | sw/applications/example_dma_2d/main.c:225-257 | one row driven by an 8-bit stride counter and a 16-bit padding counter holds what those counters lead to, for every stride |
| Dma2d.CpuCopy | sw/applications/example_dma_2d/main.c:222-275 | the counter-driven loops write, for every stride, the cells that the 8-bit counters lead to, plain and (lines 419-472) transposed |
| Dma2d.CountersFollowIff | sw/applications/example_dma_2d/main.c:133-134 | the 8-bit counter and its resets are remainder and quotient by the stride if and only if the stride is at most 256 |
| Dma2d.CpuRightIff | sw/applications/example_dma_2d/main.c:222-275 | the loops write the closed-form matrix for all source data if and only if each output stride is at most 256 or its dimension has a single place |
| Dma2d.LongStrideFails | sw/applications/example_dma_2d/main.c:264-272 | two rows at a stride of 300: row 256 repeats the first word and row 300 misses the second |
| Dma2d.WalksFollowMatrix | sw/applications/example_dma_2d/main.c:87-93 | with the increments of the macros both pointer walks follow the matrix, strides and all |
| Dma2d.HitIsTarget | sw/applications/example_dma_2d/main.c:68-73 | stride hits are the places written |
| Dma2d.GapIsNoTarget | sw/applications/example_dma_2d/main.c:68-73 | the gaps that the output stride leaves are not written |
| Dma2d.DmaCopy | sw/applications/example_dma_2d/main.c:150-178 | if all parameters fit their registers, one transfer into a cleared array produces the closed-form matrix; the driver refuses it exactly if the second source increment is zero |
| Dma2d.ShapeFitsRegisters | sw/applications/example_dma_2d/main.c:87-93 | strides below 8 words, pads below 64, sizes below 2^16 and rows below 2^20 words fit |
| Dma2d.CopyUnique | sw/applications/example_dma_2d/main.c:292-298 | the closed form determines the whole array |
| Dma2d.CopyMeaning | sw/applications/example_dma_2d/main.c:68-93 | the copy in terms of the parameters alone: size, place and source index of every word, plain and transposed |
| Dma2d.CopyBoth | sw/applications/example_dma_2d/main.c:292-298 | for parameters that fit the registers and a transfer that the driver takes, the comparison succeeds if and only if the CPU's counters lead to the matrix, and so always for output strides up to 256 |
| Im2col.CpuPatchRow | sw/applications/example_im2col/im2col_lib.c:152-171 | a row of patches holds its image words, with zeros outside, at the computed index |
| Im2col.Im2colCpu | sw/applications/example_im2col/im2col_lib.c:130-174 | the loop nest writes the im2col matrix, all indices in range |
| Im2col.ZeroCounts | sw/applications/example_im2col/im2col_lib.c:240-290 | a patch lies before the image exactly if it is one of the first zeros, behind it exactly if it is one of the last |
| Im2col.NonemptyIff | sw/applications/example_im2col/im2col_lib.c:292-294 | a transfer size is at least one if and only if some patch reaches the image |
| Im2col.NoEmptyTransferIff | sw/applications/example_im2col/im2col_lib.c:292-294 | all transfers are nonempty if and only if every filter row and column meets the image in some patch |
| Im2col.SourceWalk | sw/applications/example_im2col/im2col_lib.c:301-311 | start index and src_inc_d2 take the read pointer through exactly the image words of the patches |
| Im2col.TargetWalk | sw/applications/example_im2col/im2col_lib.c:313-322 | pads and sizes add up to one word per patch, written where the patch belongs |
| Im2col.TransferFits | sw/applications/example_im2col/im2col_lib.c:301-324 | a transfer reads only inside the image and writes only inside the output |
| Im2col.OutputIsValue | sw/applications/example_im2col/im2col_lib.c:301-324 | what the transfer writes for a patch is its im2col value |
| Im2col.DmaBlock | sw/applications/example_im2col/im2col_lib.c:234-326 | one transfer whose parameters fit the registers fills one block of the matrix and leaves the earlier ones alone |
| Im2col.BlockAccepted | sw/applications/example_im2col/im2col_lib.c:301-303 | src_inc_d2 is never zero, so the driver takes every transfer |
| Im2col.ShapeFitsAll | sw/applications/example_im2col/im2col_lib.c:297-322 | strides below 8 words, padding below 64, fewer than 2^16 patches each way and STRIDE_D2 * IW below 2^20 fit for every filter position |
| Im2col.CountersStep | sw/applications/example_im2col/im2col_lib.c:344-381 | the incremental counters follow remainder, quotient and channel of the filter position |
| Im2col.Im2colDma | sw/applications/example_im2col/im2col_lib.c:182-382 | the DMA branch writes the im2col matrix if every transfer is nonempty and fits the registers |
| Im2col.Im2colUnique | sw/applications/example_im2col/im2col_lib.c:130-382 | the matrix is determined place by place |
| Im2col.PatchesAreAll | sw/applications/example_im2col/im2col_lib.h:95-96 | the macros count all placements of the filter that fit the padded image, and no more |
| Im2col.Im2colMeaning | sw/applications/example_im2col/im2col_lib.c:130-174 | the matrix in terms of channels, filter rows and columns, images and all placements: the image word under each filter element, or zero where it sticks out |
| Im2col.Im2colBoth | sw/applications/example_im2col/im2col_lib.c:130-382 | both branches fill the same array if every transfer is nonempty and fits the registers |
| Scanner.RunMeaning | sw/applications/coremark/core_state.c:234-347 | the machine ends in its int, float and scientific states exactly on the three regular languages |
| Scanner.CharClasses | sw/applications/coremark/core_state.c:213-299 | the classes of characters: digits, signs, point, both letters e, comma |
| Scanner.InvalidIsHopeless | sw/applications/coremark/core_state.c:234-347 | the machine gives up if and only if no continuation is a number |
| Scanner.TallyMeaning | sw/applications/coremark/core_state.c:247-343 | a transition counter goes up by one exactly for a state that was passed through and left; the scientific one never, the invalid one only for hopeless first characters and exponent digits |
| Scanner.Transition | sw/applications/coremark/core_state.c:247-343 | one character: next state and counters |
| Scanner.CoreStateTransition | sw/applications/coremark/core_state.c:233-347 | a call returns the state of the field and stops behind its comma, at its end, or behind the first hopeless character, and raises the counters accordingly |
| Scanner.CallsPartition | sw/applications/coremark/core_state.c:82-92 | repeated calls cut the text into nonempty pieces, one each |
| Scanner.CommaResynchronises | sw/applications/coremark/core_state.c:239-246 | what follows a comma is scanned as if it stood alone, whatever was wrong before |
| Scanner.CleanFields | sw/applications/coremark/core_state.c:239-246 | fields that can be numbers take one call each, which returns their kind |
| Scanner.ScanText | sw/applications/coremark/core_state.c:82-92 | the scanning loop terminates inside the block with the counts of those calls; the final counters together grow by one for each call |
| StateBench.Corrupt | sw/applications/coremark/core_state.c:94-100 | every step-th byte that is no comma is XORed with the seed, the others are untouched |
| StateBench.RestoredIff | sw/applications/coremark/core_state.c:94-120 | exactly when the second pass undoes the first |
| StateBench.ZeroSurvives | sw/applications/coremark/core_state.c:94-112 | of two trailing zeros one survives any step of at least two, so both scans end inside the block |
| StateBench.CallsKeepBuffer | sw/applications/coremark/core_state.c:62-128 | with equal seed bytes and no byte that turns into a comma, any number of calls leave the buffer unchanged and end inside it |
| StateBench.ScansEndInside | sw/applications/coremark/core_state.c:82-112 | whatever the seeds and however many calls came before, both scans of a call with a step of the list benchmark end inside the buffer |
| StateBench.RestoredByCallsIff | sw/applications/coremark/core_state.c:94-120 | all sequences of calls with the steps of the list benchmark keep the buffer if and only if each byte that such a step visits is a comma, or the seeds' low bytes agree and do not turn it into one |
| StateBench.StepsOfWords | sw/applications/coremark/core_list_join.c:98-107 | the steps that data words give are exactly the multiples of 0x11 from 0x22 to 0xff |
| StateBench.NotUndone | sw/applications/coremark/core_state.c:62-128 | seeds 1 and 1, 666 bytes, step 0x22: a minus sign at offset 374 becomes a comma for good, so the benchmark changes its buffer |
| ListNumbers.FirstItemSeedOne | sw/applications/coremark/core_list_join.c:296-301 | the first list item of seed 1 asks for the state benchmark with that step |
| StateBench.HashCounters | sw/applications/coremark/core_state.c:121-127 | the CRC of the sixteen counters in their order |
| StateBench.CountersInOrder | sw/applications/coremark/coremark.h:151-162 | the counters are hashed in the order of the enumeration, each final count before its transition count |
| StateBench.CoreBenchState | sw/applications/coremark/core_state.c:62-128 | the buffer is corrupted and XORed back, and the result is the CRC of the counts of the two scans |
| StateBench.PatternKinds | sw/applications/coremark/core_state.c:130-144 | which seeds select int, float, scientific and invalid patterns |
| StateBench.PatternStrings | sw/applications/coremark/core_state.c:130-144 | the sixteen patterns as strings, and which seed selects which |
| StateBench.SeedAfterIs | sw/applications/coremark/core_state.c:176-177 | the seed counts up on 16 bits |
| StateBench.ScientificPatterns | sw/applications/coremark/core_state.c:137-140 | the third scientific pattern scans as invalid, the others as scientific |
| StateBench.InitialCalls | sw/applications/coremark/core_state.c:156-212 | the initial text is scanned pattern by pattern, each on its own |
| StateBench.InitialScan | sw/applications/coremark/core_state.c:82-92 | the first scan of an initial buffer makes exactly the calls of its patterns, and its final counters count them |
| StateBench.CoreInitState | sw/applications/coremark/core_state.c:156-212 | as many comma-terminated patterns as fit, then zeros; for a size of at least two, at least two of them, so that the scanner's text is exactly those patterns |
| StateBench.OfficialRunsKeepBuffer | sw/applications/coremark/main.c:163-177 | with the seeds of the official runs, every initial buffer survives any number of calls with the steps of the list benchmark |
| Crc.StepLinear | sw/applications/coremark/core_util.c:181-205 | the state update is linear over GF(2) |
| Crc.FeedLinear | sw/applications/coremark/core_util.c:181-205 | so is feeding a whole message |
| Crc.FeedBijective | sw/applications/coremark/core_util.c:181-205 | feeding a message is a bijection on registers |
| Crc.FeedConcat | sw/applications/coremark/core_util.c:206-224 | messages are fed piece by piece |
| Crc.FeedDivides | sw/applications/coremark/core_util.c:181-205 | the register is the remainder of the message polynomial modulo x^16 + x^15 + x^2 + 1 |
| Crc.GeneratorIs | sw/applications/coremark/core_util.c:188-202 | the powers of the divisor are 16, 15, 2 and 0 |
| Crc.RemainderUnique | sw/applications/coremark/core_util.c:181-205 | no other quotient and remainder give that polynomial |
| Crc.BurstDetected | sw/applications/coremark/core_util.c:181-224 | messages of any equal length that differ only within 16 consecutive bits have different CRCs |
| Crc.ShiftIsStep | sw/applications/coremark/core_util.c:188-202 | the shift, feedback and carry of the source are one step of the division |
| Crc.CrcU8 | sw/applications/coremark/core_util.c:181-205 | eight message bits, least significant first |
| Crc.CrcU16 | sw/applications/coremark/core_util.c:206-212 | a half word is fed low byte first, as its own sixteen bits |
| Crc.CrcU32 | sw/applications/coremark/core_util.c:213-219 | a word is fed as its own 32 bits, least significant first, so low half first |
| Crc.Crc16 | sw/applications/coremark/core_util.c:220-224 | the signed variant has the same bits |
| Matmul.DotSplits | sw/applications/example_matmul/main.c:205-213 | an inner product over a block is the sum of those over its halves |
| Matmul.EightProducts | sw/applications/example_matmul/main.c:205-213 | the eight products of half blocks make up the product of the blocks, at every index |
| Matmul.MatrixMulBlocksize | sw/applications/example_matmul/main.c:105-118 | the triple loop adds the product to its block, on 32 bits, and leaves the rest |
| Matmul.MatrixMulTiled | sw/applications/example_matmul/main.c:197-215 | the recursion terminates and adds exactly the product of the blocks, leaving every other cell |
| Matmul.AddedCells | sw/applications/example_matmul/main.c:197-215 | cell by cell: row times column has been added modulo 2^32 inside the block, everything else is as before |
| Matmul.UnitOnRight | sw/applications/example_matmul/main.c:105-118 | a product with the unit matrix on the right is the left factor |
| Matmul.UnitOnLeft | sw/applications/example_matmul/main.c:105-118 | and with the unit matrix on the left the right factor |
| Matmul.MultiplyBothWays | sw/applications/example_matmul/main.c:78-94 | both ways of multiplying leave the same array |
| MemUsage.CoveredMeaning | scripts/building/mem_usage.py:431-439 | the covered addresses are those that lie in some region |
| MemUsage.MergeOne | scripts/building/mem_usage.py:434-438 | a region joins the last interval or opens a new one; intervals stay separated and cover one region more |
| MemUsage.TotalIsCount | scripts/building/mem_usage.py:439-439 | lengths of separated intervals add up to the number of addresses |
| MemUsage.Required | scripts/building/mem_usage.py:431-439 | the sweep returns the number of distinct addresses covered, for any list of regions (lines 482-488 repeat it for flash) |
| MemUsage.CoveredAtMostUsed | scripts/building/mem_usage.py:429-439 | required space is at most used space, and equal if and only if no two regions overlap |
| MemUsage.ProjectionRows | scripts/building/mem_usage.py:521-553 | a row of a bank belongs to a region's projection if and only if some address of the region is drawn there |
| MemUsage.ProjectionInBank | scripts/building/mem_usage.py:521-553 | projections are nonempty and inside the bank |
| MemUsage.BankUsage | scripts/building/mem_usage.py:619-642 | the loops return the marks of the pieces and the regions' common size with all whole pieces |
| MemUsage.UtilisationIff | scripts/building/mem_usage.py:616-643 | the utilisation equals the sum of projected lengths if and only if no projection ends behind the last whole piece |
| MemUsage.WholeKilobytes | scripts/building/mem_usage.py:616-643 | for banks of whole kilobytes it always does |
| MemUsage.GeneratedBanks | util/x_heep_gen/memory_ss/ram_bank.py:55-59 | the generator makes banks of a power of two of kilobytes, so the reported utilisation is the sum of projected lengths |
| MemUsage.MarkMeaning | scripts/building/mem_usage.py:628-640 | a piece stays unmarked exactly when no region has an address drawn in it |
| MemUsage.MarkIsLast | scripts/building/mem_usage.py:628-640 | a piece bears the symbol of the last region that is drawn in it |

## Left out

- IterativeFftRadix2: N is at most 2^14, because the source's copy loop does not end for 2^15.
- BenchList: after a sort by data the order depends on the values that the state and matrix benchmarks return, so the condition is on the order before the final sort; the list has at least three nodes, because the source dereferences the second node's successor; a find count of zero or less leaves the searched data byte uninitialised in the source and 0 here.
- MergeSort: insize is an unbounded integer here; it is below the list length at the start of every pass, so it cannot overflow for lists that fit memory.
- CalcFunc: what the state and matrix benchmarks answer is arbitrary (`answers`), as is the size, memory and seeds that the source passes along unchanged.
- CoreInitState: a size of 0 underflows in the source and is excluded.
- CoreStateTransition: counters are unbounded; a 32-bit counter wraps only for texts of more than 2^32 characters.
- Im2colDma: every transfer is nonempty and fits the registers (see `NoEmptyTransferIff` and `ShapeFitsAll`); what the DMA does with a size below one or a truncated increment is not part of the two algorithms.
- Transfer: the units' FIFOs, bus handshakes and the padding unit's state machine are abstracted to one word per step with zeros at the padded positions.
- Process: the comparison with a flat memory is for runs that keep the handover rules (bypass only after a flush with no store in between, no flush afterwards); for all other runs from an empty cache AnswersFlatIff gives the exact condition.
- BypassUnnoticedIff: speaks of continuations without a flush; AnswersFlatIff covers each single run with flushes.
- Iterate: where fewer than three nodes are left behind the pointer the source dereferences null; the model stops there.
- DmaCopy: parameters fit the registers; where a truncated increment takes the pointers is not modelled beyond `LongStridesRunBack`.
- CpuCopy: left and top padding are below 2^16; beyond that the 16-bit padding counters wrap and the source is read outside the matrix.
- CopyBoth: parameters fit the registers, and nothing is compared when the driver refuses the transfer.
- SystemC timing, events, payload flags, logs and the transaction counter; unaligned accesses and partial byte enables.
- Cache blocks are kept as words, so the byte order inside a block is not visible.
- The empty list in the mergesort and N = 1 in the FFT, where the code reads past what exists.
- TransformIsDft: that the table is near the root is a condition; the float generation of the table, which cuts cos and sin towards zero and so is off by about one unit at most, is not modelled.
- Float generation of twiddle factors, and the later stages of the radix-4 FFT, which do not form a transform.
- The tolerance check of the FFT example's main program, which takes the absolute value of a comparison.
- Inline-assembly matrix kernels, the im2col smart peripheral controller, DMA setup and interrupts.
- CoreMark's matrix kernels, timing and reporting.
- Parsing of readelf output, linker files and packages, host section selection and printing in the memory report.
