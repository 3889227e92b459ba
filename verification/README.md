# A verified model of libnf's record processing

libnf reads, aggregates, sorts, filters and transports network flow records. This project models the parts
of it that hold its hard logic and proves what they promise, for all inputs, all runs and all interleavings.

**Aggregation store** (`src/memheap.c`, `src/hash_table.c`).
`Bytes` is memory on a little-endian machine. `FieldList` is the linked list of key or value fields with its
offsets. `Masks` and `RecordBuffer` build the key and value buffers of a record: addresses masked, times aligned.
`Aggregate` is the in-place aggregation callback on value buffers, `FastAggr` its fixed-struct variant.
`HashTable` is the chained table whose rows hang on two linked lists at once (`hnext` for buckets, `snext` for
all rows) and stands for a map; `TableSpec` has that map, `Rows` the linked rows. `MergeThreads` is the protocol
by which threads merge their tables pairwise, as steps of all threads; `Monitor` in it has the critical
sections as code. `MergeRuns` shows that the protocol can be run to its end from any work of the threads.
`ThreadTables` ties its steps to the tables in memory, and `MergeViews` looks at a run through
one field of the values. `MemHeap` sets up a heap and writes records, `FieldFlags` says what its flags come to,
`Totals` sums counters over rows, and `ParallelStore` puts all of it together: any threads, any order, any records.

**Sorting** (`src/list_sort.c`, `src/heap_sort.c`). `ListSort` relinks `snext` in place, `HeapSort` sorts the array;
`SortOrder` says what sorting means for a strict and for a non-strict callback, ties included; `SortCallback` is the
callback of the memory heap, and `SortedRecords` says by which bytes of which records a heap is sorted.

**Ring buffer** (`src/lnf_ringbuf.c`). `RingBuffer` has one writer and any number of readers as steps, and the critical
sections as methods of `Ring`. `RingTransfers` follows what the writer was asked to write to the readers.

**Streaming hash** (`src/xxhash.c`). `StreamHash` is the one-shot and the buffered algorithm of the family, `XXHash` its
two members; `HashSpread` shows that no byte is lost on the way, and `KnownHashes` pins the two down by values.

**Filter** (`src/ffilter/ffilter.c`, `src/ffilter/fcore.c`). `FilterTree` has evaluation, meaning and construction of filter
trees, `FilterNodes` the same on linked nodes in memory, `FilterTests` the comparisons of a leaf and the folding
of NOT into them, `FilterValues` what a match says about the numbers, texts and addresses in the record, `Networks` the
masks and comparisons of IP networks (section 3.1 of RFC 4632, section 2.3 of RFC 4291).

**TLV codec** (`src/libnf.c`). `RecordCodec` encodes a record into a byte buffer and decodes it.

`Seqs` and `Remainder` hold facts about sequences and remainders that several of these need.

Classes, arrays and loops stand where the C code updates memory; each such method is proved against a function, and the
properties are lemmas about that function.

## Where the code and its description differ

The model follows the code. These are results of it:

- `lost_counter` of the ring counts two records too many for every gap (`RingBuffer.LostCounter`); a ring of one entry
  shows it (`RingBuffer.OneLostThreeCounted`).
- A network `/0` is compared as an exact address, so it matches one address instead of all (`Networks.NetworkExact`).
- A field that stands for three others is expanded to the first two, which is exact only when the third is one of them
  (`FilterTree.BranchExact`).
- NOT folded into a flag test asks for none of the flags instead of not all of them; both are the same exactly for one
  flag, or for flags outside the data (`FilterTests.NotOverFlags`). For data of an odd size, and for MPLS labels, the
  folded NOT fails too (`FilterTests.ErrorsDiffer`, `FilterTests.LabelTestsFail`). A whole filter is exact where every
  NOT stands over something else (`FilterTests.FilterMeansExpression`).
- A signed comparison whose type has no width reads a negative number of fewer than eight bytes as a large positive one,
  so such a number does not even equal itself (`FilterValues.SignedExact`).
- A list operator on a record without the field does not see the zero that single comparisons see; a list of numbers is
  the disjunction of single comparisons exactly when the record has the field or 0 is not listed
  (`FilterTests.InExact`).
- Addresses and MAC addresses sort in the opposite direction of numbers, and ascending sorts reverse ties
  (`SortCallback.MemHeapSorts`).
- A value field without an aggregation function keeps whichever value came first, so the result depends on the
  order of writes and merges (`Aggregate.OrderIndependent`). The other fields of the row are right all the same
  (`ParallelStore.MergedField`).
- The decoder's loop ends four bytes early. Records that were encoded arrive whole, since every field has data
  (`RecordCodec.TransferKeepsRecord`); a buffer from elsewhere loses a last entry without data
  (`RecordCodec.EmptyLastFieldIsLost`).
- The length check of a new list field sees offset 0, so a list can outgrow its buffer
  (`FieldList.ListOutgrowsBuffer`). It fits exactly when the caller has watched the reported size before every call
  (`FieldList.ListFits`).
- The encoder compares the length after an entry is written, so `LNF_ERR_NOMEM` means that bytes behind the given size
  were written (`RecordCodec.WritesBehind`).
- `lnf_mem_thread_init` tests `numthreads > LNF_MAX_THREADS` and does so before it takes the lock
  (src/memheap.c:156), so it can hand out id 128, one more than `thread_status` and `hash_table` have room for.
- `align * 1000` is a product of ints that `lnf_mem_fadd` does not check: it overflows for intervals of more than
  2147483 seconds, and for 2^29 it is 0 and divides.
- `::` and `::1` are masked as IPv6 addresses, every other address with twelve zero bytes as IPv4
  (`Masks.SameNetwork`).
- Joining an empty list onto a non-empty one loses `slast`; a merge never does that
  (`HashTable.HashTable.Join`, `MergeThreads.MergesAreNotEmpty`, `ThreadTables.FinalRows`).
- The header and the entry headers of the TLV form are in host order, although the form is called platform independent.

## Model

| member | source | states |
|---|---|---|
| SortOrder.MergeSortCorrect | src/list_sort.c:72-146 | bottom-up merging gives a sorted permutation; ties keep their order under a non-strict callback and come out exactly reversed under a strict one |
| SortOrder.SortOfUnique | src/list_sort.c:72-146 | these demands leave one result: any two sequences that meet them for one input are equal |
| SortOrder.SortedAlike | src/hash_table.c:203-251 | two sorted arrangements of the same entries tie at every position, whatever algorithm made them |
| SortOrder.PassRuns | src/list_sort.c:85-146 | a pass turns sorted runs of k entries into sorted runs of 2k |
| ListSort.ListSort | src/list_sort.c:72-146 | the relinked snext list is null-terminated, has the same rows with untouched keys, values and hnext, and is in the order of the merge sort function |
| ListSort.MergeRuns | src/list_sort.c:107-132 | the inner loop appends the merge of two adjacent runs to the list built so far |
| HeapSort.SiftDown | src/heap_sort.c:29-44 | sinking restores the heap on the range and moves nothing outside it |
| HeapSort.HeapSort | src/heap_sort.c:15-27 | the array becomes a sorted permutation of itself, for strict and non-strict callbacks |
| SortCallback.CallbackOrders | src/memheap.c:601-655 | the callback asks for a total preorder of rows, strictly for ASC and non-strictly for DESC; for addresses in the opposite direction |
| SortCallback.MemGreaterMeans | src/memheap.c:640-645 | an address is greater when its byte at the first difference is |
| SortedRecords.AddedSorts | src/memheap.c:421-440 | a field added with a sort flag, new or known, becomes the sort field at its place in its list |
| SortedRecords.SortStays | src/memheap.c:233-296 | later adds leave the sort field where it is |
| SortedRecords.BeforeMeans | src/memheap.c:609-654 | two rows are in the order of the sort iff the bytes of the sort field, taken from keys or from values as it lies in the key or the value list, are: as numbers, or for addresses by the first byte that differs |
| SortedRecords.SortTable | src/memheap.c:911-922 | the table comes out with any two rows in the order of the sort field, as a heap with these lists and this sort field asks for, and lookup still sees the same map |
| SortedRecords.RecordsInOrder | src/memheap.c:600-655 | rows written from records stand in the order of what the records contribute to the sort field |
| SortCallback.MemHeapSorts | src/memheap.c:916-926 | sorting a memory heap orders its rows by the chosen field and direction, with ties reversed for ASC and kept for DESC |
| TableSpec.PutAllFolds | src/hash_table.c:101-148 | after any inserts a key is present iff it was inserted, with its first value aggregated with all later ones in order |
| TableSpec.PutAllMerges | src/hash_table.c:307-343 | writing every row of a table once, in any order, has the effect of merging the two maps |
| HashTable.HashTable.Lookup | src/hash_table.c:66-98 | finds the row of a key iff the key is in the table |
| HashTable.HashTable.InsertHash | src/hash_table.c:101-148 | the map changes in that key alone: first value stored, later values aggregated; a new row is linked once on its bucket chain and once on the list, and keys stay unique |
| HashTable.HashTable.InsertList | src/hash_table.c:151-184 | list mode puts a row of its own in front, and slast and numentries stay right |
| HashTable.HashTable.Join | src/hash_table.c:285-304 | the lists are concatenated and the source emptied; slast is right iff the source was not empty or the target was |
| HashTable.HashTable.Merge | src/hash_table.c:307-343 | the target becomes the aggregation of both maps, still a valid table, and the source is left empty |
| HashTable.HashTable.WalkMerges | src/hash_table.c:316-335 | the bucket-by-bucket walk visits each row once, so its order does not matter |
| HashTable.HashTable.SortKeepsChains | src/hash_table.c:245-251 | relinking snext leaves the bucket chains intact |
| HashTable.HashTable.Sort | src/hash_table.c:245-251 | the list comes out in the order of the merge sort function, same rows |
| HashTable.HashTable.SortHashed | src/hash_table.c:245-251 | in hash mode lookup still sees the same map after a sort |
| HashTable.HashTable.SortHeap | src/hash_table.c:203-242 | a non-empty table is relinked in sorted order, same rows, by way of the array |
| HashTable.SortsAgree | src/hash_table.c:203-251 | both sorts give the same sequence of sort keys |
| MergeThreads.InvStep | src/memheap.c:807-881 | every step of every thread keeps the protocol's invariant on statuses, phases and tables |
| MergeThreads.Exclusive | src/memheap.c:838-870 | no table is touched by two threads at once |
| MergeThreads.OthersUntouched | src/memheap.c:838-870 | a step of a thread leaves every table alone that the thread does not touch |
| MergeThreads.NothingElseRead | src/memheap.c:851-867 | a step outside the lock depends on nothing that its thread does not touch, neither whether it is possible nor what it does |
| MergeThreads.UnlockedCommute | src/memheap.c:851-867 | steps of two threads outside the lock can change places |
| MergeThreads.AllMoved | src/memheap.c:860-865 | moving all rows of a table, one by one in any order, leaves the aggregation of both maps in the other table and changes nothing else |
| MergeThreads.ConservedStep | src/memheap.c:807-881 | after every step the tables of all threads together hold, under every key, the fold of all values written so far |
| MergeThreads.RowsKeptStep | src/memheap.c:855-859 | in list mode every written row is in exactly one place after every step |
| MergeThreads.MergesAreNotEmpty | src/memheap.c:747-772 | when a merge starts neither table is empty, which joining lists relies on |
| MergeThreads.Progress | src/memheap.c:820-876 | once every thread has written, some thread can call merge or take a step of its merge as long as one has not returned |
| MergeRuns.MergeCompletes | src/memheap.c:807-881 | from every state in which each thread has written there is a run of merge steps after which all have returned, and nothing is written in it |
| MergeRuns.AnyWorkCompletes | src/memheap.c:708-881 | for any non-empty work of up to 128 threads and any interleaving of it there is a run from the start in which each thread writes just its part, in this order, and all return |
| MergeRuns.AnyLogIsBuilt | src/memheap.c:708-881 | so any log, shared out among threads in any way, can be built in parallel, and table 0 is then its table |
| MergeThreads.MergeActionsDescend | src/memheap.c:838-876 | every step of the merge makes a measure smaller: rows move only to lower ids |
| MergeThreads.MergeTerminates | src/memheap.c:827-876 | a run of merge steps is no longer than that measure |
| MergeThreads.RunSafe | src/memheap.c:807-881 | all of this holds after any run, whatever the interleaving |
| MergeThreads.FinalTable | src/memheap.c:807-881 | when all have returned, table 0 is what one thread would have built from all writes, and all other tables are empty |
| MergeThreads.FinalList | src/memheap.c:855-859 | in list mode table 0 then has every written row exactly once |
| ThreadTables.InsertRow | src/memheap.c:766-772 | inserting into the table in memory is the protocol's step, in list mode |
| ThreadTables.InsertKey | src/memheap.c:774-804 | and in hash mode |
| ThreadTables.JoinTables | src/memheap.c:855-859 | hash_table_join on tables that hold the rows of two threads leaves tables that hold what the protocol's step leaves, slast right |
| ThreadTables.MergeTables | src/memheap.c:860-865 | hash_table_merge on tables that stand for the maps of two threads does what moving the rows one by one does |
| ThreadTables.FinalRows | src/memheap.c:855-859 | when all have returned in list mode, the list of table 0 is every written row once, numentries counts them and slast is the last one |
| MergeThreads.SameWritesSameTable | src/memheap.c:807-881 | two complete runs that wrote the same items in any order end with the same table |
| MergeThreads.FoldedPermuted | src/memheap.c:572-584 | a lawful aggregation does not depend on the order of the writes |
| MergeThreads.Monitor.PickPartner | src/memheap.c:839-849 | the search under the lock finds the lowest ready partner or none, and marks both sides |
| MergeThreads.Monitor.Publish | src/memheap.c:869-872 | exactly the two statuses change when a merge is over |
| FieldList.AnyAddsTile | src/memheap.c:233-296 | after any adds and updates no field is listed twice, the fields lie side by side from offset 0, and none has moved |
| FieldList.AddFits | src/memheap.c:262-291 | a new field that the length check lets through leaves a list that fits iff it fits behind what is there |
| FieldList.ListFits | src/memheap.c:233-296 | a list built by any calls fits its buffer iff the size before each call left room for what the call added |
| FieldList.ListOutgrowsBuffer | src/memheap.c:262-291 | 14 addresses and 5 counters are accepted into a value list and take 264 bytes of 256 |
| FieldList.LastCallWins | src/memheap.c:240-254 | a second call for a field leaves the list as if only it had been made |
| FieldList.FieldList.AddOrUpdate | src/memheap.c:233-296 | a known field is updated in place and keeps size and offset, a new one is appended behind the others or refused; size and offset are reported |
| FieldList.FieldList.Lookup | src/memheap.c:301-316 | finds the node of a field or the end of the list |
| Masks.ClearBitsV4 | src/memheap.c:473-482 | keeps the first numbits bits of the word and clears the rest; a count out of range changes nothing |
| Masks.ClearBitsV6 | src/memheap.c:495-511 | the same over two words, for every count |
| Masks.MaskedEqual | src/memheap.c:540-546 | masked addresses are equal iff same-family addresses agree in their first numbits (v4) or numbits6 (v6) bits, and addresses of different families iff both are zero there |
| Masks.SameNetwork | src/memheap.c:473-511 | two addresses with twelve zero bytes and then more than 1 are equal as keys iff the first numbits bits of their last four bytes are; two others iff their first numbits6 bits are |
| Masks.MaskingTwice | src/memheap.c:540-546 | masking is idempotent, although it looks at the address to choose the mask |
| Masks.AlignUint64 | src/memheap.c:486-492 | stores the time rounded down to a multiple of the interval |
| Masks.AlignedEqual | src/memheap.c:486-492 | aligned times are equal iff they fall into the same interval; aligning is idempotent |
| RecordBuffer.FillBuf | src/memheap.c:515-554 | writes the contributions of all fields side by side and nothing behind them |
| RecordBuffer.BuffersEqual | src/memheap.c:515-554 | two records get equal buffers iff every listed field agrees after masking or alignment |
| RecordBuffer.PairStored | src/memheap.c:525-538 | the buffer for pair set 1 (2) has the first (second) field of every pair at the pair's offset, and all other fields as they are |
| RecordBuffer.KeysCoincide | src/memheap.c:774-790 | the two keys of a record coincide iff every pair agrees in its two fields after masking or alignment |
| RecordBuffer.EncodedTwice | src/memheap.c:884-903 | fields read back from a buffer give the same buffer again |
| Aggregate.CombineLaws | src/memheap.c:50-84 | SUM, MIN, MAX and OR on fields of any width commute and associate, wrap-around included |
| Aggregate.PartOfAggr | src/memheap.c:572-584 | each field of a buffer is aggregated with its own function and nothing of its neighbours |
| Aggregate.AggrCallback | src/memheap.c:572-584 | the walk over the field list aggregates one buffer into the other in place |
| Aggregate.OrderIndependent | src/memheap.c:50-87 | value buffers aggregate in any order and grouping iff every field has an aggregation function |
| Aggregate.EmptyKeepsFirst | src/memheap.c:87 | two values for which order shows when a field has none |
| Aggregate.FoldedColumn | src/memheap.c:572-584 | each field of a row is the fold of that field over all writes under the row's key |
| Aggregate.FoldSum | src/memheap.c:50-57 | a summed field ends with the sum in its width |
| Aggregate.FoldExtreme | src/memheap.c:69-84 | MIN and MAX end with the least and the greatest value written |
| Aggregate.FoldOr | src/memheap.c:60-66 | a bit of an OR field is set iff some written value has it |
| FastAggr.FastCallback | src/memheap.c:587-598 | the struct callback leaves the aggregated struct |
| FastAggr.FastIsAggr | src/memheap.c:587-598 | that is what the generic callback leaves, because the list offsets are the struct offsets |
| FastAggr.FastValueIsBuffer | src/memheap.c:727-739 | the struct built from a record is the buffer the generic code builds |
| ParallelStore.FastRefinesGeneric | src/memheap.c:332-349 | any records written in fast mode leave the table they leave in generic mode |
| MemHeap.MemHeap.Fadd | src/memheap.c:351-445 | the field goes to the key or the value list with the aggregation its type and flags select, the sort field and statistics mode follow, and errors change nothing |
| FieldFlags.FlagAggregates | src/memheap.c:381-418 | the function selected for a type and a flag makes of the values of a field their sum modulo the range of the type, the least, the greatest, or the union of their bits, and otherwise keeps the first; addresses keep the first |
| MemHeap.MemHeap.FastAggr | src/memheap.c:332-349 | on an empty value list exactly the five fields of the struct are left |
| MemHeap.MemHeap.WriteHash | src/memheap.c:708-804 | a record is inserted under its key; in statistics mode under both keys, or once if they coincide and the option asks for it |
| MemHeap.MemHeap.WriteList | src/memheap.c:766-772 | list mode adds one row, under the first key in statistics mode |
| Totals.SumConserved | src/hash_table.c:101-148 | the counters of all rows add up to those of all writes, in the width of the field, whatever the keys |
| Totals.CongruentMod | src/memheap.c:50-57 | equality in the width of n bytes is equality modulo 256^n |
| ParallelStore.RecordsConserved | src/memheap.c:708-804 | the rows hold each counter twice in statistics mode, less the records with coinciding keys, and once otherwise, in any order of inserts |
| MergeViews.ViewRun | src/memheap.c:807-881 | what is seen of a run through a function that carries the aggregation over is a run on what is seen |
| MergeViews.FinalView | src/memheap.c:807-881 | so table 0 looks as if one thread had made all writes, as long as what is looked at aggregates in any order |
| ParallelStore.MergedField | src/memheap.c:807-881 | after all threads have merged, a field with an aggregation function is in table 0 what one thread would have there, whatever the other fields do |
| ParallelStore.MergedFields | src/memheap.c:807-881 | that field of each row is the fold of what any thread wrote under the row's key |
| ParallelStore.MergedTotals | src/memheap.c:807-881 | and the counters of table 0 account for the records of all threads |
| RingBuffer.RingSafe | src/lnf_ringbuf.c:140-245 | every run from a fresh ring of any size keeps the invariant |
| RingBuffer.InvStep | src/lnf_ringbuf.c:140-245 | each step of the writer or of a reader keeps it |
| RingBuffer.NoReaderInWriteWindow | src/lnf_ringbuf.c:201-220 | no reader is inside an entry while it is written |
| RingBuffer.EntryStable | src/lnf_ringbuf.c:161-176 | nobody changes an entry while a reader is inside it, though it holds no lock |
| RingBuffer.ReadsAreWrites | src/lnf_ringbuf.c:140-188 | a read returns the cells that the write with that sequence number published, and a reader's sequence numbers strictly increase |
| RingTransfers.WritePublishes | src/lnf_ringbuf.c:198-243 | a write publishes in each cell what it wrote there last, and what stood there where it wrote nothing, whatever readers do meanwhile |
| RingTransfers.ReadsAreAsked | src/lnf_ringbuf.c:140-245 | in every run from a fresh ring a read with sequence number q gets in each cell what the q-th publishing write wrote there last |
| RingTransfers.AnyRecordIsWritten | src/lnf_ringbuf.c:191-245 | when the writer may take its entry, any record of the entry's size can be written and is published as it is |
| RingTransfers.AnyRecordIsRead | src/lnf_ringbuf.c:140-188 | a reader whose entry is newer than what it has can read all of it |
| RingTransfers.RecordGoesThrough | src/lnf_ringbuf.c:140-245 | from every reachable state a reader that is up to date gets the next record cell for cell |
| RingBuffer.EntryIsNewest | src/lnf_ringbuf.c:232-239 | entry i holds the newest record whose sequence number leads to it |
| RingBuffer.WritePosition | src/lnf_ringbuf.c:237-239 | write_pos is the last sequence number modulo the size |
| RingBuffer.PositionFollows | src/lnf_ringbuf.c:170-185 | a reader that decodes everything stays in step with its sequence number, and each gap skips whole rounds |
| RingBuffer.TotalCounter | src/lnf_ringbuf.c:182-185 | total_counter is the number of reads as long as all decodes succeed, and never more |
| RingBuffer.LostCounter | src/lnf_ringbuf.c:170-174 | lost_counter is the number of records not read plus two for every gap |
| RingBuffer.LostCounterExact | src/lnf_ringbuf.c:170-174 | it is the number of lost records iff none was lost |
| RingBuffer.OneLostThreeCounted | src/lnf_ringbuf.c:170-174 | a run on a ring of one entry in which one record is lost and three are counted |
| RingBuffer.Ring.BeginWrite | src/lnf_ringbuf.c:198-220 | the writer takes the entry iff no reader is inside, and otherwise changes nothing |
| RingBuffer.Ring.EndWrite | src/lnf_ringbuf.c:225-243 | publishing and giving up are the protocol's steps |
| RingBuffer.Ring.BeginRead | src/lnf_ringbuf.c:145-164 | a reader enters iff the entry is readable and newer than what it has, and otherwise changes nothing |
| RingBuffer.Ring.Note | src/lnf_ringbuf.c:170-174 | the bookkeeping between the locks is the protocol's step |
| RingBuffer.Ring.EndRead | src/lnf_ringbuf.c:177-187 | leaving the entry and moving on is the protocol's step |
| StreamHash.Algorithm.ConsumeConcat | src/xxhash.c:670-732 | consuming two inputs in turn, with the rest of the first carried over, is consuming their concatenation |
| StreamHash.Algorithm.OneShot | src/xxhash.c:321-424 | the one-shot loops compute the hash function |
| StreamHash.Stream.Update | src/xxhash.c:670-732 | the accumulators cover all whole stripes and the buffer holds the rest, for any chunk |
| StreamHash.Stream.Digest | src/xxhash.c:746-810 | the digest is the hash of everything fed so far |
| StreamHash.HashChunks | src/xxhash.c:489-732 | reset, update with any chunks, digest: the hash of the chunks put together |
| XXHash.Stream64 | src/xxhash.c:321-424 | for XXH64 with any seed and cuts the stream and the one-shot function agree |
| XXHash.Stream32 | src/xxhash.c:234-295 | the same for XXH32 |
| HashSpread.OneByteShows | src/xxhash.c:670-810 | for an algorithm whose steps lose nothing, inputs of one length that differ in one byte behind their whole stripes have different hashes |
| HashSpread.Mixes64 | src/xxhash.c:366-424 | XXH64 is one, for any seed: words, half words, bytes and the final mixing can all be undone |
| HashSpread.Mixes32 | src/xxhash.c:268-295 | so is XXH32 |
| HashSpread.EveryByteCounts | src/xxhash.c:234-424 | so changing any one byte behind the whole stripes changes both hashes |
| KnownHashes.KnownHash64 | src/xxhash.c:321-424 | XXH64 of the bytes from 1 to 47 with seed 7, through a stripe, a word, a half word and bytes |
| KnownHashes.KnownHash32 | src/xxhash.c:234-295 | XXH32 of the same, through two stripes, words and bytes |
| KnownHashes.ShortHash64 | src/xxhash.c:362-394 | XXH64 of an input without a stripe |
| KnownHashes.ShortHash32 | src/xxhash.c:263-286 | XXH32 of the same |
| FilterTree.EvalIsMeaning | src/ffilter/ffilter.c:1269-1344 | a tree evaluates above 0 iff its plain boolean meaning is true, errors read as false: short-circuiting changes nothing |
| FilterTree.InListIsAny | src/ffilter/ffilter.c:1330-1337 | the list loop finds a match iff some value matches |
| FilterTree.InIsDisjunction | src/ffilter/ffilter.c:1330-1337 | with data present IN is the OR of single comparisons |
| FilterTree.NotIsComplement | src/ffilter/ffilter.c:1193-1226 | NOT over a node without an opposite opcode is the exact complement |
| FilterTree.FoldedTwice | src/ffilter/fcore.c:36-89 | folding NOT twice gives the node back |
| FilterTree.BranchMeans | src/ffilter/ffilter.c:925-978 | a pair node is the OR or AND of the same test on the fields that are reached |
| FilterTree.BranchExact | src/ffilter/ffilter.c:934-969 | for a test that accepts something and rejects something it is so on all records iff there are not three fields or the third is one of the first two |
| FilterTree.ThirdIsDropped | src/ffilter/ffilter.c:941-968 | a record that only the third field matches is missed |
| FilterNodes.EvalNode | src/ffilter/ffilter.c:1269-1344 | evaluation on linked nodes computes the evaluation of the tree they show |
| FilterNodes.EvalList | src/ffilter/ffilter.c:1330-1337 | so does the do-while loop over a list |
| FilterNodes.NewNodeOf | src/ffilter/ffilter.c:1187-1227 | NOT flips the opcode of its child in place when it has an opposite, otherwise a new node is made, and no other node changes |
| FilterNodes.Duplicate | src/ffilter/ffilter.c:980-1026 | a copy shows the same tree and shares no node |
| FilterNodes.BranchNode | src/ffilter/ffilter.c:925-978 | the forking and pairing loops leave the tree the ids call for |
| FilterNodes.RoundsAreBranch | src/ffilter/ffilter.c:956-968 | the pairing rounds for one to four ids give that tree |
| FilterTests.FilterMeansExpression | src/ffilter/ffilter.c:1187-1226 | a filter built by the grammar matches exactly what its expression says, on every record for which each NOT stands over a string test, a flag test with loadable data and a foldable mask, or something without an opposite opcode |
| FilterTests.NotOverFlags | src/ffilter/ffilter.c:1193-1205 | NOT over a flag test is exact on all records with data of its width iff the mask is not zero and has one bit, or none in that width |
| FilterTests.FoldedString | src/ffilter/fcore.c:499-503 | a folded string test is the exact complement |
| FilterTests.FoldedBits | src/ffilter/fcore.c:417-451 | the same on the comparisons themselves, for all data that the width is loaded from |
| FilterTests.BitFolding | src/ffilter/fcore.c:417-451 | the same for all machine words with leading zeros |
| FilterTests.FoldedBitsImply | src/ffilter/fcore.c:417-451 | a match of the folded test is always a match of NOT of the test when the mask is not zero |
| FilterTests.TwoFlagsDiffer | src/ffilter/fcore.c:417-451 | with two flags asked for and one set the two differ |
| FilterTests.ErrorsDiffer | src/ffilter/fcore.c:317-360 | for types without a width, data of another size is an error for both tests, so the folded NOT fails where the plain one holds |
| FilterTests.LabelTestsFail | src/ffilter/fcore.c:617-628 | a label test has no case in the evaluation, so NOT over it never gives its complement |
| FilterTests.InExact | src/ffilter/ffilter.c:1317-1337 | a list of numbers is the OR of single comparisons iff the record has the field or no number of the list is 0 |
| FilterTests.MissingInList | src/ffilter/ffilter.c:1317-1337 | a record without the field matches a comparison with 0 but no list with 0 in it |
| FilterValues.UnsignedMatches | src/ffilter/fcore.c:385-415 | for every unsigned type, width and byte order the test on x stored in the record matches n iff x == n, x > n or x < n |
| FilterValues.SignedMatches | src/ffilter/fcore.c:454-488 | the same for signed numbers in two's complement, where types without a width read a negative number of fewer than eight bytes without its sign |
| FilterValues.SignedExact | src/ffilter/fcore.c:454-488 | all signed comparisons with a stored number are right iff it is not such a one |
| FilterValues.FlagsMatch | src/ffilter/fcore.c:417-451 | the flag tests match iff all, and iff none, of the bits of the mask are set in the stored number |
| FilterValues.TextMatches | src/ffilter/fcore.c:497-503 | a text test matches iff the record's text starts with the filter's; the others iff it occurs, or does not occur, in it in any case of letters |
| FilterValues.MacMatches | src/ffilter/fcore.c:505-506 | MAC addresses match iff all six bytes are equal |
| FilterValues.V4NetworkMatches | src/ffilter/fcore.c:526-558 | a filter network of 1 to 32 bits matches records of four bytes, or of sixteen of which twelve are zero, iff the first n bits of the last four bytes agree |
| FilterValues.V6NetworkMatches | src/ffilter/fcore.c:526-558 | one of 1 to 128 bits matches records of sixteen bytes that are not such an address iff the first n bits agree |
| FilterValues.OtherTestsFail | src/ffilter/fcore.c:627 | tests without a case never match |
| FilterValues.LeafMatch | src/ffilter/ffilter.c:1311-1324 | a leaf on a record with data evaluates above 0 iff the comparison matches |
| FilterTests.NetworkLeaf | src/ffilter/fcore.c:506-558 | the comparison made for a network of at least one bit matches exactly the record addresses in the network, for four and for sixteen bytes |
| Networks.IntToNetmask | src/ffilter/ffilter.c:487-504 | the mask has n leading ones for 0 to 128 bits, and other counts are errors |
| Networks.FinishNetwork | src/ffilter/ffilter.c:628-645 | in an IPv4 network the mask moves to the last word, and the address is cut to its mask |
| Networks.EvalPrefix | src/ffilter/fcore.c:526-558 | the loop over four words with its family checks decides the comparison |
| Networks.V4Matches | src/ffilter/fcore.c:526-558 | a network of 1 to 32 bits matches iff the record is IPv4 and the first n bits agree |
| Networks.V6Matches | src/ffilter/fcore.c:526-558 | a network of 1 to 128 bits matches iff the record is not IPv4 and the first n bits agree |
| Networks.NetworkExact | src/ffilter/fcore.c:119-130 | this holds for every record iff n is at least 1 |
| Networks.NoBits | src/ffilter/fcore.c:119-130 | a network of no bits matches the address zero of its family only |
| RecordCodec.GetRaw | src/libnf.c:1208-1267 | the buffer gets a header with the total size and one entry per set field in ascending order, each in the form that WireExact describes, up to the first entry that ends behind the size; what it then holds is stated for success and for too little room |
| RecordCodec.WireExact | src/libnf.c:1304-1331 | on any bytes the decoder takes from an offset exactly the entry that stands there: id and size in host order, the integer its data start with most significant byte first, the rest as it is |
| RecordCodec.EncodedOnWire | src/libnf.c:1231-1258 | encoded entries stand in the buffer in that form, one behind the other |
| RecordCodec.WritesBehind | src/libnf.c:1250-1262 | success leaves every byte behind the size alone, and too little room leaves entry bytes there |
| RecordCodec.SetRaw | src/libnf.c:1270-1336 | the decoding loop makes the calls of lnf_rec_fset that the decoder function lists |
| RecordCodec.EntriesDecode | src/libnf.c:1304-1333 | the loop that stops at raw->size returns all entries but a last one without data |
| RecordCodec.RoundTrip | src/libnf.c:1304-1333 | any entries, encoded and decoded, come back unchanged iff the last one has data |
| RecordCodec.TransferKeepsRecord | src/libnf.c:1231-1333 | a record arrives field by field in order, swaps undone, and the new record is the old one |
| RecordCodec.EmptyLastFieldIsLost | src/libnf.c:1304-1309 | a buffer that ends with an empty user name loses it |

## Left out

- Reading and writing of files, extension maps, exporters and compression: they wrap code that is not in the repository.
- Field getters and setters: a record is a function from field ids to data of the size in the field table.
- PAIR_IF, whose table entry and getter disagree on its width: excluded by asking that paired fields have the same size.
- Calculated fields and fields of type double in field lists, with their aggregation and comparison: floating-point sums
  are not associative, and calculated fields bring further fields in.
- The filter's lexer and grammar actions and the parsing of numbers, addresses, times and MAC addresses: the model starts from
  parsed values and constructor calls.
- The first filter engine of nfdump, which is foreign code.
- Memory exhaustion, freeing, and the error paths that only a failed allocation takes.
- Setting up and tearing down the shared memory of the ring, waiting times, the stuck limit, and more than one writer.
- xxhash on big-endian machines and aligned reads.
- lnf_mem_write_raw, cursors and reading back rows: they copy buffers.
- MemHeap.MemHeap.Fadd: does not add the fields a calculated field depends on.
- MemHeap.MemHeap.WriteHash: asks for lists that fit their buffers, because the code overruns them otherwise.
- MemHeap.MemHeap.WriteList: asks for the same.
- RecordBuffer.FillBuf: asks for a list that fits the buffer, for the same reason.
- RecordBuffer.BuffersEqual: is about time intervals of at most 2147483 seconds, whose product with 1000 fits an int.
- RecordBuffer.EncodedTwice: is about the same intervals.
- Masks.AlignUint64: is about the same intervals.
- Masks.AlignedEqual: is about the same intervals.
- FilterTests.OperEval: takes doubles, MPLS comparisons and MPLS bit tests from a parameter, and reads behind short data as errors, where the code would read what lies there.
- RecordCodec.GetRaw: asks for room for the entry that ends behind the given size, if there is one, because the code writes it before it compares.
- RecordCodec.SetRaw: returns a status of its own where the code would read behind the buffer or use bytes that were never written.
- Networks.IntToNetmask: asks for less than 160 bits, because the code leaves the array beyond that.
- StreamHash.Stream.Update: asks that a chunk fits the int that the code takes its length in, less a stripe.
- HashTable.HashTable.SortHeap: asks for a non-empty table, because the code reads the first array element.
- MergeThreads.InvStep: is about at most 128 threads, as many as the arrays have room for.
- MergeThreads.FinalTable: asks for an aggregation that commutes and associates; without one the result depends on the order.
- ParallelStore.MergedField: asks for a field with an aggregation function, for the same reason.
- ParallelStore.MergedFields: asks for the same.
- SortCallback.CallbackOrders: does not take sort fields of type double.
- SortCallback.MemHeapSorts: is about the rows as they are handed to the sort; calculated sort fields are not recomputed, and doubles are left out.
- SortedRecords.SortTable: does not recompute calculated sort fields before it sorts, and sort fields of type double are left out.
