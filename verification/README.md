# APCu: a verified model of the shared-memory cache

APCu keeps a key/value cache in memory that is shared by all worker processes of a web
server.  This project models its layers and proves what each of them promises to the next.

* **Allocator** (`Segment`, `Blocks`, `FreeList`, `HeapModel`, `HeapImage`, `Sma`).  One flat
  array of words with boundary tags, a doubly linked free list of offsets, bounded best fit,
  splitting and coalescing.  `Segment.Words` is the array; its two ghost maps say which words
  are block headers and which are payloads.  `HeapModel` is the allocator on abstract blocks;
  `Sma.Allocator` works on the words and is proved to do what the abstract one does.
* **Defragmenter** (`DefragModel`, `Sma.Allocator.Defrag`).  Slides allocated blocks down in
  one sweep, asks a callback about each of them, and gives back the slack of those that moved.
  It is proved for every callback that meets `MoveOk`; what the callback keeps is a parameter.
* **Cache** (`CacheLists`, `CacheMove`, `CacheModel`, `CacheImage`, `CacheState`, `Expunging`,
  `CacheStore`).
  Hash slots and the list of removed entries as linked offsets, reference counts, hard and soft
  expiry, exclusive insertion, garbage collection, expunging.  `CacheModel` is the cache as
  lists and as a map from keys to entries; `CacheStore.Cache` works on the words of the
  segment, through the allocator, and is proved to do exactly what the functions of
  `CacheModel` do.  `CacheMove` shows that the callback of the cache meets `MoveOk`.
  `Expunging` says exactly what making room does, down to the blocks of memory.
* **Values** (`ValueGraph`, `PersistCalc`, `Reachable`, `CopyState`, `Persist`, `RefCount`,
  `Unpersist`).  Graphs of scalars, strings, arrays and references, with sharing and cycles,
  copied into an entry in two passes with pointers relative to the entry, and rebuilt from any
  address.  `Reachable` says, by paths, which values can be stored.
* **Values as words** (`Packing`, `EntryWords`, `Roundtrip`).  Which words of an entry spell
  which objects, and how they are read back; values are rebuilt from words and nothing else.
  The words determine the graph wherever they are, which joins the cache and the values: what
  is stored, moved by the defragmenter and found again is rebuilt as the same graph.
* **Processes** (`Protocol`, `Steps`, `LiveKeys`, `Counter`, `Updates`, `EntryLock`).  State machines with one action
  for each region under a lock and each atomic update, for any number of processes and all
  their interleavings.  The steps of `Protocol` are the operations of `CacheModel` and
  `CacheState` that the methods of `CacheStore.Cache` implement, as `Steps` proves, and
  `Updates` for those of `Counter`; `LiveKeys` says which of them can take a key away, and `EntryLock` runs them under the nested lock of generated entries.
* **Iteration** (`Iteration`).  Chunked enumeration over the words of the cache, totals,
  and deletion by iterator.

Sizes and offsets are counted in machine words of eight bytes (`Sma.WORD`); the request sizes
that the allocator takes are in bytes and are rounded up.  Times are integers.  An operation
reads the clock once, and the reading is a parameter.

## Model

| member | source | states |
|---|---|---|
| Segment.CopyDown | apc_sma.c:522-523 | the overlapping block move leaves the moved words at their new place and all other words alone |
| Segment.MoveKeepsLayout | apc_sma.c:522-523 | after the move, header and payload words are laid out as before, with the moved block at its new offset |
| Blocks.Conservation | apc_sma.c:154-254 | free words and words of allocated blocks together always fill the segment between the sentinels |
| Blocks.AllocKeepsTiling | apc_sma.c:170-188 | taking or splitting a free block leaves blocks that fill the segment without gaps or overlap |
| Blocks.AllocTotal | apc_sma.c:190-197 | an allocation takes exactly the size of the allocated block off the free words |
| Blocks.ReleaseKeepsTiling | apc_sma.c:205-254 | freeing with joins on both sides keeps the tiling, leaves no two free blocks adjacent and adds the size of the block to the free words |
| Blocks.AllFreeIsOneBlock | apc_sma.c:205-254 | a coalesced segment without allocations is one free block |
| Blocks.UsedDetermines | apc_sma.c:205-254 | in a coalesced segment the allocated blocks determine the free ones |
| FreeList.UnlinkChain | apc_sma.c:111-114 | redirecting the two neighbours takes exactly that block out of the chain |
| FreeList.LinkChain | apc_sma.c:101-109 | linking at the start puts exactly that block behind the first sentinel |
| HeapModel.BestFitUnique | apc_sma.c:116-151 | at most one block is the bounded best fit for a request |
| HeapModel.ChosenIsBest | apc_sma.c:116-151 | the chosen block is the smallest that fits among the first one that fits and the three behind it in the list |
| HeapModel.ChosenComplete | apc_sma.c:116-151 | a block is chosen if and only if some free block is large enough, and it is large enough |
| HeapModel.AllocKeepsWellFormed | apc_sma.c:154-202 | an allocation keeps tiling, coalescing and a free list of exactly the free blocks |
| HeapModel.AllocTakes | apc_sma.c:170-197 | an allocation takes all of a free block only if less than the smallest block would be left, and else no more than was asked for, the rest staying free |
| HeapModel.FreeKeepsWellFormed | apc_sma.c:205-254 | so does freeing any live block |
| HeapModel.RunInvariant | apc_sma.c:154-254 | every run of requests from a well-formed heap ends in a well-formed heap over the same segment |
| HeapModel.RunToEmpty | apc_sma.c:205-254 | a run after which nothing is allocated has returned to the single initial free block |
| HeapModel.FreeAllInAnyOrder | apc_sma.c:205-254 | freeing all live blocks in any order ends in the single free block of the initial size |
| HeapImage.NotAvailable | apc_sma.c:122-125 | the shortcut by the free total never changes the answer of the search |
| HeapImage.AllocSplit | apc_sma.c:174-194 | the words written when splitting represent the abstract heap after the allocation |
| HeapImage.TagAndLink | apc_sma.c:247-251 | the words written at the end of freeing represent the abstract heap after the release |
| Sma.Allocator.constructor | apc_sma.c:256-298 | a fresh segment holds one free block between two sentinels, its size is the free total, and the smallest block is as configured |
| Sma.Allocator.FindBlock | apc_sma.c:116-151 | finds exactly the bounded best fit: the smallest fitting block among the first fit and its three list successors, or nothing if no block fits |
| Sma.Allocator.Allocate | apc_sma.c:154-202 | fails exactly if no free block fits, changing nothing; else the new allocation is fresh, has the requested words, and no other payload word changes; the free total falls by less than the request and the smallest block together |
| Sma.Allocator.Deallocate | apc_sma.c:205-254 | frees the block, joins its neighbours, adds its size to the free total and leaves all other payloads alone |
| Sma.Allocator.CheckAvail | apc_sma.c:445-447 | compares the request with the sum of the free blocks |
| Sma.Allocator.CheckAvailContiguous | apc_sma.c:449-477 | true exactly when an allocation of that size would succeed |
| Sma.Allocator.Sweep | apc_sma.c:493-534 | one step of the sweep keeps the mixed state of the segment, moves on, and accounts for the slack it reclaims |
| Sma.Allocator.Ask | apc_sma.c:504-505 | the callback refuses exactly the pinned allocations, and what it writes keeps the client's meaning for the moved block |
| Sma.Allocator.Defrag | apc_sma.c:479-539 | for every callback that meets its contract: ends in a well-formed heap, keeps the client's invariant, keeps the order and used words of allocations and the place of refused ones, and the free total grows by exactly the slack of the moved blocks; under a callback that writes nothing every word of every allocation is kept |
| DefragModel.SlideKeepsWords | apc_sma.c:516-533 | a slide after a callback that writes nothing keeps all words of the allocation |
| DefragModel.SweepReclaims | apc_sma.c:516-536 | the free memory after a sweep is that before it plus the slack of all blocks that moved |
| DefragModel.SweptClean | apc_sma.c:493-534 | if nothing had to stay, all free memory is one block at the end |
| DefragModel.SweptUnique | apc_sma.c:479-539 | the blocks after a sweep are determined by those before it and by which allocations were refused |
| DefragModel.SweepRefuse | apc_sma.c:504-514 | keeping a free block restores both of its tags and lists it |
| DefragModel.SweepSlide | apc_sma.c:516-533 | sliding a block down over a free one keeps the mixed state of the sweep |
| CacheLists.InsertChained | apc_cache.c:180-187 | linking an entry behind any cell inserts it there in that list, with all next and prev links right, and touches nothing but links |
| CacheLists.RemoveChained | apc_cache.c:190-197 | unlinking removes exactly that entry from its list, whether prev names an entry or a head cell |
| CacheMove.MoveChained | apc_cache.c:161-176 | patching the neighbours and then moving the entry leaves every list linked, with the entry at its new address |
| CacheMove.CacheMoveOk | apc_cache.c:161-176 | at every point of a sweep, with neighbours that have moved or will move, the callback refuses exactly the referenced entries and otherwise keeps every list with the same entries and contents |
| CacheModel.FindRefines | apc_cache.c:459-484 | a lookup finds exactly the entry bound to the key, unless it is hard expired |
| CacheModel.DeleteRefines | apc_cache.c:1002-1036 | deleting unbinds exactly that key and reports whether it was bound |
| CacheModel.InsertRefines | apc_cache.c:361-413 | an exclusive insertion fails exactly if an entry with the key exists that is not hard expired; else the new entry is what the key is bound to; besides, only expired entries disappear |
| CacheModel.ExpireRefines | apc_cache.c:810-824 | removing expired entries unbinds exactly those |
| CacheModel.ClearRefines | apc_cache.c:725-731 | clearing leaves every slot empty |
| CacheModel.RemoveSums | apc_cache.c:204-209 | removing an entry takes exactly its size and one entry off the totals over the slots |
| CacheModel.CollectSound | apc_cache.c:221-256 | collecting removed entries changes no slot and no binding |
| CacheModel.CollectExact | apc_cache.c:221-256 | collecting frees exactly the removed entries that are not referenced or have been kept too long, and leaves the rest of the memory alone |
| CacheModel.RemovedKept | apc_cache.c:221-256 | a removed entry is kept if and only if somebody refers to it and it was removed no longer ago than such entries are kept, if there is a limit |
| CacheState.CountersCover | apc_cache.c:204-209 | both counters always cover the entry that is removed, so the guards against underflow never apply |
| CacheState.RelocatedSameMap | apc_cache.c:161-176 | moving entries changes nothing about which keys are bound to which contents |
| CacheState.ExpungeOutcome | apc_cache.c:770-857 | an expunge either leaves all slots empty, or exactly the unexpired entries are still bound and there is a free block for the enlarged request |
| Expunging.ExpungeDetermined | apc_cache.c:770-857 | where an expunge starts determines the blocks after cleaning and after moving, and with them whether the cache is emptied |
| Expunging.ExpungeDecides | apc_cache.c:801-845 | all unexpired entries are spared if cleaning and moving make room, whether entries are referenced or not; the slots are empty otherwise |
| Expunging.FoundIffRoom | apc_sma.c:315-358 | memory is found if and only if the request is not too large and a free block fits at the end |
| Expunging.StoringUses | apc_cache.c:552-556 | storing an entry is its first use |
| Expunging.FindingUses | apc_cache.c:505-507 | finding an entry is a use of it |
| Expunging.StoreSparesUsed | apc_cache.c:142-158 | an entry without a time to live of its own survives stores under other keys until the time to live of the cache has passed since its last use, or for ever if there is none |
| Expunging.ExpungeSparesUsed | apc_cache.c:142-158 | it survives an expunge that does not empty the cache if and only if that time has not passed |
| Expunging.ExpungeSparesLiving | apc_cache.c:142-158 | an entry with a time to live of its own does so if and only if that has not passed since it was stored |
| CacheState.StoreThenFind | apc_cache.c:530-575 | after a successful store a lookup finds exactly what was stored, until its time to live has passed, also if the entries were moved meanwhile |
| CacheState.MetaGood | apc_cache.c:505-507 | changes of times, hits and reference counts keep the cache well formed |
| CacheStore.Create | apc_cache.c:310-359 | the cache header is the first allocation; the new cache is empty; creation fails exactly if the header does not fit |
| CacheStore.Cache.LinkEntry | apc_cache.c:180-187 | on the words of the segment, inserts the entry into its list and changes nothing else |
| CacheStore.Cache.UnlinkEntry | apc_cache.c:190-197 | on the words of the segment, takes the entry out of its list and changes nothing else |
| CacheStore.Cache.RemoveEntry | apc_cache.c:199-219 | does exactly what the model's removal does, and debits both counters |
| CacheStore.Cache.Gc | apc_cache.c:221-256 | does exactly what the model's collection does |
| CacheStore.Cache.KeyEquals | apc_cache.c:134-138 | comparing hash, length and bytes decides equality of keys |
| CacheStore.Cache.FindNoStat | apc_cache.c:459-484 | returns what the model's lookup returns |
| CacheStore.Cache.FindCounted | apc_cache.c:487-517 | the same, and counts a hit with the access time or a miss |
| CacheStore.Cache.IncRef | apc_cache.c:696-699 | one more reference, nothing else |
| CacheStore.Cache.Release | apc_cache.c:701-704 | one reference less, nothing else |
| CacheStore.Cache.Delete | apc_cache.c:1002-1036 | does exactly what the model's deletion does, and frees and counts nothing else |
| CacheStore.Cache.Insert | apc_cache.c:361-413 | does exactly what the model's insertion does, keeps the counters right and counts itself, and ends the ownership of the inserted entry |
| CacheStore.Cache.RealExpunge | apc_cache.c:719-744 | empties all slots; the used memory and the entry count have then come down to zero by themselves |
| CacheStore.Cache.Compact | apc_cache.c:838-839 | running the defragmenter with the callback of the cache keeps all invariants and every list with the same entries; exactly the referenced entries are refused; if there are none, all free memory is in one block afterwards |
| CacheStore.Cache.DefaultExpunge | apc_cache.c:770-857 | skips exactly if another expunge ran meanwhile; else does exactly the cleaning that the free memory after cleaning and the blocks after moving call for, and counts it; when memory was only fragmented and nobody refers to what is left after cleaning, makes room and costs no unexpired entry |
| CacheStore.Cache.UpdateLong | apc_cache.c:966-983 | one attempt: changes the value of an entry in place if it is an integer, and nothing but that and the times of the entry |
| CacheStore.Cache.UpdateOrInsert | apc_cache.c:954-1000 | the whole operation: a key that is not found gets a zero first, by an exclusive store with the cost of one, and is then updated, unless memory ran out |
| CacheStore.Cache.Malloc | apc_sma.c:315-358 | does exactly the attempts and expunges that the memory and its rivals call for: nothing if the request is too large or there is room; else one expunge of its own and one more attempt, or another round if others expunged first; it fails only if no free block fits at the end |
| CacheStore.Cache.Store | apc_cache.c:530-575 | the whole store on the words of the segment: the key holds exactly the new contents afterwards, or the store was refused because the key was taken, or no free block fitted after all that was done to make room; other keys lose at most expired entries |
| CacheStore.Cache.Clear | apc_cache.c:746-768 | empties the slots, collects, and resets the statistics |
| ValueGraph.IsomorphicThen | apc_persist.c:562-577 | a copy of a copy is a copy of the original, sharing and cycles included |
| ValueGraph.ElsewhereIsomorphic | apc_persist.c:80-85 | an entry means the same at whatever base its words are found |
| ValueGraph.CopyClosed | apc_persist.c:431-456 | what a graph was copied to is again a graph: all its pointers lead to objects of the right kind |
| Reachable.FineIffPlain | apc_persist.c:218-250 | counting succeeds if and only if no path from the value leads to an object or a resource, and otherwise says which of the two it met |
| PersistCalc.Calculator.CalcZval | apc_persist.c:218-250 | counts each shared object once; fails as `Reachable.FineIffPlain` says |
| PersistCalc.Calculator.CalcTable | apc_persist.c:140-192 | the same for an array, bucket by bucket: its head and data, its keys one by one, and what its values lead to |
| Persist.Copier.Alloc | apc_persist.c:272-277 | the bump pointer never passes the end of the counted memory |
| Persist.Copier.CopyTable | apc_persist.c:333-414 | copies an array without elements to offset 0, and any other with all buckets, shared values, and keys each of which belongs to one bucket and to no value |
| Persist.Copier.CopyRef | apc_persist.c:314-329 | copies a reference once, also when it leads back to itself |
| Persist.Copier.CopyZval | apc_persist.c:92-100 | takes exactly the bytes that were counted, gives offsets within the entry, and every object copied so far matches its original |
| CopyState.CopiedPrivate | apc_persist.c:301-305 | in a finished copy no key of an array is shared with another bucket or with a value |
| Persist.CreateEntry | apc_persist.c:458-534 | for every value from which no object or resource can be reached: the entry holds a graph isomorphic to the original with private keys, its objects do not overlap, and together take exactly the counted size |
| Persist.Measure | apc_persist.c:252-256 | the counted size is that of the entry with its key and of every object once; it is found if and only if no object or resource can be reached |
| RefCount.ExactFromNothing | apc_persist.c:598-633 | if every step accounts for the pointers it makes, the reference counts are exact at the end |
| RefCount.BucketFilled | apc_persist.c:683-697 | filling a bucket accounts for its private key and its value |
| Unpersist.Rebuilder.RebuildZval | apc_persist.c:703-732 | rebuilds a value from the words of the entry, sharing what was rebuilt before, and counts its one new pointer |
| Unpersist.Rebuilder.RebuildTable | apc_persist.c:645-701 | rebuilds an array with a copy of each key that belongs to its bucket alone |
| Unpersist.UnpersistEntry | apc_persist.c:734-758 | from words that spell a graph: the rebuilt graph is isomorphic to it and every reference count is the number of pointers, the root included; each key has one reference and nothing but its bucket points to it; no object is rebuilt that nothing refers to |
| Unpersist.PrivatePointedOnce | apc_persist.c:692 | where counts are exact, a private key is pointed to once, and not by the root |
| Unpersist.EntryReadable | apc_persist.c:562-577 | every persisted entry can be rebuilt wherever its words are |
| Unpersist.FetchValue | apc_persist.c:734-758 | the round trip: rebuilding a persisted entry from its words, found at any base, gives a graph isomorphic to the original with exact reference counts and private keys |
| Unpersist.StoreAndFetch | apc_persist.c:486-758 | counting, copying, writing as words and rebuilding from the words at any other address: succeeds if and only if no object or resource can be reached, and then gives the same graph back |
| Packing.UnpackPack | apc_persist.c:468-469 | a string is read from its words as it was written |
| EntryWords.Lay | apc_persist.c:272-277 | the objects of an entry can be written into its words side by side, so that the words spell all of them |
| EntryWords.TextRead | apc_persist.c:612-617 | a string is read from the words as it is spelled |
| EntryWords.DataRead | apc_persist.c:645-701 | so is the data of an array, as far as its buckets are in use |
| Roundtrip.SameWordsSameGraph | apc_persist.c:562-577 | two graphs that the same words spell, at whatever addresses, are isomorphic |
| Roundtrip.EntryCarries | apc_persist.c:458-476 | the words of a persisted entry can be rebuilt at any address, and every graph they spell is that of its value |
| EntryWords.MovedSpells | apc_sma.c:522-523 | words that spell a graph spell it at every other address too |
| Roundtrip.StoreValue | apc_cache.c:530-575 | persists a value and stores it: succeeds if and only if no object or resource can be reached, memory was found and an exclusive store found the key free; then the words under the key carry the value; memory is found exactly if a free block fits at the end |
| Roundtrip.FetchStored | apc_cache.c:859-886 | finds the entry, counts the access, refers to it, rebuilds the value from the words in the cache, and gives the reference back: if these words carry a value, that value is the result |
| Roundtrip.FetchedWhileHeld | apc_cache.c:873-884 | while the reference is held the words may be read one by one at any moments: they spell what was there when the reference was taken |
| Roundtrip.StoreMoveFetch | apc_cache.c:530-575 | a value is stored, all entries are moved, and what is then under the key in the cache is fetched: the entry found has the stored words and the same graph comes back, until its time to live is over; the store fails as `Roundtrip.StoreValue` says; if nobody refers to an entry all free memory is in one block |
| Updates.UpdateIsEffect | php_apc.c:531-535 | an increment or a swap on the cache is the update of the counter that `Counter` takes as one step |
| Updates.ScalarUpdated | apc_cache.c:973-980 | updating a stored scalar gives its entry the new value if it is an integer, and otherwise changes nothing and reports failure |
| Updates.StoreUpdateFetch | apc_cache.c:954-1000 | a scalar that is stored, updated and fetched comes back with its new value if it is an integer, and else as it was stored |
| Steps.RunStore | apc_cache.c:361-413 | inserting an entry into the cache is the step of the protocol |
| Steps.RunFindPin | apc_cache.c:519-528 | so is looking a key up and referring to its entry |
| Steps.RunRemove | apc_cache.c:1002-1036 | so is deleting a key |
| Steps.RunExpunge | apc_cache.c:770-857 | so is making room |
| Steps.RunClear | apc_cache.c:746-768 | so is emptying the cache |
| Steps.RunCreate | apc_persist.c:479-484 | so is taking memory for an entry, which is referenced from the start |
| Steps.RunDiscard | apc_cache.c:569-571 | so is giving up an entry that was not inserted |
| Steps.RunUnpin | apc_cache.c:701-704 | so is releasing a reference |
| Steps.RunUpdate | apc_cache.c:973-980 | so is updating an integer in place |
| Protocol.NextInv | apc_cache.c:161-256 | every step of every process, updates in place and references taken on removed entries among them, keeps the lists, the ownership of entries and the agreement of reference counts with held references |
| Protocol.OwnershipSafe | apc_persist.c:479-484 | in every reachable state an entry is in exactly one list, or in none and referenced once, by the process that makes it |
| Protocol.PinSafety | apc_cache.c:859-886 | while a reference is held its entry is neither freed nor moved, and keeps its size, its key, all words of a value that is not simple, and whether the value is simple, whatever others update, delete, replace, expunge, collect or defragment |
| Protocol.CleaningKeepsPinned | apc_cache.c:199-256 | neither removal nor collection frees a referenced entry that has not outstayed its time |
| Protocol.RelocatedPinned | apc_cache.c:161-176 | defragmentation keeps referenced entries and the agreement of their counts |
| Counter.Linearizable | php_apc.c:531-535 | the results of increments and swaps are those of one sequential history in which each finished call occurs once |
| Counter.ReadsLastWrite | php_apc.c:531-535 | in that history an increment returns the sum of its step and the value that was written last before it, a swap reports whether that was the value it expected, and the counter holds what was written last |
| Counter.OneSwapWins | php_apc.c:598-603 | of two swaps that expect the same value, the first replacing it, both succeed only if something was written in between |
| Counter.LogGrows | apc_cache.c:954-1000 | that history is only ever extended, so it respects the order of calls that do not overlap |
| Counter.NoLostIncrements | apc_cache.c:954-1000 | at any time the counter is its initial value, or zero, plus the steps of all finished increments, modulo the word size; no increment fails |
| Counter.PrefixSum | php_apc.c:531-535 | each increment returns the sum of the steps up to its own in one common order |
| EntryLock.BalancedLocking | apc_cache.h:279-303 | a thread that is inside has taken the real lock exactly once, however deep it is nested, in callbacks and in serializing and unserializing code alike; any other has released it as often as it took it |
| EntryLock.CallbackAlone | apc_cache.c:1248-1286 | while a callback runs no other thread is in a call or in an operation |
| EntryLock.CallbackUndisturbed | apc_cache.c:1248-1286 | and no step of another thread changes the lists, or a key or value in them |
| EntryLock.StartsIff | apc_cache.c:1260-1272 | a lookup starts the callback if and only if the cache does not find the key |
| LiveKeys.StaysLive | apc_cache.c:459-484 | a key that a lookup at some time finds stays one that it finds through every step but these: deleting it, emptying the cache, replacing it by what is over by then, and cleaning or storing when its entry counts as expired |
| EntryLock.SingleFlight | apc_cache.c:1248-1286 | after one thread has started the callback of a key, another one starts it only if the first stored nothing, or what it stored has outlived its time, or a step was made that may take the key away |
| EntryLock.PresentKeyHits | apc_cache.c:1261-1281 | while the cache finds a key and no step is made that may take it away, nobody starts its callback |
| Iteration.ListingExact | apc_iterator.c:203-257 | the enumeration of the slots has every matching entry that is not hard expired exactly once, and nothing else |
| Iteration.Iterator.FetchActive | apc_iterator.c:203-257 | fetches exactly the matching entries of the next slots, until there are more than the chunk size and no further, and none only when the slots are exhausted; refers to each of them while the items are built, and gives all references back |
| Iteration.Iterator.Valid | apc_iterator.c:428-442 | says no exactly when everything has been shown |
| Iteration.Iterator.ForEach | apc_iterator.c:413-504 | a foreach loop shows the enumeration of all slots once, in order, for every chunk size |
| Iteration.Iterator.Totals | apc_iterator.c:305-334 | size, hits and count are the sums over the same enumeration |
| Iteration.Iterator.DeleteChunk | apc_iterator.c:608-612 | deletes the keys of the fetched items and no others |
| Iteration.Iterator.DeleteAll | apc_iterator.c:591-616 | after deleting by a fresh iterator exactly the entries are left that were hard expired or do not match, with their contents |

## Left out

- Mapping and attaching shared memory, signals, preloading, configuration, the web page, argument parsing, statistics arrays: I/O and plumbing.
- Lock implementations: the lock of the allocator, the read/write lock of the cache and the atomic updates are ideal, and memory is sequentially consistent.
- Serializers: a graph with an object is reported as needing one, a resource as unstorable; the serialized string itself is not part of this model.
- Bailouts by longjmp: they run the same finally blocks as ordinary returns.
- Slam defence and the last key, canaries, the choice of a prime number of slots, and the stack of the iterator: easy or incidental.
- Iterating over removed entries (apc_iterator.c:259-303): the skip loop passes over at least one entry and the index advances by matches, so no exact enumeration is claimed.
- Deleting and inspecting hard expired keys: these operations do not look at expiry, and are modelled so or not at all.
- One clock reading for each operation: the source reads the clock again for each removed entry.
- The threshold of the expunge is an arbitrary amount added to the request, so no floating point occurs.
- CacheStore.Cache.Malloc: of what other processes do between its attempts only the expunges they complete are modelled here; their insertions and removals are steps of `Protocol`, where no request is tied to the state it found.
- CacheStore.Cache.WriteField: words of an entry and counters of the header are written one at a time, but an operation under the write lock is one step of `Protocol`; the steps that fill in a new entry are single writes there too.
- Protocol.PinSafety: assumes that no reference outlives the time removed entries are kept, or that this time is unlimited; the words of a simple value (null, a truth value, a number) may change under a reference, as updates in place change them.
- Counter.NoLostIncrements: no expiry, deletion or allocation failure happens to the key, as these may legitimately lose it.
- EntryLock.SingleFlight: which steps user code makes on the cache is left open; a lookup inside a call and a store of its result are single steps under the lock.
- Persist.Copier.CopyTable: objects of a graph are the units of memory here (`EntryWords` says which words spell them); a bucket is written in one step when its key and value have been copied; the internal pointer and the next free index of an array are not modelled.
- Unpersist.Rebuilder.RebuildTable: the data of a new array counts as unused buckets until they are filled in.
- Iteration.Iterator.FetchActive: the value of an item is not rebuilt here; one time is used for all chunks.
- EntryWords.Lay: objects are copied as objects and then written as words, where the source writes the words as it copies; the hash part of an array, the flags in type words and the fields of an array that are not modelled spell nothing.
- Roundtrip.FetchStored: the words of the entry are copied before they are followed, where the source follows them in shared memory; `Roundtrip.FetchedWhileHeld` is why this makes no difference.
- CacheStore.Cache.UpdateOrInsert: other processes act between its two attempts only as rivals of its allocation; all interleavings of updates are the subject of `Counter`.
