# CacheSim: a verified model

CacheSim traces a program instruction by instruction, feeds every fetch and every data access to a simulated
AMD Jaguar cache hierarchy, books what happened under the instruction and its call stack, saves the capture to a
file, and shows it in a viewer as a call tree, a flat table and a per-line table. This project models the parts
that decide whether those numbers are right and proves what they compute.

The model keeps the program's shape. What the program updates in place is a class whose methods do the same
(the cache sets, the two modules, the digest state, the hash table, the stack arena, the statistics, the
disassembler's operand, the capture file, the call tree); each method is proved against a function of values, and
the theorems are about those functions, over every trace, every run or every input.

| files | what they model |
|---|---|
| `Bits`, `Bytes`, `Terminated`, `Counters` | machine words, little-endian numbers, zero-terminated sequences, the eight counters |
| `LruSet`, `CacheModel`, `Cache` | one set, one cache, and the cache object |
| `JaguarModel`, `Jaguar` | eight cores in two modules, and the simulator objects |
| `JaguarTrace`, `JaguarAlone`, `JaguarStale` | accesses as traces of events, what one core on its own is told, and when a hit is stale |
| `Md5Model`, `Md5Bits`, `SineTable`, `Md5` | RFC 1321, what its operations and constants mean, and the unrolled implementation that digests call stacks |
| `HashTable`, `StackModel`, `StackArena` | the chained hash table, stack interning, and the arena of stacks |
| `StatsModel`, `CommitTrace`, `Stats`, `Export` | committing instructions to the statistics, event by event, and handing the records over |
| `CaptureProtocol`, `Attribution`, `Trapped` | trap handlers on many threads against the start and end of captures, and whether counts go to the right stack |
| `CaptureModel`, `CaptureFile`, `Symbols`, `SymbolFile` | the capture file, written and read back, with resolved symbols |
| `ProfileModel`, `Profile`, `CallTree`, `Agreement` | the three views of a trace and their agreement |
| `OperandModel`, `Operand` | memory operands: encoding, decoding, effective addresses |

Where the code and its own comments disagree, or a promise needs a condition, the model follows the code and
proves exactly when the promise holds:

- The comment that the hierarchy is inclusive (CacheSim/CacheSimInternals.cpp:47) is not true in general:
  `JaguarModel.InclusionBreaks` names two accesses that break it and `JaguarModel.StaysInclusiveIff` says exactly
  which accesses keep it. It is not even true of one core on its own, whose fetches can push a data line out of the
  second level only (`JaguarAlone.FetchesDemoteData`). `JaguarAlone.AloneOutcome` says what such a core is told for
  every mix of fetches and data accesses, `JaguarAlone.DemotedIff` exactly when a line that its first level holds
  is reported as a second-level miss, and `JaguarAlone.OneKindStaysInclusive` that accesses of one kind keep
  inclusion.
- A write reaches the other module's second-level cache but not its first-level caches, nor the writing core's own
  instruction cache, so a first-level hit can be stale (`JaguarStale.StaleHit`). `JaguarStale.StaleHitIff` says
  exactly which writes make a stale hit possible, `JaguarModel.WriteLeavesSoleCopyIff` exactly when a write leaves
  the only copy, and `JaguarStale.FreshUnlessRefetched` what must have happened between the write and the hit.
- Line 0 is also the marker of an empty way, so it hits exactly while its set has a way to spare
  (`CacheModel.LineZeroHitsIff`); theorems about which lines a cache holds are about other lines.
- The loop over the lines of an access never ends when the range reaches into the topmost line of the address
  space (`Jaguar.LineLoopEndsIff`).
- A capture without modules does not read back: its module count keeps the placeholder
  (`CaptureModel.ModuleCountReadsBackIff`).
- A stack offset reads back the right stack for every insertion exactly when no two stacks that differ to a reader
  share a digest (`StackModel.InterningLaw`).
- A trap handler that carries the index of a stack from before the arena was freed into the next capture counts
  under a stack that is not there (`Attribution.SpanningMiscounts`). `Attribution.MiscountsIff` says exactly which
  states at the start of a capture allow that; from all others the statistics are exactly the trapped
  instructions, each under the stack it was trapped on (`Trapped.StatisticsAreTraps`).

Integers are unbounded in the model; where the program's width matters (digest words, counters, line addresses,
effective addresses, the reserve of the arena) the wrap is written out.

## Model

| member | source | states |
|---|---|---|
| LruSet.TouchHolds | CacheSim/CacheSimInternals.h:90-114 | after an access a set holds the line and all it held before, except the one line pushed out on a miss |
| LruSet.DropHolds | CacheSim/CacheSimInternals.h:125-139 | after an invalidation a set holds exactly what it held before but for that line |
| LruSet.TouchRefines | CacheSim/CacheSimInternals.h:90-114 | the shifting and swapping of an array of ways is move-to-front on the list of real lines, cut off at the number of ways |
| LruSet.DropRefines | CacheSim/CacheSimInternals.h:125-139 | closing the gap in the array is removal from that list |
| LruSet.UsePrefix | CacheSim/CacheSimInternals.h:82-115 | a list that is a prefix of another stays one when both use the same line and the longer has at least as many ways |
| CacheModel.RunIsListRun | CacheSim/CacheSimInternals.h:82-140 | in every run of accesses and invalidations each set is a duplicate-free list of non-zero lines followed by empty ways, namely the LRU list of the run |
| CacheModel.HitIsListMember | CacheSim/CacheSimInternals.h:82-115 | an access hits exactly when the line is on the LRU list of its set |
| CacheModel.MoreWaysKeepEveryHit | CacheSim/CacheSimInternals.h:82-140 | stack property with invalidations: with equal set counts and more ways, every set of the smaller cache is a prefix of the larger one's, and no hit is lost |
| CacheModel.ListRunIsRecency | CacheSim/CacheSimInternals.h:82-115 | a set of an access-only run is the set's share of the global recency order, cut off at the ways |
| CacheModel.StackDistance | CacheSim/CacheSimInternals.h:82-115 | LRU law: in an access-only run a line hits if and only if it was accessed before and fewer than the number of ways other lines of its set were accessed since |
| CacheModel.Inclusion | CacheSim/CacheSimInternals.h:82-115 | set-refinement inclusion: same accesses, set count divides, no more ways, then every line of the one is in the other |
| CacheModel.LineZeroHitsIff | CacheSim/CacheSimInternals.h:58-58 | over every run of accesses and invalidations of other lines, line 0 is reported as a hit if and only if its set has an empty way |
| CacheModel.LineZeroHitsFreshCache | CacheSim/CacheSimInternals.h:58-58 | a fresh cache hits line 0 and no other line |
| Cache.Cache.Init | CacheSim/CacheSimInternals.h:75-78 | empties every way of every set |
| Cache.Cache.Access | CacheSim/CacheSimInternals.h:82-115 | returns whether the line was in its set and leaves the cache as the model's access does; other sets stay |
| Cache.Cache.MoveToFront | CacheSim/CacheSimInternals.h:96-103 | the swapping loop moves the hit way to the front and keeps the order of the others |
| Cache.Cache.InsertFront | CacheSim/CacheSimInternals.h:107-114 | the shifting loop drops the last way and puts the line in front |
| Cache.Cache.Invalidate | CacheSim/CacheSimInternals.h:117-140 | takes the line out of its set and leaves everything else as the model's invalidation does |
| Cache.Cache.CloseGap | CacheSim/CacheSimInternals.h:129-136 | the ways behind the removed one move up and the last becomes empty |
| JaguarModel.RunIsSound | CacheSim/CacheSimInternals.cpp:30-78 | over every interleaving of the cores, every set of every cache has no line twice and only lines that belong there |
| JaguarModel.StepL1 | CacheSim/CacheSimInternals.cpp:32-58 | how one access changes which lines a first-level cache holds: exactly who gains, loses and keeps a line |
| JaguarModel.StepL2 | CacheSim/CacheSimInternals.cpp:44-48 | the same for a second-level cache |
| JaguarModel.HitProvenance | CacheSim/CacheSimInternals.cpp:30-78 | over every interleaving of the eight cores: a first-level hit means this core fetched the line earlier with no sibling write since, and anything but a miss means the module accessed it after the other module's last write |
| JaguarModel.WriteLeavesSoleCopyIff | CacheSim/CacheSimInternals.cpp:32-45 | a write leaves the writer with the only copy if and only if no first-level cache of the other module held the line |
| JaguarStale.StaleHitIff | CacheSim/CacheSimInternals.cpp:32-66 | after any history and a write that does not go through the cache a core looks up, some continuation without a fetch of its own gives that core a first-level hit if and only if its cache held the line and the writer is no sibling |
| JaguarStale.StaleHit | CacheSim/CacheSimInternals.cpp:44-66 | three accesses after which a read is a first-level hit on a line the other module has written since |
| JaguarStale.FreshUnlessRefetched | CacheSim/CacheSimInternals.cpp:30-78 | for data and instruction hits alike: no sibling wrote the line since the cache last looked it up, and after every write by the other module since then the module took the line again by another path |
| JaguarModel.StaysInclusiveIff | CacheSim/CacheSimInternals.cpp:47-58 | an inclusive hierarchy stays inclusive across an access if and only if no first-level cache keeps a line that the access takes from the second level |
| JaguarModel.InclusionBreaks | CacheSim/CacheSimInternals.cpp:47-48 | two accesses from empty caches after which a first-level line is not in the second level |
| JaguarAlone.AloneHolds | CacheSim/CacheSimInternals.cpp:47-58 | for a core that runs alone, fetches and data accesses mixed: a first-level cache holds exactly the lines near among the accesses of its kind, the second level those near among all accesses |
| JaguarAlone.AloneOutcome | CacheSim/CacheSimInternals.cpp:47-77 | the result of every access of a core that runs alone is decided by two stack distances, the first level's over the accesses of the same kind, the second level's over all |
| JaguarAlone.DemotedIff | CacheSim/CacheSimInternals.cpp:60-77 | a line that the core's first level holds is reported as a second-level miss if and only if its stack distance over all accesses reaches the ways of the second level |
| JaguarAlone.FetchesDemoteData | CacheSim/CacheSimInternals.cpp:47-77 | for every geometry, a read followed by as many fetches of other lines of its second-level set as that has ways: the data cache holds the line, inclusion is broken, and the next read is a miss |
| JaguarAlone.OneKindStaysInclusive | CacheSim/CacheSimInternals.cpp:47-58 | a core that runs alone with fetches only, or with data accesses only, keeps its first level inside the second |
| JaguarModel.JaguarNests | CacheSim/CacheSimInternals.h:143-149 | 32 KB with 8 and with 2 ways and 2 MB with 16 ways, in lines of 64 bytes; the sizes meet the conditions of inclusion |
| JaguarModel.StraddleIsWorstBefore | CacheSim/CacheSimInternals.cpp:80-98 | an access of no more lines than the caches have sets returns the worst result of its lines judged on the state before it |
| JaguarModel.WorstBeforeIsMaximum | CacheSim/CacheSimInternals.cpp:92-93 | that worst result bounds every line's and, past the initial value, is one of them |
| JaguarModel.LinesOfRange | CacheSim/CacheSimInternals.cpp:85-89 | the lines visited are those holding a byte of the range, and one more exactly when the range ends on a line boundary |
| JaguarTrace.SweepIsTrace | CacheSim/CacheSimInternals.cpp:80-98 | a straddling access does to the caches what its lines' events do in order; data is answered with a miss exactly if some line misses the second level when it is reached, with a second-level hit exactly if none does and some line misses the first, else with a first-level hit; fetches likewise |
| JaguarTrace.AnswerKinds | CacheSim/CacheSimInternals.cpp:60-77 | a fetch is never answered with a data result nor data with a fetch result, and an access of one line is answered with that line's outcome |
| Jaguar.JaguarModule.Access | CacheSim/CacheSimInternals.cpp:30-78 | changes both modules as the model's step does and returns the classified result |
| Jaguar.JaguarModule.InvalidateOthers | CacheSim/CacheSimInternals.cpp:32-45 | a write takes the line out of the siblings' first-level caches and the other module's second level, and out of nothing else |
| Jaguar.JaguarModule.LookUp | CacheSim/CacheSimInternals.cpp:47-58 | looks up the second level, then the core's own first level |
| Jaguar.JaguarModule.Init | CacheSim/CacheSimInternals.h:163-172 | empties the module's nine caches and links it to the other module |
| Jaguar.JaguarCacheSim.Init | CacheSim/CacheSimInternals.h:183-187 | empties every cache of both modules |
| Jaguar.JaguarCacheSim.Access | CacheSim/CacheSimInternals.cpp:80-98 | accesses every line of the range in order, wrapping the end at 64 bits, and returns the worst result |
| Jaguar.LineLoopEndsIff | CacheSim/CacheSimInternals.cpp:85-95 | the line loop ends if and only if the range does not reach into the topmost line |
| Bits.MaskIsModulo | CacheSim/CacheSimInternals.h:84-86 | masking with a power of two less one is the remainder |
| Md5Model.PaddingIsShortest | CacheSim/Md5.cpp:400-400 | the padding length is the least that leaves eight bytes in the last block |
| Md5Bits.PaddedMeans | CacheSim/Md5.cpp:384-402 | the padded message is the message, a one bit, zeros, and in the last eight bytes the number of its bits modulo 2^64 |
| Md5Bits.MixBit | CacheSim/Md5.cpp:221-302 | bit by bit, F chooses by x between y and z, G by z between x and y, H is the parity, I is y exclusive or (x or not z) |
| Md5Bits.RotLeftBit | CacheSim/Md5.cpp:216-216 | rotation takes bit i to bit i + s around the end of the word |
| Md5Bits.StepMeans | CacheSim/Md5.cpp:222-224 | one step is b + ((a + mix + word + sine) <<< shift), all modulo 2^32 |
| Md5Bits.EveryWordOnce | CacheSim/Md5.cpp:226-323 | within a round every word of the block is used exactly once |
| Md5Bits.FourShifts | CacheSim/Md5.cpp:226-323 | the rotations are four to a round and repeat every four steps |
| Md5Bits.WordOfBytes | CacheSim/Md5.cpp:403-404 | the bytes of a word, low-order byte first, put together again are the word |
| Md5Bits.InitialBytes | CacheSim/Md5.cpp:337-344 | the chaining words start as the bytes 01 23 45 ... 10 of section 3.3 |
| SineTable.SineIsSine | CacheSim/Md5.cpp:84-148 | each of the 64 constants is the integer part of 2^32 times the absolute sine of its number, computed from the power series and the addition theorems in fixed point |
| SineTable.OneRadian | CacheSim/Md5.cpp:84-148 | the sine and cosine of one radian that this starts from are their power series to sixteen digits |
| Md5.Round1 | CacheSim/Md5.cpp:218-243 | the sixteen unrolled steps are steps 1 to 16 of the table-driven loop |
| Md5.Round2 | CacheSim/Md5.cpp:245-270 | the same for steps 17 to 32 |
| Md5.Round3 | CacheSim/Md5.cpp:272-297 | the same for steps 33 to 48 |
| Md5.Round4 | CacheSim/Md5.cpp:299-324 | the same for steps 49 to 64 |
| Md5.CountCarries | CacheSim/Md5.cpp:351-360 | adding bytes to the two count words with the carry found by comparison adds eight times as much modulo 2^64 |
| Md5.Md5State.LoadWords | CacheSim/Md5.cpp:195-216 | the sixteen words of a block, low-order byte first |
| Md5.Md5State.Init | CacheSim/Md5.cpp:337-344 | the state of the empty message |
| Md5.Md5State.Process | CacheSim/Md5.cpp:150-335 | folds one block into the four registers as section 3.4 of RFC 1321 does |
| Md5.Md5State.Append | CacheSim/Md5.cpp:346-382 | the state of a message becomes the state of the message with the piece appended, so any split gives the same |
| Md5.Md5State.Pad | CacheSim/Md5.cpp:386-402 | appends the padding and the length and completes the last block |
| Md5.Md5State.Finish | CacheSim/Md5.cpp:384-405 | writes the digest of the message as defined by sections 3.1 to 3.5 of RFC 1321 |
| Md5.StateIsFunctionOfMessage | CacheSim/Md5.cpp:346-382 | two states fed the same bytes in whatever pieces agree on count words, registers and live buffer |
| HashTable.SlotInRange | CacheSim/GenericHashTable.h:352-352 | masking a hash with capacity less one selects an existing bucket |
| HashTable.LinkedPlus | CacheSim/GenericHashTable.h:204-209 | a new element at the head of its chain keeps every chain threaded, sorted into buckets and complete |
| HashTable.Relink | CacheSim/GenericHashTable.h:391-395 | moves one element from its old chain to the head of its new one; no other moves |
| HashTable.RelinkChain | CacheSim/GenericHashTable.h:387-396 | moves a whole chain |
| HashTable.RelinkAll | CacheSim/GenericHashTable.h:384-397 | moves every chain; the new table holds the same elements under the same keys |
| HashTable.GenericHashTable.constructor | CacheSim/GenericHashTable.h:138-138 | an empty table |
| HashTable.GenericHashTable.Find | CacheSim/GenericHashTable.h:177-181 | the element stored for the key, or none |
| HashTable.GenericHashTable.FindInternal | CacheSim/GenericHashTable.h:345-366 | walking the chain of the hash's bucket finds the element of the key if and only if there is one |
| HashTable.GenericHashTable.Home | CacheSim/GenericHashTable.h:352-363 | a stored key hangs in the bucket that its hash masked with capacity less one selects, and only there; no other element of that bucket has the key |
| HashTable.GenericHashTable.Grow | CacheSim/GenericHashTable.h:375-404 | doubles the capacity, or makes it 64, and keeps every element, its value and its identity |
| HashTable.GenericHashTable.Insert | CacheSim/GenericHashTable.h:186-212 | returns the existing element or a new blank one; all other elements stay the same objects with the same values |
| HashTable.GenericHashTable.Hang | CacheSim/GenericHashTable.h:202-211 | adds one element at the head of its bucket and counts it |
| HashTable.GenericHashTable.Store | CacheSim/GenericHashTable.h:183-186 | writing through a returned pointer changes that key's value and nothing else |
| HashTable.GenericHashTable.FreeAll | CacheSim/GenericHashTable.h:145-164 | back to the empty table |
| HashTable.FlatVisitsAll | CacheSim/GenericHashTable.h:266-277 | the order of iteration lists every stored key once, as many as the table counts |
| HashTable.Iterator.Begin | CacheSim/GenericHashTable.h:253-263 | stands on the first element of the iteration order, or at the end of an empty table |
| HashTable.Iterator.Step | CacheSim/GenericHashTable.h:266-277 | goes to the next element of the iteration order, or to the end |
| HashTable.Visit | CacheSim/GenericHashTable.h:321-329 | stepping from begin to end terminates and yields every key exactly once, as many as the count |
| StackModel.InternKeepsSound | CacheSim/CacheSimCommon.inl:169-206 | inserting a stack keeps every earlier offset and stack, and offsets of different digests different |
| StackModel.SameOffsetIffSameDigest | CacheSim/CacheSimCommon.inl:171-176 | two insertions of a run get the same offset if and only if their digests are equal |
| StackModel.OffsetReadsBack | UI/TreeModel.cpp:246-250 | at the end of any run an offset reads back, up to the zero word, a stack inserted with the same digest |
| StackModel.InterningLaw | CacheSim/CacheSimCommon.inl:169-206 | every offset of a run reads back its own stack if and only if no two inserted stacks that differ up to their first zero share a digest |
| StackModel.DistinctDigests | CacheSim/CacheSimCommon.inl:169-206 | with distinct digests for distinct stacks and no zero frames, offsets and stacks determine each other and read back exactly |
| StackArena.StackData.MakeKey | CacheSim/CacheSimCommon.inl:36-42 | the key is the MD5 digest of the frames' bytes |
| StackArena.FrameReadsBack | CacheSim/CacheSimCommon.inl:36-42 | the digested bytes hold every frame as eight bytes at its place, so different stacks are different messages |
| StackArena.HashOfDigest | CacheSim/CacheSimCommon.inl:142-145 | the table hash of a stack is the number its digest starts with |
| StackArena.SharedOffsetIff | CacheSim/CacheSimCommon.inl:169-206 | two insertions of a run share an offset if and only if the stacks are equal or their bytes are different messages with the same MD5 digest |
| StackArena.StackData.Reserve | CacheSim/CacheSimCommon.inl:180-195 | makes room, doubling the reserve, and keeps the words in use |
| StackArena.StackData.Write | CacheSim/CacheSimCommon.inl:197-199 | puts the frames and a zero word behind the words in use |
| StackArena.StackData.InsertStack | CacheSim/CacheSimCommon.inl:169-206 | arena, table and returned offset are those of the interning model |
| StatsModel.CommitBumps | CacheSim/CacheSimCommon.inl:536-569 | one instruction bumps the instruction counter once, one result for its fetch and each data access, and at most one prefetch counter, only if it prefetches |
| StatsModel.BumpsCount | CacheSim/CacheSimCommon.inl:561-561 | a 32-bit counter moves by its number of bumps less a full turn for every wrap |
| StatsModel.RecordsAreCounts | CacheSim/CacheSimCommon.inl:533-569 | over any capture every counter of every record is, up to whole turns, how often the instructions of its key bumped it |
| StatsModel.RecordedKeys | CacheSim/CacheSimCommon.inl:533-534 | exactly the address and call stack of every committed instruction have a record |
| StatsModel.TotalIsCount | CacheSim/CacheSimCommon.inl:533-569 | a counter summed over all records is, up to whole turns, how often the capture bumped it |
| StatsModel.Conservation | CacheSim/CacheSimCommon.inl:527-569 | over any capture the instruction counters add up to the instructions, the five result counters to instructions plus data accesses, and prefetch hits never exceed prefetches |
| CommitTrace.CommitIsTrace | CacheSim/CacheSimCommon.inl:538-568 | an instruction does to the caches what its core's events do: the lines of its fetch, of its prefetch as reads unless the address is 0, of its loads in order, of its stores in order |
| CommitTrace.CommitCounts | CacheSim/CacheSimCommon.inl:533-569 | which counters it bumps: 7 once, then by number the one of its fetch's answer, 5 or 6 for a prefetch that hits D1 or L2, and the one of every data access's answer in the state its predecessors leave |
| CommitTrace.Widths | CacheSim/CacheSimCommon.inl:134-134 | counters have 32 bits, addresses 64 |
| CommitTrace.CountsKinds | CacheSim/CacheSimCommon.inl:540-568 | a fetch counts as I1 hit, L2 hit or L2 fetch miss, a data access as D1 hit, L2 hit or L2 data miss |
| CommitTrace.CaptureIsTrace | CacheSim/CacheSimCommon.inl:527-569 | the caches after a capture are those after the trace of all its events, from empty caches |
| Stats.Recorder.RipNode | CacheSim/CacheSimCommon.inl:164-167 | the record of a key, blank if new; caches and other records stay |
| Stats.Recorder.Count | CacheSim/CacheSimCommon.inl:536-536 | adds one, modulo 2^32, to one counter of one record and changes nothing else |
| Stats.Recorder.Prefetch | CacheSim/CacheSimCommon.inl:543-555 | a prefetch is an immediate read, recorded only when it hits the D1 or the L2 |
| Stats.Recorder.DataTraffic | CacheSim/CacheSimCommon.inl:558-568 | every access in order, each bumping the counter of its result |
| Stats.Recorder.Commit | CacheSim/CacheSimCommon.inl:527-569 | caches and records change as the model's commit does, or not at all once tracing is off |
| Stats.Recorder.Start | CacheSim/CacheSimLinux.cpp:236-253 | empties the caches, turns commits on and leaves the records; returns false and changes nothing while tracing is on |
| Stats.Recorder.Capture | CacheSim/CacheSimCommon.inl:527-569 | committing the instructions of a capture in order, from empty caches and records, gives the state of the model's run; nothing happens if a capture is already on |
| Export.ExportRecords | CacheSim/CacheSimCommon.inl:780-790 | one record per key, none twice, as many as the table counts, each with the table's counters |
| CaptureProtocol.MutualExclusion | CacheSim/CacheSimCommon.inl:87-107 | over every interleaving at most one thread is inside the spin lock |
| CaptureProtocol.Quiescence | CacheSim/CacheSimCommon.inl:663-683 | from the moment the end of a capture holds the lock until tracing is enabled again, no handler step changes the statistics |
| CaptureProtocol.SavedEndClears | CacheSim/CacheSimCommon.inl:663-804 | a saved end turns tracing off, waits for the lock, clears statistics and stacks under it, releases it and changes nothing else |
| CaptureProtocol.UnsavedEndKeeps | CacheSim/CacheSimCommon.inl:666-671 | an end without saving only turns tracing off |
| CaptureProtocol.StartEnables | CacheSim/CacheSimLinux.cpp:236-253 | a start turns tracing on under a new generation, or does nothing while tracing is on |
| Attribution.CountsAreAttributed | CacheSim/CacheSimLinux.cpp:139-181 | as long as no capture starts while a handler carries a stale index, at every moment of every run every statistics key stands for one address and one stack, that stack is on record at the key's offset, and the count is the number of times the address was committed under it |
| Attribution.MiscountsIff | CacheSim/CacheSimLinux.cpp:164-181 | at the start of a capture in any reachable state: some continuation counts an instruction under a stack that is not on record at its offset if and only if some handler carries a stale index when the generation is bumped |
| Attribution.SafeStaysAttributed | CacheSim/CacheSimCommon.inl:524-536 | from a state in which no thread holds or would keep a stale index, no interleaving counts under the wrong stack before the arena is freed |
| Attribution.OneStackPerKey | CacheSim/CacheSimCommon.inl:164-206 | two commits under the same key were made for the same address and the same stack |
| Attribution.IdleStartIsClean | CacheSim/CacheSimLinux.cpp:139-154 | a capture that starts while no handler is past reading the generation starts clean |
| Attribution.SpanningMiscounts | CacheSim/CacheSimLinux.cpp:164-181 | there is a run in which a handler spans two captures and counts under a stack that is gone |
| Trapped.CountsItsTrap | CacheSim/CacheSimLinux.cpp:139-181 | in a run whose threads see what traced threads can see, every instruction is counted at its own address, under the index of the stack it was trapped on, on a thread that a step mapped to a core |
| Trapped.StatisticsAreTraps | CacheSim/CacheSimCommon.inl:395-536 | over every such run with clean starts the statistics are the traps counted since the arena was freed: a key for each address and stack, at the stack's offset, with their number |
| Trapped.TrapCountsOnce | CacheSim/CacheSimLinux.cpp:139-181 | a trap that nothing disturbs, on a thread with a core while tracing is on, counts its instruction exactly once under the stack it sees and leaves the lock free |
| CaptureModel.ImageDescribes | CacheSim/CacheSimCommon.inl:727-790 | the file as written describes its capture in the header and holds every section where the header says |
| CaptureModel.SignatureReadsBack | CacheSim/CacheSimCommon.inl:727-728 | the file starts with the signature 0xcace51af and version 2 |
| CaptureModel.ModulesReadBack | CacheSim/CacheSimData.h:102-108 | the module accessors return every module with its fields and its name, at an 8-aligned offset |
| CaptureModel.FramesReadBack | CacheSim/CacheSimData.h:110-111 | the stack accessors return the frames, at an 8-aligned offset |
| CaptureModel.RecordsReadBack | CacheSim/CacheSimData.h:113-114 | the statistics accessors return the records, at an 8-aligned offset |
| CaptureModel.ModuleCountReadsBackIff | CacheSim/CacheSimCommon.inl:730-770 | the module count reads back if and only if there are modules |
| CaptureFile.Patched | CacheSim/CacheSimCommon.inl:714-724 | overwriting four bytes at a header word changes that word and nothing else |
| CaptureFile.PatchWord.constructor | CacheSim/CacheSimCommon.inl:708-712 | notes the position and appends the placeholder |
| CaptureFile.PatchWord.Update | CacheSim/CacheSimCommon.inl:714-724 | fills its header word in, changes nothing else, and returns to the end of the file |
| CaptureFile.Align | CacheSim/CacheSimCommon.inl:690-697 | appends fewer than eight zeros and leaves the position a multiple of eight |
| CaptureFile.WriteModules | CacheSim/CacheSimCommon.inl:753-764 | writes the module table, each row with the start of its name |
| CaptureFile.WriteModuleSection | CacheSim/CacheSimCommon.inl:747-771 | writes module table and names and patches their three header words, or nothing if there are no modules |
| CaptureFile.WriteRecords | CacheSim/CacheSimCommon.inl:784-790 | writes each record as address, stack offset, eight counters and a zero word |
| CaptureFile.WriteCapture | CacheSim/CacheSimCommon.inl:727-792 | the file written front to back with patched words is the image of the capture |
| Symbols.StringPool.Intern | UI/TraceData.cpp:299-314 | the offset of a string, written zero-terminated if new; earlier offsets and text stay |
| Symbols.SortByRipSorts | UI/TraceData.cpp:335-338 | sorting by address is a sorted permutation |
| Symbols.FindSymbol | CacheSim/CacheSimData.h:119-135 | binary search finds the first record of an address, or none if there is none |
| Symbols.SerializeSymbols | UI/TraceData.cpp:293-338 | looking an address up finds a record if and only if it was resolved, with the same fields and with offsets whose strings read back; records and text of symbols in range fit the fields of the file |
| SymbolFile.SymbolsReadBack | CacheSim/CacheSimData.h:116-117 | the symbol accessors return the records appended |
| SymbolFile.TextReadsBack | UI/TraceData.cpp:130-130 | the string at an offset reads back, up to the zero |
| SymbolFile.AppendSymbols | UI/TraceData.cpp:204-232 | appends symbols and text and enters them in three header words; every other byte stays |
| SymbolFile.ResolvedDescribes | UI/TraceData.cpp:212-232 | appending symbols leaves the modules, frames and records readable as before and makes the symbols readable |
| SymbolFile.AnswersReadBack | CacheSim/CacheSimData.h:116-135 | records and text that answer for the resolved addresses still do so when they are read from the bytes of the file |
| SymbolFile.ResolveFile | UI/TraceData.cpp:204-338 | from the list of resolved symbols to the file: the capture stays readable as it was, the viewer finds a record for an address if and only if it was resolved, with its module, line and displacement, and both names read back |
| ProfileModel.SameSamples | UI/FlatModel.cpp:149-176 | a sum depends only on which samples count |
| ProfileModel.ChildrenPartition | UI/TreeModel.cpp:259-285 | where no path ends, the sums of the next steps add up to the sum of the node |
| ProfileModel.TopDownPath | UI/TreeModel.cpp:242-255 | the top-down path ends with the sampled instruction, behind its callers with the innermost last; so do the source files |
| ProfileModel.BottomUpPath | UI/TreeModel.cpp:232-250 | a path of a symbol's own tree starts with the symbol and goes on with its callers, the innermost first; samples elsewhere have none |
| ProfileModel.CalleeIsBelow | UI/TreeModel.cpp:252-255 | an instruction whose call stack is another sample's with that sample's address in front is one step below it |
| ProfileModel.HexReadsBack | UI/TreeModel.cpp:271-271 | the hexadecimal digits of an address stand for it, sixteen of them for any 64-bit address |
| ProfileModel.LabelMeans | UI/TreeModel.cpp:261-272 | an address shows its symbol's name or, without one, sixteen digits in brackets that stand for it |
| Profile.Accumulate | UI/FlatModel.cpp:171-174 | adds eight counters, each modulo 2^32 |
| Profile.BookedNext | UI/FlatModel.cpp:156-174 | one more sample in a table of counters: its entry takes the counters up or starts with them, the others still show their sums |
| Profile.TraceData.InternedSymbolString | UI/TraceData.cpp:122-134 | the string at an offset, read once and remembered in both caches |
| Profile.TraceData.SymbolNameForAddress | UI/TraceData.cpp:98-108 | the name of the symbol of an address, or none |
| Profile.TraceData.FindFileData | UI/TraceData.cpp:136-202 | the lines of a symbol in ascending order, each with the sums of exactly its samples, first and last line, and the first file name; nothing for a name without an offset |
| Profile.FirstFileIsFirst | UI/TraceData.cpp:164-167 | the file of a symbol is that of its first sample that has one, and empty only if none has |
| Profile.SortLines | UI/TraceData.cpp:185-194 | the collected lines in ascending order, none lost |
| Profile.FlatModel.Book | UI/FlatModel.cpp:154-174 | adds a sample to the row of its name, or to a new row |
| Profile.FlatModel.DataStoreChanged | UI/FlatModel.cpp:136-176 | one row for each name of a sampled symbol, showing the sums of exactly its samples |
| CallTree.Node.Child | UI/TreeModel.cpp:65-81 | the child of a name, or a new one at the end |
| CallTree.Tree.Reach | UI/TreeModel.cpp:275-276 | going down one name keeps the tree the prefix tree, siblings differently named and every node on one path |
| CallTree.Tree.Descend | UI/TreeModel.cpp:275-285 | going down one name adds the sample to that node and to no other |
| CallTree.Tree.AddSample | UI/TreeModel.cpp:257-286 | taking a sample down its path adds one path to the tree |
| CallTree.ReadFrames | UI/TreeModel.cpp:244-250 | the instruction and the callers up to the zero word |
| CallTree.Label | UI/TreeModel.cpp:261-272 | the symbol's name, or the address in sixteen hexadecimal digits in brackets |
| CallTree.CreateTree | UI/TreeModel.cpp:218-290 | the tree of all samples, outermost call first, or of the samples in one symbol, innermost first; every node shows the source file of the first sample's call through it |
| Agreement.NodeAt | UI/TreeModel.cpp:218-290 | every prefix of a sample's path has a node that shows the sums of exactly the samples whose path starts with it |
| Agreement.NodeIsOnPath | UI/TreeModel.cpp:218-290 | and there are no other nodes |
| Agreement.ChildrenAddUp | UI/TreeModel.cpp:282-285 | where no path ends at a node its children's counters add up to its own, modulo 2^32 |
| Agreement.TopLevelAddsUp | UI/TreeModel.cpp:252-285 | in the top-down tree the top-level nodes add up to all samples, modulo 2^32 |
| Agreement.LinesAddUp | UI/TraceData.cpp:156-183 | the lines of a symbol add up to all its samples, modulo 2^32 |
| Agreement.ViewsAgree | UI/FlatModel.cpp:149-176 | the flat row of a symbol, the single top-level node of its own tree and the sum of its lines agree; there is a row if and only if there is such a node |
| Bytes.LittleEndianOfNumber | udis86/decode.c:162-174 | the bytes of a little-endian number give the number back |
| OperandModel.DecodeEncode | udis86/decode.c:545-615 | decoding any encoding of any operand, under its REX bits, gives the operand back and uses exactly the encoded bytes |
| OperandModel.EncodeDecode | udis86/decode.c:545-615 | every byte string decoded as a memory operand is an encoding of that operand |
| OperandModel.EffectiveAddress | CacheSim/CacheSimCommon.inl:308-333 | the wrapping additions over the fields of a decoded operand with a base other than RIP come to base + index * scale + sign-extended displacement modulo 2^64 |
| OperandModel.EaIsSum | CacheSim/CacheSimCommon.inl:308-333 | for any fields at all the address is displacement plus base plus index times scale modulo 2^64 |
| OperandModel.SignExtends | CacheSim/CacheSimCommon.inl:313-319 | a displacement of 8, 16, 32 or 64 bits is sign-extended |
| Operand.OperandAddress | CacheSim/CacheSimCommon.inl:308-333 | the same for the operand object as the decoder leaves it, whose value without a displacement may be anything |
| Operand.Ud.InpNext | udis86/decode.c:108-130 | the next byte; at the end 0, with the error flag set and the current byte kept |
| Operand.Ud.Modrm | udis86/decode.c:315-323 | the ModRM byte, read on first use only |
| Operand.Ud.InpUint32 | udis86/decode.c:162-174 | four bytes, low-order byte first, or an error |
| Operand.Ud.InpUint64 | udis86/decode.c:176-198 | eight bytes, low-order byte first, or an error |
| Operand.Ud.DecodeMemDisp | udis86/decode.c:496-518 | the displacement of any of the four widths, consumed, or an error; nothing for any other width |
| Operand.Ud.DecodeSib | udis86/decode.c:586-610 | base, index, scale and displacement width of a SIB byte with its special cases |
| Operand.Ud.DecodeModrmRm | udis86/decode.c:545-679 | fills in the operand and consumes exactly its bytes, reports a register operand untouched, or flags an error on short input |
| Operand.ComputeEa | CacheSim/CacheSimCommon.inl:308-347 | the displacement, base and scaled index added in 64-bit words, then moved by the FS or GS base |

## Left out

- Traps, signals, ptrace, code patching, thread suspension, backtraces and module enumeration: operating-system calls; their results are inputs of the model.
- Qt widgets, delegates, painting, model indexes and progress signals: user interface only; Qt hashes and vectors are maps and sequences.
- Symbol resolution through debug information: foreign tools; the resolved symbols, without duplicate addresses, are an input.
- The opcode tables, mnemonics, prefixes and text output of the disassembler, and the extraction of memory operations from an instruction: an instruction of the model already carries its accesses.
- The 32-bit and 16-bit addressing branches and the register operands behind a ModRM byte: the model hands a register number over.
- The meaning of RIP-relative operands: the program adds the recorded instruction pointer, which is not the architectural rule; decoding them is modelled.
- `GenericHashTable::Remove` and the allocator's free list: nothing calls Remove; allocation is object creation.
- `ObjectStack` and the parent row of a node: nodes are ordinary objects.
- The mapping from threads to cores, the conversion of registers and the badness column.
- Generations and the arena's word count do not wrap in the model, a capture file stays below 4 GB, lines of code below 2^31, and strings are sequences of 16-bit units.
- The hash functions of the two tables are parameters with 32-bit results; that of the stack table is the first word of the digest.
- Jaguar.JaguarCacheSim.constructor: links the two modules to each other, which the program does in Init; Init keeps the links and empties the caches.
- Jaguar.JaguarCacheSim.Access: requires that the range does not reach into the topmost line, where the program's loop does not end.
- Md5.Md5State.Append: takes pieces whose length, with what the open block holds, stays below 2^31, the range of the program's signed sum.
- StackArena.StackData.Reserve: takes requests of at most 65536 words and an arena below 2^31 words, as its only caller makes them.
- StackArena.StackData.InsertStack: takes stacks below 65536 frames and an arena below 2^31 words; callers pass at most 127 frames.
- Symbols.SortByRipSorts: stands for the library sort, whose algorithm is not modelled; the same holds for Profile.SortLines.
- CaptureProtocol: one controlling thread starts and ends captures, the disassembler's state is left out, and stacks are compared directly where the program compares digests.
- CaptureFile.WriteCapture: the file is a sequence of bytes that grows; failures of the file system are left out.
