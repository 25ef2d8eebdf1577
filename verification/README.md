# Verified model of the ZeroEmbedded engines

ZeroEmbedded is a set of small engines in C, with Rust counterparts for some of them, that keep state on bare
devices. This project models the engines that carry the weight and proves what they are for.

- **Flash store** (`Flash`, `Nvs*`). Two banks of NOR flash hold a log of records; deletes are tombstones, and
  garbage collection copies the live records to the other bank. The device keeps a trace of its calls, so a power
  cut is a cut of that trace followed by a mount. Proved: every fault-free run answers like a map and writes each
  cell once (`NvsRun.Run`); over every run with power cuts no older value comes back, no key comes back after a
  delete that was answered OK with its tombstone inside the bank, and a value whose write was answered OK stays
  unless a compaction is cut where it loses something, also when power fails again during the mounts that follow
  (`NvsCrash.RunWithCuts`); for every flash call of a compaction, the log that a mount finds after a cut there
  (`Nvs.Store.Compact`, `NvsPoints.AtCut`); and that damage inside a stored value or its key is reported
  (`NvsDamage.DamageIsReported`, `NvsDamage.KeyDamageIsReported`). `NvsFormat` has the format as literal bytes.
- **Lock-free rings** (`Spsc`, `SpscCalls`, `Tasklet`, `LogRing`, `LogCalls`). Producer and consumer as interleaved
  load, copy and publish steps over counters that wrap, refining a bounded queue; whole calls, with any steps of the
  other side in between; the same ring as a class, tied to the steps.
- **Wire protocol** (`ZeroWire`, `ZeroWireCode`, `Crc16`, `Crc16Table`). Printer and parser are inverse in both
  directions; the receiver delivers the same frames however the stream is cut, and damaged frames cost no good one;
  table, generated table and bit loop compute one checksum, which shows every burst of two adjacent bytes.
- **Allocators** (`Bitmap`, `Pool`, `PoolLayout`, `Arena`, `Hub`, `HubRouting`, `HubOrder`). Free list against
  bitmap, the layout inside the caller's buffer, alignment that wraps, tiered routing with accounts and reserves.
- **Hashes, cipher, image check** (`Sha256*`, `ChaCha20*`, `Crc32`, `Ota`). Streaming code against FIPS 180-4, RFC
  8439 and the CRC-32 of IEEE 802.3. `Sha256Laws` says what the functions and constants of the standard are without
  their formulas; `Sha256Vectors` and `ChaCha20Vectors` compute test vectors of the standards step by step.
- **Watchdog, hooks, init** (`Watchdog`, `Hook`, `InitEngine`, `Sorting`). Properties of whole runs and of ordered
  execution.

Each engine that the source updates in place is a class whose methods are proved equal to functions on values; the
laws are lemmas about those functions. `Words` and `Bytes` hold machine arithmetic and byte formats.

## What the code does not do

Where a promise of the headers or of the design does not hold, the model keeps the code as it is:

- Compaction is not atomic. The destination is active, with the newer sequence number, before anything is copied.
  A mount after a cut at a flash call in between finds the whole map if and only if nothing that the map needs is
  still to be copied at that call (`NvsCuts.CutRecovery`, with `NvsCuts.NothingMissing` as the condition). Right
  after the destination header it finds nothing (`NvsCuts.CutEnds`): any store can lose all its keys in the middle
  of a write (`NvsCrash.WriteLosesAll`).
- At sequence number 0xFFFFFFFF the successor wraps to zero, and a cut compaction is then ignored by the next mount
  (`NvsCuts.CutEnds`).
- `fw_nvs_delete` does not look for room again after it has compacted. The key is gone after a mount if and only if
  there was room (the clause of `Nvs.Store.Delete` about `Forgotten`). `NvsExamples.DeletedKeyComesBack` fills a 256-byte sector with
  one value, deletes it, is answered OK, and finds the value again after a mount.
- The checksum of a record covers its length, but a changed length also changes which bytes are checked. Damage inside
  the length word is reported if and only if the checksum over the bytes that then count differs from the stored one
  (`NvsDamage.StatusOverBytes`); `NvsDamage.LengthDamageUnnoticed` is a value of one byte that becomes one of two
  bytes when one byte of its length changes, with the same checksum.
- `fw_nvs_write` narrows the payload length to 16 bits. When it answers OK, the bank holds a log that gives the key
  its value if and only if the payload has at most 65535 bytes (last clause of `Nvs.Store.Write`); a longer one
  leaves a record with the front of the payload and a write offset behind its end. `NvsExamples.LongValueIsLost`
  loses a value of 65536 bytes.
- The header of `fw_nvs_init` announces CORRUPTED when formatting is needed; the code formats and returns OK
  (`Nvs.Store.Mount`).
- The reserve check of the hub does not count alignment padding. An arena that grants a request keeps its reserve
  if and only if the padding fits above the reserve too (`Hub.ReserveKeptExactly`); it ends at most three bytes
  below (`Hub.TriedKeeps`, and `Hub.PaddingEatsReserve` for an instance).
- `fw_pool_free` and `fw_mem_hub_free` compute the end of a pool in a word. A pool whose last block ends where the
  address space ends hands out blocks, but every free of them is refused (`Pool.FreeAcceptsExactly` and
  `HubRouting.FreeExactly` with the exact condition, `Pool.TopPoolKeepsBlocks` for an instance).
- Draining a tasklet queue ends if and only if what its handlers post along the way is bounded
  (`Tasklet.EndsExactly`); a handler that posts itself keeps it going for ever (`Tasklet.RepostingNeverEnds`).
- The C checksum of the empty message is 0, the Rust one is the initial value.

## Model

| member | source | states |
|---|---|---|
| Flash.Device.Write | tests/test_storage.c:30-48 | NOR programming: a range outside the device is refused and changes nothing; else OK exactly if no byte needs a zero set, and I/O error otherwise, with exactly the bytes before the first such byte stored |
| Flash.ErasedNeverSticks | tests/test_storage.c:30-48 | on erased cells programming always succeeds |
| Flash.StuckExactly | tests/test_storage.c:36-46 | programming stops at the first byte of which some bit would have to become a one again |
| Flash.Device.EraseSector | tests/test_storage.c:50-58 | exactly one sector becomes all ones, and the call is recorded |
| NvsLog.AlignUp4IsMask | core-c/src/nvs.c:9 | the alignment that the sizes use is the mask expression of the macro |
| NvsLog.ContentPush | core-c/src/nvs.c:313-338 | appending a record changes the map that the log stands for at its key only: a valid record sets it, a tombstone removes it |
| NvsSteps.ScanFindsEnd | core-c/src/nvs.c:53-80 | the scan of a bank that holds a log stops exactly at the end of the log |
| NvsCompaction.CompactedContent | core-c/src/nvs.c:181-238 | the surviving records stand for the same map |
| NvsCompaction.KeptExact | core-c/src/nvs.c:193-235 | one record for every live key, none twice, no tombstone |
| NvsCompaction.CompactedSize | core-c/src/nvs.c:181-238 | the compacted log is as long as the live records are, and never longer than the log |
| NvsCompaction.KeptFits | core-c/src/nvs.c:214-217 | no survivor ever overflows the destination: the out-of-memory exit of the copy loop is not taken |
| NvsCompaction.RoomExactly | core-c/src/nvs.c:264-271 | there is room for a record exactly if it fits behind the log or behind the live records alone, that is behind the compacted log |
| NvsPoints.PointsIncrease | core-c/src/nvs.c:219-231 | from flash call to flash call the copy only grows, record by record and within a record |
| NvsPoints.PointsEnds | core-c/src/nvs.c:165-240 | at the header call nothing is copied, at the last copying call everything that compaction keeps |
| NvsPoints.ChunkCount | core-c/src/nvs.c:219-231 | a record is copied with one flash call for each begun piece of 128 bytes |
| NvsSteps.RecoversUnique | core-c/src/nvs.c:124-155 | an image stands for at most one log: what a mount finds is determined |
| NvsSteps.SelectedHolds | core-c/src/nvs.c:129-152 | the bank that a mount selects holds the log that the image stands for |
| NvsSteps.AppendOutcome | core-c/src/nvs.c:273-297 | header, payload and padding make one more record of the log |
| NvsSteps.AppendedShort | core-c/src/nvs.c:276-296 | a payload of more than 65535 bytes leaves a record with its front, whose end is before the new write offset |
| NvsSteps.StoresOnlyShort | core-c/src/nvs.c:276-279 | no bank holds a log that gives a key a value of more than 65535 bytes |
| NvsSteps.ForgottenIffGone | core-c/src/nvs.c:107-156 | a key is forgotten by every mount exactly when the log does not have it |
| Nvs.Store.ScanWriteOffset | core-c/src/nvs.c:53-80 | the loop computes the scan, also for banks that hold no log |
| Nvs.Store.Format | core-c/src/nvs.c:82-105 | an empty store in bank 0; after the first erase an active bank 1 is still recovered |
| Nvs.Store.Mount | core-c/src/nvs.c:124-155 | any image that stands for a log is mounted with that log, and every flash call on the way keeps it; bank 1 is taken exactly if it is active and bank 0 is not, or is older; two inactive banks are formatted in three calls, of two active ones the loser is erased in one, and otherwise there is no call |
| Nvs.Store.IsLatest | core-c/src/nvs.c:194-211 | the inner scan decides whether a later record has the key |
| Nvs.Store.CopyRecord | core-c/src/nvs.c:219-231 | the chunk loop copies the record, and after each of its calls the destination holds exactly the bytes copied by then, over erased cells |
| Nvs.Store.CopySurvivors | core-c/src/nvs.c:177-238 | the destination holds the compacted log, and each call leaves what is copied by then |
| Nvs.Store.Compact | core-c/src/nvs.c:159-249 | the log is compacted into the other bank with the next sequence number, each cell is written once, the number of flash calls is fixed by the log, and for each of them the log that a mount after it finds is stated |
| Nvs.Store.CalcRecordCrc | core-c/src/nvs.c:26-38 | the loop computes the checksum over key, length and payload; the order of the bytes is fixed by `NvsFormat.OneByteAndBack` and `NvsDamage.StatusOverBytes` |
| Nvs.Store.AppendRecord | core-c/src/nvs.c:273-297 | the record is appended; every flash call but the first leaves a torn record whose place is reserved |
| Nvs.Store.Write | core-c/src/nvs.c:251-298 | OK exactly if the record fits behind the log or behind the live records alone, compacting exactly if it does not fit behind the log; the log, compacted or not, gets one record, and the bank its bytes; the map gets the value; a failing write leaves the map; after OK the bank stores the value exactly if it has at most 65535 bytes |
| Nvs.Store.Find | core-c/src/nvs.c:305-338 | the latest record of the key, unless it is a tombstone |
| Nvs.Store.Read | core-c/src/nvs.c:300-364 | the value of the map, or INVALID_ARG, NOT_FOUND, BUFFER_OVERFLOW or CORRUPTED, each exactly when; bytes behind the value are untouched |
| Nvs.Store.Delete | core-c/src/nvs.c:366-397 | the key is removed if there is room for a tombstone, and is forgotten after a mount exactly then; without room, what is answered when the next sector is the other bank or the device ends |
| Nvs.Init | core-c/src/nvs.c:107-156 | sectors below 256 bytes are refused; otherwise the store of the image is mounted, an empty one if no bank is active |
| NvsRun.Start | core-c/src/nvs.c:107-156 | on flash without an active bank the store starts as the empty map |
| NvsRun.Run | core-c/src/nvs.c:82-397 | every fault-free run of writes, deletes, reads, mounts and formats answers like a map, and every flash call erases a bank or programs erased cells of one bank |
| NvsCuts.KeptIsRestriction | core-c/src/nvs.c:168-249 | the records copied before a cut are the map without the keys still to be copied |
| NvsCuts.WholeExactly | core-c/src/nvs.c:168-249 | the map at a point of the copy is the whole map if and only if no live key is left to copy and the rest of the record in the middle is erased flash |
| NvsCuts.CutRecovery | core-c/src/nvs.c:129-152 | for every call of a compaction, what a mount after a cut there finds: the copied keys and one partly copied record, nothing stale, nothing deleted; and if and only if which condition it is the whole map |
| NvsCuts.CutEnds | core-c/src/nvs.c:168-175 | a cut after the header call finds nothing, one before the last erase finds everything; at the largest sequence number both find the old log |
| NvsCuts.AppendCutContent | core-c/src/nvs.c:283-294 | after a cut inside an append every other key reads as before, the written one as a prefix of the new value |
| NvsDamage.DamageIsReported | core-c/src/nvs.c:353-357 | when two adjacent bytes of a bank change inside the value of a key, the bank holds the log with that record changed, every other key reads as before, and the key is CORRUPTED |
| NvsDamage.MountFindsDamage | core-c/src/nvs.c:124-155 | a mount of the damaged flash finds that log |
| NvsDamage.StatusOverBytes | core-c/src/nvs.c:26-38 | for the latest live record of a key, a read that has room answers OK exactly if the third header word is the checksum of the first two words and the payload as they stand in the bank |
| NvsDamage.KeyDamageIsReported | core-c/src/nvs.c:353-357 | when the key word of a live record changes, the bank holds the log with the record under the other key, and that key is CORRUPTED, unless it is the erased word or a later record has it |
| NvsDamage.LengthDamageUnnoticed | core-c/src/nvs.c:348-357 | a changed length byte that a read does not notice |
| NvsFormat.OneByteAndBack | core-c/src/nvs.c:251-397 | the literal bytes of a sector after one value is written to blank flash, and after it is deleted again |
| NvsCrash.WriteWithCut | core-c/src/nvs.c:251-298 | a write cut after any flash call mounts again, and the effect is fixed by the call: inside a compaction keys are lost exactly where the map is not whole, right after the record header the value is torn, and from the payload call on it is stored |
| NvsCrash.DeleteWithCut | core-c/src/nvs.c:366-397 | the same for a delete: a cut tombstone has removed the key exactly if there was room; answered OK the key is removed, unless the tombstone spilled, which takes a key without room |
| NvsCrash.FormatWithCut | core-c/src/nvs.c:82-105 | a format cut after its first call leaves the old map exactly if bank 1 held it, and otherwise nothing |
| NvsCrash.WriteLosesAll | core-c/src/nvs.c:168-175 | of every write that compacts, below the largest sequence number, the second flash call leaves an image that mounts as the empty map |
| NvsCrash.MountWithCut | core-c/src/nvs.c:107-156 | a mount of any image that stands for a log, cut after any of its flash calls and repeated with further cuts, ends with that log |
| NvsCrash.DeletedIsImpossible | core-c/src/nvs.c:366-397 | over any run, a key deleted with OK and not written since has no possible value |
| NvsCrash.WrittenIsSure | core-c/src/nvs.c:251-298 | over any run, a key written with OK and not touched since certainly has its value, if no compaction was cut with losses |
| NvsCrash.RunWithCuts | core-c/src/nvs.c:82-397 | over any run with any cuts, in operations and in the mounts after them, every key that is there holds the value last written to it, or a prefix of it; deleted keys stay gone, written values stay unless a compaction is cut where the map is not whole, as stated |
| NvsExamples.Fill | core-c/src/nvs.c:251-298 | one value of 232 bytes fills a 256-byte sector: the key is there, and there is no room to delete it |
| NvsExamples.DeletedKeyComesBack | core-c/src/nvs.c:380-397 | a delete answered OK, after which a mount finds the value |
| NvsExamples.LongValueIsLost | core-c/src/nvs.c:276-297 | a write of 65536 bytes answered OK, of which the bank stores a record of no bytes |
| Crc16.EightSteps | core-c/src/nvs.c:15-21 | the conditional shifts are the shift register |
| Crc16.Step | core-c/src/nvs.c:12-24 | the byte loop computes the register after the message |
| Crc16.FoldConcat | core-c/src/nvs.c:33-36 | the checksum of two pieces in turn is that of the whole |
| Crc16.CheckValue | core-c/src/nvs.c:12-24 | the checksum of the digits one to nine is 0x29B1 |
| Crc16.TwoBytesInjective | core-c/src/nvs.c:12-24 | two absorbed bytes can be read back from the register |
| Crc16.BurstDetected | core-c/src/nvs.c:353-357 | messages that differ inside two adjacent bytes have different checksums, whatever their length |
| Crc16Table.EntryIsShifts | core-c/src/zerowire.c:4-37 | every one of the 256 constants is eight shifts of its index |
| Crc16Table.TablesAgree | rust/crates/zero-core/src/protocol.rs:34-53 | the generated table holds the C constants |
| Crc16Table.CcittC | core-c/src/zerowire.c:39-48 | the table loop computes the checksum of the bit loop, but 0 for the empty message |
| Crc16Table.GenerateTable | rust/crates/zero-core/src/protocol.rs:34-53 | the loops build eight shifts of every index |
| Crc16Table.CcittRust | rust/crates/zero-core/src/protocol.rs:58-65 | the table loop computes the checksum of the bit loop, on every message |
| ZeroWire.DecodesExactly | core-c/src/zerowire.c:76-110 | decoding yields a packet if and only if its encoding stands there, whatever follows |
| ZeroWire.RoundTrip | core-c/src/zerowire.c:50-110 | decode of encode followed by any suffix is the packet |
| ZeroWire.FrameBytes | core-c/src/zerowire.c:50-74 | the eleven literal bytes of a frame |
| ZeroWire.VerdictsExactly | core-c/src/zerowire.c:76-94 | over the bytes, when the verdict is OVERFLOW and when it is incomplete |
| ZeroWire.PrefixFree | core-c/src/zerowire.c:50-74 | no encoding is the front of another one |
| ZeroWire.BurstIsCorrupted | core-c/src/zerowire.c:95-100 | damage inside two adjacent bytes of a frame that leaves start bytes and length alone is CORRUPTED |
| ZeroWire.VerdictStable | core-c/src/zerowire.c:76-110 | OK, CORRUPTED and OVERFLOW do not change when more bytes arrive |
| ZeroWire.ScanStable | core-c/src/zerowire.c:112-146 | a frame found is found again in a longer stream, and otherwise the scan goes on where it stopped |
| ZeroWire.FramesSplit | core-c/src/zerowire.c:112-146 | the frames of a stream are those of its front, then those found from where the front stopped |
| ZeroWire.ChunkingDoesNotMatter | core-c/src/zerowire.c:112-146 | a receiver that appends, scans and drops delivers what one scan over the whole stream finds |
| ZeroWire.SameStreamSameFrames | core-c/src/zerowire.c:112-146 | any two ways of cutting a stream deliver the same frames |
| ZeroWire.NoiseIsConsumed | core-c/src/zerowire.c:143-145 | bytes without a start pair are consumed up to the last one |
| ZeroWire.NoiseIsSkipped | core-c/src/zerowire.c:126-141 | noise in front of a frame is skipped exactly |
| ZeroWire.ScanIsFirst | core-c/src/zerowire.c:126-141 | the scan stops at the first start pair whose frame is good or incomplete: damaged frames in front cost no byte of it |
| ZeroWire.Delivery | core-c/src/zerowire.c:50-146 | frames sent with noise between them arrive, all, in order, however the stream is cut |
| ZeroWire.StuckExactly | core-c/src/zerowire.c:135-145 | nothing is consumed exactly when the buffer starts with an incomplete frame or has at most one byte |
| ZeroWire.LargeBufferProgresses | core-c/src/zerowire.c:112-146 | a buffer of 264 bytes always makes progress |
| ZeroWire.SmallerBufferSticks | core-c/src/zerowire.c:91-94 | a buffer of 263 bytes that does not |
| ZeroWireCode.EncodeC | core-c/src/zerowire.c:50-74 | zero for an oversize frame or a short buffer, else the encoding and its length; nothing else is written |
| ZeroWireCode.EncodeRust | rust/crates/zero-core/src/protocol.rs:68-95 | the same bytes, with an error in place of zero |
| ZeroWireCode.DecodeC | core-c/src/zerowire.c:76-110 | the verdict as a status; the frame changes only on OK, and only in the used part |
| ZeroWireCode.DecodeRust | rust/crates/zero-core/src/protocol.rs:98-134 | the verdict as a result; the rest of the payload is zero |
| ZeroWireCode.StreamSync | core-c/src/zerowire.c:112-146 | the loop computes the scan; the frame changes only when one is found |
| ZeroWireCode.Port.Receive | core-c/src/zerowire.c:112-146 | the loop of a caller is the receiver of the chunking theorem |
| Spsc.NoOverwrite | core-c/src/spsc.c:74-87 | no cell that is still to be read is written |
| Spsc.NoSharedCell | core-c/src/spsc.c:74-120 | in the middle of their copies producer and consumer never touch the same cell |
| Spsc.StartsAnswerTruly | core-c/src/spsc.c:28-33 | full and empty were true when the other counter was loaded, and a bulk copy takes what there was room, or elements, for; that it starts is `SpscCalls.WriteCompletes` |
| Spsc.StepRefinesFifo | core-c/src/spsc.c:23-125 | every atomic step keeps the invariant and is a step of a bounded queue |
| Spsc.RunRefinesFifo | rust/crates/zero-sync/src/lib.rs:79-181 | so is every step of every interleaving |
| Spsc.Linearizable | core-c/src/spsc.c:23-125 | what was received is a prefix of what was accepted, with at most the capacity in between, also when the counters wrap |
| SpscCalls.WriteCompletes | core-c/src/spsc.c:62-92 | a write, with any steps of the consumer in between, finds the ring full exactly if it is; else it publishes exactly the front of the data that there was room for |
| SpscCalls.ReadCompletes | core-c/src/spsc.c:94-125 | a read, with any steps of the producer in between, finds the ring empty exactly if it is; else it gets exactly the oldest elements |
| Words.MaskTest | core-c/src/spsc.c:10-12 | the test of initialisation accepts exactly the powers of two |
| Words.MaskIsMod | core-c/src/spsc.c:74 | masking with the capacity minus one is the remainder |
| Spsc.Init | core-c/src/spsc.c:4-21 | an empty ring exactly if the capacity is a power of two |
| Spsc.Ring.Push | core-c/src/spsc.c:23-40 | refused exactly when full, else appended |
| Spsc.Ring.Pop | core-c/src/spsc.c:42-60 | refused exactly when empty, else the oldest element |
| Spsc.Ring.Write | core-c/src/spsc.c:62-92 | as many as there is room for are appended, in two chunks at most |
| Spsc.Ring.Read | core-c/src/spsc.c:94-125 | as many as there are, oldest first; the rest of the buffer is untouched |
| Tasklet.Init | core-c/src/tasklet.c:4-25 | an empty queue exactly if the capacity is a power of two |
| Tasklet.Queue.Post | core-c/src/tasklet.c:27-53 | null handlers and a full queue are refused, else the call is appended |
| Tasklet.Queue.DispatchOne | core-c/src/tasklet.c:55-81 | the oldest call runs, once, and what its handler posts is appended as far as there is room |
| Tasklet.Queue.DispatchAll | core-c/src/tasklet.c:83-94 | when what is posted along the way is bounded it ends, at the first empty queue; the count is what was pending and posted, and everything accepted has run exactly once in posting order |
| Tasklet.Conserved | core-c/src/tasklet.c:55-81 | after any number of dispatches, what has run and then what is pending is what was pending and then what was posted |
| Tasklet.PendingRunsFirst | core-c/src/tasklet.c:83-94 | what was pending runs first and in order, whatever handlers post |
| Tasklet.EndsExactly | core-c/src/tasklet.c:83-94 | draining ends if and only if there is a bound on what is posted along the way |
| Tasklet.RepostingNeverEnds | core-c/src/tasklet.c:83-94 | a handler that posts itself keeps the queue from ever being empty |
| LogRing.TestsAreTrue | core-c/src/log.c:42-43 | the index comparisons say full, with one slot empty, and empty |
| LogRing.StepKeeps | core-c/src/log.c:37-99 | every atomic step of posting or flushing keeps the invariant |
| LogRing.EmittedInOrder | core-c/src/log.c:37-99 | over every interleaving the sink gets a front of the accepted entries, with at most capacity minus one pending |
| LogCalls.PostCompletes | core-c/src/log.c:37-58 | a post, with any steps of the flusher in between, appends its entry exactly if there was room when it began, and is dropped otherwise |
| LogCalls.FlushCompletes | core-c/src/log.c:69-99 | a turn of the flush loop, with any steps of posting in between, gives the sink the oldest entry and frees its slot |
| LogRing.Init | core-c/src/log.c:23-35 | a capacity below two is refused |
| LogRing.Log.PostFast | core-c/src/log.c:37-58 | accepted exactly when there is a slot besides the empty one, else dropped |
| LogRing.Log.Flush | core-c/src/log.c:60-102 | the wanted number of entries, oldest first, each once |
| Bitmap.WordSet | core-c/src/pool.c:112 | setting a bit changes that bit only |
| Bitmap.WordCleared | core-c/src/pool.c:152 | clearing a bit changes that bit only |
| Pool.AllocTakesFree | core-c/src/pool.c:101-115 | a block that is handed out was not out; null exactly when all are out |
| Pool.FreeAcceptsExactly | core-c/src/pool.c:117-168 | free accepts exactly the addresses of blocks that are out, if the pool ends below the end of the address space, and else nothing; allocating next returns the same block |
| Pool.TopPoolKeepsBlocks | core-c/src/pool.c:122-129 | a pool at the top of the address space that hands out a block and refuses it back |
| Pool.NeverTwice | core-c/src/pool.c:101-168 | in every run, between two calls that return the same address it was given back |
| Pool.BlocksDisjoint | core-c/src/pool.c:86-96 | blocks do not overlap |
| Pool.ThreadedAlloc | core-c/src/pool.c:106-108 | unlinking the head leaves the list of the other free blocks |
| Pool.ThreadedFree | core-c/src/pool.c:161-165 | linking a freed block in front leaves a list of the free blocks |
| Pool.ThreadedWrite | core-c/src/pool.c:86-96 | whatever a client stores in a block that is out, the list stays |
| Pool.Pool.Init | core-c/src/pool.c:9-99 | OK exactly if padding, bitmap and one block fit into the buffer; then all blocks are free and linked in address order; else nothing changes |
| Pool.Pool.Alloc | core-c/src/pool.c:101-115 | list, bitmap and count stay in agreement, and the operation is the one on the set of free blocks |
| Pool.Pool.Free | core-c/src/pool.c:117-168 | the same for freeing, with every refusal |
| Pool.Pool.ClientWrite | core-c/src/pool.c:101-115 | the agreement survives what the holder of a block writes |
| PoolLayout.BlocksIsQuotient | core-c/src/pool.c:55-56 | counting blocks off is the quotient that the source computes |
| PoolLayout.LayoutFits | core-c/src/pool.c:37-84 | bitmap and blocks lie apart inside the caller's buffer, every block has a bit, storage and block size are aligned |
| PoolLayout.LayoutExactly | core-c/src/pool.c:20-71 | there is a layout exactly if padding, bitmap and one block fit; it has the least padding and block size, a bit for every block there could be, and one more block would not fit |
| PoolLayout.BlocksInside | core-c/src/pool.c:59-98 | every block lies inside the buffer, behind the bitmap |
| Words.AlignUpPads | core-c/src/arena.c:4-6 | add and mask give the next multiple, or zero where that is the end of the address space |
| Words.PaddingIsLeast | core-c/src/arena.c:4-6 | no smaller padding aligns |
| Arena.AllocExactly | core-c/src/arena.c:21-48 | succeeds exactly if padding and size fit, also where the aligned address wraps, for no alignment or a power of two; the result is aligned, inside, and behind everything handed out, and the peak is kept |
| Arena.RewindUndoes | core-c/src/arena.c:66-74 | winding back to the mark taken before undoes an allocation, but for the peak |
| Arena.RewindKeeps | core-c/src/arena.c:66-74 | winding back forgets exactly what reaches beyond the mark |
| Arena.Init | core-c/src/arena.c:8-19 | a null or empty buffer is refused, else nothing is used |
| Arena.Arena.Alloc | core-c/src/arena.c:21-48 | the method is the function on states |
| Arena.Arena.Rewind | core-c/src/arena.c:66-74 | the method is the function on states; a mark beyond the offset is ignored |
| Arena.Arena.Reset | core-c/src/arena.c:76-83 | nothing is used, the peak stays |
| Hub.PoolAlloc | core-c/src/hub.c:66-82 | a pool serves exactly if size and reserve allow it; account and free bytes stay complementary |
| Hub.ArenaAlloc | core-c/src/hub.c:84-99 | an arena serves exactly if the reserve allows it and padding fits; the account is the sum of the sizes |
| Hub.TriedKeeps | core-c/src/hub.c:65-101 | a grant leaves a pool at or above its reserve, an arena at most three bytes below |
| Hub.ReserveKeptExactly | core-c/src/hub.c:84-92 | an arena that grants a request keeps its reserve if and only if padding, size and reserve fit into what was free |
| Hub.PaddingEatsReserve | core-c/src/hub.c:84-92 | an arena that ends three bytes below its reserve |
| HubRouting.RoutedIsFirst | core-c/src/hub.c:127-138 | the search finds the first backend that serves, in tier order, then in order of registration |
| HubRouting.RoutedFails | core-c/src/hub.c:127-141 | it fails only if no backend of the tiers serves |
| HubOrder.TierOrder | core-c/src/hub.c:113-141 | without a hint the first bulk backend that grants serves, else the first fast one, else the first DMA one; with the fast hint fast comes before bulk; with the DMA hint only DMA memory will do; null exactly if none of them grants |
| HubOrder.PoolGrantsExactly | core-c/src/hub.c:66-82 | a pool grants exactly if the request fits a block and a block fits above the reserve |
| HubOrder.ArenaGrantsExactly | core-c/src/hub.c:84-99 | an arena grants exactly if the request fits above the reserve, and with its padding into what is free |
| HubOrder.SpareIsEnough | core-c/src/hub.c:169-193 | what a backend grants it could spare, and a pool that can spare a block grants one |
| HubOrder.GrantTakesSpare | core-c/src/hub.c:169-193 | a grant takes a block from what a pool can spare, and size and padding from an arena |
| HubOrder.NoSpaceExactly | core-c/src/hub.c:169-193 | the free space of a tier is zero exactly if no backend of it has anything above its reserve |
| HubOrder.AllocTakesSpace | core-c/src/hub.c:169-193 | a request served from a pool takes one block from the free space of its tier and nothing elsewhere |
| HubRouting.DmaStaysDma | core-c/src/hub.c:113-115 | a DMA request is served from the DMA tier or not at all |
| HubRouting.AllocKeeps | core-c/src/hub.c:103-142 | the accounts stay in balance and the charge goes to the backend that serves |
| HubRouting.AllocLive | core-c/src/hub.c:103-142 | exactly one block becomes live |
| HubRouting.AllocApart | core-c/src/hub.c:103-142 | it overlaps no block that was live |
| HubRouting.FreeExactly | core-c/src/hub.c:144-167 | freeing succeeds exactly on live blocks of pools that end below the end of the address space, by the pool that owns them; NOT_FOUND exactly if no pool's range holds the address |
| HubRouting.AllocThenFree | core-c/src/hub.c:103-167 | what a pool served can be freed, which restores the total, if and only if the pool ends below the end of the address space; else it is NOT_FOUND |
| HubRouting.RunKeeps | core-c/src/hub.c:103-167 | over every run all accounts balance |
| HubRouting.RunReserves | core-c/src/hub.c:65-167 | over every run a pool at or above its reserve stays there, and an arena within three bytes of it stays within |
| HubRouting.RunApart | core-c/src/hub.c:103-167 | over every run all live blocks are apart |
| HubRouting.MemoryHub.Register | core-c/src/hub.c:13-63 | at most eight backends |
| HubRouting.MemoryHub.Alloc | core-c/src/hub.c:103-142 | the nested loops are the search, whose order `HubOrder.TierOrder` states; both counters |
| HubRouting.MemoryHub.Free | core-c/src/hub.c:144-167 | the loop is the search for the owner |
| HubRouting.MemoryHub.GetTotalUsed | core-c/src/hub.c:195-205 | the sum of the accounts |
| HubRouting.MemoryHub.GetFreeSpace | core-c/src/hub.c:169-193 | the sum over the tier of what is free above the reserve, about which `HubOrder` has the laws |
| Sha256Code.Expand | core-c/src/sha256.c:36-38 | the schedule of section 6.2.2 |
| Sha256Code.Transform | core-c/src/sha256.c:28-58 | the compression of one block |
| Sha256Code.Context.Update | core-c/src/sha256.c:73-94 | whatever the chunk sizes, the context stands for all bytes so far |
| Sha256Code.Context.Final | core-c/src/sha256.c:96-125 | the digest of the padded message, whether padding takes one block or two |
| Sha256Code.DigestOfParts | core-c/src/sha256.c:60-125 | any split into updates gives the digest of the whole |
| Sha256Code.OneShot | core-c/src/sha256.c:127-132 | the one-shot call gives the same |
| Sha256Vectors.AbcDigest | tests/test_observability_and_crypto.c:88-91 | the 32 literal bytes of the digest of "abc" |
| Sha256Vectors.LettersDigest | tests/test_observability_and_crypto.c:93-97 | and of the message of 56 bytes, whose padding takes a second block |
| Sha256Laws.RotrTurns | core-c/src/sha256.c:9 | bit i of a rotation is bit i + n of the word, counted around |
| Sha256Laws.ChChooses | core-c/src/sha256.c:10 | bit by bit, the second word where the first has a one, else the third |
| Sha256Laws.MajDecides | core-c/src/sha256.c:11 | bit by bit the majority |
| Sha256Laws.BigSigmaBits | core-c/src/sha256.c:12-13 | each bit is the parity of three bits of the word |
| Sha256Laws.SmallSigmaBits | core-c/src/sha256.c:14-15 | the same, with a shift that drops bits as the third term |
| Sha256Laws.Roots0 | core-c/src/sha256.c:17-26 | the first four constants are the first 32 fractional bits of the cube roots of the first four primes; Roots1 to Roots15 go on to the 64th |
| Sha256Laws.InitialRoots | core-c/src/sha256.c:60-71 | the initial value holds those of the square roots of the first eight primes |
| Sha256Laws.WordWeighs | core-c/src/sha256.c:30-35 | a word is the weighted sum of its four bytes |
| Sha256Laws.BytesOfWord | core-c/src/sha256.c:118-124 | writing a word that was read gives its bytes, and the other way round in WordOfBytes |
| Sha256Laws.Be64Number | core-c/src/sha256.c:112-115 | the length field is the length |
| Sha256Laws.PaddedReads | core-c/src/sha256.c:96-116 | message, marker, zeros and bit length, in as few blocks as hold them |
| ChaCha20.QuarterVector | core-c/src/chacha20.c:11-17 | the quarter round gives the test vector of section 2.1.1 of RFC 8439 |
| ChaCha20Vectors.BlockVector | core-c/src/chacha20.c:59-82 | the block function gives the 64 bytes of section 2.3.2 of RFC 8439 |
| ChaCha20Vectors.EncryptVector | core-c/src/chacha20.c:33-104 | so does encrypting zeros with the key, nonce and counter of that section |
| ChaCha20Vectors.ZerosGiveBlocks | core-c/src/chacha20.c:81-104 | for every state, block n of the key stream is that of the counter n further on, which wraps, and of the same other words |
| ChaCha20Vectors.XorByteDiffers | core-c/src/chacha20.c:96-98 | bit by bit, the cipher text is set where message and key stream differ |
| ChaCha20.QuarterBack | core-c/src/chacha20.c:11-17 | the quarter round is a bijection on four words |
| ChaCha20.RoundsBijective | core-c/src/chacha20.c:63-75 | so are the rounds, on states |
| ChaCha20.CryptTwice | core-c/src/chacha20.c:84-104 | encrypting twice from the same state is the identity, for every length |
| ChaCha20.SecondCall | core-c/src/chacha20.c:84-104 | a further call starts at the next whole block of key stream |
| ChaCha20.SplitCall | core-c/src/chacha20.c:84-104 | a split call equals one call if the first part is a multiple of 64 bytes |
| ChaCha20Code.QuarterInPlace | core-c/src/chacha20.c:11-17 | the macro on four array slots |
| ChaCha20Code.TwentyRounds | core-c/src/chacha20.c:63-75 | the loop of ten double rounds |
| ChaCha20Code.Cipher.constructor | core-c/src/chacha20.c:33-57 | constants, key, counter and nonce as in section 2.3 |
| ChaCha20Code.Cipher.NextBlock | core-c/src/chacha20.c:59-82 | the block function, and the counter that wraps |
| ChaCha20Code.Cipher.Crypt | core-c/src/chacha20.c:84-104 | the key stream cipher of section 2.4, also in place |
| Crc32.Step | core-c/src/ota.c:9-17 | the masked shifts are the shift register |
| Crc32.Compute | core-c/src/ota.c:19-24 | the CRC-32 of the message |
| Crc32.CheckValue | core-c/src/ota.c:9-24 | the CRC-32 of the digits one to nine is 0xCBF43926 |
| Crc32.EmptyIsZero | core-c/src/ota.c:20-22 | the early return for the empty message is no special case |
| Crc32.BurstDetected | core-c/src/ota.c:103-107 | messages that differ inside four adjacent bytes have different checksums |
| Ota.VerifyImage | core-c/src/ota.c:79-110 | INVALID_ARG exactly for an empty image or one outside the device, else OK exactly if the one-shot checksum of the image is the descriptor's |
| Ota.DamageIsNoticed | core-c/src/ota.c:103-107 | damage inside four adjacent bytes of a good image is CORRUPTED |
| Watchdog.ReportedExactly | core-c/src/watchdog.c:27-91 | a task counts as reported exactly when it gave a sign of life in the current window that was not taken back |
| Watchdog.RegisteredExactly | core-c/src/watchdog.c:27-48 | a task is registered exactly when some event registered it, with a number below 32, and none since took it out |
| Watchdog.KickedOnlyIfAllAlive | core-c/src/watchdog.c:63-80 | over every run from no task, the hardware is kicked exactly when every task that some event registered, and none since took out, gave a sign of life since the last kick |
| Watchdog.LastKickTime | core-c/src/watchdog.c:76-78 | the remembered time is that of the last kick |
| Watchdog.FaultExactly | core-c/src/watchdog.c:63-91 | over every run from no task, a service call answers false if and only if such a task gave no sign of life since the last kick and the modular time since then has reached the timeout |
| Watchdog.ZeroIsEmpty | core-c/src/watchdog.c:71 | a mask is zero exactly if it holds no task |
| Watchdog.StarvingTasks | core-c/src/watchdog.c:56-61 | the mask expression holds the registered tasks that have not reported |
| Watchdog.Init | core-c/src/watchdog.c:9-25 | a window of no length is refused; no task is registered |
| Watchdog.Supervisor.RegisterTask | core-c/src/watchdog.c:27-37 | registration counts as a sign of life; numbers from 32 on are refused |
| Watchdog.Supervisor.UnregisterTask | core-c/src/watchdog.c:39-48 | takes registration and report back |
| Watchdog.Supervisor.HeartbeatFrom | core-c/src/watchdog.c:50-54 | reports, registered or not |
| Watchdog.Supervisor.ServiceAt | core-c/src/watchdog.c:63-91 | false exactly if tasks starve and the modular time is over; the fault callback gets those tasks |
| Sorting.ExchangeSort | core-c/src/hook.c:104-112 | the selected slots are rearranged among themselves into order, all others stay |
| Hook.Table.Register | core-c/src/hook.c:12-51 | updates the registered entry or takes the first free slot; no duplicates, and the count is that of the active entries |
| Hook.Table.Unregister | core-c/src/hook.c:53-75 | frees exactly the registered entry |
| Hook.Table.Dispatch | core-c/src/hook.c:77-126 | the matching entries run in nondecreasing priority, all of them or up to the first that stops |
| Hook.MatchingExactly | core-c/src/hook.c:93-97 | the matching entries are the active ones of the event |
| Hook.MatchingDistinct | core-c/src/hook.c:25-34 | no callback runs twice for one event |
| InitEngine.Engine.Register | core-c/src/init.c:8-31 | each function is kept once; room is checked before duplicates |
| InitEngine.Engine.InitLevel | core-c/src/init.c:33-63 | the level's slots are sorted, all others stay; its functions run up to the first failure |
| InitEngine.Engine.InitAll | core-c/src/init.c:65-73 | what runs is the front of the order by level and priority, up to the first failure |
| InitEngine.CompleteRun | core-c/src/init.c:33-73 | when all succeed every registered entry has run exactly once, in lexicographic order |

## Left out

- Null-pointer arguments, except where null is a value the engine keeps (callbacks, handlers): not modelled.
- Flash driver errors on ranges that are in the device and erased: drivers are taken to succeed; each flash call is atomic, so a cut inside the 8-byte record header or the 16-byte bank header is not modelled.
- Flash addresses: the two banks are two sectors of the device; that bank addresses are sector aligned is taken from the header.
- Nvs.Store.Write: payloads are limited to 0xFFFFFFE0 bytes, because the 32-bit size of the record would wrap beyond that.
- NvsRun.Run: payloads of at most 65535 bytes and room for every tombstone, the conditions under which the two limits above do not apply.
- Sectors of more than 2 GiB: the 32-bit sum of write offset and record size could wrap there; sums of offsets are unbounded in the model.
- NvsCrash.WriteWithCut: payloads of at most 65535 bytes, for the same reason.
- NvsCrash.DeleteWithCut: after a tombstone that spilled out of its bank the store is mounted again at once; a run that goes on with the write offset outside the bank is not modelled.
- NvsCrash.RunWithCuts: the same; and a cut inside a compaction with losses ends all certainty, though at most one of the keys that are left is not exact. Cuts follow whole flash calls, in the operations as in the mounts.
- `fw_nvs_get_stats`: a subtraction that would only add an easy member.
- Weak memory: the barriers of the rings are taken to give sequential consistency.
- Pool.Pool.Init: the rounded block size must not wrap; the source divides by it unchecked.
- Pool.Pool.ClientWrite: of a block only the first word is modelled, which is all that the list uses; that writes of other sizes stay inside their block is the client's part.
- Poisoning of freed memory in debug builds: it writes only to blocks or regions that are no longer live.
- HubRouting.MemoryHub.Register: stores must be unused and disjoint, which is what the design assumes of its callers; pools and arenas are held as values, so that the hub's methods update one field and sharing of a backend with other code is not modelled.
- `fw_arena_alloc_zeroed` and `fw_arena_alloc_span`: wrappers.
- Ota.VerifyImage: the device is smaller than the 32-bit address space; metadata records and state changes are unguarded assignments.
- ChaCha20Code.Cipher.Crypt: input and output are the same array or different ones; ranges that overlap partly are not modelled.
- Sha256Code.Context.Final: the length field is the bit length modulo 2^64, as in the code; the standard limits messages to less.
- Log formatting, colours and sinks: an entry is emitted as it was posted.
- Hook.Table.Dispatch: the dispatch counters are unbounded; callbacks do not change the table that calls them.
- InitEngine.Engine.InitAll: init functions do not register others while they run.
- Tasklet.Queue.DispatchAll: handlers only post; what a handler posts is any function of the call and of how many ran before.
- HAL and platform code, dispatcher, filters, state machines, monitors: single branches or registers.
