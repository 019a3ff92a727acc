# A model of vfio-user-kvssd

`vfu_kvssd` emulates an NVMe controller whose single namespace speaks the Key Value Command Set. This project models
its two layers and their composition, and proves what the device promises about them.

**The key-value namespace** (`src/kv.c`). A growable array of fixed slots is searched linearly; Store overwrites in
place or takes the lowest free slot, doubling the array when none is free; Delete zeroes a slot. `KvNamespace.dfy` is
that code as a class over an array. `KvSlots.dfy` says what each handler computes, as functions of the slot array.
`KvMap.dfy` proves that these functions refine a map from key bytes to 4096-byte values together with the layout of its
keys, which is what List shows, and that the usage counter, the capacity test and the array's growth are exact.
`KvCells.dfy` holds the map facts about a sequence of cells. `KvLaws.dfy` gives every outcome of every command outright,
in the raw bytes of its entry and the status codes on the wire. `KvList.dfy` treats the List payload: what a page holds
and how it is read back. `Pagination.dfy` has the host's loop of List commands, with their transfers and decoding.

**Guest memory and PRP transfers** (`src/nvme.c:126-232`). `GuestMemory.dfy` has the translation service, the
scatter/gather copy loop and the PRP split into at most two ranges, with the exact set of bytes a transfer moves and the
exact condition under which it succeeds.

**The wire** (`include/kvssd_nvme_spec.h`). `NvmeSpec.dfy` has the entry layouts and constants, `Bytes.dfy` the
little-endian encoding. `Wire.dfy` encodes entries as a host does and shows that the device reads every field back.

**The controller** (`src/nvme.c`). `Controller.dfy` is the register block and the 64 submission and completion queue
records, updated in place by register writes, doorbells and admin commands; `ControllerState.dfy` is the same as
functions on values, with the invariant every step keeps. `Registers.dfy` has the laws of the register file and of the
CC/CSTS machine (sections 3.1.3.5, 3.1.3.6 and 3.6.1 of the NVM Express Base Specification 2.0), `BarLaws.dfy` BAR0 as
the host sees it, from the bytes it writes to the bytes it reads and the queues the device then uses, `AdminLaws.dfy`
what each admin command does, in the bytes of its entry, and what it promises about later ones.

**Runs.** `Runs.dfy` quantifies over every sequence of BAR0 accesses, device resets and host stores: the invariants of
every reachable state, and the namespace as the fold of the abstract map over the commands in fetch order.
`Completions.dfy` says what every doorbell of a run owes the host: the commands it serves, their completions, and where
in guest memory each entry came from and each byte went. `RunRings.dfy` follows one completion ring through a run.
`ResetForgets.dfy` shows that a device reset is indistinguishable from a new controller over the same namespace.

**From the doorbell to the host.** `CompletionRing.dfy` shows that a phase-tagged completion ring is a FIFO to a
polling host; `Batch.dfy` what one doorbell serves; `RingPair.dfy` and `EndToEnd.dfy` compose doorbell, fetch, handler,
DMA in both directions, completion and consumer into one theorem (`EndToEnd.DoorbellToConsumer`); `QueuePairs.dfy`
shows that Create commands set such pairs up, that a batch leaves its own pair ready for the next one, and that pairs
do not disturb each other, also when they share a completion queue.

## How to read the model

Each class method is proved equal to a function on values (`ensures Value() == ...`), and the theorems are about those
functions. Everything the device does not decide itself is in `GuestMemory.Env`, as functions of a tick that advances
by four with every fetched command: how the translation service cuts a range into segments (or fails), whether a
mapping succeeds, whether an allocation succeeds, and the bytes an Identify page holds. Theorems hold for every `Env`,
so they hold for every pattern of DMA and allocation failures. Integers are unbounded; the widths of the source are
written out where they matter (`u16` tails and heads, `u32` registers, the `(int)` cast of a slot index, wrap-around of
the 64-bit usage counter and addresses). CC and CSTS are bit-vectors.

The host's side of the protocol appears as explicit conditions. A submission-queue tail must lie inside its queue
(`ControllerState.WriteAllowed`): `src/nvme.c:885` does not check it, and `Queues.TailReachable` shows that the loop's
exit test can be met exactly when it does. Register accesses are at most 8 bytes wide, because `rd_le` shifts by
`8 * i` in 64 bits. Where memory contents are claimed, what a command writes must miss the rings and what later commands
of the batch read, and no Store reads the completion ring (`RingPair.Separate`); a command's footprint depends on its
opcode, so Deletes and Exists have none and several Stores may share a buffer. The host leaves room in the completion
ring. `QueuePairs.ReadyBatchExists` meets these conditions with a concrete memory.

Some laws hold only in part. Each has its exact condition, and where a reader might expect more, an instance that fails:

- A Store that does not succeed leaves the namespace alone, except exactly when its transfer is what failed and the key
  was new and could be inserted: then the key stays, and is charged (`KvMap.FailedStoreChanges`, `src/kv.c:132-137`;
  `KvMap.FailedStoreKeepsKey` is an instance).
- A device reset brings back the power-on state, as `src/nvme.h:109` says, exactly when the namespace is as it was at
  power-on (`ResetForgets.ResetToPowerOn`; after the run of `ResetForgets.EdnekSurvivesReset` it does not).
- The phase tag alternates lap by lap exactly for completion queues of at most 65535 entries, since the tail is 16 bits
  wide (`CompletionRing.PhaseLawExact`).
- A polling host reads the completion it waits for exactly when it is at most one lap behind
  (`CompletionRing.OverrunLosesEntry`).
- A host that rounds List records up to four bytes finds every record where the device put it exactly when all keys
  but the last have even length (`KvList.OffsetsAgree`).
- A List payload decodes to its keys exactly when there are fewer than 65536 (`KvList.DecodeListing`); a List that
  succeeds never holds more than 2047 (`KvList.SuccessfulListCount`).
- Restarting List at the last key returned enumerates every key exactly when the first record fits in the buffer, every
  two neighbouring records do, and no page needs a third memory page (`Pagination.HostListComplete`). A buffer of 44
  bytes or more that reaches into at most two pages is always enough (`Pagination.PaginationComplete`); a larger one is
  not (`Pagination.LargeBufferFails`: 512 keys of 16 bytes and a buffer of 16384).
- A CC write is invisible except in CC exactly when `Registers.VisibleWrite` says so.

The model follows the code also where its comments, or the key-value interface, suggest something else:

- Overwriting a key replaces only the bytes delivered; the old tail of the value stays (`src/kv.c:101`).
- List pads a record by `x % 4` bytes, not up to a multiple of four (`src/kv.c:227`), and sends its 4-byte header even
  when the host buffer is smaller.
- Get Log Page succeeds without sending anything (`src/nvme.c:588-590` speaks of a zeroed page).
- `src/nvme.c:212-214` says that transfers are at most two pages; a List can ask for more, and then fails.

## Model

| member | source | states |
|---|---|---|
| KvSlots.KeyMatchMeaning | src/kv.c:50-68 | comparing the two halves of a key separately is equality of the first `kl` key bytes, on used slots only |
| KvSlots.KeyStoreMeaning | src/kv.c:70-79 | the slot then holds exactly the command's key, with the value untouched |
| KvSlots.ReplySmall | include/kvssd_nvme_spec.h:95-106 | every status a handler returns fits in 15 bits, so it survives the shift over the phase tag |
| KvCells.FreeIndexBound | src/kv.c:93-96 | the lowest free index is at most the number of live keys |
| KvCells.SetMap | src/kv.c:97-105 | replacing the value of the slot that is found updates exactly that key and keeps keys unique |
| KvCells.PutMap | src/kv.c:132-133 | filling a free slot with an absent key adds exactly that key and keeps keys unique |
| KvCells.ClearMap | src/kv.c:167-169 | freeing the slot that is found removes exactly that key |
| KvCells.GrowMap | src/kv.c:119-130 | appending free slots changes no key, no value and no search result |
| KvCells.MapCount | src/kv.c:112-115 | without repeated keys the number of used slots is the number of keys |
| KvMap.NewNsOk | src/kv.c:11-38 | a new namespace satisfies the invariant and stands for the empty map |
| KvMap.CapacityTest | src/kv.c:112-117 | `nuse / 4112` is exactly the live-key count, `nuse <= nsze`, and neither can wrap |
| KvMap.ChargeExact | src/kv.c:133-169 | charging and refunding a key's footprint never wraps or underflows |
| KvMap.OverwriteRefines | src/kv.c:97-105 | an overwrite lays the delivered bytes over the old value of that key and changes nothing else |
| KvMap.InsertRefines | src/kv.c:119-138 | an insert, with or without growth, adds the key with the delivered bytes over zeros; the array stays 16*2^j and within its bound |
| KvMap.StoreRefines | src/kv.c:81-139 | Store, in every branch, is the abstract store on map and layout: both options, size checks, capacity, failed growth and failed DMA |
| KvMap.DeleteRefines | src/kv.c:159-177 | Delete removes the key, refunds exactly its footprint, and changes nothing when the key is absent |
| KvMap.ReadsRefine | src/kv.c:141-254 | Retrieve, Exist and List leave the namespace alone and give exactly the reply the map and the layout determine |
| KvMap.KvRefines | src/nvme.c:617-637 | every command keeps the invariant and commutes with the abstraction: same new map and layout, same status or payload |
| KvMap.InsertThenRetrieve | src/kv.c:125-153 | a new key reads back as its bytes followed by zeros, whatever key used the slot before |
| KvMap.OverwriteThenRetrieve | src/kv.c:97-153 | an overwritten key reads back as the new bytes followed by the old tail |
| KvMap.FailedStoreChanges | src/kv.c:101-138 | a Store that does not succeed changes the namespace exactly when its transfer failed and it had reached the insert of a new key |
| KvMap.FailedStoreKeepsKey | src/kv.c:132-137 | an instance: the reply is an error, and the key is there and charged |
| KvLaws.StoreSizes | src/kv.c:86-91 | Store answers 0x0186 to a key of more than 16 bytes, before 0x0185 to a value of more than 4096, and changes nothing |
| KvLaws.StorePresent | src/kv.c:97-105 | Store of a present key: option bit 1 refuses it with 0x0189 and changes nothing; otherwise the delivered bytes go over the old value, whatever bit 0 says, and the status is the transfer's |
| KvLaws.StoreMustExist | src/kv.c:108-110 | Store of an absent key with option bit 0 answers 0x0187 and changes nothing |
| KvLaws.StoreNoRoom | src/kv.c:112-123 | without that bit it answers 0x0181 and changes nothing when the namespace has as many keys as its capacity, or the array is full and cannot grow |
| KvLaws.StoreAbsent | src/kv.c:119-138 | otherwise the key takes the delivered bytes over zeros, 4112 is charged, the array doubles exactly when it was full, and the status is the transfer's |
| KvLaws.RetrieveLaw | src/kv.c:141-157 | Retrieve sends the first `hbs` bytes of the value, at most 4096, or answers 0x0002 or 0x0187 |
| KvLaws.ExistLaw | src/kv.c:179-192 | Exist answers 0 or 0x0187 by whether the key is there, and 0x0002 to a long key |
| KvLaws.DeleteLaw | src/kv.c:159-177 | Delete removes the key and refunds 4112, and answers by bit 0 of EDNEK when the key is absent |
| KvLaws.ListLaw | src/kv.c:194-254 | List sends its page exactly when the allocations for the header, for each record and for one record that does not fit succeed, and answers 0x0181 otherwise |
| KvLaws.UnknownOpcode | src/nvme.c:634-635 | every other opcode is answered 0x4001 and changes nothing |
| KvLaws.ReplyEnds | src/nvme.c:603-615 | a payload goes out through the PRP entries at bytes 24 and 32 of the entry; the status is 0 when the transfer succeeds and 0x0002 when it does not |
| KvLaws.RetrieveArrives | src/nvme.c:610-637 | a Retrieve that succeeds leaves the value's first bytes in the host's buffer; it fails exactly when the transfer does, and then memory is as it was |
| KvList.StrideMeaning | src/kv.c:226-227 | a record's length is even and at least 4, and is a rounding up to 4 exactly for even key lengths |
| KvList.TakenPrefix | src/kv.c:221-249 | the scan takes a prefix of the used slots' keys that fits in the buffer and stops only at one that does not |
| KvList.TakenLongest | src/kv.c:236-238 | no longer prefix fits |
| KvList.ListingLength | src/kv.c:226-244 | the payload is 4 bytes and the sum of the record lengths |
| KvLaws.RecordBytes | src/kv.c:239-247 | a record is the two length bytes, the key and zero padding, byte by byte |
| KvLaws.HeaderBytes | src/kv.c:200-248 | the first two bytes of the payload are the number of records modulo 65536, the next two are zero, and the records follow |
| KvList.DecodeListing | src/kv.c:243-248 | reading the payload back gives its keys, exactly when the 16-bit count has not wrapped |
| KvList.ParseAligned | src/kv.c:226-248 | a reader that rounds lengths up to 4 recovers a page whose keys have even length |
| KvList.OffsetsEven | src/kv.c:226-244 | every record starts at an even offset, and at a multiple of 4 when all lengths are even |
| KvList.OffsetsAgree | src/kv.c:226-244 | the two readers agree on all offsets exactly when all keys but the last have even length |
| KvList.ListAnswersPage | src/kv.c:194-254 | the payload decodes to the longest page from the named key's slot (or the first slot), and is at most max(4, hbs) long |
| KvList.SuccessfulListCount | src/nvme.c:198-226 | a List that succeeds end to end holds at most 2047 records, its count is exact and it decodes |
| KvList.HeldKeysOnce | src/kv.c:214-249 | the keys in slot order are exactly the stored keys, each once |
| KvList.PageMeaning | src/kv.c:214-249 | a List shows a run of stored keys, each once, from the named key on (all keys when it is absent), cut only where the next record would not fit |
| KvList.Locate | src/kv.c:214-219 | naming a listed key resumes exactly at it |
| Pagination.ListOnceIsList | src/kv.c:194-254 | the List command that names a key gets the reply the loop works with |
| Pagination.ListOnceIs | src/kv.c:194-254 | a List that succeeds brings the host exactly its page; it succeeds whenever memory and mappings allow and the payload needs no third page |
| Pagination.HostListComplete | src/kv.c:214-251 | the loop of decoded Lists enumerates every stored key in slot order exactly when the first record and every two neighbouring records fit in the buffer and no page of the loop needs a third memory page |
| Pagination.PaginationComplete | src/kv.c:214-251 | with a buffer of at least 44 bytes that reaches into at most two pages the loop gives every stored key exactly once, in slot order |
| Pagination.TranslatesWilling | src/nvme.c:198-226 | such a service, and allocations that succeed, are all the loop asks of the device's surroundings |
| Pagination.LongListingFails | src/nvme.c:209-219 | a buffer that takes all keys in one listing that needs a third page brings nothing |
| Pagination.LargeBufferFails | src/nvme.c:209-219 | an instance: 512 keys of 16 bytes and a buffer of 16384 bytes |
| KvNamespaces.KvNamespace.constructor | src/kv.c:11-38 | 16 zeroed slots, nothing charged, the given capacity |
| KvNamespaces.KvNamespace.Scan | src/kv.c:147-148 | the loop finds the first slot holding the command's key, or runs off the end |
| KvNamespaces.KvNamespace.Search | src/kv.c:93-106 | the same, and when the key is absent the remembered index is the lowest free slot |
| KvNamespaces.KvNamespace.Store | src/kv.c:81-139 | the new array, counter and status are those of the abstract store on the bytes the transfer delivered |
| KvNamespaces.KvNamespace.Grow | src/kv.c:119-130 | twice the slots: the old ones in place, the new ones zero |
| KvNamespaces.KvNamespace.Retrieve | src/kv.c:141-157 | sends the first min(hbs, 4096) bytes of the value found, and nothing otherwise |
| KvNamespaces.KvNamespace.Delete | src/kv.c:159-177 | zeroes the slot found and refunds it, or answers by EDNEK |
| KvNamespaces.KvNamespace.Exist | src/kv.c:179-192 | success exactly when the key is found |
| KvNamespaces.KvNamespace.BuildListing | src/kv.c:199-249 | the growing buffer ends as the listing of the longest page, or fails when one of its allocations does |
| KvNamespaces.KvNamespace.List | src/kv.c:194-254 | sends that listing, or reports the allocation failure |
| KvNamespaces.IndexExact | src/kv.c:95-127 | the cast of a slot index to int is exact |
| KvNamespaces.ListingStep | src/kv.c:236-248 | appending a record and bumping the 16-bit count is the listing of one more key |
| GuestMemory.ScatterExact | src/nvme.c:138-149 | a scatter over segments that cut a range is one write of the range, however it was cut |
| GuestMemory.GatherExact | src/nvme.c:138-149 | a gather over segments that cut a range is one read of the range |
| GuestMemory.GpaExact | src/nvme.c:155-178 | a contiguous transfer that succeeds moves exactly the requested range |
| GuestMemory.PrpExact | src/nvme.c:180-232 | a PRP transfer that succeeds moves exactly [prp1, +first) then [prp2, +rest), in order and nothing else |
| GuestMemory.PrpFrame | src/nvme.c:180-232 | no byte outside the two ranges changes, whether or not the transfer succeeds |
| GuestMemory.PrpReadLocal | src/nvme.c:180-232 | what a transfer reads depends only on the bytes of its own ranges |
| GuestMemory.PrpRoundTrip | src/nvme.c:180-232 | what is written through non-overlapping PRPs is read back through them |
| GuestMemory.PrpLimit | src/nvme.c:198-219 | the unsupported branch is reached exactly by transfers that need a third page, never with one page of data |
| GuestMemory.GpaSucceeds | src/nvme.c:155-178 | a contiguous transfer succeeds exactly when its range is translated into at most 8 segments that make it up, inside memory, and these are mapped |
| GuestMemory.PrpSucceeds | src/nvme.c:180-232 | a PRP transfer succeeds exactly when the part after the first page fits in a page, both parts are translated, in at most 16 segments together, and these are mapped |
| GuestMemory.TranslatesAll | src/nvme.c:155-232 | with a service that translates all of memory in at most 8 segments a range, exactly the transfers inside memory, of at most two pages, succeed |
| GuestMemory.Bus.SglCopy | src/nvme.c:126-152 | the copy loop performs the scatter or gather, and succeeds exactly when the segments cover the length |
| GuestMemory.Bus.GpaXfer | src/nvme.c:155-178 | the contiguous transfer, with its failure cases |
| GuestMemory.Bus.PrpXfer | src/nvme.c:180-232 | the PRP transfer, with its failure cases |
| Bytes.ReadLe | src/nvme.c:749-757 | the byte loop computes the little-endian value, below 2^64 |
| Bytes.WriteLe | src/nvme.c:759-765 | the byte loop writes the little-endian digits and nothing else |
| Bytes.WriteThenRead | src/nvme.c:749-765 | reading what was written gives the value modulo its width |
| Bytes.ReadThenWrite | src/nvme.c:749-765 | writing what was read gives the bytes back |
| NvmeSpec.CqeRoundTrip | src/nvme.c:249-254 | the host reads back every field of a completion entry, status and phase included |
| Wire.SqeRoundTrip | include/kvssd_nvme_spec.h:16-34 | the device reads opcode, command identifier, both PRP entries and dwords 10 and 11 of a 64-byte entry as the host encoded them |
| Wire.KvRoundTrip | include/kvssd_nvme_spec.h:46-68 | the same for a key-value command: also the buffer size, the key length, the options and both halves of the key |
| Wire.KeyRoundTrip | include/kvssd_nvme_spec.h:46-68 | a key of at most 16 bytes laid over the two halves is the key the device sees |
| Wire.CqeLayout | include/kvssd_nvme_spec.h:36-44 | where the host finds the result, head, queue, identifier, status and phase in the 16 bytes of a completion |
| Wire.DigitAt | src/nvme.c:759-765 | byte i of an encoded number is its i-th digit from the low end |
| Registers.AdjacentReads | src/nvme.c:783-787 | two adjacent register reads concatenate to the wider read |
| Registers.AdminQueueReads | src/nvme.c:779-781 | AQA, ASQ and ACQ read as their little-endian bytes |
| Registers.LowRegisterReads | src/nvme.c:773-778 | so do CAP, VS, INTMS, INTMC, CC and CSTS |
| Registers.AdminQueueReadBack | src/nvme.c:852-860 | an 8-byte write to ASQ or ACQ reads back |
| Registers.WordReadBack | src/nvme.c:806-851 | a 4-byte write to INTMS, INTMC, CC or AQA reads back |
| Registers.AdminQueueHalves | src/nvme.c:852-863 | two 4-byte writes to ASQ or ACQ, in either order, are one 8-byte write |
| Registers.WriteCcCsts | src/nvme.c:812-848 | every CC write keeps the CC/CSTS invariant: RDY is EN, SHST complete means SHN and no queue, an enabled queue means EN, the admin queues go together |
| Registers.PreservedShnStutters | src/nvme.c:824-845 | any sequence of CC writes that keeps EN and keeps SHN on the same side of zero changes only CC |
| Registers.VisibleWrite | src/nvme.c:812-848 | exactly which CC writes change only CC |
| Registers.CcTable | src/nvme.c:812-848 | after any CC write RDY is the new EN; SHST becomes complete when SHN rises, normal when SHN falls or EN changes, and stays otherwise |
| Registers.CcQueues | src/nvme.c:812-848 | a CC write takes every queue down when SHN rises or EN falls, brings up the admin pair alone when EN rises, and leaves the queues otherwise |
| Registers.ShutdownCleared | src/nvme.c:843-845 | clearing SHN while EN stays set clears SHST and leaves every queue down |
| Registers.EnableCycle | src/nvme.c:673-728 | dropping and raising EN recovers every reachable state: ready, a fresh admin pair at the addresses in ASQ and ACQ and of the sizes in AQA, all other queues down |
| BarLaws.BarRegisters | src/nvme.c:767-787 | every register reads at its BAR0 offset |
| BarLaws.BarSlices | src/nvme.c:783-787 | a BAR0 read inside the register file is a slice of it, any other reads as zeros |
| BarLaws.BarReserved | src/nvme.c:772-781 | bytes that belong to no register read as zero |
| BarLaws.BarReadBack | src/nvme.c:800-901 | what is written to a register with one access of its width is read back |
| BarLaws.BarWriteAlone | src/nvme.c:800-867 | such a write changes no other register, except CSTS through CC, serves nothing, and leaves the namespace and guest memory alone |
| BarLaws.BarHalves | src/nvme.c:852-863 | ASQ or ACQ written in two halves, in either order, reads back whole |
| BarLaws.BarIgnores | src/nvme.c:864-866 | CAP, VS, CSTS and the rest of the register file cannot be written |
| BarLaws.BarWidths | src/nvme.c:800-863 | a register write of any width acts as a write of its low four bytes, except for 8-byte writes to ASQ and ACQ |
| BarLaws.ResetReads | src/nvme.c:730-743 | after a device reset every register but CAP and VS reads as zero, every queue is down, and the namespace is kept |
| BarLaws.PowerOnReads | src/nvme.c:83-105 | so it is at power-on |
| BarLaws.EnableByBar | src/nvme.c:673-701 | a CC write that sets EN puts the admin queues where the host reads ASQ and ACQ to be, with the sizes in AQA |
| BarLaws.HostEnables | src/nvme.c:673-863 | after AQA, ASQ, ACQ and CC are written, the next admin fetch and completion use the addresses and sizes in the bytes written |
| BarLaws.DoorbellBytes | src/nvme.c:875-885 | a 16-bit number written to a doorbell with 2 or 4 bytes is its value |
| BarLaws.HeadDoorbell | src/nvme.c:877-883 | the head doorbell of queue q is at offset 0x1004 + 8q, and only records the head |
| BarLaws.OtherDoorbells | src/nvme.c:881-887 | doorbells past the 64th queue do nothing |
| BarLaws.RunReads | src/nvme.c:767-901 | after any run from power-on a BAR0 read of CSTS shows RDY equal to the EN that a read of CC shows, SHST normal or complete and nothing else, and CAP and VS read as their constants |
| Controllers.Controller.constructor | src/nvme.c:83-105 | power-on: CAP and VS, all else zero, a new namespace |
| Controllers.Controller.EnableController | src/nvme.c:673-701 | the admin pair from AQA, ASQ and ACQ, and CSTS ready |
| Controllers.Controller.TakeQueuesDown | src/nvme.c:708-715 | every queue disabled, nothing else changed |
| Controllers.Controller.DisableController | src/nvme.c:721-728 | queues down, RDY and SHST cleared |
| Controllers.Controller.Reset | src/nvme.c:730-743 | the controller and admin-queue registers cleared; the namespace kept |
| Controllers.Controller.WriteCcReg | src/nvme.c:812-848 | the enable edge and then the shutdown edge |
| Controllers.Controller.WriteReg | src/nvme.c:800-867 | the register write at every offset and width |
| Controllers.Controller.ReadReg | src/nvme.c:767-787 | the bytes of the register file at that offset, zeros past its end |
| Controllers.Controller.AdminIdentify | src/nvme.c:369-451 | which structures are answered, and the page transfer's outcome |
| Controllers.Controller.AdminSetFeatures | src/nvme.c:453-474 | the granted queue counts, EDNEK stored, everything else accepted |
| Controllers.Controller.AdminCreateCq | src/nvme.c:496-518 | the new record, or an invalid identifier |
| Controllers.Controller.AdminCreateSq | src/nvme.c:520-542 | the new record, or an invalid identifier or a disabled completion queue |
| Controllers.Controller.AdminDeleteCq | src/nvme.c:544-554 | only that record is disabled; dependent submission queues are not |
| Controllers.Controller.AdminDeleteSq | src/nvme.c:556-566 | only that record is disabled |
| Controllers.Controller.AdminCommand | src/nvme.c:568-597 | the dispatch, with the stubbed and the open commands |
| Controllers.Controller.IoKv | src/nvme.c:617-637 | the dispatch of the key-value opcodes |
| Controllers.Controller.PostCqe | src/nvme.c:238-263 | the entry at the tail with the current phase, the advanced tail, the phase flip; nothing on a disabled queue |
| Controllers.Controller.Process | src/nvme.c:643-671 | the queue loop: fetch, execute, complete from head to tail, stopping at a failed fetch |
| Controllers.Controller.BarStore | src/nvme.c:874-901 | the doorbells and the register writes of BAR0, keeping the invariant |
| Controllers.Controller.BarLoad | src/nvme.c:888-901 | doorbells read as zeros, registers as themselves |
| ControllerState.AdminKeeps | src/nvme.c:568-597 | no admin command touches queue pair 0 or the registers, and of the namespace only EDNEK |
| ControllerState.IoKeeps | src/nvme.c:617-637 | no I/O command touches a queue record or a register |
| ControllerState.ServeKeeps | src/nvme.c:661-669 | serving a command keeps the invariant, moves only its own head, and shortens the backlog by one |
| ControllerState.BarWriteKeeps | src/nvme.c:869-901 | every allowed BAR0 write keeps the queue table and the namespace well formed, and CAP and VS constant |
| Queues.TailReachable | src/nvme.c:652-661 | the head can reach the tail exactly when the tail lies inside the queue |
| Queues.IoCqeFields | src/nvme.c:249-254 | an I/O completion carries the identifier in bytes 2 and 3 of the entry, its queue, the advanced head, its status and the phase |
| AdminLaws.EdnekReadBack | src/nvme.c:468-489 | EDNEK reads back, and its bit 0 alone decides how a Delete of an absent key ends |
| AdminLaws.EdnekOverRuns | src/nvme.c:468-489 | after any run from power-on Get Features reports the EDNEK that was set last, or 0 |
| AdminLaws.QueueCountGranted | src/nvme.c:459-486 | the granted counts are what was asked for up to the reported maximum, which is what can be created |
| AdminLaws.DeletedCqDropsCompletions | src/nvme.c:245-247 | commands on a queue whose completion queue was deleted still take effect and are never completed |
| AdminLaws.CreateCqLaw | src/nvme.c:496-518 | Create Completion Queue in the bytes of its entry: the new record and nothing else changed, or 0x4101 |
| AdminLaws.CreateSqLaw | src/nvme.c:520-542 | Create Submission Queue likewise; its completion queue must exist and be enabled |
| AdminLaws.DeleteLaw | src/nvme.c:544-566 | both Deletes disable the queue they name and change nothing else, or answer 0x4101 |
| AdminLaws.RunDown | src/nvme.c:643-650 | a submission queue that is down serves nothing in any run until it is created |
| AdminLaws.DeletedSqIsSilent | src/nvme.c:556-566 | so no doorbell serves a deleted submission queue, in any run, until it is created again |
| AdminLaws.IdentifyLaw | src/nvme.c:369-451 | which structures Identify answers and with which status; what the page is told; that it goes out through the PRPs |
| AdminLaws.IdentifyArrives | src/nvme.c:446-450 | a page sent with success is in the host's buffer |
| AdminLaws.FeaturesLaw | src/nvme.c:453-494 | Set and Get Features always succeed; only EDNEK changes the controller; what each reports |
| AdminLaws.OtherLaw | src/nvme.c:588-595 | Get Log Page succeeds, an asynchronous event request stays open, any other opcode is answered 0x4001, all without effect |
| Runs.ProcessPairZero | src/nvme.c:643-671 | no batch changes the geometry or the enabled flag of the admin pair |
| Runs.RunInvariant | src/nvme.c:643-901 | over every run the queue table, the namespace and the CC/CSTS invariant hold, and CAP, VS and the capacity are constant |
| Runs.RunAccounting | src/kv.c:30-133 | over every run from power-on, NUSE is 4112 times the live keys, within NSZE and the capacity, and the array is 16*2^j within its bound |
| Runs.RunRefines | src/nvme.c:643-671 | over every run the namespace is the fold of the abstract commands over the log in fetch order, and every I/O command's status and payload are exactly those the map and the layout determine at that point |
| Completions.RunCompletions | src/nvme.c:643-671 | over every run each doorbell serves all pending entries of its queue in ring order, unless one cannot be fetched, and leaves the head at the tail or on that entry; each command is completed exactly once if its completion queue is enabled, with the identifier in its bytes 2 and 3, queue, advanced head, status and result; each entry and its data are what guest memory held, and guest memory changes only by the payloads and completions of the log |
| RunRings.RunRing | src/nvme.c:238-263 | over every run, with doorbells on any submission queues, the ring of a completion queue holds its completions in order, if the host and the served commands leave the ring alone |
| RunRings.RunPolls | src/nvme.c:238-263 | so a host at most one lap behind reads the next completion of the run exactly when there is one |
| ResetForgets.RunAlike | src/nvme.c:643-742 | what a disabled queue record holds is never observed, by any run |
| ResetForgets.ResetForgetsHistory | src/nvme.c:730-743 | after a reset from any reachable state, every later run shows the same reads, memory, commands and completions as a new controller over the same namespace |
| ResetForgets.ResetToPowerOn | src/nvme.c:730-743 | from every reachable state a reset brings back the power-on state exactly when the namespace is as it was at power-on |
| ResetForgets.EdnekSurvivesReset | src/nvme.c:730-743 | an instance of a run after which it does not: EDNEK was set |
| CompletionRing.PhaseLaw | src/nvme.c:259-263 | after k posts the tail is k mod size and the phase is 1 xor (k / size mod 2) |
| CompletionRing.PhaseLawExact | src/nvme.c:259-263 | that law holds for all k exactly when the queue has at most 65535 entries |
| CompletionRing.PollExact | tests/client_hammer.c:417-429 | a host at most one lap behind sees a new entry exactly when there is one, and reads exactly the next one |
| CompletionRing.OverrunLosesEntry | src/nvme.c:256-263 | for every gap: the host reads the last entry written to its slot, its own exactly when it is at most one lap behind, and sees it as new exactly when it has lost an even number of laps |
| CompletionRing.WriteAppends | src/nvme.c:249-257 | the entry the controller writes is appended to the ring, and memory outside the ring is unchanged |
| Batch.BatchExact | src/nvme.c:643-671 | a doorbell consumes (tail - head) mod size commands and ends with head at tail, or stops with the head on the entry whose fetch failed |
| Batch.ServeIo | src/nvme.c:657-669 | one I/O command, in full: its head, its completion queue, memory, and its completion |
| Batch.BatchCompletions | src/nvme.c:663-669 | every command of a batch is completed exactly once, with the identifier in its bytes 2 and 3, its queue, the head after it, its status and result, or not at all when its completion queue is disabled or it is an asynchronous event request |
| EndToEnd.FetchIsSubmitted | src/nvme.c:657-660 | the entry fetched is the one the host put at the head |
| EndToEnd.BatchAnswered | src/nvme.c:643-671 | every pending command is served, a Store on the bytes its buffer held at the doorbell, and its completion reaches memory |
| EndToEnd.BatchConfined | src/nvme.c:643-671 | the device writes guest memory only in its completion ring and where the Retrieves and Lists it serves point |
| EndToEnd.BatchDelivered | src/nvme.c:180-232 | at the end of a batch the payload of every command that succeeded is in the host's buffer, if its two ranges are apart and no later command wrote there |
| EndToEnd.BatchPosted | src/nvme.c:643-671 | the completion ring gains exactly the batch's completions in order, and the pair is ready for the next batch |
| EndToEnd.BatchApplied | src/nvme.c:643-671 | the namespace ends as the abstract map after the submitted commands |
| EndToEnd.DoorbellToConsumer | src/nvme.c:869-894 | one write of a tail v to its doorbell, end to end: exactly the commands up to v are served; the map after the commands, the prescribed answers, every lasting payload in its buffer, and exactly their completions (the identifier in bytes 2 and 3, queue, head after it, status), in order, seen by the polling host; the pair is ready for the next batch |
| EndToEnd.TailDoorbellAt | src/nvme.c:874-885 | in BAR0, exactly the four bytes from offset 0x1000 + 8q are the tail doorbell of queue q |
| QueuePairs.CreatedPairReady | src/nvme.c:496-542 | two successful Create commands over zeroed, disjoint rings leave a pair ready for its first batch |
| QueuePairs.RingsTranslated | src/nvme.c:155-178 | a service that translates the two rings maps every fetch and every completion of a pair, however many |
| QueuePairs.HostSubmits | tests/client_hammer.c:405-416 | a host that writes commands between batches and picks the tail that covers them has a pair ready for the doorbell |
| QueuePairs.OtherRecords | src/nvme.c:643-671 | an I/O batch changes no queue record but its own and its completion queue's |
| QueuePairs.OtherPairReady | src/nvme.c:643-671 | a batch on one pair leaves every pair it does not write to as ready as it was, with what its commands read intact |
| QueuePairs.SharedPairReady | src/nvme.c:528-537 | so it does for a submission queue that shares its completion queue, whose ring then holds the batch's completions too |

## Left out

- Option parsing, sockets, signals, vfio-user set-up and teardown (`src/main.c`, `nvme_ctrl_teardown`, `kv_ns_teardown`): plumbing. The key capacity is a parameter, at most `INT_MAX`, which is what the `(int)` slot index can hold.
- The contents of the Identify structures and the strings in them: constants; the model takes the page as a function of the structure asked for, NSZE and NUSE. Get Log Page and unknown features are the stubs they are in the source.
- The MSI-X region (`nvme_msix_access`): a bounds-checked copy. The interrupt itself is recorded as the vector of a posting.
- libvfio-user: `vfu_addr_to_sgl` is taken to fail or to cut exactly the requested range into at most the allowed number of segments, and `vfu_sgl_get` to map all of them or none. Two guest addresses that share one host page are not modelled: guest memory is one flat array.
- Allocation failures inside a transfer count as failures of that transfer. An access to unmapped guest memory is a failed translation.
- DMA regions mapped and unmapped during a run: the size of guest memory is fixed; what can be reached of it may vary with the tick.
- Concurrency: the device handles one access at a time, and the host writes its memory between accesses.
- Tracing, clocks and the patch to libvfio-user.
- Bytes.ReadLe: at most 8 bytes, because a wider access shifts by 64 or more in the source, which C does not define; `|` of bytes at different positions is written as `+`.
- Controllers.Controller.BarStore: asks that a tail written to an enabled submission queue lie inside it; with any other tail the source's loop runs until a fetch fails, which need never happen (Queues.TailReachable).
- Controllers.Controller.AdminGetFeatures: has no row of its own; what the reported values mean is AdminLaws.EdnekOverRuns and AdminLaws.QueueCountGranted.
- Controllers.Controller.PostCqe: an entry whose write fails is lost and the tail still advances, as in the source; the posting records that it did not reach memory.
- Runs.RunRefines: takes each command's bytes as the entry received them; that these are what guest memory held at its fetch is Completions.RunCompletions, and that they are the host's buffer as it was at the doorbell is EndToEnd.DoorbellToConsumer, which needs the buffers to be apart.
- The loops of Store, Reset and the queue engine are split into a few more methods than the source has functions (for example `StoreSized`, `InsertAt`, `Turn`); their composition is the source's function.
