# Verification of the guest-facing data path

This project models the parts of the virtual machine monitor that a guest
talks to directly, and proves what a guest, a driver writer or a maintainer
relies on:

* **Guest memory** (`memmgr.py`): slots, range resolution, and the cursors that
  scatter and gather bytes over extents (`Extents`, `Buffers`, `GuestMap`,
  `MemMgr`). Host memory is one byte array; everything is related to flat
  address translation, one guest address at a time.
* **The SCSI block commands** (`scsi.py`): `Scsi` has the units and their
  commands, `DiskArray` shows that a disk is an array of blocks, `OutcomeProofs`
  says in the numbers of the standard how every command ends.
* **The virtio-scsi queue** (`iodev_virtio.py`): `VirtQueue` says what one queue
  does as functions on memory, disks and counters, endless chains and
  exceptions included; `VirtioScsi` is the device object, method by method,
  proved to do exactly that; `ChainProofs`, `TableProofs`, `QueueProofs`,
  `RequestProofs`, `DrainProofs`, `SequentialProofs` and `DriverView` prove what
  holds over chains, runs, requests and whole notifications, against the layouts of
  Virtio 1.2 (sections 2.7.5, 2.7.6, 2.7.8, 4.1.4.5 and 5.6.6.1): `TableProofs` starts
  from the bytes of the descriptor table, `DriverView` from what a driver puts there
  and ends with what it finds in its buffers, the used ring and on the disk.
  `DeviceRuns` carries it over to all queues of the device together.
* **Register accesses** (`iodev.py`) and **PCI configuration space**
  (`iodev_pci.py`): `Registers`, `RegisterProofs`, `Pci`, `PciProofs`, and
  `PortProofs` for the port pair from end to end, over the bit operations of `Bits`
  and `ByteLanes`; `DeviceLayouts` has the registers of two of the devices.
* **The PS/2 keyboard and controller** (`iodev_pc.py`): `ScanCodes`, `Ps2`,
  `Ps2Proofs`; `KeyProofs` compares the key tables with scan code set 1 as PC
  keyboards send it, `Ps2Commands` has the commands byte by byte and the way from
  power-on to a working keyboard.

Objects the source updates in place are classes with the same fields and
methods; their contracts tie the new state to a function of the old one, and
the lemmas are about those functions. What becomes a parameter: guest memory
contents and host addresses (the array and the slots), the disk images, the
memory and disk changes made by the driver and the other queues, and the
pages of the SCSI commands that only encode constants.

## What the code does not do

Where the code falls short of what its callers expect, the model follows the
code, and a lemma says exactly when it meets the expectation.

* `MemoryManager.read` starts again at the first extent of a range whenever it
  has used it up: it returns flat memory exactly when the range lies in one
  slot (`GuestMap.ReadIsFlatIffOneSlot`; `Witnesses.ReadAcrossSlots`). `write` has
  no such limit.
* A block of a WRITE, and the header and CDB of a request, must each lie in one
  extent (`DiskArray.WriteSucceedsIff`, `DriverView.RequestAcceptedIff`;
  `Witnesses.SplitBlock`, `Witnesses.SplitRequest`).
* A drain in which a chain raises forgets how far it came. The next notification
  that finds the ring's first entry unchanged hands that head over again, however
  it ends (`QueueProofs.FailedDrainRepeats`; `Witnesses.SameHeadAgain`). When a
  drain raises is said exactly, in the memory each head meets
  (`DrainProofs.DrainFailsIff`) and, for chains and rings that do not overlap, in
  the memory at the notification (`DrainProofs.DrainOkIff`). Nothing in
  vmm.py:249-358 or kvm.py:25 catches such an exception, so today it ends the
  monitor; the repetition needs a caller that does catch it.
* A queue length that does not divide 65536 makes ring slots collide when the
  index wraps (`QueueProofs.RingSlotsDifferIff`; `Witnesses.SlotsCollide`); the
  register accepts it.
* A chain that comes back to one of its descriptors is walked for ever
  (`ChainProofs.LoopEndlessIffRepeats`; `Witnesses.EndlessChain`).
* An access that is not aligned can cover more bytes than it asks for
  (`RegisterProofs.ReadExactIff`, `RegisterProofs.WriteExactIff`,
  `RegisterProofs.RegisterKeptIff`): a 32-bit read at 0x1E of the virtio-scsi BAR
  can return more than 32 bits (`DeviceLayouts.QueueAreaRunsOver`), and 32-bit
  writes at 0x2E and 0x0E of a configuration header reach into the registers
  behind (`Witnesses.RomOverwritten`, `Witnesses.BarOverwritten`).
* A PS/2 controller response that arrives while nothing else is pending does
  not raise the interrupt line (`Ps2Proofs.LineExactIff`; `Witnesses.LineStaysDown`).

## Model

| member | source | states |
|---|---|---|
| `Extents.SliceIsPythonSlice` | memmgr.py:21-38 | slicing an extent selects the addresses that slicing the list of its addresses would, negative and oversized bounds included |
| `Extents.CopyFrom` | memmgr.py:42-51 | copies out exactly the extent's bytes, and raises at 16 MiB or more |
| `Extents.CopyTo` | memmgr.py:53-56 | memory afterwards is the flat write of the bytes at the extent's addresses |
| `Extents.WriteAllAt` | memmgr.py:53-56 | over distinct addresses every byte stored can be read back |
| `Extents.WriteAllFrame` | memmgr.py:53-56 | addresses that are not written keep their byte |
| `Buffers.TotalLength` | memmgr.py:193-198 | `remaining` is the number of addresses left, zero-length extents included |
| `Buffers.MultiReadBuffer.Read` | memmgr.py:200-212 | returns the next bytes of at most one extent; the caller's list is overwritten while an extent is only started and left alone once it is used up |
| `Buffers.MultiWriteBuffer.Write` | memmgr.py:226-243 | one write is the flat write of its data over all the extents left, as far as they reach; the cursor moves on by the count returned; ends even over empty extents |
| `Buffers.ChunksAreOneWrite` | memmgr.py:226-243 | any way of cutting data into writes has the memory effect and the total count of one write of all of it |
| `GuestMap.ResolveIffMapped` | memmgr.py:149-161 | a range resolves if and only if every address in it is in some slot, overlapping slots allowed |
| `GuestMap.ResolveCovers` | memmgr.py:132-161 | the extents are non-empty, each inside one slot's host range, and byte i is the byte of guest address gpa + i in some slot that has it |
| `GuestMap.ResolveIsFlat` | memmgr.py:132-161 | with disjoint slots, resolution is address-by-address translation |
| `GuestMap.FindsFirst` | memmgr.py:132-137 | of overlapping slots the first in insertion order is found; none only if no slot has the address |
| `GuestMap.TranslateInjective` | memmgr.py:132-147 | with slots that share neither guest nor host addresses, two guest addresses never share a host byte |
| `GuestMap.WrittenIsFlat` | memmgr.py:174-179 | a write to a mapped range across any number of slots sets exactly the guest bytes of the range and leaves all others |
| `GuestMap.WrittenNowhere` | memmgr.py:174-179 | a write to a range of which some address is unmapped changes nothing |
| `GuestMap.WrittenFrame` | memmgr.py:174-179 | host bytes no address of the range translates to stay |
| `GuestMap.RepeatAt` | memmgr.py:168-172 | byte i of what `read` puts together is byte i modulo e of the first extent, of length e |
| `GuestMap.ReadBackInOneSlot` | memmgr.py:163-172 | in one slot, `read` is flat memory |
| `GuestMap.ReadIsFlatIffOneSlot` | memmgr.py:163-172 | `read` gives flat memory for every memory contents if and only if the range ends in the slot it starts in |
| `GuestMap.ReadsFirstExtentAgain` | memmgr.py:169-170 | for every range that leaves its slot, a memory on which `read` is wrong |
| `GuestMap.ReadAfterWrite` | memmgr.py:163-179 | what one `write` put into a slot, a later `read` there gets back |
| `MemMgr.MemorySlot.Teardown` | memmgr.py:69-83 | removes the slot under its own number and frees that number; the second call changes nothing |
| `MemMgr.NumberedRemove` | memmgr.py:81-82 | removing a live slot keeps live and free numbers disjoint and together exactly the numbers below the next one |
| `MemMgr.NumberedAdd` | memmgr.py:108-113 | so does adding a slot under the number the allocator hands out |
| `MemMgr.MemoryManager.AllocateSlotNo` | memmgr.py:181-186 | a free number is reused; only without one is the next number taken |
| `MemMgr.MemoryManager.MapExisting` | memmgr.py:108-113 | adds the slot last in lookup order under a number not in use; the next number stays the peak number of live slots since the last clear (kept by the class invariant) |
| `MemMgr.MemoryManager.Clear` | memmgr.py:124-130 | tears every slot down and starts numbering afresh; the source's assertion holds |
| `MemMgr.MemoryManager.ResolveSlot` | memmgr.py:132-137 | the first slot in insertion order that has the address |
| `MemMgr.MemoryManager.ResolveExtent` | memmgr.py:139-147 | from the address to the end of its slot; both assertions of the source hold |
| `MemMgr.MemoryManager.ResolveExtents` | memmgr.py:149-161 | the loop terminates with the extents of the resolution function, None included |
| `MemMgr.MemoryManager.Read` | memmgr.py:163-172 | terminates with exactly bufLen bytes, the first extent repeated; None when unmapped, raises at 16 MiB |
| `MemMgr.MemoryManager.Write` | memmgr.py:174-179 | returns the full length of a mapped write and leaves memory as the flat write; None, and nothing changed, when unmapped |
| `Scsi.LogicalUnit.ExecuteCommand` | scsi.py:185-188 | runs a command and remembers its sense data unless it raised |
| `Scsi.LogicalUnit.ExecuteInner` | scsi.py:358-369 | dispatch on the opcode for disks and optical units, with the outcomes `OutcomeProofs` gives in numbers |
| `Scsi.LogicalUnit.HandleRead10` | scsi.py:388-398 | the block loop reads one contiguous part of the image, short at its end |
| `Scsi.LogicalUnit.HandleWrite10` | scsi.py:421-433 | the block loop, with the image as far as it came when a block is short |
| `Scsi.LogicalUnit.HandleWriteSame10` | scsi.py:435-454 | one block written over the whole range; flags and short data refused |
| `Scsi.LogicalUnit.HandleRequestSense` | scsi.py:240-251 | the remembered sense data, cut to the allocation length |
| `OutcomeProofs.TestUnitReady` | scsi.py:237-238 | TEST UNIT READY: status 0, no sense data, no data, image as before |
| `OutcomeProofs.UnknownOpcode` | scsi.py:190-200 | every operation code outside the list of the unit's kind, MODE SENSE(6) included: status 2 and sense data 0x70, key 5, code 0x20; image as before |
| `OutcomeProofs.UnknownUnit` | scsi.py:604-610 | a LUN outside the map: status 2 and code 0x25, no unit changes |
| `OutcomeProofs.PageOutcome` | scsi.py:358-369 | INQUIRY, READ CAPACITY, and READ TOC and GET CONFIGURATION of an optical unit, give the unit's constant page and leave the image |
| `OutcomeProofs.BlockOutcome` | scsi.py:240-454 | READ, WRITE, WRITE SAME and REQUEST SENSE are refused with code 0x24 exactly for a bad CDB field, raise exactly when room, data or sense data is missing or a block is split, and report GOOD otherwise |
| `OutcomeProofs.ShortWriteStops` | scsi.py:428-431 | a WRITE whose data does not fit leaves the disk as a WRITE of the blocks in front of the first one that is short or split |
| `DiskArray.SenseIsReportedOnce` | scsi.py:185-188 | REQUEST SENSE reports the sense data of the last completed command, the unit's first included, once, then none; a command that raises leaves it |
| `DiskArray.FileReadBytes` | scsi.py:396 | what a read of the image gives, short or empty behind its end |
| `DiskArray.FileWriteBytes` | scsi.py:431 | a write of the image changes the bytes it covers; behind the end the file grows, with zeros in between |
| `DiskArray.WriteSucceedsIff` | scsi.py:428-431 | a WRITE gets all its blocks if and only if enough data is there and no block straddles two extents |
| `DiskArray.WriteStoresBlocks` | scsi.py:421-433 | a WRITE that succeeds stores its blocks and changes no other |
| `DiskArray.FillStoresBlocks` | scsi.py:450-452 | WRITE SAME stores its block in every addressed block and changes no other |
| `DiskArray.WriteIsFileWrite` | scsi.py:421-433 | a WRITE of any range, also beyond the end of the image, is one file write of its data |
| `DiskArray.FillIsFileWrite` | scsi.py:449-452 | so is a WRITE SAME, of its block over and over |
| `DiskArray.ReadGivesBlocks` | scsi.py:388-398 | READ(10) of blocks in range returns those blocks |
| `DiskArray.RunIsArray` | scsi.py:412-454 | over any sequence of commands, with or without reply room, whose writes are in range and in place, reads and all others among them, the image holds what a plain array of blocks would |
| `DiskArray.ReadAfterWrites` | scsi.py:388-454 | after any such sequence READ(10), whatever data-out comes with it, returns what the array holds |
| `ChainProofs.LoopEndsIffNoRevisit` | iodev_virtio.py:289-313 | the descriptor loop ends if and only if no index comes up twice, and then with the result of the walk |
| `ChainProofs.LoopEndlessIffRepeats` | iodev_virtio.py:289-313 | the loop never ends if and only if some path of descriptors from the head, each naming the next, comes to the same one twice |
| `ChainProofs.WalkEnds` | iodev_virtio.py:289-313 | a walk without a revisit reads at most as many descriptors as the queue is long (a pigeonhole argument) |
| `ChainProofs.WalkTrapped` | iodev_virtio.py:289-313 | a revisit means a set of descriptors that can never be left |
| `ChainProofs.ChainIsWalked` | iodev_virtio.py:281-317 | a complete chain is walked to its end and gives the in-order concatenations of its readable and writable buffers |
| `ChainProofs.WalkChainIff` | iodev_virtio.py:281-317 | the walk yields a chain if and only if the head starts a complete one, and every byte of it lands in one of the two buffers |
| `TableProofs.VisitIsTable` | iodev_virtio.py:290-305 | over the bytes of the packed descriptor table: the descriptor read at an index is the table's, its buffer is guest memory from addr on, writable if and only if flag bit 1 is set, last if and only if bit 0 is not; indirect and unmapped ones raise, an index out of range drops |
| `TableProofs.UnmappedDescriptor` | iodev_virtio.py:294-297 | a descriptor that is not mapped drops the chain |
| `TableProofs.WalkIsTableChain` | iodev_virtio.py:281-317 | the walk yields a chain if and only if the table has a complete one from the head; its two buffers are the flat translations of the table's readable and writable descriptors, in order |
| `TableProofs.LoopEndlessIffTableLoops` | iodev_virtio.py:289-313 | the loop never ends if and only if the descriptors the table links from the head repeat |
| `TableProofs.BrokenChain` | iodev_virtio.py:289-303 | a chain that leads out of the table is dropped, one that leads to an indirect descriptor or an unmapped buffer raises; memory, disks, rings and interrupt stay |
| `VirtioScsi.VirtioScsiBar0.Reset` | iodev_virtio.py:386-393 | every queue, as the other results see it, back to its power-on set-up and counters; memory, disks, ISR and line stay |
| `VirtioScsi.VirtioScsiBar0.SetQueueLen` | iodev_virtio.py:161-167 | a length is capped at the queue's maximum; a selector out of range does nothing |
| `VirtioScsi.VirtioScsiBar0.SetQueueEnable` | iodev_virtio.py:177-183 | the selected queue only; a selector out of range does nothing |
| `VirtioScsi.VirtioScsiBar0.SetQueueDescriptorArea` | iodev_virtio.py:193-199 | the selected queue's descriptor area only |
| `VirtioScsi.VirtioScsiBar0.SetQueueDriverArea` | iodev_virtio.py:209-215 | the selected queue's driver area only |
| `VirtioScsi.VirtioScsiBar0.SetQueueDeviceArea` | iodev_virtio.py:225-231 | the selected queue's device area only |
| `VirtioScsi.VirtioScsiBar0.UpdateIntr` | iodev_virtio.py:244-245 | the line is up exactly when the ISR is not zero |
| `VirtioScsi.VirtioScsiBar0.AssertQueueIntr` | iodev_virtio.py:240-242 | sets the queue bit and raises the line |
| `VirtioScsi.VirtioScsiBar0.ReadIsr` | iodev_virtio.py:233-238 | returns the ISR, clears it and lowers the line |
| `VirtioScsi.VirtioScsiBar0.OnNotify` | iodev_virtio.py:247-251 | whatever the guest put into memory: drains the queue it names, or raises, or never returns (`Stuck`), exactly as the notification function says, and of the other queues changes only what all queues share; nothing for a number out of range |
| `VirtioScsi.VirtioScsiBar0.SyncProcessAvail` | iodev_virtio.py:262-279 | one notification is the notification function on the whole state, exceptions and endless chains included; the counter is saved only if every head went through |
| `VirtioScsi.VirtioScsiBar0.DrainRing` | iodev_virtio.py:273-277 | the loop over the snapshot, which ends by the distance of the indices modulo 65536 |
| `VirtioScsi.VirtioScsiBar0.SyncProcessDescriptor` | iodev_virtio.py:281-319 | one head: dropped, raised, never left, or served and completed |
| `VirtioScsi.WalkChain` | iodev_virtio.py:285-313 | the loop computes the walk of every chain; a chain it has not left after one turn more than there are descriptors is never left |
| `VirtioScsi.VisitDescriptor` | iodev_virtio.py:290-305 | one descriptor: index check, read, indirect flag, resolution, with their error paths |
| `VirtioScsi.SyncProcessBuffers` | iodev_virtio.py:339-384 | runs the request and writes its response; memory, disks and bytes written as the serving function says; raises only for a bad request, and then nothing changed |
| `VirtioScsi.ReadRequest` | iodev_virtio.py:340-348 | the header and CDB come from one read; a short or refused request raises |
| `VirtioScsi.WriteReply` | iodev_virtio.py:362-384 | header, padded sense and data in pieces of 8192 bytes are one flat write of the response, cut to the room there is |
| `VirtioScsi.VirtioScsiBar0.SyncProcessUsed` | iodev_virtio.py:321-336 | entry, then index, then counter and interrupt |
| `VirtioScsi.WriteUsed` | iodev_virtio.py:326-327 | guest memory after the two writes to the used ring |
| `VirtioScsi.ScsiSubsystem.ExecuteCommand` | scsi.py:604-610 | routes by LUN; only that unit changes; an unknown LUN is a check condition |
| `TableProofs.DescriptorRoundTrip` | iodev_virtio.py:299 | the device decodes a descriptor the driver encodes |
| `DriverView.AvailReads` | iodev_virtio.py:271-275 | the device finds the driver's index, and in slot i modulo the length the driver's entry |
| `DriverView.PublishedRingHolds` | iodev_virtio.py:271-277 | a driver that keeps head n in slot n modulo a length dividing 65536 gives the device a ring it can follow through any number of index wraps |
| `QueueProofs.EntryReads` | iodev_virtio.py:326 | the driver finds head and written length in a used entry |
| `DriverView.RequestAcceptedIff` | iodev_virtio.py:340-348 | an encoded request is accepted if and only if it lies in one extent with attribute and priority in range, and then LUN and CDB are the driver's |
| `DriverView.CdbReads` | scsi.py:392 | the block address and count of an encoded ten-byte command |
| `DriverView.PreparedIsRequest` | iodev_virtio.py:281-348 | a chain in the driver's descriptor table, with the request first, is walked and taken as it meant it: readable and writable buffers, LUN and CDB |
| `DriverView.PreparedCompletes` | iodev_virtio.py:281-336 | the device completes every prepared request, of any command: disks as the command leaves them, the whole reply in the buffers of the table's writable descriptors, one completion for them, and the interrupt |
| `DriverView.NotifyCompletesAll` | iodev_virtio.py:262-336 | a notification on a ring of prepared requests whose writable buffers stay clear of the descriptor table, each other's requests and the rings ends normally and posts exactly their completions, in order, for the buffers in the table, and nothing is dropped |
| `DriverView.DriverReads` | iodev_virtio.py:281-384 | a driver that prepares a READ(10) in its table finds the blocks asked for in its buffers, every field of header and sense area zero, and the length of all of it in the used entry, each as far as there is room; the disk is unchanged |
| `DriverView.DriverWrites` | iodev_virtio.py:281-384 | a driver that prepares a WRITE(10) in its table, each block in one extent, finds exactly the bytes behind its request on the disk, other blocks as before, and the good outcome and its length reported |
| `DriverView.DriverAsksReady` | scsi.py:237-238 | TEST UNIT READY through the queue: every field of the answer zero, no disk changes |
| `DriverView.DriverIsRefused` | scsi.py:190-454 | through the queue, an unknown LUN (0x25), an unknown operation code (0x20) and a bad field (0x24) are answered byte by byte: sense length 18, status 2, response 0, sense data 0x70, key 5 and the code, zeros; no disk changes |
| `DriverView.DriverSeesFailure` | iodev_virtio.py:382-384 | a command that raises is answered with response 7 in a header of zeros and nothing else; of the disks only that of a WRITE may change |
| `DriverView.DriverAsksForSense` | scsi.py:240-251 | REQUEST SENSE brings the unit's remembered sense data into the driver's buffers and clears it |
| `QueueProofs.SinceReset` | iodev_virtio.py:262-336 | over every run since a reset, however it ends, the guest bytes of the used ring account for every completion, entry n at offset 4 + 8 * (n mod length); without an exception the heads handed over are those published, each completed or dropped |
| `QueueProofs.ResetForgets` | iodev_virtio.py:386-393 | a reset in a run leaves the state these results start from, with memory, disks, ISR and line as they were |
| `QueueProofs.RingHeadsArePublished` | iodev_virtio.py:273-277 | the entries between the counter and the index are the heads published and not yet processed, in order, once each, across wraps |
| `QueueProofs.DrainIsPublished` | iodev_virtio.py:262-279 | a notification ends normally if and only if the heads processed are exactly the published ones and the counter is their number modulo 65536; otherwise they are a first part and the counter has not moved |
| `QueueProofs.UnusableRing` | iodev_virtio.py:262-279 | a notification on an available ring that is not mapped takes nothing, on one that cannot be copied raises, and on a queue of length 0 raises unless the index is where the counter is |
| `QueueProofs.RunProcessesPublished` | iodev_virtio.py:262-279 | over every run without an exception, the heads handed over are exactly the driver's published sequence at the last notification |
| `QueueProofs.RunHistory` | iodev_virtio.py:281-319 | over every run of any guest, resets and reprogramming included, every head handed over is completed or dropped, except one at which the run ends by an exception or never ends |
| `QueueProofs.FailedDrainRepeats` | iodev_virtio.py:273-279 | after a drain that raised, whatever happens to memory, disks and areas: the next notification that finds the first entry and the index as they were hands that head over a second time, however it ends |
| `Witnesses.SameHeadAgain` | iodev_virtio.py:273-279 | a memory on which a driver that follows the ring protocol has its head handed over by each of any number of notifications |
| `Witnesses.EndlessChain` | iodev_virtio.py:289-313 | a memory on which a driver that follows the ring protocol publishes a descriptor that names itself: the loop and the notification never end |
| `Witnesses.SplitRequest` | iodev_virtio.py:340-343 | a complete request over two extents is refused |
| `Witnesses.SplitBlock` | scsi.py:428-431 | a WRITE(10) of a block over two extents raises and writes nothing |
| `Witnesses.ReadAcrossSlots` | memmgr.py:168-172 | four bytes over the border of two slots are misread |
| `Witnesses.SlotsCollide` | iodev_virtio.py:275 | with a queue length of 3, indices 65535 and 65536 share a slot |
| `DrainProofs.DrainFailsIff` | iodev_virtio.py:262-319 | a drain raises if and only if, behind some heads that go through, one has a chain that cannot be walked, a request that is refused or a reply too long to report, in the memory it meets |
| `DrainProofs.DrainOkIff` | iodev_virtio.py:262-319 | when writable buffers and used ring stay clear of the descriptor table and the pending requests: a drain ends normally if and only if, in the memory at the notification, every head is dropped as invalid or starts a chain whose request is taken |
| `DrainProofs.DrainIsSequential` | iodev_virtio.py:262-384 | when data and buffers are apart as well: disks, completions and buffer contents after a notification are those of running the requests one after the other on the memory it found |
| `DrainProofs.SoundNotify` | iodev_virtio.py:262-336 | a notification whose ring a driver has checked that way ends normally |
| `DrainProofs.CarefulSinceReset` | iodev_virtio.py:262-336 | exactly once, with nothing about how the device ends assumed: since a reset, for a driver that follows the protocol and checks each notification, every event ends normally, the heads handed over are those published, each is completed or dropped, and the used ring accounts for every completion |
| `SequentialProofs.SequentialIsRunUnit` | iodev_virtio.py:339-363 | running the requests of some heads in order leaves each unit as running its own commands in order |
| `SequentialProofs.NotifyActsOnArray` | iodev_virtio.py:262-384 | a notification whose chains, data and rings are apart does to a disk what its commands for that disk do, in order, to a plain array of blocks |
| `SequentialProofs.ReadSeesArray` | iodev_virtio.py:339-384 | the reply to a READ among them is what the array holds after the commands in front of it |
| `SequentialProofs.RunIsReplay` | iodev_virtio.py:262-384 | over a whole run, the disks and the completions are those of running all published requests in order |
| `DeviceRuns.OtherQueueIsElsewhere` | iodev_virtio.py:247-279 | a notification on one queue is, for another, something that happens elsewhere and may raise the interrupt |
| `DeviceRuns.OtherQueueIsAllowed` | iodev_virtio.py:262-336 | with rings and buffers apart, it follows the other queue's protocol |
| `DeviceRuns.RunProjects` | iodev_virtio.py:247-393 | a run of the device with all its queues is, for each queue, a run of that queue |
| `DeviceRuns.EveryQueue` | iodev_virtio.py:233-319 | for any guest using all queues: heads are completed or dropped in each, and the shared ISR and line show whether any queue posted since the last read |
| `DeviceRuns.EveryQueueSinceReset` | iodev_virtio.py:262-336 | exactly once and a used ring that accounts for every completion on every queue of the device together, for a driver careful on all of them |
| `QueueProofs.RingSlotsDifferIff` | iodev_virtio.py:275 | consecutive entries, as many as the queue is long, get different slots across wraps if and only if the length divides 65536 |
| `QueueProofs.PostKeepsRing` | iodev_virtio.py:321-335 | posting keeps the used ring's accounting in guest memory: index field at offset 2, and each of the last completions as (head, written) at offset 4 + 8 * (n mod length) |
| `QueueProofs.RunKeepsUsedRing` | iodev_virtio.py:281-335 | over every run whose replies stay clear of the ring, and however it ends, stored index and index field are the number of completions modulo 65536, and the bytes at 4 + 8 * (n mod length) are head and written length of each of the last completions |
| `QueueProofs.IsrIffPosted` | iodev_virtio.py:233-245 | over every run of any guest, resets, reprogramming, exceptions and endless chains included, an ISR read gives 1 if and only if a completion was posted since the read before, and the line is up exactly then |
| `RequestProofs.ResponseLayout` | iodev_virtio.py:362-384 | the response read by its layout: sense length, zero residual, status, response code, padded sense, data; TARGET_FAILURE alone if the command raised |
| `RequestProofs.ResponseScattered` | iodev_virtio.py:315-319 | the writable buffers receive the first min(capacity, response length) bytes of the response in chain order, that number is reported, and no other byte changes |
| `RequestProofs.PostKeepsBuffers` | iodev_virtio.py:321-327 | posting does not touch a buffer that stays clear of the used ring |
| `RequestProofs.ReadCopiesImage` | scsi.py:388-398 | after a READ request for any range completed, the chain's buffers hold what the image has there behind header and sense, and the disk is unchanged |
| `RequestProofs.ReadReachesGuest` | scsi.py:388-398 | of a disk that holds blocks, these are the blocks asked for |
| `RequestProofs.WriteReachesDisk` | scsi.py:421-433 | a WRITE request whose data fits block by block leaves exactly its blocks on the disk |
| `RequestProofs.DiskRoundTrip` | iodev_virtio.py:281-384 | what one request wrote, a later one for any part of it reads back into guest memory, whatever changed in between apart from the image bytes it reads |
| `Registers.BuildOffsetMap` | iodev.py:91-97 | the offset map has every byte of every register, a later one winning |
| `Registers.OnlyCover` | iodev.py:94-97 | without overlap, the map has the register that covers the offset |
| `Registers.SplitWidth` | iodev.py:124-126 | the halving loop gives the first of width, width / 2, ... that fits what is left of the register |
| `Registers.RegisterDevice.Read` | iodev.py:109-135 | the read loop on any access and any registers, errors included |
| `Registers.RegisterDevice.Write` | iodev.py:146-178 | the write loop on any access and any registers, errors and partial effects included |
| `Registers.RegisterDevice.WriteRegister` | iodev.py:297-320 | read-modify-write of one register through its setter |
| `RegisterProofs.MergedLanes` | iodev.py:304-312 | a partial write takes the written bytes and keeps the register's other bytes |
| `RegisterProofs.ReadIsSplitBytes` | iodev.py:109-135 | a read of any alignment is the little-endian number of the bytes up to where its split ends, or raises at an offset without a register |
| `RegisterProofs.ReadIsBytes` | iodev.py:109-135 | an aligned read over naturally aligned registers of any widths is the little-endian number of the bytes it covers |
| `RegisterProofs.ByteReadIsByte` | iodev.py:180-181 | each of those bytes is what a byte read there returns |
| `RegisterProofs.ReadExactIff` | iodev.py:109-135 | a read over populated offsets is exact for all contents the registers can have if and only if its split ends with its last byte or runs over only into bytes that always show zero |
| `RegisterProofs.AlignedSplit` | iodev.py:124-133 | for aligned accesses it does |
| `RegisterProofs.WriteIsSplitBytes` | iodev.py:146-178 | a write of any alignment over any registers: of those that store, exactly the bytes up to where its split ends change; registers and BAR handlers it does not reach stay; when it raises |
| `RegisterProofs.WriteIsBytes` | iodev.py:146-178 | an aligned write changes exactly the bytes it covers that belong to writable registers, and raises if and only if there is none |
| `RegisterProofs.WriteExactIff` | iodev.py:146-178 | of the registers that store, a write touches only the bytes asked for, for all contents and values, if and only if its split runs over into none that can be written |
| `RegisterProofs.RegisterKeptIff` | iodev.py:146-178 | a write of any alignment leaves a register of any kind, BARs and registers with getters included, as it was for all contents and values, if and only if its split does not reach it or it cannot change |
| `Witnesses.RomOverwritten` | iodev_pci.py:150-151 | a 32-bit write at 0x2E clears the half of the expansion ROM register it does not mean |
| `Witnesses.BarOverwritten` | iodev_pci.py:140-142 | a 32-bit write at 0x0E replaces all of BAR 0, of which it covers half, and moves its handler |
| `DeviceLayouts.QueueAreaRunsOver` | iodev_virtio.py:94-96 | a 32-bit read at 0x1E of the BAR gives 65536 times the low half of the descriptor area plus the notification offset, which need not fit 32 bits |
| `DeviceLayouts.ConfigLayout` | iodev_pci.py:130-159 | the configuration header is naturally aligned, without overlap and without gaps up to 0x40 |
| `DeviceLayouts.ConfigWritable` | iodev_pci.py:130-159 | the registers of the header a guest can write are command, cache line size, the BARs, expansion ROM and interrupt line |
| `DeviceLayouts.ConfigDwords` | iodev_pci.py:130-159 | each of its dwords is one the results about ports and window apply to |
| `DeviceLayouts.Bar0Layout` | iodev_virtio.py:80-111 | the registers of the virtio-scsi BAR are naturally aligned and without overlap |
| `DeviceLayouts.Bar0Writable` | iodev_virtio.py:80-111 | which of them a guest can write |
| `Pci.PciSubsystem.Insert` | iodev_pci.py:78-86 | the function is found under its number, others as before |
| `Pci.PciSubsystem.CfgRead` | iodev_pci.py:94-99 | a 32-bit read of the function's registers; all ones for one that is absent; raises for a number that is no BDF |
| `Pci.PciSubsystem.CfgWrite` | iodev_pci.py:101-106 | a 32-bit write to the function's registers; nothing for one that is absent |
| `Pci.PciIoCfgDev.ReadData` | iodev_pci.py:249-254 | a read at the data port is that part of the selected configuration read |
| `Pci.PciIoCfgDev.Write` | iodev_pci.py:239-261 | a write of any width and alignment at either port or across both, the address part taking effect before the data part behind it; all functions' registers afterwards, and whether it raised (what that means in bytes: `PortProofs`) |
| `Pci.DataPortIsOneTurn` | iodev_pci.py:256-261 | inside the data port it is one configuration write |
| `Pci.PciMmioCfgDev.Read` | iodev_pci.py:272-311 | reads through the window, all ones of the width for an absent function |
| `Pci.PciMmioCfgDev.Write` | iodev_pci.py:285-318 | writes through the window |
| `PciProofs.BdfRoundTrip` | iodev_pci.py:29-55 | packing and unpacking a BDF are inverse, on every triple in range and every 16-bit number |
| `PciProofs.SelectedByAddress` | iodev_pci.py:251-253 | the address port selects the function and register put into it, behind the enable bit |
| `PciProofs.SelectedByNumber` | iodev_pci.py:251-253 | whatever is in the address port, bits 8 to 30 select the function and bits 0 to 7 the register |
| `PortProofs.AddressPortWrite` | iodev_pci.py:243 | a write inside the address port changes exactly the bytes it covers and nothing else; a 32-bit one leaves the number written |
| `PortProofs.SelectThenRead` | iodev_pci.py:249-254 | writing 0x80000000 + 256 * bdf + reg and reading the data port is a 32-bit read of that register of that function; all ones if it is absent |
| `PortProofs.SelectThenWrite` | iodev_pci.py:256-261 | and writing the data port is a 32-bit write to it; no other function changes |
| `PortProofs.PartOfRegister` | iodev_pci.py:256-261 | a partial write of the data port is a 32-bit write of what was read with the new bytes put in, and raises if the read does |
| `PortProofs.OnePiece` | iodev.py:146-178 | a write of any width and alignment at the ports goes on piece by piece, each the largest half that stays inside its port, with the bytes behind it; it raises behind the ports |
| `PortProofs.BothPortsInOne` | iodev_pci.py:239-261 | a 64-bit write at 0xCF8 selects with its low half and writes its high half there |
| `PortProofs.NoSuchNumber` | iodev_pci.py:94-106 | a number above 65535 in the address port: reads and partial writes of the data port raise, a whole write is lost |
| `PciProofs.PortsAgreeWithWindow` | iodev_pci.py:249-311 | aligned 8, 16 and 32-bit reads through the ports and through the window agree, and give all ones for an absent function |
| `PciProofs.PortBarWrite` | iodev_pci.py:164-181 | a write of a base address register of any kind, whole or partial, through the port leaves the whole device as writing it directly |
| `PciProofs.PortWriteSame` | iodev_pci.py:256-261 | a partial write through the port of a populated register, plain or a base address register, leaves the bytes that writing the part alone leaves; when each raises |
| `PciProofs.PortWritesAsWindow` | iodev_pci.py:256-318 | the same between the ports and the window |
| `PciProofs.BarIsRounded` | iodev_pci.py:173-181 | a memory BAR of length 2^k takes the value rounded down to a multiple of it, and the handler moves there |
| `PciProofs.OtherBars` | iodev_pci.py:171-181 | an I/O BAR takes a multiple of 4 as base and shows it with bit 0 set; a memory BAR of no length stays 0 |
| `PciProofs.BarWrite` | iodev_pci.py:164-225 | any aligned write, whole or partial: bytes merged, result rounded down, handler moved, nothing else changed |
| `PciProofs.BarSizing` | iodev_pci.py:164-181 | after all ones were written, a read returns 2^32 minus the length |
| `PciProofs.AbsentBarStays` | iodev_pci.py:164-167 | no access of any size or alignment changes an absent BAR |
| `PciProofs.BarStaysInPlace` | iodev_pci.py:164-225 | every access keeps a memory BAR a multiple of its length with its handler at that base |
| `ScanCodes.UpIsDownWithPrefix` | iodev_pc.py:144-226 | for every key the break code is the make code with 0xF0 before its last byte, which is itself never 0xF0 |
| `Ps2.PS2Keyboard.Read` | iodev_pc.py:249-255 | the first byte queued, or nothing |
| `Ps2.PS2Keyboard.Reset` | iodev_pc.py:235-244 | defaults, the acknowledgement if asked for, and a notification |
| `Ps2.PS2Keyboard.KeyEvent` | iodev_pc.py:298-340 | queues the key's code, all of it, and updates the line; nothing for an unknown key or scancode set |
| `Ps2.PS2Keyboard.Write` | iodev_pc.py:257-293 | commands and their argument bytes (what they mean to a guest: `Ps2Commands`) |
| `Ps2.PS2Io.ReadData` | iodev_pc.py:397-426 | a read at the data port: responses first, then a keyboard byte, a break prefix together with the byte behind it |
| `Ps2.PS2Io.WriteData` | iodev_pc.py:428-440 | a byte for the configuration RAM or the keyboard |
| `Ps2.PS2Io.ReadStatus` | iodev_pc.py:443-453 | the status flags |
| `Ps2.PS2Io.Command` | iodev_pc.py:456-495 | controller commands, pulses included |
| `Ps2.PS2Io.PulseLines` | iodev_pc.py:479-492 | the loop over the output lines asks for a reset when line 0 is pulsed |
| `Ps2Proofs.ResetsExactlyByPulse` | iodev_pc.py:456-495 | the system is reset by the even commands from 0xF0 on and by nothing else |
| `Ps2.PS2Io.UpdateIntrLine` | iodev_pc.py:518-524 | the line shows whether interrupts are enabled and a byte is pending |
| `Ps2Proofs.RunPaired` | iodev_pc.py:235-344 | in every reachable state each 0xF0 in the keyboard's queue has a byte other than 0xF0 behind it |
| `Ps2Proofs.NoAccessRaises` | iodev_pc.py:397-422 | from power-on, whatever the guest and the keys do, the data port's assertion holds |
| `Ps2Proofs.StreamIsPerKey` | iodev_pc.py:397-422 | for any interleaving of key events and reads, bytes read followed by the translated queue are the keys translated event by event |
| `KeyProofs.KnownKeys` | iodev_pc.py:144-226 | the two tables together: a USB key has a code if and only if the independent set 1 table has it, and it translates to that |
| `KeyProofs.KeysReadAsSet1` | iodev_pc.py:397-422 | for every key, what the guest reads when it goes down or comes up is its set 1 code, written down independently, plus 0x80 when it comes up, 0xE0 in front where it belongs |
| `KeyProofs.ReadsAreSet1` | iodev_pc.py:397-422 | for any interleaving of keys and reads that leaves nothing queued, the bytes read are those codes, event by event |
| `KeyProofs.UpIsDownWithHighBit` | iodev_pc.py:413-419 | for every key the last byte read on its coming up is, as a number, 128 more than the one read on its going down, which is below 128; an 0xE0 in front stays |
| `Ps2Commands.SelectsSet` | iodev_pc.py:266-322 | 0xF0 and a number select a scan code set, 2 for a number out of range, each byte acknowledged with 0xFA |
| `Ps2Commands.PlainCommands` | iodev_pc.py:257-277 | the commands without argument, and that every other byte is ignored |
| `Ps2Commands.SetsLeds` | iodev_pc.py:259-291 | 0xED and a byte set the LEDs, each acknowledged |
| `Ps2Commands.SetsRepeat` | iodev_pc.py:269-286 | 0xF3 and a byte are acknowledged and change nothing |
| `Ps2Commands.OtherSetsAreSilent` | iodev_pc.py:298-334 | while another set than 2 is selected, a key changes nothing |
| `Ps2Commands.RawBytes` | iodev_pc.py:497-499 | without translation a read returns what the keyboard queued |
| `Ps2Commands.SelfTests` | iodev_pc.py:473-478 | the self tests answer 0x55, 0x00 and 0x06, in front of what the keyboard has queued |
| `Ps2Commands.ReadsInOrder` | iodev_pc.py:397-426 | responses are read in the order queued and before keyboard bytes; an empty read returns 0; a read while a byte is expected ends that and returns 0 |
| `Ps2Commands.PortSwitches` | iodev_pc.py:465-472 | each port is switched by its bit of the configuration byte; every other bit stays |
| `Ps2Commands.OtherCommands` | iodev_pc.py:456-495 | a command the controller does not know changes nothing, one from 0xF0 on only what `ResetsExactlyByPulse` says |
| `Ps2Commands.BringUp` | iodev_pc.py:234-524 | from power-on, where keys send nothing, seven accesses lead to a keyboard whose keys are read in set 1; the reads among them return 0xAA, 0xFA, 0xFA |
| `Ps2Proofs.LineNeverSpurious` | iodev_pc.py:518-524 | in every reachable state the line is up only while interrupts are enabled and a byte is pending |
| `Ps2Proofs.LineExactIff` | iodev_pc.py:456-524 | each event keeps the line exact if and only if it is not a controller response queued while nothing is pending and interrupts are enabled |
| `Witnesses.LineStaysDown` | iodev_pc.py:473-474 | from power-on, four accesses after which interrupts are enabled, a byte is pending and the line is down |
| `Ps2Proofs.StatusBits` | iodev_pc.py:443-453 | each status bit is set if and only if what it stands for holds, and no other bit ever is |
| `Ps2Proofs.ConfigRoundTrip` | iodev_pc.py:428-464 | a byte written to the configuration RAM comes back through the response queue; the rest of the RAM is unchanged |

## Left out

- Threads: each port access, notification and key event is one atomic step; the lock in `PciRamBar` and key events that arrive in the middle of an access are not modelled.
- `kvm.py`, `kvmo.py`, `kvmapi.py`, `vmm.py`, `cpuid.py`, `x86.py`: ioctls, mmap and machine code. `mapNew` is `MapExisting` with an address from outside; `setUserMemoryRegion` and `munmap` have no effect in the model.
- `MemMgr.MemoryManager.MapExisting`: takes host ranges inside the array that stands for host memory; the `ro` flag is stored and, as in the source, ignored by `write`.
- INQUIRY, READ CAPACITY, READ TOC and GET CONFIGURATION: fixed encoders, a function from CDB and data-in room to a result; that READ CAPACITY reports the number of blocks and not the last one is not judged.
- Image files: reads and writes on a byte sequence that never fail; `Scsi.ImageFile` is not shared between units.
- The results about drivers that follow the ring protocol keep the queues set up as they are and their used rings to the device.
- The interrupt line number is fixed; changing `intrLine` while the line is up is not modelled.
- `VirtioScsi.WalkChain`: has a bound on its turns where the source has none, and returns `Endless` where the source never returns; the bound is proved to be reached on exactly those chains.
- Feature bits, MSI-X vector and the getters of the queue registers: `comDrvFeat`'s getter uses a variable before it is set, and the area getters return None for a selector out of range.
- `Registers.RegisterDevice.Read`: getters that are constants and plain values only; `afterSet`, `onUnknownRead`, `onUnknownWrite` and registers with `noOffset` are not modelled.
- `Registers.RegisterDevice.Write`: setters are storing and `_setBar`; writing a device whose setters have other effects is not modelled.
- `Pci.PciIoCfgDev.ReadData`: reads inside the data port; reads of the address port or across both ports are left to the register engine.
- `AddressSpace.resolve`: a first-match lookup like `ResolveSlot`, without anything new to prove.
- `PciRamBar.onBarUpdate` and `io` BAR handlers behind `_setBar`: the base they are given is modelled, not what they do with it.
- `Ps2.PS2Io.UpdateIntrLine`: the line goes down and up again on every update in the source; the model has its level afterwards.
- Port 0x61 of the PS/2 controller, the serial ports, RTC, ACPI, TPM, flash and framebuffer; what the system reset function does.
