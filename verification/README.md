# A verified model of bhyve's device emulation

bhyve emulates PCI devices for its guests. Most of that code is queues, rings, lists and
level-triggered lines that several threads change under locks, and most of its correctness arguments
are about what every interleaving keeps, or about a fast form of an operation doing the same as a
simple one. This project models the hardest of those parts and proves them. It checks with
`dafny verify dfyconfig.toml`.

| file | models |
|---|---|
| `seqs.dfy`, `arith.dfy`, `iovs.dfy` | sequence, sum and division facts, and scatter/gather lists |
| `blockif.dfy`, `block_runs.dfy` | the block request scheduler: its three queues, and submitters, cancellers and eight workers interleaving at the boundaries of its mutex |
| `bounce.dfy` | requests with several buffers moved through a bounce buffer, a chunk at a time |
| `ahci_transfer.dfy` | one AHCI command split into several block requests |
| `ahci_slots.dfy`, `ahci_scan.dfy`, `ahci_port.dfy` | a port's 32 command slots on top of the scheduler, and the scan that issues them |
| `e1000_checksum.dfy`, `e1000_tso.dfy` | e1000 transmit checksums and TCP segmentation |
| `intx.dfy` | INTx lines, shared PIRQ pins, ISA and IOAPIC asserts |
| `mmio.dfy` | the MMIO trees and the lookup cache of each virtual CPU |
| `pci_caps.dfy` | the capability list in configuration space and guest writes to it |
| `pci_bar.dfy`, `pci_bar_runs.dfy`, `pci_bar_device.dfy`, `pci_bar_mmio.dfy` | base address registers, their allocation from shared windows, and the registries that decode them |
| `nvme_prp.dfy`, `nvme_queue.dfy`, `nvme_io.dfy` | NVMe physical region pages, completion rings, and the life of an I/O command |
| `netmap.dfy` | cutting a packet into netmap slots and putting it together again |
| `fwctl.dfy` | the firmware request/response ports |

## How to read it

Each component has a specification: functions on values, invariants, and lemmas about whole runs.
Where the C code changes state in place there is also a class whose methods do the same steps and are
proved to produce exactly what the specification function says; the lemmas about that function are then
facts about the methods. Concurrency is modelled by atomic steps: a run is a sequence of states and
actions in which every step is allowed by the code between two points where a lock is taken or released.
An assertion of the C code that the modelled inputs can fail is a result (`None`, `Failed`, `Aborted`), and
a lemma or contract says exactly when it does. An assertion that only repeats what the callers guarantee is a
precondition: `blockif_enqueue` is called with a free element, and `netmap_recv` with a buffer.

Some claims about this code that look plausible are false. For those the model keeps the code's behaviour
and a lemma gives the exact condition under which the claim holds:

* The bounce-buffer loops take a short transfer of a chunk for a whole one: a read then delivers what was in
  the bounce buffer before, and a write skips the end of the chunk (`Bounce.ReadIsExactly`,
  `Bounce.WriteIsExactly`).
* A guest can overwrite the pointer to the first capability (`PciCaps.ListHeadIsKeptExactly`); everything
  else about the list is out of its reach (`PciCaps.NoGuestBreaksTheList`).
* Read-only bits of an MSI control word survive every write except single-byte ones
  (`PciCaps.MsiReadOnlyIsKeptExactly`), and a single-byte write to the MSI-X control word reaches the
  register but not the device's own state (`PciCaps.MsixMirrorIsKeptExactly`).
* Allocating a base address register sets the decode bit of its address space without registering other
  registers of that space, so an allocation keeps the views in agreement exactly when none was waiting
  (`PciBar.AllocateExactly`); one after the guest cleared the bit does not
  (`PciBarRuns.LateAllocationDisagrees`), and while functions initialise none ever waits
  (`PciBarRuns.AllocKeeps`).
* A 64-bit register allocated below 4 GB reads as prefetchable after the guest writes it back
  (`PciBar.WriteBackKeepsAddress`).
* Without FIS receive, or with a command header that is not a host-to-device FIS, the scan of the command
  slots may never end; `AhciScan.ScanEndsExactly` says when it does, and `AhciScan.OneBadHeaderNeverEnds`
  gives a port on which it does not.
* The assertion in `ahci_build_iov` that a pass makes progress fails exactly when its vector fills up, that is
  the 128th descriptor from the pass's start on begins before the length is reached, with less than a sector
  (`AhciTransfer.BuildIov`), as it does for a table of one-byte descriptors
  (`AhciTransfer.OneByteDescriptorsAbort`).
* The 32-bit checksum accumulator is exact up to 131074 bytes and not beyond
  (`E1000Checksum.AccumulatorIsExactUpTo`), so a checksum over fragments is that of the flat range exactly as
  long as no covered part of a fragment is longer (`E1000Checksum.FragmentsExactUpTo`). A data descriptor can
  name 1048575 bytes.
* A read or write command is not always turned into a request: it is exactly when the links of its page list
  are aligned, no entry is zero and at most 512 vectors are needed (`NvmePrp.BuildRequest`).

## Conventions

Guest memory is a sequence of bytes, a function from addresses to words, or the list of addresses that a
scatter/gather list names. Element, request and node addresses are indices or identifiers. The time at
which another thread runs, the answers of the kernel, of the host's files and of the network, and the
contents of guest memory are parameters. Registers of at most a byte or two are integers whose fields are
written with division and remainder; register values wider than a byte are little-endian byte sequences
in `pci_caps.dfy` and integers elsewhere. The register constants of `dev/pci/pcireg.h`, which is not part
of this model, are those of PCI Local Bus 3.0; in particular the base mask of a memory register is taken to
be 64 bits wide.

## Model

| member | source | states |
|---|---|---|
| BlockIf.EnqueuePartitions | bios/bhyve/block_if.c:135-177 | queueing a request keeps every element on exactly the queue its status names, each once |
| BlockIf.EnqueueKeepsInv | bios/bhyve/block_if.c:135-177 | and every held request still has an element ahead of it, or in flight, that ends where it starts |
| BlockIf.DequeueKeepsInv | bios/bhyve/block_if.c:179-197 | handing the first runnable request to a worker keeps both, though it may be taken from the middle of the queue |
| BlockIf.CompleteKeepsInv | bios/bhyve/block_if.c:199-216 | completing or cancelling an element releases every request it was the cause of, so no held request loses its last cause |
| BlockIf.HeadIsRunnable | bios/bhyve/block_if.c:135-216 | the scheduler never sticks: with nothing in flight the head of the queue is runnable |
| BlockIf.QueuesConserveElements | bios/bhyve/block_if.c:600-608 | the three queues hold all 136 elements between them, each exactly once |
| BlockIf.Ctxt.Enqueue | bios/bhyve/block_if.c:135-177 | the in-place search and insertion produce the specified queues, and the result says whether a worker may start the request |
| BlockIf.Ctxt.Dequeue | bios/bhyve/block_if.c:179-197 | the in-place search returns the first runnable element and produces the specified queues |
| BlockIf.Ctxt.Complete | bios/bhyve/block_if.c:199-216 | retiring an element and releasing its dependants in place produce the specified queues |
| BlockRuns.StepKeepsInv | bios/bhyve/block_if.c:347-393 | every atomic step of submitters, cancellers and workers keeps the partition, the causes, the ownership of in-flight elements, the worker count, and some worker up while anything is queued |
| BlockRuns.EveryRunKeepsInv | bios/bhyve/block_if.c:347-393 | all of that holds in every state of every interleaving from an opened context |
| BlockRuns.NoLostWakeup | bios/bhyve/block_if.c:622-650 | while a request is queued, runnable or held, some worker is running or already signalled, although held requests and cancellations send no signal |
| BlockRuns.HeldUntilReleased | bios/bhyve/block_if.c:199-216 | a held request becomes runnable only in a step that frees an element ending at its start, or frees itself |
| BlockRuns.WorkersDrainTheQueues | bios/bhyve/block_if.c:347-393 | left alone the workers take boundedly many steps, and stop only with all 136 elements free |
| BlockRuns.CancelKeeps | bios/bhyve/block_if.c:697-760 | a cancellation, which completes a pending element or leaves one in flight to its worker, keeps the invariant |
| Bounce.ScatterFlattens | bios/bhyve/block_if.c:243-251 | a vectored read overwrites the front of the flattened buffers and keeps their lengths |
| Bounce.FlattenIsInjective | bios/bhyve/block_if.c:252-277 | buffers of given lengths are determined by their flattened contents, so equal bytes mean equal buffers |
| Bounce.CursorInside | bios/bhyve/block_if.c:264-275 | while bytes are missing the copy loop's index is inside the buffer list |
| Bounce.CopyOut | bios/bhyve/block_if.c:263-275 | the inner loop scatters one chunk over the buffers from the cursor on, whatever their lengths, empty ones included |
| Bounce.CopyIn | bios/bhyve/block_if.c:295-309 | the inner loop gathers the next bytes of the buffers into the bounce buffer |
| Bounce.Read | bios/bhyve/block_if.c:252-277 | for every buffer list, chunk size and sequence of kernel answers the buffers end up as a vectored read of the delivered bytes would leave them, and the residue counts the chunks before the first failure |
| Bounce.ReadIsExactly | bios/bhyve/block_if.c:256-260 | the delivered bytes are the file's, whatever it and the bounce buffer hold, if and only if no chunk was answered short |
| Bounce.Write | bios/bhyve/block_if.c:292-317 | likewise the file ends up as writing each chunk's answered front would leave it |
| Bounce.WriteIsExactly | bios/bhyve/block_if.c:311-316 | the file then holds the buffers' bytes, whatever they are, if and only if no chunk was answered short |
| Bounce.MovedIsChunks | bios/bhyve/block_if.c:254-276 | the bytes counted as moved are the whole chunks before the first failing one, or all |
| AhciTransfer.BuildIov | bios/bhyve/pci_ahci.c:634-685 | a pass covers the table's bytes from the ones already done up to an end that the table determines, says exactly whether another pass follows, and fails its assertion exactly when the vector fills up with less than a sector |
| AhciTransfer.Transfer | bios/bhyve/pci_ahci.c:687-770 | for any table the passes move its front, in order, at consecutive disk offsets with at most 128 vectors each; the command aborts exactly when a pass that is reached is stuck; a table that holds the command's length moves all of it in whole sectors |
| AhciTransfer.NextPass | bios/bhyve/pci_ahci.c:1948-1960 | issuing a pass extends the transfer by exactly its bytes, up to the boundary the table determines |
| AhciTransfer.PassIsWholeSectors | bios/bhyve/pci_ahci.c:667-685 | in a table that holds the whole command a pass that is not stuck is whole sectors, and `more` is set exactly while bytes are left |
| AhciTransfer.OneByteDescriptorsAbort | bios/bhyve/pci_ahci.c:667-671 | 128 one-byte descriptors at the front of a table abort a transfer of any length |
| AhciTransfer.Trim | bios/bhyve/pci_ahci.c:667-679 | rounding down drops exactly the last bytes of the vector, however many entries they span |
| AhciSlots.PendingMeansOneRequest | bios/bhyve/pci_ahci.c:750-758 | a slot is marked in flight exactly when one busy request, and only one, serves it |
| AhciSlots.TakeFillsHole | bios/bhyve/pci_ahci.c:741-758 | taking a free request for a slot nothing serves keeps the accounts |
| AhciSlots.RetireLeavesHole | bios/bhyve/pci_ahci.c:1935-1945 | moving a finished request back leaves exactly its slot without one |
| AhciSlots.FreeListSuffices | bios/bhyve/pci_ahci.c:741-743 | at most 32 requests are busy and the two lists hold all 135, so the free list is never empty |
| AhciSlots.IssueKeeps | bios/bhyve/pci_ahci.c:741-770 | submitting a request makes exactly one more scheduler element live and links it to the request |
| AhciSlots.CalledIsBusy | bios/bhyve/pci_ahci.c:1909-1945 | the request a callback reports is on the busy list, and retiring it keeps the correspondence |
| AhciSlots.CancelKeepsFull | bios/bhyve/pci_ahci.c:507-551 | a successful cancellation takes the request off both sides, an unsuccessful one changes neither |
| AhciSlots.MoveKeepsInv | bios/bhyve/pci_ahci.c:687-919 | every step of guest, callbacks and workers keeps slots, requests and elements in one-to-one correspondence, and none of the assertions on the way fails |
| AhciSlots.EveryRunIsAccounted | bios/bhyve/pci_ahci.c:1909-1981 | so in every state of every run |
| AhciSlots.AssertionsHold | bios/bhyve/block_if.c:631-647 | in every run at least 96 scheduler elements are free, so a submission is never refused |
| AhciSlots.UnseenSameLive | bios/bhyve/block_if.c:347-393 | the workers' own steps change nothing the port can see |
| AhciScan.TurnEffect | bios/bhyve/pci_ahci.c:1891-1902 | a turn of the scan changes whether the current slot is issuable and no other's, and stops the scan exactly for a command that leaves the device busy or reports an error |
| AhciScan.TurnProgress | bios/bhyve/pci_ahci.c:1881-1903 | each turn halts the scan, or lowers the number of issuable slots, or the circular distance to the next one that gets settled |
| AhciScan.ScanEndsExactly | bios/bhyve/pci_ahci.c:1881-1903 | the scan ends if and only if it has nothing to do, or meets a command that stops it, or has no issued slot that handling leaves issued |
| AhciScan.ReceivingPortsEnd | bios/bhyve/pci_ahci.c:345-384 | with FIS receive on and host-to-device FISes it always ends |
| AhciScan.OneBadHeaderNeverEnds | bios/bhyve/pci_ahci.c:1881-1903 | a started port with one issued slot that holds no host-to-device FIS is scanned for ever |
| AhciScan.ScanSlots | bios/bhyve/pci_ahci.c:1891-1902 | the loop ends with no issuable slot, or a busy device, or an error to clear, after some number of turns |
| AhciPort.Device.HandlePort | bios/bhyve/pci_ahci.c:1881-1903 | a started port is left halted with its accounts kept, a stopped one is untouched |
| AhciPort.Device.Stop | bios/bhyve/pci_ahci.c:507-551 | stopping keeps exactly the requests that could not be cancelled, in order; a cancelled slot loses its in-flight bit and the issued or active bit its kind of command names, every other bit stays; with nothing left in flight a stopped port forgets the command list |
| AhciPort.Device.RequestOver | bios/bhyve/pci_ahci.c:1962-1975 | the end of a request frees it and its slot's mark, clears the issued or active bit if there was no error, and sets the error and wait bits if there was |
| E1000Checksum.Carry | bios/bhyve/pci_e82545.c:961-969 | one end-around carry turns a 32-bit sum into its ones' complement representative |
| E1000Checksum.BufChecksum | bios/bhyve/pci_e82545.c:971-990 | a flat buffer gives the folded sum of its 16-bit words in a wrapping accumulator |
| E1000Checksum.AccumulatorIsExactUpTo | bios/bhyve/pci_e82545.c:971-990 | the accumulator is exact on all buffers of a length if and only if that length is at most 131074 |
| E1000Checksum.PieceContribution | bios/bhyve/pci_e82545.c:1008-1014 | a piece that starts at an odd position contributes its sum shifted by a byte |
| E1000Checksum.IovChecksum | bios/bhyve/pci_e82545.c:992-1019 | over any fragmentation, odd and empty pieces included, the result is the carried sum of the covered parts' checksums, and equals the checksum of the flat range if no part is too long |
| E1000Checksum.FragmentsExactUpTo | bios/bhyve/pci_e82545.c:992-1019 | for given piece lengths it equals the flat checksum on all contents if and only if no covered part is longer than 131074 bytes |
| E1000Checksum.StoredChecksumVerifies | bios/bhyve/pci_e82545.c:1037-1048 | storing the complement in a zeroed word at even distance makes the range sum to all ones |
| E1000Checksum.TransmitChecksum | bios/bhyve/pci_e82545.c:1037-1048 | the complement is stored in the first piece, and the transmitted range then re-sums to 0xFFFF |
| E1000Tso.SegmentPayload | bios/bhyve/pci_e82545.c:1351-1433 | the segments carry the payload in order and whole, each but the last of exactly the segment size, with matching header lengths |
| E1000Tso.SegmentCount | bios/bhyve/pci_e82545.c:1351-1433 | there are as many segments as the payload length divided by the segment size, rounded up |
| E1000Tso.NumbersFollow | bios/bhyve/pci_e82545.c:1371-1406 | each sequence number is the previous one plus the previous payload length modulo 2^32, each IPv4 identification one more modulo 2^16 |
| E1000Tso.AnnouncedIsCarried | bios/bhyve/pci_e82545.c:1351-1370 | when the buffers hold the payload, every segment carries what its headers announce |
| Intx.StepKeepsInv | bios/bhyve/pci_emul.c:1553-1598 | asserting, deasserting, updating after a mask change and rerouting keep pin counts, ISA asserts and IOAPIC asserts equal to the asserted devices |
| Intx.PirqWriteConserves | bios/bhyve/pci_irq.c:98-114 | rerouting an active pin moves its ISA assert and nothing else |
| Intx.EveryRunConserves | bios/bhyve/pci_emul.c:1480-1488 | in every run over any number of devices the counts agree, asserted implies permitted, and pending implies not |
| Intx.IsaLineIsTheOrOfItsDevices | bios/bhyve/pci_irq.c:155-195 | an ISA line is raised if and only if some asserted device sits on a pin validly routed to it |
| Intx.QuietWhenAllIdle | bios/bhyve/pci_irq.c:176-195 | nothing leaks: with no device asserted every pin and line is quiet |
| Intx.Router.Assert | bios/bhyve/pci_emul.c:1553-1568 | the in-place assert produces the specified state and keeps the invariant |
| Intx.Router.Deassert | bios/bhyve/pci_emul.c:1570-1583 | the in-place deassert likewise |
| Intx.Router.Update | bios/bhyve/pci_emul.c:1585-1598 | the in-place update of the line after a mask change likewise |
| Intx.Router.Route | bios/bhyve/pci_irq.c:98-114 | the in-place pin register write likewise |
| Mmio.LookupIsFind | bios/bhyve/mem.c:75-101 | in a tree of any shape the lookup finds what scanning all entries would |
| Mmio.InsertIsExact | bios/bhyve/mem.c:103-121 | in a tree of any shape an insertion puts the range in order, or meets an entry that compares equal, and does the former exactly when there is none |
| Mmio.BlockedMeansOverlap | bios/bhyve/mem.c:293-320 | a non-empty range is refused exactly when it shares an address with an entry or encloses an empty one |
| Mmio.RemoveIsWithout | bios/bhyve/mem.c:336-365 | removal takes out exactly the entry that covers the address |
| Mmio.HintIsExact | bios/bhyve/mem.c:173-192 | a hint that covers the address is what a lookup without the cache would find |
| Mmio.StepKeepsInv | bios/bhyve/mem.c:293-365 | registering, unregistering and accessing keep entries disjoint and every hint at a live entry of the main tree, even when node addresses are reused |
| Mmio.EveryRunKeepsInv | bios/bhyve/mem.c:167-365 | so in every state of every run |
| Mmio.ImmutableIsForever | bios/bhyve/mem.c:196-212 | in every run that has not aborted, what an immutable registration covers keeps resolving to it |
| Mmio.Registry.RegisterMem | bios/bhyve/mem.c:293-334 | the tree changes exactly as specified, and the result is an error exactly when the base is free but an entry overlaps |
| Mmio.Registry.UnregisterMem | bios/bhyve/mem.c:336-365 | the entry and every hint at it go; an entry that does not match or is immutable aborts, and nothing else does |
| Mmio.Registry.AccessMemory | bios/bhyve/mem.c:167-196 | the cached access resolves to what main tree and then fallback tree say |
| PciCaps.NoGuestBreaksTheList | bios/bhyve/pci_emul.c:984-1051 | after any sequence of guest writes the list is the one that was built: order, extents, identifiers and links |
| PciCaps.FixedBytesStay | bios/bhyve/pci_emul.c:1746-1910 | no write reaches the status register, an identifier or a link, whatever the alignment, size and value |
| PciCaps.OwnerIsUnique | bios/bhyve/pci_emul.c:994-1010 | at most one entry holds an offset |
| PciCaps.OwnerExists | bios/bhyve/pci_emul.c:1040-1051 | every offset of the capability region has an entry |
| PciCaps.AddExtends | bios/bhyve/pci_emul.c:687-725 | an addition that fits extends the list by exactly its entry and keeps the others |
| PciCaps.ListHeadIsKeptExactly | bios/bhyve/pci_emul.c:1902-1908 | the pointer to the first capability survives every write of a given address and size if and only if the write is not addressed at it |
| PciCaps.MsiReadOnlyIsKeptExactly | bios/bhyve/pci_emul.c:902-920 | the read-only MSI control bits survive every such write if and only if it is not a single byte of the word |
| PciCaps.WriteKeepsMsiMirror | bios/bhyve/pci_emul.c:921-941 | the device's idea of the MSI enable bit is the bit the guest reads, after every write |
| PciCaps.MsixMirrorIsKeptExactly | bios/bhyve/pci_emul.c:878-900 | MSI-X enable and mask follow the register if and only if the write is not a single byte at the high half |
| PciCaps.Device.AddCapability | bios/bhyve/pci_emul.c:687-725 | an addition fails exactly when the data does not fit, changing nothing, and otherwise installs the data and the link |
| PciCaps.Device.FindCapability | bios/bhyve/pci_emul.c:994-1010 | following the links ends at the entry that holds the offset |
| PciCaps.Device.CfgWrite | bios/bhyve/pci_emul.c:1838-1909 | the write half of the access routine does exactly what the specification says, and the list stays |
| PciBar.RegisterExactly | bios/bhyve/pci_emul.c:466-514 | registering a range leaves it decoded exactly when the range is free |
| PciBar.MoveExactly | bios/bhyve/pci_emul.c:545-583 | moving a register leaves it decoded at the new address, if decoding is on, exactly when the range there is free |
| PciBar.BarWriteExactly | bios/bhyve/pci_emul.c:1846-1900 | a register write, either half of a 64-bit one included, keeps registers, shadow address and registry in agreement exactly when the range it selects is free or not decoded |
| PciBar.NewAddrOk | bios/bhyve/pci_emul.c:1856-1899 | the masked address is aligned to the size, fits the address space, and is the one both register halves then hold |
| PciBar.CommandExactly | bios/bhyve/pci_emul.c:1697-1744 | a command write does so exactly when every range it starts to decode is free and they are apart |
| PciBar.AllocateExactly | bios/bhyve/pci_emul.c:585-685 | an allocation does so exactly when its range is free and no register waits for the decode bit it sets |
| PciBar.AllocatePlaces | bios/bhyve/pci_emul.c:585-685 | a successful allocation has the rounded power-of-two size, is aligned to it and lies in its window |
| PciBar.RoundPow2IsTight | bios/bhyve/pci_emul.c:594-595 | the rounded size is the smallest power of two that holds the request |
| PciBar.CarvedApart | bios/bhyve/pci_emul.c:436-452 | addresses carved one after the other from a window never share an address and never leave the window |
| PciBarRuns.AllocKeeps | bios/bhyve/pci_emul.c:585-685 | while functions initialise, an allocation places its range on free ground or finds no space, its assertion never fails, and the views stay in agreement |
| PciBarRuns.ElsewhereKeeps | bios/bhyve/pci_emul.c:436-452 | ranges that other functions take from the shared windows never meet this one's |
| PciBarRuns.EveryRunAgrees | bios/bhyve/pci_emul.c:466-685 | in every run of allocations of any number of functions and then guest writes a range is registered exactly when its decode bit is set, at the address the registers hold |
| PciBarRuns.NextNeverFails | bios/bhyve/pci_emul.c:466-514 | in every such run no assertion on a registry's answer fails |
| PciBarRuns.LateAllocationDisagrees | bios/bhyve/pci_emul.c:585-685 | an allocation after the guest cleared the memory decode bit leaves the other memory registers undecoded with the bit set |
| PciBar.SizingReadsBack | bios/bhyve/pci_emul.c:1860-1879 | after all ones are written to an I/O or 32-bit register it holds the negated size |
| PciBar.Sizing64ReadsBack | bios/bhyve/pci_emul.c:1880-1899 | for a 64-bit pair the two halves together do |
| PciBar.WriteBackKeepsAddress | bios/bhyve/pci_emul.c:1860-1899 | writing back what a register reads keeps its address, and the register except for the prefetchable bit of a 64-bit one |
| PciBarDevice.Device.ModifyRegistration | bios/bhyve/pci_emul.c:466-514 | the routine succeeds exactly when the specified one does, with the specified registries |
| PciBarDevice.Device.UpdateAddress | bios/bhyve/pci_emul.c:545-583 | likewise for moving a register |
| PciBarDevice.Device.CfgWrite | bios/bhyve/pci_emul.c:1846-1900 | likewise for a register write, which compares halves rather than addresses |
| PciBarDevice.Device.CommandChanged | bios/bhyve/pci_emul.c:1697-1744 | likewise for the loop over the registers |
| PciBarDevice.AllocPbar | bios/bhyve/pci_emul.c:585-685 | likewise for an allocation, with the three outcomes success, no space and a failed assertion |
| PciBarMmio.RegisterAlike | bios/bhyve/mem.c:293-320 | the list of ranges used for the registers and the MMIO tree drop, refuse and add a range alike |
| PciBarMmio.UnregisterAlike | bios/bhyve/mem.c:336-365 | and remove the same one |
| NvmePrp.AppendCovers | bios/bhyve/pci_nvme.c:1185-1248 | appending a chunk, merged with the last vector when it continues it, adds exactly its addresses |
| NvmePrp.FollowReads | bios/bhyve/pci_nvme.c:1633-1645 | following the links reads the entry that the list layout gives to that page |
| NvmePrp.AppendCoalesces | bios/bhyve/pci_nvme.c:1185-1248 | a request has one vector for each run of chunks that continue each other, and an append fails exactly when that takes more than 512 |
| NvmePrp.BuildRequest | bios/bhyve/pci_nvme.c:1579-1671 | a request is built if and only if the links of the page list are aligned, no entry is zero and the chunks coalesce into at most 512 vectors; these then name, byte for byte, the addresses that PRP1, PRP2 and the chained lists give, of the right total length and starting offset; otherwise the outcome is that of the first page in error |
| NvmePrp.BuildableExactly | bios/bhyve/pci_nvme.c:1633-1671 | the conditions on the whole list hold exactly when no page on the way is in error |
| NvmeQueue.PostKeepsInv | bios/bhyve/pci_nvme.c:1269-1310 | after a completion is posted every slot shows its last write and its phase is the parity of its writes |
| NvmeQueue.PhaseTellsTruth | bios/bhyve/pci_nvme.c:329-337 | for a consumer not overrun the phase at its head says exactly whether a completion is unread, and it is the oldest |
| NvmeQueue.DriverReadsEveryCompletionOnce | bios/bhyve/pci_nvme.c:1269-1310 | in every run a phase-tracking driver has read a prefix of what was posted, in order and once each |
| NvmeQueue.CompletionQueue.SetCompletion | bios/bhyve/pci_nvme.c:1269-1310 | the in-place write produces the specified ring |
| NvmeIo.StepKeepsInv | bios/bhyve/pci_nvme.c:1312-1422 | every step keeps the request pool and, for every command, completions posted plus owed equal to the times it was taken |
| NvmeIo.EveryRunKeepsInv | bios/bhyve/pci_nvme.c:1511-1720 | so in every run |
| NvmeIo.NoCompletionLostOrDoubled | bios/bhyve/pci_nvme.c:1362-1422 | no command is completed more often than taken, and exactly as often once nothing is pending, when all slots are free again |
| NvmeIo.SuccessMeansAllRanges | bios/bhyve/pci_nvme.c:1389-1422 | a multi-range deallocation reported successful has started every range, once each and in order |
| NvmeIo.Pool.Take | bios/bhyve/pci_nvme.c:1334-1359 | taking a request from the pool in place |
| NvmeIo.Pool.Return | bios/bhyve/pci_nvme.c:1312-1332 | giving it back in place |
| NvmeIo.Pool.Done | bios/bhyve/pci_nvme.c:1362-1422 | the block layer's callback, which goes on to the next range or posts the completion |
| Netmap.Ring.Send | bios/bhyve/net_backends.c:712-790 | the head moves exactly when there is a slot and the packet fits the free slots, and the slots then are one frame with the packet's bytes, marked as continued on all but the last |
| Netmap.Ring.PeekRecvLen | bios/bhyve/net_backends.c:792-810 | the announced length is that of the first complete packet, or of what has arrived of it |
| Netmap.Ring.Recv | bios/bhyve/net_backends.c:812-877 | a complete packet is consumed exactly when it fits the buffers, which then begin with it; an incomplete one stays |
| Netmap.CopySlot | bios/bhyve/net_backends.c:833-859 | a slot is copied over the buffers from the current position exactly when they have room |
| Netmap.SentIsReceived | bios/bhyve/net_backends.c:712-877 | round trip: slots committed by a send and carried to another ring are received as the packet |
| Netmap.FrameFound | bios/bhyve/net_backends.c:860-872 | the first slot not marked as continued ends the packet, and no other packet starts at the head |
| Netmap.BuffersTooShort | bios/bhyve/net_backends.c:836-846 | when the buffers run out, every packet that could start here is longer than they are |
| Fwctl.StoreStaysInside | bios/bhyve/fwctl.c:190-207 | in every sequence of accesses an identifier word is stored inside the 80-byte buffer |
| Fwctl.StepKeepsInv | bios/bhyve/fwctl.c:452-518 | every access, in any order, keeps the machine's invariant |
| Fwctl.RequestCountsDown | bios/bhyve/fwctl.c:318-398 | every dword written brings the answer one dword closer and the last one brings it; other accesses meanwhile change nothing |
| Fwctl.ResponseIsReadInOrder | bios/bhyve/fwctl.c:401-446 | every dword read is the next of the response, whose first is four times their number, and the last one readies the machine for a new request |
| Fwctl.Exchange | bios/bhyve/fwctl.c:293-446 | a message of any length and type is answered after exactly its words, with its type and transaction and the reply it calls for |
| Fwctl.AnswerIsPadded | bios/bhyve/fwctl.c:87-105 | the answer's words are its bytes followed by zeroes |
| Fwctl.SameNameMeans | bios/bhyve/fwctl.c:165-178 | an unterminated name matches every longer one, a terminated one exactly its own |
| Fwctl.Backend.WritePort | bios/bhyve/fwctl.c:366-398 | the in-place request machine does the specified step |
| Fwctl.Backend.ReadPort | bios/bhyve/fwctl.c:401-446 | the in-place response machine likewise |

## Left out

- Snapshot, pause and resume of any device; the wake-up claim is for a context that is not paused or closing.
- Kernel and library calls: host file I/O beyond "moves some bytes or fails", threads, netmap and ioctl plumbing.
- Bounce.Write: a write past the end of the file, which would make it longer.
- BlockIf.EndOf: 64-bit overflow of a request's end offset.
- BlockRuns.CancelKeeps: the signal handshake that interrupts a worker is one step that changes nothing.
- AhciTransfer.Transfer: the transfer lengths fit the 32-bit counters of the code.
- AhciSlots.MoveKeepsInv: the steps a controller routine takes under its lock are interleaved with the workers one request at a time; a callback's worker may move on as soon as its request is retired, which allows more interleavings than the code.
- AhciScan.TurnEffect: command handlers are classified by what they do to the registers; their data transfers, identify pages, log pages and ATAPI packets are not modelled, and the port has a disk.
- E1000Checksum.IovChecksum: at most 256 pieces; a packet with more than 64 is dropped before its checksum is taken.
- E1000Tso.SegmentPayload: byte layout and checksums of the rewritten headers, and the FIN and PUSH flags, which the loop clears in the shared header.
- Receive side of the e1000, its interrupt bookkeeping, and its descriptor walk.
- Intx.EveryRunConserves: allocation of pins and of ISA IRQs; devices start routed. Kernel calls are counters.
- Mmio.InsertIsExact: colours and rotations of the balanced tree; every result holds for any tree with the same entries in order.
- Mmio.Registry.RegisterMem: a range that wraps around the 64-bit address space, and a failing allocation. When the base is already covered the code reports success and drops the range; the contract says so.
- PciCaps.Device.CfgWrite: devices with their own configuration write routine; the dword a register write stores is a parameter, decided in PciBar.
- PciCaps.WriteKeepsMsiMirror: the address, data and vector count kept beside the enable bit.
- PciBar.BarWriteExactly: the I/O and memory handlers themselves.
- PciBarRuns.EveryRunAgrees: other functions' ranges do not move once the guest runs; a 4 GB register is placed at an address of the host's, which is taken to be free.
- NvmePrp.BuildRequest: what becomes of a request that outgrows 512 vectors. The code issues what it has, after resetting the vector count; the contract only says when that path is taken.
- NvmePrp.BuildRequest: PRP1 is not zero; with a zero one the code extends a vector that does not exist yet.
- NvmeIo.EveryRunKeepsInv: doorbells, the admin queue, and waking a waiter for a free request.
- Netmap.Ring.Send: the ring is a list of buffers of one size; the kernel's side of the ring is not modelled.
- Netmap.Ring.Recv: buffers of the caller do not overlap.
- Fwctl.Exchange: a size below the 12-byte header ends the program; values are at most 4096 bytes.
- microbios, memdisk, keyboard controller, gdb stub, HD audio, ACPI and MP tables, consoles, framebuffer and boot ROM.
