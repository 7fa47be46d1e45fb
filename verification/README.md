# MesaOS kernel: a verified model

MesaOS is a small i386 kernel. This project models the components that keep state with hard
invariants and proves what they promise:

* the physical frame allocator, address spaces, copy-on-write and the page fault that breaks sharing
  (`Words`, `PageEntry`, `Pmm`, `AddressSpaces`, `Invariant`, `Operations`, `FrameCounts`, `UserAccess`, `Isolation`,
  `Translation`, `Privacy`, `Startup`, `IdentityMap`, `Vmm`);
* the AES-128 block cipher (`GaloisField`, `ColumnMatrices`, `SBoxes`, `SBoxAlgebra`, `Blocks`, `KeySchedule`,
  `BlockCipher`, `StandardCipher`, `Aes128`);
* TCP connections and what they say to each other (`ReceiveRing`, `TcpConnection`, `TcpRuns`, `TcpLabels`, `TcpWire`,
  `TcpExchange`, `Tcp`);
* MesaFS reads and writes (`MesaFs`), the Internet checksum (`Checksum`), the round-robin scheduler
  (`RoundRobin`, `Scheduler`), `itoa` (`Text`) and dotted quads (`Addresses`).

Code that changes state in place is a class or a method on arrays. Each such method is proved to compute a
function on values, and the theorems are about those functions, over all inputs and over whole runs.
`dafny verify dfyconfig.toml` checks everything.

## How to read the model

**Memory.** Physical memory is an array of 2^20 frames of 1024 words, reached by frame number. The kernel reaches a
frame through its identity map, which boot sets up for the first 64 MB and nothing else (`Startup.IdentityLookup`);
touching a frame beyond 0x4000 by its number would fault in the code and does not in the model. For machines within
the limit `IdentityMap.FramesStayReachable` proves that every frame in use stays mapped to itself, for the kernel to
write, in every live space. The allocator's bitmap is separate. Words are natural numbers below 2^32 with bit
operators defined bit by bit. `World` is the allocator's set of used blocks, the memory and the kernel directory, with
three history fields (`spaces`, `roles`, `nextStamp`) that no operation consults.

**User pages.** User mode reaches a page when bit 2 is set in the directory entry and in the table entry, wherever
the page is, and a user store goes through exactly when both entries are present and have bits 1 and 2
(`AddressSpaces.Storable`). A user page (`Isolation.UserMapped`) is a mapped page of the user half, or a page below
3 GB that user mode reaches; the theorems on single writers, frames in use, `free_page` and stores are about all of
them. `Isolation.Safe` is stated without the history.

**Callers.** The operating system's contract with a caller is `Isolation.Enabled`: pointers name live spaces, and two
calls are left out of runs, each with a proof that the condition is exact.
`free_page` is not given a page whose frame a live directory, a table or another user page still needs:
for every address it is safe exactly then (`Isolation.FreePageSafeIff`). `allocate_page` does not open a page below
3 GB of the kernel's own directory to user writes: exactly then the next space created leaves a safe state
(`Isolation.NextCreateSafeIff`). The failing calls are `Startup.KernelFreesItself` and `Isolation.SharedBelow`.

**Connections.** Every TCP connection object carries, as history, how it was opened and the packets and calls
since. `Tcp.Connection.Valid` says that its fields are the `TcpRuns.Life` of that history, and every packet and
call `Tcp.Stack` takes keeps this for every connection in the list, so the theorems about lives hold of the
objects.

**Where the code does less than one might expect.** The model follows the code: `clone_address_space` leaves the
parent's entries writable, so isolation is one way (`Isolation.ParentStoreReachesChild`); `allocate_page` keeps its
frame when mapping fails (`Translation.Leaks`); `destroy_address_space` returns only the directory and the user half's
tables (`FrameCounts.CreateThenDestroy`), and a failed create or clone keeps the kernel tables it copied
(`FrameCounts.CreateCounts`, `FrameCounts.CloneCounts`); there are no reference counts, so `free_page` can free a
frame still in use, the live kernel directory included (`Startup.KernelFreesItself`); `create_address_space` shares
user-writable pages of the kernel's directory below 3 GB with every new space (`Isolation.SharedBelow`);
`Paging::initialize` does not check that it got its frames: below sixteen the 64 MB are not mapped to themselves
(`Startup.BootSafeIff`), and with sixteen the null frame serves as the last table (`Startup.BootSixteen`);
`Paging::map_page` installs frame 0 as a table when memory is out (`Translation.PagingMapAgrees`); the AES round
constant is an 8-bit shift and is 0 in rounds 9 and 10, so round keys 9 and 10 differ from FIPS 197 for every key
(`KeySchedule.AgreesWithStandard`) although decryption still undoes encryption; `send` reports bytes it did not send
(`TcpRuns.SendHonestIff`); bytes the receive buffer has no room for, and all bytes of a segment with FIN, are
acknowledged and dropped (`TcpRuns.ArrivalAccepts`); the send window never opens again (`TcpRuns.WindowStaysShut`); no
packet or call ever finds a connection in SYN_SENT or CLOSE_WAIT (`TcpRuns.LifeRests`); any ACK counts as the
acknowledgment of a SYN or FIN, whatever it acknowledges (`TcpLabels.ArrowLabelledIff`, `TcpLabels.BlindAck`); `close`
drops every connection that is not established (`TcpRuns.CloseFollowsDiagramIff`); a MesaFS read adds offset and size
in 32 bits and runs past the file when the sum wraps to within it (`MesaFs.ReadClipsIff`, `MesaFs.ReadRunsOn`); a
memory map in the last 24 bytes of the address space is read past its end (`Pmm.VisitsAllIff`); allocation fails with
up to 31 blocks free (`Pmm.FailsWithFreeIff`); a MesaFS write may run on into the next files' sectors
(`MesaFs.OthersKeptIff`); `itoa` loses the sign outside base
10 (`Text.ParseTextOf`); IPv4 announces a wrong size for payloads its length field cannot hold
(`Checksum.HeaderArrives`).

**Parameters.** Allocation of kernel heap memory, the peer's packets, the multiboot memory map, stack
addresses and the metadata sector's content come from outside and are parameters.

## Model

| member | source | states |
|---|---|---|
| Words.PageMask | kernel/memory/vmm.cpp:99-104 | masking with ~0xFFF and 0xFFF splits a word into page base and offset |
| Pmm.TakesLeastFree | kernel/memory/pmm.cpp:43-60 | allocation takes nothing exactly when every block b with b / 32 < max / 32 is used, and otherwise the least free block, which only then becomes used |
| Pmm.PickLeastFree | kernel/memory/pmm.cpp:43-60 | with block 0 in use, the null result means exactly that every block of a whole 32-block bucket is used |
| Pmm.FailsWithFreeIff | kernel/memory/pmm.cpp:43-60 | allocation fails although a block is free exactly when all free blocks are among the last max % 32 |
| Pmm.Block0NeverHandedOut | kernel/memory/pmm.cpp:62-120 | over any run of allocations, frees and memory maps after initialization block 0 stays in use, so the null address is never a block handed out |
| Pmm.Allocator.TestBlock | kernel/memory/pmm.cpp:38-41 | a bit test is membership in the set of used blocks |
| Pmm.Allocator.SetBlock | kernel/memory/pmm.cpp:22-28 | adds one block to the used set, out-of-range blocks add nothing, and the counter stays the set's size |
| Pmm.Allocator.UnsetBlock | kernel/memory/pmm.cpp:30-36 | removes one block from the used set and the counter stays the set's size |
| Pmm.Allocator.FirstFreeBlock | kernel/memory/pmm.cpp:43-60 | the scan returns the least free block, and -1 exactly when every block b with b / 32 < max / 32 is used |
| Pmm.Allocator.Initialize | kernel/memory/pmm.cpp:62-79 | every block starts out used, or nothing changes on bad parameters |
| Pmm.Allocator.AllocateBlock | kernel/memory/pmm.cpp:81-88 | marks and returns the least free block, nothing exactly when every block b with b / 32 < max / 32 is used |
| Pmm.Allocator.FreeBlock | kernel/memory/pmm.cpp:90-97 | frees exactly the block of a non-null, aligned, in-range address |
| Pmm.Allocator.LoadMemoryMap | kernel/memory/pmm.cpp:99-120 | ends for every map, walking it in 32-bit arithmetic, and frees exactly the blocks its available entries step onto, with block 0 kept |
| Pmm.VisitsAllIff | kernel/memory/pmm.cpp:99-120 | of a map laid out as in section 3.3 of the Multiboot specification the loader visits every entry and no other, exactly when the map ends more than 24 bytes below 2^32 |
| Pmm.Allocator.FreeRange | kernel/memory/pmm.cpp:106-111 | the counter of one entry never wraps and frees the blocks of that entry |
| Pmm.RangeFreed | kernel/memory/pmm.cpp:106-111 | counting steps and naming the blocks that lie in the range agree |
| PageEntry.PackFields | kernel/memory/vmm.cpp:104-109 | joining a frame address and flag bits loses neither, and the flag tests read the flags back |
| PageEntry.Unpack | kernel/memory/vmm.cpp:99-104 | an entry is its frame address joined with its flag bits |
| PageEntry.FlagPlaces | kernel/arch/i386/isr.cpp:57-66 | present, writable, user and copy-on-write are bits 0, 1, 2 and 9 of an entry |
| PageEntry.CowFlags | kernel/memory/vmm.cpp:99-104 | the flags of a cloned entry: present and user-accessible as before, never writable, copy-on-write set |
| PageEntry.BrokenFlags | kernel/arch/i386/isr.cpp:74-75 | the flags after a handled fault: present and user-accessible as before, writable, copy-on-write cleared |
| PageEntry.MapFlags | kernel/memory/vmm.cpp:161-175 | the flags of a new mapping: present, writable and user-accessible exactly when asked, not copy-on-write |
| Invariant.InstallKeeps | kernel/memory/vmm.cpp:146-157 | putting a fresh table into an empty slot keeps the ownership invariant |
| Invariant.SetPteEffect | kernel/memory/vmm.cpp:175 | writing a table entry changes the translation of one page of one space |
| Operations.CreateKeeps | kernel/memory/vmm.cpp:32-71 | a created space agrees with the kernel directory below 3 GB through tables of its own, maps nothing above and costs 1 + (kernel tables) frames; on failure no space, role or frame in use before changes |
| Operations.CloneKeeps | kernel/memory/vmm.cpp:73-114 | a clone mirrors the source's user tables copy-on-write, leaves all memory in use before unchanged, and counts its frames |
| Operations.DestroyKeeps | kernel/memory/vmm.cpp:116-129 | destroying returns exactly the directory and the user half's tables, 1 + (user tables) frames, and changes no memory |
| Operations.MapPageEffect | kernel/memory/vmm.cpp:140-179 | an aligned mapping sets one entry, through a new table when the slot is empty, and otherwise nothing changes |
| Operations.AllocPageKeeps | kernel/memory/vmm.cpp:212-223 | allocate_page keeps the invariant, also when its mapping fails |
| Operations.BreakKeeps | kernel/arch/i386/isr.cpp:70-75 | copying the page and rewriting its entry keeps the invariant |
| FrameCounts.CreateCounts | kernel/memory/vmm.cpp:32-71 | creating succeeds exactly when more frames are free than the kernel has tables below 3 GB, and a failed create has lost all free frames but one |
| FrameCounts.CloneCounts | kernel/memory/vmm.cpp:73-114 | cloning succeeds exactly when more frames are free than the kernel and user tables to copy; a failed clone has lost exactly the kernel tables copied |
| FrameCounts.CloneSucceedsIff | kernel/memory/vmm.cpp:73-114 | for every source, the null pointer and the kernel's directory included, the exact condition for cloning to succeed |
| FrameCounts.CreateThenDestroy | kernel/memory/vmm.cpp:32-129 | creating a space and destroying it leaves in use exactly what was, and the copies of the kernel's tables |
| FrameCounts.TakeCounts | kernel/memory/pmm.cpp:81-88 | allocation takes one available frame and fails exactly when none is available |
| FrameCounts.AvailableCounts | kernel/memory/pmm.cpp:43-60 | the frames counted as available are the free blocks b with b / 32 < max / 32 |
| UserAccess.AllocPageSecureIff | kernel/memory/vmm.cpp:140-223 | allocate_page keeps the invariant of runs exactly when it does not map a page below 3 GB of the kernel's directory that user mode can write |
| UserAccess.StoreKeeps | kernel/memory/vmm.cpp:156-175 | a user store to any address changes no directory and no table of a live space |
| Isolation.RunsAreSafe | kernel/memory/vmm.cpp:32-223 | over every run of create, clone, destroy, allocate, unmap, free, fault and store, each frame is mapped writable by at most one page user mode can reach in either half, frames in use are marked used, and directories, tables and user frames are disjoint with no table shared |
| Isolation.ApplyKeeps | kernel/memory/vmm.cpp:32-238 | every operation keeps the invariant |
| Isolation.SecureIsSafe | kernel/memory/vmm.cpp:32-238 | the invariant of runs gives single writers and disjoint ownership for user pages of both halves, stated without history |
| Isolation.AllocatedIsUnused | kernel/memory/pmm.cpp:81-88 | allocate_block never returns a live directory, a table or the frame of a user page |
| Isolation.FreePageSafeIff | kernel/memory/vmm.cpp:225-238 | for every address of either half, free_page leaves a safe state exactly when it frees no frame a live directory, a table or another user page of either half still needs |
| Isolation.FreeInUseBreaks | kernel/memory/vmm.cpp:225-238 | freeing a frame still needed leaves a directory, a table or a live page on a free frame |
| Isolation.UserPageInUseIff | kernel/memory/vmm.cpp:225-238 | the frame of a user page of either half is still needed exactly when another user page shares it |
| Isolation.NextCreateSafeIff | kernel/memory/vmm.cpp:32-71 | where the create that follows allocate_page succeeds, it leaves a safe state exactly when allocate_page mapped no user-writable page below 3 GB of the kernel's directory |
| Isolation.SharedBelow | kernel/memory/vmm.cpp:150-175 | the failing calls: after allocate_page(kernel directory, va, true, true) below 3 GB and a create, two spaces map the frame writable for user mode, and free_page of the kernel's page is unsafe |
| Isolation.AllocPagePermits | kernel/memory/vmm.cpp:150-175 | the page and the table allocate_page makes are writable and open to user mode exactly as asked, a new table always writable; a user store goes through exactly when the page is asked for so and an old table permits it |
| Isolation.FaultPermits | kernel/arch/i386/isr.cpp:62-75 | after a handled fault a user store goes through exactly when user mode reached the page and its table is writable |
| Isolation.CloneMirrors | kernel/memory/vmm.cpp:73-114 | child and parent translate every page of the user half alike and let user mode reach the same ones, no child page is writable, all carry bit 9, contents agree; below 3 GB the child has the kernel directory's pages and none that user mode can write; all memory in use before is unchanged |
| Isolation.ParentStoreReachesChild | kernel/memory/vmm.cpp:96-105 | after a clone the child sees what the parent stores through a writable page exactly at addresses from 0xC0000000 on |
| Isolation.StoresFlowDown | kernel/memory/vmm.cpp:95-106 | a user store can show only at the same, read-only page of the user half of a space that descends from the storing one |
| Isolation.AncestorsNeverSee | kernel/memory/vmm.cpp:95-106 | no user store of a clone, to whatever address, shows in a space it was cloned from |
| Isolation.StoreShows | kernel/memory/vmm.cpp:156-175 | a user store changes the addressed word for the user pages that see it and nothing for any other, exactly when both entries let user mode write; any other changes nothing |
| Isolation.FaultUnshares | kernel/arch/i386/isr.cpp:51-85 | for every address, a fault is handled exactly on a write to a present copy-on-write page with a frame free; then every byte any user page shows stays, and the page has a writable frame no other user page of either half maps |
| Privacy.ApplyMaps | kernel/memory/vmm.cpp:32-223 | after any operation a user page is as it was, copied from the cloned space or, below 3 GB, from the kernel's, or freshly allocated |
| Privacy.PrivateKept | kernel/memory/vmm.cpp:73-114 | only cloning or destroying a space, or for the kernel's own pages below 3 GB creating one, makes one of its private pages shared |
| Privacy.UnsharedStaysUnseen | kernel/arch/i386/isr.cpp:66-82 | over every run after a handled fault, until the space is cloned or destroyed, nothing it stores in the page is seen by another user page of either half of any space |
| Translation.PhysicalIsLookup | kernel/memory/vmm.cpp:196-210 | get_physical_address is the frame of the page's entry plus the page offset, 0 when unmapped |
| Translation.MapPageUpdates | kernel/memory/vmm.cpp:140-179 | map_page_in_space updates the directory's page map at exactly one page and no other space's map; it does nothing exactly for unaligned addresses or when a table is missing and no frame is free |
| Translation.UnmapRemoves | kernel/memory/vmm.cpp:181-194 | unmap_page removes exactly one page of one space |
| Translation.AllocPageUpdates | kernel/memory/vmm.cpp:212-223 | allocate_page maps a fresh frame at one page, or keeps the frame without mapping it exactly when Leaks says so |
| Translation.FaultUpdates | kernel/arch/i386/isr.cpp:51-85 | for every address, a handled fault changes the directory's page map at one page, which gets a copy of its contents, and no other space's map in either half |
| Translation.AllocThenFree | kernel/memory/vmm.cpp:212-238 | allocating and freeing an unmapped aligned page of either half restores all translations and all frames but one new table |
| Translation.PagingMapAgrees | kernel/memory/paging.cpp:40-59 | Paging::map_page does what map_page_in_space does exactly when a table exists or can be allocated |
| Startup.IdentityLookup | kernel/memory/paging.cpp:14-25 | with sixteen tables in place every address below 64 MB translates to itself and no other address is mapped |
| Startup.BootSafeIff | kernel/memory/paging.cpp:9-34 | after boot the state is safe, and exactly the first 64 MB are mapped to themselves, exactly when at least sixteen frames were free; then the kernel can write every page of them and user mode reaches none |
| Startup.BootSixteen | kernel/memory/paging.cpp:9-34 | with sixteen free frames the null frame is overwritten and serves as the sixteenth table |
| Startup.BootKeepsIff | kernel/memory/paging.cpp:9-34 | the invariant of runs, which keeps the null frame out of use, holds after boot exactly when seventeen frames were free |
| Startup.KernelFreesItself | kernel/memory/vmm.cpp:225-238 | after boot free_page of the kernel directory's own identity-mapped page is unsafe although no user page shares it |
| IdentityMap.FramesStayReachable | kernel/memory/paging.cpp:14-25 | with at most 64 MB of memory, over every run whose calls leave the first 64 MB of addresses alone, every frame in use is mapped to itself, writable for the kernel and closed to user mode, in every live space |
| IdentityMap.BootedSelfMapped | kernel/memory/paging.cpp:9-34 | the state after boot is one such runs can start from |
| Vmm.Manager.CreateAddressSpace | kernel/memory/vmm.cpp:32-71 | the loops in memory compute Create and keep the invariant |
| Vmm.Manager.CloneAddressSpace | kernel/memory/vmm.cpp:73-114 | the nested loops compute Clone and keep the invariant |
| Vmm.Manager.DestroyAddressSpace | kernel/memory/vmm.cpp:116-129 | the loop over the user half computes Destroy |
| Vmm.Manager.MapPageInSpace | kernel/memory/vmm.cpp:140-179 | the in-place writes compute MapPage |
| Vmm.Manager.UnmapPage | kernel/memory/vmm.cpp:181-194 | the in-place write computes Unmap |
| Vmm.Manager.GetPhysicalAddress | kernel/memory/vmm.cpp:196-210 | the two-level walk computes Physical |
| Vmm.Manager.AllocatePage | kernel/memory/vmm.cpp:212-223 | computes AllocPage, and keeps the invariant exactly when no user-writable page below 3 GB of the kernel's directory is mapped |
| Vmm.Manager.FreePage | kernel/memory/vmm.cpp:225-238 | computes FreePage for every page, and ends in a safe state exactly when the frame is not needed elsewhere |
| Vmm.Manager.HandlePageFault | kernel/arch/i386/isr.cpp:38-88 | the fault handler, which reads bits 0 and 1 of the error code, computes Fault and keeps the invariant |
| Vmm.Manager.InitializePaging | kernel/memory/paging.cpp:9-34 | computes Boot however few frames are free; the state is safe and the identity on exactly the first 64 MB exactly with sixteen, these pages are then the kernel's to write, and the invariant holds exactly with seventeen |
| Vmm.Manager.PagingMapPage | kernel/memory/paging.cpp:40-59 | the in-place writes compute PagingMap |
| GaloisField.Multiply | kernel/fs/crypto.cpp:246-257 | the shift-and-add loop computes the sum of the doublings selected by the second factor's bits |
| GaloisField.MulAdds | kernel/fs/crypto.cpp:246-257 | multiplication distributes over XOR |
| GaloisField.MulAddsRight | kernel/fs/crypto.cpp:246-257 | multiplication distributes over XOR in its second factor |
| GaloisField.MulCommutes | kernel/fs/crypto.cpp:246-257 | multiplication is commutative on all bytes |
| GaloisField.MulAssociates | kernel/fs/crypto.cpp:246-257 | multiplication is associative on all bytes |
| GaloisField.OneTimes | kernel/fs/crypto.cpp:246-257 | 1 is neutral |
| GaloisField.XtimeBit | kernel/fs/crypto.cpp:242-244 | doubling moves every bit up one place and adds x^4 + x^3 + x + 1 exactly when bit 7 falls out |
| GaloisField.XtimeAdds | kernel/fs/crypto.cpp:242-244 | doubling distributes over XOR |
| ColumnMatrices.InvMixOfMix | kernel/fs/crypto.cpp:214-240 | a row of the inverse matrix undoes a mixed column |
| ColumnMatrices.MixOfInvMix | kernel/fs/crypto.cpp:214-240 | a row of the matrix undoes an inversely mixed column |
| SBoxes.TablesInverse | kernel/fs/crypto.cpp:11-48 | the two substitution tables are inverse permutations of the bytes |
| SBoxAlgebra.SubIff | kernel/fs/crypto.cpp:11-29 | the substitution table is the function of section 5.1.1 of FIPS 197: the inverse in the field, then the affine map |
| SBoxAlgebra.TableIsStandard | kernel/fs/crypto.cpp:11-29 | every byte but 0 has an inverse in the field, and its table entry is the affine image of that inverse |
| SBoxAlgebra.InverseUnique | kernel/fs/crypto.cpp:246-257 | inverses in the field are unique |
| KeySchedule.RconIsShift | kernel/fs/crypto.cpp:132 | the round constant is the 8-bit shift: a power of two up to round 8, then 0 |
| KeySchedule.RoundKeyBijective | kernel/fs/crypto.cpp:108-142 | for every round the map from cipher key to round key is a bijection with an explicit inverse |
| KeySchedule.AgreesWithStandard | kernel/fs/crypto.cpp:108-142 | for every key, round key r is that of the word recurrence in section 5.2 of FIPS 197 exactly when r <= 8 |
| KeySchedule.ChainedIsStandard | kernel/fs/crypto.cpp:117-141 | making round keys one from the other with the standard's constants is the word recurrence of section 5.2 of FIPS 197 |
| BlockCipher.SubbedInverse | kernel/fs/crypto.cpp:150-160 | the substitution steps undo each other on every block |
| BlockCipher.ShiftedInverse | kernel/fs/crypto.cpp:162-212 | the row shifts undo each other on every block |
| BlockCipher.MixedInverse | kernel/fs/crypto.cpp:214-240 | the column mixes undo each other on every block |
| BlockCipher.KeyedTwice | kernel/fs/crypto.cpp:144-148 | adding a round key twice changes nothing |
| BlockCipher.DecryptEncrypted | kernel/fs/crypto.cpp:50-92 | decryption undoes encryption for every key and block |
| BlockCipher.EncryptDecrypted | kernel/fs/crypto.cpp:50-92 | encryption undoes decryption for every key and block |
| StandardCipher.EncryptedIsCipher | kernel/fs/crypto.cpp:50-70 | for every key and block the code's encryption is Cipher of section 5.1 of FIPS 197, ten rounds on a state of four columns, with the round keys it expands |
| StandardCipher.DecryptedIsInvCipher | kernel/fs/crypto.cpp:72-92 | its decryption is InvCipher of section 5.3 of FIPS 197 |
| Aes128.KeyExpansion | kernel/fs/crypto.cpp:108-142 | the in-place loop over 176 bytes writes the round keys of KeySchedule one after the other |
| Aes128.WordStep | kernel/fs/crypto.cpp:117-141 | each word of the schedule from the word before and the word sixteen bytes back |
| Aes128.ShiftRows | kernel/fs/crypto.cpp:162-186 | the hand-written assignments move row r left by r places |
| Aes128.InvShiftRows | kernel/fs/crypto.cpp:188-212 | the hand-written assignments move row r right by r places |
| Aes128.SubBytes | kernel/fs/crypto.cpp:150-154 | the loop substitutes every byte once |
| Aes128.InvSubBytes | kernel/fs/crypto.cpp:156-160 | the loop substitutes every byte back once |
| Aes128.MixColumns | kernel/fs/crypto.cpp:214-226 | the loop mixes each column once, from its old bytes |
| Aes128.InvMixColumns | kernel/fs/crypto.cpp:228-240 | the loop unmixes each column once, from its old bytes |
| Aes128.AddRoundKey | kernel/fs/crypto.cpp:144-148 | the loop adds the sixteen key bytes at the offset |
| Aes128.EncryptBlock | kernel/fs/crypto.cpp:50-70 | the block becomes Encrypted(key, block), the standard's Cipher of it, in place |
| Aes128.DecryptBlock | kernel/fs/crypto.cpp:72-92 | the block becomes Decrypted(key, block), the standard's InvCipher of it, in place |
| ReceiveRing.PutQueue | kernel/net/tcp.cpp:258-267 | storing bytes in the ring appends them to the queue it stands for |
| ReceiveRing.TakenQueue | kernel/net/tcp.cpp:343-349 | taking bytes removes them from the queue's front |
| TcpConnection.TransmitKeeps | kernel/net/tcp.cpp:53-104 | sending keeps sequence number, window and counts in step |
| TcpConnection.ArriveKeeps | kernel/net/tcp.cpp:216-306 | every packet, in every state, keeps the connection invariant |
| TcpConnection.ReceivingKeeps | kernel/net/tcp.cpp:337-352 | reading keeps accepted = delivered + buffered |
| TcpConnection.ClosingKeeps | kernel/net/tcp.cpp:362-372 | closing an established connection keeps the invariant |
| TcpConnection.ConnectedSound | kernel/net/tcp.cpp:375-397 | connect leaves a connection in ESTABLISHED that satisfies the invariant |
| TcpRuns.OpenedSound | kernel/net/tcp.cpp:118-397 | a connection as listen, a SYN or connect leaves it satisfies the invariant |
| TcpRuns.LifeExtends | kernel/net/tcp.cpp:176-397 | a life goes on with every packet or call that does not drop the connection |
| TcpRuns.After | kernel/net/tcp.cpp:176-397 | every state reached by packets and calls satisfies the invariant |
| TcpRuns.StaysResting | kernel/net/tcp.cpp:226-306 | packets and calls lead from a state a connection can rest in to another |
| TcpRuns.LifeAccounts | kernel/net/tcp.cpp:53-104 | over a whole life at most one SYN, one FIN and 8192 bytes are sent, the sequence number is initial + data + SYNs + FINs without wrapping, and the window's start never passes its end |
| TcpRuns.LifeIsFifo | kernel/net/tcp.cpp:258-270 | the bytes handed out followed by the buffered bytes are the bytes accepted, in order; the ring indices agree |
| TcpRuns.LifeFollowsDiagram | kernel/net/tcp.cpp:226-306 | the states a connection passes through form a path of the diagram in section 3.3.2 of RFC 9293 that never goes back |
| TcpRuns.LifeGrows | kernel/net/tcp.cpp:53-397 | histories of states, segments and bytes only grow along a life |
| TcpRuns.LifeForward | kernel/net/tcp.cpp:226-306 | connection states only move forward |
| TcpRuns.WindowStaysShut | kernel/net/tcp.cpp:55-61 | a connection that has sent 8192 bytes never sends another |
| TcpRuns.LifeRests | kernel/net/tcp.cpp:226-306 | no packet or call ever finds a connection in SYN_SENT, CLOSE_WAIT or CLOSED |
| TcpRuns.DropsFollowDiagram | kernel/net/tcp.cpp:290-300 | handle_packet drops connections only where the diagram has an arrow to CLOSED |
| TcpRuns.CloseFollowsDiagramIff | kernel/net/tcp.cpp:362-372 | close drops every connection that is not established; that is an arrow of the diagram exactly when it never got beyond listening or has met the peer's FIN |
| TcpRuns.PeerFinished | kernel/net/tcp.cpp:226-306 | what the last state of a path says about the states passed before |
| TcpRuns.SendMoves | kernel/net/tcp.cpp:354-360 | send puts on the wire what the window still takes |
| TcpRuns.SendHonestIff | kernel/net/tcp.cpp:354-360 | the size send reports was sent exactly when there was memory and room in the window, or nothing to send |
| TcpRuns.ArrivalAccepts | kernel/net/tcp.cpp:217-270 | what is acknowledged, what is accepted, at most what 4096 bytes of buffer still take, and exactly when the two agree |
| TcpLabels.ArrowLabelledIff | kernel/net/tcp.cpp:226-306 | in every life, a packet that moves a connection takes the arrow of the diagram whose label names its arrival exactly when, where the label is an acknowledgment, the SYN or FIN was sent and the next number is acknowledged, and never from TIME_WAIT |
| TcpLabels.AcksSynIff | kernel/net/tcp.cpp:68-75 | while a connection is opened, a packet acknowledges its SYN exactly when the SYN was sent and the next number is acknowledged |
| TcpLabels.AcksFinIff | kernel/net/tcp.cpp:68-75 | a packet acknowledges the FIN exactly when the FIN was sent and the next number is acknowledged |
| TcpLabels.BlindAck | kernel/net/tcp.cpp:226-245 | a failing input: SYN, then an ACK of number 0, and the connection is ESTABLISHED although nothing of it was acknowledged |
| TcpLabels.FirstMove | kernel/net/tcp.cpp:226-306 | where a packet takes each state a connection can rest in |
| TcpWire.ParseWrittenWith | kernel/net/tcp.cpp:176-182 | handle_packet reads from a segment the ports, numbers, flags and data that send_packet, or a peer that adds options, wrote, whatever follows it in memory |
| TcpWire.FlagsInBits | kernel/net/tcp.hpp:24-29 | FIN, SYN, PSH and ACK are bits 0, 1, 3 and 4 of any flag byte |
| TcpWire.Fill | kernel/net/tcp.cpp:71-85 | the bytes of a segment field by field at the places of section 3.1 of RFC 9293, then the data |
| TcpExchange.ArriveAnswers | kernel/net/tcp.cpp:216-306 | the segments each packet draws in each state, their count, flags and numbers: SYN-ACK to a SYN, ACK to data or FIN, ACK then FIN-ACK to the first FIN, otherwise none; each acknowledges the packet |
| TcpExchange.SendingSends | kernel/net/tcp.cpp:354-360 | send puts one segment with PSH and ACK on the wire, with what the window still takes, or none |
| TcpExchange.ClosingSends | kernel/net/tcp.cpp:362-372 | close sends one FIN-ACK and goes to FIN_WAIT_1 |
| TcpExchange.ConnectedSends | kernel/net/tcp.cpp:375-397 | connect sends one SYN with the initial number and goes through SYN_SENT to ESTABLISHED |
| TcpExchange.LifeAcknowledges | kernel/net/tcp.cpp:71-103 | over a whole life every sent segment acknowledges the last packet met when it was sent, and 0 before any |
| TcpExchange.DataArrives | kernel/net/tcp.cpp:53-270 | the bytes one end sends are those the other end accepts, as far as there is space, and the ACK this draws acknowledges the number the sender goes on with |
| TcpExchange.StreamArrives | kernel/net/tcp.cpp:53-270 | any series of sends within window and buffer arrives whole and in order, and its last ACK acknowledges all of it |
| TcpExchange.Handshake | kernel/net/tcp.cpp:216-397 | connect's SYN on the wire opens a listening peer, whose SYN-ACK acknowledges the number connect goes on with |
| TcpExchange.CloseExchange | kernel/net/tcp.cpp:216-372 | when one end of an established connection closes and every packet arrives, it ends in TIME_WAIT and the other end is dropped by an ACK for its own FIN |
| Tcp.SegmentFindsPeer | kernel/net/tcp.cpp:176-184 | the segment of one end finds, at the other, a connection with the endpoints mirrored, whenever there is one |
| Tcp.FindsNewest | kernel/net/tcp.cpp:106-116 | of several connections with the endpoints the newest is found |
| Tcp.Connection.SendPacket | kernel/net/tcp.cpp:53-104 | the in-place updates compute Transmit, and the packet handed on is the new segment, byte by byte |
| Tcp.Connection.BufferPayload | kernel/net/tcp.cpp:258-267 | the copying loop stores exactly the bytes that fit |
| Tcp.Connection.Recv | kernel/net/tcp.cpp:337-352 | hands out the front of the queue, clipped to what is asked and what is there, -1 unless established, into a buffer with room for just that, and records the call |
| Tcp.Connection.Advance | kernel/net/tcp.cpp:216-306 | the switch over states computes Arrive |
| Tcp.Connection.Record | kernel/net/tcp.cpp:176-397 | after a packet or call the connection is the life of its history and that event |
| Tcp.Stack.FindConnection | kernel/net/tcp.cpp:106-116 | the list walk returns the first connection with the endpoints |
| Tcp.Find | kernel/net/tcp.cpp:106-116 | a found connection is in the list with the endpoints, and none is missed |
| Tcp.Stack.CreateConnection | kernel/net/tcp.cpp:118-156 | a fresh, closed connection at the head of the list, or nothing without memory |
| Tcp.Stack.RemoveConnection | kernel/net/tcp.cpp:158-174 | exactly the first occurrence is unlinked |
| Tcp.Stack.HandlePacket | kernel/net/tcp.cpp:176-306 | a packet drops or advances the connection of its endpoints, whose history it enters, and no other; an unknown peer's SYN opens one, within the limit of ten |
| Tcp.Stack.Connect | kernel/net/tcp.cpp:375-397 | a new connection, forced to ESTABLISHED, with the next ephemeral port |
| Tcp.Stack.Listen | kernel/net/tcp.cpp:310-325 | a new connection in LISTEN |
| Tcp.Stack.Send | kernel/net/tcp.cpp:354-360 | sends on one connection and reports the full size as the code's int, negative from 2^31 on |
| Tcp.Stack.Recv | kernel/net/tcp.cpp:337-352 | reads from one connection and leaves every other and the rest of the buffer as they were |
| Tcp.Stack.Close | kernel/net/tcp.cpp:362-372 | an established connection sends FIN, any other is removed |
| MesaFs.SectorSplice | kernel/fs/mesafs.cpp:156-171 | rewriting part of one sector is a splice of the disk's bytes at its address |
| MesaFs.WriteIsSplice | kernel/fs/mesafs.cpp:141-180 | a write replaces exactly the written range of its own file's ten sectors and no byte of any other file |
| MesaFs.ReadsBack | kernel/fs/mesafs.cpp:110-180 | reading after a write gives the data, and what was before and after it |
| MesaFs.FileSystem.Read | kernel/fs/mesafs.cpp:110-139 | for every offset and size the sector loop delivers the disk's bytes from the file's start plus offset on, as many as the 32-bit sum lets through, into a buffer with room for just these |
| MesaFs.ReadClipsIff | kernel/fs/mesafs.cpp:115-116 | a read is clipped to the file's length exactly when offset + size does not wrap, or wraps to beyond the length, or starts beyond it, and otherwise not at all |
| MesaFs.ReadRunsOn | kernel/fs/mesafs.cpp:115-116 | a failing input: from a file of 5120 bytes 2^32 - 1 are delivered from offset 1 on, not 5119 |
| MesaFs.FilePlace | kernel/fs/mesafs.cpp:188 | byte o of file i is byte (base + 100 + 10 i) * 512 + o of the disk, and 5120 of them are the file's own |
| MesaFs.FileSystem.DeliveredAt | kernel/fs/mesafs.cpp:119-136 | byte i read comes from file offset (offset + i) mod 2^32 |
| MesaFs.WroteAt | kernel/fs/mesafs.cpp:145-173 | byte k written goes to file offset (offset + k) mod 2^32 |
| MesaFs.OthersKeptIff | kernel/fs/mesafs.cpp:141-180 | whatever the data, a write leaves the other files' sectors alone when it does not overrun its own, and otherwise puts a byte of the data into another file's |
| MesaFs.FileSystem.Write | kernel/fs/mesafs.cpp:141-180 | for every offset and size, their sum past 2^32 included, the data goes to its place anywhere on the disk, as one splice when the range does not wrap; the length grows to the sum in 32 bits, only the metadata sector may change besides, and lengths stay within the files' sectors exactly when that sum does |
| MesaFs.FileSystem.WriteData | kernel/fs/mesafs.cpp:149-173 | the loop over sectors puts each byte of the data at its 32-bit file offset, which may wrap, and changes no other byte of the disk |
| MesaFs.WroteIsSpliced | kernel/fs/mesafs.cpp:149-173 | as long as the range does not wrap, that is exactly one splice of the disk's bytes |
| MesaFs.FileSystem.CreateFile | kernel/fs/mesafs.cpp:182-217 | the first free slot becomes an empty file of the owner, group and mode with the ten sectors of that slot, and the node says so; it fails exactly when no slot is free |
| Checksum.CalculateChecksum | kernel/net/ipv4.cpp:21-31 | the loop with its 32-bit sum computes Checksum |
| Checksum.FoldIs | kernel/net/ipv4.cpp:29 | folding carries is reduction modulo 65535 into 1..65535, 0 only for 0 |
| Checksum.TotalGrows | kernel/net/ipv4.cpp:21-28 | the sum is that of the words, low byte first, and of a last byte that stands alone |
| Checksum.NoOverflow | kernel/net/ipv4.cpp:21-31 | up to 65537 words the 32-bit sum cannot overflow |
| Checksum.StoredChecksumVerifies | kernel/net/ipv4.cpp:65-69 | storing the checksum in its zeroed field makes the whole even-length buffer check to 0 |
| Checksum.VerifiesIff | kernel/net/ipv4.cpp:21-31 | a buffer checks to 0 exactly when its words add up to a positive multiple of 65535 |
| Checksum.ByteOrderIndependent | kernel/net/ipv4.cpp:33-36 | exchanging the bytes of all words exchanges the bytes of the checksum |
| Checksum.Ipv4.FillHeader | kernel/net/ipv4.cpp:54-69 | every header filled in has its fields at the places of section 3.1 of RFC 791 and checks to 0, whatever the size of the payload, and the identification counts up |
| Checksum.HeaderArrives | kernel/net/ipv4.cpp:38-52 | handle_packet reads back protocol, sender and place of the payload, and its size exactly when the packet's has sixteen bits |
| Checksum.EchoRequest | kernel/net/icmp.cpp:20-38 | every echo request has its fields at the places of RFC 792 and checks to 0 |
| RoundRobin.NobodyStarves | kernel/scheduler.cpp:48-63 | over any arrivals a process runs again within (processes after the running one) + (list length when the pass wraps) calls |
| RoundRobin.RunsAhead | kernel/scheduler.cpp:48-63 | a process further down the list runs after as many calls as it is places away, whatever arrives |
| RoundRobin.ResumesWhereItStopped | kernel/scheduler.cpp:51-62 | each process resumes with the stack pointer last saved for it |
| RoundRobin.NextSound | kernel/scheduler.cpp:22-63 | arrivals and switches keep the list free of duplicates with a stack pointer for each process |
| Scheduler.Scheduler.Initialize | kernel/scheduler.cpp:11-20 | the kernel is process 0, alone and running |
| Scheduler.StartsAtEntry | kernel/scheduler.cpp:30-41 | the interrupt return to a new process starts it at its entry point in the kernel's segments, interrupts on, general registers 0 and its stack of 8192 bytes empty |
| Scheduler.Scheduler.AddProcess | kernel/scheduler.cpp:22-46 | a ready process with a new stack and its initial frame goes to the head of the list |
| Scheduler.Scheduler.Schedule | kernel/scheduler.cpp:48-63 | the running process is put aside with its stack pointer and the next one, or the first, becomes the only running one |
| Scheduler.Scheduler.ViewSound | kernel/scheduler.cpp:11-63 | the linked list is a round-robin queue and exactly one process, the current one, is RUNNING |
| Text.Itoa | kernel/libc/string.cpp:112-142 | the digit loop and the reversal in place write the number's text and a terminator |
| Text.TableSymmetric | kernel/libc/string.cpp:130 | the table serves remainders of either sign |
| Text.LastDigit | kernel/libc/string.cpp:128-132 | one round of truncating division yields the last digit of the absolute value and the rest |
| Text.ParseTextOf | kernel/libc/string.cpp:112-142 | parsing what itoa wrote gives the number back exactly in base 10 or for numbers without sign, the minimum included, and its absolute value otherwise; there are no leading zeros |
| Addresses.StringToIp | kernel/shell.cpp:111-126 | the loop computes the address in the text up to its terminator |
| Addresses.PrintAddress | kernel/shell.cpp:652-660 | ifconfig's calls to itoa print the dotted quad, or the remark for address 0 |
| Addresses.QuadIs | kernel/shell.cpp:111-126 | the quad a.b.c.d stands for a + 256 b + 256^2 c + 256^3 d, when read and when printed |
| Addresses.PrintedReadsBack | kernel/shell.cpp:111-126 | string_to_ip of what ifconfig prints is the address, for all 2^32 addresses |

## Left out

- Port input and output, inline assembly, TLB and control-register instructions, interrupt stubs and all device drivers: hardware effects. IDE is an array of sectors.
- The general map_page_in_space with a caller-chosen physical address is modelled and has its own theorems but is not an operation of the safe runs: mapping an arbitrary frame can give it two writers.
- Isolation.RunsAreSafe: runs exclude free_page of a frame that is still needed, because there are no reference counts, and allocate_page of a user-writable page below 3 GB of the kernel's directory, which the next created space shares; Isolation.FreePageSafeIff and Isolation.NextCreateSafeIff prove that these calls are unsafe exactly then.
- IdentityMap.FramesStayReachable: frames beyond the first 64 MB, which the kernel's identity map does not reach; on a machine with more memory the model's access by frame number is not what the code does.
- Privacy.UnsharedStaysUnseen: ends when the space is cloned again, because the clone then shares the page by design.
- Pmm.Allocator.LoadMemoryMap: reads each map entry from a function of its address, so the map itself does not change while it is read; upper halves of 64-bit addresses are ignored as in the code.
- Reservation of the bitmap's own frames at boot: loading the memory map may free them again.
- HMAC and authenticated encryption: the inner hash is read past its end, so the result is not a function of the inputs. The XOR buffer encryption is easy.
- Tcp.Stack.HandlePacket: what lies behind the end of a segment is a parameter, for segments whose data offset points past their end and whose data size wraps.
- Handles passed to send, recv and close must not have been removed: the code would follow a pointer to freed memory.
- Tcp.Stack: the linked list is a sequence of objects, newest first; the next pointers are not modelled.
- TCP checksums over the pseudo-header (bytes 16 and 17 of a segment are left open; no receiver looks at them), retransmission, timers and IPv6. The limit on SYNs is modelled with its clock fixed at 0, as it is in the code.
- A null data pointer with a nonzero size passed to send: the packet would carry uninitialised bytes. A null buffer passed to recv: a single branch.
- MesaFs.FileSystem.Write: the sectors written must be on the disk, and those read in MesaFs.FileSystem.Read; what the disk does with other sector numbers is hardware.
- The content of the metadata sector, directory nodes, permissions and integrity codes of MesaFS: the sector's bytes are a parameter, because header and entries do not fit it.
- RAMFS: deleting shifts tables without renumbering.
- Checksum.StoredChecksumVerifies: even-length buffers of at most 65537 words, beyond which the 32-bit sum can overflow.
- Addresses.StringToIp: the octet is an unbounded number and the shift may exceed 31, where the C++ code is undefined; the result is cut to 32 bits.
- Failure of memory allocation in add_process and remove_process: not checked by the code or not part of this model.
- The shell, VGA, keyboard, HTTP, SSH, DHCP, firewall, package manager, GDT and IDT: user interface, plumbing or single-branch facts.
