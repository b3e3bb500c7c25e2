# AzamiOS kernel: a verified model

AzamiOS is an x86_64 kernel. This project models the parts of it whose correctness no
finite set of cases settles, and proves what they promise:

- **Pipes** (`fs/pipe.c`, `fs/io_iter.h`). `PipeSpec` gives every critical section as a
  function of the pipe, `PipeRing` the ring buffer that implements them, `PipeProtocol` the
  calls as a step system with one program counter per call, and `PipeStream`,
  `PipeWriters`, `PipeWakeups`, `PipeAnswers` and `PipeLimits` what holds, and what does
  not, in every interleaving. `IoIter` is the scatter-gather copy underneath.
- **Split virtqueue** (`hal/virtqueue.c`). `VirtqueueSpec` is the protocol of sections 2.4.5,
  2.4.6 and 2.4.8 of the VirtIO 1.0 specification, `VirtqueueDriver` the arrays and wrapping
  indices of the driver.
- **kexec planning** (`kernel/kexec.c`). `KexecSort`, `KexecMap` and `KexecLoad`: the
  in-place sort, the forged memory map, and the two passes that stage an ELF image.
- **FAT32 data path** (`fs/fat32.c`). `Fat32Spec` has volumes as links and cluster contents
  and what one write does to them, `Fat32Runs` runs of writes against files as byte
  sequences, `Fat32Volume` the sectors, `Fat32File` read and write, and `Fat32Limits` runs of
  the driver at the limits of what holds.
- **tmpfs and the VFS name caches** (`fs/tmpfs.c`, `fs/vfs.c`). `TmpfsTree` is the tree of
  names with its reference counts, `TmpfsNodes` the nodes in memory, `Dcache` the coherence
  of dentry cache and negative cache with a filesystem, `DcacheTables` their hash chains and
  slots, `Namespace` the operations as steps with the theorems over every run,
  `NamespaceAnswers` what each answers and does in terms of the names alone, and `VfsOps` the
  operations over both.
- **Namespace guard and file references** (`fs/vfs.c`). `VfsGuard`, one step per access to
  shared memory.
- **Mounts** (`fs/namespace.c`, `fs/vfs.c`). `MountStack` and `MountOps`.
- **Paths** (`fs/vfs.c`, `fs/namespace.c`). `PathResolve` and `PathWalk`.
- **Signal frames** (`kernel/signal.c`). `SignalFrame`, `SignalNesting`, `SignalDelivery`.
- **Timers** (`kernel/ktimer.c`). `KTimer`.

`Machine` and `SinglyLinked` hold the shared vocabulary. Code that the kernel writes as loops
over memory is a method or a class here, with the function it computes in its contract; the
theorems about every run are lemmas about those functions.

What the environment supplies is a parameter: the file contents and frame pool of kexec, the
hash of a dentry (any function), what readlink and lookup give during a walk, the clock of a
sweep, signals and user faults in a pipe call, the opaque floating-point state.

Where the code does not meet what one would expect of it, the model follows the code and a
lemma says exactly when it does:

- the 64-bit `read_seq` of a pipe identifies a read only among fewer than 2^64
  (`PipeStream.PassIsCurrentIff`, `PipeLimits.LappedReaderBreaksStream`);
- the kernel-buffer pipe write keeps every wakeup exactly if at most one reader waits
  (`PipeWakeups.KernelPutIff`, `PipeLimits.KernelWriteLosesWakeup`), and it reports EPIPE
  after bytes were committed exactly if the readers leave in between
  (`PipeWriters.KernelErrorIff`, `PipeLimits.EpipeAfterCommit`);
- umount looks a mount up by path; it takes the newest mount of the dentry exactly if that
  was made under the path given (`MountStack.PopsIff`, `MountStack.TwoPathsExample`);
- a thread that has run off its alternate stack gets the next frame put over the first
  (`SignalNesting.ApartIffStillOn`, `SignalNesting.RunOffExample`), and a nested frame on that
  stack is inside it exactly if the stack pointer is high enough (`SignalNesting.InsideIffRoom`,
  `SignalNesting.NestedOverflowExample`);
- vfs_resolve_path drops a trailing slash it has no room for (`PathResolve.SlashDroppedIff`);
- a FAT32 write that runs out of space leaves its bytes in the chain but not the size, which
  is harmless exactly if the request holds zeros where it reaches beyond the size
  (`Fat32Runs.CutShortIff`, `Fat32Runs.LeftoverExposed`, `Fat32Limits.GapRun`);
- a FAT32 write that ends at or beyond 4 GiB leaves the size modulo 2^32
  (`Fat32File.RecordSize`, `Fat32Limits.FourGigRun`);
- the overrun of a timer is kept modulo 2^32 (`KTimer.OverrunStored`).

## Model

| member | source | states |
|---|---|---|
| `PipeStream.EveryRunConserves` | fs/pipe.c:50-395 | In every interleaving of user and kernel-buffer readers and writers, the committed writes in commit order are the bytes handed to readers followed by the ring contents, as long as no pending snapshot is overtaken by 2^64 reads. |
| `PipeStream.PassingReaderHoldsPrefix` | fs/pipe.c:287-312 | A reader that passes the read_seq test holds exactly the current prefix of the ring, although it copied with no lock held. |
| `PipeStream.PassIsCurrentIff` | fs/pipe.c:304-308 | A matching read_seq means that no read was committed since the snapshot exactly if fewer than 2^64 were. |
| `PipeStream.StreamConserved` | fs/pipe.c:264-395 | Conservation carries over any run from any state that has it. |
| `PipeLimits.LappedReaderBreaksStream` | fs/pipe.c:287-312 | The 2^64 bound is needed: a concrete run in which the 64-bit counter comes round and a stale snapshot is delivered. |
| `PipeWakeups.NoLostWakeup` | fs/pipe.c:216-245 | In every run of user and kernel-buffer calls and releases whose kernel-buffer writes find at most one reader waiting when they commit, a sleeper that has not been woken is queued and sleeps on an empty ring with a writer, or on missing room with a reader. |
| `PipeWakeups.WithoutKernelWrites` | fs/pipe.c:127-214 | Every run without kernel-buffer writes is such a run, so the property holds for read_user, write_user, kernel-buffer reads and the releases. |
| `PipeWakeups.KernelPutIff` | fs/pipe.c:165-181 | A kernel-buffer write keeps the queue invariant exactly if at most one reader waits, because it wakes only the first. |
| `PipeWakeups.WakeupsOkAlways` | fs/pipe.c:50-451 | The queue invariant behind it holds after every such run: queues without repetition, each sleeper queued or woken, nobody queued who could proceed. |
| `PipeLimits.KernelWriteLosesWakeup` | fs/pipe.c:115-169 | With two readers waiting a wakeup is lost: a concrete run after which the writer has returned, the one woken reader has left on a signal, nobody is woken, and the other reader sleeps beside a readable byte. |
| `PipeWriters.AtomicWriteIsContiguous` | fs/pipe.c:324-395 | In every reachable state a write of at most 4096 bytes, from user memory or a kernel buffer, finished or not, is one contiguous piece of the stream or absent from it. |
| `PipeWriters.ReturnedCountIsCommitted` | fs/pipe.c:324-395 | For a user write of any size, a returned count is the length of the prefix of the request that was committed, and an error means nothing was. |
| `PipeWriters.KernelWriteReturns` | fs/pipe.c:127-214 | For a kernel-buffer write a count is the committed prefix too; an error means nothing was committed, or it is EPIPE for a request of more than 4096 bytes and no reader is left. |
| `PipeWriters.KernelErrorIff` | fs/pipe.c:141-148 | A kernel-buffer write ends with an error after a commit exactly if a round finds no reader with bytes already in the stream. |
| `PipeLimits.EpipeAfterCommit` | fs/pipe.c:141-148 | A concrete run where it does: 4096 of 4097 bytes committed, then EPIPE. |
| `PipeAnswers.ReadAnswer` | fs/pipe.c:264-318 | In every run a finished read_user is told what its one commit took, with that count: the first bytes of the ring, as many as it asked for, at the moment its snapshot was taken, and without overtaking still those at the commit. Without bytes it took nothing, and the finishing step shows why: nothing asked for; 0 on an empty ring without writers; EAGAIN on an empty ring with a writer and no leave or no thread to wait; EINTR on a signal; EFAULT on a fault. |
| `PipeAnswers.KernelReadAnswer` | fs/pipe.c:50-125 | The same for the kernel-buffer read, whose bytes are the front of the ring when it finishes. |
| `PipeAnswers.WriteAnswer` | fs/pipe.c:324-395 | In every run a count returned by write_user is the length of the part of its request that is in the stream, short only if it may not wait, has no thread, is signalled or faults, or the readers are gone; an error means nothing is, and is EPIPE only without readers, EAGAIN only without room and without leave or thread to wait, EINTR only on a signal, EFAULT only on a fault. |
| `PipeAnswers.KernelWriteAnswer` | fs/pipe.c:127-214 | The same for the kernel-buffer write, which never faults, whose count is short only for a non-blocking call or a signal, and of whose errors only EPIPE can follow a commit. |
| `PipeAnswers.FinishingStep` | fs/pipe.c:50-395 | A finished call was finished by one step of its own, and keeps its answer from then on. |
| `PipeRing.Ring.Peek` | fs/pipe.c:287-292 | The two-part copy out of the ring buffer yields the first bytes of the stream. |
| `PipeRing.Ring.Drop` | fs/pipe.c:310-312 | Advancing the read side removes exactly those bytes and counts one read. |
| `PipeRing.Ring.Store` | fs/pipe.c:381-386 | The two-part copy into the ring appends exactly those bytes. |
| `PipeRing.Ring.EnterRead` | fs/pipe.c:273-293 | The first critical section of read_user: snapshot, end of file, EAGAIN or sleep. |
| `PipeRing.Ring.FaultRead` | fs/pipe.c:298-301 | After a fault a non-empty ring wakes the other readers. |
| `PipeRing.Ring.CommitRead` | fs/pipe.c:304-316 | The commit: the snapshot's bytes leave, all writers are woken, and all readers if bytes are left. |
| `PipeRing.Ring.EnterWrite` | fs/pipe.c:335-353 | The first critical section of write_user: EPIPE, no room, or the length to stage. |
| `PipeRing.Ring.FaultWrite` | fs/pipe.c:356-359 | After a fault a ring with room wakes the other writers. |
| `PipeRing.Ring.CommitWrite` | fs/pipe.c:364-390 | The second space check and the commit of the staged bytes. |
| `PipeRing.Ring.AwakeRead` | fs/pipe.c:239-241 | The tail of a sleep: the reader that runs again unlinks itself from its queue, wherever it stands. |
| `PipeRing.Ring.AwakeWrite` | fs/pipe.c:239-241 | The same for a writer. |
| `PipeRing.Ring.KRead` | fs/pipe.c:50-125 | The critical section of the kernel-buffer read. |
| `PipeRing.Ring.KWrite` | fs/pipe.c:127-214 | The critical section of the kernel-buffer write. |
| `PipeRing.Ring.ReleaseReader` | fs/pipe.c:397-423 | Closing a read end wakes every writer. |
| `PipeRing.Ring.ReleaseWriter` | fs/pipe.c:425-451 | Closing a write end wakes every reader. |
| `IoIter.CopyFromUser` | fs/io_iter.h:24-39 | The gather loop computes the segment-wise gather, stopping at the first fault. |
| `IoIter.CopyToUser` | fs/io_iter.h:7-22 | The scatter loop computes the segment-wise scatter and the count of bytes written. |
| `IoIter.GatherIsFlat` | fs/io_iter.h:24-39 | A gather over segments is a gather over the flat list of addresses: segment boundaries are invisible. |
| `IoIter.SpreadIsFlat` | fs/io_iter.h:7-22 | The same for scatters, memory and count. |
| `IoIter.ScatterEffect` | fs/io_iter.h:7-22 | A scatter changes only the addresses it reached, and an address that occurs once holds its byte. |
| `IoIter.GatheredSlice` | fs/pipe.c:355-360 | A complete gather of a window of a request is that slice of the request, and it is complete exactly if every address is mapped. |
| `VirtqueueSpec.EveryRun` | hal/virtqueue.c:89-177 | In every run with a device completing in any order: free list and chains in flight cover the descriptors exactly once, both rings fit, and the tickets are the returned ones, each once, plus those in flight. |
| `VirtqueueSpec.UnreadFits` | hal/virtqueue.c:89-128 | No unread available-ring slot can be overwritten. |
| `VirtqueueSpec.UncollectedFits` | hal/virtqueue.c:141-177 | No uncollected used-ring slot can be overwritten. |
| `VirtqueueDriver.Driver.constructor` | hal/virtqueue.c:30-87 | The fresh free list links all descriptors, and the rings are empty. |
| `VirtqueueDriver.Driver.AddChain` | hal/virtqueue.c:89-128 | Submits exactly when the chain is not empty and has no more buffers than descriptors are free; then the head it puts next into the available ring leads the device, by the flags and links in the descriptors, to exactly the buffers given. |
| `VirtqueueDriver.ChainReads` | hal/virtqueue.c:98-115 | Every chain in flight reads for the device as the buffers that were handed in: address, length and direction of each in order, and the chain ends with the last. |
| `VirtqueueDriver.Driver.DeviceTake` | hal/virtqueue.c:117-126 | The device takes the chains in the order they were submitted, and finds the buffers of each. |
| `VirtqueueDriver.Driver.GetUsed` | hal/virtqueue.c:141-177 | Returns the cookie of the next completed chain, its length from the used ring, and frees the chain; nothing if the ring is empty. |
| `VirtqueueDriver.FillDescriptors` | hal/virtqueue.c:98-115 | The loop fills the descriptors along the free list with the buffers, linked in order, and leaves the others. |
| `VirtqueueDriver.ReleaseChain` | hal/virtqueue.c:159-173 | The loop walks the chain and puts all of it in front of the free list. |
| `VirtqueueDriver.EmptyTest` | hal/virtqueue.c:143-145 | Comparing the wrapped 16-bit indices is an exact test for an empty used ring. |
| `VirtqueueDriver.SlotOfIndex` | hal/virtqueue.c:119-121 | Masking the wrapped index gives the slot of the unwrapped count. |
| `KexecSort.Sort` | kernel/kexec.c:480-503 | The in-place quicksort yields a sorted permutation and touches nothing outside its bounds, and its recursion is at most the logarithm of the length deep. |
| `KexecSort.Partition` | kernel/kexec.c:482-492 | The Hoare partition splits the range at the pivot, by swaps alone. |
| `KexecMap.Coalesce` | kernel/kexec.c:813-825 | The runs cover exactly the staged frames and no two of them touch. |
| `KexecMap.Carve` | kernel/kexec.c:518-558 | The carve with its capacity test is the carve without one, given the room it is called with. |
| `KexecMap.CarveSafe` | kernel/kexec.c:518-558 | No usable address lies in the cut afterwards, and none is new. |
| `KexecMap.CarveComplete` | kernel/kexec.c:518-558 | Every usable address outside the cut stays usable. |
| `KexecMap.CarveDisjoint` | kernel/kexec.c:518-558 | Disjoint entries stay disjoint. |
| `KexecMap.AtMostOneSplinter` | kernel/kexec.c:543-553 | A cut of disjoint entries splits at most one of them. |
| `KexecMap.CarveAll` | kernel/kexec.c:887-902 | Carving all reservations leaves exactly the original usable addresses outside their union, never running out of the base_count + nres + 8 entries. |
| `KexecMap.CopyOut` | kernel/kexec.c:903-918 | The entries copied out are the ones that are not empty. |
| `KexecMap.ForgeMemoryMap` | kernel/kexec.c:801-918 | The whole: the forged map's usable addresses are the original minus the reserved ones and the staged frames, disjoint, other entries kept. |
| `KexecLoad.Load` | kernel/kexec.c:232-313 | Staged exactly if the headers are acceptable, the file holds the data and there are frames enough; ENOEXEC exactly if the headers are not; of the others EIO exactly if one of the first pages for which there are frames lacks data, and ENOMEM exactly if they all have theirs and there is one page more. A failure leaves the pool as before. |
| `KexecLoad.StagedImage` | kernel/kexec.c:258-307 | Every address of every segment that is to be loaded lies in a staged page with the permissions of the segment, and the page holds there the byte of the file, or zero behind the part in the file. |
| `KexecLoad.Validate` | kernel/kexec.c:232-251 | The first pass accepts exactly the images inside the window and counts their pages. |
| `KexecLoad.FillPage` | kernel/kexec.c:278-300 | Every byte of a page is the file's byte inside p_filesz and zero elsewhere; it fails exactly on a short read. |
| `KexecLoad.LoadSegment` | kernel/kexec.c:265-306 | A segment is loaded exactly if its data and enough frames are there, and fills exactly its slots. |
| `KexecLoad.FreeAll` | kernel/kexec.c:309-313 | A failure gives back each allocated frame exactly once. |
| `Fat32Runs.RunRefines` | fs/fat32.c:150-224 | Every run of writes, complete or cut short with only zeros left behind the size, keeps chains sound and disjoint, and every file reads as those writes replayed on a byte sequence with zero-filled gaps. |
| `Fat32Runs.CutShortIff` | fs/fat32.c:205-210 | A write that runs out of space has filled the room of the chain and the free clusters, and keeps the size; the file stays sound exactly if the request holds zeros where it reaches beyond the size in that room, which shows before the call, and inside the size it is overwritten in any case. |
| `Fat32Runs.LeftoverExposed` | fs/fat32.c:205-222 | A byte left behind the size is what a later write beyond it makes readable, in a gap that should read as zero. |
| `Fat32Limits.GapRun` | fs/fat32.c:99-224 | Two writes and a read of the driver on a disk with one free cluster: the first write runs out of space, the second succeeds behind its bytes, and the read gives a byte of the first where a gap reads as zero. |
| `Fat32Limits.DiskExists` | fs/fat32.c:32-65 | Every FAT can be on a disk: for any links there is a disk that holds them. |
| `Fat32Limits.OneFreeDisk` | fs/fat32.c:67-97 | A disk of the volume that run starts from. |
| `Fat32Limits.BigFile` | fs/fat32.c:217-222 | A disk with a sound file of 4 GiB less one byte. |
| `Fat32Limits.FourGigRun` | fs/fat32.c:217-222 | Appending one byte to such a file succeeds and leaves a size of zero. |
| `Fat32Runs.EveryRunKeepsChains` | fs/fat32.c:150-224 | Every run of writes, complete or cut short at any byte, keeps chains acyclic and disjoint and leaves every byte of the other files. |
| `Fat32Spec.WriteReadsBack` | fs/fat32.c:150-224 | After a complete write the file is the old one overwritten at the offset, grown with zeros. |
| `Fat32Spec.WriteKeepsFiles` | fs/fat32.c:150-224 | Writing one file changes no byte and no cluster of another. |
| `Fat32Spec.OtherChainSafe` | fs/fat32.c:67-97 | A chain out of reach of a write stays a chain with the same bytes, and shares no cluster with the grown one. |
| `Fat32File.WriteFile` | fs/fat32.c:150-224 | The driver's write is complete exactly if enough clusters are free, and otherwise writes what the chain and the free clusters have room for; result, size, start cluster and volume are as specified in both cases. |
| `Fat32File.RecordSize` | fs/fat32.c:217-222 | The recorded size is right exactly if the write ends below 4 GiB, and is otherwise its end modulo 2^32. |
| `Fat32File.CompleteWriteSteps` | fs/fat32.c:150-224 | A complete call is a step of the byte-sequence view, so the run theorem applies to it. |
| `Fat32File.CutShortWriteSteps` | fs/fat32.c:205-210 | A call that runs out of space is such a step, and keeps all files sound, exactly if the request holds zeros where it reaches beyond the size. |
| `Fat32File.ReadFile` | fs/fat32.c:99-148 | The driver's read returns the bytes of the file from the offset to the end of the request or of the file. |
| `Fat32File.SkipTo` | fs/fat32.c:162-172 | The skip loop reaches the cluster of the offset, growing the chain with zeroed clusters; it fails only on a full volume. |
| `Fat32File.NextOrAlloc` | fs/fat32.c:165-171 | The next cluster of a chain, or a fresh zeroed one linked to its end. |
| `Fat32File.TargetExists` | fs/fat32.c:150-224 | There is always a chain length a request needs, so the length argument of WriteFile excludes no call. |
| `Fat32Volume.Volume.GetNext` | fs/fat32.c:32-45 | Reads the 28-bit link of a cluster. |
| `Fat32Volume.Volume.SetNext` | fs/fat32.c:47-65 | Sets one link and nothing else, keeping the reserved bits. |
| `Fat32Volume.Volume.AllocCluster` | fs/fat32.c:67-97 | Takes the lowest free cluster, marks it as a chain's end and zeroes it; zero exactly if none is free. |
| `Fat32Volume.Volume.WriteCluster` | fs/fat32.c:180-200 | The sector-wise read-modify-write replaces exactly that part of the cluster. |
| `Fat32Volume.Volume.ReadCluster` | fs/fat32.c:123-139 | The sector-wise read yields exactly that part of the cluster. |
| `Fat32Volume.WordRoundTrip` | fs/fat32.c:58-61 | Writing a little-endian entry changes that entry alone and reads back. |
| `TmpfsTree.PutSettles` | fs/tmpfs.c:317-333 | tmpfs_node_put brings every count back to the references that exist, and frees a node exactly if none is left. |
| `TmpfsTree.CreateOk` | fs/tmpfs.c:545-607 | create, mknod, mkdir and symlink keep the tree and the counts. |
| `TmpfsTree.LinkOk` | fs/tmpfs.c:771-796 | link keeps them; the stub stands for a live primary node. |
| `TmpfsTree.RemoveOk` | fs/tmpfs.c:609-643 | unlink and rmdir keep them and free only what nothing refers to. |
| `TmpfsTree.RenameOk` | fs/tmpfs.c:645-687 | rename keeps them if the destination directory is not below the moved node. |
| `TmpfsTree.ExchangeOk` | fs/tmpfs.c:689-735 | The exchange keeps them if neither node is above the other's directory. |
| `TmpfsTree.OpenOk` | fs/tmpfs.c:800-809 | An open adds one owed reference. |
| `TmpfsTree.ReleaseOk` | fs/tmpfs.c:811-820 | A release settles the counts. |
| `TmpfsTree.HangBelowItselfLoops` | fs/tmpfs.c:645-687 | Hanging a node below itself makes a loop, so the condition of RenameOk is needed. |
| `TmpfsNodes.Tmpfs.constructor` | fs/tmpfs.c:1133-1180 | A mount starts as a root directory without names. |
| `TmpfsNodes.Tmpfs.Find` | fs/tmpfs.c:362-370 | The list search finds the node of the name, or that there is none. |
| `TmpfsNodes.Tmpfs.DirAdd` | fs/tmpfs.c:336-342 | Pushes the child on its parent's list. |
| `TmpfsNodes.Tmpfs.DirRemove` | fs/tmpfs.c:345-359 | Unlinks the child from the list, if it is there. |
| `TmpfsNodes.Tmpfs.NodePut` | fs/tmpfs.c:317-333 | On the nodes in memory it is the put of the tree. |
| `TmpfsNodes.Tmpfs.Make` | fs/tmpfs.c:545-607 | Creates the node, or EEXIST exactly if the name is taken. |
| `TmpfsNodes.Tmpfs.MakeLink` | fs/tmpfs.c:771-796 | Adds a stub for the primary node, or EEXIST exactly if the name is taken. |
| `TmpfsNodes.Tmpfs.Delete` | fs/tmpfs.c:609-643 | unlink and rmdir with their errors, and the removal in the tree. |
| `TmpfsNodes.Tmpfs.Rename` | fs/tmpfs.c:645-687 | rename with its errors, the removal of an existing destination, and the move in the tree: ENOENT exactly without the old name, another error exactly if the new name is of another kind or not empty. |
| `TmpfsNodes.Tmpfs.Swap` | fs/tmpfs.c:689-735 | The exchange, or ENOENT exactly if a name is missing. |
| `TmpfsNodes.Tmpfs.OpenFile` | fs/tmpfs.c:800-809 | Counts the new handle. |
| `TmpfsNodes.Tmpfs.ReleaseFile` | fs/tmpfs.c:811-820 | Gives up the handle's reference. |
| `Dcache.CachesAgree` | fs/vfs.c:104-236 | In a coherent state whatever the hash or the negative cache knows of a name is what the filesystem would answer. |
| `Dcache.LookupKeeps` | fs/vfs.c:662-690 | Caching a found name keeps coherence. |
| `Dcache.RememberKeeps` | fs/vfs.c:119-132 | Remembering an absence keeps it, whatever names the slot loses. |
| `Dcache.DropKeeps` | fs/vfs.c:184-211 | Removing a name with its dentry keeps it. |
| `Dcache.MoveKeeps` | fs/vfs.c:1623-1631 | Moving a dentry with its name keeps it. |
| `Dcache.SwapKeeps` | fs/vfs.c:1583-1601 | Exchanging two dentries with their names keeps it. |
| `DcacheTables.Tables.Lookup` | fs/vfs.c:214-236 | The chain search finds the hashed dentry of the key, or that there is none. |
| `DcacheTables.Tables.NegLookup` | fs/vfs.c:104-117 | Hits exactly if the name is remembered. |
| `DcacheTables.Tables.NegAdd` | fs/vfs.c:119-132 | Remembers the name and forgets the one its slot held. |
| `DcacheTables.Tables.NegInvalidate` | fs/vfs.c:134-144 | Forgets exactly this name. |
| `DcacheTables.Tables.Add` | fs/vfs.c:168-182 | Hashes the dentry, puts it on its parent's child list and forgets its remembered absence. |
| `DcacheTables.Tables.Remove` | fs/vfs.c:184-211 | Takes the dentry out of its hash chain and its parent's child list and forgets its remembered absence. |
| `DcacheTables.Tables.WalkUp` | fs/vfs.c:945-953 | The bounded walk towards the root decides whether it meets the ancestor. |
| `DcacheTables.Tables.Relocate` | fs/vfs.c:1623-1631 | The dentry surgery of rename, in its order, on hash chains and child lists. |
| `DcacheTables.Tables.Interchange` | fs/vfs.c:1583-1601 | The dentry surgery of the exchange, on hash chains and child lists. |
| `Namespace.EveryRunAgrees` | fs/vfs.c:640-690 | After every run of lookup, create, mkdir, mknod, symlink, link, unlink, rmdir, rename, exchange, open and close, a lookup through hash and negative cache gives what tmpfs gives. |
| `Namespace.EveryRunCounts` | fs/tmpfs.c:317-359 | After every run each node's count is its name plus its stubs plus its open handles and is positive, stubs stand for live nodes, and no cached dentry refers to a freed inode. |
| `Namespace.EveryRunTree` | fs/vfs.c:1511-1635 | After every run each named node hangs from the root by directories it is not among. |
| `Namespace.EveryRunMirrors` | fs/vfs.c:1576-1635 | After every run the cached dentries are a tree below the root dentry without two of a name in a directory, and a directory's dentry hangs below the dentry of the node's own directory. |
| `Namespace.RenameSound` | fs/vfs.c:1511-1631 | rename keeps tree, counts and caches, for every destination that a path in the kernel's buffers leads to. |
| `Namespace.SwapSound` | fs/vfs.c:1576-1601 | The exchange keeps them, for every two such names. |
| `Namespace.RenameCheckSuffices` | fs/vfs.c:1511-1534 | The ancestor check on dentries rules out a cycle among the nodes. |
| `Namespace.ClimbsMirror` | fs/vfs.c:945-953 | Climbing dentries meets a directory exactly if climbing nodes does within the same number of steps: the two trees mirror each other. |
| `Namespace.ByPathShallow` | fs/vfs.c:597-770 | What a lookup finds by a path of fewer than 512 bytes is within the 4096 steps of the ancestor walk. |
| `Namespace.RenameCheckExact` | fs/vfs.c:1521-1530 | The ancestor check of rename and exchange refuses to hang a directory under a name exactly if the nodes would not be a tree afterwards. |
| `NamespaceAnswers.RenameAnswers` | fs/vfs.c:1511-1575 | What rename answers, of the names alone: EINVAL exactly if a directory would come to hang below itself; else EEXIST exactly if it may not replace a name that is there; else, over another file, ENOTDIR exactly for a directory over none, EISDIR for the reverse, ENOTEMPTY exactly for a directory over one with names in it; never ENOENT; in every other case it succeeds. |
| `NamespaceAnswers.RenameLeaves` | fs/tmpfs.c:645-687 | What rename leaves: on success the old inode under the new name, the old name gone, every other name and the kind of every named inode as before; nothing at all changes on an error or if both names are of one inode. |
| `NamespaceAnswers.RemoveAnswers` | fs/tmpfs.c:609-643 | unlink fails exactly for directories, rmdir exactly for anything else and for directories with names in them; otherwise that name is gone and no other. |
| `NamespaceAnswers.SwapAnswers` | fs/vfs.c:1576-1602 | The exchange fails exactly if the nodes would not be a tree after it, and otherwise each of the two names has the inode of the other. |
| `NamespaceAnswers.MakeLeaves` | fs/tmpfs.c:545-607 | A new name leads to a new inode of the kind asked for, and every other name is as before. |
| `NamespaceAnswers.LinkLeaves` | fs/tmpfs.c:771-798 | link gives an inode that is no directory one more name, and changes no other. |
| `NamespaceAnswers.FilesLeaveNames` | fs/tmpfs.c:800-820 | Opening and closing change the open handles by one and no name. |
| `VfsOps.Vfs.LookupChild` | fs/vfs.c:640-690 | One lookup through hash, negative cache and tmpfs is a step of the namespace that changes no name, and gives a dentry of the inode under the name, or none exactly if there is no such name. |
| `VfsOps.Vfs.MakeChild` | fs/vfs.c:1271-1351 | mkdir and its kin fail with EEXIST exactly if tmpfs has the name, whatever the caches hold, and otherwise leave a new inode of the kind asked for under it and every other name as it was. |
| `VfsOps.Vfs.DeleteAt` | fs/vfs.c:1370-1441 | unlink and rmdir are a step of the namespace: EISDIR, ENOTDIR and ENOTEMPTY exactly by the kind of the inode and the names in it, and otherwise the name is gone and no other. |
| `VfsOps.Vfs.RenameAt` | fs/vfs.c:1443-1636 | rename is a step of the namespace, and its answer and effect are those of RenameAnswers and RenameLeaves on the names before the call. |
| `VfsOps.Vfs.SwapAt` | fs/vfs.c:1576-1602 | RENAME_EXCHANGE in place is the exchange step: EINVAL exactly if the nodes would not be a tree after it, and otherwise the two names have changed inodes. |
| `VfsOps.Vfs.LinkAt` | fs/vfs.c:1694-1753 | link refuses exactly directories, is a step of the namespace, and gives the inode the new name and changes no other. |
| `VfsGuard.GuardExcludes` | fs/vfs.c:28-51 | In every interleaving at most one thread is inside the namespace guard, and the depth is that thread's own nesting. |
| `VfsGuard.NoUseAfterFree` | fs/vfs.c:1101-1133 | In every interleaving a thread touches the file only while it exists, and while it owns a reference or is the one that took the count to zero. |
| `VfsGuard.FinalizedOnce` | fs/vfs.c:2091-2106 | In every interleaving the file is finalized at most once, never while a reference is owned, and exactly once when all are dropped and no call is under way. |
| `MountStack.UmountRestores` | fs/namespace.c:368-537 | After a mount and any run that leaves it on its dentry and unmounts there in order, the umount that takes the last mount above the old stack undoes the mount exactly if it is given the mount's path; inode, superblock, child list and the names that resolve are then as before. |
| `MountStack.CoverPushes` | fs/namespace.c:308-452 | A mount or bind gives its dentry the new inode and superblock without children, pushes what was there on the stack of the dentry, and touches no other dentry. |
| `MountStack.PopsIff` | fs/namespace.c:461-537 | umount takes the newest mount off its dentry, and puts back what that covered, exactly if the newest mount there was made under the path given. |
| `MountStack.UncoverElsewhere` | fs/namespace.c:461-537 | umount touches no other dentry and no other stack. |
| `MountStack.RefusedRestores` | fs/namespace.c:405-429 | A mount the filesystem refuses leaves everything as it was. |
| `MountStack.NamesAreChildren` | fs/vfs.c:314-338 | Below a dentry that can be reached, the names that resolve are exactly its current children. |
| `MountStack.RunKeeps` | fs/namespace.c:308-537 | The invariant behind it holds after every run of mount, bind, umount and lookups, whatever the paths. |
| `MountStack.TwoPathsExample` | fs/namespace.c:471-484 | A run from an empty table: a directory mounted on under two paths and unmounted in the order of the mounts keeps the inode of the filesystem unmounted first, with no mount left. |
| `MountStack.UmountRefusedIff` | fs/namespace.c:471-484 | On canonical paths umount is refused exactly if nothing is mounted under the components given or something is mounted below them. |
| `MountStack.UmountStrandsNothing` | fs/namespace.c:471-484 | After an umount the newest record of the path is out of the table, all others are in it, and none lies below the path. |
| `MountOps.Table.UnhashWalk` | fs/vfs.c:314-338 | The recursive walk unhashes exactly what is below the dentry within the depth bound. |
| `MountOps.Table.RehashWalk` | fs/vfs.c:314-338 | The recursive walk hashes exactly what is below the dentry within the depth bound. |
| `MountOps.Table.MountOn` | fs/namespace.c:308-452 | mount and bind on an existing dentry, with the refusal path. |
| `MountOps.Table.UmountPath` | fs/namespace.c:461-537 | umount fails with EINVAL exactly if the path is not mounted, with EBUSY exactly if something is mounted below it (UmountRefusedIff), and otherwise uncovers the newest. |
| `SignalNesting.HandlerRoundTrip` | kernel/signal.c:388-652 | A handler, whatever it runs and however deep others nest in it, gives back all registers, the permitted flags, the floating-point state and the mask that a masked wait had put aside, or else the one in force; only a system call to be restarted is two bytes back with its number in rax. The process is killed exactly if that instruction pointer or the stack pointer is no user address. |
| `SignalNesting.ReturnRestores` | kernel/signal.c:571-652 | rt_sigreturn on a live frame kills the process exactly if the saved instruction or stack pointer is no user address, and otherwise restores everything. |
| `SignalNesting.SigreturnSafe` | kernel/signal.c:590-652 | Whatever the frame in user memory holds, a process that is not killed goes on at user addresses with user selectors, none but the permitted and forced flags, and SIGKILL and SIGSTOP unblocked. |
| `SignalNesting.NewFrameApart` | kernel/signal.c:388-451 | Under the discipline of handlers a new frame overlaps no live frame. |
| `SignalNesting.HandlerSeesFrame` | kernel/signal.c:457-568 | How a handler starts: at its address, on its frame, with its three arguments, rax zero, the cleared flags, its mask added, and all else as it was; in user memory its return address on top of the stack, the signal number behind its second argument, and behind its third the alternate stack, all saved registers in order, the flags, the floating-point address and the mask. |
| `SignalNesting.ApartIffStillOn` | kernel/signal.c:396-437 | After a frame entered onto the alternate stack, the next is apart from it exactly if the thread is still on that stack or does not ask for it. |
| `SignalNesting.ReentryOverwrites` | kernel/signal.c:396-437 | A thread that has run off the alternate stack has the next frame put over the first. |
| `SignalNesting.RunOffExample` | kernel/signal.c:396-451 | A concrete stack and stack pointer where that happens. |
| `SignalNesting.InsideIffRoom` | kernel/signal.c:415-451 | The frame for a thread that is on the alternate stack is inside that stack exactly if the stack pointer is a frame, the red zone and the alignment above its low end; the code checks the size only on entry. |
| `SignalNesting.NestedOverflowExample` | kernel/signal.c:415-451 | A concrete 2048-byte alternate stack: large enough to be entered, and the frame of a nested handler lies below it. |
| `SignalNesting.AllowedKeeps` | kernel/signal.c:626-626 | The permitted flags come back unchanged, two are forced, and no other is let in. |
| `SignalFrame.FrameRoundTrip` | kernel/signal.c:457-497 | What rt_sigreturn reads from the frame's words is what delivery saved. |
| `SignalFrame.PlacedWell` | kernel/signal.c:388-451 | The stack pointer is 8 modulo 16, the floating-point area 64-byte aligned, the frame below the red zone or wholly inside the newly entered alternate stack. |
| `SignalFrame.PlaceIff` | kernel/signal.c:396-451 | Where the frame goes, exactly: below the end of the alternate stack if that is asked for and not in use, else below the red zone, at the highest address that leaves the floating-point area aligned; and nowhere, exactly if there is no room for it. |
| `SignalDelivery.LowestSignal` | kernel/signal.c:256-261 | The lowest signal below 64 of a set, or zero. |
| `SignalDelivery.SignalThread.NextSignal` | kernel/signal.c:281-306 | Picks the lowest signal sent to the thread that is neither blocked nor SIGKILL or SIGSTOP, and only if it has none the lowest such sent to the process. |
| `SignalDelivery.SignalThread.DeliverSignal` | kernel/signal.c:376-563 | Delivery in place is the delivery of the model; it consumes the signal from the set it was in, and a SA_RESETHAND handler is taken off. |
| `SignalDelivery.SignalThread.SigReturn` | kernel/signal.c:571-657 | rt_sigreturn in place is the return of the model. |
| `KTimer.PeriodsExact` | kernel/ktimer.c:71-101 | In every run of sweeps at non-decreasing times, an interval timer's expiry is its first expiry plus (fires + overrun) intervals, lies after now, and fires plus overrun is the number of periods begun, whenever the sweeps happened. |
| `KTimer.OneShotFiresOnce` | kernel/ktimer.c:71-101 | A one-shot timer fires exactly once, at the first sweep not before its expiry, and is then disarmed. |
| `KTimer.OverrunStored` | kernel/ktimer.c:86-90 | The stored overrun is the overrun modulo 2^32. |
| `KTimer.AfterNowIff` | kernel/ktimer.c:86-91 | In 64-bit ticks the next expiry is after now exactly if it does not wrap. |
| `KTimer.Remaining` | kernel/ktimer.c:173-178 | The remaining time is zero exactly if the timer is disarmed. |
| `KTimer.Table.Scan` | kernel/ktimer.c:71-108 | One sweep treats every slot as specified and raises exactly the signals of the expired ones, in slot order. |
| `KTimer.SignalsIff` | kernel/ktimer.c:71-108 | A sweep raises a signal exactly for the armed timers whose clock (all ticks, the user ticks or all ticks of the owner) has reached their expiry and that want one. |
| `KTimer.Table.SetTime` | kernel/ktimer.c:217-244 | Fails exactly if the process has no such timer; a value of zero disarms it and forgets the interval, any other arms it for that time, or so much later than now, with the interval given and no overrun; reports what was left and the old interval. |
| `KTimer.Table.SetItimer` | kernel/ktimer.c:304-352 | The same for the interval timer of a kind on the clock of that kind, which is created in a free slot with its signal if it is to be armed and stays the only one of its owner and kind. |
| `KTimer.Table.Exit` | kernel/ktimer.c:131-142 | Leaves no timer of the process and touches no other. |
| `PathWalk.WalkAtConfined` | fs/vfs.c:955-1049 | With RESOLVE_BENEATH or RESOLVE_IN_ROOT every dentry returned, also an absent one to be created, descends from the start of the walk. |
| `PathWalk.WalkLoop` | fs/vfs.c:955-1049 | The loop ends for every path and every link text, by links left and then text left, and computes the walk. |
| `PathWalk.WalkIsDescent` | fs/vfs.c:955-1049 | On directories alone the walk is the fold of lookups over the components. |
| `PathWalk.WalkPrefix` | fs/vfs.c:955-1049 | An unconfined walk over directories and then more is the walk of the rest from where they lead. |
| `PathWalk.LinkStandsForText` | fs/vfs.c:1010-1046 | An unconfined walk that goes through a link, in the middle or at the end of a path, goes on from the directory the text leads to, from the root if the text is absolute, with one link less to spend; a path that ends with the link is found there. |
| `PathWalk.WalkMeetsLink` | fs/vfs.c:1010-1046 | The walk over a link that may be followed, also as the last component, is the walk of its text with what is left behind it, with one link less. |
| `PathWalk.WalkRefusesLink` | fs/vfs.c:1010-1042 | With O_NOFOLLOW a final link is itself found; otherwise a link is refused, in this order, with ELOOP by the RESOLVE_ flags or after 40 links, EACCES, EINVAL, ENOENT, ENAMETOOLONG or EXDEV, each for its cause. |
| `PathWalk.WalkMeetsName` | fs/vfs.c:991-1047 | A last name that is absent is returned to be created, one before others is ENOENT; a directory is walked on from; a file is found at the end of a path and ENOTDIR before more, also before a slash; a confined walk stops with EXDEV at anything outside. |
| `PathWalk.WalkDots` | fs/vfs.c:984-990 | "." is the directory itself; ".." is its parent, for the root itself, and EXDEV where a confined walk would leave. |
| `PathWalk.WalkStuck` | fs/vfs.c:972-979 | A component below something absent is ENOENT, below a file ENOTDIR, and ENAMETOOLONG above 254 bytes. |
| `PathWalk.ClimbsIff` | fs/vfs.c:945-953 | The bounded climb of a confined walk meets a dentry exactly if a chain of parents of at most that many dentries leads there. |
| `PathWalk.WalkIsResolution` | fs/vfs.c:955-1049 | On directories without links, walking a path with its "." and ".." component by component arrives where the lexical fold of vfs_resolve_path says. |
| `PathWalk.WalkAtResolves` | fs/vfs.c:500-552 | Walking a path from a working directory arrives at the dentry that lookups from the root find under the components of the path that vfs_resolve_path makes of the two strings. |
| `PathResolve.ResolvePath` | fs/vfs.c:500-552 | vfs_resolve_path is the fold of the components over a stack, with its limits, written out. |
| `PathResolve.ResolvedForm` | fs/vfs.c:480-552 | A result is the whole fold and fits the buffer: components are refused and never cut. |
| `PathResolve.ResolveIdempotent` | fs/vfs.c:500-552 | Resolving a result again, from anywhere, gives it back. |
| `PathResolve.SplitJoin` | fs/vfs.c:508-546 | Joining components and splitting the path are inverse. |
| `PathResolve.SlashDroppedIff` | fs/vfs.c:546-549 | The one thing dropped and not refused is a trailing slash, exactly if the result is the root or the buffer has no room. |
| `PathResolve.SlashDroppedExample` | fs/vfs.c:546-549 | A path of 255 characters that loses its trailing slash in a buffer of 256 bytes and keeps it in one of 512. |
| `PathResolve.UnderIsPrefix` | fs/namespace.c:60-66 | On canonical paths path_under is having the mount point's components first. |
| `PathResolve.MountPathForm` | fs/namespace.c:50-57 | Every path in the mount table is the join of the canonical components of what was given. |
| `PathResolve.Enclosing` | fs/namespace.c:70-80 | The search finds, of the mounts that contain the path, the first with the longest mount point, or that there is none. |
| `PathResolve.EnclosingIsDeepest` | fs/namespace.c:70-80 | That mount is the deepest in components: every other one that contains the path contains it. |

## Left out

- PipeStream.EveryRunConserves: assumes that no pending snapshot is overtaken by 2^64 committed reads; `PipeLimits.LappedReaderBreaksStream` shows that the assumption is needed.
- PipeWakeups.NoLostWakeup: runs in which a kernel-buffer write commits while two or more readers wait are not covered; `PipeWakeups.KernelPutIff` and `PipeLimits.KernelWriteLosesWakeup` show that they cannot be.
- VirtqueueSpec.EveryRun: the device is well behaved, reporting each chain it was given once; queue sizes are the powers of two up to 32768.
- VirtqueueDriver.Driver.constructor: allocation failure and the physical layout of the rings (vring_size) are not modelled.
- KexecMap.ForgeMemoryMap: memory-map entries are disjoint and ranges end below 2^64; the reservations for stacks, page tables and responses are parameters.
- KexecLoad.Load: the program headers read the same in both passes; the file is at most the 256 MB the loader accepts.
- Fat32File.WriteFile: sectors have 512 bytes, I/O does not fail, the request starts within the first 2^32 clusters, and the scan for free clusters stays in the first FAT copy, because the driver scans all copies as if they were one.
- Fat32File.SkipTo: the scan for free clusters stays in the first FAT copy.
- Fat32File.NextOrAlloc: the scan for a free cluster stays in the first FAT copy.
- Fat32Volume.Volume.AllocCluster: the scan stays in the first FAT copy, and every entry of the FAT is taken to be a cluster on the disk; surplus entries in the last sector of a real FAT, which the driver would hand out, are not modelled.
- Fat32File.ReadFile: I/O does not fail, and the recorded size does not exceed the chain.
- Namespace.EveryRunAgrees: one tmpfs mount reached without bind mounts; dentry addresses are not reused; permission, sticky-bit and read-only checks do not appear.
- Namespace.RenameSound: the destination is what a lookup by a path of fewer than 512 bytes gives, the size of the buffers in kernel/syscall/sys_fs.c:1416, 2599 and 2609 and of the path a symbolic link rewrites in fs/vfs.c:609-611.
- VfsOps.Vfs.RenameAt: starts from dentries that the path lookups have found; path strings, trailing slashes, "." and ".." and cross-device checks are not part of it.
- VfsGuard.FinalizedOnce: fewer than 2^32 references, so the count does not wrap.
- MountStack.UmountRestores: no MS_MOVE, allocations succeed, and cached trees below a mountpoint are at most 64 levels deep; the remembered absences that mount and umount drop are not modelled, so the names that resolve are those of the hash.
- MountStack.UmountRefusedIff: on paths as mnt_canon leaves them; `PathResolve.MountPathForm` says that the table has no others.
- MountOps.Table.UmountPath: the check for processes that use the mount, syncing and put_super are not modelled.
- SignalNesting.HandlerRoundTrip: handlers leave live frames alone, run on the stack of their frame and leave room for one more; the floating-point area counts whole words; CR2, ptrace and default actions are not modelled.
- SignalDelivery.SignalThread.DeliverSignal: one thread of a process; whether a system call is restarted is a parameter; what its siblings do to the shared pending set and handlers in between is not modelled.
- SignalNesting.NewFrameApart: relies on the same discipline; `SignalNesting.ApartIffStillOn` says what breaks without it.
- KTimer.PeriodsExact: the clock plus one interval stays below 2^64.
- PathWalk.WalkAtResolves: unconfined, on directories without links, from a root that is not below itself.
- PathWalk.WalkAtConfined: names resolve the same throughout the walk, as the namespace guard ensures, and a looked-up dentry hangs below its directory.
- Data of tmpfs files (read, write, truncate, fallocate, mmap) and link counts.
- FAT32 directories, mount and format.
- The kexec trampoline, page-table rewriting, parking of processors and the patched boot responses.
- Pipe poll, ioctl and socket pairs; null-pointer and bad-descriptor checks of all system calls.
- Remount, moving mounts and the formatting of /proc/mounts.
- flock, epoll and fanotify hooks of open and close.
- timer_create, timer_delete and getoverrun, which only look a slot up.
- Other filesystems, drivers, the scheduler and memory management.
