# Nachos 4.0, modelled in Dafny

Nachos is an instructional operating system together with the simulated machine it runs on. This project models its
core and proves what it is for: the file system is a map from names to byte strings, whatever the disk sectors do; the
synchronization primitives exclude, wake and hand over as they should in every interleaving; every process has a memory
to itself although all share the frames; the simulated hardware computes what the architecture says.

Code that works by updating things in place is modelled as classes and methods with loops, each proved against a
function or predicate on values; the laws are then lemmas about those. Code whose difficulty is concurrency is modelled
as a machine of small steps, with an invariant that every step keeps, a simple specification of which every step is a
step, and theorems about every run. What these say about the past of a run (what was sent, written, appended, asked for)
is read off the steps of the run, whatever the states record.

| part | modules |
|---|---|
| Disk, file headers, open files, directory, free map | `Disks`, `FileHeaders`, `OpenFiles`, `ChunkedIO`, `Directories`, `Bitmaps`, `PersistentBitmaps` |
| File system on the disk, its runs and its specification | `FileSystems` (the code), `FileSystemModel`, `FileSystemSteps`, `FileSystemFormat`, `FileSystemCapacity`, `FileSystemRuns`, `FileSystemRefinement`, `FileSystemRoundTrip`, `FileSystemSessions` (all open files) |
| Threads, semaphores, locks, conditions and what is built on them | `Kernel` with its specification `Scheduling`, `Monitor` with its specification `Mesa`, `SynchLists`, `SynchDisks`, `PostOffices` |
| The MIPS machine, address translation, loading of programs | `Multiplication`, `Machines`, `MachineState`, `AddressSpaces`, `AddressSpaceRuns`, `Loading` |
| Event queue and disk timing | `Interrupts`, `InterruptRuns`, `InterruptDevice`, `DiskTiming` |
| Containers | `Lists`, `HashTables` |

Decisions that matter when reading the model:

- The file system is the one compiled without `FILESYS_STUB`: 1024 sectors of 128 bytes, 30 direct sectors per file, a
  directory of ten entries of 20 bytes, names compared and stored up to nine characters. Memory that the code does not
  initialise is arbitrary. `Inv` in `FileSystemModel` says that the set bits of the free map are exactly sectors 0 and 1,
  the data sectors of those two files, and the header and data sectors of the directory's entries, each owned once.
- `Create` may fail for lack of sectors, and `CreateStep` says so, but `CreateRefines` shows that this cannot happen to a
  file of legal length on this geometry: with a free directory slot there are always enough free sectors.
- A frame number is a signed int in `AddrSpace::Translate` and an unsigned one in `Machine::Translate`. Negative ones
  therefore pass the kernel's range test and stop at its ASSERT; for those below -2^24 the product with the page size
  overflows as well, and the model does not tell the two apart.
- In `Kernel` a step is a section that runs with interrupts off. In the machines of locks, conditions, `SynchList` and
  `SynchDisk` the P and V operations and the interrupts are atomic, and every other assignment can be interleaved. The
  source is preempted only where simulated time advances, so its runs are among these. In `PostOffices` the polling of
  the network and `NetworkInput::Receive`, which clears the header before it copies the inbox, are atomic as well, because
  simulated time does not advance within them; a delivery is the step in which the mailbox's `SynchList` takes the mail.
- `SynchList` is used with items that are not already on the list, because `List::Append` asserts it. Messages are sent
  to mailboxes that exist at the receiver: `Send` checks only that the number is not negative, and the receiver asserts
  the upper bound. Packets may be dropped at will. The sender's `sendBusy` flag is never set in the source and is not
  modelled.
- The machine is the `SIM_FIX` build on a little-endian host. Words are 32-bit patterns; additions wrap.
- Interrupt handlers are arbitrary except that they schedule events strictly later than now, which `Schedule` asserts.

## Model

| member | source | states |
|---|---|---|
| `Bitmaps.Bitmap.FindAndSet` | code/lib/bitmap.cc:110-120 | Returns and sets the lowest clear bit; -1 exactly when every bit is set |
| `Bitmaps.Bitmap.NumClear` | code/lib/bitmap.cc:128-139 | The number of clear bits |
| `Bitmaps.Bitmap.Mark` | code/lib/bitmap.cc:55-63 | Sets one bit and no other, through word and mask arithmetic |
| `Bitmaps.Bitmap.Clear` | code/lib/bitmap.cc:72-80 | Clears one bit and no other |
| `Bitmaps.Bitmap.Test` | code/lib/bitmap.cc:89-99 | Tells whether one bit is set |
| `Bitmaps.Bitmap.constructor` | code/lib/bitmap.cc:21-36 | Every word is zero, so all bits are clear, the spare bits of the last word included |
| `Bitmaps.FirstFitStep` | code/filesys/filehdr.cc:43-58 | Repeated FindAndSet takes the lowest free positions in increasing order and nothing else |
| `PersistentBitmaps.MapRoundTrip` | code/filesys/pbitmap.cc:62-79 | The bytes written for a bitmap read back as the same words |
| `PersistentBitmaps.FetchFrom` | code/filesys/pbitmap.cc:62-66 | The words are overwritten by the file as far as both reach; when the file has just their length, the bitmap is the one stored in it |
| `PersistentBitmaps.WriteBack` | code/filesys/pbitmap.cc:75-79 | The words go to the file as far as they fit, no sector outside the file changes, and read back they are the same bits |
| `PersistentBitmaps.BitLayout` | code/filesys/pbitmap.cc:62-79 | Eight bits of the map are one byte of the file, lowest bit first |
| `OpenFiles.Clip` | code/filesys/openfile.cc:112-124 | As many bytes as were asked for, but none past the end of the file |
| `FileHeaders.HeaderRoundTrip` | code/filesys/filehdr.cc:83-100 | A header written to a sector is the header read from it |
| `FileHeaders.HeaderLayout` | code/filesys/filehdr.h:60-63 | The sector holds length, number of sectors and sector numbers as little-endian ints, in this order |
| `FileHeaders.ContentFrame` | code/filesys/filehdr.cc:112-116 | A file's bytes depend on its own data sectors only |
| `FileHeaders.FileHeader.Allocate` | code/filesys/filehdr.cc:43-58 | Succeeds exactly when enough sectors are free, then takes the lowest ones; on failure the map is unchanged |
| `FileHeaders.FileHeader.Deallocate` | code/filesys/filehdr.cc:67-74 | Frees exactly the data sectors of the file |
| `FileHeaders.FileHeader.FetchFrom` | code/filesys/filehdr.cc:83-87 | The header becomes the one in the sector |
| `FileHeaders.FileHeader.WriteBack` | code/filesys/filehdr.cc:96-100 | The sector holds the header; no other sector changes |
| `FileHeaders.FileHeader.ByteToSector` | code/filesys/filehdr.cc:112-116 | On every disk, the byte of the file at an offset is byte offset modulo 128 of this sector |
| `OpenFiles.OpenFile.ReadAt` | code/filesys/openfile.cc:112-138 | The file's bytes from the position on, cut at the end of the file, and nothing else in the buffer changes |
| `OpenFiles.OpenFile.FillBuffer` | code/filesys/openfile.cc:153-170 | The sector buffer of a write holds the request with the old bytes around it |
| `OpenFiles.OpenFile.WriteAt` | code/filesys/openfile.cc:140-178 | The file becomes its old bytes with the clipped request spliced in; no sector outside the file changes |
| `OpenFiles.OpenFile.Read` | code/filesys/openfile.cc:72-77 | ReadAt at the seek position, which moves past the bytes read |
| `OpenFiles.OpenFile.Write` | code/filesys/openfile.cc:79-84 | WriteAt at the seek position, which moves past the bytes written |
| `OpenFiles.ReplacedIsWritten` | code/filesys/openfile.cc:168-178 | Replacing whole sectors by such a buffer is the splice of the request |
| `ChunkedIO.WriteRunIsOneWrite` | code/filesys/openfile.cc:79-84 | Any run of chunked writes equals one write of the concatenation, cut at the end of the file |
| `ChunkedIO.ReadRunIsOneRead` | code/filesys/openfile.cc:72-77 | Any run of chunked reads equals one read of the total |
| `ChunkedIO.ChunksRoundTrip` | code/filesys/openfile.cc:72-178 | Written in any chunks and read back in any chunks: the same bytes, cut at the end of the file |
| `Directories.SameNameIsEqualKey` | code/filesys/directory.cc:89-97 | The nine-character comparison is equality of truncated names, whatever stale bytes follow |
| `Directories.CopiedKey` | code/filesys/directory.cc:128-142 | A stored name reads back as its first nine characters |
| `Directories.TableRoundTrip` | code/filesys/directory.cc:62-79 | The table written to the directory file is the table read from it |
| `Directories.EntryLayout` | code/filesys/directory.h:32-39 | Where the in-use flag, the sector and the name of an entry lie in the file |
| `Directories.Directory.FindIndex` | code/filesys/directory.cc:89-97 | The first entry in use with the name; -1 exactly when there is none |
| `Directories.Directory.Find` | code/filesys/directory.cc:107-115 | The header sector of that entry, or -1 |
| `Directories.Directory.Add` | code/filesys/directory.cc:128-142 | Fails, changing nothing, exactly when the name is present or no slot is free; else fills the first free slot |
| `Directories.Directory.Remove` | code/filesys/directory.cc:152-161 | Fails exactly when the name is absent; else only the in-use flag of its entry is cleared |
| `Directories.Directory.FetchFrom` | code/filesys/directory.cc:62-66 | The table is overwritten by the file as far as both reach; when the file has just its length, it is the table stored there |
| `Directories.Directory.WriteBack` | code/filesys/directory.cc:75-79 | The encoded table goes to the file as far as it fits |
| `FileSystems.FileSystem.Format` | code/filesys/filesys.cc:81-147 | Whatever the disk held, it becomes a valid, empty file system |
| `FileSystems.FileSystem.Boot` | code/filesys/filesys.cc:81-147 | Opens the map and directory files of a valid disk |
| `FileSystems.FileSystem.Create` | code/filesys/filesys.cc:177-219 | Does one `CreateStep`: all three writes on success, no disk byte changed on failure, with the exact condition of failure; keeps the file system valid |
| `FileSystems.FileSystem.Open` | code/filesys/filesys.cc:230-244 | Null exactly for unknown names; else a handle at position 0 whose bytes are the file's and whose header is the one on disk |
| `FileSystems.FileSystem.Remove` | code/filesys/filesys.cc:259-289 | Does one `RemoveStep`: fails exactly for unknown names; keeps the file system valid |
| `FileSystems.FormatDisk` | code/filesys/filesys.cc:81-147 | The writes of the formatting constructor, in order |
| `FileSystemFormat.FormatEffect` | code/filesys/filesys.cc:81-147 | A formatted disk satisfies the invariant, holds no file, and has exactly sectors 0 to 4 in use |
| `FileSystemSteps.CreateKeepsInv` | code/filesys/filesys.cc:177-219 | Create keeps: set bits are exactly the owned sectors, each with one owner, names distinct |
| `FileSystemSteps.CreateEffect` | code/filesys/filesys.cc:177-219 | Create adds one file of the requested length; every other file keeps its bytes |
| `FileSystemSteps.RemoveKeepsInv` | code/filesys/filesys.cc:259-289 | Remove keeps the same invariant |
| `FileSystemSteps.RemoveEffect` | code/filesys/filesys.cc:259-289 | Remove deletes one name; every other file keeps its bytes |
| `FileSystemSteps.WriteKeeps` | code/filesys/openfile.cc:140-178 | A write through a handle keeps the invariant, the map, the table, all headers and all other files |
| `FileSystemSteps.WriteEffect` | code/filesys/openfile.cc:140-178 | Seen as a map of files, a write splices its bytes into one value |
| `FileSystemCapacity.SectorsAddUp` | code/filesys/filesys.cc:177-289 | Free sectors, the five bootstrap sectors and the sectors of the files add up to the disk |
| `FileSystemCapacity.AlwaysRoom` | code/filesys/filesys.cc:177-219 | With a free directory slot there are always enough free sectors for any legal file |
| `FileSystemCapacity.SlotFreeIffFewFiles` | code/filesys/directory.cc:128-142 | A slot is free exactly when there are fewer than ten files |
| `FileSystemRuns.CreateRefines` | code/filesys/filesys.cc:177-219 | On the map of files: fails exactly when the file is too long, the name is taken or there are ten files; failure changes no disk byte |
| `FileSystemRuns.RemoveRefines` | code/filesys/filesys.cc:259-289 | On the map of files: deletes the name, and fails exactly when it is absent |
| `FileSystemRuns.CreateThenRemove` | code/filesys/filesys.cc:177-289 | Create then Remove restores the map of files and the set of free sectors |
| `FileSystemRefinement.CreateIsSpec` | code/filesys/filesys.cc:177-219 | Create is the specification's step, and open handles keep their files and positions |
| `FileSystemRefinement.RemoveIsSpec` | code/filesys/filesys.cc:259-289 | Remove is the specification's step; only handles on that file go stale |
| `FileSystemRefinement.OpenIsSpec` | code/filesys/filesys.cc:230-244 | Open is the specification's step |
| `FileSystemRefinement.WriteIsSpec` | code/filesys/openfile.cc:79-178 | WriteAt, and Write at the seek position which then moves on, are steps of the specification |
| `FileSystemRefinement.ReadIsSpec` | code/filesys/openfile.cc:72-138 | ReadAt, and Read at the seek position which then moves on, return what the specification says |
| `FileSystemRefinement.SeekIsSpec` | code/filesys/openfile.cc:54-58 | Seek moves one position and nothing else |
| `FileSystemRefinement.StepRefines` | code/filesys/filesys.cc:81-289 | Every operation, on names, handles and positions, is a step of the map-of-files specification |
| `FileSystemRefinement.RunKeepsInv` | code/filesys/filesys.cc:81-289 | The disk invariant holds in every state of every run from a formatted disk |
| `FileSystemRefinement.RunRefines` | code/filesys/filesys.cc:81-289 | Every run is a run of the specification from the empty map, with a name and a seek position behind each handle |
| `FileSystemRoundTrip.WrittenIsReadBack` | code/filesys/openfile.cc:54-84 | In any run, what is written through a handle in any chunks is, after a Seek back, read through it in any chunks, cut at the end of the file |
| `FileSystemSessions.Session.Create` | code/filesys/filesys.cc:177-219 | The call is the Create step of a run, all open files stay as they are |
| `FileSystemSessions.Session.Remove` | code/filesys/filesys.cc:259-289 | The call is the Remove step of a run |
| `FileSystemSessions.Session.Open` | code/filesys/filesys.cc:230-244 | The call is the Open step of a run: one more handle, on the file of that name |
| `FileSystemSessions.Session.Seek` | code/filesys/openfile.cc:54-58 | The call is the Seek step of a run |
| `FileSystemSessions.Session.WriteAt` | code/filesys/openfile.cc:140-178 | The call is the WriteAt step of a run and keeps the file system valid |
| `FileSystemSessions.Session.Write` | code/filesys/openfile.cc:79-84 | The call is the Write step of a run and keeps the file system valid |
| `FileSystemSessions.Session.ReadAt` | code/filesys/openfile.cc:112-138 | The call is the ReadAt step of a run |
| `FileSystemSessions.Session.Read` | code/filesys/openfile.cc:72-77 | The call is the Read step of a run |
| `Kernel.StepOk` | code/threads/scheduler.cc:56-167 | Every kernel section keeps the invariant, and no ASSERT fails in it |
| `Kernel.TraceOk` | code/threads/thread.cc:91-255 | The invariant holds in every state of every run of forks, yields, P, V, finishes and interrupts |
| `Kernel.ExactlyOnePlace` | code/threads/thread.cc:146-255 | Every live thread is in exactly one place: running, ready, on one semaphore, just created, or to be destroyed |
| `Kernel.DestroyOk` | code/threads/scheduler.cc:160-167 | The thread that is deleted is never the running one |
| `Kernel.VOk` | code/threads/synch.cc:102-117 | V keeps the invariant, by a thread or by an interrupt handler |
| `Kernel.TryPOk` | code/threads/synch.cc:75-92 | One turn of the loop in P, with barging, keeps the invariant |
| `Kernel.NoLostWakeup` | code/threads/synch.cc:75-117 | With sleepers, the value is at most the number of woken threads still to retry, so a positive value always has a ready retrier |
| `Scheduling.UpIs` | code/threads/synch.cc:102-117 | V adds one unit; the thread that has slept longest leaves the queue and goes to the end of the ready list, to test again; nothing else changes |
| `Scheduling.DownIs` | code/threads/synch.cc:75-92 | P takes one unit if there is one; else the thread joins the end of the queue and the longest ready thread runs |
| `Scheduling.GiveUpIs` | code/threads/thread.cc:201-217 | Yield puts the thread at the end of the ready list and runs the first one; with nobody ready it does nothing |
| `Scheduling.StartIs` | code/threads/thread.cc:91-106 | Fork puts a created thread at the end of the ready list |
| `Scheduling.ExitIs` | code/threads/thread.cc:171-181 | Finish leaves the thread to be deleted and runs the first ready one, if any |
| `Scheduling.BuryIs` | code/threads/scheduler.cc:160-167 | The thread that is switched to deletes the finished one and changes nothing else |
| `Scheduling.StepRefines` | code/threads/scheduler.cc:56-167 | Every kernel section is one step of the specification: one running thread, lines of others, counting semaphores |
| `Scheduling.RunRefines` | code/threads/scheduler.cc:56-167 | Every run of the kernel is a run of that specification |
| `Scheduling.CanGoOn` | code/threads/thread.cc:239-255 | The kernel is stuck exactly when nobody runs and nobody is ready, and then interrupts are taken; a running thread may do anything |
| `Scheduling.ValueCounts` | code/threads/synch.cc:75-117 | Over any part of any run, a semaphore's value goes up by the V steps and down by the P steps that came through, counted on the steps |
| `Scheduling.ValueSinceCreation` | code/threads/synch.cc:46-117 | Hence value = initial + Vs - Ps since its creation |
| `Scheduling.WakeOrder` | code/threads/synch.cc:102-117 | A sleeper with p others before it is made ready by exactly the (p+1)-th V from then on |
| `Scheduling.DispatchOrder` | code/threads/scheduler.cc:74-85 | The thread at ready position p gets the processor at exactly the (p+1)-th dispatch from then on |
| `Monitor.NoFault` | code/threads/synch.cc:181-301 | No ASSERT fails and no waiter semaphore is touched after its deletion |
| `Monitor.StepOk` | code/threads/synch.cc:181-301 | Every step of locks and conditions keeps the invariant |
| `Monitor.TraceOk` | code/threads/synch.cc:181-301 | The invariant holds in every state of every interleaving |
| `Monitor.MutualExclusion` | code/threads/synch.cc:181-203 | At most one thread is between Acquire's P and Release's V, and lockHolder is null or that thread |
| `Monitor.WokenOnce` | code/threads/synch.cc:248-287 | In every run, counting the V steps, each waiter is woken exactly once, after it left the queue, and sleeps only until then |
| `Monitor.NoLostWakeup` | code/threads/synch.cc:181-203 | While threads sleep on a free lock, one is awake and about to test it |
| `Monitor.DeleteOk` | code/threads/synch.cc:248-261 | The semaphore that Wait deletes is on no queue, in no signaller's hand, and has no sleeper |
| `Monitor.BroadcastQueue` | code/threads/synch.cc:296-301 | During a Broadcast nobody joins the queue, and what leaves it is woken, in order |
| `Monitor.BroadcastWakesAll` | code/threads/synch.cc:296-301 | From its call to its return, Broadcast wakes exactly those who were waiting when it was called, in order, and leaves nobody |
| `Mesa.StepRefines` | code/threads/synch.cc:181-301 | Every step of locks and conditions is one step of a specification that speaks of threads only: who is inside, who stands in line for the lock, who waits in which order, who has been signalled, who sleeps |
| `Mesa.RunRefines` | code/threads/synch.cc:181-301 | Every run of the code is a run of that specification |
| `Mesa.CanGoOn` | code/threads/synch.cc:181-301 | A thread is stuck exactly when it sleeps for the lock or for its own signal |
| `SynchLists.StepOk` | code/threads/synchlist.cc:51-81 | Every step of producers and consumers keeps the invariant |
| `SynchLists.TraceOk` | code/threads/synchlist.cc:51-81 | The invariant holds in every interleaving |
| `SynchLists.StepRefines` | code/threads/synchlist.cc:51-81 | Each step is a step of an atomic queue (append at the end, remove the first item for the caller) and of the monitor specification; an empty list makes the consumer wait |
| `SynchLists.CanGoOn` | code/threads/synchlist.cc:51-81 | A thread is stuck exactly when it sleeps; outside of a call it may make any call |
| `SynchLists.FirstInFirstOut` | code/threads/synchlist.cc:51-81 | In every run, what consumers got, in order, followed by the list, is what producers called Append with, in order of their appends; nothing is taken from an empty list |
| `SynchLists.ItemIsReturned` | code/threads/synchlist.cc:69-81 | A consumer gets the first item of the list and keeps it until it has released the lock |
| `SynchLists.NoLostWakeup` | code/threads/synchlist.cc:51-81 | While a consumer waits unsignalled, the list is no longer than the number of signalled consumers that have not returned, but for one item between an append and its signal; with the lock free each of them can proceed |
| `SynchDisks.IssueOk` | code/machine/disk.cc:113-151 | The disk is idle at every request, for any number of threads |
| `SynchDisks.StepOk` | code/filesys/synchdisk.cc:57-94 | Every step keeps the invariant |
| `SynchDisks.TraceOk` | code/filesys/synchdisk.cc:57-94 | The invariant holds in every interleaving |
| `SynchDisks.ActiveIsPending` | code/machine/disk.cc:113-163 | `active` holds exactly when one disk interrupt is pending |
| `SynchDisks.StepRefines` | code/filesys/synchdisk.cc:57-82 | What each step does: a request reads or changes one sector and no other, a wait sleeps or takes the signal, and no other step touches the disk |
| `SynchDisks.InterruptEffect` | code/filesys/synchdisk.cc:90-94 | The interrupt ends the request in progress and wakes whoever sleeps for it |
| `SynchDisks.CanGoOn` | code/filesys/synchdisk.cc:57-94 | A thread is stuck exactly when it sleeps for the lock or the device; the device interrupts exactly when it is busy |
| `SynchDisks.DiskIsWrites` | code/machine/disk.cc:133-151 | In every run each sector holds the data of the last write issued to it, or what it held at first |
| `SynchDisks.CallReturns` | code/filesys/synchdisk.cc:57-94 | Between a call's request and its return there is exactly one disk interrupt; a read returns the data of the last write issued to its sector before; what was read or written is still on the disk |
| `PostOffices.HeaderRoundTrip` | code/network/post.cc:299-329 | Headers survive the copy to bytes and back |
| `PostOffices.HeaderLayout` | code/machine/network.h:32-39 | A header is three little-endian words: to, from, length |
| `PostOffices.WireIsWire` | code/network/post.cc:299-329 | What Send and the network put on the wire carries the message |
| `PostOffices.InboxCarries` | code/machine/network.cc:60-103 | The receiver's split of the packet keeps the message, whatever stale bytes the inbox held |
| `PostOffices.WorkerReceiveOk` | code/network/post.cc:190-216 | The postal worker wakes only when a packet is buffered |
| `PostOffices.StepOk` | code/network/post.cc:190-343 | Every step of senders, network, worker and receivers keeps the invariant |
| `PostOffices.TraceOk` | code/network/post.cc:190-343 | The invariant holds in every run, with any packets dropped |
| `PostOffices.StepRefines` | code/network/post.cc:190-343 | Every step moves one letter one place on, first in first out: wire, inbox, worker, its box, receiver; or changes nothing |
| `PostOffices.NoLostWakeup` | code/machine/network.cc:60-103 | The postal worker never sleeps while a packet is buffered, and awake it can always go on |
| `PostOffices.MailIsFaithful` | code/network/post.cc:190-241 | What is taken from a mailbox is, per sender, an increasing selection of the letters sent to it, with packet header, mail header and data unchanged; letters and takings are read off the steps |
| `PostOffices.NothingElseLost` | code/machine/network.cc:60-182 | In every run, all of a sender's packets that the network does not drop are delivered, at the receiver, or on the wire, each once and in order |
| `PostOffices.DeliveredOnce` | code/machine/network.cc:60-103 | Each packet taken off the network is delivered exactly once |
| `Multiplication.AddPairs` | code/machine/mipssim.cc:800-804 | The carry test makes the addition of two register pairs exact |
| `Multiplication.DoublePair` | code/machine/mipssim.cc:808-812 | The shift of the pair doubles it |
| `Multiplication.NegatePair` | code/machine/mipssim.cc:818-824 | Complement and increment with carry negates the pair |
| `Multiplication.MultiplyWords` | code/machine/mipssim.cc:795-814 | The loop, with the arithmetic shift and the early break, multiplies the bit patterns |
| `Multiplication.Mult` | code/machine/mipssim.cc:771-828 | hi:lo is the exact 64-bit product for all operands, signed and unsigned |
| `Machines.TouchKeepsPhys` | code/machine/translate.cc:244-246 | Use and dirty bits have no influence on translation |
| `Machines.OneValue` | code/machine/translate.cc:99-115 | The bytes determine the value of a read: little-endian, a single byte sign-extended |
| `Machines.WriteThenRead` | code/machine/translate.cc:85-167 | A read of where a store went, with the same size, finds the value modulo 2^8, 2^16 or 2^32, a single byte sign-extended |
| `Bytes.DecodedIsLittleEndian` | code/machine/translate.cc:112-115 | Four bytes are a word with the first byte least significant |
| `Machines.MergeLeftBytes` | code/machine/mipssim.cc:343-361 | LWL's masks: low bytes of the register, then the bytes of the word up to the address |
| `Machines.MergeRightBytes` | code/machine/mipssim.cc:395-417 | LWR's masks: bytes of the word from the address on, then high bytes of the register |
| `Machines.StoreLeftBytes` | code/machine/mipssim.cc:578-599 | SWL's masks: top bytes of the register below the address, memory above |
| `Machines.StoreRightBytes` | code/machine/mipssim.cc:637-655 | SWR's masks: memory below the address, bottom bytes of the register above |
| `Machines.DelayedLoadSettles` | code/machine/mipssim.cc:711-718 | The pending load takes effect, a new one becomes pending, register 0 stays 0, the special registers stay |
| `Machines.RaiseEffect` | code/machine/machine.cc:100-110 | A trap records the address, completes the pending load, and leaves program counters, memory and table as they were |
| `Machines.LoadEffect` | code/machine/mipssim.cc:312-418 | LWL or LWR succeeds exactly when its address is mapped, changes only its own register, and moves the program counters on |
| `Machines.LoadRestarts` | code/machine/mipssim.cc:312-418 | A load that traps, repeated after the table has been changed, does what it would have done in the first place |
| `Machines.StoreEffect` | code/machine/mipssim.cc:552-668 | SWL or SWR succeeds exactly when its address is writable, which physical bytes it changes to what, and how the program counters move |
| `Machines.StoreTrap` | code/machine/mipssim.cc:552-668 | A store that traps changes no memory; the fault is that of reading the address, or else of writing it |
| `Machines.UnalignedLoad` | code/machine/mipssim.cc:312-418 | LWL at A+3 then LWR at A loads the little-endian word at A, across pages, interrupted in between or not; if interrupted with the target as base, when the half-loaded word equals the base |
| `Machines.InterruptedBase` | code/machine/interrupt.cc:309-311 | In that case LWR goes to the intended address if and only if the half-loaded word equals the base |
| `Machines.InterruptedPairFails` | code/machine/interrupt.cc:309-311 | A machine on which the interrupted pair loads 0 where the word is 8 |
| `Machines.UnalignedStore` | code/machine/mipssim.cc:552-668 | SWL at A+3 then SWR at A changes exactly the four bytes at A, across pages, under a table that maps no two pages to one frame |
| `MachineState.Machine.Translate` | code/machine/translate.cc:184-251 | Page table or TLB, every exception, and the use and dirty bits, as `Machines.Translate` and `Touch` say |
| `MachineState.Machine.SearchTlb` | code/machine/translate.cc:219-223 | The first valid TLB entry for the page |
| `MachineState.Machine.ReadMem` | code/machine/translate.cc:85-120 | The little-endian value of 2 or 4 bytes, the sign-extended value of one, or the exception with registers flushed |
| `MachineState.Machine.WriteMem` | code/machine/translate.cc:135-167 | Memory with exactly the addressed bytes replaced, or the exception |
| `MachineState.Machine.DelayedLoad` | code/machine/mipssim.cc:711-718 | Updates the register file as the function of the same name |
| `MachineState.Machine.RaiseException` | code/machine/machine.cc:100-110 | Records the address and lets the pending load take effect |
| `MachineState.Machine.LoadPart` | code/machine/mipssim.cc:312-418 | Executing LWL or LWR on the machine is `Machines.Load` |
| `MachineState.Machine.StorePart` | code/machine/mipssim.cc:552-668 | Executing SWL or SWR on the machine is `Machines.Store` |
| `MachineState.Machine.RestoreState` | code/userprog/addrspace.cc:301-305 | Another page table takes effect and nothing else changes |
| `MachineState.Machine.constructor` | code/machine/machine.cc:55-76 | Registers and memory are zero; a TLB misses every address, and without one no page table is installed |
| `AddressSpaces.HeaderLayout` | code/userprog/noff.h:12-28 | The header is the magic number and address, file position and size of code, initialised, read-only and uninitialised data, as little-endian ints |
| `AddressSpaces.SpaceHasRoom` | code/userprog/addrspace.cc:117-127 | The pages have room for all segments, uninitialised data included, and the 1024-byte stack, with less than a page to spare |
| `AddressSpaces.ImageByte` | code/userprog/addrspace.cc:160-212 | Every byte of a fresh process: from the last read segment that supplies it, else zero |
| `AddressSpaces.ImageOfSegment` | code/userprog/addrspace.cc:168-212 | Where one segment lies, the process finds the bytes of the file, or zero past its end |
| `AddressSpaces.ImageElsewhere` | code/userprog/addrspace.cc:160-212 | Everywhere else up to the last page it finds zeros |
| `AddressSpaces.PhysOfTable` | code/machine/translate.cc:184-251 | Under a loaded table translation fails exactly past the end of the space |
| `AddressSpaces.TranslationsAgree` | code/userprog/addrspace.cc:316-356 | The kernel's translation agrees with the hardware's exactly where the page is absent, or valid with a frame that is not negative or that a forbidden write does not reach |
| `AddressSpaces.InvalidPageDisagrees` | code/userprog/addrspace.cc:316-356 | At an invalid page the hardware faults and the kernel reads through the stale entry |
| `AddressSpaces.NegativeFrameDisagrees` | code/userprog/addrspace.cc:334-350 | At a negative frame the hardware reports a bus error and the kernel's ASSERT fails |
| `AddressSpaces.LoadedTablesAgree` | code/userprog/addrspace.cc:141-165 | Under tables made by Load the two are the same |
| `AddressSpaces.LiveTableInjective` | code/userprog/addrspace.cc:141-165 | No two pages of a live process share a frame, so `Machines.UnalignedStore` applies to it |
| `AddressSpaces.LoadKeepsInv` | code/userprog/addrspace.cc:95-218 | Load keeps the frame bitmap the disjoint union of the live page tables |
| `AddressSpaces.LoadRefines` | code/userprog/addrspace.cc:95-218 | Load gives the new process its image and changes no byte of any other |
| `AddressSpaces.DestroyKeepsInv` | code/userprog/addrspace.cc:86-93 | Destruction keeps the same invariant |
| `AddressSpaces.DestroyRefines` | code/userprog/addrspace.cc:86-93 | Destruction removes one memory and changes no other |
| `AddressSpaces.WriteRefines` | code/machine/translate.cc:135-167 | A store changes exactly the addressed bytes of its own process and nothing in any other |
| `AddressSpaces.ReadRefines` | code/machine/translate.cc:85-120 | A read of 1, 2 or 4 bytes gives the process the value of its own bytes, faults exactly when unaligned or out of range, and changes no memory |
| `AddressSpaces.FramesAddUp` | code/userprog/addrspace.cc:128-165 | Free frames and pages of live processes add up to physical memory |
| `AddressSpaces.StepRefines` | code/userprog/addrspace.cc:86-218 | Each operation and its reply is a step on private memories; Load fails exactly when the pages of all processes would exceed memory |
| `AddressSpaces.RunRefines` | code/userprog/addrspace.cc:86-218 | In every run of loads, reads, stores and exits, all that processes observe is as if each had a memory to itself |
| `AddressSpaceRuns.ReadsBack` | code/machine/translate.cc:85-167 | In every run a process reads back what it last stored at an address, whatever all other processes do in between |
| `AddressSpaceRuns.BitsSinceLoad` | code/machine/translate.cc:244-246 | In every run a page is marked used exactly when it was accessed since the load and dirty exactly when it was stored to; a clean page is as it was loaded |
| `Loading.AddrSpace.Load` | code/userprog/addrspace.cc:95-218 | Fails exactly when too few frames are free, then no frame changes and the space has no page; else lowest frames, fresh entries, the image in place, no other frame changed |
| `Loading.AddrSpace.AllocateFrames` | code/userprog/addrspace.cc:141-165 | First-fit frames, zeroed, one per page, entries valid and writable |
| `Loading.AddrSpace.BuildProgram` | code/userprog/addrspace.cc:170-195 | The buffer holds the three segments over zeros |
| `Loading.AddrSpace.CopyProgram` | code/userprog/addrspace.cc:197-212 | The buffer is in the frames page by page, the last one possibly partial, and no other frame changed |
| `Loading.AddrSpace.ReadHeader` | code/userprog/addrspace.cc:107-114 | The header parsed from the first 52 bytes of the file |
| `Loading.AddrSpace.Release` | code/userprog/addrspace.cc:86-93 | Clears exactly the bits of the table's frames |
| `Loading.AddrSpace.Translate` | code/userprog/addrspace.cc:316-356 | The result, the failing ASSERT for a negative frame, and the use and dirty bits, of the system-call translation |
| `Interrupts.FireFirstCounts` | code/machine/interrupt.cc:314-319 | Each turn of the firing loop leaves one due event fewer, whatever the handler schedules |
| `Interrupts.InsertKeepsOrder` | code/lib/list.cc:232-260 | Insertion keeps time order and puts the newest last among equals |
| `Interrupts.FireDueOk` | code/machine/interrupt.cc:313-320 | The loop fires every due event once, in order, none early, and leaves none due |
| `Interrupts.CheckIfDueOk` | code/machine/interrupt.cc:280-322 | True exactly when something fired; nothing is due afterwards; the clock moves only when idle, and to exactly the next event |
| `Interrupts.EveryRun` | code/machine/interrupt.cc:123-322 | In every reachable state fired and pending events are all that were scheduled, each once, in (time, scheduling) order; ticks add up; nothing is due |
| `Interrupts.FiredWhenDue` | code/machine/interrupt.cc:147-322 | In every reachable state the fired events are exactly those whose time has come |
| `InterruptRuns.DoMakes` | code/machine/interrupt.cc:147-322 | What each step adds: the ticks to their account, one event at now plus the delay for a request, and for every handler that runs its events at now plus their delays, in order |
| `InterruptRuns.ClockCounts` | code/machine/interrupt.cc:147-176 | In every run the accounts of the clock are its ticks, counted on the steps |
| `InterruptRuns.RequestFires` | code/machine/interrupt.cc:256-266 | In every run an event asked for with delay d at time t has time t + d, has fired exactly when the clock has reached it, and never earlier |
| `InterruptRuns.HandlerFires` | code/machine/interrupt.cc:313-320 | The same for the k-th event that a handler asks for, counted from when the handler ran |
| `InterruptDevice.Interrupt.CheckIfDue` | code/machine/interrupt.cc:280-322 | The method with its loop is the function of the same name; when anything fires, a delayed load of the machine takes effect first; a context switch is requested exactly when a fired handler asks |
| `InterruptDevice.Interrupt.OneTick` | code/machine/interrupt.cc:147-176 | Advances the clock and one account by the tick of the mode, fires, and tells the thread to yield exactly when a handler asked since the last tick |
| `InterruptDevice.Interrupt.SetLevel` | code/machine/interrupt.cc:123-136 | Time advances exactly when interrupts go from off to on |
| `InterruptDevice.Interrupt.Idle` | code/machine/interrupt.cc:207-227 | Jumps to the next event and fires; halts exactly when nothing is pending |
| `InterruptDevice.Interrupt.Schedule` | code/machine/interrupt.cc:256-266 | One more pending event, at the current time plus the delay |
| `DiskTiming.SeekCountsTracks` | code/machine/disk.cc:176-191 | A seek takes 500 ticks for every track boundary between the two sectors, in either direction |
| `DiskTiming.ModuloDiff` | code/machine/disk.cc:199-206 | The number of slots until the sector next passes under the head |
| `DiskTiming.HitIffBuffered` | code/machine/disk.cc:229-244 | The track-buffer test holds exactly when the sector passed wholly under the head since the buffer began to fill |
| `DiskTiming.HitIsQuick` | code/machine/disk.cc:236-243 | A read served from the buffer takes one RotationTime |
| `DiskTiming.MissIsEarliest` | code/machine/disk.cc:246-249 | Otherwise the request ends one RotationTime after the first instant, once settled, at which the sector begins |
| `DiskTiming.LatencyBounds` | code/machine/disk.cc:229-250 | At least RotationTime, less than the seek and 33 rotations |
| `DiskTiming.StepOk` | code/machine/disk.cc:258-268 | bufferInit stays a multiple of RotationTime, not later than any request, and is when the head settled on its track |
| `DiskTiming.RequestMoves` | code/machine/disk.cc:258-268 | A request on another track restarts the buffer at the first sector boundary after the seek; one on the same track does not |
| `DiskTiming.TraceOk` | code/machine/disk.cc:113-268 | So in every run of requests and completions |
| `DiskTiming.ClockAndBusy` | code/machine/disk.cc:113-163 | In every run the clock shows the ticks passed, and the drive is busy exactly from a request to its completion |
| `DiskTiming.HitMeansSeen` | code/machine/disk.cc:229-244 | In every run, a read served from the buffer is of a sector that passed wholly under the head while on its track |
| `DiskTiming.Disk.TimeToSeek` | code/machine/disk.cc:176-191 | The seek time and the wait for the next sector boundary |
| `DiskTiming.Disk.Latency` | code/machine/disk.cc:229-250 | The method computes `ComputeLatency` |
| `DiskTiming.Disk.Request` | code/machine/disk.cc:113-151 | The delay of the interrupt, and the new head position |
| `Lists.List.Append` | code/lib/list.cc:73-89 | The item is last; the links, tail and count stay consistent |
| `Lists.List.Prepend` | code/lib/list.cc:96-112 | The item is first; the links, tail and count stay consistent |
| `Lists.List.RemoveFront` | code/lib/list.cc:123-142 | The first item is taken off |
| `Lists.List.Remove` | code/lib/list.cc:149-178 | Exactly that item is unlinked, at the head, in the middle or at the tail |
| `Lists.List.IsInList` | code/lib/list.cc:185-197 | Whether the item is on the list |
| `Lists.List.Insert` | code/lib/list.cc:232-260 | The item goes before the first greater element, after all equal ones |
| `HashTables.HashTable.Insert` | code/lib/hash.cc:108-124 | The map with the item added; each item in the bucket of its key; at most three items per bucket on average |
| `HashTables.HashTable.ReHash` | code/lib/hash.cc:134-153 | Four times the buckets, the same map, every item in its new bucket |
| `HashTables.HashTable.Find` | code/lib/hash.cc:191-198 | The item of the key, or nothing exactly when it is absent |
| `HashTables.HashTable.Remove` | code/lib/hash.cc:208-223 | Returns the item; the map without its key |
| `HashTables.HashTable.FindNextFullBucket` | code/lib/hash.cc:249-259 | The first non-empty bucket from there on |
| `HashTables.HashTable.constructor` | code/lib/hash.cc:28-52 | Four empty buckets are the empty map |
| `HashTables.MoveOne` | code/lib/hash.cc:145-150 | Moving one item keeps: what is left and what has moved are together all there was |
| `HashTables.EveryItemOnce` | code/lib/hash.cc:270-288 | The buckets in order list every value of the map exactly once |
| `HashTables.HashIterator.Next` | code/lib/hash.cc:347-360 | Moves to the next item in bucket order, skipping empty buckets |
| `HashTables.HashIterator.Item` | code/lib/hash.h:110 | The item at that position of the order |
| `HashTables.HashIterator.constructor` | code/lib/hash.cc:331-340 | Stands at the first item, if any |
| `HashTables.VisitAll` | code/lib/hash.h:93-99 | The recommended loop sees each item exactly once |

## Left out

- FILESYS_STUB: the file system on top of UNIX files, and `sysdep.cc`.
- FileHeaders.FileHeader.Allocate: a file longer than 3840 bytes for which there is room is excluded, because the source does not check the limit and overruns its array of sectors; a negative size is excluded as well.
- FileSystems.FileSystem.Create: excludes the same files, and no others.
- File positions are not negative, and `position + numBytes` does not overflow.
- Bytes past the end of a file in its last sector are not specified.
- Use of handles on removed files, crashes between disk writes, and concurrent calls of the file system, all disclaimed in the source.
- Bitmap words are kept as their 32 bits rather than as numbers; the word-to-byte encoding is `PersistentBitmaps.MapRoundTrip`.
- PostOffices.MailIsFaithful: mailboxes are plain queues here, as `SynchLists.StepRefines` justifies; the sender's lock and semaphore have the same shape as `SynchDisks` and are not modelled again.
- Scheduling.DispatchOrder: fairness beyond first-come-first-served dispatch is not stated; no claim is made that a thread ever gives up the processor.
- Instruction fetch and decode and the other opcodes of `OneInstruction`; they are single assignments, apart from multiplication.
- HashTables.HashTable.Insert: a bucket is a sequence of items; that linked lists behave as sequences is proved in `Lists`, not repeated in the table.
- Deallocation of memory, except for the waiter semaphores of conditions, whose deletion is modelled.
- Loading.AddrSpace.Load: the file is already open, its header has the magic number, its segments lie within the program, and its sizes add up to less than 2^31; the source asserts the magic number and takes the rest for granted.
- InterruptDevice.Interrupt.OneTick: what other threads do during the yield it asks for is `Kernel`'s, not part of the method.
- PTable, PCB, exception handling, system calls, consoles, the timer device, command-line parsing, debugging output and self tests.
- The SWITCH assembly routine and the thread stacks: a context switch is a change of the current thread.
