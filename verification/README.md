# A model of virtiofsd's bookkeeping, with proofs

virtiofsd serves a host directory to a virtual machine over the FUSE protocol.  This project
models the parts of the daemon that keep state between requests or turn bytes into meaning, and
proves what they keep over every input, every run and, where threads are involved, every
interleaving.  `dafny verify dfyconfig.toml` checks all of it.

- **Inode store** (`InodeStore.dfy`, `InodeTable.dfy`, `RefcountInterleaving.dfy`, `StoreLock.dfy`).
  Counted inodes with two indexes; removing one drops the references in its migration info, which
  may remove others.  The store is first a value with the cascade as a worklist, then a class that
  recurses as the daemon does and computes the same stores, then a state machine in which every
  load, compare-and-swap, removal and taking of migration info is a step of its own.  On top of that,
  every pointer to an inode is followed, to see when the thread that holds the lock drops a reference.
- **Mount FD cache** (`MountFds.dfy`).  A map of weak pointers, shared by threads whose destructors
  run late.
- **Descriptor chains** (`DescriptorUtils.dfy`, `ZeroCopy.dfy`).  Scattered guest memory consumed
  as one stream of bytes, and the loops that move it to and from files.
- **Directory replies** (`Dirents.dfy`, `DirectoryReplies.dfy`, `LookupCounts.dfy`, `ReadDir.dfy`,
  `DirectoryPaging.dfy`, `MacReadDir.dfy`).  Records and their decoder, READDIRPLUS with its lookup
  accounting and what that does to the inode store, the readers of kernel batches on Linux and macOS,
  and whole listings made of READDIR calls.
- **Request extensions** (`Extensions.dfy`).  The parser, against a grammar of padded records.
- **Dentry index and invalidation** (`DentryIndex.dfy`, `Translator.dfy`, `PassthroughFs.dfy`).  The
  two-way index, the notifications that host events call for, and the requests that keep index and
  store in step.
- **Translation tables** (`XattrMap.dfy`, `IdMap.dfy`).  Extended attribute names and UID/GID ranges.

What the host kernel or another thread answers is a parameter of an operation or an arbitrary choice.
A `usize` is taken to have 64 bits.  An arithmetic overflow that the code does not check, and an
`unwrap` or `assert!` that can fail, is an outcome of its own (`Panicked`, `Overflow`, `None`).

Where the code and what is written about it differ, or a property fails, the model follows the code,
and a lemma says when the property holds:

- `consume` may hand over more than `count` bytes, since it hands over whole slices
  (src/descriptor_utils.rs:98): of one slice of eight bytes, eight instead of four
  (`HandedMayExceed`).  It keeps to `count` if and only if no slice straddles it (`HandedWithinIff`),
  and the same decides whether a zero-copy loop can move too much and then fail (`MovesTooMuchIff`).
- READDIR and READDIRPLUS panic exactly when the reply buffer holds the capped size but not a header.
- A group list record may follow others only while those were empty.
- Renaming a dentry onto itself removes it from the index (`RenameKeepsEntryIff`).
- A path that ends in a component such as `..` can lead to a leaf invalidation without an entry
  invalidation (`ParentOfLeafHasNoEntry`); `LeafHasItsEntryIff` says for which paths.
- The name that a listed attribute has for the guest need not lead back to that attribute;
  `ListedLeadsBackIff` says when it does.  A `map` rule is not a single `prefix` rule, as the module's
  comment has it, but two or three rules, and it is `prepend`, not `key`, that is put in front.
- After other rules, a `map` rule may let two guest names share an attribute (`TwoNamesShare`);
  `RoundTripIff` and `SharedIff` say when.
- A set of attribute rules may leave names without a rule, which is a panic (`UnterminatedPanics`);
  `ListNeverPanicsIff`, `ClientNeverPanicsIff` and `ClientNeverPanicsWithoutAclsIff` say when it cannot
  happen.
- One host inode can get two FUSE IDs if and only if an ID triple is seen both with and without an
  FD (`OneIdIff`).
- Two guest IDs can get the same host ID; `ApartIff` says when the arguments exclude it, and
  `InjectiveIff` puts it in simpler terms for `map` arguments.
- The thread that holds the store's lock can drop a strong reference, and so lock it again
  (`RelockIsReachable`).  It can come to that if and only if it still has a pointer to drop to an inode
  which got new migration info after its removal took the old (`RelockIff`).  Setting info with
  references only through strong references, as the daemon does, excludes it (`RuleSuffices`).
- With migration tracking, a forget can leave the dentry of an inode behind that is gone
  (`StaleAfterForget`): only inodes that the guest lists lose their dentries.  `ForgetKeepsLiveIff` says
  when every dentry's child stays live.

## Model

| member | source | states |
|---|---|---|
| `InodeStores.DrainBalances` | src/passthrough/inode_store.rs:331-364 | forgetting returns exactly the references named, through the whole removal cascade: every count still equals the references held outside plus those in live inodes' migration info |
| `InodeStores.Survivors` | src/passthrough/inode_store.rs:262-273 | a cascade keeps exactly the largest set of inodes that are held from outside or by each other |
| `InodeStores.DrainIndexes` | src/passthrough/inode_store.rs:262-273 | the indexes lose exactly the keys of the inodes that a cascade removes |
| `InodeStores.DropOrderDoesNotMatter` | src/passthrough/inode_store.rs:495-500 | dropping the same references in any order and grouping gives the very same store |
| `InodeStores.DrainKeeps` | src/passthrough/inode_store.rs:331-364 | inodes that survive a cascade keep everything but their count, and none is added |
| `InodeStores.DrainSplit` | src/passthrough/inode_store.rs:495-500 | forgetting two lists one after the other is forgetting their concatenation |
| `InodeStores.CascadeKeepsIndexes` | src/passthrough/inode_store.rs:262-273 | after any number of steps of a cascade each index entry names a live inode with that very key |
| `InodeStores.ApplyKeepsBalance` | src/passthrough/inode_store.rs:404-650 | each of claim, get, clone, leak, drop, insert, forget and migration info updates keeps counts equal to held references |
| `InodeStores.ApplyKeepsIndexes` | src/passthrough/inode_store.rs:248-273 | each of these operations keeps both indexes sound, also where an insert overwrites an index entry |
| `InodeStores.ClearInfoBalances` | src/passthrough/inode_store.rs:283-298 | clearing all migration info but the root's gives back just the references it held |
| `InodeStores.ClearOrderDoesNotMatter` | src/passthrough/inode_store.rs:283-298 | clearing migration info gives the same store whatever order the inodes are visited in |
| `InodeStores.RunsKeepInv` | src/passthrough/inode_store.rs:331-364 | at every point of every run whose guest never over-forgets, counts are held references and the indexes are sound |
| `InodeStores.HeldReferencesAreLive` | src/passthrough/inode_store.rs:617-635 | in every run a reference held by the guest, the daemon or migration info names a stored inode, and cloning it succeeds |
| `InodeStores.ClaimedStandsFor` | src/passthrough/inode_store.rs:404-434 | what is claimed carries the handle asked for, or has an FD and the ID triple, and gains exactly one reference |
| `InodeStores.ClaimedIff` | src/passthrough/inode_store.rs:404-434 | where live inodes are findable, that inode is claimed, by handle before triple, if and only if there is one |
| `InodeStores.GetOrInsertStandsFor` | src/passthrough/inode_store.rs:441-471 | the inode handed out is the new one under its own ID, or one that stands for the same file |
| `InodeStores.EntersIff` | src/passthrough/inode_store.rs:441-471 | a new inode is entered if and only if no live one stands for the file and the ID is free |
| `InodeStores.NewInodeEnters` | src/passthrough/inode_store.rs:476-490 | an inode is entered with its own count if and only if its ID is free |
| `InodeStores.ClearedInfos` | src/passthrough/inode_store.rs:283-298 | afterwards no inode but the root has migration info, and the root keeps its own |
| `InodeStores.RunsKeepFindable` | src/passthrough/inode_store.rs:441-471 | in every disciplined run each live inode is found under its handle, or under its ID triple if it has an FD |
| `InodeStores.OneIdPerHostInode` | src/passthrough/inode_store.rs:404-471 | in every disciplined run no two live inodes share a file handle, nor an ID triple when FD-backed |
| `InodeStores.MixedTripleGetsTwoIds` | src/passthrough/inode_store.rs:262-273 | for any triple seen with and without an FD, a run of four operations after which it has two IDs |
| `InodeStores.OneIdIff` | src/passthrough/inode_store.rs:404-471 | no run that enters only what the host is seen to give, and by `new_inode` only the first inode, gives two IDs to a host inode, if and only if no triple is seen both with and without an FD |
| `InodeTables.InodeStore.constructor` | src/passthrough/inode_store.rs:248-258 | a new store is empty |
| `InodeTables.InodeStore.InsertNew` | src/passthrough/inode_store.rs:248-258 | the new store, with overwritten index entries |
| `InodeTables.InodeStore.Remove` | src/passthrough/inode_store.rs:262-273 | the recursive removal terminates and yields the store that the worklist cascade yields |
| `InodeTables.InodeStore.DropAllUnlocked` | src/passthrough/inode_store.rs:610-614 | dropping references under the lock is one cascade over all of them |
| `InodeTables.InodeStore.ForgetOne` | src/passthrough/inode_store.rs:331-364 | the recursive form agrees with the worklist cascade for any count, saturating |
| `InodeTables.InodeStore.ForgetMany` | src/passthrough/inode_store.rs:495-500 | the loop agrees with one cascade over the whole list |
| `InodeTables.InodeStore.IncrementRefcount` | src/passthrough/inode_store.rs:552-572 | a count is raised by one unless it is zero, and nothing else changes |
| `InodeTables.InodeStore.Claim` | src/passthrough/inode_store.rs:404-434 | by handle first, else by IDs but only FD-backed, with index lookups that cannot miss; what is found stands for the file and gains one reference |
| `InodeTables.InodeStore.GetOrInsert` | src/passthrough/inode_store.rs:441-471 | an existing inode that stands for the file gains a reference, else the new one is entered with one; unused migration info is dropped |
| `InodeTables.InodeStore.NewInode` | src/passthrough/inode_store.rs:476-489 | entered with its own count unless the ID is in use |
| `InodeTables.InodeStore.ClearMigrationInfo` | src/passthrough/inode_store.rs:283-298 | for any visiting order that covers the store, the references taken are dropped in one cascade |
| `RefcountInterleaving.StepKeepsInv` | src/passthrough/inode_store.rs:331-364 | every single step of every thread keeps conservation, with queued decrements counted as held |
| `RefcountInterleaving.RunsKeepInv` | src/passthrough/inode_store.rs:515-651 | so does every interleaving, from the mounted root on |
| `RefcountInterleaving.RefcountsAreHeldReferences` | src/passthrough/inode_store.rs:331-364 | in every interleaving counts equal held references, and with the lock free an inode is stored just when its count is positive |
| `RefcountInterleaving.GoneForGood` | src/passthrough/inode_store.rs:552-572 | an inode that has left the store never comes back and its count stays zero |
| `RefcountInterleaving.ClaimAndCloneSucceed` | src/passthrough/inode_store.rs:617-635 | raising a count under the lock or through a strong reference never sees a zero and never ends without its reference |
| `RefcountInterleaving.RaiseGoesOn` | src/passthrough/inode_store.rs:552-572 | in every run an attempt to raise a count goes on, with the same inode, until its reference is there and counted; it ends without one only if the count is zero |
| `RefcountInterleaving.UndisturbedRaise` | src/passthrough/inode_store.rs:531-572 | left alone, an attempt has its reference after one load and one compare-and-swap, unless the count is zero |
| `RefcountInterleaving.StepsAreOneCascade` | src/passthrough/inode_store.rs:331-364 | the loads, swaps, removals and takes from locking on are together the sequential cascade over the references given up |
| `RefcountInterleaving.HeldIsStored` | src/passthrough/inode_store.rs:643-650 | a reference anyone holds, even one queued for dropping, keeps its inode stored |
| `StoreLock.RuleSuffices` | src/passthrough/inode_store.rs:63-68 | in every interleaving in which info with references is set only through a strong reference, the lock's holder never drops the last pointer to an inode that holds references |
| `StoreLock.RelockIsReachable` | src/passthrough/inode_store.rs:262-273 | without that rule, info set between the `take` and the end of a removal that a guest's forget causes leads there |
| `StoreLock.RelockIff` | src/passthrough/inode_store.rs:264-273 | from a reachable state its holder can come to lock the store again, with no further info being set, if and only if it is yet to drop a pointer to an inode that left the store, had its info taken and holds references again, and is not the one whose `drop` runs |
| `StoreLock.WasExposed` | src/passthrough/inode_store.rs:609-650 | no step but setting migration info brings about such an inode |
| `StoreLock.RunsKeepInv` | src/passthrough/inode_store.rs:609-650 | in every interleaving the pointers inside references that are being dropped head the writer's work, and none of its pointers outlives the lock but that of `drop` |
| `MountFdCache.StepKeepsInv` | src/passthrough/mount_fd.rs:57-91 | every step of every thread keeps the cache sound |
| `MountFdCache.RunsKeepInv` | src/passthrough/mount_fd.rs:264-376 | so does every interleaving |
| `MountFdCache.OneLivePerMount` | src/passthrough/mount_fd.rs:68-83 | at most one live registered mount FD per mount ID, and the map points to it |
| `MountFdCache.LiveEntryStays` | src/passthrough/mount_fd.rs:142-163 | as long as a mount FD lives, no late destructor takes its entry away |
| `MountFdCache.GetHandsOutTheEntry` | src/passthrough/mount_fd.rs:264-376 | whoever asks gets one counted pointer to a live mount FD for that mount, the one in the map, and an existing live entry is reused |
| `MountFdCache.RunsKeepCounted` | src/passthrough/mount_fd.rs:264-376 | in every interleaving the strong count of a mount FD is the number of pointers handed out and not dropped |
| `MountFdCache.HeldIsAlive` | src/passthrough/mount_fd.rs:142-165 | a mount FD that someone holds a pointer to is never destroyed |
| `MountFdCache.DestroyedOnceUnheld` | src/passthrough/mount_fd.rs:142-165 | a destructor can run if and only if nobody holds a pointer and it has not run |
| `MountFdCache.PointersMove` | src/passthrough/mount_fd.rs:264-376 | a clone adds a pointer, a drop takes one away, and a miss or a failed open hands out none |
| `MountFdCache.DestructorRemovesOwn` | src/passthrough/mount_fd.rs:142-165 | a destructor leaves no entry for its own mount FD and leaves live ones alone |
| `MountFdCache.EmptyWhenAllDestroyed` | src/passthrough/mount_fd.rs:142-163 | once every destructor has run the map is empty |
| `MountFdCache.DestructorKeepsInv` | src/passthrough/mount_fd.rs:142-163 | a destructor keeps the cache sound wherever it falls |
| `MountFdCache.MountFds.constructor` | src/passthrough/mount_fd.rs:255-262 | a new cache is the initial state of the state machine |
| `MountFdCache.MountFds.Upgrade` | src/passthrough/mount_fd.rs:264-282 | the lookup is the state machine's lookup step and returns only live mount FDs of that mount |
| `MountFdCache.MountFds.GetOrRegister` | src/passthrough/mount_fd.rs:68-83 | the part under the write lock is one step and leaves the entry and the result equal and live |
| `MountFdCache.MountFds.DropPointer` | src/passthrough/mount_fd.rs:142-163 | giving up a pointer leaves the map alone |
| `MountFdCache.MountFds.Destroy` | src/passthrough/mount_fd.rs:142-163 | the destructor's part under the lock is one step |
| `DescriptorUtils.DescriptorChainConsumer.constructor` | src/descriptor_utils.rs:58-62 | a consumer over the given slices |
| `DescriptorUtils.DescriptorChainConsumer.AvailableBytes` | src/descriptor_utils.rs:64-72 | the length of the remaining stream |
| `DescriptorUtils.DescriptorChainConsumer.HandOver` | src/descriptor_utils.rs:87-110 | whole slices from the front, as few as cover `count`, or all |
| `DescriptorUtils.HandedWithinIff` | src/descriptor_utils.rs:76-110 | what is handed over holds at most `count` bytes if and only if the chain does or some slice ends there |
| `DescriptorUtils.HandedMayExceed` | src/descriptor_utils.rs:91-104 | of one slice of eight bytes, eight are handed over for a count of four |
| `DescriptorUtils.HandedIsLeast` | src/descriptor_utils.rs:91-104 | without the last slice handed over there would be fewer bytes than asked for |
| `DescriptorUtils.DroppedTight` | src/descriptor_utils.rs:122-135 | consuming bytes keeps every slice on one side of what is left of the limit |
| `DescriptorUtils.DescriptorChainConsumer.Advance` | src/descriptor_utils.rs:112-139 | exactly the first n bytes are gone from the stream, unless the total overflows |
| `DescriptorUtils.DescriptorChainConsumer.Consume` | src/descriptor_utils.rs:87-140 | the callback's n bytes are dropped from the stream and added to the total, which cannot overflow; on its error nothing changes |
| `DescriptorUtils.DescriptorChainConsumer.SplitAt` | src/descriptor_utils.rs:142-178 | cuts the stream at the offset, or fails and changes nothing, exactly when out of bounds |
| `DescriptorUtils.DescriptorChainConsumer.Write` | src/descriptor_utils.rs:407-428 | as much as fits lands in the next bytes of the stream and nowhere else |
| `DescriptorUtils.DescriptorChainConsumer.Read` | src/descriptor_utils.rs:288-309 | the next bytes of the stream, as many as asked for or left |
| `DescriptorUtils.DescriptorChainConsumer.WriteAll` | src/descriptor_utils.rs:407-428 | succeeds just when everything fits, and writes what fits either way |
| `DescriptorUtils.NewConsumer` | src/descriptor_utils.rs:194-232 | keeps the slices in order, fails on the first bad descriptor or an overflowing total, and never afterwards can the total overflow |
| `DescriptorUtils.CollectIff` | src/descriptor_utils.rs:194-232 | a chain is accepted if and only if its lengths add up to a `usize` and every descriptor is found; its slices are theirs, in order |
| `DescriptorUtils.CollectFails` | src/descriptor_utils.rs:194-232 | an error is that of the first descriptor that is too much or not found |
| `DescriptorUtils.CollectFits` | src/descriptor_utils.rs:333-364 | an accepted chain has no more bytes than the address space |
| `DescriptorUtils.WritePiecesIsOneWrite` | src/descriptor_utils.rs:407-428 | successive writes of any sizes are one write of their concatenation |
| `DescriptorUtils.ReadPiecesIsOneRead` | src/descriptor_utils.rs:288-309 | successive reads of any sizes are one read of the total |
| `DescriptorUtils.RoundTrip` | src/descriptor_utils.rs:288-428 | what any writes put into disjoint slices, any reads over any fragmentation of the same bytes return |
| `DescriptorUtils.WriteThenRead` | src/descriptor_utils.rs:288-428 | the same of a writer and a reader, for any calls to `write` and then any calls to `read` |
| `ZeroCopy.TransferOut` | src/descriptor_utils.rs:256-267 | the bytes that leave the chain are those that reach the file, and nothing moves on error |
| `ZeroCopy.TransferIn` | src/descriptor_utils.rs:381-391 | the bytes of the file that enter the chain are the next ones of the stream |
| `ZeroCopy.WriteToFileAt` | src/server.rs:122-148 | under arbitrary short transfers it ends; the bytes moved are in the file from the start offset; Ok(n) with n at most `count`, and less only if the chain was used up or a transfer moved nothing; an error is a failed transfer, an offset overflow or, only where a slice straddles the limit, too many bytes |
| `ZeroCopy.ReadFromFileAt` | src/server.rs:152-178 | the same in the other direction, the first bytes of the chain being the file's from the start offset |
| `ZeroCopy.MovesTooMuchIff` | src/server.rs:122-178 | some sequence of transfers moves more bytes than asked for if and only if a slice straddles the limit |
| `ZeroCopy.FourMayMoveEight` | src/server.rs:139-143 | asked for four bytes of a slice of eight, a loop may move eight |
| `ZeroCopy.PatchAt` | src/server.rs:122-148 | writing at an offset changes just the bytes of that range |
| `Dirents.EncodeLength` | src/server.rs:1681-1738 | the size of a record, a multiple of 8 |
| `Dirents.EncodeAllAligned` | src/server.rs:1681-1738 | records of either kind keep the stream aligned to 8 bytes |
| `Dirents.DecodeOneOf` | src/server.rs:1681-1738 | a decoder that knows only the wire format reads a record back and finds the next one |
| `Dirents.DecodeEncoded` | src/server.rs:1681-1738 | decoding the encoding of any list of records gives that list |
| `Dirents.AddDirent` | src/server.rs:1681-1738 | writes the whole record, reports zero and writes nothing if it exceeds the limit, or fails, and exactly when each |
| `DirectoryReplies.LookUpAndAppend` | src/server.rs:1154-1182 | a record is added exactly if lookup and space allow, with one lookup kept; else the lookup is taken back |
| `DirectoryReplies.FillPlus` | src/server.rs:1209-1252 | the records are those of the first entries, up to the first that cannot be added, and one lookup is kept for each; an error exactly when the first entry causes one |
| `DirectoryReplies.ReplyPlus` | src/server.rs:1255-1266 | the guest reads back header and records, or an error header |
| `DirectoryReplies.Readdirplus` | src/server.rs:1184-1268 | for every listing, lookup outcome and buffer: lookups minus forgets is the number of records naming an inode, zero on errors, and each forget comes right after its lookup; the declared bytes decode to exactly these records, aligned and within the size; when it succeeds, fails or panics |
| `LookupCounts.CountsFollow` | src/passthrough/mod.rs:1081-1148 | on the file system proper, counts in the inode store follow such lookups and forgets one by one |
| `LookupCounts.ReaddirplusRaisesCounts` | src/server.rs:1209-1252 | so after READDIRPLUS each stored count has risen by exactly the number of records that name the inode |
| `DirectoryReplies.ReplyError` | src/server.rs:1652-1672 | the guest decodes its own request number and that very error from the buffer |
| `DirectoryReplies.OutHeaderReadsBack` | src/server.rs:1585-1672 | length, error in two's complement and request number are read back by position from the header |
| `DirectoryReplies.DotEntryFields` | src/server.rs:1154-1176 | in a record for `.` or `..` the guest finds inode 0, the number and the type |
| `DirectoryReplies.RecordNames` | src/server.rs:1154-1182 | each record has the entry looked up, and `.` and `..` are not looked up |
| `ReadDirs.StripPadding` | src/read_dir.rs:397-407 | everything before the first NUL, or a panic exactly if there is none |
| `ReadDirs.ReadDir.constructor` | src/read_dir.rs:190-210 | a reader over a batch of kernel records |
| `ReadDirs.ReadDir.Next` | src/read_dir.rs:301-341 | gives the entries of the batch one by one, in order, from their bytes |
| `ReadDirs.ReadDir.MovePast` | src/read_dir.rs:176-183 | tells whether the cookie is in the batch and leaves what comes after it |
| `ReadDirs.ReadDir.Remaining` | src/read_dir.rs:295-298 | zero just when no entry is left |
| `ReadDirs.NewNoSeek` | src/read_dir.rs:190-210 | a batch is the beginning of what is left, not empty unless nothing is left; an error just when the next record does not fit |
| `ReadDirs.NewWalkTo` | src/read_dir.rs:145-173 | the walk ends, and batch and directory together continue right after the cookie |
| `ReadDirs.NewReadDir` | src/read_dir.rs:123-141 | seeking and walking give the same continuation, the entries after the cookie |
| `ReadDirs.ResumeAfterPage` | src/read_dir.rs:123-141 | with unique cookies, what follows the last entry of a page is the rest of the listing |
| `MacReadDirs.MacReadDir.Next` | src/read_dir.rs:344-395 | on any bytes, gives what the specification of the reader gives and moves on as it does |
| `MacReadDirs.FrontStrips` | src/read_dir.rs:376-384 | a name that no NUL follows ends at the first NUL within it, and it is a panic if and only if there is none |
| `MacReadDirs.AdvanceSkips` | src/read_dir.rs:344-395 | over kernel records, the next entry is the one after those to skip, with its number as offset; and none if there are no more |
| `MacReadDirs.MacDir.GetDirEntries` | src/read_dir.rs:219-226 | what the kernel is taken to return: whole records that fit, none only at the end |
| `MacReadDirs.ReadWhole` | src/read_dir.rs:249-290 | the chunks together are the bytes of all records from the position on |
| `MacReadDirs.NewMacReadDir` | src/read_dir.rs:233-245 | wherever the descriptor stood, the reader yields exactly the entries after that number, numbered |
| `MacReadDirs.NumbersAreCookies` | src/read_dir.rs:228-232 | numbers are unique offsets, and what comes after number n are the entries from n on |
| `MacReadDirs.MacPage` | src/passthrough/mod.rs:2021-2058 | what fits of the entries yielded is a page of the numbered directory, not empty while entries are left |
| `MacReadDirs.MacListingIsComplete` | src/read_dir.rs:228-245 | pages resumed by number make up the directory, each entry once and in order, after at most one page for each |
| `DirectoryPaging.Fill` | src/server.rs:1115-1142 | the records are the longest run of entries that fits the size, as their encoding, or an error exactly if these do not fit the buffer |
| `DirectoryPaging.Readdir` | src/server.rs:1093-1152 | the reply holds a page: the next entries in order, within the size, not empty if any is left and fits; it succeeds with room for the capped size, error replies are read back, and when it panics |
| `DirectoryPaging.OpenReader` | src/passthrough/mod.rs:2021-2058 | the reader holds the beginning of what follows the cookie, or nothing for size 0, and opening it succeeds if every entry fits |
| `DirectoryPaging.FetchPage` | src/server.rs:1093-1152 | a guest that goes by its memory alone gets the next entries, or the error, ENOMEM if its buffer is too small |
| `DirectoryPaging.ReadReply` | src/server.rs:1093-1152 | decoding header and body from memory gives the page, or the error, of the reply |
| `DirectoryPaging.FittingIsLongest` | src/server.rs:1093-1152 | a page stops only where the next record would be too much |
| `DirectoryPaging.ListingSoFar` | src/read_dir.rs:123-141 | any pages, each resuming at the last offset of the one before, are the beginning of the directory, every entry once and in order |
| `DirectoryPaging.ListingIsComplete` | src/server.rs:1093-1152 | for any sizes that fit one entry there are at most as many pages as entries before an empty one, and then they are the whole directory |
| `DirectoryPaging.ListDirectory` | src/server.rs:1093-1152 | a guest that asks for page after page and decodes each from its memory gets such a listing |
| `ExtensionRecords.ParseSupGroups` | src/server.rs:1792-1817 | the loop reads the counted group IDs and the padding |
| `ExtensionRecords.GetExtensions` | src/server.rs:1819-1889 | the loop ends on every buffer and yields what the recursive parser yields; nothing is parsed unless negotiated |
| `ExtensionRecords.AcceptableParses` | src/server.rs:1819-1889 | every acceptable sequence of padded records parses to the context and groups it holds |
| `ExtensionRecords.ParsedIsAcceptable` | src/server.rs:1819-1889 | whatever parses is the encoding of such a sequence |
| `ExtensionRecords.ParsesExactlyTheAcceptable` | src/server.rs:1740-1889 | so parsing succeeds with a result if and only if the buffer encodes an acceptable sequence that means it |
| `ExtensionRecords.FailsExactlyWith` | src/server.rs:1740-1889 | the parser fails with a given error if and only if records that are fine so far are followed by bytes that call for that error |
| `ExtensionRecords.MissingIff` | src/server.rs:1884-1888 | a missing extension is reported if and only if all is well but for the security context |
| `ExtensionRecords.ContextParses` | src/server.rs:1752-1790 | a security context payload gives back name and value |
| `ExtensionRecords.GroupsParse` | src/server.rs:1792-1817 | a group payload gives back the list |
| `DentryIndexes.DentryIndex.constructor` | src/passthrough/dentry_index.rs:54-61 | a new index is empty and consistent |
| `DentryIndexes.DentryIndex.Insert` | src/passthrough/dentry_index.rs:64-78 | refines the update of a plain map, with both directions exact inverses and no empty set |
| `DentryIndexes.DentryIndex.Remove` | src/passthrough/dentry_index.rs:81-92 | refines removal from a plain map |
| `DentryIndexes.DentryIndex.Rename` | src/passthrough/dentry_index.rs:97-120 | refines moving an entry over another in a plain map |
| `DentryIndexes.RenameKeepsEntryIff` | src/passthrough/dentry_index.rs:97-120 | a rename keeps the entry under its new name if and only if that differs from the old |
| `DentryIndexes.RenameOntoItselfForgets` | src/passthrough/dentry_index.rs:97-120 | renaming a name to itself makes a known path unknown |
| `DentryIndexes.DentryIndex.ForgetInode` | src/passthrough/dentry_index.rs:124-131 | takes out exactly the entries of that child |
| `DentryIndexes.DentryIndex.NamesFor` | src/passthrough/dentry_index.rs:185-193 | the preimage of an inode |
| `DentryIndexes.DentryIndex.AllInodes` | src/passthrough/dentry_index.rs:197-199 | the range of the map, each inode once |
| `DentryIndexes.DentryIndex.ResolvePath` | src/passthrough/dentry_index.rs:160-181 | where the known part of a path leads, and the rest |
| `DentryIndexes.ResolvedIsLongest` | src/passthrough/dentry_index.rs:160-181 | a prefix of a path is known if and only if it is no longer than the part resolved |
| `DentryIndexes.WalkEndsAtChild` | src/passthrough/dentry_index.rs:160-181 | whatever a non-empty path leads to is the child of some entry |
| `Translators.Translator.constructor` | src/notify_invalidate/translate.rs:75-89 | a translator over the given index and notifier |
| `Translators.Translator.HandleModify` | src/notify_invalidate/translate.rs:103-125 | invalidates exactly the inode that the whole path leads to |
| `Translators.Translator.HandleParentChange` | src/notify_invalidate/translate.rs:129-154 | invalidates exactly the entry that the path names in a known parent |
| `Translators.Translator.HandleRemove` | src/notify_invalidate/translate.rs:156-173 | the entry, then the leaf, until a send is refused, which is reported |
| `Translators.Translator.HandleRename` | src/notify_invalidate/translate.rs:175-198 | both entries, then the leaf of the old path, until a send is refused |
| `Translators.RelativizeIff` | src/notify_invalidate/translate.rs:223-228 | a host path is taken relative to the shared directory if and only if it is that directory followed by the rest |
| `Translators.OutsideSendsNothing` | src/notify_invalidate/translate.rs:223-228 | events elsewhere call for nothing |
| `Translators.ModifyReaches` | src/notify_invalidate/translate.rs:103-125 | a change is reported for the inode of the whole path, if that is known |
| `Translators.EntryReaches` | src/notify_invalidate/translate.rs:129-154 | a new name is reported in its directory, if that is known |
| `Translators.RemoveReaches` | src/notify_invalidate/translate.rs:156-173 | a removal is reported as an entry and then as the inode known under that name |
| `Translators.RenameReaches` | src/notify_invalidate/translate.rs:175-198 | a rename is reported as both entries and then as the inode known under the old name |
| `Translators.Translator.BulkInvalidate` | src/notify_invalidate/translate.rs:201-218 | tries exactly one invalidation for each child in the index other than the root, whatever is refused |
| `Translators.BulkReachesEveryPath` | src/notify_invalidate/translate.rs:201-218 | if the notifier accepts, every inode but the root that any path leads to is among those sent |
| `Translators.LeafHasItsEntryIff` | src/notify_invalidate/translate.rs:127-198 | a path's leaf always comes with the entry that has it as child if and only if the path ends in a plain component or has none |
| `Translators.ParentOfLeafHasNoEntry` | src/notify_invalidate/translate.rs:127-198 | for a path `a/..` the inode of `a` is invalidated and no entry |
| `Translators.LeafOnlyAfterItsEntry` | src/notify_invalidate/translate.rs:156-198 | for such a path, remove and rename try a leaf only after that leaf's own entry got through, whichever attempts are refused |
| `Passthrough.PassthroughFs.constructor` | src/passthrough/mod.rs:1576-1628 | the mounted root has count 2 and the index is empty |
| `Passthrough.PassthroughFs.DoLookup` | src/passthrough/mod.rs:1081-1148 | computes the lookup of the specification, keeps index and store consistent, and the name then leads to the entry returned |
| `Passthrough.LookUpAddsOne` | src/passthrough/mod.rs:1081-1148 | a lookup gives exactly one reference to an inode that is the file found, by handle or by FD and triple, and records its name, or changes neither counts nor dentries, and when each |
| `Passthrough.PassthroughFs.Forget` | src/passthrough/mod.rs:1930-1935 | takes out the dentries of the named inode if it leaves the store; without migration tracking these are the dentries of exactly the inodes that leave |
| `Passthrough.PassthroughFs.BatchForget` | src/passthrough/mod.rs:1937-1949 | the same for any list of forgets |
| `Passthrough.ForgetKeepsSound` | src/passthrough/mod.rs:1930-1949 | without migration tracking, taking out dentries of listed inodes takes out those of all inodes that leave |
| `Passthrough.ForgetKeepsLiveIff` | src/passthrough/mod.rs:1930-1949 | with it, every dentry's child is live after a forget if and only if each child is listed or is kept by the references that remain |
| `Passthrough.StaleAfterForget` | src/passthrough/mod.rs:1930-1935 | forgetting a file whose info refers to its parent removes both and leaves the parent's dentry |
| `Passthrough.PassthroughFs.HoldAndDrop` | src/passthrough/mod.rs:1690-1748 | holding what a path names during a system call leaves the store as it was |
| `Passthrough.PassthroughFs.DoUnlink` | src/passthrough/mod.rs:1282-1298 | after success the name leads nowhere and all other names are as before; it succeeds just when the parent is known and the host agrees |
| `Passthrough.PassthroughFs.Rename` | src/passthrough/mod.rs:2397-2490 | after success the old name leads nowhere, the new one where the old one did, unless they are the same, and all others are as before |
| `Passthrough.PassthroughFs.Make` | src/passthrough/mod.rs:1974-2015 | mkdir, mknod and symlink look up what they made, and only then |
| `Passthrough.PassthroughFs.Link` | src/passthrough/mod.rs:2542-2577 | link looks up the new name if both inodes are known and the host agrees |
| `Passthrough.PassthroughFs.Create` | src/passthrough/mod.rs:2086-2152 | create looks the name up; if opening then fails the reference and the dentry stay |
| `Passthrough.PassthroughFs.Serve` | src/passthrough/mod.rs:1926-1949 | every such request computes its step of the specification |
| `Passthrough.NextKeepsSound` | src/passthrough/mod.rs:750-792 | every request keeps every child in the index live in the store |
| `Passthrough.RunsKeepSound` | src/passthrough/mod.rs:750-792 | so does every run from the mounted root |
| `Passthrough.AcquireAddsOne` | src/passthrough/mod.rs:1028-1066 | taking an inode for a host file adds one reference to one that is that file: a known one, or a new one under the next ID |
| `Passthrough.AcquireFinds` | src/passthrough/mod.rs:1028-1066 | where live inodes are findable, the one that is the file is taken if there is one, and else the next ID |
| `Passthrough.LookupsFindTheFile` | src/passthrough/mod.rs:1081-1148 | in every run on a host that does not mix ID triples, a lookup gives the inode for the file if and only if there is one |
| `Passthrough.RunsKeepFindable` | src/passthrough/mod.rs:1081-1148 | in such runs every live inode stays findable |
| `Passthrough.MountedHasRoot` | src/passthrough/mod.rs:1576-1628 | at first only the root is known, with two references and no names |
| `Passthrough.UnlinkForgetsName` | src/passthrough/mod.rs:1282-1298 | after an unlink a walk by that name ends, and no other name changes |
| `Passthrough.RenameMovesName` | src/passthrough/mod.rs:2397-2490 | after a rename the new name leads where the old one did, if anywhere, and the old one nowhere |
| `Passthrough.LookUpSetsName` | src/passthrough/mod.rs:1081-1148 | a name that was looked up leads to the inode the guest got, and a failed lookup changes no name |
| `Passthrough.MakingSetsName` | src/passthrough/mod.rs:1974-2152 | what mkdir, mknod, symlink, link and create made is what the name leads to, with one more reference |
| `Passthrough.RefusedChangesNothing` | src/passthrough/mod.rs:1974-2152 | a request that the host refuses or whose directory is unknown changes nothing |
| `Passthrough.ForgetKeepsNames` | src/passthrough/mod.rs:1930-1949 | a forget takes away names of inodes that are gone and of no others |
| `Passthrough.DrainRemovesOnlyListed` | src/passthrough/mod.rs:1937-1949 | without migration info a batch of forgets removes only inodes it lists |
| `Passthrough.PathsStayLive` | src/passthrough/dentry_index.rs:160-181 | at every point of every run, every prefix of a path leads to the root or a live inode |
| `Passthrough.ServeAndResolve` | src/passthrough/mod.rs:750-792 | serving any requests is such a run, and a host path then resolves to the root or a live inode |
| `XattrMaps.FindRule` | src/passthrough/xattrmap.rs:438-450 | the first matching rule, and none only if no rule matches |
| `XattrMaps.KindsMean` | src/passthrough/xattrmap.rs:387-436 | what each kind of rule makes of client names and host names that it is the first to match |
| `XattrMaps.TerminatedIff` | src/passthrough/xattrmap.rs:438-450 | no name is left without a rule if and only if some rule of that side has an empty pattern |
| `XattrMaps.NonEmptyTerminatedIff` | src/passthrough/xattrmap.rs:438-450 | no name that a listing can hold, if and only if each first byte is caught by a rule for it alone or for all |
| `XattrMaps.ListNeverPanicsIff` | src/passthrough/mod.rs:1327-1333 | listing never panics on an unterminated mapping, whatever the host returns, if and only if the server rules catch each first byte |
| `XattrMaps.ClientNeverPanicsIff` | src/passthrough/mod.rs:1312-1325 | with ACLs on, no client name panics if and only if some client rule has an empty key |
| `XattrMaps.ClientNeverPanicsWithoutAclsIff` | src/passthrough/mod.rs:1312-1325 | with ACLs off, if and only if each shortest name without NUL that is not a prefix of an ACL name has a client rule |
| `XattrMaps.ByteRulesSuffice` | src/passthrough/mod.rs:1312-1325 | with ACLs off a client rule for each byte but NUL will do |
| `XattrMaps.UnterminatedPanics` | src/passthrough/mod.rs:1312-1333 | with one rule for names in `u`, the name `x` panics when sent and when listed, with ACLs on or off |
| `XattrMaps.MapRuleTerminates` | src/passthrough/xattrmap.rs:319-354 | the rules of a `map` rule match every name on both sides |
| `XattrMaps.MapRuleClient` | src/passthrough/xattrmap.rs:387-401 | what a `map` rule makes of each client name |
| `XattrMaps.MapRuleServer` | src/passthrough/xattrmap.rs:411-436 | how a `map` rule lists each host name |
| `XattrMaps.MapRuleRoundTrip` | src/passthrough/xattrmap.rs:319-354 | a client name that passes is listed back under that very name |
| `XattrMaps.MapRuleInjective` | src/passthrough/xattrmap.rs:387-401 | two client names never share a host name |
| `XattrMaps.RoundTripIff` | src/passthrough/xattrmap.rs:475-486 | with other rules before a `map` rule, a name that passes is listed back as itself if and only if the first of them to match the host name lists it so, or none does and the name fell to the `map` rule or is listed so by it |
| `XattrMaps.SharedIff` | src/passthrough/xattrmap.rs:475-486 | a name that falls to the `map` rule shares its host name with another if and only if a rule before it passes that other name there |
| `XattrMaps.TwoNamesShare` | src/passthrough/xattrmap.rs:475-486 | two guest names that are one attribute on the host |
| `XattrMaps.ListedLeadsBackIff` | src/passthrough/xattrmap.rs:411-436 | a listed name leads back to its host name if and only if that lacks the prefix or has it before the key |
| `XattrMaps.ListedLeadsElsewhere` | src/passthrough/xattrmap.rs:411-436 | a listed name that leads to another attribute |
| `XattrMaps.NamesOfTerminated` | src/passthrough/xattrmap.rs:411-436 | splitting a written list gives the names written, empty ones aside |
| `XattrMaps.MapServerList` | src/passthrough/xattrmap.rs:411-436 | the names of the list as they are shown, in order, or an unterminated mapping |
| `XattrMaps.FilterList` | src/passthrough/mod.rs:1335-1348 | the names that are not blocked, in order |
| `XattrMaps.AclsAreUnsupported` | src/passthrough/mod.rs:1300-1325 | with ACLs off the two ACL names and their prefixes are not supported, and all else is up to the rules |
| `XattrMaps.AclsAreHidden` | src/passthrough/mod.rs:1335-1348 | with ACLs off neither ACL name is ever listed |
| `XattrMaps.ClientList` | src/passthrough/mod.rs:1327-1349 | the guest splits the result into exactly the visible names, for every byte string the host returns |
| `XattrMaps.ListingUnderMapRule` | src/passthrough/mod.rs:1300-1349 | under a `map` rule and the ACL filter a usable name is listed just when the host has the attribute it stands for, or one with the prefix before it |
| `IdMaps.IdMap.DoPush` | src/soft_idmap/mod.rs:115-137 | a range is entered just when it meets none before it |
| `IdMaps.IdMap.Push` | src/soft_idmap/mod.rs:267-332 | an argument is taken just when its ranges fit and are disjoint from those before |
| `IdMaps.TryFrom` | src/soft_idmap/mod.rs:264-337 | a list is accepted if and only if all ranges fit and those of each direction are disjoint; the map then returns the IDs of `map` arguments to themselves |
| `IdMaps.ArgumentMapsGuest` | src/soft_idmap/mod.rs:166-183 | each kind of argument shifts, squashes or forbids just the guest IDs in its range, and shifting beyond 32 bits is an error |
| `IdMaps.ArgumentMapsHost` | src/soft_idmap/mod.rs:166-183 | and so for host IDs |
| `IdMaps.OthersStay` | src/soft_idmap/mod.rs:91-104 | IDs that no argument is about stay as they are |
| `IdMaps.OverlapIff` | src/soft_idmap/mod.rs:115-137 | two ranges are refused together if and only if they share an ID |
| `IdMaps.FitsIff` | src/soft_idmap/mod.rs:239-262 | an argument fits if and only if its ranges end at 32-bit numbers |
| `IdMaps.GetFinds` | src/soft_idmap/mod.rs:91-104 | the one entry that covers an ID is found wherever it stands |
| `IdMaps.OrderDoesNotMatter` | src/soft_idmap/mod.rs:264-337 | any reordering of the arguments is accepted likewise and maps every ID likewise |
| `IdMaps.MapRoundTrip` | src/soft_idmap/mod.rs:166-183 | each ID in the guest range of a `map` argument goes to the host and back to itself without overflow, whatever else is given |
| `IdMaps.MapRoundTripFromHost` | src/soft_idmap/mod.rs:166-183 | and each ID in its host range to the guest and back |
| `IdMaps.UnmappedMeetsMapped` | src/soft_idmap/mod.rs:91-104 | an ID that nothing maps shares its host ID with the one mapped there |
| `IdMaps.InjectiveIff` | src/soft_idmap/mod.rs:91-104 | with `map` arguments no two guest IDs share a host ID if and only if every host ID mentioned is mentioned as a guest ID |
| `IdMaps.ApartIff` | src/soft_idmap/mod.rs:91-104 | for any accepted arguments and either direction, no two IDs that are mapped share a target if and only if no range of two is squashed, no two ranges map to a common ID and every ID mapped to is in some range |

## Left out

- System calls, capabilities, sandboxing, credentials and the guest FD limit: their outcomes are parameters.
- vhost-user, the virtqueues and the notification queue: they are mostly external crates.
- Migration streams: migration info is just a list of references.
- `destroy` and `clear` racing with references, and guests that forget more than they were given, in the claims about counts.
- `create` failing after its lookup succeeded, in the claims about counts: the count then stays raised.
- RENAME_EXCHANGE: the index treats it as a plain rename.
- Counts are unbounded: the daemon's are 64-bit.
- The order in which the daemon's maps are iterated: every order is allowed.
- The macOS emulation other than its directory reader: tables and single branches.
- MacReadDirs.MacPage: speaks of the entries that the reader yields, not of the reply's bytes, which are as on Linux.
- Errors of `lseek64` and `getdents64` other than EINVAL, of `__getdirentries64`, and failing to rewind a directory.
- File offsets above the range of `i64`, on which the conversion for the system call panics.
- Parsing the text of xattr rules and ID map arguments: plain tokenizing.
- Write flags such as RWF_APPEND in the zero-copy loops.
- The fields of an entry reply after its node ID: opaque bytes.
- Empty ID ranges: they are taken to meet no other range, the range map being an external crate.
- InodeTables.InodeStore.ForgetOne: inodes are values of a map, so a pointer to a removed inode is modelled only in the interleavings.
- ZeroCopy.WriteToFileAt: any error is one error, without its text.
- DirectoryReplies.Readdirplus: EIO stands for every cause but a failed lookup for which the first entry cannot be reported; error numbers are positive and not translated.
- Passthrough.PassthroughFs.Rename: with migration tracking off, as all of that file but the forgets.
- IdMaps.TryFrom: wrap-around of a `forbid-guest` range in builds without overflow checks.
