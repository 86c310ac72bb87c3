# Verified models of seven kernel files

This project models the parts of a Linux 5.15 tree (with the per-process key/value store that this repository adds)
whose correctness is hardest to see from the code, and proves what they promise. It has five independent groups.

* **Pathnames and rename** (`fs/namei.c`). `DentryTree` is the parent relation of dentries and what moving a subtree does
  to it. `Rename` is a state machine in which any number of threads run `renameat2`, each taking the rename mutex, the
  directory locks and the locks of the two children one at a time; no run ever makes a directory its own ancestor.
  `RenameProgress` adds that no run ever deadlocks, `RenameEffects` what a rename does to the tree and its locks. `PathSpec` resolves a pathname by plain recursion, expanding every link
  where it stands; `PathWalk` is the iterative walk of the kernel, with its stack of saved names, and gives the same node or
  the same error; `PathLaws` says what a lookup means in plain cases. `Unlazy` follows every reference through the exit from RCU mode. `NameHash` is the word-at-a-time hash.
* **Inode cache** (`fs/inode.c`). `InodeCache` is the state machine of lookup, insertion, reference, release, shrinker and
  eviction; `InodeCacheProof` proves its invariant and the two searches under the hash lock, `InodeEffects` what
  the steps do and what a reference is worth over a whole run.
* **Thread groups** (`fs/exec.c`, `kernel/exit.c`, `kernel/fork.c`). `DeThread` is exec getting rid of its sibling threads,
  `DeThreadProgress` that it always can,
  `Reap`, `ReapProof` and `ReapEffects` the end of a task up to `release_task`, `ProcTree` the walk of the process tree without a stack.
* **Text and argument memory** (`fs/exec.c`, `kernel/sysctl.c`). `ExecArgs` copies strings backwards, page by page;
  `Digits`, `RangeList`, `SysctlBitmap`, `SysctlIntVec` and `SysctlString` print and parse sysctl values.
* **Key/value store** (`kernel/kv_store.c`). `KvStore` is the chained hash as one thread uses it, `KvRuns` any number of
  threads inside it at once.

`Wrappers` and `Texts` hold what several of them share. Concurrent code is a state machine whose steps are the regions under one lock, or single atomic actions; a theorem about
it is about every finite sequence of steps. Sequential code that works by changing things is a class or a method with loops,
proved against a function that says what it computes. What the kernel asks of code outside these files (the answer of
`do_notify_parent`, whether a reference can still be taken, what `kmalloc` returns, the order of lists) is a parameter of a
step or of a method and takes any value.

`dafny verify dfyconfig.toml` checks the whole project.

Results that the code does not meet everywhere are stated with their exact condition:

* A call that writes part of a range list misreads nothing, but it fails if and only if its page ends right after the `0x`
  or `0X` of a number (`RangeList.ItemCut`, `SysctlBitmap.OneCall`); numbers may be spelled in decimal, octal or
  hexadecimal. In a well-formed text that is so exactly when the last character of the page is an x
  (`RangeList.XMeansPrefix`). A list of any length is written completely if and only if no call meets such a page, and a
  call that fails leaves what the calls before it have set (`SysctlBitmap.WriteLongText`). `SysctlBitmap.CallFailsAt` gives
  a text whose first call fails. Without a separator at its very end a text is read with a trailer that the code may not
  have set yet, and fails exactly if that is a dash (`RangeList.WithoutSeparator`).
* `kv_hash` yields an index of its table exactly for keys that are not negative or that 1024 divides
  (`KvStore.HashInTable`), and `read_kv` cannot tell a missing key from a stored -2 (`KvStore.ReplyIsAmbiguous`).
* The byte-at-a-time `hash_name` finds the same length as the word-at-a-time one exactly for components that are not empty
  (`NameHash.ByteLoopLength`).
* Moving a subtree keeps the tree if and only if it does not go below itself (`DentryTree.MoveKeepsTree`,
  `DentryTree.MoveBreaksTree`), and the trap is the source or the target of a rename exactly when that would happen
  (`Rename.TrapIsExact`).

## Model

| member | source | states |
|---|---|---|
| `DentryTree.NoCycle` | linux-5.15.178/fs/namei.c:4837-4850 | in a tree of dentries only the root is its own ancestor |
| `DentryTree.MoveKeepsTree` | linux-5.15.178/fs/namei.c:4837-4850 | giving a dentry a new parent that is not at or below it keeps the relation a tree |
| `DentryTree.MoveBreaksTree` | linux-5.15.178/fs/namei.c:4837-4850 | giving it a parent at or below it never does |
| `DentryTree.DAncestor` | linux-5.15.178/fs/namei.c:2989-3004 | the climb finds the child of p1 that is p2 or above it, or shows that there is none |
| `DentryTree.TrapIsUnique` | linux-5.15.178/fs/namei.c:2989-3004 | there is only one such child, so one trap is enough |
| `Rename.TrapIsExact` | linux-5.15.178/fs/namei.c:4962-4970 | source is trap if and only if it is above the new directory; target is trap if and only if it is above the old one |
| `Rename.TrapStopsLoops` | linux-5.15.178/fs/namei.c:4940-4985 | a cross-directory rename or exchange that passes both trap checks moves neither dentry below itself |
| `Rename.CommitKeepsTree` | linux-5.15.178/fs/namei.c:4790-4850 | the commit of a rename or exchange, in any state its locks allow, keeps the tree; within one directory no parent changes |
| `Rename.FindTrapKeeps` | linux-5.15.178/fs/namei.c:3009-3018 | under the rename mutex the trap stays right until the directory locks are taken |
| `Rename.CommitKeeps` | linux-5.15.178/fs/namei.c:4711-4868 | a commit by one thread keeps what every other thread has found out and locked |
| `Rename.StepKeepsInv` | linux-5.15.178/fs/namei.c:4871-5010 | every step of every thread keeps the tree, the locks and each thread's knowledge |
| `Rename.RunKeepsInv` | linux-5.15.178/fs/namei.c:4871-5010 | so does every run |
| `Rename.RenameNeverLoops` | linux-5.15.178/fs/namei.c:2989-3071 | in every run of any number of renames and exchanges the dentries form a tree at every point, and no dentry but the root is its own ancestor |
| `RenameProgress.NothingHeldBelow` | linux-5.15.178/fs/namei.c:2989-3018 | a thread with the rename mutex never waits for a directory that is above one it holds, and for other inodes only in ascending order |
| `RenameProgress.WaitsUnwind` | linux-5.15.178/fs/namei.c:4711-4868 | from every thread the chain of waiting-for ends at one that is not blocked |
| `RenameProgress.RenameNeverDeadlocks` | linux-5.15.178/fs/namei.c:2989-3071 | in every reachable state with a rename under way, some thread on its chain of waits has a step to take |
| `RenameEffects.CommitHoldsLocks` | linux-5.15.178/fs/namei.c:4777-4803 | a rename that commits holds both directories, the rename mutex if they differ, and every inode of the two that vfs_rename must lock |
| `RenameEffects.CommitStep` | linux-5.15.178/fs/namei.c:4711-4868 | the commit happens exactly when every lock has been taken |
| `RenameEffects.CommitMoves` | linux-5.15.178/fs/namei.c:4843-4850 | after it the source is in the new directory, an exchanged target in the old one, every other dentry where it was, and the thread holds nothing |
| `RenameEffects.CommitCarries` | linux-5.15.178/fs/namei.c:4843-4850 | all that was below the source is below the new directory |
| `RenameEffects.FailMovesNothing` | linux-5.15.178/fs/namei.c:4986-4995 | a rename that fails moves nothing and lets go of everything |
| `RenameEffects.LookupIsExact` | linux-5.15.178/fs/namei.c:4931-4970 | a pair is let through exactly if the kinds agree and neither would end up below itself |
| `RenameEffects.StepNearerEnd` | linux-5.15.178/fs/namei.c:4871-5010 | every step but a lookup brings a rename nearer to its end, which is a commit or a failure |
| `RenameEffects.StepIsLocal` | linux-5.15.178/fs/namei.c:4871-5010 | no step moves another rename, and only a commit or a lookup changes the tree |
| `RenameEffects.CanBegin` | linux-5.15.178/fs/namei.c:4871-4940 | any idle thread may begin a rename between two directories, and look up what is in a directory it holds |
| `PathSpec.ParentThenLast` | linux-5.15.178/fs/namei.c:2426-2474 | resolving all but the last component and then the last is resolving the whole |
| `PathSpec.ResolveInScope` | linux-5.15.178/fs/namei.c:889-908 | resolution that starts at or below the root ends there, whatever links and ".." it meets |
| `PathSpec.ResolveOneInScope` | linux-5.15.178/fs/namei.c:1802-1833 | the same for one component |
| `PathWalk.Nameidata.PickLink` | linux-5.15.178/fs/namei.c:1696-1799 | counts the link, fails with ELOOP (too many links, or LOOKUP_NO_SYMLINKS) or EXDEV exactly when it must, jumps to the root for an absolute body and stays in scope |
| `PathWalk.Nameidata.FollowDotDot` | linux-5.15.178/fs/namei.c:1875-1955 | ".." gives what the recursive resolution gives and never leaves the scope |
| `PathWalk.Nameidata.StepInto` | linux-5.15.178/fs/namei.c:1802-1833 | one lookup gives the recursive result, or the body whose resolution is the recursive result |
| `PathWalk.Nameidata.StepComponent` | linux-5.15.178/fs/namei.c:1957-1983 | walk_component agrees with the recursive resolution of the component, keeps depth and link count in their bounds and stays in scope |
| `PathWalk.Nameidata.TakeComponent` | linux-5.15.178/fs/namei.c:2249-2304 | splitting off a component, or popping a saved name at the end of one, leaves the rest of the resolution the same and gets shorter |
| `PathWalk.Nameidata.OneTurn` | linux-5.15.178/fs/namei.c:2238-2320 | one turn of the loop keeps what remains to be resolved and makes progress |
| `PathWalk.Nameidata.LinkPathWalk` | linux-5.15.178/fs/namei.c:2221-2321 | the loop ends, at the parent and last component that the recursion finds or with its error |
| `PathWalk.Nameidata.LookupLast` | linux-5.15.178/fs/namei.c:2426-2432 | the last component gives its recursive result; a slash after it asks for a directory and follows links |
| `PathWalk.Nameidata.OneRound` | linux-5.15.178/fs/namei.c:2443-2460 | a round of link_path_walk and lookup_last keeps the final result |
| `PathWalk.Nameidata.PathLookupAt` | linux-5.15.178/fs/namei.c:2443-2474 | the rounds end with the node or error of the recursion, inside the scope |
| `PathWalk.PathIsUnder` | linux-5.15.178/fs/namei.c:889-908 | the final check is exactly "at or below the root", so in a scoped walk it never fails |
| `PathWalk.FilenameLookup` | linux-5.15.178/fs/namei.c:2324-2500 | for every tree, path and mode, the iterative lookup gives the same node or the same error as the recursive one, and a scoped one stays below its start |
| `PathLaws.LookupName` | linux-5.15.178/fs/namei.c:2371-2422 | a name is looked up in the starting directory: its node, or ENOTDIR, EACCES or ENOENT exactly when due |
| `PathLaws.LookupAbsolute` | linux-5.15.178/fs/namei.c:2363-2369 | a leading slash starts at the root of the file system, at the start under LOOKUP_IN_ROOT, and is refused under LOOKUP_BENEATH |
| `PathLaws.LookupDotDot` | linux-5.15.178/fs/namei.c:1875-1955 | ".." is the parent, and stays or is refused at the root of the lookup and at the top |
| `PathLaws.LookupDot` | linux-5.15.178/fs/namei.c:1912-1915 | "." stays |
| `PathLaws.LookupSlash` | linux-5.15.178/fs/namei.c:2278-2304 | after a directory and a slash the rest is looked up there |
| `PathLaws.LookupTrailingSlash` | linux-5.15.178/fs/namei.c:2426-2432 | a slash at the end asks for a directory and follows a link to find one |
| `PathLaws.FollowLink` | linux-5.15.178/fs/namei.c:1696-1799 | a link is its body, from here or from the root, until forty links have been followed |
| `PathLaws.LinkToItself` | linux-5.15.178/fs/namei.c:1696-1700 | a link to itself ends with ELOOP |
| `PathLaws.LookupEnds` | linux-5.15.178/fs/namei.c:2443-2474 | a lookup ends at a directory if one is asked for, and at no link if links are followed |
| `Unlazy.Nameidata.LegitimizePath` | linux-5.15.178/fs/namei.c:691-711 | whatever the primitives answer, what is left in the path is what has been counted |
| `Unlazy.Nameidata.DropLinks` | linux-5.15.178/fs/namei.c:659-667 | runs each waiting delayed call once and clears it |
| `Unlazy.Nameidata.LegitimizeLinks` | linux-5.15.178/fs/namei.c:713-730 | at any refusal the walk owns one reference for each link still on the stack and no delayed call is lost |
| `Unlazy.Nameidata.LegitimizeRoot` | linux-5.15.178/fs/namei.c:732-746 | the root is counted exactly if it is marked as grabbed |
| `Unlazy.Nameidata.TryToUnlazy` | linux-5.15.178/fs/namei.c:770-793 | for any outcomes the walk owns exactly one reference for each saved link, the current path and a grabbed root; on success the root is grabbed exactly if it is set and not preset, and nothing else has changed |
| `Unlazy.Nameidata.TryToUnlazyNext` | linux-5.15.178/fs/namei.c:808-851 | the same, and on success one reference to the next dentry is the caller's |
| `Unlazy.Nameidata.TerminateWalk` | linux-5.15.178/fs/namei.c:669-689 | gives back all that the walk owns, in either mode, and runs the delayed calls |
| `Unlazy.Nameidata.UnlazyThenTerminate` | linux-5.15.178/fs/namei.c:659-851 | if nothing is refused the attempt succeeds exactly unless LOOKUP_CACHED or a scoped walk without root forbids it; after either attempt and terminate_walk every count is where it started, except the next dentry handed over on success |
| `NameHash.TestIsExact` | linux-5.15.178/fs/namei.c:2152-2155 | the word test is zero exactly if none of the eight bytes is NUL or a slash |
| `NameHash.MaskIsExact` | linux-5.15.178/fs/namei.c:2157-2160 | the mask made from the test covers exactly the bytes below the first NUL or slash |
| `NameHash.CountIsExact` | linux-5.15.178/fs/namei.c:2162-2162 | find_zero counts them |
| `NameHash.WordShowsEnd` | linux-5.15.178/fs/namei.c:2150-2155 | a word of memory shows the end of the component if it is among its bytes, and otherwise all eight belong to it |
| `NameHash.FullNameHash` | linux-5.15.178/fs/namei.c:2091-2108 | the loop gives the hash of the first len bytes, whatever follows them in memory |
| `NameHash.HashName` | linux-5.15.178/fs/namei.c:2140-2163 | finds the first NUL or slash and gives the hash that full_name_hash gives that component, at every length |
| `NameHash.ByteLoopLength` | linux-5.15.178/fs/namei.c:2197-2209 | the byte loop finds the same length if and only if the component is not empty |
| `NameHash.MixBack` | linux-5.15.178/fs/namei.c:2040-2044 | a turn of HASH_MIX can be undone up to the word it mixes in |
| `NameHash.NoCollisionInTwo` | linux-5.15.178/fs/namei.c:2012-2021 | two turns from one state never collide, as the comment claims |
| `NameHash.MixInNumbers` | linux-5.15.178/fs/namei.c:2040-2044 | HASH_MIX on one triple of words |
| `NameHash.FoldInNumbers` | linux-5.15.178/fs/namei.c:2051-2056 | fold_hash on one pair of words |
| `NameHash.LoadInNumbers` | linux-5.15.178/fs/namei.c:2097-2098 | a word of memory has its first byte lowest, and zeros past the end |
| `InodeCacheProof.InsertLockedKeeps` | linux-5.15.178/fs/inode.c:1624-1668 | inserting next to inodes that are being freed keeps the hash free of live twins |
| `InodeCacheProof.AddInodeKeeps` | linux-5.15.178/fs/inode.c:1264-1322 | iget_locked's insertion of a new inode keeps every invariant |
| `InodeCacheProof.NewRefKeeps` | linux-5.15.178/fs/inode.c:1383-1399 | a reference taken by lookup or igrab is on an inode that is not being freed |
| `InodeCacheProof.IputKeeps` | linux-5.15.178/fs/inode.c:1704-1772 | dropping a reference, the last one included, by each of iput_final's ways or with a retry for a lazy timestamp |
| `InodeCacheProof.MarkFreeingKeeps` | linux-5.15.178/fs/inode.c:669-710 | marking an unreferenced inode I_FREEING gives it to one thread's dispose list |
| `InodeCacheProof.PinKeeps` | linux-5.15.178/fs/inode.c:781-839 | the shrinker's pin |
| `InodeCacheProof.EvictBeginKeeps` | linux-5.15.178/fs/inode.c:599-609 | evict starts on an inode for the first time |
| `InodeCacheProof.EvictWaitKeeps` | linux-5.15.178/fs/inode.c:611-611 | evict goes on when the inode is not pinned, and from then on nobody can pin it |
| `InodeCacheProof.EvictClearKeeps` | linux-5.15.178/fs/inode.c:619-626 | overwriting the state after the wait loses no pin |
| `InodeCacheProof.DestroyKeeps` | linux-5.15.178/fs/inode.c:630-638 | when the inode goes nobody refers to it |
| `InodeCacheProof.StepKeepsInv` | linux-5.15.178/fs/inode.c:599-839 | every step keeps counts, uniqueness, ownership, single eviction and nr_unused |
| `InodeCacheProof.RunKeepsInv` | linux-5.15.178/fs/inode.c:599-839 | so does every run |
| `InodeCacheProof.HashNeverHoldsTwins` | linux-5.15.178/fs/inode.c:895-920 | in no run are there two hashed inodes, not being freed, with the same superblock and number |
| `InodeCacheProof.EvictIsSafe` | linux-5.15.178/fs/inode.c:599-638 | evict is called at most once for an inode, with no reference and off the unused list, and ends with the state I_FREEING and I_CLEAR |
| `InodeCacheProof.ShrinkerIsSafe` | linux-5.15.178/fs/inode.c:781-839 | a pinned inode is not cleared under the shrinker, and nr_unused is the length of the unused list |
| `InodeCacheProof.DyingNeverReferencedAgain` | linux-5.15.178/fs/inode.c:1383-1399 | once I_FREEING or I_WILL_FREE is set, i_count is 0 and stays 0 and no reference is ever taken |
| `InodeCacheProof.FindInodeFast` | linux-5.15.178/fs/inode.c:895-920 | the chain search returns what makes the insertion, the reference, the wait or the refusal right |
| `InodeCacheProof.InsertScan` | linux-5.15.178/fs/inode.c:1624-1668 | the scan finds a live twin or shows that inserting is allowed |
| `InodeEffects.TakesReference` | linux-5.15.178/fs/inode.c:895-920 | a lookup or igrab that succeeds leaves its caller with a reference of its own: i_count is one more, and nothing else changes |
| `InodeEffects.BringsInode` | linux-5.15.178/fs/inode.c:1264-1322 | a new inode comes with one reference; iget_locked's is in the hash, locked |
| `InodeEffects.DropsReference` | linux-5.15.178/fs/inode.c:1756-1772 | iput gives back the one reference, unless it takes the last one back for another try |
| `InodeEffects.LastReference` | linux-5.15.178/fs/inode.c:1704-1754 | the last one decides: the inode stays, goes to the dispose list, or is written first |
| `InodeEffects.Disposes` | linux-5.15.178/fs/inode.c:669-710 | the shrinker, evict_inodes and the end of a write-back mark I_FREEING and fill the dispose list |
| `InodeEffects.HashSteps` | linux-5.15.178/fs/inode.c:1040-1068 | insertion, unlocking and removal change just their inode's flags |
| `InodeEffects.LruSteps` | linux-5.15.178/fs/inode.c:430-457 | the unused list and nr_unused go together |
| `InodeEffects.PinsAndUnpins` | linux-5.15.178/fs/inode.c:459-474 | the shrinker's pin goes on and comes off |
| `InodeEffects.EvictStarts` | linux-5.15.178/fs/inode.c:599-609 | evict starts on the first inode of the list |
| `InodeEffects.EvictGoesOn` | linux-5.15.178/fs/inode.c:611-638 | evict goes through its phases in order, and at its end the inode is gone |
| `InodeEffects.ReferencesCanMove` | linux-5.15.178/fs/inode.c:1756-1772 | a held reference can always be given back, and another one taken |
| `InodeEffects.ThreadsCanGoOn` | linux-5.15.178/fs/inode.c:599-638 | an eviction can always go on, held up only by a pin whose owner can let go |
| `InodeEffects.ReferenceKeeps` | linux-5.15.178/fs/inode.c:1383-1399 | in every run, from the moment a reference is held until its iput the inode stays in the cache and is not being freed |
| `InodeEffects.HashedUntilRemoved` | linux-5.15.178/fs/inode.c:531-557 | in every run, from its insertion until it is taken out an inode is in the hash under its number |
| `DeThread.ForkKeeps` | linux-5.15.178/kernel/fork.c:2358-2420 | a clone keeps the invariant and cannot happen while an exec is under way |
| `DeThread.ReleaseKeeps` | linux-5.15.178/kernel/exit.c:158-171 | a released thread is counted down, and the last one wakes exec |
| `DeThread.ReleaseCounts` | linux-5.15.178/kernel/exit.c:158-171 | a released thread is one that notify_count stands for, or the old leader |
| `DeThread.ExitNotifyKeeps` | linux-5.15.178/kernel/exit.c:711-751 | an exiting leader wakes an exec that waits for it |
| `DeThread.ExecStartKeeps` | linux-5.15.178/fs/exec.c:1050-1067 | zap_other_threads' count, less the leader, is the number of threads to wait for |
| `DeThread.Enter2Keeps` | linux-5.15.178/fs/exec.c:1084-1155 | waiting for the leader and taking its place; the BUG_ON on its exit state does not fire |
| `DeThread.StepKeepsInv` | linux-5.15.178/fs/exec.c:1042-1176 | every step keeps the invariant |
| `DeThread.RunKeepsInv` | linux-5.15.178/fs/exec.c:1042-1176 | so does every run, and the thread group id stays |
| `DeThread.ExecEndsAlone` | linux-5.15.178/fs/exec.c:1156-1176 | whenever de_thread returns 0 the group is exactly the caller, alive, leader, with the pid the group had |
| `DeThread.NoWakeUpIsLost` | linux-5.15.178/fs/exec.c:1065-1105 | asleep in the first loop, notify_count is the number of other non-leader threads and not 0, all of them killed, and nobody can join; asleep in the second, the leader has not exited |
| `DeThreadProgress.ExecGoesOn` | linux-5.15.178/fs/exec.c:1042-1176 | while an exec is under way some thread can take a step after which it is nearer to its end, or over |
| `DeThreadProgress.NoExecIsStuck` | linux-5.15.178/fs/exec.c:1042-1176 | so at every point of every run |
| `DeThreadProgress.ExecBegins` | linux-5.15.178/fs/exec.c:1050-1067 | de_thread begins, if no group exit or other exec is under way, by killing every other thread |
| `DeThreadProgress.ThreadExits` | linux-5.15.178/kernel/exit.c:711-751 | an exiting thread is dead or, as leader with threads or a waiting parent, a zombie, and wakes an exec that waits for it |
| `DeThreadProgress.ForkJoins` | linux-5.15.178/kernel/fork.c:2358-2420 | a clone adds one live thread and changes no other |
| `DeThreadProgress.GroupIsKilled` | linux-5.15.178/fs/exec.c:1050-1064 | a group exit kills and wakes every thread, an exec that sleeps included |
| `ReapProof.ClaimKeeps` | linux-5.15.178/kernel/exit.c:1093-1104 | of the threads racing for a zombie one wins, and only it will release it |
| `ReapProof.ExitKeeps` | linux-5.15.178/kernel/exit.c:711-751 | exit_notify with reparenting puts all that it kills on its own list and nobody else's |
| `ReapProof.ShareIs` | linux-5.15.178/kernel/exit.c:1106-1160 | what a wait adds to the c* counters is every thread of the child's group once and what that group had been given; none of it has been added there before |
| `ReapProof.FoldKeeps` | linux-5.15.178/kernel/exit.c:1106-1160 | folding keeps every thread's counters in the c* fields of at most one group that is not folded itself |
| `ReapProof.ReleaseKeeps` | linux-5.15.178/kernel/exit.c:230-278 | releasing a task, and with the last thread a zombie leader nobody waits for |
| `ReapProof.StepKeepsInv` | linux-5.15.178/kernel/exit.c:643-751 | every step of every task keeps the invariant |
| `ReapProof.RunKeepsInv` | linux-5.15.178/kernel/exit.c:643-751 | so does every run |
| `ReapProof.EachAtMostOnce` | linux-5.15.178/kernel/exit.c:1096-1183 | in every run a task becomes EXIT_DEAD at most once and stays so, is released at most once, and is folded at most once |
| `ReapProof.ReleasedByItsKiller` | linux-5.15.178/kernel/exit.c:230-278 | whoever has a task to release is the one who made it EXIT_DEAD |
| `ReapProof.NoZombieIsLost` | linux-5.15.178/kernel/exit.c:643-662 | a dead task is on exactly one list until it is released, and a leader dies only when its threads have been released |
| `ReapEffects.ExitReparents` | linux-5.15.178/kernel/exit.c:672-751 | after exit_notify every child has the reaper as its parent and no other parent changes; the reaper is in the group as long as a thread of it runs |
| `ReapEffects.ParentLooks` | linux-5.15.178/kernel/exit.c:1356-1410 | only a running thread of the parent's group looks at a child, and only at a zombie without threads |
| `ReapEffects.Claims` | linux-5.15.178/kernel/exit.c:1093-1104 | the first waiter to claim a zombie makes it dead and has it to reap, the others nothing |
| `ReapEffects.FoldAdds` | linux-5.15.178/kernel/exit.c:1106-1160 | a wait adds every thread of the child's group and what that group had been given to its caller's group, and to no other |
| `ReapEffects.ReleaseTakesOut` | linux-5.15.178/kernel/exit.c:230-278 | release_task takes one thread out of its group, adds its counters to its group's, and goes on to a zombie leader exactly if it was the last thread and nobody waits |
| `ReapEffects.NewTasks` | linux-5.15.178/kernel/fork.c:2358-2420 | a clone joins its caller's group, a fork is its own leader with the parent it was given |
| `ReapEffects.BeginsExit` | linux-5.15.178/kernel/exit.c:832-832 | a thread that begins its exit is no longer running, and nothing else changes |
| `ReapEffects.RunKeepsParents` | linux-5.15.178/kernel/exit.c:672-703 | in every run the parent of a process that is not dead has not come to the end of its exit |
| `ReapEffects.ZombieCanBeReaped` | linux-5.15.178/kernel/exit.c:672-703 | at every point of every run a zombie without threads can be looked at by any free running thread of its parent's group, and an exiting parent hands it on |
| `ReapEffects.TasksCanGoOn` | linux-5.15.178/kernel/exit.c:711-751 | only a waiter in the middle of its search holds up an exit, a fork or a release |
| `ProcTree.WalkProcessTree` | linux-5.15.178/kernel/fork.c:2892-2922 | the walk that climbs by real_parent ends and shows any visitor exactly the sequence of the recursive pre-order walk |
| `ProcTree.VisitStep` | linux-5.15.178/kernel/fork.c:2900-2911 | a visit stops, skips or descends, and leaves the rest of the recursive walk to do |
| `ProcTree.Climb` | linux-5.15.178/kernel/fork.c:2913-2918 | the jump back into the middle of the loops continues where the walk came down |
| `ProcTree.VisitedOnceInOrder` | linux-5.15.178/kernel/fork.c:2892-2922 | no process is visited twice, nor before the visitor has asked to go below its parent |
| `ProcTree.NoneMissed` | linux-5.15.178/kernel/fork.c:2892-2922 | unless stopped, the walk visits every child of the top and of every process that the visitor asked to go below |
| `ExecArgs.Bprm.CopyChunk` | linux-5.15.178/fs/exec.c:551-596 | one chunk up to the page edge, through the cached page, writes exactly its bytes |
| `ExecArgs.Bprm.CopyOne` | linux-5.15.178/fs/exec.c:551-600 | the chunks of a string together write exactly the string |
| `ExecArgs.Bprm.CopyStrings` | linux-5.15.178/fs/exec.c:516-606 | succeeds, if nothing outside goes wrong, exactly if the strings are short enough and fit; then below the old p lies argv[0] NUL ... argv[n-1] NUL and every other byte is unchanged |
| `ExecArgs.Bprm.CopyStringKernel` | linux-5.15.178/fs/exec.c:611-649 | agrees with copy_strings on one string |
| `ExecArgs.Bprm.RemoveArgZero` | linux-5.15.178/fs/exec.c:1680-1713 | moves p just past the first NUL, across any number of pages |
| `ExecArgs.DropArgZero` | linux-5.15.178/fs/exec.c:1680-1713 | on the stack that copy_strings left, drops exactly argv[0] |
| `ExecArgs.CopyAll` | linux-5.15.178/fs/exec.c:1917-1958 | if nothing outside goes wrong it succeeds exactly if no string is too long and all fits the budget, and else gives E2BIG; on success argv (one empty string if there was none), environment and file name lie in order, and their bytes and one pointer for each entry fit the budget of bprm_stack_limits |
| `ExecArgs.LimitIs` | linux-5.15.178/fs/exec.c:470-509 | the budget in numbers: a quarter of the stack limit, at least 128 KiB, at most 6 MiB |
| `ExecArgs.EncodedDecodes` | linux-5.15.178/fs/exec.c:516-606 | read string by string, what is laid out is what was given |
| `Digits.ValueOfDecimal` | linux-5.15.178/kernel/sysctl.c:513-525 | the digits printed for a number have its value |
| `Digits.DecimalIsNumber` | linux-5.15.178/kernel/sysctl.c:513-525 | what is printed is a spelling that the parser accepts, of the same number |
| `Digits.GetSpelled` | linux-5.15.178/kernel/sysctl.c:454-500 | proc_get_long reads any accepted spelling, decimal, octal or hexadecimal, with its sign |
| `Digits.PrefixIsNumber` | linux-5.15.178/kernel/sysctl.c:417-438 | what a cut leaves of a number is a number, except after just 0x or 0X |
| `Digits.GetCutPrefix` | linux-5.15.178/kernel/sysctl.c:454-500 | just 0x or 0X is refused |
| `Digits.GetLongSound` | linux-5.15.178/kernel/sysctl.c:454-500 | whatever is accepted is a sign and a spelling of the value, of at most twenty characters, with a permitted character or nothing behind |
| `Digits.OtherBases` | linux-5.15.178/kernel/sysctl.c:417-438 | 0x and hexadecimal digits, or 0 and octal digits, stand for the number that the digits write |
| `Digits.DigitsAre` | linux-5.15.178/kernel/sysctl.c:417-438 | the sixteen digits in either case, and no others |
| `RangeList.ItemWhole` | linux-5.15.178/kernel/sysctl.c:1563-1623 | a number or range in any spelling with its separator is read as it stands |
| `RangeList.ItemCut` | linux-5.15.178/kernel/sysctl.c:1568-1606 | at a page edge anywhere inside it an item is put back, unless the edge leaves just 0x or 0X of one of its numbers; then and only then the call fails |
| `RangeList.ItemThenSeparator` | linux-5.15.178/kernel/sysctl.c:1568-1606 | at a page edge right after its separator a bit is put back and a range is read |
| `RangeList.WithoutSeparator` | linux-5.15.178/kernel/sysctl.c:1589-1598 | a bit at the very end, with no separator, is read unless the trailer seen before it is a dash, and then the call fails |
| `RangeList.ItemRefused` | linux-5.15.178/kernel/sysctl.c:1582-1614 | a bit outside the bitmap, a range that ends outside or before it begins, makes the call fail |
| `RangeList.SignRefused` | linux-5.15.178/kernel/sysctl.c:1584-1587 | so does a signed number |
| `RangeList.PrefixShows` | linux-5.15.178/kernel/sysctl.c:1568-1583 | such an edge shows in the last character before it |
| `RangeList.ParseList` | linux-5.15.178/kernel/sysctl.c:1549-1624 | a call on any part of a list, blank lines included, fails if and only if the part ends in x; otherwise it takes some of the first entries exactly, all of them if nothing is cut, and something if there is room for an item |
| `RangeList.XMeansPrefix` | linux-5.15.178/kernel/sysctl.c:1568-1583 | in a well-formed text x stands only after the 0 at the start of a number |
| `SysctlBitmap.OneCall` | linux-5.15.178/kernel/sysctl.c:1549-1624 | a call fails if and only if its page ends right after the 0x or 0X of a number; otherwise it makes progress and stops in front of an entry or between blank lines |
| `SysctlBitmap.CallFailsAt` | linux-5.15.178/kernel/sysctl.c:1568-1583 | a concrete text of 4097 characters whose page ends after 0x, so that the call fails |
| `SysctlBitmap.WriteLongText` | linux-5.15.178/kernel/sysctl.c:1549-1658 | resumed calls on a list of any length and spelling all succeed if and only if none meets such a page, and then set exactly the union of the ranges; a call that fails keeps what the ones before have set |
| `SysctlBitmap.RunsCover` | linux-5.15.178/kernel/sysctl.c:1626-1646 | the runs that are printed are exactly the set bits |
| `SysctlBitmap.Table.Write` | linux-5.15.178/kernel/sysctl.c:1549-1662 | a write that fails, for want of memory or on the text, leaves the bitmap unchanged; one at 0 replaces it and one elsewhere adds to it |
| `SysctlBitmap.Table.Read` | linux-5.15.178/kernel/sysctl.c:1626-1648 | a read gives the list of runs as far as it fits |
| `SysctlBitmap.Print` | linux-5.15.178/kernel/sysctl.c:1626-1648 | the printing loop writes the list of runs and a newline, clipped to the buffer |
| `SysctlBitmap.ReadsBack` | linux-5.15.178/kernel/sysctl.c:1549-1624 | parsing what is printed for a bitmap gives the bitmap |
| `SysctlBitmap.RoundTrip` | linux-5.15.178/kernel/sysctl.c:1534-1662 | what is read from any bitmap, written back to it or to another of its length, makes that what the first was |
| `SysctlBitmap.RoundTripLong` | linux-5.15.178/kernel/sysctl.c:1534-1662 | the same for texts of any length, written in as many calls as they need |
| `SysctlIntVec.GetNumber` | linux-5.15.178/kernel/sysctl.c:454-500 | a printed int is read back, INT_MIN included |
| `SysctlIntVec.ConvertIsExact` | linux-5.15.178/kernel/sysctl.c:555-580 | a number is stored exactly if it is an int and in range, and as it is written |
| `SysctlIntVec.SpacesAre` | linux-5.15.178/kernel/sysctl.c:382-390 | the characters that are skipped between numbers |
| `SysctlIntVec.ParseSpaced` | linux-5.15.178/kernel/sysctl.c:631-658 | numbers in any white space are stored in order up to the first that is out of range or has no place, and it is an error exactly if one out of range was met |
| `SysctlIntVec.RoundTrip` | linux-5.15.178/kernel/sysctl.c:599-670 | parsing a printed vector gives back every element and leaves nothing |
| `SysctlIntVec.StoredAreAdmitted` | linux-5.15.178/kernel/sysctl.c:965-990 | whatever the text, what is stored is in range |
| `SysctlIntVec.Table.Read` | linux-5.15.178/kernel/sysctl.c:599-670 | numbers, tabs and a newline as far as they fit |
| `SysctlIntVec.Table.Store` | linux-5.15.178/kernel/sysctl.c:631-663 | the loop stores what the text parses to and touches no other element |
| `SysctlIntVec.Table.Write` | linux-5.15.178/kernel/sysctl.c:599-670 | the same for a call, with its count, its position, its page limit and the strict mode |
| `SysctlIntVec.Table.WriteMany` | linux-5.15.178/kernel/sysctl.c:965-1016 | after any writes, failed ones included, each element is as it was or in range |
| `SysctlIntVec.Copy` | linux-5.15.178/kernel/sysctl.c:599-670 | reading a vector and writing the text back to it, or to another, makes that what the first was |
| `SysctlString.WholeAppend` | linux-5.15.178/kernel/sysctl.c:271-293 | a text once cut short stays so, and one not cut short goes on |
| `SysctlString.Table.Fill` | linux-5.15.178/kernel/sysctl.c:285-293 | the loop copies up to the first newline or NUL, as far as it fits |
| `SysctlString.Table.Write` | linux-5.15.178/kernel/sysctl.c:264-293 | a write goes on at its position, or changes nothing past the end |
| `SysctlString.Table.Read` | linux-5.15.178/kernel/sysctl.c:294-317 | a read gives the string from its position and one newline at the end |
| `SysctlString.Table.WriteAll` | linux-5.15.178/kernel/sysctl.c:259-319 | any split of a text into writes leaves what one whole write would |
| `SysctlString.Table.ReadAll` | linux-5.15.178/kernel/sysctl.c:294-317 | reads of any positive sizes give the string and one newline, as far as the sizes go |
| `KvStore.HashInTable` | linux-5.15.178/include/linux/kv_store.h:14-16 | exactly which keys have a bucket |
| `KvStore.ReplyIsAmbiguous` | linux-5.15.178/kernel/kv_store.c:66-87 | exactly which contents read_kv cannot tell apart |
| `KvStore.Store.Search` | linux-5.15.178/kernel/kv_store.c:40-46 | the first node with the key, or the end of the list |
| `KvStore.Store.ReadKv` | linux-5.15.178/kernel/kv_store.c:66-87 | the value that the map has for the key, or -ENOENT, for every key that has a bucket |
| `KvStore.Store.WriteKv` | linux-5.15.178/kernel/kv_store.c:23-64 | changes the map at that key only, and keeps a new allocation exactly if the key is new |
| `KvStore.Store.Exit` | linux-5.15.178/kernel/kv_store.c:112-130 | frees every node |
| `KvRuns.OthersElsewhere` | linux-5.15.178/kernel/kv_store.c:38-51 | while a thread holds a bucket's lock no other thread is in that bucket |
| `KvRuns.ChangeKeepsCursors` | linux-5.15.178/kernel/kv_store.c:48-60 | changing a bucket under its lock disturbs nobody's search |
| `KvRuns.UpdateKeeps` | linux-5.15.178/kernel/kv_store.c:48-55 | storing in the node that was found |
| `KvRuns.InsertKeeps` | linux-5.15.178/kernel/kv_store.c:55-61 | linking the new node when none was found |
| `KvRuns.SearchKeeps` | linux-5.15.178/kernel/kv_store.c:40-46 | a step of either search; a read takes the value last written |
| `KvRuns.StepKeepsInv` | linux-5.15.178/kernel/kv_store.c:23-87 | every action of every thread keeps the invariant |
| `KvRuns.RunKeepsInv` | linux-5.15.178/kernel/kv_store.c:23-87 | so does every run |
| `KvRuns.BehavesAsMap` | linux-5.15.178/kernel/kv_store.c:7-87 | in every run each key occurs at most once and only in its bucket, each read returns the value last written before it or -ENOENT, and the live allocations are exactly the list nodes and those of unfinished writers |
| `KvRuns.OneEventPerCall` | linux-5.15.178/kernel/kv_store.c:23-87 | every call that returns has taken effect exactly once, between its start and its return: a write with what it was given, a read with the value it returns |
| `KvRuns.CallGoesOn` | linux-5.15.178/kernel/kv_store.c:23-87 | a thread inside a call can take its next action, or the holder of the lock it waits for can |
| `KvRuns.ActionsEnd` | linux-5.15.178/kernel/kv_store.c:23-87 | each action brings the call nearer to its return |
| `KvRuns.ExitAfterRun` | linux-5.15.178/kernel/kv_store.c:112-130 | after the last call of any run kv_store_exit frees every allocation |

## Left out

- Memory ordering, RCU grace periods, wait queues and the implementation of locks: a locked region or an atomic operation is one step.
- ptrace, LSM, audit, fsnotify, delegations, namespaces, user-id mapping and automounts: they call code that is not here.
- Rename: an inode has one dentry here, so hard links (which make vfs_rename lock one inode through two names) are not modelled; lock_rename_child is not modelled.
- RenameProgress: threads that hold these locks for other reasons than a rename are not modelled.
- PathWalk.Nameidata.PickLink: may_follow_link and a failed allocation of the larger link stack are not modelled.
- PathWalk.Nameidata.FollowDotDot: there is one mount, so neither mount crossing nor the check that the path is still connected.
- PathWalk.FilenameLookup: the attempt in RCU mode that comes first, and the retry after ESTALE, are not modelled; they end in the walk that is.
- PathWalk: one mount, reference-walk mode, LAST_BIND, sticky-directory checks on links and failed allocation of the larger link stack are not modelled; the errors ENOENT, ENOTDIR, ELOOP, EACCES and EXDEV are.
- PathSpec: the tree is static, so the retry of a scoped ".." after a concurrent rename (EAGAIN) does not occur.
- NameHash: the length is not packed with the hash into 64 bits; the 32-bit mixing function, hashlen_string and the byte-at-a-time hash value are not modelled. dcache.h and word-at-a-time.h are not part of the repository's files, so the helpers follow their usual little-endian definitions.
- InodeCache: wait and retry loops are steps that are not enabled yet; the variants that take a test function instead of a number, write-back of dirty pages and the superblock list order are not modelled.
- DeThread: other threads' signals are abstracted to "killed" and "woken"; the part of exec after de_thread is not modelled.
- Reap: leadership changes by exec (see DeThread), waiting without reaping, and the death of a namespace's init are not modelled. The counters are represented by the set of threads whose values they contain, not by their sums.
- ExecArgs: page frames and user memory are byte sequences, faults and missing pages are failures a step may choose; the no-MMU variant is not modelled.
- Digits: _parse_integer follows its usual definition; lib/kstrtox.c is not part of the repository's files.
- SysctlBitmap.WriteLongText: texts that no list spells (signs, a NUL as separator) are parsed by ParseAll but not covered by the theorems about lists.
- SysctlIntVec: the unsigned, bool and jiffies conversions differ only in the conversion and are left out.
- SysctlString: only the strict write mode is modelled; the other mode starts every write at 0.
- KvRuns: keys without a bucket (see KvStore.HashInTable), a leader that exits before its threads and exec by another thread than the leader are outside the model, since the code does not handle them as a map would.
- net/socket.c, fs/xattr.c, fs/ramfs, the UEFI, CUDA, Lua and tcpdump exercises: wrappers over other systems, or easier than what is here.
