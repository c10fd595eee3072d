# A verified model of emuroot's engine

emuroot runs programs inside a directory as if it were the root file system and they were root. It
stops them at system calls with ptrace, rewrites the arguments on entry and patches the results on
exit. This project models the algorithms of that engine in Dafny and proves what they promise.

| Module | Models |
|---|---|
| `PathText`, `Bindings`, `Namespace` | path text and its components; the list of bindings; the maps between guest and host paths |
| `Walk`, `Resolution`, `PathLaws` | the in-place symlink walk, proved against a recursive resolver; containment and idempotence of its results; what dots, links and slashes mean |
| `Syscalls`, `Tracer`, `TraceeTable` | the entry and exit handlers; whole runs under full tracing and on the seccomp fast path; the process table and the event loop's body |
| `Emulation`, `IdentityRuns` | what a process experiences of each faked call, and of its credentials from one call to a later one |
| `Seccomp` | the filter generator, with an interpreter for the programs it makes |
| `OwnerTable`, `OwnerFile`, `FileOwner`, `OwnerRuns` | the open-addressing ownership table, its text file, the owner that the guest sees, and that owner over whole runs of the engine |
| `GuestMemory`, `Rewrite`, `Redirection` | access to guest memory word by word and in chunks; scratch blocks and path arguments; these with the walk put together |
| `ExecExpand`, `ShebangLine`, `ArgvBlock` | expansion of scripts and loaders, the `#!` line, the argv block |
| `Creds` | the nine credential calls |
| `Words` | integer widths, `Option`, shared constants |

Operations that the C code performs by changing state are classes and methods with loops. Each is
proved against a function of its inputs or of the old state, and the main results are lemmas about
those functions: over every input, every run of calls, or every sequence of stops.

Check everything with `dafny verify dfyconfig.toml`.

## What the model takes as given

- The host file system during one path walk is an arbitrary fixed function from host path to link
  target. Targets are not empty, as the kernel guarantees.
- What the handlers read from guest memory, the file system and the kernel is part of the event: each
  entry carries what its arguments would be found to name, as a function of the process's root and the
  bindings, and each exit the kernel's result and what it left. Both tracing modes are given the same.
- A run is any sequence of entries, exits, forks, first stops, signals and deaths in which entries and
  exits of a process alternate and a child is not inside a syscall when its parent's fork is reported.
- Calls carry the ABI they are made by, and whether another seccomp filter refuses them. The program's own
  README says that 32-bit and 64-bit guests do not mix and that a sandbox's profile wins
  (`README.md:180-183`); the theorem about the two tracing modes leaves such calls out where the engine
  handles them, and says exactly what they change.
- Linux follows five `#!` scripts in a row, four of them named as interpreters.
- Growing the ownership table may fail at any point; whether it does is an input of each event.
- Strings are unbounded except where a bound is the claim (the filter's length, the argument array, the
  argv block, the scratch blocks, the `#!` line, the binding list).

## Where code and documentation differ

- `src/ptrace.c:77` says the filter traces exactly the syscalls emuroot handles, but `src/rewrite.c:295-298`
  handles execveat, which is not in the list (`ExecveatIsMissed`). Nor does the filter stop calls of another
  ABI, which full tracing reads as its own, or calls a sandbox's filter refuses, which full tracing may
  emulate (`UnseenCallsDivergeIff`, `ForeignSetUidDiffers`, `RefusedMountDiffers`). For all other calls of the
  model the modes agree (`TracedIsHandled`, `FastPathRefinesFullTracing`).
- Two chowns of one file that overlap lose an update (`OverlapLosesAnUpdate`). `OneOwnerIff` says of every
  run whether stat shows the right owners, by a condition on each event.
- `src/exec.c:207` ends the loop after five scripts with the host path of the last script, not of its
  interpreter. The kernel follows five, so such a call may run natively and fail here
  (`FiveScriptsInRootFail`), or run something else (`FiveScriptsLeaveAStaleHost`, `SelfScriptRunsOnHost`).
  `ExecKeepsMeaning` has the exact condition for every call.
- `src/identity.c:13-14` says credential changes never happen for real. setgroups does, where the engine runs as
  root: its registers are handed on as made (`TrueIdsStay`, `TrueGroupsChangeIff`).
- `src/rewrite.c:156-157` says two paths in one syscall do not clobber each other. The rewritten ones never
  do, but a string that the guest keeps below its stack pointer can be overwritten before it is read
  (`SecondPathOverwritten`). `RewriteTwoPaths` has the exact condition.

## Model

| member | source | states |
|---|---|---|
| `Walk.SpliceIsResolve` | src/path.c:82-124 | Putting a link's target in front of the text still to walk gives, for every tree, path, flag and hop budget, the outcome of resolving each link's target as a path of its own: same directory, same trailing slash, same hops left, and it stops in the same cases |
| `Walk.BothWalks` | src/path.c:82-124 | The induction behind it: both walks come out in one outcome |
| `Walk.SpliceAppend` | src/path.c:116-123 | Walking a text and then another is one walk over both, as long as nothing in the first counts as the last component |
| `Walk.LastComponent` | src/path.c:92 | The two-part test for the last component holds exactly if no component and no trailing slash follows; its second half never adds a case |
| `Walk.NextComponent` | src/path.c:83-93 | Reading a component: finds none exactly when none is left, and otherwise yields the first, what is left, and whether it is the last |
| `Walk.EnterTarget` | src/path.c:116-123 | After a link, the text ahead splits into the target's components and then the remaining ones, the trailing slash is that of the joined text, and the directory is the link's own or the top |
| `Walk.WalkName` | src/path.c:100-123 | The round for a name makes the list walk's move: last link kept, /proc stop, plain entry, hop limit, or a link entered |
| `Walk.WalkDot` | src/path.c:95-99 | The round for "." and "..": stay, or go to the parent, which at the top is the top |
| `Walk.WalkOne` | src/path.c:82-124 | Each round of the loop is one move of the list walk and makes progress in (hops left, text left) |
| `Walk.WalkAll` | src/path.c:82-124 | The loop makes the list walk's moves one after the other and no others, so whatever each of them keeps holds at its end |
| `Walk.WalkPath` | src/path.c:74-124 | The in-place walk terminates for every path, root, binding list and link function; it completes exactly if the recursive resolver does, and then in the resolver's directory with the resolver's trailing slash |
| `Walk.TranslatePath` | src/path.c:65-137 | A translated path: unchanged where nothing is emulated; for a complete walk the guest path is the resolver's and the host path its image under the bindings; the return value says whether the text changed |
| `PathLaws.DotStays` | src/path.c:95 | "." changes nothing |
| `PathLaws.DotDotUndoesName` | src/path.c:96-99 | ".." takes back the step into a directory that is no link, and does nothing at the top |
| `PathLaws.LinkIsItsTarget` | src/path.c:111-123 | A link that is followed stands for its target and what is left: from the top if the target is absolute, else from the directory of the link, with one hop less; with none left the walk stops |
| `PathLaws.LinkTextIsPutIn` | src/path.c:116-123 | On texts: an absolute target replaces the path up to and with the link, a relative one the link's name |
| `PathLaws.LastLinkIsLeft` | src/path.c:104 | A last link that is not to be followed stays |
| `PathLaws.ProcIsByHostPath` | src/path.c:108 | A name whose host path is below /proc stops the walk, unless it is last and not followed |
| `PathLaws.LinksAreLimited` | src/path.c:113 | A chain of links is followed to its end exactly if it is no longer than the hops allow |
| `PathLaws.FortyLinks` | src/path.c:12 | Forty links are followed, the forty-first is not |
| `PathLaws.SlashIsKept` | src/path.c:78-121 | A slash at the end of a path stays; without following the last link none comes up |
| `PathLaws.SlashIsHandedOut` | src/path.c:133-134 | A path that ends in a slash is translated to one that does |
| `Resolution.StepKeepsSound` | src/path.c:95-123 | Every move keeps names only behind it and components ahead, and with all links followed leaves no link behind it |
| `Resolution.ResolvedIsSound` | src/path.c:82-128 | However many dots, dot-dots and links were on the way, a complete resolution has names only, and with all links followed no prefix of it is a link or in /proc |
| `Resolution.JoinTail` | src/path.c:14-17 | What of a joined list of names starts at a component boundary is the last of the names, joined |
| `Resolution.AlignedTailIsNames` | src/path.c:38-55 | Cut at any component boundary, a clean root followed by a clean guest path leaves the text of names alone, with at most a slash at its end: no empty component, "." or ".." |
| `Resolution.CleanPathIsContained` | src/path.c:28-60 | Every clean guest path lands at the root or a binding's host directory followed by the text of names alone, for a clean root and for the root "/" |
| `Resolution.CompleteWalkIsContained` | src/path.c:65-137 | So does every complete walk, for any input and any links; its guest path has names only |
| `Resolution.SettledResolvesToItself` | src/path.c:82-124 | A path with no link on the way down is walked without a hop to itself |
| `Resolution.ResolutionIsIdempotent` | src/path.c:82-128 | Resolving a resolved guest path again takes no hop and gives the same directory, hence the same host path up to the trailing slash |
| `Namespace.MapPathToHost` | src/path.c:28-60 | The method computes the map in which the longest matching guest path wins, and failing that the longest mount point above root + path |
| `Namespace.ScanNamed` | src/path.c:30-36 | The backwards scan with a running best finds the binding of the longest guest path that names the path, the latest added on ties |
| `Namespace.ScanMounted` | src/path.c:45-51 | And the second scan the binding of the longest mount point above the host path |
| `Namespace.MapHostToGuest` | src/path.c:147-166 | The scan of the inverse map picks the longest host directory above the path, else strips the root, else declines |
| `Namespace.NewestBindingIsUsed` | src/path.c:25-36 | On ties the latest added wins: the binding used is on top of its target's stack |
| `Namespace.HostPathIsContained` | src/path.c:37-59 | The image of a guest path is root + path, or a binding's host directory followed by a component-aligned tail of it that starts below the root or a mount point |
| `Namespace.MountsSilentAtRoot` | src/path.c:42-52 | With mounts where the engine sets them, the mount-point search never finds anything for a process that is not chrooted |
| `Namespace.SameBinding` | src/path.c:31-51 | The search by mount point below the root picks the same binding as the search by guest path |
| `Namespace.ChrootCoherence` | src/path.c:28-60 | A process chrooted to an unbound directory sees at a path no binding names what its parent sees at directory + path |
| `Namespace.NamedPathsIgnoreTheRoot` | src/path.c:37-40 | A path that a binding names leads to the same place in and out of a chroot |
| `Namespace.NamedGoesThrough` | src/path.c:37-40 | What a binding names lies in its host directory, without a second slash where that is "/" |
| `Namespace.LongestSourceWins` | src/path.c:149-158 | Of the bindings that contain a host path the one with the longest host directory is asked, before the root |
| `Namespace.SourceIsUnique` | src/path.c:149-158 | Below a binding's host directory the inverse search finds that binding and no other, when sources are apart |
| `Namespace.NoSourceUnderRoot` | src/path.c:149-163 | Below the root it finds none |
| `Namespace.RoundTripIff` | src/path.c:147-166 | With sources apart from each other, and the root anywhere: mapping a guest path to the host and back gives that path if and only if a binding names it or no source lies above it in the root |
| `Namespace.RoundTrip` | src/path.c:28-60 | With sources apart from the root too, every guest path comes back, nested mount points included |
| `Bindings.Context.constructor` | src/emuroot.c:14 | A new context has no bindings and no root |
| `Bindings.Context.Bind` | src/emuroot.c:38-47 | A bind appends exactly one entry, or fails with the right status and changes nothing; the mount point of the array cell is left as it was |
| `Bindings.Context.Mount` | src/mounts.c:74-81 | A runtime mount appends a binding attached where its target is on the host, if there is room |
| `Bindings.Context.ShiftDown` | src/emuroot.c:53 | The move of the entries above cuts exactly one entry out |
| `Bindings.Context.Unbind` | src/emuroot.c:49-58 | The backwards scan removes the newest binding of the target, and reports whether there was one |
| `Bindings.PopStack` | src/emuroot.c:49-58 | An unbind pops its own target's stack and leaves every other target's alone |
| `Bindings.TargetsAreStacks` | src/emuroot.c:38-58 | After any run of binds and unbinds within capacity, each target's bindings are what a stack of its own would hold |
| `Bindings.RemoveCommutes` | src/emuroot.c:49-58 | Unbinding two targets commutes |
| `Bindings.UndoneMountLeavesNothing` | src/mounts.c:57-96 | A mount that is later unmounted leaves the very list that never mounting would, whatever other targets did in between |
| `PathText.PrefixesComparable` | src/path.c:14-17 | Two component-wise prefixes of one path are one a prefix of the other |
| `PathText.PrefixUnder` | src/path.c:14-17 | Putting the same root in front of path and prefix changes no comparison |
| `PathText.SplitAppend` | src/path.c:83-93 | Text added at a component boundary adds its components |
| `PathText.SplitRender` | src/path.c:100-102 | The text of a directory reads back as its components |
| `PathText.RenderAppend` | src/path.c:100-102 | Appending a name to the text appends it to the directory |
| `PathText.PopRender` | src/path.c:19-23 | Cutting the text at its last slash takes the last component off, and leaves "/" at the top |
| `Tracer.BuildTracedSyscalls` | src/ptrace.c:77-98 | The list the filter is built from: the path table, the action table, and the four calls of their own |
| `Tracer.TracedIsHandled` | src/ptrace.c:77-98 | The generated filter, run on a call of any ABI, says TRACE exactly for the own-ABI calls the handlers do something for (execveat is not one of them) |
| `Tracer.EnterKeepsSimilar` | src/ptrace.c:122-141 | A syscall entry keeps the two tracers' states matching, whether the filter stops it or not |
| `Tracer.LeaveKeepsSimilar` | src/ptrace.c:122-138 | So does a syscall exit: waited for, or of a call that full tracing will do nothing about |
| `Tracer.ForkKeepsSimilar` | src/ptrace.c:142-148 | So does a fork |
| `Tracer.OtherKeepsSimilar` | src/ptrace.c:142-154 | So do a fork, an initial stop, another signal, a death, and the first sight of a process |
| `Tracer.StepKeepsSimilar` | src/ptrace.c:116-156 | Every event keeps them matching and the process sees the same, but for the registers of an execveat |
| `Tracer.FastPathRefinesFullTracing` | src/ptrace.c:116-156 | Over every possible run in which a call of another ABI, or one that a sandbox's filter refuses, is none the engine handles: credentials, root and program of each process, the ownership table and the bindings are the same in both modes, and so are the registers calls run with, the results, and the ids, groups and owners written to memory, but for an execveat's registers |
| `Tracer.FastPathRefinesFromStart` | src/ptrace.c:237-274 | The same from the state the event loop starts in |
| `Tracer.ExecveatIsMissed` | src/rewrite.c:295-298 | The exception, exactly: on the fast path an execveat runs with its own registers, under full tracing with redirected ones |
| `Tracer.UnseenOnFastPath` | src/seccomp.c:39-41 | A call of another ABI, or one a sandbox's filter refuses, runs on the fast path as if there were no engine |
| `Tracer.CallInFull` | src/ptrace.c:122-134 | Under full tracing every call is entered and left as one of the own ABI: the state after it, its registers, result and memory patch |
| `Tracer.UnseenCallsDivergeIff` | src/ptrace.c:122-134 | After such a call the two modes are in step again exactly if full tracing changed no credentials, root or program of the process, no owner and no binding |
| `Tracer.UnseenEntriesDivergeIff` | src/ptrace.c:122-134 | In the middle of it they are in step exactly if the call is not one faked at its exit and no creation is noted |
| `Tracer.ForeignSetUidDiffers` | src/seccomp.c:39-41 | Such a run: a foreign call with the number of setuid drops root under full tracing only |
| `Tracer.RefusedMountDiffers` | src/mounts.c:57-87 | Another: a mount that a sandbox refuses adds its binding and returns 0 under full tracing only |
| `Tracer.StopApart` | src/ptrace.c:116-156 | A stop of one process neither reads nor changes another, unless it creates it |
| `Tracer.ApartFromChild` | src/ptrace.c:243-274 | Nor does a run of stops of other processes |
| `Tracer.ForkOrderDoesNotMatter` | src/ptrace.c:142-150 | Whether the child's first stop or its parent's fork is seen first, with any stops of other processes in between, the table is the same and the child has its parent's credentials, root and program |
| `Syscalls.UnhandledLeavesNoTrace` | src/rewrite.c:242-299 | The entry of an unhandled call changes nothing lasting, nothing shared and, execveat apart, no register |
| `Syscalls.QuietExit` | src/fake.c:95-111 | Nor does its exit, which passes the kernel's result on and writes nothing to memory |
| `Syscalls.EntryForgets` | src/rewrite.c:245-253 | What an entry does depends only on the lasting part of the process's state: everything an earlier call left is reset |
| `Syscalls.ExitIgnoresFlags` | src/fake.c:95-218 | What an exit does, answers and writes does not depend on where the tracer takes the process to be |
| `Syscalls.ExitByAction` | src/fake.c:104-111 | An exit clears the noted creation and then goes by the call's action; a call without one changes nothing else |
| `Emulation.MadeInFull` | src/ptrace.c:122-134 | A whole call, entry to exit, as full tracing makes it: state, registers, result and memory |
| `Emulation.SetCallTakesEffect` | src/fake.c:178-195 | Each of the nine set*id calls, its arguments read in the order of the manual page, changes the fake credentials as it says, answers so, and changes nothing else |
| `Emulation.UnreadableGroups` | src/fake.c:186-195 | A setgroups whose list cannot be read changes nothing and answers EFAULT; one with a count out of range is refused unread |
| `Emulation.TrueIdsStay` | src/identity.c:15-30 | Given the registers the engine hands on, the kernel's own version of the call leaves the true ids as they are; only setgroups is handed on as made |
| `Emulation.TrueGroupsChangeIff` | src/identity.c:27 | So the true groups change exactly if the engine itself runs as root |
| `Emulation.HandedOn` | src/rewrite.c:253-256 | A call without paths runs with its harmless registers |
| `Emulation.PathIsRedirected` | src/rewrite.c:260-298 | A call with a path that is not emulated runs with its path redirected |
| `Emulation.ReadCallTells` | src/fake.c:162-177 | Each call that reads credentials tells real, effective or saved id, or the groups as far as there is room, by result or memory |
| `Emulation.ChrootMovesRoot` | src/mounts.c:46-52 | A chroot by the fake root to an existing directory succeeds and moves the root there; any other is left to the kernel |
| `Emulation.MountBinds` | src/mounts.c:57-87 | A mount by the fake root succeeds and binds its source at its target; any other is left to the kernel |
| `Emulation.UmountUnbinds` | src/mounts.c:89-96 | A umount by the fake root succeeds and takes the newest binding of its target away |
| `Emulation.OthersDoNotMount` | src/mounts.c:99-110 | No other call binds, unbinds or moves a root |
| `Emulation.ExecveSetsProgram` | src/fake.c:125-128 | An execve sets the program shown in /proc if it succeeds, and only then |
| `Emulation.PathsAreShownAsGuest` | src/fake.c:113-145 | getcwd, and readlink of a link in /proc, answer with the guest's view |
| `Emulation.ChownIsRemembered` | src/identity.c:32-57 | A chown that the kernel carries out or refuses to an ordinary user succeeds, and remembers the ids its arguments ask for, the others as shown |
| `Emulation.CreationIsRemembered` | src/identity.c:97-107 | A file made under another identity than the default is remembered with the process's fsuid and fsgid, and nothing else is |
| `Emulation.StatShows` | src/fake.c:24-49 | A stat shows the remembered owner, else the fake ids in place of the real user's |
| `Emulation.CreatedThenStat` | src/fake.c:104-109 | A stat of a file just made under another identity shows that identity |
| `IdentityRuns.StepHolds` | src/ptrace.c:116-156 | No event but its own set*id calls, its death and the fork that made it changes a process's credentials |
| `IdentityRuns.ReadsWhatItSet` | src/fake.c:156-217 | Over every run: a process that sets ids, and later reads them, with anything in between that leaves them alone, reads what the call made of them |
| `IdentityRuns.ResUidReadBack` | src/creds.c:57-64 | After a setresuid that answers 0, getuid, geteuid and getresuid give its three ids |
| `IdentityRuns.ResGidReadBack` | src/creds.c:66-73 | After a setresgid that answers 0, getgid, getegid and getresgid do |
| `IdentityRuns.GroupsReadBack` | src/creds.c:97-104 | After a setgroups that answers 0, getgroups counts and lists exactly those groups |
| `IdentityRuns.StartsAsFakeIdentity` | src/ptrace.c:58-66 | A process without a known parent starts as the fake identity, in the engine's root |
| `IdentityRuns.FastPathReadsTheSame` | src/ptrace.c:135-141 | On the fast path a process sees the same results and memory |
| `TraceeTable.Process.Enter` | src/rewrite.c:242-299 | The entry handler, run step by step with its early returns, gives the tracee, the shared state and the registers the run theorems speak of |
| `TraceeTable.Process.EmulateMounts` | src/mounts.c:46-110 | chroot, mount and umount: which are taken over, the root noted, the binding pushed or popped, the argument overwritten |
| `TraceeTable.Process.RedirectPaths` | src/rewrite.c:260-298 | The rest of the entry: execve, socket addresses, the path table, execveat |
| `TraceeTable.Process.Exit` | src/fake.c:95-218 | The exit handler, step by step, gives the tracee, the shared state, the result and the memory patch the run theorems speak of |
| `TraceeTable.Process.RecordCreated` | src/fake.c:104-109 | A file the call turns out to have made gets the ids it was made under, if it can be found and stored |
| `TraceeTable.Process.FinishCall` | src/fake.c:113-155 | The exits that end early, each with its condition |
| `TraceeTable.Process.PatchIds` | src/fake.c:156-217 | The faked results: credentials read and changed, a chown committed |
| `TraceeTable.Process.PatchMemory` | src/fake.c:166-177 | The faked buffers: the three ids, the groups if there is room for them, and the owner shown for the file in a stat buffer |
| `TraceeTable.Table.Find` | src/ptrace.c:33-38 | The scan finds a process exactly if it is in the table, and the right one |
| `TraceeTable.Table.Add` | src/ptrace.c:48-68 | A new process starts as a copy of its parent, or with the fake identity and the engine's root |
| `TraceeTable.Table.FindOrAdd` | src/ptrace.c:253-255 | A process not seen before is added first, and one seen before is left alone |
| `TraceeTable.SwapRemoved` | src/ptrace.c:72-73 | Putting the last entry in the place of another leaves all the others, each once |
| `TraceeTable.Table.TakeOut` | src/ptrace.c:70-75 | Swap-removal takes out that process alone and keeps pids distinct |
| `TraceeTable.Table.Remove` | src/ptrace.c:70-75 | So the table keeps one entry for each other process |
| `TraceeTable.Table.ForkSeen` | src/ptrace.c:142-148 | A fork makes a child that was seen already a copy of its parent, and adds one that was not |
| `TraceeTable.Table.SyscallBoundary` | src/ptrace.c:122-138 | A syscall stop is read as entry or exit by the process's own flag, in each mode |
| `TraceeTable.Table.HandleOne` | src/ptrace.c:116-156 | One stop moves the table as the run theorems' state does |
| `TraceeTable.Table.Stopped` | src/ptrace.c:253-273 | The event loop's body: look up or add, handle, and resume up to the next syscall boundary exactly in full tracing or while an exit is awaited |
| `TraceeTable.Table.Exited` | src/ptrace.c:257-266 | A process that is gone leaves the table, and nothing else does |
| `Seccomp.BuildFilter` | src/seccomp.c:33-53 | The array filled step by step is the filter program, or none for 0 or more than 250 calls |
| `Seccomp.ScanFrom` | src/seccomp.c:43-47 | From the i-th comparison on, the program decides membership in the rest of the list; each jump lands on the TRACE return |
| `Seccomp.FilterIsExact` | src/seccomp.c:33-53 | Interpreted on any architecture and number, the program stays inside, halts, and answers TRACE exactly for a listed call of the own architecture, else ALLOW; it holds for up to 255 calls |
| `Seccomp.OffsetWrapsAt256` | src/seccomp.c:44-45 | At 256 calls the first jump offset wraps around and its call is no longer traced, so the bound is needed |
| `OwnerTable.MaskIsMod` | src/ownership.c:31-32 | For a power of two, masking is taking the remainder, so the probe goes round the whole table |
| `OwnerTable.FindSlot` | src/ownership.c:29-36 | The masked probe ends, at the key's slot or at a free one with a full chain before it, for every hash function |
| `OwnerTable.StopDecides` | src/ownership.c:38-47 | The slot the probe stops at is used exactly if the key has an owner, and holds it |
| `OwnerTable.StoreAtStop` | src/ownership.c:60-65 | Storing there keeps keys unique and chains unbroken, and updates the map at that key alone |
| `OwnerTable.FreeSlotExists` | src/ownership.c:52 | As long as entries are fewer than slots there is a free one, so the probe ends |
| `OwnerTable.Rehash` | src/ownership.c:56-57 | Storing every used slot in the larger array gives a table of the same map |
| `OwnerTable.EntriesAreContents` | src/ownership.c:80-94 | The used slots list the map, nothing more or less |
| `OwnerTable.RowsStoreEntries` | src/ownership.c:80-94 | Storing the saved rows again rebuilds the map |
| `OwnerTable.OwnerDb.constructor` | src/ownership.c:18-21 | A new table is empty |
| `OwnerTable.OwnerDb.Lookup` | src/ownership.c:38-47 | Lookup is the finite map's |
| `OwnerTable.OwnerDb.Grow` | src/ownership.c:52-59 | Growth doubles the slots and keeps the map, or without memory changes nothing |
| `OwnerTable.OwnerDb.Set` | src/ownership.c:49-66 | Set is the finite map's update; the one entry ever lost is this one, when it needed room and there was no memory |
| `OwnerTable.OwnerDb.Save` | src/ownership.c:80-94 | Save writes rows that rebuild the map |
| `OwnerTable.OwnerDb.Load` | src/ownership.c:69-78 | Load is one Set for each row; the rows dropped are those that needed memory and got none |
| `OwnerTable.LastStoreWins` | src/ownership.c:49-66 | After any sequence of sets a key has the owner of its last one |
| `OwnerTable.OnlyStoredKeys` | src/ownership.c:49-66 | And no other key is touched |
| `OwnerTable.LastKeptSetWins` | src/ownership.c:52-56 | A failed growth drops only that set: after any sequence of sets, some failed, a key has the owner of its last one that did not |
| `OwnerTable.DroppedSetsChangeNothing` | src/ownership.c:52-56 | And a key whose sets all failed is as before |
| `OwnerFile.ScanDecimal` | src/ownership.c:74 | A printed number, with the separator before it, is scanned back |
| `OwnerFile.RowLooksLike` | src/ownership.c:89-92 | A line is device, inode, user, group |
| `OwnerFile.ScanPrintedRow` | src/ownership.c:69-94 | A printed row is scanned back, whatever follows |
| `OwnerFile.ScanPrinted` | src/ownership.c:69-94 | The reading loop takes a printed file apart into exactly its rows |
| `OwnerFile.OwnersSurviveRestart` | src/ownership.c:69-94 | Saving a table and loading the text in a later run gives every file the same owner |
| `FileOwner.DeviceDigits` | src/fake.c:37-38 | Each digit of the halves comes to its place |
| `FileOwner.DeviceNumbersRecombine` | src/fake.c:33-38 | The halves of a device number recombine to it, so statx uses stat's key, and no two pairs of halves give the same number |
| `FileOwner.ChownState.NoteChown` | src/identity.c:32-57 | The entry of a chown notes the file, its visible owner and what was asked |
| `FileOwner.ChownState.Commit` | src/fake.c:196-203 | Its exit stores the owner exactly for a result of 0, EPERM or EINVAL and only if the table has room or gets memory, and hides the two refusals |
| `FileOwner.FakeOwner` | src/fake.c:24-49 | stat shows the stored owner, else the fake identity for what the real user owns, else the disk's |
| `FileOwner.FakeOwnerStatx` | src/fake.c:24-49 | So does statx, for the same file |
| `FileOwner.CommitIsAtomicIff` | src/fake.c:196-203 | A chown's exit shows exactly the change asked for if and only if, recorded, the fields it leaves alone are as at its entry, or, not recorded, what it asks for is shown anyway |
| `FileOwner.EventKeepsOwnersIff` | src/fake.c:104-109 | Any event keeps what stat shows equal to a plain per-file owner exactly under that condition, and a creation exactly if it is recorded or its owner is shown without |
| `FileOwner.OneOwnerIff` | src/fake.c:24-49 | Over every run, whatever overlaps, fails for lack of memory or could not be looked at: stat shows the plain per-file owner at every moment if and only if each event meets its condition |
| `FileOwner.OrderlyIsTruthful` | src/fake.c:196-203 | Runs in which owners are recorded and no chown that leaves a field alone is overtaken meet it |
| `FileOwner.OneOwnerPerFile` | src/fake.c:24-49 | So over each of these runs stat shows for every file the plain per-file owner, with -1 leaving a field alone |
| `FileOwner.OneOwnerFromStart` | src/fake.c:24-49 | The same from any disk and any loaded table |
| `FileOwner.OverlapLosesAnUpdate` | src/identity.c:52-56 | Two overlapping chowns of one file, one setting the user and one the group: the later exit undoes the earlier |
| `OwnerRuns.EnterKeepsTied` | src/identity.c:32-57 | The entry of a call, chown or not, leaves the engine and the per-file model with the same table and the same note of the chown |
| `OwnerRuns.EnterNotes` | src/identity.c:97-107 | An entry notes the file its call is about to make exactly for a process under another identity than the default |
| `OwnerRuns.LeaveKeepsTied` | src/fake.c:104-109 | So does its exit: files made, known from the calls alone, first, and a chown committed after |
| `OwnerRuns.RunKeepsTied` | src/ptrace.c:243-274 | Over every run of the event loop, forks, deaths and interleaved calls included, the engine's ownership table is the per-file model's |
| `OwnerRuns.StatsShowPlainOwners` | src/fake.c:24-49 | Over a run that meets the condition, every stat is shown the plain owner its file has at that moment |
| `OwnerRuns.ShownOwnersOverRuns` | src/ptrace.c:237-274 | From the start, in either tracing mode: stat would show the plain owners, of files created and chowned as the calls of the run say, at every moment exactly if each creation and chown of the run meets its condition, and then they are what each stat call of the run finds in its buffer |
| `GuestMemory.Guest.WriteWord` | src/guest.c:74-82 | Reading a word, replacing some bytes and writing it back writes those bytes and no other |
| `GuestMemory.Guest.ReadWord` | src/guest.c:74-85 | The read of one word moves exactly the bytes wanted |
| `GuestMemory.Guest.PeekPokeCopy` | src/guest.c:69-89 | Word-at-a-time access that returns d moved exactly the bytes [addr, addr+d), changed no other, and stopped early only at an inaccessible word |
| `GuestMemory.Guest.Transfer` | src/guest.c:91-107 | By the first method this call is not denied, the bytes moved are those; a denied method is never tried again |
| `GuestMemory.FirstPermittedIs` | src/guest.c:104-105 | The method used is not denied, or is the last; all before it are denied |
| `GuestMemory.MoveOn` | src/guest.c:73-87 | Two moves one behind the other are one move |
| `GuestMemory.CellWritten` | src/guest.c:81 | Replacing bytes within a word and writing the word is writing the bytes |
| `GuestMemory.ChunkAgrees` | src/guest.c:123-133 | A chunk read behind what is there adds to it exactly what memory offers |
| `GuestMemory.Guest.ReadChunk` | src/guest.c:124-130 | The same for the call that may change the method on the way |
| `GuestMemory.Guest.ReadString` | src/guest.c:119-137 | Reading in 128-byte chunks yields the string up to its NUL, the end of the buffer less one, or the end of accessible memory, and fails exactly if not one byte is readable |
| `GuestMemory.SameTextIff` | src/guest.c:130-132 | Two texts are one C string exactly if they agree up to the NUL of one |
| `Rewrite.Stop.Scratch` | src/rewrite.c:30-36 | A block is 16-aligned, ends at or below the previous one, lies right below it, and is refused only without room |
| `Rewrite.Stop.Repoint` | src/rewrite.c:190-196 | The argument names the whole copy of the translated path, or nothing if it could not be written whole; memory changes by that copy alone |
| `Rewrite.Stop.RewritePathArg` | src/rewrite.c:158-197 | An argument left alone is one that needed no rewriting; otherwise it is null or decodes to its own translated host path, and memory changes by that path's copy alone |
| `Rewrite.ReadsTheSameIff` | src/rewrite.c:165 | After bytes are written anywhere, a string reads as before if and only if no character of it, nor its NUL, was replaced by another |
| `Rewrite.Stop.RewriteTwoPaths` | src/rewrite.c:282-290 | In a call with two paths the rewritten ones decode at its end to their own translations, in aligned blocks one below the other, the first at or below the scratch top; the second string is read as the guest wrote it if and only if the first copy, whose place and bytes are known before, spares it, and a first path left alone stays so if and only if the second copy spares it |
| `Rewrite.SecondPathOverwritten` | src/rewrite.c:156-157 | A call that fails: rename("/a", "/b") in the root /r, with "/b" where the first copy goes, becomes rename("/r/a", "/r/r/a") |
| `Rewrite.OverlapReadsTheFirst` | src/rewrite.c:165 | A second string that starts in the first block reads as the end of the first host path |
| `Redirection.TranslationIsContained` | src/path.c:126-136 | The host path the walk hands out, its slash put back, lies under the root or a binding whenever the walk is complete |
| `Redirection.RedirectTwoPaths` | src/rewrite.c:282-290 | After the entry of a call with two paths, each register that was rewritten names a host path that lies under the root or a binding, if the walk over the path read for it is complete |
| `ExecExpand.ReplaceHead` | src/exec.c:41-50 | The shift in place puts the new strings before all but the first entries, in order |
| `ExecExpand.CollectArgs` | src/exec.c:199-205 | The pointers up to the null pointer or the limit, in order |
| `ExecExpand.ExpandExec` | src/exec.c:208-253 | The loop computes the expansion and never needs more than its 8192 + 16 slots |
| `ExecExpand.ScriptArguments` | src/exec.c:218-223 | Natively a script runs its interpreter with the line's argument, if any, its own path, and the arguments after the first |
| `ExecExpand.LeftAlone` | src/exec.c:249-250 | A call is left as it was made only if the plan for it is the call itself |
| `ExecExpand.ExpansionKeepsMeaning` | src/exec.c:206-253 | For every chain of at most four scripts: it fails exactly if the native expansion does, a missing loader included; otherwise the same program runs on the same loader with the same arguments after the first, and the first is the same exactly when the loader knows --argv0 or it equals the path |
| `ExecExpand.ExecKeepsMeaning` | src/exec.c:186-253 | For every call: the same program runs with its native argv on the loader the guest means, or both fail, if and only if there are at most four scripts and the call fails natively or keeps its first argument, or there are more and they lead to a program neither in the guest nor, the fifth's interpreter looked up there, on the host |
| `ExecExpand.LoaderSeesArgs` | src/exec.c:234-247 | A loader given the expanded list, if there is one, runs the program with its own arguments stripped |
| `ExecExpand.LoopGivesUp` | src/exec.c:207-223 | With more than four scripts the loop ends with the host path of the fifth, but with the arguments the program would natively get |
| `ExecExpand.FiveScriptsLeaveAStaleHost` | src/exec.c:207-223 | Such a call hands the fifth script to the kernel once more: something runs exactly if its interpreter leads to a program on the host itself, and it is never what runs natively |
| `ExecExpand.FiveScriptsInRootFail` | src/exec.c:207-223 | For instance: five scripts and a program that only the root has run natively and fail here |
| `ExecExpand.SelfScriptRunsOnHost` | src/exec.c:207-223 | Or: a script that names itself as interpreter, where the host has a program of that name, fails natively and runs the host's program here |
| `ShebangLine.ParseShebang` | src/exec.c:52-70 | The line cut in place gives the interpreter and argument of the pure reading |
| `ShebangLine.NoShebangIff` | src/exec.c:55-62 | A file is no script exactly if it does not start with "#!" or nothing but blanks follow |
| `ShebangLine.LongLineIsCut` | src/exec.c:58-60 | Of a line too long for the buffer the first 255 characters count |
| `ShebangLine.ShebangReadsBack` | src/exec.c:52-70 | Whatever blanks surround them, the interpreter and its whole argument are read back, and what follows the line does not matter |
| `ShebangLine.ShebangReadsBackAlone` | src/exec.c:52-70 | So is an interpreter without an argument |
| `ArgvBlock.LoadStored` | src/exec.c:275-277 | A number stored in little-endian bytes loads back |
| `ArgvBlock.LayStrings` | src/exec.c:264-273 | Path and strings are laid one after the other, each whole with its NUL |
| `ArgvBlock.FillBlock` | src/exec.c:255-278 | Strings and a 16-aligned pointer array fit the computed total |
| `ArgvBlock.BlockDecodes` | src/exec.c:264-281 | Memory that holds the block decodes to the host path and to exactly the intended list, null-terminated |
| `ArgvBlock.WriteBlock` | src/exec.c:261-281 | What is written at the base decodes to the path and the list, and nothing outside changes |
| `ArgvBlock.PlaceBlock` | src/exec.c:255-294 | The two registers point to the path and to a 16-aligned array that decodes to the list, within the block; or the path is null and the call cannot run unredirected |
| `ArgvBlock.ArgumentsReadBack` | src/exec.c:274-277 | So the kernel finds the texts of exactly the intended arguments, provided the guest's own strings lie outside the block |
| `Creds.Credentials.constructor` | src/creds.c:12-20 | Initial credentials |
| `Creds.Credentials.ApplyUid` | src/creds.c:25-31 | The uids asked for, fsuid following the effective one |
| `Creds.Credentials.ApplyGid` | src/creds.c:33-39 | The same for gids |
| `Creds.Credentials.DoSetUid` | src/creds.c:41-47 | State and result of setuid, permitted or refused |
| `Creds.Credentials.DoSetGid` | src/creds.c:49-55 | State and result of setgid |
| `Creds.Credentials.DoSetResUid` | src/creds.c:57-64 | State and result of setresuid |
| `Creds.Credentials.DoSetResGid` | src/creds.c:66-73 | State and result of setresgid |
| `Creds.Credentials.DoSetReUid` | src/creds.c:75-84 | State and result of setreuid, saved id included |
| `Creds.Credentials.DoSetReGid` | src/creds.c:86-95 | State and result of setregid, saved id included |
| `Creds.Credentials.DoSetGroups` | src/creds.c:97-104 | State and result of setgroups |
| `Creds.Credentials.DoSetFsUid` | src/creds.c:107-112 | setfsuid: the old value, whether or not it changed |
| `Creds.Credentials.DoSetFsGid` | src/creds.c:114-119 | setfsgid: the old value, whether or not it changed |
| `Creds.DropConfines` | src/creds.c:12-119 | Once no uid is 0, no run of the nine calls brings back root, an id given up, or a group |
| `Creds.RootReturnsIff` | src/creds.c:12-119 | Root can come back exactly while one of the three uids is 0 |
| `Creds.PermanentExactlyWhen` | src/creds.c:41-84 | Which single calls by root give it up for good, exactly |
| `Creds.GidReachableIff` | src/creds.c:49-95 | A process without a root uid can get back to exactly the gids it holds |
| `Creds.UidReachableIff` | src/creds.c:41-84 | And to exactly the uids it holds |
| `Creds.GidGoneExactlyWhen` | src/creds.c:49-95 | Which single calls by root put a gid out of reach of any later run without a root uid, exactly |
| `Creds.DropForGood` | src/creds.c:41-55 | After setgid and setuid by root, no run of calls leaves those ids, nor the fsuid and fsgid |
| `Creds.GidCallsMirror` | src/creds.c:33-119 | Each gid call does to gids, and answers, what its uid call does to uids |
| `Creds.SetUidByRoot` | src/creds.c:41-47 | For root setuid is setresuid with three times one id |
| `Creds.SetUidByOthers` | src/creds.c:41-47 | For others it moves the effective id to the real or saved one, no other, and back |
| `Creds.LentRootComesBack` | src/creds.c:57-64 | Root that lends its effective id away gets everything back |
| `Creds.ReUidExchanges` | src/creds.c:75-84 | setreuid exchanges real and effective id for anyone, the saved one follows |
| `Creds.ReUidLeavesSavedOut` | src/creds.c:75-84 | It may not make the saved id the real one, as setresuid may |
| `Creds.FsUidAskedAgain` | src/creds.c:107-112 | setfsuid returns the old id, and asked again tells whether it worked |
| `Creds.FsUidAlwaysHeld` | src/creds.c:25-31 | In every reachable state an unprivileged process's fsuid is one of its three uids |
| `Creds.FsUidHeldFromStart` | src/creds.c:12-119 | The same from the initial credentials |

## Left out

- Resolution.ResolutionIsIdempotent: like every theorem about resolved paths it is about complete walks. The text appended unresolved after a /proc stop or too many hops is built by `TranslatePath` but not specified beyond its beginning.
- Emulation.HandedOn: chroot, mount and umount are left out, their registers are those of `ChrootMovesRoot`, `MountBinds` and `UmountUnbinds`.
- Walk.TranslatePath: path buffers are unbounded, so truncation at PATH_LEN and at 255 bytes of a component is not modelled.
- GuestMemory.Guest.PeekPokeCopy: addresses are unbounded and a word has 8 bytes, so access across the end of the address space is not modelled.
- OwnerTable.FindSlot: the hash function is a parameter; the multiplicative one of the source is one instance of it.
- OwnerFile.ScanPrintedRow: signs are not scanned, and a number that does not fit its field ends the reading.
- FileOwner.OneOwnerPerFile: for runs without inode reuse, lost entries or overlap; `OneOwnerIff` covers the others. stat and statx are patched on field values, not on bytes of the buffer.
- OwnerRuns.ShownOwnersOverRuns: the disk owner of a file not yet created is the one it will get; links and renames, which the engine does not record, are no events of the model.
- GuestMemory.Guest.ReadString: what the kernel denies does not change in the middle of one string.
- ExecExpand.ExpansionKeepsMeaning: a loader that exists is taken to work; whether a file is a script, an ELF with an interpreter, or a loader that knows `--argv0`, is an input; ELF headers and the scan of the loader are not modelled.
- ShebangLine.ParseShebang: the read of the file's first 256 bytes is an input.
- Rewrite.Stop.RewriteTwoPaths: whether a path needs translating, and to what, is an input; `RedirectTwoPaths` takes it from the walk. How relative paths are made absolute is an input there too.
- Tracer.FastPathRefinesFullTracing: of memory only the ids, groups and owners written are compared, not the text that getcwd, readlink and uname return; an execveat is given the same result in both modes; a child that makes syscalls before its parent's fork is reported, execs by one of several threads, and failures to read registers are not modelled.
- TraceeTable.Table.Stopped: allocation failure is not modelled here, nor is what ends the event loop (the first process exiting, a signal to the tracer).
- Register layouts of the processors: six argument registers, the stack pointer and a result.
- Permission bits (`src/dac.c`), the bytes of unix-socket addresses, uname and the text that getcwd returns: single-branch I/O.
- Logging, signal forwarding, the env-only backend, process start-up, probing, the command line and the Java layer.
