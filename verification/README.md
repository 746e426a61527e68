# Karim: a verified model

Karim is a Go and C microVM distribution. This project models its algorithms and
state machines in Dafny and proves what they promise, for every input, every run
and every interleaving. One module per component:

| module | component |
|---|---|
| `Paths` | Go's lexical path functions and the checks of `SafePathClean` |
| `Layers` | layer extraction with whiteouts, and unpacking a stack of layers in manifest order |
| `Supervisor` | the service supervisor and the SIGCHLD reaper, as a transition system over all interleavings |
| `Graph` | start-order resolution by Kahn's algorithm |
| `Seccomp` | the filter compilers and a classic BPF machine |
| `Cpio`, `Pack` | the newc writer, a reader for the format, and packing of a directory tree |
| `Linking` | exposing a lower tree under the running root |
| `Strings`, `Config`, `ServiceFile`, `SettingLines`, `SpecFile` | the TOML subset of service files, from single values to whole files, and the printer of `karim run` |
| `Frames` | length-prefixed frames and the request loop |
| `Qmp` | picking responses out of a QMP stream |
| `Snapshot` | save, restore and delete of VM snapshots |
| `Histogram` | the run-queue latency probe and its export |

Code that changes things step by step is imperative here too: classes with
`modifies` clauses, or methods with loops, each proved equal to a function on
values. The theorems are lemmas about those functions, so they hold of the
methods. `dafny verify dfyconfig.toml` checks everything.

The pages under `docs-site/` describe a later design (per-service actors, an
own reaper file, rooted file access) that is not in this tree. The model follows
the code.

## What the proofs show about the code

Where a promise fails, the model keeps the code as it is, a lemma gives a
failing input, and another states exactly when the promise holds.

- A whiteout that follows its own layer's file deletes that file, or lets a
  directory take its place (`Layers.LateWhiteoutDeletesOwnFile`,
  `Layers.HiddenFileBecomesDirectory`; exact: `Layers.LayerLaidOverExact`).
- A file rewritten by a higher layer gets the new contents and keeps the
  permission it first had (`Layers.UpperPermissionLost`; exact for any stack:
  `Layers.PermissionExact`).
- `Start` in the stopping state gives two live processes
  (`Supervisor.StartWhileStoppingDoubles`; exact over whole runs:
  `Supervisor.RunConditionExact`).
- When the reaper has collected a failed process and not yet recorded it, the
  monitor takes the failure for a clean exit and an on-failure service is not
  restarted (`Supervisor.LostFailure`; exact: `Supervisor.SettledCodeExact`).
- Beyond 255 system calls the 8-bit jump offset wraps, and only the last 255
  entries of a filter count (`Seccomp.LongWhitelistOrderMatters`; exact:
  `Seccomp.FilterCorrect`, `Seccomp.WhitelistExact`).
- A file of 4 GiB or more is packed without complaint and cannot be read back
  (`Cpio.FourGibFileLost`; exact: `Cpio.SizeLimitExact`); a file named like the
  trailer ends the archive early (`Cpio.TrailerNameHidesRest`; exact:
  `Cpio.ArchiveReadsBack`); a file that was empty when walked is packed as empty
  whatever it holds when copied (`Pack.GrownFileIsDropped`; exact, for all three:
  `Pack.PackedTreeReadsBack`).
- `unquote` panics on a lone quote character, and only there
  (`Config.UnquotePanicsExactly`); a memory size over 64 bits can wrap silently,
  even to "no limit" (`Config.MemoryLimitWraps`; exact:
  `Config.MemoryLimitExact`).
- A comment after a value that itself holds a `#` is not taken off: it stays on
  the value (`SpecFile.HashKeepsComment`; exact: `SettingLines.LineReads`).
- A flag of `karim run` that %q has to escape comes back with its escapes
  (`ServiceFile.QuoteComesBackEscaped`; exact over all flags:
  `ServiceFile.RunRoundTrip`).
- `WriteFrame` sends frames over 10 MiB that `ReadFrame` refuses, and from 4 GiB
  on frames that it reads as a shorter payload (`Frames.FourGibReadsEmpty`; exact:
  `Frames.OversizeRefused`).
- A QMP response whose text looks like an event is lost (`Qmp.ResponseLost`;
  exact over whole streams: `Qmp.ResponsesInOrder`).
- Saving a snapshot with a guest target and restoring it without one leaves the
  guest frozen (`Snapshot.TargetForgotten`). A run of calls is sure to leave the
  machine running and thawed exactly under a condition on what the orchestrator
  can see (`Snapshot.GuaranteedLive`).
- With destination "/" the containment check of `SafePathClean` refuses every
  entry but the destination itself (`Paths.RootRefusesOrdinary`; exact:
  `Paths.ContainmentAtRoot`).
- Exported bucket i counts samples below 2^(i+1), while its printed label says
  "at most 2^i" (`Histogram.LabelTooSmall`; exact: `Histogram.LabelExact`).

## Model

| member | source | states |
|---|---|---|
| Paths.SafePathClean | internal/pkgd/extract.go:13-62 | For a destination other than "/", a name is accepted if and only if it resolves lexically and its parents can be inspected, the result is the destination's components followed by the cleaned ones, and the containment check never rejects; for "/" only the destination itself is accepted; the empty and the climbing or absolute names are told apart |
| Paths.InspectParents | internal/pkgd/extract.go:36-59 | The parent loop succeeds if and only if no ancestor above the first missing one is unreadable |
| Paths.Descend | internal/pkgd/extract.go:42 | Joining the next part gives the next ancestor of the target |
| Paths.ResolveExact | internal/pkgd/extract.go:14-28 | A name passes the lexical checks if and only if it is non-empty, relative, and its component walk never rises above its start; what it resolves to has only ordinary components |
| Paths.TraversalTextExact | internal/pkgd/extract.go:25-28 | The textual prefix tests on the cleaned name agree with the walk: they fire exactly for rooted names and names that climb |
| Paths.ContainmentIsRedundant | internal/pkgd/extract.go:30-33 | For a destination other than "/", no lexically accepted name fails the second prefix check |
| Paths.ContainmentAtRoot | internal/pkgd/extract.go:30-33 | For destination "/", the second prefix check passes exactly for names that resolve to the destination |
| Paths.RootRefusesOrdinary | internal/pkgd/extract.go:30-33 | With destination "/" the entry name "a" passes the lexical checks and is refused by the second prefix check |
| Paths.WalkDepth | internal/pkgd/extract.go:25-28 | Names minus climbs of a cleaned walk is its depth, and it has no climb exactly when every prefix of the walk has depth at least zero |
| Paths.SplitOfJoin | internal/pkgd/extract.go:37 | Splitting undoes joining for slash-free components |
| Layers.UnpackIsOverlay | internal/pkgd/merger.go:15-94 | Whenever unpacking succeeds, every path at which no layer's own whiteouts undo what it gives, so every path when whiteouts come first, holds what the overlay of the manifest's layers in manifest order holds: the data of the highest visible writer, a directory, or nothing |
| Layers.UnpackOkExact | internal/pkgd/merger.go:15-94 | Unpacking succeeds if and only if the manifest names a layer, every layer it names is in the archive and readable to its end with acceptable names, and the requests of the layers in manifest order meet no file in the way and put no file on a directory |
| Layers.UnpackStops | internal/pkgd/merger.go:70-91 | A failed unpack leaves the whole layers before the failing one and the entries of that one before it stopped |
| Layers.StackIsOverlay | internal/pkgd/merger.go:70-91 | The same for any stack of layers and any path at which no layer's own whiteouts undo what it gives |
| Layers.BlobOrderIrrelevant | internal/pkgd/merger.go:25-68 | Two outer archives with the same distinctly named blobs in any order unpack to the same outcome |
| Layers.CollectExact | internal/pkgd/merger.go:25-68 | What is cached for a wanted name is the data of the last blob of that clean name |
| Layers.ExtractionResolves | internal/pkgd/oci.go:94-195 | For entries in any order, after a successful extraction every path holds exactly what the entries say declaratively: present if it survives or a live entry provides it, with the last live writer's data and the first live writer's permission |
| Layers.LayerLaidOver | internal/pkgd/oci.go:94-195 | One layer without self-hiding whiteouts, laid over any tree, gives and hides exactly the paths it names |
| Layers.LayerPresenceExact | internal/pkgd/oci.go:94-195 | For one layer, presence alone follows the overlay at a path if and only if the layer, when it provides the path, still provides it after its last whiteout hiding it |
| Layers.LayerLaidOverExact | internal/pkgd/oci.go:94-195 | For one layer, presence and content follow the overlay at a path if and only if the layer's own whiteouts undo neither its providing the path nor its last writing of it |
| Layers.LateWhiteoutDeletesOwnFile | internal/pkgd/oci.go:126-135 | A file followed by its own whiteout in one layer is gone after extraction |
| Layers.HiddenFileBecomesDirectory | internal/pkgd/oci.go:126-142 | A file, its whiteout and a directory of the same name in one layer: the path is present and is not the file the layer wrote |
| Layers.WhiteoutsFirstSuffices | internal/pkgd/pkgd_test.go:12-46 | A layer that writes its whiteouts first never hides what it provides |
| Layers.NoSelfHidingSuffices | internal/pkgd/oci.go:94-195 | A layer whose whiteouts never hide what it provided earlier undoes nothing it gives at any path |
| Layers.PermissionExact | internal/pkgd/oci.go:144-163 | Over any stack of layers and any starting tree, a file has its last writer's data and keeps the permission of the node that survived or of its first writer never hidden; it has the last writer's permission if and only if that is the one kept |
| Layers.UpperPermissionLost | internal/pkgd/oci.go:149-154 | Two layers, the upper one making a file executable: its data arrives and the file stays not executable |
| Layers.OpaqueMarkerName | internal/pkgd/oci.go:111-124 | An entry called .wh..wh..opq in any directory asks for an opaque whiteout of that directory |
| Layers.WhiteoutMarkerName | internal/pkgd/oci.go:126-135 | An entry called .wh. plus an ordinary name, in any directory, asks to remove the sibling of that name |
| Layers.PlainName | internal/pkgd/oci.go:137-163 | Any other ordinary name stands for itself and its kind decides what is made there |
| Layers.ParentsOkExact | internal/pkgd/extract.go:35-59 | In a well-formed tree the parent check passes if and only if no ancestor other than the immediate parent is a regular file |
| Layers.SafePathVerdict | internal/pkgd/extract.go:35-59 | The parent check on the tree agrees with the one on path texts for every destination whose lstat answers show the tree |
| Layers.StepNode | internal/pkgd/oci.go:114-163 | The node at any path after one entry: kept unless hidden, made if provided, with the old permission when a file is rewritten |
| Layers.AcceptsExact | internal/pkgd/oci.go:106-163 | From the nodes alone: an entry is accepted if and only if no regular file stands in the way of its names and a file does not land on a directory |
| Layers.RunOkExact | internal/pkgd/oci.go:94-195 | A run of entries goes through if and only if each is passable in the tree its predecessors leave |
| Layers.RunWellFormed | internal/pkgd/oci.go:94-195 | Extraction, also a failing one, keeps every node's ancestors present and directories |
| Layers.ExtractIsRun | internal/pkgd/oci.go:94-195 | Extraction succeeds if and only if the layer was read to its end, every name was accepted and the requests they stand for run through, and is then their run |
| Layers.ExtractStops | internal/pkgd/oci.go:94-195 | A stopped extraction has applied every entry before the refused one, and the refused one has changed nothing |
| Layers.UnpackIsStack | internal/pkgd/merger.go:70-91 | A successful unpack is the run of the manifest's layers one after the other |
| Layers.StackIsFlat | internal/pkgd/merger.go:70-91 | Unpacking layer after layer is one run over all their entries |
| Layers.RootFs.ClearDirectoryContents | internal/pkgd/oci.go:197-214 | Fails exactly when the path or an ancestor is a file; otherwise removes all strict descendants and nothing else |
| Layers.RootFs.MkdirAll | internal/pkgd/oci.go:139-147 | Fails exactly when the path or an ancestor is a file, leaving the tree as it was; otherwise adds exactly the missing directories |
| Layers.RootFs.WriteRegular | internal/pkgd/oci.go:144-163 | Makes the parents, then the file with its data, keeping the mode of a file that was there; fails, changing nothing, exactly below a file or on a directory |
| Layers.RootFs.ExtractEntry | internal/pkgd/oci.go:106-163 | One entry goes through exactly when its checks and filesystem calls succeed, and then has exactly its effect; otherwise nothing changes |
| Layers.RootFs.ExtractLayerTarball | internal/pkgd/oci.go:94-195 | The tree and verdict after the entry loop are those of the extraction function, and the tree stays well-formed |
| Layers.RootFs.CacheLayers | internal/pkgd/merger.go:25-68 | The cache holds, for each name the manifest wants, its last blob and nothing else |
| Layers.RootFs.ExtractLayers | internal/pkgd/merger.go:70-91 | The cached layers are extracted in manifest order up to the first failure |
| Layers.RootFs.UnpackOCIArchive | internal/pkgd/merger.go:15-94 | The tree and verdict are those of the unpacking function, whose success and result the theorems above characterise |
| Supervisor.AtMostOneProcess | internal/svcd/supervisor.go:71-241 | In every interleaving in which Start is never entered while stopping: at most one process unreaped, the service is running or stopping exactly when one monitor is unfinished, and that monitor's command is ms.Cmd |
| Supervisor.RunConditionExact | internal/svcd/supervisor.go:71-241 | A run keeps that guarantee at every point if and only if Start is never entered while stopping |
| Supervisor.OneLaunchAlways | internal/svcd/supervisor.go:71-241 | The inductive invariant behind it holds after every such run |
| Supervisor.SecondProcessExact | internal/svcd/supervisor.go:75-77 | From any state the invariant allows, a forking Start leaves two unreaped processes if and only if the service was stopping with its process not yet reaped |
| Supervisor.StartConditionExact | internal/svcd/supervisor.go:71-81 | From any state the invariant allows, a Start keeps the guarantee if and only if the service was not stopping, whether or not the launch succeeds |
| Supervisor.StartWhileStoppingDoubles | internal/svcd/supervisor.go:75-77 | Start, Stop, Start is a run that ends with two live processes |
| Supervisor.NoRestartAfterSuccess | internal/svcd/supervisor.go:214-256 | Whichever of reaper and monitor wins the wait, an on-failure service is never woken for a restart on account of a process that exited with 0 |
| Supervisor.TruthfulAlways | cmd/karim-svcd/main.go:313-341 | In every such run recorded codes, wait results and pending restarts agree with how the processes really ended |
| Supervisor.SettledCodeExact | internal/svcd/supervisor.go:217-241 | A monitor settles on code 0 if and only if its process succeeded, or the reaper took the status and has not recorded it |
| Supervisor.SettledCodeMeaning | cmd/karim-svcd/main.go:332-337 | The settled code by how the process ended: its exit status, 128 plus the signal when the reaper recorded it, -1 when the wait saw the signal, 0 when the status was taken and not recorded |
| Supervisor.LostFailure | cmd/karim-svcd/main.go:315-337 | A concrete run in which a process fails with status 1 and its monitor settles on 0 |
| Supervisor.RestartsAreBounded | internal/svcd/supervisor.go:258-283 | In every run whatever the interleaving: with a positive limit m, at most m automatic starts; launches are at most operator starts plus automatic ones; the backoff asked for is a closed form of the attempts granted |
| Supervisor.RestartCountExact | internal/svcd/supervisor.go:243-263 | Over every run the restart count is the number of exits decided with policy always, of failures decided with on-failure, and 0 with any other policy, which then never starts anything automatically |
| Supervisor.DecisionExact | internal/svcd/supervisor.go:243-283 | After every run, a deciding monitor goes to sleep for its numbered restart exactly when the policy calls for one and the number is within a positive limit or there is no limit |
| Supervisor.WakeLaunches | internal/svcd/supervisor.go:282-283 | A monitor that wakes launches a process unless the service is running or the launch fails |
| Supervisor.BudgetAlways | internal/svcd/supervisor.go:258-283 | Every granted attempt is either asleep or has called Start, in every run |
| Supervisor.BackoffClosedForm | internal/svcd/supervisor.go:271-277 | The k-th attempt waits 2^(k-1) seconds up to the fifth and 30 from then on; the total is 2^n - 1, then 31 + 30 (n - 5) |
| Supervisor.ManagedService.constructor | internal/svcd/supervisor.go:62-68 | A new service is stopped, without command, restarts or recorded exit |
| Supervisor.ManagedService.RecordExitStatus | internal/svcd/supervisor.go:54-59 | Records the code and changes nothing else |
| Supervisor.ManagedService.Start | internal/svcd/supervisor.go:71-193 | Refused exactly when running; otherwise clears the recorded exit and ends running with the new command, or stopped with the old one when the launch fails |
| Supervisor.ManagedService.Stop | internal/svcd/supervisor.go:196-212 | A running service with a command becomes stopping; any other is unchanged |
| Supervisor.ManagedService.Finish | internal/svcd/supervisor.go:217-241 | The service is terminated; the code is the recorded one if there is one, else the exit error, 1 for any other error and 0 for a clean or missing child |
| Supervisor.ManagedService.Decide | internal/svcd/supervisor.go:243-277 | A restart is attempted exactly with policy always, or on-failure and a code other than 0, while the limit is not positive or not reached; the attempt is the next number and sleeps its backoff |
| Graph.ResolveTopologicalSort | internal/svcd/graph.go:28-76 | For every iteration order and any repeated or unknown names: succeeds if and only if the relation among known services is acyclic; then each service occurs once with every known dependency strictly earlier; otherwise a real cycle exists |
| Graph.NewDependencyGraph | internal/svcd/graph.go:16-24 | The graph holds exactly the given names, each with its last specification |
| Graph.CountEdges | internal/svcd/graph.go:29-44 | In-degrees and adjacency lists count every known dependency as often as it is listed |
| Graph.CountAfter | internal/svcd/graph.go:38-43 | The inner loop extends those counts by one service's whole list |
| Graph.Roots | internal/svcd/graph.go:46-52 | The first queue holds the services of in-degree zero, each once |
| Graph.Release | internal/svcd/graph.go:63-68 | After releasing all dependents, in-degrees count the dependencies not yet ordered and the queue holds exactly the services that have none left |
| Graph.Drain | internal/svcd/graph.go:54-69 | What is ordered is a start order of the services done; if any is left out there is a cycle |
| Graph.OrderIsAcyclic | internal/svcd/graph.go:71-75 | A start order exists only for an acyclic relation |
| Graph.BlockedHasCycle | internal/svcd/graph.go:71-73 | A set of services each waiting for another one of the set contains a cycle |
| Graph.LeftoversHaveCycle | internal/svcd/graph.go:71-73 | With the queue empty and services left over, a cycle exists |
| Seccomp.CompileWhitelistFilter | internal/secd/seccomp.go:161-192 | Running the compiled program kills on a foreign architecture, allows exactly the last min(n, 255) entries and gives the default action to the rest, for every list and system call, with the kernel's numbers spelled out |
| Seccomp.CompileBlacklistFilter | internal/secd/seccomp.go:195-224 | The same with the denied action for the last min(n, 255) entries and allow for the rest |
| Seccomp.EmitFilter | internal/secd/seccomp.go:173-191 | The emitted program has the prologue, one comparison per entry with its truncated offset, and the two returns |
| Seccomp.ChecksCorrect | internal/secd/seccomp.go:173-191 | From any comparison on, the machine returns the hit action exactly when a later entry within reach of an offset matches, wrapped jumps included |
| Seccomp.FilterCorrect | internal/secd/seccomp.go:161-224 | The verdict of any program of that shape, for any list, duplicates included |
| Seccomp.ShortWhitelistExact | internal/secd/seccomp.go:161-192 | With at most 255 entries a whitelist allows a number if and only if it is listed |
| Seccomp.WhitelistExact | internal/secd/seccomp.go:161-192 | A duplicate-free whitelist allows exactly its list if and only if it has at most 255 entries |
| Seccomp.LongWhitelistOrderMatters | internal/secd/seccomp.go:174-183 | For every list of more than 255 distinct entries the first is refused, and allowed once moved to the end |
| Seccomp.CompileFromNames | internal/secd/seccomp.go:297-309 | The filter is compiled from exactly the numbers the table has under some trimmed, lower-case name of the list, each once |
| Seccomp.VerdictsDependOnSet | internal/secd/seccomp.go:297-309 | Two name lists with the same resolvable numbers, at most 255, give every system call the same verdict |
| Seccomp.BlacklistIsDual | internal/secd/seccomp.go:195-224 | Over the same list a blacklist denies exactly what a whitelist allows, and conversely |
| Cpio.RoundTrip | internal/builder/cpio.go:37-116 | For every list of members with names the format can carry, a newc reader recovers exactly names, header fields and bodies and stops at the trailer, whatever follows it, if and only if no member is named like the trailer and each declares the size of its body |
| Cpio.ReadSizesAgree | internal/builder/cpio.go:81-104 | Whatever the archive, every member a reader returns has a body of its declared size |
| Cpio.ArchiveReadsBack | internal/builder/cpio.go:106-116 | In general the reader recovers exactly the members before the first one named like the trailer |
| Cpio.BeforeTrailerExact | internal/builder/cpio.go:106-116 | Those are the longest prefix without that name |
| Cpio.TrailerNameHidesRest | internal/builder/cpio.go:106-116 | A member named like the trailer hides itself and all that follow |
| Cpio.ReadWritten | internal/builder/cpio.go:81-104 | One written member is read back whole and nothing of what follows is consumed |
| Cpio.SizeLimitExact | internal/builder/cpio.go:86-93 | With the size declared modulo 2^32 the writer never reports a mismatch, and the member comes back if and only if its body is below 4 GiB |
| Cpio.FourGibFileLost | internal/builder/cpio.go:86-93 | A body of exactly 4 GiB is declared empty without complaint and the member does not come back |
| Cpio.HexAllRoundTrip | internal/builder/cpio.go:41-55 | Eight-digit hexadecimal fields are read back as the same 32-bit numbers |
| Cpio.HexUpper | internal/builder/cpio.go:41 | Header digits are decimal or upper-case letters |
| Cpio.Fixed | internal/builder/cpio.go:41-59 | Every header is 110 bytes, so the writer's length check never fires |
| Cpio.EntryAligned | internal/builder/cpio.go:69-100 | Every written member is a multiple of four bytes |
| Cpio.MembersAligned | internal/builder/cpio.go:69-100 | Every member, and the trailer, starts on a four-byte boundary |
| Cpio.Writer.WriteHeader | internal/builder/cpio.go:37-78 | Appends exactly the encoded header |
| Cpio.Writer.WriteEntry | internal/builder/cpio.go:81-104 | Appends header and padded body, and succeeds exactly when the declared size matches modulo 2^32; on a mismatch the body stays unpadded |
| Cpio.Writer.WriteTrailer | internal/builder/cpio.go:107-116 | Appends the trailer header |
| Pack.PackCPIOInitramfs | internal/builder/cpio.go:119-230 | Succeeds if and only if no file's copy mismatches its walked size modulo 2^32; the output is then the archive of a sorted permutation of the walk, read back entry by entry as the walk, and otherwise the members through the first mismatch |
| Pack.WalkOrderIrrelevant | internal/builder/cpio.go:153-222 | Two walks over the same distinct paths give the same bytes |
| Pack.SortedUnique | internal/builder/cpio.go:153-156 | Distinct paths have only one sorted arrangement |
| Pack.DirectoryBeforeContents | internal/builder/cpio.go:153-156 | Every directory precedes everything beneath it |
| Pack.PackedTreeReadsBack | internal/builder/cpio.go:163-227 | For every walk, whatever its files did before they were copied, reading the archive gives back every path, mode, inode number and copied body in order if and only if no path is named like the trailer and every body has its walked size cut to 32 bits |
| Pack.PackedMeaning | internal/builder/cpio.go:163-227 | For every packable walk the i-th entry read back has the i-th sorted path, number i+1, owner 0 and its mode; a link gives its target, a file its data, a directory no body and two links |
| Pack.GrownFileIsDropped | internal/builder/cpio.go:183-221 | A file that was empty when walked is packed as empty without complaint, whatever it holds when copied |
| Pack.SortByPath | internal/builder/cpio.go:153-156 | The result is sorted by path and a permutation of the entries |
| Pack.ModeOf | internal/builder/cpio.go:167-181 | File type and permission bits depend only on kind and executability |
| Pack.WriteMember | internal/builder/cpio.go:183-221 | Appends the encoded member of one walk entry and succeeds exactly when the copied data matches the declared size modulo 2^32 |
| Pack.WriteNext | internal/builder/cpio.go:183-221 | The same for the k-th entry of the sorted list, leaving the next inode number |
| Pack.WriteMembers | internal/builder/cpio.go:163-222 | The loop writes the members of the sorted list in order, with consecutive inode numbers, through the first mismatch |
| Pack.MatchingExact | internal/builder/cpio.go:166-222 | The number of members written before a mismatch is that of the entries whose copies match, and the next one does not match |
| Linking.LinkedShowsUnion | internal/stored/stored.go:101-168 | After linking, resolving any path outside proc, sys, dev, mnt and run gives the overlay union of root and lower tree |
| Linking.FreshRootShowsUnion | internal/stored/stored.go:101-168 | Spelled out for a root without links: its own node, nothing below its non-directories, otherwise the lower tree's node |
| Linking.SkippedUnchanged | internal/stored/stored.go:111-114 | Below proc, sys, dev, mnt and run nothing changes |
| Linking.AddedNodes | internal/stored/stored.go:116-158 | What is added: one link for a missing top-level entry, further down real directories and a link for every file |
| Linking.LinkingIsIdempotent | internal/stored/stored.go:101-168 | No existing node changes and a second run does nothing |
| Linking.LinkedIsTree | internal/stored/stored.go:101-168 | The root stays a tree |
| Linking.RootTree.LinkDirectoryContents | internal/stored/stored.go:135-168 | Recursion in any directory order adds exactly the missing, unblocked lower paths: directories as directories, files as links |
| Linking.RootTree.LinkLowerDirToRoot | internal/stored/stored.go:101-133 | The whole run gives the closed form the theorems speak about |
| Config.UnquotePanicsExactly | internal/svcd/config.go:316-323 | Unquoting panics if and only if the trimmed text is a lone quote character |
| Config.ParseArray | internal/svcd/config.go:325-387 | The character loop computes the array function, panics included |
| Config.ArrayRoundTrip | internal/svcd/config.go:325-387 | Every array comes back as meant, its items in double quotes, single quotes or bare: commas, the other quote and escapes inside quotes are kept as they stand and empty items are dropped |
| Config.QuotedArrayRoundTrip | internal/svcd/config.go:325-387 | In particular every list of non-empty strings without double quote or backslash comes back from its quoted array |
| Config.MemoryLimitExact | internal/svcd/config.go:389-413 | A decimal with any of the suffixes, in any case, means value times multiplier if and only if that fits in 64 bits; beyond, it wraps or is refused, and which is stated |
| Config.MemoryLimitWraps | internal/svcd/config.go:397-412 | A limit of 2^34 gigabytes is read as zero, which means no limit |
| Config.BackslashNoSize | internal/svcd/config.go:389-413 | Text with a backslash anywhere is refused as a size |
| Config.ParseDecimal | internal/svcd/config.go:408-411 | A printed decimal is read back if and only if it fits in 64 bits |
| ServiceFile.RunRoundTrip | cmd/karim/main.go:903-912 | For all flags whatever, parsing the text of karim run gives back the same fields, and the memory limit its text means, if and only if all values are printable without double quote or backslash and no printed line exceeds the scanner limit, or the flags are refused anyway |
| ServiceFile.RunReads | cmd/karim/main.go:903-912 | For all flags whatever, parsing the text of karim run gives back the fields exactly as %q escaped them, a rejection when one is missing or is no size, or a rejection when a printed line exceeds the scanner limit; it never panics |
| ServiceFile.TooLongRejects | internal/svcd/config.go:183-276 | Among lines that cannot panic, one over the scanner limit has the whole text rejected |
| ServiceFile.QuoteComesBackEscaped | cmd/karim/main.go:903-912 | A name that is one double quote comes back as a backslash and a quote |
| ServiceFile.EscapedGrows | cmd/karim/main.go:906-911 | %q changes exactly the text that is not plain, always by adding a backslash |
| ServiceFile.RenderRun | cmd/karim/main.go:903-912 | The builder holds the banner and one setting per flag with its value printed by %q, the memory line only when given |
| ServiceFile.RenderTexts | cmd/karim/main.go:903-909 | The banner and the four settings that are always printed |
| ServiceFile.WriteSetting | cmd/karim/main.go:906-911 | Each print extends the text by its own line, the value escaped as %q does |
| ServiceFile.ParseServiceSpecFromBytes | internal/svcd/config.go:172-286 | The line loop computes the parsing function, whose meaning on whole files SpecFile.FileMeans states |
| SpecFile.FileMeans | internal/svcd/config.go:172-286 | For every file of settings in any order, spelling and repetition, with comments, headers, blank lines, env lists and environment sections: each setting that occurs sets its own field, the others keep their defaults, the environment is what is listed, in order, and a missing name or exec rejects the file |
| SpecFile.SpecRoundTrip | internal/svcd/config.go:172-286 | Every specification written out in full in any such way is parsed back exactly |
| SpecFile.FieldStored | internal/svcd/config.go:229-270 | Each setting sets its own field and nothing else |
| SpecFile.HashKeepsComment | internal/svcd/config.go:190-209 | A service named a#b with a comment after it: the comment stays on the name |
| SettingLines.LineReads | internal/svcd/config.go:190-222 | A line is read as its key and its value in quotes, brackets or bare; a comment is taken off if and only if the value holds no hash sign |
| ServiceFile.LoneQuotePanics | internal/svcd/config.go:229-270 | A lone quote as the value of any setting that is not a list panics |
| ServiceFile.OddValues | internal/svcd/config.go:250-261 | An unreadable quota rejects the file; an unreadable max_restarts and an unknown key change nothing |
| ServiceFile.BadSizeRejects | internal/svcd/config.go:244-249 | An unreadable memory size rejects the file |
| ServiceFile.InQuotesBefore | internal/svcd/config.go:190-202 | The quote scan before a hash sign computes the quote state at that place |
| ServiceFile.SettingNotStripped | internal/svcd/config.go:190-209 | A hash sign inside a printed value is never taken for a comment |
| ServiceFile.SettingReads | internal/svcd/config.go:216-222 | A printed setting is read as its key and its quoted value, equals signs in the value included |
| ServiceFile.LinesOfText | internal/svcd/config.go:179-185 | Line scanning gives back the lines a text was built from |
| Frames.StreamRoundTrip | internal/vsockd/protocol.go:53-88 | Reading the concatenated frames of any payloads within the limit returns exactly those payloads, then a clean end |
| Frames.CutStream | internal/vsockd/protocol.go:69-88 | Cutting the stream anywhere yields exactly the whole frames before the cut, then a clean end at a boundary and an error elsewhere |
| Frames.CutFrame | internal/vsockd/protocol.go:69-88 | A frame cut short is never read as a payload |
| Frames.FrameRoundTrip | internal/vsockd/protocol.go:53-88 | One frame comes back whole and what follows is untouched |
| Frames.OversizeRefused | internal/vsockd/protocol.go:53-88 | A written frame of any size is read back if and only if it is within 10 MiB; below 4 GiB a larger one is refused, and from 4 GiB on one whose wrapped length is within the limit is read as a proper prefix of the payload |
| Frames.FourGibReadsEmpty | internal/vsockd/protocol.go:54-65 | Exactly 4 GiB of payload are written as an empty frame and read as one |
| Frames.Sink.WriteFrame | internal/vsockd/protocol.go:53-67 | On a connection that breaks after any number of bytes, appends exactly the encoded frame as far as it gets through, and succeeds exactly when all of it does |
| Frames.Stream.ReadFull | internal/vsockd/protocol.go:71-74 | Takes the requested bytes from the front, or all that is left when there are fewer |
| Frames.Stream.ReadFrame | internal/vsockd/protocol.go:69-88 | Returns what the decoding function says and consumes exactly the frame, the length of a refused one, or everything when cut short |
| Frames.HandleConnection | internal/vsockd/server.go:88-129 | On a connection whose writes fail after any number of bytes, the output is the frames of the replies to the payloads read, up to a trace request, cut at that number |
| Frames.RepliesInOrder | internal/vsockd/server.go:88-129 | One reply per payload with its own id: the error for text that is no request, the encoding of the dispatched response, or the error carrying the id when that does not encode; stopping exactly at the first trace, stream_exec or execsnoop |
| Frames.ConnectionAnswersInOrder | internal/vsockd/server.go:88-129 | End to end over a connection that breaks anywhere, a client reads a prefix of the replies, each with its own request's id and never a wrong one; unbroken, all of them until a trace request |
| Qmp.ResponsesInOrder | internal/qmp/client.go:158-203 | For every stream with one response per command and any events between, also ones whose data mentions return or error, each Execute returns its own response, the error if the message has one and else its return value, and the rest of the stream is untouched, if and only if no response's text looks like an event |
| Qmp.LostResponse | internal/qmp/client.go:139-203 | Whenever a response is lost, some command meets the end of the stream or eats into what follows |
| Qmp.HandshakeThenInOrder | internal/qmp/client.go:118-137 | After any lines readLine drops, the handshake succeeds if and only if the greeting decodes and the first response has no error; the commands that follow get the responses that follow, in order |
| Qmp.NoiseIsSkipped | internal/qmp/client.go:139-195 | Blank lines and events before a response never change what Execute returns |
| Qmp.ResponseIsTaken | internal/qmp/client.go:149-152 | A response is returned when its text does not look like an event and is lost when it does; one that spells its key as QEMU does is never lost |
| Qmp.ResponseLost | internal/qmp/client.go:149-152 | A concrete response, with a blank before the colon of its key and an event in its value, whose command never returns it |
| Qmp.Client.ReadLine | internal/qmp/client.go:139-155 | Returns and consumes up to the first line that is neither blank nor textually an event |
| Qmp.Client.Execute | internal/qmp/client.go:158-203 | The reply and the lines left are those of the awaiting function |
| Qmp.Client.Handshake | internal/qmp/client.go:118-137 | The verdict and the lines left are those of the greeting function |
| Snapshot.AlwaysLive | internal/snapshot/orchestrator.go:81-199 | Over every sequence of calls, each with its own configuration, whatever savevm, loadvm and delvm return, a running and thawed VM stays so throughout if and only if no failed call froze or halted it unseen, no unpaused savevm left it halted, and no restore without a guest target brought back a frozen guest |
| Snapshot.GuaranteedLive | internal/snapshot/orchestrator.go:81-199 | From what the orchestrator can see: every run with the same requests and visible results stays running and thawed if and only if each call had no tag, saved with a pause and, given a guest target, a successful quiesce, was a delete, or loaded its snapshot with a target or under a tag neither frozen at the start nor saved with a target before |
| Snapshot.AssuredExact | internal/snapshot/orchestrator.go:81-199 | The same for one call: that visible condition holds exactly when nothing harmful can hide behind the results |
| Snapshot.OperationExact | internal/snapshot/orchestrator.go:81-199 | One call leaves a running and thawed VM so if and only if it was harmless in that sense |
| Snapshot.FrozenSnapshotRestoresThawed | internal/snapshot/orchestrator.go:152-164 | With a guest target, a snapshot that holds a frozen guest restores to a thawed one |
| Snapshot.TargetForgotten | cmd/karim/main.go:656-660 | Saving with a guest target and restoring without one, both successful and paused, leaves the guest frozen |
| Snapshot.StoredAfter | internal/snapshot/orchestrator.go:81-199 | Which snapshots are stored after a call: a save its own tag, frozen or not, when savevm did, a delete removes its own tag when delvm did, and every other snapshot stays as it was |
| Snapshot.AssuredRun | internal/snapshot/orchestrator.go:81-199 | In a run of assured calls, whatever they hide, only suspect tags hold a frozen guest and the machine stays live |
| Snapshot.WorstIsExact | internal/snapshot/orchestrator.go:81-199 | A run with the same visible results exists in which exactly the suspect tags hold a frozen guest, so anything not assured can fail |
| Snapshot.World.SaveSnapshot | internal/snapshot/orchestrator.go:81-135 | Succeeds exactly with a tag and no savevm error; the machine after the ordered steps is resumed if paused and thawed if it was quiesced, also on error |
| Snapshot.World.RestoreSnapshot | internal/snapshot/orchestrator.go:138-173 | Succeeds exactly with a tag and no loadvm error; then the machine runs, and is thawed when a guest target is configured |
| Snapshot.World.DeleteSnapshot | internal/snapshot/orchestrator.go:187-199 | Succeeds exactly with a tag and no delvm error; only the stored snapshot can change |
| Histogram.BucketCountsSamplesBelow | internal/obsd/obsd.go:329-337 | Over every run of events with fewer than 2^64 samples, exported bucket i below the last counts exactly the samples below 2^(i+1) |
| Histogram.LabelExact | internal/obsd/obsd.go:329-337 | The printed label 2^i of a bucket is right, as "at most", if and only if no sample lies strictly between 2^i and 2^(i+1) |
| Histogram.LabelTooSmall | internal/obsd/obsd.go:332-336 | A run with one latency of 3 microseconds, counted in the bucket labelled at most 2 |
| Histogram.LastBucketIsTotal | internal/obsd/obsd.go:329-339 | The last bucket is the sum of all slots, so the total, and is the number of samples |
| Histogram.SlotsCountSamples | ebpf/runqlat.bpf.c:46-76 | Over every run, slot i is the 64-bit count of the samples that belong in it |
| Histogram.SlotBelow | ebpf/runqlat.bpf.c:63-66 | Below the last slot, a latency lies in slots 0 to i exactly when it is below 2^(i+1) |
| Histogram.Log2u | ebpf/runqlat.bpf.c:24-31 | The shift loop returns r with 2^r <= max(v, 1) < 2^(r+1) |
| Histogram.StartIsLastStamp | ebpf/runqlat.bpf.c:33-76 | Over every run the stamp map holds exactly each process's last stamp not consumed by a switch to it, except those a full map refused, and never more than 10240 |
| Histogram.FewNeverRefused | ebpf/runqlat.bpf.c:10-15 | With at most 10240 processes no stamp is refused |
| Histogram.SampleMeaning | ebpf/runqlat.bpf.c:46-76 | Over every run a switch measures the microseconds since the process's last unconsumed wakeup unless a full map refused it, and nothing else adds a sample |
| Histogram.Maps.constructor | ebpf/runqlat.bpf.c:10-22 | The maps start without stamps and with zero slots |
| Histogram.Maps.HandleWakeup | ebpf/runqlat.bpf.c:34-44 | Stamps the process unless it is the idle one or the map is full |
| Histogram.Maps.HandleSwitch | ebpf/runqlat.bpf.c:47-76 | Counts the latency in its slot if the clock advanced and consumes the stamp |
| Histogram.TotalCount | internal/obsd/obsd.go:259-263 | The total is the 64-bit sum of the slots |
| Histogram.CumulativeBuckets | internal/obsd/obsd.go:329-337 | Bucket i is the 64-bit sum of slots 0 to i, labelled 2^i, and the last one is labelled infinite |

## Left out

- Symbolic and hard links in layers, `SafeOpenFile` and `ValidateSymlinkTarget`: they depend on kernel path resolution.
- A layer entry whose data ends early: the partial file it leaves is not modelled, only the failure.
- Extraction into "/" itself: `Layers` takes a destination for which the containment check is idle.
- tar, gzip, JSON and SHA-256: given as functions or as already decoded input.
- Supervisor timing: each critical section, and the reaper's lookup with its record, is one step; process ids are never reused; the lookup may always miss, which allows more runs than the code has.
- Supervisor.ManagedService.Start: path lookup, the isolation wrapper, cgroups and log streams are reduced to whether a process was launched.
- Replacing a service or its specification while it runs (`LoadService`, `ApplyBundle`, `reloadSpecs`), and shutdown on SIGTERM.
- `GetProfileFilter`'s fixed lists and `ApplySeccompFilter`: a table lookup and a system call.
- Pack.SortByPath: inserts one by one instead of following the algorithm of `sort.Slice`; any sorted permutation meets the same contract.
- Pack.WriteMember: failing opens, reads and writes are not modelled.
- Linking.RootTree.LinkLowerDirToRoot: links inside the lower tree and failing filesystem calls are not modelled.
- Config.ParseArray: nil and empty results are one value.
- Text: sequences of code points, so input that is not UTF-8 is left out; case mapping covers ASCII only.
- ServiceFile.RenderRun: which characters beyond ASCII count as printable is a parameter.
- ServiceFile.ParseServiceSpecFromBytes: the floating-point reader of cpu_quota is a parameter, and error messages are dropped.
- `ParseServiceConfig`, which reads the same format from a file: it would repeat the same loop.
- Frames.HandleConnection: the relay of a trace stream is not modelled, and the dispatcher is any function.
- Qmp.Client.Execute: writing the command, which does not affect the reading side, and deadlines.
- Snapshot.World.SaveSnapshot: a QMP dial that fails after a successful quiesce returns early in the source; the dial, cont and unquiesce are taken to succeed.
- The block-I/O probe, the fallback data of the observer and the rest of the Prometheus text.
- Mounting, networking, cgroups, boot code, the build scripts and the rest of the command line.
