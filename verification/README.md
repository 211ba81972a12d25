# Autonomic launcher and effect protocol: a verified model

This project models the privileged Linux launcher of Autonomic (a Rust daemon that creates,
freezes, checkpoints, restores and destroys execution domains), the worker-side protocol clients
that talk to the effect socket, and one complete effect adapter, and proves what callers rely on.

| module | what it models |
|---|---|
| `Domains`, `DomainInvariant` | the launcher's world: warm domain map, state directory, directory contents, cgroup tree; every request as a step; the invariant of every reachable state |
| `DomainReplies` | what every request answers and does, in terms of the disk before and after and of the request alone |
| `DomainTheorems`, `CgroupClosure`, `DomainLifecycle`, `Checkpoints` | cache coherence under restarts, epoch fence and non-interference, exact cgroup teardown, freezing, content-addressed checkpoints |
| `RacingCreates` | creates and restores of several launchers at once, interleaved phase by phase |
| `Launcher` | the request handling as it runs, a class whose methods update the state in place, proved against the steps |
| `Seccomp` | the classic-BPF filter builder, the machine that runs it, and the policy |
| `TreeDigest`, `PathOrder`, `CopyTree` | the byte stream a tree is hashed from; what copying a tree into a directory leaves |
| `Frames`, `Streams`, `Base64`, `Json`, `ExecOutput`, `HelperOptions`, `Utf8`, `Decimal`, `Prelude` | framing and the daemon loop, short-read loops, the strict decoder, JSON text and its reader, the exec reply, helper options, text encodings |
| `WorkerClient`, `NodeClient` | the Python chunk reassembly with the broker's slicing rule, the Node event parser |
| `ObjectAdapter` | the conditional-write object adapter, sequential and interleaved |

Conventions and assumptions:

- Paths are lists of components. A path prefix is a prefix of components, as in `Path::starts_with`.
- What the host decides is data in the request: whether host paths resolve, the fresh domain id, how far
  a keeper launch gets, what a copy produces, whether a freeze settles or a cgroup empties in time.
  Theorems hold for every choice; fresh ids, a single state root and room for one more generation
  number are the stated assumption `Admissible`.
- Live means: the record is on disk. The warm map only ever holds live records.
- `create_dir_all` keeps what a directory holds and `cp -a` merges into it (`CopyTree.Merge`); that a new
  domain starts from nothing but its snapshot is proved, not assumed.
- `rmdir` succeeds exactly on a cgroup without processes and children; writing `domain.json` is
  atomic and refuses an existing file; `remove_dir_all` succeeds.
- No reboot: nothing but the launcher removes cgroups, so in reachable states a live domain has its cgroup
  (what the actions do without one is modelled all the same).
- A hash function is a parameter. Nothing assumes it is injective: where two digests agree, the
  conclusion is equal content or an explicit collision, for trees whose names and link targets are UTF-8;
  for others see `TreeDigest.LossyNamesCollide` and `TreeDigest.UnsizedTargetsCollide`.
- Requests are handled one after another, each to its end, by one launcher or by a new one every time.
  The repository's `README.md:457` has one-shot launchers run side by side; for creates and restores
  that is modelled in `RacingCreates`, for the other actions it is not.
- The model follows the code where documents say more. `docs/spec/09_TESTING_AND_CONFORMANCE.md:149`
  asks that an old upper directory cannot be reused; its name comes back exactly under the condition
  of `DomainLifecycle.GenerationIsReusedIff`, never with its content (`DomainLifecycle.CreatedDomainIsFresh`).
- Nothing was executed.

## Model

| member | source | states |
|---|---|---|
| `Seccomp.BuildFilter` | packages/autonomic_linux/native/autonomic_launcher/src/main.rs:941-967 | the vector literal and the push loop produce exactly the specified program for every deny list |
| `Seccomp.FilterEnforcesPolicy` | packages/autonomic_linux/native/autonomic_launcher/src/main.rs:941-967 | compilation preserves meaning: for every deny list, every syscall record and every initial accumulator the run ends at a RET and returns the policy verdict (wrong architecture or x32 bit kills, else a listed number gives EPERM, else an INET or INET6 socket traps, else allow) |
| `Seccomp.FilterVerdicts` | packages/autonomic_linux/native/autonomic_launcher/src/main.rs:941-967 | in the kernel's numbers, for every list of integers: 0x80000000 for other architectures and x32 calls, else 0x00050001 exactly for a number with the low 32 bits of a listed one, else 0x00030000 for a socket of family 2 or 10, else 0x7fff0000 |
| `Seccomp.ListedMeansListed` | packages/autonomic_linux/native/autonomic_launcher/src/main.rs:952-955 | for a list of 32-bit numbers, on x86-64 outside x32, EPERM is answered if and only if the number is in the list |
| `Seccomp.ProgramText` | packages/autonomic_linux/native/autonomic_launcher/src/main.rs:941-967 | the program, opcode by opcode, jump by jump and operand by operand |
| `Seccomp.AndIsBitwise` | packages/autonomic_linux/native/autonomic_launcher/src/main.rs:946-946 | each bit of the masked number is the product of the two bits |
| `Seccomp.FilterPassesChecker` | packages/autonomic_linux/native/autonomic_launcher/src/main.rs:941-967 | every opcode is known, every load is aligned and in the record, every jump lands inside the program, the last instruction is a RET |
| `Seccomp.VerdictDependsOnDenySet` | packages/autonomic_linux/native/autonomic_launcher/src/main.rs:952-955 | order and repetition in the deny list never change a verdict |
| `Seccomp.InstalledIsWholeProgram` | packages/autonomic_linux/native/autonomic_launcher/src/main.rs:969-972 | the u16 length cast keeps the first (15 + 2n) mod 65536 instructions, the whole program exactly when the deny list has at most 32760 entries |
| `DomainInvariant.StepKeepsInv` | packages/autonomic_linux/native/autonomic_launcher/src/main.rs:122-154 | every request and every activity of the domains' own processes keeps the invariant tying map, records, directories and cgroups together |
| `DomainInvariant.RunKeepsInv` | packages/autonomic_linux/native/autonomic_launcher/src/main.rs:80-120 | the same over every run |
| `DomainInvariant.NextGenerationIsFreshIff` | packages/autonomic_linux/native/autonomic_launcher/src/main.rs:1221-1243 | the chosen `gen-K` names no existing entry, whatever entries such as `gen-007` or unparsable names are there, exactly unless the 64-bit number has wrapped around onto an existing `gen-0` |
| `DomainTheorems.FenceIffLive` | packages/autonomic_linux/native/autonomic_launcher/src/main.rs:652-712 | with the state root carried along, loading plus fence check reaches a record if and only if it is a live record with that id, episode and epoch, from any coherent warm map |
| `DomainReplies.ReloadAccepts` | packages/autonomic_linux/native/autonomic_launcher/src/main.rs:677-693 | on any disk, whoever wrote it, the reload accepts only a record of this id, episode and epoch, with the cgroup these and its generation determine and inside their directory |
| `DomainReplies.ExecOutcome` | packages/autonomic_linux/native/autonomic_launcher/src/main.rs:382-533 | an exec is answered if and only if it is fenced, valid and completes before its deadline; a valid one, timed out or not, leaves its processes in the cgroup, the freeze flag as it was, the tree it makes unless the domain is frozen, and everything else untouched |
| `DomainReplies.SignalOutcome` | packages/autonomic_linux/native/autonomic_launcher/src/main.rs:535-554 | exactly five signals are accepted; of the domain's processes exactly those that survive remain, and everything else is untouched |
| `DomainReplies.FreezeOutcome` | packages/autonomic_linux/native/autonomic_launcher/src/main.rs:556-564 | freeze and thaw set the flag they say and are answered if and only if the kernel settles in time; everything else is untouched |
| `DomainReplies.InspectOutcome` | packages/autonomic_linux/native/autonomic_launcher/src/main.rs:602-612 | inspect tells exactly the processes of the domain's cgroup and changes nothing |
| `DomainReplies.CheckpointEffect` | packages/autonomic_linux/native/autonomic_launcher/src/main.rs:566-600 | the whole new disk and the reply of a checkpoint for every way freezing, copying and thawing can go |
| `DomainReplies.DestroyOutcome` | packages/autonomic_linux/native/autonomic_launcher/src/main.rs:614-650 | a destroy is answered if and only if it is fenced and the cgroup empties in time; else only the killed processes are gone |
| `DomainReplies.WithoutCgroup` | packages/autonomic_linux/native/autonomic_launcher/src/main.rs:1196-1207 | on any disk, a domain whose cgroup is gone: exec, freeze and checkpoint fail without effect, signal, inspect and destroy find no process, and destroy removes the directory |
| `DomainReplies.CreateOutcome` | packages/autonomic_linux/native/autonomic_launcher/src/main.rs:213-333 | a create succeeds if and only if episode, epoch, state root, host paths and launch are in order; the record on disk and in the map then holds id, keeper, settings and paths, component by component |
| `DomainReplies.RestoreOutcome` | packages/autonomic_linux/native/autonomic_launcher/src/main.rs:347-380 | the same for a restore, which also wants a checkpoint of the digest it names and a copy that completes |
| `DomainReplies.EstablishEffect` | packages/autonomic_linux/native/autonomic_launcher/src/main.rs:266-333 | what a create or restore leaves on disk whether or not it succeeds: directory, upper, and the cgroups its launch got to make |
| `DomainReplies.WorkOutcome` | packages/autonomic_linux/native/autonomic_launcher/src/main.rs:556-564 | a domain's own processes change its tree and process set while it is not frozen, and nothing else |
| `DomainReplies.GenerationNames` | packages/autonomic_linux/native/autonomic_launcher/src/main.rs:1230-1239 | a name carries a number if and only if it is `gen-`, an optional plus sign, zeros and the decimal of a number below 2^64 |
| `DomainTheorems.RestartAgreesIff` | packages/autonomic_linux/native/autonomic_launcher/src/main.rs:657-671 | a restarted launcher reaches the same record as the warm one if and only if a correctly fenced cached id comes with the state root it was created under |
| `DomainTheorems.RestartsAreInvisible` | packages/autonomic_linux/native/autonomic_launcher/src/main.rs:122-154 | over every run whose requests carry their state root, a launcher restarted with an empty map before every request gives the same replies and the same disk as one long-running daemon |
| `DomainTheorems.CreatedRecordReloads` | packages/autonomic_linux/native/autonomic_launcher/src/main.rs:314-332 | a record that create or restore just wrote passes the reload validation and is what an empty-map launcher finds |
| `DomainTheorems.LiveDomainsAreDisjoint` | packages/autonomic_linux/native/autonomic_launcher/src/main.rs:278-292 | two live domains never share id, (episode, epoch, generation), directory, upper or cgroup |
| `DomainTheorems.StepLeavesOthers` | packages/autonomic_linux/native/autonomic_launcher/src/main.rs:699-712 | a step that does not name a live domain's id, episode and epoch leaves its record, directory, tree and cgroup untouched |
| `DomainTheorems.RunLeavesOthers` | packages/autonomic_linux/native/autonomic_launcher/src/main.rs:699-712 | the same over every run in which nobody addresses the domain |
| `DomainTheorems.StaleRequestIsRefused` | packages/autonomic_linux/native/autonomic_launcher/src/main.rs:699-712 | a request naming a live id with the wrong episode or epoch is refused and changes nothing |
| `DomainTheorems.IdentityNeverChanges` | packages/autonomic_linux/native/autonomic_launcher/src/main.rs:314-332 | while a record lives it stays the same record, whatever the step |
| `DomainTheorems.DestroyLeavesNothing` | packages/autonomic_linux/native/autonomic_launcher/src/main.rs:614-650 | a successful destroy leaves no process, cgroup, record, directory, tree or map entry of the domain, and reports the killed processes and the cgroup's removal truthfully |
| `DomainTheorems.RunKeepsClosure` | packages/autonomic_linux/native/autonomic_launcher/src/main.rs:637-644 | after any run without a leaking launch, each judged in its own state, the cgroup tree below `autonomic` is exactly the prefix closure of the live domains' cgroup paths |
| `DomainTheorems.RunKeepsClosureIff` | packages/autonomic_linux/native/autonomic_launcher/src/main.rs:303-312 | over every run whose failing launches get as far as the leaf, the tree is exact at the end if and only if no step leaked |
| `DomainTheorems.OrphanIsForever` | packages/autonomic_linux/native/autonomic_launcher/src/main.rs:637-646 | a generation's cgroup with its directory but without a record stays over every run, and with it the tree is never exact again |
| `DomainTheorems.StepKeepsClosureIff` | packages/autonomic_linux/native/autonomic_launcher/src/main.rs:303-312 | from an exact tree a step leaves an exact tree if and only if it is not a create or restore that reaches its cgroup, fails to launch, and made a level below `autonomic` that was not there |
| `DomainTheorems.FailedKeeperLeaks` | packages/autonomic_linux/native/autonomic_launcher/src/main.rs:303-312 | a keeper that does not come up always leaks, since the leaf of a fresh generation is new; create and restore alike |
| `DomainTheorems.ReadyRunsAreLeakFree` | packages/autonomic_linux/native/autonomic_launcher/src/main.rs:303-312 | a run whose launches all come up leaks nothing |
| `CgroupClosure.TeardownLeavesTheNeeded` | packages/autonomic_linux/native/autonomic_launcher/src/main.rs:637-644 | the upward removal loop removes exactly the ancestors no other leaf needs and stops at the `autonomic` component |
| `CgroupClosure.AttachExtends` | packages/autonomic_linux/native/autonomic_launcher/src/main.rs:1082-1103 | configuring a cgroup adds exactly the missing prefixes of its path |
| `DomainInvariant.TeardownOk` | packages/autonomic_linux/native/autonomic_launcher/src/main.rs:637-644 | the loop touches only nodes on the way up and changes no other cgroup |
| `DomainLifecycle.CreatedDomainIsFresh` | packages/autonomic_linux/native/autonomic_launcher/src/main.rs:278-333 | a new domain takes over nothing: neither its directory nor its upper nor its cgroup existed, its number exceeds every other in its epoch, its upper is empty (create) because there was none to keep, its cgroup holds just the launched processes; create demands a positive epoch, restore does not |
| `DomainLifecycle.RunKeepsFrozenTree` | packages/autonomic_linux/native/autonomic_launcher/src/main.rs:556-564 | a frozen domain's tree stays as it is over any run until a thaw, checkpoint or destroy addresses it |
| `DomainLifecycle.FreezeHoldsTree` | packages/autonomic_linux/native/autonomic_launcher/src/main.rs:556-564 | after a freeze reply the tree stays what it was when the freeze took hold, over any run until a thaw, checkpoint or destroy addresses the domain |
| `DomainLifecycle.GenerationIsReusedIff` | packages/autonomic_linux/native/autonomic_launcher/src/main.rs:645-646 | in any state, after a destroy the next domain of that epoch takes the same number, directory and cgroup if and only if every remaining number is smaller and the number just below is still there (or it was zero) |
| `DomainLifecycle.NewestComesBack` | packages/autonomic_linux/native/autonomic_launcher/src/main.rs:1226-1243 | a domain destroyed before the next one of its epoch is made always hands on its number |
| `DomainLifecycle.SameCgroupIff` | packages/autonomic_linux/native/autonomic_launcher/src/main.rs:1167-1173 | whatever their state roots, two domains have the same cgroup if and only if episode, epoch and generation are the same |
| `DomainLifecycle.RootsShareCgroupIff` | packages/autonomic_linux/native/autonomic_launcher/src/main.rs:1167-1173 | on any disk, a new domain under one state root and a live one under another live side by side in different directories, and share a cgroup if and only if the live one has this episode and epoch and the number that is next under the new root |
| `DomainLifecycle.OneRootNeverShares` | packages/autonomic_linux/native/autonomic_launcher/src/main.rs:1167-1173 | under a single state root that never happens |
| `DomainLifecycle.StateRootsShareCgroups` | packages/autonomic_linux/native/autonomic_launcher/src/main.rs:1167-1173 | it does happen for any two different state roots: the first domains of one epoch, both live, share a cgroup |
| `RacingCreates.RacesAreFair` | packages/autonomic_linux/native/autonomic_launcher/src/main.rs:1461-1466 | however any number of launchers interleave their creates and restores, no record is overwritten, every new record was written by exactly one of them, and whoever finishes leaves its directory with a record |
| `RacingCreates.RaceOutcome` | packages/autonomic_linux/native/autonomic_launcher/src/main.rs:266-333 | from any disk in order, over any interleaving: whoever finishes has lost if and only if another launcher has won its directory, and a loser shares directory, upper and cgroup with that winner and leaves its processes in the winner's cgroup |
| `RacingCreates.UndisturbedIffAlone` | packages/autonomic_linux/native/autonomic_launcher/src/main.rs:293-312 | where each launcher starts processes of its own and nobody is between making its directory and entering the cgroup, a launcher has the upper and cgroup an undisturbed create or restore leaves if and only if nobody else made its directory |
| `RacingCreates.RaceWithLoser` | packages/autonomic_linux/native/autonomic_launcher/src/main.rs:266-333 | such races exist from every disk in order: a create wins against a restore, and its upper, promised empty, holds the loser's snapshot, its cgroup the processes of both |
| `RacingCreates.DrawCollidesIff` | packages/autonomic_linux/native/autonomic_launcher/src/main.rs:278-292 | a launcher draws the directory of another if and only if it asks for the same episode and epoch while the other's number is still next in line, which ends when its directory is made |
| `RacingCreates.UndisturbedIsCreate` | packages/autonomic_linux/native/autonomic_launcher/src/main.rs:266-333 | the four phases of one launcher without interruption are the create or restore of the sequential model |
| `Checkpoints.RunKeepsStore` | packages/autonomic_linux/native/autonomic_launcher/src/main.rs:583-586 | no step of any run changes or removes an existing checkpoint |
| `Checkpoints.SealedExactlyUnlessSpoiled` | packages/autonomic_linux/native/autonomic_launcher/src/main.rs:572-587 | one step from a store whose entries at checkpoints/E/D all digest to D keeps it so if and only if it is not a fresh checkpoint made by a copy that lost the digest |
| `Checkpoints.RunSealedIff` | packages/autonomic_linux/native/autonomic_launcher/src/main.rs:572-587 | over every run every reachable entry at checkpoints/E/D digests to D if and only if no step of the run, judged in its own state, is such a checkpoint |
| `Checkpoints.CheckpointNamesTree` | packages/autonomic_linux/native/autonomic_launcher/src/main.rs:566-600 | a checkpoint succeeds exactly for a correctly fenced domain that freezes and thaws and whose tree is copied now or has a directory of that name; its reply then names the digest of the tree at that moment and an existing directory, and the domain is left thawed even if it was frozen before |
| `Checkpoints.RestoreIsVerified` | packages/autonomic_linux/native/autonomic_launcher/src/main.rs:347-380 | an accepted restore had a directory digesting to the requested value, and the new upper holds what the copy delivered and nothing else, because there was no upper before |
| `Checkpoints.RestoreAcceptedIff` | packages/autonomic_linux/native/autonomic_launcher/src/main.rs:347-380 | a restore succeeds exactly when the request is well formed, the directory has the requested digest, the copy completes and the launch comes up; a missing directory or another digest is refused with no effect at all |
| `Checkpoints.CheckpointIsRestorableIff` | packages/autonomic_linux/native/autonomic_launcher/src/main.rs:572-587 | whether a checkpoint can be restored is settled before it is made, by the digest of the directory already there or else of what the copy will deliver: after any run a restore from it succeeds exactly then |
| `Checkpoints.CheckpointThenRestore` | packages/autonomic_linux/native/autonomic_launcher/src/main.rs:347-380 | checkpoint, any run in between, restore: the new upper has the digest of the checkpointed tree, hence the same hashed content or an explicit hash collision, and it is that very tree when the checkpoint was fresh and both copies exact |
| `Checkpoints.AbortedCopyPoisonsCheckpoint` | packages/autonomic_linux/native/autonomic_launcher/src/main.rs:583-586 | where the naming fails: after an aborted copy the next checkpoint of the same tree reports success for a directory whose digest is not its name |
| `Launcher.Registry.EnsureLoaded` | packages/autonomic_linux/native/autonomic_launcher/src/main.rs:652-697 | on any disk the map lookup and the directory scan, in any listing order, load a matching record that passes validation or refuse because none matches or one fails it; in a valid state that is the specified loading |
| `Launcher.Registry.NextFreeGeneration` | packages/autonomic_linux/native/autonomic_launcher/src/main.rs:1221-1243 | the loop over the listing computes the next generation |
| `Launcher.Registry.MakeCgroupDirs` | packages/autonomic_linux/native/autonomic_launcher/src/main.rs:1088-1102 | level by level the missing prefixes are created, nothing else |
| `Launcher.Registry.CreateDomainCommon` | packages/autonomic_linux/native/autonomic_launcher/src/main.rs:266-333 | directory, upper as it is found with the snapshot merged in, cgroup, record and map entry as specified, for every way a launch can fail |
| `Launcher.Registry.CreateDomain` | packages/autonomic_linux/native/autonomic_launcher/src/main.rs:213-264 | the whole new state and the reply of a create |
| `Launcher.Registry.RestoreDomain` | packages/autonomic_linux/native/autonomic_launcher/src/main.rs:347-380 | the whole new state and the reply of a restore |
| `Launcher.Registry.CheckpointDomain` | packages/autonomic_linux/native/autonomic_launcher/src/main.rs:566-600 | freeze, digest, copy unless present, thaw: the whole new state and the reply, also without a cgroup or upper |
| `Launcher.Registry.RemoveCgroups` | packages/autonomic_linux/native/autonomic_launcher/src/main.rs:637-644 | the loop terminates and leaves the specified cgroup tree |
| `Launcher.Registry.DestroyDomain` | packages/autonomic_linux/native/autonomic_launcher/src/main.rs:614-650 | the whole new state and the reply of a destroy that empties the cgroup or times out |
| `Launcher.Registry.ActOn` | packages/autonomic_linux/native/autonomic_launcher/src/main.rs:143-153 | every action behind the fence has its specified effect, also on a domain whose cgroup is gone: exec, freeze and checkpoint fail, signal, inspect and destroy find no process |
| `Launcher.Registry.HandleRequest` | packages/autonomic_linux/native/autonomic_launcher/src/main.rs:122-154 | dispatch keeps the invariant and produces the specified new world and reply |
| `TreeDigest.CollectPaths` | packages/autonomic_linux/native/autonomic_launcher/src/main.rs:1283-1297 | the recursive walk appends every path below the directory in listing order |
| `TreeDigest.RecordLayout` | packages/autonomic_linux/native/autonomic_launcher/src/main.rs:1257-1277 | a record is the path joined by slashes as text, a zero byte, four bytes of mode and eight of size, most significant first, then the link target as text or the file's content |
| `TreeDigest.ModeIs` | packages/autonomic_linux/native/autonomic_launcher/src/main.rs:1259-1259 | the type bits of each kind of object |
| `PathOrder.PathOrderIs` | packages/autonomic_linux/native/autonomic_launcher/src/main.rs:1252-1252 | paths are sorted component by component, each component byte by byte, the shorter first |
| `CopyTree.MergeHolds` | packages/autonomic_linux/native/autonomic_launcher/src/main.rs:1299-1310 | path by path what a copy into a directory leaves: what the source has, with its permissions; where it has nothing what was there, except below what it replaced |
| `TreeDigest.SortedPathsListTree` | packages/autonomic_linux/native/autonomic_launcher/src/main.rs:1250-1252 | walk plus sort lists every existing path once, in the one sorted order |
| `TreeDigest.DigestTree` | packages/autonomic_linux/native/autonomic_launcher/src/main.rs:1249-1281 | the digest is the hash of the specified stream, for every sequence of short file reads |
| `TreeDigest.StreamDecodes` | packages/autonomic_linux/native/autonomic_launcher/src/main.rs:1249-1281 | whatever bytes names and link targets are made of, two trees without a pair of records that can be confused are hashed from the same bytes if and only if they list the same lines of path text, mode, size and body in digest order |
| `TreeDigest.ToldApartIff` | packages/autonomic_linux/native/autonomic_launcher/src/main.rs:1257-1277 | two records read back as what they are, whatever follows them, if and only if they do not agree in path text, mode and size with one body continuing the other |
| `TreeDigest.StreamIsCanonicalAndInjective` | packages/autonomic_linux/native/autonomic_launcher/src/main.rs:1249-1297 | two trees with UTF-8 names and link targets are hashed from the same bytes if and only if they have the same paths, modes with file types, sizes, contents and link targets; listing order never shows |
| `TreeDigest.EqualDigests` | packages/autonomic_linux/native/autonomic_launcher/src/main.rs:1249-1281 | equal digests mean the same content, or else two different streams with the same hash |
| `TreeDigest.UnreadAttributesAreUnread` | packages/autonomic_linux/native/autonomic_launcher/src/main.rs:1257-1261 | any two trees that differ only in device numbers, owners, times and extended attributes are hashed from the same bytes |
| `TreeDigest.RecordsCollideIff` | packages/autonomic_linux/native/autonomic_launcher/src/main.rs:1257-1261 | two records are the same bytes if and only if the paths read the same as text and the objects look the same; for names that are not UTF-8 that is less than the same path |
| `TreeDigest.UnsizedTargetsCollide` | packages/autonomic_linux/native/autonomic_launcher/src/main.rs:1259-1268 | a link target that is not UTF-8 grows when replaced and can run over into the next name: two whole trees of different content and listing are hashed from the same bytes, so a digest comparison takes either for the other without a hash collision |
| `TreeDigest.LossyNamesCollide` | packages/autonomic_linux/native/autonomic_launcher/src/main.rs:1257 | two whole trees, one file named 0xFF and one named 0xFE, are hashed from the same bytes and do not have the same content |
| `Base64.DecodeBase64` | packages/autonomic_linux/native/autonomic_launcher/src/main.rs:1517-1563 | the loop returns Ok(b) exactly when the input is the canonical encoding of b (sections 3.5 and 4 of RFC 4648) |
| `Base64.DecodeOfEncode` | packages/autonomic_linux/native/autonomic_launcher/src/main.rs:1517-1563 | decoding an encoding gives back every byte string |
| `Base64.EncodeOfWholeDecode` | packages/autonomic_linux/native/autonomic_launcher/src/main.rs:1544-1549 | whatever decodes is canonical: non-zero pad bits, inner padding and foreign bytes are rejected |
| `Base64.ErrorIs` | packages/autonomic_linux/native/autonomic_launcher/src/main.rs:1529-1550 | which error: the length if it is no multiple of four, else that of the first chunk that does not decode, a foreign symbol before bad padding |
| `Base64.PackedOctets` | packages/autonomic_linux/native/autonomic_launcher/src/main.rs:1551-1558 | the bytes of the packed 24-bit number are the octets the sextets spell |
| `Base64.GroupSpells` | packages/autonomic_linux/native/autonomic_launcher/src/main.rs:1517-1563 | the encoder's symbols spell the same string of bits as the octets, filled with zeros, and pads stand exactly for the sextets not needed (section 4 of RFC 4648) |
| `Base64.AlphabetIs` | packages/autonomic_linux/native/autonomic_launcher/src/main.rs:1518-1527 | the alphabet of Table 1 of RFC 4648 |
| `Base64.GroupAt` | packages/autonomic_linux/native/autonomic_launcher/src/main.rs:1534-1560 | every three octets become the four symbols in the same place |
| `Frames.ReadFrame` | packages/autonomic_linux/native/autonomic_launcher/src/main.rs:1488-1502 | for every sequence of short reads, in the four bytes themselves: None exactly when fewer than four bytes remain, an error for a length of zero or above 1048576 or for a short payload, else the payload with nothing read beyond it |
| `Frames.WriteFrame` | packages/autonomic_linux/native/autonomic_launcher/src/main.rs:1504-1514 | refuses exactly the payloads above 4194304 bytes, else appends the length, most significant byte first, and the payload |
| `Frames.Daemon` | packages/autonomic_linux/native/autonomic_launcher/src/main.rs:91-119 | one reply frame per request frame in request order, up to the first reply too large to send: what is no JSON is told so, every other request is handled in the state all requests before it left; the exit tells how the input ended |
| `Frames.UnparsableIsHarmless` | packages/autonomic_linux/native/autonomic_launcher/src/main.rs:98-107 | leaving out the payloads that do not parse leaves the other replies as they are |
| `Frames.FramesRoundTrip` | packages/autonomic_linux/native/autonomic_launcher/src/main.rs:1488-1514 | reading concatenated frames gives exactly the payload list and then stops where the tail stops |
| `Frames.ReadAllConsumesFrames` | packages/autonomic_linux/native/autonomic_launcher/src/main.rs:1488-1502 | conversely every stream is the frames it was read as plus a part that is no frame |
| `Frames.ConversationRoundTrip` | packages/autonomic_linux/native/autonomic_launcher/src/main.rs:91-119 | a client whose replies all fit reads back exactly the replies to its requests |
| `Streams.ReadLimited` | packages/autonomic_linux/native/autonomic_launcher/src/main.rs:1468-1486 | returns the first min(total, limit) bytes, reports truncation exactly when the total exceeds the limit, and drains the stream, for every sequence of short reads |
| `Streams.RecvExact` | examples/16_worker_sdk_python/worker_sdk.py:59-65 | returns exactly the next bytes without over-reading and fails exactly when the stream ends first, for every sequence of short reads |
| `ExecOutput.LossyEscapeAtMostSixfold` | packages/autonomic_linux/native/autonomic_launcher/src/main.rs:525-530 | lossy UTF-8 decoding followed by JSON escaping never grows child output more than sixfold |
| `ExecOutput.SixfoldIsReached` | packages/autonomic_linux/native/autonomic_launcher/src/main.rs:525-530 | and control bytes reach that bound |
| `ExecOutput.ReplyFits` | packages/autonomic_linux/native/autonomic_launcher/src/main.rs:19-21 | the whole reply, built from output within MAX_OUTPUT, is below MAX_RESPONSE |
| `ExecOutput.ReplyReadsBack` | packages/autonomic_linux/native/autonomic_launcher/src/main.rs:526-531 | a JSON reader finds the decoded standard output and error, each truncation flag, and every fact about the process under its own name |
| `Json.RenderReads` | packages/autonomic_linux/native/autonomic_launcher/src/main.rs:1504-1508 | every JSON value written as serde_json writes it is read back by a reader after RFC 8259, which stops where the writer did |
| `Json.EscapedIsInert` | packages/autonomic_linux/native/autonomic_launcher/src/main.rs:526-531 | between the quotes there is no control byte and no quote without a backslash before it |
| `Utf8.IsUtf8Iff` | packages/autonomic_linux/native/autonomic_launcher/src/main.rs:529-530 | text is taken as valid if and only if it is what encoding Unicode scalar values gives (section 3 of RFC 3629) |
| `Utf8.ReplacedPartIsMaximal` | packages/autonomic_linux/native/autonomic_launcher/src/main.rs:529-530 | what one replacement character stands for is a single byte or the start of a character, and never could be longer |
| `ExecOutput.AnswerExec` | packages/autonomic_linux/native/autonomic_launcher/src/main.rs:496-531 | whatever the child wrote, both pipes are drained and the reply with the first 262144 bytes of each and the exact truncation flags is sent, never refused for size |
| `HelperOptions.ParsePairs` | packages/autonomic_linux/native/autonomic_launcher/src/main.rs:1327-1338 | Ok exactly for even lists with distinct keys beginning with two dashes in the even places, and then the map holds exactly each key with the argument after it |
| `HelperOptions.AcceptedIffFlattening` | packages/autonomic_linux/native/autonomic_launcher/src/main.rs:1327-1338 | the accepted lists are exactly the flattenings of well-keyed pair lists |
| `HelperOptions.HoldsIgnoresOrder` | packages/autonomic_linux/native/autonomic_launcher/src/main.rs:1331-1336 | the resulting map does not depend on the order of the pairs |
| `HelperOptions.WorkerInit` | packages/autonomic_linux/native/autonomic_launcher/src/main.rs:714-725 | succeeds exactly when all seven options are given, each path taken from the argument after its own option, and so recovers every path that `spawn_keeper` passed, whatever text the paths are |
| `HelperOptions.KeeperCommandLine` | packages/autonomic_linux/native/autonomic_launcher/src/main.rs:1028-1043 | the keeper's command line, argument by argument |
| `WorkerClient.FetchResponse` | examples/16_worker_sdk_python/worker_sdk.py:40-57 | against any server the loop succeeds if and only if the server's own answers form a verified list, and each error tells which check the next answer fails, in the order of the checks |
| `WorkerClient.VerifiedIff` | examples/16_worker_sdk_python/worker_sdk.py:40-57 | what a verified list is, chunk by chunk: the length it says, the offset the data before it adds up to, metadata kept, no empty chunk and no end marker before the last, and at the end digest and length of the whole |
| `WorkerClient.VerifiedIsUnique` | examples/16_worker_sdk_python/worker_sdk.py:40-57 | a server has at most one such list, hence one body |
| `WorkerClient.FetchFromBroker` | packages/autonomic/lib/autonomic/effect_socket.ex:148-174 | against the broker's slicing rule the client gets exactly the body back for every body and every requested chunk size, in the stated number of rounds |
| `WorkerClient.SliceIs` | packages/autonomic/lib/autonomic/effect_socket.ex:156-166 | for any offset and limit: out-of-range offsets move to the nearest end, limits to 1 or 524288, and the end is marked exactly when reached |
| `WorkerClient.RoundsIsCeiling` | packages/autonomic/lib/autonomic/effect_socket.ex:156-166 | that number is max(1, ceil(n / slice)) |
| `WorkerClient.MetadataConstantIff` | examples/16_worker_sdk_python/worker_sdk.py:45-48 | in a verified list every chunk carries the body's digest if and only if the first one is not blank, and the body's length if and only if the first one is not null |
| `WorkerClient.AnnouncedIsFinal` | examples/16_worker_sdk_python/worker_sdk.py:45-48 | whatever digest or length any chunk announces is the one the body is verified against |
| `WorkerClient.FetchBlanked` | examples/16_worker_sdk_python/worker_sdk.py:45-48 | the gap is real for every body: from any verified answers, a server that leaves the metadata out of any number of rounds before the last gets the same body accepted |
| `NodeClient.FrameParser.OnData` | examples/16_worker_sdk_python/worker_sdk.mjs:10 | each data event answers with the first frame of everything received so far, once it is complete |
| `NodeClient.Receive` | examples/16_worker_sdk_python/worker_sdk.mjs:8-12 | however the stream is cut, the request is decided at the first event that completes the four bytes of length and the message they announce: settled with the message if that is usable JSON, else an exception out of the handler and no settlement; it stays pending exactly before that |
| `NodeClient.OneShotIsStable` | examples/16_worker_sdk_python/worker_sdk.mjs:10 | later data never changes a complete message |
| `NodeClient.AgreesWithFrameReader` | examples/16_worker_sdk_python/worker_sdk.mjs:10 | for payloads of 1 to MAX_REQUEST bytes the Node parser and the launcher's reader see the same payload |
| `ObjectAdapter.Commit` | examples/13_custom_adapter_s3/run.exs:17-27 | on the strings themselves: denied exactly when the buckets differ or the key, empty if missing, does not begin with the prefix, empty if missing; otherwise confirms an equal digest, refuses a different one, creates an absent object; changes no other object |
| `ObjectAdapter.Reconcile` | examples/13_custom_adapter_s3/run.exs:29-37 | committed exactly when this digest is stored, not committed exactly when the object is absent |
| `ObjectAdapter.WriteOnce` | examples/13_custom_adapter_s3/run.exs:17-27 | over every run of commits, crashes before or after the write, and reconciliations a digest once set never changes |
| `ObjectAdapter.RunStaysInScope` | examples/13_custom_adapter_s3/run.exs:10-27 | over every run under a trusted target, every object that appears lies in its bucket under its prefix |
| `ObjectAdapter.UndisturbedIsCommit` | examples/13_custom_adapter_s3/run.exs:21-22 | reading and writing with nobody in between are the commit of the sequential model |
| `ObjectAdapter.ReconcileTellsHistory` | examples/13_custom_adapter_s3/run.exs:29-37 | from an empty store the verdict tells the history: this digest was written, nothing was, or another one was |
| `ObjectAdapter.CommitIsIdempotent` | examples/13_custom_adapter_s3/run.exs:23 | a commit replayed after any run succeeds without touching the store |
| `ObjectAdapter.UncontendedRunsNeverOverwrite` | examples/13_custom_adapter_s3/run.exs:21-22 | with read and write interleaved, runs whose commits never start against a pending writer of another digest never overwrite |
| `ObjectAdapter.OverwriteNeedsContention` | examples/13_custom_adapter_s3/run.exs:21-22 | and from such a state a commit started against one can overwrite: the condition is exact |

## Left out

- Error texts: every refusal is one reply, because warm and cold lookup agree on success and record but not on the message.
- The effect broker, the PostgreSQL store, the authority governor, the Homeostat and the system regulator: separate subsystems with their own protocols; only the slicing rule of the effect socket is used here.
- Mounts, chroot, namespaces, process spawning and signal delivery: kernel calls, kept only as their effect on trees and process sets.
- Timeouts, polling and keeper readiness: real-time behaviour, reduced to success or failure of the step; a freeze takes hold in one step, also one that reports a timeout.
- Failing launches in a race: in `RacingCreates` every keeper comes up; one that does not kills everything in its cgroup (`packages/autonomic_linux/native/autonomic_launcher/src/main.rs:1077`), in a race also the winner's processes.
- Field allow-lists, argv and environment validation and resource clamps: single-branch facts, folded into one validity flag.
- JSON of requests and of replies other than to exec: parameters of the daemon loop; arrays, fractions and surrogate pairs are not part of `Json`.
- Symbolic links in host paths: `canonicalize` is the identity on the model's paths.
- The directory and ownership of the state root itself, `exec-*.json` request files and the keeper's ready file: never read by another step.
- Launcher.Registry.EnsureLoaded: does not model a `domain.json` that fails to parse, which makes the scan give up at that entry; no step of the model writes one.
- Seccomp.FilterEnforcesPolicy: takes the deny list as a parameter and the socket and address family numbers from the x86-64 Linux ABI; the kernel's own limit on program length is not part of this model.
- TreeDigest.DigestTree: assumes a quiescent tree, as the freeze before it provides; a file changing between `lstat` and read is not modelled.
- Interleavings of destroy, exec, freeze or checkpoint with other requests: only creates and restores are interleaved, in `RacingCreates`.
- `CopyTree.Merge` lets a copy replace an entry of another type, where `cp` stops with an error; the destination is always empty, as proved.
- WorkerClient.FetchResponse: a server that answers forever never lets the loop end, so the server hangs up after a given number of rounds, any number.
- ObjectAdapter.Commit: a missing digest (nil) is not modelled; the broker always computes one.
- Base64 and JSON libraries of the Python client, and its request encoding: external.
