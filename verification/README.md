# A verified model of Beetroot's fleet state

Beetroot runs a fleet of Android instances on one host. Each instance is a directory with a
`beetroot.yaml`, a row in a registry shared by every `beetroot` process, a set of host ports, and, for
`binder: vm`, a QEMU guest with a warm-boot cache. This project models the parts of Beetroot that keep
that state consistent and proves what they promise. `dafny verify dfyconfig.toml` checks everything.

| File | Part of Beetroot | Main result |
|---|---|---|
| `Ports.dfy` | host-port allocation | exactly when a ports list resolves; default fleets never collide |
| `Registry.dfy` | the registry file and its locked operations | read/write/read is the identity; indices stay distinct; exact capacity |
| `Collision.dfy` | announce, then check, over all interleavings | two passed checks that still stand share no host port; exactly when an undisturbed command is refused; fleets that pin nothing never fail the collision check |
| `CacheIdentity.dfy` | the bytes hashed into a cache identity | the encoding is uniquely decodable and ignores input order |
| `BootCache.dfy` | `_up_cached` with a crash between any two file operations | every warm launch resumes a fully booted checkpoint of the current identity; which `up`s leave a guest behind |
| `Directories.dfy` | create, register, restore, destroy, reset over a file tree | the exact outcome of each operation; registered directories stay an antichain; bystanders keep every file |
| `Qemu.dfy` | the QEMU command line and the PID guard | every knob reaches its own option; the port token identifies the launch; signals reach only the own QEMU |
| `FridaDownload.dfy` | the streaming `.xz` download | terminates, publishes only a complete stream, leaves no temp file |
| `Config.dfy` | loading, migrating and writing `beetroot.yaml` | exactly which documents load, and to what; load/dump/load is a fixpoint; a legacy mapping means its pins |
| `ModuleStaging.dfy` | staging module zips | exactly when staging succeeds; distinct names in order; re-staging is idempotent; exactly when un-staging works |
| `AdbInstall.dfy` | the batch install over adb | one row per attempt, no unguarded push, every push cleaned up |
| `Bench.dfy` | ratios and regressions | runner speed cancels; any backends' slowdown is reported exactly |
| `Text.dfy`, `Prelude.dfy` | decimals, NUL-terminated fields, substrings; options and results | |

Code that changes state is modelled by classes and methods proved against specification functions;
code made of expressions is modelled by functions. What the environment decides (a crash, a tool that
fails, a device's answer, another process) is a nondeterministic choice, a parameter, or a step of a
transition system.

## What the proofs show about the code

- **The identity does not record which file is the kernel.** `base_identity` sorts its two inputs, so
  exchanging two different files keeps the identity (`CacheIdentity.SwapIsInvisible`). Equal
  identities mean equal inputs up to that exchange (`CacheIdentity.IdentityPinsInputs`).
- **A cold boot can run on a dirty overlay.** When the first snapshot probe of an `up` finds the
  snapshot and the second one fails, the overlay is kept and cold-booted (`BootCache.DirtyColdBoot`).
  `BootCache.Host.UpCached` states that this is the only case.
- **The PID guard needs `qemu-system` on the command line.** With `BEETROOT_QEMU_BIN` renamed so that neither the
  binary nor a path spells it, an instance never recognises its own guest (`Qemu.RecognisedExactly`,
  `Qemu.RenamedIsNeverRecognised`). Then an `up` whose first ADB connect is refused raises and leaves a live guest
  without a pidfile, no stop reaches it, and every further `up` fails on its port (`BootCache.UnrecognisableStrands`).
  `BootCache.Host.UpCached` states, for undisturbed `up`s that raise from a launch or its ADB wait, that a guest is left
  exactly when it cannot be recognised and killed. A guard without a port accepts a sibling's QEMU
  (`Qemu.OrphanCheckAcceptsSiblings`).
- **A pidfile that cannot be written strands its guest.** The write follows the spawn, outside every cleanup: `up`
  raises and leaves a live QEMU, recognisable or not, that no stop finds (`BootCache.UnwritablePidfileStrands`). Every
  other raise takes down a guest that can be stopped, but for an abort of the boot poll (`BootCache.Host.UpCached`).
- **A recycled PID with an undecodable command line blocks every stop.** The guard reads the command line as text and
  catches only a failing read, so `terminate` raises before it removes the pidfile (`Qemu.UndecodableBlocksStops`;
  `Qemu.Machine.Terminate` gives the exact condition).
- **Editing the ADB port strands a running guest.** A stop for the new port neither recognises nor signals it, and
  still removes its pidfile (`BootCache.PortEditStrands`).
- **A row without a dict `backend` frees its index.** It is passed over on every read, so its index goes to the next
  instance that is added (`Registry.FreedIndexIsReused`; `Registry.UsedAfterRead` and `Registry.NamesKeptExactly` say
  exactly which indices and names a read keeps).
- **A failed allocation leaves the directory behind.** `add_allocating` runs before the rollback block of create and
  restore. With 1296 instances registered (`Registry.FullExactly`), a create leaves its directory and YAML, and the same
  create is then refused because of that YAML even when an index has become free (`Directories.FullFleetLeavesDebris`);
  a forced restore has by then emptied its target (`Directories.FullFleetEmptiesTarget`).
- **A module kept inside `modules/` is never staged.** Its zip is wiped before it is read. The staging then fails,
  unless an earlier module was staged under that name and any pinned digest is that module's: then it succeeds with that
  module's content in its place (`ModuleStaging.StagingSucceedsExactly`, `ModuleStaging.ContentFromElsewhere`,
  `ModuleStaging.SilentReplacement`).
- **An explicit empty `ports: []` never loads**, although a comment calls it a deliberate "forward nothing": the required
  adb mapping refuses it (`Config.EmptyMappingMeansDefaults`).
- **A staged file whose name does not end in `.zip` survives its removal from the list** (`ModuleStaging.NonZipLingers`; `ModuleStaging.UnstagesExactly` gives the exact condition).

## Model

| member | source | states |
|---|---|---|
| `Ports.ResolvePorts` | src/beetroot/ports.py:194-235 | the allocator loop returns, for every list and index, the position-by-position reference resolution or the error that comes first |
| `Ports.ResolveSucceedsExactly` | src/beetroot/ports.py:194-235 | a validated list resolves at an in-range index iff at most STRIDE arbitrary entries are unset and no explicit pin is the port some unset entry would get |
| `Ports.ResolvedShape` | src/beetroot/ports.py:161-235 | on success: input order and length, pins honoured, distinct hosts, the stride port for an unset well-known entry, and for the k-th unset arbitrary entry slot k of the index |
| `Ports.WellKnownInNumbers` | src/beetroot/ports.py:194-215 | without a pin adb, frida and frida_control resolve to 5555, 27042 and 27043 plus ten times the index and any other entry into 40000..40009 plus that; an index outside 0..1295 is refused |
| `Ports.SlotsExactly` | src/beetroot/ports.py:205-214 | as many slots are drawn before an entry as entries before it have neither a host nor a well-known service |
| `Ports.DistinctExactly` | src/beetroot/ports.py:216-235 | the self-collision check fails exactly when a pin sits on an automatic port |
| `Ports.ScanKeepsPins` | src/beetroot/registry.py:957-962 | whether or not a sibling resolves, the scan still charges it with every host port it pins |
| `Ports.SiblingPortsExactly` | src/beetroot/registry.py:957-962 | a directory sibling is charged with exactly the ports it resolves to; one that does not resolve, with exactly its pins and 5555, 27042 and 27043 plus ten times its index; the scan fails iff its index is not within 0..1295 |
| `Ports.BandsDisjoint` | src/beetroot/ports.py:46-79 | the bands of two in-range indices share no port and lie in 1024..65535 |
| `Ports.AutoStaysInBand` | src/beetroot/ports.py:197-215 | an instance that pins nothing resolves inside its own band |
| `Ports.DefaultFleetsNeverCollide` | src/beetroot/registry.py:957-992 | two instances that pin nothing have disjoint unprivileged ports, even when one falls back because it cannot resolve |
| `Ports.CapIsLargest` | src/beetroot/ports.py:65-79 | the cap, 1295, is the largest index that keeps the well-known bands below the pool and the pool within TCP range |
| `Ports.FindPortCollision` | src/beetroot/registry.py:969-992 | no hit iff all sibling sets are disjoint from the new ports; a hit is the first in the nested order |
| `Ports.LowestFree` | src/beetroot/ports.py:259-266 | the result is free, everything below it is used, and it is at most the number of used indices |
| `Ports.LowestFreeIndex` | src/beetroot/ports.py:259-266 | the loop ends and finds the lowest free index |
| `Ports.ExhaustedExactly` | src/beetroot/ports.py:137-158 | the lowest free index is past the cap iff 0..1295 are all used |
| `Registry.RowRoundTrip` | src/beetroot/registry.py:238-300 | a row written and parsed is the same row, whatever its backend kind |
| `Registry.ReadFromExactly` | src/beetroot/registry.py:260-280 | for each known kind, the stored objects it is read from, key by key: only a redroid row's stealth layout may be left out |
| `Registry.WriteThenRead` | src/beetroot/registry.py:594-613 | every document a write produces is accepted and reads back as the rows written |
| `Registry.ReadWriteRead` | src/beetroot/registry.py:537-551 | for every accepted document, reading, writing and reading again changes nothing and no row's index moves |
| `Registry.OpaqueVerbatim` | src/beetroot/registry.py:474-493 | a backend of unknown kind, or one its kind rejects, is written back verbatim |
| `Registry.NamesKeptExactly` | src/beetroot/registry.py:541-551 | a read/write cycle keeps every name iff every row has a dict backend |
| `Registry.UsedAfterRead` | src/beetroot/registry.py:541-551 | after a read exactly the indices of the rows with a dict backend are taken |
| `Registry.FreedIndexIsReused` | src/beetroot/registry.py:541-546 | the index of a row whose backend is no dict goes to the next instance that is added |
| `Registry.ParseRows` | src/beetroot/registry.py:541-551 | the reader's loop keeps exactly the shaped rows, and gives up iff one of them has unusable meta |
| `Registry.AddKeepsInv` | src/beetroot/registry.py:738-758 | an allocation keeps indices distinct and within the cap |
| `Registry.RunKeepsInv` | src/beetroot/registry.py:738-866 | so does every interleaving of adds, removals, reconciliations and stealth updates |
| `Registry.RunKeepsRow` | src/beetroot/registry.py:761-866 | a row keeps index, directory and creation time as long as nobody removes it |
| `Registry.AllocationFailsExactly` | src/beetroot/registry.py:738-751 | a fresh name is refused iff indices 0..1295 are all registered |
| `Registry.AddedExactly` | src/beetroot/registry.py:738-758 | a fresh name gets the smallest index in 0..1295 that no row holds, with backend and time as given; NameTaken iff the name is registered, OutOfIndices iff it is not and all 1296 are held |
| `Registry.ReconciledExactly` | src/beetroot/registry.py:845-866 | a redroid or vm row is vm afterwards iff that is wanted, with path, index and time kept; only becoming redroid drops a stealth layout; every other row is unchanged, and something changes iff the kind differed |
| `Registry.FullExactly` | src/beetroot/registry.py:738-751 | with distinct indices within the cap there are at most 1296 rows, and a fresh name is refused iff there are that many |
| `Registry.ReconcileThereAndBack` | src/beetroot/registry.py:859-864 | flipping the kind there and back drops the stealth layout, and restores the row iff there was none |
| `Registry.RegistryFile.Lock` | src/beetroot/registry.py:352-386 | taking the lock seeds a missing file and changes no row |
| `Registry.RegistryFile.Read` | src/beetroot/registry.py:496-551 | a readable file is read without being touched; an unreadable one, and any whose version is not 3, is moved to the backup and reads as empty |
| `Registry.RegistryFile.Write` | src/beetroot/registry.py:554-613 | what is written is what the next reader gets |
| `Registry.RegistryFile.AddAllocating` | src/beetroot/registry.py:738-758 | exactly one new row, as `AddedExactly` says, or the refusal it says with no row changed; indices stay distinct |
| `Registry.RegistryFile.Remove` | src/beetroot/registry.py:761-774 | exactly that row goes |
| `Registry.RegistryFile.SetStealthPaths` | src/beetroot/registry.py:777-819 | succeeds iff the row is redroid; then that row holds the layout given, with path, index and time kept, and nothing else changes |
| `Registry.RegistryFile.ReconcileBackendKind` | src/beetroot/registry.py:845-866 | the rows change as `ReconciledExactly` says, and the answer is true iff the row's kind was the other one |
| `Collision.SnapshotOk` | src/beetroot/registry.py:926-940 | a snapshot of the rows taken for a scan knows every row that stood before it |
| `Collision.ReadSiblingOk` | src/beetroot/registry.py:940-966 | reading one sibling at a time keeps what the scan knows true of the siblings that have not changed since the snapshot |
| `Collision.StepKeepsInv` | src/beetroot/registry.py:926-1025 | every atomic step of every process, external edits and removals included, keeps the protocol invariant |
| `Collision.RunKeepsInv` | src/beetroot/api.py:668-681 | so does every run from any state that satisfies it |
| `Collision.ClearOfSettled` | src/beetroot/registry.py:995-1025 | one passed check suffices against every sibling, adb rows included, that settled before the scan began |
| `Collision.ClearOfAdbDevices` | src/beetroot/registry.py:963-965 | no port of an instance whose passed check stands is 5555, 27042 or 27043 plus ten times the index of an adb row that settled before it scanned |
| `Collision.ClearOfDirectories` | src/beetroot/registry.py:957-962 | nor is it a port a settled directory sibling resolves to; nor, of one that cannot resolve, a pin or one of those stride ports |
| `Collision.LaterScanSeesEarlier` | src/beetroot/backends/vm.py:158-166 | of two passed checks the later scan has seen the earlier instance |
| `Collision.AnnounceThenCheckIsSafe` | src/beetroot/api.py:668-681 | in every interleaving, two instances that both passed and stand as they did when they scanned resolve to disjoint host ports |
| `Collision.ResolvedHostsDiffer` | src/beetroot/api.py:668-681 | the same in terms of the registry and the YAML files: both are registered, load and resolve, and no two of their resolved hosts are equal |
| `Collision.ScanExactly` | src/beetroot/registry.py:940-992 | reading the remaining siblings and deciding refuses iff a port scanned, or one still to be scanned, is the command's own, or a sibling cannot be read |
| `Collision.UndisturbedCheckExactly` | src/beetroot/registry.py:995-1025 | left alone, a check refuses iff its own ports do not resolve, or some other row has an index past the cap, a YAML that does not load, or one of its ports: for an adb row the stride ports, for a directory what it resolves to or else its pins and stride ports |
| `Collision.UndisturbedCreate` | src/beetroot/api.py:650-681 | left alone, a create writes its YAML, takes the lowest free index, and is refused iff there is none, its ports do not resolve there, or a registered instance objects to them |
| `Collision.UndisturbedApply` | src/beetroot/api.py:1031-1057 | left alone, an apply changes no row and no YAML, and is refused iff its YAML does not load, its name is not registered for its directory, its ports do not resolve, or another instance objects to them |
| `Collision.RowStepsAreRegistrySteps` | src/beetroot/registry.py:738-866 | the row steps of the protocol are the registry's locked operations as a scan sees them |
| `Collision.StepRows` | src/beetroot/registry.py:738-774 | every step does to the rows exactly what its registry operation does, and a step without one leaves them alone |
| `Collision.StepYamls` | src/beetroot/api.py:650-661 | a YAML file changes only by the write of a command for that directory or by an edit of it, and then to what was written |
| `Collision.StepKeepsAuto` | src/beetroot/registry.py:926-966 | while no YAML pins a host port, what a command has seen and scanned stays apart from its own band as long as its row stands |
| `Collision.DefaultFleetsAreNeverRefused` | src/beetroot/registry.py:957-992 | in every run in which no YAML pins a host port, a command whose own row still stands is never refused when it decides |
| `CacheIdentity.Sort` | scripts/vm_cache_key.py:114-114 | sorting keeps the pairs and their multiplicities |
| `CacheIdentity.SortSorts` | scripts/vm_cache_key.py:114-114 | the result is in (basename, digest) order |
| `CacheIdentity.SortedUnique` | scripts/vm_cache_key.py:114-114 | there is one such order of the pairs, even when basenames tie |
| `Text.LexLeExactly` | scripts/vm_cache_key.py:114-114 | the order of texts: where two part, the one that ends there or has the smaller character comes first |
| `CacheIdentity.PreimageEqualExactly` | src/beetroot/vm/boot_cache.py:181-193 | two byte strings fed to the hash are equal iff the pairs, with multiplicity, and the trailing fields are |
| `CacheIdentity.IdentityEqualExactly` | src/beetroot/vm/boot_cache.py:145-193 | identities agree iff geometry, accelerator and the multiset of (basename, digest) pairs do |
| `CacheIdentity.IdentityPinsInputs` | src/beetroot/vm/boot_cache.py:145-193 | identities agree iff geometry and accelerator do and both sides name the same one file, or the same two, perhaps exchanged |
| `CacheIdentity.SwapIsInvisible` | src/beetroot/vm/boot_cache.py:180-186 | exchanging two different files keeps the identity |
| `CacheIdentity.BaseIdentity` | src/beetroot/vm/boot_cache.py:180-193 | the incremental updates feed exactly that byte string |
| `CacheIdentity.IdentityBytes` | src/beetroot/vm/boot_cache.py:180-193 | for two files in order the bytes are basename, digest, basename, digest, vCPUs, MiB and kvm or tcg, each followed by a NUL |
| `CacheIdentity.Hasher.HashFile` | scripts/vm_cache_key.py:57-82 | when path, size and mtime fix the contents over all versions seen, the memoised digest is that of the bytes now in the file |
| `CacheIdentity.DigestAll` | scripts/vm_cache_key.py:107-112 | one digest per distinct path, failing iff a file is missing |
| `CacheIdentity.FoldPairs` | scripts/vm_cache_key.py:113-118 | the fold over the sorted pairs yields the terminated fields |
| `CacheIdentity.ComputeCacheKey` | scripts/vm_cache_key.py:85-119 | a key iff there is an input and none is missing, and then the preimage of the distinct inputs |
| `CacheIdentity.KeyEqualExactly` | scripts/vm_cache_key.py:107-119 | with an injective digest, the keys of two lists, in the same or two checkouts, agree iff the multisets of (basename, contents) of their distinct files do |
| `CacheIdentity.KeyIgnoresOrder` | scripts/vm_cache_key.py:112-119 | two lists naming the same files give the same preimage, whatever their order and repetition |
| `BootCache.Host.DiscardOverlay` | src/beetroot/vm/boot_cache.py:277-285 | a crash before, between or after the two unlinks keeps the cache invariant |
| `BootCache.Host.CreateOverlay` | src/beetroot/vm/boot_cache.py:288-331 | so does a create that fails or leaves a broken file |
| `BootCache.Host.RecordIdentity` | src/beetroot/vm/boot_cache.py:196-225 | so does a crash around the temp file and the rename of the sidecar |
| `BootCache.Host.Recreate` | src/beetroot/backends/vm.py:566-571 | on success a pristine overlay of the current inputs, recorded as such |
| `BootCache.RecognisedWhenLaunched` | src/beetroot/vm/qemu.py:449-478 | an instance recognises the guest it just launched iff its binary, kernel, overlay or monitor path spells qemu-system |
| `BootCache.RenamedBinary` | src/beetroot/vm/qemu.py:472-478 | a binary under another name, with ordinary paths, cannot be recognised |
| `BootCache.Host.Down` | src/beetroot/backends/vm.py:920-924 | only a guest that the pidfile names and the guard recognises for the current port is stopped; the pidfile goes in every case |
| `BootCache.Host.Spawn` | src/beetroot/backends/vm.py:581-593 | a new guest on the overlay as it is, unless another process forwards its port; its command line has the configured binary, accelerator, kernel, overlay as qcow2, vCPUs, MiB, port and monitor, and `-loadvm beetroot-boot` iff the launch is warm |
| `BootCache.Host.Start` | src/beetroot/vm/qemu.py:502-546 | refused while the guard sees a guest of this instance; otherwise one spawn; a crash before the pidfile is written, or a write that fails, leaves a guest that no pidfile names |
| `BootCache.Host.AwaitAdb` | src/beetroot/backends/vm.py:833-890 | undisturbed: attached iff the first connect is accepted, or a later one while the guard sees the guest, and a raise stops the guest iff it is recognised and the signals get through |
| `BootCache.Host.LaunchVm` | src/beetroot/backends/vm.py:581-603 | at most one spawn; a raise from the launch or the wait adds no live guest if the guest can be stopped, and undisturbed exactly then; a pidfile that cannot be written always leaves one |
| `BootCache.Host.WaitForBootCompleted` | src/beetroot/backends/vm.py:672-699 | a true answer means that whatever guest forwards the port has booted |
| `BootCache.Host.SaveSnapshot` | src/beetroot/vm/boot_cache.py:365-397 | whether, when and in which guest of this `up` a savevm completes, and whatever it answers, the invariant holds |
| `BootCache.Host.SaveLands` | src/beetroot/vm/boot_cache.py:388-397 | a late checkpoint lands only in the overlay its guest runs on |
| `BootCache.Host.PrepareOverlay` | src/beetroot/backends/vm.py:551-571 | a fresh snapshot is kept, anything else is replaced by a pristine overlay of the current inputs |
| `BootCache.Host.FinishCold` | src/beetroot/backends/vm.py:634-651 | only after the guest on the port reported it booted is a checkpoint taken, once |
| `BootCache.Host.ColdBoot` | src/beetroot/backends/vm.py:626-651 | one cold launch on the overlay at hand; what is left alive after each way it raises |
| `BootCache.Host.UpCached` | src/beetroot/backends/vm.py:506-651 | at most one warm launch, with `-loadvm beetroot-boot`, then one cold launch, without `-loadvm`; every launch has the configured binary, accelerator, kernel, overlay as qcow2, vCPUs, MiB, port and monitor, and every new guest runs one of them; every warm launch is resumable; a cold launch is on a clean overlay except in one stated case; a raise adds no live guest that can be stopped, unless it comes from the pidfile write, which always leaves one, or the boot poll; undisturbed, it ends with a guest resumed or checkpointed as the cache says, or raises and leaves a live guest iff that guest cannot be stopped |
| `BootCache.SecondUpResumes` | src/beetroot/backends/vm.py:506-651 | after one undisturbed boot of a recognisable guest and a stop, the next undisturbed `up` with the same inputs resumes it, whether ADB accepts the first connect or a later one |
| `BootCache.Host.TryWarm` | src/beetroot/backends/vm.py:605-627 | a warm launch that fails leaves a pristine overlay of the current inputs for the one cold retry; what is left alive after each way it raises |
| `BootCache.Host.BootFrom` | src/beetroot/backends/vm.py:605-651 | from a settled overlay: nothing, one launch, or a warm and then a cold one on a pristine overlay; undisturbed, it ends as the cache and the guard decide |
| `BootCache.Campaign` | src/beetroot/backends/vm.py:506-651 | over every sequence of ups with arbitrary inputs, settings and crashes, stops, guest deaths, late checkpoints and deletions of overlay or sidecar, with guests alive that no pidfile names, every warm launch resumes a booted checkpoint of the current identity |
| `BootCache.UnrecognisableStrands` | src/beetroot/backends/vm.py:594-603 | an unrecognisable guest whose first connect is refused survives the `up` that raises and every stop, and makes each of any number of further `up`s fail on its port |
| `BootCache.UnrecognisableOutlivesItsStop` | src/beetroot/backends/vm.py:920-924 | an unrecognisable guest whose first connect was accepted is up, and no stop reaches it |
| `BootCache.UnwritablePidfileStrands` | src/beetroot/vm/qemu.py:528-546 | an `up` that cannot write its pidfile raises and leaves its guest alive, out of reach of every stop |
| `BootCache.PortEditStrands` | src/beetroot/vm/qemu.py:473-478 | once the ADB port was edited, a stop leaves the guest on the former port alive and removes its pidfile |
| `BootCache.DirtyColdBoot` | src/beetroot/backends/vm.py:560-572 | for every recognisable setting, when only the second snapshot probe fails, the guest is cold-booted on its checkpointed overlay |
| `BootCache.ResumedInputs` | src/beetroot/vm/boot_cache.py:244-274 | what such a launch resumes had booted and was built from the same geometry, accelerator and files, up to exchanging the two |
| `Directories.RmtreeSparesExactly` | src/beetroot/api.py:1592-1635 | removing a tree is harmless to a directory, whatever the files are, iff neither contains the other |
| `Directories.ConfinedSpares` | src/beetroot/snapshot.py:473-503 | work confined to one directory leaves every non-overlapping one exactly as it was |
| `Directories.WithDirsExactly` | src/beetroot/api.py:643-644 | making a directory with its parents adds exactly the missing directories on the way and keeps all that is there |
| `Directories.AddKeepsAntichain` | src/beetroot/api.py:1592-1635 | a directory the overlap guard lets through keeps the registered ones pairwise non-nested |
| `Directories.UndoCreate` | src/beetroot/api.py:1570-1589 | rolling back a create that made its directory leaves at most new ancestors of it |
| `Directories.Host.CommitOrRollBack` | src/beetroot/api.py:670-681 | a failing later stage removes the row, and the directory iff this call made it |
| `Directories.Host.AddThenStage` | src/beetroot/api.py:668-681 | a row added and then rolled back leaves exactly the rows there were before |
| `Directories.Host.Create` | src/beetroot/api.py:619-681 | the exact outcome, in the order of the checks: name taken, YAML there, overlap with a registered directory in either direction, a file on the path, 1296 rows or an unwritable registry, a failing later stage, success; the prior rows on failure, and the tree each kind of failure leaves |
| `Directories.Host.Register` | src/beetroot/api.py:714-760 | the exact outcome, likewise: no YAML, name taken, overlap, a YAML that does not load, no index, a failing later stage, success; the prior rows on failure, and the directory is never removed |
| `Directories.Host.Restore` | src/beetroot/snapshot.py:580-660 | the exact outcome, likewise: name taken, bad manifest, a file, overlap, anything below the target without force, no index, a failing later stage, success; every refusal before the allocation leaves the tree untouched, and the target is removed iff this call created it, a forced wipe included |
| `Directories.FullIsRefused` | src/beetroot/registry.py:738-751 | for a registry with these names, a fresh one is refused iff every index is taken |
| `Directories.FullFleetLeavesDebris` | src/beetroot/api.py:643-668 | in a full fleet a create that passes its guards leaves its directory and YAML, and is refused for that YAML once an index is free |
| `Directories.FullFleetEmptiesTarget` | src/beetroot/snapshot.py:601-614 | in a full fleet a forced restore fails with its target emptied |
| `Directories.Host.Destroy` | src/beetroot/api.py:1124-1147 | the row goes, and exactly the paths at or below its directory |
| `Directories.Host.Reset` | src/beetroot/api.py:1183-1191 | exactly when a reset runs, its YAML having loaded; then an empty `data` below the instance and nothing else, and a failed stop touches nothing |
| `Directories.Host.Reconcile` | src/beetroot/registry.py:859-864 | only the kind of that row changes |
| `Directories.Perform` | src/beetroot/api.py:1592-1635 | each operation keeps the antichain and, unless it destroys, resets or forgets it, any other instance's row and files |
| `Directories.Campaign` | src/beetroot/api.py:1592-1635 | over every sequential run, an instance no destroy, reset or forget names keeps its row, its directory and every file in it |
| `Qemu.NetDevToken` | src/beetroot/vm/qemu.py:329-329 | in the network argument for port q the token for p occurs iff p is q |
| `Qemu.CommandLineSays` | src/beetroot/vm/qemu.py:323-363 | read off the command line, `-smp`, `-m`, `-accel`, `-cpu`, `-kernel`, `-drive` with its format, `-netdev` with guest port 5555, `-monitor` and `-loadvm` each have exactly the value the launch asks for, and the last two are absent when it asks for none |
| `Qemu.TokenIdentifies` | src/beetroot/vm/qemu.py:449-478 | in the whole command line of a launch the token for p occurs iff the launch serves p or a text its caller chose spells that token itself |
| `Qemu.NamesQemuExactly` | src/beetroot/vm/qemu.py:472-472 | the command line says qemu-system iff the launch's own free text does: no fixed argument helps |
| `Qemu.RecognisedExactly` | src/beetroot/vm/qemu.py:449-478 | a launch is taken for instance p's own iff its free text spells qemu-system and it serves p or spells p's token itself |
| `Qemu.OwnRecognised` | src/beetroot/vm/qemu.py:472-478 | for its own port that is so whatever the paths spell |
| `Qemu.PlainIsNeverRecognised` | src/beetroot/vm/qemu.py:472-478 | a guest whose binary and paths go by other names is recognised for no port |
| `Qemu.RenamedIsNeverRecognised` | src/beetroot/vm/qemu.py:472-478 | such a launch exists |
| `Qemu.OrphanCheckAcceptsSiblings` | src/beetroot/vm/qemu.py:449-478 | without a port any QEMU is accepted |
| `Qemu.Machine.Start` | src/beetroot/vm/qemu.py:502-546 | refused while an own guest runs or the guard raises; otherwise the pidfile names the new process, which the guard recognises iff its free text spells qemu-system |
| `Qemu.Machine.Terminate` | src/beetroot/vm/qemu.py:548-587 | TERM, then KILL iff the PID still passes the guard, each unless the kernel refuses it, nothing else; no pidfile afterwards iff no look at the PID met a command line that does not decode |
| `Qemu.Machine.EscalateIfAlive` | src/beetroot/vm/qemu.py:589-612 | KILL only a process that passes the guard at the time of the kill; it raises only on a command line that does not decode |
| `Qemu.UndecodableBlocksStops` | src/beetroot/vm/qemu.py:435-447 | a stale PID whose command line does not decode makes every stop raise, send nothing and keep the pidfile |
| `Qemu.MatchedIsOwn` | src/beetroot/vm/qemu.py:449-478 | among processes that do not forge the mark, one that passes the guard is the instance's own QEMU |
| `Qemu.Campaign` | src/beetroot/vm/qemu.py:548-612 | over every sequence of stops, with exits and PID reuse in between, every signal to a process that does not forge the mark reaches the sender's own QEMU, and a stop that does not raise leaves no pidfile |
| `FridaDownload.DecodedSoFar` | src/beetroot/frida_download.py:297-323 | what is decoded after any number of chunks is a prefix of the whole, and final once the stream has ended |
| `FridaDownload.Decompressor.Decompress` | src/beetroot/frida_download.py:315-315 | any behaviour of the decompressor protocol: bounded output in order, input asked for only when drained |
| `FridaDownload.Decompressor.Round` | src/beetroot/frida_download.py:297-315 | one turn of the loop makes progress or fails, and fails only if the whole body does not end properly |
| `FridaDownload.Cache.Stream` | src/beetroot/frida_download.py:288-323 | for every chunking the loop ends; it succeeds iff the stream ends within the ceiling and the disk, with the complete output |
| `FridaDownload.Cache.CheckSha256` | src/beetroot/frida_download.py:350-365 | a mismatch, case aside, deletes the entry; a match changes nothing |
| `FridaDownload.MatchesExactly` | src/beetroot/frida_download.py:357-361 | a pinned digest is met iff the digest has its length and agrees letter by letter, up to the case of ASCII letters |
| `FridaDownload.Cache.Download` | src/beetroot/frida_download.py:270-347 | a fetch completes iff the response opens, the stream ends, its output is within 536870912 bytes and the disk, and the rename goes through; the entry is then the complete decompression, and on any failure but a digest mismatch stays as it was; no temp file survives |
| `Config.MappingRoundTrip` | src/beetroot/config.py:782-829 | a ports entry dumped and parsed is the same entry |
| `Config.ValidateDump` | src/beetroot/config.py:1326-1335 | the dump of a validated configuration validates to itself and needs no migration |
| `Config.LoadDumpLoad` | src/beetroot/config.py:1248-1335 | every accepted document of any version is written as one that loads to the same configuration with nothing left to migrate |
| `Config.LoadExactly` | src/beetroot/config.py:911-1104 | a document loads to a configuration iff it has no stealth key and a version that is absent, 1 to 7 or 8, its android and display blocks give that configuration's, every other block validates to that configuration's, and its ports, in either form or absent, give that list and pass the checks over it |
| `Config.AndroidExactly` | src/beetroot/config.py:633-698 | which android blocks are accepted, and the version, intent and vendor each gives; absent means 14, minimal, none |
| `Config.DisplayExactly` | src/beetroot/config.py:275-309 | which display blocks are accepted, and the values each gives; absent means 540x960 at 3, auto |
| `Config.PortsExactly` | src/beetroot/config.py:998-1036 | which values of ports are accepted, and the list each gives: absent or an empty mapping the three defaults, a list its entries one by one, a mapping the three services with its overrides |
| `Config.CoherentExactly` | src/beetroot/config.py:1038-1094 | the checks over the list: services, guests and pins pairwise distinct, well-known services on their guest ports, adb offered, and both frida channels with frida configured |
| `Config.EmptyDocument` | src/beetroot/config.py:911-985 | an empty document loads iff every other block has a default, to the default android, display and ports |
| `Config.LoadedPorts` | src/beetroot/config.py:1038-1094 | loaded ports meet what the allocator assumes and name adb, and with frida configured both its channels, exactly once on their own guest ports |
| `Config.VersionOnlyGates` | src/beetroot/config.py:1096-1104 | a document loads iff its version is absent, 1 to 7 or reads as 8 and the rest loads, and then means the same as without it |
| `Config.LegacyBecomesPins` | src/beetroot/config.py:998-1036 | an accepted mapping becomes the three services with its overrides as pins |
| `Config.LegacyResolves` | src/beetroot/config.py:998-1036 | at every index it resolves to its overrides with stride defaults elsewhere, failing iff an override sits on another service's default |
| `Config.EmptyMappingMeansDefaults` | src/beetroot/config.py:1008-1013 | an empty mapping loads like no ports key at all; an empty list is refused |
| `Config.Loader.Print` | src/beetroot/config.py:1277-1283 | a note is printed once for each path |
| `Config.Loader.NoteMigrations` | src/beetroot/config.py:1248-1305 | which of the two migration notes a document calls for |
| `Config.WantsExactly` | src/beetroot/config.py:1248-1305 | which documents call for each note, in terms of their keys |
| `Config.Loader.LoadYaml` | src/beetroot/config.py:1203-1323 | the load returns the validated configuration and notes exactly what it changed |
| `Config.WrittenBackIsQuiet` | src/beetroot/config.py:1248-1305 | what was loaded and written back calls for no migration note |
| `Config.AcceptedBumpIsNoted` | src/beetroot/config.py:1248-1283 | an accepted document of an older version always calls for the version note: a renamed key, which silences it, is refused |
| `ModuleStaging.UniqueDestName` | src/beetroot/modules_download.py:269-294 | terminates for every finite set of used names, with an unused name ending in the wanted one, unchanged if that was free |
| `ModuleStaging.UniqueKeepsZip` | src/beetroot/modules_download.py:292-294 | a retry ends in .zip iff the wanted name does |
| `ModuleStaging.FirstFreeName` | src/beetroot/modules_download.py:292-294 | the name chosen is the first free one of the wanted name with the position and an underscore put in front 0, 1, 2, ... times |
| `ModuleStaging.EndsExactly` | src/beetroot/modules_download.py:257-258 | what ends in a text, or in .zip, is something followed by it |
| `ModuleStaging.Modules.StageNext` | src/beetroot/modules_download.py:262-266 | one module is copied under a new name, or the directory is left alone |
| `ModuleStaging.Modules.StageForInstance` | src/beetroot/modules_download.py:255-267 | the loop leaves the directory and names of the reference staging, on errors too |
| `ModuleStaging.StagingKeepsOrder` | src/beetroot/modules_download.py:255-267 | one file per module in order, pairwise distinct names, the content of its source or, for a file kept in the directory, of the earlier module staged under its name; nothing else touched but wiped zips |
| `ModuleStaging.StagedUnderFirstFree` | src/beetroot/modules_download.py:261-266 | the i-th file is staged under the name chosen for its source, position i and the i names before it |
| `ModuleStaging.Restage` | src/beetroot/modules_download.py:239-267 | re-staging an unchanged list changes nothing, whether the staging succeeds or fails part-way |
| `ModuleStaging.UnstagesExactly` | src/beetroot/modules_download.py:257-267 | for any two lists, failing ones included: staging one over what the other left gives what staging it alone would, iff every leftover of the other is a zip or was already there |
| `ModuleStaging.RetryAfterFailure` | src/beetroot/modules_download.py:255-267 | a retry with the list corrected from the failing module on gives what staging the corrected list at once would have |
| `ModuleStaging.StagedAlike` | src/beetroot/modules_download.py:255-267 | success, names and contents of a staging do not depend on what was in the directory |
| `ModuleStaging.StagingSucceedsExactly` | src/beetroot/modules_download.py:255-267 | staging succeeds, whatever the directory holds, iff every module can be resolved and every one kept in the directory has its name, and its pinned content if any, staged by an earlier module |
| `ModuleStaging.ContentFromElsewhere` | src/beetroot/modules_download.py:257-267 | every file staged holds the content of a module from elsewhere at or before it in the list: what lay in the directory is never staged |
| `ModuleStaging.ZipsAreReplaced` | src/beetroot/modules_download.py:257-258 | no zip that was in the directory survives, on success or error, except under a name staged anew |
| `ModuleStaging.SilentReplacement` | src/beetroot/modules_download.py:261-266 | a file kept in the directory under an earlier module's name is replaced by that module, and the staging succeeds with it twice, iff no other content is pinned |
| `ModuleStaging.NonZipLingers` | src/beetroot/modules_download.py:257-258 | a staged file that is no zip stays after its module left the list |
| `AdbInstall.SegmentKeepsSound` | src/beetroot/backends/adb.py:541-592 | the commands of one module extend a sound log by a sound row |
| `AdbInstall.SegmentProbed` | src/beetroot/backends/adb.py:541-592 | a failed push, or a failed install after its removal attempt, is followed by a reachability probe, and nothing else is |
| `AdbInstall.AdbDevice.Preflight` | src/beetroot/backends/adb.py:594-622 | passes after exactly the two probes passed; otherwise the first that failed is followed by a reachability probe, and nothing else is sent |
| `AdbInstall.AdbDevice.AutoInstallOne` | src/beetroot/backends/adb.py:638-663 | host check before push; every push that went through is followed by the install and a removal attempt |
| `AdbInstall.AdbDevice.AutoInstallModules` | src/beetroot/backends/adb.py:530-592 | for every device: rows in request order, ok iff installed; no push before preflight and digest check; every failed push or install is followed by a reachability probe before the next push, and nothing else is; an abort accounts for all sources with a failed last row; temp files survive only a failed push or removal |
| `Bench.Aggregate` | scripts/bench.py:169-172 | one mean per measured backend and metric |
| `Bench.MeanExactly` | scripts/bench.py:169-172 | as many times the mean as there are values is their sum, the sum and the values of a pair being read sample by sample |
| `Bench.ComputeRatios` | scripts/bench.py:191-201 | exactly the metrics with a non-zero host mean, every backend divided by it |
| `Bench.RatiosSay` | scripts/bench.py:191-201 | each ratio times the host's mean is the backend's mean, for exactly the metrics with a non-zero host mean and the backends measured |
| `Bench.InsertSorted` | scripts/bench.py:252-252 | a finding goes in without losing any, worst first |
| `Bench.DetectRegressions` | scripts/bench.py:232-252 | every pair whose ratio grew past the factor, once, with its numbers, worst first, nothing else |
| `Bench.ReportSays` | scripts/bench.py:232-252 | a pair is reported iff both runs have it, the baseline's ratio is not zero and the growth exceeds the factor; its current and baseline ratios are those of this run and the baseline, and the factor times the baseline is the current one |
| `Bench.ScaledMeans` | scripts/bench.py:169-172 | scaling a backend's samples scales its means and no others |
| `Bench.RunnerSpeedCancels` | scripts/bench.py:175-201 | a run uniformly slower or faster by any positive factor has the very same ratios |
| `Bench.HostReportedExactly` | scripts/bench.py:187-189 | the host is reported iff the factor is below one and some metric is in both runs |
| `Bench.SlowdownIsCaughtExactly` | scripts/bench.py:204-252 | when some backends, the host among them or not, get c times slower, exactly the measured pairs whose own slowdown over the host's exceeds the factor are reported, for every factor |

## Left out

- Command line, console messages, Docker, compose, adb and qemu-img themselves: environment choices of success or failure.
- SHA-256 and its truncation to 16 hex digits: identities and keys are compared by the bytes that are hashed.
- LZMA, tar, JSON and YAML text: a lawful codec, arbitrary tree changes below a directory, and value trees; YAML floats and non-string keys are not values here.
- Lenient coercions (numeric strings, booleans as integers, date formats): parameters of the codecs, of which only the canonical forms are fixed.
- The blocks of `beetroot.yaml` no migration looks into: one abstract validator that accepts its own output, which is assumed, not derived from pydantic.
- Backend kinds registered by third parties: they read as unknown kinds.
- CacheIdentity.Hasher.HashFile: a file rewritten with the same size and mtime is outside the statement, as it is outside the code's promise.
- BootCache.Host.UpCached: inputs and settings are fixed within one `up` and change freely between two; a missing kernel or rootfs fails before any step modelled here. A QEMU whose port another guest forwards exits at once, the monitor path leads to no guest of an earlier `up` because `up` removes the socket first, and PIDs are fresh: their reuse, and a guard that raises on the process that took one over, are the subject of `Qemu.dfy`.
- Directories.Host.Create: the file-system root as an instance directory is excluded, as in Register and Restore; symlinks, permissions and a crash half way through a removal are not modelled.
- Directories.Campaign: sequential runs only, because the overlap check is not under the registry lock; the `--from-data` copy deletes `data/` before that check and is not part of the model.
- Directories.Host.Reset: the instance lock file it creates in the directory is not modelled.
- Collision.AnnounceThenCheckIsSafe: says nothing of an instance whose row or YAML changed after its last passed check; adopting an adb device makes no check at all, so adb rows are covered only as siblings that settled before a scan.
- Qemu.Campaign: the guard and the signal are one atomic step; time is counted in polls. The disk cache mode of a launch is left out because no caller sets it.
- Qemu.MatchedIsOwn: a process that spells another instance's token on its command line can be taken for it; the code has no defence against that.
- ModuleStaging.Modules.StageForInstance: fetching a module from elsewhere and its digest check are one choice of success or failure, a pinned digest of a module kept in the directory is the content it belongs to, and the eviction of a bad cached download is not modelled.
- AdbInstall.AdbDevice.AutoInstallModules: the text of rows and diagnoses, and a host file that becomes unreadable between validation and hashing.
- Bench.ComputeRatios: reals, so no rounding and no NaN.
- The decompressed-size cap of a restored archive, `inert_fields`, image tags, health checks and the build tools: they would add only easy members.
