# distinst-v2 disk manager, modelled in Dafny

distinst-v2 is the installer backend behind a DBus service. Its disk-manager crate keeps a
topology of the machine's block devices. The topology is a `BTreeMap` from device name
(`DEVNAME`) to a node, and each node is a Partition, a Disk or a DeviceMap. The crate builds
the topology from udev records, answers lookups on it, and closes and opens LUKS containers
together with the LVM volume groups stacked on them. The service layer adds these requests:

- list the locked LUKS containers;
- decrypt a container named by its filesystem UUID;
- rescan the disks;
- list the systemd-boot entries of the first vfat device.

Its frontend reports the install mode read from the recovery environment file.

The model has one module per source file, with these variations:

- `Blocks` holds the store and the read-only lookups of `disk_manager.rs`.
- `Encryption` holds `reload`, `luks_lock` and `luks_unlock`, the parts of the same file that
  change the store. They import `Udev`, so the split avoids a module cycle.
- `RustStd` holds the Rust standard-library behaviour the code relies on:
  - `strip_prefix`, `contains` and `parse::<u64>`;
  - `lines` and `split_ascii_whitespace`;
  - the byte-wise order of `String` keys;
  - `BTreeSet` insertion.
- Wrappers gives `Option` and `Result`.

The store (`Blocks.Store`) has three parts:
- an arena of nodes;
- a map from name to arena id;
- the sorted key sequence, which is the `BTreeMap` iteration order.

Child lists hold arena ids. In the source they hold `Arc` handles, so a parent keeps pointing at
the node it was given even when the name is inserted again later. The ids keep that behaviour.

`DiskManager` is a class with those three fields, and its methods update them in place. The
udev `append_*` methods change the store as they go, and so do `reload`, `luks_lock` and
`luks_unlock`. Each is a method whose contract ties the new store to a function of the old one.
The properties the source promises are proved as lemmas about those functions.

The outside world enters as parameters:

- a udev enumeration is a list of `RawRecord`s:
  - every record carries its properties and attributes;
  - each has its resolved parent `DEVNAME`;
  - a whole list is `None` when the scan fails;
- the cryptsetup and LVM commands are oracle functions;
- every call the disk manager makes is reported in order as a trace of `Encryption.Call`;
- the random mapper-name draws and the /dev/mapper existence test are a sequence and a predicate;
- a boot-entry probe is the list of entry files read from the mounted device;
- the frontend's environment file is its parsed key/value map.

`vg_deactivate(..).unwrap()` in `luks_lock` aborts the call when a volume-group deactivation
fails, and the model follows that code: the outcome `Panicked` ends the run with the store
unchanged.

## Model

| member | source | states |
|---|---|---|
| BlockTypes.KindExclusive | crates/disk-manager/src/block_types.rs:8-12 | a block device is exactly one of Partition, Disk and DeviceMap |
| BlockTypes.DeviceOfWithDevice | crates/disk-manager/src/disk_manager.rs:74-81 | `device_from_block` (`DeviceOf`) reads the one device record every kind carries; replacing that record is read back, keeps the kind, and putting back the same record is the identity |
| RustStd.StripPrefix | crates/disk-manager/src/os_probe.rs:88 | the prefix is stripped exactly when present, and prefix plus remainder gives back the string |
| RustStd.ContainsAt | crates/disk-manager/src/udev.rs:34 | a string that has the pattern at some offset contains it |
| RustStd.ContainsOccurs | crates/disk-manager/src/udev.rs:34 | a string that contains the pattern has it at some offset; with `ContainsAt`, `contains` holds exactly when the pattern occurs |
| RustStd.FindStripped | crates/disk-manager/src/os_probe.rs:86-93 | `find_map(strip_prefix)`: the remainder of the first item with the prefix, no earlier item has it, and `None` exactly when no item has it |
| RustStd.FindStrippedFirst | crates/disk-manager/src/os_probe.rs:86-93 | `find_map(strip_prefix)` gives `v` exactly when the first item with the prefix is the prefix followed by `v` |
| RustStd.ParseU64 | crates/disk-manager/src/udev.rs:215 | `parse::<u64>` accepts exactly a non-empty run of decimal digits, optionally after one `+`, whose value is below 2^64, and gives that value |
| RustStd.ParseToDecimal | crates/disk-manager/src/udev.rs:215 | `parse::<u64>` reads back every u64 written in decimal |
| RustStd.Lines | crates/disk-manager/src/os_probe.rs:87 | no resulting line contains a line feed |
| RustStd.LinesCons | crates/disk-manager/src/os_probe.rs:87 | text up to the first line feed is the first line, a `\r` before the line feed dropped, and the lines of the rest follow in order |
| RustStd.LinesLast | crates/disk-manager/src/os_probe.rs:87 | text without a line feed is one line kept whole, a final `\r` included, or no line when empty |
| RustStd.Tokens | crates/disk-manager/src/os_probe.rs:90 | every token is non-empty and free of ASCII whitespace |
| RustStd.WordLengthOf | crates/disk-manager/src/os_probe.rs:90 | a word runs up to the first ASCII whitespace character or the end |
| RustStd.TokensWord | crates/disk-manager/src/os_probe.rs:90 | a single non-empty word is one token |
| RustStd.TokensCons | crates/disk-manager/src/os_probe.rs:90 | a word, one whitespace character and the rest: the word is the first token, and the tokens of the rest follow in order |
| RustStd.LessIrreflexive | crates/disk-manager/src/disk_manager.rs:24 | no key orders before itself |
| RustStd.LessTransitive | crates/disk-manager/src/disk_manager.rs:24 | the key order is transitive |
| RustStd.LessAsymmetric | crates/disk-manager/src/disk_manager.rs:24 | two keys never order before each other |
| RustStd.LessTotal | crates/disk-manager/src/disk_manager.rs:24 | any two distinct keys are ordered one way or the other |
| RustStd.InsertSorted | crates/disk-manager/src/disk_manager.rs:146-153 | inserting into a `BTreeSet` keeps its iteration order strictly sorted and adds exactly the new element |
| RustStd.SortedBefore | crates/disk-manager/src/disk_manager.rs:24 | in key order, a key smaller than the i-th key is met before index i |
| Blocks.EmptyWellFormed | crates/disk-manager/src/disk_manager.rs:28-33 | the empty store is well formed and acyclic |
| Blocks.AppendedWellTyped | crates/disk-manager/src/block_types.rs:21 | adding a node with no children keeps every child list well typed and acyclic |
| Blocks.ReplacedWellTyped | crates/disk-manager/src/block_types.rs:21 | replacing a node with one of the same kind whose children are well typed keeps the store well typed |
| Blocks.Inserted | crates/disk-manager/src/udev.rs:186-187 | `blocks.insert`: the name now maps to the new node; every other name keeps its node; existing nodes are untouched; well formedness and acyclicity are kept |
| Blocks.WithDeviceChild | crates/disk-manager/src/udev.rs:189-196 | pushing a DeviceMap onto `device.children` changes only that list of that node, appending the child at the end |
| Blocks.WithPartition | crates/disk-manager/src/udev.rs:133-136 | pushing a Partition onto a Disk's `children` changes only that list, appending the child at the end; acyclicity is kept |
| Blocks.NoOrphansChildrenCurrent | crates/disk-manager/src/udev.rs:185-196 | when every node is the one its own name maps to, every handle in a child list, including a Disk's partitions, is the node its name maps to |
| Blocks.InsertedNoOrphans | crates/disk-manager/src/udev.rs:186-187 | inserting under a name not yet present keeps every node the one its own name maps to |
| Blocks.WithDeviceChildNoOrphans | crates/disk-manager/src/udev.rs:189-196 | pushing a child handle onto `device.children` keeps every node the one its own name maps to |
| Blocks.WithPartitionNoOrphans | crates/disk-manager/src/udev.rs:133-136 | pushing a partition handle onto a Disk keeps every node the one its own name maps to |
| Blocks.DiskManager.constructor | crates/disk-manager/src/disk_manager.rs:28-33 | a new disk manager has an empty store |
| Blocks.DiskManager.Clear | crates/disk-manager/src/disk_manager.rs:112 | `blocks.clear()` leaves the empty store |
| Blocks.DiskManager.Insert | crates/disk-manager/src/udev.rs:64-74 | the store becomes `Inserted` of the old store |
| Blocks.DiskManager.PushDeviceChild | crates/disk-manager/src/udev.rs:191 | the store becomes `WithDeviceChild` of the old store |
| Blocks.DiskManager.PushPartition | crates/disk-manager/src/udev.rs:135 | the store becomes `WithPartition` of the old store |
| Blocks.DiskManager.BlockByDevname | crates/disk-manager/src/disk_manager.rs:35-38 | a node is returned exactly when the name is a key, and it is the node stored under that name |
| Blocks.DiskManager.BlockByPartUuid | crates/disk-manager/src/disk_manager.rs:40-55 | the result is a Partition whose entry UUID matches and which comes first in key order; `None` exactly when no Partition matches |
| Blocks.DiskManager.BlockByUuid | crates/disk-manager/src/disk_manager.rs:57-72 | the result, of any kind, has a filesystem with that UUID and comes first in key order; `None` exactly when no node matches |
| Blocks.DiskManager.DmByDmName | crates/disk-manager/src/disk_manager.rs:83-94 | the result is the first DeviceMap in key order with that mapper name; `None` exactly when there is none |
| Blocks.DiskManager.DmByLvName | crates/disk-manager/src/disk_manager.rs:96-109 | the result is the first DeviceMap in key order whose `lv_name` is that name; `None` exactly when there is none |
| Udev.Property | crates/disk-manager/src/udev.rs:205-207 | a property value exactly when the record has that key, and it is the stored value |
| Udev.FileSystemOf | crates/disk-manager/src/udev.rs:227-241 | a filesystem exists exactly when both ID_FS_TYPE and ID_FS_UUID exist, and it carries those two values |
| Udev.RecordDevice | crates/disk-manager/src/udev.rs:210-224 | a device record exists exactly when DEVNAME exists and `size` parses as a u64; it carries both values, the record's filesystem and no children |
| Udev.TableOf | crates/disk-manager/src/udev.rs:38-42 | "gpt" gives Gpt, "mbr" gives Mbr, and anything else or nothing gives no table |
| Udev.Classify | crates/disk-manager/src/udev.rs:19-28 | a "disk" with DM_NAME is a DeviceMap under that name; a "disk" without it is a Disk; a "partition" is a Partition; any other devtype is ignored |
| Udev.AppendedDisk | crates/disk-manager/src/udev.rs:31-75 | appending a disk record keeps the store well formed and acyclic |
| Udev.AppendedPartition | crates/disk-manager/src/udev.rs:78-141 | appending a partition record keeps the store well formed and acyclic |
| Udev.AppendedDm | crates/disk-manager/src/udev.rs:144-201 | appending a device-map record keeps the store well formed, and acyclic unless the record names itself as its parent |
| Udev.Appended | crates/disk-manager/src/udev.rs:19-28 | appending any record keeps the store well formed, and acyclic unless the record names itself as its parent |
| Udev.Build | crates/disk-manager/src/disk_manager.rs:119-122 | appending a whole enumeration to the empty store gives a well-formed store |
| Udev.AppendedDiskFresh | crates/disk-manager/src/udev.rs:31-75 | appending a disk record whose name is new keeps every node the one its name maps to, and adds no key but the record's name |
| Udev.AppendedPartitionFresh | crates/disk-manager/src/udev.rs:78-141 | the same for a partition record, whether or not it is attached to its parent Disk |
| Udev.AppendedDmFresh | crates/disk-manager/src/udev.rs:144-201 | the same for a device-map record, whatever the kind of its parent |
| Udev.AppendedFresh | crates/disk-manager/src/udev.rs:19-28 | the same for any record |
| Udev.BuildConsistent | crates/disk-manager/src/disk_manager.rs:119-122 | when the records name distinct devices, every node of the built store, and every handle in every child list, is the node its own name maps to, and every key is some record's name |
| Udev.AppendIgnored | crates/disk-manager/src/udev.rs:26 | a record that is neither "disk" nor "partition" leaves the store as it was |
| Udev.AppendedDiskSpec | crates/disk-manager/src/udev.rs:31-75 | no device record, a name containing "loop" or no parsable sector size inserts nothing; otherwise the Disk is stored under its DEVNAME with its table, model, serial and an empty partition list, and every other key is unchanged |
| Udev.AppendedPartitionSpec | crates/disk-manager/src/udev.rs:78-141 | no device record, offset, UUID or parent inserts nothing; otherwise the Partition is stored under its name whatever the parent, its offset defaulting to 0, and it is appended to the parent's partition list only when the parent is a Disk, that list being the only change to the parent and every other node unchanged |
| Udev.AppendedDmSpec | crates/disk-manager/src/udev.rs:144-201 | no device record or parent inserts nothing; otherwise the DeviceMap is stored with its mapper, LV and VG names and appended to the `device.children` of a parent of any kind, that list being the only change to the parent and every other node unchanged; nothing is attached when the parent is absent |
| Udev.BuildAcyclic | crates/disk-manager/src/udev.rs:186-200 | when no record names itself as its parent, following `device.children` always leads to nodes created later, so it cannot loop |
| Udev.AppendedDiskNoLoopDisks | crates/disk-manager/src/udev.rs:34-36 | appending a disk record never adds a Disk whose name contains "loop" |
| Udev.AppendedNoLoopDisks | crates/disk-manager/src/udev.rs:19-28 | appending any record keeps every Disk free of "loop" in its name |
| Udev.BuildNoLoopDisks | crates/disk-manager/src/udev.rs:34-36 | after a build, no Disk is named or keyed with "loop" in its name |
| Udev.Append | crates/disk-manager/src/udev.rs:19-28 | the store becomes `Appended` of the old store and stays valid |
| Udev.AppendDisk | crates/disk-manager/src/udev.rs:31-75 | the store becomes `AppendedDisk` of the old store |
| Udev.AppendPartition | crates/disk-manager/src/udev.rs:78-141 | the store becomes `AppendedPartition` of the old store |
| Udev.AppendDm | crates/disk-manager/src/udev.rs:144-201 | the store becomes `AppendedDm` of the old store |
| Udev.BlockSlaves | crates/disk-manager/src/udev.rs:248-258 | the kept slaves are exactly the readable ones with a "block" component |
| Udev.BlockSlavesAppend | crates/disk-manager/src/udev.rs:248-258 | the filter keeps directory order: the slaves of two runs of entries are those of the first run, then those of the second |
| Udev.BlockSlavesFirst | crates/disk-manager/src/udev.rs:248-258 | the first kept slave is the first readable entry in directory order with a "block" component |
| Udev.Parents | crates/disk-manager/src/udev.rs:247-268 | a path is a parent exactly when it is a readable slave with a "block" component, or the parent directory when it has a queue |
| Udev.ParentsOrder | crates/disk-manager/src/udev.rs:247-268 | slave-derived parents come first and all have a "block" component; the parent directory comes last and only when it has a queue; the first parent is the first block slave in directory order whenever one exists |
| Encryption.Reloaded | crates/disk-manager/src/disk_manager.rs:111-123 | a reload leaves a well-formed store, and the empty store when the scan fails |
| Encryption.ReloadedConsistent | crates/disk-manager/src/disk_manager.rs:111-123 | after a reload from records with distinct names, every node and every child handle is the node its own name maps to |
| Encryption.Reload | crates/disk-manager/src/disk_manager.rs:111-123 | the store is cleared and then rebuilt from the scan's records in order |
| Encryption.WalkCovers | crates/disk-manager/src/disk_manager.rs:149-163 | the pop-and-extend loop visits exactly the nodes reachable from its initial stack |
| Encryption.WalkBelow | crates/disk-manager/src/disk_manager.rs:144-163 | started from a device's children, the walk visits exactly the DeviceMaps below that device |
| Encryption.VgsOf | crates/disk-manager/src/disk_manager.rs:146-154 | the collected VG set iterates in strictly sorted order |
| Encryption.VgsOfMembers | crates/disk-manager/src/disk_manager.rs:152-154 | the collected groups are exactly the VG names of the visited nodes |
| Encryption.LuksNamesOfMembers | crates/disk-manager/src/disk_manager.rs:156-160 | the collected names are exactly those of the visited nodes whose filesystem is crypto_LUKS |
| Encryption.TargetsOf | crates/disk-manager/src/disk_manager.rs:140-163 | the VG set is strictly sorted, and the device itself is the first container to close |
| Encryption.TargetsOfSpec | crates/disk-manager/src/disk_manager.rs:143-163 | the groups to deactivate are the sorted, distinct VG names of the DeviceMaps below the device; the containers to close are the device first, then every LUKS container below it |
| Encryption.CollectTargets | crates/disk-manager/src/disk_manager.rs:140-163 | the walk over the current store yields `TargetsOf` the device |
| Encryption.WalkTargets | crates/disk-manager/src/disk_manager.rs:144-163 | the worklist loop computes the VG set and LUKS list of the walk from its stack |
| Encryption.FirstVgFailure | crates/disk-manager/src/disk_manager.rs:165-167 | every group before the index deactivates, and the group at the index, if any, fails |
| Encryption.FirstCloseFailure | crates/disk-manager/src/disk_manager.rs:169-173 | every container before the index closes, and the container at the index, if any, fails |
| Encryption.DeactivateVgs | crates/disk-manager/src/disk_manager.rs:165-167 | groups are deactivated in order up to and including the first failure, and success means none failed |
| Encryption.CloseContainers | crates/disk-manager/src/disk_manager.rs:169-173 | containers are closed in order under one mapper name up to and including the first failure, whose error is returned |
| Encryption.PhaseOutcomes | crates/disk-manager/src/disk_manager.rs:165-178 | after the walk, the run panics exactly when some group fails to deactivate, and returns `Ok` exactly when every group deactivates and every container closes |
| Encryption.LockedWith | crates/disk-manager/src/disk_manager.rs:165-178 | after the walk, any outcome but `Ok` keeps the store; `Ok` leaves the rescanned store, the rescan being the last call; a returned error is always a cryptsetup error |
| Encryption.Locked | crates/disk-manager/src/disk_manager.rs:126-179 | `DeviceNotFound` exactly when the device is not a key, and then nothing is called; any outcome but `Ok` keeps the store |
| Encryption.LockOutcomes | crates/disk-manager/src/disk_manager.rs:126-179 | `DeviceNotFound` exactly when the device is not a key, and then nothing is called and the store is kept; a panic exactly when a group below it fails; `Ok` exactly when all groups deactivate and all containers close |
| Encryption.PhaseEffects | crates/disk-manager/src/disk_manager.rs:165-178 | after the walk, any outcome but `Ok` keeps the store and makes no rescan; `Ok` leaves the rescanned store, the rescan being the last call |
| Encryption.LockEffects | crates/disk-manager/src/disk_manager.rs:126-179 | any outcome of `luks_lock` but `Ok` keeps the store and makes no rescan; `Ok` leaves the rescanned store, the rescan being the last call |
| Encryption.LockCallOrder | crates/disk-manager/src/disk_manager.rs:143-173 | every VG deactivation precedes every other call, and once all groups are down the device itself is the first container closed |
| Encryption.PhaseOrder | crates/disk-manager/src/disk_manager.rs:165-173 | after the walk, deactivations precede closes, and the first target container is closed right after the last deactivation |
| Encryption.LockCascade | crates/disk-manager/src/disk_manager.rs:143-178 | a successful lock deactivated exactly the VGs below the device, and closed the device and every LUKS container below it, all under the given mapper name |
| Encryption.SuspendAndClose | crates/disk-manager/src/disk_manager.rs:165-178 | the outcome, trace and store are those of `LockedWith` on the old store |
| Encryption.LuksLock | crates/disk-manager/src/disk_manager.rs:126-179 | the outcome, trace and store are those of `Locked` on the old store |
| Encryption.FirstMapped | crates/disk-manager/src/disk_manager.rs:203-208 | no rescan before the index shows the mapping, and the rescan at the index, if any, does |
| Encryption.Unlocked | crates/disk-manager/src/disk_manager.rs:182-211 | `DeviceNotFound` exactly when the device is not a key, and then nothing is called; any failure keeps the store |
| Encryption.UnlockOutcomes | crates/disk-manager/src/disk_manager.rs:182-211 | `DeviceNotFound` exactly when the device is absent, with nothing called; a failure keeps the store; `Ok` exactly when the device opens and some rescan shows the mapping, leaving that store; the device is opened first, all VGs are activated next, and only rescans follow |
| Encryption.AwaitMapping | crates/disk-manager/src/disk_manager.rs:203-208 | the store is reloaded until the first rescan that shows the mapper name, one Rescan call per reload |
| Encryption.LuksUnlock | crates/disk-manager/src/disk_manager.rs:182-211 | the result, trace and store are those of `Unlocked` on the old store |
| OsProbe.ParseEntry | crates/disk-manager/src/os_probe.rs:84-93 | without an "options " line there is no UUID; a UUID found holds no whitespace |
| OsProbe.ParseEntrySpec | crates/disk-manager/src/os_probe.rs:84-93 | an entry names `u` exactly when its first line starting with "options " has, in the rest of that line, a first word starting with "root=UUID=" that is "root=UUID=" followed by `u` |
| OsProbe.ParseEntryLater | crates/disk-manager/src/os_probe.rs:84-93 | an earlier non-options line, an earlier word on the options line and any later lines are passed over |
| OsProbe.ParseEntryRoundTrip | crates/disk-manager/src/os_probe.rs:84-97 | the entry `options root=UUID=u` yields `u` for every one-word `u` |
| OsProbe.EntriesIn | crates/disk-manager/src/os_probe.rs:76-99 | at most one entry per file, all with the probed path; the UUIDs listed are exactly those of the readable files that name one |
| OsProbe.LocateBootEntries | crates/disk-manager/src/os_probe.rs:69-105 | a failed mount or directory read gives no entries, and every entry has the probed path |
| OsProbe.BootEntries | crates/disk-manager/src/os_probe.rs:26-54 | only the first Partition or Disk in key order with a vfat filesystem is probed, and its entries are returned; with no such node nothing is probed and the list is empty |
| Backend.EncryptedAmong | src/backend.rs:118-134 | at most one entry per key |
| Backend.EncryptedAmongSound | src/backend.rs:120-132 | every listed entry is a locked container from the keys, with its store key and filesystem UUID |
| Backend.EncryptedAmongComplete | src/backend.rs:120-132 | every locked container among the keys is listed |
| Backend.EncryptedAmongSorted | src/backend.rs:120-129 | keys in increasing order give entries in increasing path order |
| Backend.EncryptedDevices | src/backend.rs:111-135 | the loop lists the locked containers of the store in key order |
| Backend.EncryptedDevicesSpec | src/backend.rs:111-135 | the listing holds exactly the crypto_LUKS nodes without DeviceMap children, each once, in key order, with path and UUID |
| Backend.FirstFreeDraw | src/backend.rs:63-82 | every draw before the index names an existing mapping, and the draw at the index, if any, does not |
| Backend.GenerateMapperName | src/backend.rs:63-82 | the name is "crypt-" plus the first draw whose name does not exist yet; it is 12 characters with 6 alphanumeric ones at the end; `None` exactly when every draw supplied exists |
| Backend.WrapUnlock | src/backend.rs:94-96 | the unlock result passes through, its error wrapped |
| Backend.FirstWithUuid | crates/disk-manager/src/disk_manager.rs:57-72 | the first of the keys whose node has that filesystem UUID, `None` exactly when none has it |
| Backend.FirstWithUuidLeast | crates/disk-manager/src/disk_manager.rs:57-72 | over the sorted keys of a store, that first key is the least key in key order whose node has the UUID |
| Backend.LeastUuidUnique | crates/disk-manager/src/disk_manager.rs:57-72 | only one key is least in key order among those with the UUID |
| Backend.DecryptOutcomes | src/backend.rs:54-97 | no udev context fails first; no free name among the draws gives no result; `NoDeviceWithUuid` exactly when a name is free and no node has the UUID; none of these calls anything or changes the store, and no failure changes it |
| Backend.DecryptUnlocks | src/backend.rs:54-97 | with a udev context, the first free draw and the least key with the UUID, the run is `luks_unlock` of that key under "crypt-" and that draw, its result wrapped, and its first call opens that key under that name |
| Backend.UnlockByUuid | src/backend.rs:84-97 | the device lookup and unlock: the result, trace and store are those of `UnlockedByUuid` on the old store |
| Backend.Decrypt | src/backend.rs:54-97 | the result, trace and store are those of `Decrypted` on the old store |
| Backend.DiskRescan | src/backend.rs:99-109 | `Ok` exactly when a udev context exists, with the store reloaded; otherwise the store is unchanged |
| Frontend.Get | src/frontend.rs:76-78 | a value exactly when the key is present, and it is the stored value |
| Frontend.ModeCode | src/frontend.rs:18-25 | the four modes have the distinct codes 0 to 3 |
| Frontend.ModeOf | src/frontend.rs:74-88 | Live exactly when there is no environment file |
| Frontend.ModeSpec | src/frontend.rs:74-88 | Oem exactly when OEM_MODE is "1"; Refresh exactly when it is not and MODE is "refresh"; Recovery otherwise; Live exactly without a file |
| Frontend.ModeIgnoresOtherKeys | src/frontend.rs:74-88 | keys other than OEM_MODE and MODE never change the mode |
| Frontend.RecoveryConfig | src/frontend.rs:91-98 | fails with "no recovery config found" exactly when there is no file, and otherwise returns its whole map unchanged |
| Frontend.Submit | src/frontend.rs:30-34 | the call answers `Ok` whether the send succeeds or not; the request is queued exactly when it does |

## Left out

- I/O is not modelled: mounting and unmounting, `create_dir`, `read_dir`, `read_to_string`, and `canonicalize` and `exists` inside `parents`. Each appears as its result, given as a parameter.
- libudev is not modelled: the context, the enumerator and `from_syspath`. A record carries its parent's `DEVNAME` already resolved. A failed resolution, a missing syspath and a parent without `DEVNAME` all appear as no parent.
- `Udev.Parents` is modelled apart from the builder. The builder takes the first parent as the record's `parent` field.
- `udev_context` is reduced to a flag saying whether it succeeds.
- The one-second `sleep` in the unlock poll is not modelled, and the poll is not unbounded. It is given the successive rescans as a sequence, and a `None` result means the rescans ran out before the mapping appeared.
- Encryption.LuksUnlock: the result is `None` where the original would keep polling.
- Backend.GenerateMapperName: `rand` is modelled as a given sequence of six-character alphanumeric draws. `None` means every draw supplied already exists, where the original keeps drawing.
- `luks.rs` and `lvm.rs` are deterministic oracles `luksClose`, `activate` and `vgOk`. Only the result of `vg_activate_all` is discarded, as at disk_manager.rs:201. A failing `vg_deactivate` panics through `unwrap` at disk_manager.rs:166, which the model renders as `Panicked`.
- The key of `decrypt` is given as the byte sequence `key.as_bytes()` yields; UTF-8 encoding is not modelled.
- Encryption.LuksLock requires an acyclic store. A DeviceMap record that names itself as its parent makes a self-loop that the original walk would follow forever. `Udev.BuildAcyclic` proves that any store built from records without self-parents is acyclic.
- The qcell `TCell`/`TCellOwner` token of `lib.rs` is not modelled. Dafny's frames on the `DiskManager` class do its job.
- `Backend::os_entries` wraps `boot_entries` in `Ok` and is modelled by `OsProbe.BootEntries`.
- `Backend::os_search` and `os_probe::linux` read `/etc/os-release` from mounted partitions, which is file I/O. They are not modelled. `Request.OsSearch` is queued like the other requests.
- `main.rs` is not modelled: the event loop, the DBus set-up, `Backend::on_event`, `Backend::with` and the frontend signals.
- `Backend::reload`, the examples and the `eprintln!`/`dbg!` diagnostics are not modelled.
- The environment file is given as its parsed map. `EnvFile` parsing is not modelled.
- u64 values are bounded by `RustStd.u64`, and parsing rejects anything above 2^64-1 as `parse::<u64>` does. No arithmetic is done on them.
- Udev.BuildConsistent requires the records to name distinct devices. When a `DEVNAME` repeats, the key maps to the newer node and the older one stays in its parent's child list. The source's `Arc` handles behave the same way (udev.rs:185-196), so that case is modelled but nothing is claimed about it.
- `String` order is modelled as lexicographic order on characters. For valid UTF-8 this agrees with the byte order `BTreeMap` uses.
