/** The topology builder (`udev.rs`): it classifies one enumerated device
    record and folds it into the block store.

    A record stands for one libudev device: its devtype, its properties, its
    sysfs attributes, and the DEVNAME of its first parent. That last field
    is what `parents(syspath).next()`, `UDevice::from_syspath` and the
    parent's DEVNAME property resolve to in the original; it is `None` when
    any of those steps fails. */
module Udev {
  import opened Wrappers
  import opened RustStd
  import opened BlockTypes
  import opened Blocks

  datatype RawRecord = RawRecord(
    devtype: Option<string>,
    properties: map<string, string>,
    attributes: map<string, string>,
    parent: Option<string>)

  /** `property(device, key)`: the value of a property the record has. */
  function Property(r: RawRecord, key: string): (v: Option<string>)
    ensures v.Some? <==> key in r.properties
    ensures v.Some? ==> v.value == r.properties[key]
  {
    if key in r.properties then Some(r.properties[key]) else None
  }

  /** `device.attribute_value(key)` */
  function Attribute(r: RawRecord, key: string): Option<string> {
    if key in r.attributes then Some(r.attributes[key]) else None
  }

  /** `disk_manager_filesystem`: a filesystem only when both its type and
      its UUID are known. */
  function FileSystemOf(r: RawRecord): (fs: Option<FileSystem>)
    ensures fs.Some? <==> "ID_FS_TYPE" in r.properties && "ID_FS_UUID" in r.properties
    ensures fs.Some? ==> fs.value.fsType == r.properties["ID_FS_TYPE"] && fs.value.uuid == r.properties["ID_FS_UUID"]
  {
    match Property(r, "ID_FS_TYPE")
    case None => None
    case Some(fsType) =>
      match Property(r, "ID_FS_UUID")
      case None => None
      case Some(uuid) => Some(FileSystem(fsType, uuid))
  }

  /** `disk_manager_device`: needs a DEVNAME and a `size` attribute that
      parses as a `u64`; the new device has no children. */
  function RecordDevice(r: RawRecord): (d: Option<Device>)
    ensures d.Some? <==> "DEVNAME" in r.properties && "size" in r.attributes && ParseU64(r.attributes["size"]).Some?
    ensures d.Some? ==> d.value.name == r.properties["DEVNAME"] && d.value.size == ParseU64(r.attributes["size"]).value
    ensures d.Some? ==> d.value.fs == FileSystemOf(r) && d.value.children == []
  {
    match Property(r, "DEVNAME")
    case None => None
    case Some(name) =>
      match Attribute(r, "size")
      case None => None
      case Some(size) =>
        match ParseU64(size)
        case None => None
        case Some(n) => Some(Device(name, n, FileSystemOf(r), []))
  }

  /** The partition table named by ID_PART_TABLE_TYPE. */
  function TableOf(r: RawRecord): (t: Option<PartitionTable>)
    ensures t == Some(Gpt) <==> Property(r, "ID_PART_TABLE_TYPE") == Some("gpt")
    ensures t == Some(Mbr) <==> Property(r, "ID_PART_TABLE_TYPE") == Some("mbr")
    ensures t.None? <==> Property(r, "ID_PART_TABLE_TYPE") !in {Some("gpt"), Some("mbr")}
  {
    match Property(r, "ID_PART_TABLE_TYPE")
    case Some("gpt") => Some(Gpt)
    case Some("mbr") => Some(Mbr)
    case _ => None
  }

  /** The disk's logical sector size, `queue/logical_block_size`. */
  function SectorSize(r: RawRecord): Option<u64> {
    match Attribute(r, "queue/logical_block_size")
    case None => None
    case Some(v) => ParseU64(v)
  }

  datatype Kind = DiskKind | PartitionKind | DeviceMapKind(dmName: string) | Ignored

  /** The dispatch of `UDev::append`. */
  function Classify(r: RawRecord): (k: Kind)
    ensures k.DeviceMapKind? <==> r.devtype == Some("disk") && "DM_NAME" in r.properties
    ensures k.DeviceMapKind? ==> k.dmName == r.properties["DM_NAME"]
    ensures k == DiskKind <==> r.devtype == Some("disk") && "DM_NAME" !in r.properties
    ensures k == PartitionKind <==> r.devtype == Some("partition")
    ensures k == Ignored <==> r.devtype != Some("disk") && r.devtype != Some("partition")
  {
    match r.devtype
    case Some("disk") =>
      (match Property(r, "DM_NAME")
       case Some(dmName) => DeviceMapKind(dmName)
       case None => DiskKind)
    case Some("partition") => PartitionKind
    case _ => Ignored
  }

  /** No record names itself as its own parent (the kernel's block-layer
      ancestry never does). */
  predicate NotOwnParent(r: RawRecord) {
    r.parent.Some? && "DEVNAME" in r.properties ==> r.parent.value != r.properties["DEVNAME"]
  }

  // -------------------------------------------------------------------------
  // The effect of one record on the store

  /** `append_disk` */
  function AppendedDisk(s: Store, r: RawRecord): (t: Store)
    requires WellFormed(s)
    ensures WellFormed(t) && (Acyclic(s.arena) ==> Acyclic(t.arena))
  {
    match RecordDevice(r)
    case None => s
    case Some(dev) =>
      if Contains(dev.name, "loop") then s
      else
        match SectorSize(r)
        case None => s
        case Some(sectorSize) =>
          Inserted(s, dev.name, DiskBlock(Disk(dev, sectorSize, Property(r, "ID_MODEL").GetOr(""),
                                               Property(r, "ID_SERIAL").GetOr(""), TableOf(r), [])))
  }

  /** `append_partition`: the partition is stored under its own name before
      its parent is looked up, and it joins the parent's partition list only
      when that parent is a Disk. */
  function AppendedPartition(s: Store, r: RawRecord): (t: Store)
    requires WellFormed(s)
    ensures WellFormed(t) && (Acyclic(s.arena) ==> Acyclic(t.arena))
  {
    match RecordDevice(r)
    case None => s
    case Some(dev) =>
      match Property(r, "ID_PART_ENTRY_OFFSET")
      case None => s
      case Some(offset) =>
        match Property(r, "ID_PART_ENTRY_UUID")
        case None => s
        case Some(uuid) =>
          match r.parent
          case None => s
          case Some(parent) =>
            var s1 := Inserted(s, dev.name, PartitionBlock(PartitionEntry(dev, ParseU64(offset).GetOr(0), uuid)));
            if Has(s1, parent) && At(s1, parent).DiskBlock? then WithPartition(s1, s1.blocks[parent], |s.arena|)
            else s1
  }

  /** `append_dm`: the DeviceMap is stored under its own name and joins the
      `device.children` of its parent, whatever kind the parent is. */
  function AppendedDm(s: Store, r: RawRecord, dmName: string): (t: Store)
    requires WellFormed(s)
    ensures WellFormed(t)
    ensures Acyclic(s.arena) && NotOwnParent(r) ==> Acyclic(t.arena)
  {
    match RecordDevice(r)
    case None => s
    case Some(dev) =>
      match r.parent
      case None => s
      case Some(parent) =>
        var dm := DeviceMap(dev, Property(r, "DM_LV_NAME"), dmName, Property(r, "DM_VG_NAME"));
        var s1 := Inserted(s, dev.name, DeviceMapBlock(dm));
        if Has(s1, parent) then
          assert parent != dev.name ==> s1.blocks[parent] == s.blocks[parent] < |s.arena|;
          WithDeviceChild(s1, s1.blocks[parent], |s.arena|)
        else s1
  }

  /** `UDev::append` */
  function Appended(s: Store, r: RawRecord): (t: Store)
    requires WellFormed(s)
    ensures WellFormed(t)
    ensures Acyclic(s.arena) && NotOwnParent(r) ==> Acyclic(t.arena)
  {
    match Classify(r)
    case DiskKind => AppendedDisk(s, r)
    case PartitionKind => AppendedPartition(s, r)
    case DeviceMapKind(dmName) => AppendedDm(s, r, dmName)
    case Ignored => s
  }

  /** The store after appending `recs`, in order, to an empty store. */
  function Build(recs: seq<RawRecord>): (s: Store)
    ensures WellFormed(s)
  {
    if recs == [] then Empty
    else Appended(Build(recs[..|recs| - 1]), recs[|recs| - 1])
  }

  // -------------------------------------------------------------------------
  // Properties of one step

  /** A record of any other devtype leaves the store as it is. */
  lemma AppendIgnored(s: Store, r: RawRecord)
    requires WellFormed(s) && r.devtype != Some("disk") && r.devtype != Some("partition")
    ensures Appended(s, r) == s
  {
  }

  /** `append_disk` inserts nothing for a device without device information,
      for a name containing "loop", or without a parsable sector size;
      otherwise it stores a Disk under the DEVNAME with no partitions and
      leaves every other key as it was. */
  lemma AppendedDiskSpec(s: Store, r: RawRecord)
    requires WellFormed(s)
    ensures var dev := RecordDevice(r);
            dev.None? || Contains(dev.value.name, "loop") || SectorSize(r).None? ==> AppendedDisk(s, r) == s
    ensures var dev := RecordDevice(r);
            dev.Some? && !Contains(dev.value.name, "loop") && SectorSize(r).Some? ==>
              var t := AppendedDisk(s, r);
              && Has(t, dev.value.name)
              && At(t, dev.value.name) == DiskBlock(Disk(dev.value, SectorSize(r).value, Property(r, "ID_MODEL").GetOr(""),
                                                       Property(r, "ID_SERIAL").GetOr(""), TableOf(r), []))
              && t.blocks.Keys == s.blocks.Keys + {dev.value.name}
              && (forall k :: Has(s, k) && k != dev.value.name ==> Has(t, k) && At(t, k) == At(s, k))
  {
    var dev := RecordDevice(r);
    if dev.Some? && !Contains(dev.value.name, "loop") && SectorSize(r).Some? {
      var t := AppendedDisk(s, r);
      forall k | Has(s, k) && k != dev.value.name ensures Has(t, k) && At(t, k) == At(s, k) {
        assert t.arena[s.blocks[k]] == t.arena[..|s.arena|][s.blocks[k]];
      }
    }
  }

  /** Once a partition's device information, offset, partition UUID and
      parent name are known, it is stored under its own name whether or not
      the parent exists or is a Disk; an unparsable offset becomes 0. It
      joins the partition list of a parent that is a Disk, and nothing else
      changes in any other case. */
  lemma AppendedPartitionSpec(s: Store, r: RawRecord)
    requires WellFormed(s)
    ensures (RecordDevice(r).None? || Property(r, "ID_PART_ENTRY_OFFSET").None? ||
             Property(r, "ID_PART_ENTRY_UUID").None? || r.parent.None?) ==> AppendedPartition(s, r) == s
    ensures RecordDevice(r).Some? && Property(r, "ID_PART_ENTRY_OFFSET").Some? &&
            Property(r, "ID_PART_ENTRY_UUID").Some? && r.parent.Some? ==>
              var dev := RecordDevice(r).value;
              var entry := PartitionEntry(dev, ParseU64(Property(r, "ID_PART_ENTRY_OFFSET").value).GetOr(0),
                                          Property(r, "ID_PART_ENTRY_UUID").value);
              var s1 := Inserted(s, dev.name, PartitionBlock(entry));
              var parent := r.parent.value;
              var t := AppendedPartition(s, r);
              && Has(t, dev.name) && At(t, dev.name) == PartitionBlock(entry)
              && t.blocks == s1.blocks && t.keys == s1.keys
              && (Has(s1, parent) && At(s1, parent).DiskBlock? ==>
                    && At(t, parent) == DiskBlock(At(s1, parent).disk.(children := At(s1, parent).disk.children + [t.blocks[dev.name]]))
                    && |t.arena| == |s1.arena|
                    && forall q :: 0 <= q < |s1.arena| && q != s1.blocks[parent] ==> t.arena[q] == s1.arena[q])
              && (!(Has(s1, parent) && At(s1, parent).DiskBlock?) ==> t == s1)
  {
  }

  /** A DeviceMap with device information and a parent name is stored under
      its own name and appended to the `device.children` of the parent,
      whether that is a Disk, a Partition or a DeviceMap; when the parent is
      not in the store nothing is attached. */
  lemma AppendedDmSpec(s: Store, r: RawRecord, dmName: string)
    requires WellFormed(s)
    ensures RecordDevice(r).None? || r.parent.None? ==> AppendedDm(s, r, dmName) == s
    ensures RecordDevice(r).Some? && r.parent.Some? ==>
              var dev := RecordDevice(r).value;
              var dm := DeviceMap(dev, Property(r, "DM_LV_NAME"), dmName, Property(r, "DM_VG_NAME"));
              var s1 := Inserted(s, dev.name, DeviceMapBlock(dm));
              var parent := r.parent.value;
              var t := AppendedDm(s, r, dmName);
              && t.blocks == s1.blocks && t.keys == s1.keys
              && (Has(s1, parent) ==>
                    && (parent != dev.name ==> At(t, dev.name) == DeviceMapBlock(dm))
                    && DeviceOf(At(t, parent)).children == DeviceOf(At(s1, parent)).children + [t.blocks[dev.name]]
                    && At(t, parent) == WithDevice(At(s1, parent), DeviceOf(At(s1, parent)).(children := DeviceOf(At(s1, parent)).children + [t.blocks[dev.name]]))
                    && |t.arena| == |s1.arena|
                    && forall q :: 0 <= q < |s1.arena| && q != s1.blocks[parent] ==> t.arena[q] == s1.arena[q])
              && (!Has(s1, parent) ==> t == s1 && At(t, dev.name) == DeviceMapBlock(dm))
  {
  }

  // -------------------------------------------------------------------------
  // Properties of a whole pass

  /** When no record names itself as its parent, following child lists
      never loops. */
  lemma {:induction false} BuildAcyclic(recs: seq<RawRecord>)
    requires forall i :: 0 <= i < |recs| ==> NotOwnParent(recs[i])
    ensures Acyclic(Build(recs).arena)
  {
    if recs != [] {
      BuildAcyclic(recs[..|recs| - 1]);
    }
  }

  /** No Disk node of the arena carries a name containing "loop". */
  ghost predicate NoLoopDisks(arena: seq<BlockDevice>) {
    forall i :: 0 <= i < |arena| && arena[i].DiskBlock? ==> !Contains(arena[i].disk.device.name, "loop")
  }

  lemma InsertedNoLoopDisks(s: Store, name: string, b: BlockDevice)
    requires WellFormed(s) && DeviceOf(b).name == name && Childless(b) && NoLoopDisks(s.arena)
    requires b.DiskBlock? ==> !Contains(name, "loop")
    ensures NoLoopDisks(Inserted(s, name, b).arena)
  {
    var t := Inserted(s, name, b);
    forall i | 0 <= i < |t.arena| && t.arena[i].DiskBlock?
      ensures !Contains(t.arena[i].disk.device.name, "loop")
    {
      if i < |s.arena| {
        assert t.arena[i] == t.arena[..|s.arena|][i];
      }
    }
  }

  lemma DeviceChildNoLoopDisks(s: Store, p: NodeId, c: NodeId)
    requires WellFormed(s) && p < |s.arena| && c < |s.arena| && s.arena[c].DeviceMapBlock? && NoLoopDisks(s.arena)
    ensures NoLoopDisks(WithDeviceChild(s, p, c).arena)
  {
    var t := WithDeviceChild(s, p, c);
    DeviceOfWithDevice(s.arena[p], DeviceOf(t.arena[p]));
  }

  lemma PartitionNoLoopDisks(s: Store, p: NodeId, c: NodeId)
    requires WellFormed(s) && p < |s.arena| && s.arena[p].DiskBlock?
    requires c < |s.arena| && s.arena[c].PartitionBlock? && NoLoopDisks(s.arena)
    ensures NoLoopDisks(WithPartition(s, p, c).arena)
  {
  }

  lemma AppendedDiskNoLoopDisks(s: Store, r: RawRecord)
    requires WellFormed(s) && NoLoopDisks(s.arena)
    ensures NoLoopDisks(AppendedDisk(s, r).arena)
  {
    var dev := RecordDevice(r);
    if dev.Some? && !Contains(dev.value.name, "loop") && SectorSize(r).Some? {
      InsertedNoLoopDisks(s, dev.value.name, DiskBlock(Disk(dev.value, SectorSize(r).value, Property(r, "ID_MODEL").GetOr(""),
                                                            Property(r, "ID_SERIAL").GetOr(""), TableOf(r), [])));
    }
  }

  lemma AppendedPartitionNoLoopDisks(s: Store, r: RawRecord)
    requires WellFormed(s) && NoLoopDisks(s.arena)
    ensures NoLoopDisks(AppendedPartition(s, r).arena)
  {
    var dev := RecordDevice(r);
    var offset := Property(r, "ID_PART_ENTRY_OFFSET");
    var uuid := Property(r, "ID_PART_ENTRY_UUID");
    if dev.Some? && offset.Some? && uuid.Some? && r.parent.Some? {
      var b := PartitionBlock(PartitionEntry(dev.value, ParseU64(offset.value).GetOr(0), uuid.value));
      InsertedNoLoopDisks(s, dev.value.name, b);
      var s1 := Inserted(s, dev.value.name, b);
      var parent := r.parent.value;
      if Has(s1, parent) && At(s1, parent).DiskBlock? {
        PartitionNoLoopDisks(s1, s1.blocks[parent], |s.arena|);
        assert AppendedPartition(s, r) == WithPartition(s1, s1.blocks[parent], |s.arena|);
      } else {
        assert AppendedPartition(s, r) == s1;
      }
    } else {
      assert AppendedPartition(s, r) == s;
    }
  }

  lemma AppendedDmNoLoopDisks(s: Store, r: RawRecord, dmName: string)
    requires WellFormed(s) && NoLoopDisks(s.arena)
    ensures NoLoopDisks(AppendedDm(s, r, dmName).arena)
  {
    var dev := RecordDevice(r);
    if dev.Some? && r.parent.Some? {
      var b := DeviceMapBlock(DeviceMap(dev.value, Property(r, "DM_LV_NAME"), dmName, Property(r, "DM_VG_NAME")));
      InsertedNoLoopDisks(s, dev.value.name, b);
      var s1 := Inserted(s, dev.value.name, b);
      if Has(s1, r.parent.value) {
        DeviceChildNoLoopDisks(s1, s1.blocks[r.parent.value], |s.arena|);
      }
    }
  }

  lemma AppendedNoLoopDisks(s: Store, r: RawRecord)
    requires WellFormed(s) && NoLoopDisks(s.arena)
    ensures NoLoopDisks(Appended(s, r).arena)
  {
    match Classify(r)
    case DiskKind => AppendedDiskNoLoopDisks(s, r);
    case PartitionKind => AppendedPartitionNoLoopDisks(s, r);
    case DeviceMapKind(dmName) => AppendedDmNoLoopDisks(s, r, dmName);
    case Ignored =>
  }

  /** Whatever the enumeration yields, no device whose name contains
      "loop" becomes a Disk node. */
  lemma {:induction false} BuildNoLoopDisks(recs: seq<RawRecord>)
    ensures NoLoopDisks(Build(recs).arena)
    ensures forall k :: Has(Build(recs), k) && At(Build(recs), k).DiskBlock? ==> !Contains(k, "loop")
  {
    if recs != [] {
      BuildNoLoopDisks(recs[..|recs| - 1]);
      AppendedNoLoopDisks(Build(recs[..|recs| - 1]), recs[|recs| - 1]);
    }
  }

  // -------------------------------------------------------------------------
  // Graph consistency of a whole pass

  /** `k` is the DEVNAME of record `r`. */
  predicate NamedAs(r: RawRecord, k: string) {
    "DEVNAME" in r.properties && r.properties["DEVNAME"] == k
  }

  /** A record whose DEVNAME, if any, is not yet a key. */
  ghost predicate FreshIn(s: Store, r: RawRecord) {
    "DEVNAME" in r.properties ==> r.properties["DEVNAME"] !in s.blocks
  }

  /** No two records of an enumeration carry the same DEVNAME. */
  ghost predicate DistinctNames(recs: seq<RawRecord>) {
    forall i, j :: 0 <= i < j < |recs| && "DEVNAME" in recs[i].properties && "DEVNAME" in recs[j].properties ==>
      recs[i].properties["DEVNAME"] != recs[j].properties["DEVNAME"]
  }

  lemma AppendedDiskFresh(s: Store, r: RawRecord)
    requires WellFormed(s) && NoOrphans(s) && FreshIn(s, r)
    ensures NoOrphans(AppendedDisk(s, r))
    ensures forall k :: k in AppendedDisk(s, r).blocks ==> k in s.blocks || NamedAs(r, k)
  {
    var dev := RecordDevice(r);
    if dev.Some? && !Contains(dev.value.name, "loop") && SectorSize(r).Some? {
      InsertedNoOrphans(s, dev.value.name, DiskBlock(Disk(dev.value, SectorSize(r).value, Property(r, "ID_MODEL").GetOr(""),
                                                         Property(r, "ID_SERIAL").GetOr(""), TableOf(r), [])));
    }
  }

  lemma AppendedPartitionFresh(s: Store, r: RawRecord)
    requires WellFormed(s) && NoOrphans(s) && FreshIn(s, r)
    ensures NoOrphans(AppendedPartition(s, r))
    ensures forall k :: k in AppendedPartition(s, r).blocks ==> k in s.blocks || NamedAs(r, k)
  {
    var dev := RecordDevice(r);
    var offset := Property(r, "ID_PART_ENTRY_OFFSET");
    var uuid := Property(r, "ID_PART_ENTRY_UUID");
    if dev.Some? && offset.Some? && uuid.Some? && r.parent.Some? {
      var b := PartitionBlock(PartitionEntry(dev.value, ParseU64(offset.value).GetOr(0), uuid.value));
      InsertedNoOrphans(s, dev.value.name, b);
      var s1 := Inserted(s, dev.value.name, b);
      var parent := r.parent.value;
      if Has(s1, parent) && At(s1, parent).DiskBlock? {
        WithPartitionNoOrphans(s1, s1.blocks[parent], |s.arena|);
        assert AppendedPartition(s, r) == WithPartition(s1, s1.blocks[parent], |s.arena|);
      } else {
        assert AppendedPartition(s, r) == s1;
      }
    } else {
      assert AppendedPartition(s, r) == s;
    }
  }

  lemma AppendedDmFresh(s: Store, r: RawRecord, dmName: string)
    requires WellFormed(s) && NoOrphans(s) && FreshIn(s, r)
    ensures NoOrphans(AppendedDm(s, r, dmName))
    ensures forall k :: k in AppendedDm(s, r, dmName).blocks ==> k in s.blocks || NamedAs(r, k)
  {
    var dev := RecordDevice(r);
    if dev.Some? && r.parent.Some? {
      var b := DeviceMapBlock(DeviceMap(dev.value, Property(r, "DM_LV_NAME"), dmName, Property(r, "DM_VG_NAME")));
      InsertedNoOrphans(s, dev.value.name, b);
      var s1 := Inserted(s, dev.value.name, b);
      if Has(s1, r.parent.value) {
        WithDeviceChildNoOrphans(s1, s1.blocks[r.parent.value], |s.arena|);
      }
    }
  }

  /** A record under a fresh DEVNAME keeps every node current, and adds no
      key but its own DEVNAME. */
  lemma AppendedFresh(s: Store, r: RawRecord)
    requires WellFormed(s) && NoOrphans(s) && FreshIn(s, r)
    ensures NoOrphans(Appended(s, r))
    ensures forall k :: k in Appended(s, r).blocks ==> k in s.blocks || NamedAs(r, k)
  {
    match Classify(r)
    case DiskKind => AppendedDiskFresh(s, r);
    case PartitionKind => AppendedPartitionFresh(s, r);
    case DeviceMapKind(dmName) => AppendedDmFresh(s, r, dmName);
    case Ignored =>
  }

  /** When the enumeration yields each DEVNAME at most once, every child
      handle of every stored node is the node stored under that child's
      name, and every key is the DEVNAME of some record. */
  lemma {:induction false} BuildConsistent(recs: seq<RawRecord>)
    requires DistinctNames(recs)
    ensures NoOrphans(Build(recs)) && ChildrenCurrent(Build(recs))
    ensures forall k :: k in Build(recs).blocks ==> exists i :: 0 <= i < |recs| && NamedAs(recs[i], k)
  {
    if recs == [] {
      assert NoOrphans(Build(recs));
    } else {
      var init := recs[..|recs| - 1];
      var r := recs[|recs| - 1];
      assert DistinctNames(init) by {
        forall i, j | 0 <= i < j < |init| ensures init[i] == recs[i] && init[j] == recs[j] {}
      }
      BuildConsistent(init);
      var s := Build(init);
      forall i | 0 <= i < |init| && "DEVNAME" in init[i].properties && "DEVNAME" in r.properties
        ensures init[i].properties["DEVNAME"] != r.properties["DEVNAME"]
      {
        assert init[i] == recs[i];
      }
      assert FreshIn(s, r);
      AppendedFresh(s, r);
      assert Build(recs) == Appended(s, r);
      forall k | k in Build(recs).blocks ensures exists i :: 0 <= i < |recs| && NamedAs(recs[i], k) {
        if k in s.blocks {
          var i :| 0 <= i < |init| && NamedAs(init[i], k);
          assert recs[i] == init[i];
        } else {
          assert NamedAs(recs[|recs| - 1], k);
        }
      }
    }
    NoOrphansChildrenCurrent(Build(recs));
  }

  // -------------------------------------------------------------------------
  // Imperative appends on the disk manager

  /** `UDev::append` */
  method Append(dm: DiskManager, r: RawRecord)
    requires dm.Valid()
    modifies dm
    ensures dm.Valid() && dm.Snapshot() == Appended(old(dm.Snapshot()), r)
  {
    if r.devtype == Some("disk") {
      if "DM_NAME" in r.properties {
        AppendDm(dm, r, r.properties["DM_NAME"]);
      } else {
        AppendDisk(dm, r);
      }
    } else if r.devtype == Some("partition") {
      AppendPartition(dm, r);
    }
  }

  /** `append_disk` */
  method AppendDisk(dm: DiskManager, r: RawRecord)
    requires dm.Valid()
    modifies dm
    ensures dm.Valid() && dm.Snapshot() == AppendedDisk(old(dm.Snapshot()), r)
  {
    var dev := RecordDevice(r);
    if dev.None? {
      return;
    }
    if Contains(dev.value.name, "loop") {
      return;
    }
    var table := TableOf(r);
    var sectorSize := SectorSize(r);
    if sectorSize.None? {
      return;
    }
    var disk := Disk(dev.value, sectorSize.value, Property(r, "ID_MODEL").GetOr(""),
                     Property(r, "ID_SERIAL").GetOr(""), table, []);
    dm.Insert(dev.value.name, DiskBlock(disk));
  }

  /** `append_partition` */
  method AppendPartition(dm: DiskManager, r: RawRecord)
    requires dm.Valid()
    modifies dm
    ensures dm.Valid() && dm.Snapshot() == AppendedPartition(old(dm.Snapshot()), r)
  {
    var dev := RecordDevice(r);
    if dev.None? {
      return;
    }
    var offset := Property(r, "ID_PART_ENTRY_OFFSET");
    if offset.None? {
      return;
    }
    var uuid := Property(r, "ID_PART_ENTRY_UUID");
    if uuid.None? {
      return;
    }
    if r.parent.None? {
      return;
    }
    var parentDevname := r.parent.value;
    var id := |dm.arena|;
    dm.Insert(dev.value.name, PartitionBlock(PartitionEntry(dev.value, ParseU64(offset.value).GetOr(0), uuid.value)));
    if parentDevname !in dm.blocks {
      return;
    }
    var p := dm.blocks[parentDevname];
    if dm.arena[p].DiskBlock? {
      dm.PushPartition(p, id);
    }
  }

  /** `append_dm` */
  method AppendDm(dm: DiskManager, r: RawRecord, dmName: string)
    requires dm.Valid()
    modifies dm
    ensures dm.Valid() && dm.Snapshot() == AppendedDm(old(dm.Snapshot()), r, dmName)
  {
    var dev := RecordDevice(r);
    if dev.None? {
      return;
    }
    if r.parent.None? {
      return;
    }
    var parentDevname := r.parent.value;
    var lvName := Property(r, "DM_LV_NAME");
    var vgName := Property(r, "DM_VG_NAME");
    var id := |dm.arena|;
    dm.Insert(dev.value.name, DeviceMapBlock(DeviceMap(dev.value, lvName, dmName, vgName)));
    if parentDevname in dm.blocks {
      dm.PushDeviceChild(dm.blocks[parentDevname], id);
    }
  }

  // -------------------------------------------------------------------------
  // `parents`: where a device's parents are found in sysfs

  /** A sysfs path, as its list of components. */
  type SysPath = seq<string>

  /** The entries of `{dev}/slaves` that resolved (`canonicalize` may fail:
      `None`) to a path with a "block" component, in directory order. */
  function BlockSlaves(slaves: seq<Option<SysPath>>): (r: seq<SysPath>)
    ensures forall i :: 0 <= i < |r| ==> "block" in r[i] && Some(r[i]) in slaves
    ensures forall p :: Some(p) in slaves && "block" in p ==> p in r
  {
    if slaves == [] then []
    else
      var rest := BlockSlaves(slaves[1..]);
      assert forall x :: x in slaves[1..] ==> x in slaves;
      assert forall x :: x in slaves ==> x == slaves[0] || x in slaves[1..];
      if slaves[0].Some? && "block" in slaves[0].value then [slaves[0].value] + rest else rest
  }

  /** The filter keeps directory order: the slaves of two runs of entries
      are those of the first run followed by those of the second. */
  lemma {:induction false} BlockSlavesAppend(a: seq<Option<SysPath>>, b: seq<Option<SysPath>>)
    ensures BlockSlaves(a + b) == BlockSlaves(a) + BlockSlaves(b)
  {
    if a == [] {
      assert a + b == b;
    } else {
      assert (a + b)[0] == a[0];
      assert (a + b)[1..] == a[1..] + b;
      BlockSlavesAppend(a[1..], b);
    }
  }

  /** The first slave kept is the first entry, in directory order, that
      resolved to a path with a "block" component. */
  lemma {:induction false} BlockSlavesFirst(slaves: seq<Option<SysPath>>)
    requires |BlockSlaves(slaves)| > 0
    ensures exists i :: 0 <= i < |slaves| && slaves[i] == Some(BlockSlaves(slaves)[0]) &&
              forall j :: 0 <= j < i ==> !(slaves[j].Some? && "block" in slaves[j].value)
  {
    if !(slaves[0].Some? && "block" in slaves[0].value) {
      var rest := slaves[1..];
      BlockSlavesFirst(rest);
      var i :| 0 <= i < |rest| && rest[i] == Some(BlockSlaves(rest)[0]) &&
               forall j :: 0 <= j < i ==> !(rest[j].Some? && "block" in rest[j].value);
      assert slaves[i + 1] == rest[i];
      forall j | 0 <= j < i + 1 ensures !(slaves[j].Some? && "block" in slaves[j].value) {
        if j > 0 {
          assert slaves[j] == rest[j - 1];
        }
      }
    }
  }

  /** `parents(path)`: the block slaves (none when `{dev}/slaves` cannot be
      read), followed by the parent directory when it has a `queue` entry. */
  function Parents(slaves: Option<seq<Option<SysPath>>>, parentDir: Option<SysPath>, parentHasQueue: bool): (r: seq<SysPath>)
    ensures forall p :: p in r <==>
              (slaves.Some? && Some(p) in slaves.value && "block" in p) || (parentDir == Some(p) && parentHasQueue)
  {
    (if slaves.Some? then BlockSlaves(slaves.value) else []) +
    (if parentDir.Some? && parentHasQueue then [parentDir.value] else [])
  }

  /** Slave-derived parents come first, each with a "block" component; the
      parent directory, only when it has a queue, comes last. So the parent
      the builder uses is the first block slave if there is one. */
  lemma ParentsOrder(slaves: Option<seq<Option<SysPath>>>, parentDir: Option<SysPath>, parentHasQueue: bool)
    ensures var r := Parents(slaves, parentDir, parentHasQueue);
            var withDir := parentDir.Some? && parentHasQueue;
            && (forall i :: 0 <= i < |r| - (if withDir then 1 else 0) ==> "block" in r[i])
            && (withDir ==> |r| > 0 && r[|r| - 1] == parentDir.value)
            && (!withDir ==> forall i :: 0 <= i < |r| ==> slaves.Some? && Some(r[i]) in slaves.value)
            && ((slaves.Some? && exists i :: 0 <= i < |slaves.value| && slaves.value[i].Some? && "block" in slaves.value[i].value) ==>
                  && |r| > 0 && "block" in r[0]
                  && exists i :: 0 <= i < |slaves.value| && slaves.value[i] == Some(r[0]) &&
                       forall j :: 0 <= j < i ==> !(slaves.value[j].Some? && "block" in slaves.value[j].value))
  {
    var r := Parents(slaves, parentDir, parentHasQueue);
    if slaves.Some? && (exists i :: 0 <= i < |slaves.value| && slaves.value[i].Some? && "block" in slaves.value[i].value) {
      var i :| 0 <= i < |slaves.value| && slaves.value[i].Some? && "block" in slaves.value[i].value;
      assert slaves.value[i].value in BlockSlaves(slaves.value);
      BlockSlavesFirst(slaves.value);
      assert r[0] == BlockSlaves(slaves.value)[0];
    }
  }
}
