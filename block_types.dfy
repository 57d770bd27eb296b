/** The block-device data model.

    A node of the topology is shared in the original program through
    reference-counted cells; here every node lives in an arena (a sequence
    owned by the disk manager) and a `NodeId` is its index there. A child
    list is a sequence of such ids, so a child reached through its parent's
    list is the very node that the name map may also point to. */
module BlockTypes {
  import opened Wrappers
  import opened RustStd

  /** A handle to a node: its index in the disk manager's arena. */
  type NodeId = nat

  /** A detected filesystem; it always has both a type and a UUID. */
  datatype FileSystem = FileSystem(fsType: string, uuid: string)

  /** What every kind of node carries. `children` holds DeviceMap nodes only
      (the store invariant `ChildrenWellTyped` states this). */
  datatype Device = Device(
    name: string,          // e.g. "/dev/sda1"
    size: u64,             // number of sectors
    fs: Option<FileSystem>,
    children: seq<NodeId>)

  /** A device-mapper node: its mapper name is mandatory, the LVM logical
      volume and volume group names are optional. */
  datatype DeviceMap = DeviceMap(
    device: Device,
    lvName: Option<string>,
    name: string,
    vgName: Option<string>)

  datatype PartitionTable = Mbr | Gpt

  /** A physical disk; its partitions are kept in `children`, apart from the
      DeviceMaps in `device.children`. */
  datatype Disk = Disk(
    device: Device,
    sectorSize: u64,
    model: string,
    serial: string,
    table: Option<PartitionTable>,
    children: seq<NodeId>)

  datatype PartitionEntry = PartitionEntry(device: Device, offset: u64, uuid: string)

  /** A node is exactly one of a partition, a disk or a device map. */
  datatype BlockDevice =
    | PartitionBlock(entry: PartitionEntry)
    | DiskBlock(disk: Disk)
    | DeviceMapBlock(devmap: DeviceMap)

  /** `device_from_block`: the device record of a node of any kind. */
  function DeviceOf(b: BlockDevice): Device {
    match b
    case PartitionBlock(e) => e.device
    case DiskBlock(d) => d.device
    case DeviceMapBlock(m) => m.device
  }

  /** The same node with its device record replaced. */
  function WithDevice(b: BlockDevice, d: Device): BlockDevice {
    match b
    case PartitionBlock(e) => PartitionBlock(e.(device := d))
    case DiskBlock(k) => DiskBlock(k.(device := d))
    case DeviceMapBlock(m) => DeviceMapBlock(m.(device := d))
  }

  /** `device_from_block` gives the record of whatever kind the node is, and
      replacing that record changes neither the kind nor any other field. */
  lemma DeviceOfWithDevice(b: BlockDevice, d: Device)
    ensures DeviceOf(WithDevice(b, d)) == d
    ensures WithDevice(b, d).PartitionBlock? == b.PartitionBlock?
    ensures WithDevice(b, d).DiskBlock? == b.DiskBlock?
    ensures WithDevice(b, d).DeviceMapBlock? == b.DeviceMapBlock?
    ensures WithDevice(b, DeviceOf(b)) == b
  {
  }

  /** Every node has exactly one kind. */
  lemma KindExclusive(b: BlockDevice)
    ensures b.PartitionBlock? || b.DiskBlock? || b.DeviceMapBlock?
    ensures !(b.PartitionBlock? && b.DiskBlock?)
    ensures !(b.PartitionBlock? && b.DeviceMapBlock?)
    ensures !(b.DiskBlock? && b.DeviceMapBlock?)
  {
  }
}
