/** The block store of the disk manager (`DiskManager::blocks`, a
    `BTreeMap<String, BlockDevice>`) and its read-only queries
    (`block_by_devname`, `block_by_part_uuid`, `block_by_uuid`,
    `dm_by_dm_name`, `dm_by_lv_name`).

    The store is an arena of nodes, a map from DEVNAME to node id, and the
    map's keys in the order a `BTreeMap` iterates them. The single access
    token that guards every node in the original program is replaced by the
    heap: the class `DiskManager` owns the whole arena, and only its methods
    with a `modifies` clause change it. */
module Blocks {
  import opened Wrappers
  import opened RustStd
  import opened BlockTypes

  datatype Store = Store(arena: seq<BlockDevice>, blocks: map<string, NodeId>, keys: seq<string>)

  const Empty := Store([], map[], [])

  /** `name` is a key of the map and its node id is in the arena. */
  predicate Has(s: Store, name: string) {
    name in s.blocks && s.blocks[name] < |s.arena|
  }

  /** The node stored under `name`. */
  function At(s: Store, name: string): BlockDevice
    requires Has(s, name)
  {
    s.arena[s.blocks[name]]
  }

  /** The children of node `b` have the right kind in `arena`: a Device's
      `children` are DeviceMaps, whatever kind owns them, and a Disk's
      partition list holds Partitions. */
  ghost predicate NodeWellTyped(arena: seq<BlockDevice>, b: BlockDevice) {
    && (forall c :: c in DeviceOf(b).children ==> c < |arena| && arena[c].DeviceMapBlock?)
    && (b.DiskBlock? ==> forall c :: c in b.disk.children ==> c < |arena| && arena[c].PartitionBlock?)
  }

  ghost predicate ChildrenWellTyped(arena: seq<BlockDevice>) {
    forall p :: 0 <= p < |arena| ==> NodeWellTyped(arena, arena[p])
  }

  /** `a2` extends `a` and keeps the kind of every node of `a`. */
  ghost predicate SameKinds(a: seq<BlockDevice>, a2: seq<BlockDevice>) {
    |a| <= |a2| &&
    forall i :: 0 <= i < |a| ==>
      a2[i].DeviceMapBlock? == a[i].DeviceMapBlock? && a2[i].PartitionBlock? == a[i].PartitionBlock?
  }

  lemma NodeWellTypedMono(a: seq<BlockDevice>, a2: seq<BlockDevice>, b: BlockDevice)
    requires NodeWellTyped(a, b) && SameKinds(a, a2)
    ensures NodeWellTyped(a2, b)
  {
  }

  /** The store invariant: the keys are the map's keys in strictly
      ascending order, every key names a node of the arena whose own device
      name is that key, and the child lists are well typed. */
  ghost predicate WellFormed(s: Store) {
    && SortedStrict(s.keys)
    && (forall k :: k in s.blocks <==> k in s.keys)
    && (forall k :: k in s.blocks ==> Has(s, k) && DeviceOf(At(s, k)).name == k)
    && ChildrenWellTyped(s.arena)
  }

  /** Every DeviceMap child was created after its parent, so following
      `device.children` always leads to larger ids and cannot loop. */
  ghost predicate Acyclic(arena: seq<BlockDevice>) {
    forall p, c :: 0 <= p < |arena| && c in DeviceOf(arena[p]).children ==> p < c
  }

  /** A node as the topology builder creates it: no children yet. */
  predicate Childless(b: BlockDevice) {
    DeviceOf(b).children == [] && (b.DiskBlock? ==> b.disk.children == [])
  }

  lemma EmptyWellFormed()
    ensures WellFormed(Empty) && Acyclic(Empty.arena)
  {
  }

  /** Appending a childless node keeps the child lists well typed and
      acyclic. */
  lemma AppendedWellTyped(a: seq<BlockDevice>, b: BlockDevice)
    requires ChildrenWellTyped(a) && Childless(b)
    ensures ChildrenWellTyped(a + [b])
    ensures Acyclic(a) ==> Acyclic(a + [b])
  {
    var a2 := a + [b];
    assert SameKinds(a, a2);
    forall q | 0 <= q < |a2| ensures NodeWellTyped(a2, a2[q]) {
      if q < |a| {
        assert a2[q] == a[q];
        NodeWellTypedMono(a, a2, a[q]);
      }
    }
    if Acyclic(a) {
      forall q, c | 0 <= q < |a2| && c in DeviceOf(a2[q]).children ensures q < c {
        assert q < |a| && a2[q] == a[q];
      }
    }
  }

  /** Replacing node `p` by a node of the same kind whose children are of
      the right kind keeps the child lists well typed. */
  lemma ReplacedWellTyped(a: seq<BlockDevice>, p: NodeId, b: BlockDevice)
    requires ChildrenWellTyped(a) && p < |a| && NodeWellTyped(a, b)
    requires b.PartitionBlock? == a[p].PartitionBlock? && b.DeviceMapBlock? == a[p].DeviceMapBlock?
    ensures ChildrenWellTyped(a[p := b])
  {
    var a2 := a[p := b];
    assert SameKinds(a, a2);
    forall q | 0 <= q < |a2| ensures NodeWellTyped(a2, a2[q]) {
      if q != p {
        assert a2[q] == a[q];
        NodeWellTypedMono(a, a2, a[q]);
      } else {
        NodeWellTypedMono(a, a2, b);
      }
    }
  }

  /** `blocks.insert(name, node)`: the node is appended to the arena and the
      key now refers to it; a node the key referred to before stays in the
      arena, where the child lists that hold it still see it. */
  function Inserted(s: Store, name: string, b: BlockDevice): (r: Store)
    requires WellFormed(s) && DeviceOf(b).name == name && Childless(b)
    ensures WellFormed(r)
    ensures Acyclic(s.arena) ==> Acyclic(r.arena)
    ensures Has(r, name) && At(r, name) == b && r.blocks[name] == |s.arena|
    ensures r.blocks.Keys == s.blocks.Keys + {name}
    ensures forall k :: k in s.blocks && k != name ==> r.blocks[k] == s.blocks[k]
    ensures r.arena[..|s.arena|] == s.arena && |r.arena| == |s.arena| + 1
  {
    AppendedWellTyped(s.arena, b);
    Store(s.arena + [b], s.blocks[name := |s.arena|], InsertSorted(s.keys, name))
  }

  /** `parent.device.children.push(child)` */
  function WithDeviceChild(s: Store, p: NodeId, c: NodeId): (r: Store)
    requires WellFormed(s) && p < |s.arena| && c < |s.arena| && s.arena[c].DeviceMapBlock?
    ensures WellFormed(r)
    ensures Acyclic(s.arena) && p < c ==> Acyclic(r.arena)
    ensures r.blocks == s.blocks && r.keys == s.keys && |r.arena| == |s.arena|
    ensures DeviceOf(r.arena[p]).children == DeviceOf(s.arena[p]).children + [c]
    ensures r.arena[p] == WithDevice(s.arena[p], DeviceOf(s.arena[p]).(children := DeviceOf(s.arena[p]).children + [c]))
    ensures forall q :: 0 <= q < |s.arena| && q != p ==> r.arena[q] == s.arena[q]
  {
    var d := DeviceOf(s.arena[p]);
    var b := WithDevice(s.arena[p], d.(children := d.children + [c]));
    DeviceOfWithDevice(s.arena[p], d.(children := d.children + [c]));
    ReplacedWellTyped(s.arena, p, b);
    s.(arena := s.arena[p := b])
  }

  /** `disk.children.push(partition)` */
  function WithPartition(s: Store, p: NodeId, c: NodeId): (r: Store)
    requires WellFormed(s) && p < |s.arena| && s.arena[p].DiskBlock?
    requires c < |s.arena| && s.arena[c].PartitionBlock?
    ensures WellFormed(r)
    ensures Acyclic(s.arena) ==> Acyclic(r.arena)
    ensures r.blocks == s.blocks && r.keys == s.keys && |r.arena| == |s.arena|
    ensures r.arena[p].DiskBlock? && r.arena[p].disk.children == s.arena[p].disk.children + [c]
    ensures r.arena[p].disk.(children := s.arena[p].disk.children) == s.arena[p].disk
    ensures forall q :: 0 <= q < |s.arena| && q != p ==> r.arena[q] == s.arena[q]
  {
    var k := s.arena[p].disk;
    ReplacedWellTyped(s.arena, p, DiskBlock(k.(children := k.children + [c])));
    s.(arena := s.arena[p := DiskBlock(k.(children := k.children + [c]))])
  }

  // -----------------------------------------------------------------------
  // Graph consistency: every child handle is the node its own name maps to

  /** Node `c` is the one its own name is stored under. */
  ghost predicate Current(s: Store, c: NodeId) {
    c < |s.arena| && DeviceOf(s.arena[c]).name in s.blocks && s.blocks[DeviceOf(s.arena[c]).name] == c
  }

  /** Every node of the arena is current: no insertion under an existing
      name has left an older node behind. */
  ghost predicate NoOrphans(s: Store) {
    forall i :: 0 <= i < |s.arena| ==> Current(s, i)
  }

  /** Both child lists of a node: its DeviceMaps and, for a Disk, its
      partitions. */
  function ChildIds(b: BlockDevice): seq<NodeId> {
    DeviceOf(b).children + (if b.DiskBlock? then b.disk.children else [])
  }

  /** For every key, every child in either list is the node stored under
      that child's own name. */
  ghost predicate ChildrenCurrent(s: Store) {
    forall k, i :: Has(s, k) && 0 <= i < |ChildIds(At(s, k))| ==> Current(s, ChildIds(At(s, k))[i])
  }

  lemma NoOrphansChildrenCurrent(s: Store)
    requires WellFormed(s) && NoOrphans(s)
    ensures ChildrenCurrent(s)
  {
    forall k, i | Has(s, k) && 0 <= i < |ChildIds(At(s, k))| ensures Current(s, ChildIds(At(s, k))[i]) {
      var b := At(s, k);
      assert NodeWellTyped(s.arena, b);
      var ids := ChildIds(b);
      if i < |DeviceOf(b).children| {
        assert ids[i] in DeviceOf(b).children;
      } else {
        assert ids[i] == b.disk.children[i - |DeviceOf(b).children|];
        assert ids[i] in b.disk.children;
      }
    }
  }

  /** Inserting under a fresh name keeps every node current. */
  lemma InsertedNoOrphans(s: Store, name: string, b: BlockDevice)
    requires WellFormed(s) && DeviceOf(b).name == name && Childless(b)
    requires NoOrphans(s) && name !in s.blocks
    ensures NoOrphans(Inserted(s, name, b))
  {
    var r := Inserted(s, name, b);
    forall i | 0 <= i < |r.arena| ensures Current(r, i) {
      if i < |s.arena| {
        assert r.arena[i] == r.arena[..|s.arena|][i] == s.arena[i];
        assert Current(s, i);
      }
    }
  }

  /** Pushing a child changes no name, so every node stays current. */
  lemma WithDeviceChildNoOrphans(s: Store, p: NodeId, c: NodeId)
    requires WellFormed(s) && p < |s.arena| && c < |s.arena| && s.arena[c].DeviceMapBlock?
    requires NoOrphans(s)
    ensures NoOrphans(WithDeviceChild(s, p, c))
  {
    var r := WithDeviceChild(s, p, c);
    var d := DeviceOf(s.arena[p]);
    DeviceOfWithDevice(s.arena[p], d.(children := d.children + [c]));
    assert DeviceOf(r.arena[p]).name == DeviceOf(s.arena[p]).name;
    forall i | 0 <= i < |r.arena| ensures Current(r, i) {
      assert Current(s, i);
    }
  }

  lemma WithPartitionNoOrphans(s: Store, p: NodeId, c: NodeId)
    requires WellFormed(s) && p < |s.arena| && s.arena[p].DiskBlock?
    requires c < |s.arena| && s.arena[c].PartitionBlock?
    requires NoOrphans(s)
    ensures NoOrphans(WithPartition(s, p, c))
  {
    var r := WithPartition(s, p, c);
    assert r.arena[p].disk.device == s.arena[p].disk.device;
    forall i | 0 <= i < |r.arena| ensures Current(r, i) {
      assert Current(s, i);
    }
  }

  // -----------------------------------------------------------------------
  // What the queries look for

  predicate IsPartitionWithUuid(b: BlockDevice, uuid: string) {
    b.PartitionBlock? && b.entry.uuid == uuid
  }

  predicate HasFsUuid(b: BlockDevice, uuid: string) {
    DeviceOf(b).fs.Some? && DeviceOf(b).fs.value.uuid == uuid
  }

  predicate IsDmNamed(b: BlockDevice, dmName: string) {
    b.DeviceMapBlock? && b.devmap.name == dmName
  }

  predicate IsDmWithLv(b: BlockDevice, lvName: string) {
    b.DeviceMapBlock? && b.devmap.lvName == Some(lvName)
  }

  /** Some DeviceMap of the store has mapper name `dmName`. */
  ghost predicate HasDmNamed(s: Store, dmName: string) {
    exists k :: Has(s, k) && IsDmNamed(At(s, k), dmName)
  }

  /** The disk manager: the single owner of the block store. */
  class DiskManager {
    var arena: seq<BlockDevice>
    var blocks: map<string, NodeId>
    var keys: seq<string>

    function Snapshot(): Store
      reads this
    {
      Store(arena, blocks, keys)
    }

    ghost predicate Valid()
      reads this
    {
      WellFormed(Snapshot())
    }

    /** `DiskManager::new`: an empty store. */
    constructor ()
      ensures Snapshot() == Empty && Valid()
    {
      arena, blocks, keys := [], map[], [];
    }

    /** `blocks.clear()` */
    method Clear()
      modifies this
      ensures Snapshot() == Empty && Valid()
    {
      arena, blocks, keys := [], map[], [];
    }

    /** `blocks.insert(name, node)` */
    method Insert(name: string, b: BlockDevice)
      requires Valid() && DeviceOf(b).name == name && Childless(b)
      modifies this
      ensures Snapshot() == Inserted(old(Snapshot()), name, b) && Valid()
    {
      arena, blocks, keys := arena + [b], blocks[name := |arena|], InsertSorted(keys, name);
    }

    /** `parent.rw(t).device.children.push(child)` */
    method PushDeviceChild(p: NodeId, c: NodeId)
      requires Valid() && p < |arena| && c < |arena| && arena[c].DeviceMapBlock?
      modifies this
      ensures Snapshot() == WithDeviceChild(old(Snapshot()), p, c) && Valid()
    {
      var d := DeviceOf(arena[p]);
      arena := arena[p := WithDevice(arena[p], d.(children := d.children + [c]))];
    }

    /** `disk.rw(t).children.push(partition)` */
    method PushPartition(p: NodeId, c: NodeId)
      requires Valid() && p < |arena| && arena[p].DiskBlock?
      requires c < |arena| && arena[c].PartitionBlock?
      modifies this
      ensures Snapshot() == WithPartition(old(Snapshot()), p, c) && Valid()
    {
      var k := arena[p].disk;
      arena := arena[p := DiskBlock(k.(children := k.children + [c]))];
    }

    /** `block_by_devname`: exact key lookup; a node found under a name is
        the node whose device is called that. */
    method BlockByDevname(name: string) returns (r: Option<BlockDevice>)
      requires Valid()
      ensures r.Some? <==> name in blocks
      ensures r.Some? ==> r.value == At(Snapshot(), name) && DeviceOf(r.value).name == name
    {
      if name in blocks {
        r := Some(arena[blocks[name]]);
      } else {
        r := None;
      }
    }

    /** `block_by_part_uuid`: the first Partition in key order whose
        partition UUID is `uuid`, with its key. */
    method BlockByPartUuid(uuid: string) returns (r: Option<(string, BlockDevice)>)
      requires Valid()
      ensures r.Some? ==> Has(Snapshot(), r.value.0) && r.value.1 == At(Snapshot(), r.value.0)
      ensures r.Some? ==> IsPartitionWithUuid(r.value.1, uuid)
      ensures r.Some? ==> forall k :: Has(Snapshot(), k) && Less(k, r.value.0) ==>
                            !IsPartitionWithUuid(At(Snapshot(), k), uuid)
      ensures r.None? <==> forall k :: Has(Snapshot(), k) ==> !IsPartitionWithUuid(At(Snapshot(), k), uuid)
    {
      var s := Snapshot();
      var i := 0;
      while i < |keys|
        invariant 0 <= i <= |keys|
        invariant forall j :: 0 <= j < i ==> !IsPartitionWithUuid(At(s, keys[j]), uuid)
      {
        var block := arena[blocks[keys[i]]];
        if block.PartitionBlock? && block.entry.uuid == uuid {
          forall k | Has(s, k) && Less(k, keys[i]) ensures !IsPartitionWithUuid(At(s, k), uuid) {
            SortedBefore(keys, i, k);
          }
          return Some((keys[i], block));
        }
        i := i + 1;
      }
      return None;
    }

    /** `block_by_uuid`: the first node of any kind in key order whose
        filesystem has UUID `uuid`; a node without a filesystem never
        matches. */
    method BlockByUuid(uuid: string) returns (r: Option<(string, BlockDevice)>)
      requires Valid()
      ensures r.Some? ==> Has(Snapshot(), r.value.0) && r.value.1 == At(Snapshot(), r.value.0)
      ensures r.Some? ==> HasFsUuid(r.value.1, uuid)
      ensures r.Some? ==> forall k :: Has(Snapshot(), k) && Less(k, r.value.0) ==>
                            !HasFsUuid(At(Snapshot(), k), uuid)
      ensures r.None? <==> forall k :: Has(Snapshot(), k) ==> !HasFsUuid(At(Snapshot(), k), uuid)
    {
      var s := Snapshot();
      var i := 0;
      while i < |keys|
        invariant 0 <= i <= |keys|
        invariant forall j :: 0 <= j < i ==> !HasFsUuid(At(s, keys[j]), uuid)
      {
        var block := arena[blocks[keys[i]]];
        var fs := DeviceOf(block).fs;
        if fs.Some? && fs.value.uuid == uuid {
          forall k | Has(s, k) && Less(k, keys[i]) ensures !HasFsUuid(At(s, k), uuid) {
            SortedBefore(keys, i, k);
          }
          return Some((keys[i], block));
        }
        i := i + 1;
      }
      return None;
    }

    /** `dm_by_dm_name`: the first DeviceMap in key order whose mapper name
        is `dmName`; other kinds of node are never considered. */
    method DmByDmName(dmName: string) returns (r: Option<DeviceMap>)
      requires Valid()
      ensures r.Some? ==> exists k :: Has(Snapshot(), k) && At(Snapshot(), k) == DeviceMapBlock(r.value) &&
                            forall k' :: Has(Snapshot(), k') && Less(k', k) ==> !IsDmNamed(At(Snapshot(), k'), dmName)
      ensures r.Some? ==> r.value.name == dmName
      ensures r.None? <==> !HasDmNamed(Snapshot(), dmName)
    {
      var s := Snapshot();
      var i := 0;
      while i < |keys|
        invariant 0 <= i <= |keys|
        invariant forall j :: 0 <= j < i ==> !IsDmNamed(At(s, keys[j]), dmName)
      {
        var block := arena[blocks[keys[i]]];
        if block.DeviceMapBlock? && block.devmap.name == dmName {
          forall k | Has(s, k) && Less(k, keys[i]) ensures !IsDmNamed(At(s, k), dmName) {
            SortedBefore(keys, i, k);
          }
          return Some(block.devmap);
        }
        i := i + 1;
      }
      return None;
    }

    /** `dm_by_lv_name`: the first DeviceMap in key order whose logical
        volume name is `lvName`; a DeviceMap without one never matches. */
    method DmByLvName(lvName: string) returns (r: Option<DeviceMap>)
      requires Valid()
      ensures r.Some? ==> exists k :: Has(Snapshot(), k) && At(Snapshot(), k) == DeviceMapBlock(r.value) &&
                            forall k' :: Has(Snapshot(), k') && Less(k', k) ==> !IsDmWithLv(At(Snapshot(), k'), lvName)
      ensures r.Some? ==> r.value.lvName == Some(lvName)
      ensures r.None? <==> forall k :: Has(Snapshot(), k) ==> !IsDmWithLv(At(Snapshot(), k), lvName)
    {
      var s := Snapshot();
      var i := 0;
      while i < |keys|
        invariant 0 <= i <= |keys|
        invariant forall j :: 0 <= j < i ==> !IsDmWithLv(At(s, keys[j]), lvName)
      {
        var block := arena[blocks[keys[i]]];
        if block.DeviceMapBlock? && block.devmap.lvName.Some? && block.devmap.lvName.value == lvName {
          forall k | Has(s, k) && Less(k, keys[i]) ensures !IsDmWithLv(At(s, k), lvName) {
            SortedBefore(keys, i, k);
          }
          return Some(block.devmap);
        }
        i := i + 1;
      }
      return None;
    }
  }
}
