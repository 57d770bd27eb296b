/** The state-changing half of the disk manager (`disk_manager.rs`):
    `reload`, `luks_lock` and `luks_unlock`.

    The external world enters as parameters. A rescan is the list of
    records `scan_devices` yields (`None` when the scan fails). The
    cryptsetup and LVM commands are oracles, and every call made to them is
    reported, in order, in a trace of `Call`s. */
module Encryption {
  import opened Wrappers
  import opened RustStd
  import opened BlockTypes
  import opened Blocks
  import opened Udev

  /** An error from libcryptsetup, kept opaque. */
  datatype LibcryptErr = LibcryptErr(message: string)

  /** `EncryptionError` */
  datatype EncryptionError = DeviceNotFound | Cryptsetup(why: LibcryptErr)

  /** One call from the disk manager into the outside world. */
  datatype Call =
    | VgDeactivate(vg: string)                  // `lvm::vg_deactivate`
    | LuksDeactivate(path: string, name: string) // `luks::deactivate`
    | LuksActivate(path: string, name: string)   // `luks::activate`
    | VgActivateAll                              // `lvm::vg_activate_all`
    | Rescan                                     // `scan_devices`, inside `reload`

  /** `luks_lock` either returns or panics in `vg_deactivate(..).unwrap()`. */
  datatype LockOutcome = Returned(result: Result<(), EncryptionError>) | Panicked

  // -------------------------------------------------------------------------
  // reload

  /** The store after `reload` with the given scan: cleared, then rebuilt
      from the records, or left empty when the scan fails. */
  function Reloaded(scan: Option<seq<RawRecord>>): (s: Store)
    ensures WellFormed(s)
    ensures scan.None? ==> s == Empty
  {
    if scan.None? then Empty else Build(scan.value)
  }

  /** After a reload from a scan whose records name distinct devices,
      every node is the one its own name maps to, and so is every child. */
  lemma ReloadedConsistent(scan: Option<seq<RawRecord>>)
    requires scan.Some? ==> DistinctNames(scan.value)
    ensures NoOrphans(Reloaded(scan)) && ChildrenCurrent(Reloaded(scan))
  {
    if scan.Some? {
      BuildConsistent(scan.value);
    }
  }

  /** `DiskManager::reload` */
  method Reload(dm: DiskManager, scan: Option<seq<RawRecord>>)
    modifies dm
    ensures dm.Valid() && dm.Snapshot() == Reloaded(scan)
  {
    dm.Clear();
    if scan.None? {
      return;
    }
    var recs := scan.value;
    for i := 0 to |recs|
      invariant dm.Valid() && dm.Snapshot() == Build(recs[..i])
    {
      Append(dm, recs[i]);
      assert recs[..i + 1][..i] == recs[..i];
    }
    assert recs[..|recs|] == recs;
  }

  // -------------------------------------------------------------------------
  // The walk of `luks_lock` over the DeviceMaps below a device

  /** The `device.children` of node `id`. */
  function Children(a: seq<BlockDevice>, id: NodeId): seq<NodeId>
    requires id < |a|
  {
    DeviceOf(a[id]).children
  }

  /** All ids of `ids` are in the arena and above `lo`. */
  predicate Bounded(a: seq<BlockDevice>, ids: seq<NodeId>, lo: int) {
    forall i :: 0 <= i < |ids| ==> lo < ids[i] < |a|
  }

  ghost predicate Graph(a: seq<BlockDevice>) {
    ChildrenWellTyped(a) && Acyclic(a)
  }

  lemma ChildrenBounded(a: seq<BlockDevice>, id: NodeId)
    requires Graph(a) && id < |a|
    ensures Bounded(a, Children(a, id), id)
    ensures forall c :: c in Children(a, id) ==> a[c].DeviceMapBlock?
  {
    assert NodeWellTyped(a, a[id]);
    var ch := Children(a, id);
    forall i | 0 <= i < |ch| ensures id < ch[i] < |a| {
      assert ch[i] in DeviceOf(a[id]).children;
    }
  }

  /** The number of nodes the walk pops when it starts from `id`, counting a
      node shared by several parents once per parent. */
  function Size(a: seq<BlockDevice>, id: NodeId): nat
    requires Graph(a) && id < |a|
    decreases |a| - id, 1
  {
    ChildrenBounded(a, id);
    1 + SizeOf(a, Children(a, id), id)
  }

  function SizeOf(a: seq<BlockDevice>, ids: seq<NodeId>, lo: int): nat
    requires Graph(a) && -1 <= lo && Bounded(a, ids, lo)
    decreases |a| - lo, 0, |ids|
  {
    if ids == [] then 0 else SizeOf(a, ids[..|ids| - 1], lo) + Size(a, ids[|ids| - 1])
  }

  lemma {:induction false} SizeOfLo(a: seq<BlockDevice>, ids: seq<NodeId>, lo: int, lo2: int)
    requires Graph(a) && -1 <= lo && -1 <= lo2 && Bounded(a, ids, lo) && Bounded(a, ids, lo2)
    ensures SizeOf(a, ids, lo) == SizeOf(a, ids, lo2)
    decreases |ids|
  {
    if ids != [] {
      SizeOfLo(a, ids[..|ids| - 1], lo, lo2);
    }
  }

  lemma {:induction false} SizeOfAppend(a: seq<BlockDevice>, xs: seq<NodeId>, ys: seq<NodeId>)
    requires Graph(a) && Bounded(a, xs, -1) && Bounded(a, ys, -1)
    ensures Bounded(a, xs + ys, -1)
    ensures SizeOf(a, xs + ys, -1) == SizeOf(a, xs, -1) + SizeOf(a, ys, -1)
    decreases |ys|
  {
    assert Bounded(a, xs + ys, -1) by {
      forall i | 0 <= i < |xs + ys| ensures -1 < (xs + ys)[i] < |a| {
        if i >= |xs| {
          assert (xs + ys)[i] == ys[i - |xs|];
        }
      }
    }
    if ys != [] {
      var init := ys[..|ys| - 1];
      assert (xs + ys)[..|xs + ys| - 1] == xs + init;
      assert (xs + ys)[|xs + ys| - 1] == ys[|ys| - 1];
      SizeOfAppend(a, xs, init);
      calc {
        SizeOf(a, xs + ys, -1);
        SizeOf(a, xs + init, -1) + Size(a, ys[|ys| - 1]);
        SizeOf(a, xs, -1) + SizeOf(a, init, -1) + Size(a, ys[|ys| - 1]);
        SizeOf(a, xs, -1) + SizeOf(a, ys, -1);
      }
    } else {
      assert xs + ys == xs;
    }
  }

  /** Popping the top of the stack and pushing its children shrinks the
      amount of work left by one. */
  lemma StackStep(a: seq<BlockDevice>, stack: seq<NodeId>)
    requires Graph(a) && Bounded(a, stack, -1) && stack != []
    ensures var top := stack[|stack| - 1];
            var next := stack[..|stack| - 1] + Children(a, top);
            Bounded(a, next, -1) && SizeOf(a, next, -1) < SizeOf(a, stack, -1)
  {
    var top := stack[|stack| - 1];
    ChildrenBounded(a, top);
    SizeOfLo(a, Children(a, top), top, -1);
    SizeOfAppend(a, stack[..|stack| - 1], Children(a, top));
  }

  /** The nodes in the order `luks_lock` pops them from its stack: the top
      is taken, and its children are pushed in their stored order. */
  function Walk(a: seq<BlockDevice>, stack: seq<NodeId>): (r: seq<NodeId>)
    requires Graph(a) && Bounded(a, stack, -1)
    ensures Bounded(a, r, -1)
    decreases SizeOf(a, stack, -1)
  {
    if stack == [] then []
    else
      var top := stack[|stack| - 1];
      StackStep(a, stack);
      ChildrenBounded(a, top);
      [top] + Walk(a, stack[..|stack| - 1] + Children(a, top))
  }

  /** `to` is `from` or lies below it along `device.children` links. */
  ghost predicate Reaches(a: seq<BlockDevice>, from: NodeId, to: NodeId)
    requires Graph(a) && from < |a|
    decreases |a| - from
  {
    ChildrenBounded(a, from);
    from == to || exists c :: c in Children(a, from) && Reaches(a, c, to)
  }

  /** The walk pops exactly the nodes reachable from its initial stack. */
  lemma {:induction false} WalkCovers(a: seq<BlockDevice>, stack: seq<NodeId>)
    requires Graph(a) && Bounded(a, stack, -1)
    ensures forall x :: x in Walk(a, stack) <==> exists i :: 0 <= i < |stack| && Reaches(a, stack[i], x)
    decreases SizeOf(a, stack, -1)
  {
    if stack != [] {
      var top := stack[|stack| - 1];
      var rest := stack[..|stack| - 1];
      var ch := Children(a, top);
      var next := rest + ch;
      StackStep(a, stack);
      ChildrenBounded(a, top);
      WalkCovers(a, next);
      assert Walk(a, stack) == [top] + Walk(a, next);
      forall x | x in Walk(a, stack) ensures exists i :: 0 <= i < |stack| && Reaches(a, stack[i], x) {
        if x == top {
          assert Reaches(a, stack[|stack| - 1], x);
        } else {
          assert x in Walk(a, next);
          var j :| 0 <= j < |next| && Reaches(a, next[j], x);
          if j < |rest| {
            assert stack[j] == next[j];
          } else {
            assert next[j] in ch;
            assert Reaches(a, stack[|stack| - 1], x);
          }
        }
      }
      forall x | exists i :: 0 <= i < |stack| && Reaches(a, stack[i], x) ensures x in Walk(a, stack) {
        var i :| 0 <= i < |stack| && Reaches(a, stack[i], x);
        if i < |rest| {
          assert next[i] == stack[i];
          assert x in Walk(a, next);
        } else if x != top {
          var c :| c in ch && Reaches(a, c, x);
          var m :| 0 <= m < |ch| && ch[m] == c;
          assert next[|rest| + m] == c;
          assert x in Walk(a, next);
        }
      }
    }
  }

  /** `x` is a DeviceMap somewhere below `root`. */
  ghost predicate Below(a: seq<BlockDevice>, root: NodeId, x: NodeId)
    requires Graph(a) && root < |a|
  {
    ChildrenBounded(a, root);
    exists c :: c in Children(a, root) && Reaches(a, c, x)
  }

  /** The VG name of a DeviceMap node. */
  function VgOf(b: BlockDevice): Option<string> {
    if b.DeviceMapBlock? then b.devmap.vgName else None
  }

  predicate IsLuks(b: BlockDevice) {
    DeviceOf(b).fs.Some? && DeviceOf(b).fs.value.fsType == "crypto_LUKS"
  }

  /** `vgs_to_suspend`, as its `BTreeSet` iterates it: the VG names of the
      visited nodes, sorted and without repetition. */
  function VgsOf(a: seq<BlockDevice>, visited: seq<NodeId>): (r: seq<string>)
    requires Bounded(a, visited, -1)
    ensures SortedStrict(r)
  {
    if visited == [] then []
    else
      var rest := VgsOf(a, visited[..|visited| - 1]);
      match VgOf(a[visited[|visited| - 1]])
      case None => rest
      case Some(vg) => InsertSorted(rest, vg)
  }

  /** The names of the visited nodes that hold a LUKS container, in visit
      order. */
  function LuksNamesOf(a: seq<BlockDevice>, visited: seq<NodeId>): (r: seq<string>)
    requires Bounded(a, visited, -1)
    ensures |r| <= |visited|
  {
    if visited == [] then []
    else
      var rest := LuksNamesOf(a, visited[..|visited| - 1]);
      var b := a[visited[|visited| - 1]];
      if IsLuks(b) then rest + [DeviceOf(b).name] else rest
  }

  /** The groups are exactly the VG names found on the visited nodes. */
  lemma {:induction false} VgsOfMembers(a: seq<BlockDevice>, visited: seq<NodeId>)
    requires Bounded(a, visited, -1)
    ensures forall v :: v in VgsOf(a, visited) <==> exists i :: 0 <= i < |visited| && VgOf(a[visited[i]]) == Some(v)
  {
    if visited != [] {
      var init := visited[..|visited| - 1];
      VgsOfMembers(a, init);
      forall v ensures v in VgsOf(a, visited) <==> exists i :: 0 <= i < |visited| && VgOf(a[visited[i]]) == Some(v) {
        if exists i :: 0 <= i < |init| && VgOf(a[init[i]]) == Some(v) {
          var i :| 0 <= i < |init| && VgOf(a[init[i]]) == Some(v);
          assert visited[i] == init[i];
        }
        if exists i :: 0 <= i < |visited| && VgOf(a[visited[i]]) == Some(v) {
          var i :| 0 <= i < |visited| && VgOf(a[visited[i]]) == Some(v);
          if i < |init| {
            assert init[i] == visited[i];
          }
        }
      }
    }
  }

  /** The names are exactly those of the visited LUKS containers. */
  lemma {:induction false} LuksNamesOfMembers(a: seq<BlockDevice>, visited: seq<NodeId>)
    requires Bounded(a, visited, -1)
    ensures forall n :: n in LuksNamesOf(a, visited) <==>
              exists i :: 0 <= i < |visited| && IsLuks(a[visited[i]]) && DeviceOf(a[visited[i]]).name == n
  {
    if visited != [] {
      var init := visited[..|visited| - 1];
      LuksNamesOfMembers(a, init);
      forall n ensures n in LuksNamesOf(a, visited) <==>
                       exists i :: 0 <= i < |visited| && IsLuks(a[visited[i]]) && DeviceOf(a[visited[i]]).name == n {
        if exists i :: 0 <= i < |init| && IsLuks(a[init[i]]) && DeviceOf(a[init[i]]).name == n {
          var i :| 0 <= i < |init| && IsLuks(a[init[i]]) && DeviceOf(a[init[i]]).name == n;
          assert visited[i] == init[i];
        }
        if exists i :: 0 <= i < |visited| && IsLuks(a[visited[i]]) && DeviceOf(a[visited[i]]).name == n {
          var i :| 0 <= i < |visited| && IsLuks(a[visited[i]]) && DeviceOf(a[visited[i]]).name == n;
          if i < |init| {
            assert init[i] == visited[i];
          }
        }
      }
    }
  }

  /** What `luks_lock` decides to close before it closes anything. */
  datatype LockTargets = LockTargets(vgs: seq<string>, luks: seq<string>)

  function TargetsOf(s: Store, device: string): (t: LockTargets)
    requires WellFormed(s) && Acyclic(s.arena) && Has(s, device)
    ensures SortedStrict(t.vgs)
    ensures |t.luks| > 0 && t.luks[0] == device
  {
    var a := s.arena;
    var root := s.blocks[device];
    ChildrenBounded(a, root);
    var walk := Walk(a, Children(a, root));
    LockTargets(VgsOf(a, walk), [device] + LuksNamesOf(a, walk))
  }

  /** The walk from the children of `root` visits exactly the nodes below
      `root`. */
  lemma WalkBelow(a: seq<BlockDevice>, root: NodeId)
    requires Graph(a) && root < |a| && Bounded(a, Children(a, root), -1)
    ensures forall x :: x in Walk(a, Children(a, root)) <==> 0 <= x < |a| && Below(a, root, x)
  {
    var stack := Children(a, root);
    WalkCovers(a, stack);
    forall x ensures x in Walk(a, stack) <==> 0 <= x < |a| && Below(a, root, x) {
      if x in Walk(a, stack) {
        var i :| 0 <= i < |stack| && Reaches(a, stack[i], x);
        assert stack[i] in stack;
      }
      if 0 <= x < |a| && Below(a, root, x) {
        var c :| c in stack && Reaches(a, c, x);
        var i :| 0 <= i < |stack| && stack[i] == c;
      }
    }
  }

  /** The groups to deactivate are the VG names of the DeviceMaps below the
      device, sorted and distinct; the containers to close are the device
      itself first, then every LUKS container below it. */
  lemma TargetsOfSpec(s: Store, device: string)
    requires WellFormed(s) && Acyclic(s.arena) && Has(s, device)
    ensures SortedStrict(TargetsOf(s, device).vgs)
    ensures forall v :: v in TargetsOf(s, device).vgs <==>
              exists x :: 0 <= x < |s.arena| && Below(s.arena, s.blocks[device], x) && VgOf(s.arena[x]) == Some(v)
    ensures |TargetsOf(s, device).luks| > 0 && TargetsOf(s, device).luks[0] == device
    ensures forall n :: n in TargetsOf(s, device).luks[1..] <==>
              exists x :: 0 <= x < |s.arena| && Below(s.arena, s.blocks[device], x) && IsLuks(s.arena[x]) && DeviceOf(s.arena[x]).name == n
  {
    var a := s.arena;
    var root := s.blocks[device];
    ChildrenBounded(a, root);
    WalkBelow(a, root);
    var walk := Walk(a, Children(a, root));
    var t := TargetsOf(s, device);
    assert t.luks[1..] == LuksNamesOf(a, walk);
    VgsOfMembers(a, walk);
    LuksNamesOfMembers(a, walk);
    forall v | exists x :: 0 <= x < |a| && Below(a, root, x) && VgOf(a[x]) == Some(v) ensures v in t.vgs {
      var x :| 0 <= x < |a| && Below(a, root, x) && VgOf(a[x]) == Some(v);
      var i :| 0 <= i < |walk| && walk[i] == x;
    }
    forall n | exists x :: 0 <= x < |a| && Below(a, root, x) && IsLuks(a[x]) && DeviceOf(a[x]).name == n
      ensures n in t.luks[1..]
    {
      var x :| 0 <= x < |a| && Below(a, root, x) && IsLuks(a[x]) && DeviceOf(a[x]).name == n;
      var i :| 0 <= i < |walk| && walk[i] == x;
    }
  }

  /** One iteration of the walk: the top is popped first, then the walk
      goes on from the rest of the stack with the top's children pushed. */
  lemma WalkStep(a: seq<BlockDevice>, stack: seq<NodeId>, children: seq<NodeId>, visited: seq<NodeId>)
    requires Graph(a) && Bounded(a, stack, -1) && Bounded(a, children, -1) && children != []
    requires visited + Walk(a, children) == Walk(a, stack)
    ensures var top := children[|children| - 1];
            var next := children[..|children| - 1] + DeviceOf(a[top]).children;
            && Bounded(a, next, -1) && SizeOf(a, next, -1) < SizeOf(a, children, -1)
            && (visited + [top]) + Walk(a, next) == Walk(a, stack)
  {
    var top := children[|children| - 1];
    var next := children[..|children| - 1] + Children(a, top);
    StackStep(a, children);
    assert (visited + [top]) + Walk(a, next) == visited + ([top] + Walk(a, next));
  }

  /** The collected targets after one more node is visited. */
  lemma TargetsSnoc(a: seq<BlockDevice>, visited: seq<NodeId>, x: NodeId, device: string)
    requires Bounded(a, visited, -1)
    requires x < |a|
    ensures Bounded(a, visited + [x], -1)
    ensures VgsOf(a, visited + [x]) ==
              if VgOf(a[x]).Some? then InsertSorted(VgsOf(a, visited), VgOf(a[x]).value) else VgsOf(a, visited)
    ensures [device] + LuksNamesOf(a, visited + [x]) ==
              if IsLuks(a[x]) then ([device] + LuksNamesOf(a, visited)) + [DeviceOf(a[x]).name]
              else [device] + LuksNamesOf(a, visited)
  {
    assert (visited + [x])[..|visited|] == visited;
    if IsLuks(a[x]) {
      var names := LuksNamesOf(a, visited);
      assert ([device] + names) + [DeviceOf(a[x]).name] == [device] + (names + [DeviceOf(a[x]).name]);
    }
  }

  /** The walk of `luks_lock` (its `while let Some(child_) = children.pop()`
      loop) over the disk manager's current store. */
  method CollectTargets(dm: DiskManager, device: string) returns (vgs: seq<string>, luks: seq<string>)
    requires dm.Valid() && Acyclic(dm.arena) && Has(dm.Snapshot(), device)
    ensures LockTargets(vgs, luks) == TargetsOf(dm.Snapshot(), device)
  {
    var a := dm.arena;
    var root := dm.blocks[device];
    ChildrenBounded(a, root);
    vgs, luks := WalkTargets(a, DeviceOf(a[root]).children, device);
  }

  method WalkTargets(a: seq<BlockDevice>, stack: seq<NodeId>, device: string) returns (vgs: seq<string>, luks: seq<string>)
    requires Graph(a) && Bounded(a, stack, -1)
    ensures vgs == VgsOf(a, Walk(a, stack)) && luks == [device] + LuksNamesOf(a, Walk(a, stack))
  {
    var children := stack;
    ghost var visited: seq<NodeId> := [];
    vgs := [];
    luks := [device];
    while |children| > 0
      invariant Bounded(a, children, -1)
      invariant Bounded(a, visited, -1)
      invariant visited + Walk(a, children) == Walk(a, stack)
      invariant vgs == VgsOf(a, visited)
      invariant luks == [device] + LuksNamesOf(a, visited)
      decreases SizeOf(a, children, -1)
    {
      var child := children[|children| - 1];
      WalkStep(a, stack, children, visited);
      TargetsSnoc(a, visited, child, device);
      var node := a[child];
      var vg := VgOf(node);
      if vg.Some? {
        vgs := InsertSorted(vgs, vg.value);
      }
      if IsLuks(node) {
        luks := luks + [DeviceOf(node).name];
      }
      children := children[..|children| - 1] + DeviceOf(node).children;
      visited := visited + [child];
    }
    assert visited + Walk(a, children) == visited;
  }

  // -------------------------------------------------------------------------
  // luks_lock

  /** The index of the first group whose deactivation fails, or the
      number of groups when none does. */
  function FirstVgFailure(vgs: seq<string>, vgOk: string -> bool): (k: nat)
    ensures k <= |vgs|
    ensures forall i :: 0 <= i < k ==> vgOk(vgs[i])
    ensures k < |vgs| ==> !vgOk(vgs[k])
  {
    if vgs == [] || !vgOk(vgs[0]) then 0 else 1 + FirstVgFailure(vgs[1..], vgOk)
  }

  /** The index of the first container that fails to close, or the number
      of containers when none does. */
  function FirstCloseFailure(paths: seq<string>, name: string, luksClose: (string, string) -> Result<(), LibcryptErr>): (k: nat)
    ensures k <= |paths|
    ensures forall i :: 0 <= i < k ==> luksClose(paths[i], name).Success?
    ensures k < |paths| ==> luksClose(paths[k], name).Failure?
  {
    if paths == [] || luksClose(paths[0], name).Failure? then 0
    else 1 + FirstCloseFailure(paths[1..], name, luksClose)
  }

  function VgCalls(vgs: seq<string>): (r: seq<Call>)
    ensures |r| == |vgs| && forall i :: 0 <= i < |vgs| ==> r[i] == VgDeactivate(vgs[i])
  {
    if vgs == [] then [] else VgCalls(vgs[..|vgs| - 1]) + [VgDeactivate(vgs[|vgs| - 1])]
  }

  function LuksCalls(paths: seq<string>, name: string): (r: seq<Call>)
    ensures |r| == |paths| && forall i :: 0 <= i < |paths| ==> r[i] == LuksDeactivate(paths[i], name)
  {
    if paths == [] then [] else LuksCalls(paths[..|paths| - 1], name) + [LuksDeactivate(paths[|paths| - 1], name)]
  }

  /** Everything `luks_lock` produces: its outcome, its calls, and the
      store it leaves behind. */
  datatype LockRun = LockRun(outcome: LockOutcome, calls: seq<Call>, store: Store)

  /** What `luks_lock` does once it knows its targets: every VG of
      `t.vgs` is deactivated (a failure panics), then every container of
      `t.luks` is closed under the given mapper name, stopping at the first
      error, and only after all of that succeeds is the store reloaded. */
  function LockedWith(s: Store, t: LockTargets, name: string, vgOk: string -> bool,
                      luksClose: (string, string) -> Result<(), LibcryptErr>, scan: Option<seq<RawRecord>>): (run: LockRun)
    ensures run.outcome != Returned(Success(())) ==> run.store == s
    ensures run.outcome == Returned(Success(())) ==> run.store == Reloaded(scan) && |run.calls| > 0 && run.calls[|run.calls| - 1] == Rescan
    ensures run.outcome.Returned? && run.outcome.result.Failure? ==> run.outcome.result.error.Cryptsetup?
  {
    var kv := FirstVgFailure(t.vgs, vgOk);
    if kv < |t.vgs| then LockRun(Panicked, VgCalls(t.vgs[..kv + 1]), s)
    else
      var kl := FirstCloseFailure(t.luks, name, luksClose);
      if kl < |t.luks| then
        LockRun(Returned(Failure(Cryptsetup(luksClose(t.luks[kl], name).error))),
                VgCalls(t.vgs) + LuksCalls(t.luks[..kl + 1], name), s)
      else
        LockRun(Returned(Success(())), VgCalls(t.vgs) + LuksCalls(t.luks, name) + [Rescan], Reloaded(scan))
  }

  /** `luks_lock`: the device must be a key of the store; then it works on
      the targets the walk below the device collects. */
  function Locked(s: Store, device: string, name: string, vgOk: string -> bool,
                  luksClose: (string, string) -> Result<(), LibcryptErr>, scan: Option<seq<RawRecord>>): (run: LockRun)
    requires WellFormed(s) && Acyclic(s.arena)
    ensures run.outcome == Returned(Failure(DeviceNotFound)) <==> !Has(s, device)
    ensures !Has(s, device) ==> run.calls == []
    ensures run.outcome != Returned(Success(())) ==> run.store == s
  {
    if !Has(s, device) then LockRun(Returned(Failure(DeviceNotFound)), [], s)
    else LockedWith(s, TargetsOf(s, device), name, vgOk, luksClose, scan)
  }

  /** `for vg in vgs_to_suspend { vg_deactivate(&vg).unwrap() }`: the
      groups are deactivated in order; `ok` is false when one fails, and
      then that one was the last call. */
  method DeactivateVgs(vgs: seq<string>, vgOk: string -> bool) returns (ok: bool, calls: seq<Call>)
    ensures var k := FirstVgFailure(vgs, vgOk);
            && (ok <==> k == |vgs|)
            && calls == VgCalls(vgs[..if ok then k else k + 1])
  {
    ghost var k := FirstVgFailure(vgs, vgOk);
    calls := [];
    for i := 0 to |vgs|
      invariant i <= k
      invariant calls == VgCalls(vgs[..i])
    {
      calls := calls + [VgDeactivate(vgs[i])];
      assert vgs[..i + 1][..i] == vgs[..i];
      if !vgOk(vgs[i]) {
        return false, calls;
      }
    }
    assert vgs[..|vgs|] == vgs;
    ok := true;
  }

  /** `for luks in luks_to_lock { deactivate(luks, name)? }`: the
      containers are closed in order under the same mapper name, stopping
      at the first error, which is returned. */
  method CloseContainers(paths: seq<string>, name: string, luksClose: (string, string) -> Result<(), LibcryptErr>)
    returns (err: Option<LibcryptErr>, calls: seq<Call>)
    ensures var k := FirstCloseFailure(paths, name, luksClose);
            && (err.None? <==> k == |paths|)
            && (err.Some? ==> err.value == luksClose(paths[k], name).error)
            && calls == LuksCalls(paths[..if err.None? then k else k + 1], name)
  {
    ghost var k := FirstCloseFailure(paths, name, luksClose);
    calls := [];
    for i := 0 to |paths|
      invariant i <= k
      invariant calls == LuksCalls(paths[..i], name)
    {
      var closed := luksClose(paths[i], name);
      calls := calls + [LuksDeactivate(paths[i], name)];
      assert paths[..i + 1][..i] == paths[..i];
      if closed.Failure? {
        return Some(closed.error), calls;
      }
    }
    assert paths[..|paths|] == paths;
    err := None;
  }

  /** Once the targets are known, the run panics exactly when some VG fails
      to deactivate, and returns `Ok` exactly when every VG deactivates and
      every container closes. */
  lemma PhaseOutcomes(s: Store, t: LockTargets, name: string, vgOk: string -> bool,
                      luksClose: (string, string) -> Result<(), LibcryptErr>, scan: Option<seq<RawRecord>>)
    ensures var run := LockedWith(s, t, name, vgOk, luksClose, scan);
            && run.outcome != Returned(Failure(DeviceNotFound))
            && (run.outcome == Panicked <==> exists v :: v in t.vgs && !vgOk(v))
            && (run.outcome == Returned(Success(())) <==>
                  && (forall v :: v in t.vgs ==> vgOk(v))
                  && (forall l :: l in t.luks ==> luksClose(l, name).Success?))
  {
    var kv := FirstVgFailure(t.vgs, vgOk);
    if kv == |t.vgs| {
      var kl := FirstCloseFailure(t.luks, name, luksClose);
      if kl < |t.luks| {
        assert t.luks[kl] in t.luks;
      } else {
        forall l | l in t.luks ensures luksClose(l, name).Success? {
          var i :| 0 <= i < |t.luks| && t.luks[i] == l;
        }
      }
      forall v | v in t.vgs ensures vgOk(v) {
        var i :| 0 <= i < |t.vgs| && t.vgs[i] == v;
      }
    } else {
      assert t.vgs[kv] in t.vgs;
    }
  }

  /** `luks_lock` returns `Ok` exactly when the device is in the store,
      every VG below it deactivates and every container closes. A panic
      happens exactly when some VG fails to deactivate. */
  lemma LockOutcomes(s: Store, device: string, name: string, vgOk: string -> bool,
                     luksClose: (string, string) -> Result<(), LibcryptErr>, scan: Option<seq<RawRecord>>)
    requires WellFormed(s) && Acyclic(s.arena)
    ensures var run := Locked(s, device, name, vgOk, luksClose, scan);
            && (run.outcome == Returned(Failure(DeviceNotFound)) <==> !Has(s, device))
            && (run.outcome == Returned(Failure(DeviceNotFound)) ==> run.calls == [] && run.store == s)
            && (run.outcome == Panicked <==>
                  Has(s, device) && exists v :: v in TargetsOf(s, device).vgs && !vgOk(v))
            && (run.outcome == Returned(Success(())) <==>
                  && Has(s, device)
                  && (forall v :: v in TargetsOf(s, device).vgs ==> vgOk(v))
                  && (forall l :: l in TargetsOf(s, device).luks ==> luksClose(l, name).Success?))
  {
    if Has(s, device) {
      PhaseOutcomes(s, TargetsOf(s, device), name, vgOk, luksClose, scan);
    }
  }

  /** Once the targets are known, any outcome other than `Ok` leaves the
      store as it was and rescans nothing; `Ok` leaves the store of the
      rescan, the rescan being the last call. */
  lemma PhaseEffects(s: Store, t: LockTargets, name: string, vgOk: string -> bool,
                     luksClose: (string, string) -> Result<(), LibcryptErr>, scan: Option<seq<RawRecord>>)
    ensures var run := LockedWith(s, t, name, vgOk, luksClose, scan);
            && (run.outcome != Returned(Success(())) ==> run.store == s && Rescan !in run.calls)
            && (run.outcome == Returned(Success(())) ==>
                  run.store == Reloaded(scan) && |run.calls| > 0 && run.calls[|run.calls| - 1] == Rescan)
  {
    var run := LockedWith(s, t, name, vgOk, luksClose, scan);
    var kv := FirstVgFailure(t.vgs, vgOk);
    if kv == |t.vgs| {
      var kl := FirstCloseFailure(t.luks, name, luksClose);
      if kl < |t.luks| {
        var vc := VgCalls(t.vgs);
        var lc := LuksCalls(t.luks[..kl + 1], name);
        assert run.calls == vc + lc;
        forall i | 0 <= i < |run.calls| ensures run.calls[i] != Rescan {
          if i < |vc| {
            assert run.calls[i] == vc[i];
          } else {
            assert run.calls[i] == lc[i - |vc|];
          }
        }
      }
    } else {
      assert forall i :: 0 <= i < |run.calls| ==> run.calls[i] != Rescan;
    }
  }

  /** Any outcome of `luks_lock` other than `Ok` leaves the store as it was
      and rescans nothing; `Ok` leaves the store of the rescan, the rescan
      being the last call. */
  lemma LockEffects(s: Store, device: string, name: string, vgOk: string -> bool,
                    luksClose: (string, string) -> Result<(), LibcryptErr>, scan: Option<seq<RawRecord>>)
    requires WellFormed(s) && Acyclic(s.arena)
    ensures var run := Locked(s, device, name, vgOk, luksClose, scan);
            && (run.outcome != Returned(Success(())) ==> run.store == s && Rescan !in run.calls)
            && (run.outcome == Returned(Success(())) ==>
                  run.store == Reloaded(scan) && |run.calls| > 0 && run.calls[|run.calls| - 1] == Rescan)
  {
    if Has(s, device) {
      PhaseEffects(s, TargetsOf(s, device), name, vgOk, luksClose, scan);
    }
  }

  /** A trace made of VG deactivations, then container closes, then calls
      of neither kind, has every VG deactivation before everything else, and
      the first close right after the deactivations. */
  lemma {:induction false} LockPhases(vgs: seq<string>, paths: seq<string>, name: string, tail: seq<Call>)
    requires forall i :: 0 <= i < |tail| ==> !tail[i].VgDeactivate?
    ensures var calls := VgCalls(vgs) + LuksCalls(paths, name) + tail;
            forall i, j :: 0 <= i < j < |calls| && calls[j].VgDeactivate? ==> calls[i].VgDeactivate?
    ensures var calls := VgCalls(vgs) + LuksCalls(paths, name) + tail;
            |paths| > 0 ==> |vgs| < |calls| && calls[|vgs|] == LuksDeactivate(paths[0], name)
  {
    var vc := VgCalls(vgs);
    var lc := LuksCalls(paths, name);
    var calls := vc + lc + tail;
    forall j | |vc| <= j < |calls| ensures !calls[j].VgDeactivate? {
      if j < |vc| + |lc| {
        assert calls[j] == lc[j - |vc|];
      } else {
        assert calls[j] == tail[j - |vc| - |lc|];
      }
    }
    forall i | 0 <= i < |vc| ensures calls[i].VgDeactivate? {
      assert calls[i] == vc[i];
    }
    if |paths| > 0 {
      assert calls[|vgs|] == lc[0];
    }
  }

  /** The calls of `luks_lock` come in phases: every VG deactivation comes
      before every container close, and once the VGs are all down the
      first container closed is the device itself. */
  lemma LockCallOrder(s: Store, device: string, name: string, vgOk: string -> bool,
                      luksClose: (string, string) -> Result<(), LibcryptErr>, scan: Option<seq<RawRecord>>)
    requires WellFormed(s) && Acyclic(s.arena)
    ensures var calls := Locked(s, device, name, vgOk, luksClose, scan).calls;
            forall i, j :: 0 <= i < j < |calls| && calls[j].VgDeactivate? ==> calls[i].VgDeactivate?
    ensures var calls := Locked(s, device, name, vgOk, luksClose, scan).calls;
            Has(s, device) && (forall v :: v in TargetsOf(s, device).vgs ==> vgOk(v)) ==>
              var k := |TargetsOf(s, device).vgs|;
              k < |calls| && calls[k] == LuksDeactivate(device, name)
  {
    if Has(s, device) {
      var t := TargetsOf(s, device);
      assert t.luks[0] == device;
      PhaseOrder(s, t, name, vgOk, luksClose, scan);
    }
  }

  /** Once the targets are known, every VG deactivation comes before every
      container close, and once the VGs are all down the first target
      container is closed right after them. */
  lemma PhaseOrder(s: Store, t: LockTargets, name: string, vgOk: string -> bool,
                   luksClose: (string, string) -> Result<(), LibcryptErr>, scan: Option<seq<RawRecord>>)
    ensures var calls := LockedWith(s, t, name, vgOk, luksClose, scan).calls;
            forall i, j :: 0 <= i < j < |calls| && calls[j].VgDeactivate? ==> calls[i].VgDeactivate?
    ensures var calls := LockedWith(s, t, name, vgOk, luksClose, scan).calls;
            (forall v :: v in t.vgs ==> vgOk(v)) && |t.luks| > 0 ==>
              |t.vgs| < |calls| && calls[|t.vgs|] == LuksDeactivate(t.luks[0], name)
  {
    var run := LockedWith(s, t, name, vgOk, luksClose, scan);
    var kv := FirstVgFailure(t.vgs, vgOk);
    assert kv < |t.vgs| ==> t.vgs[kv] in t.vgs;
    if kv < |t.vgs| {
      assert run.calls == VgCalls(t.vgs[..kv + 1]) + LuksCalls([], name) + [];
      LockPhases(t.vgs[..kv + 1], [], name, []);
    } else {
      var kl := FirstCloseFailure(t.luks, name, luksClose);
      if kl < |t.luks| {
        assert run.calls == VgCalls(t.vgs) + LuksCalls(t.luks[..kl + 1], name) + [];
        LockPhases(t.vgs, t.luks[..kl + 1], name, []);
      } else {
        LockPhases(t.vgs, t.luks, name, [Rescan]);
      }
    }
  }

  lemma CallsMembers(vgs: seq<string>, paths: seq<string>, name: string, tail: seq<Call>)
    requires forall c :: c in tail ==> c == Rescan
    ensures var calls := VgCalls(vgs) + LuksCalls(paths, name) + tail;
            && (forall v :: VgDeactivate(v) in calls <==> v in vgs)
            && (forall p, m :: LuksDeactivate(p, m) in calls <==> p in paths && m == name)
  {
    var vc := VgCalls(vgs);
    var lc := LuksCalls(paths, name);
    forall c | c in vc ensures c.VgDeactivate? && c.vg in vgs {
      var i :| 0 <= i < |vc| && vc[i] == c;
    }
    forall c | c in lc ensures c.LuksDeactivate? && c.path in paths && c.name == name {
      var i :| 0 <= i < |lc| && lc[i] == c;
    }
    forall v | v in vgs ensures VgDeactivate(v) in vc {
      var i :| 0 <= i < |vgs| && vgs[i] == v;
      assert vc[i] == VgDeactivate(v);
    }
    forall p | p in paths ensures LuksDeactivate(p, name) in lc {
      var i :| 0 <= i < |paths| && paths[i] == p;
      assert lc[i] == LuksDeactivate(p, name);
    }
  }

  /** A successful `luks_lock` deactivated every VG found on the DeviceMaps
      below the device and nothing else, and closed the device and every
      LUKS container below it, all under the given mapper name. */
  lemma LockCascade(s: Store, device: string, name: string, vgOk: string -> bool,
                    luksClose: (string, string) -> Result<(), LibcryptErr>, scan: Option<seq<RawRecord>>)
    requires WellFormed(s) && Acyclic(s.arena)
    requires Locked(s, device, name, vgOk, luksClose, scan).outcome == Returned(Success(()))
    ensures Has(s, device)
    ensures var calls := Locked(s, device, name, vgOk, luksClose, scan).calls;
            var root := s.blocks[device];
            && (forall v :: VgDeactivate(v) in calls <==>
                  exists x :: 0 <= x < |s.arena| && Below(s.arena, root, x) && VgOf(s.arena[x]) == Some(v))
            && LuksDeactivate(device, name) in calls
            && (forall x :: 0 <= x < |s.arena| && Below(s.arena, root, x) && IsLuks(s.arena[x]) ==>
                  LuksDeactivate(DeviceOf(s.arena[x]).name, name) in calls)
            && (forall p, m :: LuksDeactivate(p, m) in calls ==> m == name)
  {
    LockOutcomes(s, device, name, vgOk, luksClose, scan);
    TargetsOfSpec(s, device);
    var t := TargetsOf(s, device);
    CallsMembers(t.vgs, t.luks, name, [Rescan]);
    assert t.luks == [device] + t.luks[1..];
    forall x | 0 <= x < |s.arena| && Below(s.arena, s.blocks[device], x) && IsLuks(s.arena[x])
      ensures DeviceOf(s.arena[x]).name in t.luks
    {
      assert DeviceOf(s.arena[x]).name in t.luks[1..];
    }
  }

  /** The part of `luks_lock` after the walk: deactivate the VGs, close
      the containers, then reload. */
  method SuspendAndClose(dm: DiskManager, vgs: seq<string>, luks: seq<string>, name: string, vgOk: string -> bool,
                         luksClose: (string, string) -> Result<(), LibcryptErr>, scan: Option<seq<RawRecord>>)
    returns (outcome: LockOutcome, calls: seq<Call>)
    requires dm.Valid()
    modifies dm
    ensures dm.Valid()
    ensures LockRun(outcome, calls, dm.Snapshot()) == LockedWith(old(dm.Snapshot()), LockTargets(vgs, luks), name, vgOk, luksClose, scan)
  {
    ghost var s := dm.Snapshot();
    var ok, vgCalls := DeactivateVgs(vgs, vgOk);
    if !ok {
      return Panicked, vgCalls;
    }
    assert vgs[..|vgs|] == vgs;
    var err, luksCalls := CloseContainers(luks, name, luksClose);
    calls := vgCalls + luksCalls;
    if err.Some? {
      return Returned(Failure(Cryptsetup(err.value))), calls;
    }
    assert luks[..|luks|] == luks;
    Reload(dm, scan);
    calls := calls + [Rescan];
    outcome := Returned(Success(()));
  }

  /** `DiskManager::luks_lock` */
  method LuksLock(dm: DiskManager, device: string, name: string, vgOk: string -> bool,
                  luksClose: (string, string) -> Result<(), LibcryptErr>, scan: Option<seq<RawRecord>>)
    returns (outcome: LockOutcome, calls: seq<Call>)
    requires dm.Valid() && Acyclic(dm.arena)
    modifies dm
    ensures dm.Valid()
    ensures LockRun(outcome, calls, dm.Snapshot()) == Locked(old(dm.Snapshot()), device, name, vgOk, luksClose, scan)
  {
    ghost var s := dm.Snapshot();
    if device !in dm.blocks {
      assert !Has(s, device);
      return Returned(Failure(DeviceNotFound)), [];
    }
    assert Has(s, device);
    var vgs, luks := CollectTargets(dm, device);
    outcome, calls := SuspendAndClose(dm, vgs, luks, name, vgOk, luksClose, scan);
  }

  // -------------------------------------------------------------------------
  // luks_unlock

  /** Everything `luks_unlock` produces. `result` is `None` when the rescans
      supplied ran out before the new mapping appeared: the original polls
      without bound. */
  datatype UnlockRun = UnlockRun(result: Option<Result<(), EncryptionError>>, calls: seq<Call>, store: Store)

  function Rescans(n: nat): (r: seq<Call>)
    ensures |r| == n && forall i :: 0 <= i < n ==> r[i] == Rescan
  {
    if n == 0 then [] else Rescans(n - 1) + [Rescan]
  }

  /** The index of the first true flag, or the number of flags when none
      is. */
  function FirstTrue(bs: seq<bool>): (n: nat)
    ensures n <= |bs|
    ensures forall i :: 0 <= i < n ==> !bs[i]
    ensures n < |bs| ==> bs[n]
  {
    if bs == [] || bs[0] then 0 else 1 + FirstTrue(bs[1..])
  }

  /** For each rescan, whether the store it rebuilds holds a DeviceMap
      named `dmName`. */
  ghost function MappedFlags(scans: seq<Option<seq<RawRecord>>>, dmName: string): (bs: seq<bool>)
    ensures |bs| == |scans|
    ensures forall i :: 0 <= i < |scans| ==> bs[i] == HasDmNamed(Reloaded(scans[i]), dmName)
  {
    seq(|scans|, i requires 0 <= i < |scans| => HasDmNamed(Reloaded(scans[i]), dmName))
  }

  /** The index of the first rescan that shows a DeviceMap named `dmName`,
      or the number of rescans when none does. */
  ghost function FirstMapped(scans: seq<Option<seq<RawRecord>>>, dmName: string): (n: nat)
    ensures n <= |scans|
    ensures forall i :: 0 <= i < n ==> !HasDmNamed(Reloaded(scans[i]), dmName)
    ensures n < |scans| ==> HasDmNamed(Reloaded(scans[n]), dmName)
  {
    var bs := MappedFlags(scans, dmName);
    var n := FirstTrue(bs);
    assert forall i :: 0 <= i < n ==> !bs[i];
    n
  }

  /** `luks_unlock`: the device must be a key of the store and must open
      under `dmName` with `key`; then all VGs are activated (whatever that
      reports) and the store is rebuilt from successive rescans until one of
      them holds a DeviceMap named `dmName`. */
  ghost function Unlocked(s: Store, device: string, dmName: string, key: seq<bv8>,
                          activate: (string, string, seq<bv8>) -> Result<(), LibcryptErr>,
                          scans: seq<Option<seq<RawRecord>>>): (run: UnlockRun)
    ensures run.result == Some(Failure(DeviceNotFound)) <==> device !in s.blocks
    ensures device !in s.blocks ==> run.calls == []
    ensures run.result.Some? && run.result.value.Failure? ==> run.store == s
  {
    if device !in s.blocks then UnlockRun(Some(Failure(DeviceNotFound)), [], s)
    else if activate(device, dmName, key).Failure? then
      UnlockRun(Some(Failure(Cryptsetup(activate(device, dmName, key).error))), [LuksActivate(device, dmName)], s)
    else
      var n := FirstMapped(scans, dmName);
      var prefix := [LuksActivate(device, dmName), VgActivateAll];
      if n < |scans| then UnlockRun(Some(Success(())), prefix + Rescans(n + 1), Reloaded(scans[n]))
      else if scans == [] then UnlockRun(None, prefix, s)
      else UnlockRun(None, prefix + Rescans(|scans|), Reloaded(scans[|scans| - 1]))
  }

  /** `luks_unlock` fails with `DeviceNotFound` exactly when the device is
      not a key of the store, and a failure leaves the store as it was. It
      succeeds exactly when the device opens and some rescan shows a
      DeviceMap named `dmName`; the store is then that of the first such
      rescan. When it has not finished, no rescan supplied showed the
      mapping. The device is opened first, VGs are activated next, and
      only rescans follow. */
  lemma UnlockOutcomes(s: Store, device: string, dmName: string, key: seq<bv8>,
                       activate: (string, string, seq<bv8>) -> Result<(), LibcryptErr>,
                       scans: seq<Option<seq<RawRecord>>>)
    ensures var run := Unlocked(s, device, dmName, key, activate, scans);
            && (run.result == Some(Failure(DeviceNotFound)) <==> device !in s.blocks)
            && (run.result == Some(Failure(DeviceNotFound)) ==> run.calls == [] && run.store == s)
            && (run.result.Some? && run.result.value.Failure? ==> run.store == s && |run.calls| <= 1)
            && (run.result == Some(Success(())) <==>
                  && device in s.blocks && activate(device, dmName, key).Success?
                  && exists i :: 0 <= i < |scans| && HasDmNamed(Reloaded(scans[i]), dmName))
            && (run.result == Some(Success(())) ==>
                  HasDmNamed(run.store, dmName) && exists i :: 0 <= i < |scans| && run.store == Reloaded(scans[i]))
            && (run.result.None? ==> forall i :: 0 <= i < |scans| ==> !HasDmNamed(Reloaded(scans[i]), dmName))
            && (device in s.blocks ==> |run.calls| > 0 && run.calls[0] == LuksActivate(device, dmName))
            && (device in s.blocks && activate(device, dmName, key).Success? ==>
                  |run.calls| > 1 && run.calls[1] == VgActivateAll &&
                  forall i :: 2 <= i < |run.calls| ==> run.calls[i] == Rescan)
  {
    var n := FirstMapped(scans, dmName);
    if n < |scans| {
      assert HasDmNamed(Reloaded(scans[n]), dmName);
    }
  }

  /** The tail of `luks_unlock`: `reload`, then `reload` again for as long
      as no DeviceMap is named `dmName`. `found` is false when the rescans
      supplied run out first. */
  method AwaitMapping(dm: DiskManager, dmName: string, scans: seq<Option<seq<RawRecord>>>)
    returns (found: bool, calls: seq<Call>)
    requires |scans| > 0
    modifies dm
    ensures dm.Valid()
    ensures var n := FirstMapped(scans, dmName);
            && (found <==> n < |scans|)
            && (found ==> calls == Rescans(n + 1) && dm.Snapshot() == Reloaded(scans[n]))
            && (!found ==> calls == Rescans(|scans|) && dm.Snapshot() == Reloaded(scans[|scans| - 1]))
  {
    ghost var flags := MappedFlags(scans, dmName);
    ghost var n := FirstTrue(flags);
    assert n == FirstMapped(scans, dmName);
    Reload(dm, scans[0]);
    calls := [Rescan];
    var i := 1;
    var mapped := dm.DmByDmName(dmName);
    while mapped.None?
      invariant 1 <= i <= |scans| && i <= n + 1
      invariant dm.Valid() && dm.Snapshot() == Reloaded(scans[i - 1])
      invariant mapped.None? <==> !flags[i - 1]
      invariant calls == Rescans(i)
      decreases |scans| - i
    {
      assert n != i - 1;
      if i == |scans| {
        return false, calls;
      }
      Reload(dm, scans[i]);
      calls := calls + [Rescan];
      assert Rescans(i + 1) == Rescans(i) + [Rescan];
      i := i + 1;
      mapped := dm.DmByDmName(dmName);
    }
    assert n == i - 1;
    found := true;
  }

  /** `DiskManager::luks_unlock` */
  method LuksUnlock(dm: DiskManager, device: string, dmName: string, key: seq<bv8>,
                    activate: (string, string, seq<bv8>) -> Result<(), LibcryptErr>,
                    scans: seq<Option<seq<RawRecord>>>)
    returns (r: Option<Result<(), EncryptionError>>, calls: seq<Call>)
    requires dm.Valid()
    modifies dm
    ensures dm.Valid()
    ensures UnlockRun(r, calls, dm.Snapshot()) == Unlocked(old(dm.Snapshot()), device, dmName, key, activate, scans)
  {
    ghost var s := dm.Snapshot();
    if device !in dm.blocks {
      return Some(Failure(DeviceNotFound)), [];
    }
    var activated := activate(device, dmName, key);
    if activated.Failure? {
      return Some(Failure(Cryptsetup(activated.error))), [LuksActivate(device, dmName)];
    }
    calls := [LuksActivate(device, dmName), VgActivateAll];
    if |scans| == 0 {
      return None, calls;
    }
    var found, rescans := AwaitMapping(dm, dmName, scans);
    calls := calls + rescans;
    r := if found then Some(Success(())) else None;
    assert UnlockRun(r, calls, dm.Snapshot()) == Unlocked(s, device, dmName, key, activate, scans);
  }
}
