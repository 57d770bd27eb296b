/** The service backend (`src/backend.rs`): the encrypted-device listing,
    the `decrypt` request and the disk rescan.

    Getting a udev context is external and is given as a flag. The random
    mapper-name draws are given as a sequence, and whether a name already
    exists under /dev/mapper as a predicate. */
module Backend {
  import opened Wrappers
  import opened RustStd
  import opened BlockTypes
  import opened Blocks
  import opened Udev
  import opened Encryption

  /** `EncryptedDevice`: the store key of a LUKS container and its UUID. */
  datatype EncryptedDevice = EncryptedDevice(path: string, uuid: string)

  /** The failures `decrypt` and `disk_rescan` report; each corresponds to
      one `context` message of the original. */
  datatype BackendError =
    | UdevUnavailable                  // "could not get libudev context" and the like
    | NoDeviceWithUuid                 // "could not find block device by UUID"
    | UnlockFailed(why: EncryptionError) // "err to unlock device"

  /** A LUKS container that is not open: its filesystem is crypto_LUKS and
      no DeviceMap has been created on it. */
  predicate IsLockedLuks(b: BlockDevice) {
    DeviceOf(b).fs.Some? && DeviceOf(b).fs.value.fsType == "crypto_LUKS" && DeviceOf(b).children == []
  }

  /** The listing entry of the locked container stored under `k`. */
  function EncryptedAt(s: Store, k: string): EncryptedDevice
    requires Has(s, k) && IsLockedLuks(At(s, k))
  {
    EncryptedDevice(k, DeviceOf(At(s, k)).fs.value.uuid)
  }

  /** The listing of the locked containers among the keys `ks`, in the
      order of `ks`. */
  function EncryptedAmong(s: Store, ks: seq<string>): (r: seq<EncryptedDevice>)
    requires forall i :: 0 <= i < |ks| ==> Has(s, ks[i])
    ensures |r| <= |ks|
  {
    if ks == [] then []
    else
      var k := ks[|ks| - 1];
      EncryptedAmong(s, ks[..|ks| - 1]) + (if IsLockedLuks(At(s, k)) then [EncryptedAt(s, k)] else [])
  }

  /** Every entry of the listing is a locked container of `ks`, listed
      with its own UUID. */
  lemma {:induction false} EncryptedAmongSound(s: Store, ks: seq<string>)
    requires forall i :: 0 <= i < |ks| ==> Has(s, ks[i])
    ensures forall i :: 0 <= i < |EncryptedAmong(s, ks)| ==>
              && EncryptedAmong(s, ks)[i].path in ks
              && IsLockedLuks(At(s, EncryptedAmong(s, ks)[i].path))
              && EncryptedAmong(s, ks)[i] == EncryptedAt(s, EncryptedAmong(s, ks)[i].path)
  {
    if ks != [] {
      var init := ks[..|ks| - 1];
      EncryptedAmongSound(s, init);
      assert forall x :: x in init ==> x in ks;
    }
  }

  /** Every locked container of `ks` is listed. */
  lemma {:induction false} EncryptedAmongComplete(s: Store, ks: seq<string>)
    requires forall i :: 0 <= i < |ks| ==> Has(s, ks[i])
    ensures forall k :: k in ks && IsLockedLuks(At(s, k)) ==> EncryptedAt(s, k) in EncryptedAmong(s, ks)
  {
    if ks != [] {
      var init := ks[..|ks| - 1];
      EncryptedAmongComplete(s, init);
      assert ks == init + [ks[|ks| - 1]];
    }
  }

  /** Keys in strictly increasing order give paths in strictly increasing
      order. */
  lemma {:induction false} EncryptedAmongSorted(s: Store, ks: seq<string>)
    requires forall i :: 0 <= i < |ks| ==> Has(s, ks[i])
    requires SortedStrict(ks)
    ensures forall i, j :: 0 <= i < j < |EncryptedAmong(s, ks)| ==>
              Less(EncryptedAmong(s, ks)[i].path, EncryptedAmong(s, ks)[j].path)
  {
    if ks != [] {
      var init := ks[..|ks| - 1];
      var k := ks[|ks| - 1];
      assert SortedStrict(init);
      EncryptedAmongSorted(s, init);
      EncryptedAmongSound(s, init);
      var r0 := EncryptedAmong(s, init);
      forall i | 0 <= i < |r0| ensures Less(r0[i].path, k) {
        var j :| 0 <= j < |init| && init[j] == r0[i].path;
        assert init[j] == ks[j];
      }
    }
  }

  /** `encrypted_devices`: every locked LUKS container of the store, in key
      order, with its store key as path and its filesystem UUID. */
  method EncryptedDevices(dm: DiskManager) returns (r: seq<EncryptedDevice>)
    requires dm.Valid()
    ensures r == EncryptedAmong(dm.Snapshot(), dm.keys)
  {
    ghost var s := dm.Snapshot();
    var keys := dm.keys;
    r := [];
    for n := 0 to |keys|
      invariant r == EncryptedAmong(s, keys[..n])
    {
      var devname := keys[n];
      assert keys[..n + 1][..n] == keys[..n];
      var device := DeviceOf(dm.arena[dm.blocks[devname]]);
      if device.fs.Some? && device.fs.value.fsType == "crypto_LUKS" && device.children == [] {
        r := r + [EncryptedDevice(devname, device.fs.value.uuid)];
      }
    }
    assert keys[..|keys|] == keys;
  }

  /** What `encrypted_devices` lists, stated on the store: exactly the
      locked containers, each once, in key order. */
  lemma EncryptedDevicesSpec(s: Store)
    requires WellFormed(s)
    ensures forall i :: 0 <= i < |EncryptedAmong(s, s.keys)| ==>
              && Has(s, EncryptedAmong(s, s.keys)[i].path)
              && IsLockedLuks(At(s, EncryptedAmong(s, s.keys)[i].path))
              && EncryptedAmong(s, s.keys)[i] == EncryptedAt(s, EncryptedAmong(s, s.keys)[i].path)
    ensures forall k :: Has(s, k) && IsLockedLuks(At(s, k)) ==> EncryptedAt(s, k) in EncryptedAmong(s, s.keys)
    ensures forall i, j :: 0 <= i < j < |EncryptedAmong(s, s.keys)| ==>
              Less(EncryptedAmong(s, s.keys)[i].path, EncryptedAmong(s, s.keys)[j].path)
  {
    EncryptedAmongSound(s, s.keys);
    EncryptedAmongComplete(s, s.keys);
    EncryptedAmongSorted(s, s.keys);
  }

  /** An ASCII letter or digit, what `rand::distributions::Alphanumeric`
      draws. */
  predicate IsAlphanumeric(c: char) {
    ('0' <= c <= '9') || ('a' <= c <= 'z') || ('A' <= c <= 'Z')
  }

  /** One draw of the name loop: six alphanumeric characters. */
  predicate IsDraw(d: string) {
    |d| == 6 && forall i :: 0 <= i < 6 ==> IsAlphanumeric(d[i])
  }

  const MapperPrefix := "crypt-"

  /** The index of the first draw whose mapper name is free, or the number
      of draws when every one is taken. */
  function FirstFreeDraw(draws: seq<string>, exists_: string -> bool): (d: nat)
    ensures d <= |draws|
    ensures d < |draws| ==> !exists_(MapperPrefix + draws[d])
    ensures forall j :: 0 <= j < d ==> exists_(MapperPrefix + draws[j])
  {
    if draws == [] || !exists_(MapperPrefix + draws[0]) then 0
    else
      var d := FirstFreeDraw(draws[1..], exists_);
      assert forall j :: 1 <= j < |draws| ==> draws[j] == draws[1..][j - 1];
      1 + d
  }

  /** The name loop of `decrypt`: "crypt-" and one draw, discarded and drawn
      again while a mapping of that name exists. `None` when the draws
      supplied run out first; the original keeps drawing. */
  method GenerateMapperName(draws: seq<string>, exists_: string -> bool) returns (name: Option<string>)
    requires forall i :: 0 <= i < |draws| ==> IsDraw(draws[i])
    ensures name.Some? <==> FirstFreeDraw(draws, exists_) < |draws|
    ensures name.Some? ==> name.value == MapperPrefix + draws[FirstFreeDraw(draws, exists_)]
    ensures name.Some? ==> exists i :: 0 <= i < |draws| && name.value == MapperPrefix + draws[i] && !exists_(name.value) &&
                             forall j :: 0 <= j < i ==> exists_(MapperPrefix + draws[j])
    ensures name.Some? ==> |name.value| == 12 && IsPrefix(MapperPrefix, name.value) &&
                             forall m :: 6 <= m < 12 ==> IsAlphanumeric(name.value[m])
    ensures name.None? <==> forall i :: 0 <= i < |draws| ==> exists_(MapperPrefix + draws[i])
  {
    ghost var d := FirstFreeDraw(draws, exists_);
    var i := 0;
    while i < |draws|
      invariant 0 <= i <= d
      invariant forall j :: 0 <= j < i ==> exists_(MapperPrefix + draws[j])
    {
      var candidate := MapperPrefix + draws[i];
      if exists_(candidate) {
        i := i + 1;
        continue;
      }
      assert forall m :: 6 <= m < 12 ==> candidate[m] == draws[i][m - 6];
      return Some(candidate);
    }
    return None;
  }

  /** The first of `ks` whose node has filesystem UUID `uuid`. */
  function FirstWithUuid(s: Store, ks: seq<string>, uuid: string): (r: Option<string>)
    requires forall i :: 0 <= i < |ks| ==> Has(s, ks[i])
    ensures r.Some? ==> exists i :: && 0 <= i < |ks| && ks[i] == r.value && HasFsUuid(At(s, ks[i]), uuid)
                                   && forall j :: 0 <= j < i ==> !HasFsUuid(At(s, ks[j]), uuid)
    ensures r.None? <==> forall i :: 0 <= i < |ks| ==> !HasFsUuid(At(s, ks[i]), uuid)
  {
    if ks == [] then None
    else if HasFsUuid(At(s, ks[0]), uuid) then Some(ks[0])
    else
      var r := FirstWithUuid(s, ks[1..], uuid);
      assert forall j :: 1 <= j < |ks| ==> ks[j] == ks[1..][j - 1];
      r
  }

  /** Over the sorted keys of a store, the first with the UUID is the
      least key in key order whose node has it. */
  lemma FirstWithUuidLeast(s: Store, uuid: string)
    requires WellFormed(s)
    ensures var r := FirstWithUuid(s, s.keys, uuid);
            && (r.None? <==> forall k :: Has(s, k) ==> !HasFsUuid(At(s, k), uuid))
            && (r.Some? ==> && Has(s, r.value) && HasFsUuid(At(s, r.value), uuid)
                            && forall k :: Has(s, k) && Less(k, r.value) ==> !HasFsUuid(At(s, k), uuid))
  {
    var r := FirstWithUuid(s, s.keys, uuid);
    if r.Some? {
      var i :| && 0 <= i < |s.keys| && s.keys[i] == r.value && HasFsUuid(At(s, s.keys[i]), uuid)
               && forall j :: 0 <= j < i ==> !HasFsUuid(At(s, s.keys[j]), uuid);
      forall k | Has(s, k) && Less(k, r.value) ensures !HasFsUuid(At(s, k), uuid) {
        SortedBefore(s.keys, i, k);
      }
    }
  }

  /** Two keys that are each the least with the UUID are the same key. */
  lemma LeastUuidUnique(s: Store, uuid: string, a: string, b: string)
    requires Has(s, a) && HasFsUuid(At(s, a), uuid) && forall k :: Has(s, k) && Less(k, a) ==> !HasFsUuid(At(s, k), uuid)
    requires Has(s, b) && HasFsUuid(At(s, b), uuid) && forall k :: Has(s, k) && Less(k, b) ==> !HasFsUuid(At(s, k), uuid)
    ensures a == b
  {
    if a != b {
      LessTotal(a, b);
    }
  }

  /** What `decrypt` returns: `None` when the run did not finish with the
      draws and rescans supplied. */
  type DecryptResult = Option<Result<(), BackendError>>

  /** The error of `luks_unlock`, wrapped as `decrypt` reports it. */
  function WrapUnlock(r: Option<Result<(), EncryptionError>>): (w: DecryptResult)
    ensures w.None? <==> r.None?
    ensures w == Some(Success(())) <==> r == Some(Success(()))
    ensures forall e :: r == Some(Failure(e)) <==> w == Some(Failure(UnlockFailed(e)))
  {
    match r
    case None => None
    case Some(Success(u)) => Some(Success(u))
    case Some(Failure(e)) => Some(Failure(UnlockFailed(e)))
  }

  /** A run of `decrypt`: what it returns, the external calls it makes in
      order and the store it leaves. */
  datatype DecryptRun = DecryptRun(result: DecryptResult, calls: seq<Call>, store: Store)

  /** The second half of `decrypt`, once the mapper name is chosen: the
      first device in key order whose filesystem UUID is `uuid`, then
      `luks_unlock` on that device's name. */
  ghost function UnlockedByUuid(s: Store, uuid: string, dmName: string, key: seq<bv8>,
                                activate: (string, string, seq<bv8>) -> Result<(), LibcryptErr>,
                                scans: seq<Option<seq<RawRecord>>>): DecryptRun
    requires WellFormed(s)
  {
    match FirstWithUuid(s, s.keys, uuid)
    case None => DecryptRun(Some(Failure(NoDeviceWithUuid)), [], s)
    case Some(devname) =>
      var run := Unlocked(s, devname, dmName, key, activate, scans);
      DecryptRun(WrapUnlock(run.result), run.calls, run.store)
  }

  /** `Backend::decrypt`: a udev context first, then the first free mapper
      name, then the first device in key order whose filesystem UUID is
      `uuid`, and only then `luks_unlock` on that device's name. */
  ghost function Decrypted(s: Store, udevOk: bool, uuid: string, key: seq<bv8>, draws: seq<string>,
                           exists_: string -> bool, activate: (string, string, seq<bv8>) -> Result<(), LibcryptErr>,
                           scans: seq<Option<seq<RawRecord>>>): DecryptRun
    requires WellFormed(s)
  {
    if !udevOk then DecryptRun(Some(Failure(UdevUnavailable)), [], s)
    else if FirstFreeDraw(draws, exists_) == |draws| then DecryptRun(None, [], s)
    else UnlockedByUuid(s, uuid, MapperPrefix + draws[FirstFreeDraw(draws, exists_)], key, activate, scans)
  }

  /** The ways `decrypt` ends before unlocking: no udev context, no free
      name among the draws, or no device with the UUID; none of them makes
      an external call or changes the store. */
  lemma DecryptOutcomes(s: Store, udevOk: bool, uuid: string, key: seq<bv8>, draws: seq<string>,
                        exists_: string -> bool, activate: (string, string, seq<bv8>) -> Result<(), LibcryptErr>,
                        scans: seq<Option<seq<RawRecord>>>)
    requires WellFormed(s)
    ensures var run := Decrypted(s, udevOk, uuid, key, draws, exists_, activate, scans);
            && (!udevOk ==> run == DecryptRun(Some(Failure(UdevUnavailable)), [], s))
            && (udevOk && (forall i :: 0 <= i < |draws| ==> exists_(MapperPrefix + draws[i])) ==>
                  run == DecryptRun(None, [], s))
            && (run.result == Some(Failure(NoDeviceWithUuid)) <==>
                  && udevOk && (exists i :: 0 <= i < |draws| && !exists_(MapperPrefix + draws[i]))
                  && forall k :: Has(s, k) ==> !HasFsUuid(At(s, k), uuid))
            && (run.result == Some(Failure(NoDeviceWithUuid)) ==> run.calls == [] && run.store == s)
            && (run.result.Some? && run.result.value.Failure? ==> run.store == s)
  {
    FirstWithUuidLeast(s, uuid);
    if udevOk && FirstFreeDraw(draws, exists_) < |draws| && FirstWithUuid(s, s.keys, uuid).Some? {
      var devname := FirstWithUuid(s, s.keys, uuid).value;
      UnlockOutcomes(s, devname, MapperPrefix + draws[FirstFreeDraw(draws, exists_)], key, activate, scans);
    }
  }

  /** With a udev context, draw `i` the first free one and `k` the least
      key whose node has the UUID, `decrypt` is `luks_unlock` of `k` under
      "crypt-" and draw `i`, and its first call opens `k` under that name. */
  lemma DecryptUnlocks(s: Store, udevOk: bool, uuid: string, key: seq<bv8>, draws: seq<string>,
                       exists_: string -> bool, activate: (string, string, seq<bv8>) -> Result<(), LibcryptErr>,
                       scans: seq<Option<seq<RawRecord>>>, k: string, i: nat)
    requires WellFormed(s) && udevOk
    requires i < |draws| && !exists_(MapperPrefix + draws[i]) && forall j :: 0 <= j < i ==> exists_(MapperPrefix + draws[j])
    requires Has(s, k) && HasFsUuid(At(s, k), uuid) && forall k' :: Has(s, k') && Less(k', k) ==> !HasFsUuid(At(s, k'), uuid)
    ensures Decrypted(s, udevOk, uuid, key, draws, exists_, activate, scans).result ==
              WrapUnlock(Unlocked(s, k, MapperPrefix + draws[i], key, activate, scans).result)
    ensures Decrypted(s, udevOk, uuid, key, draws, exists_, activate, scans).calls ==
              Unlocked(s, k, MapperPrefix + draws[i], key, activate, scans).calls
    ensures Decrypted(s, udevOk, uuid, key, draws, exists_, activate, scans).store ==
              Unlocked(s, k, MapperPrefix + draws[i], key, activate, scans).store
    ensures var calls := Decrypted(s, udevOk, uuid, key, draws, exists_, activate, scans).calls;
            |calls| > 0 && calls[0] == LuksActivate(k, MapperPrefix + draws[i])
  {
    var d := FirstFreeDraw(draws, exists_);
    assert d == i;
    FirstWithUuidLeast(s, uuid);
    var r := FirstWithUuid(s, s.keys, uuid);
    LeastUuidUnique(s, uuid, r.value, k);
    UnlockOutcomes(s, k, MapperPrefix + draws[i], key, activate, scans);
  }

  /** The device lookup and unlock of `decrypt`, as `UnlockedByUuid`
      says. */
  method UnlockByUuid(dm: DiskManager, uuid: string, dmName: string, key: seq<bv8>,
                      activate: (string, string, seq<bv8>) -> Result<(), LibcryptErr>,
                      scans: seq<Option<seq<RawRecord>>>)
    returns (r: DecryptResult, calls: seq<Call>)
    requires dm.Valid()
    modifies dm
    ensures dm.Valid()
    ensures DecryptRun(r, calls, dm.Snapshot()) == UnlockedByUuid(old(dm.Snapshot()), uuid, dmName, key, activate, scans)
  {
    ghost var s := dm.Snapshot();
    var found := dm.BlockByUuid(uuid);
    FirstWithUuidLeast(s, uuid);
    if found.None? {
      return Some(Failure(NoDeviceWithUuid)), [];
    }
    var devname := found.value.0;
    LeastUuidUnique(s, uuid, FirstWithUuid(s, s.keys, uuid).value, devname);
    var unlocked;
    unlocked, calls := LuksUnlock(dm, devname, dmName, key, activate, scans);
    r := WrapUnlock(unlocked);
  }

  /** `Backend::decrypt`, as `Decrypted` says. */
  method Decrypt(dm: DiskManager, udevOk: bool, uuid: string, key: seq<bv8>, draws: seq<string>,
                 exists_: string -> bool, activate: (string, string, seq<bv8>) -> Result<(), LibcryptErr>,
                 scans: seq<Option<seq<RawRecord>>>)
    returns (r: DecryptResult, calls: seq<Call>)
    requires dm.Valid()
    requires forall i :: 0 <= i < |draws| ==> IsDraw(draws[i])
    modifies dm
    ensures dm.Valid()
    ensures DecryptRun(r, calls, dm.Snapshot()) ==
              Decrypted(old(dm.Snapshot()), udevOk, uuid, key, draws, exists_, activate, scans)
  {
    if !udevOk {
      return Some(Failure(UdevUnavailable)), [];
    }
    var name := GenerateMapperName(draws, exists_);
    if name.None? {
      return None, [];
    }
    r, calls := UnlockByUuid(dm, uuid, name.value, key, activate, scans);
  }

  /** `Backend::disk_rescan`: `Ok` as soon as a udev context exists, with
      the store reloaded from the scan. */
  method DiskRescan(dm: DiskManager, udevOk: bool, scan: Option<seq<RawRecord>>) returns (r: Result<(), BackendError>)
    requires dm.Valid()
    modifies dm
    ensures dm.Valid()
    ensures r.Success? <==> udevOk
    ensures r.Failure? ==> r.error == UdevUnavailable && dm.Snapshot() == old(dm.Snapshot())
    ensures r.Success? ==> dm.Snapshot() == Reloaded(scan)
  {
    if !udevOk {
      return Failure(UdevUnavailable);
    }
    Reload(dm, scan);
    return Success(());
  }
}
