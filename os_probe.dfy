/** The boot-entry search of `os_probe.rs`: which device is probed, and
    how a systemd-boot entry file yields the root filesystem's UUID.

    Mounting the device and reading its `loader/entries/` directory are
    external; a probe of a device is given as the list of its entry files
    (`None` for a file that could not be read), or `None` for the whole
    listing when the mount or the directory read fails. */
module OsProbe {
  import opened Wrappers
  import opened RustStd
  import opened BlockTypes
  import opened Blocks

  /** `OsEntry` */
  datatype OsEntry = OsEntry(path: string, uuid: string)

  /** The contents of one device's entry directory, as a probe reports it. */
  type Listing = Option<seq<Option<string>>>

  const OptionsPrefix := "options "
  const RootUuidPrefix := "root=UUID="

  /** The UUID named by an entry file: the first line that starts with
      "options ", then the first whitespace-separated word of the rest of
      that line that starts with "root=UUID=". */
  function ParseEntry(content: string): (uuid: Option<string>)
    ensures FindStripped(Lines(content), OptionsPrefix).None? ==> uuid.None?
    ensures uuid.Some? ==> NoWhitespace(uuid.value)
  {
    match FindStripped(Lines(content), OptionsPrefix)
    case None => None
    case Some(line) =>
      var ts := Tokens(line);
      var r := FindStripped(ts, RootUuidPrefix);
      if r.Some? then
        var i :| 0 <= i < |ts| && ts[i] == RootUuidPrefix + r.value && forall j :: 0 <= j < i ==> !IsPrefix(RootUuidPrefix, ts[j]);
        assert forall m :: 0 <= m < |r.value| ==> r.value[m] == ts[i][|RootUuidPrefix| + m];
        r
      else r
  }

  /** An entry whose only line is `options root=UUID=<u>` names `u`, for
      every `u` that is one non-empty word. */
  lemma ParseEntryRoundTrip(u: string)
    requires |u| > 0 && NoWhitespace(u)
    ensures ParseEntry(OptionsPrefix + RootUuidPrefix + u) == Some(u)
  {
    var line := OptionsPrefix + RootUuidPrefix + u;
    assert forall m :: 0 <= m < |line| ==> line[m] != '\n' by {
      forall m | 0 <= m < |line| ensures line[m] != '\n' {
        if m >= |OptionsPrefix + RootUuidPrefix| {
          assert line[m] == u[m - |OptionsPrefix + RootUuidPrefix|];
        }
      }
    }
    assert Lines(line) == [line];
    assert line[..|OptionsPrefix|] == OptionsPrefix;
    var rest := RootUuidPrefix + u;
    assert line[|OptionsPrefix|..] == rest;
    assert FindStripped(Lines(line), OptionsPrefix) == Some(rest);
    assert NoWhitespace(rest) by {
      forall m | 0 <= m < |rest| ensures !IsAsciiWhitespace(rest[m]) {
        if m >= |RootUuidPrefix| {
          assert rest[m] == u[m - |RootUuidPrefix|];
        }
      }
    }
    assert WordLength(rest) == |rest|;
    assert rest[..|rest|] == rest;
    assert Tokens(rest) == [rest] + Tokens(rest[|rest|..]);
    assert Tokens(rest) == [rest];
    assert rest[..|RootUuidPrefix|] == RootUuidPrefix;
    assert rest[|RootUuidPrefix|..] == u;
  }

  /** What an entry file names, stated on its lines and words: line `i`
      is the first line starting with "options ", and word `j` of the rest
      of that line is its first word starting with "root=UUID=", which is
      that prefix followed by `u`. */
  ghost predicate NamesRoot(content: string, u: string, i: nat, j: nat) {
    var ls := Lines(content);
    && FirstPrefixed(ls, OptionsPrefix, i)
    && var ts := Tokens(ls[i][|OptionsPrefix|..]);
       FirstPrefixed(ts, RootUuidPrefix, j) && ts[j] == RootUuidPrefix + u
  }

  /** `ParseEntry` names `u` exactly when some line and word do as
      `NamesRoot` says. */
  lemma ParseEntrySpec(content: string, u: string)
    ensures ParseEntry(content) == Some(u) <==> exists i: nat, j: nat :: NamesRoot(content, u, i, j)
  {
    var ls := Lines(content);
    if ParseEntry(content) == Some(u) {
      var line := FindStripped(ls, OptionsPrefix).value;
      FindStrippedFirst(ls, OptionsPrefix, line);
      var i: nat :| FirstPrefixed(ls, OptionsPrefix, i) && ls[i] == OptionsPrefix + line;
      assert ls[i][|OptionsPrefix|..] == line;
      FindStrippedFirst(Tokens(line), RootUuidPrefix, u);
      var j: nat :| FirstPrefixed(Tokens(line), RootUuidPrefix, j) && Tokens(line)[j] == RootUuidPrefix + u;
      assert NamesRoot(content, u, i, j);
    }
    if exists i: nat, j: nat :: NamesRoot(content, u, i, j) {
      var i: nat, j: nat :| NamesRoot(content, u, i, j);
      var line := ls[i][|OptionsPrefix|..];
      assert ls[i] == OptionsPrefix + line;
      FindStrippedFirst(ls, OptionsPrefix, line);
      FindStrippedFirst(Tokens(line), RootUuidPrefix, u);
    }
  }

  lemma RootWord(u: string)
    requires |u| > 0 && NoWhitespace(u)
    ensures NoWhitespace(RootUuidPrefix + u)
    ensures IsPrefix(RootUuidPrefix, RootUuidPrefix + u)
  {
    var root := RootUuidPrefix + u;
    forall m | 0 <= m < |root| ensures !IsAsciiWhitespace(root[m]) {
      if m >= |RootUuidPrefix| {
        assert root[m] == u[m - |RootUuidPrefix|];
      }
    }
    assert root[..|RootUuidPrefix|] == RootUuidPrefix;
  }

  lemma OptionsLine(w: string, root: string)
    requires |root| > 0 && NoWhitespace(w) && NoWhitespace(root)
    ensures '\n' !in OptionsPrefix + (w + [' '] + root)
    ensures StripCr(OptionsPrefix + (w + [' '] + root)) == OptionsPrefix + (w + [' '] + root)
    ensures IsPrefix(OptionsPrefix, OptionsPrefix + (w + [' '] + root))
  {
    var line := OptionsPrefix + (w + [' '] + root);
    forall m | 0 <= m < |line| ensures line[m] != '\n' {
      if |OptionsPrefix| <= m < |OptionsPrefix| + |w| {
        assert line[m] == w[m - |OptionsPrefix|];
      } else if m > |OptionsPrefix| + |w| {
        assert line[m] == root[m - |OptionsPrefix| - |w| - 1];
      }
    }
    assert line[|line| - 1] == root[|root| - 1];
    assert line[..|OptionsPrefix|] == OptionsPrefix;
  }

  /** An entry whose options line comes after another line, names the
      root in its second word and is followed by more lines: the earlier
      line, the earlier word and the later lines are all passed over. */
  lemma ParseEntryLater(title: string, w: string, u: string, later: string)
    requires '\n' !in title && !IsPrefix(OptionsPrefix, StripCr(title))
    requires |w| > 0 && NoWhitespace(w) && !IsPrefix(RootUuidPrefix, w)
    requires |u| > 0 && NoWhitespace(u)
    ensures ParseEntry(title + "\n" + (OptionsPrefix + (w + [' '] + (RootUuidPrefix + u))) + "\n" + later) == Some(u)
  {
    var root := RootUuidPrefix + u;
    RootWord(u);
    var rest := w + [' '] + root;
    var line := OptionsPrefix + rest;
    OptionsLine(w, root);
    var content := title + "\n" + line + "\n" + later;
    assert content == title + "\n" + (line + "\n" + later);
    LinesCons(title, line + "\n" + later);
    LinesCons(line, later);
    var ls := Lines(content);
    assert ls[0] == StripCr(title) && ls[1] == line;
    assert FirstPrefixed(ls, OptionsPrefix, 1);
    assert ls[1][|OptionsPrefix|..] == rest;
    TokensCons(w, ' ', root);
    TokensWord(root);
    assert Tokens(rest) == [w, root];
    assert FirstPrefixed(Tokens(rest), RootUuidPrefix, 1);
    assert NamesRoot(content, u, 1, 1);
    ParseEntrySpec(content, u);
  }

  /** The entries found in one listing, in directory order: one per
      readable file that names a UUID, all carrying the probed path. */
  function EntriesIn(path: string, files: seq<Option<string>>): (r: seq<OsEntry>)
    ensures |r| <= |files|
    ensures forall i :: 0 <= i < |r| ==> r[i].path == path
    ensures forall u :: OsEntry(path, u) in r <==>
              exists j :: 0 <= j < |files| && files[j].Some? && ParseEntry(files[j].value) == Some(u)
  {
    if files == [] then []
    else
      var rest := EntriesIn(path, files[1..]);
      assert forall j :: 1 <= j < |files| ==> files[j] == files[1..][j - 1];
      var here := if files[0].Some? then ParseEntry(files[0].value) else None;
      if here.Some? then [OsEntry(path, here.value)] + rest else rest
  }

  /** `locate_boot_entries`: a failed mount or directory read gives no
      entries. */
  function LocateBootEntries(path: string, listing: Listing): (r: seq<OsEntry>)
    ensures listing.None? ==> r == []
    ensures forall i :: 0 <= i < |r| ==> r[i].path == path
  {
    if listing.None? then [] else EntriesIn(path, listing.value)
  }

  /** A node whose entries `boot_entries` reads: a Partition or a Disk
      holding a vfat filesystem. */
  predicate IsBootCandidate(b: BlockDevice) {
    (b.PartitionBlock? || b.DiskBlock?) && DeviceOf(b).fs.Some? && DeviceOf(b).fs.value.fsType == "vfat"
  }

  /** `boot_entries`: only the first candidate in key order is probed
      (`probed`), and its result is returned as it is; with no candidate,
      nothing is probed and the result is empty. */
  method BootEntries(dm: DiskManager, probe: string -> Listing) returns (r: seq<OsEntry>, probed: Option<string>)
    requires dm.Valid()
    ensures var s := dm.Snapshot();
            probed.None? <==> forall k :: Has(s, k) ==> !IsBootCandidate(At(s, k))
    ensures var s := dm.Snapshot();
            probed.Some? ==> && Has(s, probed.value) && IsBootCandidate(At(s, probed.value))
                             && forall k :: Has(s, k) && Less(k, probed.value) ==> !IsBootCandidate(At(s, k))
    ensures r == if probed.Some? then LocateBootEntries(probed.value, probe(probed.value)) else []
  {
    var s := dm.Snapshot();
    var keys := dm.keys;
    var i := 0;
    while i < |keys|
      invariant 0 <= i <= |keys|
      invariant forall j :: 0 <= j < i ==> !IsBootCandidate(At(s, keys[j]))
    {
      var devname := keys[i];
      var block := dm.arena[dm.blocks[devname]];
      if block.PartitionBlock? || block.DiskBlock? {
        var device := DeviceOf(block);
        if device.fs.Some? && device.fs.value.fsType == "vfat" {
          forall k | Has(s, k) && Less(k, devname) ensures !IsBootCandidate(At(s, k)) {
            SortedBefore(keys, i, k);
          }
          return LocateBootEntries(devname, probe(devname)), Some(devname);
        }
      }
      i := i + 1;
    }
    return [], None;
  }
}
