/** pkg/device/procmounts.go and resolver.go: from mountinfo lines to the table of volumes by device number. */
module Resolver {
  import opened Bits
  import opened GoText
  import opened DeviceNumbers
  import opened Tables
  import opened VolumePaths

  datatype MountEntry = MountEntry(
    mountId: int, parentId: int, major: u32, minor: u32, root: string, mountPoint: string, fsType: string,
    source: string)

  // ---- One mountinfo line ----

  /** The first "-" at or after an index, or the number of fields. */
  function FirstDash(fields: seq<string>, from: nat): (i: nat)
    requires from <= |fields|
    ensures from <= i <= |fields| && (i < |fields| ==> fields[i] == "-")
    ensures forall j :: from <= j < i ==> fields[j] != "-"
    decreases |fields| - from
  {
    if from == |fields| || fields[from] == "-" then from else FirstDash(fields, from + 1)
  }

  function ParseEntry(fields: seq<string>): Option<MountEntry> {
    if |fields| < 7 || !Atoi(fields[0]).ok || !Atoi(fields[1]).ok then None
    else
      match ParseDevice(fields[2])
      case None => None
      case Some(device) =>
        var sep := FirstDash(fields, 6);
        if sep + 2 >= |fields| then None
        else Some(MountEntry(Atoi(fields[0]).value, Atoi(fields[1]).value, device.0, device.1,
                             fields[3], fields[4], fields[sep + 1], fields[sep + 2]))
  }

  /** The dash that ends the optional fields. */
  ghost predicate IsDash(fields: seq<string>, sep: nat) {
    && 6 <= sep && sep + 2 < |fields| && fields[sep] == "-"
    && forall j :: 6 <= j < sep ==> fields[j] != "-"
  }

  /** A line is an entry exactly if its IDs are integers, its device is two numbers and two fields follow the first
      dash after the sixth field; the entry is then made of these. */
  lemma EntryIff(fields: seq<string>, e: MountEntry)
    ensures ParseEntry(fields) == Some(e) <==>
      && |fields| >= 7 && Atoi(fields[0]) == Parsed(e.mountId, true) && Atoi(fields[1]) == Parsed(e.parentId, true)
      && ParseDevice(fields[2]) == Some((e.major, e.minor)) && fields[3] == e.root && fields[4] == e.mountPoint
      && exists sep: nat :: IsDash(fields, sep) && fields[sep + 1] == e.fsType && fields[sep + 2] == e.source
  {
    if |fields| >= 7 {
      var sep := FirstDash(fields, 6);
      assert sep + 2 < |fields| ==> IsDash(fields, sep);
      forall k: nat | IsDash(fields, k) ensures k == sep { DashIsAfterOptional(fields, 6, k); }
    }
  }

  method ParseMountInfoLine(line: string) returns (r: Option<MountEntry>)
    ensures r == ParseEntry(Fields(line))
  {
    var fields := Fields(line);
    if |fields| < 7 {
      return None;
    }
    var mountId, parentId := Atoi(fields[0]), Atoi(fields[1]);
    if !mountId.ok || !parentId.ok {
      return None;
    }
    var device := ParseDevice(fields[2]);
    if device.None? {
      return None;
    }
    var sep := 6;
    while sep < |fields| && fields[sep] != "-"
      invariant 6 <= sep <= |fields| && FirstDash(fields, 6) == FirstDash(fields, sep)
    {
      sep := sep + 1;
    }
    if sep + 2 >= |fields| {
      return None;
    }
    r := Some(MountEntry(mountId.value, parentId.value, device.value.0, device.value.1,
                         fields[3], fields[4], fields[sep + 1], fields[sep + 2]));
  }

  function ParsedLines(lines: seq<string>): seq<Option<MountEntry>> {
    seq(|lines|, i requires 0 <= i < |lines| => ParseEntry(Fields(lines[i])))
  }

  /** The entries of the lines that parse, in order. */
  function Entries(lines: seq<string>): seq<MountEntry> { Somes(ParsedLines(lines)) }

  method ParseMountInfo(lines: seq<string>) returns (entries: seq<MountEntry>)
    ensures entries == Entries(lines)
  {
    entries := [];
    for i := 0 to |lines|
      invariant entries == Somes(ParsedLines(lines)[..i])
    {
      assert ParsedLines(lines)[..i + 1][..i] == ParsedLines(lines)[..i];
      var e := ParseMountInfoLine(lines[i]);
      if e.Some? {
        entries := entries + [e.value];
      }
    }
    assert ParsedLines(lines)[..|lines|] == ParsedLines(lines);
  }

  /** The fields the kernel prints for a mount: six, any number of optional ones, a dash, then the
      filesystem type, the source and more. */
  function EntryFields(e: MountEntry, options: string, optional: seq<string>, more: seq<string>): seq<string>
    requires e.mountId >= 0 && e.parentId >= 0
  {
    [Decimal(e.mountId), Decimal(e.parentId), Decimal(e.major) + [':'] + Decimal(e.minor), e.root, e.mountPoint,
      options] +
    optional + ["-", e.fsType, e.source] + more
  }

  lemma DashIsAfterOptional(fields: seq<string>, from: nat, dash: nat)
    requires from <= dash < |fields| && fields[dash] == "-" && forall i :: from <= i < dash ==> fields[i] != "-"
    ensures FirstDash(fields, from) == dash
  {
  }

  /** Reading a printed mount gives it back, whatever its options and however many optional fields it has. */
  lemma EntryRoundTrip(e: MountEntry, options: string, optional: seq<string>, more: seq<string>)
    requires 0 <= e.mountId < TWO_63 && 0 <= e.parentId < TWO_63 && "-" !in optional
    ensures ParseEntry(EntryFields(e, options, optional, more)) == Some(e)
  {
    var fields := EntryFields(e, options, optional, more);
    AtoiOfDecimal(e.mountId);
    AtoiOfDecimal(e.parentId);
    DeviceFieldRoundTrip(e.major, e.minor);
    forall i | 6 <= i < 6 + |optional| ensures fields[i] != "-" {
      assert fields[i] == optional[i - 6];
    }
    DashIsAfterOptional(fields, 6, 6 + |optional|);
  }

  lemma DeviceFieldRoundTrip(major: u32, minor: u32)
    ensures ParseDevice(Decimal(major) + [':'] + Decimal(minor)) == Some((major, minor))
  {
    CutJoined(Decimal(major), Decimal(minor), ':');
    ParseUintOfDecimal(major, TWO_32);
    ParseUintOfDecimal(minor, TWO_32);
  }

  // ---- The scan ----

  datatype PodMeta = PodMeta(name: string, namespace: string)

  datatype Pod = Pod(uid: string, meta: PodMeta)

  datatype DeviceInfo = DeviceInfo(
    pvc: string, pod: string, namespace: string, node: string, mountPath: string, devPath: string, isNfs: bool)

  /** The fields stat reports that are used: the mode and the device number of a device node. */
  datatype FileStat = FileStat(mode: u32, rdev: u64)

  /** What a scan sees beside mountinfo: the pods on the node, the claims bound to each persistent volume, and
      what stat reports for a path, if it does not fail. */
  datatype Node = Node(name: string, pods: seq<Pod>, claims: map<string, seq<string>>, files: map<string, FileStat>)

  /** The pod the cache lists last under this UID. */
  function MetaOf(pods: seq<Pod>, uid: string): Option<PodMeta> {
    if pods == [] then None
    else if pods[|pods| - 1].uid == uid then Some(pods[|pods| - 1].meta)
    else MetaOf(pods[..|pods| - 1], uid)
  }

  method PodMetaMap(pods: seq<Pod>) returns (metas: map<string, PodMeta>)
    ensures forall uid :: if uid in metas then MetaOf(pods, uid) == Some(metas[uid]) else MetaOf(pods, uid).None?
  {
    metas := map[];
    for i := 0 to |pods|
      invariant forall uid ::
        if uid in metas then MetaOf(pods[..i], uid) == Some(metas[uid]) else MetaOf(pods[..i], uid).None?
    {
      assert pods[..i + 1][..i] == pods[..i];
      metas := metas[pods[i].uid := pods[i].meta];
    }
    assert pods[..|pods|] == pods;
  }

  function ClaimOf(node: Node, pv: string): string {
    if pv in node.claims && node.claims[pv] != [] then node.claims[pv][0] else pv
  }

  /** S_IFBLK, of which the test asks for any bit. */
  const BLOCK_MODE: nat := 0x6000

  /** A volume is named by the first claim bound to it, and by itself if there is none. */
  lemma ClaimIsFirstBound(node: Node, pv: string)
    ensures forall first, more :: pv in node.claims && node.claims[pv] == [first] + more ==> ClaimOf(node, pv) == first
    ensures pv !in node.claims || node.claims[pv] == [] ==> ClaimOf(node, pv) == pv
  {
  }

  function StatBlockDevice(node: Node, path: string): Option<nat> {
    if path !in node.files || BitAnd(node.files[path].mode, BLOCK_MODE) == 0 then None
    else
      var rdev := node.files[path].rdev;
      StatArithmetic(rdev);
      Some(MkDev(StatMajor(rdev), StatMinor(rdev)))
  }

  /** The volume mounted at an entry and whether it is a block-mode one. */
  function VolumeAt(path: string): Option<(Volume, bool)> {
    match ParseBlockPath(path)
    case Some(v) => Some((v, true))
    case None =>
      match ParseVolumePath(path)
      case Some(v) => Some((v, false))
      case None => None
  }

  /** The device number and description an entry contributes. */
  function Resolved(node: Node, m: MountEntry): Option<(nat, DeviceInfo)> {
    match VolumeAt(m.mountPoint)
    case None => None
    case Some(volume) =>
      var dev := if volume.1 then StatBlockDevice(node, m.mountPoint) else Some(MkDev(m.major, m.minor));
      match dev
      case None => None
      case Some(d) =>
        match MetaOf(node.pods, volume.0.podUid)
        case None => None
        case Some(meta) =>
          Some((d, DeviceInfo(ClaimOf(node, volume.0.pv), meta.name, meta.namespace, node.name, m.mountPoint, m.source,
                              m.fsType == "nfs" || m.fsType == "nfs4")))
  }

  function AllResolved(node: Node, mounts: seq<MountEntry>): seq<Contribution<nat, DeviceInfo>> {
    seq(|mounts|, i requires 0 <= i < |mounts| => Resolved(node, mounts[i]))
  }

  class DeviceTable {
    var devices: map<nat, DeviceInfo>

    constructor ()
      ensures devices == map[]
    {
      devices := map[];
    }

    /** A scan replaces the whole table by what the mounts of the moment resolve to; one that cannot read
        mountinfo leaves the table alone. */
    method Scan(node: Node, mountInfo: Option<seq<string>>)
      modifies this
      ensures mountInfo.None? ==> devices == old(devices)
      ensures mountInfo.Some? ==> Describes(devices, AllResolved(node, Entries(mountInfo.value)))
    {
      if mountInfo.None? {
        return;
      }
      var mounts := ParseMountInfo(mountInfo.value);
      var metas := PodMetaMap(node.pods);
      var found: map<nat, DeviceInfo> := map[];
      for i := 0 to |mounts|
        invariant Describes(found, AllResolved(node, mounts)[..i])
      {
        var r := ResolveEntry(node, metas, mounts[i]);
        DescribesOneMore(found, AllResolved(node, mounts), i);
        if r.Some? {
          found := found[r.value.0 := r.value.1];
        }
      }
      assert AllResolved(node, mounts)[..|mounts|] == AllResolved(node, mounts);
      devices := found;
    }

    function Lookup(dev: nat): Option<DeviceInfo>
      reads this
    {
      Get(devices, dev)
    }
  }

  /** The body of the scan's loop, in the order of the source's tests. */
  method ResolveEntry(node: Node, metas: map<string, PodMeta>, m: MountEntry) returns (r: Option<(nat, DeviceInfo)>)
    requires forall uid ::
      if uid in metas then MetaOf(node.pods, uid) == Some(metas[uid]) else MetaOf(node.pods, uid).None?
    ensures r == Resolved(node, m)
  {
    var volume := ParseBlockPath(m.mountPoint);
    var isBlock := volume.Some?;
    if !isBlock {
      volume := ParseVolumePath(m.mountPoint);
      if volume.None? {
        return None;
      }
    }
    var dev := MkDev(m.major, m.minor);
    if isBlock {
      var blockDev := StatBlockDevice(node, m.mountPoint);
      if blockDev.None? {
        return None;
      }
      dev := blockDev.value;
    }
    var pvc := ClaimOf(node, volume.value.pv);
    if volume.value.podUid !in metas {
      return None;
    }
    var meta := metas[volume.value.podUid];
    var isNfs := m.fsType == "nfs" || m.fsType == "nfs4";
    r := Some((dev, DeviceInfo(pvc, meta.name, meta.namespace, node.name, m.mountPoint, m.source, isNfs)));
  }

  // ---- Which files pass for block devices ----

  /** File types by their code in the upper bits of a mode. */
  datatype FileType = Fifo | CharDevice | Directory | BlockDevice | Regular | Symlink | Socket {
    function Code(): nat {
      match this
      case Fifo => 1 case CharDevice => 2 case Directory => 4 case BlockDevice => 6
      case Regular => 8 case Symlink => 10 case Socket => 12
    }
  }

  function TypeOf(mode: u32): nat { (mode / 0x1000) % 16 }

  lemma ModeTest(mode: u32)
    ensures BitAnd(mode, BLOCK_MODE) != 0 <==> (mode / 0x2000) % 4 != 0
  {
    var k: nat, three: nat, two: nat := 13, 3, 2;
    Powers();
    PowerSum(12, 1, 0x1000, 2);
    ShlIsMul(three, k);
    AndShifted(mode, k, three);
    ShrIsDiv(mode, k);
    AndLowMask(Shr(mode, k), two);
    ShlIsMul(BitAnd(Shr(mode, k), three), k);
  }

  lemma HalfOfType(a: nat)
    ensures (a / 2) % 4 == (a % 16 / 2) % 4
  {
    var high, low := a / 16, a % 16;
    DivModUnique(a, 2, 8 * high + low / 2, low % 2);
    DivModUnique(a / 2, 4, 2 * high + low / 2 / 4, low / 2 % 4);
  }

  lemma TypeBits(mode: nat)
    ensures (mode / 0x2000) % 4 == (mode / 0x1000 % 16 / 2) % 4
  {
    var a := mode / 0x1000;
    DivModUnique(mode, 0x2000, a / 2, a % 2 * 0x1000 + mode % 0x1000);
    HalfOfType(a);
  }

  lemma CodeBits(t: FileType)
    ensures (t.Code() / 2) % 4 != 0 <==> !t.Regular? && !t.Fifo?
  {
  }

  /** The mode test takes a regular file or a pipe for no block device; a directory, a character device or a
      socket passes like a block device. */
  lemma StatAcceptsIff(node: Node, path: string, t: FileType)
    requires path in node.files && TypeOf(node.files[path].mode) == t.Code()
    ensures StatBlockDevice(node, path).Some? <==> !t.Regular? && !t.Fifo?
  {
    ModeTest(node.files[path].mode);
    TypeBits(node.files[path].mode);
    CodeBits(t);
  }

  // ---- What a scan finds ----

  /** A filesystem volume of a known pod, mounted as kubelet mounts it, resolves under the kernel's number of
      its device to its claim and its pod. */
  lemma MountedVolumeResolves(node: Node, e: MountEntry, prefix: string, v: Volume, plugin: string, mounted: bool)
    requires IsUuid(v.podUid) && IsName(plugin) && IsName(v.pv)
    requires e.mountPoint == VolumePath(prefix, v, plugin, mounted)
    ensures var meta := MetaOf(node.pods, v.podUid);
            if meta.None? then Resolved(node, e).None?
            else Resolved(node, e) == Some((MkDev(e.major, e.minor),
                   DeviceInfo(ClaimOf(node, v.pv), meta.value.name, meta.value.namespace, node.name, e.mountPoint,
                     e.source,
                              e.fsType == "nfs" || e.fsType == "nfs4")))
  {
    VolumePathMatches(prefix, v, plugin, mounted);
    KindsAreExclusive(e.mountPoint);
  }

  /** A block-mode volume resolves under the kernel's number of the device it exposes, not of the filesystem
      that holds its node. */
  lemma BlockVolumeResolves(node: Node, e: MountEntry, prefix: string, v: Volume, major: nat, minor: nat)
    requires IsUuid(v.podUid) && IsName(v.pv) && e.mountPoint == BlockPath(prefix, v)
    requires major < MAJORS && minor < MINORS && UserDev(major, minor) < TWO_64
    requires e.mountPoint in node.files && TypeOf(node.files[e.mountPoint].mode) == BlockDevice.Code()
    requires node.files[e.mountPoint].rdev == UserDev(major, minor)
    requires MetaOf(node.pods, v.podUid).Some?
    ensures Resolved(node, e).Some? && Resolved(node, e).value.0 == MkDev(major, minor)
    ensures Resolved(node, e).value.1.pvc == ClaimOf(node, v.pv)
    ensures Resolved(node, e).value.1.pod == MetaOf(node.pods, v.podUid).value.name
  {
    BlockPathMatches(prefix, v);
    StatAcceptsIff(node, e.mountPoint, BlockDevice);
    StatAgreesWithKernel(major, minor);
  }

  lemma EntryIsFound(node: Node, mounts: seq<MountEntry>, e: MountEntry, dev: nat)
    requires e in mounts && IsFor(Resolved(node, e), dev)
    ensures LastFor(AllResolved(node, mounts), dev).Some?
    ensures (forall m :: m in mounts && IsFor(Resolved(node, m), dev) ==> m == e) ==>
              LastFor(AllResolved(node, mounts), dev) == Some(Resolved(node, e).value.1)
  {
    var cs := AllResolved(node, mounts);
    var k :| 0 <= k < |mounts| && mounts[k] == e;
    assert IsFor(cs[k], dev);
    LastForIsLast(cs, dev);
    FoundIsContributed(cs, dev);
    var i :| 0 <= i < |cs| && cs[i] == Some((dev, LastFor(cs, dev).value));
    assert IsFor(Resolved(node, mounts[i]), dev);
  }

  lemma PrintedLineIsParsed(lines: seq<string>, i: nat, e: MountEntry, options: string, optional: seq<string>,
                            more: seq<string>)
    requires 0 <= e.mountId < TWO_63 && 0 <= e.parentId < TWO_63 && "-" !in optional
    requires AreWords(EntryFields(e, options, optional, more))
    requires i < |lines| && lines[i] == Joined(EntryFields(e, options, optional, more), ' ')
    ensures e in Entries(lines)
  {
    FieldsOfJoined(EntryFields(e, options, optional, more));
    EntryRoundTrip(e, options, optional, more);
    assert ParsedLines(lines)[i] == Some(e);
    SomesAreMembers(ParsedLines(lines), e);
  }

  ghost predicate AreWords(fields: seq<string>) { forall k :: 0 <= k < |fields| ==> IsWord(fields[k]) }

  /** From text to table: the printed line of a mounted volume makes its device resolvable, to that volume's
      own description unless a different mount resolves to the same device. */
  lemma PrintedVolumeIsFound(
      node: Node, lines: seq<string>, i: nat, e: MountEntry, options: string, optional: seq<string>, more: seq<string>,
      prefix: string, v: Volume, plugin: string, mounted: bool)
    requires IsUuid(v.podUid) && IsName(plugin) && IsName(v.pv)
    requires e.mountPoint == VolumePath(prefix, v, plugin, mounted)
    requires MetaOf(node.pods, v.podUid).Some?
    requires 0 <= e.mountId < TWO_63 && 0 <= e.parentId < TWO_63 && "-" !in optional
    requires AreWords(EntryFields(e, options, optional, more))
    requires i < |lines| && lines[i] == Joined(EntryFields(e, options, optional, more), ' ')
    ensures var dev, mounts := MkDev(e.major, e.minor), Entries(lines);
            var found, meta := LastFor(AllResolved(node, mounts), dev), MetaOf(node.pods, v.podUid).value;
            found.Some? &&
            ((forall m :: m in mounts && IsFor(Resolved(node, m), dev) ==> m == e) ==>
               found.value ==
                 DeviceInfo(ClaimOf(node, v.pv), meta.name, meta.namespace, node.name, e.mountPoint, e.source,
                                         e.fsType == "nfs" || e.fsType == "nfs4"))
  {
    PrintedLineIsParsed(lines, i, e, options, optional, more);
    MountedVolumeResolves(node, e, prefix, v, plugin, mounted);
    EntryIsFound(node, Entries(lines), e, MkDev(e.major, e.minor));
  }
}
