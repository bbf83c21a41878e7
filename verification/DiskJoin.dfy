/** pkg/qmp/types.go and pkg/qga/diskmap.go: joining the disks a Windows guest reports with the volumes of the
    libvirt domain, by where a disk sits on the virtual buses, then by serial number. The domain is given as
    the records its XML decodes to. */
module DiskJoin {
  import opened Bits
  import opened GoText
  import opened Tables
  import opened QmpNames

  datatype Address = Address(
    kind: string, domain: string, bus: string, slot: string, function_: string,
    controller: string, target: string, unit: string)

  datatype Controller = Controller(kind: string, index: string, address: Address)

  datatype Disk = Disk(device: string, serial: string, targetBus: string, alias: string, address: Address)

  datatype Domain = Domain(disks: seq<Disk>, controllers: seq<Controller>)

  datatype PciAddress = PciAddress(domain: int, bus: int, slot: int, function_: int)

  datatype Location = Location(controller: PciAddress, bus: int, target: int, unit: int)

  datatype GuestDisk = GuestDisk(index: int, location: Location, serial: string)

  function Hex(s: string): Parsed { ParseInt(TrimPrefix(s, "0x"), 16, 0x8000_0000) }

  function ParseHexAddress(a: Address): Option<PciAddress> {
    if Hex(a.domain).ok && Hex(a.bus).ok && Hex(a.slot).ok && Hex(a.function_).ok
    then Some(PciAddress(Hex(a.domain).value, Hex(a.bus).value, Hex(a.slot).value, Hex(a.function_).value))
    else None
  }

  // ---- What each record contributes ----

  /** The volume a disk is an alias of. */
  function VolumeOf(d: Disk): Option<string> {
    var name := TrimPrefix(d.alias, USER_ALIAS);
    if d.device != "disk" || name == d.alias || name == [] then None else Some(name)
  }

  function ControllerEntry(c: Controller): Contribution<string, PciAddress> {
    match ParseHexAddress(c.address)
    case None => None
    case Some(pci) => if c.address.kind == "pci" then Some((c.kind + ":" + c.index, pci)) else None
  }

  function ControllerEntries(dom: Domain): seq<Contribution<string, PciAddress>> {
    seq(|dom.controllers|, i requires 0 <= i < |dom.controllers| => ControllerEntry(dom.controllers[i]))
  }

  /** The key under which a drive-addressed disk looks for its controller. */
  function ControllerKey(d: Disk): string {
    d.targetBus + ":" + if d.address.controller == [] then "0" else d.address.controller
  }

  function PciLocation(pci: PciAddress): Location { Location(pci, 0, 0, 0) }

  /** Where a disk sits: at its own PCI address, or on a controller whose address is known. */
  function LocationOf(dom: Domain, d: Disk): Option<Location> {
    if d.address.kind == "pci" then
      match ParseHexAddress(d.address)
      case None => None
      case Some(pci) => Some(PciLocation(pci))
    else if d.address.kind == "drive" && d.targetBus != [] then
      match LastFor(ControllerEntries(dom), ControllerKey(d))
      case None => None
      case Some(pci) => Some(Location(pci, Atoi(d.address.bus).value, Atoi(d.address.target).value,
        Atoi(d.address.unit).value))
    else None
  }

  function LocationEntry(dom: Domain, d: Disk): Contribution<Location, string> {
    match VolumeOf(d)
    case None => None
    case Some(name) =>
      match LocationOf(dom, d)
      case None => None
      case Some(l) => Some((l, name))
  }

  function LocationEntries(dom: Domain): seq<Contribution<Location, string>> {
    seq(|dom.disks|, i requires 0 <= i < |dom.disks| => LocationEntry(dom, dom.disks[i]))
  }

  function SerialEntry(d: Disk): Contribution<string, string> {
    match VolumeOf(d)
    case None => None
    case Some(name) => if d.serial == [] then None else Some((d.serial, name))
  }

  function SerialEntries(dom: Domain): seq<Contribution<string, string>> {
    seq(|dom.disks|, i requires 0 <= i < |dom.disks| => SerialEntry(dom.disks[i]))
  }

  function PciEntry(d: Disk): Contribution<PciAddress, string> {
    match VolumeOf(d)
    case None => None
    case Some(name) =>
      match ParseHexAddress(d.address)
      case None => None
      case Some(pci) => if d.address.kind == "pci" then Some((pci, name)) else None
  }

  function PciEntries(dom: Domain): seq<Contribution<PciAddress, string>> {
    seq(|dom.disks|, i requires 0 <= i < |dom.disks| => PciEntry(dom.disks[i]))
  }

  // ---- The parsers ----

  method ControllerAddresses(dom: Domain) returns (m: map<string, PciAddress>)
    ensures Describes(m, ControllerEntries(dom))
  {
    m := map[];
    for i := 0 to |dom.controllers|
      invariant Describes(m, ControllerEntries(dom)[..i])
    {
      DescribesOneMore(m, ControllerEntries(dom), i);
      var c := dom.controllers[i];
      if c.address.kind != "pci" {
        continue;
      }
      var pci := ParseHexAddress(c.address);
      if pci.None? {
        continue;
      }
      m := m[c.kind + ":" + c.index := pci.value];
    }
    assert ControllerEntries(dom)[..|dom.controllers|] == ControllerEntries(dom);
  }

  method ParseDiskLocations(dom: Domain) returns (m: map<Location, string>)
    ensures Describes(m, LocationEntries(dom))
  {
    var controllers := ControllerAddresses(dom);
    m := map[];
    for i := 0 to |dom.disks|
      invariant Describes(m, LocationEntries(dom)[..i])
    {
      DescribesOneMore(m, LocationEntries(dom), i);
      var d := dom.disks[i];
      var name := VolumeOf(d);
      if name.None? {
        continue;
      }
      var l := Locate(dom, controllers, d);
      if l.Some? {
        m := m[l.value := name.value];
      }
    }
    assert LocationEntries(dom)[..|dom.disks|] == LocationEntries(dom);
  }

  /** The switch on a disk's address. */
  method Locate(dom: Domain, controllers: map<string, PciAddress>, d: Disk) returns (l: Option<Location>)
    requires Describes(controllers, ControllerEntries(dom))
    ensures l == LocationOf(dom, d)
  {
    if d.address.kind == "pci" {
      var pci := ParseHexAddress(d.address);
      if pci.None? {
        return None;
      }
      return Some(Location(pci.value, 0, 0, 0));
    }
    if d.address.kind != "drive" || d.targetBus == [] {
      return None;
    }
    var index := if d.address.controller == [] then "0" else d.address.controller;
    var key := d.targetBus + ":" + index;
    assert LastFor(ControllerEntries(dom), key) == Get(controllers, key);
    if key !in controllers {
      return None;
    }
    l := Some(Location(controllers[key], Atoi(d.address.bus).value, Atoi(d.address.target).value,
      Atoi(d.address.unit).value));
  }

  method ParseDiskSerials(dom: Domain) returns (m: map<string, string>)
    ensures Describes(m, SerialEntries(dom))
  {
    m := map[];
    for i := 0 to |dom.disks|
      invariant Describes(m, SerialEntries(dom)[..i])
    {
      DescribesOneMore(m, SerialEntries(dom), i);
      var d := dom.disks[i];
      if d.serial == [] || VolumeOf(d).None? {
        continue;
      }
      m := m[d.serial := VolumeOf(d).value];
    }
    assert SerialEntries(dom)[..|dom.disks|] == SerialEntries(dom);
  }

  method ParseDiskAddresses(dom: Domain) returns (m: map<PciAddress, string>)
    ensures Describes(m, PciEntries(dom))
  {
    m := map[];
    for i := 0 to |dom.disks|
      invariant Describes(m, PciEntries(dom)[..i])
    {
      DescribesOneMore(m, PciEntries(dom), i);
      var d := dom.disks[i];
      if d.address.kind != "pci" || VolumeOf(d).None? {
        continue;
      }
      var pci := ParseHexAddress(d.address);
      if pci.None? {
        continue;
      }
      m := m[pci.value := VolumeOf(d).value];
    }
    assert PciEntries(dom)[..|dom.disks|] == PciEntries(dom);
  }

  // ---- The join ----

  function LocationHit(dom: Domain, g: GuestDisk): Contribution<int, string> {
    match LastFor(LocationEntries(dom), g.location)
    case None => None
    case Some(name) => Some((g.index, name))
  }

  function LocationHits(dom: Domain, guests: seq<GuestDisk>): seq<Contribution<int, string>> {
    seq(|guests|, i requires 0 <= i < |guests| => LocationHit(dom, guests[i]))
  }

  function SerialHit(dom: Domain, g: GuestDisk): Contribution<int, string> {
    if g.serial == [] then None
    else
      match LastFor(SerialEntries(dom), g.serial)
      case None => None
      case Some(name) => Some((g.index, name))
  }

  function SerialHits(dom: Domain, guests: seq<GuestDisk>): seq<Contribution<int, string>> {
    seq(|guests|, i requires 0 <= i < |guests| => SerialHit(dom, guests[i]))
  }

  /** The volume of a guest drive: the last one found by location, else the first one found by serial. */
  function VolumeFor(located: seq<Contribution<int, string>>, named: seq<Contribution<int, string>>,
                     index: int): Option<string> {
    match LastFor(located, index)
    case Some(name) => Some(name)
    case None => FirstFor(named, index)
  }

  ghost predicate IsJoin(m: map<int, string>, located: seq<Contribution<int, string>>,
                         named: seq<Contribution<int, string>>) {
    forall index :: VolumeFor(located, named, index) == Get(m, index)
  }

  function UpdatedIfNew(m: map<int, string>, c: Contribution<int, string>): map<int, string> {
    if c.Some? && c.value.0 !in m then m[c.value.0 := c.value.1] else m
  }

  lemma JoinOneMore(m: map<int, string>, located: seq<Contribution<int, string>>,
                    named: seq<Contribution<int, string>>, i: nat)
    requires i < |named| && IsJoin(m, located, named[..i])
    ensures IsJoin(UpdatedIfNew(m, named[i]), located, named[..i + 1])
  {
    assert named[..i + 1][..i] == named[..i];
    forall index ensures VolumeFor(located, named[..i + 1], index) == Get(UpdatedIfNew(m, named[i]), index) {
      assert VolumeFor(located, named[..i], index) == Get(m, index);
    }
  }

  method BuildDiskMapping(dom: Domain, guests: seq<GuestDisk>) returns (m: map<int, string>)
    ensures IsJoin(m, LocationHits(dom, guests), SerialHits(dom, guests))
  {
    var byLocation := ParseDiskLocations(dom);
    m := map[];
    for i := 0 to |guests|
      invariant Describes(m, LocationHits(dom, guests)[..i])
    {
      DescribesOneMore(m, LocationHits(dom, guests), i);
      var g := guests[i];
      assert LastFor(LocationEntries(dom), g.location) == Get(byLocation, g.location);
      if g.location in byLocation {
        m := m[g.index := byLocation[g.location]];
      }
    }
    assert LocationHits(dom, guests)[..|guests|] == LocationHits(dom, guests);
    var bySerial := ParseDiskSerials(dom);
    m := AddBySerial(dom, guests, m, bySerial);
  }

  /** The fallback for drives no location was found for. */
  method AddBySerial(dom: Domain, guests: seq<GuestDisk>, located: map<int, string>, bySerial: map<string, string>)
    returns (m: map<int, string>)
    requires Describes(located, LocationHits(dom, guests)) && Describes(bySerial, SerialEntries(dom))
    ensures IsJoin(m, LocationHits(dom, guests), SerialHits(dom, guests))
  {
    m := located;
    var hits := SerialHits(dom, guests);
    LocatedIsJoin(located, LocationHits(dom, guests));
    for i := 0 to |guests|
      invariant IsJoin(m, LocationHits(dom, guests), hits[..i])
    {
      JoinOneMore(m, LocationHits(dom, guests), hits, i);
      var g := guests[i];
      assert LastFor(SerialEntries(dom), g.serial) == Get(bySerial, g.serial);
      if g.index in m || g.serial == [] {
        continue;
      }
      if g.serial in bySerial {
        m := m[g.index := bySerial[g.serial]];
      }
    }
    assert hits[..|guests|] == hits;
  }

  lemma LocatedIsJoin(m: map<int, string>, located: seq<Contribution<int, string>>)
    requires Describes(m, located)
    ensures IsJoin(m, located, [])
  {
    forall index ensures VolumeFor(located, [], index) == Get(m, index) {
      assert LastFor(located, index) == Get(m, index);
    }
  }

  // ---- What the join promises ----

  /** An alias names a volume exactly when it is the user prefix and a non-empty name. */
  lemma VolumeOfIff(d: Disk, name: string)
    ensures VolumeOf(d) == Some(name) <==> d.device == "disk" && name != [] && d.alias == USER_ALIAS + name
  {
    if HasPrefix(d.alias, USER_ALIAS) {
      assert d.alias == USER_ALIAS + d.alias[|USER_ALIAS|..];
    }
    if d.alias == USER_ALIAS + name {
      assert d.alias[..|USER_ALIAS|] == USER_ALIAS && d.alias[|USER_ALIAS|..] == name;
    }
  }

  /** A report of the drive is at the disk's place, or has its serial number. */
  ghost predicate Reports(dom: Domain, g: GuestDisk, d: Disk, index: int) {
    && g.index == index
    && (LocationOf(dom, d) == Some(g.location) || (g.serial != "" && d.serial == g.serial))
  }

  /** The controller has this PCI address, and the bus and index of the disk, index 0 if the disk names none. */
  ghost predicate Carries(c: Controller, d: Disk, p: PciAddress) {
    && c.address.kind == "pci" && ParseHexAddress(c.address) == Some(p)
    && c.kind + ":" + c.index == d.targetBus + ":" + if d.address.controller == "" then "0" else d.address.controller
  }

  /** A disk is only ever located at its own PCI address, or on a controller of its bus and index that has one. */
  lemma PlaceIsAtPci(dom: Domain, d: Disk, l: Location)
    requires LocationOf(dom, d) == Some(l)
    ensures d.address.kind == "pci" ==> ParseHexAddress(d.address) == Some(l.controller)
    ensures d.address.kind != "pci" ==>
      && d.address.kind == "drive"
      && exists c :: c in dom.controllers && Carries(c, d, l.controller)
  {
    if d.address.kind != "pci" {
      var es, key := ControllerEntries(dom), ControllerKey(d);
      FoundIsContributed(es, key);
      var k :| 0 <= k < |es| && es[k] == Some((key, l.controller));
      assert dom.controllers[k] in dom.controllers && Carries(dom.controllers[k], d, l.controller);
    }
  }

  lemma LocatedIsReported(dom: Domain, guests: seq<GuestDisk>, index: int, i: nat, name: string)
    requires i < |guests| && LocationHit(dom, guests[i]) == Some((index, name))
    ensures exists d :: d in dom.disks && VolumeOf(d) == Some(name) && Reports(dom, guests[i], d, index)
  {
    FoundIsContributed(LocationEntries(dom), guests[i].location);
    var k :| 0 <= k < |dom.disks| && LocationEntries(dom)[k] == Some((guests[i].location, name));
    assert dom.disks[k] in dom.disks && Reports(dom, guests[i], dom.disks[k], index);
  }

  lemma NamedIsReported(dom: Domain, guests: seq<GuestDisk>, index: int, i: nat, name: string)
    requires i < |guests| && SerialHit(dom, guests[i]) == Some((index, name))
    ensures exists d :: d in dom.disks && VolumeOf(d) == Some(name) && Reports(dom, guests[i], d, index)
  {
    FoundIsContributed(SerialEntries(dom), guests[i].serial);
    var k :| 0 <= k < |dom.disks| && SerialEntries(dom)[k] == Some((guests[i].serial, name));
    assert dom.disks[k] in dom.disks && Reports(dom, guests[i], dom.disks[k], index);
  }

  /** Every mapped name is the volume of a disk of the domain at whose place, or with whose serial number, the drive
      was reported. */
  lemma NamesComeFromDisks(dom: Domain, guests: seq<GuestDisk>, m: map<int, string>, index: int)
    requires IsJoin(m, LocationHits(dom, guests), SerialHits(dom, guests)) && index in m
    ensures exists g, d ::
      g in guests && d in dom.disks && VolumeOf(d) == Some(m[index]) && Reports(dom, g, d, index)
  {
    var located, named := LocationHits(dom, guests), SerialHits(dom, guests);
    assert VolumeFor(located, named, index) == Get(m, index);
    FoundIsContributed(located, index);
    FoundIsContributed(named, index);
    if LastFor(located, index).Some? {
      var i :| 0 <= i < |guests| && located[i] == Some((index, m[index]));
      LocatedIsReported(dom, guests, index, i, m[index]);
      assert guests[i] in guests;
    } else {
      var i :| 0 <= i < |guests| && named[i] == Some((index, m[index]));
      NamedIsReported(dom, guests, index, i, m[index]);
      assert guests[i] in guests;
    }
  }

  // ---- Places as libvirt prints them ----

  /** The string is the number in hexadecimal after "0x", with any number of leading zeros. */
  ghost predicate IsHex(s: string, n: int) {
    0 <= n < 0x8000_0000 && exists zeros: nat :: s == HexText(zeros, n)
  }

  function HexText(zeros: nat, n: nat): string { "0x" + (Zeros(zeros) + Hexadecimal(n)) }

  lemma TrimHex(zeros: nat, n: nat)
    ensures TrimPrefix(HexText(zeros, n), "0x") == Zeros(zeros) + Hexadecimal(n)
  {
    assert HexText(zeros, n)[..2] == "0x" && HexText(zeros, n)[2..] == Zeros(zeros) + Hexadecimal(n);
  }

  lemma HexReadsBack(s: string, n: int)
    requires IsHex(s, n)
    ensures Hex(s) == Parsed(n, true)
  {
    var zeros: nat :| s == HexText(zeros, n);
    TrimHex(zeros, n);
    HexDigitsReadBack(zeros, n, Zeros(zeros) + Hexadecimal(n));
  }

  lemma HexDigitsReadBack(zeros: nat, n: nat, digits: string)
    requires n < 0x8000_0000 && digits == Zeros(zeros) + Hexadecimal(n)
    ensures ParseInt(digits, 16, 0x8000_0000) == Parsed(n, true)
  {
    var limit: nat := 0x8000_0000;
    ScanAfterZeros(zeros, Hexadecimal(n), 16, 2 * limit);
    ScanOfHexadecimal(n, 2 * limit);
    assert digits[0] == if zeros > 0 then '0' else Hexadecimal(n)[0];
    ParseIntUnsigned(digits, 16, limit, n);
  }

  /** The four strings of an address print this PCI address. */
  ghost predicate PrintsPci(a: Address, p: PciAddress) {
    IsHex(a.domain, p.domain) && IsHex(a.bus, p.bus) && IsHex(a.slot, p.slot) && IsHex(a.function_, p.function_)
  }

  /** An address reads back, each number from its own string. */
  lemma PciReadsBack(a: Address, p: PciAddress)
    requires PrintsPci(a, p)
    ensures ParseHexAddress(a) == Some(p)
  {
    HexReadsBack(a.domain, p.domain);
    HexReadsBack(a.bus, p.bus);
    HexReadsBack(a.slot, p.slot);
    HexReadsBack(a.function_, p.function_);
  }

  /** The string prints this number, or is missing for zero. */
  ghost predicate IsDecimal(s: string, n: int) { 0 <= n < TWO_63 && (s == Decimal(n) || (s == "" && n == 0)) }

  lemma DecimalReadsBack(s: string, n: int)
    requires IsDecimal(s, n)
    ensures Atoi(s).value == n
  {
    if s == Decimal(n) { AtoiOfDecimal(n); }
  }

  /** Controller c of the domain is the last of its kind and index, and its address prints p. */
  ghost predicate ControllerAt(dom: Domain, c: nat, kind: string, index: string, p: PciAddress) {
    && c < |dom.controllers| && dom.controllers[c].kind == kind && dom.controllers[c].index == index
    && dom.controllers[c].address.kind == "pci" && PrintsPci(dom.controllers[c].address, p)
    && forall k :: c < k < |dom.controllers| ==> KeyOf(dom.controllers[k]) != kind + ":" + index
  }

  function KeyOf(c: Controller): string { c.kind + ":" + c.index }

  ghost predicate OnController(dom: Domain, kind: string, index: string, p: PciAddress) {
    exists c: nat :: ControllerAt(dom, c, kind, index, p)
  }

  /** The disk sits at this place: at its own PCI address, or with these bus, target and unit numbers on the
      controller its address names, the first one if it names none. */
  ghost predicate SitsAt(dom: Domain, d: Disk, l: Location) {
    || (d.address.kind == "pci" && PrintsPci(d.address, l.controller) && l.bus == l.target == l.unit == 0)
    || (&& d.address.kind == "drive" && d.targetBus != ""
        && IsDecimal(d.address.bus, l.bus) && IsDecimal(d.address.target, l.target) && IsDecimal(d.address.unit, l.unit)
        && OnController(dom, d.targetBus, if d.address.controller == "" then "0" else d.address.controller,
                        l.controller))
  }

  lemma ControllerIsFound(dom: Domain, c: nat, kind: string, index: string, p: PciAddress)
    requires ControllerAt(dom, c, kind, index, p)
    ensures LastFor(ControllerEntries(dom), kind + ":" + index) == Some(p)
  {
    var es, key := ControllerEntries(dom), kind + ":" + index;
    PciReadsBack(dom.controllers[c].address, p);
    assert es[c] == Some((key, p));
    forall k | c < k < |es| ensures !IsFor(es[k], key) {
      assert KeyOf(dom.controllers[k]) != key;
    }
    LastForIsLast(es, key);
  }

  lemma PlaceIsLocated(dom: Domain, d: Disk, l: Location)
    requires SitsAt(dom, d, l)
    ensures LocationOf(dom, d) == Some(l)
  {
    if d.address.kind == "pci" {
      PciReadsBack(d.address, l.controller);
    } else {
      var index := if d.address.controller == "" then "0" else d.address.controller;
      var c: nat :| ControllerAt(dom, c, d.targetBus, index, l.controller);
      ControllerIsFound(dom, c, d.targetBus, index, l.controller);
      DecimalReadsBack(d.address.bus, l.bus);
      DecimalReadsBack(d.address.target, l.target);
      DecimalReadsBack(d.address.unit, l.unit);
    }
  }

  /** The disk is an alias of this volume. */
  ghost predicate IsVolume(d: Disk, name: string) { d.device == "disk" && name != "" && d.alias == "ua-" + name }

  /** Disk d, an alias of this volume, sits at this place, and every later disk is none or sits elsewhere. */
  ghost predicate LastAt(dom: Domain, d: nat, l: Location, name: string) {
    && d < |dom.disks| && IsVolume(dom.disks[d], name) && SitsAt(dom, dom.disks[d], l)
    && forall k :: d < k < |dom.disks| ==> Elsewhere(dom, dom.disks[k], l)
  }

  ghost predicate Elsewhere(dom: Domain, d: Disk, l: Location) {
    (forall name :: !IsVolume(d, name)) || exists l' :: l' != l && SitsAt(dom, d, l')
  }

  lemma ElsewhereIsNotFor(dom: Domain, d: Disk, l: Location)
    requires Elsewhere(dom, d, l)
    ensures !IsFor(LocationEntry(dom, d), l)
  {
    if VolumeOf(d).Some? {
      VolumeOfIff(d, VolumeOf(d).value);
      assert IsVolume(d, VolumeOf(d).value);
      var l' :| l' != l && SitsAt(dom, d, l');
      PlaceIsLocated(dom, d, l');
    }
  }

  lemma VolumeIsLocated(dom: Domain, d: nat, l: Location, name: string)
    requires LastAt(dom, d, l, name)
    ensures LastFor(LocationEntries(dom), l) == Some(name)
  {
    PlaceIsLocated(dom, dom.disks[d], l);
    VolumeOfIff(dom.disks[d], name);
    forall k | d < k < |dom.disks| ensures !IsFor(LocationEntries(dom)[k], l) {
      assert Elsewhere(dom, dom.disks[k], l);
      ElsewhereIsNotFor(dom, dom.disks[k], l);
    }
    assert IsFor(LocationEntries(dom)[d], l);
    LastForIsLast(LocationEntries(dom), l);
  }

  /** A drive that the guest reports last under its index, at the place of a disk of the domain that no later
      disk shares, gets that disk's volume, whatever its serial number. */
  lemma DriveGetsItsVolume(dom: Domain, guests: seq<GuestDisk>, m: map<int, string>, g: nat, d: nat, name: string)
    requires IsJoin(m, LocationHits(dom, guests), SerialHits(dom, guests))
    requires g < |guests| && LastAt(dom, d, guests[g].location, name)
    requires forall k :: g < k < |guests| ==> guests[k].index != guests[g].index
    ensures guests[g].index in m && m[guests[g].index] == name
  {
    VolumeIsLocated(dom, d, guests[g].location, name);
    assert IsFor(LocationHits(dom, guests)[g], guests[g].index);
    LastForIsLast(LocationHits(dom, guests), guests[g].index);
    assert VolumeFor(LocationHits(dom, guests), SerialHits(dom, guests), guests[g].index) == Get(m, guests[g].index);
  }

  /** Disk d, an alias of this volume, is the last volume with this serial number. */
  ghost predicate LastSerial(dom: Domain, d: nat, serial: string, name: string) {
    && d < |dom.disks| && serial != "" && dom.disks[d].serial == serial && IsVolume(dom.disks[d], name)
    && forall k :: d < k < |dom.disks| ==>
         dom.disks[k].serial != serial || forall other :: !IsVolume(dom.disks[k], other)
  }

  lemma VolumeBySerial(dom: Domain, d: nat, serial: string, name: string)
    requires LastSerial(dom, d, serial, name)
    ensures LastFor(SerialEntries(dom), serial) == Some(name)
  {
    VolumeOfIff(dom.disks[d], name);
    forall k | d < k < |dom.disks| ensures !IsFor(SerialEntries(dom)[k], serial) {
      if VolumeOf(dom.disks[k]).Some? {
        VolumeOfIff(dom.disks[k], VolumeOf(dom.disks[k]).value);
        assert IsVolume(dom.disks[k], VolumeOf(dom.disks[k]).value);
      }
    }
    assert IsFor(SerialEntries(dom)[d], serial);
    LastForIsLast(SerialEntries(dom), serial);
  }

  /** A drive none of whose reports is at a disk's place gets the volume with its serial number, by the first report
      whose serial number a volume has. */
  lemma DriveFoundBySerial(dom: Domain, guests: seq<GuestDisk>, m: map<int, string>, g: nat, d: nat, name: string)
    requires IsJoin(m, LocationHits(dom, guests), SerialHits(dom, guests))
    requires g < |guests| && LastSerial(dom, d, guests[g].serial, name)
    requires forall k :: 0 <= k < |guests| && guests[k].index == guests[g].index ==>
      LastFor(LocationEntries(dom), guests[k].location).None?
    requires forall k :: 0 <= k < g && guests[k].index == guests[g].index ==>
      guests[k].serial == "" || LastFor(SerialEntries(dom), guests[k].serial).None?
    ensures guests[g].index in m && m[guests[g].index] == name
  {
    VolumeBySerial(dom, d, guests[g].serial, name);
    LastForIsLast(LocationHits(dom, guests), guests[g].index);
    assert IsFor(SerialHits(dom, guests)[g], guests[g].index);
    FirstForIsFirst(SerialHits(dom, guests), guests[g].index);
    assert VolumeFor(LocationHits(dom, guests), SerialHits(dom, guests), guests[g].index) == Get(m, guests[g].index);
  }

  ghost predicate DriveAt(dom: Domain, i: nat, l: Location)
    requires i < |dom.disks|
  {
    dom.disks[i].address.kind == "drive" && IsFor(LocationEntry(dom, dom.disks[i]), l)
  }

  /** The full parser agrees with the PCI-only one wherever no drive-addressed disk sits. */
  lemma LocationsExtendAddresses(dom: Domain, pci: PciAddress)
    requires forall i :: 0 <= i < |dom.disks| ==> !DriveAt(dom, i, PciLocation(pci))
    ensures LastFor(LocationEntries(dom), PciLocation(pci)) == LastFor(PciEntries(dom), pci)
  {
    assert LocationEntries(dom)[..|dom.disks|] == LocationEntries(dom);
    assert PciEntries(dom)[..|dom.disks|] == PciEntries(dom);
    LocationsExtendPrefix(dom, pci, |dom.disks|);
  }

  lemma {:induction false} LocationsExtendPrefix(dom: Domain, pci: PciAddress, n: nat)
    requires n <= |dom.disks| && forall i :: 0 <= i < n ==> !DriveAt(dom, i, PciLocation(pci))
    ensures LastFor(LocationEntries(dom)[..n], PciLocation(pci)) == LastFor(PciEntries(dom)[..n], pci)
  {
    if n > 0 {
      LocationsExtendPrefix(dom, pci, n - 1);
      assert LocationEntries(dom)[..n][..n - 1] == LocationEntries(dom)[..n - 1];
      assert PciEntries(dom)[..n][..n - 1] == PciEntries(dom)[..n - 1];
      assert !DriveAt(dom, n - 1, PciLocation(pci));
    }
  }
}
