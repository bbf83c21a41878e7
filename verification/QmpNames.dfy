/** pkg/qmp/types.go: disk aliases and controller names inside QEMU device paths. */
module QmpNames {
  import opened Bits

  const PERIPHERAL := "/machine/peripheral/"
  const USER_ALIAS := "ua-"

  predicate HasPrefix(s: string, p: string) { |p| <= |s| && s[..|p|] == p }

  function TrimPrefix(s: string, p: string): string {
    if HasPrefix(s, p) then s[|p|..] else s
  }

  /** What `.` matches: no line break. */
  predicate OneLine(s: string) { '\n' !in s }

  /** The least k >= from at which s has a slash that is not its last character. */
  function InnerSlash(s: string, from: nat): (k: nat)
    requires from <= |s|
    ensures from <= k <= |s|
    ensures k < |s| ==> s[k] == '/' && k + 1 < |s|
    ensures forall i :: from <= i < k && i + 1 < |s| ==> s[i] != '/'
    decreases |s| - from
  {
    if from + 1 >= |s| then |s| else if s[from] == '/' then from else InnerSlash(s, from + 1)
  }

  /** The regular expression ^/machine/peripheral/(ua-(.+?)/.+)$ applied to the path after the fixed part:
      the alias ends at the first slash that leaves something before and after it. */
  function VirtioAlias(rest: string): Option<string> {
    if rest == [] || !OneLine(rest) then None else
    var k := InnerSlash(rest, 1);
    if k < |rest| then Some(rest[..k]) else None
  }

  datatype DiskInfo = DiskInfo(alias: string, deviceId: string)

  function ExtractDiskInfo(qdev: string): Option<DiskInfo> {
    var virtio := if HasPrefix(qdev, PERIPHERAL + USER_ALIAS) then VirtioAlias(qdev[|PERIPHERAL + USER_ALIAS|..])
      else None;
    if virtio.Some? then Some(DiskInfo(virtio.value, qdev[|PERIPHERAL|..]))
    else if HasPrefix(qdev, USER_ALIAS) && |qdev| > |USER_ALIAS| && OneLine(qdev[|USER_ALIAS|..])
    then Some(DiskInfo(qdev[|USER_ALIAS|..], qdev))
    else None
  }

  /** ^/machine/peripheral/([^/]+)/ matches: the device hangs below a named peripheral. */
  predicate HasControllerName(path: string) {
    HasPrefix(path, PERIPHERAL) &&
    exists k :: |PERIPHERAL| < k < |path| && path[k] == '/' && forall i :: |PERIPHERAL| <= i < k ==> path[i] != '/'
  }

  lemma OtherFirstChar(s: string, p: string)
    requires s != [] && p != [] && s[0] != p[0]
    ensures !HasPrefix(s, p)
  {
    if |p| <= |s| { assert s[..|p|][0] == s[0]; }
  }

  lemma VirtioAliasFinds(alias: string, tail: string)
    requires alias != [] && '/' !in alias && tail != [] && OneLine(alias) && OneLine(tail)
    ensures VirtioAlias(alias + "/" + tail) == Some(alias)
  {
    var rest := alias + "/" + tail;
    assert rest[|alias|] == '/' && rest[..|alias|] == alias;
    var k := InnerSlash(rest, 1);
    assert forall i :: 0 <= i < |alias| ==> rest[i] == alias[i];
  }

  /** The alias KubeVirt gave a disk comes back from the path of its virtio device... */
  lemma VirtioRoundTrip(alias: string, tail: string)
    requires alias != [] && '/' !in alias && tail != [] && OneLine(alias) && OneLine(tail)
    ensures ExtractDiskInfo(PERIPHERAL + USER_ALIAS + alias + "/" + tail)
         == Some(DiskInfo(alias, USER_ALIAS + alias + "/" + tail))
  {
    var q := PERIPHERAL + USER_ALIAS + alias + "/" + tail;
    assert q[..|PERIPHERAL + USER_ALIAS|] == PERIPHERAL + USER_ALIAS;
    assert q[|PERIPHERAL + USER_ALIAS|..] == alias + "/" + tail;
    assert q[|PERIPHERAL|..] == USER_ALIAS + alias + "/" + tail;
    VirtioAliasFinds(alias, tail);
  }

  /** ... and from the bare name of a SCSI or SATA device. */
  lemma FlatRoundTrip(alias: string)
    requires alias != [] && OneLine(alias)
    ensures ExtractDiskInfo(USER_ALIAS + alias) == Some(DiskInfo(alias, USER_ALIAS + alias))
  {
    var q := USER_ALIAS + alias;
    assert q[..3] == USER_ALIAS && q[3..] == alias;
    assert q[0] == 'u' && (PERIPHERAL + USER_ALIAS)[0] == '/';
    OtherFirstChar(q, PERIPHERAL + USER_ALIAS);
  }

  // ---- The patterns ----

  /** The path of a virtio device below a peripheral with this user alias: what the first pattern matches, the alias
      being as short as possible. */
  ghost predicate IsVirtio(qdev: string, alias: string, tail: string) {
    && qdev == "/machine/peripheral/ua-" + alias + "/" + tail
    && alias != "" && tail != "" && '/' !in alias[1..] && '\n' !in alias && '\n' !in tail
  }

  /** A bare name with this user alias: what the second pattern matches. */
  ghost predicate IsFlat(qdev: string, alias: string) { qdev == "ua-" + alias && alias != "" && '\n' !in alias }

  lemma VirtioIsExtracted(qdev: string, alias: string, tail: string)
    requires IsVirtio(qdev, alias, tail)
    ensures ExtractDiskInfo(qdev) == Some(DiskInfo(alias, "ua-" + alias + "/" + tail))
  {
    var fixed, rest := "/machine/peripheral/ua-", alias + "/" + tail;
    assert PERIPHERAL + USER_ALIAS == fixed;
    assert qdev[..|fixed|] == fixed && qdev[|fixed|..] == rest;
    assert qdev[|PERIPHERAL|..] == "ua-" + alias + "/" + tail;
    assert rest[|alias|] == '/' && rest[..|alias|] == alias;
    assert forall i :: 1 <= i < |alias| ==> rest[i] == alias[1..][i - 1];
    assert InnerSlash(rest, 1) == |alias|;
  }

  lemma FlatIsExtracted(qdev: string, alias: string)
    requires IsFlat(qdev, alias)
    ensures ExtractDiskInfo(qdev) == Some(DiskInfo(alias, qdev))
  {
    FlatRoundTrip(alias);
  }

  lemma ExtractedIsVirtio(qdev: string) returns (alias: string, tail: string)
    requires HasPrefix(qdev, "/machine/peripheral/ua-") && VirtioAlias(qdev[23..]).Some?
    ensures IsVirtio(qdev, alias, tail)
  {
    var rest := qdev[23..];
    var k := InnerSlash(rest, 1);
    alias, tail := rest[..k], rest[k + 1..];
    assert rest == alias + "/" + tail;
    assert qdev == "/machine/peripheral/ua-" + rest;
    assert forall i :: 0 <= i < |alias[1..]| ==> alias[1..][i] == rest[i + 1];
  }

  /** A name is one of a disk exactly if it has one of the two forms. */
  lemma ExtractedIff(qdev: string)
    ensures ExtractDiskInfo(qdev).Some? <==>
      (exists alias, tail :: IsVirtio(qdev, alias, tail)) || exists alias :: IsFlat(qdev, alias)
  {
    var fixed := "/machine/peripheral/ua-";
    assert PERIPHERAL + USER_ALIAS == fixed && |fixed| == 23;
    if alias, tail :| IsVirtio(qdev, alias, tail) { VirtioIsExtracted(qdev, alias, tail); }
    if alias :| IsFlat(qdev, alias) { FlatIsExtracted(qdev, alias); }
    if ExtractDiskInfo(qdev).Some? {
      if HasPrefix(qdev, fixed) && VirtioAlias(qdev[23..]).Some? {
        var alias, tail := ExtractedIsVirtio(qdev);
      } else {
        assert qdev == "ua-" + qdev[3..];
        assert IsFlat(qdev, qdev[3..]);
      }
    }
  }

  /** A device hangs below a named peripheral exactly if its path continues after a non-empty name. */
  lemma ControllerNameIff(path: string)
    ensures HasControllerName(path) <==>
      exists name, rest :: IsBelow(path, name, rest)
  {
    if HasControllerName(path) {
      var k :| |PERIPHERAL| < k < |path| && path[k] == '/' && forall i :: |PERIPHERAL| <= i < k ==> path[i] != '/';
      var name, rest := path[|PERIPHERAL|..k], path[k + 1..];
      assert path == PERIPHERAL + name + "/" + rest;
      assert IsBelow(path, name, rest);
    }
    if name, rest :| IsBelow(path, name, rest) {
      var k := |PERIPHERAL| + |name|;
      assert path[..|PERIPHERAL|] == PERIPHERAL && path[k] == '/';
      assert forall i :: |PERIPHERAL| <= i < k ==> path[i] == name[i - |PERIPHERAL|];
    }
  }

  ghost predicate IsBelow(path: string, name: string, rest: string) {
    path == "/machine/peripheral/" + name + "/" + rest && name != "" && '/' !in name
  }
}
