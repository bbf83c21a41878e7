/** The mount points under which kubelet publishes volumes (pkg/device/resolver.go), matched there by two
    regular expressions. */
module VolumePaths {
  import opened Bits
  import opened GoText

  /** Lower-case hexadecimal digits grouped 8-4-4-4-12. */
  predicate IsUuid(s: string) {
    |s| == 36 && forall i :: 0 <= i < 36 ==> if i == 8 || i == 13 || i == 18 || i == 23 then s[i] == '-'
      else IsHex(s[i])
  }

  predicate IsHex(c: char) { '0' <= c <= '9' || 'a' <= c <= 'f' }

  ghost predicate HexRun(s: string, n: nat) { |s| == n && forall i :: 0 <= i < n ==> s[i] in "0123456789abcdef" }

  lemma HexIff(c: char)
    ensures IsHex(c) <==> c in "0123456789abcdef"
  {
    var digits := "0123456789abcdef";
    if IsHex(c) {
      var k := if c <= '9' then c as int - '0' as int else c as int - 'a' as int + 10;
      assert digits[k] == c;
    }
  }

  /** A pod's UID is five groups of 8, 4, 4, 4 and 12 lower-case hexadecimal digits, with dashes in between. */
  lemma UuidIff(s: string)
    ensures IsUuid(s) <==> exists a, b, c, d, e :: IsGrouped(s, a, b, c, d, e)
  {
    forall x ensures IsHex(x) <==> x in "0123456789abcdef" { HexIff(x); }
    if IsUuid(s) {
      var a, b, c, d, e := s[..8], s[9..13], s[14..18], s[19..23], s[24..];
      assert s == a + "-" + b + "-" + c + "-" + d + "-" + e;
      assert IsGrouped(s, a, b, c, d, e);
    }
    if a, b, c, d, e :| IsGrouped(s, a, b, c, d, e) {
      GroupedIsUuid(s, a, b, c, d, e);
    }
  }

  ghost predicate IsGrouped(s: string, a: string, b: string, c: string, d: string, e: string) {
    && s == a + "-" + b + "-" + c + "-" + d + "-" + e
    && HexRun(a, 8) && HexRun(b, 4) && HexRun(c, 4) && HexRun(d, 4) && HexRun(e, 12)
  }

  lemma GroupedIsUuid(s: string, a: string, b: string, c: string, d: string, e: string)
    requires IsGrouped(s, a, b, c, d, e)
    ensures IsUuid(s)
  {
    forall x ensures IsHex(x) <==> x in "0123456789abcdef" { HexIff(x); }
    assert s[..8] == a && s[9..13] == b && s[14..18] == c && s[19..23] == d && s[24..] == e;
    assert s[8] == '-' && s[13] == '-' && s[18] == '-' && s[23] == '-';
    forall i | 0 <= i < 36 && i != 8 && i != 13 && i != 18 && i != 23 ensures IsHex(s[i]) {
      assert i < 8 ==> s[i] == a[i];
      assert 8 < i < 13 ==> s[i] == b[i - 9];
      assert 13 < i < 18 ==> s[i] == c[i - 14];
      assert 18 < i < 23 ==> s[i] == d[i - 19];
      assert 23 < i ==> s[i] == e[i - 24];
    }
  }

  datatype Volume = Volume(podUid: string, pv: string)

  /** The last five components are pods, a pod, volumes, a plugin and a volume, after a slash. */
  function VolumeTail(c: seq<string>): Option<Volume> {
    var n := |c|;
    if n >= 6 && c[n - 5] == "pods" && IsUuid(c[n - 4]) && c[n - 3] == "volumes" && c[n - 2] != [] && c[n - 1] != []
    then Some(Volume(c[n - 4], c[n - 1])) else None
  }

  function ParseVolumePath(path: string): Option<Volume> {
    var c := Split(path, '/');
    if VolumeTail(c).Some? || c[|c| - 1] != "mount" then VolumeTail(c) else VolumeTail(c[..|c| - 1])
  }

  function ParseBlockPath(path: string): Option<Volume> {
    var c := Split(path, '/');
    var n := |c|;
    if n >= 5 && c[n - 4] == "volumeDevices" && c[n - 3] == "publish" && c[n - 2] != [] && IsUuid(c[n - 1])
    then Some(Volume(c[n - 1], c[n - 2])) else None
  }

  // ---- The patterns themselves ----

  predicate IsName(s: string) { s != [] && '/' !in s }

  function VolumeParts(v: Volume, plugin: string, mounted: bool): seq<string> {
    ["pods", v.podUid, "volumes", plugin, v.pv] + if mounted then ["mount"] else []
  }

  /** The paths the first pattern matches with these groups. */
  function VolumePath(prefix: string, v: Volume, plugin: string, mounted: bool): string {
    prefix + ['/'] + Joined(VolumeParts(v, plugin, mounted), '/')
  }

  function BlockParts(v: Volume): seq<string> { ["volumeDevices", "publish", v.pv, v.podUid] }

  function BlockPath(prefix: string, v: Volume): string { prefix + ['/'] + Joined(BlockParts(v), '/') }

  lemma SplitAfterPrefix(prefix: string, parts: seq<string>)
    requires parts != [] && forall i :: 0 <= i < |parts| ==> '/' !in parts[i]
    ensures Split(prefix + ['/'] + Joined(parts, '/'), '/') == Split(prefix, '/') + parts
  {
    SplitOfJoined(parts, '/');
    SplitConcat(prefix, Joined(parts, '/'), '/');
  }

  /** A path whose components end in these parts, after at least one other, is a prefix and the parts. */
  lemma PathOfParts(path: string, parts: seq<string>) returns (prefix: string)
    requires parts != [] && |Split(path, '/')| > |parts|
    requires Split(path, '/')[|Split(path, '/')| - |parts|..] == parts
    ensures path == prefix + ['/'] + Joined(parts, '/')
  {
    var c := Split(path, '/');
    var init := c[..|c| - |parts|];
    assert c == init + parts;
    JoinedOfSplit(path, '/');
    JoinedConcat(init, parts, '/');
    prefix := Joined(init, '/');
  }

  lemma UuidHasNoSlash(s: string)
    requires IsUuid(s)
    ensures '/' !in s
  {
  }

  /** The two forms of the volume pattern, with and without the trailing mount, never match the same path,
      so its groups do not depend on how the matcher searches. */
  lemma MountSuffixUnambiguous(c: seq<string>)
    requires |c| >= 1 && c[|c| - 1] == "mount" && VolumeTail(c[..|c| - 1]).Some?
    ensures VolumeTail(c).None?
  {
    var n := |c|;
    assert c[..n - 1][n - 5] == c[n - 5];
    assert n >= 6 && IsUuid(c[n - 5]);
  }

  /** Soundness and completeness of the volume parser with respect to its pattern. */
  lemma VolumePathMatches(prefix: string, v: Volume, plugin: string, mounted: bool)
    requires IsUuid(v.podUid) && IsName(plugin) && IsName(v.pv)
    ensures ParseVolumePath(VolumePath(prefix, v, plugin, mounted)) == Some(v)
  {
    UuidHasNoSlash(v.podUid);
    var parts := VolumeParts(v, plugin, mounted);
    SplitAfterPrefix(prefix, parts);
    var c := Split(prefix, '/') + parts;
    var n := |c|;
    if mounted {
      assert c[..n - 1] == Split(prefix, '/') + VolumeParts(v, plugin, false);
      MountSuffixUnambiguous(c);
    }
  }

  lemma TailIsParts(c: seq<string>)
    requires VolumeTail(c).Some?
    ensures |c| > 5 && c[|c| - 5..] == VolumeParts(VolumeTail(c).value, c[|c| - 2], false)
  {
  }

  lemma MatchedVolumePath(path: string) returns (prefix: string, plugin: string, mounted: bool)
    requires ParseVolumePath(path).Some?
    ensures var v := ParseVolumePath(path).value;
            IsUuid(v.podUid) && IsName(plugin) && IsName(v.pv) && path == VolumePath(prefix, v, plugin, mounted)
  {
    var c := Split(path, '/');
    var n := |c|;
    var v := ParseVolumePath(path).value;
    mounted := VolumeTail(c).None?;
    var d := if mounted then c[..n - 1] else c;
    var m := |d|;
    plugin := d[m - 2];
    TailIsParts(d);
    assert c[m - 5..] == VolumeParts(v, plugin, mounted);
    prefix := PathOfParts(path, VolumeParts(v, plugin, mounted));
  }

  lemma BlockPathMatches(prefix: string, v: Volume)
    requires IsUuid(v.podUid) && IsName(v.pv)
    ensures ParseBlockPath(BlockPath(prefix, v)) == Some(v)
  {
    UuidHasNoSlash(v.podUid);
    SplitAfterPrefix(prefix, BlockParts(v));
  }

  lemma MatchedBlockPath(path: string) returns (prefix: string)
    requires ParseBlockPath(path).Some?
    ensures var v := ParseBlockPath(path).value; IsUuid(v.podUid) && IsName(v.pv) && path == BlockPath(prefix, v)
  {
    var c := Split(path, '/');
    assert c[|c| - 4..] == BlockParts(ParseBlockPath(path).value);
    prefix := PathOfParts(path, BlockParts(ParseBlockPath(path).value));
  }

  /** No path is taken for both kinds of volume. */
  lemma KindsAreExclusive(path: string)
    ensures ParseVolumePath(path).None? || ParseBlockPath(path).None?
  {
    var c := Split(path, '/');
    var n := |c|;
    if ParseBlockPath(path).Some? {
      assert IsUuid(c[n - 1]) && !IsUuid(c[n - 4]);
      assert |c[n - 1]| != |"mount"|;
    }
  }
}
