/** Naming the disks a guest agent scrape exports (pkg/qga/collector.go, pkg/qga/diskmap.go): a Windows disk name
    starts with the drive's index, the index names a volume, and the volume's claim is looked up with the same
    one-shot refresh as in a QMP scrape. */
module QgaDisks {
  import opened Bits
  import opened DiskJoin
  import opened GoText
  import opened QmpScrape
  import opened Tables

  /** The integer before the first space of a disk name. */
  function ParseDiskIndex(name: string): Option<int> {
    var text := TrimSpace(name);
    var first := match Cut(text, ' ') case None => text case Some(parts) => parts.0;
    if Atoi(first).ok then Some(Atoi(first).value) else None
  }

  lemma DiskIndexRoundTrip(index: nat, letters: string)
    requires index < TWO_63 && letters != "" && !IsSpace(letters[|letters| - 1])
    ensures ParseDiskIndex(Decimal(index) + " " + letters) == Some(index)
  {
    var name := Decimal(index) + " " + letters;
    assert !IsSpace(name[0]) && name[|name| - 1] == letters[|letters| - 1];
    assert TrimSpace(name) == name;
    assert name == Decimal(index) + [' '] + letters;
    CutJoined(Decimal(index), letters, ' ');
    AtoiOfDecimal(index);
  }

  datatype NamedDisk = NamedDisk(name: string, disk: string, pvc: string)

  function VolumeOfDisk(diskMap: map<int, string>, name: string): Option<string> {
    match ParseDiskIndex(name)
    case None => None
    case Some(index) => Get(diskMap, index)
  }

  function Volumes(diskMap: map<int, string>, names: seq<string>): seq<Option<string>> {
    seq(|names|, i requires 0 <= i < |names| => VolumeOfDisk(diskMap, names[i]))
  }

  /** Every disk with a volume gets it and that lookup's label; the others get blanks. */
  function Named(names: seq<string>, volumes: seq<Option<string>>, ls: seq<string>): (ds: seq<NamedDisk>)
    requires |volumes| == |names| && |ls| == |Somes(volumes)|
    ensures |ds| == |names|
  {
    if names == [] then []
    else
      var n := |names| - 1;
      match volumes[n]
      case None => Named(names[..n], volumes[..n], ls) + [NamedDisk(names[n], "", "")]
      case Some(v) => Named(names[..n], volumes[..n], ls[..|ls| - 1]) + [NamedDisk(names[n], v, ls[|ls| - 1])]
  }

  /** Lookups so far see the labels of the whole run of lookups. */
  lemma LabelsOfPrefix(pvcMap: map<string, string>, fetched: map<string, string>, aliases: seq<string>, n: nat)
    requires n <= |aliases|
    ensures Labels(pvcMap, fetched, aliases[..n]) == Labels(pvcMap, fetched, aliases)[..n]
  {
    FirstBlankOfPrefix(pvcMap, aliases, n);
  }

  lemma FirstBlankOfPrefix(pvcMap: map<string, string>, aliases: seq<string>, n: nat)
    requires n <= |aliases|
    ensures var f := FirstBlank(pvcMap, aliases); FirstBlank(pvcMap, aliases[..n]) == if f < n then f else n
  {
    var f, g := FirstBlank(pvcMap, aliases), FirstBlank(pvcMap, aliases[..n]);
    assert g < n ==> PvcOf(pvcMap, aliases[..n][g]) == "";
    assert f < n ==> PvcOf(pvcMap, aliases[..n][f]) == "";
  }

  /** The cache and the refresh flag after these lookups. */
  ghost predicate After(first: map<string, string>, fetched: map<string, string>, vs: seq<string>,
                        pvcMap: map<string, string>, refreshed: bool)
  {
    pvcMap == AfterLookups(first, fetched, vs) && (refreshed <==> FirstBlank(first, vs) < |vs|)
  }

  class VmDisks {
    var pvcMap: map<string, string>

    /** One lookup with the scrape's one-shot refresh. */
    method Lookup(v: string, fetched: map<string, string>, refreshed: bool, ghost first: map<string, string>,
                  ghost before: seq<string>)
      returns (pvc: string, refreshed': bool)
      requires After(first, fetched, before, pvcMap, refreshed)
      modifies this
      ensures After(first, fetched, before + [v], pvcMap, refreshed') && (refreshed ==> refreshed')
      ensures pvc == Labels(first, fetched, before + [v])[|before|]
    {
      LookupOneMore(first, fetched, before, v);
      refreshed' := refreshed;
      pvc := PvcOf(pvcMap, v);
      if pvc == "" && !refreshed {
        refreshed' := true;
        pvcMap := fetched;
        pvc := PvcOf(pvcMap, v);
      }
    }

    /** The naming part of a scrape, for the exported disks in whatever order the snapshot is visited. */
    method NameAll(names: seq<string>, diskMap: map<int, string>, fetched: map<string, string>)
      returns (ds: seq<NamedDisk>, fetches: nat)
      modifies this
      ensures ds == NamedBy(names, diskMap, old(pvcMap), fetched)
      ensures pvcMap == AfterLookups(old(pvcMap), fetched, Somes(Volumes(diskMap, names)))
      ensures fetches ==
        if FirstBlank(old(pvcMap), Somes(Volumes(diskMap, names))) < |Somes(Volumes(diskMap, names))| then 1 else 0
    {
      ds, fetches := NameWith(names, Volumes(diskMap, names), fetched);
    }

    method NameWith(names: seq<string>, volumes: seq<Option<string>>, fetched: map<string, string>)
      returns (ds: seq<NamedDisk>, fetches: nat)
      requires |volumes| == |names|
      modifies this
      ensures ds == Named(names, volumes, Labels(old(pvcMap), fetched, Somes(volumes)))
      ensures pvcMap == AfterLookups(old(pvcMap), fetched, Somes(volumes))
      ensures fetches == if FirstBlank(old(pvcMap), Somes(volumes)) < |Somes(volumes)| then 1 else 0
    {
      ghost var first := pvcMap;
      var refreshed := false;
      ds, fetches := [], 0;
      for i := 0 to |names|
        invariant ds == Named(names[..i], volumes[..i], Labels(first, fetched, Somes(volumes[..i])))
        invariant After(first, fetched, Somes(volumes[..i]), pvcMap, refreshed) && fetches == if refreshed then 1 else 0
      {
        DiskOneMore(names, volumes, i, first, fetched);
        var disk, pvc := "", "";
        if volumes[i].Some? {
          disk := volumes[i].value;
          var before := refreshed;
          pvc, refreshed := Lookup(disk, fetched, refreshed, first, Somes(volumes[..i]));
          fetches := fetches + if refreshed && !before then 1 else 0;
        }
        ds := ds + [NamedDisk(names[i], disk, pvc)];
      }
      assert names[..|names|] == names && volumes[..|names|] == volumes;
    }
  }

  /** One more lookup: from the cache if it still holds and has a claim, else from the fetched map. */
  lemma LookupOneMore(pvcMap: map<string, string>, fetched: map<string, string>, before: seq<string>, v: string)
    ensures var after := before + [v];
      var fetchedBefore := FirstBlank(pvcMap, before) < |before|;
      var now := if fetchedBefore || PvcOf(pvcMap, v) == "" then fetched else pvcMap;
      && Labels(pvcMap, fetched, after) == Labels(pvcMap, fetched, before) + [PvcOf(now, v)]
      && AfterLookups(pvcMap, fetched, after) == now
      && (FirstBlank(pvcMap, after) < |after| <==> fetchedBefore || PvcOf(pvcMap, v) == "")
  {
    var after := before + [v];
    assert after[..|before|] == before && after[|before|] == v;
    FirstBlankOfPrefix(pvcMap, after, |before|);
    LabelsOfPrefix(pvcMap, fetched, after, |before|);
  }

  /** One more disk: it is named after its volume and that lookup, or left blank. */
  lemma DiskOneMore(names: seq<string>, volumes: seq<Option<string>>, i: nat, pvcMap: map<string, string>,
                    fetched: map<string, string>)
    requires i < |names| == |volumes|
    ensures var v, before, after := volumes[i], Somes(volumes[..i]), Somes(volumes[..i + 1]);
      && after == (if v.Some? then before + [v.value] else before)
      && var ls, ls' := Labels(pvcMap, fetched, before), Labels(pvcMap, fetched, after);
      Named(names[..i + 1], volumes[..i + 1], ls') == Named(names[..i], volumes[..i], ls) +
        [if v.Some? then NamedDisk(names[i], v.value, ls'[|before|]) else NamedDisk(names[i], "", "")]
  {
    assert names[..i + 1][..i] == names[..i] && volumes[..i + 1][..i] == volumes[..i];
    var v, before := volumes[i], Somes(volumes[..i]);
    if v.Some? {
      LabelsOfPrefix(pvcMap, fetched, before + [v.value], |before|);
      assert (before + [v.value])[..|before|] == before;
    } else {
      assert before + [] == before;
    }
  }

  // ---- What the exported disks say ----

  /** The disks a scrape exports, in the order it visits them. */
  function NamedBy(names: seq<string>, diskMap: map<int, string>, pvcMap: map<string, string>,
                   fetched: map<string, string>)
    : (ds: seq<NamedDisk>)
    ensures |ds| == |names|
  {
    Named(names, Volumes(diskMap, names), Labels(pvcMap, fetched, Somes(Volumes(diskMap, names))))
  }

  lemma SomesPrefix<T>(xs: seq<Option<T>>, n: nat)
    requires n < |xs|
    ensures |Somes(xs[..n])| <= |Somes(xs[..n + 1])| && (xs[n].Some? ==> |Somes(xs[..n])| < |Somes(xs[..n + 1])|)
  {
    assert xs[..n + 1][..n] == xs[..n];
  }

  lemma {:induction false} SomesGrow<T>(xs: seq<Option<T>>, n: nat, m: nat)
    requires n <= m <= |xs|
    ensures |Somes(xs[..n])| <= |Somes(xs[..m])|
  {
    if n < m {
      SomesGrow(xs, n, m - 1);
      SomesPrefix(xs, m - 1);
    }
  }

  /** The position of disk i's lookup among all lookups. */
  lemma LookupPosition<T>(xs: seq<Option<T>>, i: nat)
    requires i < |xs| && xs[i].Some?
    ensures |Somes(xs[..i])| < |Somes(xs)|
  {
    SomesPrefix(xs, i);
    SomesGrow(xs, i + 1, |xs|);
    assert xs[..|xs|] == xs;
  }

  /** Disk i carries its own name, its volume and the label of its own lookup, or blanks if it has no volume. */
  lemma {:induction false} NamedAt(names: seq<string>, volumes: seq<Option<string>>, ls: seq<string>, i: nat)
    requires i < |names| == |volumes| && |ls| == |Somes(volumes)|
    ensures volumes[i].Some? ==> |Somes(volumes[..i])| < |ls|
    ensures Named(names, volumes, ls)[i] ==
      match volumes[i]
      case None => NamedDisk(names[i], "", "")
      case Some(v) => NamedDisk(names[i], v, ls[|Somes(volumes[..i])|])
  {
    var n := |names| - 1;
    if volumes[i].Some? {
      LookupPosition(volumes, i);
    }
    if i < n {
      var rest := if volumes[n].None? then ls else ls[..|ls| - 1];
      NamedAt(names[..n], volumes[..n], rest, i);
      assert volumes[..n][..i] == volumes[..i];
    }
  }

  /** Every lookup is some disk's. */
  lemma {:induction false} LookupOf<T>(xs: seq<Option<T>>, k: nat) returns (i: nat)
    requires k < |Somes(xs)|
    ensures i < |xs| && xs[i] == Some(Somes(xs)[k]) && |Somes(xs[..i])| == k
  {
    var n := |xs| - 1;
    if k < |Somes(xs[..n])| {
      i := LookupOf(xs[..n], k);
      assert xs[..n][..i] == xs[..i];
    } else {
      i := n;
    }
  }

  ghost predicate NamedTruly(ds: seq<NamedDisk>, names: seq<string>, diskMap: map<int, string>,
                             truth: map<string, string>)
    requires |ds| == |names|
  {
    forall i :: 0 <= i < |names| ==> ds[i] == TrueDisk(names[i], VolumeOfDisk(diskMap, names[i]), truth)
  }

  function TrueDisk(name: string, volume: Option<string>, truth: map<string, string>): NamedDisk {
    match volume
    case None => NamedDisk(name, "", "")
    case Some(v) => NamedDisk(name, v, PvcOf(truth, v))
  }

  /** Every disk is exported under its own volume and that volume's claim if and only if the labels of the scrape's
      lookups are all true: when that is, LabelsTrueIff tells. */
  lemma DisksNamedTrulyIff(names: seq<string>, diskMap: map<int, string>, pvcMap: map<string, string>, s: Scrape)
    requires s.aliases == Somes(Volumes(diskMap, names))
    ensures NamedTruly(NamedBy(names, diskMap, pvcMap, s.Fetched()), names, diskMap, s.truth) <==> s.AllTrueFrom(pvcMap)
  {
    var volumes, ls := Volumes(diskMap, names), s.LabelsFrom(pvcMap);
    var ds := Named(names, volumes, ls);
    forall i | 0 <= i < |names|
      ensures volumes[i].Some? ==> |Somes(volumes[..i])| < |ls|
      ensures ds[i] == match volumes[i] case None => NamedDisk(names[i], "", "")
                       case Some(v) => NamedDisk(names[i], v, ls[|Somes(volumes[..i])|])
      ensures volumes[i].Some? ==> volumes[i].value == s.aliases[|Somes(volumes[..i])|]
    {
      NamedAt(names, volumes, ls, i);
      if volumes[i].Some? { AliasOf(volumes, i); }
    }
    if NamedTruly(ds, names, diskMap, s.truth) {
      forall k | 0 <= k < |s.aliases| ensures ls[k] == PvcOf(s.truth, s.aliases[k]) {
        var i := LookupOf(volumes, k);
        assert ds[i].pvc == ls[k];
      }
    }
  }

  lemma {:induction false} AliasOf<T>(xs: seq<Option<T>>, i: nat)
    requires i < |xs| && xs[i].Some?
    ensures |Somes(xs[..i])| < |Somes(xs)| && Somes(xs)[|Somes(xs[..i])|] == xs[i].value
  {
    var n := |xs| - 1;
    if i < n {
      AliasOf(xs[..n], i);
      assert xs[..n][..i] == xs[..i];
    }
  }

  /** From the guest's report to the exported labels: the drive reported at the place of a disk of the domain is
      exported under that disk's volume, and under that volume's claim when the scrape's labels are true. */
  lemma DriveIsExported(
      dom: Domain, guests: seq<GuestDisk>, diskMap: map<int, string>, g: nat, d: nat, v: string, letters: string,
      names: seq<string>, i: nat, pvcMap: map<string, string>, s: Scrape)
    requires IsJoin(diskMap, LocationHits(dom, guests), SerialHits(dom, guests))
    requires g < |guests| && LastAt(dom, d, guests[g].location, v) && 0 <= guests[g].index < TWO_63
    requires letters != "" && !IsSpace(letters[|letters| - 1])
    requires forall k :: g < k < |guests| ==> guests[k].index != guests[g].index
    requires i < |names| && names[i] == Decimal(guests[g].index) + " " + letters
    requires s.aliases == Somes(Volumes(diskMap, names))
    ensures var out := NamedBy(names, diskMap, pvcMap, s.Fetched())[i];
      && out.name == names[i] && out.disk == v
      && (s.AllTrueFrom(pvcMap) ==> out.pvc == PvcOf(s.truth, v))
  {
    DriveIsNamed(dom, guests, diskMap, g, d, v, letters);
    NamedAt(names, Volumes(diskMap, names), s.LabelsFrom(pvcMap), i);
    DisksNamedTrulyIff(names, diskMap, pvcMap, s);
  }

  /** The name of such a drive leads to its disk's volume. */
  lemma DriveIsNamed(dom: Domain, guests: seq<GuestDisk>, diskMap: map<int, string>, g: nat, d: nat, v: string,
                     letters: string)
    requires IsJoin(diskMap, LocationHits(dom, guests), SerialHits(dom, guests))
    requires g < |guests| && LastAt(dom, d, guests[g].location, v) && 0 <= guests[g].index < TWO_63
    requires letters != "" && !IsSpace(letters[|letters| - 1])
    requires forall k :: g < k < |guests| ==> guests[k].index != guests[g].index
    ensures VolumeOfDisk(diskMap, Decimal(guests[g].index) + " " + letters) == Some(v)
  {
    DiskIndexRoundTrip(guests[g].index, letters);
    DriveGetsItsVolume(dom, guests, diskMap, g, d, v);
  }
}
