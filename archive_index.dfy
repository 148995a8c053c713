/** The archive index: for each channel name, the archive partitions that
    hold it and the time range each covers, and what a scan does to it. */
module ArchiveIndex {
  import opened TimeUtil

  /** One partition's coverage of one channel. */
  datatype ArchiveProperties = ArchiveProperties(key: int, startTime: int, endTime: int)

  /** One entry of the server's `names(key, pattern)` reply. */
  datatype NameInfo = NameInfo(name: string, startSec: int, startNano: int, endSec: int, endNano: int)

  /** One archive of the server's `archives()` reply, with the `names` reply for it. */
  datatype ArchiveListing = ArchiveListing(key: int, names: seq<NameInfo>)

  /** One (channel, partition) pair found during a scan. */
  datatype Discovery = Discovery(name: string, props: ArchiveProperties)

  type Index = map<string, seq<ArchiveProperties>>

  /** Every indexed channel has at least one partition. */
  predicate IndexValid(index: Index)
  {
    forall name :: name in index ==> |index[name]| > 0
  }

  /** A partition's coverage of one channel, with both ends held, as the
      calendar type holds them, in whole microseconds. */
  function PropertiesOf(key: int, info: NameInfo): (p: ArchiveProperties)
    ensures p.key == key
    ensures p.startTime % NANOS_PER_MICROSECOND == 0 && p.endTime % NANOS_PER_MICROSECOND == 0
    ensures var exact := info.startSec * NANOS_PER_SECOND + info.startNano;
      exact - NANOS_PER_MICROSECOND / 2 < p.startTime <= exact + NANOS_PER_MICROSECOND / 2
    ensures var exact := info.endSec * NANOS_PER_SECOND + info.endNano;
      exact - NANOS_PER_MICROSECOND / 2 < p.endTime <= exact + NANOS_PER_MICROSECOND / 2
  {
    ArchiveProperties(key, Timestamp(info.startSec, info.startNano), Timestamp(info.endSec, info.endNano))
  }

  /** What one archive contributes, in the order its names are listed. */
  function DiscoveriesIn(archive: ArchiveListing): seq<Discovery>
  {
    seq(|archive.names|, j requires 0 <= j < |archive.names| =>
      Discovery(archive.names[j].name, PropertiesOf(archive.key, archive.names[j])))
  }

  /** Everything a scan finds, in discovery order: archive order, then name order. */
  function Discoveries(listing: seq<ArchiveListing>): seq<Discovery>
    decreases |listing|
  {
    if listing == [] then []
    else Discoveries(listing[..|listing| - 1]) + DiscoveriesIn(listing[|listing| - 1])
  }

  lemma DiscoveriesOfPrefix(listing: seq<ArchiveListing>, i: int)
    requires 0 <= i < |listing|
    ensures Discoveries(listing[..i + 1]) == Discoveries(listing[..i]) + DiscoveriesIn(listing[i])
  {
    assert listing[..i + 1][..i] == listing[..i];
  }

  lemma DiscoveriesInPrefix(before: seq<Discovery>, archive: ArchiveListing, j: int)
    requires 0 <= j < |archive.names|
    ensures (before + DiscoveriesIn(archive)[..j])
              + [Discovery(archive.names[j].name, PropertiesOf(archive.key, archive.names[j]))]
         == before + DiscoveriesIn(archive)[..j + 1]
  {
    var all := DiscoveriesIn(archive);
    assert all[..j + 1] == all[..j] + [all[j]];
  }

  /** The channel names a scan reports. */
  function Reported(ds: seq<Discovery>): set<string>
    decreases |ds|
  {
    if ds == [] then {} else Reported(ds[..|ds| - 1]) + {ds[|ds| - 1].name}
  }

  /** The partitions found for one channel, in discovery order. */
  function Found(ds: seq<Discovery>, name: string): seq<ArchiveProperties>
    decreases |ds|
  {
    if ds == [] then []
    else
      var last := ds[|ds| - 1];
      Found(ds[..|ds| - 1], name) + (if last.name == name then [last.props] else [])
  }

  /** The effect of one discovery on the index during a scan: the first one
      for a channel (not yet in `seen`) replaces its list, a later one appends. */
  function AddDiscovery(index: Index, seen: set<string>, d: Discovery): (r: Index)
    requires d.name in seen ==> d.name in index
    ensures r.Keys == index.Keys + {d.name}
    ensures d.name in seen ==> r[d.name] == index[d.name] + [d.props]
    ensures d.name !in seen ==> r[d.name] == [d.props]
    ensures forall name :: name in index && name != d.name ==> r[name] == index[name]
  {
    if d.name in seen then index[d.name := index[d.name] + [d.props]]
    else index[d.name := [d.props]]
  }

  /** The index after a scan, one discovery at a time; `Reported` of the
      discoveries so far plays the role of the set of channels already
      emptied by this scan. */
  function ScanResult(index: Index, ds: seq<Discovery>): (r: Index)
    ensures r.Keys == index.Keys + Reported(ds)
    decreases |ds|
  {
    if ds == [] then index
    else
      var init := ds[..|ds| - 1];
      AddDiscovery(ScanResult(index, init), Reported(init), ds[|ds| - 1])
  }

  lemma {:induction false} FoundEmptyIffUnreported(ds: seq<Discovery>, name: string)
    ensures Found(ds, name) == [] <==> name !in Reported(ds)
    decreases |ds|
  {
    if ds != [] {
      var init := ds[..|ds| - 1];
      FoundEmptyIffUnreported(init, name);
    }
  }

  /** A partition is in a channel's list exactly when the scan found it for
      that channel. */
  lemma {:induction false} FoundMembers(ds: seq<Discovery>, name: string, p: ArchiveProperties)
    ensures p in Found(ds, name) <==> Discovery(name, p) in ds
    decreases |ds|
  {
    if ds != [] {
      var init := ds[..|ds| - 1];
      FoundMembers(init, name, p);
      assert ds == init + [ds[|ds| - 1]];
    }
  }

  /** Discovery order is kept: what earlier archives found for a channel
      comes before what later ones found. */
  lemma {:induction false} FoundAppend(a: seq<Discovery>, b: seq<Discovery>, name: string)
    ensures Found(a + b, name) == Found(a, name) + Found(b, name)
    decreases |b|
  {
    if b == [] {
      assert a + b == a;
    } else {
      var init := b[..|b| - 1];
      FoundAppend(a, init, name);
      assert (a + b)[..|a + b| - 1] == a + init;
    }
  }

  /** What a scan means for each channel: a reported channel holds exactly
      what this scan found for it, in discovery order, and every other
      channel keeps its old list, or its absence. */
  lemma {:induction false} ScanResultAt(index: Index, ds: seq<Discovery>, name: string)
    ensures name in ScanResult(index, ds) <==> name in index || name in Reported(ds)
    ensures name in ScanResult(index, ds) ==>
      ScanResult(index, ds)[name] == if name in Reported(ds) then Found(ds, name) else index[name]
    decreases |ds|
  {
    if ds != [] {
      var init := ds[..|ds| - 1];
      ScanResultAt(index, init, name);
      FoundEmptyIffUnreported(init, name);
    }
  }

  /** A channel not reported by a scan keeps its entry, or its absence. */
  lemma ScanLeavesOthersAlone(index: Index, ds: seq<Discovery>, name: string)
    requires name !in Reported(ds)
    ensures name in ScanResult(index, ds) <==> name in index
    ensures name in index ==> ScanResult(index, ds)[name] == index[name]
  {
    ScanResultAt(index, ds, name);
  }

  /** A reported channel holds exactly the partitions found for it, whatever
      it held before. */
  lemma ScanReplacesReported(index: Index, ds: seq<Discovery>, name: string, p: ArchiveProperties)
    requires name in Reported(ds)
    ensures name in ScanResult(index, ds)
    ensures p in ScanResult(index, ds)[name] <==> Discovery(name, p) in ds
  {
    ScanResultAt(index, ds, name);
    FoundMembers(ds, name, p);
  }

  /** Scanning one more discovery is one AddDiscovery step. */
  lemma ScanStep(index: Index, ds: seq<Discovery>, d: Discovery)
    ensures Reported(ds + [d]) == Reported(ds) + {d.name}
    ensures ScanResult(index, ds + [d]) == AddDiscovery(ScanResult(index, ds), Reported(ds), d)
  {
    assert (ds + [d])[..|ds|] == ds;
  }

  /** One step of the scan inside one archive, written in the terms of the
      scan loop: the discovered prefix of the archive grows by its next name. */
  lemma ScanStepInArchive(index: Index, before: seq<Discovery>, archive: ArchiveListing, j: int)
    requires 0 <= j < |archive.names|
    ensures Reported(before + DiscoveriesIn(archive)[..j + 1]) ==
      Reported(before + DiscoveriesIn(archive)[..j]) + {archive.names[j].name}
    ensures ScanResult(index, before + DiscoveriesIn(archive)[..j + 1]) ==
      AddDiscovery(ScanResult(index, before + DiscoveriesIn(archive)[..j]),
                   Reported(before + DiscoveriesIn(archive)[..j]),
                   Discovery(archive.names[j].name, PropertiesOf(archive.key, archive.names[j])))
  {
    DiscoveriesInPrefix(before, archive, j);
    ScanStep(index, before + DiscoveriesIn(archive)[..j],
             Discovery(archive.names[j].name, PropertiesOf(archive.key, archive.names[j])));
  }

  /** The body of the scan's inner loop, in its own terms: with `emptied`
      the channels the scan has already restarted, appending to a restarted
      channel's list, or restarting an unseen channel's list, gives the scan
      of one more discovery. */
  lemma ScanLoopStep(index: Index, emptied: set<string>, start: Index, before: seq<Discovery>,
                     archive: ArchiveListing, j: int)
    requires 0 <= j < |archive.names|
    requires emptied == Reported(before + DiscoveriesIn(archive)[..j])
    requires index == ScanResult(start, before + DiscoveriesIn(archive)[..j])
    ensures var name := archive.names[j].name;
      var props := PropertiesOf(archive.key, archive.names[j]);
      && (name in emptied ==> name in index)
      && (name in emptied ==>
            && emptied == Reported(before + DiscoveriesIn(archive)[..j + 1])
            && index[name := index[name] + [props]] == ScanResult(start, before + DiscoveriesIn(archive)[..j + 1]))
      && (name !in emptied ==>
            && emptied + {name} == Reported(before + DiscoveriesIn(archive)[..j + 1])
            && index[name := [props]] == ScanResult(start, before + DiscoveriesIn(archive)[..j + 1]))
  {
    ScanStepInArchive(start, before, archive, j);
  }

  /** A scan keeps every list non-empty. */
  lemma ScanKeepsValid(index: Index, ds: seq<Discovery>)
    requires IndexValid(index)
    ensures IndexValid(ScanResult(index, ds))
  {
    forall name | name in ScanResult(index, ds)
      ensures |ScanResult(index, ds)[name]| > 0
    {
      ScanResultAt(index, ds, name);
      FoundEmptyIffUnreported(ds, name);
    }
  }

  /** Running the same scan twice gives the index of running it once. */
  lemma ScanIdempotent(index: Index, ds: seq<Discovery>)
    ensures ScanResult(ScanResult(index, ds), ds) == ScanResult(index, ds)
  {
    var once := ScanResult(index, ds);
    var twice := ScanResult(once, ds);
    forall name | name in twice
      ensures twice[name] == once[name]
    {
      ScanResultAt(once, ds, name);
      ScanResultAt(index, ds, name);
    }
  }

  /** Two scans that report disjoint sets of channels commute. */
  lemma ScansOfDisjointChannelsCommute(index: Index, ds1: seq<Discovery>, ds2: seq<Discovery>)
    requires Reported(ds1) !! Reported(ds2)
    ensures ScanResult(ScanResult(index, ds1), ds2) == ScanResult(ScanResult(index, ds2), ds1)
  {
    var a := ScanResult(ScanResult(index, ds1), ds2);
    var b := ScanResult(ScanResult(index, ds2), ds1);
    forall name | name in a
      ensures a[name] == b[name]
    {
      ScanResultAt(index, ds1, name);
      ScanResultAt(index, ds2, name);
      ScanResultAt(ScanResult(index, ds1), ds2, name);
      ScanResultAt(ScanResult(index, ds2), ds1, name);
    }
  }
}
