/** The archiver client: the archive index it owns, the scan that refreshes
    it, and the `values` retrieval built on it. */
module Archiving {
  import opened Outcomes
  import opened ChannelRecords
  import opened ArchiveIndex
  import opened Selection
  import opened Retrieval

  class Archiver {
    /** Channel name to the partitions known to hold it. */
    var archivesForName: Index

    /** Every indexed channel has a non-empty list: a scan only ever writes
        a channel's list by starting it with one entry or appending. */
    predicate Valid()
      reads this
    {
      IndexValid(archivesForName)
    }

    /** A client with an empty index (the server connection is not modelled). */
    constructor ()
      ensures Valid() && archivesForName == map[]
    {
      archivesForName := map[];
    }

    /** `scan_archives`: walks every archive and every name the server
        reports for it; the first partition found for a channel in this scan
        replaces its list, later ones append. */
    method ScanArchives(listing: seq<ArchiveListing>)
      requires Valid()
      modifies this
      ensures Valid()
      ensures archivesForName == ScanResult(old(archivesForName), Discoveries(listing))
    {
      ghost var start := archivesForName;
      var emptied: set<string> := {};
      var i := 0;
      while i < |listing|
        invariant 0 <= i <= |listing|
        invariant emptied == Reported(Discoveries(listing[..i]))
        invariant archivesForName == ScanResult(start, Discoveries(listing[..i]))
      {
        var archive := listing[i];
        ghost var before := Discoveries(listing[..i]);
        assert before + DiscoveriesIn(archive)[..0] == before;
        var j := 0;
        while j < |archive.names|
          invariant 0 <= j <= |archive.names|
          invariant emptied == Reported(before + DiscoveriesIn(archive)[..j])
          invariant archivesForName == ScanResult(start, before + DiscoveriesIn(archive)[..j])
        {
          var info := archive.names[j];
          var props := PropertiesOf(archive.key, info);
          ScanLoopStep(archivesForName, emptied, start, before, archive, j);
          if info.name in emptied {
            archivesForName := archivesForName[info.name := archivesForName[info.name] + [props]];
          } else {
            archivesForName := archivesForName[info.name := [props]];
            emptied := emptied + {info.name};
          }
          j := j + 1;
        }
        assert DiscoveriesIn(archive)[..|archive.names|] == DiscoveriesIn(archive);
        DiscoveriesOfPrefix(listing, i);
        i := i + 1;
      }
      assert listing[..|listing|] == listing;
      ScanKeepsValid(start, Discoveries(listing));
    }

    /** `values`: optionally rescans, assigns a key to every channel (by
        maximum overlap, or from `archiveKeys` by position), issues one batch
        per key, and places the returned records at the first position of
        their names. `reply` stands for the server's answers to the batches. */
    method Values(channelNames: seq<string>, startTime: int, endTime: int, count: int, interpolation: int,
                  scanArchives: bool, listing: seq<ArchiveListing>, archiveKeys: Option<seq<int>>, reply: Reply)
      returns (r: Result<Slots>, batches: seq<BatchRequest>)
      requires Valid()
      modifies this
      ensures Valid()
      ensures archivesForName ==
        if scanArchives then ScanResult(old(archivesForName), Discoveries(listing)) else old(archivesForName)
      ensures archiveKeys.Some? && |archiveKeys.value| != |channelNames| ==>
        r == Err(KeyCountMismatch(|archiveKeys.value|, |channelNames|)) && batches == []
      ensures archiveKeys.Some? && |archiveKeys.value| == |channelNames| ==>
        && batches == Batches(GroupingOf(channelNames, ZippedKeys(channelNames, archiveKeys.value)),
                              startTime, endTime, count, interpolation)
        && r == PlaceBatches(channelNames, EmptySlots(|channelNames|), batches, reply)
      ensures archiveKeys.None? && FirstMissing(archivesForName, channelNames) < |channelNames| ==>
        r == Err(NotFound(channelNames[FirstMissing(archivesForName, channelNames)])) && batches == []
      ensures archiveKeys.None? && FirstMissing(archivesForName, channelNames) == |channelNames| ==>
        && batches == Batches(GroupingOf(channelNames, SelectedKeys(archivesForName, channelNames, startTime, endTime)),
                              startTime, endTime, count, interpolation)
        && r == PlaceBatches(channelNames, EmptySlots(|channelNames|), batches, reply)
    {
      if scanArchives {
        ScanArchives(listing);
      }
      var grouping: Result<Grouping>;
      if archiveKeys.None? {
        grouping := GroupBySelection(archivesForName, channelNames, startTime, endTime);
      } else {
        grouping := GroupByGivenKeys(channelNames, archiveKeys.value);
      }
      if grouping.Err? {
        return Err(grouping.error), [];
      }
      batches := Batches(grouping.value, startTime, endTime, count, interpolation);
      r := Reassemble(channelNames, batches, reply);
    }
  }
}
