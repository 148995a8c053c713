# Channel Archiver client — Dafny model

This project models the core of `charc`, a Python client for the EPICS
Channel Archiver's XML-RPC data server. The client lists the archive
partitions ("archives", each with an integer key) that hold each channel.
For a query window it picks, per channel, the partition whose coverage
overlaps the window most. It then asks for each partition's channels in one
batched `values` call, and puts the normalised records back in the order the
caller asked for.

The model has one module per component:

- `TimeUtil` (`time_util.dfy`): (seconds, nanoseconds) to and from an
  instant, and the overlap of two time ranges. Instants are integer
  nanoseconds; those built from the server's pairs are rounded to whole
  microseconds, the precision of Python's `datetime`.
- `ChannelRecords` (`channel_data.dfy`): the raw `archive_data` record, and
  `ChannelData`. Its metadata is a sum type with a discrete (states) variant
  and a numeric (limits, precision, units) variant. It has four
  index-aligned sample columns. `NewChannelData` is the constructor's loop.
- `ArchiveIndex` (`archive_index.dfy`): the index (channel name to a list of
  `ArchiveProperties`), and `ScanResult`, the index a scan produces, defined
  one discovery at a time as the source's loop body does it; `ScanResultAt`
  states what it comes to for each channel.
- `Selection` (`selection.dfy`): maximum-overlap key selection with
  first-seen tie-break, including Python 2's `number > None`. Also the two
  ways of grouping channels by key: automatic, and by explicit
  `archive_keys`.
- `Retrieval` (`retrieval.dfy`): the batch plan, the output list
  (`[None] * n`, records written at `channel_names.index(name)`), and the
  lemmas that characterise the result.
- `Archiving` (`archiver.dfy`): class `Archiver`. Its field
  `archivesForName` is the index. `ScanArchives` updates it with nested
  loops. `Values` runs the whole retrieval.

The remote calls are inputs. `archives()` together with `names(key,
pattern)` becomes a `seq<ArchiveListing>`. The answers to the batched
`values` calls become a `Reply` map from archive key to records. A key with
no answer stands for a failed remote call.

## Model

| member | source | states |
|---|---|---|
| TimeUtil.Timestamp | charc/charc.py:16-18 | the instant for a (seconds, nanoseconds) pair is a whole number of microseconds within half a microsecond of the exact instant, as `utcfromtimestamp` rounds it |
| TimeUtil.SecondsAndNanos | charc/charc.py:21-24 | the pair sent to the server has 0 <= nanoseconds < 10^9, in whole microseconds |
| TimeUtil.RoundTripAtMicroseconds | charc/charc.py:16-24 | a (seconds, nanoseconds) pair with whole microseconds survives conversion to an instant and back unchanged |
| TimeUtil.ConversionLossBounded | charc/charc.py:21-24 | converting an instant to a pair drops less than one microsecond and never rounds up |
| TimeUtil.InstantRoundTrip | charc/charc.py:16-24 | a whole-microsecond instant, which is all a `datetime` holds, survives conversion to a pair and back unchanged |
| TimeUtil.Overlap | charc/charc.py:27-31 | the overlap is never negative; it is positive exactly when both ranges are non-empty and they intersect; it is at most either range's length |
| TimeUtil.OverlapSymmetric | charc/charc.py:27-31 | swapping the two ranges gives the same overlap |
| TimeUtil.OverlapOfDisjoint | charc/charc.py:27-31 | ranges that do not meet have overlap 0 |
| TimeUtil.OverlapOfContained | charc/charc.py:27-31 | when one range contains the other, the overlap is the inner range's full length |
| ChannelRecords.MetaOf | charc/charc.py:41-54 | `meta.type == 0` selects the discrete shape with the record's `states`; any other type selects the numeric shape with the display, alarm and warning limits, precision and units read from their `meta` fields |
| ChannelRecords.Normalize | charc/charc.py:56-69 | the four sample columns are aligned, one entry per sample, and every sample time is a whole number of microseconds |
| ChannelRecords.NewChannelData | charc/charc.py:36-69 | copies name, type and count; when `meta.type == 0`, `states` is set and the limits, precision and units are None, otherwise the reverse, each taken from its `meta` field; `status`, `severity`, `time` and `values` each have one entry per sample, entry i taken from sample i |
| ChannelRecords.NormalizedMetaExclusive | charc/charc.py:41-54 | `states` is present iff `meta.type == 0` iff the limits are absent; the limits, precision and units are all present or all absent |
| ChannelRecords.NormalizeIgnoresUnusedMeta | charc/charc.py:40-54 | a discrete record's result does not depend on the numeric `meta` fields, and a numeric record's result does not depend on `states` |
| Archiving.Archiver.constructor | charc/charc.py:74-78 | a new client starts with an empty index |
| Archiving.Archiver.ScanArchives | charc/charc.py:80-96 | after the nested loops, the index is `ScanResult(old index, discoveries in archive order then name order)`, and every list is non-empty |
| ArchiveIndex.PropertiesOf | charc/charc.py:87-91 | a partition entry carries the archive's key and both ends in whole microseconds, each within half a microsecond of the server's (seconds, nanoseconds) pair |
| ArchiveIndex.AddDiscovery | charc/charc.py:92-96 | one discovery adds its channel to the index; the channel's list is replaced by the new partition alone when this scan has not emptied it yet, and gains it at the end otherwise; every other channel keeps its list |
| ArchiveIndex.ScanResult | charc/charc.py:84-96 | after a scan the index holds exactly the channels it held before plus those the scan reports |
| ArchiveIndex.ScanLoopStep | charc/charc.py:92-96 | with `emptied` the channels this scan has restarted, appending to a restarted channel's list or restarting an unseen channel's list yields the scan of one more discovery |
| ArchiveIndex.ScanStep | charc/charc.py:92-96 | one discovery replaces the channel's list when this scan has not seen the channel yet, and appends otherwise |
| ArchiveIndex.ScanResultAt | charc/charc.py:84-96 | after a scan, a channel is indexed iff it was before or the scan reports it; a reported channel holds exactly the partitions this scan found for it, in discovery order, and any other channel keeps its old list |
| ArchiveIndex.ScanReplacesReported | charc/charc.py:92-96 | a channel the scan reports holds exactly the partitions this scan found for it; entries from earlier scans are gone |
| ArchiveIndex.ScanLeavesOthersAlone | charc/charc.py:92-96 | a channel the scan does not report keeps its old list, or stays absent |
| ArchiveIndex.FoundMembers | charc/charc.py:87-96 | a partition is in a channel's scanned list iff the scan found that (channel, partition) pair |
| ArchiveIndex.FoundAppend | charc/charc.py:85-96 | partitions from earlier archives come before those from later ones in a channel's list |
| ArchiveIndex.FoundEmptyIffUnreported | charc/charc.py:92-96 | the scan finds nothing for a channel exactly when it does not report that channel |
| ArchiveIndex.ScanKeepsValid | charc/charc.py:92-96 | a scan keeps every indexed channel's list non-empty |
| ArchiveIndex.ScanIdempotent | charc/charc.py:84-96 | running the same scan twice gives the same index as running it once |
| ArchiveIndex.ScansOfDisjointChannelsCommute | charc/charc.py:80-96 | two scans that report disjoint channel sets give the same index in either order |
| Selection.BestIndex | charc/charc.py:111-119 | the selected position is a position of the partition list |
| Selection.BestIndexIsFirstArgmax | charc/charc.py:111-119 | the selected position has the maximum overlap with the window, and every earlier position has strictly less |
| Selection.SameCoverageKeepsEarlier | charc/charc.py:115-119 | a partition with the same start and end as an earlier one in the list is never selected |
| Selection.SubMicrosecondDifferenceTies | charc/charc.py:115-119 | (5 s, 100 ns) and (5 s, 400 ns) both round to 5.000000 s (lines 89-90), so partitions ending there tie over [0 s, 10 s] and the first is kept |
| Selection.SelectKey | charc/charc.py:111-119 | the loop, which starts from `None` and replaces the best only on strictly greater overlap, returns the key at BestIndex |
| Selection.FirstArgmaxUnique | charc/charc.py:115-119 | "maximal overlap, first such position" determines a single position |
| Selection.FirstChosenOnTies | charc/charc.py:111-119 | when all overlaps are equal (for example all 0), the first entry is chosen |
| Selection.FirstMissing | charc/charc.py:110-114 | gives the first position whose channel is not indexed, or the number of channels when all are indexed |
| Selection.GroupBySelection | charc/charc.py:108-120 | fails with NotFound for the first channel missing from the index; otherwise groups every channel, with repeats, under its selected key, and creates groups in first-appearance order |
| Selection.ZipDict | charc/charc.py:125 | the dict has a key for exactly the channel names given |
| Selection.ZipToDict | charc/charc.py:125 | builds `dict(zip(names, keys))` pair by pair |
| Selection.ZipDictLastPairingWins | charc/charc.py:125 | every name is a key of the dict, mapped to the key of its last occurrence |
| Selection.GroupByGivenKeys | charc/charc.py:121-127 | fails with the key and channel counts when they differ; otherwise groups every channel, repeats in input order, under its zipped key |
| Selection.GroupByMembership | charc/charc.py:120-127 | a name is in a key's group iff some position pairs that name with that key |
| Selection.GroupOfNameUnique | charc/charc.py:120-127 | when each name has one key, every input name is in the group of exactly one key |
| Selection.SelectedKeysFunctional | charc/charc.py:111-120 | automatic selection gives repeated names the same key |
| Selection.ZippedKeysFunctional | charc/charc.py:125-127 | the explicit path gives repeated names the same key, that of the last pairing |
| Selection.GroupBy | charc/charc.py:109-120 | `names_for_key`: every group is non-empty and holds only requested channel names |
| Selection.GroupingOf | charc/charc.py:109-127 | a group exists for a key iff the key is in the group-creation order, and every key in that order has a group |
| Selection.AppendToGroup | charc/charc.py:120 | appending one channel under its key gives the grouping of the channels so far plus that one |
| Selection.GroupByKeys | charc/charc.py:109-127 | the groups exist for exactly the keys assigned to some channel |
| Selection.Distinct | charc/charc.py:109-120 | the group-creation order lists every assigned key exactly once |
| Retrieval.EmptySlots | charc/charc.py:129 | `[None] * n`: n slots, all None |
| Retrieval.Batches | charc/charc.py:131-132 | one request per group, in group order, each carrying the group's key and exactly its channels |
| Retrieval.FirstIndex | charc/charc.py:135 | `list.index`: the first position holding the name, or the length when the name does not occur |
| Retrieval.PlaceRecords | charc/charc.py:133-135 | placing a batch's records keeps one slot per requested name |
| Retrieval.PlaceBatches | charc/charc.py:131-135 | the output keeps one slot per requested name after every batch |
| Retrieval.PlaceRecordsCharacterized | charc/charc.py:133-135 | placing records succeeds iff every record names a requested channel; each slot then holds the last record for its name when it is that name's first position, and otherwise its previous content |
| Retrieval.PlaceBatchesFlat | charc/charc.py:131-135 | when every batch is answered, running the batches in turn equals placing all returned records in one pass |
| Retrieval.PlaceBatchesUnanswered | charc/charc.py:131-132 | a failed remote call makes the whole retrieval fail |
| Retrieval.RetrievalCharacterized | charc/charc.py:129-137 | the result has `len(channel_names)` slots; it succeeds iff every batch is answered and every record names a requested channel; slot i holds the last returned record for `channel_names[i]` when i is that name's first position and some record came back for it; every other slot, including later duplicate positions, is None |
| Retrieval.BatchOrderIrrelevant | charc/charc.py:131 | provided no name comes back from two batches, two orders of the same batches both succeed or both fail, and give the same list when they succeed |
| Retrieval.HonestRepliesDisjoint | charc/charc.py:120-132 | if each batch answers only for its own channels, then no name comes back from two batches, so the order of the group dict does not matter |
| Retrieval.Reassemble | charc/charc.py:129-137 | filling the `[None] * n` array batch by batch and record by record computes PlaceBatches from an all-None list |
| Archiving.Archiver.Values | charc/charc.py:98-137 | rescans when asked; a count mismatch (explicit keys) or a channel missing from the index (automatic selection) fails before any batch is planned; otherwise the batches and the result are those of the grouping by zipped or selected keys |

## Left out

- The XML-RPC transport (`xmlrpclib.Server`; the `archives`, `names` and `values` calls) is not modelled. Each call's answer is an input: a listing for the scan, and a reply map for the batches.
- A remote failure during a scan is not modelled. During retrieval, a failed `values` call is a key missing from the reply map.
- TimeUtil.Timestamp: `datetime_for_seconds_and_nanoseconds` rounds the float `seconds + 1e-9 * nanoseconds` to a whole microsecond in `utcfromtimestamp`. The model rounds the exact instant to the nearest microsecond, halves upward; CPython rounds an exact half away from zero, so on an exact half before 1970 the two differ by one microsecond. It does not model the double's own rounding error, which near present-day instants is a fraction of a microsecond and can move a value across a rounding boundary.
- TimeUtil.SecondsAndNanos: the caller's window instants are any integers, while a `datetime` holds only whole microseconds. The model truncates the sub-second part to microseconds, which is exact on every instant a `datetime` can hold (ConversionLossBounded). The local-time shift of `time.mktime` on a UTC tuple is not modelled; seconds are the floor of the instant.
- TimeUtil.Overlap: returns integer nanoseconds, not float seconds. Since partition ends are whole microseconds in both the source and the model, overlaps tie and differ in the same cases, apart from float rounding of the subtraction.
- The interpolation code from `codes.interpolate` is an opaque integer passed through. The `codes` module is not part of this model.
- The `'|'.join(channel_names)` name pattern is matched by the server, so it is not modelled. `ScanArchives` takes the server's answers directly, so its `channel_names` argument is not needed.
- The iteration order of `names_for_key` is Python dict order. The model uses the order in which groups are created. BatchOrderIrrelevant and HonestRepliesDisjoint show that, against a server that answers only for the channels requested, a retrieval that succeeds in one order succeeds with the same list in every order, and one that fails in one order fails in every order. Which error is reported can depend on the order, as in the source.
- Selection.GroupByGivenKeys: `sorted` followed by `itertools.groupby` is modelled as accumulating names per key in input order. Python's sort is stable, so this builds the same lists.
- Selection.SelectKey: requires a non-empty list. The source never passes an empty one: every list in the index is non-empty (`Archiver.Valid`). So the loop in the source never leaves `key_with_greatest_overlap` as `None`.
- A server record that lacks a field (a `KeyError` in the constructor) is not modelled. `RawMeta` carries every field, and the constructor reads only the fields that the `type` tag selects.
- Default arguments are not modelled: `channel_names=None` of `scan_archives` and `count=10000`, `interpolation=RAW`, `scan_archives=True` of `values` are passed explicitly by every caller of the model.
- Archiving.Archiver.ScanArchives: the source empties an existing list in place (`[:] = [...]`), so any other holder of that list object sees the change. The model rebinds the map entry to a new value; aliasing of the lists is not modelled.
- Archiving.Archiver.Values: does not model the scan's own remote failures. `batches` is the full batch plan. Retrieval stops at the first failing batch, as PlaceBatches states.
