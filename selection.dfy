/** Choosing an archive key per channel and grouping channels by key. */
module Selection {
  import opened Outcomes
  import opened TimeUtil
  import opened ArchiveIndex

  /** The overlap of the query window with one partition's coverage. */
  function OverlapWith(p: ArchiveProperties, start: int, end: int): int
  {
    Overlap(start, end, p.startTime, p.endTime)
  }

  /** `k` is the first position of a maximal overlap: nothing overlaps more,
      and everything before `k` overlaps strictly less. */
  ghost predicate IsFirstArgmax(entries: seq<ArchiveProperties>, start: int, end: int, k: int)
  {
    && 0 <= k < |entries|
    && (forall j :: 0 <= j < |entries| ==> OverlapWith(entries[j], start, end) <= OverlapWith(entries[k], start, end))
    && (forall j :: 0 <= j < k ==> OverlapWith(entries[j], start, end) < OverlapWith(entries[k], start, end))
  }

  /** The position the selection loop ends on. */
  function BestIndex(entries: seq<ArchiveProperties>, start: int, end: int): (k: nat)
    requires |entries| > 0
    ensures k < |entries|
    decreases |entries|
  {
    if |entries| == 1 then 0
    else
      var k := BestIndex(entries[..|entries| - 1], start, end);
      if OverlapWith(entries[|entries| - 1], start, end) > OverlapWith(entries[k], start, end)
      then |entries| - 1 else k
  }

  /** The selected position is the first one of maximal overlap. */
  lemma {:induction false} BestIndexIsFirstArgmax(entries: seq<ArchiveProperties>, start: int, end: int)
    requires |entries| > 0
    ensures IsFirstArgmax(entries, start, end, BestIndex(entries, start, end))
    decreases |entries|
  {
    if |entries| > 1 {
      var init := entries[..|entries| - 1];
      BestIndexIsFirstArgmax(init, start, end);
      assert forall j :: 0 <= j < |init| ==> init[j] == entries[j];
    }
  }

  /** The first-argmax condition pins down a single position. */
  lemma FirstArgmaxUnique(entries: seq<ArchiveProperties>, start: int, end: int, k1: int, k2: int)
    requires IsFirstArgmax(entries, start, end, k1) && IsFirstArgmax(entries, start, end, k2)
    ensures k1 == k2
  {
    var o1, o2 := OverlapWith(entries[k1], start, end), OverlapWith(entries[k2], start, end);
    assert o1 <= o2 && o2 <= o1;
  }

  /** When every partition overlaps the window equally (in particular, not
      at all), the first one is chosen. */
  lemma FirstChosenOnTies(entries: seq<ArchiveProperties>, start: int, end: int)
    requires |entries| > 0
    requires forall j :: 0 <= j < |entries| ==> OverlapWith(entries[j], start, end) == OverlapWith(entries[0], start, end)
    ensures BestIndex(entries, start, end) == 0
  {
    BestIndexIsFirstArgmax(entries, start, end);
  }

  /** A partition with the same coverage as an earlier one is never chosen:
      their overlaps tie, and only a strictly greater overlap replaces the
      best so far. */
  lemma SameCoverageKeepsEarlier(entries: seq<ArchiveProperties>, start: int, end: int, i: int, j: int)
    requires 0 <= i < j < |entries|
    requires entries[i].startTime == entries[j].startTime && entries[i].endTime == entries[j].endTime
    ensures BestIndex(entries, start, end) != j
  {
    BestIndexIsFirstArgmax(entries, start, end);
    assert OverlapWith(entries[i], start, end) == OverlapWith(entries[j], start, end);
  }

  /** (5 s, 100 ns) and (5 s, 400 ns) both round to 5.000000 s, so two
      partitions ending there tie and the first one is kept. */
  lemma SubMicrosecondDifferenceTies()
    ensures var window := (0, 10 * NANOS_PER_SECOND);
      var entries := [PropertiesOf(1, NameInfo("ch", 0, 0, 5, 100)),
                      PropertiesOf(2, NameInfo("ch", 0, 0, 5, 400))];
      && OverlapWith(entries[0], window.0, window.1) == OverlapWith(entries[1], window.0, window.1)
      && BestIndex(entries, window.0, window.1) == 0
  {
    assert Timestamp(5, 100) == 5 * NANOS_PER_SECOND;
    assert Timestamp(5, 400) == 5 * NANOS_PER_SECOND;
  }

  /** Python 2 orders None below every number, so the first overlap always
      beats the initial `None`; afterwards only a strictly greater one does. */
  predicate Exceeds(overlap: int, greatest: Option<int>)
  {
    greatest.None? || overlap > greatest.value
  }

  /** The inner selection loop of `values`: the key whose partition overlaps
      the query window most, the first such one on ties. */
  method SelectKey(entries: seq<ArchiveProperties>, start: int, end: int) returns (key: int)
    requires |entries| > 0
    ensures key == entries[BestIndex(entries, start, end)].key
  {
    var greatest: Option<int> := None;
    ghost var best := 0;
    key := entries[0].key;
    var i := 0;
    while i < |entries|
      invariant 0 <= i <= |entries|
      invariant i == 0 ==> greatest.None?
      invariant i > 0 ==>
        && best == BestIndex(entries[..i], start, end)
        && greatest == Some(OverlapWith(entries[best], start, end))
        && key == entries[best].key
    {
      assert entries[..i + 1][..i] == entries[..i];
      var overlap := OverlapWith(entries[i], start, end);
      if Exceeds(overlap, greatest) {
        key := entries[i].key;
        greatest := Some(overlap);
        best := i;
      }
      i := i + 1;
    }
    assert entries[..|entries|] == entries;
  }

  /** The key automatic selection gives a channel. */
  function SelectedKey(index: Index, name: string, start: int, end: int): int
    requires IndexValid(index) && name in index
  {
    index[name][BestIndex(index[name], start, end)].key
  }

  /** The position of the first channel missing from the index, or the
      number of channels when none is missing. */
  function FirstMissing(index: Index, names: seq<string>): (k: nat)
    ensures k <= |names|
    ensures forall j :: 0 <= j < k ==> names[j] in index
    ensures k < |names| ==> names[k] !in index
    decreases |names|
  {
    if names == [] then 0
    else if names[0] !in index then 0
    else 1 + FirstMissing(index, names[1..])
  }

  /** The keys automatic selection gives, position by position. */
  function SelectedKeys(index: Index, names: seq<string>, start: int, end: int): (keys: seq<int>)
    requires IndexValid(index) && FirstMissing(index, names) == |names|
    ensures |keys| == |names|
  {
    seq(|names|, i requires 0 <= i < |names| => SelectedKey(index, names[i], start, end))
  }

  /** `dict(zip(names, keys))`: later pairings overwrite earlier ones. */
  function ZipDict(names: seq<string>, keys: seq<int>): (dict: map<string, int>)
    requires |names| == |keys|
    ensures forall n :: n in dict <==> n in names
    decreases |names|
  {
    if names == [] then map[]
    else
      var init := names[..|names| - 1];
      assert names == init + [names[|names| - 1]];
      ZipDict(init, keys[..|keys| - 1])[names[|names| - 1] := keys[|keys| - 1]]
  }

  /** Every name is paired, and with the key of its last occurrence. */
  lemma {:induction false} ZipDictLastPairingWins(names: seq<string>, keys: seq<int>, i: int)
    requires |names| == |keys| && 0 <= i < |names|
    requires forall j :: i < j < |names| ==> names[j] != names[i]
    ensures names[i] in ZipDict(names, keys) && ZipDict(names, keys)[names[i]] == keys[i]
    decreases |names|
  {
    if i < |names| - 1 {
      ZipDictLastPairingWins(names[..|names| - 1], keys[..|keys| - 1], i);
    }
  }

  /** The keys the explicit path gives, position by position. */
  function ZippedKeys(names: seq<string>, keys: seq<int>): (r: seq<int>)
    requires |names| == |keys|
    ensures |r| == |names|
  {
    var dict := ZipDict(names, keys);
    seq(|names|, i requires 0 <= i < |names| => dict[names[i]])
  }

  /** Repeated names get one key: in both paths the key is a function of the name. */
  predicate KeyFunctional(names: seq<string>, keys: seq<int>)
    requires |names| == |keys|
  {
    forall i, j :: 0 <= i < |names| && 0 <= j < |names| && names[i] == names[j] ==> keys[i] == keys[j]
  }

  /** `names_for_key`: for each key, the names whose position carries that
      key, in input order and with repetitions. */
  function GroupBy(names: seq<string>, keys: seq<int>): (groups: map<int, seq<string>>)
    requires |names| == |keys|
    ensures forall k :: k in groups ==> |groups[k]| > 0
    ensures forall k, n :: k in groups && n in groups[k] ==> n in names
    decreases |names|
  {
    if names == [] then map[]
    else
      assert names == names[..|names| - 1] + [names[|names| - 1]];
      var g := GroupBy(names[..|names| - 1], keys[..|keys| - 1]);
      var k := keys[|keys| - 1];
      g[k := (if k in g then g[k] else []) + [names[|names| - 1]]]
  }

  /** The distinct keys in first-appearance order: the order in which groups
      are created. */
  function Distinct(keys: seq<int>): (r: seq<int>)
    ensures forall k :: k in r <==> k in keys
    ensures forall i, j :: 0 <= i < j < |r| ==> r[i] != r[j]
    decreases |keys|
  {
    if keys == [] then []
    else
      var d := Distinct(keys[..|keys| - 1]);
      var k := keys[|keys| - 1];
      assert forall x :: x in keys <==> x in keys[..|keys| - 1] || x == k;
      if k in d then d else d + [k]
  }

  lemma {:induction false} GroupByKeys(names: seq<string>, keys: seq<int>)
    requires |names| == |keys|
    ensures forall k :: k in GroupBy(names, keys) <==> k in keys
    decreases |names|
  {
    if names != [] {
      GroupByKeys(names[..|names| - 1], keys[..|keys| - 1]);
      assert keys == keys[..|keys| - 1] + [keys[|keys| - 1]];
    }
  }

  /** A name is in a key's group exactly when some position pairs that name
      with that key. */
  lemma {:induction false} GroupByMembership(names: seq<string>, keys: seq<int>, k: int, name: string)
    requires |names| == |keys|
    ensures (k in GroupBy(names, keys) && name in GroupBy(names, keys)[k])
        <==> exists i :: 0 <= i < |names| && names[i] == name && keys[i] == k
    decreases |names|
  {
    if names != [] {
      var n := |names| - 1;
      GroupByMembership(names[..n], keys[..n], k, name);
      if exists i :: 0 <= i < |names| && names[i] == name && keys[i] == k {
        var i :| 0 <= i < |names| && names[i] == name && keys[i] == k;
        if i < n {
          assert names[..n][i] == name && keys[..n][i] == k;
        }
      }
    }
  }

  /** With a key per name, every input name is in the group of exactly one
      key: the one its positions carry. */
  lemma GroupOfNameUnique(names: seq<string>, keys: seq<int>, i: int, k: int)
    requires |names| == |keys| && KeyFunctional(names, keys) && 0 <= i < |names|
    ensures k in GroupBy(names, keys) && names[i] in GroupBy(names, keys)[k] <==> k == keys[i]
  {
    GroupByMembership(names, keys, k, names[i]);
  }

  /** The automatic path gives each name one key. */
  lemma SelectedKeysFunctional(index: Index, names: seq<string>, start: int, end: int)
    requires IndexValid(index) && FirstMissing(index, names) == |names|
    ensures KeyFunctional(names, SelectedKeys(index, names, start, end))
  {
  }

  /** The explicit path gives each name one key, that of its last pairing. */
  lemma ZippedKeysFunctional(names: seq<string>, keys: seq<int>)
    requires |names| == |keys|
    ensures KeyFunctional(names, ZippedKeys(names, keys))
    ensures forall i, j ::
      (0 <= i < |names| && 0 <= j < |names| && names[j] == names[i]
       && (forall m :: i < m < |names| ==> names[m] != names[i]))
      ==> ZippedKeys(names, keys)[j] == keys[i]
  {
    forall i, j | 0 <= i < |names| && 0 <= j < |names| && names[j] == names[i]
      && (forall m :: i < m < |names| ==> names[m] != names[i])
      ensures ZippedKeys(names, keys)[j] == keys[i]
    {
      ZipDictLastPairingWins(names, keys, i);
    }
  }

  /** The groups and the order in which they were created. */
  datatype Grouping = Grouping(groups: map<int, seq<string>>, order: seq<int>)

  /** The grouping `values` builds from positional keys: a group for every
      key that occurs, created in first-appearance order. */
  function GroupingOf(names: seq<string>, keys: seq<int>): (g: Grouping)
    requires |names| == |keys|
    ensures forall k :: k in g.groups <==> k in g.order
    ensures forall i :: 0 <= i < |g.order| ==> g.order[i] in g.groups
  {
    GroupByKeys(names, keys);
    Grouping(GroupBy(names, keys), Distinct(keys))
  }

  /** One step of building `names_for_key`: append the name to its key's
      group, creating the group (and noting its key) when it is new. */
  method AppendToGroup(g: Grouping, ghost names: seq<string>, ghost keys: seq<int>, name: string, key: int)
    returns (g': Grouping)
    requires |names| == |keys| && g == GroupingOf(names, keys)
    ensures g' == GroupingOf(names + [name], keys + [key])
  {
    var names', keys' := names + [name], keys + [key];
    assert names'[..|names|] == names && keys'[..|keys|] == keys;
    GroupByKeys(names, keys);
    var group := if key in g.groups then g.groups[key] else [];
    var order := if key in g.groups then g.order else g.order + [key];
    g' := Grouping(g.groups[key := group + [name]], order);
  }

  /** The automatic branch of `values`: fails on the first channel missing
      from the index, otherwise groups every channel under its selected key. */
  method GroupBySelection(index: Index, names: seq<string>, start: int, end: int) returns (r: Result<Grouping>)
    requires IndexValid(index)
    ensures FirstMissing(index, names) < |names| ==> r == Err(NotFound(names[FirstMissing(index, names)]))
    ensures FirstMissing(index, names) == |names| ==> r == Ok(GroupingOf(names, SelectedKeys(index, names, start, end)))
  {
    var g := Grouping(map[], []);
    ghost var keys: seq<int> := [];
    var i := 0;
    while i < |names|
      invariant 0 <= i <= |names|
      invariant forall j :: 0 <= j < i ==> names[j] in index
      invariant |keys| == i
      invariant forall j :: 0 <= j < i ==> keys[j] == SelectedKey(index, names[j], start, end)
      invariant g == GroupingOf(names[..i], keys)
    {
      var name := names[i];
      if name !in index {
        assert FirstMissing(index, names) == i by {
          FirstMissingAt(index, names, i);
        }
        return Err(NotFound(name));
      }
      var key := SelectKey(index[name], start, end);
      g := AppendToGroup(g, names[..i], keys, name, key);
      SelectionStep(index, names, start, end, i, keys, key);
      keys := keys + [key];
      i := i + 1;
    }
    assert names[..|names|] == names;
    SelectedKeysAre(index, names, start, end, keys);
    return Ok(g);
  }

  /** Keys chosen one by one, for channels that are all indexed, are the
      automatic selection's keys. */
  lemma SelectedKeysAre(index: Index, names: seq<string>, start: int, end: int, keys: seq<int>)
    requires IndexValid(index)
    requires forall j :: 0 <= j < |names| ==> names[j] in index
    requires |keys| == |names|
    requires forall j :: 0 <= j < |names| ==> keys[j] == SelectedKey(index, names[j], start, end)
    ensures FirstMissing(index, names) == |names|
    ensures keys == SelectedKeys(index, names, start, end)
  {
    FirstMissingAt(index, names, |names|);
  }

  /** One iteration of the automatic branch keeps its loop invariants. */
  lemma SelectionStep(index: Index, names: seq<string>, start: int, end: int, i: int, keys: seq<int>, key: int)
    requires IndexValid(index) && 0 <= i < |names| && names[i] in index
    requires forall j :: 0 <= j < i ==> names[j] in index
    requires |keys| == i && forall j :: 0 <= j < i ==> keys[j] == SelectedKey(index, names[j], start, end)
    requires key == SelectedKey(index, names[i], start, end)
    ensures names[..i] + [names[i]] == names[..i + 1]
    ensures forall j :: 0 <= j < i + 1 ==> names[j] in index
    ensures forall j :: 0 <= j < i + 1 ==> (keys + [key])[j] == SelectedKey(index, names[j], start, end)
  {
  }

  /** FirstMissing is the first position whose name is absent. */
  lemma FirstMissingAt(index: Index, names: seq<string>, i: int)
    requires 0 <= i <= |names|
    requires forall j :: 0 <= j < i ==> names[j] in index
    requires i < |names| ==> names[i] !in index
    ensures FirstMissing(index, names) == i
  {
  }

  /** `dict(zip(names, keys))`, built pair by pair. */
  method ZipToDict(names: seq<string>, keys: seq<int>) returns (keyForName: map<string, int>)
    requires |names| == |keys|
    ensures keyForName == ZipDict(names, keys)
  {
    keyForName := map[];
    var i := 0;
    while i < |names|
      invariant 0 <= i <= |names|
      invariant keyForName == ZipDict(names[..i], keys[..i])
    {
      assert names[..i + 1][..i] == names[..i] && keys[..i + 1][..i] == keys[..i];
      keyForName := keyForName[names[i] := keys[i]];
      i := i + 1;
    }
    assert names[..|names|] == names && keys[..|keys|] == keys;
  }

  lemma PrefixesGrow(names: seq<string>, keys: seq<int>, i: int)
    requires 0 <= i < |names| == |keys|
    ensures names[..i] + [names[i]] == names[..i + 1]
    ensures keys[..i] + [keys[i]] == keys[..i + 1]
  {
  }

  /** The explicit branch of `values`: the key list must pair up with the
      names; each name then goes to the group of its last-paired key. */
  method GroupByGivenKeys(names: seq<string>, keys: seq<int>) returns (r: Result<Grouping>)
    ensures |names| != |keys| ==> r == Err(KeyCountMismatch(|keys|, |names|))
    ensures |names| == |keys| ==> r == Ok(GroupingOf(names, ZippedKeys(names, keys)))
  {
    if |names| != |keys| {
      return Err(KeyCountMismatch(|keys|, |names|));
    }
    var keyForName := ZipToDict(names, keys);
    ghost var zipped := ZippedKeys(names, keys);
    var g := Grouping(map[], []);
    var i := 0;
    while i < |names|
      invariant 0 <= i <= |names|
      invariant g == GroupingOf(names[..i], zipped[..i])
    {
      var key := keyForName[names[i]];
      assert key == zipped[i];
      g := AppendToGroup(g, names[..i], zipped[..i], names[i], key);
      PrefixesGrow(names, zipped, i);
      i := i + 1;
    }
    assert names[..|names|] == names && zipped[..|zipped|] == zipped;
    return Ok(g);
  }
}
