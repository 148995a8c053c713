/** Issuing one batched `values` request per archive key and placing the
    returned records into the output list. */
module Retrieval {
  import opened Outcomes
  import opened TimeUtil
  import opened ChannelRecords
  import opened Selection

  /** One batched `values` call: the key, its grouped channels, the window
      as (seconds, nanoseconds) pairs, and the pass-through arguments. */
  datatype BatchRequest = BatchRequest(
    key: int, channels: seq<string>,
    startSec: int, startNano: int, endSec: int, endNano: int,
    count: int, interpolation: int)

  /** The server's answer to the batch for each key; a key without an
      answer is a failed remote call. */
  type Reply = map<int, seq<ArchiveData>>

  type Slots = seq<Option<ChannelData>>

  /** The batches `values` issues for a grouping, in group-creation order. */
  function Batches(g: Grouping, start: int, end: int, count: int, interpolation: int): (bs: seq<BatchRequest>)
    requires forall i :: 0 <= i < |g.order| ==> g.order[i] in g.groups
    ensures |bs| == |g.order|
    ensures forall i :: 0 <= i < |bs| ==> bs[i].key == g.order[i] && bs[i].channels == g.groups[g.order[i]]
  {
    var (startSec, startNano) := SecondsAndNanos(start);
    var (endSec, endNano) := SecondsAndNanos(end);
    seq(|g.order|, i requires 0 <= i < |g.order| =>
      BatchRequest(g.order[i], g.groups[g.order[i]], startSec, startNano, endSec, endNano, count, interpolation))
  }

  /** `list.index`: the first position holding `name`, or `|names|` when there is none. */
  function FirstIndex(names: seq<string>, name: string): (k: nat)
    ensures k <= |names|
    ensures k < |names| <==> name in names
    ensures k < |names| ==> names[k] == name
    ensures forall j :: 0 <= j < k ==> names[j] != name
    decreases |names|
  {
    if names == [] then 0
    else if names[0] == name then 0
    else 1 + FirstIndex(names[1..], name)
  }

  /** `[None] * n`. */
  function EmptySlots(n: nat): (s: Slots)
    ensures |s| == n && forall i :: 0 <= i < n ==> s[i] == None
  {
    seq(n, _ => None)
  }

  /** Writing the records of one batch reply, in order: each goes to the
      first position of its name; a name not asked for raises. */
  function PlaceRecords(names: seq<string>, out: Slots, recs: seq<ArchiveData>): (r: Result<Slots>)
    requires |out| == |names|
    ensures r.Ok? ==> |r.value| == |names|
    decreases |recs|
  {
    if recs == [] then Ok(out)
    else
      var k := FirstIndex(names, recs[0].name);
      if k == |names| then Err(NameNotRequested(recs[0].name))
      else PlaceRecords(names, out[k := Some(Normalize(recs[0]))], recs[1..])
  }

  /** Running the remaining batches after a partial result. */
  function ThenBatches(names: seq<string>, partial: Result<Slots>, rest: seq<BatchRequest>, reply: Reply): Result<Slots>
    requires partial.Ok? ==> |partial.value| == |names|
    decreases |rest|, 1
  {
    match partial
    case Err(e) => Err(e)
    case Ok(out) => PlaceBatches(names, out, rest, reply)
  }

  /** The reassembly loop of `values` over the batches, in order; the first
      failure aborts it. */
  function PlaceBatches(names: seq<string>, out: Slots, batches: seq<BatchRequest>, reply: Reply): (r: Result<Slots>)
    requires |out| == |names|
    ensures r.Ok? ==> |r.value| == |names|
    decreases |batches|, 0
  {
    if batches == [] then Ok(out)
    else if batches[0].key !in reply then Err(RemoteFailure(batches[0].key))
    else ThenBatches(names, PlaceRecords(names, out, reply[batches[0].key]), batches[1..], reply)
  }

  /** The last record in `recs` for `name`. */
  function LastFor(recs: seq<ArchiveData>, name: string): Option<ArchiveData>
    decreases |recs|
  {
    if recs == [] then None
    else
      var later := LastFor(recs[1..], name);
      if later.Some? then later
      else if recs[0].name == name then Some(recs[0]) else None
  }

  function NamesOf(recs: seq<ArchiveData>): set<string>
  {
    set r | r in recs :: r.name
  }

  /** Every record returned names a requested channel. */
  predicate AllRequested(names: seq<string>, recs: seq<ArchiveData>)
  {
    forall j :: 0 <= j < |recs| ==> recs[j].name in names
  }

  /** Every batch got an answer. */
  predicate AllReplied(batches: seq<BatchRequest>, reply: Reply)
  {
    forall i :: 0 <= i < |batches| ==> batches[i].key in reply
  }

  /** All records returned, batch after batch. */
  function Concat(batches: seq<BatchRequest>, reply: Reply): seq<ArchiveData>
    requires AllReplied(batches, reply)
    decreases |batches|
  {
    if batches == [] then [] else reply[batches[0].key] + Concat(batches[1..], reply)
  }

  /** What slot `i` holds after placing `recs` on top of `out`: the last
      record for its name if `i` is that name's first position, else what
      was there. */
  function Slot(names: seq<string>, out: Slots, recs: seq<ArchiveData>, i: int): Option<ChannelData>
    requires |out| == |names| && 0 <= i < |names|
  {
    var last := LastFor(recs, names[i]);
    if FirstIndex(names, names[i]) == i && last.Some? then Some(Normalize(last.value)) else out[i]
  }

  lemma {:induction false} PlaceRecordsCharacterized(names: seq<string>, out: Slots, recs: seq<ArchiveData>)
    requires |out| == |names|
    ensures PlaceRecords(names, out, recs).Ok? <==> AllRequested(names, recs)
    ensures PlaceRecords(names, out, recs).Ok? ==>
      forall i :: 0 <= i < |names| ==> PlaceRecords(names, out, recs).value[i] == Slot(names, out, recs, i)
    decreases |recs|
  {
    if recs != [] {
      var r0, rest := recs[0], recs[1..];
      var k := FirstIndex(names, r0.name);
      if k == |names| {
        assert !AllRequested(names, recs);
      } else {
        var out' := out[k := Some(Normalize(r0))];
        PlaceRecordsCharacterized(names, out', rest);
        assert AllRequested(names, recs) <==> AllRequested(names, rest) by {
          if AllRequested(names, rest) {
            forall j | 0 <= j < |recs| ensures recs[j].name in names {
              if j > 0 { assert recs[j] == rest[j - 1]; }
            }
          }
          if AllRequested(names, recs) {
            forall j | 0 <= j < |rest| ensures rest[j].name in names {
              assert rest[j] == recs[j + 1];
            }
          }
        }
        if AllRequested(names, rest) {
          forall i | 0 <= i < |names|
            ensures PlaceRecords(names, out, recs).value[i] == Slot(names, out, recs, i)
          {
            SlotStep(names, out, recs, i);
          }
        }
      }
    }
  }

  /** One record's effect on one slot. */
  lemma SlotStep(names: seq<string>, out: Slots, recs: seq<ArchiveData>, i: int)
    requires |out| == |names| && 0 <= i < |names| && recs != []
    requires FirstIndex(names, recs[0].name) < |names|
    ensures Slot(names, out[FirstIndex(names, recs[0].name) := Some(Normalize(recs[0]))], recs[1..], i)
         == Slot(names, out, recs, i)
  {
    var k := FirstIndex(names, recs[0].name);
    var n := names[i];
    assert FirstIndex(names, n) <= i;
    if i == k {
      assert n == recs[0].name;
    }
  }

  lemma {:induction false} PlaceRecordsAppend(names: seq<string>, out: Slots, a: seq<ArchiveData>, b: seq<ArchiveData>)
    requires |out| == |names|
    ensures PlaceRecords(names, out, a + b) ==
      match PlaceRecords(names, out, a)
      case Err(e) => Err(e)
      case Ok(o) => PlaceRecords(names, o, b)
    decreases |a|
  {
    if a == [] {
      assert a + b == b;
    } else {
      assert (a + b)[0] == a[0] && (a + b)[1..] == a[1..] + b;
      var k := FirstIndex(names, a[0].name);
      if k < |names| {
        PlaceRecordsAppend(names, out[k := Some(Normalize(a[0]))], a[1..], b);
      }
    }
  }

  /** When every batch is answered, the batches amount to placing all the
      returned records in one pass. */
  lemma {:induction false} PlaceBatchesFlat(names: seq<string>, out: Slots, batches: seq<BatchRequest>, reply: Reply)
    requires |out| == |names| && AllReplied(batches, reply)
    ensures PlaceBatches(names, out, batches, reply) == PlaceRecords(names, out, Concat(batches, reply))
    decreases |batches|
  {
    if batches != [] {
      var rest := batches[1..];
      assert AllReplied(rest, reply) by {
        forall i | 0 <= i < |rest| ensures rest[i].key in reply {
          assert rest[i] == batches[i + 1];
        }
      }
      var first := reply[batches[0].key];
      PlaceRecordsAppend(names, out, first, Concat(rest, reply));
      match PlaceRecords(names, out, first)
      case Err(e) =>
      case Ok(o) => PlaceBatchesFlat(names, o, rest, reply);
    }
  }

  /** A batch without an answer makes the whole call fail. */
  lemma {:induction false} PlaceBatchesUnanswered(names: seq<string>, out: Slots, batches: seq<BatchRequest>, reply: Reply)
    requires |out| == |names| && !AllReplied(batches, reply)
    ensures PlaceBatches(names, out, batches, reply).Err?
    decreases |batches|
  {
    if batches[0].key in reply {
      var rest := batches[1..];
      assert !AllReplied(rest, reply) by {
        var i :| 0 <= i < |batches| && batches[i].key !in reply;
        assert rest[i - 1] == batches[i];
      }
      match PlaceRecords(names, out, reply[batches[0].key])
      case Err(e) =>
      case Ok(o) => PlaceBatchesUnanswered(names, o, rest, reply);
    }
  }

  /** What `values` returns, from an all-None list: it succeeds exactly when
      every batch is answered and every returned record names a requested
      channel; the result has one slot per requested name; slot `i` holds the
      last record returned for its name when `i` is that name's first
      position, and None otherwise (later duplicates, and names no record was
      returned for). */
  lemma RetrievalCharacterized(names: seq<string>, batches: seq<BatchRequest>, reply: Reply)
    ensures var r := PlaceBatches(names, EmptySlots(|names|), batches, reply);
      && (r.Ok? <==> AllReplied(batches, reply) && AllRequested(names, Concat(batches, reply)))
      && (r.Ok? ==>
            && |r.value| == |names|
            && forall i :: 0 <= i < |names| ==>
                 r.value[i] == if FirstIndex(names, names[i]) == i && LastFor(Concat(batches, reply), names[i]).Some?
                               then Some(Normalize(LastFor(Concat(batches, reply), names[i]).value))
                               else None)
  {
    var out := EmptySlots(|names|);
    if AllReplied(batches, reply) {
      PlaceBatchesFlat(names, out, batches, reply);
      PlaceRecordsCharacterized(names, out, Concat(batches, reply));
    } else {
      PlaceBatchesUnanswered(names, out, batches, reply);
    }
  }

  lemma {:induction false} LastForAppend(a: seq<ArchiveData>, b: seq<ArchiveData>, name: string)
    ensures LastFor(a + b, name) == if LastFor(b, name).Some? then LastFor(b, name) else LastFor(a, name)
    decreases |a|
  {
    if a == [] {
      assert a + b == b;
    } else {
      assert (a + b)[0] == a[0] && (a + b)[1..] == a[1..] + b;
      LastForAppend(a[1..], b, name);
    }
  }

  lemma {:induction false} LastForAbsent(recs: seq<ArchiveData>, name: string)
    requires name !in NamesOf(recs)
    ensures LastFor(recs, name) == None
    decreases |recs|
  {
    if recs != [] {
      assert recs[0] in recs;
      assert NamesOf(recs[1..]) <= NamesOf(recs) by {
        forall n | n in NamesOf(recs[1..]) ensures n in NamesOf(recs) {
          var r :| r in recs[1..] && r.name == n;
          assert r in recs;
        }
      }
      LastForAbsent(recs[1..], name);
    }
  }

  function KeySet(batches: seq<BatchRequest>): set<int>
  {
    set b | b in batches :: b.key
  }

  /** At most one answered batch returns records for any one name. */
  predicate DisjointReplies(keys: set<int>, reply: Reply)
  {
    forall k1, k2 :: k1 in keys && k2 in keys && k1 in reply && k2 in reply && k1 != k2 ==>
      NamesOf(reply[k1]) !! NamesOf(reply[k2])
  }

  /** If only the batch for `k` can return `name`, the last record for
      `name` overall is the last one in that batch. */
  lemma {:induction false} LastForConcat(batches: seq<BatchRequest>, reply: Reply, name: string, k: int)
    requires AllReplied(batches, reply)
    requires forall b :: b in batches && b.key != k ==> name !in NamesOf(reply[b.key])
    ensures LastFor(Concat(batches, reply), name) == if k in KeySet(batches) then LastFor(reply[k], name) else None
    decreases |batches|
  {
    if batches != [] {
      var b0, rest := batches[0], batches[1..];
      assert AllReplied(rest, reply) by {
        forall i | 0 <= i < |rest| ensures rest[i].key in reply {
          assert rest[i] == batches[i + 1];
        }
      }
      assert forall b :: b in rest ==> b in batches;
      LastForConcat(rest, reply, name, k);
      LastForAppend(reply[b0.key], Concat(rest, reply), name);
      assert KeySet(batches) == {b0.key} + KeySet(rest) by {
        assert batches == [b0] + rest;
      }
      if b0.key != k {
        LastForAbsent(reply[b0.key], name);
      }
    }
  }

  lemma AllRequestedConcat(names: seq<string>, batches: seq<BatchRequest>, reply: Reply)
    requires AllReplied(batches, reply)
    ensures AllRequested(names, Concat(batches, reply)) <==>
      forall b :: b in batches ==> NamesOf(reply[b.key]) <= set n | n in names
    decreases |batches|
  {
    if batches != [] {
      var b0, rest := batches[0], batches[1..];
      assert AllReplied(rest, reply) by {
        forall i | 0 <= i < |rest| ensures rest[i].key in reply {
          assert rest[i] == batches[i + 1];
        }
      }
      AllRequestedConcat(names, rest, reply);
      var first, tail := reply[b0.key], Concat(rest, reply);
      assert Concat(batches, reply) == first + tail;
      assert AllRequested(names, first + tail) <==> AllRequested(names, first) && AllRequested(names, tail) by {
        forall j | 0 <= j < |first| ensures (first + tail)[j] == first[j] {}
        forall j | 0 <= j < |tail| ensures (first + tail)[|first| + j] == tail[j] {}
      }
      assert AllRequested(names, first) <==> NamesOf(first) <= set n | n in names by {
        if AllRequested(names, first) {
          forall n | n in NamesOf(first) ensures n in names {
            var r :| r in first && r.name == n;
            var j :| 0 <= j < |first| && first[j] == r;
          }
        }
        if NamesOf(first) <= set n | n in names {
          forall j | 0 <= j < |first| ensures first[j].name in names {
            assert first[j] in first;
            assert first[j].name in NamesOf(first);
          }
        }
      }
      assert forall b :: b in batches <==> b == b0 || b in rest;
    }
  }

  /** The order in which the batches are issued does not matter, as long as
      the same keys are asked for and no name comes back from two of them:
      both orders succeed or both fail, and on success they agree. */
  lemma BatchOrderIrrelevant(names: seq<string>, batches1: seq<BatchRequest>, batches2: seq<BatchRequest>, reply: Reply)
    requires KeySet(batches1) == KeySet(batches2)
    requires DisjointReplies(KeySet(batches1), reply)
    ensures var r1 := PlaceBatches(names, EmptySlots(|names|), batches1, reply);
      var r2 := PlaceBatches(names, EmptySlots(|names|), batches2, reply);
      (r1.Ok? <==> r2.Ok?) && (r1.Ok? ==> r1 == r2)
  {
    RetrievalCharacterized(names, batches1, reply);
    RetrievalCharacterized(names, batches2, reply);
    AllRepliedByKeys(batches1, reply);
    AllRepliedByKeys(batches2, reply);
    if AllReplied(batches1, reply) {
      SameRequestedAcrossOrders(names, batches1, batches2, reply);
      forall i | 0 <= i < |names|
        ensures LastFor(Concat(batches1, reply), names[i]) == LastFor(Concat(batches2, reply), names[i])
      {
        SameLastAcrossOrders(batches1, batches2, reply, names[i]);
      }
      var r1 := PlaceBatches(names, EmptySlots(|names|), batches1, reply);
      var r2 := PlaceBatches(names, EmptySlots(|names|), batches2, reply);
      if r1.Ok? {
        assert r1.value == r2.value;
      }
    }
  }

  lemma SameRequestedAcrossOrders(names: seq<string>, batches1: seq<BatchRequest>, batches2: seq<BatchRequest>, reply: Reply)
    requires KeySet(batches1) == KeySet(batches2)
    requires AllReplied(batches1, reply) && AllReplied(batches2, reply)
    ensures AllRequested(names, Concat(batches1, reply)) <==> AllRequested(names, Concat(batches2, reply))
  {
    AllRequestedConcat(names, batches1, reply);
    AllRequestedConcat(names, batches2, reply);
    forall b | b in batches1 ensures exists b' :: b' in batches2 && b'.key == b.key {
      assert b.key in KeySet(batches2);
    }
    forall b | b in batches2 ensures exists b' :: b' in batches1 && b'.key == b.key {
      assert b.key in KeySet(batches1);
    }
  }

  lemma SameLastAcrossOrders(batches1: seq<BatchRequest>, batches2: seq<BatchRequest>, reply: Reply, name: string)
    requires KeySet(batches1) == KeySet(batches2)
    requires DisjointReplies(KeySet(batches1), reply)
    requires AllReplied(batches1, reply) && AllReplied(batches2, reply)
    ensures LastFor(Concat(batches1, reply), name) == LastFor(Concat(batches2, reply), name)
  {
    var k: int;
    if b :| b in batches1 && name in NamesOf(reply[b.key]) {
      k := b.key;
      assert k in KeySet(batches1);
      forall b' | b' in batches1 + batches2 && b'.key != k
        ensures name !in NamesOf(reply[b'.key])
      {
        assert b'.key in KeySet(batches1);
      }
    } else {
      k := if batches1 == [] then 0 else batches1[0].key;
      forall b' | b' in batches2 && b'.key != k
        ensures name !in NamesOf(reply[b'.key])
      {
        assert b'.key in KeySet(batches1);
      }
    }
    assert forall b' :: b' in batches1 ==> b' in batches1 + batches2;
    assert forall b' :: b' in batches2 ==> b' in batches1 + batches2;
    LastForConcat(batches1, reply, name, k);
    LastForConcat(batches2, reply, name, k);
  }

  /** A server that answers each batch only with channels of that batch
      cannot return one name from two batches: every name has one key. */
  lemma HonestRepliesDisjoint(names: seq<string>, keys: seq<int>, start: int, end: int, count: int,
                              interpolation: int, reply: Reply)
    requires |names| == |keys| && KeyFunctional(names, keys)
    requires var bs := Batches(GroupingOf(names, keys), start, end, count, interpolation);
      forall i :: 0 <= i < |bs| && bs[i].key in reply ==> NamesOf(reply[bs[i].key]) <= set n | n in bs[i].channels
    ensures DisjointReplies(KeySet(Batches(GroupingOf(names, keys), start, end, count, interpolation)), reply)
  {
    var g := GroupingOf(names, keys);
    var bs := Batches(g, start, end, count, interpolation);
    forall k1, k2 | k1 in KeySet(bs) && k2 in KeySet(bs) && k1 in reply && k2 in reply && k1 != k2
      ensures NamesOf(reply[k1]) !! NamesOf(reply[k2])
    {
      var b1 :| b1 in bs && b1.key == k1;
      var b2 :| b2 in bs && b2.key == k2;
      var i1 :| 0 <= i1 < |bs| && bs[i1] == b1;
      var i2 :| 0 <= i2 < |bs| && bs[i2] == b2;
      if n :| n in NamesOf(reply[k1]) && n in NamesOf(reply[k2]) {
        assert n in b1.channels && n in b2.channels;
        GroupByMembership(names, keys, k1, n);
        GroupByMembership(names, keys, k2, n);
        assert false;
      }
    }
  }

  lemma AllRepliedByKeys(batches: seq<BatchRequest>, reply: Reply)
    ensures AllReplied(batches, reply) <==> KeySet(batches) <= reply.Keys
  {
    if KeySet(batches) <= reply.Keys {
      forall i | 0 <= i < |batches| ensures batches[i].key in reply {
        assert batches[i] in batches;
      }
    }
  }

  /** The reassembly loop of `values`: one array slot per requested name,
      filled batch by batch and record by record. */
  method Reassemble(names: seq<string>, batches: seq<BatchRequest>, reply: Reply) returns (r: Result<Slots>)
    ensures r == PlaceBatches(names, EmptySlots(|names|), batches, reply)
  {
    var returnData := new Option<ChannelData>[|names|](_ => None);
    ghost var target := PlaceBatches(names, EmptySlots(|names|), batches, reply);
    assert returnData[..] == EmptySlots(|names|);
    var i := 0;
    while i < |batches|
      invariant 0 <= i <= |batches|
      invariant returnData.Length == |names|
      invariant PlaceBatches(names, returnData[..], batches[i..], reply) == target
    {
      var batch := batches[i];
      assert batches[i..][0] == batch && batches[i..][1..] == batches[i + 1..];
      if batch.key !in reply {
        return Err(RemoteFailure(batch.key));
      }
      var data := reply[batch.key];
      var j := 0;
      while j < |data|
        invariant 0 <= j <= |data|
        invariant ThenBatches(names, PlaceRecords(names, returnData[..], data[j..]), batches[i + 1..], reply) == target
      {
        assert data[j..][0] == data[j] && data[j..][1..] == data[j + 1..];
        var channelData := NewChannelData(data[j]);
        var k := FirstIndex(names, channelData.name);
        if k == |names| {
          return Err(NameNotRequested(channelData.name));
        }
        returnData[k] := Some(channelData);
        j := j + 1;
      }
      i := i + 1;
    }
    return Ok(returnData[..]);
  }
}
