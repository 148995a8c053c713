/** Normalisation of one `archive_data` record returned by the archiver's
    `values` call into a channel-data value. */
module ChannelRecords {
  import opened Outcomes
  import opened TimeUtil

  /** One element of a sample's value array, carried through untouched. */
  datatype Scalar = Text(text: string) | Integer(integer: int) | Double(double: real)

  /** One sample as the server sends it. */
  datatype Sample = Sample(stat: int, sevr: int, secs: int, nano: int, value: seq<Scalar>)

  /** The `meta` record as the server sends it. `kind` is its `type` field;
      the server fills `states` when it is 0, and the limits, precision and
      units otherwise. */
  datatype RawMeta = RawMeta(
    kind: int,
    states: seq<string>,
    dispLow: real, dispHigh: real,
    alarmLow: real, alarmHigh: real,
    warnLow: real, warnHigh: real,
    prec: int,
    units: string)

  /** One `archive_data` record. */
  datatype ArchiveData = ArchiveData(
    name: string, dataType: int, count: int, meta: RawMeta, values: seq<Sample>)

  datatype ChannelLimits = ChannelLimits(low: real, high: real)

  /** The two shapes of channel metadata. */
  datatype Meta =
    | Discrete(states: seq<string>)
    | Numeric(displayLimits: ChannelLimits, alarmLimits: ChannelLimits,
              warnLimits: ChannelLimits, precision: int, units: string)

  /** A normalised record: metadata plus four index-aligned sample columns. */
  datatype ChannelData = ChannelData(
    name: string,
    dataType: int,
    meta: Meta,
    elementsPerSample: int,
    status: seq<int>,
    severity: seq<int>,
    time: seq<int>,
    values: seq<seq<Scalar>>)
  {
    /** The `states` attribute: set for discrete channels, None otherwise. */
    function States(): Option<seq<string>>
    {
      if meta.Discrete? then Some(meta.states) else None
    }
    function DisplayLimits(): Option<ChannelLimits>
    {
      if meta.Numeric? then Some(meta.displayLimits) else None
    }
    function AlarmLimits(): Option<ChannelLimits>
    {
      if meta.Numeric? then Some(meta.alarmLimits) else None
    }
    function WarnLimits(): Option<ChannelLimits>
    {
      if meta.Numeric? then Some(meta.warnLimits) else None
    }
    function Precision(): Option<int>
    {
      if meta.Numeric? then Some(meta.precision) else None
    }
    function Units(): Option<string>
    {
      if meta.Numeric? then Some(meta.units) else None
    }

    /** The four sample columns have one entry per sample. */
    predicate Aligned()
    {
      |status| == |severity| == |time| == |values|
    }
  }

  /** The metadata a raw `meta` record selects by its `type` field. */
  function MetaOf(m: RawMeta): (meta: Meta)
    ensures meta.Discrete? <==> m.kind == 0
    ensures meta.Discrete? ==> meta.states == m.states
    ensures meta.Numeric? ==>
      && meta.displayLimits == ChannelLimits(m.dispLow, m.dispHigh)
      && meta.alarmLimits == ChannelLimits(m.alarmLow, m.alarmHigh)
      && meta.warnLimits == ChannelLimits(m.warnLow, m.warnHigh)
      && meta.precision == m.prec && meta.units == m.units
  {
    if m.kind == 0 then Discrete(m.states)
    else Numeric(ChannelLimits(m.dispLow, m.dispHigh),
                 ChannelLimits(m.alarmLow, m.alarmHigh),
                 ChannelLimits(m.warnLow, m.warnHigh),
                 m.prec, m.units)
  }

  /** The channel-data value built from a raw record (the specification of
      NewChannelData). */
  function Normalize(raw: ArchiveData): (cd: ChannelData)
    ensures cd.Aligned() && |cd.time| == |raw.values|
    ensures forall i :: 0 <= i < |cd.time| ==> cd.time[i] % NANOS_PER_MICROSECOND == 0
  {
    var samples := raw.values;
    ChannelData(
      raw.name, raw.dataType, MetaOf(raw.meta), raw.count,
      seq(|samples|, i requires 0 <= i < |samples| => samples[i].stat),
      seq(|samples|, i requires 0 <= i < |samples| => samples[i].sevr),
      seq(|samples|, i requires 0 <= i < |samples| => Timestamp(samples[i].secs, samples[i].nano)),
      seq(|samples|, i requires 0 <= i < |samples| => samples[i].value))
  }

  /** The record's constructor: copies the header fields, picks the metadata
      shape, and fills the four columns in one pass over the samples. */
  method NewChannelData(raw: ArchiveData) returns (cd: ChannelData)
    ensures cd == Normalize(raw)
    ensures cd.name == raw.name && cd.dataType == raw.dataType
    ensures cd.elementsPerSample == raw.count
    ensures raw.meta.kind == 0 ==>
      && cd.States() == Some(raw.meta.states)
      && cd.DisplayLimits() == None && cd.AlarmLimits() == None && cd.WarnLimits() == None
      && cd.Precision() == None && cd.Units() == None
    ensures raw.meta.kind != 0 ==>
      && cd.States() == None
      && cd.DisplayLimits() == Some(ChannelLimits(raw.meta.dispLow, raw.meta.dispHigh))
      && cd.AlarmLimits() == Some(ChannelLimits(raw.meta.alarmLow, raw.meta.alarmHigh))
      && cd.WarnLimits() == Some(ChannelLimits(raw.meta.warnLow, raw.meta.warnHigh))
      && cd.Precision() == Some(raw.meta.prec) && cd.Units() == Some(raw.meta.units)
    ensures cd.Aligned() && |cd.status| == |raw.values|
    ensures forall i :: 0 <= i < |raw.values| ==>
      && cd.status[i] == raw.values[i].stat
      && cd.severity[i] == raw.values[i].sevr
      && cd.time[i] == Timestamp(raw.values[i].secs, raw.values[i].nano)
      && cd.values[i] == raw.values[i].value
  {
    var meta: Meta;
    if raw.meta.kind == 0 {
      meta := Discrete(raw.meta.states);
    } else {
      meta := Numeric(ChannelLimits(raw.meta.dispLow, raw.meta.dispHigh),
                      ChannelLimits(raw.meta.alarmLow, raw.meta.alarmHigh),
                      ChannelLimits(raw.meta.warnLow, raw.meta.warnHigh),
                      raw.meta.prec, raw.meta.units);
    }
    var status: seq<int> := [];
    var severity: seq<int> := [];
    var time: seq<int> := [];
    var values: seq<seq<Scalar>> := [];
    var i := 0;
    while i < |raw.values|
      invariant 0 <= i <= |raw.values|
      invariant |status| == |severity| == |time| == |values| == i
      invariant forall k :: 0 <= k < i ==>
        && status[k] == raw.values[k].stat
        && severity[k] == raw.values[k].sevr
        && time[k] == Timestamp(raw.values[k].secs, raw.values[k].nano)
        && values[k] == raw.values[k].value
    {
      var sample := raw.values[i];
      status := status + [sample.stat];
      severity := severity + [sample.sevr];
      time := time + [Timestamp(sample.secs, sample.nano)];
      values := values + [sample.value];
      i := i + 1;
    }
    cd := ChannelData(raw.name, raw.dataType, meta, raw.count, status, severity, time, values);
  }

  /** Exactly one of the two metadata shapes is present: `states` is set
      if and only if the limits, precision and units are all absent. */
  lemma NormalizedMetaExclusive(raw: ArchiveData)
    ensures var cd := Normalize(raw);
      && (cd.States().Some? <==> raw.meta.kind == 0)
      && (cd.States().Some? <==> cd.DisplayLimits().None?)
      && cd.DisplayLimits().None? == cd.AlarmLimits().None? == cd.WarnLimits().None?
                                  == cd.Precision().None? == cd.Units().None?
  {
  }

  /** A discrete record's result does not depend on the numeric fields the
      server may leave unset, nor a numeric one's on the states. */
  lemma NormalizeIgnoresUnusedMeta(a: ArchiveData, b: ArchiveData)
    requires a.name == b.name && a.dataType == b.dataType && a.count == b.count
    requires a.values == b.values && a.meta.kind == b.meta.kind
    requires a.meta.kind == 0 ==> a.meta.states == b.meta.states
    requires a.meta.kind != 0 ==> a.meta.(states := b.meta.states) == b.meta
    ensures Normalize(a) == Normalize(b)
  {
  }
}
