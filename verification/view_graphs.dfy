/** The chart data of the graphs view: the inclusive date-range filters of the
    bar and scatter charts, the device-signal projection, the netmask, URL and
    per-day histograms, and the running count of network requests. */
module ViewGraphs {
  import opened Wrappers
  import opened Timeline
  import opened Seqs
  import opened Tally
  import opened Text
  import opened Records

  /** The test applied by the range filters: `new Date(item.timestamp)` lies
      between the two bounds, both inclusive. An invalid date (`None`) fails
      every comparison. */
  function Keep<T>(stampOf: T -> string, startBound: string, endBound: string,
                   parse: string -> Option<Instant>): T -> bool
  {
    x => Within(parse(stampOf(x)), parse(startBound), parse(endBound))
  }

  /** `filterBarDataByTimestamp` and `filterScatterDataByTimestamp`: an empty
      bound leaves the data as it is; otherwise keep every occurrence of the items
      inside the range, in order, and nothing else. */
  function RangeFilter<T(!new)>(data: seq<T>, stampOf: T -> string, startBound: string,
                                endBound: string, parse: string -> Option<Instant>): (r: seq<T>)
    ensures startBound == "" || endBound == "" ==> r == data
    ensures startBound != "" && endBound != "" ==>
              forall x :: x in r <==> x in data && Within(parse(stampOf(x)), parse(startBound), parse(endBound))
    ensures startBound != "" && endBound != "" ==>
              forall x :: multiset(r)[x]
                          == if Within(parse(stampOf(x)), parse(startBound), parse(endBound)) then multiset(data)[x] else 0
    ensures IsSubseq(r, data)
  {
    if startBound == "" || endBound == "" then
      SubseqOfSelf(data);
      data
    else
      var keep := Keep(stampOf, startBound, endBound, parse);
      assert forall x :: multiset(Filter(keep, data))[x] == if keep(x) then multiset(data)[x] else 0 by {
        forall x ensures multiset(Filter(keep, data))[x] == if keep(x) then multiset(data)[x] else 0 {
          FilterCount(keep, data, x);
        }
      }
      Filter(keep, data)
  }

  /** An unparsable bound empties the chart: every comparison with it is false. */
  lemma InvalidBoundEmpties<T(!new)>(data: seq<T>, stampOf: T -> string, startBound: string,
                                    endBound: string, parse: string -> Option<Instant>)
    requires startBound != "" && endBound != ""
    requires parse(startBound).None? || parse(endBound).None?
    ensures RangeFilter(data, stampOf, startBound, endBound, parse) == []
  {
  }

  /** A point of the signal-strength scatter chart. A storage device has no
      `Signal Strength`, which reads as `undefined` (`None`). */
  datatype DeviceSignal = DeviceSignal(deviceName: string, signalStrength: Option<int>, timestamp: string)

  function ToSignal(d: DeviceRecord): DeviceSignal
  {
    DeviceSignal(d.deviceName,
                 if d.details.WifiDetails? then Some(d.details.signalStrength) else None,
                 d.timestamp)
  }

  /** The `response.data.map(...)` of `fetchDeviceSignalData`: one point per
      record, in the same order. */
  function DeviceSignals(data: seq<DeviceRecord>): (r: seq<DeviceSignal>)
    ensures |r| == |data|
    ensures forall i :: 0 <= i < |data| ==>
              r[i].deviceName == data[i].deviceName && r[i].timestamp == data[i].timestamp
    ensures forall i :: 0 <= i < |data| ==>
              (r[i].signalStrength.Some? <==> data[i].details.WifiDetails?)
    ensures forall i :: 0 <= i < |data| && data[i].details.WifiDetails? ==>
              r[i].signalStrength == Some(data[i].details.signalStrength)
  {
    Map(ToSignal, data)
  }

  function SignalStamp(s: DeviceSignal): string
  {
    s.timestamp
  }

  function DeviceStamp(d: DeviceRecord): string
  {
    d.timestamp
  }

  /** The projection keeps the timestamp, so filtering the scatter points is the
      same as projecting the records inside the range. */
  lemma FilterCommutesWithSignals(data: seq<DeviceRecord>, startBound: string, endBound: string,
                                  parse: string -> Option<Instant>)
    ensures RangeFilter(DeviceSignals(data), SignalStamp, startBound, endBound, parse)
            == DeviceSignals(RangeFilter(data, DeviceStamp, startBound, endBound, parse))
  {
    if startBound != "" && endBound != "" {
      forall d ensures Keep(DeviceStamp, startBound, endBound, parse)(d)
                       == Keep(SignalStamp, startBound, endBound, parse)(ToSignal(d)) {
        assert SignalStamp(ToSignal(d)) == DeviceStamp(d);
      }
      FilterMap(Keep(SignalStamp, startBound, endBound, parse), Keep(DeviceStamp, startBound, endBound, parse),
                ToSignal, data);
    }
  }

  /** The fields of a network-details record and of a browser-history record the
      histograms read. */
  datatype NetworkDetail = NetworkDetail(netmask: string)

  datatype HistoryVisit = HistoryVisit(url: string, timestamp: string)

  datatype NetworkRequest = NetworkRequest(timestamp: string)

  function NetmaskOf(d: NetworkDetail): string
  {
    d.netmask
  }

  function UrlOf(v: HistoryVisit): string
  {
    v.url
  }

  /** `netmaskCounts`: one key per netmask present, counting its records. */
  function NetmaskCounts(data: seq<NetworkDetail>): (h: map<string, nat>)
    ensures h.Keys == KeySet(data, NetmaskOf)
    ensures forall k :: k in h ==> h[k] >= 1 && h[k] == CountKey(data, NetmaskOf, k)
  {
    Histogram(data, NetmaskOf)
  }

  /** The doughnut's values, read in the order the netmasks first appear, add up
      to the number of records. */
  lemma NetmaskCountsTotal(data: seq<NetworkDetail>)
    ensures forall i :: 0 <= i < |Distinct(Map(NetmaskOf, data))| ==>
              Distinct(Map(NetmaskOf, data))[i] in NetmaskCounts(data)
    ensures SumValues(NetmaskCounts(data), Distinct(Map(NetmaskOf, data))) == |data|
  {
    HistogramTotal(data, NetmaskOf);
  }

  /** `urlVisitCounts`: one key per URL present, counting its visits. */
  function UrlVisitCounts(data: seq<HistoryVisit>): (h: map<string, nat>)
    ensures h.Keys == KeySet(data, UrlOf)
    ensures forall k :: k in h ==> h[k] >= 1 && h[k] == CountKey(data, UrlOf, k)
  {
    Histogram(data, UrlOf)
  }

  lemma UrlVisitCountsTotal(data: seq<HistoryVisit>)
    ensures forall i :: 0 <= i < |Distinct(Map(UrlOf, data))| ==>
              Distinct(Map(UrlOf, data))[i] in UrlVisitCounts(data)
    ensures SumValues(UrlVisitCounts(data), Distinct(Map(UrlOf, data))) == |data|
  {
    HistogramTotal(data, UrlOf);
  }

  /** `item.timestamp.split(' ')[0]`: the part of the timestamp before the first
      space. */
  function DayOf(r: NetworkRequest): (day: string)
    ensures ' ' !in day && StartsWith(r.timestamp, day)
    ensures |day| < |r.timestamp| ==> r.timestamp[|day|] == ' '
  {
    Before(r.timestamp, ' ')
  }

  /** `processedData`: requests counted per day. */
  function ProcessedData(data: seq<NetworkRequest>): (h: map<string, nat>)
    ensures h.Keys == KeySet(data, DayOf)
    ensures forall k :: k in h ==> ' ' !in k && h[k] >= 1 && h[k] == CountKey(data, DayOf, k)
  {
    Histogram(data, DayOf)
  }

  /** Two requests stamped "<day> <time>" with the same day fall in one bucket,
      and the per-day counts add up to the number of requests. */
  lemma ProcessedDataTotal(data: seq<NetworkRequest>)
    ensures forall i :: 0 <= i < |Distinct(Map(DayOf, data))| ==>
              Distinct(Map(DayOf, data))[i] in ProcessedData(data)
    ensures SumValues(ProcessedData(data), Distinct(Map(DayOf, data))) == |data|
  {
    HistogramTotal(data, DayOf);
  }

  /** A timestamp "<day> <time>" with a space-free day lands in the bucket `day`. */
  lemma DayOfStamp(day: string, time: string)
    requires ' ' !in day
    ensures DayOf(NetworkRequest(day + " " + time)) == day
  {
    var s := day + " " + time;
    var r := DayOf(NetworkRequest(s));
    assert s[|day|] == ' ';
    assert s[..|day|] == day;
  }

  /** The line chart of network requests: `labels` the full timestamps, and
      `dataValues` the running count 1, 2, ..., n. */
  datatype LineSeries = LineSeries(labels: seq<string>, values: seq<nat>)

  function RequestSeries(data: seq<NetworkRequest>): (r: LineSeries)
    ensures |r.labels| == |data| && |r.values| == |data|
    ensures forall i :: 0 <= i < |data| ==> r.labels[i] == data[i].timestamp
    ensures forall i, j :: 0 <= i < j < |r.values| ==> r.values[i] < r.values[j]
    ensures |data| > 0 ==> r.values[0] == 1 && r.values[|data| - 1] == |data|
    ensures forall i :: 0 <= i < |r.values| ==> 1 <= r.values[i] <= |data|
  {
    LineSeries(seq(|data|, i requires 0 <= i < |data| => data[i].timestamp),
               seq(|data|, i => i + 1))
  }
}
